# SRAM delay characterizer

A Dafny model of the timing and power characterizer of an SRAM compiler,
the class `delay` in `compiler/characterizer/delay.py`. For one probed
bit cell (a probe address and a data bit), the characterizer:

- builds an eleven-cycle read/write/idle test program, one control level
  per cycle and one bit list per address and data pin;
- checks the probe point;
- finds a feasible clock period by doubling and then the minimum period by
  bisection, with a circuit simulator as the judge;
- measures the leakage of the full and the trimmed netlist;
- simulates every (slew, load) pair at the minimum period, collecting
  delays, slews and powers into a table with the powers moved from the
  trimmed to the full netlist's leakage.

The simulator, `relative_compare` and `round_time` are fields of an
`Oracle` value. Every result of the model is stated in terms of those
fields, whatever they are.

Modules, following the source:

- `Base` — `Option`, `Result`, `Outcome` and the error conditions the
  source raises through `debug.error` and `debug.check`.
- `BinaryStrings` — binary strings, the inverse address and its loop.
- `ProbeArguments` — `check_arguments`, including what Python's
  `int(s, 2)` accepts.
- `TestCycles` — the value model of the cycle buffers: one cycle `Step`,
  the whole program `Build`, and the eleven cycles of create_test_cycles.
- `ReadBack` — what each read of the test program returns from a memory.
  This explains why the program has the cycles it has.
- `Measures` — the measure statements of the delay and power stimuli, as
  records.
- `Simulation` — one delay simulation: check_valid_delays, the result
  record of run_delay_simulation, and the acceptance test of try_period.
- `PeriodSearch` — find_feasible_period and find_min_period as functions
  of the oracle, with their invariants.
- `Characterization` — the leakage pair, the sweep, the power correction
  and the whole analysis as functions.
- `DelayCharacterizer` — the class `Delay`. Its fields are the ones the
  source updates. Its methods use loops and field updates as the source
  does, and are proved to end in the state the function model gives.

## Model

| member | source | states |
|---|---|---|
| DelayCharacterizer.Delay.constructor | compiler/characterizer/delay.py:28-41 | a new characterizer has period, load and slew 0 and the given corner; it also starts the cycle buffers empty, with one list per data and address pin, as the reset of create_test_cycles does |
| DelayCharacterizer.Delay.SetCorner | compiler/characterizer/delay.py:43-46 | the corner is replaced and nothing else changes |
| DelayCharacterizer.Delay.SetLoadSlew | compiler/characterizer/delay.py:48-51 | load and slew are replaced and nothing else changes |
| DelayCharacterizer.Delay.SetProbe | compiler/characterizer/delay.py:497-503 | the probe address and probe bit are replaced |
| DelayCharacterizer.Delay.AddData | compiler/characterizer/delay.py:592-603 | a word of the wrong length fails with InvalidDataWordSize and adds nothing; otherwise pin list i receives bit i until the first character that is not '0'/'1', which fails with NonBinaryData; a binary word of the right length passes and extends every pin list |
| DelayCharacterizer.Delay.AddAddress | compiler/characterizer/delay.py:605-616 | the same walk over the address pins, with InvalidAddressSize and NonBinaryAddress |
| DelayCharacterizer.Delay.StartCycle | compiler/characterizer/delay.py:618-627 | appends the comment, with the cycle number and its start time, and the start time; advances t_current by one period; appends the kind's web/oeb/csb levels |
| DelayCharacterizer.Delay.AddCycle | compiler/characterizer/delay.py:618-663 | the buffers become `PartialStep` of the old ones; the outcome is Pass iff both words are binary and of the right length |
| DelayCharacterizer.Delay.AddNoop | compiler/characterizer/delay.py:618-630 | a cycle with levels (1,1,1); on Pass the buffers are exactly one `Step` further |
| DelayCharacterizer.Delay.AddRead | compiler/characterizer/delay.py:633-646 | a cycle with levels (1,0,0); on Pass the buffers are exactly one `Step` further |
| DelayCharacterizer.Delay.AddWrite | compiler/characterizer/delay.py:650-663 | a cycle with levels (0,1,0); on Pass the buffers are exactly one `Step` further |
| DelayCharacterizer.Delay.ResetBuffers | compiler/characterizer/delay.py:670-688 | the buffers are empty, with one list per pin |
| DelayCharacterizer.Delay.AddListed | compiler/characterizer/delay.py:700-742 | one listed cycle goes to the add_* call its kind names |
| DelayCharacterizer.Delay.AddTestCycle | compiler/characterizer/delay.py:700-742 | cycle k is added, and its index is recorded when it is one of the five cycles the power measures use |
| DelayCharacterizer.Delay.AddTestCycles | compiler/characterizer/delay.py:700-742 | the eleven calls either all pass, leaving `Build` of the list and the indices 2, 4, 5, 6, 9, or the first one fails and no index changes |
| DelayCharacterizer.Delay.CreateTestCycles | compiler/characterizer/delay.py:665-742 | Pass iff the probe address is binary and addr_size long, and then the buffers are `Build(TestProgram(..))` and the indices are 2, 4, 5, 6, 9; a non-binary address fails with NonBinaryAddress and empty buffers; a binary one of the wrong length fails with InvalidAddressSize |
| DelayCharacterizer.Delay.FindFeasiblePeriod | compiler/characterizer/delay.py:279-313 | the method's loop returns what `FeasibleSearch` gives and leaves `FeasibleSearch`'s period set; the facts about the search are in PeriodSearch.FeasibleSearchFacts |
| DelayCharacterizer.Delay.FindMinPeriod | compiler/characterizer/delay.py:414-444 | the method's loop returns what `Bisect` from [0, period] gives and leaves the last target set; the facts about the bisection are in PeriodSearch.BisectFacts |
| DelayCharacterizer.Delay.Analyze | compiler/characterizer/delay.py:529-588 | returns `Characterize` of the oracle, the start period and the probe point; the probe point is set; on success load and slew are the last pair swept and the period field holds the returned minimum period |
| DelayCharacterizer.Delay.SweepTable | compiler/characterizer/delay.py:572-584 | the nested loops give the table `Sweep` of the slew-major point list assembles, or the first simulation failure |
| DelayCharacterizer.Delay.SweepRow | compiler/characterizer/delay.py:573-584 | the inner loop over the loads extends the sweep by the row of one slew, or stops at its first failure |
| BinaryStrings.Complement | compiler/characterizer/delay.py:690-698 | the inverse address has the probe address's length and every bit flipped |
| BinaryStrings.ComplementInvolutive | compiler/characterizer/delay.py:690-698 | complementing a binary string twice gives it back |
| BinaryStrings.Repeat | compiler/characterizer/delay.py:701-702 | `c * n` is n copies of c, binary when c is a bit |
| BinaryStrings.InverseAddress | compiler/characterizer/delay.py:690-698 | the loop succeeds iff the probe address is binary, and then returns its complement; otherwise it returns the complement of the part before the bad character |
| BinaryStrings.ScratchAddressIsComplement | compiler/characterizer/delay.py:690-698 | the partial inverse address is the complement of the longest binary prefix |
| ProbeArguments.BinaryParses | compiler/characterizer/delay.py:55-58 | every non-empty string of '0'/'1' passes `int(s, 2)` |
| ProbeArguments.CheckArgumentsAccepts | compiler/characterizer/delay.py:53-64 | the corrected check passes only a parsable address of exactly addr_size (at least one) characters and an integer bit in [0, word_size), and passes every binary address of that length with such a bit |
| ProbeArguments.AsWrittenAcceptsMissingPin | compiler/characterizer/delay.py:63-64 | the check as written accepts probe bit 1 of a one-bit word, which names no output pin; the corrected check rejects it |
| ProbeArguments.CheckArgumentsAcceptsPythonSpellings | compiler/characterizer/delay.py:55-58 | a sign, a 0b prefix, an underscore and surrounding blanks all pass the address test |
| ProbeArguments.CheckArgumentsRejectsMalformed | compiler/characterizer/delay.py:55-64 | a non-binary address, an address of the wrong length, a bit equal to word_size and a non-integer bit are each rejected with their own error |
| ProbeArguments.ValidateProbeAsWrittenIff | compiler/characterizer/delay.py:53-64 | with the check as written, followed by the inverse-address loop, a probe point passes iff the address is binary, exactly addr_size long and non-empty, and the bit is in [0, word_size]; every point the corrected checks pass also passes |
| ProbeArguments.ValidateProbeIff | compiler/characterizer/delay.py:53-64 | check_arguments followed by the inverse-address loop passes iff the address is binary, exactly addr_size long and non-empty, and the bit names an output pin |
| Simulation.RunDelaySimulation | compiler/characterizer/delay.py:316-356 | the run is invalid iff check_valid_delays fails; a valid run with an unmeasured power is an error; otherwise every value is scaled to ns or mW and the four times are at most one period |
| Simulation.ValidDelaysAcceptOnePeriod | compiler/characterizer/delay.py:401 | a delay of exactly one period passes check_valid_delays |
| Simulation.FailedMeasureInvalidates | compiler/characterizer/delay.py:386-394 | a failed delay or slew measure makes check_valid_delays, run_delay_simulation and try_period reject the run |
| Simulation.TryPeriod | compiler/characterizer/delay.py:447-495 | a period is accepted iff the four times are measured and fit the period and both delays are close to the feasible ones |
| Simulation.TryPeriodIgnoresSlews | compiler/characterizer/delay.py:478-485 | two runs with the same delays and fitting slews get the same verdict |
| Simulation.TryPeriodIgnoresPowers | compiler/characterizer/delay.py:447-495 | try_period can accept a run whose powers run_delay_simulation cannot scale |
| Simulation.AcceptedPeriodSimulates | compiler/characterizer/delay.py:447-495 | an accepted period with measured powers gives a good delay simulation whose delays are the ones compared |
| PeriodSearch.FeasibleSearchFacts | compiler/characterizer/delay.py:279-313 | at most 7 simulations; the k-th tries start·2^k; every try before the last was invalid; on success the period left set is the last one tried and the returned delays are its simulation's; a timeout follows exactly 7 invalid runs |
| PeriodSearch.FeasibleSearchSucceeds | compiler/characterizer/delay.py:279-313 | if the period start·2^k, with k < 7, gives a good simulation and no earlier try aborts, the search succeeds within k+1 simulations |
| PeriodSearch.FeasibleGoesOn | compiler/characterizer/delay.py:298-301 | an invalid run hands the search on to the doubled period with one try fewer |
| PeriodSearch.FeasibleEnds | compiler/characterizer/delay.py:297-313 | an aborted or a good run ends the search at that period |
| PeriodSearch.BisectFacts | compiler/characterizer/delay.py:414-444 | at most 24 tries; each halves ub − lb; lb ≤ lb' < ub' ≤ ub; ub is the start or a period that passed try_period, lb the start or one that failed; success returns ub with the bounds close; the period left set is the last target |
| PeriodSearch.BisectReturnsUpperBound | compiler/characterizer/delay.py:442-444 | a bisection that succeeds returns its final upper bound |
| PeriodSearch.BisectStops | compiler/characterizer/delay.py:430-444 | when the new bounds are close, the bisection returns the new upper bound with the target set |
| PeriodSearch.BisectGoesOn | compiler/characterizer/delay.py:430-444 | otherwise it continues from the new bounds with one try fewer |
| PeriodSearch.LastTargetMayBeRejected | compiler/characterizer/delay.py:431-444 | when the last target failed, the period left set is the final lower bound, below the returned period |
| TestCycles.WordCheck | compiler/characterizer/delay.py:592-616 | a word passes iff it is binary and of the right length; a length mismatch gives the size error, otherwise the bit error |
| TestCycles.LaneProgress | compiler/characterizer/delay.py:592-616 | the number of pin lists extended is at most the word size, and all of them for a good word |
| TestCycles.CycleOutcome | compiler/characterizer/delay.py:618-663 | an add_* call passes iff both its data and address words are good; with a good data word it fails on the address |
| TestCycles.PartialStep | compiler/characterizer/delay.py:618-663 | a cycle whose words are good moves the buffers exactly one `Step` |
| TestCycles.StepComplete | compiler/characterizer/delay.py:618-663 | one cycle appends its comment, start time, control levels and one bit per pin, and advances the clock one period |
| TestCycles.BuildAll | compiler/characterizer/delay.py:700-742 | adding the cycles one by one gives `Build` of the list |
| TestCycles.BuildLanes | compiler/characterizer/delay.py:598-616 | after well-formed cycles every data and address pin list has one entry per cycle |
| TestCycles.BuildClock | compiler/characterizer/delay.py:623-624 | after n cycles t_current is n·period |
| TestCycles.BuildTimes | compiler/characterizer/delay.py:619-623 | cycle i starts at i·period and its comment carries i, that time and its text |
| TestCycles.BuildControls | compiler/characterizer/delay.py:625-660 | cycle i's web/oeb/csb levels are those of its kind |
| TestCycles.BuildData | compiler/characterizer/delay.py:592-603 | data pin b's entry for cycle i is bit b of cycle i's word |
| TestCycles.BuildAddress | compiler/characterizer/delay.py:605-616 | address pin a's entry for cycle i is bit a of cycle i's address |
| TestCycles.TestProgramShape | compiler/characterizer/delay.py:700-742 | eleven cycles; cycles 2 and 6 write, 4 and 9 read, 5 is idle; cycles 2, 4, 6, 9, 10 use the probe address and the others its complement; only cycles 1 and 6 drive ones |
| TestCycles.TestProgramOutcomes | compiler/characterizer/delay.py:700-742 | every cycle of the program meets the same word checks, so all pass or the first fails with InvalidAddressSize |
| TestCycles.TestCyclesTiming | compiler/characterizer/delay.py:665-742 | after the program there are 11 start times i·period and t_current is 11·period |
| TestCycles.TestCyclesControls | compiler/characterizer/delay.py:665-742 | the three control lists are exactly the levels of noop, write, write, read, read, noop, write, write, read, read, noop |
| TestCycles.TestCyclesPins | compiler/characterizer/delay.py:665-742 | every data pin carries 0,1,0,0,0,0,1,0,0,0,0, and address pin a carries the probe bit on cycles 2, 4, 6, 9, 10 and its complement elsewhere |
| ReadBack.TestProgramReads | compiler/characterizer/delay.py:700-738 | the read before read0 returns ones and read0 returns zeros (a falling output), and the read before read1 returns zeros and read1 returns ones (a rising output) |
| ReadBack.CycleListMemory | compiler/characterizer/delay.py:700-738 | the memory before each of those reads is the start memory with the writes of the earlier cycles |
| Measures.DelayMeasureWindows | compiler/characterizer/delay.py:181-262 | on the test program the recorded indices fit; the delay and slew measures target DOUT[probe bit] and start at 4·period (high to low) and 9·period (low to high); the power windows start at 2, 6, 4 and 9 periods and each lasts one period; the stimulus ends at 11 periods |
| Measures.PowerMeasureWindow | compiler/characterizer/delay.py:265-277 | the leakage window is [period, 2·period], which ends where the power stimulus ends |
| Characterization.Corrected | compiler/characterizer/delay.py:578-584 | every power entry becomes v − trim + full, and every delay and slew is copied unchanged |
| Characterization.CorrectedExample | compiler/characterizer/delay.py:582 | 0.42 mW with trimmed leakage 0.05 and full 0.08 becomes 0.45 mW |
| Characterization.EmptyTable | compiler/characterizer/delay.py:561-566 | the table starts with every list empty |
| Characterization.AppendResult | compiler/characterizer/delay.py:579-584 | one result appends one value to every list and keeps the scalars |
| Characterization.PointsAt | compiler/characterizer/delay.py:572-574 | the sweep visits len(slews)·len(loads) pairs, with pair (i, j) at position i·len(loads) + j |
| Characterization.SweepFacts | compiler/characterizer/delay.py:572-584 | the sweep succeeds iff every pair simulates, and then holds the corrected result of each; otherwise it fails with the first pair's error |
| Characterization.Leakages | compiler/characterizer/delay.py:359-378 | the leakage pair exists iff both simulations measured it, scaled to mW; otherwise LeakageNotMeasured |
| Characterization.PeriodsFacts | compiler/characterizer/delay.py:549-561 | after both searches, the feasible period is start·2^j with j < 7 after j invalid runs, its delays are positive and are its simulation's, and the minimum period is the final upper bound, close to the lower bound, inside (0, feasible] |
| Characterization.FinishTable | compiler/characterizer/delay.py:561-588 | a finished table has min_period = round_time of the minimum period, leakage_power = the full leakage, len(slews)·len(loads) entries in each list, and entry i·len(loads) + j is the corrected result of pair (slews[i], loads[j]) |
| Characterization.CharacterizeTable | compiler/characterizer/delay.py:529-588 | a successful analysis had a valid probe point and non-empty sweeps, swept at the returned minimum period, and gives the table FinishTable describes |
| Characterization.ProbeCheckedBeforeSimulation | compiler/characterizer/delay.py:84-92 | an empty sweep or a bad probe point ends the analysis with that error, whatever the simulator does |
| Characterization.MalformedProbeExamples | compiler/characterizer/delay.py:53-61 | the analysis rejects the address "10x1" as not binary and "101" as the wrong length for a 4-bit bus |
| Characterization.LastTarget | compiler/characterizer/delay.py:430-444 | after successful searches, the last target find_min_period set is the final upper bound if it passed try_period, and otherwise the final lower bound, strictly below it |
| Characterization.BothAfterPrepare | compiler/characterizer/delay.py:558-577 | when the corrected checks and the searches succeed, the as-written ones give the same searches, and the two analyses differ only in the period the leakage and the sweep run at |
| Characterization.AsWrittenSimulatesMissingPin | compiler/characterizer/delay.py:53-64 | for every simulator, the corrected analysis stops bit 1 of a one-bit word with ProbeDataInvalid, while the as-written one goes on to the period searches |
| Characterization.AsWrittenSweepPeriod | compiler/characterizer/delay.py:558-577 | sweeping at the last target, as written, agrees with the corrected analysis when that target passed try_period; otherwise that period is below the returned minimum |
| Characterization.SweepAtLastTargetFails | compiler/characterizer/delay.py:558-584 | for one concrete simulator, the corrected analysis returns a table, and the analysis as written fails at the one (slew, load) pair |

## Left out

- Stimulus files: the text of the delay and power stimuli, the PWL sources
  (gen_data, gen_addr, gen_control), the supply and instance lines, and all
  file I/O. Measure statements are kept as records in `Measures`.
- parse_spice_list and run_sim: the simulator is the oracle `sim` and
  `leakage`. A measure reported as "Failed" is `None`.
- prepare_netlist and the netlist trimming that set_probe triggers, because
  they only copy or trim files.
- analytical_delay, because it wraps calls into the SRAM object, which is
  not part of this model.
- relative_compare and round_time come from a helper module that is not
  part of this model. They are the oracle's `close` and `roundTime`. A
  5% relative comparison is defined only for the concrete scenario.
- debug.info logging. debug.error and debug.check, which end the run, are
  error results. The stimulus after a probe address of the wrong length is
  not modelled past the first failing add_* call.
- Floating point: periods, delays and powers are reals. The 1e9 and 1e3
  scalings are exact, and there is no IEEE rounding.
- The cycle comments of create_test_cycles name the addresses "00..00"
  and "11..11". The cycles use the inverse address and the probe address,
  as the code does. The program has 11 cycles, and the write in cycle 1
  drives ones as well as the write1 cycle. find_feasible_period runs at
  most 7 simulations, because its counter of 8 is decremented before the
  check.
- `max` of an empty slew or load list raises in Python. The model returns
  the error EmptySweep instead.
- ProbeArguments.CheckArguments: `int(s, 2)` is modelled for ASCII input.
  Python also accepts non-ASCII decimal digits and Unicode white space.
- DelayCharacterizer.Delay.Analyze: follows the corrected analysis in two
  ways (see Findings). It checks the probe bit against word_size with the
  corrected bound, so bit word_size is rejected. It sweeps, measures
  leakage and leaves the period field at the returned minimum period, not
  at the last bisection target. `Characterization.CharacterizeAsWritten`
  is the analysis as written, with both the as-written check and the
  as-written sweep period.
- DelayCharacterizer.Delay.constructor: also starts the cycle buffers and
  the probe fields, which `__init__` leaves to create_test_cycles and
  set_probe, so that the class's fields always exist.
- DelayCharacterizer.Delay.SetProbe: does not re-trim the netlist.

## Findings

| source | as written | input that shows it | evidently intended | confidence | as-written member | corrected member |
|---|---|---|---|---|---|---|
| compiler/characterizer/delay.py:63 | the probe bit is rejected only when it is greater than word_size, so probe_data == word_size passes | word_size 1, addr_size 1, probe address "1", probe bit 1: accepted, although only DOUT[0] exists | reject probe_data >= word_size, so that the bit names one of the pins DOUT[0..word_size-1] | not executed | ProbeArguments.AsWrittenAcceptsMissingPin | ProbeArguments.CheckArgumentsAccepts |
| compiler/characterizer/delay.py:558-577 | find_min_period leaves self.period at its last bisection target, and the leakage and the sweep run at self.period; when the last target failed try_period, that period is the lower bound, below the returned minimum | a simulator whose delays are valid only for periods ≥ 0.2 ns, start period 0.2, one slew and one load: the last target is 0.19375 and the sweep fails there | sweep at the returned minimum period, which the comment at line 443 calls always feasible | not executed | Characterization.SweepAtLastTargetFails | Characterization.CharacterizeTable |
