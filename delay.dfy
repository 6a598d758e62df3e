/** The characterizer object: its simulation settings, the probe point and
    the per-cycle buffers are fields, and its methods update them in place
    as the source's methods do. Each method is proved against the value
    model of the other modules: the buffer methods move `Buffers()` exactly
    as `TestCycles.Step` and `TestCycles.Build` do, the searches end as
    `PeriodSearch.FeasibleSearch` and `PeriodSearch.Bisect` say, and
    `Analyze` returns `Characterization.Characterize`. */
module DelayCharacterizer {
  import opened Base
  import opened BinaryStrings
  import opened ProbeArguments
  import opened TestCycles
  import opened Measures
  import opened Simulation
  import opened PeriodSearch
  import opened Characterization

  /** A process corner: process name, supply voltage and temperature. */
  datatype Corner = Corner(process: string, vdd: real, temperature: real)

  class Delay {
    const wordSize: nat
    const addrSize: nat

    var corner: Corner
    var period: real
    var load: real
    var slew: real
    var probeAddress: string
    var probeData: ProbeBit

    var tCurrent: real
    var cycleComments: seq<CycleComment>
    var cycleTimes: seq<real>
    var webValues: seq<Bit>
    var oebValues: seq<Bit>
    var csbValues: seq<Bit>
    var dataValues: seq<seq<Bit>>
    var addrValues: seq<seq<Bit>>

    var write0Cycle: nat
    var read0Cycle: nat
    var idleCycle: nat
    var write1Cycle: nat
    var read1Cycle: nat

    /** The cycle buffers as one value. */
    function Buffers(): Waveforms
      reads this`tCurrent, this`cycleComments, this`cycleTimes, this`webValues, this`oebValues,
            this`csbValues, this`dataValues, this`addrValues
    {
      Waveforms(tCurrent, cycleComments, cycleTimes, webValues, oebValues, csbValues, dataValues, addrValues)
    }

    /** The recorded cycle indices. */
    function Indices(): CycleIndices
      reads this`write0Cycle, this`read0Cycle, this`idleCycle, this`write1Cycle, this`read1Cycle
    {
      CycleIndices(write0Cycle, read0Cycle, idleCycle, write1Cycle, read1Cycle)
    }

    /** One list per data pin and per address pin. */
    predicate LanesFit()
      reads this`dataValues, this`addrValues
    {
      |dataValues| == wordSize && |addrValues| == addrSize
    }

    /** The settings of a new characterizer: period 0, load and slew 0 and
        the given corner; the probe point is unset until SetProbe. */
    constructor (wordSize: nat, addrSize: nat, corner: Corner)
      ensures this.wordSize == wordSize && this.addrSize == addrSize
      ensures this.corner == corner && period == 0.0 && load == 0.0 && slew == 0.0
      ensures Buffers() == Empty(wordSize, addrSize)
    {
      this.wordSize := wordSize;
      this.addrSize := addrSize;
      this.corner := corner;
      period := 0.0;
      load := 0.0;
      slew := 0.0;
      probeAddress := "";
      probeData := NotAnInt;
      tCurrent := 0.0;
      cycleComments := [];
      cycleTimes := [];
      webValues := [];
      oebValues := [];
      csbValues := [];
      dataValues := NoLanes(wordSize);
      addrValues := NoLanes(addrSize);
      write0Cycle, read0Cycle, idleCycle, write1Cycle, read1Cycle := 0, 0, 0, 0, 0;
    }

    method SetCorner(c: Corner)
      modifies this`corner
      ensures corner == c
    {
      corner := c;
    }

    method SetLoadSlew(l: real, s: real)
      modifies this`load, this`slew
      ensures load == l && slew == s
    {
      load := l;
      slew := s;
    }

    /** The probe point; the netlist trimming it also triggers is not modelled. */
    method SetProbe(address: string, data: ProbeBit)
      modifies this`probeAddress, this`probeData
      ensures probeAddress == address && probeData == data
    {
      probeAddress := address;
      probeData := data;
    }

    /** find_feasible_period: from the technology's start period, run a
        delay simulation and double the period until one is valid, giving
        up when the counter, decremented before each try, reaches 0. The
        period field holds the last period tried. */
    method FindFeasiblePeriod(o: Oracle, start: real) returns (r: Result<Feasible>)
      modifies this`period
      ensures var run := FeasibleSearch(o, load, slew, start, FeasibleTimeOut, old(period));
        r == run.result && period == run.period
    {
      ghost var run := FeasibleSearch(o, load, slew, start, FeasibleTimeOut, period);
      var l, s := load, slew;
      // the period set, written back to the field on the way out
      var current := period;
      var feasiblePeriod := start;
      var timeOut: nat := FeasibleTimeOut;
      while true
        invariant timeOut >= 1
        invariant SameFeasible(FeasibleSearch(o, l, s, feasiblePeriod, timeOut, current), run)
        decreases timeOut
      {
        ghost var counter := timeOut;
        timeOut := timeOut - 1;
        if timeOut <= 0 {
          period := current;
          return Err(FeasiblePeriodTimeout);
        }
        var t := FeasibleTry(o, l, s, feasiblePeriod);
        match t {
          case Err(e) =>
            FeasibleEnds(o, l, s, feasiblePeriod, counter, current, run);
            period := feasiblePeriod;
            return Err(e);
          case Ok(None) =>
            FeasibleGoesOn(o, l, s, feasiblePeriod, counter, current, run);
            current := feasiblePeriod;
            feasiblePeriod := 2.0 * feasiblePeriod;
          case Ok(Some(d)) =>
            FeasibleEnds(o, l, s, feasiblePeriod, counter, current, run);
            period := feasiblePeriod;
            return Ok(Feasible(d.delayLh, d.delayHl));
        }
      }
    }

    /** find_min_period: bisect between 0 and the period set, moving the
        upper bound to every target that passes try_period and the lower
        bound to every one that does not, until the two are close; the
        counter is decremented before each try and gives up at 0. The
        period field holds the last target. */
    method FindMinPeriod(o: Oracle, feasible: Feasible) returns (r: Result<real>)
      modifies this`period
      ensures var run := Bisect(o, load, slew, feasible, 0.0, old(period), MinPeriodTimeOut, old(period));
        r == run.result && period == run.last
    {
      ghost var run := Bisect(o, load, slew, feasible, 0.0, period, MinPeriodTimeOut, period);
      var l, s := load, slew;
      // the period set, written back to the field on the way out
      var current := period;
      var ub := period;
      var lb := 0.0;
      var timeOut: nat := MinPeriodTimeOut;
      while true
        invariant timeOut >= 1
        invariant SameBisect(Bisect(o, l, s, feasible, lb, ub, timeOut, current), run)
        decreases timeOut
      {
        ghost var counter := timeOut;
        timeOut := timeOut - 1;
        if timeOut <= 0 {
          period := current;
          return Err(MinPeriodTimeout);
        }
        var target := 0.5 * (ub + lb);
        var accepted := MinTry(o, l, s, feasible, target);
        var lb', ub' := NextLower(accepted, lb, target), NextUpper(accepted, ub, target);
        if o.close(ub', lb') {
          BisectStops(o, l, s, feasible, lb, ub, counter, current, run, target, accepted);
          period := target;
          return Ok(ub');
        }
        BisectGoesOn(o, l, s, feasible, lb, ub, counter, current, run, target, accepted);
        current, lb, ub := target, lb', ub';
      }
    }

    /** analyze, with two changes: the probe bit must be below word_size,
        and the leakage runs, the sweep and the period field left set use
        the period find_min_period returned instead of its last target. It
        sets the probe, searches at the largest load and slew for a feasible
        and then the minimum period, measures the full and trimmed leakage,
        then simulates every (slew, load) pair, slew outer and load inner,
        and collects the measures with the powers moved to the full
        netlist's leakage. The probe checks are those the first delay
        stimulus runs; the searches start from the period set before. */
    method Analyze(o: Oracle, start: real, address: string, data: ProbeBit, slews: seq<real>, loads: seq<real>)
      returns (r: Result<CharTable>)
      modifies this`period, this`load, this`slew, this`probeAddress, this`probeData
      ensures r == Characterize(o, start, old(period), address, data, addrSize, wordSize, slews, loads)
      ensures probeAddress == address && probeData == data
      ensures r.Ok? ==> load == loads[|loads| - 1] && slew == slews[|slews| - 1]
      ensures r.Ok? ==>
        var p := Prepare(o, start, old(period), address, data, addrSize, wordSize, slews, loads);
        p.Ok? && period == p.value.bisect.ub
    {
      ghost var current := period;
      SetProbe(address, data);
      if |loads| == 0 || |slews| == 0 {
        return Err(EmptySweep);
      }
      match ValidateProbe(probeAddress, probeData, addrSize, wordSize) {
        case Fail(e) => return Err(e);
        case Pass =>
      }
      // 1) a feasible period and its delays at the largest load and slew
      SetLoadSlew(Max(loads), Max(slews));
      var feasible := FindFeasiblePeriod(o, start);
      ghost var f := FeasibleSearch(o, load, slew, start, FeasibleTimeOut, current);
      assert Prepare(o, start, current, address, data, addrSize, wordSize, slews, loads)
          == Periods(o, start, current, load, slew);
      if feasible.Err? {
        return Err(feasible.error);
      }
      if !(feasible.value.delayLh > 0.0) || !(feasible.value.delayHl > 0.0) {
        return Err(NonPositiveDelay);
      }
      // 2) the minimum period
      SetLoadSlew(Max(loads), Max(slews));
      var minPeriod := FindMinPeriod(o, feasible.value);
      ghost var b := Bisect(o, load, slew, feasible.value, 0.0, f.period, MinPeriodTimeOut, f.period);
      if minPeriod.Err? {
        return Err(minPeriod.error);
      }
      assert Periods(o, start, current, load, slew) == Ok(Search(feasible.value, f.period, b));
      BisectReturnsUpperBound(o, load, slew, feasible.value, 0.0, f.period, MinPeriodTimeOut, f.period);
      period := minPeriod.value;
      // 3) the leakage of the full and the trimmed netlist
      var leakage := Leakages(o, period, load);
      if leakage.Err? {
        return Err(leakage.error);
      }
      // 4) every (slew, load) pair
      var table := EmptyTable(o.roundTime(minPeriod.value), leakage.value.full);
      r := SweepTable(o, leakage.value.full, leakage.value.trim, table, slews, loads);
    }

    /** Step 4 of analyze: one delay simulation per (slew, load) pair,
        slew outer and load inner, each appended to the table with its
        powers corrected; a simulation check_valid_delays rejects stops the
        analysis with the pair it failed at. */
    method SweepTable(o: Oracle, full: real, trim: real, table0: CharTable, slews: seq<real>, loads: seq<real>)
      returns (r: Result<CharTable>)
      modifies this`load, this`slew
      ensures var sw := Sweep(o, period, Points(slews, loads), full, trim);
        r == if sw.Err? then Err(sw.error) else Ok(Assemble(table0, sw.value))
      ensures r.Ok? && |slews| > 0 && |loads| > 0 ==> load == loads[|loads| - 1] && slew == slews[|slews| - 1]
    {
      var table := table0;
      var i := 0;
      while i < |slews|
        invariant 0 <= i <= |slews|
        invariant var sw := Sweep(o, period, Points(slews[..i], loads), full, trim);
          sw.Ok? && table == Assemble(table0, sw.value)
        invariant i > 0 && |loads| > 0 ==> load == loads[|loads| - 1] && slew == slews[i - 1]
      {
        var row := SweepRow(o, full, trim, table0, slews, loads, i, table);
        if row.Err? {
          RowsStop(o, period, slews, loads, i, full, trim);
          return row;
        }
        table := row.value;
        i := i + 1;
      }
      assert slews[..i] == slews;
      r := Ok(table);
    }

    /** The inner loop of the sweep: the loads at slew `i`, after the rows
        of the slews before it went well. */
    method SweepRow(o: Oracle, full: real, trim: real, table0: CharTable, slews: seq<real>, loads: seq<real>,
                    i: nat, table1: CharTable)
      returns (r: Result<CharTable>)
      requires i < |slews|
      requires var sw := Sweep(o, period, Points(slews[..i], loads), full, trim);
        sw.Ok? && table1 == Assemble(table0, sw.value)
      modifies this`load, this`slew
      ensures var sw := Sweep(o, period, Points(slews[..i + 1], loads), full, trim);
        r == if sw.Err? then Err(sw.error) else Ok(Assemble(table0, sw.value))
      ensures r.Ok? && |loads| > 0 ==> load == loads[|loads| - 1] && slew == slews[i]
      ensures |loads| == 0 ==> load == old(load) && slew == old(slew)
    {
      var p := period;
      var table := table1;
      var j := 0;
      // the points swept so far
      ghost var done := Points(slews[..i], loads);
      assert done + Row(slews[i], loads[..j]) == done;
      PointsSnoc(slews, loads, i);
      while j < |loads|
        invariant 0 <= j <= |loads|
        invariant done == Points(slews[..i], loads) + Row(slews[i], loads[..j])
        invariant var sw := Sweep(o, p, done, full, trim);
          sw.Ok? && table == Assemble(table0, sw.value)
        invariant j > 0 ==> load == loads[j - 1] && slew == slews[i]
        invariant j == 0 ==> load == old(load) && slew == old(slew)
      {
        var ld, sl := loads[j], slews[i];
        SetLoadSlew(ld, sl);
        var t := RunDelaySimulation(o.sim(p, ld, sl), p);
        DoneSnoc(slews, loads, i, j);
        if t.Err? || t.value.None? {
          SweepFailsAt(o, p, done, Point(sl, ld), full, trim, t);
          RowStops(o, p, Points(slews[..i], loads), sl, loads, j, full, trim);
          return if t.Err? then Err(t.error) else Err(SimulationFailed(sl, ld));
        }
        SweepExtends(o, p, done, Point(sl, ld), full, trim, table0, table, t);
        table := AppendResult(table, Corrected(t.value.value, full, trim));
        done := done + [Point(sl, ld)];
        j := j + 1;
      }
      assert loads[..j] == loads;
      r := Ok(table);
    }

    /** add_data: the first pin lists receive the word's bits until the
        length check or a character that is not a bit stops it. */
    method AddData(data: string) returns (r: Outcome)
      requires |dataValues| == wordSize
      modifies this`dataValues
      ensures dataValues == AppendBits(old(dataValues), data, LaneProgress(data, wordSize))
      ensures r == WordCheck(data, wordSize, InvalidDataWordSize, NonBinaryData)
    {
      if |data| != wordSize {
        assert AppendBits(dataValues, data, 0) == dataValues;
        return Fail(InvalidDataWordSize);
      }
      var index := 0;
      while index < |data|
        invariant 0 <= index <= |data|
        invariant IsBinary(data[..index])
        invariant dataValues == AppendBits(old(dataValues), data, index)
      {
        var c := data[index];
        if c == '0' {
          dataValues := dataValues[index := dataValues[index] + [0]];
        } else if c == '1' {
          dataValues := dataValues[index := dataValues[index] + [1]];
        } else {
          FirstNonBinaryAt(data, index);
          return Fail(NonBinaryData);
        }
        assert data[..index + 1] == data[..index] + [c];
        index := index + 1;
      }
      assert data[..index] == data;
      FirstNonBinaryOfBinary(data);
      return Pass;
    }

    /** add_address, the same walk over the address pins. */
    method AddAddress(address: string) returns (r: Outcome)
      requires |addrValues| == addrSize
      modifies this`addrValues
      ensures addrValues == AppendBits(old(addrValues), address, LaneProgress(address, addrSize))
      ensures r == WordCheck(address, addrSize, InvalidAddressSize, NonBinaryAddress)
    {
      if |address| != addrSize {
        assert AppendBits(addrValues, address, 0) == addrValues;
        return Fail(InvalidAddressSize);
      }
      var index := 0;
      while index < |address|
        invariant 0 <= index <= |address|
        invariant IsBinary(address[..index])
        invariant addrValues == AppendBits(old(addrValues), address, index)
      {
        var c := address[index];
        if c == '0' {
          addrValues := addrValues[index := addrValues[index] + [0]];
        } else if c == '1' {
          addrValues := addrValues[index := addrValues[index] + [1]];
        } else {
          FirstNonBinaryAt(address, index);
          return Fail(NonBinaryAddress);
        }
        assert address[..index + 1] == address[..index] + [c];
        index := index + 1;
      }
      assert address[..index] == address;
      FirstNonBinaryOfBinary(address);
      return Pass;
    }

    /** The body shared by add_noop, add_read and add_write. */
    method AddCycle(kind: OpKind, comment: string, address: string, data: string) returns (r: Outcome)
      requires LanesFit()
      modifies this`cycleComments, this`cycleTimes, this`tCurrent, this`webValues, this`oebValues,
               this`csbValues, this`dataValues, this`addrValues
      ensures LanesFit()
      ensures Buffers() == PartialStep(old(Buffers()), CycleSpec(kind, comment, address, data), period)
      ensures r == CycleOutcome(CycleSpec(kind, comment, address, data), wordSize, addrSize)
    {
      StartCycle(kind, comment);
      r := AddData(data);
      if r.Fail? {
        return;
      }
      r := AddAddress(address);
    }

    /** The part every add_* call shares: the comment, the cycle's start
        time, the next start time and the three control pin levels. */
    method StartCycle(kind: OpKind, comment: string)
      modifies this`cycleComments, this`cycleTimes, this`tCurrent, this`webValues, this`oebValues,
               this`csbValues
      ensures var index := if kind == Noop then |old(cycleTimes)| else |old(cycleComments)|;
        cycleComments == old(cycleComments) + [CycleComment(index, old(tCurrent), comment)]
      ensures cycleTimes == old(cycleTimes) + [old(tCurrent)] && tCurrent == old(tCurrent) + period
      ensures webValues == old(webValues) + [Controls(kind).0]
      ensures oebValues == old(oebValues) + [Controls(kind).1]
      ensures csbValues == old(csbValues) + [Controls(kind).2]
    {
      var index := if kind == Noop then |cycleTimes| else |cycleComments|;
      cycleComments := cycleComments + [CycleComment(index, tCurrent, comment)];
      cycleTimes := cycleTimes + [tCurrent];
      tCurrent := tCurrent + period;
      var (web, oeb, csb) := Controls(kind);
      webValues := webValues + [web];
      oebValues := oebValues + [oeb];
      csbValues := csbValues + [csb];
    }

    /** add_noop: a cycle with the memory deselected. */
    method AddNoop(comment: string, address: string, data: string) returns (r: Outcome)
      requires LanesFit()
      modifies this`cycleComments, this`cycleTimes, this`tCurrent, this`webValues, this`oebValues,
               this`csbValues, this`dataValues, this`addrValues
      ensures LanesFit()
      ensures r == CycleOutcome(CycleSpec(Noop, comment, address, data), wordSize, addrSize)
      ensures r == Pass ==> Buffers() == Step(old(Buffers()), CycleSpec(Noop, comment, address, data), period)
    {
      r := AddCycle(Noop, comment, address, data);
    }

    /** add_read: a cycle with output enable and chip select active. */
    method AddRead(comment: string, address: string, data: string) returns (r: Outcome)
      requires LanesFit()
      modifies this`cycleComments, this`cycleTimes, this`tCurrent, this`webValues, this`oebValues,
               this`csbValues, this`dataValues, this`addrValues
      ensures LanesFit()
      ensures r == CycleOutcome(CycleSpec(Read, comment, address, data), wordSize, addrSize)
      ensures r == Pass ==> Buffers() == Step(old(Buffers()), CycleSpec(Read, comment, address, data), period)
    {
      r := AddCycle(Read, comment, address, data);
    }

    /** add_write: a cycle with write enable and chip select active. */
    method AddWrite(comment: string, address: string, data: string) returns (r: Outcome)
      requires LanesFit()
      modifies this`cycleComments, this`cycleTimes, this`tCurrent, this`webValues, this`oebValues,
               this`csbValues, this`dataValues, this`addrValues
      ensures LanesFit()
      ensures r == CycleOutcome(CycleSpec(Write, comment, address, data), wordSize, addrSize)
      ensures r == Pass ==> Buffers() == Step(old(Buffers()), CycleSpec(Write, comment, address, data), period)
    {
      r := AddCycle(Write, comment, address, data);
    }

    /** create_test_cycles: resets the buffers, builds the complement of the
        probe address (stopping on a character that is not a bit), then
        makes the eleven add_* calls of the test program. A probe address of
        the wrong length passes the complement step and stops the first
        cycle after its data word was added. */
    method CreateTestCycles() returns (r: Outcome)
      modifies this`tCurrent, this`cycleComments, this`cycleTimes, this`webValues, this`oebValues,
               this`csbValues, this`dataValues, this`addrValues,
               this`write0Cycle, this`read0Cycle, this`idleCycle, this`write1Cycle, this`read1Cycle
      ensures r == Pass <==> IsBinary(probeAddress) && |probeAddress| == addrSize
      ensures r == Pass ==> Buffers() == Build(TestProgram(probeAddress, wordSize), period, wordSize, addrSize)
      ensures !IsBinary(probeAddress) ==> r == Fail(NonBinaryAddress) && Buffers() == Empty(wordSize, addrSize)
      ensures IsBinary(probeAddress) && |probeAddress| != addrSize ==> r == Fail(InvalidAddressSize)
      ensures Indices() == if r == Pass then StandardIndices else old(Indices())
    {
      ResetBuffers();
      var inverse, ok := InverseAddress(probeAddress);
      if !ok {
        return Fail(NonBinaryAddress);
      }
      var ones := Repeat('1', wordSize);
      var zeros := Repeat('0', wordSize);
      var cycles := TestCycleList(probeAddress, inverse, ones, zeros);
      TestProgramOutcomes(probeAddress, wordSize, addrSize);
      r := AddTestCycles(cycles, if |probeAddress| == addrSize then Pass else Fail(InvalidAddressSize));
      BuildAll(cycles, period, wordSize, addrSize);
    }

    /** One line of create_test_cycles: the add_noop, add_read or add_write
        call the cycle's kind names. */
    method AddListed(c: CycleSpec) returns (r: Outcome)
      requires LanesFit()
      modifies this`tCurrent, this`cycleComments, this`cycleTimes, this`webValues, this`oebValues,
               this`csbValues, this`dataValues, this`addrValues
      ensures LanesFit()
      ensures r == CycleOutcome(c, wordSize, addrSize)
      ensures r == Pass ==> Buffers() == Step(old(Buffers()), c, period)
    {
      match c.kind {
        case Noop => r := AddNoop(c.comment, c.address, c.data);
        case Read => r := AddRead(c.comment, c.address, c.data);
        case Write => r := AddWrite(c.comment, c.address, c.data);
      }
    }

    /** The reset of the stimulus buffers at the top of create_test_cycles. */
    method ResetBuffers()
      modifies this`tCurrent, this`cycleComments, this`cycleTimes, this`webValues, this`oebValues,
               this`csbValues, this`dataValues, this`addrValues
      ensures Buffers() == Empty(wordSize, addrSize)
    {
      tCurrent := 0.0;
      cycleComments := [];
      cycleTimes := [];
      webValues := [];
      oebValues := [];
      csbValues := [];
      dataValues := NoLanes(wordSize);
      addrValues := NoLanes(addrSize);
    }

    /** Cycle k of create_test_cycles: its add_* call, then, for the
        cycles the power measurements use, the index of the cycle just
        added. */
    method AddTestCycle(cycles: seq<CycleSpec>, k: nat, ix0: CycleIndices, ix: CycleIndices)
      returns (r: Outcome, ix': CycleIndices)
      requires k < |cycles| && LanesFit()
      requires Buffers() == BuildFirst(cycles, k, period, wordSize, addrSize)
      requires |cycleTimes| == k && ix == RecordedAfter(ix0, k)
      modifies this`tCurrent, this`cycleComments, this`cycleTimes, this`webValues, this`oebValues,
               this`csbValues, this`dataValues, this`addrValues
      ensures LanesFit()
      ensures r == CycleOutcome(cycles[k], wordSize, addrSize)
      ensures r == Pass ==> Buffers() == BuildFirst(cycles, k + 1, period, wordSize, addrSize)
      ensures r == Pass ==> |cycleTimes| == k + 1 && ix' == RecordedAfter(ix0, k + 1)
    {
      r := AddListed(cycles[k]);
      ix' := ix;
      if r.Fail? {
        return;
      }
      var last := |cycleTimes| - 1;
      ix' := CycleIndices(if k == Write0Cycle then last else ix.write0,
                          if k == Read0Cycle then last else ix.read0,
                          if k == IdleCycle then last else ix.idle,
                          if k == Write1Cycle then last else ix.write1,
                          if k == Read1Cycle then last else ix.read1);
    }

    /** The eleven add_noop / add_write / add_read calls of
        create_test_cycles on reset buffers, in order, each one stopping the
        run when it fails; the indices of the write0, read0, idle, write1
        and read1 cycles are taken as those cycles are added. Every cycle of
        the list meets the same word checks, so the first call decides. */
    method AddTestCycles(cycles: seq<CycleSpec>, outcome: Outcome) returns (r: Outcome)
      requires |cycles| == 11
      requires forall i :: 0 <= i < |cycles| ==> CycleOutcome(cycles[i], wordSize, addrSize) == outcome
      requires Buffers() == Empty(wordSize, addrSize)
      modifies this`tCurrent, this`cycleComments, this`cycleTimes, this`webValues, this`oebValues,
               this`csbValues, this`dataValues, this`addrValues,
               this`write0Cycle, this`read0Cycle, this`idleCycle, this`write1Cycle, this`read1Cycle
      ensures r == outcome
      ensures r == Pass ==> Buffers() == BuildFirst(cycles, |cycles|, period, wordSize, addrSize)
      ensures Indices() == if r == Pass then StandardIndices else old(Indices())
    {
      r := Pass;
      var ix0 := Indices();
      var ix := ix0;
      var k := 0;
      while k < |cycles|
        invariant 0 <= k <= |cycles| && LanesFit()
        invariant Buffers() == BuildFirst(cycles, k, period, wordSize, addrSize)
        invariant |cycleTimes| == k
        invariant r == Pass && (k > 0 ==> outcome == Pass)
        invariant ix == RecordedAfter(ix0, k) && Indices() == ix0
      {
        r, ix := AddTestCycle(cycles, k, ix0, ix);
        if r.Fail? {
          return;
        }
        k := k + 1;
      }
      SetIndices(ix);
    }

    method SetIndices(ix: CycleIndices)
      modifies this`write0Cycle, this`read0Cycle, this`idleCycle, this`write1Cycle, this`read1Cycle
      ensures Indices() == ix
    {
      write0Cycle, read0Cycle, idleCycle, write1Cycle, read1Cycle := ix.write0, ix.read0, ix.idle, ix.write1, ix.read1;
    }
  }
}
