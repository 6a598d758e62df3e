/** The measurement directives of the delay and power stimuli, as records:
    which signal triggers and which is the target, at which threshold and
    edge, from which time on, and the power-integration windows. The text
    format of the directives is not modelled. */
module Measures {
  import opened Base
  import opened TestCycles

  datatype Signal = Clk | Dout(bit: nat)

  datatype Edge = Rise | Fall

  datatype Measure =
    | DelayMeasure(name: string, trigger: Signal, target: Signal,
                   trigVal: real, targVal: real, trigDir: Edge, targDir: Edge,
                   trigTd: real, targTd: real)
    | PowerMeasure(name: string, tInitial: real, tFinal: real)

  /** The cycle indices create_test_cycles records. */
  datatype CycleIndices = CycleIndices(write0: nat, read0: nat, idle: nat, write1: nat, read1: nat)

  const StandardIndices := CycleIndices(Write0Cycle, Read0Cycle, IdleCycle, Write1Cycle, Read1Cycle)

  /** The indices create_test_cycles holds once it has added the first k
      cycles of the test program, starting from ix. */
  function RecordedAfter(ix: CycleIndices, k: nat): CycleIndices
  {
    CycleIndices(
      if k > Write0Cycle then Write0Cycle else ix.write0,
      if k > Read0Cycle then Read0Cycle else ix.read0,
      if k > IdleCycle then IdleCycle else ix.idle,
      if k > Write1Cycle then Write1Cycle else ix.write1,
      if k > Read1Cycle then Read1Cycle else ix.read1)
  }

  /** Every power window of write_delay_measures ends at the next cycle's
      start, which must exist. */
  predicate IndicesFit(times: seq<real>, ix: CycleIndices)
  {
    ix.write0 + 1 < |times| && ix.read0 + 1 < |times| && ix.write1 + 1 < |times| && ix.read1 + 1 < |times|
  }

  /** The directives of write_delay_measures: delays from the clock's rising
      edge to the probed output at half supply, slews between the 90% and
      10% crossings of the output, referenced to the read0 (high-to-low)
      and read1 (low-to-high) cycles; then one power window per write0,
      write1, read0 and read1 cycle. */
  function DelayMeasures(times: seq<real>, ix: CycleIndices, probeData: nat, vdd: real): seq<Measure>
    requires IndicesFit(times, ix)
  {
    var targ := Dout(probeData);
    var half := 0.5 * vdd;
    [ DelayMeasure("DELAY_HL", Clk, targ, half, half, Rise, Fall, times[ix.read0], times[ix.read0]),
      DelayMeasure("DELAY_LH", Clk, targ, half, half, Rise, Rise, times[ix.read1], times[ix.read1]),
      DelayMeasure("SLEW_HL", targ, targ, 0.9 * vdd, 0.1 * vdd, Fall, Fall, times[ix.read0], times[ix.read0]),
      DelayMeasure("SLEW_LH", targ, targ, 0.1 * vdd, 0.9 * vdd, Rise, Rise, times[ix.read1], times[ix.read1]),
      PowerMeasure("WRITE0_POWER", times[ix.write0], times[ix.write0 + 1]),
      PowerMeasure("WRITE1_POWER", times[ix.write1], times[ix.write1 + 1]),
      PowerMeasure("READ0_POWER", times[ix.read0], times[ix.read0 + 1]),
      PowerMeasure("READ1_POWER", times[ix.read1], times[ix.read1 + 1]) ]
  }

  /** The single directive of write_power_measures: leakage over the second
      simulated period. */
  function PowerMeasures(period: real): seq<Measure>
  {
    [PowerMeasure("leakage_power", period, 2.0 * period)]
  }

  /** The simulated duration of a delay stimulus: one period past the last cycle start. */
  function DelayStimulusEnd(times: seq<real>, period: real): real
    requires |times| > 0
  {
    times[|times| - 1] + period
  }

  /** The simulated duration of a power stimulus. */
  function PowerStimulusEnd(period: real): real { 2.0 * period }

  /** On the cycles of create_test_cycles the recorded indices fit, the
      power windows are [2p, 3p], [6p, 7p], [4p, 5p] and [9p, 10p], each one
      period long, the delay and slew measures start at the read0 cycle
      (4p) for high-to-low and the read1 cycle (9p) for low-to-high, all
      target the probed output, and the stimulus runs for 11 periods. */
  lemma DelayMeasureWindows(probe: string, wordSize: nat, period: real, probeData: nat, vdd: real)
    ensures var w := Build(TestProgram(probe, wordSize), period, wordSize, |probe|);
      && IndicesFit(w.times, StandardIndices)
      && DelayStimulusEnd(w.times, period) == 11.0 * period
      && var ms := DelayMeasures(w.times, StandardIndices, probeData, vdd);
         && |ms| == 8
         && (forall k :: 0 <= k < 4 ==>
               (ms[k].DelayMeasure? && ms[k].target == Dout(probeData)
                && ms[k].trigTd == ms[k].targTd
                && ms[k].trigTd == (if k % 2 == 0 then 4.0 * period else 9.0 * period)))
         && (forall k :: 4 <= k < 8 ==>
               (ms[k].PowerMeasure? && ms[k].tFinal - ms[k].tInitial == period))
         && [ms[4].tInitial, ms[5].tInitial, ms[6].tInitial, ms[7].tInitial]
              == [2.0 * period, 6.0 * period, 4.0 * period, 9.0 * period]
  {
    var p := TestProgram(probe, wordSize);
    BuildTimes(p, period, wordSize, |probe|);
    MeasureWindowsAt(Build(p, period, wordSize, |probe|).times, period, probeData, vdd);
  }

  /** The same windows for any eleven cycle starts one period apart. */
  lemma MeasureWindowsAt(times: seq<real>, period: real, probeData: nat, vdd: real)
    requires |times| == 11
    requires forall i :: 0 <= i < |times| ==> times[i] == i as real * period
    ensures IndicesFit(times, StandardIndices)
    ensures DelayStimulusEnd(times, period) == 11.0 * period
    ensures var ms := DelayMeasures(times, StandardIndices, probeData, vdd);
         && |ms| == 8
         && (forall k :: 0 <= k < 4 ==>
               (ms[k].DelayMeasure? && ms[k].target == Dout(probeData)
                && ms[k].trigTd == ms[k].targTd
                && ms[k].trigTd == (if k % 2 == 0 then 4.0 * period else 9.0 * period)))
         && (forall k :: 4 <= k < 8 ==>
               (ms[k].PowerMeasure? && ms[k].tFinal - ms[k].tInitial == period))
         && [ms[4].tInitial, ms[5].tInitial, ms[6].tInitial, ms[7].tInitial]
              == [2.0 * period, 6.0 * period, 4.0 * period, 9.0 * period]
  {
    assert times[2] == 2.0 * period && times[3] == 3.0 * period;
    assert times[4] == 4.0 * period && times[5] == 5.0 * period;
    assert times[6] == 6.0 * period && times[7] == 7.0 * period;
    assert times[9] == 9.0 * period && times[10] == 10.0 * period;
  }

  /** The leakage window is the second period and closes exactly when the
      power stimulus ends. */
  lemma PowerMeasureWindow(period: real)
    ensures var ms := PowerMeasures(period);
      |ms| == 1 && ms[0].PowerMeasure?
      && ms[0].tInitial == period && ms[0].tFinal == PowerStimulusEnd(period)
      && ms[0].tFinal - ms[0].tInitial == period
  {
  }
}
