/** One circuit simulation as the characterizer sees it: the raw measure
    values the simulator reports (a measure that failed is the marker
    "Failed", here `None`), the validity check on the four timing
    measures, the scaled result record of run_delay_simulation, and the
    acceptance test of try_period. The simulator itself and the helpers
    relative_compare and round_time are parameters of the model. */
module Simulation {
  import opened Base

  /** Seconds to nanoseconds. */
  const NsPerSecond: real := 1_000_000_000.0

  /** Watts to milliwatts. */
  const MwPerWatt: real := 1000.0

  /** The eight measures of a delay stimulus, in seconds and watts. */
  datatype Measurements = Measurements(
    delayHl: Option<real>, delayLh: Option<real>, slewHl: Option<real>, slewLh: Option<real>,
    read0Power: Option<real>, read1Power: Option<real>, write0Power: Option<real>, write1Power: Option<real>)

  /** The result record of a successful delay simulation, in ns and mW. */
  datatype DelayResults = DelayResults(
    delayHl: real, delayLh: real, slewHl: real, slewLh: real,
    read0Power: real, read1Power: real, write0Power: real, write1Power: real)

  /** Everything outside the characterizer that it consults:
      `sim(period, load, slew)` runs the delay stimulus of the probed bit,
      `leakage(period, load, trim)` runs the power stimulus on the full
      (trim false) or trimmed netlist, `close(a, b)` is relative_compare
      with the 5% tolerance the characterizer always passes, and
      `roundTime` is round_time. */
  datatype Oracle = Oracle(
    sim: (real, real, real) -> Measurements,
    leakage: (real, real, bool) -> Option<real>,
    close: (real, real) -> bool,
    roundTime: real -> real)

  /** A measured time, scaled to ns, fits into the period. */
  predicate FitsPeriod(v: Option<real>, period: real)
  {
    v.Some? && v.value * NsPerSecond <= period
  }

  /** check_valid_delays: all four timing measures are numbers and none of
      them, in ns, is longer than the period. */
  predicate CheckValidDelays(m: Measurements, period: real)
  {
    FitsPeriod(m.delayHl, period) && FitsPeriod(m.delayLh, period)
    && FitsPeriod(m.slewHl, period) && FitsPeriod(m.slewLh, period)
  }

  predicate PowersMeasured(m: Measurements)
  {
    m.read0Power.Some? && m.read1Power.Some? && m.write0Power.Some? && m.write1Power.Some?
  }

  /** run_delay_simulation: `Ok(None)` is the source's (False, {}), `Ok(Some(r))`
      its (True, r); a power measure that failed reaches the scaling by 1e3,
      where Python raises. The delays of a good run are at most one period. */
  function RunDelaySimulation(m: Measurements, period: real): (r: Result<Option<DelayResults>>)
    ensures r == Ok(None) <==> !CheckValidDelays(m, period)
    ensures r.Err? <==> CheckValidDelays(m, period) && !PowersMeasured(m)
    ensures r.Err? ==> r.error == PowerNotNumeric
    ensures r.Ok? && r.value.Some? ==>
      var d := r.value.value;
      && d.delayHl <= period && d.delayLh <= period && d.slewHl <= period && d.slewLh <= period
      && d.delayHl == m.delayHl.value * NsPerSecond && d.delayLh == m.delayLh.value * NsPerSecond
      && d.slewHl == m.slewHl.value * NsPerSecond && d.slewLh == m.slewLh.value * NsPerSecond
      && d.read0Power == m.read0Power.value * MwPerWatt && d.read1Power == m.read1Power.value * MwPerWatt
      && d.write0Power == m.write0Power.value * MwPerWatt && d.write1Power == m.write1Power.value * MwPerWatt
  {
    if !CheckValidDelays(m, period) then Ok(None)
    else if !PowersMeasured(m) then Err(PowerNotNumeric)
    else Ok(Some(DelayResults(
      m.delayHl.value * NsPerSecond, m.delayLh.value * NsPerSecond,
      m.slewHl.value * NsPerSecond, m.slewLh.value * NsPerSecond,
      m.read0Power.value * MwPerWatt, m.read1Power.value * MwPerWatt,
      m.write0Power.value * MwPerWatt, m.write1Power.value * MwPerWatt)))
  }

  /** try_period: the same validity test as check_valid_delays, then both
      delays (not the slews) must stay close to the feasible ones. */
  function TryPeriod(m: Measurements, period: real, feasibleLh: real, feasibleHl: real,
                     close: (real, real) -> bool): (ok: bool)
    ensures ok <==> CheckValidDelays(m, period)
                    && close(m.delayLh.value * NsPerSecond, feasibleLh)
                    && close(m.delayHl.value * NsPerSecond, feasibleHl)
  {
    if !CheckValidDelays(m, period) then false
    else if !close(m.delayLh.value * NsPerSecond, feasibleLh) then false
    else close(m.delayHl.value * NsPerSecond, feasibleHl)
  }

  /** A delay of exactly one period passes: the comparison is `>`, not `>=`. */
  lemma ValidDelaysAcceptOnePeriod(period: real)
    ensures var v := Some(period / NsPerSecond);
      CheckValidDelays(Measurements(v, v, v, v, None, None, None, None), period)
  {
  }

  /** A measure that failed makes the whole run invalid, whatever the others are. */
  lemma FailedMeasureInvalidates(m: Measurements, period: real)
    requires m.delayHl.None? || m.delayLh.None? || m.slewHl.None? || m.slewLh.None?
    ensures !CheckValidDelays(m, period)
    ensures RunDelaySimulation(m, period) == Ok(None)
    ensures !TryPeriod(m, period, 0.0, 0.0, (a: real, b: real) => true)
  {
  }

  /** try_period does not look at the slews' values beyond the period test:
      two runs with the same delays whose valid slews differ get the same verdict. */
  lemma TryPeriodIgnoresSlews(m: Measurements, n: Measurements, period: real,
                              feasibleLh: real, feasibleHl: real, close: (real, real) -> bool)
    requires m.delayHl == n.delayHl && m.delayLh == n.delayLh
    requires FitsPeriod(m.slewHl, period) && FitsPeriod(m.slewLh, period)
    requires FitsPeriod(n.slewHl, period) && FitsPeriod(n.slewLh, period)
    ensures TryPeriod(m, period, feasibleLh, feasibleHl, close) == TryPeriod(n, period, feasibleLh, feasibleHl, close)
  {
  }

  /** try_period never parses the power measures, so it can accept a run that
      run_delay_simulation would abort on. */
  lemma TryPeriodIgnoresPowers()
    ensures var v := Some(1.0 / NsPerSecond);
      var m := Measurements(v, v, v, v, None, None, None, None);
      && TryPeriod(m, 1.0, 1.0, 1.0, (a: real, b: real) => a == b)
      && RunDelaySimulation(m, 1.0) == Err(PowerNotNumeric)
  {
  }

  /** An accepted period yields a good delay simulation whenever the powers
      were measured, and its delays are the ones try_period compared. */
  lemma AcceptedPeriodSimulates(m: Measurements, period: real, feasibleLh: real, feasibleHl: real,
                                close: (real, real) -> bool)
    requires TryPeriod(m, period, feasibleLh, feasibleHl, close) && PowersMeasured(m)
    ensures var r := RunDelaySimulation(m, period);
      r.Ok? && r.value.Some? && close(r.value.value.delayLh, feasibleLh) && close(r.value.value.delayHl, feasibleHl)
  {
  }
}
