/** The analysis the characterizer runs for one probe point: find a
    feasible period at the largest load and slew, bisect for the minimum
    period, measure the leakage of the full and the trimmed netlist, then
    simulate every (slew, load) pair, slew outer and load inner, and
    collect the delays, slews and leakage-corrected powers into one table
    per measure. */
module Characterization {
  import opened Base
  import opened BinaryStrings
  import opened ProbeArguments
  import opened Simulation
  import opened PeriodSearch

  /** One point of the characterization sweep. */
  datatype Point = Point(slew: real, load: real)

  /** The points of one slew, in load order. */
  function Row(slew: real, loads: seq<real>): (r: seq<Point>)
    ensures |r| == |loads|
    ensures forall j :: 0 <= j < |loads| ==> r[j] == Point(slew, loads[j])
  {
    seq(|loads|, j requires 0 <= j < |loads| => Point(slew, loads[j]))
  }

  /** The points in the order of the nested sweep loops. */
  function Points(slews: seq<real>, loads: seq<real>): seq<Point>
  {
    if |slews| == 0 then []
    else Points(slews[..|slews| - 1], loads) + Row(slews[|slews| - 1], loads)
  }

  lemma MulMono(a: nat, b: nat, c: nat)
    requires a <= b
    ensures a * c <= b * c
  {
  }

  /** There is one point per (slew, load) pair. */
  lemma {:induction false} PointsLength(slews: seq<real>, loads: seq<real>)
    ensures |Points(slews, loads)| == |slews| * |loads|
    decreases |slews|
  {
    if |slews| > 0 {
      var n := |slews|;
      PointsLength(slews[..n - 1], loads);
      assert (n - 1) * |loads| + |loads| == n * |loads|;
    }
  }

  /** Point `i * |loads| + j` of the sweep is slew `i` with load `j`. */
  lemma {:induction false} PointAt(slews: seq<real>, loads: seq<real>, i: nat, j: nat)
    requires i < |slews| && j < |loads|
    ensures i * |loads| + j < |Points(slews, loads)|
    ensures Points(slews, loads)[i * |loads| + j] == Point(slews[i], loads[j])
    decreases |slews|
  {
    var n := |slews|;
    var l := |loads|;
    var init := slews[..n - 1];
    PointsLength(slews, loads);
    PointsLength(init, loads);
    if i < n - 1 {
      PointAt(init, loads, i, j);
      assert init[i] == slews[i];
    } else {
      assert i * l + j == (n - 1) * l + j;
    }
  }

  /** Both facts for every pair at once. */
  lemma {:induction false} PointsAt(slews: seq<real>, loads: seq<real>)
    ensures |Points(slews, loads)| == |slews| * |loads|
    ensures forall i, j :: 0 <= i < |slews| && 0 <= j < |loads| ==>
              i * |loads| + j < |Points(slews, loads)| &&
              Points(slews, loads)[i * |loads| + j] == Point(slews[i], loads[j])
  {
    PointsLength(slews, loads);
    forall i, j | 0 <= i < |slews| && 0 <= j < |loads|
      ensures i * |loads| + j < |Points(slews, loads)|
      ensures Points(slews, loads)[i * |loads| + j] == Point(slews[i], loads[j])
    {
      PointAt(slews, loads, i, j);
    }
  }

  /** The measures of a result record, the keys of the table. */
  datatype Key = DelayLh | DelayHl | SlewLh | SlewHl | Read0Power | Read1Power | Write0Power | Write1Power

  predicate IsPower(k: Key)
  {
    k == Read0Power || k == Read1Power || k == Write0Power || k == Write1Power
  }

  function Get(d: DelayResults, k: Key): real
  {
    match k
    case DelayLh => d.delayLh
    case DelayHl => d.delayHl
    case SlewLh => d.slewLh
    case SlewHl => d.slewHl
    case Read0Power => d.read0Power
    case Read1Power => d.read1Power
    case Write0Power => d.write0Power
    case Write1Power => d.write1Power
  }

  /** A result with each power measure moved from the trimmed netlist's
      leakage to the full netlist's: `v - trim + full`. */
  function Corrected(d: DelayResults, full: real, trim: real): (c: DelayResults)
    ensures forall k :: Get(c, k) == if IsPower(k) then Get(d, k) - trim + full else Get(d, k)
  {
    d.(read0Power := d.read0Power - trim + full, read1Power := d.read1Power - trim + full,
       write0Power := d.write0Power - trim + full, write1Power := d.write1Power - trim + full)
  }

  /** The correction with the figures 0.42 mW measured, 0.05 mW trimmed
      leakage and 0.08 mW full leakage gives 0.45 mW. */
  lemma CorrectedExample(d: DelayResults)
    requires d.read0Power == 0.42
    ensures Corrected(d, 0.08, 0.05).read0Power == 0.45
  {
  }

  /** The characterization table: the rounded minimum period, one list per
      measure, and the full netlist's leakage. */
  datatype CharTable = CharTable(
    minPeriod: real,
    delayLh: seq<real>, delayHl: seq<real>, slewLh: seq<real>, slewHl: seq<real>,
    read0Power: seq<real>, read1Power: seq<real>, write0Power: seq<real>, write1Power: seq<real>,
    leakagePower: real)

  function Column(t: CharTable, k: Key): seq<real>
  {
    match k
    case DelayLh => t.delayLh
    case DelayHl => t.delayHl
    case SlewLh => t.slewLh
    case SlewHl => t.slewHl
    case Read0Power => t.read0Power
    case Read1Power => t.read1Power
    case Write0Power => t.write0Power
    case Write1Power => t.write1Power
  }

  function EmptyTable(minPeriod: real, leakagePower: real): (t: CharTable)
    ensures forall k :: Column(t, k) == []
  {
    CharTable(minPeriod, [], [], [], [], [], [], [], [], leakagePower)
  }

  /** One pass of the innermost loop over the result's items: each value is
      appended to its measure's list. */
  function AppendResult(t: CharTable, d: DelayResults): (t': CharTable)
    ensures forall k :: Column(t', k) == Column(t, k) + [Get(d, k)]
    ensures t'.minPeriod == t.minPeriod && t'.leakagePower == t.leakagePower
  {
    t.(delayLh := t.delayLh + [d.delayLh], delayHl := t.delayHl + [d.delayHl],
       slewLh := t.slewLh + [d.slewLh], slewHl := t.slewHl + [d.slewHl],
       read0Power := t.read0Power + [d.read0Power], read1Power := t.read1Power + [d.read1Power],
       write0Power := t.write0Power + [d.write0Power], write1Power := t.write1Power + [d.write1Power])
  }

  /** The table after appending every result in order. */
  function Assemble(t: CharTable, rs: seq<DelayResults>): CharTable
  {
    if |rs| == 0 then t else AppendResult(Assemble(t, rs[..|rs| - 1]), rs[|rs| - 1])
  }

  /** Entry `i` of every list is measure `k` of result `i`, after whatever
      the lists held already. */
  lemma {:induction false} AssembleAt(t: CharTable, rs: seq<DelayResults>)
    ensures var a := Assemble(t, rs);
      && a.minPeriod == t.minPeriod && a.leakagePower == t.leakagePower
      && forall k :: |Column(a, k)| == |Column(t, k)| + |rs|
                     && Column(a, k)[..|Column(t, k)|] == Column(t, k)
                     && forall i :: 0 <= i < |rs| ==> Column(a, k)[|Column(t, k)| + i] == Get(rs[i], k)
    decreases |rs|
  {
    if |rs| > 0 {
      var init := rs[..|rs| - 1];
      AssembleAt(t, init);
      var a := Assemble(t, rs);
      var b := Assemble(t, init);
      forall k
        ensures |Column(a, k)| == |Column(t, k)| + |rs|
        ensures Column(a, k)[..|Column(t, k)|] == Column(t, k)
        ensures forall i :: 0 <= i < |rs| ==> Column(a, k)[|Column(t, k)| + i] == Get(rs[i], k)
      {
        assert Column(a, k) == Column(b, k) + [Get(rs[|rs| - 1], k)];
        forall i | 0 <= i < |rs|
          ensures Column(a, k)[|Column(t, k)| + i] == Get(rs[i], k)
        {
          if i < |rs| - 1 {
            assert init[i] == rs[i];
          }
        }
      }
    }
  }

  /** One delay simulation of the sweep; a run that check_valid_delays
      rejects stops the analysis with the point it failed at. */
  function SweepPoint(o: Oracle, period: real, pt: Point): (r: Result<DelayResults>)
  {
    match RunDelaySimulation(o.sim(period, pt.load, pt.slew), period)
    case Err(e) => Err(e)
    case Ok(None) => Err(SimulationFailed(pt.slew, pt.load))
    case Ok(Some(d)) => Ok(d)
  }

  /** The sweep over the points in order, with corrected powers. */
  function Sweep(o: Oracle, period: real, pts: seq<Point>, full: real, trim: real): Result<seq<DelayResults>>
  {
    if |pts| == 0 then Ok([])
    else
      match Sweep(o, period, pts[..|pts| - 1], full, trim)
      case Err(e) => Err(e)
      case Ok(rs) =>
        match SweepPoint(o, period, pts[|pts| - 1])
        case Err(e) => Err(e)
        case Ok(d) => Ok(rs + [Corrected(d, full, trim)])
  }

  /** The sweep succeeds iff every point's simulation does, and then holds
      one corrected result per point in order; otherwise it stops with the
      error of the first point that failed. */
  lemma {:induction false} SweepFacts(o: Oracle, period: real, pts: seq<Point>, full: real, trim: real)
    ensures var r := Sweep(o, period, pts, full, trim);
      && (r.Ok? <==> forall k :: 0 <= k < |pts| ==> SweepPoint(o, period, pts[k]).Ok?)
      && (r.Ok? ==> |r.value| == |pts|
                    && forall k :: 0 <= k < |pts| ==>
                         r.value[k] == Corrected(SweepPoint(o, period, pts[k]).value, full, trim))
      && (r.Err? ==> exists k :: 0 <= k < |pts|
                       && (forall i :: 0 <= i < k ==> SweepPoint(o, period, pts[i]).Ok?)
                       && SweepPoint(o, period, pts[k]) == Err(r.error))
    decreases |pts|
  {
    if |pts| > 0 {
      var init := pts[..|pts| - 1];
      SweepFacts(o, period, init, full, trim);
      assert forall k :: 0 <= k < |init| ==> init[k] == pts[k];
    }
  }

  /** One more point extends the sweep by that point's simulation. */
  lemma SweepSnoc(o: Oracle, period: real, pts: seq<Point>, pt: Point, full: real, trim: real)
    ensures var before := Sweep(o, period, pts, full, trim);
      var p := SweepPoint(o, period, pt);
      Sweep(o, period, pts + [pt], full, trim) ==
        if before.Err? then Err(before.error)
        else if p.Err? then Err(p.error)
        else Ok(before.value + [Corrected(p.value, full, trim)])
  {
    assert (pts + [pt])[..|pts|] == pts;
  }

  /** A point whose simulation aborts or is invalid stops a sweep that had
      gone well so far, with that point's error. */
  lemma SweepFailsAt(o: Oracle, period: real, done: seq<Point>, pt: Point, full: real, trim: real,
                     t: Result<Option<DelayResults>>)
    requires Sweep(o, period, done, full, trim).Ok?
    requires t == RunDelaySimulation(o.sim(period, pt.load, pt.slew), period)
    requires t.Err? || t.value.None?
    ensures Sweep(o, period, done + [pt], full, trim)
         == if t.Err? then Err(t.error) else Err(SimulationFailed(pt.slew, pt.load))
  {
    SweepSnoc(o, period, done, pt, full, trim);
  }

  /** A point whose simulation is good appends its corrected results to the
      table of a sweep that had gone well so far. */
  lemma SweepExtends(o: Oracle, period: real, done: seq<Point>, pt: Point, full: real, trim: real,
                     table0: CharTable, table: CharTable, t: Result<Option<DelayResults>>)
    requires var sw := Sweep(o, period, done, full, trim); sw.Ok? && table == Assemble(table0, sw.value)
    requires t == RunDelaySimulation(o.sim(period, pt.load, pt.slew), period)
    requires t.Ok? && t.value.Some?
    ensures var sw := Sweep(o, period, done + [pt], full, trim);
      sw.Ok? && Assemble(table0, sw.value) == AppendResult(table, Corrected(t.value.value, full, trim))
  {
    SweepSnoc(o, period, done, pt, full, trim);
    AssembleSnoc(table0, Sweep(o, period, done, full, trim).value, Corrected(t.value.value, full, trim));
  }

  /** The points before load `j + 1` of slew `i` are those before load `j`
      and then that point. */
  lemma DoneSnoc(slews: seq<real>, loads: seq<real>, i: nat, j: nat)
    requires i < |slews| && j < |loads|
    ensures Points(slews[..i], loads) + Row(slews[i], loads[..j + 1])
         == Points(slews[..i], loads) + Row(slews[i], loads[..j]) + [Point(slews[i], loads[j])]
  {
    RowSnoc(slews[i], loads, j);
    Associative(Points(slews[..i], loads), Row(slews[i], loads[..j]), [Point(slews[i], loads[j])]);
  }

  /** Once the sweep has stopped, the points after it change nothing. */
  lemma {:induction false} SweepStops(o: Oracle, period: real, pts: seq<Point>, more: seq<Point>, full: real, trim: real)
    requires Sweep(o, period, pts, full, trim).Err?
    ensures Sweep(o, period, pts + more, full, trim) == Sweep(o, period, pts, full, trim)
    decreases |more|
  {
    if |more| == 0 {
      assert pts + more == pts;
    } else {
      var init := more[..|more| - 1];
      SweepStops(o, period, pts, init, full, trim);
      assert (pts + more)[..|pts + more| - 1] == pts + init;
    }
  }

  lemma {:induction false} PointsAppend(a: seq<real>, b: seq<real>, loads: seq<real>)
    ensures Points(a + b, loads) == Points(a, loads) + Points(b, loads)
    decreases |b|
  {
    if |b| == 0 {
      assert a + b == a;
    } else {
      var init := b[..|b| - 1];
      var last := Row(b[|b| - 1], loads);
      PointsAppend(a, init, loads);
      assert (a + b)[..|a + b| - 1] == a + init;
      assert (a + b)[|a + b| - 1] == b[|b| - 1];
      assert Points(a + b, loads) == Points(a + init, loads) + last;
      assert Points(b, loads) == Points(init, loads) + last;
      Associative(Points(a, loads), Points(init, loads), last);
    }
  }

  lemma RowAppend(slew: real, a: seq<real>, b: seq<real>)
    ensures Row(slew, a + b) == Row(slew, a) + Row(slew, b)
  {
    var l := Row(slew, a + b);
    var r := Row(slew, a) + Row(slew, b);
    forall k | 0 <= k < |l|
      ensures l[k] == r[k]
    {
      if k < |a| {
        assert (a + b)[k] == a[k];
      } else {
        assert (a + b)[k] == b[k - |a|];
      }
    }
  }

  /** A sweep that stops at the point of slew `i` and load `j` stops the
      whole sweep there. */
  lemma SweepStopsInRow(o: Oracle, period: real, slews: seq<real>, loads: seq<real>, i: nat, j: nat,
                        full: real, trim: real)
    requires i < |slews| && j < |loads|
    requires Sweep(o, period, Points(slews[..i], loads) + Row(slews[i], loads[..j + 1]), full, trim).Err?
    ensures Sweep(o, period, Points(slews, loads), full, trim)
         == Sweep(o, period, Points(slews[..i], loads) + Row(slews[i], loads[..j + 1]), full, trim)
  {
    RowStops(o, period, Points(slews[..i], loads), slews[i], loads, j, full, trim);
    PointsSnoc(slews, loads, i);
    RowsStop(o, period, slews, loads, i, full, trim);
  }

  lemma RowStops(o: Oracle, period: real, pts: seq<Point>, slew: real, loads: seq<real>, j: nat,
                 full: real, trim: real)
    requires j < |loads|
    requires Sweep(o, period, pts + Row(slew, loads[..j + 1]), full, trim).Err?
    ensures Sweep(o, period, pts + Row(slew, loads), full, trim)
         == Sweep(o, period, pts + Row(slew, loads[..j + 1]), full, trim)
  {
    var after := loads[j + 1..];
    assert loads == loads[..j + 1] + after;
    RowAppend(slew, loads[..j + 1], after);
    Associative(pts, Row(slew, loads[..j + 1]), Row(slew, after));
    SweepStops(o, period, pts + Row(slew, loads[..j + 1]), Row(slew, after), full, trim);
  }

  lemma RowsStop(o: Oracle, period: real, slews: seq<real>, loads: seq<real>, i: nat, full: real, trim: real)
    requires i < |slews|
    requires Sweep(o, period, Points(slews[..i + 1], loads), full, trim).Err?
    ensures Sweep(o, period, Points(slews, loads), full, trim) == Sweep(o, period, Points(slews[..i + 1], loads), full, trim)
  {
    var tail := slews[i + 1..];
    assert slews == slews[..i + 1] + tail;
    PointsAppend(slews[..i + 1], tail, loads);
    SweepStops(o, period, Points(slews[..i + 1], loads), Points(tail, loads), full, trim);
  }

  lemma Associative<T>(a: seq<T>, b: seq<T>, c: seq<T>)
    ensures a + b + c == a + (b + c)
  {
  }

  /** The rows of the first `i + 1` slews are those of the first `i` and
      then row `i`. */
  lemma PointsSnoc(slews: seq<real>, loads: seq<real>, i: nat)
    requires i < |slews|
    ensures Points(slews[..i + 1], loads) == Points(slews[..i], loads) + Row(slews[i], loads)
  {
    assert slews[..i + 1][..i] == slews[..i];
  }

  /** A row over one more load ends in that load. */
  lemma RowSnoc(slew: real, loads: seq<real>, j: nat)
    requires j < |loads|
    ensures Row(slew, loads[..j + 1]) == Row(slew, loads[..j]) + [Point(slew, loads[j])]
  {
    assert loads[..j + 1] == loads[..j] + [loads[j]];
    RowAppend(slew, loads[..j], [loads[j]]);
  }

  lemma AssembleSnoc(t: CharTable, rs: seq<DelayResults>, d: DelayResults)
    ensures Assemble(t, rs + [d]) == AppendResult(Assemble(t, rs), d)
  {
    assert (rs + [d])[..|rs|] == rs;
  }

  /** The leakage of the full and of the trimmed netlist, in mW. */
  datatype Leakage = Leakage(full: real, trim: real)

  /** run_power_simulation: the full netlist first, then the trimmed one;
      either measure failing stops the analysis. */
  function Leakages(o: Oracle, period: real, load: real): (r: Result<Leakage>)
    ensures r.Ok? <==> o.leakage(period, load, false).Some? && o.leakage(period, load, true).Some?
    ensures r.Ok? ==> r.value == Leakage(o.leakage(period, load, false).value * MwPerWatt,
                                         o.leakage(period, load, true).value * MwPerWatt)
    ensures r.Err? ==> r.error == LeakageNotMeasured
  {
    match o.leakage(period, load, false)
    case None => Err(LeakageNotMeasured)
    case Some(full) =>
      match o.leakage(period, load, true)
      case None => Err(LeakageNotMeasured)
      case Some(trim) => Ok(Leakage(full * MwPerWatt, trim * MwPerWatt))
  }

  /** The outcome of the two period searches. */
  datatype Search = Search(feasible: Feasible, feasiblePeriod: real, bisect: BisectRun)

  /** Steps 1 and 2 of analyze at the largest load and slew. */
  function Periods(o: Oracle, start: real, current: real, load: real, slew: real): Result<Search>
  {
    var f := FeasibleSearch(o, load, slew, start, FeasibleTimeOut, current);
    if f.result.Err? then Err(f.result.error)
    else if !(f.result.value.delayLh > 0.0) || !(f.result.value.delayHl > 0.0) then Err(NonPositiveDelay)
    else
      var b := Bisect(o, load, slew, f.result.value, 0.0, f.period, MinPeriodTimeOut, f.period);
      if b.result.Err? then Err(b.result.error)
      else Ok(Search(f.result.value, f.period, b))
  }

  /** A successful search found its feasible period among the first seven
      doublings of the start period, after only invalid simulations, with a
      good simulation there and positive delays; the bisection then kept
      0 <= lb < ub <= feasible period, returned ub once close to lb, ub is
      the feasible period or passed try_period and lb is 0 or failed it;
      with a reflexive relative comparison the returned period passes
      try_period in any case. */
  lemma PeriodsFacts(o: Oracle, start: real, current: real, load: real, slew: real)
    ensures var r := Periods(o, start, current, load, slew);
      r.Ok? ==>
        var s := r.value;
        var b := s.bisect;
        && s.feasible.delayLh > 0.0 && s.feasible.delayHl > 0.0 && s.feasiblePeriod > 0.0
        && (exists j: nat :: j < FeasibleTimeOut - 1 && s.feasiblePeriod == Candidate(start, j)
              && (forall i: nat :: i < j ==> FeasibleTry(o, load, slew, Candidate(start, i)) == Ok(None)))
        && FeasibleTry(o, load, slew, s.feasiblePeriod) == Ok(Some(DelayResultsOf(o, load, slew, s.feasiblePeriod)))
        && s.feasible == Feasible(DelayResultsOf(o, load, slew, s.feasiblePeriod).delayLh,
                                  DelayResultsOf(o, load, slew, s.feasiblePeriod).delayHl)
        && b.result == Ok(b.ub) && 1 <= b.steps <= MinPeriodTimeOut - 1
        && 0.0 <= b.lb < b.ub <= s.feasiblePeriod && o.close(b.ub, b.lb)
        && (b.ub == s.feasiblePeriod || MinTry(o, load, slew, s.feasible, b.ub))
        && (b.lb == 0.0 || !MinTry(o, load, slew, s.feasible, b.lb))
        && ((forall x :: o.close(x, x)) ==> MinTry(o, load, slew, s.feasible, b.ub))
  {
    var f := FeasibleSearch(o, load, slew, start, FeasibleTimeOut, current);
    FeasibleSearchFacts(o, load, slew, start, FeasibleTimeOut, current);
    if f.result.Ok? && f.result.value.delayLh > 0.0 && f.result.value.delayHl > 0.0 {
      var fd := f.result.value;
      var j: nat := f.sims - 1;
      assert f.period == Candidate(start, j);
      BisectFacts(o, load, slew, fd, 0.0, f.period, MinPeriodTimeOut, f.period);
      if forall x :: o.close(x, x) {
        var m := o.sim(f.period, load, slew);
        assert o.close(m.delayLh.value * NsPerSecond, fd.delayLh);
        assert o.close(m.delayHl.value * NsPerSecond, fd.delayHl);
        assert MinTry(o, load, slew, fd, f.period);
      }
    }
  }

  /** The result record of the good simulation at `period`, if there is one. */
  function DelayResultsOf(o: Oracle, load: real, slew: real, period: real): DelayResults
  {
    var t := FeasibleTry(o, load, slew, period);
    if t.Ok? && t.value.Some? then t.value.value
    else DelayResults(0.0, 0.0, 0.0, 0.0, 0.0, 0.0, 0.0, 0.0)
  }

  /** Everything before the sweep, given the outcome of the probe checks the
      first stimulus runs: the largest load and slew (an empty list stops the
      analysis), the probe checks, then the two searches. */
  function Searches(o: Oracle, start: real, current: real, probeCheck: Outcome,
                    slews: seq<real>, loads: seq<real>): Result<Search>
  {
    if |loads| == 0 || |slews| == 0 then Err(EmptySweep)
    else
      match probeCheck
      case Fail(e) => Err(e)
      case Pass => Periods(o, start, current, Max(loads), Max(slews))
  }

  /** The steps before the sweep with the corrected probe checks. */
  function Prepare(o: Oracle, start: real, current: real, probeAddress: string, probeData: ProbeBit,
                   addrSize: nat, wordSize: nat, slews: seq<real>, loads: seq<real>): Result<Search>
  {
    Searches(o, start, current, ValidateProbe(probeAddress, probeData, addrSize, wordSize), slews, loads)
  }

  /** The steps before the sweep with check_arguments as written. */
  function PrepareAsWritten(o: Oracle, start: real, current: real, probeAddress: string, probeData: ProbeBit,
                            addrSize: nat, wordSize: nat, slews: seq<real>, loads: seq<real>): Result<Search>
  {
    Searches(o, start, current, ValidateProbeAsWritten(probeAddress, probeData, addrSize, wordSize), slews, loads)
  }

  /** Steps 3 and 4 of analyze: leakage and the sweep at `sweepPeriod`,
      reporting `minPeriod` rounded. */
  function Finish(o: Oracle, minPeriod: real, sweepPeriod: real, load: real,
                  slews: seq<real>, loads: seq<real>): Result<CharTable>
  {
    match Leakages(o, sweepPeriod, load)
    case Err(e) => Err(e)
    case Ok(leak) =>
      match Sweep(o, sweepPeriod, Points(slews, loads), leak.full, leak.trim)
      case Err(e) => Err(e)
      case Ok(rs) => Ok(Assemble(EmptyTable(o.roundTime(minPeriod), leak.full), rs))
  }

  /** analyze as intended: the sweep and the leakage runs at the minimum
      period the bisection returned. */
  function Characterize(o: Oracle, start: real, current: real, probeAddress: string, probeData: ProbeBit,
                        addrSize: nat, wordSize: nat, slews: seq<real>, loads: seq<real>): Result<CharTable>
  {
    match Prepare(o, start, current, probeAddress, probeData, addrSize, wordSize, slews, loads)
    case Err(e) => Err(e)
    case Ok(s) => Finish(o, s.bisect.ub, s.bisect.ub, Max(loads), slews, loads)
  }

  /** analyze as written: the probe bit is checked with check_arguments'
      bound, and the sweep and the leakage runs at whatever period
      find_min_period left set, its last bisection target. */
  function CharacterizeAsWritten(o: Oracle, start: real, current: real, probeAddress: string, probeData: ProbeBit,
                                 addrSize: nat, wordSize: nat, slews: seq<real>, loads: seq<real>): Result<CharTable>
  {
    match PrepareAsWritten(o, start, current, probeAddress, probeData, addrSize, wordSize, slews, loads)
    case Err(e) => Err(e)
    case Ok(s) => Finish(o, s.bisect.ub, s.bisect.last, Max(loads), slews, loads)
  }

  /** The table Finish builds from a successful sweep. */
  lemma FinishResult(o: Oracle, minPeriod: real, sweepPeriod: real, load: real, slews: seq<real>, loads: seq<real>)
    requires Finish(o, minPeriod, sweepPeriod, load, slews, loads).Ok?
    ensures var leak := Leakages(o, sweepPeriod, load);
      && leak.Ok?
      && var sw := Sweep(o, sweepPeriod, Points(slews, loads), leak.value.full, leak.value.trim);
      && sw.Ok?
      && Finish(o, minPeriod, sweepPeriod, load, slews, loads).value
         == Assemble(EmptyTable(o.roundTime(minPeriod), leak.value.full), sw.value)
  {
  }

  lemma PointEntry(slews: seq<real>, loads: seq<real>, i: nat, j: nat)
    requires i < |slews| && j < |loads|
    ensures i * |loads| + j < |Points(slews, loads)|
    ensures Points(slews, loads)[i * |loads| + j] == Point(slews[i], loads[j])
  {
    PointsAt(slews, loads);
    IndexBound(i, j, |slews|, |loads|);
  }

  lemma IndexBound(i: nat, j: nat, n: nat, l: nat)
    requires i < n && j < l
    ensures i * l + j < n * l
  {
    MulMono(i, n - 1, l);
    assert (n - 1) * l + l == n * l;
  }

  lemma SweepEntry(o: Oracle, period: real, pts: seq<Point>, full: real, trim: real, n: nat)
    requires Sweep(o, period, pts, full, trim).Ok? && n < |pts|
    ensures SweepPoint(o, period, pts[n]).Ok?
    ensures n < |Sweep(o, period, pts, full, trim).value|
    ensures Sweep(o, period, pts, full, trim).value[n] == Corrected(SweepPoint(o, period, pts[n]).value, full, trim)
  {
    SweepFacts(o, period, pts, full, trim);
  }

  lemma TableEntry(t: CharTable, rs: seq<DelayResults>, k: Key, n: nat)
    requires Column(t, k) == [] && n < |rs|
    ensures |Column(Assemble(t, rs), k)| == |rs|
    ensures Column(Assemble(t, rs), k)[n] == Get(rs[n], k)
  {
    AssembleAt(t, rs);
    assert Column(Assemble(t, rs), k)[|Column(t, k)| + n] == Get(rs[n], k);
  }

  /** Entry `i * |loads| + j` of list `k` is measure `k` of the simulation
      at slew `i` and load `j`, powers corrected by the leakage `leak`. */
  predicate EntryIs(t: CharTable, o: Oracle, period: real, leak: Leakage, slews: seq<real>, loads: seq<real>,
                    k: Key, i: nat, j: nat)
  {
    && i < |slews| && j < |loads|
    && SweepPoint(o, period, Point(slews[i], loads[j])).Ok?
    && i * |loads| + j < |Column(t, k)|
    && Column(t, k)[i * |loads| + j]
       == Get(Corrected(SweepPoint(o, period, Point(slews[i], loads[j])).value, leak.full, leak.trim), k)
  }

  /** Entry `i * |loads| + j` of list `k` of a finished table. */
  lemma FinishEntry(o: Oracle, minPeriod: real, sweepPeriod: real, load: real, slews: seq<real>, loads: seq<real>,
                    t: CharTable, leak: Leakage, k: Key, i: nat, j: nat)
    requires Finish(o, minPeriod, sweepPeriod, load, slews, loads) == Ok(t)
    requires Leakages(o, sweepPeriod, load) == Ok(leak)
    requires i < |slews| && j < |loads|
    ensures EntryIs(t, o, sweepPeriod, leak, slews, loads, k, i, j)
  {
    var pts := Points(slews, loads);
    var sw := Sweep(o, sweepPeriod, pts, leak.full, leak.trim);
    assert sw.Ok? && t == Assemble(EmptyTable(o.roundTime(minPeriod), leak.full), sw.value);
    var n := i * |loads| + j;
    PointEntry(slews, loads, i, j);
    SweepEntry(o, sweepPeriod, pts, leak.full, leak.trim, n);
    TableEntry(EmptyTable(o.roundTime(minPeriod), leak.full), sw.value, k, n);
  }

  /** The scalars and list lengths of a finished table. */
  lemma FinishShape(o: Oracle, minPeriod: real, sweepPeriod: real, load: real, slews: seq<real>, loads: seq<real>,
                    t: CharTable, leak: Leakage)
    requires Finish(o, minPeriod, sweepPeriod, load, slews, loads) == Ok(t)
    requires Leakages(o, sweepPeriod, load) == Ok(leak)
    ensures t.minPeriod == o.roundTime(minPeriod) && t.leakagePower == leak.full
    ensures forall k :: |Column(t, k)| == |slews| * |loads|
  {
    var pts := Points(slews, loads);
    var sw := Sweep(o, sweepPeriod, pts, leak.full, leak.trim);
    assert sw.Ok? && t == Assemble(EmptyTable(o.roundTime(minPeriod), leak.full), sw.value);
    PointsAt(slews, loads);
    SweepFacts(o, sweepPeriod, pts, leak.full, leak.trim);
    AssembleAt(EmptyTable(o.roundTime(minPeriod), leak.full), sw.value);
  }

  /** A finished table has one entry per sweep point in every list: entry
      `i * |loads| + j` is the simulation at slew `i` and load `j`, powers
      corrected by the leakage measured at the same period; it reports the
      rounded minimum period and the full netlist's leakage. */
  lemma FinishTable(o: Oracle, minPeriod: real, sweepPeriod: real, load: real, slews: seq<real>, loads: seq<real>)
    ensures var r := Finish(o, minPeriod, sweepPeriod, load, slews, loads);
      r.Ok? ==>
        var leak := Leakages(o, sweepPeriod, load);
        && leak.Ok?
        && r.value.minPeriod == o.roundTime(minPeriod)
        && r.value.leakagePower == leak.value.full
        && (forall k :: |Column(r.value, k)| == |slews| * |loads|)
        && forall k, i: nat, j: nat :: i < |slews| && j < |loads| ==>
             EntryIs(r.value, o, sweepPeriod, leak.value, slews, loads, k, i, j)
  {
    var r := Finish(o, minPeriod, sweepPeriod, load, slews, loads);
    if r.Ok? {
      var leak := Leakages(o, sweepPeriod, load);
      assert leak.Ok?;
      FinishShape(o, minPeriod, sweepPeriod, load, slews, loads, r.value, leak.value);
      forall k, i: nat, j: nat | i < |slews| && j < |loads|
        ensures EntryIs(r.value, o, sweepPeriod, leak.value, slews, loads, k, i, j)
      {
        FinishEntry(o, minPeriod, sweepPeriod, load, slews, loads, r.value, leak.value, k, i, j);
      }
    }
  }


  /** A characterization that succeeds had non-empty lists, a probe address
      of addr_size binary digits and a probe bit that names an output pin;
      it reports the rounded period the bisection returned, which is close
      to a lower bound and either the feasible period or a period that
      passed try_period; and every list holds, at index `i * |loads| + j`,
      the measurement at slew `i` and load `j` taken at that period. */
  lemma CharacterizeTable(o: Oracle, start: real, current: real, probeAddress: string, probeData: ProbeBit,
                          addrSize: nat, wordSize: nat, slews: seq<real>, loads: seq<real>)
    ensures var r := Characterize(o, start, current, probeAddress, probeData, addrSize, wordSize, slews, loads);
      r.Ok? ==>
        && |slews| > 0 && |loads| > 0
        && IsBinary(probeAddress) && |probeAddress| == addrSize > 0
        && probeData.IntBit? && 0 <= probeData.index < wordSize
        && var p := Prepare(o, start, current, probeAddress, probeData, addrSize, wordSize, slews, loads);
        && p.Ok?
        && var b := p.value.bisect;
        && var leak := Leakages(o, b.ub, Max(loads));
        && leak.Ok?
        && r.value.minPeriod == o.roundTime(b.ub)
        && r.value.leakagePower == leak.value.full
        && o.close(b.ub, b.lb) && b.lb < b.ub
        && (b.ub == p.value.feasiblePeriod || MinTry(o, Max(loads), Max(slews), p.value.feasible, b.ub))
        && (forall k :: |Column(r.value, k)| == |slews| * |loads|)
        && forall k, i: nat, j: nat :: i < |slews| && j < |loads| ==>
             EntryIs(r.value, o, b.ub, leak.value, slews, loads, k, i, j)
  {
    var r := Characterize(o, start, current, probeAddress, probeData, addrSize, wordSize, slews, loads);
    if r.Ok? {
      ValidateProbeIff(probeAddress, probeData, addrSize, wordSize);
      var p := Prepare(o, start, current, probeAddress, probeData, addrSize, wordSize, slews, loads);
      PeriodsFacts(o, start, current, Max(loads), Max(slews));
      var b := p.value.bisect;
      FinishTable(o, b.ub, b.ub, Max(loads), slews, loads);
    }
  }

  /** A malformed probe point stops the analysis with the probe check's
      error before any simulation, whatever the simulator would report; an
      empty load or slew list stops it even earlier. */
  lemma ProbeCheckedBeforeSimulation(o: Oracle, o': Oracle, start: real, current: real, probeAddress: string,
                                     probeData: ProbeBit, addrSize: nat, wordSize: nat,
                                     slews: seq<real>, loads: seq<real>)
    ensures |slews| == 0 || |loads| == 0 ==>
      Characterize(o, start, current, probeAddress, probeData, addrSize, wordSize, slews, loads) == Err(EmptySweep)
    ensures |slews| > 0 && |loads| > 0 && ValidateProbe(probeAddress, probeData, addrSize, wordSize).Fail? ==>
      && Characterize(o, start, current, probeAddress, probeData, addrSize, wordSize, slews, loads)
         == Err(ValidateProbe(probeAddress, probeData, addrSize, wordSize).error)
      && Characterize(o, start, current, probeAddress, probeData, addrSize, wordSize, slews, loads)
         == Characterize(o', start, current, probeAddress, probeData, addrSize, wordSize, slews, loads)
  {
  }

  /** The address "10x1" of a four-bit bus and the three-bit address "101"
      are both rejected before simulation. */
  lemma MalformedProbeExamples(o: Oracle)
    ensures Characterize(o, 1.0, 0.0, "10x1", IntBit(0), 4, 8, [0.05], [1.0]) == Err(ProbeAddressNotBinary)
    ensures Characterize(o, 1.0, 0.0, "101", IntBit(0), 4, 8, [0.05], [1.0]) == Err(ProbeAddressWrongLength)
  {
    CheckArgumentsRejectsMalformed();
  }

  /** The as-written analysis sweeps at the last bisection target. When that
      target passed try_period it is the returned period and both analyses
      agree; when it failed, the as-written sweep runs at the final lower
      bound, a period strictly below the reported minimum at which the
      worst-case point failed try_period. */
  lemma AsWrittenSweepPeriod(o: Oracle, start: real, current: real, probeAddress: string, probeData: ProbeBit,
                             addrSize: nat, wordSize: nat, slews: seq<real>, loads: seq<real>)
    ensures var p := Prepare(o, start, current, probeAddress, probeData, addrSize, wordSize, slews, loads);
      p.Ok? ==>
        var b := p.value.bisect;
        var passed := MinTry(o, Max(loads), Max(slews), p.value.feasible, b.last);
        && (passed ==>
              CharacterizeAsWritten(o, start, current, probeAddress, probeData, addrSize, wordSize, slews, loads)
              == Characterize(o, start, current, probeAddress, probeData, addrSize, wordSize, slews, loads))
        && (!passed ==> b.last == b.lb && b.last < b.ub)
  {
    var p := Prepare(o, start, current, probeAddress, probeData, addrSize, wordSize, slews, loads);
    if p.Ok? {
      BothAfterPrepare(o, start, current, probeAddress, probeData, addrSize, wordSize, slews, loads);
      assert p == Periods(o, start, current, Max(loads), Max(slews));
      LastTarget(o, start, current, Max(loads), Max(slews), p.value);
    }
  }

  /** After successful searches the last bisection target is the final
      upper bound if it passed try_period, and otherwise the final lower
      bound, strictly below the upper one. */
  lemma LastTarget(o: Oracle, start: real, current: real, load: real, slew: real, s: Search)
    requires Periods(o, start, current, load, slew) == Ok(s)
    ensures MinTry(o, load, slew, s.feasible, s.bisect.last) ==> s.bisect.last == s.bisect.ub
    ensures !MinTry(o, load, slew, s.feasible, s.bisect.last) ==>
              s.bisect.last == s.bisect.lb && s.bisect.last < s.bisect.ub
  {
    PeriodsFacts(o, start, current, load, slew);
    assert s.bisect == Bisect(o, load, slew, s.feasible, 0.0, s.feasiblePeriod, MinPeriodTimeOut, s.feasiblePeriod);
    BisectFacts(o, load, slew, s.feasible, 0.0, s.feasiblePeriod, MinPeriodTimeOut, s.feasiblePeriod);
  }

  /** Once the corrected steps before the sweep succeed, the as-written ones
      give the same searches, and the two analyses differ only in the sweep
      period. */
  lemma BothAfterPrepare(o: Oracle, start: real, current: real, probeAddress: string, probeData: ProbeBit,
                         addrSize: nat, wordSize: nat, slews: seq<real>, loads: seq<real>)
    requires Prepare(o, start, current, probeAddress, probeData, addrSize, wordSize, slews, loads).Ok?
    ensures var s := Prepare(o, start, current, probeAddress, probeData, addrSize, wordSize, slews, loads).value;
      && Characterize(o, start, current, probeAddress, probeData, addrSize, wordSize, slews, loads)
         == Finish(o, s.bisect.ub, s.bisect.ub, Max(loads), slews, loads)
      && CharacterizeAsWritten(o, start, current, probeAddress, probeData, addrSize, wordSize, slews, loads)
         == Finish(o, s.bisect.ub, s.bisect.last, Max(loads), slews, loads)
  {
    ValidateProbeAsWrittenIff(probeAddress, probeData, addrSize, wordSize);
  }

  /** The as-written analysis goes on to simulate a probe bit that names no
      output pin, which the corrected checks reject: bit 1 of a one-bit word. */
  lemma AsWrittenSimulatesMissingPin(o: Oracle)
    ensures Prepare(o, 1.0, 0.0, "1", IntBit(1), 1, 1, [1.0], [1.0]) == Err(ProbeDataInvalid)
    ensures PrepareAsWritten(o, 1.0, 0.0, "1", IntBit(1), 1, 1, [1.0], [1.0]) == Periods(o, 1.0, 0.0, 1.0, 1.0)
  {
    AsWrittenAcceptsMissingPin();
    assert Max([1.0]) == 1.0;
  }

  function Abs(x: real): real { if x >= 0.0 then x else -x }

  /** A relative comparison with the 5% tolerance: the difference is at most
      5% of the larger value's magnitude. */
  function RelativeCompare(a: real, b: real): bool
  {
    Abs(a - b) <= 0.05 * Abs(MaxReal(a, b))
  }

  /** A simulator whose probed bit reads correctly, with 0.1 ns delays and
      0.02 ns slews, at every period of at least 0.2 ns and fails below. */
  function ThresholdSim(period: real, load: real, slew: real): Measurements
  {
    if period >= 0.2 then
      var d := Some(0.0000000001);
      var s := Some(0.00000000002);
      var w := Some(0.001);
      Measurements(d, d, s, s, w, w, w, w)
    else Measurements(None, None, None, None, None, None, None, None)
  }

  const Scenario := Oracle(ThresholdSim, (period: real, load: real, trim: bool) => Some(0.0001),
                           RelativeCompare, (t: real) => t)

  /** The bisection of the scenario below: five rejected targets. */
  lemma ScenarioBisect()
    ensures Bisect(Scenario, 1.0, 0.05, Feasible(0.1, 0.1), 0.0, 0.2, MinPeriodTimeOut, 0.2)
            == BisectRun(Ok(0.2), 0.19375, 5, 0.19375, 0.2)
  {
    var o := Scenario;
    var fd := Feasible(0.1, 0.1);
    assert !MinTry(o, 1.0, 0.05, fd, 0.19375);
    var b5 := Bisect(o, 1.0, 0.05, fd, 0.1875, 0.2, 21, 0.1875);
    assert b5 == BisectRun(Ok(0.2), 0.19375, 1, 0.19375, 0.2);
    var b4 := Bisect(o, 1.0, 0.05, fd, 0.175, 0.2, 22, 0.175);
    assert b4 == b5.(steps := 2);
    var b3 := Bisect(o, 1.0, 0.05, fd, 0.15, 0.2, 23, 0.15);
    assert b3 == b4.(steps := 3);
    var b2 := Bisect(o, 1.0, 0.05, fd, 0.1, 0.2, 24, 0.1);
    assert b2 == b3.(steps := 4);
  }

  /** Steps 1 and 2 of the scenario below. */
  lemma ScenarioPrepare()
    ensures Prepare(Scenario, 0.2, 0.0, "11", IntBit(0), 2, 1, [0.05], [1.0])
            == Ok(Search(Feasible(0.1, 0.1), 0.2, BisectRun(Ok(0.2), 0.19375, 5, 0.19375, 0.2)))
    ensures PrepareAsWritten(Scenario, 0.2, 0.0, "11", IntBit(0), 2, 1, [0.05], [1.0])
            == Prepare(Scenario, 0.2, 0.0, "11", IntBit(0), 2, 1, [0.05], [1.0])
  {
    var o := Scenario;
    assert Max([1.0]) == 1.0 && Max([0.05]) == 0.05;
    BinaryParses("11");
    assert ValidateProbe("11", IntBit(0), 2, 1) == Pass;
    ValidateProbeAsWrittenIff("11", IntBit(0), 2, 1);
    assert FeasibleSearch(o, 1.0, 0.05, 0.2, FeasibleTimeOut, 0.0) == FeasibleRun(Ok(Feasible(0.1, 0.1)), 0.2, 1);
    ScenarioBisect();
  }

  lemma ScenarioPoints()
    ensures Points([0.05], [1.0]) == [Point(0.05, 1.0)]
  {
    assert [0.05][..0] == [];
  }

  lemma ScenarioSweep(period: real)
    ensures period >= 0.2 ==> Sweep(Scenario, period, [Point(0.05, 1.0)], 0.1, 0.1)
                              == Ok([DelayResults(0.1, 0.1, 0.02, 0.02, 1.0, 1.0, 1.0, 1.0)])
    ensures period < 0.2 ==> Sweep(Scenario, period, [Point(0.05, 1.0)], 0.1, 0.1)
                             == Err(SimulationFailed(0.05, 1.0))
  {
    var pts := [Point(0.05, 1.0)];
    assert pts[..0] == [];
    var d := DelayResults(0.1, 0.1, 0.02, 0.02, 1.0, 1.0, 1.0, 1.0);
    if period >= 0.2 {
      assert SweepPoint(Scenario, period, Point(0.05, 1.0)) == Ok(d);
      assert Corrected(d, 0.1, 0.1) == d;
      var none: seq<DelayResults> := [];
      assert none + [d] == [d];
    }
  }

  /** Steps 3 and 4 of the scenario below, at the returned period and at the
      last target. */
  lemma ScenarioFinish()
    ensures Finish(Scenario, 0.2, 0.2, 1.0, [0.05], [1.0])
            == Ok(CharTable(0.2, [0.1], [0.1], [0.02], [0.02], [1.0], [1.0], [1.0], [1.0], 0.1))
    ensures Finish(Scenario, 0.2, 0.19375, 1.0, [0.05], [1.0]) == Err(SimulationFailed(0.05, 1.0))
  {
    ScenarioPoints();
    ScenarioSweep(0.2);
    ScenarioSweep(0.19375);
    assert Leakages(Scenario, 0.2, 1.0) == Ok(Leakage(0.1, 0.1));
    assert Leakages(Scenario, 0.19375, 1.0) == Ok(Leakage(0.1, 0.1));
    var d := DelayResults(0.1, 0.1, 0.02, 0.02, 1.0, 1.0, 1.0, 1.0);
    var rs := [d];
    assert rs[..0] == [];
    var t0 := EmptyTable(0.2, 0.1);
    assert Scenario.roundTime(0.2) == 0.2;
    assert Assemble(t0, rs) == AppendResult(t0, d);
    var e: seq<real> := [];
    assert e + [0.1] == [0.1] && e + [0.02] == [0.02] && e + [1.0] == [1.0];
    assert AppendResult(t0, d) == CharTable(0.2, [0.1], [0.1], [0.02], [0.02], [1.0], [1.0], [1.0], [1.0], 0.1);
  }

  /** One-bit word, two-bit address "11", probe bit 0, the single point
      (0.05 ns, 1.0 fF), start period 0.2 ns: the feasible search succeeds at
      once, the bisection rejects 0.1, 0.15, 0.175, 0.1875 and 0.19375 and
      returns 0.2. The intended analysis yields one entry per measure; the
      as-written one sweeps at 0.19375 and stops with a failed simulation. */
  lemma SweepAtLastTargetFails()
    ensures Characterize(Scenario, 0.2, 0.0, "11", IntBit(0), 2, 1, [0.05], [1.0])
            == Ok(CharTable(0.2, [0.1], [0.1], [0.02], [0.02], [1.0], [1.0], [1.0], [1.0], 0.1))
    ensures CharacterizeAsWritten(Scenario, 0.2, 0.0, "11", IntBit(0), 2, 1, [0.05], [1.0])
            == Err(SimulationFailed(0.05, 1.0))
  {
    ScenarioPrepare();
    assert Max([1.0]) == 1.0;
    ScenarioFinish();
  }
}
