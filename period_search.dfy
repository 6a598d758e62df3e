/** The two period searches of the characterizer, as functions of the
    simulator: find_feasible_period doubles a start period until a delay
    simulation succeeds, and find_min_period bisects between 0 and that
    period for the shortest one whose delays stay close to the feasible
    delays. Each function also reports the period the characterizer is left
    holding (`self.period`) and how many simulations it ran. */
module PeriodSearch {
  import opened Base
  import opened Simulation

  /** The counter find_feasible_period starts with. */
  const FeasibleTimeOut: nat := 8

  /** The counter find_min_period starts with. */
  const MinPeriodTimeOut: nat := 25

  /** The delays of the first good simulation. */
  datatype Feasible = Feasible(delayLh: real, delayHl: real)

  /** The outcome of find_feasible_period, the period it leaves set, and
      the number of delay simulations it ran. */
  datatype FeasibleRun = FeasibleRun(result: Result<Feasible>, period: real, sims: nat)

  /** The outcome of find_min_period, the period it leaves set (the last
      bisection target), the number of tries, and the final bounds. */
  datatype BisectRun = BisectRun(result: Result<real>, last: real, steps: nat, lb: real, ub: real)

  /** The delay simulation find_feasible_period runs at `period`. */
  function FeasibleTry(o: Oracle, load: real, slew: real, period: real): Result<Option<DelayResults>>
  {
    RunDelaySimulation(o.sim(period, load, slew), period)
  }

  /** find_feasible_period from the point where its counter holds `timeOut`
      and its candidate is `period`; `current` is the period set before. */
  function FeasibleSearch(o: Oracle, load: real, slew: real, period: real, timeOut: nat, current: real): FeasibleRun
    decreases timeOut
  {
    if timeOut <= 1 then FeasibleRun(Err(FeasiblePeriodTimeout), current, 0)
    else
      match FeasibleTry(o, load, slew, period)
      case Err(e) => FeasibleRun(Err(e), period, 1)
      case Ok(None) =>
        var r := FeasibleSearch(o, load, slew, 2.0 * period, timeOut - 1, period);
        r.(sims := r.sims + 1)
      case Ok(Some(d)) => FeasibleRun(Ok(Feasible(d.delayLh, d.delayHl)), period, 1)
  }

  /** Two runs of find_feasible_period that end alike: the same outcome, the
      same period left set. */
  predicate SameFeasible(a: FeasibleRun, b: FeasibleRun)
  {
    a.result == b.result && a.period == b.period
  }

  /** An invalid simulation at `period` hands the search on to the doubled
      period, with `period` set. */
  lemma FeasibleGoesOn(o: Oracle, load: real, slew: real, period: real, timeOut: nat, current: real,
                       run: FeasibleRun)
    requires timeOut > 1
    requires FeasibleTry(o, load, slew, period) == Ok(None)
    requires SameFeasible(FeasibleSearch(o, load, slew, period, timeOut, current), run)
    ensures SameFeasible(FeasibleSearch(o, load, slew, 2.0 * period, timeOut - 1, period), run)
  {
  }

  /** An aborted or a good simulation at `period` ends the search there. */
  lemma FeasibleEnds(o: Oracle, load: real, slew: real, period: real, timeOut: nat, current: real,
                     run: FeasibleRun)
    requires timeOut > 1
    requires SameFeasible(FeasibleSearch(o, load, slew, period, timeOut, current), run)
    ensures var t := FeasibleTry(o, load, slew, period);
      && (t.Err? ==> run.result == Err(t.error) && run.period == period)
      && (t.Ok? && t.value.Some? ==>
            run.result == Ok(Feasible(t.value.value.delayLh, t.value.value.delayHl)) && run.period == period)
  {
  }

  /** The `j`-th period find_feasible_period tries from `start`. */
  function Candidate(start: real, j: nat): real
  {
    start * Pow2(j)
  }

  lemma DoubleCandidate(p: real, j: nat)
    ensures Candidate(2.0 * p, j) == Candidate(p, j + 1)
  {
  }

  /** The search tries `period`, `2 period`, `4 period`, ... at most
      `timeOut - 1` times; every try before the last one was an invalid
      simulation; on success the period left set is the last one tried and
      its simulation gave the returned delays; it times out exactly when
      all `timeOut - 1` tries were invalid. */
  lemma {:induction false} FeasibleSearchFacts(o: Oracle, load: real, slew: real, period: real, timeOut: nat, current: real)
    ensures var r := FeasibleSearch(o, load, slew, period, timeOut, current);
      && (timeOut >= 1 ==> r.sims <= timeOut - 1)
      && (forall j: nat :: j + 1 < r.sims ==> FeasibleTry(o, load, slew, Candidate(period, j)) == Ok(None))
      && (r.sims > 0 ==> r.period == Candidate(period, r.sims - 1))
      && (r.result.Ok? ==>
            && r.sims > 0
            && var t := FeasibleTry(o, load, slew, r.period);
            && t.Ok? && t.value.Some?
            && r.result.value == Feasible(t.value.value.delayLh, t.value.value.delayHl))
      && (r.result == Err(FeasiblePeriodTimeout) ==>
            && r.sims == (if timeOut >= 1 then timeOut - 1 else 0)
            && (r.sims > 0 ==> FeasibleTry(o, load, slew, r.period) == Ok(None)))
    decreases timeOut
  {
    var r := FeasibleSearch(o, load, slew, period, timeOut, current);
    if timeOut > 1 && FeasibleTry(o, load, slew, period) == Ok(None) {
      FeasibleSearchFacts(o, load, slew, 2.0 * period, timeOut - 1, period);
      var r' := FeasibleSearch(o, load, slew, 2.0 * period, timeOut - 1, period);
      assert r == r'.(sims := r'.sims + 1);
      forall j: nat | j + 1 < r.sims
        ensures FeasibleTry(o, load, slew, Candidate(period, j)) == Ok(None)
      {
        if j > 0 {
          DoubleCandidate(period, j - 1);
          assert FeasibleTry(o, load, slew, Candidate(2.0 * period, j - 1)) == Ok(None);
        } else {
          assert Candidate(period, j) == period;
        }
      }
      if r'.sims > 0 {
        DoubleCandidate(period, r'.sims - 1);
      } else {
        assert r.period == period;
      }
    }
  }

  /** If some try within the budget is a good simulation and no try before
      it aborted, the search succeeds, using at most that many tries. */
  lemma {:induction false} FeasibleSearchSucceeds(o: Oracle, load: real, slew: real, period: real, timeOut: nat,
                                                  current: real, k: nat)
    requires k + 1 < timeOut
    requires var t := FeasibleTry(o, load, slew, Candidate(period, k)); t.Ok? && t.value.Some?
    requires forall j: nat :: j < k ==> FeasibleTry(o, load, slew, Candidate(period, j)).Ok?
    ensures var r := FeasibleSearch(o, load, slew, period, timeOut, current);
      r.result.Ok? && r.sims <= k + 1
    decreases k
  {
    if k > 0 {
      assert FeasibleTry(o, load, slew, Candidate(period, 0)).Ok?;
      assert Candidate(period, 0) == period;
      if FeasibleTry(o, load, slew, period).value.None? {
        DoubleCandidate(period, k - 1);
        var doubled := 2.0 * period;
        forall j: nat | j < k - 1
          ensures FeasibleTry(o, load, slew, Candidate(doubled, j)).Ok?
        {
          DoubleCandidate(period, j);
          assert FeasibleTry(o, load, slew, Candidate(period, j + 1)).Ok?;
        }
        FeasibleSearchSucceeds(o, load, slew, 2.0 * period, timeOut - 1, period, k - 1);
      }
    }
  }

  /** The acceptance test find_min_period applies to a target period. */
  function MinTry(o: Oracle, load: real, slew: real, feasible: Feasible, period: real): bool
  {
    TryPeriod(o.sim(period, load, slew), period, feasible.delayLh, feasible.delayHl, o.close)
  }

  /** find_min_period from the point where its counter holds `timeOut` and
      its bounds are `lb` and `ub`; `current` is the period set before. */
  function Bisect(o: Oracle, load: real, slew: real, feasible: Feasible, lb: real, ub: real,
                  timeOut: nat, current: real): BisectRun
    decreases timeOut
  {
    if timeOut <= 1 then BisectRun(Err(MinPeriodTimeout), current, 0, lb, ub)
    else
      var target := 0.5 * (ub + lb);
      var accepted := MinTry(o, load, slew, feasible, target);
      var lb' := if accepted then lb else target;
      var ub' := if accepted then target else ub;
      if o.close(ub', lb') then BisectRun(Ok(ub'), target, 1, lb', ub')
      else
        var r := Bisect(o, load, slew, feasible, lb', ub', timeOut - 1, target);
        r.(steps := r.steps + 1)
  }

  /** Two runs of find_min_period that end alike: the same outcome, the
      same period left set. */
  predicate SameBisect(a: BisectRun, b: BisectRun)
  {
    a.result == b.result && a.last == b.last
  }

  /** The bracket after a try: the target becomes the upper bound when it
      passes and the lower bound when it does not. */
  function NextLower(accepted: bool, lb: real, target: real): real { if accepted then lb else target }

  function NextUpper(accepted: bool, ub: real, target: real): real { if accepted then target else ub }

  /** A try at `target` whose verdict leaves the bracket close ends
      find_min_period with the new upper bound, the target set. */
  lemma BisectStops(o: Oracle, load: real, slew: real, feasible: Feasible, lb: real, ub: real,
                    timeOut: nat, current: real, run: BisectRun, target: real, accepted: bool)
    requires timeOut > 1
    requires SameBisect(Bisect(o, load, slew, feasible, lb, ub, timeOut, current), run)
    requires target == 0.5 * (ub + lb) && accepted == MinTry(o, load, slew, feasible, target)
    requires o.close(NextUpper(accepted, ub, target), NextLower(accepted, lb, target))
    ensures run.result == Ok(NextUpper(accepted, ub, target)) && run.last == target
  {
  }

  /** Otherwise find_min_period goes on from the new bracket, the target set. */
  lemma BisectGoesOn(o: Oracle, load: real, slew: real, feasible: Feasible, lb: real, ub: real,
                     timeOut: nat, current: real, run: BisectRun, target: real, accepted: bool)
    requires timeOut > 1
    requires SameBisect(Bisect(o, load, slew, feasible, lb, ub, timeOut, current), run)
    requires target == 0.5 * (ub + lb) && accepted == MinTry(o, load, slew, feasible, target)
    requires !o.close(NextUpper(accepted, ub, target), NextLower(accepted, lb, target))
    ensures SameBisect(Bisect(o, load, slew, feasible, NextLower(accepted, lb, target),
                              NextUpper(accepted, ub, target), timeOut - 1, target), run)
  {
  }

  /** A bisection that succeeds returns its final upper bound. */
  lemma {:induction false} BisectReturnsUpperBound(o: Oracle, load: real, slew: real, feasible: Feasible, lb: real,
                                                   ub: real, timeOut: nat, current: real)
    ensures var r := Bisect(o, load, slew, feasible, lb, ub, timeOut, current);
      r.result.Ok? ==> r.result.value == r.ub
    decreases timeOut
  {
    if timeOut > 1 {
      var target := 0.5 * (ub + lb);
      var accepted := MinTry(o, load, slew, feasible, target);
      var lb' := if accepted then lb else target;
      var ub' := if accepted then target else ub;
      BisectReturnsUpperBound(o, load, slew, feasible, lb', ub', timeOut - 1, target);
    }
  }

  lemma HalvePow2(x: real, k: nat)
    ensures (x / 2.0) / Pow2(k) == x / Pow2(k + 1)
  {
  }

  /** The bisection tries at most `timeOut - 1` periods and halves the
      bracket on each; the upper bound stays the start period or a period
      that passed try_period, the lower bound stays the start bound or a
      period that failed it; it returns the upper bound once the two are
      close; and the period it leaves set is the last target, which is the
      new upper bound if that target passed and the new lower bound if not. */
  lemma {:induction false} BisectFacts(o: Oracle, load: real, slew: real, feasible: Feasible, lb: real, ub: real,
                                       timeOut: nat, current: real)
    requires lb < ub
    ensures var r := Bisect(o, load, slew, feasible, lb, ub, timeOut, current);
      && (timeOut >= 1 ==> r.steps <= timeOut - 1)
      && r.ub - r.lb == (ub - lb) / Pow2(r.steps)
      && lb <= r.lb < r.ub <= ub
      && (r.ub == ub || MinTry(o, load, slew, feasible, r.ub))
      && (r.lb == lb || !MinTry(o, load, slew, feasible, r.lb))
      && (r.result.Ok? ==> r.steps > 0 && r.result.value == r.ub && o.close(r.ub, r.lb))
      && (r.result.Err? ==> r.result.error == MinPeriodTimeout)
      && (r.steps > 0 ==>
            if MinTry(o, load, slew, feasible, r.last) then r.last == r.ub else r.last == r.lb)
    decreases timeOut
  {
    if timeOut > 1 {
      var target := 0.5 * (ub + lb);
      var accepted := MinTry(o, load, slew, feasible, target);
      var lb' := if accepted then lb else target;
      var ub' := if accepted then target else ub;
      assert ub' - lb' == (ub - lb) / 2.0;
      if !o.close(ub', lb') {
        BisectFacts(o, load, slew, feasible, lb', ub', timeOut - 1, target);
        var r' := Bisect(o, load, slew, feasible, lb', ub', timeOut - 1, target);
        HalvePow2(ub - lb, r'.steps);
        if r'.steps == 0 {
          assert r'.lb == lb' && r'.ub == ub';
        }
      }
    }
  }

  /** When the last bisection target is rejected, the period find_min_period
      leaves set is the final lower bound: strictly below the returned
      period, and one that failed try_period. */
  lemma LastTargetMayBeRejected(o: Oracle, load: real, slew: real, feasible: Feasible, ub: real, current: real)
    requires 0.0 < ub
    ensures var r := Bisect(o, load, slew, feasible, 0.0, ub, MinPeriodTimeOut, current);
      r.result.Ok? && !MinTry(o, load, slew, feasible, r.last) ==>
        r.last == r.lb && r.last < r.result.value
  {
    BisectFacts(o, load, slew, feasible, 0.0, ub, MinPeriodTimeOut, current);
  }
}
