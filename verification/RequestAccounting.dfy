/**
 The request counters with any number of requests in flight.  A request bumps the total when it arrives,
 one of the two outcome counters when its response is known, and the sample count when its timer stops;
 between these it runs, and requests interleave in any way.  Atomics are sequentially consistent.
 */
module RequestAccounting {
  import opened Sums

  /** Where a request is in `handle`. */
  datatype Phase = Arriving | Running | Timing(ok: bool) | Done(ok: bool)

  datatype State = State(calls: seq<Phase>, total: int, successful: int, failed: int, samples: int)

  datatype Step = Enter | Count(c: nat) | Finish(c: nat, ok: bool) | StopTimer(c: nat)

  const INIT: State := State([], 0, 0, 0, 0)

  predicate Enabled(s: State, step: Step) {
    match step
    case Enter => true
    case Count(c) => c < |s.calls| && s.calls[c].Arriving?
    case Finish(c, _) => c < |s.calls| && s.calls[c].Running?
    case StopTimer(c) => c < |s.calls| && s.calls[c].Timing?
  }

  function Apply(s: State, step: Step): State
    requires Enabled(s, step)
  {
    match step
    case Enter => s.(calls := s.calls + [Arriving])
    case Count(c) => s.(calls := s.calls[c := Running], total := s.total + 1)
    case Finish(c, ok) =>
      if ok then s.(calls := s.calls[c := Timing(ok)], successful := s.successful + 1)
      else s.(calls := s.calls[c := Timing(ok)], failed := s.failed + 1)
    case StopTimer(c) => s.(calls := s.calls[c := Done(s.calls[c].ok)], samples := s.samples + 1)
  }

  ghost predicate Run(s: State, steps: seq<Step>, t: State)
    decreases |steps|
  {
    if steps == [] then s == t
    else Enabled(s, steps[0]) && Run(Apply(s, steps[0]), steps[1..], t)
  }

  function InFlight(p: Phase): int { if p.Running? then 1 else 0 }
  function Untimed(p: Phase): int { if p.Timing? then 1 else 0 }
  function Answered(ok: bool): Phase -> int {
    (p: Phase) => if p == Timing(ok) || p == Done(ok) then 1 else 0
  }

  /** Requests in flight, and requests answered but not yet timed, make up the differences. */
  ghost predicate Inv(s: State) {
    && s.total == s.successful + s.failed + Sum(s.calls, InFlight)
    && s.successful + s.failed == s.samples + Sum(s.calls, Untimed)
    && s.successful == Sum(s.calls, Answered(true))
    && s.failed == Sum(s.calls, Answered(false))
  }

  lemma InvStep(s: State, step: Step)
    requires Inv(s) && Enabled(s, step)
    ensures Inv(Apply(s, step))
  {
    if step.Enter? {
      SumAppend(s.calls, Arriving, InFlight);
      SumAppend(s.calls, Arriving, Untimed);
      SumAppend(s.calls, Arriving, Answered(true));
      SumAppend(s.calls, Arriving, Answered(false));
    } else {
      var p := Apply(s, step).calls[step.c];
      SumUpdate(s.calls, step.c, p, InFlight);
      SumUpdate(s.calls, step.c, p, Untimed);
      SumUpdate(s.calls, step.c, p, Answered(true));
      SumUpdate(s.calls, step.c, p, Answered(false));
    }
  }

  lemma {:induction false} InvRun(s: State, steps: seq<Step>, t: State)
    requires Inv(s) && Run(s, steps, t)
    ensures Inv(t)
    decreases |steps|
  {
    if steps != [] {
      InvStep(s, steps[0]);
      InvRun(Apply(s, steps[0]), steps[1..], t);
    }
  }

  /**
   At every instant of every schedule: requests counted = successes + failures + requests in flight, each
   success and failure is that of one request, and all but those with a running timer were timed.
   */
  lemma TotalsAddUp(steps: seq<Step>, s: State)
    requires Run(INIT, steps, s)
    ensures s.total == s.successful + s.failed + Sum(s.calls, InFlight)
    ensures s.successful == Sum(s.calls, Answered(true)) && s.failed == Sum(s.calls, Answered(false))
    ensures s.successful + s.failed == s.samples + Sum(s.calls, Untimed)
  {
    InvRun(INIT, steps, s);
  }

  predicate Quiescent(s: State) {
    forall c :: 0 <= c < |s.calls| ==> s.calls[c].Arriving? || s.calls[c].Done?
  }

  /** With nobody on the way the three accounts are equal. */
  lemma EqualWhenQuiescent(steps: seq<Step>, s: State)
    requires Run(INIT, steps, s) && Quiescent(s)
    ensures s.total == s.successful + s.failed == s.samples
  {
    InvRun(INIT, steps, s);
    SumZero(s.calls, InFlight);
    SumZero(s.calls, Untimed);
  }

  // ---- Reading the counters while requests run ----

  function Arrivals(steps: seq<Step>): nat {
    if steps == [] then 0 else (if steps[0].Count? then 1 else 0) + Arrivals(steps[1..])
  }

  /** How many requests were answered so in a schedule. */
  function Outcomes(steps: seq<Step>, ok: bool): nat {
    if steps == [] then 0
    else (if steps[0].Finish? && steps[0].ok == ok then 1 else 0) + Outcomes(steps[1..], ok)
  }

  lemma {:induction false} CountersGrow(s: State, steps: seq<Step>, t: State)
    requires Run(s, steps, t)
    ensures t.total == s.total + Arrivals(steps)
    ensures t.successful == s.successful + Outcomes(steps, true)
    ensures t.failed == s.failed + Outcomes(steps, false)
    decreases |steps|
  {
    if steps != [] {
      CountersGrow(Apply(s, steps[0]), steps[1..], t);
    }
  }

  /**
   The exporter loads the total in `a`, the successes in `b` and the failures in `c`, with anything in
   between.  The outcomes it shows differ from the total by the requests in flight at its first load,
   less the outcomes it sees that came later; so they fall short of the total by at most the former, and
   exceed it by at most the requests that arrived since.
   */
  lemma ScrapedTotals(before: seq<Step>, a: State, first: seq<Step>, b: State, second: seq<Step>, c: State)
    requires Run(INIT, before, a) && Run(a, first, b) && Run(b, second, c)
    ensures a.total - (b.successful + c.failed) ==
            Sum(a.calls, InFlight) - Outcomes(first, true) - Outcomes(first, false) - Outcomes(second, false)
    ensures a.total - (b.successful + c.failed) <= Sum(a.calls, InFlight)
    ensures (b.successful + c.failed) - a.total <= Arrivals(first) + Arrivals(second)
  {
    InvRun(INIT, before, a);
    InvRun(a, first, b);
    InvRun(b, second, c);
    CountersGrow(a, first, b);
    CountersGrow(b, second, c);
    InFlightIsCounted(c);
  }

  lemma InFlightIsCounted(s: State)
    ensures Sum(s.calls, InFlight) >= 0
  {
    SumNonNegative(s.calls, InFlight);
  }

  /** One request, from its arrival to its outcome. */
  lemma OneRequest(s: State, ok: bool) returns (steps: seq<Step>, t: State)
    ensures Run(s, steps, t) && t.total == s.total + 1 && t.successful + t.failed == s.successful + s.failed + 1
    ensures Arrivals(steps) == 1
  {
    var c := |s.calls|;
    var s1 := Apply(s, Enter);
    var s2 := Apply(s1, Count(c));
    t := Apply(s2, Finish(c, ok));
    assert Run(s2, [Finish(c, ok)], t) && Run(s1, [Count(c), Finish(c, ok)], t) by {
      assert Run(t, [], t);
      assert [Finish(c, ok)][1..] == [];
      assert [Count(c), Finish(c, ok)][1..] == [Finish(c, ok)];
    }
    steps := [Enter, Count(c), Finish(c, ok)];
    assert steps[1..] == [Count(c), Finish(c, ok)];
    CountersGrow(s, steps, t);
  }

  /**
   The two are met: a request in flight is missing from the outcomes, and one that comes and goes between
   two loads is too many.  From a start with no request at all, both are seen.
   */
  lemma ScrapesDisagree()
    ensures exists before, a :: Run(INIT, before, a)
              && a.total - (a.successful + a.failed) == Sum(a.calls, InFlight) == 1
    ensures exists first, b :: Run(INIT, first, b)
              && (b.successful + b.failed) - INIT.total == Arrivals(first) == 1
  {
    var s1 := Apply(INIT, Enter);
    var a := Apply(s1, Count(0));
    assert Run(s1, [Count(0)], a) by {
      assert Run(a, [], a);
      assert [Count(0)][1..] == [];
    }
    assert [Enter, Count(0)][1..] == [Count(0)];
    assert Run(INIT, [Enter, Count(0)], a);
    InvRun(INIT, [Enter, Count(0)], a);
    var first, b := OneRequest(INIT, true);
  }
}
