/**
 Recording events concurrently.  An event takes its id from an atomic counter before the lock under
 which it is appended, so the two are separate steps and recorders may overtake one another.
 */
module EventLog {
  import GameState

  const MAX_EVENTS := GameState.MAX_EVENTS

  type Recorder = nat

  datatype State = State(
    nextId: nat,
    inFlight: map<Recorder, nat>,   // the id of each recorder between the counter and the lock
    pushed: seq<nat>,               // ids in the order of the appends, never dropped
    events: seq<nat>)               // the capped log

  datatype Step = Allocate(r: Recorder) | Push(r: Recorder)

  const INIT: State := State(1, map[], [], [])

  predicate Enabled(s: State, step: Step) {
    match step
    case Allocate(r) => r !in s.inFlight
    case Push(r) => r in s.inFlight
  }

  function Apply(s: State, step: Step): State
    requires Enabled(s, step)
  {
    match step
    case Allocate(r) => s.(nextId := s.nextId + 1, inFlight := s.inFlight[r := s.nextId])
    case Push(r) =>
      var more := s.events + [s.inFlight[r]];
      State(s.nextId, s.inFlight - {r}, s.pushed + [s.inFlight[r]],
            if |more| > MAX_EVENTS then more[1..] else more)
  }

  /** A schedule in which at most `limit` recorders are ever in flight at once. */
  ghost predicate Run(s: State, steps: seq<Step>, t: State, limit: nat)
    decreases |steps|
  {
    |s.inFlight| <= limit &&
    if steps == [] then s == t
    else Enabled(s, steps[0]) && Run(Apply(s, steps[0]), steps[1..], t, limit)
  }

  /** Ids are given out once: to an event that was pushed, or to a recorder still on its way. */
  ghost predicate Distinct(s: State) {
    && (forall i, j :: 0 <= i < j < |s.pushed| ==> s.pushed[i] != s.pushed[j])
    && (forall p, q :: p in s.inFlight && q in s.inFlight && p != q ==> s.inFlight[p] != s.inFlight[q])
    && (forall i, p :: 0 <= i < |s.pushed| && p in s.inFlight ==> s.pushed[i] != s.inFlight[p])
  }

  ghost predicate Bounded(s: State) {
    && s.nextId >= 1
    && (forall i :: 0 <= i < |s.pushed| ==> 1 <= s.pushed[i] < s.nextId)
    && (forall p :: p in s.inFlight ==> 1 <= s.inFlight[p] < s.nextId)
  }

  ghost predicate Counted(s: State) {
    |s.pushed| + |s.inFlight| == s.nextId - 1
  }

  /** No event is further ahead of its place than the recorders it can have overtaken. */
  ghost predicate Near(s: State, limit: nat) {
    forall k :: 0 <= k < |s.pushed| ==> s.pushed[k] <= k + limit
  }

  ghost predicate Capped(s: State) {
    s.events == s.pushed[if |s.pushed| > MAX_EVENTS then |s.pushed| - MAX_EVENTS else 0..]
  }

  ghost predicate Inv(s: State, limit: nat) {
    Distinct(s) && Bounded(s) && Counted(s) && Near(s, limit) && Capped(s)
  }

  lemma CountedStep(s: State, step: Step)
    requires Counted(s) && Enabled(s, step)
    ensures Counted(Apply(s, step))
  {
    if step.Push? {
      assert |(s.inFlight - {step.r}).Keys| == |s.inFlight.Keys - {step.r}| == |s.inFlight| - 1;
    } else {
      assert s.inFlight[step.r := s.nextId].Keys == s.inFlight.Keys + {step.r};
    }
  }

  lemma DistinctStep(s: State, step: Step)
    requires Distinct(s) && Bounded(s) && Enabled(s, step)
    ensures Distinct(Apply(s, step)) && Bounded(Apply(s, step))
  {
  }

  /** All ids below the counter are pushed or in flight, and at most `limit` of them were in flight. */
  lemma NearStep(s: State, step: Step, limit: nat)
    requires Counted(s) && Bounded(s) && Near(s, limit) && Enabled(s, step) && |s.inFlight| <= limit
    ensures Near(Apply(s, step), limit)
  {
  }

  lemma CappedStep(s: State, step: Step)
    requires Capped(s) && Enabled(s, step)
    ensures Capped(Apply(s, step))
  {
  }

  lemma InvStep(s: State, step: Step, limit: nat)
    requires Inv(s, limit) && Enabled(s, step) && |s.inFlight| <= limit
    ensures Inv(Apply(s, step), limit)
  {
    CountedStep(s, step);
    DistinctStep(s, step);
    NearStep(s, step, limit);
    CappedStep(s, step);
  }

  lemma {:induction false} InvRun(s: State, steps: seq<Step>, t: State, limit: nat)
    requires Inv(s, limit) && Run(s, steps, t, limit)
    ensures Inv(t, limit)
    decreases |steps|
  {
    if steps != [] {
      InvStep(s, steps[0], limit);
      InvRun(Apply(s, steps[0]), steps[1..], t, limit);
    }
  }

  /**
   In every schedule: the ids pushed are pairwise distinct, pushed + in flight is the counter minus one,
   and with at most T recorders in flight the event pushed k-th, counting from 0, has an id of at most
   k + T.  The log is the newest 1000 of what was pushed.
   */
  lemma EventOrder(steps: seq<Step>, s: State, limit: nat)
    requires Run(INIT, steps, s, limit)
    ensures forall i, j :: 0 <= i < j < |s.pushed| ==> s.pushed[i] != s.pushed[j]
    ensures |s.pushed| + |s.inFlight| == s.nextId - 1
    ensures forall k :: 0 <= k < |s.pushed| ==> s.pushed[k] <= k + limit
    ensures s.events == if |s.pushed| > 1000 then s.pushed[|s.pushed| - 1000..] else s.pushed
  {
    InvRun(INIT, steps, s, limit);
  }

  lemma AmongTheFirst(p: seq<nat>, k: nat, id: nat)
    requires k <= |p| && forall j :: 0 <= j < k ==> p[j] == j + 1
    requires 1 <= id <= k
    ensures exists j :: 0 <= j < k && p[j] == id
  {
    assert p[id - 1] == id;
  }

  /** Without concurrent recorders the log is in order, with consecutive ids from 1. */
  lemma {:induction false} SequentialOrder(steps: seq<Step>, s: State, k: nat)
    requires Run(INIT, steps, s, 1) && k < |s.pushed|
    ensures s.pushed[k] == k + 1
    decreases k
  {
    InvRun(INIT, steps, s, 1);
    forall j | 0 <= j < k ensures s.pushed[j] == j + 1 {
      SequentialOrder(steps, s, j);
    }
    if s.pushed[k] <= k {
      AmongTheFirst(s.pushed, k, s.pushed[k]);
    }
  }

  /** Recorders `from`, ..., `n` - 1 all take an id before anybody pushes. */
  lemma {:induction false} AllocateAll(s: State, from: nat, n: nat) returns (steps: seq<Step>, t: State)
    requires from <= n && |s.inFlight| == from && forall r :: r in s.inFlight ==> r < from
    ensures Run(s, steps, t, n) && t.pushed == s.pushed && |t.inFlight| == n
    ensures from == n ==> t == s
    ensures from < n ==> n - 1 in t.inFlight && t.inFlight[n - 1] == s.nextId + n - from - 1
    decreases n - from
  {
    if from == n {
      steps, t := [], s;
    } else {
      var u := Apply(s, Allocate(from));
      assert u.inFlight.Keys == s.inFlight.Keys + {from};
      var rest;
      rest, t := AllocateAll(u, from + 1, n);
      steps := [Allocate(from)] + rest;
      assert steps[1..] == rest;
    }
  }

  lemma {:induction false} RunAppend(s: State, first: seq<Step>, m: State, second: seq<Step>, t: State, limit: nat)
    requires Run(s, first, m, limit) && Run(m, second, t, limit)
    ensures Run(s, first + second, t, limit)
    decreases |first|
  {
    if first == [] {
      assert first + second == second;
    } else {
      assert (first + second)[1..] == first[1..] + second;
      RunAppend(Apply(s, first[0]), first[1..], m, second, t, limit);
    }
  }

  /** One append on its own is a schedule, and leaves one recorder fewer. */
  lemma PushOnce(s: State, r: Recorder, limit: nat) returns (t: State)
    requires r in s.inFlight && |s.inFlight| <= limit
    ensures Run(s, [Push(r)], t, limit) && t.pushed == s.pushed + [s.inFlight[r]]
  {
    t := Apply(s, Push(r));
    assert t.inFlight.Keys == s.inFlight.Keys - {r};
    assert |t.inFlight.Keys| < limit;
    assert Run(t, [], t, limit);
  }

  /** With T recorders in flight the one that came last can be the first to append. */
  lemma LastComesFirst(limit: nat) returns (steps: seq<Step>, t: State)
    requires limit >= 1
    ensures Run(INIT, steps, t, limit) && t.pushed == [] + [limit]
  {
    var allocations, s := AllocateAll(INIT, 0, limit);
    t := PushOnce(s, limit - 1, limit);
    RunAppend(INIT, allocations, s, [Push(limit - 1)], t, limit);
    steps := allocations + [Push(limit - 1)];
  }

  /** The bound is met: with T recorders the very first event in the log can have id T. */
  lemma BoundIsTight(limit: nat)
    requires limit >= 1
    ensures exists steps, s :: Run(INIT, steps, s, limit) && s.pushed == [limit]
  {
    var steps, t := LastComesFirst(limit);
    assert t.pushed == [limit];
  }

  // ---- When the log is in order ----

  /** The log is in order, with consecutive ids from 1. */
  predicate InOrder(s: State) {
    forall k :: 0 <= k < |s.pushed| ==> s.pushed[k] == k + 1
  }

  lemma {:induction false} Widen(s: State, steps: seq<Step>, t: State, limit: nat, more: nat)
    requires Run(s, steps, t, limit) && limit <= more
    ensures Run(s, steps, t, more)
    decreases |steps|
  {
    if steps != [] {
      Widen(Apply(s, steps[0]), steps[1..], t, limit, more);
    }
  }

  /** A bound on concurrency makes every log ordered if and only if it allows no concurrency. */
  lemma OrderIff(limit: nat)
    ensures (forall steps, s :: Run(INIT, steps, s, limit) ==> InOrder(s)) <==> limit <= 1
  {
    if limit <= 1 {
      forall steps, s | Run(INIT, steps, s, limit) ensures InOrder(s) {
        Widen(INIT, steps, s, limit, 1);
        forall k | 0 <= k < |s.pushed| ensures s.pushed[k] == k + 1 {
          SequentialOrder(steps, s, k);
        }
      }
    } else {
      BoundIsTight(limit);
      var steps, s :| Run(INIT, steps, s, limit) && s.pushed == [limit];
      assert s.pushed[0] != 1;
    }
  }

  /** The recorder has the least id of those in flight. */
  predicate Oldest(s: State, r: Recorder) {
    r in s.inFlight && forall q :: q in s.inFlight ==> s.inFlight[r] <= s.inFlight[q]
  }

  /** Every append of the schedule is made by the recorder that has waited longest. */
  ghost predicate OldestFirst(s: State, steps: seq<Step>)
    decreases |steps|
  {
    steps == [] ||
    (Enabled(s, steps[0]) && (steps[0].Push? ==> Oldest(s, steps[0].r)) && OldestFirst(Apply(s, steps[0]), steps[1..]))
  }

  ghost predicate Held(s: State, id: nat) {
    id in s.pushed || exists r :: r in s.inFlight && s.inFlight[r] == id
  }

  /** No id below the counter is lost. */
  ghost predicate Complete(s: State) {
    forall id :: 1 <= id < s.nextId ==> Held(s, id)
  }

  lemma CompleteStep(s: State, step: Step)
    requires Complete(s) && Enabled(s, step)
    ensures Complete(Apply(s, step))
  {
    var t := Apply(s, step);
    forall id | 1 <= id < t.nextId ensures Held(t, id) {
      if step.Allocate? && id == s.nextId {
        assert t.inFlight[step.r] == id;
      } else {
        assert Held(s, id);
        if id in s.pushed {
          assert id in t.pushed;
        } else {
          var r :| r in s.inFlight && s.inFlight[r] == id;
          if step.Push? && r == step.r {
            assert t.pushed[|s.pushed|] == id;
          } else {
            assert t.inFlight[r] == id;
          }
        }
      }
    }
  }

  lemma NotAmongTheFirst(s: State, q: Recorder)
    requires Distinct(s) && Bounded(s) && InOrder(s) && q in s.inFlight
    ensures s.inFlight[q] > |s.pushed|
  {
    if s.inFlight[q] <= |s.pushed| {
      AmongTheFirst(s.pushed, |s.pushed|, s.inFlight[q]);
    }
  }

  /** Appending to an ordered log keeps it ordered exactly if the oldest in flight does it. */
  lemma PushInOrderIff(s: State, r: Recorder)
    requires Distinct(s) && Bounded(s) && Complete(s) && InOrder(s) && r in s.inFlight
    ensures InOrder(Apply(s, Push(r))) <==> Oldest(s, r)
  {
    var n := |s.pushed|;
    forall q | q in s.inFlight ensures s.inFlight[q] > n {
      NotAmongTheFirst(s, q);
    }
    assert Apply(s, Push(r)).pushed[n] == s.inFlight[r];
    if Oldest(s, r) {
      assert Held(s, n + 1);
    }
  }

  lemma {:induction false} DisorderStays(s: State, steps: seq<Step>, t: State, limit: nat, k: nat)
    requires Run(s, steps, t, limit) && k < |s.pushed|
    ensures k < |t.pushed| && t.pushed[k] == s.pushed[k]
    decreases |steps|
  {
    if steps != [] {
      DisorderStays(Apply(s, steps[0]), steps[1..], t, limit, k);
    }
  }

  lemma NextInOrder(s: State, step: Step)
    requires Distinct(s) && Bounded(s) && Complete(s) && InOrder(s) && Enabled(s, step)
    ensures InOrder(Apply(s, step)) <==> (step.Push? ==> Oldest(s, step.r))
  {
    if step.Push? {
      PushInOrderIff(s, step.r);
    }
  }

  /** Ids are given out once and none is lost. */
  ghost predicate IdsKept(s: State) {
    Distinct(s) && Bounded(s) && Complete(s)
  }

  lemma IdsKeptStep(s: State, step: Step)
    requires IdsKept(s) && Enabled(s, step)
    ensures IdsKept(Apply(s, step))
  {
    DistinctStep(s, step);
    CompleteStep(s, step);
  }

  lemma {:induction false} OrderedFromHere(s: State, steps: seq<Step>, t: State, limit: nat)
    requires IdsKept(s) && InOrder(s) && Run(s, steps, t, limit)
    ensures InOrder(t) <==> OldestFirst(s, steps)
    decreases |steps|
  {
    if steps != [] {
      var next := Apply(s, steps[0]);
      IdsKeptStep(s, steps[0]);
      NextInOrder(s, steps[0]);
      if InOrder(next) {
        OrderedFromHere(next, steps[1..], t, limit);
      } else {
        var k :| 0 <= k < |next.pushed| && next.pushed[k] != k + 1;
        DisorderStays(next, steps[1..], t, limit, k);
      }
    }
  }

  /**
   Run by run: a log is in order if and only if every append was made by the recorder holding the least
   id in flight, however many were in flight.
   */
  lemma InOrderIffOldestFirst(steps: seq<Step>, t: State, limit: nat)
    requires Run(INIT, steps, t, limit)
    ensures InOrder(t) <==> OldestFirst(INIT, steps)
  {
    OrderedFromHere(INIT, steps, t, limit);
  }
}
