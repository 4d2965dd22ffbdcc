/**
 Shutting the pool down.

 `stop` stores the stopping flag and calls notify_all without the mutex.  A worker that evaluated the
 wait predicate before the store and has not yet blocked misses the notification.  This module proves
 that this is the only way to be missed, that it can strand one worker at most, and that `stop` can
 wait for ever exactly when some worker is at that point when notify_all is called.
 */
module ThreadPoolShutdown {
  import opened Sums
  import opened ThreadPool

  predicate Asleep(p: Phase) {
    p == Blocking || p == Blocked
  }

  /** The workers between a false predicate and the block. */
  function Late(s: State): set<nat> {
    set w: nat | w < |s.workers| && s.workers[w] == Blocking
  }

  // ---- Who can be missed ----

  /** After the store nobody new goes to sleep. */
  lemma NobodyFallsAsleep(s: State, step: Step, w: nat)
    requires s.stopping && Enabled(s, step)
    requires w < |s.workers| && !Asleep(s.workers[w])
    ensures Apply(s, step).stopping && |Apply(s, step).workers| == |s.workers|
    ensures !Asleep(Apply(s, step).workers[w])
  {
  }

  lemma {:induction false} AwakeForEver(s: State, steps: seq<Step>, t: State, w: nat)
    requires s.stopping && Run(s, steps, t)
    requires w < |s.workers| && !Asleep(s.workers[w])
    ensures t.stopping && |t.workers| == |s.workers| && !Asleep(t.workers[w])
    decreases |steps|
  {
    if steps != [] {
      NobodyFallsAsleep(s, steps[0], w);
      AwakeForEver(Apply(s, steps[0]), steps[1..], t, w);
    }
  }

  lemma AtMostOneLate(s: State)
    requires LockInv(s)
    ensures |Late(s)| <= 1
  {
    if s.owner.Worker? {
      assert Late(s) <= {s.owner.w};
      if s.owner.w in Late(s) {
        assert Late(s) == {s.owner.w};
      } else {
        assert Late(s) == {};
      }
    } else {
      assert Late(s) == {};
    }
  }

  /**
   Any worker asleep at any time after notify_all was, at notify_all, between a false predicate and
   the block; and there is at most one such worker, however large the pool.
   */
  lemma OnlyTheLateWorkerIsMissed(s: State, steps: seq<Step>, t: State, w: nat)
    requires Reachable(s) && Enabled(s, NotifyAll)
    requires Run(Apply(s, NotifyAll), steps, t)
    requires w < |t.workers| && Asleep(t.workers[w])
    ensures Late(s) == {w}
  {
    ReachableInv(s);
    var swept := Apply(s, NotifyAll);
    RunKeepsSize(swept, steps, t);
    if !Asleep(swept.workers[w]) {
      AwakeForEver(swept, steps, t, w);
    }
    AtMostOneLate(s);
    assert w in Late(s);
    assert s.owner == Worker(w);
  }

  // ---- Termination of everybody else ----

  function Weight(p: Phase): int {
    match p
    case Blocking => 5
    case Blocked => 4
    case Handling(_) => 4
    case Start => 3
    case Woken => 3
    case Checking => 2
    case Deciding => 1
    case Exited => 0
  }

  /** What is left to do once stopping: queued tasks, where the workers are, and pushes already admitted. */
  function Measure(s: State): int {
    4 * |s.queue| + Sum(s.workers, Weight) + s.notifies + if s.owner.Pushing? then 6 else 0
  }

  /** Steps of a worker, and of a submission admitted before the store. */
  predicate Progress(step: Step) {
    match step
    case Acquire(_) => true
    case Evaluate(_) => true
    case Block(_) => true
    case Decide(_) => true
    case Return(_) => true
    case SubmitPush => true
    case NotifyOne(_) => true
    case NotifyNone => true
    case _ => false
  }

  lemma MeasureMove(s: State, step: Step, w: nat)
    requires LockInv(s) && s.stopping && Enabled(s, step)
    requires step == NotifyOne(w) || step == Spurious(w) || step == Acquire(w) || step == Evaluate(w)
          || step == Block(w) || step == Decide(w) || step == Return(w)
    ensures Measure(Apply(s, step)) < Measure(s)
  {
    SumUpdate(s.workers, w, Apply(s, step).workers[w], Weight);
  }

  lemma MeasureStep(s: State, step: Step)
    requires LockInv(s) && s.stopping && Enabled(s, step)
    ensures 0 <= Measure(Apply(s, step))
    ensures Measure(Apply(s, step)) <= Measure(s) - if Progress(step) then 1 else 0
  {
    SumNonNegative(Apply(s, step).workers, Weight);
    match step {
      case NotifyAll => SumMono(Apply(s, step).workers, s.workers, Weight, Weight);
      case NotifyOne(w) => MeasureMove(s, step, w);
      case Spurious(w) => MeasureMove(s, step, w);
      case Acquire(w) => MeasureMove(s, step, w);
      case Evaluate(w) => MeasureMove(s, step, w);
      case Block(w) => MeasureMove(s, step, w);
      case Decide(w) => MeasureMove(s, step, w);
      case Return(w) => MeasureMove(s, step, w);
      case _ =>
    }
  }

  function CountProgress(steps: seq<Step>): int {
    if steps == [] then 0 else (if Progress(steps[0]) then 1 else 0) + CountProgress(steps[1..])
  }

  /**
   While stopping, every schedule contains at most `Measure(s)` steps of the pool itself, whatever
   spurious wakeups, refused submissions and further calls of stop are interleaved with them.
   */
  lemma {:induction false} ShutdownIsBounded(s: State, steps: seq<Step>, t: State)
    requires Inv(s) && s.stopping && Run(s, steps, t)
    ensures CountProgress(steps) + Measure(t) <= Measure(s) && 0 <= Measure(t)
    decreases |steps|
  {
    if steps == [] {
      SumNonNegative(s.workers, Weight);
    } else {
      MeasureStep(s, steps[0]);
      InvStep(s, steps[0]);
      ShutdownIsBounded(Apply(s, steps[0]), steps[1..], t);
    }
  }

  /** Nothing of the pool can move: no progress step, and no submitter inside the mutex. */
  ghost predicate Quiescent(s: State) {
    !s.owner.Testing? && forall step :: Progress(step) ==> !Enabled(s, step)
  }

  predicate AtRest(s: State, w: nat)
    requires w < |s.workers|
  {
    s.owner.Free? && s.notifies == 0 && (s.workers[w] == Blocked || s.workers[w] == Exited)
  }

  /** A worker that is not blocked and has not exited, a push or a notification: one of them can move. */
  lemma SomethingMoves(s: State, w: nat) returns (step: Step)
    requires LockInv(s) && !s.owner.Testing? && w < |s.workers| && !AtRest(s, w)
    ensures Progress(step) && Enabled(s, step)
  {
    if s.owner.Worker? {
      var p := s.workers[s.owner.w];
      step := if p == Checking then Evaluate(s.owner.w)
              else if p == Blocking then Block(s.owner.w) else Decide(s.owner.w);
    } else if s.owner.Pushing? {
      step := SubmitPush;
    } else if s.notifies > 0 {
      if NoneBlocked(s) {
        step := NotifyNone;
      } else {
        var b :| 0 <= b < |s.workers| && s.workers[b] == Blocked;
        step := NotifyOne(b);
      }
    } else {
      step := if s.workers[w].Handling? then Return(w) else Acquire(w);
    }
  }

  lemma QuiescentWorkers(s: State, w: nat)
    requires LockInv(s) && Quiescent(s) && w < |s.workers|
    ensures AtRest(s, w)
  {
    if !AtRest(s, w) {
      var step := SomethingMoves(s, w);
    }
  }

  /**
   Wherever a schedule comes to rest after notify_all, every worker has left but the one, if any, that
   was late for it.
   */
  lemma EverybodyElseLeaves(s: State, steps: seq<Step>, t: State, w: nat)
    requires Reachable(s) && Enabled(s, NotifyAll)
    requires Run(Apply(s, NotifyAll), steps, t) && Quiescent(t)
    requires w < |t.workers| && w !in Late(s)
    ensures Inv(t) && t.workers[w] == Exited
  {
    assert Run(s, [NotifyAll] + steps, t);
    ReachableRun(s, [NotifyAll] + steps, t);
    ReachableInv(t);
    QuiescentWorkers(t, w);
    if t.workers[w] == Blocked {
      OnlyTheLateWorkerIsMissed(s, steps, t, w);
    }
  }

  /** A pool at rest: no task is queued, and every accepted one was handled. */
  lemma RestMeansDone(t: State)
    requires Inv(t) && Quiescent(t)
    ensures t.queue == [] && multiset(t.handled) == multiset(t.accepted)
  {
    forall w | 0 <= w < |t.workers| ensures t.workers[w] == Blocked || t.workers[w] == Exited {
      QuiescentWorkers(t, w);
    }
    QuiescentWorkers(t, 0);
    SumZero(t.workers, Awake);
    assert SomeExited(t) || t.workers[0] == Blocked;
    assert t.queue == [];
    forall x ensures multiset(t.handled)[x] == multiset(t.accepted)[x] {
      assert TakenInv(t, x);
      SumZero(t.workers, Runs(x));
    }
  }

  /** No accepted task is lost in a shutdown, whether or not stop ever returns. */
  lemma AcceptedWorkIsDone(s: State, steps: seq<Step>, t: State)
    requires Reachable(s) && Enabled(s, NotifyAll)
    requires Run(Apply(s, NotifyAll), steps, t) && Quiescent(t)
    ensures t.queue == [] && multiset(t.handled) == multiset(t.accepted)
  {
    assert Run(s, [NotifyAll] + steps, t);
    ReachableRun(s, [NotifyAll] + steps, t);
    ReachableInv(t);
    RestMeansDone(t);
  }

  /** Everybody has left but worker w, which sleeps. */
  predicate OnlyAsleep(t: State, w: nat) {
    && w < |t.workers| && t.workers[w] == Blocked
    && forall v :: 0 <= v < |t.workers| && v != w ==> t.workers[v] == Exited
  }

  /**
   A schedule comes to rest after notify_all in one of two ways: the pool is joined, or exactly the one
   worker that was late sleeps on.  With nobody late and with ShutdownIsBounded, stop returns.
   */
  lemma StopReturns(s: State, steps: seq<Step>, t: State)
    requires Reachable(s) && Enabled(s, NotifyAll)
    requires Run(Apply(s, NotifyAll), steps, t) && Quiescent(t)
    ensures AllExited(t) || exists w :: Late(s) == {w} && OnlyAsleep(t, w)
    ensures Late(s) == {} ==> AllExited(t)
    ensures multiset(t.handled) == multiset(t.accepted)
  {
    AcceptedWorkIsDone(s, steps, t);
    forall w | 0 <= w < |t.workers| && w !in Late(s) ensures t.workers[w] == Exited {
      EverybodyElseLeaves(s, steps, t, w);
    }
    if w :| 0 <= w < |t.workers| && t.workers[w] != Exited {
      assert Run(s, [NotifyAll] + steps, t);
      ReachableRun(s, [NotifyAll] + steps, t);
      ReachableInv(t);
      QuiescentWorkers(t, w);
      OnlyTheLateWorkerIsMissed(s, steps, t, w);
      assert OnlyAsleep(t, w);
    }
  }

  /** From every stopping state some schedule of the pool's own steps comes to rest. */
  lemma {:induction false} ShutdownSettles(s: State) returns (steps: seq<Step>, t: State)
    requires Inv(s) && s.stopping
    ensures Run(s, steps, t) && Quiescent(t)
    ensures forall step :: step in steps ==> Progress(step) || step == SubmitTest
    decreases Measure(s) + 1, s.owner.Testing?
  {
    SumNonNegative(s.workers, Weight);
    if Quiescent(s) {
      steps, t := [], s;
    } else {
      var step := SubmitTest;
      if !s.owner.Testing? {
        step :| Progress(step) && Enabled(s, step);
      }
      MeasureStep(s, step);
      InvStep(s, step);
      var rest;
      rest, t := ShutdownSettles(Apply(s, step));
      steps := [step] + rest;
      assert steps[1..] == rest;
    }
  }

  /** A second call of stop leaves a joined pool exactly as it was. */
  lemma SecondStopChangesNothing(s: State)
    requires s.stopping && AllExited(s)
    ensures Apply(Apply(s, StopStore), NotifyAll) == s
  {
    assert WakeAll(s.workers) == s.workers;
  }

  // ---- When stop waits for ever ----

  /** Steps that only the outside can take: another call of stop, or the platform waking a thread for no reason. */
  predicate Rescue(step: Step) {
    step.StopStore? || step.NotifyAll? || step.Spurious?
  }

  /** Stopping, a worker blocked, and no notification of any kind on its way. */
  ghost predicate Hung(s: State) {
    && s.stopping && s.notifies == 0 && s.notifyAlls == 0 && !s.owner.Pushing?
    && !NoneBlocked(s)
  }

  /** A hung pool stays hung whatever the workers and any number of submitters do. */
  lemma {:induction false} HungForEver(s: State, steps: seq<Step>, t: State)
    requires Hung(s) && Run(s, steps, t)
    requires forall step :: step in steps ==> !Rescue(step)
    ensures Hung(t) && !AllExited(t)
    decreases |steps|
  {
    var w :| 0 <= w < |s.workers| && s.workers[w] == Blocked;
    if steps != [] {
      assert !Rescue(steps[0]);
      assert Apply(s, steps[0]).workers[w] == Blocked;
      HungForEver(Apply(s, steps[0]), steps[1..], t);
    }
  }

  /** Without another call of stop and without a spurious wakeup, the pool can get from `s` to where it hangs. */
  ghost predicate CanHang(s: State) {
    exists steps, t :: Run(s, steps, t) && Hung(t) && Unaided(steps)
  }

  predicate Unaided(steps: seq<Step>) {
    forall step :: step in steps ==> !step.StopStore? && !step.Spurious?
  }

  /** With nobody blocked, every notification on its way can be delivered to no one. */
  lemma {:induction false} Flush(s: State) returns (steps: seq<Step>, t: State)
    requires NoneBlocked(s)
    ensures Run(s, steps, t) && t == s.(notifies := 0, notifyAlls := 0) && Unaided(steps)
    decreases s.notifies + s.notifyAlls
  {
    if s.notifies > 0 {
      var rest;
      rest, t := Flush(Apply(s, NotifyNone));
      steps := [NotifyNone] + rest;
      assert steps[1..] == rest;
    } else if s.notifyAlls > 0 {
      var rest;
      assert WakeAll(s.workers) == s.workers;
      rest, t := Flush(Apply(s, NotifyAll));
      steps := [NotifyAll] + rest;
      assert steps[1..] == rest;
    } else {
      steps, t := [], s;
    }
  }

  /**
   Calling notify_all in a state of any run, stop may wait for ever if and only if some worker has
   found the predicate false and has not yet blocked.
   */
  lemma StopCanHangIff(s: State)
    requires Reachable(s) && Enabled(s, NotifyAll)
    ensures CanHang(Apply(s, NotifyAll)) <==> Late(s) != {}
  {
    ReachableInv(s);
    var swept := Apply(s, NotifyAll);
    if Late(s) != {} {
      var w :| w in Late(s);
      assert swept.workers[w] == Blocking;
      var steps, flushed := Flush(swept);
      var hung := Apply(flushed, Block(w));
      assert hung.workers[w] == Blocked;
      assert Run(flushed, [Block(w)], hung);
      RunAppend(swept, steps, flushed, [Block(w)], hung);
      assert Hung(hung) && Unaided(steps + [Block(w)]);
    }
    if CanHang(swept) {
      var steps, t :| Run(swept, steps, t) && Hung(t) && Unaided(steps);
      var w :| 0 <= w < |t.workers| && t.workers[w] == Blocked;
      OnlyTheLateWorkerIsMissed(s, steps, t, w);
    }
  }

  /** It does happen: one worker, one call of stop, nothing submitted. */
  lemma StopHangsConcretely()
    ensures exists steps, t :: Run(Init(1), steps, t) && Hung(t) && t.submitted == []
  {
    var s := Init(1);
    assert Run(s, [], s);
    s := Take(1, s, Acquire(0));
    s := Take(1, s, Evaluate(0));
    s := Take(1, s, StopStore);
    s := Take(1, s, NotifyAll);
    s := Take(1, s, Block(0));
    assert s.workers[0] == Blocked;
    assert Hung(s);
  }
}
