/**
 The worker pool as a transition system.

 Each step is one atomic action of one thread: taking or giving up the mutex, one load or store of
 the stopping flag, one delivery of a notification.  `stop` stores the flag without the mutex, so
 evaluating the wait predicate and blocking are two steps.
 */
module ThreadPool {
  import opened Sums

  datatype Task = Task(fd: int, addr: string)

  /** Where a worker is in its loop. */
  datatype Phase =
    | Start                 // about to lock the mutex at the top of the loop
    | Checking              // holds the mutex, about to evaluate the wait predicate
    | Blocking              // holds the mutex, the predicate was false, about to block
    | Blocked               // asleep in the condition variable, mutex given up
    | Woken                 // out of the condition variable, about to take the mutex again
    | Deciding              // holds the mutex, the wait has returned
    | Handling(task: Task)  // mutex given up, running the handler
    | Exited

  datatype Owner =
    | Free
    | Worker(w: nat)
    | Testing(task: Task)   // a submitter about to load the stopping flag
    | Pushing(task: Task)   // a submitter that loaded false

  /** The pool, followed by the history of what happened to every submission. */
  datatype State = State(
    workers: seq<Phase>,
    owner: Owner,
    queue: seq<Task>,
    stopping: bool,
    notifies: nat,          // notify_one calls not yet made by submitters that pushed
    notifyAlls: nat,        // notify_all calls not yet made by callers of stop
    submitted: seq<Task>,
    refused: seq<Task>,
    accepted: seq<Task>,
    taken: seq<Task>,
    handled: seq<Task>)

  datatype Step =
    | SubmitLock(task: Task) | SubmitTest | SubmitPush
    | NotifyOne(w: nat) | NotifyNone
    | StopStore | NotifyAll | Spurious(w: nat)
    | Acquire(w: nat) | Evaluate(w: nat) | Block(w: nat) | Decide(w: nat) | Return(w: nat)

  /** The constructor: at least one worker, whatever was asked for. */
  function Init(numThreads: int): State {
    var n := if numThreads <= 0 then 1 else numThreads;
    State(seq(n, _ => Start), Free, [], false, 0, 0, [], [], [], [], [])
  }

  predicate In(s: State, w: nat, p: Phase) {
    w < |s.workers| && s.workers[w] == p
  }

  predicate NoneBlocked(s: State) {
    forall w :: 0 <= w < |s.workers| ==> s.workers[w] != Blocked
  }

  predicate Enabled(s: State, step: Step) {
    match step
    case SubmitLock(_) => s.owner.Free?
    case SubmitTest => s.owner.Testing?
    case SubmitPush => s.owner.Pushing?
    case NotifyOne(w) => s.notifies > 0 && In(s, w, Blocked)
    case NotifyNone => s.notifies > 0 && NoneBlocked(s)
    case StopStore => true
    case NotifyAll => s.notifyAlls > 0
    case Spurious(w) => In(s, w, Blocked)
    case Acquire(w) => s.owner.Free? && (In(s, w, Start) || In(s, w, Woken))
    case Evaluate(w) => In(s, w, Checking)
    case Block(w) => In(s, w, Blocking)
    case Decide(w) => In(s, w, Deciding) && (s.queue != [] || s.stopping)
    case Return(w) => w < |s.workers| && s.workers[w].Handling?
  }

  function Wake(p: Phase): Phase {
    if p == Blocked then Woken else p
  }

  function WakeAll(ws: seq<Phase>): (r: seq<Phase>)
    ensures |r| == |ws| && forall i :: 0 <= i < |ws| ==> r[i] == Wake(ws[i])
  {
    seq(|ws|, i requires 0 <= i < |ws| => Wake(ws[i]))
  }

  function Apply(s: State, step: Step): State
    requires Enabled(s, step)
  {
    match step
    case SubmitLock(t) => s.(owner := Testing(t), submitted := s.submitted + [t])
    case SubmitTest =>
      if s.stopping then s.(owner := Free, refused := s.refused + [s.owner.task])
      else s.(owner := Pushing(s.owner.task))
    case SubmitPush =>
      s.(owner := Free, queue := s.queue + [s.owner.task], accepted := s.accepted + [s.owner.task],
         notifies := s.notifies + 1)
    case NotifyOne(w) => s.(workers := s.workers[w := Woken], notifies := s.notifies - 1)
    case NotifyNone => s.(notifies := s.notifies - 1)
    case StopStore => s.(stopping := true, notifyAlls := s.notifyAlls + 1)
    case NotifyAll => s.(workers := WakeAll(s.workers), notifyAlls := s.notifyAlls - 1)
    case Spurious(w) => s.(workers := s.workers[w := Woken])
    case Acquire(w) => s.(workers := s.workers[w := Checking], owner := Worker(w))
    case Evaluate(w) =>
      s.(workers := s.workers[w := if s.queue != [] || s.stopping then Deciding else Blocking])
    case Block(w) => s.(workers := s.workers[w := Blocked], owner := Free)
    case Decide(w) =>
      if s.stopping && s.queue == [] then
        s.(workers := s.workers[w := Exited], owner := Free)
      else
        s.(workers := s.workers[w := Handling(s.queue[0])], owner := Free, queue := s.queue[1..],
           taken := s.taken + [s.queue[0]])
    case Return(w) =>
      s.(workers := s.workers[w := Start], handled := s.handled + [s.workers[w].task])
  }

  /** `steps` is a schedule that takes the pool from `s` to `t`. */
  ghost predicate Run(s: State, steps: seq<Step>, t: State)
    decreases |steps|
  {
    if steps == [] then s == t
    else Enabled(s, steps[0]) && Run(Apply(s, steps[0]), steps[1..], t)
  }

  ghost predicate Reachable(s: State) {
    exists n, steps :: Run(Init(n), steps, s)
  }

  // ---- What every step keeps ----

  predicate HoldsLock(p: Phase) {
    p == Checking || p == Blocking || p == Deciding
  }

  /** The mutex: its owner, and nobody else, is inside a critical section. */
  ghost predicate LockInv(s: State) {
    && |s.workers| >= 1
    && (s.owner.Worker? ==> s.owner.w < |s.workers|)
    && (forall w :: 0 <= w < |s.workers| ==> (HoldsLock(s.workers[w]) <==> s.owner == Worker(w)))
    && (forall w :: 0 <= w < |s.workers| && s.workers[w] == Blocking ==> s.queue == [])
    && (forall w :: 0 <= w < |s.workers| && s.workers[w] == Deciding ==> s.queue != [] || s.stopping)
    && (s.notifyAlls > 0 ==> s.stopping)
  }

  /** How many handlers are running `x`, one worker at a time. */
  function Runs(x: Task): Phase -> int {
    (p: Phase) => if p == Handling(x) then 1 else 0
  }

  function InSection(o: Owner, x: Task): int {
    if o == Testing(x) || o == Pushing(x) then 1 else 0
  }

  /** Each submission of `x` is refused, accepted, or still being decided. */
  ghost predicate SubmittedInv(s: State, x: Task) {
    multiset(s.submitted)[x] == multiset(s.refused)[x] + multiset(s.accepted)[x] + InSection(s.owner, x)
  }

  /** Each `x` taken from the queue is in a handler or was handled once. */
  ghost predicate TakenInv(s: State, x: Task) {
    multiset(s.taken)[x] == multiset(s.handled)[x] + Sum(s.workers, Runs(x))
  }

  /** Submissions are conserved, and the queue is first in, first out. */
  ghost predicate AccountInv(s: State) {
    && s.accepted == s.taken + s.queue
    && (forall x :: SubmittedInv(s, x))
    && (forall x :: TakenInv(s, x))
  }

  /** A worker leaves only when nothing is queued and nothing can be queued any more. */
  ghost predicate ExitInv(s: State) {
    && (s.refused != [] ==> s.stopping)
    && ((exists w :: 0 <= w < |s.workers| && s.workers[w] == Exited) ==>
          s.stopping && s.queue == [] && !s.owner.Pushing?)
  }

  /** Workers certain to look at the queue before they next block. */
  function Awake(p: Phase): int {
    if p == Woken || p == Checking || p == Deciding then 1 else 0
  }

  /** No lost wakeup for work. */
  ghost predicate WakeInv(s: State) {
    !NoneBlocked(s) ==> |s.queue| <= s.notifies + Sum(s.workers, Awake)
  }

  ghost predicate Inv(s: State) {
    LockInv(s) && AccountInv(s) && ExitInv(s) && WakeInv(s)
  }

  /** A step of the worker that takes or holds the mutex. */
  lemma LockMove(s: State, step: Step)
    requires LockInv(s) && Enabled(s, step)
    requires step.Acquire? || step.Evaluate? || step.Block? || step.Decide?
    ensures LockInv(Apply(s, step))
  {
  }

  lemma LockStep(s: State, step: Step)
    requires LockInv(s) && Enabled(s, step)
    ensures LockInv(Apply(s, step))
  {
    if step.Acquire? || step.Evaluate? || step.Block? || step.Decide? {
      LockMove(s, step);
    }
  }

  /** The predicate re-tested under the mutex: the pop after the wait never meets an empty queue. */
  lemma DecideIsEnabled(s: State, w: nat)
    requires LockInv(s) && In(s, w, Deciding)
    ensures Enabled(s, Decide(w))
  {
  }

  lemma SubmittedStep(s: State, step: Step, x: Task)
    requires SubmittedInv(s, x) && Enabled(s, step)
    requires step.Block? || step.Decide? ==> s.owner.Worker?
    ensures SubmittedInv(Apply(s, step), x)
  {
  }

  /** Only taking a task and returning from its handler change what the handlers run. */
  lemma RunningKept(s: State, step: Step, x: Task)
    requires Enabled(s, step) && !step.Decide? && !step.Return?
    ensures Sum(Apply(s, step).workers, Runs(x)) == Sum(s.workers, Runs(x))
  {
    var ws, ws' := s.workers, Apply(s, step).workers;
    match step {
      case NotifyAll =>
        SumMono(ws, ws', Runs(x), Runs(x));
        SumMono(ws', ws, Runs(x), Runs(x));
      case NotifyOne(w) => SumUpdate(ws, w, Woken, Runs(x));
      case Spurious(w) => SumUpdate(ws, w, Woken, Runs(x));
      case Acquire(w) => SumUpdate(ws, w, Checking, Runs(x));
      case Evaluate(w) => SumUpdate(ws, w, ws'[w], Runs(x));
      case Block(w) => SumUpdate(ws, w, Blocked, Runs(x));
      case _ =>
    }
  }

  lemma TakenDecide(s: State, w: nat, x: Task)
    requires TakenInv(s, x) && Enabled(s, Decide(w))
    ensures TakenInv(Apply(s, Decide(w)), x)
  {
    SumUpdate(s.workers, w, Apply(s, Decide(w)).workers[w], Runs(x));
  }

  lemma TakenReturn(s: State, w: nat, x: Task)
    requires TakenInv(s, x) && Enabled(s, Return(w))
    ensures TakenInv(Apply(s, Return(w)), x)
  {
    SumUpdate(s.workers, w, Start, Runs(x));
  }

  lemma TakenStep(s: State, step: Step, x: Task)
    requires TakenInv(s, x) && Enabled(s, step)
    ensures TakenInv(Apply(s, step), x)
  {
    if step.Decide? {
      TakenDecide(s, step.w, x);
    } else if step.Return? {
      TakenReturn(s, step.w, x);
    } else {
      RunningKept(s, step, x);
    }
  }

  lemma AccountStep(s: State, step: Step)
    requires LockInv(s) && AccountInv(s) && Enabled(s, step)
    ensures AccountInv(Apply(s, step))
  {
    forall x ensures SubmittedInv(Apply(s, step), x) && TakenInv(Apply(s, step), x) {
      assert SubmittedInv(s, x) && TakenInv(s, x);
      SubmittedStep(s, step, x);
      TakenStep(s, step, x);
    }
    if step.Decide? && s.queue != [] {
      assert s.queue == [s.queue[0]] + s.queue[1..];
    }
  }

  lemma ExitStep(s: State, step: Step)
    requires LockInv(s) && ExitInv(s) && Enabled(s, step)
    ensures ExitInv(Apply(s, step))
  {
  }

  /** A worker step, or one worker being woken. */
  lemma WakeMove(s: State, step: Step, w: nat)
    requires LockInv(s) && WakeInv(s) && Enabled(s, step)
    requires step == NotifyOne(w) || step == Spurious(w) || step == Acquire(w) || step == Evaluate(w)
          || step == Decide(w) || step == Return(w)
    ensures WakeInv(Apply(s, step))
  {
    var t := Apply(s, step);
    SumUpdate(s.workers, w, t.workers[w], Awake);
    SumNonNegative(t.workers, Awake);
    if !NoneBlocked(t) {
      var b :| 0 <= b < |t.workers| && t.workers[b] == Blocked;
      assert s.workers[b] == Blocked;
    }
  }

  lemma WakeStep(s: State, step: Step)
    requires LockInv(s) && WakeInv(s) && Enabled(s, step)
    ensures WakeInv(Apply(s, step))
  {
    match step {
      case NotifyOne(w) => WakeMove(s, step, w);
      case Spurious(w) => WakeMove(s, step, w);
      case Acquire(w) => WakeMove(s, step, w);
      case Evaluate(w) => WakeMove(s, step, w);
      case Decide(w) => WakeMove(s, step, w);
      case Return(w) => WakeMove(s, step, w);
      case Block(w) => SumNonNegative(Apply(s, step).workers, Awake);
      case _ =>
    }
  }

  lemma InvStep(s: State, step: Step)
    requires Inv(s) && Enabled(s, step)
    ensures Inv(Apply(s, step))
  {
    LockStep(s, step);
    AccountStep(s, step);
    ExitStep(s, step);
    WakeStep(s, step);
  }

  lemma {:induction false} InvRun(s: State, steps: seq<Step>, t: State)
    requires Inv(s) && Run(s, steps, t)
    ensures Inv(t)
    decreases |steps|
  {
    if steps != [] {
      InvStep(s, steps[0]);
      InvRun(Apply(s, steps[0]), steps[1..], t);
    }
  }

  /** One more step at the end of a schedule. */
  lemma {:induction false} RunSnoc(s: State, steps: seq<Step>, t: State, last: Step)
    requires Run(s, steps, t) && Enabled(t, last)
    ensures Run(s, steps + [last], Apply(t, last))
    decreases |steps|
  {
    if steps == [] {
      assert Run(Apply(t, last), [last][1..], Apply(t, last));
    } else {
      assert (steps + [last])[1..] == steps[1..] + [last];
      RunSnoc(Apply(s, steps[0]), steps[1..], t, last);
    }
  }

  /** Everything below is about these states: any pool size, any schedule. */
  lemma ReachableInv(s: State)
    requires Reachable(s)
    ensures Inv(s)
  {
    var n, steps :| Run(Init(n), steps, s);
    forall x ensures TakenInv(Init(n), x) {
      SumZero(Init(n).workers, Runs(x));
    }
    InvRun(Init(n), steps, s);
  }

  // ---- Safety of every run ----

  lemma {:induction false} ReachableRun(s: State, steps: seq<Step>, t: State)
    requires Reachable(s) && Run(s, steps, t)
    ensures Reachable(t)
  {
    var n, before :| Run(Init(n), before, s);
    RunAppend(Init(n), before, s, steps, t);
  }

  lemma {:induction false} RunAppend(s: State, first: seq<Step>, m: State, second: seq<Step>, t: State)
    requires Run(s, first, m) && Run(m, second, t)
    ensures Run(s, first + second, t)
    decreases |first|
  {
    if first == [] {
      assert first + second == second;
    } else {
      assert (first + second)[1..] == first[1..] + second;
      RunAppend(Apply(s, first[0]), first[1..], m, second, t);
    }
  }

  /** Each submission of a task is refused, being decided, queued, in a handler or handled, and in one place only. */
  lemma EverySubmissionInOnePlace(s: State, x: Task)
    requires Reachable(s)
    ensures multiset(s.submitted)[x] ==
            multiset(s.refused)[x] + InSection(s.owner, x) + multiset(s.queue)[x]
            + Sum(s.workers, Runs(x)) + multiset(s.handled)[x]
  {
    ReachableInv(s);
    assert SubmittedInv(s, x) && TakenInv(s, x);
    assert multiset(s.accepted)[x] == multiset(s.taken)[x] + multiset(s.queue)[x];
  }

  /** Tasks leave the queue in the order in which they were pushed. */
  lemma FirstInFirstOut(s: State)
    requires Reachable(s)
    ensures s.taken <= s.accepted
    ensures s.queue == s.accepted[|s.taken|..]
  {
    ReachableInv(s);
  }

  predicate SomeExited(s: State) {
    exists w :: 0 <= w < |s.workers| && s.workers[w] == Exited
  }

  predicate AllExited(s: State) {
    forall w :: 0 <= w < |s.workers| ==> s.workers[w] == Exited
  }

  lemma {:induction false} ExitedStays(s: State, steps: seq<Step>, t: State)
    requires Inv(s) && SomeExited(s) && Run(s, steps, t)
    ensures Inv(t) && SomeExited(t) && t.accepted == s.accepted
    decreases |steps|
  {
    if steps != [] {
      var next := Apply(s, steps[0]);
      InvStep(s, steps[0]);
      var w :| 0 <= w < |s.workers| && s.workers[w] == Exited;
      assert next.workers[w] == Exited;
      ExitedStays(next, steps[1..], t);
    }
  }

  /** Once any worker has left, the queue is empty and stays so: whatever happens next, nothing more is accepted. */
  lemma NothingAcceptedAfterAnExit(s: State, steps: seq<Step>, t: State)
    requires Reachable(s) && SomeExited(s) && Run(s, steps, t)
    ensures t.queue == [] && t.accepted == s.accepted
  {
    ReachableInv(s);
    ExitedStays(s, steps, t);
  }

  /** When the pool has been joined, every accepted task was handled, as often as it was accepted. */
  lemma JoinedMeansAllHandled(s: State)
    requires Reachable(s) && AllExited(s)
    ensures s.taken == s.accepted && multiset(s.handled) == multiset(s.accepted)
  {
    ReachableInv(s);
    assert s.workers[0] == Exited;
    forall x ensures multiset(s.handled)[x] == multiset(s.accepted)[x] {
      assert TakenInv(s, x);
      SumZero(s.workers, Runs(x));
    }
  }

  function IsWoken(p: Phase): int {
    if p == Woken then 1 else 0
  }

  /**
   While a worker is blocked, every queued task is matched by a notify_one still to come or by a worker
   that looks at the queue before it next blocks; with no worker inside the mutex, the latter are the
   woken workers that have not yet looked.
   */
  lemma NoLostWakeup(s: State)
    requires Reachable(s) && !NoneBlocked(s)
    ensures |s.queue| <= s.notifies + Sum(s.workers, Awake)
    ensures !s.owner.Worker? ==> |s.queue| <= s.notifies + Sum(s.workers, IsWoken)
  {
    ReachableInv(s);
    if !s.owner.Worker? {
      SumMono(s.workers, s.workers, Awake, IsWoken);
    }
  }

  // ---- The size of the pool ----

  /** Some schedule leads here from a pool constructed with this argument. */
  ghost predicate From(numThreads: int, s: State) {
    exists steps :: Run(Init(numThreads), steps, s)
  }

  lemma Take(numThreads: int, s: State, step: Step) returns (t: State)
    requires From(numThreads, s) && Enabled(s, step)
    ensures From(numThreads, t) && t == Apply(s, step)
  {
    var steps :| Run(Init(numThreads), steps, s);
    t := Apply(s, step);
    RunSnoc(Init(numThreads), steps, s, step);
  }

  lemma {:induction false} RunKeepsSize(s: State, steps: seq<Step>, t: State)
    requires Run(s, steps, t)
    ensures |t.workers| == |s.workers|
    decreases |steps|
  {
    if steps != [] {
      RunKeepsSize(Apply(s, steps[0]), steps[1..], t);
    }
  }

  /** However it is scheduled, a pool has as many workers as were asked for, and one if that was not positive. */
  lemma SizeOfPool(numThreads: int, s: State)
    requires From(numThreads, s)
    ensures |s.workers| == if numThreads <= 0 then 1 else numThreads
  {
    var steps :| Run(Init(numThreads), steps, s);
    RunKeepsSize(Init(numThreads), steps, s);
  }

  /** The first k workers run handlers, the others are about to start, and nobody is inside the mutex. */
  ghost predicate BusyUpTo(s: State, k: nat) {
    && k <= |s.workers| && s.owner.Free? && s.queue == [] && !s.stopping
    && forall w :: 0 <= w < |s.workers| ==> if w < k then s.workers[w].Handling? else s.workers[w] == Start
  }

  /** One more task, submitted and taken by the next worker. */
  lemma OneMoreBusy(numThreads: int, s: State, k: nat, task: Task) returns (t: State)
    requires From(numThreads, s) && BusyUpTo(s, k) && k < |s.workers|
    ensures From(numThreads, t) && BusyUpTo(t, k + 1) && |t.workers| == |s.workers|
  {
    t := Take(numThreads, s, SubmitLock(task));
    t := Take(numThreads, t, SubmitTest);
    t := Take(numThreads, t, SubmitPush);
    t := Take(numThreads, t, Acquire(k));
    t := Take(numThreads, t, Evaluate(k));
    t := Take(numThreads, t, Decide(k));
  }

  lemma {:induction false} BusyRun(n: nat, k: nat, task: Task) returns (s: State)
    requires 1 <= n && k <= n
    ensures From(n, s) && BusyUpTo(s, k) && |s.workers| == n
  {
    if k == 0 {
      s := Init(n);
      assert Run(s, [], s);
    } else {
      s := BusyRun(n, k - 1, task);
      s := OneMoreBusy(n, s, k - 1, task);
    }
  }

  /** All the workers that were asked for can be in handlers at once. */
  lemma AllCanBeBusy(n: nat)
    requires n >= 1
    ensures exists s :: From(n, s) && |s.workers| == n && forall w :: 0 <= w < n ==> s.workers[w].Handling?
  {
    var s := BusyRun(n, n, Task(0, ""));
  }
}
