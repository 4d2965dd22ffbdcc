/**
 The pool while it runs: whatever arrives, its own steps are bounded, and where they come to rest every
 accepted task was handled, whether or not anybody ever calls `stop`.
 */
module ThreadPoolLiveness {
  import opened Sums
  import opened ThreadPool
  import opened ThreadPoolShutdown

  /** How far a worker is from its next sleep or from leaving. */
  function Distance(p: Phase): int {
    match p
    case Blocked => 0
    case Exited => 0
    case Blocking => 1
    case Deciding => 1
    case Checking => 2
    case Start => 3
    case Woken => 3
    case Handling(_) => 4
  }

  /** What the pool has left to do on its own. */
  function Work(s: State): int {
    Sum(s.workers, Distance) + 4 * |s.queue| + 4 * s.notifies + if s.owner.Pushing? then 9 else 0
  }

  /** What a step from outside can add: an admitted task, or workers woken for no task. */
  function Input(step: Step, workers: nat): int {
    match step
    case SubmitTest => 9
    case Spurious(_) => 3
    case NotifyAll => 3 * workers
    case _ => 0
  }

  lemma WorkMove(s: State, step: Step, w: nat)
    requires LockInv(s) && Enabled(s, step)
    requires step == NotifyOne(w) || step == Acquire(w) || step == Evaluate(w)
          || step == Block(w) || step == Decide(w) || step == Return(w)
    ensures Work(Apply(s, step)) <= Work(s) - 1
  {
    SumUpdate(s.workers, w, Apply(s, step).workers[w], Distance);
  }

  lemma {:induction false} WakeAllAdds(ws: seq<Phase>)
    ensures Sum(WakeAll(ws), Distance) <= Sum(ws, Distance) + 3 * |ws|
  {
    if ws != [] {
      assert WakeAll(ws)[1..] == WakeAll(ws[1..]);
      WakeAllAdds(ws[1..]);
    }
  }

  lemma WorkStep(s: State, step: Step)
    requires LockInv(s) && Enabled(s, step)
    ensures |Apply(s, step).workers| == |s.workers|
    ensures Work(Apply(s, step)) <= Work(s) + if Progress(step) then -1 else Input(step, |s.workers|)
  {
    match step {
      case NotifyAll => WakeAllAdds(s.workers);
      case Spurious(w) => SumUpdate(s.workers, w, Woken, Distance);
      case NotifyOne(w) => WorkMove(s, step, w);
      case Acquire(w) => WorkMove(s, step, w);
      case Evaluate(w) => WorkMove(s, step, w);
      case Block(w) => WorkMove(s, step, w);
      case Decide(w) => WorkMove(s, step, w);
      case Return(w) => WorkMove(s, step, w);
      case _ =>
    }
  }

  function Inputs(steps: seq<Step>, workers: nat): int {
    if steps == [] then 0
    else (if Progress(steps[0]) then 0 else Input(steps[0], workers)) + Inputs(steps[1..], workers)
  }

  /**
   In every schedule the pool's own steps are at most the work there was and the work that came in: it
   never spins.
   */
  lemma {:induction false} OwnStepsAreBounded(s: State, steps: seq<Step>, t: State)
    requires Inv(s) && Run(s, steps, t)
    ensures CountProgress(steps) + Work(t) <= Work(s) + Inputs(steps, |s.workers|) && 0 <= Work(t)
    decreases |steps|
  {
    if steps == [] {
      SumNonNegative(s.workers, Distance);
    } else {
      WorkStep(s, steps[0]);
      InvStep(s, steps[0]);
      OwnStepsAreBounded(Apply(s, steps[0]), steps[1..], t);
    }
  }

  lemma {:induction false} OwnInputs(steps: seq<Step>, workers: nat)
    requires forall step :: step in steps ==> Progress(step)
    ensures Inputs(steps, workers) == 0 && CountProgress(steps) == |steps|
  {
    if steps != [] {
      assert Progress(steps[0]);
      OwnInputs(steps[1..], workers);
    }
  }

  /**
   Left to itself from any state of any run, the pool takes at most `Work(s)` steps, and where it can take
   no more the queue is empty and every accepted task was handled.
   */
  lemma LeftAloneItFinishes(s: State, steps: seq<Step>, t: State)
    requires Reachable(s) && Run(s, steps, t) && forall step :: step in steps ==> Progress(step)
    ensures |steps| <= Work(s)
    ensures Quiescent(t) ==> t.queue == [] && multiset(t.handled) == multiset(t.accepted)
  {
    ReachableInv(s);
    OwnStepsAreBounded(s, steps, t);
    OwnInputs(steps, |s.workers|);
    if Quiescent(t) {
      ReachableRun(s, steps, t);
      ReachableInv(t);
      RestMeansDone(t);
    }
  }
}
