/**
 The pool as an object updated in place.  Each method is one of the source's code paths run without
 interruption; its contract says what it does and that it is a schedule of the protocol in ThreadPool.
 */
module ThreadPoolObject {
  import opened ThreadPool

  class Pool {
    const workers: array<Phase>
    var owner: Owner
    var tasks: seq<Task>
    var stopping: bool
    var notifies: nat
    var notifyAlls: nat
    ghost var submitted: seq<Task>
    ghost var refused: seq<Task>
    ghost var accepted: seq<Task>
    ghost var taken: seq<Task>
    ghost var handled: seq<Task>

    ghost function View(): State
      reads this, workers
    {
      State(workers[..], owner, tasks, stopping, notifies, notifyAlls, submitted, refused, accepted, taken, handled)
    }

    constructor (numThreads: int)
      ensures fresh(workers) && View() == Init(numThreads)
      ensures workers.Length == if numThreads <= 0 then 1 else numThreads
      ensures forall w :: 0 <= w < workers.Length ==> workers[w] == Start
      ensures owner.Free? && tasks == [] && !stopping && notifies == notifyAlls == 0
    {
      var n := if numThreads <= 0 then 1 else numThreads;
      workers := new Phase[n](_ => Start);
      owner, tasks, stopping, notifies, notifyAlls := Free, [], false, 0, 0;
      submitted, refused, accepted, taken, handled := [], [], [], [], [];
      new;
      assert workers[..] == Init(numThreads).workers;
    }

    /** The locked part of `submit`: refused once stopping, queued before. */
    method SubmitLocked(task: Task)
      requires owner.Free?
      modifies this
      ensures Run(old(View()), if old(stopping) then [SubmitLock(task), SubmitTest]
                               else [SubmitLock(task), SubmitTest, SubmitPush], View())
      ensures tasks == old(tasks) + if old(stopping) then [] else [task]
      ensures notifies == old(notifies) + if old(stopping) then 0 else 1
      ensures owner.Free?
    {
      ghost var s0 := View();
      submitted := submitted + [task];
      ghost var s1 := Apply(s0, SubmitLock(task));
      if stopping {
        refused := refused + [task];
        RunTwo(s0, SubmitLock(task), SubmitTest);
        return;
      }
      RunThree(s0, SubmitLock(task), SubmitTest, SubmitPush);
      accepted := accepted + [task];
      tasks := tasks + [task];
      notifies := notifies + 1;
    }

    /** `notify_one`: the worker `w` is woken if it sleeps; with nobody asleep the call is lost. */
    method NotifyOneCall(w: nat) returns (woke: bool)
      requires notifies > 0 && w < workers.Length
      requires workers[w] == Blocked || NoneBlocked(View())
      modifies this`notifies, workers
      ensures woke == (old(workers[w]) == Blocked)
      ensures View() == Apply(old(View()), if woke then NotifyOne(w) else NotifyNone)
    {
      notifies := notifies - 1;
      woke := workers[w] == Blocked;
      if woke {
        workers[w] := Woken;
      }
    }

    /** The non-blocking part of `stop`: nobody is left asleep, but nobody else is touched. */
    method StopSignal()
      modifies this`stopping, this`notifyAlls, workers
      ensures View() == Apply(Apply(old(View()), StopStore), NotifyAll)
      ensures NoneBlocked(View())
    {
      stopping := true;
      for i := 0 to workers.Length
        modifies workers
        invariant forall j :: 0 <= j < i ==> workers[j] == Wake(old(workers[j]))
        invariant forall j :: i <= j < workers.Length ==> workers[j] == old(workers[j])
      {
        if workers[i] == Blocked {
          workers[i] := Woken;
        }
      }
      assert workers[..] == WakeAll(old(workers[..]));
    }

    /**
     One turn of a worker: lock, test the predicate, then sleep, leave, or take the oldest task.  Exactly
     one of the three, decided by the queue and the flag.
     */
    method WorkerTurn(w: nat)
      requires w < workers.Length && (workers[w] == Start || workers[w] == Woken) && owner.Free?
      modifies this, workers
      ensures Run(old(View()), TurnSteps(old(View()), w), View())
      ensures owner.Free? && stopping == old(stopping)
      ensures forall j :: 0 <= j < workers.Length && j != w ==> workers[j] == old(workers[j])
      ensures old(tasks) != [] ==> workers[w] == Handling(old(tasks)[0]) && tasks == old(tasks)[1..]
      ensures old(tasks) == [] ==> tasks == [] && workers[w] == if stopping then Exited else Blocked
    {
      TurnRuns(View(), w);
      if tasks == [] && !stopping {
        workers[w] := Blocked;
      } else if stopping && tasks == [] {
        workers[w] := Exited;
      } else {
        workers[w] := Handling(tasks[0]);
        taken := taken + [tasks[0]];
        tasks := tasks[1..];
      }
      assert View() == TurnEnd(old(View()), w);
    }
  }

  function TurnSteps(s: State, w: nat): seq<Step> {
    [Acquire(w), Evaluate(w)] + if s.queue == [] && !s.stopping then [Block(w)] else [Decide(w)]
  }

  function TurnEnd(s: State, w: nat): State
    requires w < |s.workers|
  {
    if s.queue == [] then s.(workers := s.workers[w := if s.stopping then Exited else Blocked])
    else
      s.(workers := s.workers[w := Handling(s.queue[0])], queue := s.queue[1..], taken := s.taken + [s.queue[0]])
  }

  lemma TurnRuns(s: State, w: nat)
    requires w < |s.workers| && (s.workers[w] == Start || s.workers[w] == Woken) && s.owner.Free?
    ensures Run(s, TurnSteps(s, w), TurnEnd(s, w))
  {
    var last := if s.queue == [] && !s.stopping then Block(w) else Decide(w);
    RunThree(s, Acquire(w), Evaluate(w), last);
    assert TurnSteps(s, w) == [Acquire(w), Evaluate(w), last];
    var t := Apply(Apply(Apply(s, Acquire(w)), Evaluate(w)), last);
    assert t.workers == TurnEnd(s, w).workers;
  }

  lemma RunTwo(s: State, a: Step, b: Step)
    requires Enabled(s, a) && Enabled(Apply(s, a), b)
    ensures Run(s, [a, b], Apply(Apply(s, a), b))
  {
    assert [a, b][1..] == [b];
    assert Run(Apply(Apply(s, a), b), [], Apply(Apply(s, a), b));
    assert Run(Apply(s, a), [b], Apply(Apply(s, a), b));
  }

  lemma RunThree(s: State, a: Step, b: Step, c: Step)
    requires Enabled(s, a) && Enabled(Apply(s, a), b) && Enabled(Apply(Apply(s, a), b), c)
    ensures Run(s, [a, b, c], Apply(Apply(Apply(s, a), b), c))
  {
    assert [a, b, c][1..] == [b, c];
    RunTwo(Apply(s, a), b, c);
  }
}
