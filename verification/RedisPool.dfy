/**
 The connection pool under any interleaving of borrowers.  Popping and pushing happen under the mutex,
 creating a connection does not; each is one step.
 */
module RedisPool {

  type Conn = nat       // connections are numbered as they are created
  type Holder = nat     // one call of acquire and the wrapper it returns

  datatype State = State(
    poolSize: nat,
    idle: seq<Conn>,
    lent: map<Holder, Conn>,
    creating: set<Holder>,    // found the pool empty, about to create
    created: nat,
    dropped: set<Conn>)       // closed on release, the pool being full

  datatype Step = Acquire(h: Holder) | Create(h: Holder) | Release(h: Holder)

  predicate Enabled(s: State, step: Step) {
    match step
    case Acquire(h) => h !in s.lent && h !in s.creating
    case Create(h) => h in s.creating
    case Release(h) => h in s.lent
  }

  function Apply(s: State, step: Step): State
    requires Enabled(s, step)
  {
    match step
    case Acquire(h) =>
      if s.idle != [] then
        s.(idle := s.idle[..|s.idle| - 1], lent := s.lent[h := s.idle[|s.idle| - 1]])
      else s.(creating := s.creating + {h})
    case Create(h) =>
      s.(creating := s.creating - {h}, lent := s.lent[h := s.created], created := s.created + 1)
    case Release(h) =>
      var s' := s.(lent := s.lent - {h});
      if |s.idle| < s.poolSize then s'.(idle := s.idle + [s.lent[h]])
      else s'.(dropped := s.dropped + {s.lent[h]})
  }

  ghost predicate Run(s: State, steps: seq<Step>, t: State)
    decreases |steps|
  {
    if steps == [] then s == t
    else Enabled(s, steps[0]) && Run(Apply(s, steps[0]), steps[1..], t)
  }

  function Init(poolSize: nat): State {
    State(poolSize, [], map[], {}, 0, {})
  }

  /** Where a connection is. */
  predicate Idle(s: State, c: Conn) { c in s.idle }
  predicate Lent(s: State, c: Conn) { exists h :: h in s.lent && s.lent[h] == c }
  predicate Dropped(s: State, c: Conn) { c in s.dropped }

  /** Nobody shares a connection. */
  ghost predicate Owned(s: State) {
    && s.creating !! s.lent.Keys
    && (forall i, j :: 0 <= i < j < |s.idle| ==> s.idle[i] != s.idle[j])
    && (forall g, h :: g in s.lent && h in s.lent && g != h ==> s.lent[g] != s.lent[h])
    && (forall h :: h in s.lent ==> s.lent[h] !in s.idle && s.lent[h] !in s.dropped)
    && (forall c :: c in s.idle ==> c !in s.dropped)
  }

  /** Only connections that were created are anywhere. */
  ghost predicate Known(s: State) {
    && (forall i :: 0 <= i < |s.idle| ==> s.idle[i] < s.created)
    && (forall h :: h in s.lent ==> s.lent[h] < s.created)
    && (forall c :: c in s.dropped ==> c < s.created)
  }

  ghost predicate Counted(s: State) {
    |s.idle| <= s.poolSize && s.created == |s.idle| + |s.lent| + |s.dropped|
  }

  ghost predicate Inv(s: State) {
    Owned(s) && Known(s) && Counted(s)
  }

  lemma OwnedStep(s: State, step: Step)
    requires Owned(s) && Known(s) && Enabled(s, step)
    ensures Owned(Apply(s, step))
  {
  }

  lemma KnownStep(s: State, step: Step)
    requires Known(s) && Enabled(s, step)
    ensures Known(Apply(s, step))
  {
  }

  lemma CountedStep(s: State, step: Step)
    requires Owned(s) && Counted(s) && Enabled(s, step)
    ensures Counted(Apply(s, step))
  {
    if step.Release? {
      assert |(s.lent - {step.h}).Keys| == |s.lent.Keys - {step.h}| == |s.lent| - 1;
    }
  }

  lemma {:induction false} InvRun(s: State, steps: seq<Step>, t: State)
    requires Inv(s) && Run(s, steps, t)
    ensures Inv(t) && t.poolSize == s.poolSize
    decreases |steps|
  {
    if steps != [] {
      OwnedStep(s, steps[0]);
      KnownStep(s, steps[0]);
      CountedStep(s, steps[0]);
      InvRun(Apply(s, steps[0]), steps[1..], t);
    }
  }

  /**
   In every reachable pool: at most `poolSize` idle connections; created = idle + lent + dropped; no
   connection has two holders, or is in two of the three places.
   */
  lemma PoolOwnership(poolSize: nat, steps: seq<Step>, s: State)
    requires Run(Init(poolSize), steps, s)
    ensures |s.idle| <= poolSize && s.created == |s.idle| + |s.lent| + |s.dropped|
    ensures forall g, h :: g in s.lent && h in s.lent && s.lent[g] == s.lent[h] ==> g == h
    ensures forall c :: !(Idle(s, c) && Lent(s, c)) && !(Idle(s, c) && Dropped(s, c)) && !(Lent(s, c) && Dropped(s, c))
  {
    InvRun(Init(poolSize), steps, s);
  }

  /** What is released is what is lent next: the idle list is a stack. */
  lemma LastReleasedFirstLent(s: State, g: Holder, h: Holder)
    requires Enabled(s, Release(g)) && |s.idle| < s.poolSize
    requires Enabled(Apply(s, Release(g)), Acquire(h))
    ensures Apply(Apply(s, Release(g)), Acquire(h)) == s.(lent := (s.lent - {g})[h := s.lent[g]])
  {
    var r := Apply(s, Release(g));
    assert r.idle[..|r.idle| - 1] == s.idle;
  }
}
