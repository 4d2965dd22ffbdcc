/**
 The latency histogram: recorders interleave one atomic operation at a time with each other and with a
 scrape that loads the counters one by one.  Atomics are sequentially consistent, sums are exact.
 */
module Metrics {
  import opened Sums

  const LATENCY_BUCKETS: seq<real> :=
    [0.0001, 0.00025, 0.0005, 0.001, 0.0025, 0.005, 0.010, 0.025, 0.050, 0.100, 0.250, 0.500, 1.000]

  /** One call of recordRequestLatency: its sample, its next operation, and its local copy of the sum. */
  datatype Recorder = Recorder(v: real, pc: nat, expected: real)

  // The operations of a recorder, in order.
  const COUNT: nat := 0
  const LOAD: nat := 1
  const CAS: nat := 2
  const BUCKETS: nat := 3   // BUCKETS + i bumps bucket i; the last one is +Inf

  /** `buckets` has one more element than `bounds`; `reported` and `total` are what a scrape has read. */
  datatype State = State(
    bounds: seq<real>,
    recs: seq<Recorder>,
    count: int,
    sum: real,
    buckets: seq<int>,
    reported: seq<int>,
    total: seq<int>)

  datatype Step = Begin(v: real) | Advance(r: nat, spurious: bool) | ScrapeStart | ScrapeBucket | ScrapeCount

  function Init(bounds: seq<real>): State {
    State(bounds, [], 0, 0.0, seq(|bounds| + 1, _ => 0), [], [])
  }

  predicate Ascending(bounds: seq<real>) {
    forall i, j :: 0 <= i < j < |bounds| ==> bounds[i] < bounds[j]
  }

  lemma LatencyBucketsAscend()
    ensures Ascending(LATENCY_BUCKETS) && |LATENCY_BUCKETS| == 13
    ensures LATENCY_BUCKETS ==
      [0.0001, 0.00025, 0.0005, 0.001, 0.0025, 0.005, 0.01, 0.025, 0.05, 0.1, 0.25, 0.5, 1.0]
  {
  }

  function DonePc(bounds: seq<real>): nat {
    BUCKETS + |bounds| + 1
  }

  /** Whether a sample belongs to the cumulative bucket i. */
  predicate Covers(bounds: seq<real>, i: nat, v: real) {
    i >= |bounds| || v <= bounds[i]
  }

  predicate Enabled(s: State, step: Step) {
    match step
    case Begin(_) => true
    case Advance(r, spurious) =>
      r < |s.recs| && s.recs[r].pc < DonePc(s.bounds) && (spurious ==> s.recs[r].pc == CAS)
    case ScrapeStart => true
    case ScrapeBucket => |s.reported| < |s.buckets|
    case ScrapeCount => |s.reported| == |s.buckets|
  }

  /** The next operation of a recorder. */
  function Operate(s: State, r: nat, spurious: bool): State
    requires Enabled(s, Advance(r, spurious)) && |s.buckets| == |s.bounds| + 1
  {
    var x := s.recs[r];
    var next := s.(recs := s.recs[r := x.(pc := x.pc + 1)]);
    if x.pc == COUNT then next.(count := s.count + 1)
    else if x.pc == LOAD then s.(recs := s.recs[r := x.(pc := CAS, expected := s.sum)])
    else if x.pc == CAS then
      if s.sum == x.expected && !spurious then next.(sum := x.expected + x.v)
      else s.(recs := s.recs[r := x.(expected := s.sum)])
    else
      var i := x.pc - BUCKETS;
      if Covers(s.bounds, i, x.v) then next.(buckets := s.buckets[i := s.buckets[i] + 1]) else next
  }

  function Apply(s: State, step: Step): State
    requires Enabled(s, step) && |s.buckets| == |s.bounds| + 1
  {
    match step
    case Begin(v) => s.(recs := s.recs + [Recorder(v, COUNT, 0.0)])
    case Advance(r, spurious) => Operate(s, r, spurious)
    case ScrapeStart => s.(reported := [], total := [])
    case ScrapeBucket => s.(reported := s.reported + [s.buckets[|s.reported|]])
    case ScrapeCount => s.(total := [s.count])
  }

  ghost predicate Run(s: State, steps: seq<Step>, t: State)
    requires |s.buckets| == |s.bounds| + 1
    decreases |steps|
  {
    if steps == [] then s == t
    else Enabled(s, steps[0]) && Run(Apply(s, steps[0]), steps[1..], t)
  }

  // ---- What every operation keeps ----

  function HasCounted(x: Recorder): int { if x.pc > COUNT then 1 else 0 }

  function HasBumped(bounds: seq<real>, i: nat): Recorder -> int {
    (x: Recorder) => if x.pc > BUCKETS + i && Covers(bounds, i, x.v) then 1 else 0
  }

  /** Recorders whose next operation is bucket i. */
  function AtBucket(i: nat): Recorder -> int {
    (x: Recorder) => if x.pc == BUCKETS + i then 1 else 0
  }

  /** The samples of the recorders whose compare-exchange succeeded. */
  function Added(recs: seq<Recorder>): real {
    if recs == [] then 0.0 else (if recs[0].pc > CAS then recs[0].v else 0.0) + Added(recs[1..])
  }

  ghost predicate BucketInv(s: State, i: nat) {
    i < |s.buckets| && s.buckets[i] == Sum(s.recs, HasBumped(s.bounds, i))
  }

  ghost predicate CountInv(s: State) {
    && |s.buckets| == |s.bounds| + 1
    && (forall r :: 0 <= r < |s.recs| ==> s.recs[r].pc <= DonePc(s.bounds))
    && s.count == Sum(s.recs, HasCounted)
    && forall i :: 0 <= i <= |s.bounds| ==> BucketInv(s, i)
  }

  /** The compare-exchange loop loses no addition and makes none twice. */
  ghost predicate SumInv(s: State) {
    s.sum == Added(s.recs)
  }

  ghost predicate ScrapeInv(s: State) {
    && |s.reported| <= |s.buckets|
    && (forall j :: 0 <= j < |s.reported| ==> s.reported[j] <= s.buckets[j])
    && (s.total == [] || (|s.total| == 1 && |s.reported| == |s.buckets|
        && forall j :: 0 <= j < |s.reported| ==> s.reported[j] <= s.total[0]))
  }

  lemma {:induction false} AddedUpdate(recs: seq<Recorder>, r: nat, x: Recorder)
    requires r < |recs|
    ensures Added(recs[r := x]) ==
            Added(recs) - (if recs[r].pc > CAS then recs[r].v else 0.0) + (if x.pc > CAS then x.v else 0.0)
  {
    if r == 0 {
      assert recs[0 := x][1..] == recs[1..];
    } else {
      assert recs[r := x][1..] == recs[1..][r - 1 := x];
      AddedUpdate(recs[1..], r - 1, x);
    }
  }

  lemma {:induction false} AddedAppend(recs: seq<Recorder>, x: Recorder)
    requires x.pc <= CAS
    ensures Added(recs + [x]) == Added(recs)
  {
    if recs == [] {
      assert recs + [x] == [x];
    } else {
      assert (recs + [x])[1..] == recs[1..] + [x];
      AddedAppend(recs[1..], x);
    }
  }

  lemma BucketStep(s: State, step: Step, i: nat)
    requires CountInv(s) && Enabled(s, step) && i <= |s.bounds|
    ensures BucketInv(Apply(s, step), i)
  {
    var f := HasBumped(s.bounds, i);
    assert BucketInv(s, i);
    match step {
      case Begin(v) => SumAppend(s.recs, Recorder(v, COUNT, 0.0), f);
      case Advance(r, _) => SumUpdate(s.recs, r, Apply(s, step).recs[r], f);
      case _ =>
    }
  }

  lemma CountStep(s: State, step: Step)
    requires CountInv(s) && Enabled(s, step)
    ensures CountInv(Apply(s, step))
  {
    var t := Apply(s, step);
    forall i | 0 <= i <= |s.bounds| ensures BucketInv(t, i) {
      BucketStep(s, step, i);
    }
    match step {
      case Begin(v) => SumAppend(s.recs, Recorder(v, COUNT, 0.0), HasCounted);
      case Advance(r, _) => SumUpdate(s.recs, r, t.recs[r], HasCounted);
      case _ =>
    }
  }

  lemma SumStep(s: State, step: Step)
    requires CountInv(s) && SumInv(s) && Enabled(s, step)
    ensures SumInv(Apply(s, step))
  {
    match step {
      case Begin(v) => AddedAppend(s.recs, Recorder(v, COUNT, 0.0));
      case Advance(r, _) => AddedUpdate(s.recs, r, Apply(s, step).recs[r]);
      case _ =>
    }
  }

  /** At every instant each bucket is at most the count. */
  lemma BucketAtMostCount(s: State, i: nat)
    requires CountInv(s) && i <= |s.bounds|
    ensures s.buckets[i] <= s.count
  {
    assert BucketInv(s, i);
    SumMono(s.recs, s.recs, HasBumped(s.bounds, i), HasCounted);
  }

  lemma ScrapeStep(s: State, step: Step)
    requires CountInv(s) && ScrapeInv(s) && Enabled(s, step)
    ensures ScrapeInv(Apply(s, step))
  {
    if step.ScrapeCount? {
      forall j | 0 <= j < |s.reported| ensures s.reported[j] <= s.count {
        BucketAtMostCount(s, j);
      }
    }
  }

  ghost predicate Inv(s: State) {
    CountInv(s) && SumInv(s) && ScrapeInv(s)
  }

  lemma {:induction false} InvRun(s: State, steps: seq<Step>, t: State)
    requires Inv(s) && Run(s, steps, t)
    ensures Inv(t) && t.bounds == s.bounds
    decreases |steps|
  {
    if steps != [] {
      CountStep(s, steps[0]);
      SumStep(s, steps[0]);
      ScrapeStep(s, steps[0]);
      InvRun(Apply(s, steps[0]), steps[1..], t);
    }
  }

  ghost predicate Reachable(bounds: seq<real>, s: State) {
    exists steps :: Run(Init(bounds), steps, s)
  }

  lemma ReachableInv(bounds: seq<real>, s: State)
    requires Reachable(bounds, s)
    ensures Inv(s) && s.bounds == bounds
  {
    var steps :| Run(Init(bounds), steps, s);
    forall i | 0 <= i <= |bounds| ensures BucketInv(Init(bounds), i) {}
    InvRun(Init(bounds), steps, s);
  }

  // ---- The histogram as it is read ----

  /**
   At every instant of every run: no bucket exceeds the count, and a bucket exceeds the next wider one by
   no more than the recorders that are just between the two.
   */
  lemma NearlyCumulative(bounds: seq<real>, s: State, i: nat)
    requires Ascending(bounds) && Reachable(bounds, s) && i < |bounds|
    ensures s.bounds == bounds && |s.buckets| == |bounds| + 1
    ensures s.buckets[i] <= s.count && s.buckets[i + 1] <= s.count
    ensures s.buckets[i] - s.buckets[i + 1] <= Sum(s.recs, AtBucket(i + 1))
  {
    ReachableInv(bounds, s);
    BucketAtMostCount(s, i);
    BucketAtMostCount(s, i + 1);
    assert BucketInv(s, i) && BucketInv(s, i + 1);
    SumSplit(s.recs, HasBumped(bounds, i), HasBumped(bounds, i + 1), AtBucket(i + 1));
  }

  lemma {:induction false} SumSplit<T>(s: seq<T>, f: T -> int, g: T -> int, h: T -> int)
    requires forall j :: 0 <= j < |s| ==> f(s[j]) <= g(s[j]) + h(s[j])
    ensures Sum(s, f) <= Sum(s, g) + Sum(s, h)
  {
    if s != [] {
      assert f(s[0]) <= g(s[0]) + h(s[0]);
      SumSplit(s[1..], f, g, h);
    }
  }

  /** A finished scrape never shows a bucket above its count, because the count is bumped first and read last. */
  lemma ScrapedCountIsLargest(bounds: seq<real>, s: State, j: nat)
    requires Reachable(bounds, s) && s.total != [] && j < |s.reported|
    ensures |s.reported| == |bounds| + 1 && s.reported[j] <= s.total[0]
  {
    ReachableInv(bounds, s);
  }

  /** Reading the next bucket: how far a scrape can be from cumulative is bounded by the recorders at that bucket. */
  lemma ScrapedNearlyCumulative(bounds: seq<real>, s: State)
    requires Ascending(bounds) && Reachable(bounds, s) && Enabled(s, ScrapeBucket) && s.reported != []
    ensures s.bounds == bounds && |s.buckets| == |bounds| + 1
    ensures var i, r := |s.reported| - 1, Apply(s, ScrapeBucket).reported;
            r[i] - r[i + 1] <= Sum(s.recs, AtBucket(i + 1))
  {
    ReachableInv(bounds, s);
    NearlyCumulative(bounds, s, |s.reported| - 1);
  }

  // ---- When the buckets are not cumulative ----

  /** Recorders that have bumped bucket i and are about to bump the next wider one. */
  function Between(bounds: seq<real>, i: nat): Recorder -> int {
    (x: Recorder) => if x.pc == BUCKETS + i + 1 && (i >= |bounds| || x.v <= bounds[i]) then 1 else 0
  }

  /** Samples already in bucket i + 1 that do not belong to bucket i. */
  function OnlyNext(bounds: seq<real>, i: nat): Recorder -> int {
    (x: Recorder) =>
      if x.pc > BUCKETS + i + 1 && i < |bounds| && x.v > bounds[i] && (i + 1 == |bounds| || x.v <= bounds[i + 1])
      then 1 else 0
  }

  lemma {:induction false} SumBalance<T>(s: seq<T>, f: T -> int, h: T -> int, g: T -> int, k: T -> int)
    requires forall j :: 0 <= j < |s| ==> f(s[j]) + h(s[j]) == g(s[j]) + k(s[j])
    ensures Sum(s, f) + Sum(s, h) == Sum(s, g) + Sum(s, k)
  {
    if s != [] {
      assert f(s[0]) + h(s[0]) == g(s[0]) + k(s[0]);
      SumBalance(s[1..], f, h, g, k);
    }
  }

  /**
   At every instant of every run a bucket is at most the next wider one if and only if the recorders
   between the two are no more than the samples that the wider one alone has.
   */
  lemma CumulativeIff(bounds: seq<real>, s: State, i: nat)
    requires Ascending(bounds) && Reachable(bounds, s) && i < |bounds|
    ensures |s.buckets| == |bounds| + 1
    ensures s.buckets[i] <= s.buckets[i + 1] <==> Sum(s.recs, Between(bounds, i)) <= Sum(s.recs, OnlyNext(bounds, i))
  {
    ReachableInv(bounds, s);
    assert BucketInv(s, i) && BucketInv(s, i + 1);
    SumBalance(s.recs, HasBumped(bounds, i), OnlyNext(bounds, i), HasBumped(bounds, i + 1), Between(bounds, i));
  }

  predicate Loads(steps: seq<Step>) {
    forall step :: step in steps ==> step.ScrapeBucket? || step.ScrapeCount?
  }

  /** The loads of a scrape from here on, with no recorder moving meanwhile. */
  lemma {:induction false} LoadTheRest(s: State) returns (steps: seq<Step>)
    requires |s.buckets| == |s.bounds| + 1 && s.reported <= s.buckets
    ensures Loads(steps) && Run(s, steps, s.(reported := s.buckets, total := [s.count]))
    decreases |s.buckets| - |s.reported|
  {
    if s.reported == s.buckets {
      steps := [ScrapeCount];
      assert Run(Apply(s, ScrapeCount), [], s.(reported := s.buckets, total := [s.count]));
    } else {
      assert s.reported == s.buckets[..|s.reported|];
      var rest := LoadTheRest(Apply(s, ScrapeBucket));
      steps := [ScrapeBucket] + rest;
      assert steps[1..] == rest;
    }
  }

  /** Loads alone report what is there. */
  lemma {:induction false} LoadsReport(s: State, steps: seq<Step>, t: State)
    requires |s.buckets| == |s.bounds| + 1 && s.reported <= s.buckets && (s.total != [] ==> s.reported == s.buckets)
    requires Loads(steps) && Run(s, steps, t)
    ensures t.buckets == s.buckets && t.reported <= s.buckets && (t.total != [] ==> t.reported == s.buckets)
    decreases |steps|
  {
    if steps != [] {
      assert steps[0].ScrapeBucket? || steps[0].ScrapeCount?;
      assert s.reported == s.buckets[..|s.reported|];
      LoadsReport(Apply(s, steps[0]), steps[1..], t);
    }
  }

  /** A finished scrape, all of whose loads happen in state `s`, reports bucket i above the next. */
  ghost predicate CanShow(s: State, i: nat)
    requires |s.buckets| == |s.bounds| + 1
  {
    exists steps, t :: Loads(steps) && Run(Apply(s, ScrapeStart), steps, t) && t.total != []
      && i + 1 < |t.reported| && t.reported[i] > t.reported[i + 1]
  }

  /** A scrape while nobody moves shows a pair of buckets out of order exactly under the condition above. */
  lemma StillScrapeIff(bounds: seq<real>, s: State, i: nat)
    requires Ascending(bounds) && Reachable(bounds, s) && i < |bounds|
    ensures |s.buckets| == |s.bounds| + 1
    ensures CanShow(s, i) <==> Sum(s.recs, Between(bounds, i)) > Sum(s.recs, OnlyNext(bounds, i))
  {
    ReachableInv(bounds, s);
    CumulativeIff(bounds, s, i);
    var started := Apply(s, ScrapeStart);
    var steps := LoadTheRest(started);
    assert Run(started, steps, started.(reported := s.buckets, total := [s.count]));
    if CanShow(s, i) {
      var loads, t :| Loads(loads) && Run(started, loads, t) && t.total != []
        && i + 1 < |t.reported| && t.reported[i] > t.reported[i + 1];
      LoadsReport(started, loads, t);
    }
  }

  predicate NoRestart(steps: seq<Step>) {
    forall step :: step in steps ==> !step.ScrapeStart?
  }

  /** Once the wider bucket has caught up with what was reported, the pair is reported in order. */
  lemma {:induction false} PairStaysInOrder(s: State, steps: seq<Step>, t: State, i: nat)
    requires CountInv(s) && i < |s.bounds| && i < |s.reported| <= |s.buckets|
    requires s.reported[i] <= if i + 1 < |s.reported| then s.reported[i + 1] else s.buckets[i + 1]
    requires Run(s, steps, t) && NoRestart(steps)
    ensures i + 1 < |t.reported| ==> t.reported[i] <= t.reported[i + 1]
    decreases |steps|
  {
    if steps != [] {
      assert !steps[0].ScrapeStart?;
      CountStep(s, steps[0]);
      PairStaysInOrder(Apply(s, steps[0]), steps[1..], t, i);
    }
  }

  /** Some continuation of a scrape, recorders moving or not, reports bucket i above the next. */
  ghost predicate CanStillShow(s: State, i: nat)
    requires |s.buckets| == |s.bounds| + 1
  {
    exists steps, t :: NoRestart(steps) && Run(s, steps, t) && i + 1 < |t.reported| && t.reported[i] > t.reported[i + 1]
  }

  /** A scrape that has just loaded bucket i can show it above the next exactly if it is, now, above the next. */
  lemma PairCanBreakIff(bounds: seq<real>, s: State, i: nat)
    requires Reachable(bounds, s) && i < |bounds| && |s.reported| == i + 1
    ensures |s.buckets| == |s.bounds| + 1 && s.bounds == bounds
    ensures CanStillShow(s, i) <==> s.reported[i] > s.buckets[i + 1]
  {
    ReachableInv(bounds, s);
    if s.reported[i] > s.buckets[i + 1] {
      var t := Apply(s, ScrapeBucket);
      assert Run(t, [], t);
      assert Run(s, [ScrapeBucket], t);
      assert t.reported[i] > t.reported[i + 1];
    } else if CanStillShow(s, i) {
      var steps, t :| NoRestart(steps) && Run(s, steps, t) && i + 1 < |t.reported| && t.reported[i] > t.reported[i + 1];
      PairStaysInOrder(s, steps, t, i);
    }
  }

  // ---- Quiescence ----

  predicate Quiescent(s: State) {
    forall r :: 0 <= r < |s.recs| ==> s.recs[r].pc == COUNT || s.recs[r].pc == DonePc(s.bounds)
  }

  /** A finished call whose sample is at most the bound of bucket i; any finished call for +Inf. */
  function Finished(bounds: seq<real>, i: nat): Recorder -> int {
    (x: Recorder) => if x.pc == DonePc(bounds) && (i >= |bounds| || x.v <= bounds[i]) then 1 else 0
  }

  function Samples(recs: seq<Recorder>, done: nat): real {
    if recs == [] then 0.0 else (if recs[0].pc == done then recs[0].v else 0.0) + Samples(recs[1..], done)
  }

  lemma {:induction false} AddedWhenQuiescent(recs: seq<Recorder>, done: nat)
    requires done > CAS && forall r :: 0 <= r < |recs| ==> recs[r].pc == COUNT || recs[r].pc == done
    ensures Added(recs) == Samples(recs, done)
  {
    if recs != [] {
      AddedWhenQuiescent(recs[1..], done);
    }
  }

  /** With nobody mid-update every bucket is exact, +Inf is the count, and the sum is the sum of the samples. */
  lemma ExactWhenQuiescent(bounds: seq<real>, s: State, i: nat)
    requires Reachable(bounds, s) && Quiescent(s) && i <= |bounds|
    ensures s.bounds == bounds && |s.buckets| == |bounds| + 1
    ensures s.buckets[i] == Sum(s.recs, Finished(bounds, i))
    ensures s.buckets[i] ==
            |set r | 0 <= r < |s.recs| && s.recs[r].pc == DonePc(bounds) && (i == |bounds| || s.recs[r].v <= bounds[i])|
    ensures s.buckets[|bounds|] == s.count
    ensures s.sum == Samples(s.recs, DonePc(bounds))
  {
    ReachableInv(bounds, s);
    var n := |bounds|;
    assert BucketInv(s, i) && BucketInv(s, n);
    SumMono(s.recs, s.recs, HasBumped(bounds, i), Finished(bounds, i));
    SumMono(s.recs, s.recs, Finished(bounds, i), HasBumped(bounds, i));
    SumMono(s.recs, s.recs, HasBumped(bounds, n), HasCounted);
    SumMono(s.recs, s.recs, HasCounted, HasBumped(bounds, n));
    AddedWhenQuiescent(s.recs, DonePc(bounds));
    var calls :=
      set r | 0 <= r < |s.recs| && s.recs[r].pc == DonePc(bounds) && (i == |bounds| || s.recs[r].v <= bounds[i]);
    CountIsCardinality(s.recs, Finished(bounds, i), calls);
  }

  // ---- It does happen ----

  /** One more step at the end of a run. */
  lemma {:induction false} RunSnoc(s: State, steps: seq<Step>, t: State, last: Step)
    requires |s.buckets| == |s.bounds| + 1 && Run(s, steps, t)
    ensures |t.buckets| == |t.bounds| + 1
    ensures Enabled(t, last) ==> Run(s, steps + [last], Apply(t, last))
    decreases |steps|
  {
    if steps == [] {
      if Enabled(t, last) {
        assert Run(Apply(t, last), [last][1..], Apply(t, last));
      }
    } else {
      assert (steps + [last])[1..] == steps[1..] + [last];
      RunSnoc(Apply(s, steps[0]), steps[1..], t, last);
    }
  }

  lemma ReachableStep(bounds: seq<real>, s: State, last: Step)
    requires Reachable(bounds, s) && Enabled(s, last)
    ensures |s.buckets| == |s.bounds| + 1 && Reachable(bounds, Apply(s, last))
  {
    var steps :| Run(Init(bounds), steps, s);
    RunSnoc(Init(bounds), steps, s, last);
  }

  /** The only recorder carries on until its next operation is `pc`. */
  lemma {:induction false} Drive(bounds: seq<real>, s: State, pc: nat) returns (t: State)
    requires Reachable(bounds, s) && |s.recs| == 1 && s.recs[0].pc <= pc <= DonePc(bounds)
    requires s.recs[0].pc == CAS ==> s.recs[0].expected == s.sum
    ensures Reachable(bounds, t) && |t.recs| == 1 && t.recs[0].pc == pc && t.recs[0].v == s.recs[0].v
    decreases pc - s.recs[0].pc
  {
    t := s;
    if s.recs[0].pc < pc {
      ReachableInv(bounds, s);
      ReachableStep(bounds, s, Advance(0, false));
      t := Drive(bounds, Apply(s, Advance(0, false)), pc);
    }
  }

  ghost predicate ReportsBroken(bounds: seq<real>, t: State, i: nat) {
    && Reachable(bounds, t) && t.total != [] && |t.reported| == |bounds| + 1
    && i + 1 < |t.reported| && t.reported[i] > t.reported[i + 1]
  }

  /** Whatever the bounds, one recorder is enough for a finished scrape that is not cumulative. */
  lemma OneRecorderBreaksCumulation(bounds: seq<real>) returns (t: State)
    requires Ascending(bounds) && bounds != []
    ensures ReportsBroken(bounds, t, 0)
  {
    var empty := Init(bounds);
    assert Run(empty, [], empty);
    ReachableStep(bounds, empty, Begin(bounds[0]));
    var s := Drive(bounds, Apply(empty, Begin(bounds[0])), BUCKETS + 1);
    assert s.recs == [s.recs[0]];
    OneBetween(bounds, s.recs[0]);
    StillScrapeIff(bounds, s, 0);
    t := ShownIsReachable(bounds, s, 0);
  }

  /** So it happens with the server's own buckets. */
  lemma ScrapeCanBreakCumulation()
    ensures exists t :: ReportsBroken(LATENCY_BUCKETS, t, 0)
  {
    LatencyBucketsAscend();
    var t := OneRecorderBreaksCumulation(LATENCY_BUCKETS);
  }

  lemma OneBetween(bounds: seq<real>, x: Recorder)
    requires bounds != [] && x.pc == BUCKETS + 1 && x.v == bounds[0]
    ensures Sum([x], Between(bounds, 0)) == 1 && Sum([x], OnlyNext(bounds, 0)) == 0
  {
    assert [x][1..] == [];
  }

  lemma ShownIsReachable(bounds: seq<real>, s: State, i: nat) returns (t: State)
    requires Reachable(bounds, s) && |s.buckets| == |s.bounds| + 1 && CanShow(s, i)
    ensures ReportsBroken(bounds, t, i)
  {
    var started := Apply(s, ScrapeStart);
    var steps;
    steps, t :| Loads(steps) && Run(started, steps, t) && t.total != []
      && i + 1 < |t.reported| && t.reported[i] > t.reported[i + 1];
    ReachableStep(bounds, s, ScrapeStart);
    ReachableRun(bounds, started, steps, t);
    ReachableInv(bounds, t);
  }

  lemma {:induction false} ReachableRun(bounds: seq<real>, s: State, steps: seq<Step>, t: State)
    requires Reachable(bounds, s) && |s.buckets| == |s.bounds| + 1 && Run(s, steps, t)
    ensures Reachable(bounds, t)
    decreases |steps|
  {
    if steps != [] {
      ReachableStep(bounds, s, steps[0]);
      ReachableRun(bounds, Apply(s, steps[0]), steps[1..], t);
    }
  }
}
