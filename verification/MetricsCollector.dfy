/** The simulator's latency summary: sort, then select by rank.  Ratios are exact reals. */
module MetricsCollector {
  import opened Sums

  datatype RequestMetric = RequestMetric(action: string, latencyMicros: nat, success: bool)

  datatype Summary = Summary(
    totalRequests: nat, successfulRequests: nat, failedRequests: nat,
    durationSeconds: real, requestsPerSec: real, errorRatePercent: real,
    avgLatencyMs: real, p50LatencyMs: real, p95LatencyMs: real, p99LatencyMs: real, maxLatencyMs: real)

  // ---- Sorting ----

  predicate Sorted(s: seq<nat>) {
    forall i, j :: 0 <= i < j < |s| ==> s[i] <= s[j]
  }

  function Insert(x: nat, s: seq<nat>): seq<nat> {
    if s == [] || x <= s[0] then [x] + s else [s[0]] + Insert(x, s[1..])
  }

  /** Stands for `std::sort`: see SortIsUnique for why any other sort gives the same. */
  function Sort(s: seq<nat>): seq<nat> {
    if s == [] then [] else Insert(s[0], Sort(s[1..]))
  }

  lemma {:induction false} InsertPermutes(x: nat, s: seq<nat>)
    ensures multiset(Insert(x, s)) == multiset(s) + multiset{x}
  {
    if s != [] && s[0] < x {
      InsertPermutes(x, s[1..]);
      assert s == [s[0]] + s[1..];
    }
  }

  lemma {:induction false} InsertSorts(x: nat, s: seq<nat>)
    requires Sorted(s)
    ensures Sorted(Insert(x, s)) && |Insert(x, s)| == |s| + 1
    ensures Insert(x, s)[0] == x || (s != [] && Insert(x, s)[0] == s[0])
  {
    if s != [] && s[0] < x {
      InsertSorts(x, s[1..]);
      assert s[0] <= Insert(x, s[1..])[0];
    }
  }

  lemma {:induction false} SortSorts(s: seq<nat>)
    ensures Sorted(Sort(s)) && multiset(Sort(s)) == multiset(s) && |Sort(s)| == |s|
  {
    if s != [] {
      SortSorts(s[1..]);
      InsertSorts(s[0], Sort(s[1..]));
      InsertPermutes(s[0], Sort(s[1..]));
      assert s == [s[0]] + s[1..];
    }
  }

  lemma HeadIsLeast(s: seq<nat>, x: nat)
    requires Sorted(s) && x in multiset(s)
    ensures s != [] && s[0] <= x
  {
    assert x in s;
  }

  lemma TailMultiset(s: seq<nat>)
    requires s != []
    ensures multiset(s[1..]) == multiset(s) - multiset{s[0]} && s[0] in multiset(s)
  {
    assert s == [s[0]] + s[1..];
  }

  lemma SameHeadAndTail(a: seq<nat>, b: seq<nat>)
    requires a != [] && b != [] && a[0] == b[0] && a[1..] == b[1..]
    ensures a == b
  {
    assert a == [a[0]] + a[1..] && b == [b[0]] + b[1..];
  }

  /** A sorted sequence is determined by its elements, whichever algorithm sorted it. */
  lemma {:induction false} SortIsUnique(a: seq<nat>, b: seq<nat>)
    requires Sorted(a) && Sorted(b) && multiset(a) == multiset(b)
    ensures a == b
  {
    SameLength(a, b);
    if a != [] {
      TailMultiset(a);
      TailMultiset(b);
      HeadIsLeast(a, b[0]);
      HeadIsLeast(b, a[0]);
      SortIsUnique(a[1..], b[1..]);
      SameHeadAndTail(a, b);
    }
  }

  lemma SameLength(a: seq<nat>, b: seq<nat>)
    requires multiset(a) == multiset(b)
    ensures |a| == |b|
  {
    assert |multiset(a)| == |a| && |multiset(b)| == |b|;
  }

  // ---- Rank selection ----

  /** The index a percentile selects: truncation, clamped to the last sample. */
  function RankIndex(pct: real, n: nat): (k: nat)
    requires n > 0 && pct >= 0.0
    ensures k < n
  {
    var idx := ((pct / 100.0) * n as real).Floor;
    if idx >= n then n - 1 else idx
  }

  function CountBelow(s: seq<nat>, v: nat): nat {
    if s == [] then 0 else (if s[0] < v then 1 else 0) + CountBelow(s[1..], v)
  }

  function CountUpTo(s: seq<nat>, v: nat): nat {
    if s == [] then 0 else (if s[0] <= v then 1 else 0) + CountUpTo(s[1..], v)
  }

  /** v is the sample of rank k: at most k samples lie below it, and more than k lie at or below it. */
  predicate HasRank(s: seq<nat>, v: nat, k: nat) {
    v in s && CountBelow(s, v) <= k < CountUpTo(s, v)
  }

  lemma {:induction false} CountsOfSorted(s: seq<nat>, k: nat)
    requires Sorted(s) && k < |s|
    ensures CountBelow(s, s[k]) <= k < CountUpTo(s, s[k])
  {
    if k == 0 {
      NoneBelow(s, s[0]);
    } else {
      CountsOfSorted(s[1..], k - 1);
    }
  }

  lemma {:induction false} NoneBelow(s: seq<nat>, v: nat)
    requires forall i :: 0 <= i < |s| ==> v <= s[i]
    ensures CountBelow(s, v) == 0
  {
    if s != [] {
      NoneBelow(s[1..], v);
    }
  }

  /** Counting does not depend on the order. */
  lemma {:induction false} CountsOfInsert(x: nat, s: seq<nat>, v: nat)
    ensures CountBelow(Insert(x, s), v) == CountBelow([x] + s, v)
    ensures CountUpTo(Insert(x, s), v) == CountUpTo([x] + s, v)
  {
    assert ([x] + s)[1..] == s;
    if s != [] && s[0] < x {
      CountsOfInsert(x, s[1..], v);
      assert ([x] + s[1..])[1..] == s[1..];
      assert Insert(x, s)[1..] == Insert(x, s[1..]);
    }
  }

  lemma {:induction false} CountsOfSort(s: seq<nat>, v: nat)
    ensures CountBelow(Sort(s), v) == CountBelow(s, v)
    ensures CountUpTo(Sort(s), v) == CountUpTo(s, v)
  {
    if s != [] {
      CountsOfSort(s[1..], v);
      CountsOfInsert(s[0], Sort(s[1..]), v);
      assert ([s[0]] + Sort(s[1..]))[1..] == Sort(s[1..]);
    }
  }

  lemma {:induction false} CountsAreOrdered(s: seq<nat>, v: nat, w: nat)
    requires v < w
    ensures CountUpTo(s, v) <= CountBelow(s, w)
  {
    if s != [] {
      CountsAreOrdered(s[1..], v, w);
    }
  }

  /** The k-th element of the sorted samples is the one sample of rank k. */
  lemma RankIsUnique(s: seq<nat>, v: nat, k: nat)
    requires k < |s|
    ensures |Sort(s)| == |s|
    ensures HasRank(s, v, k) <==> v == Sort(s)[k]
  {
    SortSorts(s);
    var w := Sort(s)[k];
    CountsOfSorted(Sort(s), k);
    CountsOfSort(s, w);
    assert w in multiset(s);
    if v < w {
      CountsAreOrdered(s, v, w);
    } else if w < v {
      CountsAreOrdered(s, w, v);
    }
  }

  // ---- The summary ----

  function Latencies(ms: seq<RequestMetric>): (l: seq<nat>)
    ensures |l| == |ms| && forall i :: 0 <= i < |ms| ==> l[i] == ms[i].latencyMicros
  {
    seq(|ms|, i requires 0 <= i < |ms| => ms[i].latencyMicros)
  }

  function Micros(m: RequestMetric): (r: int)
    ensures r == m.latencyMicros
  {
    m.latencyMicros
  }

  function Succeeded(m: RequestMetric): int { if m.success then 1 else 0 }

  function Successes(ms: seq<RequestMetric>): (n: nat)
    ensures n <= |ms|
  {
    SumNonNegative(ms, Succeeded);
    SumAtMostLength(ms);
    Sum(ms, Succeeded)
  }

  lemma {:induction false} SumAtMostLength(ms: seq<RequestMetric>)
    ensures Sum(ms, Succeeded) <= |ms|
  {
    if ms != [] {
      SumAtMostLength(ms[1..]);
    }
  }

  function TotalMicros(ms: seq<RequestMetric>): nat {
    SumNonNegative(ms, Micros);
    Sum(ms, Micros)
  }

  function Millis(micros: nat): real {
    micros as real / 1000.0
  }

  function PercentileMicros(ms: seq<RequestMetric>, pct: real): nat
    requires ms != [] && pct >= 0.0
  {
    SortSorts(Latencies(ms));
    Sort(Latencies(ms))[RankIndex(pct, |ms|)]
  }

  function MaxMicros(ms: seq<RequestMetric>): nat
    requires ms != []
  {
    SortSorts(Latencies(ms));
    Sort(Latencies(ms))[|ms| - 1]
  }

  function Ratio(t: real, n: real): real
    requires n > 0.0
  {
    t / n
  }

  function MeanMillis(t: real, n: real): real
    requires n > 0.0
  {
    Ratio(t, n) / 1000.0
  }

  function SummaryOf(ms: seq<RequestMetric>, durationSec: real): Summary {
    var n, seconds := |ms|, if durationSec > 0.0 then durationSec else 0.001;
    if ms == [] then Summary(0, 0, 0, seconds, 0.0, 0.0, 0.0, 0.0, 0.0, 0.0, 0.0)
    else
      Summary(
        n, Successes(ms), n - Successes(ms), seconds, Ratio(n as real, seconds),
        Ratio(100.0 * (n - Successes(ms)) as real, n as real),
        MeanMillis(TotalMicros(ms) as real, n as real),
        Millis(PercentileMicros(ms, 50.0)), Millis(PercentileMicros(ms, 95.0)), Millis(PercentileMicros(ms, 99.0)),
        Millis(MaxMicros(ms)))
  }

  lemma MulMono(x: real, y: real, n: real)
    requires x <= y && n > 0.0
    ensures x * n <= y * n && (x < y ==> x * n < y * n)
  {
    assert (y - x) * n >= 0.0;
  }

  lemma FloorMono(x: real, y: real)
    requires x <= y
    ensures x.Floor <= y.Floor
  {
  }

  /** Below 100 percent the index is the truncated share, and never out of range. */
  lemma RankIndexIsFloor(pct: real, n: nat)
    requires n > 0 && 0.0 <= pct < 100.0
    ensures RankIndex(pct, n) == ((pct / 100.0) * n as real).Floor
  {
    MulMono(pct / 100.0, 1.0, n as real);
    MulMono(0.0, pct / 100.0, n as real);
  }

  /** Each reported percentile is a recorded sample with exactly its share of samples below and at or below it. */
  lemma PercentileHasRank(ms: seq<RequestMetric>, pct: real)
    requires ms != [] && 0.0 <= pct
    ensures HasRank(Latencies(ms), PercentileMicros(ms, pct), RankIndex(pct, |ms|))
  {
    var l := Latencies(ms);
    SortSorts(l);
    var k := RankIndex(pct, |ms|);
    RankIsUnique(l, Sort(l)[k], k);
  }

  lemma RankIndexMonotone(p: real, q: real, n: nat)
    requires n > 0 && 0.0 <= p <= q
    ensures RankIndex(p, n) <= RankIndex(q, n)
  {
    MulMono(p / 100.0, q / 100.0, n as real);
    FloorMono((p / 100.0) * n as real, (q / 100.0) * n as real);
  }

  lemma PercentilesAreOrdered(ms: seq<RequestMetric>, p: real, q: real)
    requires ms != [] && 0.0 <= p <= q
    ensures PercentileMicros(ms, p) <= PercentileMicros(ms, q) <= MaxMicros(ms)
  {
    SortSorts(Latencies(ms));
    RankIndexMonotone(p, q, |ms|);
  }

  // ---- The average ----

  predicate Within(ms: seq<RequestMetric>, lo: nat, hi: nat) {
    forall i :: 0 <= i < |ms| ==> lo <= ms[i].latencyMicros <= hi
  }

  lemma {:induction false} TotalWithin(ms: seq<RequestMetric>, lo: nat, hi: nat)
    requires Within(ms, lo, hi)
    ensures |ms| as real * lo as real <= TotalMicros(ms) as real <= |ms| as real * hi as real
  {
    if ms != [] {
      TotalWithin(ms[1..], lo, hi);
      OneMore(|ms[1..]| as real, lo as real);
      OneMore(|ms[1..]| as real, hi as real);
    }
  }

  lemma OneMore(n: real, x: real)
    ensures (n + 1.0) * x == n * x + x
  {
  }

  lemma SortedBetween(s: seq<nat>, x: nat)
    requires Sorted(s) && x in multiset(s)
    ensures s != [] && s[0] <= x <= s[|s| - 1]
  {
    assert x in s;
  }

  function MinMicros(ms: seq<RequestMetric>): nat
    requires ms != []
  {
    SortSorts(Latencies(ms));
    Sort(Latencies(ms))[0]
  }

  lemma WithinMinMax(ms: seq<RequestMetric>)
    requires ms != []
    ensures Within(ms, MinMicros(ms), MaxMicros(ms))
  {
    var l := Latencies(ms);
    SortSorts(l);
    forall i | 0 <= i < |ms| ensures MinMicros(ms) <= ms[i].latencyMicros <= MaxMicros(ms) {
      assert l[i] in multiset(l);
      SortedBetween(Sort(l), l[i]);
    }
  }

  lemma Quotient(t: real, n: real, lo: real, hi: real)
    requires n > 0.0 && n * lo <= t <= n * hi
    ensures lo <= Ratio(t, n) <= hi
  {
    var q := Ratio(t, n);
    RatioTells(t, n);
    if q < lo {
      MulMono(q, lo, n);
    }
    if hi < q {
      MulMono(hi, q, n);
    }
  }

  /** The mean lies between the least and the greatest sample. */
  lemma AverageIsBetween(ms: seq<RequestMetric>, durationSec: real)
    requires ms != []
    ensures Millis(MinMicros(ms)) <= SummaryOf(ms, durationSec).avgLatencyMs <= SummaryOf(ms, durationSec).maxLatencyMs
  {
    WithinMinMax(ms);
    TotalWithin(ms, MinMicros(ms), MaxMicros(ms));
    Quotient(TotalMicros(ms) as real, |ms| as real, MinMicros(ms) as real, MaxMicros(ms) as real);
  }

  // ---- What the summary says ----

  /** Whether `ms` is the sample of this share of the latencies, in milliseconds. */
  predicate IsPercentile(ms: real, l: seq<nat>, percent: nat) {
    exists v :: v in l && HasRank(l, v, percent * |l| / 100) && ms == v as real / 1000.0
  }

  predicate IsRatio(r: real, t: real, n: real) {
    r * n == t
  }

  /** The mean of n numbers of microseconds that add up to t, in milliseconds. */
  predicate IsMean(ms: real, t: real, n: real) {
    ms * n == t / 1000.0
  }

  predicate IsGreatest(ms: real, l: seq<nat>) {
    exists v :: v in l && (forall i :: 0 <= i < |l| ==> l[i] <= v) && ms == v as real / 1000.0
  }

  /** What each field of a summary of some requests tells, field by field. */
  predicate Tells(s: Summary, ms: seq<RequestMetric>, durationSec: real) {
    && s.totalRequests == |ms|
    && s.durationSeconds == (if durationSec > 0.0 then durationSec else 0.001)
    && s.successfulRequests == |set i | 0 <= i < |ms| && ms[i].success|
    && s.failedRequests == |set i | 0 <= i < |ms| && !ms[i].success|
    && IsRatio(s.requestsPerSec, |ms| as real, s.durationSeconds)
    && IsRatio(s.errorRatePercent, 100.0 * s.failedRequests as real, |ms| as real)
    && IsMean(s.avgLatencyMs, Sum(ms, Micros) as real, |ms| as real)
    && IsPercentile(s.p50LatencyMs, Latencies(ms), 50)
    && IsPercentile(s.p95LatencyMs, Latencies(ms), 95)
    && IsPercentile(s.p99LatencyMs, Latencies(ms), 99)
    && IsGreatest(s.maxLatencyMs, Latencies(ms))
    && s.p50LatencyMs <= s.p95LatencyMs <= s.p99LatencyMs <= s.maxLatencyMs
    && s.avgLatencyMs <= s.maxLatencyMs
  }

  /** The truncated share of a whole percentage is a quotient of integers. */
  lemma ShareIsQuotient(percent: nat, n: nat)
    requires n > 0 && percent < 100
    ensures RankIndex(percent as real, n) == percent * n / 100
  {
    RankIndexIsFloor(percent as real, n);
    var k, x := percent * n / 100, (percent as real / 100.0) * n as real;
    assert percent as real * n as real == (percent * n) as real;
    assert x == (percent * n) as real / 100.0;
    assert k as real <= x < k as real + 1.0;
  }

  lemma PercentileTells(ms: seq<RequestMetric>, percent: nat)
    requires ms != [] && percent < 100
    ensures IsPercentile(Millis(PercentileMicros(ms, percent as real)), Latencies(ms), percent)
  {
    PercentileHasRank(ms, percent as real);
    ShareIsQuotient(percent, |ms|);
  }

  lemma GreatestTells(ms: seq<RequestMetric>)
    requires ms != []
    ensures IsGreatest(Millis(MaxMicros(ms)), Latencies(ms))
  {
    var l := Latencies(ms);
    SortSorts(l);
    WithinMinMax(ms);
    assert MaxMicros(ms) in multiset(Sort(l));
    assert MaxMicros(ms) in l;
  }

  lemma OutcomesTell(ms: seq<RequestMetric>)
    ensures Successes(ms) == |set i | 0 <= i < |ms| && ms[i].success|
    ensures |ms| - Successes(ms) == |set i | 0 <= i < |ms| && !ms[i].success|
  {
    var good := set i | 0 <= i < |ms| && ms[i].success;
    var bad := set i | 0 <= i < |ms| && !ms[i].success;
    CountIsCardinality(ms, Succeeded, good);
    CountIsCardinality(ms, Failed, bad);
    EitherOutcome(ms);
  }

  function Failed(m: RequestMetric): int { if m.success then 0 else 1 }

  lemma {:induction false} EitherOutcome(ms: seq<RequestMetric>)
    ensures Sum(ms, Succeeded) + Sum(ms, Failed) == |ms|
  {
    if ms != [] {
      EitherOutcome(ms[1..]);
    }
  }

  /** Every field of the summary tells what its name says. */
  lemma SummaryTells(ms: seq<RequestMetric>, durationSec: real)
    requires ms != []
    ensures Tells(SummaryOf(ms, durationSec), ms, durationSec)
  {
    OutcomesTell(ms);
    RateTells(ms, durationSec);
    ErrorRateTells(ms, durationSec);
    MeanTells(ms, durationSec);
    PercentileTells(ms, 50);
    PercentileTells(ms, 95);
    PercentileTells(ms, 99);
    GreatestTells(ms);
    PercentilesAreOrdered(ms, 50.0, 95.0);
    PercentilesAreOrdered(ms, 95.0, 99.0);
    AverageIsBetween(ms, durationSec);
  }

  lemma RateTells(ms: seq<RequestMetric>, durationSec: real)
    requires ms != []
    ensures var s := SummaryOf(ms, durationSec); IsRatio(s.requestsPerSec, |ms| as real, s.durationSeconds)
  {
    RatioTells(|ms| as real, SummaryOf(ms, durationSec).durationSeconds);
  }

  lemma ErrorRateTells(ms: seq<RequestMetric>, durationSec: real)
    requires ms != []
    ensures var s := SummaryOf(ms, durationSec);
            IsRatio(s.errorRatePercent, 100.0 * s.failedRequests as real, |ms| as real)
  {
    RatioTells(100.0 * SummaryOf(ms, durationSec).failedRequests as real, |ms| as real);
  }

  lemma MeanTells(ms: seq<RequestMetric>, durationSec: real)
    requires ms != []
    ensures IsMean(SummaryOf(ms, durationSec).avgLatencyMs, Sum(ms, Micros) as real, |ms| as real)
  {
    MeanOf(TotalMicros(ms) as real, |ms| as real);
  }

  lemma MeanOf(t: real, n: real)
    requires n > 0.0
    ensures IsMean(MeanMillis(t, n), t, n)
  {
    RatioTells(t, n);
    assert MeanMillis(t, n) * n == (Ratio(t, n) * n) / 1000.0;
  }

  lemma RatioTells(t: real, n: real)
    requires n > 0.0
    ensures IsRatio(Ratio(t, n), t, n)
  {
  }

  // ---- Order independence ----

  function HasLatency(v: nat): RequestMetric -> int {
    (m: RequestMetric) => if m.latencyMicros == v then 1 else 0
  }

  lemma {:induction false} LatencyCount(ms: seq<RequestMetric>, v: nat)
    ensures multiset(Latencies(ms))[v] == Sum(ms, HasLatency(v))
  {
    if ms != [] {
      LatencyCount(ms[1..], v);
      assert Latencies(ms) == [ms[0].latencyMicros] + Latencies(ms[1..]);
    }
  }

  lemma LatenciesPermuted(a: seq<RequestMetric>, b: seq<RequestMetric>)
    requires multiset(a) == multiset(b)
    ensures Sort(Latencies(a)) == Sort(Latencies(b))
  {
    forall v ensures multiset(Latencies(a))[v] == multiset(Latencies(b))[v] {
      LatencyCount(a, v);
      LatencyCount(b, v);
      SumPermuted(a, b, HasLatency(v));
    }
    SortSorts(Latencies(a));
    SortSorts(Latencies(b));
    SortIsUnique(Sort(Latencies(a)), Sort(Latencies(b)));
  }

  /** The whole summary depends on which requests were recorded, not on the order in which bots flushed them. */
  lemma SummaryIsOrderIndependent(a: seq<RequestMetric>, b: seq<RequestMetric>, durationSec: real)
    requires multiset(a) == multiset(b)
    ensures SummaryOf(a, durationSec) == SummaryOf(b, durationSec)
  {
    SumPermuted(a, b, Micros);
    SumPermuted(a, b, Succeeded);
    LatenciesPermuted(a, b);
  }

  // ---- The collector ----

  class MetricsCollector {
    var metrics: seq<RequestMetric>

    constructor ()
      ensures metrics == []
    {
      metrics := [];
    }

    method Record(action: string, latencyMicros: nat, success: bool)
      modifies this
      ensures metrics == old(metrics) + [RequestMetric(action, latencyMicros, success)]
    {
      metrics := metrics + [RequestMetric(action, latencyMicros, success)];
    }

    method RecordBatch(batch: seq<RequestMetric>)
      modifies this
      ensures metrics == old(metrics) + batch
    {
      metrics := metrics + batch;
    }

    /** The loop over the recorded requests. */
    method Accumulate() returns (latencies: seq<nat>, successful: nat, failed: nat, totalMicros: nat)
      ensures latencies == Latencies(metrics) && totalMicros == TotalMicros(metrics)
      ensures successful == Successes(metrics) && failed == |metrics| - Successes(metrics)
    {
      latencies := [];
      successful, failed, totalMicros := 0, 0, 0;
      for i := 0 to |metrics|
        invariant latencies == Latencies(metrics[..i])
        invariant successful == Successes(metrics[..i]) && successful + failed == i
        invariant totalMicros == TotalMicros(metrics[..i])
      {
        assert metrics[..i + 1] == metrics[..i] + [metrics[i]];
        SumAppend(metrics[..i], metrics[i], Micros);
        SumAppend(metrics[..i], metrics[i], Succeeded);
        if metrics[i].success {
          successful := successful + 1;
        } else {
          failed := failed + 1;
        }
        latencies := latencies + [metrics[i].latencyMicros];
        totalMicros := totalMicros + metrics[i].latencyMicros;
      }
      assert metrics[..|metrics|] == metrics;
    }

    /** The figures, from what the loop collected. */
    method Assemble(collected: seq<nat>, successful: nat, failed: nat, totalMicros: nat, seconds: real)
      returns (s: Summary)
      requires collected != [] && seconds > 0.0
      ensures |Sort(collected)| == |collected|
      ensures var n, l := |collected|, Sort(collected);
        s == Summary(
          n, successful, failed, seconds, Ratio(n as real, seconds), Ratio(100.0 * failed as real, n as real),
          MeanMillis(totalMicros as real, n as real),
          Millis(l[RankIndex(50.0, n)]), Millis(l[RankIndex(95.0, n)]), Millis(l[RankIndex(99.0, n)]), Millis(l[n - 1]))
    {
      var latencies := collected;
      SortSorts(latencies);
      latencies := Sort(latencies);
      var n := |latencies|;
      s := Summary(
        n, successful, failed, seconds, Ratio(n as real, seconds),
        Ratio(100.0 * failed as real, n as real),
        MeanMillis(totalMicros as real, n as real),
        Millis(latencies[RankIndex(50.0, n)]), Millis(latencies[RankIndex(95.0, n)]),
        Millis(latencies[RankIndex(99.0, n)]), Millis(latencies[n - 1]));
    }

    method ComputeSummary(durationSec: real) returns (s: Summary)
      ensures s == SummaryOf(metrics, durationSec)
      ensures metrics != [] ==> Tells(s, metrics, durationSec)
      ensures metrics == [] ==>
        s == Summary(0, 0, 0, if durationSec > 0.0 then durationSec else 0.001, 0.0, 0.0, 0.0, 0.0, 0.0, 0.0, 0.0)
    {
      var seconds := if durationSec > 0.0 then durationSec else 0.001;
      if metrics == [] {
        return Summary(0, 0, 0, seconds, 0.0, 0.0, 0.0, 0.0, 0.0, 0.0, 0.0);
      }
      var latencies, successful, failed, totalMicros := Accumulate();
      s := Assemble(latencies, successful, failed, totalMicros, seconds);
      SummaryTells(metrics, durationSec);
    }
  }
}
