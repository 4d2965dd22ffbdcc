/** The metrics registry as one thread sees it: the counters, and the histogram of the samples recorded so far. */
module Registry {
  import Metrics

  const LATENCY_BUCKETS := Metrics.LATENCY_BUCKETS

  /** How many samples belong to the cumulative bucket i. */
  function CountUpTo(samples: seq<real>, i: nat): nat {
    if samples == [] then 0
    else
      var last := samples[|samples| - 1];
      CountUpTo(samples[..|samples| - 1], i) + if i >= |LATENCY_BUCKETS| || last <= LATENCY_BUCKETS[i] then 1 else 0
  }

  function Total(samples: seq<real>): real {
    if samples == [] then 0.0 else Total(samples[..|samples| - 1]) + samples[|samples| - 1]
  }

  class MetricsRegistry {
    var requestsTotal: nat
    var successfulRequests: nat
    var failedRequests: nat
    var activePlayers: int
    var latencyCount: nat
    var latencySum: real
    const latencyBucketCounts: array<nat>
    var cacheHits: nat
    var cacheMisses: nat
    ghost var samples: seq<real>

    /** The histogram of the samples recorded so far. */
    ghost predicate Valid()
      reads this, latencyBucketCounts
    {
      && latencyBucketCounts.Length == |LATENCY_BUCKETS| + 1
      && latencyCount == |samples| && latencySum == Total(samples)
      && forall i :: 0 <= i < latencyBucketCounts.Length ==> latencyBucketCounts[i] == CountUpTo(samples, i)
    }

    constructor ()
      ensures Valid() && fresh(latencyBucketCounts) && samples == []
      ensures requestsTotal == successfulRequests == failedRequests == cacheHits == cacheMisses == 0
      ensures activePlayers == 0
    {
      requestsTotal, successfulRequests, failedRequests := 0, 0, 0;
      activePlayers, latencyCount, latencySum, cacheHits, cacheMisses := 0, 0, 0.0, 0, 0;
      latencyBucketCounts := new nat[|LATENCY_BUCKETS| + 1](_ => 0);
      samples := [];
    }

    /** The weak compare-exchange: it may fail although the expected value is there, and then reloads it. */
    method CompareExchangeWeak(expected: real, desired: real, spurious: bool) returns (ok: bool, seen: real)
      modifies this`latencySum
      ensures ok <==> !spurious && expected == old(latencySum)
      ensures latencySum == if ok then desired else old(latencySum)
      ensures !ok ==> seen == old(latencySum)
    {
      ok, seen := !spurious && expected == latencySum, latencySum;
      if ok {
        latencySum := desired;
      }
    }

    /** The retry loop adds exactly once, after however many spurious failures. */
    method AddToSum(seconds: real, failures: nat)
      modifies this`latencySum
      ensures latencySum == old(latencySum) + seconds
    {
      var currentSum := latencySum;
      var done, left := false, failures;
      while !done
        invariant latencySum == old(latencySum) + if done then seconds else 0.0
        invariant !done ==> currentSum == latencySum
        decreases !done, left
      {
        var spurious := left > 0;
        done, currentSum := CompareExchangeWeak(currentSum, currentSum + seconds, spurious);
        left := if spurious then left - 1 else 0;
      }
    }

    /** One call on its own; `failures` is how often the weak compare-exchange fails spuriously. */
    method RecordRequestLatency(seconds: real, failures: nat)
      requires Valid()
      modifies this`latencyCount, this`latencySum, this`samples, latencyBucketCounts
      ensures Valid() && samples == old(samples) + [seconds]
      ensures latencyCount == old(latencyCount) + 1 && latencySum == old(latencySum) + seconds
      ensures forall i :: 0 <= i < 13 ==>
        latencyBucketCounts[i] == old(latencyBucketCounts[i]) + if seconds <= LATENCY_BUCKETS[i] then 1 else 0
      ensures latencyBucketCounts[13] == old(latencyBucketCounts[13]) + 1
    {
      latencyCount := latencyCount + 1;
      AddToSum(seconds, failures);
      samples := samples + [seconds];
      assert samples[..|samples| - 1] == old(samples);
      for i := 0 to |LATENCY_BUCKETS|
        modifies latencyBucketCounts
        invariant forall j :: 0 <= j < i ==> latencyBucketCounts[j] == CountUpTo(samples, j)
        invariant forall j :: i <= j < latencyBucketCounts.Length ==>
          latencyBucketCounts[j] == CountUpTo(old(samples), j)
      {
        if seconds <= LATENCY_BUCKETS[i] {
          latencyBucketCounts[i] := latencyBucketCounts[i] + 1;
        }
      }
      var last := latencyBucketCounts.Length - 1;
      latencyBucketCounts[last] := latencyBucketCounts[last] + 1;
    }

    method IncrementRequestsTotal()
      modifies this`requestsTotal
      ensures requestsTotal == old(requestsTotal) + 1
    {
      requestsTotal := requestsTotal + 1;
    }

    method IncrementSuccessfulRequests()
      modifies this`successfulRequests
      ensures successfulRequests == old(successfulRequests) + 1
    {
      successfulRequests := successfulRequests + 1;
    }

    method IncrementFailedRequests()
      modifies this`failedRequests
      ensures failedRequests == old(failedRequests) + 1
    {
      failedRequests := failedRequests + 1;
    }

    method SetActivePlayers(count: int)
      modifies this`activePlayers
      ensures activePlayers == count
    {
      activePlayers := count;
    }

    method IncrementCacheHits()
      modifies this`cacheHits
      ensures cacheHits == old(cacheHits) + 1
    {
      cacheHits := cacheHits + 1;
    }

    method IncrementCacheMisses()
      modifies this`cacheMisses
      ensures cacheMisses == old(cacheMisses) + 1
    {
      cacheMisses := cacheMisses + 1;
    }
  }

  /** The histogram of any samples is cumulative, and +Inf counts them all. */
  lemma {:induction false} CountsAreCumulative(samples: seq<real>, i: nat)
    requires i < |LATENCY_BUCKETS|
    ensures CountUpTo(samples, i) <= CountUpTo(samples, i + 1) <= |samples|
    ensures CountUpTo(samples, |LATENCY_BUCKETS|) == |samples|
  {
    if samples != [] {
      CountsAreCumulative(samples[..|samples| - 1], i);
    }
  }
}
