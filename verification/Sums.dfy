/** Sums over sequences, used for every counting argument of the project. */
module Sums {

  function Sum<T>(s: seq<T>, f: T -> int): int {
    if s == [] then 0 else f(s[0]) + Sum(s[1..], f)
  }

  /** Replacing one element moves the sum by the difference of the two contributions. */
  lemma {:induction false} SumUpdate<T>(s: seq<T>, i: nat, x: T, f: T -> int)
    requires i < |s|
    ensures Sum(s[i := x], f) == Sum(s, f) - f(s[i]) + f(x)
  {
    if i == 0 {
      assert s[0 := x][1..] == s[1..];
    } else {
      assert s[i := x][1..] == s[1..][i - 1 := x];
      SumUpdate(s[1..], i - 1, x, f);
    }
  }

  lemma {:induction false} SumAppend<T>(s: seq<T>, x: T, f: T -> int)
    ensures Sum(s + [x], f) == Sum(s, f) + f(x)
  {
    if s == [] {
      assert s + [x] == [x];
    } else {
      assert (s + [x])[1..] == s[1..] + [x];
      SumAppend(s[1..], x, f);
    }
  }

  /** A pointwise bound between two sequences of the same length bounds their sums. */
  lemma {:induction false} SumMono<T>(s: seq<T>, t: seq<T>, f: T -> int, g: T -> int)
    requires |s| == |t|
    requires forall i :: 0 <= i < |s| ==> f(s[i]) <= g(t[i])
    ensures Sum(s, f) <= Sum(t, g)
  {
    if s != [] {
      assert f(s[0]) <= g(t[0]);
      forall i | 0 <= i < |s[1..]| ensures f(s[1..][i]) <= g(t[1..][i]) {
        assert s[1..][i] == s[i + 1] && t[1..][i] == t[i + 1];
      }
      SumMono(s[1..], t[1..], f, g);
    }
  }

  lemma {:induction false} SumNonNegative<T>(s: seq<T>, f: T -> int)
    requires forall j :: 0 <= j < |s| ==> f(s[j]) >= 0
    ensures Sum(s, f) >= 0
  {
    if s != [] {
      SumNonNegative(s[1..], f);
    }
  }

  lemma {:induction false} SumZero<T>(s: seq<T>, f: T -> int)
    requires forall j :: 0 <= j < |s| ==> f(s[j]) == 0
    ensures Sum(s, f) == 0
  {
    if s != [] {
      SumZero(s[1..], f);
    }
  }

  /** A sum of ones and noughts is the number of the ones. */
  lemma {:induction false} CountIsCardinality<T>(s: seq<T>, f: T -> int, ones: set<int>)
    requires forall i :: 0 <= i < |s| ==> f(s[i]) == if i in ones then 1 else 0
    requires forall i :: i in ones ==> 0 <= i < |s|
    ensures Sum(s, f) == |ones|
  {
    if s == [] {
      assert forall i :: i !in ones;
      assert |ones| == 0;
    } else {
      var n := |s| - 1;
      assert s == s[..n] + [s[n]];
      SumAppend(s[..n], s[n], f);
      CountIsCardinality(s[..n], f, ones - {n});
    }
  }

  function Without<T>(s: seq<T>, i: nat): seq<T>
    requires i < |s|
  {
    s[..i] + s[i + 1..]
  }

  lemma {:induction false} SumWithout<T>(s: seq<T>, i: nat, f: T -> int)
    requires i < |s|
    ensures Sum(s, f) == f(s[i]) + Sum(Without(s, i), f)
  {
    if i == 0 {
      assert Without(s, i) == s[1..];
    } else {
      assert Without(s, i)[1..] == Without(s[1..], i - 1);
      SumWithout(s[1..], i - 1, f);
    }
  }

  lemma MultisetWithout<T>(s: seq<T>, i: nat)
    requires i < |s|
    ensures multiset(Without(s, i)) == multiset(s) - multiset{s[i]} && s[i] in multiset(s)
  {
    assert s == s[..i] + [s[i]] + s[i + 1..];
  }

  /** A sum does not depend on the order. */
  lemma {:induction false} SumPermuted<T>(a: seq<T>, b: seq<T>, f: T -> int)
    requires multiset(a) == multiset(b)
    ensures |a| == |b| && Sum(a, f) == Sum(b, f)
    decreases |a|
  {
    assert |multiset(a)| == |a| && |multiset(b)| == |b|;
    if a != [] {
      MultisetWithout(a, 0);
      var i :| 0 <= i < |b| && b[i] == a[0];
      MultisetWithout(b, i);
      SumPermuted(Without(a, 0), Without(b, i), f);
      SumWithout(a, 0, f);
      SumWithout(b, i, f);
    }
  }
}
