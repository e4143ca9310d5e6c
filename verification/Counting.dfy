/** Cardinality facts about bounded sets of numbers. */
module Counting {
  ghost function Interval(a: nat, n: nat): (r: set<nat>)
    ensures |r| == n && forall i: nat :: i in r <==> a <= i < a + n
  {
    if n == 0 then {} else Interval(a, n - 1) + {a + n - 1}
  }

  ghost function Range(n: nat): (r: set<nat>)
    ensures |r| == n && forall i: nat :: i in r <==> i < n
  {
    Interval(0, n)
  }

  ghost function Elements<T(!new)>(s: seq<T>): (r: set<T>)
    ensures forall x :: x in r <==> x in s
    ensures |r| <= |s|
  {
    if s == [] then {} else Elements(s[..|s| - 1]) + {s[|s| - 1]}
  }

  lemma {:induction false} DistinctCount<T(!new)>(s: seq<T>)
    requires forall j, k | 0 <= j < k < |s| :: s[j] != s[k]
    ensures |Elements(s)| == |s|
  {
    if s != [] {
      DistinctCount(s[..|s| - 1]);
    }
  }

  lemma SubsetSize<T>(a: set<T>, b: set<T>)
    requires a <= b
    ensures |a| <= |b|
    ensures |a| == |b| ==> a == b
  {
    assert b == a + (b - a);
    assert |b - a| == 0 <==> b - a == {};
  }

  /** Distinct numbers below n: some number below n is missing exactly when there are fewer than n. */
  lemma MissingIff(s: seq<nat>, n: nat)
    requires forall j, k | 0 <= j < k < |s| :: s[j] != s[k]
    requires forall k | 0 <= k < |s| :: s[k] < n
    ensures (exists i: nat | i < n :: i !in s) <==> |s| < n
  {
    hide Range, Elements;
    DistinctCount(s);
    SubsetSize(Elements(s), Range(n));
    if |s| < n {
      assert Range(n) != Elements(s) && !(Range(n) <= Elements(s));
      var i :| i in Range(n) && i !in Elements(s);
      assert i < n && i !in s;
    } else {
      forall i: nat | i < n ensures i in s {
        assert i in Range(n);
      }
    }
  }
}
