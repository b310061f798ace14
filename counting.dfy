/** Counting over sequences of naturals: the pigeonhole facts the ranking of
    sentences and keywords rests on. */
module Counting {

  /** No value occurs twice in s. */
  ghost predicate Distinct(s: seq<nat>) {
    forall i, j :: 0 <= i < j < |s| ==> s[i] != s[j]
  }

  /** Every value of s is below b. */
  ghost predicate AllBelow(s: seq<nat>, b: nat) {
    forall i :: 0 <= i < |s| ==> s[i] < b
  }

  /** How many entries of s equal v. */
  function CountEq(s: seq<nat>, v: nat): nat {
    if s == [] then 0 else CountEq(s[..|s| - 1], v) + (if s[|s| - 1] == v then 1 else 0)
  }

  /** How many entries of s are below k. */
  function CountBelow(s: seq<nat>, k: nat): nat {
    if s == [] then 0 else CountBelow(s[..|s| - 1], k) + (if s[|s| - 1] < k then 1 else 0)
  }

  /** s with every entry equal to v removed. */
  function Without(s: seq<nat>, v: nat): (r: seq<nat>)
    ensures |r| + CountEq(s, v) == |s|
    ensures forall x :: x in r <==> x in s && x != v
  {
    if s == [] then []
    else
      var p := Without(s[..|s| - 1], v);
      assert forall x :: x in s <==> x in s[..|s| - 1] || x == s[|s| - 1];
      if s[|s| - 1] == v then p else p + [s[|s| - 1]]
  }

  /** The position of v in s. */
  function IndexOf(s: seq<nat>, v: nat): (i: nat)
    requires v in s
    ensures i < |s| && s[i] == v
  {
    if s[0] == v then 0 else 1 + IndexOf(s[1..], v)
  }

  lemma {:induction false} DistinctPrefix(s: seq<nat>)
    requires s != [] && Distinct(s)
    ensures Distinct(s[..|s| - 1]) && s[|s| - 1] !in s[..|s| - 1]
  {
  }

  lemma {:induction false} WithoutDistinct(s: seq<nat>, v: nat)
    requires Distinct(s)
    ensures Distinct(Without(s, v))
  {
    if s != [] {
      DistinctPrefix(s);
      WithoutDistinct(s[..|s| - 1], v);
    }
  }

  /** A distinct sequence holds each value at most once, and at least once when it
      holds it at all. */
  lemma {:induction false} CountEqDistinct(s: seq<nat>, v: nat)
    requires Distinct(s)
    ensures CountEq(s, v) == if v in s then 1 else 0
  {
    if s != [] {
      DistinctPrefix(s);
      CountEqDistinct(s[..|s| - 1], v);
      assert v in s <==> v in s[..|s| - 1] || v == s[|s| - 1];
    }
  }

  /** Pigeonhole: b holes hold at most b distinct values. */
  lemma {:induction false} DistinctBelowBound(s: seq<nat>, b: nat)
    requires Distinct(s) && AllBelow(s, b)
    ensures |s| <= b
    decreases b
  {
    if s != [] {
      assert s[0] < b;
      var t := Without(s, b - 1);
      WithoutDistinct(s, b - 1);
      CountEqDistinct(s, b - 1);
      forall i | 0 <= i < |t| ensures t[i] < b - 1 {
        assert t[i] in t;
      }
      DistinctBelowBound(t, b - 1);
    }
  }

  /** n distinct values below n are exactly the values 0 .. n-1. */
  lemma DistinctFull(s: seq<nat>, r: nat)
    requires Distinct(s) && AllBelow(s, |s|) && r < |s|
    ensures r in s
  {
    if r !in s {
      var t := seq(|s|, i requires 0 <= i < |s| => if s[i] > r then s[i] - 1 else s[i]);
      assert Distinct(t);
      assert AllBelow(t, |s| - 1);
      DistinctBelowBound(t, |s| - 1);
    }
  }

  lemma {:induction false} CountBelowStep(s: seq<nat>, k: nat)
    ensures CountBelow(s, k + 1) == CountBelow(s, k) + CountEq(s, k)
  {
    if s != [] {
      CountBelowStep(s[..|s| - 1], k);
    }
  }

  /** In a permutation of 0 .. n-1 exactly min(k, n) entries are below k. */
  lemma {:induction false} CountBelowPermutation(s: seq<nat>, k: nat)
    requires Distinct(s) && AllBelow(s, |s|)
    ensures CountBelow(s, k) == if k < |s| then k else |s|
  {
    if k == 0 {
      CountBelowZero(s);
    } else {
      CountBelowPermutation(s, k - 1);
      CountBelowStep(s, k - 1);
      CountEqDistinct(s, k - 1);
      if k - 1 < |s| {
        DistinctFull(s, k - 1);
      } else {
        assert k - 1 !in s;
      }
    }
  }

  lemma {:induction false} CountBelowZero(s: seq<nat>)
    ensures CountBelow(s, 0) == 0
  {
    if s != [] {
      CountBelowZero(s[..|s| - 1]);
    }
  }
}
