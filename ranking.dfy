/** Python's stable `sorted(items, key=..., reverse=True)[:k]`, the way the
    summariser picks its best sentences (app.py:154-156), its two fallback key
    points (app.py:221-222) and, through Counter.most_common(10), its keywords
    (app.py:197).

    A stable descending sort puts index i before index j exactly when i Beats j:
    a higher key, or an equal key and a smaller index. Index j therefore lands at
    position Rank(j), the number of indices that beat it, and the first k
    positions hold exactly the indices of rank below k. */
module Ranking {
  import opened Counting

  /** Whether index i comes before index j in the stable descending order. */
  predicate Beats(key: seq<real>, i: nat, j: nat)
    requires i < |key| && j < |key|
  {
    key[i] > key[j] || (key[i] == key[j] && i < j)
  }

  /** How many of the indices below m beat j. */
  function BeatersBelow(key: seq<real>, j: nat, m: nat): (c: nat)
    requires j < |key| && m <= |key|
    ensures c <= m && (j < m ==> c < m)
  {
    if m == 0 then 0
    else BeatersBelow(key, j, m - 1) + (if Beats(key, m - 1, j) then 1 else 0)
  }

  /** The position of index j in the stable descending order. */
  function Rank(key: seq<real>, j: nat): (r: nat)
    requires j < |key|
    ensures r < |key|
  {
    BeatersBelow(key, j, |key|)
  }

  /** The rank of every index. */
  function Ranks(key: seq<real>): (rs: seq<nat>)
    ensures |rs| == |key|
    ensures forall j :: 0 <= j < |key| ==> rs[j] == Rank(key, j)
  {
    seq(|key|, j requires 0 <= j < |key| => Rank(key, j))
  }

  lemma {:induction false} BeatersMonotone(key: seq<real>, i: nat, j: nat, m: nat)
    requires i < |key| && j < |key| && m <= |key| && Beats(key, i, j)
    ensures BeatersBelow(key, i, m) + (if i < m then 1 else 0) <= BeatersBelow(key, j, m)
  {
    if m > 0 {
      BeatersMonotone(key, i, j, m - 1);
    }
  }

  /** Whoever comes first in the order has the smaller rank. */
  lemma RankOrder(key: seq<real>, i: nat, j: nat)
    requires i < |key| && j < |key| && Beats(key, i, j)
    ensures Rank(key, i) < Rank(key, j)
  {
    BeatersMonotone(key, i, j, |key|);
  }

  /** Two indices never share a position. */
  lemma RankInjective(key: seq<real>, i: nat, j: nat)
    requires i < |key| && j < |key| && i != j
    ensures Rank(key, i) != Rank(key, j)
  {
    if Beats(key, i, j) {
      RankOrder(key, i, j);
    } else {
      RankOrder(key, j, i);
    }
  }

  /** The ranks are a permutation of 0 .. |key|-1. */
  lemma RanksPermutation(key: seq<real>)
    ensures Distinct(Ranks(key)) && AllBelow(Ranks(key), |key|)
  {
    var rs := Ranks(key);
    forall i, j | 0 <= i < j < |rs| ensures rs[i] != rs[j] {
      RankInjective(key, i, j);
    }
  }

  /** The indices below m whose position is below k, in ascending order. */
  function SelectBelow(rs: seq<nat>, k: nat, m: nat): seq<nat>
    requires m <= |rs|
  {
    if m == 0 then []
    else if rs[m - 1] < k then SelectBelow(rs, k, m - 1) + [m - 1]
    else SelectBelow(rs, k, m - 1)
  }

  lemma {:induction false} SelectBelowFacts(rs: seq<nat>, k: nat, m: nat)
    requires m <= |rs|
    ensures var sel := SelectBelow(rs, k, m);
      && |sel| == CountBelow(rs[..m], k)
      && (forall a :: 0 <= a < |sel| ==> sel[a] < m && rs[sel[a]] < k)
      && (forall a, b :: 0 <= a < b < |sel| ==> sel[a] < sel[b])
      && (forall j :: 0 <= j < m && rs[j] < k ==> j in sel)
  {
    if m > 0 {
      SelectBelowFacts(rs, k, m - 1);
      assert rs[..m][..m - 1] == rs[..m - 1];
    }
  }

  /** `sorted(i for i, _ in sorted(items, key, reverse=True)[:k])`: the indices
      of the first k entries of the stable descending order, ascending. */
  function TopIndices(key: seq<real>, k: nat): (sel: seq<nat>)
    ensures |sel| == if k < |key| then k else |key|
    ensures forall a :: 0 <= a < |sel| ==> sel[a] < |key|
    ensures forall a, b :: 0 <= a < b < |sel| ==> sel[a] < sel[b]
    ensures forall j :: 0 <= j < |key| ==> (j in sel <==> Rank(key, j) < k)
  {
    var rs := Ranks(key);
    RanksPermutation(key);
    assert rs[..|rs|] == rs;
    CountBelowPermutation(rs, k);
    SelectBelowFacts(rs, k, |rs|);
    SelectBelow(rs, k, |rs|)
  }

  /** Every selected index comes before every index left out: it has a higher
      key, or the same key and a smaller index. */
  lemma TopBeatsRest(key: seq<real>, k: nat, i: nat, j: nat)
    requires i < |key| && j < |key|
    requires i in TopIndices(key, k) && j !in TopIndices(key, k)
    ensures Beats(key, i, j)
    ensures key[i] >= key[j]
  {
    if !Beats(key, i, j) {
      RankOrder(key, j, i);
    }
  }

  /** The index at position r of the stable descending order. */
  function ByRank(key: seq<real>, r: nat): (j: nat)
    requires r < |key|
    ensures j < |key| && Rank(key, j) == r
  {
    RanksPermutation(key);
    DistinctFull(Ranks(key), r);
    IndexOf(Ranks(key), r)
  }

  /** The first of the order comes before every other index. */
  lemma FirstBeatsAll(key: seq<real>, j: nat)
    requires 0 < |key| && j < |key| && j != ByRank(key, 0)
    ensures Beats(key, ByRank(key, 0), j)
  {
    if Beats(key, j, ByRank(key, 0)) {
      RankOrder(key, j, ByRank(key, 0));
    }
  }

  /** The second of the order comes before every index but the first. */
  lemma SecondBeatsRest(key: seq<real>, j: nat)
    requires 1 < |key| && j < |key| && j != ByRank(key, 0) && j != ByRank(key, 1)
    ensures Beats(key, ByRank(key, 1), j)
  {
    if Beats(key, j, ByRank(key, 1)) {
      RankOrder(key, j, ByRank(key, 1));
      RankInjective(key, j, ByRank(key, 0));
    }
  }
}
