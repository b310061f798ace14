/** StudyAssistant.calculate_summary_confidence (app.py:227-240): how much better
    the selected sentences score than the average sentence, capped at 1. */
module Confidence {
  import opened Stats
  import opened Ranking

  /** `[scores[i] for i in sel]`. */
  function Pick<T>(xs: seq<T>, sel: seq<nat>): (ys: seq<T>)
    requires forall a :: 0 <= a < |sel| ==> sel[a] < |xs|
    ensures |ys| == |sel|
    ensures forall a :: 0 <= a < |sel| ==> ys[a] == xs[sel[a]]
  {
    seq(|sel|, a requires 0 <= a < |sel| => xs[sel[a]])
  }

  lemma DivNonNegative(x: real, y: real)
    requires x >= 0.0 && y > 0.0
    ensures x / y >= 0.0
  {
  }

  lemma RatioNonNegative(scores: seq<real>, sel: seq<nat>)
    requires scores != [] && sel != [] && forall a :: 0 <= a < |sel| ==> sel[a] < |scores|
    requires AllAtLeast(scores, 0.0) && Mean(scores) >= 0.0
    ensures Mean(Pick(scores, sel)) / (Mean(scores) + 0.1) >= 0.0
  {
    MeanAtLeast(Pick(scores, sel), 0.0);
    DivNonNegative(Mean(Pick(scores, sel)), Mean(scores) + 0.1);
  }

  /** The confidence value, before rounding to two decimals: 0.5 when there is
      nothing to compare, otherwise `min(1.0, mean(selected) / (mean(all) + 0.1))`.
      The source raises ZeroDivisionError when mean(all) is -0.1; the
      summariser's scores are never negative. */
  function SummaryConfidence(scores: seq<real>, sel: seq<nat>): (r: real)
    requires forall a :: 0 <= a < |sel| ==> sel[a] < |scores|
    requires scores != [] ==> Mean(scores) + 0.1 != 0.0
    ensures scores == [] || sel == [] ==> r == 0.5
    ensures r <= 1.0
  {
    if scores == [] || sel == [] then 0.5
    else
      var picked := Pick(scores, sel);
      var ratio := Mean(picked) / (Mean(scores) + 0.1);
      if ratio < 1.0 then ratio else 1.0
  }

  /** With non-negative scores the confidence is never negative. */
  lemma ConfidenceNonNegative(scores: seq<real>, sel: seq<nat>)
    requires forall a :: 0 <= a < |sel| ==> sel[a] < |scores|
    requires AllAtLeast(scores, 0.0)
    ensures scores != [] ==> Mean(scores) + 0.1 != 0.0
    ensures SummaryConfidence(scores, sel) >= 0.0
  {
    if scores != [] {
      MeanAtLeast(scores, 0.0);
      if sel != [] {
        RatioNonNegative(scores, sel);
      }
    }
  }

  // ---------------------------------------------------------------------------
  // The selected sentences score at least as well as the average
  // ---------------------------------------------------------------------------

  /** The indices below m whose position is k or later, ascending: the ones the
      selection leaves out. */
  function RestBelow(rs: seq<nat>, k: nat, m: nat): seq<nat>
    requires m <= |rs|
  {
    if m == 0 then []
    else if rs[m - 1] < k then RestBelow(rs, k, m - 1)
    else RestBelow(rs, k, m - 1) + [m - 1]
  }

  lemma {:induction false} RestBelowFacts(rs: seq<nat>, k: nat, m: nat)
    requires m <= |rs|
    ensures var rest := RestBelow(rs, k, m);
      && |rest| + |SelectBelow(rs, k, m)| == m
      && forall a :: 0 <= a < |rest| ==> rest[a] < m && rs[rest[a]] >= k
  {
    if m > 0 {
      RestBelowFacts(rs, k, m - 1);
    }
  }

  /** The sum of xs over the positions sel (a position past the end adds nothing). */
  function SumAt(xs: seq<real>, sel: seq<nat>): real {
    if sel == [] then 0.0
    else SumAt(xs, sel[..|sel| - 1]) + (if sel[|sel| - 1] < |xs| then xs[sel[|sel| - 1]] else 0.0)
  }

  lemma SumAtAppend(xs: seq<real>, sel: seq<nat>, j: nat)
    requires j < |xs|
    ensures SumAt(xs, sel + [j]) == SumAt(xs, sel) + xs[j]
  {
    assert (sel + [j])[..|sel|] == sel;
  }

  lemma {:induction false} SumAtIsSumOfPick(xs: seq<real>, sel: seq<nat>)
    requires forall a :: 0 <= a < |sel| ==> sel[a] < |xs|
    ensures Sum(Pick(xs, sel)) == SumAt(xs, sel)
  {
    if sel != [] {
      var p := sel[..|sel| - 1];
      SumAtIsSumOfPick(xs, p);
      assert Pick(xs, sel)[..|sel| - 1] == Pick(xs, p);
    }
  }

  /** The scores split into the selected ones and the rest. */
  lemma {:induction false} SumSplit(xs: seq<real>, rs: seq<nat>, k: nat, m: nat)
    requires |rs| == |xs| && m <= |xs|
    ensures Sum(xs[..m]) == SumAt(xs, SelectBelow(rs, k, m)) + SumAt(xs, RestBelow(rs, k, m))
  {
    if m == 0 {
      assert xs[..0] == [];
    } else {
      SumSplit(xs, rs, k, m - 1);
      var sel, rest := SelectBelow(rs, k, m - 1), RestBelow(rs, k, m - 1);
      assert xs[..m][..m - 1] == xs[..m - 1];
      if rs[m - 1] < k {
        SumAtAppend(xs, sel, m - 1);
      } else {
        SumAtAppend(xs, rest, m - 1);
      }
    }
  }

  /** x added up n times, n x without a multiplication. */
  function Scale(n: nat, x: real): real {
    if n == 0 then 0.0 else Scale(n - 1, x) + x
  }

  lemma {:induction false} ScaleIsProduct(n: nat, x: real)
    ensures Scale(n, x) == n as real * x
  {
    if n > 0 {
      ScaleIsProduct(n - 1, x);
    }
  }

  lemma {:induction false} SumAtAtLeast(xs: seq<real>, sel: seq<nat>, low: real)
    requires forall a :: 0 <= a < |sel| ==> sel[a] < |xs| && xs[sel[a]] >= low
    ensures SumAt(xs, sel) >= Scale(|sel|, low)
  {
    if sel != [] {
      SumAtAtLeast(xs, sel[..|sel| - 1], low);
    }
  }

  lemma {:induction false} SumAtAtMost(xs: seq<real>, sel: seq<nat>, high: real)
    requires forall a :: 0 <= a < |sel| ==> sel[a] < |xs| && xs[sel[a]] <= high
    ensures SumAt(xs, sel) <= Scale(|sel|, high)
  {
    if sel != [] {
      SumAtAtMost(xs, sel[..|sel| - 1], high);
    }
  }

  /** The smallest entry of xs at the positions sel. */
  function SmallestAt(xs: seq<real>, sel: seq<nat>): (r: real)
    requires sel != [] && forall a :: 0 <= a < |sel| ==> sel[a] < |xs|
    ensures forall a :: 0 <= a < |sel| ==> xs[sel[a]] >= r
    ensures exists a :: 0 <= a < |sel| && xs[sel[a]] == r
  {
    if |sel| == 1 then xs[sel[0]]
    else
      var p := SmallestAt(xs, sel[..|sel| - 1]);
      if xs[sel[|sel| - 1]] < p then xs[sel[|sel| - 1]] else p
  }

  lemma MulMonotone(a: real, x: real, y: real)
    requires a >= 0.0 && x <= y
    ensures a * x <= a * y
  {
  }

  lemma DivCompare(x: real, q: real, y: real, n: real)
    requires q > 0.0 && n > 0.0 && x * n >= y * q
    ensures x / q >= y / n
  {
    assert x / q == (x * n) / (q * n);
    assert y / n == (y * q) / (q * n);
  }

  /** Splitting n values into q at least `low` (sum sa) and r at most `low` (sum
      sb): the mean of the first part is at least the mean of all. */
  lemma MeanAlgebra(sa: real, sb: real, q: real, r: real, n: real, low: real)
    requires 0.0 < q && 0.0 <= r && n == q + r
    requires sa >= q * low && sb <= r * low
    ensures sa / q >= (sa + sb) / n
  {
    MulMonotone(q, sb, r * low);
    MulMonotone(r, q * low, sa);
    assert q * (r * low) == r * (q * low);
    assert q * sb <= r * sa;
    assert sa * n == sa * q + sa * r;
    assert (sa + sb) * q == sa * q + sb * q;
    DivCompare(sa, q, sa + sb, n);
  }

  /** The positions the top-k selection leaves out. */
  function RestOfTop(scores: seq<real>, k: nat): seq<nat> {
    RestBelow(Ranks(scores), k, |scores|)
  }

  lemma TopSumSplit(scores: seq<real>, k: nat)
    ensures |RestOfTop(scores, k)| == |scores| - |TopIndices(scores, k)|
    ensures forall b :: 0 <= b < |RestOfTop(scores, k)| ==>
      RestOfTop(scores, k)[b] < |scores| && RestOfTop(scores, k)[b] !in TopIndices(scores, k)
    ensures Sum(scores) == SumAt(scores, TopIndices(scores, k)) + SumAt(scores, RestOfTop(scores, k))
  {
    var rs := Ranks(scores);
    var n := |scores|;
    assert TopIndices(scores, k) == SelectBelow(rs, k, n);
    RestBelowFacts(rs, k, n);
    SumSplit(scores, rs, k, n);
    assert scores[..n] == scores;
  }

  /** The sums and counts behind the comparison of means: the selected scores sum
      to sa over q positions, the others to sb over r positions, and some value
      low separates them. */
  lemma TopParts(scores: seq<real>, k: nat) returns (sa: real, sb: real, q: nat, r: nat, low: real)
    requires scores != [] && k >= 1
    ensures 0 < q && q + r == |scores| && q == |TopIndices(scores, k)|
    ensures Sum(Pick(scores, TopIndices(scores, k))) == sa && Sum(scores) == sa + sb
    ensures sa >= Scale(q, low) && sb <= Scale(r, low)
  {
    var sel, rest := TopIndices(scores, k), RestOfTop(scores, k);
    TopSumSplit(scores, k);
    SumAtIsSumOfPick(scores, sel);
    low := SmallestAt(scores, sel);
    var a :| 0 <= a < |sel| && scores[sel[a]] == low;
    forall b | 0 <= b < |rest| ensures scores[rest[b]] <= low {
      TopBeatsRest(scores, k, sel[a], rest[b]);
    }
    SumAtAtLeast(scores, sel, low);
    SumAtAtMost(scores, rest, low);
    sa, sb := SumAt(scores, sel), SumAt(scores, rest);
    q, r := |sel|, |rest|;
  }

  /** A part of the values summing to sa over q entries, next to the rest summing
      to sb over r entries, with `low` between them: the part's mean is at least
      the mean of all. */
  lemma MeanOfParts(part: seq<real>, all: seq<real>, sa: real, sb: real, q: nat, r: nat, low: real)
    requires 0 < q && q + r == |all| && |part| == q
    requires Sum(part) == sa && Sum(all) == sa + sb
    requires sa >= Scale(q, low) && sb <= Scale(r, low)
    ensures Mean(part) >= Mean(all)
  {
    ScaleIsProduct(q, low);
    ScaleIsProduct(r, low);
    MeanAlgebra(sa, sb, q as real, r as real, |all| as real, low);
  }

  /** The mean score of the sentences the summary picks is at least the mean of
      all scores: each picked sentence scores at least as well as each other one. */
  lemma TopMeanAtLeastMean(scores: seq<real>, k: nat)
    requires scores != [] && k >= 1
    ensures Mean(Pick(scores, TopIndices(scores, k))) >= Mean(scores)
  {
    var sa, sb, q, r, low := TopParts(scores, k);
    MeanOfParts(Pick(scores, TopIndices(scores, k)), scores, sa, sb, q, r, low);
  }

  lemma DivMonotone(x: real, y: real, d: real)
    requires x >= y && d > 0.0
    ensures x / d >= y / d
  {
  }

  /** With a non-negative mean score and a top-k selection, the confidence is at
      least mean / (mean + 0.1). */
  lemma ConfidenceOfTop(scores: seq<real>, k: nat)
    requires scores != [] && k >= 1 && Mean(scores) >= 0.0
    ensures var m := Mean(scores);
      SummaryConfidence(scores, TopIndices(scores, k)) >= m / (m + 0.1)
  {
    var m := Mean(scores);
    TopMeanAtLeastMean(scores, k);
    DivMonotone(Mean(Pick(scores, TopIndices(scores, k))), m, m + 0.1);
    assert m / (m + 0.1) < 1.0;
  }
}
