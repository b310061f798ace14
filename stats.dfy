/** Sums and means of scores, the arithmetic behind the key-point threshold and
    the summary confidence. */
module Stats {

  /** The sum of xs. */
  function Sum(xs: seq<real>): real {
    if xs == [] then 0.0 else Sum(xs[..|xs| - 1]) + xs[|xs| - 1]
  }

  /** The arithmetic mean of xs. */
  function Mean(xs: seq<real>): real
    requires xs != []
  {
    Sum(xs) / |xs| as real
  }

  /** Every entry of xs is at least t. */
  ghost predicate AllAtLeast(xs: seq<real>, t: real) {
    forall i :: 0 <= i < |xs| ==> xs[i] >= t
  }

  lemma {:induction false} SumAtLeast(xs: seq<real>, t: real)
    requires AllAtLeast(xs, t)
    ensures Sum(xs) >= |xs| as real * t
  {
    if xs != [] {
      SumAtLeast(xs[..|xs| - 1], t);
    }
  }

  /** A mean of values no smaller than t is no smaller than t. */
  lemma MeanAtLeast(xs: seq<real>, t: real)
    requires xs != [] && AllAtLeast(xs, t)
    ensures Mean(xs) >= t
  {
    SumAtLeast(xs, t);
    DivAtLeast(Sum(xs), |xs| as real, t);
  }

  lemma DivAtLeast(x: real, y: real, t: real)
    requires y > 0.0 && x >= y * t
    ensures x / y >= t
  {
  }
}
