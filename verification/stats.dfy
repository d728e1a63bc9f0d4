/**
 * The descriptive statistics the stores compute over samples: Python's
 * `sum`, `len`-normalised mean (`np.mean`, `sum(xs) / len(xs)`), `min` and
 * `max` over integers. Values are exact reals; floating-point rounding is not modelled.
 */
module Stats {

  /** Left-to-right sum, as Python's `sum` accumulates. */
  function Sum(xs: seq<real>): real
  {
    if xs == [] then 0.0 else Sum(xs[..|xs| - 1]) + xs[|xs| - 1]
  }

  function Mean(xs: seq<real>): real
    requires |xs| > 0
  {
    Sum(xs) / (|xs| as real)
  }

  /** Appending a sample adds it to the sum. */
  lemma SumSnoc(xs: seq<real>, x: real)
    ensures Sum(xs + [x]) == Sum(xs) + x
  {
    assert (xs + [x])[..|xs|] == xs;
  }

  /** Every sample bounds the sum: n * lo <= sum <= n * hi. */
  lemma {:induction false} SumBetween(xs: seq<real>, lo: real, hi: real)
    requires forall x <- xs :: lo <= x <= hi
    ensures (|xs| as real) * lo <= Sum(xs) <= (|xs| as real) * hi
  {
    if xs != [] {
      var init := xs[..|xs| - 1];
      assert forall x <- init :: x in xs;
      SumBetween(init, lo, hi);
      assert xs[|xs| - 1] in xs;
      assert (|xs| as real) * lo == (|init| as real) * lo + lo;
      assert (|xs| as real) * hi == (|init| as real) * hi + hi;
    }
  }

  /** A mean of samples that all lie in [lo, hi] lies in [lo, hi] too. */
  lemma MeanWithin(xs: seq<real>, lo: real, hi: real)
    requires |xs| > 0
    requires forall x <- xs :: lo <= x <= hi
    ensures lo <= Mean(xs) <= hi
  {
    var n, total := |xs| as real, Sum(xs);
    SumBetween(xs, lo, hi);
    QuotientBetween(total, n, lo, hi);
  }

  lemma QuotientBetween(s: real, n: real, lo: real, hi: real)
    requires n > 0.0
    requires n * lo <= s <= n * hi
    ensures lo <= s / n <= hi
  {
    var q := s / n;
    assert n * (q - lo) == s - n * lo;
    assert n * (hi - q) == n * hi - s;
  }

  /** Python's `min` over a non-empty list of integers (ratings, instants). */
  function Least(ts: seq<int>): (m: int)
    requires |ts| > 0
    ensures m in ts
    ensures forall t <- ts :: m <= t
  {
    if |ts| == 1 then ts[0]
    else
      assert ts == ts[..|ts| - 1] + [ts[|ts| - 1]];
      var m := Least(ts[..|ts| - 1]);
      if ts[|ts| - 1] < m then ts[|ts| - 1] else m
  }

  /** Python's `max` over a non-empty list of integers (ratings, instants). */
  function Greatest(ts: seq<int>): (m: int)
    requires |ts| > 0
    ensures m in ts
    ensures forall t <- ts :: t <= m
  {
    if |ts| == 1 then ts[0]
    else
      assert ts == ts[..|ts| - 1] + [ts[|ts| - 1]];
      var m := Greatest(ts[..|ts| - 1]);
      if ts[|ts| - 1] > m then ts[|ts| - 1] else m
  }

  /** Integers read as exact reals, as Python's `int / int` division does before dividing. */
  function AsReals(xs: seq<int>): (ys: seq<real>)
    ensures |ys| == |xs|
    ensures forall i | 0 <= i < |xs| :: ys[i] == xs[i] as real
  {
    seq(|xs|, i requires 0 <= i < |xs| => xs[i] as real)
  }

  /** `sum(xs) / len(xs)` over integer ratings. */
  function IntMean(xs: seq<int>): real
    requires |xs| > 0
  {
    Mean(AsReals(xs))
  }

  /** Appending a rating adds it to the sum. */
  lemma IntSumSnoc(xs: seq<int>, x: int)
    ensures Sum(AsReals(xs + [x])) == Sum(AsReals(xs)) + x as real
  {
    assert AsReals(xs + [x]) == AsReals(xs) + [x as real];
    SumSnoc(AsReals(xs), x as real);
  }

  /** The mean of two ratings is half their sum. */
  lemma IntMeanOfPair(a: int, b: int)
    ensures IntMean([a, b]) == (a + b) as real / 2.0
  {
    IntSumSnoc([], a);
    IntSumSnoc([a], b);
    assert [] + [a] == [a] && [a] + [b] == [a, b];
    assert Sum(AsReals([])) == 0.0;
  }

  /** The mean of integer ratings lies between the smallest and the largest of them. */
  lemma IntMeanBetween(xs: seq<int>)
    requires |xs| > 0
    ensures Least(xs) as real <= IntMean(xs) <= Greatest(xs) as real
  {
    var ys := AsReals(xs);
    var lo, hi := Least(xs) as real, Greatest(xs) as real;
    forall y <- ys ensures lo <= y <= hi {
      var i :| 0 <= i < |ys| && ys[i] == y;
      assert xs[i] in xs;
    }
    MeanWithin(ys, lo, hi);
  }
}
