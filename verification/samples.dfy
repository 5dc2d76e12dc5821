/** Aggregates over the recorded response-time samples: the sum, the
    arithmetic mean, the largest and the smallest sample. Python floats are
    modelled as reals, so rounding is not part of the model. */
module Samples {

  /** Sum of the samples (Python's `sum`). */
  function Sum(s: seq<real>): real {
    if |s| == 0 then 0.0 else s[0] + Sum(s[1..])
  }

  /** Largest sample (Python's `max` on a non-empty list). */
  function Max(s: seq<real>): (m: real)
    requires |s| > 0
    ensures m in s
    ensures forall i :: 0 <= i < |s| ==> s[i] <= m
  {
    if |s| == 1 then s[0]
    else
      var t := Max(s[1..]);
      if s[0] >= t then s[0] else t
  }

  /** Smallest sample (Python's `min` on a non-empty list). */
  function Min(s: seq<real>): (m: real)
    requires |s| > 0
    ensures m in s
    ensures forall i :: 0 <= i < |s| ==> m <= s[i]
  {
    if |s| == 1 then s[0]
    else
      var t := Min(s[1..]);
      if s[0] <= t then s[0] else t
  }

  /** Arithmetic mean: the sum divided by the number of samples. */
  function Mean(s: seq<real>): real
    requires |s| > 0
  {
    Sum(s) / (|s| as real)
  }

  /** `m` carries the whole total of `s`: `m` times the number of samples
      is their sum. */
  predicate CarriesSum(m: real, s: seq<real>) {
    m * (|s| as real) == Sum(s)
  }

  /** The mean times the number of samples gives back the sum: the mean
      carries the whole total, not merely a value inside the range. */
  lemma MeanTimesCount(s: seq<real>)
    requires |s| > 0
    ensures CarriesSum(Mean(s), s)
  {
    DivideThenMultiply(Sum(s), |s| as real);
  }

  /** Dividing by a non-zero n and multiplying back is the identity. */
  lemma DivideThenMultiply(x: real, n: real)
    requires n != 0.0
    ensures (x / n) * n == x
  {
  }

  /** A sum of n samples, each within [lo, hi], lies within [n*lo, n*hi]. */
  lemma {:induction false} SumBounds(s: seq<real>, lo: real, hi: real)
    requires forall i :: 0 <= i < |s| ==> lo <= s[i] <= hi
    ensures (|s| as real) * lo <= Sum(s) <= (|s| as real) * hi
  {
    if |s| > 0 {
      var t := s[1..];
      assert forall i :: 0 <= i < |t| ==> t[i] == s[i + 1];
      SumBounds(t, lo, hi);
      assert (|s| as real) * lo == lo + (|t| as real) * lo;
      assert (|s| as real) * hi == hi + (|t| as real) * hi;
    }
  }

  /** The mean never leaves the range of the samples. */
  lemma MeanWithinRange(s: seq<real>)
    requires |s| > 0
    ensures Min(s) <= Mean(s) <= Max(s)
  {
    MeanBounds(s, Min(s), Max(s));
  }

  /** The mean of samples within [lo, hi] is within [lo, hi]. */
  lemma MeanBounds(s: seq<real>, lo: real, hi: real)
    requires |s| > 0
    requires forall i :: 0 <= i < |s| ==> lo <= s[i] <= hi
    ensures lo <= Mean(s) <= hi
  {
    SumBounds(s, lo, hi);
    DivideBounds(Sum(s), |s| as real, lo, hi);
  }

  /** Dividing n*lo <= x <= n*hi by a positive n. */
  lemma DivideBounds(x: real, n: real, lo: real, hi: real)
    requires n > 0.0
    requires n * lo <= x <= n * hi
    ensures lo <= x / n <= hi
  {
  }
}
