/** Elementary statistics over sequences of reals: the sum, the extremes and the
    arithmetic mean that numpy's `np.mean` computes (over exact reals, not floats). */
module Stats {

  /** The sum of a sequence, first element first. */
  function Sum(s: seq<real>): real
  {
    if |s| == 0 then 0.0 else s[0] + Sum(s[1..])
  }

  /** The smallest element of a non-empty sequence. */
  function Min(s: seq<real>): (m: real)
    requires |s| > 0
    ensures m in s
    ensures forall i :: 0 <= i < |s| ==> m <= s[i]
  {
    if |s| == 1 then s[0]
    else
      var t := Min(s[1..]);
      assert forall i :: 1 <= i < |s| ==> s[i] == s[1..][i - 1];
      if s[0] <= t then s[0] else t
  }

  /** The largest element of a non-empty sequence. */
  function Max(s: seq<real>): (m: real)
    requires |s| > 0
    ensures m in s
    ensures forall i :: 0 <= i < |s| ==> s[i] <= m
  {
    if |s| == 1 then s[0]
    else
      var t := Max(s[1..]);
      assert forall i :: 1 <= i < |s| ==> s[i] == s[1..][i - 1];
      if t <= s[0] then s[0] else t
  }

  /** A sum of |s| terms, each in [lo, hi], lies in [|s|·lo, |s|·hi]. */
  lemma {:induction false} SumBounds(s: seq<real>, lo: real, hi: real)
    requires forall i :: 0 <= i < |s| ==> lo <= s[i] <= hi
    ensures (|s| as real) * lo <= Sum(s) <= (|s| as real) * hi
  {
    if |s| > 0 {
      assert forall i :: 0 <= i < |s| - 1 ==> s[1..][i] == s[i + 1];
      SumBounds(s[1..], lo, hi);
      assert (|s| as real) * lo == lo + ((|s| - 1) as real) * lo;
      assert (|s| as real) * hi == hi + ((|s| - 1) as real) * hi;
    }
  }

  /** A sum of non-negative terms is non-negative, and it is zero exactly when
      every term is zero. */
  lemma {:induction false} SumZeroIffAllZero(s: seq<real>)
    requires forall i :: 0 <= i < |s| ==> 0.0 <= s[i]
    ensures 0.0 <= Sum(s)
    ensures Sum(s) == 0.0 <==> forall i :: 0 <= i < |s| ==> s[i] == 0.0
  {
    if |s| > 0 {
      assert forall i :: 0 <= i < |s| - 1 ==> s[1..][i] == s[i + 1];
      SumZeroIffAllZero(s[1..]);
      if Sum(s) == 0.0 {
        assert s[0] == 0.0 && Sum(s[1..]) == 0.0;
        forall i | 0 <= i < |s| ensures s[i] == 0.0 {
          if i > 0 { assert s[i] == s[1..][i - 1]; }
        }
      }
    }
  }

  /** The arithmetic mean of a non-empty sequence (np.mean of a 1-D array). */
  function Mean(s: seq<real>): (r: real)
    requires |s| > 0
    ensures Min(s) <= r <= Max(s)
  {
    QuotientBounds(s, Min(s), Max(s));
    Sum(s) / (|s| as real)
  }

  /** When every element of s lies in [lo, hi], so does Sum(s) / |s|. */
  lemma QuotientBounds(s: seq<real>, lo: real, hi: real)
    requires |s| > 0
    requires forall i :: 0 <= i < |s| ==> lo <= s[i] <= hi
    ensures lo <= Sum(s) / (|s| as real) <= hi
  {
    SumBounds(s, lo, hi);
    DivideBounds(Sum(s), |s| as real, lo, hi);
  }

  /** Dividing a total in [n·lo, n·hi] by n > 0 gives a quotient in [lo, hi]. */
  lemma DivideBounds(total: real, n: real, lo: real, hi: real)
    requires 0.0 < n
    requires n * lo <= total <= n * hi
    ensures lo <= total / n <= hi
  {
  }

  /** The mean is zero exactly when the sum is. */
  lemma MeanZeroIffSumZero(s: seq<real>)
    requires |s| > 0
    ensures Mean(s) == 0.0 <==> Sum(s) == 0.0
  {
    var total, n := Sum(s), |s| as real;
    assert Mean(s) == total / n;
    QuotientZero(total, n);
  }

  lemma QuotientZero(total: real, n: real)
    requires 0.0 < n
    ensures total / n == 0.0 <==> total == 0.0
  {
  }

  /** The mean of a sequence whose every element is c is c itself. */
  lemma MeanOfConstant(s: seq<real>, c: real)
    requires |s| > 0
    requires forall i :: 0 <= i < |s| ==> s[i] == c
    ensures Mean(s) == c
  {
  }
}
