/** The wavelength mapper: `np.linspace` over exact reals, and the mapping of a
    profile's pixel columns to evenly spaced wavelengths (nm). */
module Wavelength {

  /** The spacing of num >= 2 evenly spaced samples from start to stop. */
  function Step(start: real, stop: real, num: nat): real
    requires num >= 2
  {
    (stop - start) / ((num - 1) as real)
  }

  /** Sample i of an arithmetic progression from start with spacing d. */
  function At(start: real, d: real, i: nat): real
  {
    start + (i as real) * d
  }

  /** Arithmetic facts about progressions, kept apart from sequences. */
  lemma AtFacts(start: real, d: real, i: nat, j: nat)
    ensures At(start, d, i + 1) - At(start, d, i) == d
    ensures i < j && 0.0 < d ==> At(start, d, i) < At(start, d, j)
    ensures i <= j && 0.0 <= d ==> At(start, d, i) <= At(start, d, j)
  {
    if i <= j {
      var gap := (j - i) as real;
      assert At(start, d, j) - At(start, d, i) == gap * d;
      ProductSigns(gap, d);
    }
  }

  lemma ProductSigns(x: real, y: real)
    requires 0.0 <= x
    ensures 0.0 < x && 0.0 < y ==> 0.0 < x * y
    ensures 0.0 <= y ==> 0.0 <= x * y
  {
  }

  /** The last of num >= 2 samples spaced by Step lands exactly on stop. */
  lemma LastStep(start: real, stop: real, num: nat)
    requires num >= 2
    ensures At(start, Step(start, stop, num), num - 1) == stop
  {
  }

  /** `np.linspace(start, stop, num)`: num samples, evenly spaced, from start to
      stop inclusive. Zero samples give the empty array and one sample gives
      [start]; the spacing is never computed with a zero denominator. */
  function Linspace(start: real, stop: real, num: nat): (w: seq<real>)
    ensures |w| == num
    ensures num >= 1 ==> w[0] == start
    ensures num >= 2 ==> w[num - 1] == stop
    ensures num >= 2 ==> forall i :: 0 <= i < num - 1 ==> w[i + 1] - w[i] == Step(start, stop, num)
    ensures start < stop ==> forall i, j :: 0 <= i < j < num ==> w[i] < w[j]
    ensures start <= stop ==> forall i :: 0 <= i < num ==> start <= w[i] <= stop
  {
    if num <= 1 then seq(num, _ => start)
    else
      var d := Step(start, stop, num);
      LastStep(start, stop, num);
      assert start < stop ==> 0.0 < d;
      assert start <= stop ==> 0.0 <= d;
      ProgressionFacts(start, d, num);
      seq(num, i requires 0 <= i < num => At(start, d, i))
  }

  /** AtFacts, instantiated for every pair of indices below num. */
  lemma ProgressionFacts(start: real, d: real, num: nat)
    ensures forall i :: 0 <= i < num - 1 ==> At(start, d, i + 1) - At(start, d, i) == d
    ensures 0.0 < d ==> forall i, j :: 0 <= i < j < num ==> At(start, d, i) < At(start, d, j)
    ensures 0.0 <= d ==> forall i, j :: 0 <= i <= j < num ==> At(start, d, i) <= At(start, d, j)
  {
    forall i | 0 <= i < num - 1
      ensures At(start, d, i + 1) - At(start, d, i) == d
    {
      AtFacts(start, d, i, i);
    }
    forall i, j | 0 <= i <= j < num
      ensures i < j && 0.0 < d ==> At(start, d, i) < At(start, d, j)
      ensures 0.0 <= d ==> At(start, d, i) <= At(start, d, j)
    {
      AtFacts(start, d, i, j);
    }
  }

  /** `map_pixels_to_wavelengths`: one wavelength per intensity sample, evenly
      spaced over the closed range (range.0, range.1). */
  function MapPixelsToWavelengths(intensity: seq<real>, range: (real, real)): (w: seq<real>)
    ensures |w| == |intensity|
    ensures |w| >= 1 ==> w[0] == range.0
    ensures |w| >= 2 ==> w[|w| - 1] == range.1
  {
    Linspace(range.0, range.1, |intensity|)
  }

  /** Linspace is the only evenly spaced sequence with its endpoints: any
      sequence of at least two samples whose consecutive differences are all
      equal is the linspace between its first and last sample. */
  lemma {:induction false} LinspaceCharacterised(s: seq<real>)
    requires |s| >= 2
    requires forall i :: 0 <= i < |s| - 1 ==> s[i + 1] - s[i] == s[1] - s[0]
    ensures s == Linspace(s[0], s[|s| - 1], |s|)
  {
    var d := s[1] - s[0];
    var n := |s|;
    EvenlySpacedFrom(s, d, n - 1);
    StepFromLast(s[0], s[n - 1], n, d);
    var w := Linspace(s[0], s[n - 1], n);
    forall i | 0 <= i < n ensures s[i] == w[i] {
      EvenlySpacedFrom(s, d, i);
    }
  }

  /** A progression from a with spacing d that reaches b at sample n - 1 has
      spacing Step(a, b, n). */
  lemma StepFromLast(a: real, b: real, n: nat, d: real)
    requires n >= 2
    requires b == At(a, d, n - 1)
    ensures d == Step(a, b, n)
  {
  }

  /** In a sequence with constant differences d, sample k is s[0] + k·d. */
  lemma {:induction false} EvenlySpacedFrom(s: seq<real>, d: real, k: nat)
    requires k < |s|
    requires forall i :: 0 <= i < |s| - 1 ==> s[i + 1] - s[i] == d
    ensures s[k] == At(s[0], d, k)
  {
    if k > 0 {
      EvenlySpacedFrom(s, d, k - 1);
      AtFacts(s[0], d, k - 1, k);
    }
  }
}
