/** The spectral quantity engine: absorbance against a reference profile I0,
    clipped at zero, and Beer–Lambert concentration. Exact reals stand in for
    numpy's float arrays; log10 is a parameter, constrained only by its signs. */
module Absorbance {
  import opened Stats

  /** Molar absorptivity ε (L·mol⁻¹·cm⁻¹). */
  const Epsilon: real := 0.02
  /** Path length ℓ (cm). */
  const PathLength: real := 1.0
  /** The fixed divisor applied to the mean concentration. */
  const MeanScale: real := 10.0

  /** The sign laws of log10 the model relies on: non-negative from 1 upwards,
      non-positive on (0, 1]. */
  ghost predicate Log10Sign(log10: real -> real)
  {
    && (forall x :: 1.0 <= x ==> 0.0 <= log10(x))
    && (forall x :: 0.0 < x <= 1.0 ==> log10(x) <= 0.0)
  }

  /** Every sample is strictly positive. */
  predicate Positive(s: seq<real>)
  {
    forall i :: 0 <= i < |s| ==> 0.0 < s[i]
  }

  /** Every sample is non-negative. */
  predicate NonNegative(s: seq<real>)
  {
    forall i :: 0 <= i < |s| ==> 0.0 <= s[i]
  }

  /** `np.clip(a, 0, np.inf)`: negative samples become 0, the rest are kept. */
  function Clip(a: seq<real>): (c: seq<real>)
    ensures |c| == |a|
    ensures NonNegative(c)
    ensures forall i :: 0 <= i < |a| && 0.0 <= a[i] ==> c[i] == a[i]
    ensures forall i :: 0 <= i < |a| && a[i] < 0.0 ==> c[i] == 0.0
  {
    seq(|a|, i requires 0 <= i < |a| => if a[i] < 0.0 then 0.0 else a[i])
  }

  /** Clipping twice is clipping once. */
  lemma ClipIdempotent(a: seq<real>)
    ensures Clip(Clip(a)) == Clip(a)
  {
  }

  /** Clipping changes nothing exactly when nothing is negative. */
  lemma ClipFixedPoints(a: seq<real>)
    ensures Clip(a) == a <==> NonNegative(a)
  {
  }

  /** `-np.log10(intensity / I0)`, sample by sample. */
  function RawAbsorbance(log10: real -> real, intensity: seq<real>, i0: seq<real>): (a: seq<real>)
    requires |intensity| == |i0| && Positive(intensity) && Positive(i0)
    ensures |a| == |intensity|
  {
    seq(|intensity|, i requires 0 <= i < |intensity| => -log10(intensity[i] / i0[i]))
  }

  /** The transmittance intensity / I0 is at least 1 where the sample is at least
      as bright as the reference, and in (0, 1] where it is no brighter. */
  lemma RatioSigns(intensity: seq<real>, i0: seq<real>)
    requires |intensity| == |i0| && Positive(intensity) && Positive(i0)
    ensures forall i :: 0 <= i < |i0| && i0[i] <= intensity[i] ==> 1.0 <= intensity[i] / i0[i]
    ensures forall i :: 0 <= i < |i0| && intensity[i] <= i0[i] ==> 0.0 < intensity[i] / i0[i] <= 1.0
  {
    forall i | 0 <= i < |i0|
      ensures i0[i] <= intensity[i] ==> 1.0 <= intensity[i] / i0[i]
      ensures intensity[i] <= i0[i] ==> 0.0 < intensity[i] / i0[i] <= 1.0
    {
      QuotientSigns(intensity[i], i0[i]);
    }
  }

  lemma QuotientSigns(x: real, y: real)
    requires 0.0 < x && 0.0 < y
    ensures y <= x ==> 1.0 <= x / y
    ensures x <= y ==> 0.0 < x / y <= 1.0
  {
  }

  /** Clipped absorbance: never negative, equal to the raw value −log10(I/I0)
      wherever that is already non-negative and 0 wherever it is negative. With
      the sign laws of log10 it is 0 wherever the sample is at least as bright
      as the reference, and exactly −log10(I/I0) wherever it is no brighter. */
  function AbsorbanceOf(log10: real -> real, intensity: seq<real>, i0: seq<real>): (a: seq<real>)
    requires |intensity| == |i0| && Positive(intensity) && Positive(i0)
    ensures |a| == |intensity|
    ensures NonNegative(a)
    ensures forall i :: 0 <= i < |a| && 0.0 <= -log10(intensity[i] / i0[i]) ==> a[i] == -log10(intensity[i] / i0[i])
    ensures forall i :: 0 <= i < |a| && -log10(intensity[i] / i0[i]) < 0.0 ==> a[i] == 0.0
    ensures Log10Sign(log10) ==> forall i :: 0 <= i < |a| && i0[i] <= intensity[i] ==> a[i] == 0.0
    ensures Log10Sign(log10) ==> forall i :: 0 <= i < |a| && intensity[i] <= i0[i] ==> a[i] == -log10(intensity[i] / i0[i])
  {
    RatioSigns(intensity, i0);
    Clip(RawAbsorbance(log10, intensity, i0))
  }

  /** Beer–Lambert concentration `absorbance / (ε·ℓ)`: the absorbance is recovered
      as ε·ℓ·c, and non-negative absorbance gives non-negative concentration. */
  function Concentration(absorbance: seq<real>, epsilon: real, pathLength: real): (c: seq<real>)
    requires 0.0 < epsilon && 0.0 < pathLength
    ensures |c| == |absorbance|
    ensures forall i :: 0 <= i < |c| ==> (epsilon * pathLength) * c[i] == absorbance[i]
    ensures NonNegative(absorbance) ==> NonNegative(c)
  {
    var k := epsilon * pathLength;
    PositiveProduct(epsilon, pathLength);
    seq(|absorbance|, i requires 0 <= i < |absorbance| => absorbance[i] / k)
  }

  lemma PositiveProduct(x: real, y: real)
    requires 0.0 < x && 0.0 < y
    ensures 0.0 < x * y
  {
  }

  /** `np.mean(concentration) / 10`: ten times the result is the total
      concentration shared out over the samples, so the result lies between a
      tenth of the smallest and a tenth of the largest concentration; for
      non-negative input it is non-negative and zero exactly when every
      concentration is zero. */
  function MeanConcentration(c: seq<real>): (m: real)
    requires |c| > 0
    ensures MeanScale * m == Sum(c) / (|c| as real)
    ensures Min(c) / MeanScale <= m <= Max(c) / MeanScale
    ensures NonNegative(c) ==> 0.0 <= m
    ensures NonNegative(c) ==> (m == 0.0 <==> forall i :: 0 <= i < |c| ==> c[i] == 0.0)
  {
    MeanOfNonNegative(c);
    var mean := Mean(c);
    assert mean == Sum(c) / (|c| as real);
    ScaledMean(mean, Min(c), Max(c), MeanScale);
    mean / MeanScale
  }

  /** A value in [lo, hi] divided by k > 0 gives it back when multiplied by k,
      and lies in [lo / k, hi / k]. */
  lemma ScaledMean(mean: real, lo: real, hi: real, k: real)
    requires 0.0 < k && lo <= mean <= hi
    ensures k * (mean / k) == mean
    ensures lo / k <= mean / k <= hi / k
  {
  }

  /** A mean of non-negative samples is non-negative, and zero exactly when every
      sample is. */
  lemma MeanOfNonNegative(c: seq<real>)
    requires |c| > 0
    ensures NonNegative(c) ==> 0.0 <= Mean(c)
    ensures NonNegative(c) ==> (Mean(c) == 0.0 <==> forall i :: 0 <= i < |c| ==> c[i] == 0.0)
  {
    if NonNegative(c) {
      SumZeroIffAllZero(c);
      MeanZeroIffSumZero(c);
      assert Min(c) in c;
    }
  }

  /** The mean concentration of the analyser is zero exactly when the clipped
      absorbance is zero at every sample. */
  lemma MeanConcentrationZeroIff(absorbance: seq<real>)
    requires |absorbance| > 0 && NonNegative(absorbance)
    ensures 0.0 <= MeanConcentration(Concentration(absorbance, Epsilon, PathLength))
    ensures MeanConcentration(Concentration(absorbance, Epsilon, PathLength)) == 0.0
            <==> forall i :: 0 <= i < |absorbance| ==> absorbance[i] == 0.0
  {
  }
}
