/** The analyser's capture loop: each frame's region of interest becomes an
    intensity profile over 400–700 nm; once a reference I0 is recorded, the
    profile is turned into clipped absorbance, Beer–Lambert concentration and a
    mean concentration. */
module Analyser {
  import opened Stats
  import opened Profile
  import opened Wavelength
  import opened Absorbance
  import opened Reference

  /** The region of interest (x1, y1, x2, y2). */
  const Region: Roi := Roi(100, 200, 600, 250)
  /** The number of profile samples, x2 - x1. */
  const Samples: nat := 500
  /** The wavelength range the region's columns are mapped onto, in nm. */
  const Range: (real, real) := (400.0, 700.0)

  /** What one iteration shows: the raw intensity spectrum while I0 is unset, the
      absorbance spectrum and mean concentration once it is recorded. */
  datatype View =
    | IntensityView(wavelengths: seq<real>, intensity: seq<real>)
    | AbsorbanceView(wavelengths: seq<real>, absorbance: seq<real>,
                     concentration: seq<real>, meanConcentration: real)

  /** The frame is large enough for the region (at least 600 × 250). */
  predicate FrameFits(frame: Matrix)
  {
    IsMatrix(frame) && FitsIn(Region, frame)
  }

  /** A recorded I0 matches the profile length and is strictly positive, so the
      ratio intensity / I0 is defined at every sample. */
  predicate ReferenceFits(ref: Reference)
  {
    ref.Recorded? ==> |ref.i0| == Samples && Positive(ref.i0)
  }

  /** The region's intensity profile (`find_spectrum_line` with the ROI). */
  function RegionProfile(frame: Matrix): (p: seq<real>)
    requires FrameFits(frame)
    ensures |p| == Samples
    ensures forall j :: 0 <= j < Samples ==> p[j] == Mean(Column(frame, Region.x1 + j)[Region.y1 .. Region.y2])
  {
    RoiColumnMeans(frame, Region)
  }

  /** One iteration's computation from the frame's region. The absorbance view
      appears exactly when I0 is recorded. The wavelengths are the 500-point
      linspace from 400 to 700 nm. Absorbance at each sample is −log10(I/I0) clipped at zero,
      concentration recovers it through ε·ℓ, and ten times the mean concentration
      is the total concentration over the sample count: non-negative, and zero
      exactly when the absorbance is zero everywhere. */
  function AnalyseFrame(log10: real -> real, frame: Matrix, ref: Reference): (v: View)
    requires FrameFits(frame) && ReferenceFits(ref)
    requires ref.Recorded? ==> Positive(RegionProfile(frame))
    ensures v.AbsorbanceView? <==> ref.Recorded?
    ensures v.wavelengths == Linspace(Range.0, Range.1, Samples)
    ensures v.IntensityView? ==> v.intensity == RegionProfile(frame)
    ensures v.AbsorbanceView? ==>
              && |v.absorbance| == Samples && |v.concentration| == Samples
              && NonNegative(v.absorbance) && NonNegative(v.concentration)
              && 0.0 <= v.meanConcentration
              && (v.meanConcentration == 0.0 <==> forall i :: 0 <= i < Samples ==> v.absorbance[i] == 0.0)
    ensures ref.Recorded? ==>
              && v.AbsorbanceView?
              && forall i :: 0 <= i < Samples ==>
                   var t := -log10(RegionProfile(frame)[i] / ref.i0[i]);
                   && (0.0 <= t ==> v.absorbance[i] == t)
                   && (t < 0.0 ==> v.absorbance[i] == 0.0)
                   && Epsilon * PathLength * v.concentration[i] == v.absorbance[i]
    ensures ref.Recorded? ==>
              && v.AbsorbanceView?
              && MeanScale * v.meanConcentration == Sum(v.concentration) / (Samples as real)
  {
    var intensity := RegionProfile(frame);
    var wavelengths := MapPixelsToWavelengths(intensity, Range);
    match ref
    case Unset => IntensityView(wavelengths, intensity)
    case Recorded(i0) =>
      var absorbance := AbsorbanceOf(log10, intensity, i0);
      var concentration := Concentration(absorbance, Epsilon, PathLength);
      MeanConcentrationZeroIff(absorbance);
      AbsorbanceView(wavelengths, absorbance, concentration, MeanConcentration(concentration))
  }

  /** The loop state carried between iterations is I0; recording from a frame
      whose profile is positive keeps it usable for every later frame. */
  lemma RecordingKeepsReferenceFit(ref: Reference, frame: Matrix, key: int)
    requires FrameFits(frame) && ReferenceFits(ref)
    requires Positive(RegionProfile(frame))
    ensures ReferenceFits(OnKey(ref, key, RegionProfile(frame)).reference)
  {
  }

  /** Where a sample is at least as bright as the recorded reference, its
      absorbance is 0 (given only that log10 is non-negative from 1 upwards and
      non-positive below). */
  lemma BrighterThanReferenceAbsorbsNothing(log10: real -> real, frame: Matrix, ref: Reference, i: nat)
    requires Log10Sign(log10)
    requires FrameFits(frame) && ReferenceFits(ref) && ref.Recorded?
    requires Positive(RegionProfile(frame))
    requires i < Samples && ref.i0[i] <= RegionProfile(frame)[i]
    ensures AnalyseFrame(log10, frame, ref).absorbance[i] == 0.0
  {
  }

  /** The grey level of the border's pure green (0, 255, 0): OpenCV weighs green
      by 0.587 when converting to grey, and 0.587 · 255 rounds to 150. */
  const BorderGrey: real := 150.0

  /** The frame the loop reads its region from: the region's border has already
      been drawn into it. Grey conversion works pixel by pixel, so drawing the
      green border and then converting paints grey level 150 on the outline of
      the converted frame. */
  function Overlaid(grey: Matrix): (d: Matrix)
    requires FrameFits(grey)
    ensures FrameFits(d)
  {
    DrawOutline(grey, Region, BorderGrey)
  }

  /** In the overlaid frame the region's first column lies wholly on the border,
      and every other column's top pixel does: sample 0 is the border's grey
      level. For the one-pixel outline that `OnOutline` paints, sample j > 0
      averages one border pixel with the 49 pixels of the camera's column below
      it. */
  lemma OverlaidRegionProfile(grey: Matrix)
    requires FrameFits(grey)
    ensures RegionProfile(Overlaid(grey))[0] == BorderGrey
    ensures forall j :: 0 < j < Samples ==>
              RegionProfile(Overlaid(grey))[j]
              == Mean([BorderGrey] + Column(grey, Region.x1 + j)[Region.y1 + 1 .. Region.y2])
  {
    var d := Overlaid(grey);
    var first := Column(d, Region.x1)[Region.y1 .. Region.y2];
    assert forall r :: 0 <= r < |first| ==> first[r] == BorderGrey;
    MeanOfConstant(first, BorderGrey);
    forall j | 0 < j < Samples
      ensures RegionProfile(d)[j]
              == Mean([BorderGrey] + Column(grey, Region.x1 + j)[Region.y1 + 1 .. Region.y2])
    {
      OverlaidColumn(grey, j);
    }
  }

  /** Region column j > 0 of the overlaid frame is one border pixel on top of the
      camera's pixels of that column below it. */
  lemma OverlaidColumn(grey: Matrix, j: nat)
    requires FrameFits(grey) && 0 < j < Samples
    ensures Column(Overlaid(grey), Region.x1 + j)[Region.y1 .. Region.y2]
            == [BorderGrey] + Column(grey, Region.x1 + j)[Region.y1 + 1 .. Region.y2]
  {
    var x := Region.x1 + j;
    var col := Column(Overlaid(grey), x)[Region.y1 .. Region.y2];
    assert col[0] == BorderGrey by {
      assert OnOutline(Region, Region.y1, x);
    }
    assert forall r :: 0 < r < |col| ==> col[r] == grey[Region.y1 + r][x];
  }

  /** For an 8-bit frame the overlaid region profile is strictly positive: each
      region column holds a border pixel of level 150 and no negative pixel, so
      the loop as written never divides by a zero intensity. */
  lemma OverlaidProfilePositive(grey: Matrix)
    requires FrameFits(grey) && EightBit(grey)
    ensures Positive(RegionProfile(Overlaid(grey)))
  {
    var d := Overlaid(grey);
    forall j | 0 <= j < Samples
      ensures 0.0 < RegionProfile(d)[j]
    {
      var x := Region.x1 + j;
      var col := Column(d, x)[Region.y1 .. Region.y2];
      assert col[0] == BorderGrey by {
        assert OnOutline(Region, Region.y1, x);
      }
      assert NonNegative(col);
      MeanOfNonNegative(col);
    }
  }

  /** One iteration in the loop's own order: the border is drawn before the
      region is read. The region's first column is all border, so the intensity
      there is the border's grey level whatever the camera sees, and once I0 has
      been recorded by this loop (so its first sample is border too) the
      absorbance there is always 0. */
  function AnalyseFrameAsWritten(log10: real -> real, grey: Matrix, ref: Reference): (v: View)
    requires FrameFits(grey) && EightBit(grey) && ReferenceFits(ref)
    ensures v.AbsorbanceView? <==> ref.Recorded?
    ensures v.IntensityView? ==> |v.intensity| == Samples && v.intensity[0] == BorderGrey
    ensures v.AbsorbanceView? ==> |v.absorbance| == Samples
    ensures Log10Sign(log10) && ref.Recorded? && ref.i0[0] == BorderGrey ==> v.absorbance[0] == 0.0
  {
    OverlaidRegionProfile(grey);
    OverlaidProfilePositive(grey);
    AnalyseFrame(log10, Overlaid(grey), ref)
  }

  /** As written, an I0 recorded by the loop makes the 400 nm sample of every
      later frame absorb nothing, whatever that frame shows. */
  lemma BorderSampleNeverAbsorbs(log10: real -> real, g0: Matrix, g1: Matrix)
    requires Log10Sign(log10)
    requires FrameFits(g0) && EightBit(g0) && FrameFits(g1) && EightBit(g1)
    ensures var ref := OnKey(Start, KeyRecord, RegionProfile(Overlaid(g0))).reference;
            && ReferenceFits(ref) && ref.Recorded?
            && AnalyseFrameAsWritten(log10, g1, ref).absorbance[0] == 0.0
  {
    OverlaidRegionProfile(g0);
    OverlaidProfilePositive(g0);
  }

  /** Reading the region before the border is drawn, a scene of one grey level c
      gives c at every sample, the first included. */
  lemma UniformSceneGivesItsLevel(log10: real -> real, grey: Matrix, c: real)
    requires FrameFits(grey)
    requires forall r, x :: 0 <= r < |grey| && 0 <= x < |grey[r]| ==> grey[r][x] == c
    ensures forall j :: 0 <= j < Samples ==> AnalyseFrame(log10, grey, Unset).intensity[j] == c
  {
    forall j | 0 <= j < Samples
      ensures RegionProfile(grey)[j] == c
    {
      MeanOfConstant(Column(grey, Region.x1 + j)[Region.y1 .. Region.y2], c);
    }
  }
}
