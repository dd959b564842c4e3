/** The spectrometer's capture loop: each whole greyscale frame becomes an
    intensity profile over 300–1200 nm, split into UV, visible and IR bands; the
    per-frame wavelength and intensity arrays are accumulated and averaged over
    time when the loop ends. */
module Spectrometer {
  import opened Stats
  import opened Profile
  import opened Wavelength
  import opened Bands

  /** The wavelength range the columns are mapped onto, in nm. */
  const Range: (real, real) := (300.0, 1200.0)
  /** The visible window, in nm. */
  const VisibleMin: real := 380.0
  const VisibleMax: real := 750.0
  /** The band boundaries: UV below 380 nm, visible 380–750 nm, IR above. */
  const Split: Limits := Limits(Range.0, Range.1, VisibleMin, VisibleMax)

  /** What one loop iteration computes from a frame. */
  datatype Capture = Capture(wavelengths: seq<real>, intensity: seq<real>,
                             uv: BandSpectrum, visible: BandSpectrum, ir: BandSpectrum)

  /** A strictly increasing sequence is sorted. */
  lemma IncreasingIsSorted(w: seq<real>)
    requires forall i, j :: 0 <= i < j < |w| ==> w[i] < w[j]
    ensures Sorted(w)
  {
  }

  /** One iteration: the whole-frame profile (each column's mean grey level), the
      300–1200 nm linspace over its columns and the three band slices. Every
      column lands in exactly one band, so the bands together hold one sample per
      column; the wavelengths are sorted; an 8-bit frame gives intensities in
      [0, 255]. */
  function CaptureFrame(grey: Matrix): (c: Capture)
    requires IsMatrix(grey)
    ensures |c.wavelengths| == |c.intensity| == Width(grey)
    ensures forall j :: 0 <= j < |c.intensity| ==> c.intensity[j] == Mean(Column(grey, j))
    ensures c.wavelengths == Linspace(Range.0, Range.1, Width(grey))
    ensures IsBandSlice(c.wavelengths, c.intensity, Split, UV, c.uv)
    ensures IsBandSlice(c.wavelengths, c.intensity, Split, Visible, c.visible)
    ensures IsBandSlice(c.wavelengths, c.intensity, Split, IR, c.ir)
    ensures Sorted(c.wavelengths)
    ensures forall i :: 0 <= i < |c.wavelengths| ==> Range.0 <= c.wavelengths[i] <= Range.1
    ensures |c.uv.wavelengths| + |c.visible.wavelengths| + |c.ir.wavelengths| == Width(grey)
    ensures EightBit(grey) ==> forall j :: 0 <= j < |c.intensity| ==> 0.0 <= c.intensity[j] <= 255.0
  {
    var intensity := ColumnMeans(grey);
    var w := MapPixelsToWavelengths(intensity, Range);
    assert w == Linspace(Range.0, Range.1, |intensity|);
    IncreasingIsSorted(w);
    PartitionCount(w, Split);
    EightBitProfile(grey);
    BandSliceUnique(w, intensity, Split, UV, SliceBand(w, intensity, Split, UV));
    BandSliceUnique(w, intensity, Split, Visible, SliceBand(w, intensity, Split, Visible));
    BandSliceUnique(w, intensity, Split, IR, SliceBand(w, intensity, Split, IR));
    Capture(w, intensity,
            SliceBand(w, intensity, Split, UV),
            SliceBand(w, intensity, Split, Visible),
            SliceBand(w, intensity, Split, IR))
  }

  /** With range (300, 1200) and the 380–750 nm window, every column index of a
      frame lands in exactly one of the UV, visible and IR index lists. */
  lemma EveryColumnInOneBand(grey: Matrix, i: nat)
    requires IsMatrix(grey) && i < Width(grey)
    ensures var w := CaptureFrame(grey).wavelengths;
            && (i in Indices(w, Split, UV) || i in Indices(w, Split, Visible) || i in Indices(w, Split, IR))
            && !(i in Indices(w, Split, UV) && i in Indices(w, Split, Visible))
            && !(i in Indices(w, Split, Visible) && i in Indices(w, Split, IR))
            && !(i in Indices(w, Split, UV) && i in Indices(w, Split, IR))
  {
    ExactlyOneBand(CaptureFrame(grey).wavelengths, Split, i);
  }

  /** In every frame all UV indices precede all visible indices, which precede all
      IR indices. */
  lemma CaptureBandsInOrder(grey: Matrix)
    requires IsMatrix(grey)
    ensures var w := CaptureFrame(grey).wavelengths;
            var uv, vis, ir := Indices(w, Split, UV), Indices(w, Split, Visible), Indices(w, Split, IR);
            && (forall k, l :: 0 <= k < |uv| && 0 <= l < |vis| ==> uv[k] < vis[l])
            && (forall k, l :: 0 <= k < |vis| && 0 <= l < |ir| ==> vis[k] < ir[l])
            && (forall k, l :: 0 <= k < |uv| && 0 <= l < |ir| ==> uv[k] < ir[l])
  {
    BandsInOrder(CaptureFrame(grey).wavelengths, Split);
  }

  /** The two accumulators: one wavelength array and one intensity array per
      captured frame, in capture order. */
  datatype Accumulators = Accumulators(wavelengths: seq<seq<real>>, intensities: seq<seq<real>>)

  /** The accumulators after the loop has captured `frames`, in order. */
  function Accumulate(frames: seq<Matrix>): (acc: Accumulators)
    requires forall k :: 0 <= k < |frames| ==> IsMatrix(frames[k])
    ensures |acc.wavelengths| == |frames| && |acc.intensities| == |frames|
    ensures forall k :: 0 <= k < |frames| ==>
              && acc.intensities[k] == ColumnMeans(frames[k])
              && acc.wavelengths[k] == MapPixelsToWavelengths(acc.intensities[k], Range)
  {
    if |frames| == 0 then Accumulators([], [])
    else
      var acc := Accumulate(frames[..|frames| - 1]);
      var intensity := ColumnMeans(frames[|frames| - 1]);
      Accumulators(acc.wavelengths + [MapPixelsToWavelengths(intensity, Range)],
                   acc.intensities + [intensity])
  }

  /** The time-averaged arrays written out when the loop ends. */
  datatype Averages = Averages(wavelengths: seq<real>, intensities: seq<real>)

  /** `np.mean(accumulator, axis=0)` for both accumulators. It needs at least one
      frame and frames of one width. Each averaged intensity lies between the
      smallest and largest value that column took across the frames. */
  function TimeAverage(acc: Accumulators): (avg: Averages)
    requires IsMatrix(acc.wavelengths) && IsMatrix(acc.intensities)
    ensures |avg.wavelengths| == Width(acc.wavelengths)
    ensures |avg.intensities| == Width(acc.intensities)
    ensures forall j :: 0 <= j < |avg.intensities| ==>
              Min(Column(acc.intensities, j)) <= avg.intensities[j] <= Max(Column(acc.intensities, j))
  {
    Averages(ColumnMeans(acc.wavelengths), ColumnMeans(acc.intensities))
  }

  /** When all captured frames share a width W, the accumulators are well-formed
      stacks, the averaged wavelength array is the 300–1200 nm linspace of W
      points, and it equals every per-frame wavelength array. */
  lemma AveragedWavelengthsMatchEveryFrame(frames: seq<Matrix>, width: nat)
    requires |frames| > 0
    requires forall k :: 0 <= k < |frames| ==> IsMatrix(frames[k]) && Width(frames[k]) == width
    ensures var acc := Accumulate(frames);
            && IsMatrix(acc.wavelengths) && IsMatrix(acc.intensities)
            && TimeAverage(acc).wavelengths == Linspace(Range.0, Range.1, width)
            && forall k :: 0 <= k < |frames| ==> TimeAverage(acc).wavelengths == acc.wavelengths[k]
  {
    var acc := Accumulate(frames);
    var v := Linspace(Range.0, Range.1, width);
    assert forall k :: 0 <= k < |frames| ==> acc.wavelengths[k] == v;
    assert forall k :: 0 <= k < |frames| ==> |acc.intensities[k]| == width;
    MeanOfIdenticalRows(acc.wavelengths, v);
  }
}
