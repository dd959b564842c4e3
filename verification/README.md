# Camera spectrometer signal pipeline, modelled in Dafny

This project models the numeric core of two camera spectrometer scripts,
`Spectrometer.py` and `Analyser.py`. A camera photographs a diffracted light
spectrum. Each greyscale frame is reduced to one intensity value per pixel
column, the mean grey level of that column. The columns are mapped linearly
onto wavelengths (nm).

- `Spectrometer.py` uses the whole frame and maps it onto 300–1200 nm. It
  splits the columns into ultraviolet (below 380 nm), visible (380–750 nm) and
  infrared (above 750 nm) bands. It accumulates every frame's wavelength and
  intensity arrays and averages them over time when the loop ends.
- `Analyser.py` uses a fixed region of interest and maps it onto 400–700 nm.
  It keeps a reference profile I0, which the operator records with key `r`.
  Once I0 is set, each frame gives an absorbance −log10(I/I0) clipped at zero,
  a Beer–Lambert concentration A/(ε·ℓ) with ε = 0.02 and ℓ = 1, and a mean
  concentration mean(c)/10.

Everything is stated over exact `real`s, not floats. Arrays are `seq<real>` and
frames are sequences of rows.

Modules:

- `Stats` (`stats.dfy`): sum, minimum, maximum and mean of a sequence.
- `Profile` (`profile.dfy`): frames as matrices, `np.mean(…, axis=0)` as
  `ColumnMeans`, and the region-of-interest crop. `ColumnMeans` serves both the
  per-frame column mean and the time average over the accumulated frames,
  because the two are the same numpy operation. It also draws the region's
  rectangle outline into a frame.
- `Wavelength` (`wavelength.dfy`): `np.linspace` and `map_pixels_to_wavelengths`.
- `Bands` (`bands.dfy`): the UV/visible/IR index lists and band slicing.
- `Absorbance` (`absorbance.dfy`): clipping, absorbance, concentration and
  mean concentration.
- `Reference` (`reference.dfy`): the I0 lifecycle driven by key events.
- `Spectrometer` (`spectrometer.dfy`) and `Analyser` (`analyser.dfy`): each
  script's constants and per-iteration computation.

`log10` is a parameter of type `real -> real`. Wherever a property depends on
it, the only assumption is the sign law `Log10Sign`: log10(x) ≥ 0 for x ≥ 1 and
log10(x) ≤ 0 for 0 < x ≤ 1.

Four behaviours of the code shape the model's preconditions and results:

- The code never checks the region of interest; Python slicing clamps
  silently. The model states 0 ≤ x1 < x2 ≤ width and 0 ≤ y1 < y2 ≤ height as
  a precondition.
- Every `r` press overwrites I0 with the current profile, so the last `r` wins
  (`ReplayIsLastRecorded`).
- There is no length check and no check for a zero intensity. The model
  requires equal lengths and strictly positive intensity and I0.
- The green region border is drawn into the frame before the region is read,
  so border pixels are part of the averaged region. `AnalyseFrameAsWritten`
  models that order. `AnalyseFrame` reads the region from the frame it is
  given; applied to the frame before drawing, it is the corrected iteration
  (see "## Findings").

## Model

| member | source | states |
|---|---|---|
| `Stats.Mean` | Spectrometer.py:13 | The mean of a non-empty sequence lies between its smallest and its largest element. |
| `Profile.ColumnMeans` | Spectrometer.py:12-13 | A frame gives one value per column, and each value lies between that column's minimum and maximum grey level. |
| `Profile.EightBitProfile` | Spectrometer.py:12-13 | For 8-bit input, with every grey level in [0, 255], every profile value is in [0, 255]. |
| `Profile.UniformFrameProfile` | Spectrometer.py:8-14 | A frame of one uniform grey level c gives c in every column, whatever the frame's width. |
| `Profile.Crop` | Analyser.py:7-8 | For a region inside the frame, the slice has y2−y1 rows of x2−x1 samples, and sample (r, x) is frame pixel (y1+r, x1+x). |
| `Profile.RoiColumnMeans` | Analyser.py:6-11 | The region profile has x2−x1 values, and entry j is the mean of frame column x1+j over rows y1..y2−1. |
| `Profile.WholeFrameRegion` | Analyser.py:7-10 | Taking the whole frame as the region gives the whole-frame profile of the spectrometer's extractor. |
| `Profile.MeanOfIdenticalRows` | Spectrometer.py:127 | Averaging a stack whose rows are all the same array v gives v. |
| `Profile.DrawOutline` | Analyser.py:48-49 | Drawing the rectangle keeps the frame's shape, paints every pixel of both corner rows and both corner columns inside the frame with the border level, and leaves every other pixel as it was. |
| `Wavelength.Linspace` | Spectrometer.py:21 | The result has num samples. For num ≥ 1 it starts at start; for num ≥ 2 it ends at stop and every step is (stop−start)/(num−1). It is strictly increasing when start < stop and stays within [start, stop] when start ≤ stop. With num = 1 it is [start], with no division by zero. |
| `Wavelength.LinspaceCharacterised` | Spectrometer.py:21 | Any sequence of two or more samples with equal consecutive differences equals the linspace between its first and last sample. This is the only evenly spaced sequence with those endpoints. |
| `Wavelength.MapPixelsToWavelengths` | Spectrometer.py:16-22 | There is exactly one wavelength per intensity sample, starting at range.0 and, for two or more samples, ending at range.1. |
| `Bands.Indices` | Spectrometer.py:59-61 | The band's index list is strictly ascending, and it holds index i exactly when i is a column index whose wavelength lies in the band. |
| `Bands.BandsDisjoint` | Spectrometer.py:59-61 | The UV, visible and IR index lists are pairwise disjoint. |
| `Bands.ExactlyOneBand` | Spectrometer.py:59-61 | A column is in some list exactly when its wavelength is within the mapped range, and it is never in two lists. |
| `Bands.BandsInOrder` | Spectrometer.py:59-61 | Over non-decreasing wavelengths, every UV index is smaller than every visible index, and every visible index is smaller than every IR index. |
| `Bands.PartitionCount` | Spectrometer.py:59-61 | When all wavelengths lie in the mapped range, the three lists together hold exactly one index per column. |
| `Bands.SliceBand` | Spectrometer.py:64-71 | The band's wavelength and intensity arrays are both as long as its index list. Entry k of each is the sample at the list's k-th index, so the two stay paired. Every wavelength is in the band, and the slice stays sorted when the input is sorted. |
| `Bands.SliceKeepsInBandSamples` | Spectrometer.py:64-71 | Every in-band pair (wavelength, intensity) appears, still paired, in the band's slice. |
| `Bands.BandSliceUnique` | Spectrometer.py:64-71 | A spectrum pairs the band's indices in order exactly when it is the band's slice, so a band's arrays are fixed by its index list. |
| `Spectrometer.CaptureFrame` | Spectrometer.py:51-71 | One iteration gives one intensity per column, the column's mean grey level, and the 300–1200 nm linspace over the columns as wavelengths, so the arrays are equal-length, sorted and within 300–1200 nm. Each band holds, in index-list order, the paired wavelength and intensity at every index of its list. The three bands together hold one sample per column, and an 8-bit frame gives intensities in [0, 255]. |
| `Spectrometer.EveryColumnInOneBand` | Spectrometer.py:35-61 | With range (300, 1200) and the 380–750 nm window, every column index is in exactly one of the three index lists. |
| `Spectrometer.CaptureBandsInOrder` | Spectrometer.py:59-61 | In every frame, all UV indices come before all visible indices, which come before all IR indices. |
| `Spectrometer.Accumulate` | Spectrometer.py:55-56 | The accumulators hold one wavelength array and one intensity array per captured frame, in capture order. Each intensity array is that frame's profile, and each wavelength array is its mapping. |
| `Spectrometer.TimeAverage` | Spectrometer.py:127-128 | The averaged arrays have the frames' width, and each averaged intensity lies between that column's minimum and maximum across the frames. |
| `Spectrometer.AveragedWavelengthsMatchEveryFrame` | Spectrometer.py:127 | With at least one frame and all frames of width W, the averaged wavelength array is the W-point 300–1200 nm linspace and equals every per-frame wavelength array. |
| `Absorbance.Clip` | Analyser.py:67 | Every clipped value is ≥ 0. A value that is already ≥ 0 is kept and a negative one becomes 0. |
| `Absorbance.ClipIdempotent` | Analyser.py:67 | Clipping twice is the same as clipping once. |
| `Absorbance.ClipFixedPoints` | Analyser.py:67 | Clipping leaves an array unchanged exactly when none of its values is negative. |
| `Absorbance.AbsorbanceOf` | Analyser.py:66-67 | Absorbance has one value per sample, each ≥ 0. It equals −log10(I/I0) wherever that is ≥ 0 and is 0 wherever that is negative. Under the sign law it is 0 wherever I ≥ I0 > 0, and exactly −log10(I/I0) wherever I ≤ I0. |
| `Absorbance.Concentration` | Analyser.py:70 | Concentration has one value per sample, ε·ℓ·c recovers the absorbance, and non-negative absorbance gives non-negative concentration. |
| `Absorbance.MeanConcentration` | Analyser.py:71 | Ten times the mean concentration is the total concentration divided by the sample count, so it lies between a tenth of the smallest and a tenth of the largest concentration. For non-negative concentrations it is ≥ 0, and it is 0 exactly when every concentration is 0. |
| `Absorbance.MeanConcentrationZeroIff` | Analyser.py:70-71 | With ε = 0.02 and ℓ = 1 the mean concentration is ≥ 0, and it is 0 exactly when every clipped absorbance is 0. |
| `Reference.KeyByte` | Analyser.py:99 | The key byte is in [0, 256), is the raw code itself when that is already a byte, and is congruent to the raw code modulo 256. |
| `Reference.OnKey` | Analyser.py:99-104 | Key `r` sets I0 to the current intensity, overwriting any earlier I0. Key `q` ends the loop. Any other key leaves I0 as it was, and a recorded I0 stays recorded. |
| `Reference.Start` | Analyser.py:29 | I0 starts unset (`I0 = None`). |
| `Reference.Replay` | Analyser.py:41-104 | I0 after the session's events in order, stopping at the first `q`, is either the starting I0 or the intensity of some `r` event. |
| `Reference.ReplayNeverUnsets` | Analyser.py:99-101 | Once recorded, I0 is still recorded after any later sequence of events. |
| `Reference.ReplayIsLastRecorded` | Analyser.py:99-101 | Without a `q`, the loop ends with the intensity of the last `r` event as I0, or with the starting I0 if no `r` came. |
| `Reference.ReplayStopsAtQuit` | Analyser.py:103-104 | Events after the first `q` have no effect on I0. |
| `Reference.ReplayWithoutRecord` | Analyser.py:99-104 | A session without an `r` ends with I0 as it started. |
| `Reference.LastRecordedIff` | Analyser.py:99-101 | The last-`r` search ends with a recorded I0 exactly when the start was recorded or some event was an `r`. |
| `Reference.RecordedFromStartIff` | Analyser.py:29-104 | Starting from an unset I0, the loop ends with I0 recorded exactly when some `r` came before the first `q`, or anywhere if no `q` came. |
| `Analyser.RegionProfile` | Analyser.py:52 | The analyser's profile has 500 values, and entry j is the mean of frame column 100+j over rows 200..249. |
| `Analyser.AnalyseFrame` | Analyser.py:52-71 | Absorbance is produced exactly when I0 is recorded, and otherwise the raw region profile is shown. The wavelengths are the 500-point linspace from 400 to 700 nm. At every sample the absorbance is −log10(I/I0) of the region profile and I0, clipped at 0, and ε·ℓ times the concentration gives the absorbance back. Ten times the mean concentration is the total concentration over 500; it is ≥ 0, and it is 0 exactly when all absorbance is 0. |
| `Analyser.RecordingKeepsReferenceFit` | Analyser.py:100-101 | Recording I0 from a positive region profile keeps it the right length (500) and positive for later frames, whatever the key. |
| `Analyser.BrighterThanReferenceAbsorbsNothing` | Analyser.py:66-67 | Under the sign law, a sample at least as bright as the recorded I0 has absorbance 0. |
| `Analyser.Overlaid` | Analyser.py:48-49 | The frame with the border drawn into it still holds the region. |
| `Analyser.OverlaidRegionProfile` | Analyser.py:48-52 | After the border is drawn, sample 0 of the region profile is the border's grey level 150, because the border's left edge runs down the region's first column. For the one-pixel outline that `Profile.DrawOutline` paints, sample j > 0 is the mean of one border pixel and the 49 camera pixels of column 100+j below it. |
| `Analyser.OverlaidProfilePositive` | Analyser.py:48-52 | For an 8-bit frame every sample of the overlaid region profile is strictly positive, since each region column holds a border pixel of level 150. So the loop as written never divides by a zero intensity. |
| `Analyser.AnalyseFrameAsWritten` | Analyser.py:48-71 | In the loop's own order, on an 8-bit frame, the intensity view's sample 0 is always 150 whatever the camera sees, and with an I0 whose sample 0 is 150 the absorbance at sample 0 is always 0. |
| `Analyser.BorderSampleNeverAbsorbs` | Analyser.py:48-101 | Once the loop has recorded I0 from an overlaid 8-bit frame, sample 0 of every later 8-bit frame has absorbance 0. |
| `Analyser.UniformSceneGivesItsLevel` | Analyser.py:6-11 | Reading the region before any drawing, a scene of one grey level c gives c at every one of the 500 samples, the first included. |

## Left out

- Camera opening, reading and release, `cv2.imshow`, the `waitKey` polling and
  the `while True` driver loops. These are device and UI I/O. The model takes
  frames as inputs and key events as a sequence of raw key codes.
- `Profile.DrawOutline`: paints only the rectangle's own corner rows and
  columns. The extra pixels OpenCV's rasteriser adds beside them for a
  2-pixel-thick line are not modelled.
- `Analyser.OverlaidRegionProfile`: its value for samples j > 0 holds for the
  one-pixel outline only. If the thick line also paints region rows 201 and
  249 and columns 101 and 599, then samples 1 and 499 are 150 too and the other
  samples average more border pixels. Sample 0 is 150 either way.
- All matplotlib plotting, colour mapping and the tkinter save dialog. These
  are UI only.
- `cv2.cvtColor` BGR-to-grey weighting, because it is a foreign call. The model
  takes the greyscale matrix as its input, and the 8-bit range is a predicate
  (`Profile.EightBit`).
- `np.column_stack` and `np.savetxt` with the `%.2f`/`%.5f` formats and the
  header line. Decimal float-to-text rounding is library behaviour.
- The real definition of `log10`. It is a parameter, and only its sign law is
  assumed where needed.
- IEEE floating point: rounding, NaN and ∞. Arithmetic is over exact reals.
  Because of this, a float linspace sample that rounds onto a band boundary
  (380 or 750 nm) can land in a different band than in the model.
- The NaN/∞ results of the source when I or I0 is 0. `Absorbance.AbsorbanceOf`
  and `Analyser.AnalyseFrame` require strictly positive profiles instead. In the
  loop's own order the border makes every region sample positive, so this case
  does not arise there (`Analyser.OverlaidProfilePositive`).
- numpy broadcasting of a length-1 I0 against a longer profile. The model
  requires equal lengths.
- Python's clamping of out-of-range ROI slices. The bounds are a precondition of
  `Profile.RoiColumnMeans`.
- `Spectrometer.TimeAverage`: does not model the mean of an empty accumulator
  (NaN with a warning in numpy) or of frames of different widths (a numpy
  error). It requires at least one frame, all of one width.
- `Absorbance.MeanConcentration`: does not model the mean of an empty profile
  (NaN in numpy). It requires at least one sample, and the analyser's profile
  always has 500.
- Trapezoidal band integration and the blue-light and efficiency ratios. Those
  scripts are not part of this model.

## Findings

| source | as written | input that shows it | evidently intended | confidence | as-written member | corrected member |
|---|---|---|---|---|---|---|
| Analyser.py:48-52 | The ROI border is drawn in pure green into `frame`, and the region is then read from that same frame. Row 200 and column 100 of the region are border pixels. | Any frame whose region shows one grey level, say 40. Profile sample 0 reads 150 instead of 40, and after `r` the 400 nm absorbance is 0 on every later frame. | The border marks the region on the live view only; the profile is read from the camera's pixels. | high; not executed | `Analyser.AnalyseFrameAsWritten` | `Analyser.UniformSceneGivesItsLevel` |
