/** Splitting a profile's columns into ultraviolet, visible and infrared bands by
    wavelength, and slicing the wavelength and intensity arrays by band. */
module Bands {

  datatype Band = UV | Visible | IR

  /** The mapped range [rangeMin, rangeMax] and the visible window
      [visibleMin, visibleMax], in nm. */
  datatype Limits = Limits(rangeMin: real, rangeMax: real, visibleMin: real, visibleMax: real)
  {
    /** The window sits inside the range. */
    predicate Valid()
    {
      rangeMin <= visibleMin <= visibleMax <= rangeMax
    }
  }

  /** Band membership of one wavelength: UV is [rangeMin, visibleMin), visible is
      [visibleMin, visibleMax], IR is (visibleMax, rangeMax]. */
  predicate InBand(lim: Limits, b: Band, x: real)
  {
    match b
    case UV => lim.rangeMin <= x < lim.visibleMin
    case Visible => lim.visibleMin <= x <= lim.visibleMax
    case IR => lim.visibleMax < x <= lim.rangeMax
  }

  /** Strictly ascending. */
  predicate Ascending(idx: seq<nat>)
  {
    forall k, l :: 0 <= k < l < |idx| ==> idx[k] < idx[l]
  }

  /** Non-decreasing. */
  predicate Sorted(w: seq<real>)
  {
    forall i, j :: 0 <= i <= j < |w| ==> w[i] <= w[j]
  }

  /** The indices i >= from of w whose wavelength lies in band b, ascending:
      `[i for i, x in enumerate(w) if ...]` restricted to the tail from `from`. */
  function IndicesFrom(w: seq<real>, lim: Limits, b: Band, from: nat): (idx: seq<nat>)
    requires from <= |w|
    decreases |w| - from
    ensures forall k :: 0 <= k < |idx| ==> from <= idx[k] < |w| && InBand(lim, b, w[idx[k]])
    ensures forall i :: from <= i < |w| && InBand(lim, b, w[i]) ==> i in idx
    ensures Ascending(idx)
  {
    if from == |w| then []
    else
      var rest := IndicesFrom(w, lim, b, from + 1);
      if InBand(lim, b, w[from]) then
        var idx := [from] + rest;
        assert forall k :: 0 < k < |idx| ==> idx[k] == rest[k - 1];
        idx
      else rest
  }

  /** The band's index list: every index of w whose wavelength lies in band b, in
      ascending order, and no other. */
  function Indices(w: seq<real>, lim: Limits, b: Band): (idx: seq<nat>)
    ensures Ascending(idx)
    ensures forall k :: 0 <= k < |idx| ==> idx[k] < |w|
    ensures forall i :: 0 <= i < |w| ==> (i in idx <==> InBand(lim, b, w[i]))
  {
    IndicesFrom(w, lim, b, 0)
  }

  /** No index appears in two band lists. */
  lemma BandsDisjoint(w: seq<real>, lim: Limits)
    requires lim.visibleMin <= lim.visibleMax
    ensures forall i :: !(i in Indices(w, lim, UV) && i in Indices(w, lim, Visible))
    ensures forall i :: !(i in Indices(w, lim, Visible) && i in Indices(w, lim, IR))
    ensures forall i :: !(i in Indices(w, lim, UV) && i in Indices(w, lim, IR))
  {
  }

  /** A column lands in some band exactly when its wavelength lies in the mapped
      range, and then in exactly one. */
  lemma ExactlyOneBand(w: seq<real>, lim: Limits, i: nat)
    requires lim.Valid() && i < |w|
    ensures (i in Indices(w, lim, UV) || i in Indices(w, lim, Visible) || i in Indices(w, lim, IR))
            <==> lim.rangeMin <= w[i] <= lim.rangeMax
    ensures !(i in Indices(w, lim, UV) && i in Indices(w, lim, Visible))
    ensures !(i in Indices(w, lim, Visible) && i in Indices(w, lim, IR))
    ensures !(i in Indices(w, lim, UV) && i in Indices(w, lim, IR))
  {
  }

  /** Over non-decreasing wavelengths every UV index precedes every visible index,
      which precedes every IR index. */
  lemma BandsInOrder(w: seq<real>, lim: Limits)
    requires lim.visibleMin <= lim.visibleMax && Sorted(w)
    ensures forall k, l :: 0 <= k < |Indices(w, lim, UV)| && 0 <= l < |Indices(w, lim, Visible)|
              ==> Indices(w, lim, UV)[k] < Indices(w, lim, Visible)[l]
    ensures forall k, l :: 0 <= k < |Indices(w, lim, Visible)| && 0 <= l < |Indices(w, lim, IR)|
              ==> Indices(w, lim, Visible)[k] < Indices(w, lim, IR)[l]
    ensures forall k, l :: 0 <= k < |Indices(w, lim, UV)| && 0 <= l < |Indices(w, lim, IR)|
              ==> Indices(w, lim, UV)[k] < Indices(w, lim, IR)[l]
  {
  }

  /** When every wavelength lies in the mapped range, the three lists together
      hold exactly as many indices as there are columns. */
  lemma PartitionCount(w: seq<real>, lim: Limits)
    requires lim.Valid()
    requires forall i :: 0 <= i < |w| ==> lim.rangeMin <= w[i] <= lim.rangeMax
    ensures |Indices(w, lim, UV)| + |Indices(w, lim, Visible)| + |Indices(w, lim, IR)| == |w|
  {
    CountIsLength(w, lim, UV, 0);
    CountIsLength(w, lim, Visible, 0);
    CountIsLength(w, lim, IR, 0);
    CountsCoverTail(w, lim, 0);
  }

  /** The number of columns from `from` on whose wavelength is in band b. */
  function CountFrom(w: seq<real>, lim: Limits, b: Band, from: nat): nat
    requires from <= |w|
    decreases |w| - from
  {
    if from == |w| then 0
    else CountFrom(w, lim, b, from + 1) + (if InBand(lim, b, w[from]) then 1 else 0)
  }

  /** The index list from `from` has one entry per in-band column. */
  lemma {:induction false} CountIsLength(w: seq<real>, lim: Limits, b: Band, from: nat)
    requires from <= |w|
    decreases |w| - from
    ensures |IndicesFrom(w, lim, b, from)| == CountFrom(w, lim, b, from)
  {
    if from < |w| {
      CountIsLength(w, lim, b, from + 1);
    }
  }

  /** Each in-range column is counted in exactly one band. */
  lemma {:induction false} CountsCoverTail(w: seq<real>, lim: Limits, from: nat)
    requires lim.Valid() && from <= |w|
    requires forall i :: 0 <= i < |w| ==> lim.rangeMin <= w[i] <= lim.rangeMax
    decreases |w| - from
    ensures CountFrom(w, lim, UV, from) + CountFrom(w, lim, Visible, from) + CountFrom(w, lim, IR, from)
            == |w| - from
  {
    if from < |w| {
      CountsCoverTail(w, lim, from + 1);
      OneBandFor(lim, w[from]);
    }
  }

  /** A wavelength inside the mapped range is in exactly one band. */
  lemma OneBandFor(lim: Limits, x: real)
    requires lim.Valid() && lim.rangeMin <= x <= lim.rangeMax
    ensures (if InBand(lim, UV, x) then 1 else 0) + (if InBand(lim, Visible, x) then 1 else 0)
            + (if InBand(lim, IR, x) then 1 else 0) == 1
  {
  }

  /** A band's slice of a capture: its wavelengths and intensities. */
  datatype BandSpectrum = BandSpectrum(wavelengths: seq<real>, intensities: seq<real>)

  /** `wavelengths[idx]` and `intensity[idx]` for the band's index list idx. */
  function SliceBand(w: seq<real>, intensity: seq<real>, lim: Limits, b: Band): (s: BandSpectrum)
    requires |w| == |intensity|
    ensures |s.wavelengths| == |s.intensities| == |Indices(w, lim, b)|
    ensures forall k :: 0 <= k < |s.wavelengths| ==>
              var i := Indices(w, lim, b)[k]; s.wavelengths[k] == w[i] && s.intensities[k] == intensity[i]
    ensures forall k :: 0 <= k < |s.wavelengths| ==> InBand(lim, b, s.wavelengths[k])
    ensures Sorted(w) ==> Sorted(s.wavelengths)
  {
    var idx := Indices(w, lim, b);
    var s := BandSpectrum(seq(|idx|, k requires 0 <= k < |idx| => w[idx[k]]),
                          seq(|idx|, k requires 0 <= k < |idx| => intensity[idx[k]]));
    assert Sorted(w) ==> forall k, l :: 0 <= k <= l < |idx| ==> idx[k] <= idx[l];
    s
  }

  /** s holds, in list order, the wavelength and the intensity at each index of
      band b's list. */
  predicate IsBandSlice(w: seq<real>, intensity: seq<real>, lim: Limits, b: Band, s: BandSpectrum)
    requires |w| == |intensity|
  {
    var idx := Indices(w, lim, b);
    && |s.wavelengths| == |idx| && |s.intensities| == |idx|
    && forall k :: 0 <= k < |idx| ==> s.wavelengths[k] == w[idx[k]] && s.intensities[k] == intensity[idx[k]]
  }

  /** The band's slice is the only spectrum that pairs the band's indices in
      order, so a capture's band is determined by the band's index list. */
  lemma BandSliceUnique(w: seq<real>, intensity: seq<real>, lim: Limits, b: Band, s: BandSpectrum)
    requires |w| == |intensity|
    ensures IsBandSlice(w, intensity, lim, b, s) <==> s == SliceBand(w, intensity, lim, b)
  {
    var t := SliceBand(w, intensity, lim, b);
    if IsBandSlice(w, intensity, lim, b, s) {
      assert s.wavelengths == t.wavelengths;
      assert s.intensities == t.intensities;
    }
  }

  /** Every in-band sample (w[i], intensity[i]) appears, as a pair, in the band's
      slice: slicing loses nothing and never separates a wavelength from its
      intensity. */
  lemma SliceKeepsInBandSamples(w: seq<real>, intensity: seq<real>, lim: Limits, b: Band, i: nat)
    requires |w| == |intensity| && i < |w| && InBand(lim, b, w[i])
    ensures exists k :: 0 <= k < |SliceBand(w, intensity, lim, b).wavelengths|
              && SliceBand(w, intensity, lim, b).wavelengths[k] == w[i]
              && SliceBand(w, intensity, lim, b).intensities[k] == intensity[i]
  {
    var idx := Indices(w, lim, b);
    var k :| 0 <= k < |idx| && idx[k] == i;
    var s := SliceBand(w, intensity, lim, b);
    assert s.wavelengths[k] == w[i] && s.intensities[k] == intensity[i];
  }
}
