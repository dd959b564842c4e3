/** Intensity extraction: a greyscale frame (or a stack of per-frame profiles) is a
    matrix of rows, and `np.mean(m, axis=0)` reduces it to one mean per column. */
module Profile {
  import opened Stats

  /** Rows of samples; row r, column c is m[r][c]. */
  type Matrix = seq<seq<real>>

  /** A non-empty matrix whose rows all have the same length. */
  predicate IsMatrix(m: Matrix)
  {
    |m| > 0 && forall r :: 0 <= r < |m| ==> |m[r]| == |m[0]|
  }

  /** The number of columns. */
  function Width(m: Matrix): nat
    requires |m| > 0
  {
    |m[0]|
  }

  /** Every sample is a grey level of an 8-bit image, in [0, 255]. */
  predicate EightBit(m: Matrix)
  {
    forall r, c :: 0 <= r < |m| && 0 <= c < |m[r]| ==> 0.0 <= m[r][c] <= 255.0
  }

  /** Column j, top row first. */
  function Column(m: Matrix, j: nat): (col: seq<real>)
    requires IsMatrix(m) && j < Width(m)
    ensures |col| == |m|
    ensures forall r :: 0 <= r < |m| ==> col[r] == m[r][j]
  {
    seq(|m|, r requires 0 <= r < |m| => m[r][j])
  }

  /** `np.mean(m, axis=0)`: one value per column, the mean of that column. */
  function ColumnMeans(m: Matrix): (p: seq<real>)
    requires IsMatrix(m)
    ensures |p| == Width(m)
    ensures forall j :: 0 <= j < |p| ==> Min(Column(m, j)) <= p[j] <= Max(Column(m, j))
  {
    seq(Width(m), j requires 0 <= j < Width(m) => Mean(Column(m, j)))
  }

  /** An 8-bit frame has every column mean in [0, 255]. */
  lemma EightBitProfile(m: Matrix)
    requires IsMatrix(m)
    ensures EightBit(m) ==> forall j :: 0 <= j < Width(m) ==> 0.0 <= ColumnMeans(m)[j] <= 255.0
  {
  }

  /** A frame of one uniform grey level c has the profile c in every column,
      whatever its width. */
  lemma UniformFrameProfile(m: Matrix, c: real)
    requires IsMatrix(m)
    requires forall r, x :: 0 <= r < |m| && 0 <= x < |m[r]| ==> m[r][x] == c
    ensures forall j :: 0 <= j < Width(m) ==> ColumnMeans(m)[j] == c
  {
  }

  /** A stack whose rows are all the same profile v averages to v itself. */
  lemma MeanOfIdenticalRows(m: Matrix, v: seq<real>)
    requires IsMatrix(m)
    requires forall r :: 0 <= r < |m| ==> m[r] == v
    ensures ColumnMeans(m) == v
  {
  }

  /** A region of interest as the tuple (x1, y1, x2, y2): columns x1..x2-1 and
      rows y1..y2-1. */
  datatype Roi = Roi(x1: int, y1: int, x2: int, y2: int)

  /** The region is non-degenerate and lies inside the frame. The source slices
      with Python's clamping semantics and never checks this itself. */
  predicate FitsIn(roi: Roi, m: Matrix)
    requires IsMatrix(m)
  {
    0 <= roi.x1 < roi.x2 <= Width(m) && 0 <= roi.y1 < roi.y2 <= |m|
  }

  /** `frame[y1:y2, x1:x2]`. */
  function Crop(m: Matrix, roi: Roi): (c: Matrix)
    requires IsMatrix(m) && FitsIn(roi, m)
    ensures IsMatrix(c)
    ensures |c| == roi.y2 - roi.y1 && Width(c) == roi.x2 - roi.x1
    ensures forall r, x :: 0 <= r < |c| && 0 <= x < Width(c) ==> c[r][x] == m[roi.y1 + r][roi.x1 + x]
  {
    seq(roi.y2 - roi.y1, r requires 0 <= r < roi.y2 - roi.y1 => m[roi.y1 + r][roi.x1 .. roi.x2])
  }

  /** The profile of a region of interest: one value per region column, the mean
      of frame column x1 + j over rows y1..y2-1. */
  function RoiColumnMeans(m: Matrix, roi: Roi): (p: seq<real>)
    requires IsMatrix(m) && FitsIn(roi, m)
    ensures |p| == roi.x2 - roi.x1
    ensures forall j :: 0 <= j < |p| ==> p[j] == Mean(Column(m, roi.x1 + j)[roi.y1 .. roi.y2])
  {
    var c := Crop(m, roi);
    assert forall j :: 0 <= j < Width(c) ==> Column(c, j) == Column(m, roi.x1 + j)[roi.y1 .. roi.y2];
    ColumnMeans(c)
  }

  /** Pixel (row y, column x) lies on the outline of the rectangle with corners
      (x1, y1) and (x2, y2): both corner rows and both corner columns, corners
      included. */
  predicate OnOutline(roi: Roi, y: int, x: int)
  {
    || ((y == roi.y1 || y == roi.y2) && roi.x1 <= x <= roi.x2)
    || ((x == roi.x1 || x == roi.x2) && roi.y1 <= y <= roi.y2)
  }

  /** `cv2.rectangle` drawn into the frame in place, one pixel wide: every
      outline pixel inside the frame takes grey level `level`, and every other
      pixel keeps its value. The pixels a thicker line adds beside the outline
      are not painted. */
  function DrawOutline(m: Matrix, roi: Roi, level: real): (d: Matrix)
    requires IsMatrix(m)
    ensures IsMatrix(d) && |d| == |m| && Width(d) == Width(m)
    ensures forall r, x :: 0 <= r < |d| && 0 <= x < Width(d) && OnOutline(roi, r, x) ==> d[r][x] == level
    ensures forall r, x :: 0 <= r < |d| && 0 <= x < Width(d) && !OnOutline(roi, r, x) ==> d[r][x] == m[r][x]
  {
    seq(|m|, r requires 0 <= r < |m| =>
      seq(Width(m), x requires 0 <= x < Width(m) => if OnOutline(roi, r, x) then level else m[r][x]))
  }

  /** The region covering the whole frame gives the whole-frame profile, so the
      region and whole-frame extractors agree. */
  lemma WholeFrameRegion(m: Matrix)
    requires IsMatrix(m) && Width(m) > 0
    ensures RoiColumnMeans(m, Roi(0, 0, Width(m), |m|)) == ColumnMeans(m)
  {
    var roi := Roi(0, 0, Width(m), |m|);
    forall r | 0 <= r < |m| ensures m[r][0 .. Width(m)] == m[r] { }
    assert Crop(m, roi) == m;
  }
}
