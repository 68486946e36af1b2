/** `contour_intersect`: two contours are drawn, each on its own blank canvas
    of the reference image's size, with a one-pixel outline, and they
    intersect when some pixel is set on both canvases. */
module Intersection {

  /** The pixels (row, column) that `cv2.drawContours` sets for a contour's
      outline, in the contour's own coordinates; some may fall off the canvas. */
  type Outline = set<(int, int)>

  /** A canvas of flags: true where the outline was drawn. */
  type Raster = seq<seq<bool>>

  /** Draw an outline on a blank `rows` x `cols` canvas; off-canvas pixels are clipped. */
  function Rasterize(outline: Outline, rows: nat, cols: nat): (r: Raster)
    ensures |r| == rows && forall i :: 0 <= i < rows ==> |r[i]| == cols
    ensures forall i, j :: 0 <= i < rows && 0 <= j < cols ==> (r[i][j] <==> (i, j) in outline)
  {
    seq(rows, i => seq(cols, j => (i, j) in outline))
  }

  /** `np.logical_and` of two canvases of one size. */
  function LogicalAnd(a: Raster, b: Raster): (r: Raster)
    requires |a| == |b| && forall i :: 0 <= i < |a| ==> |a[i]| == |b[i]|
    ensures |r| == |a| && forall i :: 0 <= i < |a| ==> |r[i]| == |a[i]|
    ensures forall i, j :: 0 <= i < |a| && 0 <= j < |a[i]| ==> (r[i][j] <==> a[i][j] && b[i][j])
  {
    seq(|a|, i requires 0 <= i < |a| => seq(|a[i]|, j requires 0 <= j < |a[i]| => a[i][j] && b[i][j]))
  }

  /** Whether some flag of one row is set. */
  function AnyInRow(row: seq<bool>): (b: bool)
    ensures b <==> exists j :: 0 <= j < |row| && row[j]
  {
    if row == [] then false else AnyInRow(row[..|row| - 1]) || row[|row| - 1]
  }

  /** `.any()` on a canvas: whether some flag is set. */
  function Any(r: Raster): (b: bool)
    ensures b <==> exists i, j :: 0 <= i < |r| && 0 <= j < |r[i]| && r[i][j]
  {
    if r == [] then false
    else
      var rest := r[..|r| - 1];
      var last := r[|r| - 1];
      assert forall i, j :: 0 <= i < |rest| && 0 <= j < |rest[i]| ==> rest[i][j] == r[i][j];
      Any(rest) || AnyInRow(last)
  }

  /** A pixel of the canvas that both outlines set. */
  predicate SharedPixel(a: Outline, b: Outline, rows: nat, cols: nat, i: int, j: int) {
    0 <= i < rows && 0 <= j < cols && (i, j) in a && (i, j) in b
  }

  /** `contour_intersect` on a canvas of `rows` x `cols`: true iff some pixel of
      the canvas lies on both outlines. Only outlines count, so two contours one
      of which lies strictly inside the other do not intersect. */
  function ContourIntersect(rows: nat, cols: nat, a: Outline, b: Outline): (hit: bool)
    ensures hit <==> exists i, j :: SharedPixel(a, b, rows, cols, i, j)
  {
    var image1 := Rasterize(a, rows, cols);
    var image2 := Rasterize(b, rows, cols);
    var both := LogicalAnd(image1, image2);
    assert forall i, j :: 0 <= i < rows && 0 <= j < cols ==> (both[i][j] <==> SharedPixel(a, b, rows, cols, i, j));
    Any(both)
  }

  /** The test does not depend on the order of the two contours. */
  lemma ContourIntersectSymmetric(rows: nat, cols: nat, a: Outline, b: Outline)
    ensures ContourIntersect(rows, cols, a, b) == ContourIntersect(rows, cols, b, a)
  {
    if ContourIntersect(rows, cols, a, b) {
      var i, j :| SharedPixel(a, b, rows, cols, i, j);
      assert SharedPixel(b, a, rows, cols, i, j);
    }
  }

  /** A contour meets itself exactly when some of its outline lies on the canvas. */
  lemma ContourIntersectSelf(rows: nat, cols: nat, a: Outline)
    ensures ContourIntersect(rows, cols, a, a) <==> exists i, j :: 0 <= i < rows && 0 <= j < cols && (i, j) in a
  {
    if exists i, j :: 0 <= i < rows && 0 <= j < cols && (i, j) in a {
      var i, j :| 0 <= i < rows && 0 <= j < cols && (i, j) in a;
      assert SharedPixel(a, a, rows, cols, i, j);
    }
  }
}
