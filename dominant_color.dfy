/** The pixel samples `recognize_dominant_color` hands to k-means: the image
    cut to the target's box with NumPy slicing, then reshaped to one pixel
    per row, rows of the crop one after another. */
module DominantColor {
  import opened Outcomes
  import Python

  /** `targ_coords`: corner (x, y), width and height of the target. */
  datatype Box = Box(x: int, y: int, w: int, h: int)

  function Width<T>(img: seq<seq<T>>): nat {
    if img == [] then 0 else |img[0]|
  }

  /** A decoded image is an array: every row has the same length. */
  predicate Rectangular<T>(img: seq<seq<T>>) {
    forall i :: 0 <= i < |img| ==> |img[i]| == Width(img)
  }

  /** `reshape(-1, 3)` on a two-dimensional grid of pixels: the rows in order. */
  function Flatten<T>(rows: seq<seq<T>>): seq<T> {
    if rows == [] then [] else Flatten(rows[..|rows| - 1]) + rows[|rows| - 1]
  }

  /** Where `reshape` puts cell (i, j) of a grid w cells wide. */
  function Pos(i: int, j: int, w: int): int {
    i * w + j
  }

  predicate Uniform<T>(rows: seq<seq<T>>, w: nat) {
    forall i :: 0 <= i < |rows| ==> |rows[i]| == w
  }

  lemma {:induction false} FlattenLength<T>(rows: seq<seq<T>>, w: nat)
    requires Uniform(rows, w)
    ensures |Flatten(rows)| == |rows| * w
  {
    if rows != [] {
      FlattenLength(rows[..|rows| - 1], w);
      assert |rows| * w == (|rows| - 1) * w + w;
    }
  }

  /** Flattening rows of a common width w puts cell (i, j) at i * w + j. */
  lemma {:induction false} FlattenAt<T>(rows: seq<seq<T>>, w: nat, i: nat, j: nat)
    requires Uniform(rows, w) && i < |rows| && j < w
    ensures Pos(i, j, w) < |Flatten(rows)| && Flatten(rows)[Pos(i, j, w)] == rows[i][j]
  {
    var n := |rows|;
    var init := rows[..n - 1];
    FlattenLength(rows, w);
    FlattenLength(init, w);
    if i < n - 1 {
      FlattenAt(init, w, i, j);
    } else {
      assert Pos(i, j, w) == |Flatten(init)| + j;
    }
  }

  lemma FlattenUniform<T>(rows: seq<seq<T>>, w: nat)
    requires Uniform(rows, w)
    ensures |Flatten(rows)| == |rows| * w
    ensures forall i, j :: 0 <= i < |rows| && 0 <= j < w ==>
      Pos(i, j, w) < |Flatten(rows)| && Flatten(rows)[Pos(i, j, w)] == rows[i][j]
  {
    FlattenLength(rows, w);
    forall i, j | 0 <= i < |rows| && 0 <= j < w
      ensures Pos(i, j, w) < |Flatten(rows)| && Flatten(rows)[Pos(i, j, w)] == rows[i][j]
    {
      FlattenAt(rows, w, i, j);
    }
  }

  /** The rows and columns `image[y:y+h, x:x+w]` selects. */
  function RowSpan<T>(img: seq<seq<T>>, b: Box): Python.Span {
    Python.Slice(b.y, b.y + b.h, |img|)
  }

  function ColSpan<T>(img: seq<seq<T>>, b: Box): Python.Span {
    Python.Slice(b.x, b.x + b.w, Width(img))
  }

  /** The crop as a grid: row i is the selected part of row rows.lo + i. */
  function Cut<T>(img: seq<seq<T>>, b: Box): (cut: seq<seq<T>>)
    requires Rectangular(img)
    ensures |cut| == RowSpan(img, b).Length()
    ensures forall i :: 0 <= i < |cut| ==> |cut[i]| == ColSpan(img, b).Length()
  {
    var rows, cols := RowSpan(img, b), ColSpan(img, b);
    seq(rows.Length(), i requires 0 <= i < rows.Length() => img[rows.lo + i][cols.lo..cols.hi])
  }

  /** `image[y:y+h, x:x+w].reshape(-1, 3)`, the colour conversion left aside:
      every selected pixel once, row by row. */
  function CropPixels<T>(img: seq<seq<T>>, b: Box): seq<T>
    requires Rectangular(img)
  {
    Flatten(Cut(img, b))
  }

  /** Why `recognize_dominant_color` raises before k-means returns: `cv2.cvtColor`
      refuses an empty image, and `KMeans(n_clusters=2)` refuses fewer than
      two samples. */
  datatype SampleError = EmptyBox | TooFewSamples

  /** The samples handed to `kmeans.fit`, or the exception raised first. */
  function Samples<T>(img: seq<seq<T>>, b: Box): (r: Result<seq<T>, SampleError>)
    requires Rectangular(img)
    ensures r == Failure(EmptyBox) <==> RowSpan(img, b).Length() == 0 || ColSpan(img, b).Length() == 0
    ensures r.Success? <==> RowSpan(img, b).Length() * ColSpan(img, b).Length() >= 2
    ensures r.Success? ==> r.value == CropPixels(img, b)
  {
    var rows, cols := RowSpan(img, b), ColSpan(img, b);
    if rows.Length() == 0 || cols.Length() == 0 then Failure(EmptyBox)
    else
      CropPixelsLength(img, b);
      var pixels := CropPixels(img, b);
      if |pixels| < 2 then Failure(TooFewSamples) else Success(pixels)
  }

  /** A single-pixel box passes the colour conversion but not k-means. */
  lemma SinglePixelBoxRaises<T>(img: seq<seq<T>>, b: Box)
    requires Rectangular(img)
    requires 0 <= b.x < Width(img) && b.w == 1 && 0 <= b.y < |img| && b.h == 1
    ensures Samples(img, b) == Failure(TooFewSamples)
  {
    SpansInside(img, b);
  }

  /** Cell (i, j) of the cut is pixel (cols.lo + j, rows.lo + i) of the image. */
  lemma CutAt<T>(img: seq<seq<T>>, b: Box, i: nat, j: nat)
    requires Rectangular(img)
    requires i < RowSpan(img, b).Length() && j < ColSpan(img, b).Length()
    ensures Cut(img, b)[i][j] == img[RowSpan(img, b).lo + i][ColSpan(img, b).lo + j]
  {
    var rows, cols := RowSpan(img, b), ColSpan(img, b);
    assert |img[rows.lo + i]| == Width(img);
  }

  lemma CropPixelsLength<T>(img: seq<seq<T>>, b: Box)
    requires Rectangular(img)
    ensures |CropPixels(img, b)| == RowSpan(img, b).Length() * ColSpan(img, b).Length()
  {
    var cut := Cut(img, b);
    assert Uniform(cut, ColSpan(img, b).Length());
    FlattenLength(cut, ColSpan(img, b).Length());
  }

  lemma CropPixelAt<T>(img: seq<seq<T>>, b: Box, i: nat, j: nat)
    requires Rectangular(img)
    requires i < RowSpan(img, b).Length() && j < ColSpan(img, b).Length()
    ensures var rows, cols := RowSpan(img, b), ColSpan(img, b);
      Pos(i, j, cols.Length()) < |CropPixels(img, b)|
      && CropPixels(img, b)[Pos(i, j, cols.Length())] == img[rows.lo + i][cols.lo + j]
  {
    var cut := Cut(img, b);
    var w: nat := ColSpan(img, b).Length();
    assert Uniform(cut, w);
    FlattenAt(cut, w, i, j);
    CutAt(img, b, i, j);
  }

  /** The samples are the selected pixels: pixel (cols.lo + j, rows.lo + i)
      of the image at position i * cols.Length() + j. */
  lemma CropPixelsAreSelected<T>(img: seq<seq<T>>, b: Box)
    requires Rectangular(img)
    ensures var rows, cols := RowSpan(img, b), ColSpan(img, b);
      |CropPixels(img, b)| == rows.Length() * cols.Length()
      && forall i, j :: 0 <= i < rows.Length() && 0 <= j < cols.Length() ==>
           Pos(i, j, cols.Length()) < |CropPixels(img, b)|
           && CropPixels(img, b)[Pos(i, j, cols.Length())] == img[rows.lo + i][cols.lo + j]
  {
    CropPixelsLength(img, b);
    var rows, cols := RowSpan(img, b), ColSpan(img, b);
    forall i, j | 0 <= i < rows.Length() && 0 <= j < cols.Length()
      ensures Pos(i, j, cols.Length()) < |CropPixels(img, b)|
        && CropPixels(img, b)[Pos(i, j, cols.Length())] == img[rows.lo + i][cols.lo + j]
    {
      CropPixelAt(img, b, i, j);
    }
  }

  /** A box inside the image yields w * h samples, pixel (x + j, y + i) at
      position i * w + j. */
  lemma CropInsideImage<T>(img: seq<seq<T>>, b: Box)
    requires Rectangular(img)
    requires 0 <= b.x && 0 <= b.w && b.x + b.w <= Width(img)
    requires 0 <= b.y && 0 <= b.h && b.y + b.h <= |img|
    ensures |CropPixels(img, b)| == b.h * b.w
    ensures forall i, j :: 0 <= i < b.h && 0 <= j < b.w ==>
      Pos(i, j, b.w) < |CropPixels(img, b)| && CropPixels(img, b)[Pos(i, j, b.w)] == img[b.y + i][b.x + j]
  {
    SpansInside(img, b);
    CropPixelsLength(img, b);
    forall i, j | 0 <= i < b.h && 0 <= j < b.w
      ensures Pos(i, j, b.w) < |CropPixels(img, b)| && CropPixels(img, b)[Pos(i, j, b.w)] == img[b.y + i][b.x + j]
    {
      CropPixelAt(img, b, i, j);
    }
  }

  /** A box inside the image selects exactly its own rows and columns. */
  lemma SpansInside<T>(img: seq<seq<T>>, b: Box)
    requires 0 <= b.x && 0 <= b.w && b.x + b.w <= Width(img)
    requires 0 <= b.y && 0 <= b.h && b.y + b.h <= |img|
    ensures RowSpan(img, b) == Python.Span(b.y, b.y + b.h)
    ensures ColSpan(img, b) == Python.Span(b.x, b.x + b.w)
  {
    Python.SliceCases(b.y, b.y + b.h, |img|);
    Python.SliceCases(b.x, b.x + b.w, Width(img));
  }

  /** A box reaching past the right or bottom edge is cut at the edge. */
  lemma CropClipsAtFarEdges<T>(img: seq<seq<T>>, b: Box)
    requires Rectangular(img)
    requires 0 <= b.x <= Width(img) && Width(img) <= b.x + b.w
    requires 0 <= b.y <= |img| && |img| <= b.y + b.h
    ensures |CropPixels(img, b)| == (|img| - b.y) * (Width(img) - b.x)
  {
    Python.SliceCases(b.y, b.y + b.h, |img|);
    Python.SliceCases(b.x, b.x + b.w, Width(img));
    CropPixelsLength(img, b);
  }
}
