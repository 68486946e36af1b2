/** HSV colour masks: `create_mask` (cv2.inRange with a lower and an upper
    bound) and the combination of two masks with `|` that `detect_targets`
    uses to pick blue, yellow, orange and purple pixels. */
module Masks {

  /** One pixel of an HSV image: hue, saturation, value. OpenCV stores them
      as 8-bit values (hue 0-179, saturation and value 0-255). */
  datatype Hsv = Hsv(h: int, s: int, v: int)

  /** An image as rows of pixels. */
  type Image = seq<seq<Hsv>>

  /** A single-channel selection map: true where the mask holds 255. */
  type Mask = seq<seq<bool>>

  /** a and b have the same number of rows, and row by row the same length. */
  predicate SameShape<A, B>(a: seq<seq<A>>, b: seq<seq<B>>) {
    |a| == |b| && forall i :: 0 <= i < |a| ==> |a[i]| == |b[i]|
  }

  predicate InRange(p: Hsv, lower: Hsv, upper: Hsv) {
    lower.h <= p.h <= upper.h && lower.s <= p.s <= upper.s && lower.v <= p.v <= upper.v
  }

  /** `create_mask(image, lh, ls, lv, uh, us, uv)`, i.e. `cv2.inRange`: a pixel
      is selected exactly when every channel lies within its inclusive bounds. */
  function CreateMask(image: Image, lower: Hsv, upper: Hsv): (m: Mask)
    ensures SameShape(m, image)
    ensures forall i, j :: 0 <= i < |image| && 0 <= j < |image[i]| ==>
      (m[i][j] <==> (lower.h <= image[i][j].h <= upper.h
                     && lower.s <= image[i][j].s <= upper.s
                     && lower.v <= image[i][j].v <= upper.v))
  {
    seq(|image|, i requires 0 <= i < |image| =>
      seq(|image[i]|, j requires 0 <= j < |image[i]| => InRange(image[i][j], lower, upper)))
  }

  /** Pixel-wise `|` of two masks of one shape. */
  function Union(a: Mask, b: Mask): (m: Mask)
    requires SameShape(a, b)
    ensures SameShape(m, a)
    ensures forall i, j :: 0 <= i < |a| && 0 <= j < |a[i]| ==> (m[i][j] <==> a[i][j] || b[i][j])
  {
    seq(|a|, i requires 0 <= i < |a| =>
      seq(|a[i]|, j requires 0 <= j < |a[i]| => a[i][j] || b[i][j]))
  }

  /** The two ranges of `detect_targets`. */
  const BlueYellowOrangeLower := Hsv(10, 100, 200)
  const BlueYellowOrangeUpper := Hsv(200, 600, 450)
  const PurpleLower := Hsv(145, 50, 145)
  const PurpleUpper := Hsv(325, 455, 455)

  /** `blue_yellow_orange_mask | purple_mask`. */
  function TargetMask(image: Image): (m: Mask)
    ensures SameShape(m, image)
  {
    Union(CreateMask(image, BlueYellowOrangeLower, BlueYellowOrangeUpper),
          CreateMask(image, PurpleLower, PurpleUpper))
  }

  /** The combined mask selects a pixel iff one of the two ranges does. */
  lemma TargetMaskIsEitherRange(image: Image, i: int, j: int)
    requires 0 <= i < |image| && 0 <= j < |image[i]|
    ensures TargetMask(image)[i][j] <==>
      InRange(image[i][j], BlueYellowOrangeLower, BlueYellowOrangeUpper)
      || InRange(image[i][j], PurpleLower, PurpleUpper)
  {
    var a := CreateMask(image, BlueYellowOrangeLower, BlueYellowOrangeUpper);
    var b := CreateMask(image, PurpleLower, PurpleUpper);
    assert TargetMask(image)[i][j] == (a[i][j] || b[i][j]);
  }

  /** Every channel of p within OpenCV's 8-bit HSV ranges. */
  predicate EightBit(p: Hsv) {
    0 <= p.h <= 179 && 0 <= p.s <= 255 && 0 <= p.v <= 255
  }

  /** On 8-bit pixels no upper bound of the two ranges ever excludes anything:
      the combined mask is decided by the lower bounds alone. */
  lemma TargetMaskOnEightBitPixels(image: Image, i: int, j: int)
    requires 0 <= i < |image| && 0 <= j < |image[i]| && EightBit(image[i][j])
    ensures TargetMask(image)[i][j] <==>
      var p := image[i][j];
      (p.h >= 10 && p.s >= 100 && p.v >= 200) || (p.h >= 145 && p.s >= 50 && p.v >= 145)
  {
    TargetMaskIsEitherRange(image, i, j);
  }

  /** Bounds with lower > upper on some channel select nothing (no error). */
  lemma InvertedBoundsSelectNothing(image: Image, lower: Hsv, upper: Hsv)
    requires lower.h > upper.h || lower.s > upper.s || lower.v > upper.v
    ensures forall i, j :: 0 <= i < |image| && 0 <= j < |image[i]| ==> !CreateMask(image, lower, upper)[i][j]
  {
  }

  /** Widening the bounds never drops a selected pixel. */
  lemma WiderBoundsSelectMore(image: Image, lower: Hsv, upper: Hsv, lower': Hsv, upper': Hsv, i: int, j: int)
    requires lower'.h <= lower.h && lower'.s <= lower.s && lower'.v <= lower.v
    requires upper.h <= upper'.h && upper.s <= upper'.s && upper.v <= upper'.v
    requires 0 <= i < |image| && 0 <= j < |image[i]|
    ensures CreateMask(image, lower, upper)[i][j] ==> CreateMask(image, lower', upper')[i][j]
  {
  }
}
