/** `detect_targets`: the loop that routes each contour of the colour mask
    either through a zoomed crop (small contours) or directly, pairs contours
    by outline intersection, collects convex hulls and reports their shapes.

    The image routines it calls (contour finding, area, bounding rectangle,
    outline drawing, convex hull, moments, polygon approximation) are supplied
    as the functions of a `Geometry` value; contours are opaque values of a
    type parameter C. The variables the source rebinds inside its loops
    (`contours`, `cnt`, `cropped_image`, `hull`) are kept as explicit state. */
module Detection {
  import opened Outcomes
  import Python
  import Masks
  import Intersection
  import Shapes

  /** Open area band selecting the crop path. */
  const MinContourArea: real := 15.0
  const MaxContourArea: real := 100.0
  /** Open area band a contour found inside a crop must fall in to yield hulls. */
  const MinRectContourArea: real := 100.0
  const MaxRectContourArea: real := 1000.0
  /** The crop starts this far above and left of the bounding rectangle ... */
  const CropShift := 20
  /** ... and is this much taller and wider than it. */
  const CropGrowth := 45

  /** `cv2.boundingRect`: corner (x, y), width and height. */
  datatype Rect = Rect(x: int, y: int, w: int, h: int)

  /** `cropped_image = color_image[y:y+h+45, x:x+w+45]`: the shifted corner
      (x, y), which is also the offset handed to `find_shape`, and the rows and
      columns that Python's slice resolution actually selects. */
  datatype Crop = Crop(x: int, y: int, rows: Python.Span, cols: Python.Span) {
    /** A crop with no pixel; `cv2.cvtColor` raises on it. */
    predicate Empty() {
      rows.Length() <= 0 || cols.Length() <= 0
    }
  }

  /** The size of the reference image given to `contour_intersect`. */
  datatype Canvas = Canvas(rows: nat, cols: nat)

  function CanvasOf(c: Crop): Canvas {
    Canvas(if c.rows.Length() < 0 then 0 else c.rows.Length(),
           if c.cols.Length() < 0 then 0 else c.cols.Length())
  }

  /** The image routines `detect_targets` calls.
      `findContours(image, mask)` stands for masking the image with
      `cv2.bitwise_and`, grey conversion and `cv2.findContours`;
      `findInCrop(k, crop)` stands for grey conversion, Otsu thresholding and
      `cv2.findContours` on the crop taken for the k-th contour; it depends on
      k because the crop shows what earlier iterations drew. */
  datatype Geometry<!C> = Geometry(
    findContours: (Masks.Image, Masks.Mask) -> seq<C>,
    findInCrop: (nat, Crop) -> seq<C>,
    area: C -> real,
    boundingRect: C -> Rect,
    outline: C -> Intersection.Outline,
    convexHull: C -> C,
    moments: C -> Shapes.Moments,
    vertices: C -> nat)

  /** The crop taken around a contour with bounding rectangle r in an image of
      `height` rows and `width` columns. Negative starts are not clipped. */
  function CropOf(r: Rect, height: nat, width: nat): (c: Crop)
    ensures 0 <= c.rows.lo <= c.rows.hi <= height && 0 <= c.cols.lo <= c.cols.hi <= width
  {
    var x := r.x - CropShift;
    var y := r.y - CropShift;
    Crop(x, y, Python.Slice(y, y + r.h + CropGrowth, height), Python.Slice(x, x + r.w + CropGrowth, width))
  }

  /** The crop's corner, the offset `find_shape` receives, is the rectangle's
      corner moved 20 up and left; when the window lies inside the image it
      spans rows y - 20 .. y + h + 25 and columns x - 20 .. x + w + 25. */
  lemma CropWindow(r: Rect, height: nat, width: nat)
    ensures var c := CropOf(r, height, width);
      && c.x == r.x - 20 && c.y == r.y - 20
      && (20 <= r.y && 0 <= r.h && r.y + r.h + 25 <= height ==> c.rows == Python.Span(r.y - 20, r.y + r.h + 25))
      && (20 <= r.x && 0 <= r.w && r.x + r.w + 25 <= width ==> c.cols == Python.Span(r.x - 20, r.x + r.w + 25))
  {
    Python.SliceCases(r.y - 20, r.y + r.h + 25, height);
    Python.SliceCases(r.x - 20, r.x + r.w + 25, width);
  }

  /** A rectangle within 20 rows of the top of an image taller than h + 45 gets
      an empty crop: the negative start counts from the bottom of the image. */
  lemma CropNearTopEdgeIsEmpty(r: Rect, height: nat, width: nat)
    requires 0 <= r.y < 20 && 0 <= r.h && r.h + 45 <= height
    ensures CropOf(r, height, width).Empty()
  {
    Python.SliceCases(r.y - 20, r.y + r.h + 25, height);
  }

  /** Which branch of the loop a contour takes. */
  datatype Route = Cropped(crop: Crop) | Direct | Ignored

  function RouteOf<C>(g: Geometry<C>, height: nat, width: nat, c: C): (r: Route)
    ensures r.Cropped? <==> 15.0 < g.area(c) < 100.0
    ensures r.Direct? <==> 100.0 <= g.area(c)
    ensures r.Ignored? <==> g.area(c) <= 15.0
    ensures r.Cropped? ==> r.crop == CropOf(g.boundingRect(c), height, width)
  {
    var a := g.area(c);
    if MinContourArea < a < MaxContourArea then Cropped(CropOf(g.boundingRect(c), height, width))
    else if a > MinContourArea then Direct
    else Ignored
  }

  type Report = Shapes.ShapeDict

  /** `contour_intersect(image, a, b)` for a reference image of the given
      size, as the intersection test the pairing loops run. The loop
      functions below take the test as a parameter `meets`. */
  function MeetsOn<C>(g: Geometry<C>, canvas: Canvas): (C, C) -> bool {
    (a: C, b: C) => Intersection.ContourIntersect(canvas.rows, canvas.cols, g.outline(a), g.outline(b))
  }

  /** The intersection test for each canvas. The outer loop takes it as a
      parameter `meetsOn`, which `Detect` and the methods fix to this one. */
  function IntersectionTests<C>(g: Geometry<C>): Canvas -> (C, C) -> bool {
    (canvas: Canvas) => MeetsOn(g, canvas)
  }

  /** What `for cnt in hull: find_shape(cnt, ox, oy)` prints, in order. */
  function Reports<C>(g: Geometry<C>, hulls: seq<C>, ox: int, oy: int): seq<Report> {
    if hulls == [] then []
    else
      var last := hulls[|hulls| - 1];
      var shape := Shapes.FindShape(g.moments(last), g.vertices(last), ox, oy);
      Reports(g, hulls[..|hulls| - 1], ox, oy) + (if shape.Some? then [shape.value] else [])
  }

  /** What is printed while the hull list grows from its first `from` entries
      to `hulls`, one append at a time: after each append, every hull of the
      list is reported again. */
  function Printed<C>(g: Geometry<C>, ox: int, oy: int, hulls: seq<C>, from: nat): seq<Report>
    requires from <= |hulls|
    decreases |hulls|
  {
    if |hulls| == from then []
    else Printed(g, ox, oy, hulls[..|hulls| - 1], from) + Reports(g, hulls, ox, oy)
  }

  /** State of the pairwise loop: the contour currently bound to `cnt` and the
      `hull` list. */
  datatype Pairing<C> = Pairing(tested: C, hulls: seq<C>)

  /** One turn of `for i in range(len(contours))`: unless the tested contour
      meets `contours[i]`, append its hull; the inner `for cnt in hull` then
      leaves `cnt` bound to the hull just appended. */
  function PairStep<C>(g: Geometry<C>, meets: (C, C) -> bool, s: Pairing<C>, partner: C): Pairing<C> {
    if meets(s.tested, partner) then s
    else
      var h := g.convexHull(s.tested);
      Pairing(h, s.hulls + [h])
  }

  /** The whole pairwise loop over `partners`. */
  function PairLoop<C>(g: Geometry<C>, meets: (C, C) -> bool, s0: Pairing<C>, partners: seq<C>): Pairing<C> {
    if partners == [] then s0
    else PairStep(g, meets, PairLoop(g, meets, s0, partners[..|partners| - 1]), partners[|partners| - 1])
  }

  predicate InRectBand(a: real) {
    MinRectContourArea < a < MaxRectContourArea
  }

  /** The hull list after the first n turns of `for cnt in contours` inside a
      crop: each contour in the (100, 1000) band runs the pairwise loop against
      all of `contours`, adding to one shared `hull` list. */
  function CropLoop<C>(g: Geometry<C>, meets: (C, C) -> bool, contours: seq<C>, n: nat): seq<C>
    requires n <= |contours|
  {
    if n == 0 then []
    else
      var hulls := CropLoop(g, meets, contours, n - 1);
      var cnt := contours[n - 1];
      if InRectBand(g.area(cnt)) then PairLoop(g, meets, Pairing(cnt, hulls), contours).hulls
      else hulls
  }

  /** What one contour of the outer loop produced: its route and the hull list drawn for it. */
  datatype Step<C> = Step(route: Route, hulls: seq<C>)

  /** What `find_shape` printed for one step: every report of every append,
      at the crop's shifted corner or, on the direct path, at (0, 0). */
  function StepLog<C>(g: Geometry<C>, st: Step<C>): seq<Report> {
    match st.route
    case Cropped(crop) => Printed(g, crop.x, crop.y, st.hulls, 0)
    case Direct => Printed(g, 0, 0, st.hulls, 0)
    case Ignored => []
  }

  /** Everything printed over the given steps, in order. */
  function Log<C>(g: Geometry<C>, steps: seq<Step<C>>): seq<Report> {
    if steps == [] then []
    else Log(g, steps[..|steps| - 1]) + StepLog(g, steps[|steps| - 1])
  }

  /** State of the outer loop: the list now bound to `contours`, the crop now
      bound to `cropped_image` (None before the first crop) and the steps so far. */
  datatype Scan<C> = Scan(contours: seq<C>, cropped: Option<Crop>, steps: seq<Step<C>>)

  /** The exceptions the loop can raise: `cropped_image` read before any crop
      assigned it (UnboundLocalError), a crop with no pixel (cv2.error), and a
      write-back whose target the crop does not broadcast to (ValueError). */
  datatype DetectError = UnboundCrop | EmptyCrop | ShapeMismatch

  /** NumPy assigns an array along a dimension of length `src` to a target
      of length `dst` when the two agree or the source has length 1. */
  predicate Broadcasts(src: int, dst: int) {
    src == dst || src == 1
  }

  /** `color_image[y:y+cropped_image.shape[0], x:x+cropped_image.shape[1]] =
      cropped_image` succeeds: the target the slice selects, from the same
      unclipped corner, has a shape the crop broadcasts to. */
  predicate WriteBackFits(c: Crop, height: nat, width: nat) {
    var rows := Python.Slice(c.y, c.y + c.rows.Length(), height);
    var cols := Python.Slice(c.x, c.x + c.cols.Length(), width);
    Broadcasts(c.rows.Length(), rows.Length()) && Broadcasts(c.cols.Length(), cols.Length())
  }

  /** A crop whose corner lies inside the image is written back in place. */
  lemma WriteBackFitsFromInside(r: Rect, height: nat, width: nat)
    requires 20 <= r.x && 20 <= r.y
    requires !CropOf(r, height, width).Empty()
    ensures WriteBackFits(CropOf(r, height, width), height, width)
  {
    var c := CropOf(r, height, width);
    Python.SliceCases(r.y - 20, r.y + r.h + 25, height);
    Python.SliceCases(r.x - 20, r.x + r.w + 25, width);
    Python.SliceCases(c.y, c.y + c.rows.Length(), height);
    Python.SliceCases(c.x, c.x + c.cols.Length(), width);
  }

  /** Near the top of a short image the negative start selects a non-empty
      crop from the bottom rows, but the write-back target is empty. */
  lemma WriteBackNearTopOfShortImageFails()
    ensures var c := CropOf(Rect(40, 15, 10, 5), 30, 100);
      !c.Empty() && !WriteBackFits(c, 30, 100)
  {
    var c := CropOf(Rect(40, 15, 10, 5), 30, 100);
    assert c.rows == Python.Span(25, 30);
    assert c.cols == Python.Span(20, 75);
  }

  /** A band taken from the bottom rows that ends inside the image is written
      back to those same rows: the negative start selects them again. */
  lemma WriteBackOfBandInsideImageFits()
    ensures var c := CropOf(Rect(40, 10, 10, 10), 50, 100);
      !c.Empty() && c.y < 0 && c.rows == Python.Span(40, 45) && WriteBackFits(c, 50, 100)
  {
    var c := CropOf(Rect(40, 10, 10, 10), 50, 100);
    assert c.rows == Python.Span(40, 45);
    assert c.cols == Python.Span(20, 75);
  }

  /** One turn of the outer loop, for the k-th contour `cnt`. */
  function ScanStep<C>(g: Geometry<C>, meetsOn: Canvas -> (C, C) -> bool, height: nat, width: nat, k: nat, s: Scan<C>, cnt: C): Result<Scan<C>, DetectError> {
    var route := RouteOf(g, height, width, cnt);
    match route
    case Cropped(crop) =>
      if crop.Empty() then Failure(EmptyCrop)
      else
        var inner := g.findInCrop(k, crop);
        var hulls := CropLoop(g, meetsOn(CanvasOf(crop)), inner, |inner|);
        if !WriteBackFits(crop, height, width) then Failure(ShapeMismatch)
        else Success(Scan(inner, Some(crop), s.steps + [Step(route, hulls)]))
    case Direct =>
      if s.contours != [] && s.cropped.None? then Failure(UnboundCrop)
      else
        var canvas := if s.cropped.Some? then CanvasOf(s.cropped.value) else Canvas(0, 0);
        var hulls := PairLoop(g, meetsOn(canvas), Pairing(cnt, []), s.contours).hulls;
        Success(Scan(s.contours, s.cropped, s.steps + [Step(route, hulls)]))
    case Ignored =>
      Success(Scan(s.contours, s.cropped, s.steps + [Step(route, [])]))
  }

  /** One turn of the outer loop as a function of the index, the state and
      the contour: `ScanStep` for the given image size. */
  function StepOf<C>(g: Geometry<C>, meetsOn: Canvas -> (C, C) -> bool, height: nat, width: nat): (nat, Scan<C>, C) -> Result<Scan<C>, DetectError> {
    (k: nat, s: Scan<C>, cnt: C) => ScanStep(g, meetsOn, height, width, k, s, cnt)
  }

  /** The first n turns of the outer loop over `outer`, each taken by `step`;
      the first exception ends the loop. */
  function ScanLoop<C>(step: (nat, Scan<C>, C) -> Result<Scan<C>, DetectError>, outer: seq<C>, n: nat): Result<Scan<C>, DetectError>
    requires n <= |outer|
  {
    if n == 0 then Success(Scan(outer, None, []))
    else
      match ScanLoop(step, outer, n - 1)
      case Failure(e) => Failure(e)
      case Success(s) => step(n - 1, s, outer[n - 1])
  }

  function Height(image: Masks.Image): nat {
    |image|
  }

  function Width(image: Masks.Image): nat {
    if image == [] then 0 else |image[0]|
  }

  /** `detect_targets` on an HSV image. */
  function Detect<C>(g: Geometry<C>, image: Masks.Image): Result<Scan<C>, DetectError> {
    var outer := g.findContours(image, Masks.TargetMask(image));
    ScanLoop(StepOf(g, IntersectionTests(g), Height(image), Width(image)), outer, |outer|)
  }

  // ---------------------------------------------------------------------
  // The loops of detect_targets

  /** `for cnt in hull: find_shape(cnt, ox, oy)`: the dictionaries printed. */
  method ReportHulls<C>(g: Geometry<C>, hull: seq<C>, ox: int, oy: int) returns (printed: seq<Report>)
    ensures printed == Reports(g, hull, ox, oy)
  {
    printed := [];
    for j := 0 to |hull|
      invariant printed == Reports(g, hull[..j], ox, oy)
    {
      var shape := Shapes.FindShape(g.moments(hull[j]), g.vertices(hull[j]), ox, oy);
      if shape.Some? {
        printed := printed + [shape.value];
      }
      assert hull[..j + 1][..j] == hull[..j];
    }
    assert hull[..|hull|] == hull;
  }

  /** `for i in range(len(contours))` with `cnt` starting at cnt0 and the
      `hull` list at hull0; also returns what it printed. */
  method PairwiseHulls<C>(g: Geometry<C>, canvas: Canvas, ox: int, oy: int, cnt0: C, hull0: seq<C>, contours: seq<C>)
    returns (cnt: C, hull: seq<C>, printed: seq<Report>)
    ensures Pairing(cnt, hull) == PairLoop(g, MeetsOn(g, canvas), Pairing(cnt0, hull0), contours)
    ensures |hull0| <= |hull| && printed == Printed(g, ox, oy, hull, |hull0|)
  {
    cnt, hull, printed := cnt0, hull0, [];
    for i := 0 to |contours|
      invariant Pairing(cnt, hull) == PairLoop(g, MeetsOn(g, canvas), Pairing(cnt0, hull0), contours[..i])
      invariant |hull0| <= |hull| && printed == Printed(g, ox, oy, hull, |hull0|)
    {
      if !Intersection.ContourIntersect(canvas.rows, canvas.cols, g.outline(cnt), g.outline(contours[i])) {
        hull := hull + [g.convexHull(cnt)];
        var shapes := ReportHulls(g, hull, ox, oy);
        printed := printed + shapes;
        cnt := hull[|hull| - 1];
      }
      assert contours[..i + 1][..i] == contours[..i];
    }
    assert contours[..|contours|] == contours;
  }

  /** Printing is determined by the final hull list: what was printed up to
      `mid` entries followed by what was printed after is all that was printed. */
  lemma {:induction false} PrintedSplit<C>(g: Geometry<C>, ox: int, oy: int, hulls: seq<C>, from: nat, mid: nat)
    requires from <= mid <= |hulls|
    ensures Printed(g, ox, oy, hulls[..mid], from) + Printed(g, ox, oy, hulls, mid) == Printed(g, ox, oy, hulls, from)
    decreases |hulls|
  {
    if |hulls| == mid {
      assert hulls[..mid] == hulls;
    } else {
      var init := hulls[..|hulls| - 1];
      PrintedSplit(g, ox, oy, init, from, mid);
      assert init[..mid] == hulls[..mid];
    }
  }

  /** The hull collection inside one crop, with what it printed. */
  method CropHulls<C>(g: Geometry<C>, canvas: Canvas, ox: int, oy: int, contours: seq<C>) returns (hull: seq<C>, printed: seq<Report>)
    ensures hull == CropLoop(g, MeetsOn(g, canvas), contours, |contours|)
    ensures printed == Printed(g, ox, oy, hull, 0)
  {
    hull, printed := [], [];
    for n := 0 to |contours|
      invariant hull == CropLoop(g, MeetsOn(g, canvas), contours, n)
      invariant printed == Printed(g, ox, oy, hull, 0)
    {
      var cnt := contours[n];
      if MinRectContourArea < g.area(cnt) < MaxRectContourArea {
        var before := hull;
        var shapes;
        cnt, hull, shapes := PairwiseHulls(g, canvas, ox, oy, cnt, hull, contours);
        PairLoopKeepsPrefix(g, MeetsOn(g, canvas), Pairing(contours[n], before), contours);
        PrintedSplit(g, ox, oy, hull, 0, |before|);
        printed := printed + shapes;
      }
    }
  }

  /** The pairwise loop keeps the hulls it started with. */
  lemma {:induction false} PairLoopKeepsPrefix<C>(g: Geometry<C>, meets: (C, C) -> bool, s0: Pairing<C>, partners: seq<C>)
    ensures var p := PairLoop(g, meets, s0, partners);
      |s0.hulls| <= |p.hulls| <= |s0.hulls| + |partners| && p.hulls[..|s0.hulls|] == s0.hulls
    decreases |partners|
  {
    if partners != [] {
      PairLoopKeepsPrefix(g, meets, s0, partners[..|partners| - 1]);
    }
  }

  /** Once the outer loop has raised, it stays raised. */
  lemma {:induction false} ScanLoopFailureSticks<C>(step: (nat, Scan<C>, C) -> Result<Scan<C>, DetectError>, outer: seq<C>, n: nat, m: nat)
    requires n <= m <= |outer|
    requires ScanLoop(step, outer, n).Failure?
    ensures ScanLoop(step, outer, m) == ScanLoop(step, outer, n)
    decreases m - n
  {
    if n < m {
      ScanLoopFailureSticks(step, outer, n, m - 1);
    }
  }

  /** A turn that raises ends the outer loop with its exception. */
  lemma ScanLoopStopsAt<C>(step: (nat, Scan<C>, C) -> Result<Scan<C>, DetectError>, outer: seq<C>, k: nat, e: DetectError)
    requires k < |outer| && ScanLoop(step, outer, k).Success?
    requires step(k, ScanLoop(step, outer, k).value, outer[k]) == Failure(e)
    ensures ScanLoop(step, outer, |outer|) == Failure(e)
  {
    ScanLoopFailureSticks(step, outer, k + 1, |outer|);
  }

  /** One turn of `for cnt in contours` (the outer loop) for the k-th contour,
      from state s; also returns the step it recorded and what it printed. */
  method ScanContour<C>(g: Geometry<C>, height: nat, width: nat, k: nat, s: Scan<C>, cnt: C)
    returns (r: Result<Scan<C>, DetectError>, step: Step<C>, printed: seq<Report>)
    ensures r == ScanStep(g, IntersectionTests(g), height, width, k, s, cnt)
    ensures r.Success? ==> r.value.steps == s.steps + [step] && printed == StepLog(g, step)
  {
    printed := [];
    var contours, cropped := s.contours, s.cropped;
    var area := g.area(cnt);
    if MinContourArea < area < MaxContourArea {
      var crop := CropOf(g.boundingRect(cnt), height, width);
      if crop.Empty() {
        return Failure(EmptyCrop), Step(Cropped(crop), []), [];
      }
      cropped := Some(crop);
      contours := g.findInCrop(k, crop);
      var hull;
      hull, printed := CropHulls(g, CanvasOf(crop), crop.x, crop.y, contours);
      step := Step(Cropped(crop), hull);
      if !WriteBackFits(crop, height, width) {
        return Failure(ShapeMismatch), step, [];
      }
    } else {
      var hull: seq<C> := [];
      if area > MinContourArea {
        if contours != [] && cropped.None? {
          return Failure(UnboundCrop), Step(Direct, []), [];
        }
        // the canvas is only read when `contours` is non-empty, and then a crop exists
        var canvas := if cropped.Some? then CanvasOf(cropped.value) else Canvas(0, 0);
        var last;
        last, hull, printed := PairwiseHulls(g, canvas, 0, 0, cnt, [], contours);
        step := Step(Direct, hull);
      } else {
        step := Step(Ignored, hull);
      }
    }
    r := Success(Scan(contours, cropped, s.steps + [step]));
  }

  /** The outer loop after k + 1 turns is the (k + 1)-th turn taken from its
      state after k. */
  lemma ScanLoopNext<C>(g: Geometry<C>, meetsOn: Canvas -> (C, C) -> bool, height: nat, width: nat, outer: seq<C>, k: nat, state: Scan<C>)
    requires k < |outer| && ScanLoop(StepOf(g, meetsOn, height, width), outer, k) == Success(state)
    ensures ScanLoop(StepOf(g, meetsOn, height, width), outer, k + 1) == ScanStep(g, meetsOn, height, width, k, state, outer[k])
  {
  }

  /** Appending a step appends what it printed. */
  lemma LogAppend<C>(g: Geometry<C>, steps: seq<Step<C>>, st: Step<C>)
    ensures Log(g, steps + [st]) == Log(g, steps) + StepLog(g, st)
  {
    assert (steps + [st])[..|steps|] == steps;
  }

  /** `detect_targets`, with the colour image given in HSV; also returns
      what it printed. */
  method DetectTargets<C>(g: Geometry<C>, image: Masks.Image) returns (r: Result<Scan<C>, DetectError>, printed: seq<Report>)
    ensures r == Detect(g, image)
    ensures r.Success? ==> printed == Log(g, r.value.steps)
  {
    var height, width := Height(image), Width(image);
    var masks := Masks.TargetMask(image);
    var outer := g.findContours(image, masks);
    var state := Scan(outer, None, []);
    printed := [];
    assert Detect(g, image) == ScanLoop(StepOf(g, IntersectionTests(g), height, width), outer, |outer|);
    for k := 0 to |outer|
      invariant ScanLoop(StepOf(g, IntersectionTests(g), height, width), outer, k) == Success(state)
      invariant printed == Log(g, state.steps)
    {
      var step, shapes;
      r, step, shapes := ScanContour(g, height, width, k, state, outer[k]);
      ScanLoopNext(g, IntersectionTests(g), height, width, outer, k, state);
      if r.Failure? {
        ScanLoopFailureSticks(StepOf(g, IntersectionTests(g), height, width), outer, k + 1, |outer|);
        return;
      }
      LogAppend(g, state.steps, step);
      printed := printed + shapes;
      state := r.value;
    }
    r := Success(state);
  }
}
