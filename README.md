# Target detection: the decision layer, in Dafny

This project models the decision logic of a small OpenCV script. The script finds
coloured targets in an aerial photograph and names their colour. The model covers
five parts:

- the HSV masks that select candidate pixels (`create_mask` and the `|` of two masks);
- the outline-overlap test `contour_intersect`;
- the shape record `find_shape`;
- the routing loop of `detect_targets`, which does three things:
  - it sends each contour of the mask through a zoomed crop or along the direct path;
  - it pairs contours by intersection;
  - it collects convex hulls and reports their shapes;
- the palette lookup `get_color_name`, and the pixel samples that
  `recognize_dominant_color` cuts out of the image.

The image routines the script calls are inputs of the model. They are the functions of a
`Detection.Geometry` value, and contours are values of a type parameter:

- contour finding on the mask and on a crop;
- contour area and bounding rectangle;
- outline drawing and convex hull;
- moments and polygon approximation.

Everything the script decides on top of these routines is modelled:

- the area bands;
- the crop window and Python's slice rules;
- the pairwise loop with its rebinding of `cnt`;
- the rebinding of `contours`, and the `cropped_image` left over from an earlier crop;
- the exceptions the loop raises;
- the dictionaries that `find_shape` prints.

Modules, one per file:

- `Outcomes` holds `Option` and `Result`.
- `Python` holds slice resolution, `int()` on a float and `str()` on an int.
- `Masks`, `Intersection`, `Shapes`, `ColorNaming` and `DominantColor` model the pure functions.
- `Detection` holds the loop functions and the imperative methods verified against them.
- `DetectionProperties` holds what the loop guarantees.

Two behaviours of the code are easy to misread. The model follows the code.

- The crop around a small contour is not clipped to the image. A negative start counts from
  the far edge of the image, as a Python slice does. Near the top or left edge the crop can
  therefore be empty, which makes `cv2.cvtColor` raise. It can also be a band of rows or
  columns taken from the opposite edge. If that band ends inside the image, the write-back
  puts it back in the same place. If the band reaches the far edge and is more than one
  pixel deep, the write-back target is empty, and the assignment fails to broadcast.
- The direct path does not use the full image. It pairs against the contours of the last
  crop, tested on a canvas of that crop's size. When no crop has been taken yet and there is
  something to pair against, reading `cropped_image` raises `UnboundLocalError`.

## Model

| member | source | states |
|---|---|---|
| Python.Resolve | TargetDetectionAutomatic.py:164 | a slice bound, after Python resolves it, lies within the sequence |
| Python.Slice | TargetDetectionAutomatic.py:164 | the span a slice selects lies within the sequence and is never reversed |
| Python.SliceCases | TargetDetectionAutomatic.py:164 | the cases of slicing: a slice inside the sequence selects exactly its bounds; a negative start counts from the end; a stop past the end is cut at the end; a stop before the start selects nothing |
| Python.Trunc | TargetDetectionAutomatic.py:51-52 | `int()` on a float truncates toward zero: the result is within 1 of the argument, on the same side of zero |
| Python.DigitChar | TargetDetectionAutomatic.py:55 | a digit character encodes its value |
| Python.NatText | TargetDetectionAutomatic.py:55 | the decimal text of a natural number is a non-empty string of digits, and starts with '0' iff the number is 0 |
| Python.Str | TargetDetectionAutomatic.py:55 | `str()` of an int is canonical: an optional minus sign (present iff the int is negative) followed by digits with no leading zero, never "-0", and never a comma |
| Python.DigitsValueOfNatText | TargetDetectionAutomatic.py:55 | reading the decimal text of a natural number back gives that number |
| Python.ParseIntOfStr | TargetDetectionAutomatic.py:55 | `int(str(i)) == i` for every int |
| Python.DigitsValuePositive | TargetDetectionAutomatic.py:55 | digits that start with a non-zero digit have a positive value |
| Python.NatTextOfDigitsValue | TargetDetectionAutomatic.py:55 | digits with no leading zero are the decimal text of their value |
| Python.StrOfParseInt | TargetDetectionAutomatic.py:55 | `str(int(s)) == s` for canonical text, so each int has exactly one text, and a key's text is fixed by its location |
| Masks.CreateMask | TargetDetectionAutomatic.py:11-31 | the mask has the image's shape, and it selects a pixel iff all three channels lie within their inclusive bounds |
| Masks.Union | TargetDetectionAutomatic.py:141 | the OR of two masks selects a pixel iff either mask does, and keeps their shape |
| Masks.TargetMask | TargetDetectionAutomatic.py:139-141 | the combined mask has the image's shape |
| Masks.TargetMaskIsEitherRange | TargetDetectionAutomatic.py:139-141 | the combined mask selects a pixel iff the blue/yellow/orange range or the purple range contains it |
| Masks.TargetMaskOnEightBitPixels | TargetDetectionAutomatic.py:139-141 | on 8-bit HSV pixels the upper bounds of both ranges exclude nothing, so only the lower bounds decide |
| Masks.InvertedBoundsSelectNothing | TargetDetectionAutomatic.py:27-29 | bounds with lower above upper on some channel select no pixel |
| Masks.WiderBoundsSelectMore | TargetDetectionAutomatic.py:27-29 | widening the bounds never drops a selected pixel |
| Intersection.Rasterize | TargetDetectionAutomatic.py:115-118 | a drawn canvas has the reference size, and a cell is set iff the outline passes through it |
| Intersection.LogicalAnd | TargetDetectionAutomatic.py:120 | `np.logical_and` sets a cell iff both canvases set it |
| Intersection.AnyInRow | TargetDetectionAutomatic.py:122 | a row has a set cell iff some index of it is set |
| Intersection.Any | TargetDetectionAutomatic.py:122 | `.any()` holds iff some cell of the canvas is set |
| Intersection.ContourIntersect | TargetDetectionAutomatic.py:100-122 | the test holds iff some pixel of the canvas lies on both outlines |
| Intersection.ContourIntersectSymmetric | TargetDetectionAutomatic.py:113-122 | the test does not depend on the order of the two contours |
| Intersection.ContourIntersectSelf | TargetDetectionAutomatic.py:113-122 | a contour meets itself iff part of its outline lies on the canvas |
| Shapes.LocationKey | TargetDetectionAutomatic.py:55 | the dictionary key `str(x) + ", " + str(y)`; ParseLocationKey and LocationKeyInjective state what it encodes |
| Shapes.FindShape | TargetDetectionAutomatic.py:34-57 | the result is None iff m00 is zero; otherwise it has one entry, whose value is the vertex count |
| Shapes.FirstComma | TargetDetectionAutomatic.py:55 | the index found is the first comma of the text, or its length when there is none |
| Shapes.ParseLocationKey | TargetDetectionAutomatic.py:55 | the key `"x, y"` can be read back into (x, y) |
| Shapes.LocationKeyInjective | TargetDetectionAutomatic.py:55 | different locations get different keys |
| Shapes.FindShapeRecord | TargetDetectionAutomatic.py:49-57 | when m00 is non-zero, the one entry maps the key of (int(m10/m00) + ox, int(m01/m00) + oy) to the vertex count |
| Detection.CropOf | TargetDetectionAutomatic.py:159-164 | the crop taken around a bounding rectangle: its corner moved 20 up and left, and the rows and columns Python's slice selects from there, always within the image; CropWindow states the window |
| Detection.CropWindow | TargetDetectionAutomatic.py:159-164 | the crop's corner, which is also the offset passed to `find_shape`, is the rectangle's corner moved 20 up and left; inside the image the crop spans rows y-20 .. y+h+25 and columns x-20 .. x+w+25 |
| Detection.CropNearTopEdgeIsEmpty | TargetDetectionAutomatic.py:160-165 | a rectangle within 20 rows of the top of an image taller than h + 45 gets an empty crop |
| Detection.RouteOf | TargetDetectionAutomatic.py:157-196 | a contour takes the crop path iff 15 < area < 100; it takes the direct path iff area >= 100; it is ignored iff area <= 15; a crop is taken around its bounding rectangle |
| Detection.WriteBackFits | TargetDetectionAutomatic.py:191 | the write-back succeeds iff, row-wise and column-wise, the target slice taken from the crop's unclipped corner has the crop's length, or the crop has length 1 (NumPy broadcasting) |
| Detection.WriteBackFitsFromInside | TargetDetectionAutomatic.py:191 | a non-empty crop whose corner lies inside the image is written back without error |
| Detection.WriteBackNearTopOfShortImageFails | TargetDetectionAutomatic.py:191 | near the top of a short image, a non-empty crop taken from the bottom rows cannot be written back |
| Detection.WriteBackOfBandInsideImageFits | TargetDetectionAutomatic.py:164-191 | a band taken from the bottom rows that ends inside the image, here rows 40..45 of 50 for a corner at y = -10, is written back without error |
| Detection.MeetsOn | TargetDetectionAutomatic.py:180 | `contour_intersect` on a reference image of the canvas's size, applied to the outlines of two contours |
| Detection.Reports | TargetDetectionAutomatic.py:183-185 | what one pass of `for cnt in hull: find_shape(cnt, ox, oy)` prints, in order; ReportHulls is verified against it |
| Detection.Printed | TargetDetectionAutomatic.py:179-185 | what is printed while the hull list grows one append at a time, the whole list again after each append; PrintedSplit and PrintedSingle state its properties |
| Detection.PairStep | TargetDetectionAutomatic.py:180-183 | one pairwise turn: unless the tested contour meets the partner, append its hull and rebind `cnt` to that hull; PairStepCases states it |
| Detection.PairLoop | TargetDetectionAutomatic.py:179-183 | the pairwise loop over all partners; PairwiseHulls is verified against it, and the PairLoop lemmas state its properties |
| Detection.CropLoop | TargetDetectionAutomatic.py:176-181 | the hull list inside a crop: each contour in the (100, 1000) band runs the pairwise loop against all of the crop's contours; CropHulls is verified against it |
| Detection.StepLog | TargetDetectionAutomatic.py:185-203 | what one outer turn prints: the reports of every append at the crop's corner, at (0, 0) on the direct path, nothing when ignored |
| Detection.Log | TargetDetectionAutomatic.py:155-206 | everything the outer loop prints, step after step |
| Detection.ScanStep | TargetDetectionAutomatic.py:157-206 | one outer turn: route by area; on the crop path raise on an empty crop, collect the crop's hulls, raise if the write-back does not fit, and rebind `contours` and `cropped_image`; on the direct path raise if `cropped_image` is unbound and `contours` is non-empty, else pair against the current `contours`; ScanContour is verified against it |
| Detection.ScanLoop | TargetDetectionAutomatic.py:155-206 | the first n outer turns, the first exception ending the loop; ScanLoopFailureSticks, ScanLoopSteps and the raise lemmas state its properties |
| Detection.Detect | TargetDetectionAutomatic.py:125-207 | `detect_targets`: the outer loop over the contours of the combined mask; DetectTargets is verified against it |
| Detection.ReportHulls | TargetDetectionAutomatic.py:183-185 | the loop over `hull` prints the `find_shape` record of every hull with non-zero m00, in order |
| Detection.PairwiseHulls | TargetDetectionAutomatic.py:179-185 | the pairwise loop leaves `cnt` and `hull` in the state the pairing function gives, and prints every report of every append |
| Detection.PrintedSplit | TargetDetectionAutomatic.py:183-185 | what is printed over a run of appends is what was printed up to any midpoint, followed by what was printed after it |
| Detection.CropHulls | TargetDetectionAutomatic.py:176-185 | the hull list inside a crop is the one the crop-loop function gives, and the printed output is every report of every append |
| Detection.PairLoopKeepsPrefix | TargetDetectionAutomatic.py:179-181 | the pairwise loop keeps the hulls it started with and appends at most one per partner |
| Detection.ScanLoopFailureSticks | TargetDetectionAutomatic.py:155-206 | once the outer loop has raised, later turns leave the exception unchanged |
| Detection.ScanLoopStopsAt | TargetDetectionAutomatic.py:155-206 | a turn that raises ends the whole loop with that exception |
| Detection.ScanContour | TargetDetectionAutomatic.py:157-206 | one turn of the outer loop computes the turn function's result; on success it records one step, and its printed output is that step's reports |
| Detection.ScanLoopNext | TargetDetectionAutomatic.py:155 | k + 1 turns of the outer loop are the (k+1)-th turn taken from the state after k |
| Detection.LogAppend | TargetDetectionAutomatic.py:185-203 | the printed log of one more step is the old log followed by that step's reports |
| Detection.DetectTargets | TargetDetectionAutomatic.py:125-207 | the method returns what the outer-loop function gives on the masked image, and on success its printed output is the log of the recorded steps |
| DetectionProperties.PairStepCases | TargetDetectionAutomatic.py:180-183 | one pairwise turn leaves the state alone when the contours meet; otherwise it appends the hull of the tested contour and rebinds `cnt` to that hull |
| DetectionProperties.PairLoopTested | TargetDetectionAutomatic.py:179-185 | after the pairwise loop, `cnt` is the starting contour with the hull taken once per append |
| DetectionProperties.PairLoopAppendedHulls | TargetDetectionAutomatic.py:179-183 | the i-th appended hull is the starting contour with the hull taken i times |
| DetectionProperties.PairLoopAppendsNothingIff | TargetDetectionAutomatic.py:179-181 | the pairwise loop appends nothing iff the starting contour meets every partner |
| DetectionProperties.PairLoopAtFixedPoint | TargetDetectionAutomatic.py:179-183 | when the contour is its own hull, the loop appends it once per partner it does not meet, duplicates included, and `cnt` stays unchanged |
| DetectionProperties.PairLoopIdempotentHull | TargetDetectionAutomatic.py:179-183 | when taking a hull twice changes nothing, every appended hull is the hull of the starting contour |
| DetectionProperties.CropLoopNeedsBand | TargetDetectionAutomatic.py:177-178 | inside a crop, contours outside the (100, 1000) band yield no hull |
| DetectionProperties.CropLoopHullsFromBand | TargetDetectionAutomatic.py:176-181 | every hull drawn on a crop is a repeated hull of a contour of that crop in the (100, 1000) band |
| DetectionProperties.ScanStepRecords | TargetDetectionAutomatic.py:155-203 | a successful turn appends one step, which holds the contour's route and the hulls of that route |
| DetectionProperties.ScanLoopLastStep | TargetDetectionAutomatic.py:155-206 | the n-th turn appends one recorded step to the state after n - 1 turns |
| DetectionProperties.ScanLoopSteps | TargetDetectionAutomatic.py:155-206 | a successful loop keeps one step per contour, routed by area: no hull for area <= 15, and for a crop the hulls of the crop loop |
| DetectionProperties.ScanLoopWhileIgnored | TargetDetectionAutomatic.py:155-196 | while every contour has area <= 15, `contours` is still the outer list and no crop exists |
| DetectionProperties.ScanStepUnbound | TargetDetectionAutomatic.py:196-198 | a contour of area >= 100, with a non-empty `contours` and no crop yet, makes the turn raise `UnboundLocalError` |
| DetectionProperties.ScanStepEmptyCrop | TargetDetectionAutomatic.py:157-165 | a small contour whose crop has no pixel makes the turn raise |
| DetectionProperties.DirectBeforeAnyCropRaises | TargetDetectionAutomatic.py:193-198 | if the first contour of area above 15 has area >= 100, the call raises `UnboundLocalError` |
| DetectionProperties.EmptyCropRaises | TargetDetectionAutomatic.py:157-165 | a contour routed to an empty crop makes the call raise |
| DetectionProperties.SmallContourNearTopRaises | TargetDetectionAutomatic.py:159-165 | a small contour within 20 rows of the top of an image taller than h + 45 makes `detect_targets` raise |
| DetectionProperties.ReportsSingle | TargetDetectionAutomatic.py:54-57 | every dictionary reported for a hull list has one entry |
| DetectionProperties.PrintedSingle | TargetDetectionAutomatic.py:183-185 | every dictionary printed over a run of appends has one entry |
| DetectionProperties.LogSingle | TargetDetectionAutomatic.py:183-203 | every dictionary in the log of any steps has one entry |
| DetectionProperties.DetectPrintsSingleEntries | TargetDetectionAutomatic.py:54-56 | every dictionary `detect_targets` prints maps one location to a side count |
| ColorNaming.Distance | color_detection.py:60 | the Manhattan distance is non-negative and is zero iff the two triples are equal |
| ColorNaming.Distances | color_detection.py:61 | one distance per palette entry, in palette order |
| ColorNaming.ArgMin | color_detection.py:62 | `min` with a key returns the first index of least value |
| ColorNaming.FirstMinimalUnique | color_detection.py:62 | only one index is first and minimal, so `min`'s choice is determined |
| ColorNaming.Nearest | color_detection.py:60-62 | the chosen entry is at least as near as every entry, and strictly nearer than every earlier one |
| ColorNaming.GetColorName | color_detection.py:51-62 | the result is one of blue, red, green, purple and orange; brown is never returned |
| ColorNaming.HueIndex | color_detection.py:52-58 | the index of the palette entry that carries the hue band's name |
| ColorNaming.HueIndexFirstMinimal | color_detection.py:60-62 | when every entry shares the saturation and value term, the nearest-hue entry is where `min` stops |
| ColorNaming.NearestIsHueIndex | color_detection.py:51-62 | the entry `min` picks is the entry of nearest hue, ties going to the earlier entry |
| ColorNaming.GetColorNameIsHueBand | color_detection.py:39-64 | the name depends on hue alone, without wrap-around: red up to 15, orange below 45, green below 90, blue up to 135, purple above |
| ColorNaming.CanonicalColorsNameThemselves | color_detection.py:52-62 | each palette triple is named by its own entry |
| ColorNaming.HueNearRedEndIsPurple | color_detection.py:52-60 | hue 179 is named purple, not red |
| ColorNaming.TiesGoToPaletteOrder | color_detection.py:61-62 | hues halfway between two entries go to the entry listed first |
| DominantColor.Flatten | color_detection.py:28 | `reshape(-1, 3)`: the rows of pixels one after another; FlattenLength and FlattenAt state the layout |
| DominantColor.FlattenLength | color_detection.py:28 | flattening rows of width w gives rows * w pixels |
| DominantColor.FlattenAt | color_detection.py:28 | the flattening puts cell (i, j) at position i * w + j |
| DominantColor.FlattenUniform | color_detection.py:28 | flattening lays out the rows one after another, cell (i, j) at position i * w + j |
| DominantColor.Cut | color_detection.py:22 | the cut has as many rows and columns as the two slices select |
| DominantColor.CutAt | color_detection.py:22 | cell (i, j) of the cut is the image pixel at the slices' start plus (i, j) |
| DominantColor.CropPixels | color_detection.py:22-28 | the crop flattened to a list of pixels; CropPixelsAreSelected states which pixels, in which order |
| DominantColor.Samples | color_detection.py:19-32 | the samples handed to k-means are the crop's pixels; an empty box raises in the colour conversion, and a box of fewer than two pixels raises in `KMeans(n_clusters=2)` |
| DominantColor.SinglePixelBoxRaises | color_detection.py:25-32 | a one-pixel box inside the image passes the conversion but makes k-means raise |
| DominantColor.CropPixelsLength | color_detection.py:22-28 | the number of samples is the product of the two slice lengths |
| DominantColor.CropPixelAt | color_detection.py:22-28 | sample i * cols + j is pixel (cols.lo + j, rows.lo + i) of the image |
| DominantColor.CropPixelsAreSelected | color_detection.py:19-28 | the samples are exactly the selected pixels, row by row |
| DominantColor.SpansInside | color_detection.py:22 | a box inside the image selects exactly its own rows and columns |
| DominantColor.CropInsideImage | color_detection.py:19-28 | a box inside the image gives w * h samples, pixel (x + j, y + i) at position i * w + j |
| DominantColor.CropClipsAtFarEdges | color_detection.py:22-28 | a box reaching past the right or bottom edge is cut at that edge |

## Left out

- Image decoding and colour conversion (`cv2.imread`, `cv2.cvtColor`) are foreign library
  calls. The detection model takes the HSV image as its input. The dominant-colour samples are
  modelled on the decoded image, before conversion, since conversion is pixel by pixel.
- Contour finding, masking with `cv2.bitwise_and`, grey conversion, Otsu thresholding,
  `cv2.contourArea`, `cv2.boundingRect`, `cv2.drawContours`, `cv2.convexHull`, `cv2.moments`,
  `cv2.approxPolyDP` and `cv2.arcLength` are foreign geometry and raster routines. They are the
  functions of `Detection.Geometry`, left uninterpreted.
- Drawing the hulls onto the image, and the pixels written back into `color_image`, are not
  modelled as pixels. Later crops can show what earlier turns drew, so the contours found in a
  crop may depend on the turn that takes it: `findInCrop` takes the turn's index.
- The k-means clustering and the choice of centre 1 in `recognize_dominant_color` are a
  foreign, randomised floating-point heuristic. The colour triple is an input of
  `get_color_name`, with real channels.
- `get_circle_percentages` is left out. It is floating-point numerics (Hough transform,
  distance transform, trigonometry), and its only call is commented out.
- `display_graph`, matplotlib, the hard-coded image path and the module-level run are user
  interface and I/O. `result_image` is returned by `detect_targets` but is not modelled.
- `print` is modelled as the sequence of dictionaries printed.
- Detection.ScanContour and Detection.DetectTargets state the printed output only for a call that
  completes. When a turn raises, the dictionaries printed before the exception are not stated.
- Areas, moments and hulls are exact values. Floating-point rounding
  inside OpenCV is not modelled.
- Shapes.FindShape: Python's own float arithmetic is modelled as exact reals. `m10 / m00` is an
  exact quotient before `int()`, while in float64 a quotient just below an integer can round
  up to that integer.
- ColorNaming.Distance: the `dmetric` sum is exact on reals. In float64 a near-tie between two
  palette entries can be decided the other way by rounding.
- Python.Resolve and Python.Slice state only that the span lies within the sequence. The exact
  cases of slice resolution are stated by Python.SliceCases.
