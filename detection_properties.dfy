/** What the routing loop of `detect_targets` guarantees, proved about the
    functions of module Detection that the loops are verified against. */
module DetectionProperties {
  import opened Outcomes
  import Masks
  import opened Detection

  /** f applied n times to c. */
  function Iterate<C>(f: C -> C, c: C, n: nat): C {
    if n == 0 then c else f(Iterate(f, c, n - 1))
  }

  /** One turn of the pairwise loop either leaves the state alone (the tested
      contour meets the partner) or appends the hull of the tested contour and
      moves `cnt` onto it. */
  lemma PairStepCases<C>(g: Geometry<C>, meets: (C, C) -> bool, s: Pairing<C>, partner: C)
    ensures var p := PairStep(g, meets, s, partner);
      if meets(s.tested, partner) then p == s
      else p.hulls == s.hulls + [g.convexHull(s.tested)] && p.tested == g.convexHull(s.tested)
  {
  }

  /** Because `for cnt in hull` rebinds `cnt` to each new hull, the contour
      tested last is the starting contour with the hull taken once per append. */
  lemma {:induction false} PairLoopTested<C>(g: Geometry<C>, meets: (C, C) -> bool, s0: Pairing<C>, partners: seq<C>)
    ensures var p := PairLoop(g, meets, s0, partners);
      |s0.hulls| <= |p.hulls| &&
      p.tested == Iterate(g.convexHull, s0.tested, |p.hulls| - |s0.hulls|)
    decreases |partners|
  {
    if partners != [] {
      var init := partners[..|partners| - 1];
      PairLoopTested(g, meets, s0, init);
      var q := PairLoop(g, meets, s0, init);
      var p := PairLoop(g, meets, s0, partners);
      var n := |q.hulls| - |s0.hulls|;
      assert q.tested == Iterate(g.convexHull, s0.tested, n);
      if meets(q.tested, partners[|partners| - 1]) {
        assert p == q;
      } else {
        assert p.tested == g.convexHull(q.tested);
        assert |p.hulls| == |q.hulls| + 1;
        assert Iterate(g.convexHull, s0.tested, n + 1) == g.convexHull(q.tested);
      }
    }
  }
  /** The appended hulls are the hull of the starting contour, the hull of
      that hull, and so on: one more hull taken at each append. */
  lemma {:induction false} PairLoopAppendedHulls<C>(g: Geometry<C>, meets: (C, C) -> bool, s0: Pairing<C>, partners: seq<C>)
    ensures var p := PairLoop(g, meets, s0, partners);
      forall i :: |s0.hulls| <= i < |p.hulls| ==> p.hulls[i] == Iterate(g.convexHull, s0.tested, i - |s0.hulls| + 1)
    decreases |partners|
  {
    if partners != [] {
      var init := partners[..|partners| - 1];
      PairLoopAppendedHulls(g, meets, s0, init);
      PairLoopTested(g, meets, s0, init);
      var q := PairLoop(g, meets, s0, init);
      var p := PairLoop(g, meets, s0, partners);
      if !meets(q.tested, partners[|partners| - 1]) {
        assert p.hulls == q.hulls + [g.convexHull(q.tested)];
      }
    }
  }

  /** The pairwise loop appends nothing iff the starting contour meets every partner. */
  lemma {:induction false} PairLoopAppendsNothingIff<C>(g: Geometry<C>, meets: (C, C) -> bool, s0: Pairing<C>, partners: seq<C>)
    ensures |PairLoop(g, meets, s0, partners).hulls| == |s0.hulls|
      <==> forall i :: 0 <= i < |partners| ==> meets(s0.tested, partners[i])
    decreases |partners|
  {
    if partners != [] {
      var init := partners[..|partners| - 1];
      var last := partners[|partners| - 1];
      PairLoopAppendsNothingIff(g, meets, s0, init);
      PairLoopTested(g, meets, s0, init);
      var q := PairLoop(g, meets, s0, init);
      PairStepCases(g, meets, q, last);
      if |q.hulls| == |s0.hulls| {
        assert q.tested == s0.tested;
      }
      assert (forall i :: 0 <= i < |partners| ==> meets(s0.tested, partners[i]))
        <==> (forall i :: 0 <= i < |init| ==> meets(s0.tested, init[i]))
             && meets(s0.tested, last)
      by {
        assert forall i :: 0 <= i < |init| ==> init[i] == partners[i];
      }
    }
  }

  /** How many partners the contour t does not meet. */
  function Misses<C>(meets: (C, C) -> bool, t: C, partners: seq<C>): nat {
    if partners == [] then 0
    else Misses(meets, t, partners[..|partners| - 1])
         + (if meets(t, partners[|partners| - 1]) then 0 else 1)
  }

  /** When the tested contour is its own hull, rebinding `cnt` changes nothing:
      the loop appends that contour once per partner it does not meet,
      duplicates included. */
  lemma {:induction false} PairLoopAtFixedPoint<C>(g: Geometry<C>, meets: (C, C) -> bool, s0: Pairing<C>, partners: seq<C>)
    requires g.convexHull(s0.tested) == s0.tested
    ensures PairLoop(g, meets, s0, partners).tested == s0.tested
    ensures PairLoop(g, meets, s0, partners).hulls
      == s0.hulls + seq(Misses(meets, s0.tested, partners), _ => s0.tested)
    decreases |partners|
  {
    if partners != [] {
      PairLoopAtFixedPoint(g, meets, s0, partners[..|partners| - 1]);
    }
  }

  /** Under a hull routine that returns a hull unchanged, every hull the loop
      appends is the hull of the starting contour. */
  lemma PairLoopIdempotentHull<C>(g: Geometry<C>, meets: (C, C) -> bool, s0: Pairing<C>, partners: seq<C>)
    requires forall c :: g.convexHull(g.convexHull(c)) == g.convexHull(c)
    ensures var p := PairLoop(g, meets, s0, partners);
      forall i :: |s0.hulls| <= i < |p.hulls| ==> p.hulls[i] == g.convexHull(s0.tested)
  {
    PairLoopAppendedHulls(g, meets, s0, partners);
    forall n: nat | n >= 1
      ensures Iterate(g.convexHull, s0.tested, n) == g.convexHull(s0.tested)
    {
      IterateIdempotent(g.convexHull, s0.tested, n);
    }
  }

  lemma {:induction false} IterateIdempotent<C>(f: C -> C, c: C, n: nat)
    requires n >= 1
    requires forall x :: f(f(x)) == f(x)
    ensures Iterate(f, c, n) == f(c)
  {
    if n > 1 {
      IterateIdempotent(f, c, n - 1);
    }
  }

  /** Inside a crop, contours outside the (100, 1000) band yield no hull. */
  lemma {:induction false} CropLoopNeedsBand<C>(g: Geometry<C>, meets: (C, C) -> bool, contours: seq<C>, n: nat)
    requires n <= |contours|
    requires forall j :: 0 <= j < n ==> !InRectBand(g.area(contours[j]))
    ensures CropLoop(g, meets, contours, n) == []
  {
    if n > 0 {
      CropLoopNeedsBand(g, meets, contours, n - 1);
    }
  }

  /** h is a repeated hull of one of the first n contours of the crop, one in the band. */
  ghost predicate FromBand<C>(g: Geometry<C>, contours: seq<C>, n: nat, h: C) {
    exists j, m :: 0 <= j < n && j < |contours| && InRectBand(g.area(contours[j])) && 1 <= m
      && h == Iterate(g.convexHull, contours[j], m)
  }

  lemma FromBandGrows<C>(g: Geometry<C>, contours: seq<C>, n: nat, n': nat, h: C)
    requires n <= n' && FromBand(g, contours, n, h)
    ensures FromBand(g, contours, n', h)
  {
    var j, m :| 0 <= j < n && j < |contours| && InRectBand(g.area(contours[j])) && 1 <= m
      && h == Iterate(g.convexHull, contours[j], m);
    assert 0 <= j < n';
  }

  /** Every hull drawn on a crop comes from a contour of that crop in the band. */
  lemma {:induction false} CropLoopHullsFromBand<C>(g: Geometry<C>, meets: (C, C) -> bool, contours: seq<C>, n: nat)
    requires n <= |contours|
    ensures forall i :: 0 <= i < |CropLoop(g, meets, contours, n)| ==>
      FromBand(g, contours, n, CropLoop(g, meets, contours, n)[i])
  {
    if n > 0 {
      var before := CropLoop(g, meets, contours, n - 1);
      CropLoopHullsFromBand(g, meets, contours, n - 1);
      assert forall i :: 0 <= i < |before| ==> FromBand(g, contours, n - 1, before[i]);
      var cnt := contours[n - 1];
      var after := CropLoop(g, meets, contours, n);
      if InRectBand(g.area(cnt)) {
        var s0 := Pairing(cnt, before);
        PairLoopKeepsPrefix(g, meets, s0, contours);
        PairLoopAppendedHulls(g, meets, s0, contours);
        assert after == PairLoop(g, meets, s0, contours).hulls;
        forall i | 0 <= i < |after|
          ensures FromBand(g, contours, n, after[i])
        {
          if i < |before| {
            assert after[i] == after[..|before|][i] == before[i];
            FromBandGrows(g, contours, n - 1, n, before[i]);
          } else {
            var m := i - |before| + 1;
            assert after[i] == Iterate(g.convexHull, contours[n - 1], m);
            assert 0 <= n - 1 < n && InRectBand(g.area(contours[n - 1])) && 1 <= m;
          }
        }
      } else {
        assert after == before;
        forall i | 0 <= i < |after|
          ensures FromBand(g, contours, n, after[i])
        {
          FromBandGrows(g, contours, n - 1, n, before[i]);
        }
      }
    }
  }

  /** What one turn of the outer loop records: the contour's route and the
      hulls drawn for it. */
  lemma ScanStepRecords<C>(g: Geometry<C>, meetsOn: Canvas -> (C, C) -> bool, height: nat, width: nat, k: nat, s: Scan<C>, cnt: C)
    requires ScanStep(g, meetsOn, height, width, k, s, cnt).Success?
    ensures var route := RouteOf(g, height, width, cnt);
      ScanStep(g, meetsOn, height, width, k, s, cnt).value.steps == s.steps + [Step(route,
        match route
        case Cropped(crop) =>
          var inner := g.findInCrop(k, crop);
          CropLoop(g, meetsOn(CanvasOf(crop)), inner, |inner|)
        case Direct =>
          var canvas := if s.cropped.Some? then CanvasOf(s.cropped.value) else Canvas(0, 0);
          PairLoop(g, meetsOn(canvas), Pairing(cnt, []), s.contours).hulls
        case Ignored => [])]
  {
  }

  /** st is what the outer loop records for its k-th contour: the route the
      area selects; no hull for a contour of area at most 15; for a crop,
      the hulls the crop loop collects over the contours found in it. */
  ghost predicate Recorded<C>(g: Geometry<C>, meetsOn: Canvas -> (C, C) -> bool, height: nat, width: nat, outer: seq<C>, k: nat, st: Step<C>)
    requires k < |outer|
  {
    && st.route == RouteOf(g, height, width, outer[k])
    && (st.route.Ignored? ==> st.hulls == [])
    && (st.route.Cropped? ==>
          var inner := g.findInCrop(k, st.route.crop);
          st.hulls == CropLoop(g, meetsOn(CanvasOf(st.route.crop)), inner, |inner|))
  }

  /** The n-th turn of the outer loop appends one recorded step. */
  lemma ScanLoopLastStep<C>(g: Geometry<C>, meetsOn: Canvas -> (C, C) -> bool, height: nat, width: nat, outer: seq<C>, n: nat)
    requires 0 < n <= |outer|
    requires ScanLoop(StepOf(g, meetsOn, height, width), outer, n).Success?
    ensures ScanLoop(StepOf(g, meetsOn, height, width), outer, n - 1).Success?
    ensures var s := ScanLoop(StepOf(g, meetsOn, height, width), outer, n).value;
      var prev := ScanLoop(StepOf(g, meetsOn, height, width), outer, n - 1).value;
      s.steps == prev.steps + [s.steps[|s.steps| - 1]]
      && Recorded(g, meetsOn, height, width, outer, n - 1, s.steps[|s.steps| - 1])
  {
    var prev := ScanLoop(StepOf(g, meetsOn, height, width), outer, n - 1).value;
    assert ScanLoop(StepOf(g, meetsOn, height, width), outer, n) == ScanStep(g, meetsOn, height, width, n - 1, prev, outer[n - 1]);
    ScanStepRecords(g, meetsOn, height, width, n - 1, prev, outer[n - 1]);
  }

  /** The outer loop keeps one step per contour, each routed by area alone. */
  lemma {:induction false} ScanLoopSteps<C>(g: Geometry<C>, meetsOn: Canvas -> (C, C) -> bool, height: nat, width: nat, outer: seq<C>, n: nat)
    requires n <= |outer|
    requires ScanLoop(StepOf(g, meetsOn, height, width), outer, n).Success?
    ensures var s := ScanLoop(StepOf(g, meetsOn, height, width), outer, n).value;
      |s.steps| == n && forall k :: 0 <= k < n ==> Recorded(g, meetsOn, height, width, outer, k, s.steps[k])
  {
    if n > 0 {
      ScanLoopLastStep(g, meetsOn, height, width, outer, n);
      ScanLoopSteps(g, meetsOn, height, width, outer, n - 1);
      var prev := ScanLoop(StepOf(g, meetsOn, height, width), outer, n - 1).value.steps;
      var steps := ScanLoop(StepOf(g, meetsOn, height, width), outer, n).value.steps;
      forall k | 0 <= k < n
        ensures Recorded(g, meetsOn, height, width, outer, k, steps[k])
      {
        if k < n - 1 {
          assert steps[k] == prev[k];
        }
      }
    }
  }

  /** Before the first contour of area above 15, nothing changes but the steps. */
  lemma {:induction false} ScanLoopWhileIgnored<C>(g: Geometry<C>, meetsOn: Canvas -> (C, C) -> bool, height: nat, width: nat, outer: seq<C>, n: nat)
    requires n <= |outer|
    requires forall j :: 0 <= j < n ==> RouteOf(g, height, width, outer[j]).Ignored?
    ensures ScanLoop(StepOf(g, meetsOn, height, width), outer, n).Success?
    ensures ScanLoop(StepOf(g, meetsOn, height, width), outer, n).value.contours == outer
    ensures ScanLoop(StepOf(g, meetsOn, height, width), outer, n).value.cropped == None
  {
    if n > 0 {
      ScanLoopWhileIgnored(g, meetsOn, height, width, outer, n - 1);
    }
  }

  /** A contour of area 100 or more, with `contours` bound and no crop yet,
      makes the turn raise UnboundLocalError. */
  lemma ScanStepUnbound<C>(g: Geometry<C>, meetsOn: Canvas -> (C, C) -> bool, height: nat, width: nat, k: nat, s: Scan<C>, cnt: C)
    requires s.contours != [] && s.cropped.None? && 100.0 <= g.area(cnt)
    ensures StepOf(g, meetsOn, height, width)(k, s, cnt) == Failure(UnboundCrop)
  {
  }

  /** A small contour whose crop has no pixel makes the turn raise. */
  lemma ScanStepEmptyCrop<C>(g: Geometry<C>, meetsOn: Canvas -> (C, C) -> bool, height: nat, width: nat, k: nat, s: Scan<C>, cnt: C)
    requires 15.0 < g.area(cnt) < 100.0 && CropOf(g.boundingRect(cnt), height, width).Empty()
    ensures StepOf(g, meetsOn, height, width)(k, s, cnt) == Failure(EmptyCrop)
  {
  }

  /** If the first contour of area above 15 has area 100 or more, the else
      branch reads `cropped_image` before any crop assigned it: the call raises. */
  lemma DirectBeforeAnyCropRaises<C>(g: Geometry<C>, meetsOn: Canvas -> (C, C) -> bool, height: nat, width: nat, outer: seq<C>, k: nat)
    requires k < |outer|
    requires forall j :: 0 <= j < k ==> RouteOf(g, height, width, outer[j]).Ignored?
    requires 100.0 <= g.area(outer[k])
    ensures ScanLoop(StepOf(g, meetsOn, height, width), outer, |outer|) == Failure(UnboundCrop)
  {
    ScanLoopWhileIgnored(g, meetsOn, height, width, outer, k);
    var s := ScanLoop(StepOf(g, meetsOn, height, width), outer, k).value;
    ScanStepUnbound(g, meetsOn, height, width, k, s, outer[k]);
    ScanLoopStopsAt(StepOf(g, meetsOn, height, width), outer, k, UnboundCrop);
  }

  /** A contour routed to a crop with no pixel makes the call raise. */
  lemma EmptyCropRaises<C>(g: Geometry<C>, meetsOn: Canvas -> (C, C) -> bool, height: nat, width: nat, outer: seq<C>, k: nat)
    requires k < |outer|
    requires 15.0 < g.area(outer[k]) < 100.0
    requires CropOf(g.boundingRect(outer[k]), height, width).Empty()
    ensures ScanLoop(StepOf(g, meetsOn, height, width), outer, |outer|).Failure?
  {
    if ScanLoop(StepOf(g, meetsOn, height, width), outer, k).Failure? {
      ScanLoopFailureSticks(StepOf(g, meetsOn, height, width), outer, k, |outer|);
    } else {
      var s := ScanLoop(StepOf(g, meetsOn, height, width), outer, k).value;
      ScanStepEmptyCrop(g, meetsOn, height, width, k, s, outer[k]);
      ScanLoopStopsAt(StepOf(g, meetsOn, height, width), outer, k, EmptyCrop);
    }
  }

  /** A small contour whose bounding rectangle starts within 20 rows of the top
      of an image taller than its height + 45 makes `detect_targets` raise. */
  lemma SmallContourNearTopRaises<C>(g: Geometry<C>, image: Masks.Image, k: nat)
    requires var outer := g.findContours(image, Masks.TargetMask(image));
      && k < |outer|
      && 15.0 < g.area(outer[k]) < 100.0
      && 0 <= g.boundingRect(outer[k]).y < 20
      && 0 <= g.boundingRect(outer[k]).h
      && g.boundingRect(outer[k]).h + 45 <= |image|
    ensures Detect(g, image).Failure?
  {
    var outer := g.findContours(image, Masks.TargetMask(image));
    CropNearTopEdgeIsEmpty(g.boundingRect(outer[k]), Height(image), Width(image));
    EmptyCropRaises(g, IntersectionTests(g), Height(image), Width(image), outer, k);
  }

  /** Every printed dictionary has exactly one entry. */
  predicate SingleEntries(log: seq<Report>) {
    forall i :: 0 <= i < |log| ==> |log[i]| == 1
  }

  lemma {:induction false} ReportsSingle<C>(g: Geometry<C>, hulls: seq<C>, ox: int, oy: int)
    ensures SingleEntries(Reports(g, hulls, ox, oy))
  {
    if hulls != [] {
      ReportsSingle(g, hulls[..|hulls| - 1], ox, oy);
    }
  }

  lemma {:induction false} PrintedSingle<C>(g: Geometry<C>, ox: int, oy: int, hulls: seq<C>, from: nat)
    requires from <= |hulls|
    ensures SingleEntries(Printed(g, ox, oy, hulls, from))
    decreases |hulls|
  {
    if |hulls| != from {
      PrintedSingle(g, ox, oy, hulls[..|hulls| - 1], from);
      ReportsSingle(g, hulls, ox, oy);
    }
  }

  lemma {:induction false} LogSingle<C>(g: Geometry<C>, steps: seq<Step<C>>)
    ensures SingleEntries(Log(g, steps))
  {
    if steps != [] {
      LogSingle(g, steps[..|steps| - 1]);
      var st := steps[|steps| - 1];
      match st.route
      case Cropped(crop) => PrintedSingle(g, crop.x, crop.y, st.hulls, 0);
      case Direct => PrintedSingle(g, 0, 0, st.hulls, 0);
      case Ignored =>
    }
  }

  /** Every dictionary `detect_targets` prints maps one location to a side count. */
  lemma DetectPrintsSingleEntries<C>(g: Geometry<C>, image: Masks.Image)
    ensures Detect(g, image).Success? ==> SingleEntries(Log(g, Detect(g, image).value.steps))
  {
    if Detect(g, image).Success? {
      LogSingle(g, Detect(g, image).value.steps);
    }
  }
}
