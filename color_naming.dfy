/** `get_color_name`: the name of the palette colour nearest to an HSV triple
    under the Manhattan distance, the first such name in palette order when
    several are equally near. The triple is a k-means cluster centre, so its
    channels are reals. */
module ColorNaming {

  datatype HsvColor = HsvColor(h: real, s: real, v: real)

  datatype Entry = Entry(name: string, color: HsvColor)

  /** The palette, in the insertion order of its dict literal. */
  const Palette: seq<Entry> := [
    Entry("blue", HsvColor(120.0, 255.0, 255.0)),
    Entry("red", HsvColor(0.0, 255.0, 255.0)),
    Entry("green", HsvColor(60.0, 255.0, 255.0)),
    Entry("purple", HsvColor(150.0, 255.0, 255.0)),
    Entry("orange", HsvColor(30.0, 255.0, 255.0))
  ]

  function Abs(x: real): real {
    if x < 0.0 then -x else x
  }

  /** `dmetric`: the sum of the absolute channel differences. */
  function Distance(a: HsvColor, b: HsvColor): (d: real)
    ensures 0.0 <= d
    ensures d == 0.0 <==> a == b
  {
    Abs(a.h - b.h) + Abs(a.s - b.s) + Abs(a.v - b.v)
  }

  /** The distance from each palette entry to c, in palette order. */
  function Distances(c: HsvColor): (ds: seq<real>)
    ensures |ds| == |Palette|
    ensures forall k :: 0 <= k < |ds| ==> ds[k] == Distance(Palette[k].color, c)
  {
    seq(|Palette|, k requires 0 <= k < |Palette| => Distance(Palette[k].color, c))
  }

  /** i is where `min` stops: no entry is smaller, and every earlier one is larger. */
  predicate FirstMinimal(ds: seq<real>, i: int) {
    0 <= i < |ds|
    && (forall j :: 0 <= j < |ds| ==> ds[i] <= ds[j])
    && (forall j :: 0 <= j < i ==> ds[i] < ds[j])
  }

  /** Python's `min` over keys in order: a later key replaces the current one
      only when its value is strictly smaller. */
  function ArgMin(ds: seq<real>): (i: nat)
    requires |ds| > 0
    ensures FirstMinimal(ds, i)
  {
    if |ds| == 1 then 0
    else
      var init := ds[..|ds| - 1];
      var i := ArgMin(init);
      assert forall j :: 0 <= j < |init| ==> init[j] == ds[j];
      if ds[|ds| - 1] < ds[i] then |ds| - 1 else i
  }

  /** There is only one first minimal index, so ArgMin is the one. */
  lemma FirstMinimalUnique(ds: seq<real>, i: int)
    requires |ds| > 0 && FirstMinimal(ds, i)
    ensures i == ArgMin(ds)
  {
  }

  /** The index of the palette entry `get_color_name` picks. */
  function Nearest(c: HsvColor): (k: nat)
    ensures k < |Palette|
    ensures forall j :: 0 <= j < |Palette| ==> Distance(Palette[k].color, c) <= Distance(Palette[j].color, c)
    ensures forall j :: 0 <= j < k ==> Distance(Palette[k].color, c) < Distance(Palette[j].color, c)
  {
    var ds := Distances(c);
    var k := ArgMin(ds);
    assert FirstMinimal(ds, k);
    k
  }

  /** `get_color_name`: always one of the five palette names ("brown" is
      commented out of the palette and never returned). */
  function GetColorName(c: HsvColor): (name: string)
    ensures name in {"blue", "red", "green", "purple", "orange"}
  {
    Palette[Nearest(c)].name
  }

  /** The nearest hue of the palette, without wrap-around, with ties going to
      the entry listed first: 15 to red, 45 to green, 90 and 135 to blue. */
  function HueBand(h: real): string {
    if h <= 15.0 then "red"
    else if h < 45.0 then "orange"
    else if h < 90.0 then "green"
    else if h <= 135.0 then "blue"
    else "purple"
  }

  /** The palette index whose name HueBand gives. */
  function HueIndex(h: real): (k: nat)
    ensures k < |Palette| && Palette[k].name == HueBand(h)
  {
    if h <= 15.0 then 1
    else if h < 45.0 then 4
    else if h < 90.0 then 2
    else if h <= 135.0 then 0
    else 3
  }

  /** Distances in palette order when every entry contributes the same
      saturation and value term `rest`: HueIndex is where `min` stops. */
  lemma HueIndexFirstMinimal(h: real, rest: real, ds: seq<real>)
    requires |ds| == 5
    requires ds[0] == Abs(120.0 - h) + rest && ds[1] == Abs(0.0 - h) + rest
    requires ds[2] == Abs(60.0 - h) + rest && ds[3] == Abs(150.0 - h) + rest
    requires ds[4] == Abs(30.0 - h) + rest
    ensures FirstMinimal(ds, HueIndex(h))
  {
  }

  /** The entry `min` picks is the one of nearest hue. */
  lemma NearestIsHueIndex(c: HsvColor)
    ensures Nearest(c) == HueIndex(c.h)
  {
    var rest := Abs(255.0 - c.s) + Abs(255.0 - c.v);
    var ds := Distances(c);
    assert ds[0] == Abs(120.0 - c.h) + rest;
    assert ds[1] == Abs(0.0 - c.h) + rest;
    assert ds[2] == Abs(60.0 - c.h) + rest;
    assert ds[3] == Abs(150.0 - c.h) + rest;
    assert ds[4] == Abs(30.0 - c.h) + rest;
    HueIndexFirstMinimal(c.h, rest, ds);
    FirstMinimalUnique(ds, HueIndex(c.h));
  }

  /** `get_color_name` is the hue band of the triple: saturation and value
      never change the answer, and hue 179 is purple, not red. */
  lemma GetColorNameIsHueBand(c: HsvColor)
    ensures GetColorName(c) == HueBand(c.h)
  {
    NearestIsHueIndex(c);
  }

  /** Each palette colour is named by its own entry. */
  lemma CanonicalColorsNameThemselves(k: nat)
    requires k < |Palette|
    ensures GetColorName(Palette[k].color) == Palette[k].name
  {
    GetColorNameIsHueBand(Palette[k].color);
  }

  /** The hue range does not wrap: the top of OpenCV's hue range is purple. */
  lemma HueNearRedEndIsPurple(s: real, v: real)
    ensures GetColorName(HsvColor(179.0, s, v)) == "purple"
  {
    GetColorNameIsHueBand(HsvColor(179.0, s, v));
  }

  /** Hues halfway between two entries go to the entry listed first. */
  lemma TiesGoToPaletteOrder(s: real, v: real)
    ensures GetColorName(HsvColor(15.0, s, v)) == "red"
    ensures GetColorName(HsvColor(45.0, s, v)) == "green"
    ensures GetColorName(HsvColor(90.0, s, v)) == "blue"
    ensures GetColorName(HsvColor(135.0, s, v)) == "blue"
  {
    GetColorNameIsHueBand(HsvColor(15.0, s, v));
    GetColorNameIsHueBand(HsvColor(45.0, s, v));
    GetColorNameIsHueBand(HsvColor(90.0, s, v));
    GetColorNameIsHueBand(HsvColor(135.0, s, v));
  }
}
