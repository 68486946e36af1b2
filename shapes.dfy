/** `find_shape`: the centroid of a contour from its image moments, shifted by
    the offset of the crop it was found in, reported as a one-entry dictionary
    from the text "x, y" to the number of vertices of the approximated polygon. */
module Shapes {
  import opened Outcomes
  import Python

  /** The three image moments `find_shape` reads from `cv2.moments`. */
  datatype Moments = Moments(m00: real, m10: real, m01: real)

  /** The dictionary `find_shape` returns and prints. */
  type ShapeDict = map<string, nat>

  /** The dictionary key for a location: `str(x) + ", " + str(y)`. */
  function LocationKey(x: int, y: int): string {
    Python.Str(x) + ", " + Python.Str(y)
  }

  /** `find_shape(contour, ox, oy)`, with the moments and the vertex count of
      `cv2.approxPolyDP` supplied for the contour. A zero m00 gives `None`. */
  function FindShape(m: Moments, vertices: nat, ox: int, oy: int): (r: Option<ShapeDict>)
    ensures r.None? <==> m.m00 == 0.0
    ensures r.Some? ==> |r.value| == 1 && r.value.Values == {vertices}
  {
    if m.m00 != 0.0 then
      var x := Python.Trunc(m.m10 / m.m00);
      var y := Python.Trunc(m.m01 / m.m00);
      var key := LocationKey(x + ox, y + oy);
      assert map[key := vertices].Keys == {key};
      Some(map[key := vertices])
    else None
  }

  /** Index of the first comma in s, or |s| if there is none. */
  function FirstComma(s: string): (k: nat)
    ensures k <= |s|
    ensures forall j :: 0 <= j < k ==> s[j] != ','
    ensures k < |s| ==> s[k] == ','
  {
    if s == [] then 0
    else if s[0] == ',' then 0
    else 1 + FirstComma(s[1..])
  }

  /** Read a key back into its location; None for text `LocationKey` never makes. */
  function ParseLocation(key: string): Option<(int, int)> {
    var k := FirstComma(key);
    if k + 2 <= |key| && key[k + 1] == ' '
       && Python.IsIntText(key[..k]) && Python.IsIntText(key[k + 2..])
    then Some((Python.ParseInt(key[..k]), Python.ParseInt(key[k + 2..])))
    else None
  }

  /** The key of a location can be read back into that location. */
  lemma ParseLocationKey(x: int, y: int)
    ensures ParseLocation(LocationKey(x, y)) == Some((x, y))
  {
    var sx, sy := Python.Str(x), Python.Str(y);
    var key := LocationKey(x, y);
    assert key[|sx|] == ',';
    assert forall j :: 0 <= j < |sx| ==> key[j] == sx[j];
    var k := FirstComma(key);
    assert k == |sx|;
    assert key[..k] == sx;
    assert key[k + 2..] == sy;
    Python.ParseIntOfStr(x);
    Python.ParseIntOfStr(y);
  }

  /** Different locations get different keys. */
  lemma LocationKeyInjective(x: int, y: int, x': int, y': int)
    requires LocationKey(x, y) == LocationKey(x', y')
    ensures x == x' && y == y'
  {
    ParseLocationKey(x, y);
    ParseLocationKey(x', y');
  }

  /** On a contour with non-zero m00, `find_shape` returns exactly one entry: the
      centroid truncated toward zero plus the offset, mapped to the vertex count. */
  lemma FindShapeRecord(m: Moments, vertices: nat, ox: int, oy: int)
    requires m.m00 != 0.0
    ensures var r := FindShape(m, vertices, ox, oy);
      r.Some? && |r.value| == 1
      && exists key :: key in r.value && r.value[key] == vertices
           && ParseLocation(key) == Some((Python.Trunc(m.m10 / m.m00) + ox, Python.Trunc(m.m01 / m.m00) + oy))
  {
    var x := Python.Trunc(m.m10 / m.m00) + ox;
    var y := Python.Trunc(m.m01 / m.m00) + oy;
    var key := LocationKey(x, y);
    ParseLocationKey(x, y);
    assert FindShape(m, vertices, ox, oy).value == map[key := vertices];
    assert map[key := vertices].Keys == {key};
  }
}
