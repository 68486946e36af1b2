/** The few pieces of Python semantics the scripts rely on: slice bounds,
    `int()` on a float, and `str()` on an int. */
module Python {

  /** The half-open index range `[lo, hi)` that a slice selects. */
  datatype Span = Span(lo: int, hi: int) {
    function Length(): int { hi - lo }
  }

  /** One slice bound, normalised as Python does for a sequence of length n:
      a negative bound counts from the end, and the result is clamped to [0, n]. */
  function Resolve(bound: int, n: nat): (r: int)
    ensures 0 <= r <= n
  {
    if bound < 0 then (if bound + n < 0 then 0 else bound + n)
    else if bound > n then n
    else bound
  }

  /** The indices that `xs[start:stop]` selects from a sequence of length n. */
  function Slice(start: int, stop: int, n: nat): (s: Span)
    ensures 0 <= s.lo <= s.hi <= n
  {
    var lo := Resolve(start, n);
    var hi := Resolve(stop, n);
    Span(lo, if hi < lo then lo else hi)
  }

  /** Bounds inside the sequence select exactly [start, stop); a negative
      start no further back than the length counts from the end; a stop past
      the end is cut at the end; a stop before the start selects nothing. */
  lemma SliceCases(start: int, stop: int, n: nat)
    ensures 0 <= start <= stop <= n ==> Slice(start, stop, n) == Span(start, stop)
    ensures -(n as int) <= start < 0 ==> Slice(start, stop, n).lo == start + n
    ensures 0 <= start <= n <= stop ==> Slice(start, stop, n) == Span(start, n)
    ensures 0 <= stop <= start ==> Slice(start, stop, n).Length() == 0
  {
  }

  /** `int(q)` for a float q: truncation toward zero. */
  function Trunc(q: real): (t: int)
    ensures 0.0 <= q ==> 0 <= t && t as real <= q < t as real + 1.0
    ensures q < 0.0 ==> t <= 0 && t as real - 1.0 < q <= t as real
  {
    if q >= 0.0 then q.Floor else -((-q).Floor)
  }

  predicate IsDigit(ch: char) {
    '0' <= ch <= '9'
  }

  predicate IsDigits(s: string) {
    |s| > 0 && forall i :: 0 <= i < |s| ==> IsDigit(s[i])
  }

  /** What `str(i)` can produce for an int i: optional minus, then digits. */
  predicate IsIntText(s: string) {
    IsDigits(s) || (|s| > 1 && s[0] == '-' && IsDigits(s[1..]))
  }

  function DigitChar(d: int): (ch: char)
    requires 0 <= d < 10
    ensures IsDigit(ch) && ch as int - '0' as int == d
  {
    (d + '0' as int) as char
  }

  /** Digits without a leading zero, except for "0" itself. */
  predicate NoLeadingZero(d: string) {
    |d| > 0 && (|d| == 1 || d[0] != '0')
  }

  /** The only text `str` gives for an int: "0", or digits starting with a
      non-zero digit, optionally after a minus sign. */
  predicate IsCanonicalIntText(s: string) {
    (IsDigits(s) && NoLeadingZero(s))
    || (|s| > 1 && s[0] == '-' && IsDigits(s[1..]) && s[1] != '0')
  }

  /** Decimal digits of a natural number, most significant first. */
  function NatText(n: nat): (s: string)
    ensures IsDigits(s)
    ensures s[0] == '0' <==> n == 0
    decreases n
  {
    if n < 10 then [DigitChar(n)] else NatText(n / 10) + [DigitChar(n % 10)]
  }

  /** `str(i)` for an int i: canonical text, so no leading zero and no "-0". */
  function Str(i: int): (s: string)
    ensures IsIntText(s) && IsCanonicalIntText(s)
    ensures s[0] == '-' <==> i < 0
    ensures forall k :: 0 <= k < |s| ==> s[k] != ','
  {
    if i < 0 then
      var d := NatText(-i);
      assert ("-" + d)[1..] == d;
      "-" + d
    else NatText(i)
  }

  function DigitsValue(s: string): nat
    requires IsDigits(s)
  {
    var last := s[|s| - 1] as int - '0' as int;
    if |s| == 1 then last
    else DigitsValue(s[..|s| - 1]) * 10 + last
  }

  /** `int(s)` for a string s that `str` could have produced. */
  function ParseInt(s: string): int
    requires IsIntText(s)
  {
    if IsDigits(s) then DigitsValue(s) else -(DigitsValue(s[1..]) as int)
  }

  lemma {:induction false} DigitsValueOfNatText(n: nat)
    ensures DigitsValue(NatText(n)) == n
    decreases n
  {
    if n >= 10 {
      var s := NatText(n);
      assert s[..|s| - 1] == NatText(n / 10);
      DigitsValueOfNatText(n / 10);
    }
  }

  /** `int(str(i)) == i`: the decimal text of an int determines it. */
  lemma ParseIntOfStr(i: int)
    ensures ParseInt(Str(i)) == i
  {
    if i < 0 {
      var s := Str(i);
      assert s[1..] == NatText(-i);
      DigitsValueOfNatText(-i);
    } else {
      DigitsValueOfNatText(i);
    }
  }

  /** A digit string that starts with a non-zero digit has a positive value. */
  lemma {:induction false} DigitsValuePositive(d: string)
    requires IsDigits(d) && d[0] != '0'
    ensures DigitsValue(d) >= 1
    decreases |d|
  {
    if |d| > 1 {
      var init := d[..|d| - 1];
      assert init[0] == d[0];
      DigitsValuePositive(init);
    }
  }

  /** Digits without a leading zero are the decimal text of their value. */
  lemma {:induction false} NatTextOfDigitsValue(d: string)
    requires IsDigits(d) && NoLeadingZero(d)
    ensures NatText(DigitsValue(d)) == d
    decreases |d|
  {
    var last := d[|d| - 1] as int - '0' as int;
    if |d| == 1 {
      assert NatText(last) == [DigitChar(last)];
    } else {
      var init := d[..|d| - 1];
      assert init[0] == d[0];
      DigitsValuePositive(init);
      NatTextOfDigitsValue(init);
      var n := DigitsValue(d);
      assert n == DigitsValue(init) * 10 + last;
      assert n / 10 == DigitsValue(init) && n % 10 == last;
      assert d == init + [DigitChar(last)];
    }
  }

  /** `str(int(s)) == s` for canonical text: each int has exactly one text. */
  lemma StrOfParseInt(s: string)
    requires IsCanonicalIntText(s)
    ensures IsIntText(s) && Str(ParseInt(s)) == s
  {
    if IsDigits(s) && NoLeadingZero(s) {
      NatTextOfDigitsValue(s);
    } else {
      var d := s[1..];
      assert !IsDigits(s);
      DigitsValuePositive(d);
      NatTextOfDigitsValue(d);
      assert s == "-" + d;
    }
  }
}
