/** The JSON string literal that `JSON.stringify` prints (section 7 of RFC 8259, with lone surrogates
    escaped), and the reader that undoes it. */
module JsonText {
  import opened Wrappers
  import opened Texts

  predicate IsHigh(u: CodeUnit) { 0xD800 <= u < 0xDC00 }
  predicate IsLow(u: CodeUnit) { 0xDC00 <= u < 0xE000 }

  function HexDigit(d: int): CodeUnit
    requires 0 <= d < 16
  {
    if d < 10 then 48 + d else 87 + d
  }

  function HexValue(u: CodeUnit): int {
    if 48 <= u <= 57 then u - 48 else u - 87
  }

  function UnicodeEscape(u: CodeUnit): Text {
    [BACKSLASH, 117, HexDigit(u / 4096), HexDigit(u / 256 % 16), HexDigit(u / 16 % 16), HexDigit(u % 16)]
  }

  function EscapeUnit(u: CodeUnit): Text {
    if u == QUOTE || u == BACKSLASH then [BACKSLASH, u]
    else if u == 8 then [BACKSLASH, 98]
    else if u == 9 then [BACKSLASH, 116]
    else if u == 10 then [BACKSLASH, 110]
    else if u == 12 then [BACKSLASH, 102]
    else if u == 13 then [BACKSLASH, 114]
    else if u < 0x20 || IsHigh(u) || IsLow(u) then UnicodeEscape(u)
    else [u]
  }

  function Escape(s: Text): Text {
    if s == [] then []
    else if |s| > 1 && IsHigh(s[0]) && IsLow(s[1]) then [s[0], s[1]] + Escape(s[2..])
    else EscapeUnit(s[0]) + Escape(s[1..])
  }

  function Quoted(s: Text): Text { [QUOTE] + Escape(s) + [QUOTE] }

  /** Reads the characters of a string literal up to its closing quote: one unit and what follows. */
  function ReadUnit(t: Text): (r: Option<(CodeUnit, Text)>)
    ensures r.Some? ==> |r.value.1| < |t|
  {
    if t == [] || t[0] == QUOTE then None
    else if t[0] != BACKSLASH then Some((t[0], t[1..]))
    else if |t| < 2 then None
    else if t[1] != 117 then
      var u := if t[1] == 98 then 8 else if t[1] == 116 then 9 else if t[1] == 110 then 10
               else if t[1] == 102 then 12 else if t[1] == 114 then 13 else t[1];
      Some((u, t[2..]))
    else if |t| < 6 then None
    else
      var u := HexValue(t[2]) * 4096 + HexValue(t[3]) * 256 + HexValue(t[4]) * 16 + HexValue(t[5]);
      if 0 <= u < 0x1_0000 then Some((u, t[6..])) else None
  }

  function ReadString(t: Text): (r: (Text, Text))
    ensures |r.1| <= |t|
    decreases |t|
  {
    match ReadUnit(t)
    case None => ([], t)
    case Some((u, rest)) => var (s, tail) := ReadString(rest); ([u] + s, tail)
  }

  lemma HexDigits(u: CodeUnit)
    ensures u == u / 4096 * 4096 + u / 256 % 16 * 256 + u / 16 % 16 * 16 + u % 16
  {
    var q := u / 16;
    var p := q / 16;
    assert u / 256 == p && u / 4096 == p / 16;
  }

  lemma ReadUnicodeEscape(u: CodeUnit, x: Text)
    ensures ReadUnit(UnicodeEscape(u) + x) == Some((u, x))
  {
    var t := UnicodeEscape(u) + x;
    HexDigits(u);
    assert t[6..] == x;
    assert HexValue(t[2]) == u / 4096 && HexValue(t[3]) == u / 256 % 16;
    assert HexValue(t[4]) == u / 16 % 16 && HexValue(t[5]) == u % 16;
  }

  lemma ReadEscapedUnit(u: CodeUnit, x: Text)
    ensures ReadUnit(EscapeUnit(u) + x) == Some((u, x))
  {
    var t := EscapeUnit(u) + x;
    if EscapeUnit(u) == UnicodeEscape(u) {
      ReadUnicodeEscape(u, x);
    } else if EscapeUnit(u) == [u] {
      assert t[1..] == x;
    } else {
      assert t[2..] == x;
    }
  }

  /** Reading one unit off the front of a text takes one step of `ReadString`. */
  lemma ReadStep(e: Text, u: CodeUnit, tail: Text, s: Text, rest: Text)
    requires ReadUnit(e + tail) == Some((u, tail))
    requires ReadString(tail) == (s, rest)
    ensures ReadString(e + tail) == ([u] + s, rest)
  {
  }

  lemma ReadRawUnit(u: CodeUnit, tail: Text)
    requires u != QUOTE && u != BACKSLASH
    ensures ReadUnit([u] + tail) == Some((u, tail))
  {
    assert ([u] + tail)[1..] == tail;
  }

  lemma ReadPair(hi: CodeUnit, lo: CodeUnit, tail: Text, s: Text, rest: Text)
    requires IsHigh(hi) && IsLow(lo) && ReadString(tail) == (s, rest)
    ensures ReadString([hi, lo] + tail) == ([hi, lo] + s, rest)
  {
    ReadRawUnit(lo, tail);
    ReadStep([lo], lo, tail, s, rest);
    ReadRawUnit(hi, [lo] + tail);
    ReadStep([hi], hi, [lo] + tail, [lo] + s, rest);
    assert [hi] + ([lo] + tail) == [hi, lo] + tail;
    assert [hi] + ([lo] + s) == [hi, lo] + s;
  }

  lemma Associate(a: Text, b: Text, c: Text)
    ensures a + b + c == a + (b + c)
  {
  }

  lemma {:induction false} ReadEscaped(s: Text, close: Text)
    requires close != [] && close[0] == QUOTE
    ensures ReadString(Escape(s) + close) == (s, close)
  {
    if s == [] {
      assert Escape(s) + close == close;
    } else if |s| > 1 && IsHigh(s[0]) && IsLow(s[1]) {
      var tail := Escape(s[2..]);
      Associate([s[0], s[1]], tail, close);
      ReadEscaped(s[2..], close);
      ReadPair(s[0], s[1], tail + close, s[2..], close);
      assert s == [s[0], s[1]] + s[2..];
    } else {
      var tail := Escape(s[1..]);
      Associate(EscapeUnit(s[0]), tail, close);
      ReadEscaped(s[1..], close);
      ReadEscapedUnit(s[0], tail + close);
      ReadStep(EscapeUnit(s[0]), s[0], tail + close, s[1..], close);
      assert s == [s[0]] + s[1..];
    }
  }

  /** A string literal ends where it ends: no literal is a proper prefix of another text that starts
      with a different literal. */
  lemma QuotedCut(s: Text, t: Text, x: Text, y: Text)
    requires Quoted(s) + x == Quoted(t) + y
    ensures s == t && x == y
  {
    assert (Quoted(s) + x)[1..] == Escape(s) + ([QUOTE] + x);
    assert (Quoted(t) + y)[1..] == Escape(t) + ([QUOTE] + y);
    ReadEscaped(s, [QUOTE] + x);
    ReadEscaped(t, [QUOTE] + y);
    assert ([QUOTE] + x)[1..] == x && ([QUOTE] + y)[1..] == y;
  }

  // ---- what is printed is a literal of the grammar ----

  /** No control character, and every surrogate in a pair. */
  predicate IsClean(t: Text)
    decreases |t|
  {
    if t == [] then true
    else if IsHigh(t[0]) then |t| > 1 && IsLow(t[1]) && IsClean(t[2..])
    else t[0] >= 0x20 && !IsLow(t[0]) && IsClean(t[1..])
  }

  lemma {:induction false} CleanAppends(s: Text, t: Text)
    requires IsClean(s) && IsClean(t)
    ensures IsClean(s + t)
    decreases |s|
  {
    if s == [] {
      assert s + t == t;
    } else if IsHigh(s[0]) {
      CleanAppends(s[2..], t);
      assert (s + t)[2..] == s[2..] + t;
    } else {
      CleanAppends(s[1..], t);
      assert (s + t)[1..] == s[1..] + t;
    }
  }

  lemma {:induction false} AsciiIsClean(t: Text)
    requires forall u :: u in t ==> 0x20 <= u < 0x80
    ensures IsClean(t)
  {
    if t != [] {
      assert t[0] in t && forall u :: u in t[1..] ==> u in t;
      AsciiIsClean(t[1..]);
    }
  }

  lemma EscapedUnitIsClean(u: CodeUnit)
    ensures IsClean(EscapeUnit(u))
  {
    if EscapeUnit(u) != [u] {
      assert forall v :: v in EscapeUnit(u) ==> 0x20 <= v < 0x80;
      AsciiIsClean(EscapeUnit(u));
    }
  }

  /** A printed literal has no control character and no lone surrogate, whatever the string has. */
  lemma {:induction false} EscapedIsClean(s: Text)
    ensures IsClean(Escape(s))
  {
    if s == [] {
    } else if |s| > 1 && IsHigh(s[0]) && IsLow(s[1]) {
      EscapedIsClean(s[2..]);
      assert IsClean([s[0], s[1]]);
      CleanAppends([s[0], s[1]], Escape(s[2..]));
    } else {
      EscapedUnitIsClean(s[0]);
      EscapedIsClean(s[1..]);
      CleanAppends(EscapeUnit(s[0]), Escape(s[1..]));
    }
  }

  /** The two halves of the surrogates, a thousand and twenty-four each. */
  lemma SurrogatesAre(u: CodeUnit)
    ensures IsHigh(u) <==> u / 1024 == 54
    ensures IsLow(u) <==> u / 1024 == 55
  {
  }
}
