/**
  Strings in numbers: what the string parser and print_string (util/toml.hpp) do with single
  characters, told in code points and without the tables and functions they are modelled with.
  The reference is TOML v1.0.0, section "String".
 */
module StringLaws {
  import opened Wrappers
  import opened Utf8
  import opened Utf8Reader
  import opened CharClasses
  import opened StringText
  import opened StringFormatter

  /** Characters that stand for themselves between quotes: no control, no quote, no backslash. */
  predicate Ordinary(t: Text) {
    forall k :: 0 <= k < |t| ==> t[k] >= 0x20 && t[k] != 0x22 && t[k] != 0x5C && t[k] != 0x7F
  }

  /** What an opening delimiter of one or three quotes makes of the text after it. */
  function Opened(l: Option<Literal>, multi: bool): Option<StringRead> {
    if l.None? then None else Some(StringRead(l.value, multi))
  }

  // ---------------------------------------------------------------------------------------
  // Reading: prefixes and delimiters
  // ---------------------------------------------------------------------------------------

  lemma {:induction false} OrdinaryReads(a: Text, t: Text, multi: bool)
    requires Ordinary(a)
    ensures Basic(a + t, multi, false) == Prepend(a, Basic(t, multi, false))
  {
    if a == [] {
      assert a + t == t;
      PrependNothing(Basic(t, multi, false));
    } else {
      var tail := a[1..];
      assert a + t == [a[0]] + (tail + t) && a == [a[0]] + tail;
      ReadsRaw(a[0], tail + t, multi);
      OrdinaryReads(tail, t, multi);
      PrependTwice([a[0]], tail, Basic(t, multi, false));
    }
  }

  /** A quote and something else open a one-line string. */
  lemma LineOpens(body: Text)
    requires |body| >= 2 && body[0] != 0x22
    ensures ReadString([0x22] + body) == Opened(Basic(body, false, false), false)
  {
    assert ([0x22] + body)[1..] == body;
  }

  /** Three quotes open a multi-line string; what begins with no line end is all of it. */
  lemma BlockOpens(body: Text)
    requires body == [] || body[0] < 0x0A || body[0] > 0x0D
    ensures ReadString([0x22, 0x22, 0x22] + body) == Opened(Basic(body, true, false), true)
  {
    FirstLine(body);
    assert ([0x22, 0x22, 0x22] + body)[3..] == body;
  }

  lemma FirstLine(body: Text)
    requires body == [] || body[0] < 0x0A || body[0] > 0x0D
    ensures Body(body, true, false) == Basic(body, true, false)
  {
  }

  lemma LineCloses(b: Text, rest: Text)
    requires Ordinary(b)
    ensures Basic(b + [0x22] + rest, false, false) == Some(Literal(b, rest))
  {
    assert b + [0x22] + rest == b + ([0x22] + rest) && ([0x22] + rest)[1..] == rest;
    OrdinaryReads(b, [0x22] + rest, false);
    assert b + [] == b;
  }

  lemma BlockCloses(b: Text, rest: Text)
    requires Ordinary(b) && Closes(rest)
    ensures Basic(b + [0x22, 0x22, 0x22] + rest, true, false) == Some(Literal(b, rest))
  {
    assert b + [0x22, 0x22, 0x22] + rest == b + (Delimiter(false, true) + rest);
    OrdinaryReads(b, Delimiter(false, true) + rest, true);
    ClosesQuoted(rest, true);
    assert b + [] == b;
  }

  /** One way to bracket a text. */
  lemma Nested(d: Text, a: Text, e: Text, t: Text)
    ensures d + a + e + t == d + (a + (e + t))
  {
  }

  lemma NestedTail(x: Text, b: Text, d: Text, rest: Text)
    ensures x + b + d + rest == x + (b + d + rest)
  {
  }

  // ---------------------------------------------------------------------------------------
  // Reading: escapes
  // ---------------------------------------------------------------------------------------

  /** After a backslash b, t, n, f, r, a quote and a backslash stand for 8, 9, 10, 12, 13 and themselves. */
  lemma EscapesMean(a: Text, e: Scalar, b: Text, rest: Text)
    requires Ordinary(a) && Ordinary(b) && e in [0x62, 0x74, 0x6E, 0x66, 0x72, 0x22, 0x5C]
    ensures var v: Scalar := if e == 0x62 then 0x08 else if e == 0x74 then 0x09 else if e == 0x6E then 0x0A
                             else if e == 0x66 then 0x0C else if e == 0x72 then 0x0D else e;
            ReadString([0x22] + a + [0x5C, e] + b + [0x22] + rest)
            == Some(StringRead(Literal(a + [v] + b, rest), false))
            && (Closes(rest) ==> ReadString([0x22, 0x22, 0x22] + a + [0x5C, e] + b + [0x22, 0x22, 0x22] + rest)
                                 == Some(StringRead(Literal(a + [v] + b, rest), true)))
  {
    var v: Scalar := if e == 0x62 then 0x08 else if e == 0x74 then 0x09 else if e == 0x6E then 0x0A
                     else if e == 0x66 then 0x0C else if e == 0x72 then 0x0D else e;
    EscapedLine(a, e, v, b, rest);
    if Closes(rest) {
      EscapedBlock(a, e, v, b, rest);
    }
  }

  lemma EscapedLine(a: Text, e: Scalar, v: Scalar, b: Text, rest: Text)
    requires Ordinary(a) && Ordinary(b) && SimpleEscape(e) == Some(v)
    ensures ReadString([0x22] + a + [0x5C, e] + b + [0x22] + rest)
            == Some(StringRead(Literal(a + [v] + b, rest), false))
  {
    var t := b + [0x22] + rest;
    ReadsEscaped(a, e, v, t, false);
    LineCloses(b, rest);
    OpensAfter(a, [0x5C, e] + t);
    NestedTail([0x22] + a + [0x5C, e], b, [0x22], rest);
    Nested([0x22], a, [0x5C, e], t);
  }

  lemma EscapedBlock(a: Text, e: Scalar, v: Scalar, b: Text, rest: Text)
    requires Ordinary(a) && Ordinary(b) && SimpleEscape(e) == Some(v) && Closes(rest)
    ensures ReadString([0x22, 0x22, 0x22] + a + [0x5C, e] + b + [0x22, 0x22, 0x22] + rest)
            == Some(StringRead(Literal(a + [v] + b, rest), true))
  {
    var d: Text := [0x22, 0x22, 0x22];
    var t := b + d + rest;
    ReadsEscaped(a, e, v, t, true);
    BlockCloses(b, rest);
    OpensAfter(a, [0x5C, e] + t);
    NestedTail(d + a + [0x5C, e], b, d, rest);
    Nested(d, a, [0x5C, e], t);
  }

  lemma ReadsEscaped(a: Text, e: Scalar, v: Scalar, t: Text, multi: bool)
    requires Ordinary(a) && SimpleEscape(e) == Some(v)
    ensures Basic(a + ([0x5C, e] + t), multi, false) == Prepend(a + [v], Basic(t, multi, false))
  {
    OrdinaryReads(a, [0x5C, e] + t, multi);
    ReadsSimpleEscape(e, v, t, multi);
    PrependTwice(a, [v], Basic(t, multi, false));
  }

  /** Ordinary characters and a backslash do not close the string they open, nor end its first line. */
  lemma OpensAfter(a: Text, t: Text)
    requires Ordinary(a) && |t| >= 2 && t[0] == 0x5C
    ensures ReadString([0x22] + (a + t)) == Opened(Basic(a + t, false, false), false)
    ensures ReadString([0x22, 0x22, 0x22] + (a + t)) == Opened(Basic(a + t, true, false), true)
  {
    assert (a + t)[0] == if a == [] then t[0] else a[0];
    LineOpens(a + t);
    BlockOpens(a + t);
  }

  /** Nothing else but u and U is accepted there, and white space in multi-line strings. */
  lemma OtherEscapesFail(a: Text, e: Scalar, t: Text)
    requires Ordinary(a) && e !in [0x62, 0x74, 0x6E, 0x66, 0x72, 0x22, 0x5C, 0x75, 0x55]
    ensures ReadString([0x22] + a + [0x5C, e] + t) == None
    ensures e >= 0x21 && e != 0x85 && e < 0xA0 ==> ReadString([0x22, 0x22, 0x22] + a + [0x5C, e] + t) == None
  {
    var s := [0x5C, e] + t;
    assert [0x22] + a + [0x5C, e] + t == [0x22] + (a + s);
    assert [0x22, 0x22, 0x22] + a + [0x5C, e] + t == [0x22, 0x22, 0x22] + (a + s);
    OpensAfter(a, s);
    OrdinaryReads(a, s, false);
    OrdinaryReads(a, s, true);
    assert s[1..] == [e] + t;
  }

  /** The value of four hexadecimal digits. */
  function Four(d: Text): nat
    requires |d| == 4 && forall k :: 0 <= k < 4 ==> IsHexDigit(d[k])
  {
    0x1000 * HexToDec(d[0]) + 0x100 * HexToDec(d[1]) + 0x10 * HexToDec(d[2]) + HexToDec(d[3])
  }

  /** The letter u and four digits, or U and eight, stand for the code point they number, if there is one. */
  lemma CodePointsMean(a: Text, d: Text, b: Text, rest: Text)
    requires Ordinary(a) && Ordinary(b) && |d| == 4 && forall k :: 0 <= k < 4 ==> IsHexDigit(d[k])
    ensures var s := [0x22] + a + [0x5C, 0x75] + d + b + [0x22] + rest;
            ReadString(s) == if 0xD800 <= Four(d) < 0xE000 then None
                             else Some(StringRead(Literal(a + [Four(d)] + b, rest), false))
  {
    var v := Four(d);
    var t := b + [0x22] + rest;
    FourDigits(d, t);
    CodePointReads(a, 0x75, d + t, v, t);
    LineCloses(b, rest);
    OpensAfter(a, [0x5C, 0x75] + (d + t));
    NestedTail([0x22] + a + [0x5C, 0x75] + d, b, [0x22], rest);
    NestedDigits([0x22], a, [0x5C, 0x75], d, t);
  }

  lemma LongCodePointsMean(a: Text, d: Text, f: Text, b: Text, rest: Text)
    requires Ordinary(a) && Ordinary(b) && |d| == 4 && |f| == 4
    requires forall k :: 0 <= k < 4 ==> IsHexDigit(d[k]) && IsHexDigit(f[k])
    ensures var s, v := [0x22] + a + [0x5C, 0x55] + d + f + b + [0x22] + rest, 0x1_0000 * Four(d) + Four(f);
            ReadString(s)
            == if v < 0xD800 || 0xE000 <= v < 0x11_0000 then Some(StringRead(Literal(a + [v] + b, rest), false))
               else None
  {
    var v := 0x1_0000 * Four(d) + Four(f);
    var t := b + [0x22] + rest;
    EightDigits(d, f, t);
    CodePointReads(a, 0x55, d + f + t, v, t);
    LineCloses(b, rest);
    OpensAfter(a, [0x5C, 0x55] + (d + f + t));
    NestedTail([0x22] + a + [0x5C, 0x55] + d + f, b, [0x22], rest);
    NestedDigits([0x22], a, [0x5C, 0x55], d + f, t);
    assert [0x22] + a + [0x5C, 0x55] + (d + f) == [0x22] + a + [0x5C, 0x55] + d + f;
  }

  lemma NestedDigits(q: Text, a: Text, e: Text, d: Text, t: Text)
    ensures q + a + e + d + t == q + (a + (e + (d + t)))
  {
    Nested(q, a, e, d + t);
  }

  lemma CodePointReads(a: Text, e: Scalar, digits: Text, v: nat, t: Text)
    requires Ordinary(a) && (e == 0x75 || e == 0x55)
    requires HexDigits(digits, if e == 0x55 then 0x1000_0000 else 0x1000) == Some(HexNumber(v, t))
    ensures Basic(a + ([0x5C, e] + digits), false, false)
            == if IsScalar(v) then Prepend(a + [v], Basic(t, false, false)) else None
  {
    var s := [0x5C, e] + digits;
    OrdinaryReads(a, s, false);
    assert s[1..] == [e] + digits && ([e] + digits)[1..] == digits;
    if IsScalar(v) {
      PrependTwice(a, [v], Basic(t, false, false));
    }
  }

  lemma DigitFirst(c: Scalar, t: Text, place: nat)
    requires place > 0 && IsHexDigit(c)
    ensures HexDigits([c] + t, place)
            == match HexDigits(t, place / 16)
               case None => None
               case Some(HexNumber(v, rest)) => Some(HexNumber(place * HexToDec(c) + v, rest))
  {
    assert ([c] + t)[1..] == t;
  }

  lemma FourDigits(d: Text, t: Text)
    requires |d| == 4 && forall k :: 0 <= k < 4 ==> IsHexDigit(d[k])
    ensures HexDigits(d + t, 0x1000) == Some(HexNumber(Four(d), t))
  {
    assert d + t == [d[0]] + ([d[1]] + ([d[2]] + ([d[3]] + t)));
    DigitFirst(d[0], [d[1]] + ([d[2]] + ([d[3]] + t)), 0x1000);
    DigitFirst(d[1], [d[2]] + ([d[3]] + t), 0x100);
    DigitFirst(d[2], [d[3]] + t, 0x10);
    DigitFirst(d[3], t, 1);
  }

  lemma EightDigits(d: Text, f: Text, t: Text)
    requires |d| == 4 && |f| == 4 && forall k :: 0 <= k < 4 ==> IsHexDigit(d[k]) && IsHexDigit(f[k])
    ensures HexDigits(d + f + t, 0x1000_0000) == Some(HexNumber(0x1_0000 * Four(d) + Four(f), t))
  {
    FourDigits(f, t);
    var u := f + t;
    assert d + f + t == [d[0]] + ([d[1]] + ([d[2]] + ([d[3]] + u)));
    DigitFirst(d[0], [d[1]] + ([d[2]] + ([d[3]] + u)), 0x1000_0000);
    DigitFirst(d[1], [d[2]] + ([d[3]] + u), 0x100_0000);
    DigitFirst(d[2], [d[3]] + u, 0x10_0000);
    DigitFirst(d[3], u, 0x1_0000);
  }

  // ---------------------------------------------------------------------------------------
  // Reading: quotes, controls and line ends
  // ---------------------------------------------------------------------------------------

  /** Between single quotes everything stands for itself, backslashes too. */
  lemma VerbatimMeans(a: Text, rest: Text)
    requires forall k :: 0 <= k < |a| ==> (a[k] == 0x09 || a[k] >= 0x20) && a[k] != 0x27 && a[k] != 0x7F
    requires a == [] ==> Closes(rest)
    ensures ReadString([0x27] + a + [0x27] + rest) == Some(StringRead(Literal(a, rest), false))
  {
    var body := a + [0x27] + rest;
    VerbatimReads(a, [0x27] + rest, false);
    assert body == a + ([0x27] + rest) && ([0x27] + rest)[1..] == rest && a + [] == a;
    var s := [0x27] + body;
    assert s == [0x27] + a + [0x27] + rest && s[1..] == body;
    if a == [] {
      assert body[1..] == rest;
      if rest != [] {
        assert s[2] == rest[0];
      }
    } else {
      assert s[1] == a[0];
    }
  }

  lemma {:induction false} VerbatimReads(a: Text, t: Text, multi: bool)
    requires forall k :: 0 <= k < |a| ==> (a[k] == 0x09 || a[k] >= 0x20) && a[k] != 0x27 && a[k] != 0x7F
    ensures Verbatim(a + t, multi)
            == match Verbatim(t, multi) case None => None case Some(l) => Some(Literal(a + l.value, l.rest))
  {
    if a == [] {
      assert a + t == t;
      if Verbatim(t, multi).Some? {
        assert [] + Verbatim(t, multi).value.value == Verbatim(t, multi).value.value;
      }
    } else {
      var tail := a[1..];
      assert (a + t)[1..] == tail + t && (a + t)[..1] == [a[0]] && a == [a[0]] + tail;
      VerbatimReads(tail, t, multi);
      if Verbatim(t, multi).Some? {
        var v := Verbatim(t, multi).value.value;
        assert [a[0]] + (tail + v) == a + v;
      }
    }
  }

  /** A line end in a multi-line literal string is a line feed, with or without a carriage return before it. */
  lemma VerbatimLineEnds(a: Text, end: Text, b: Text, rest: Text)
    requires forall k :: 0 <= k < |a| ==> a[k] >= 0x20 && a[k] != 0x27 && a[k] != 0x7F
    requires forall k :: 0 <= k < |b| ==> b[k] >= 0x20 && b[k] != 0x27 && b[k] != 0x7F
    requires a != [] && Closes(rest) && (end == [0x0A] || end == [0x0D, 0x0A])
    ensures var d: Text := [0x27, 0x27, 0x27];
            ReadString(d + a + end + b + d + rest) == Some(StringRead(Literal(a + [0x0A] + b, rest), true))
  {
    var d: Text := [0x27, 0x27, 0x27];
    var t := b + d + rest;
    VerbatimCloses(b, rest);
    VerbatimReads(a, end + t, true);
    VerbatimLineEnd(end, t, b, rest);
    VerbatimOpens(a + (end + t));
    NestedTail(d + a + end, b, d, rest);
    Nested(d, a, end, t);
    assert a + ([0x0A] + b) == a + [0x0A] + b;
  }

  lemma VerbatimLineEnd(end: Text, t: Text, b: Text, rest: Text)
    requires (end == [0x0A] || end == [0x0D, 0x0A]) && Verbatim(t, true) == Some(Literal(b, rest))
    ensures Verbatim(end + t, true) == Some(Literal([0x0A] + b, rest))
  {
    assert (end + t)[|end|..] == t;
  }

  lemma VerbatimOpens(body: Text)
    requires body != [] && (body[0] < 0x0A || body[0] > 0x0D)
    ensures ReadString([0x27, 0x27, 0x27] + body) == Opened(Verbatim(body, true), true)
  {
    assert ([0x27, 0x27, 0x27] + body)[3..] == body;
    assert Body(body, true, true) == Verbatim(body, true);
  }

  lemma VerbatimCloses(b: Text, rest: Text)
    requires forall k :: 0 <= k < |b| ==> b[k] >= 0x20 && b[k] != 0x27 && b[k] != 0x7F
    requires Closes(rest)
    ensures Verbatim(b + [0x27, 0x27, 0x27] + rest, true) == Some(Literal(b, rest))
  {
    var d: Text := [0x27, 0x27, 0x27];
    VerbatimEnds(rest);
    VerbatimReads(b, d + rest, true);
    Together(b, d, rest);
    assert b + [] == b;
  }

  lemma Together(a: Text, b: Text, c: Text)
    ensures a + b + c == a + (b + c)
  {
  }

  lemma VerbatimEnds(rest: Text)
    requires Closes(rest)
    ensures Verbatim([0x27, 0x27, 0x27] + rest, true) == Some(Literal([], rest))
  {
    ClosingRun(0, rest);
    assert seq(0 + 3, _ => APOSTROPHE) == [0x27, 0x27, 0x27] && seq(0, _ => APOSTROPHE) == [];
  }

  /** Controls but the tab are refused; in a multi-line string line ends are not. */
  lemma ControlsFail(a: Text, c: Scalar, t: Text)
    requires Ordinary(a) && t != [] && (c < 0x20 || c == 0x7F) && c != 0x09
    ensures ReadString([0x22] + a + [c] + t) == None
    ensures c < 0x0A || c > 0x0D ==> ReadString([0x22, 0x22, 0x22] + a + [c] + t) == None
    ensures (c == 0x0B || c == 0x0C) && a != [] ==> ReadString([0x22, 0x22, 0x22] + a + [c] + t) == None
  {
    var s := [c] + t;
    assert [0x22] + a + [c] + t == [0x22] + (a + s);
    assert [0x22, 0x22, 0x22] + a + [c] + t == [0x22, 0x22, 0x22] + (a + s);
    assert (a + s)[0] == if a == [] then c else a[0];
    LineOpens(a + s);
    OrdinaryReads(a, s, false);
    if a != [] || c < 0x0A || c > 0x0D {
      BlockOpens(a + s);
      OrdinaryReads(a, s, true);
    }
  }

  /** A line end in a multi-line string is a line feed, with or without a carriage return before it. */
  lemma LineEndsMean(a: Text, end: Text, b: Text, rest: Text)
    requires Ordinary(a) && Ordinary(b) && a != [] && Closes(rest) && (end == [0x0A] || end == [0x0D, 0x0A])
    ensures var d: Text := [0x22, 0x22, 0x22];
            ReadString(d + a + end + b + d + rest) == Some(StringRead(Literal(a + [0x0A] + b, rest), true))
  {
    var d: Text := [0x22, 0x22, 0x22];
    var t := b + d + rest;
    BlockCloses(b, rest);
    assert (end + t)[|end|..] == t;
    LineEndReads(a, end + t, Broke(t));
    NestedTail(d + a + end, b, d, rest);
    Nested(d, a, end, t);
  }

  /** A carriage return alone is none. */
  lemma CarriageReturnFails(a: Text, t: Text)
    requires Ordinary(a) && a != [] && (t != [] ==> t[0] != 0x0A)
    ensures ReadString([0x22, 0x22, 0x22] + a + [0x0D] + t) == None
  {
    var s := [0x0D] + t;
    assert [0x22, 0x22, 0x22] + a + [0x0D] + t == [0x22, 0x22, 0x22] + (a + s);
    LineEndReads(a, s, BadBreak);
  }

  lemma LineEndReads(a: Text, s: Text, end: Break)
    requires Ordinary(a) && a != [] && s != [] && (s[0] == 0x0A || s[0] == 0x0D) && LineBreak(s) == end
    ensures end.Broke? ==>
              ReadString([0x22, 0x22, 0x22] + (a + s))
              == Opened(Prepend(a + [0x0A], Basic(end.rest, true, false)), true)
    ensures end == BadBreak ==> ReadString([0x22, 0x22, 0x22] + (a + s)) == None
  {
    BlockOpens(a + s);
    OrdinaryReads(a, s, true);
    if end.Broke? {
      PrependTwice(a, [0x0A], Basic(end.rest, true, false));
    }
  }

  /** White space, line ends included, after a backslash at the end of a line. */
  predicate Blank(w: Text) { forall k :: 0 <= k < |w| ==> w[k] == 0x20 || w[k] == 0x09 || w[k] == 0x0A }

  /** A backslash at the end of a line, but for blanks, takes away the line end and all white space after it. */
  lemma BackslashTrims(a: Text, v: Text, w: Text, b: Text, rest: Text)
    requires Ordinary(a) && Blank(v) && 0x0A !in v && Blank(w) && Ordinary(b) && Closes(rest)
    requires b != [] && 0x20 < b[0] < 0x7F
    ensures var d: Text := [0x22, 0x22, 0x22];
            ReadString(d + a + ([0x5C] + v + [0x0A]) + w + b + d + rest) == Some(StringRead(Literal(a + b, rest), true))
  {
    var d: Text := [0x22, 0x22, 0x22];
    var t := b + d + rest;
    var e := [0x5C] + v + [0x0A];
    Trims(a, v, w, t);
    AfterSkipping(t);
    BlockCloses(b, rest);
    NestedTail(d + a + e + w, b, d, rest);
    NestedDigits(d, a, e, w, t);
  }

  lemma Trims(a: Text, v: Text, w: Text, t: Text)
    requires Ordinary(a) && Blank(v) && 0x0A !in v && Blank(w)
    ensures ReadString([0x22, 0x22, 0x22] + (a + (([0x5C] + v + [0x0A]) + (w + t))))
            == Opened(Prepend(a, Basic(t, true, true)), true)
  {
    var u := w + t;
    var s := ([0x5C] + v + [0x0A]) + u;
    assert s == [0x5C] + (v + ([0x0A] + u));
    OpensAfter(a, s);
    OrdinaryReads(a, s, true);
    EscapedBlanks(v, u);
    BackslashOpens(v + ([0x0A] + u), true);
    Skips(w, t);
  }

  lemma EscapedBlanks(v: Text, u: Text)
    requires Blank(v) && 0x0A !in v
    ensures Escaped(v + ([0x0A] + u), true) == Basic(u, true, true)
  {
    var s := v + ([0x0A] + u);
    assert s[0] == if v == [] then 0x0A else v[0];
    BlanksFirst(v, [0x0A] + u);
    assert ([0x0A] + u)[1..] == u;
  }

  lemma {:induction false} BlanksFirst(v: Text, u: Text)
    requires Blank(v) && 0x0A !in v && u != [] && u[0] == 0x0A
    ensures LeadingWhitespace(v + u) == Some(u)
  {
    if v == [] {
      assert v + u == u;
    } else {
      assert v[0] in v && (v + u)[1..] == v[1..] + u;
      BlanksFirst(v[1..], u);
    }
  }

  lemma AfterSkipping(t: Text)
    requires t != [] && 0x20 < t[0] < 0x7F && t[0] != 0x22 && t[0] != 0x5C
    ensures Basic(t, true, true) == Basic(t, true, false)
  {
  }

  lemma {:induction false} Skips(w: Text, t: Text)
    requires Blank(w)
    ensures Basic(w + t, true, true) == Basic(t, true, true)
  {
    if w == [] {
      assert w + t == t;
    } else {
      assert (w + t)[1..] == w[1..] + t;
      Skips(w[1..], t);
      PrependNothing(Basic(w[1..] + t, true, true));
    }
  }

  /** One or two quotes belong to a multi-line string. */
  lemma FewQuotesMean(a: Text, n: nat, b: Text, rest: Text)
    requires Ordinary(a) && Ordinary(b) && a != [] && b != [] && 1 <= n <= 2 && Closes(rest)
    ensures var d, q: Text := [0x22, 0x22, 0x22], seq(n, _ => 0x22);
            ReadString(d + a + q + b + d + rest) == Some(StringRead(Literal(a + q + b, rest), true))
  {
    var d, q: Text := [0x22, 0x22, 0x22], seq(n, _ => 0x22);
    var t := b + d + rest;
    NestedTail(d + a + q, b, d, rest);
    Nested(d, a, q, t);
    BlockOpens(a + (q + t));
    OrdinaryReads(a, q + t, true);
    assert t[0] == b[0];
    QuotesRead(q, n, t);
    BlockCloses(b, rest);
    assert a + (q + b) == a + q + b;
  }

  /** Three to five close it, and those before the last three belong to it. */
  lemma ManyQuotesMean(a: Text, n: nat, rest: Text)
    requires Ordinary(a) && a != [] && 3 <= n <= 5 && Closes(rest)
    ensures var d, q: Text := [0x22, 0x22, 0x22], seq(n, _ => 0x22);
            ReadString(d + a + q + rest) == Some(StringRead(Literal(a + seq(n - 3, _ => 0x22), rest), true))
  {
    var d, q: Text := [0x22, 0x22, 0x22], seq(n, _ => 0x22);
    Nested(d, a, q, rest);
    BlockOpens(a + (q + rest));
    OrdinaryReads(a, q + rest, true);
    QuotesRead(q, n, rest);
  }

  lemma QuotesRead(q: Text, n: nat, t: Text)
    requires 1 <= n <= 5 && q == seq(n, _ => 0x22) && (t == [] || t[0] != 0x22)
    ensures Basic(q + t, true, false)
            == if n <= 2 then Prepend(q, Basic(t, true, false)) else Some(Literal(seq(n - 3, _ => 0x22), t))
  {
    ClosingRepeats(0x22, n, t);
    assert (q + t)[..n] == q && (q + t)[n..] == t;
  }

  // ---------------------------------------------------------------------------------------
  // Printing
  // ---------------------------------------------------------------------------------------

  /** Neither a control but tab and line feed, nor a line separator beyond ASCII. */
  predicate Quiet(c: Scalar) { (c >= 0x20 || c == 0x09 || c == 0x0A) && c !in {0x7F, 0x85, 0x2028, 0x2029} }

  predicate BareLetter(c: Scalar) {
    0x61 <= c <= 0x7A || 0x41 <= c <= 0x5A || 0x30 <= c <= 0x39 || c in {0x2D, 0x5F, 0x0A, 0x09, 0x27}
  }

  /** Three quotes are for multi-line strings with a line feed, where flags and caller allow them; single quotes for
      literal strings that have no control to escape, no single quote on one line, and no tab or character beyond ASCII
      unless that is allowed; double quotes for the rest. A literal string is printed as it is. */
  lemma FormPrinted(cs: Text, o: Options)
    requires cs != []
    ensures var multi := o.allowMultiLine && o.multiLine && 0x0A in cs;
            var literal := o.literal && (forall c <- cs :: Quiet(c)) && (0x27 in cs ==> multi)
                           && (0x09 in cs ==> o.realTabs) && ((exists c <- cs :: c >= 0x80) ==> o.unicode);
            var q: Scalar := if literal then 0x27 else 0x22;
            if o.allowBare && forall c <- cs :: BareLetter(c) then Printed(cs, o) == cs
            else Between(Printed(cs, o), if multi then [q, q, q] else [q])
                 && (literal ==> Inside(Printed(cs, o), if multi then 3 else 1) == cs)
  {
    ControlsAreLoud(cs);
    BareLetters(cs);
    NonAsciiMeans(cs);
    if !(o.allowBare && AllBare(cs)) {
      var literal, multi := UsesVerbatim(cs, o), UsesMultiLine(cs, o);
      var body := if literal then cs else ShownAll(cs, multi, o.realTabs, o.unicode);
      if !literal {
        assert body[0] == Shown(cs[0], multi, o.realTabs, o.unicode)[0];
      } else if !multi {
        assert body[0] in cs;
      }
      Enclosed(body, Delimiter(literal, multi));
    }
  }

  /** Delimiters of one or of three characters at both ends, and of one only if the next character is another. */
  predicate Between(t: Text, d: Text) {
    |t| > 2 * |d| && t[..|d|] == d && t[|t| - |d|..] == d && (|d| == 1 ==> t[1] != d[0])
  }

  function Inside(t: Text, n: nat): Text
    requires |t| >= 2 * n
  {
    t[n..|t| - n]
  }

  lemma Enclosed(body: Text, d: Text)
    requires body != [] && (|d| == 1 ==> body[0] != d[0])
    ensures Between(d + body + d, d) && Inside(d + body + d, |d|) == body
  {
  }

  lemma ControlsAreLoud(cs: Text)
    ensures HasControl(cs) <==> exists c <- cs :: !Quiet(c)
  {
    forall k | 0 <= k < |cs|
      ensures IsControlTrait(cs[k]) <==> !Quiet(cs[k])
    {
    }
    if c :| c in cs && !Quiet(c) {
      var k :| 0 <= k < |cs| && cs[k] == c;
      assert IsControlTrait(cs[k]);
    }
  }

  lemma BareLetters(cs: Text)
    ensures AllBare(cs) <==> forall c <- cs :: BareLetter(c)
  {
    assert forall c: Scalar :: IsNonBare(c) <==> !BareLetter(c);
    if AllBare(cs) {
      forall c <- cs
        ensures BareLetter(c)
      {
        var k :| 0 <= k < |cs| && cs[k] == c;
        assert !IsNonBare(cs[k]);
      }
    }
  }

  lemma NonAsciiMeans(cs: Text)
    ensures HasNonAscii(cs) <==> exists c <- cs :: c >= 0x80
  {
    if HasNonAscii(cs) {
      var k :| 0 <= k < |cs| && cs[k] > 0x7F;
      assert cs[k] in cs;
    }
  }

  /** Printable ASCII without a double quote and a backslash. */
  predicate Plain(t: Text) { forall k :: 0 <= k < |t| ==> 0x20 <= t[k] < 0x7F && t[k] != 0x22 && t[k] != 0x5C }

  /** An upper-case hexadecimal digit. */
  function Upper(d: nat): Scalar
    requires d < 16
  {
    if d < 10 then 0x30 + d else 0x37 + d
  }

  lemma {:induction false} PlainShown(a: Text, multi: bool, realTabs: bool, unicode: bool)
    requires Plain(a)
    ensures ShownAll(a, multi, realTabs, unicode) == a
  {
    if a != [] {
      PlainShown(a[1..], multi, realTabs, unicode);
      assert [a[0]] + a[1..] == a;
    }
  }

  lemma {:induction false} ShownTogether(a: Text, b: Text, multi: bool, realTabs: bool, unicode: bool)
    ensures ShownAll(a + b, multi, realTabs, unicode)
            == ShownAll(a, multi, realTabs, unicode) + ShownAll(b, multi, realTabs, unicode)
  {
    if a == [] {
      assert a + b == b;
    } else {
      assert (a + b)[1..] == a[1..] + b;
      ShownTogether(a[1..], b, multi, realTabs, unicode);
    }
  }

  lemma ShownBetween(a: Text, c: Scalar, b: Text, multi: bool, realTabs: bool, unicode: bool)
    requires Plain(a) && Plain(b)
    ensures ShownAll(a + [c] + b, multi, realTabs, unicode) == a + Shown(c, multi, realTabs, unicode) + b
  {
    ShownTogether(a + [c], b, multi, realTabs, unicode);
    ShownTogether(a, [c], multi, realTabs, unicode);
    PlainShown(a, multi, realTabs, unicode);
    PlainShown(b, multi, realTabs, unicode);
    OneShown(c, multi, realTabs, unicode);
  }

  lemma OneShown(c: Scalar, multi: bool, realTabs: bool, unicode: bool)
    ensures ShownAll([c], multi, realTabs, unicode) == Shown(c, multi, realTabs, unicode)
  {
    assert [c][1..] == [] && ShownAll([], multi, realTabs, unicode) == [];
  }

  /** A character between plain ones, in a string that is neither bare nor literal. */
  lemma BetweenPlain(a: Text, c: Scalar, b: Text, o: Options)
    requires Plain(a) && Plain(b) && !o.allowBare && !o.literal
    ensures var multi := o.allowMultiLine && o.multiLine && c == 0x0A;
            var d: Text := if multi then [0x22, 0x22, 0x22] else [0x22];
            Printed(a + [c] + b, o) == d + a + Shown(c, multi, o.realTabs, o.unicode) + b + d
  {
    var multi := UsesMultiLine(a + [c] + b, o);
    LineFeedAmongPlain(a, c, b);
    ShownBetween(a, c, b, multi, o.realTabs, o.unicode);
    Regroup(Delimiter(false, multi), a, Shown(c, multi, o.realTabs, o.unicode), b);
  }

  lemma LineFeedAmongPlain(a: Text, c: Scalar, b: Text)
    requires Plain(a) && Plain(b)
    ensures LF in a + [c] + b <==> c == LF
  {
    assert (a + [c] + b)[|a|] == c;
  }

  lemma Regroup(d: Text, a: Text, e: Text, b: Text)
    ensures d + (a + e + b) + d == d + a + e + b + d
  {
  }

  /** Backspace, tab, line feed, form feed, carriage return, quote and backslash are printed as a backslash and b, t, n,
      f, r, a quote and a backslash; tabs and the line feeds of a multi-line string as they are, where allowed. */
  lemma EscapesPrinted(a: Text, c: Scalar, b: Text, o: Options)
    requires Plain(a) && Plain(b) && !o.allowBare && !o.literal
    requires c in [0x08, 0x09, 0x0A, 0x0C, 0x0D, 0x22, 0x5C]
    ensures var e: Scalar := if c == 0x08 then 0x62 else if c == 0x09 then 0x74 else if c == 0x0A then 0x6E
                             else if c == 0x0C then 0x66 else if c == 0x0D then 0x72 else c;
            var multi := c == 0x0A && o.allowMultiLine && o.multiLine;
            Printed(a + [c] + b, o)
            == if multi then [0x22, 0x22, 0x22] + a + [0x0A] + b + [0x22, 0x22, 0x22]
               else if c == 0x09 && o.realTabs then [0x22] + a + [0x09] + b + [0x22]
               else [0x22] + a + [0x5C, e] + b + [0x22]
  {
    BetweenPlain(a, c, b, o);
  }

  /** Other controls, and what is beyond ASCII unless it is allowed, are printed as a backslash, u and four digits, or U
      and eight. */
  lemma CodePointsPrinted(a: Text, c: Scalar, b: Text, o: Options)
    requires Plain(a) && Plain(b) && !o.allowBare && !o.literal
    requires (c < 0x20 && c !in [0x08, 0x09, 0x0A, 0x0C, 0x0D]) || c >= 0x7F
    ensures Printed(a + [c] + b, o)
            == [0x22] + a + (if c >= 0x80 && o.unicode && c !in {0x85, 0x2028, 0x2029} then [c]
                             else if c < 0x1_0000 then [0x5C, 0x75] + FourUpper(c)
                             else [0x5C, 0x55] + FourUpper(c / 0x1_0000) + FourUpper(c)) + b + [0x22]
  {
    BetweenPlain(a, c, b, o);
    ShownCodePoint(c, o.realTabs, o.unicode);
  }

  /** The last four hexadecimal digits of a number. */
  function FourUpper(v: nat): Text {
    [Upper(v / 0x1000 % 16), Upper(v / 0x100 % 16), Upper(v / 0x10 % 16), Upper(v % 16)]
  }

  lemma ShownCodePoint(c: Scalar, realTabs: bool, unicode: bool)
    requires (c < 0x20 && c !in [0x08, 0x09, 0x0A, 0x0C, 0x0D]) || c >= 0x7F
    ensures Shown(c, false, realTabs, unicode)
            == if c >= 0x80 && unicode && c !in {0x85, 0x2028, 0x2029} then [c]
               else if c < 0x1_0000 then [0x5C, 0x75] + FourUpper(c)
               else [0x5C, 0x55] + FourUpper(c / 0x1_0000) + FourUpper(c)
  {
    FourPrinted(c);
    EightPrinted(c);
    var high, low := FourUpper(c / 0x1_0000), FourUpper(c);
    assert [0x5C, 0x55] + high + low == [0x5C, 0x55] + (high + low);
  }

  lemma FourPrinted(v: nat)
    ensures Hex(v, 4) == FourUpper(v)
  {
    HexLast(v, 3);
    HexLast(v / 16, 2);
    HexLast(v / 16 / 16, 1);
    HexLast(v / 16 / 16 / 16, 0);
    Shifts(v);
  }

  lemma HexLast(v: nat, n: nat)
    ensures Hex(v, n + 1) == Hex(v / 16, n) + [Upper(v % 16)]
  {
  }

  lemma EightPrinted(v: nat)
    ensures Hex(v, 8) == FourUpper(v / 0x1_0000) + FourUpper(v)
  {
    var w := v / 16 / 16 / 16 / 16;
    HexLast(v, 7);
    HexLast(v / 16, 6);
    HexLast(v / 16 / 16, 5);
    HexLast(v / 16 / 16 / 16, 4);
    Shifts(v);
    FourPrinted(w);
  }

  lemma Shifts(v: nat)
    ensures v / 16 / 16 == v / 0x100 && v / 16 / 16 / 16 == v / 0x1000 && v / 16 / 16 / 16 / 16 == v / 0x1_0000
  {
  }

  /** Bytes that are not UTF-8 are printed one by one, as u, two zeros and two digits. */
  lemma {:induction false} BytesPrinted(bytes: seq<Byte>, i: nat)
    requires i < |bytes|
    ensures |ByteEscapes(bytes)| == 6 * |bytes|
    ensures ByteEscapes(bytes)[6 * i..6 * i + 6] == BytePrinted(bytes[i])
  {
    var n := |bytes| - 1;
    LastByte(bytes);
    if n > 0 {
      BytesPrinted(bytes[..n], if i < n then i else 0);
    }
  }

  function BytePrinted(b: Byte): Text { [0x5C, 0x75, 0x30, 0x30, Upper(b / 16), Upper(b % 16)] }

  lemma LastByte(bytes: seq<Byte>)
    requires bytes != []
    ensures ByteEscapes(bytes) == ByteEscapes(bytes[..|bytes| - 1]) + BytePrinted(bytes[|bytes| - 1])
  {
    ByteDigits(bytes[|bytes| - 1]);
  }

  lemma ByteDigits(b: Byte)
    ensures EncodeAll([BACKSLASH, 'u' as int, '0' as int, '0' as int] + Hex(b, 2)) == BytePrinted(b)
  {
    HexLast(b, 1);
    HexLast(b / 16, 0);
    assert [BACKSLASH, 'u' as int, '0' as int, '0' as int] + Hex(b, 2) == BytePrinted(b);
    PlainBytes(BytePrinted(b));
  }

  lemma {:induction false} PlainBytes(t: Text)
    requires forall k :: 0 <= k < |t| ==> t[k] < 0x80
    ensures EncodeAll(t) == t
  {
    if t != [] {
      PlainBytes(t[1..]);
      assert [t[0]] + t[1..] == t;
    }
  }

  /** A string that is one byte which begins no code point. */
  lemma StrayBytePrinted(b: Byte, o: Options)
    requires 0x80 <= b < 0xC2 || b >= 0xF5
    ensures PrintedBytes([b], o) == [0x22] + BytePrinted(b) + [0x22]
  {
    assert START.Feed(b).Error();
    LastByte([b]);
    assert [b][..0] == [] && [b][1..] == [] && [] + [b] == [b];
    assert Read(Reading(START, [], []), [b]).decoder.Error();
    ScanEnds([b]);
    assert Rendering(START, [], [b], o.(unicode := false), false) == BytePrinted(b);
  }
}
