/**
  Strings of the TOML library: the string parser (util/toml.hpp, parse_basic_string,
  parse_literal_string, parse_string) and the formatter's print_string, over the code points
  the reader delivers, and exactly which strings survive being printed and parsed again.
 */
module StringText {
  import opened Wrappers
  import opened Utf8
  import opened CharClasses

  type Text = seq<Scalar>

  const QUOTE: Scalar := '"' as int
  const APOSTROPHE: Scalar := '\'' as int
  const BACKSLASH: Scalar := '\\' as int
  const LF: Scalar := 0x0A
  const CR: Scalar := 0x0D
  const TAB: Scalar := 0x09

  // ---------------------------------------------------------------------------------------
  // What the parser reads
  // ---------------------------------------------------------------------------------------

  /** A string literal read off the front of a text: its value and what follows it. */
  datatype Literal = Literal(value: Text, rest: Text)

  function Prepend(v: Text, l: Option<Literal>): Option<Literal> {
    match l
    case None => None
    case Some(Literal(value, rest)) => Some(Literal(v + value, rest))
  }

  datatype Break = NoBreak | BadBreak | Broke(rest: Text)

  /** consume_line_break */
  function LineBreak(s: Text): (b: Break)
    ensures b.Broke? ==> |b.rest| < |s|
  {
    if s == [] then NoBreak
    else if s[0] == 0x0B || s[0] == 0x0C then BadBreak
    else if s[0] == CR then (if |s| > 1 && s[1] == LF then Broke(s[2..]) else BadBreak)
    else if s[0] == LF then Broke(s[1..])
    else NoBreak
  }

  /** consume_leading_whitespace: only space and tab are legal */
  function LeadingWhitespace(s: Text): (r: Option<Text>)
    ensures r.Some? ==> |r.value| <= |s|
  {
    if s == [] || !IsHorizontalWhitespace(s[0]) then Some(s)
    else if !IsAsciiHorizontalWhitespace(s[0]) then None
    else LeadingWhitespace(s[1..])
  }

  /** How many times q is repeated at the front, counted up to cap. */
  function Repeats(s: Text, q: Scalar, cap: nat): (n: nat)
    ensures n <= |s| && n <= cap
  {
    if cap == 0 || s == [] || s[0] != q then 0 else 1 + Repeats(s[1..], q, cap - 1)
  }

  datatype HexNumber = HexNumber(value: nat, rest: Text)

  /** The hexadecimal digits of an escape, from the given place value down. */
  function HexDigits(s: Text, place: nat): (r: Option<HexNumber>)
    ensures r.Some? ==> |r.value.rest| <= |s|
    decreases |s|
  {
    if place == 0 then Some(HexNumber(0, s))
    else if s == [] || !IsHexDigit(s[0]) then None
    else
      match HexDigits(s[1..], place / 16)
      case None => None
      case Some(HexNumber(v, rest)) => Some(HexNumber(place * HexToDec(s[0]) + v, rest))
  }

  predicate IsScalar(v: int) { 0 <= v < 0xD800 || 0xE000 <= v < 0x11_0000 }

  function SimpleEscape(c: Scalar): Option<Scalar> {
    if c == 'b' as int then Some(0x08) else if c == 'f' as int then Some(0x0C)
    else if c == 'n' as int then Some(LF) else if c == 'r' as int then Some(CR)
    else if c == 't' as int then Some(TAB) else if c == QUOTE then Some(QUOTE)
    else if c == BACKSLASH then Some(BACKSLASH) else None
  }

  /** A run of delimiters inside a multi-line string: one or two belong to it, three to five close it. */
  function Delimiters(s: Text, q: Scalar, n: nat): Option<Literal>
    requires 3 <= n <= |s|
  {
    Some(Literal(seq(n - 3, _ => q), s[n..]))
  }

  /** The body of a basic string, from a character that is not escaped. */
  function Basic(s: Text, multi: bool, skipping: bool): (r: Option<Literal>)
    ensures r.Some? ==> |r.value.rest| < |s|
    decreases |s|, 1
  {
    if s == [] then None
    else if s[0] == QUOTE then
      if !multi then Some(Literal([], s[1..]))
      else
        var n := Repeats(s, QUOTE, 5);
        if n <= 2 then assert n > 0; Prepend(s[..n], Basic(s[n..], multi, false)) else Delimiters(s, QUOTE, n)
    else if s[0] == BACKSLASH then Escaped(s[1..], multi)
    else if multi && IsAsciiVerticalWhitespace(s[0]) then
      match LineBreak(s)
      case Broke(rest) => Prepend(if skipping then [] else [LF], Basic(rest, multi, skipping))
      case _ => None
    else if IsNonTabControl(s[0]) then None
    else if multi && skipping && IsHorizontalWhitespace(s[0]) then Basic(s[1..], multi, skipping)
    else Prepend(s[..1], Basic(s[1..], multi, false))
  }

  /** The body of a basic string, from the character after a backslash. */
  function Escaped(s: Text, multi: bool): (r: Option<Literal>)
    ensures r.Some? ==> |r.value.rest| < |s|
    decreases |s|, 0
  {
    if s == [] then None
    else if multi && IsWhitespace(s[0]) then
      match LeadingWhitespace(s)
      case None => None
      case Some(line) =>
        match LineBreak(line)
        case Broke(rest) => Basic(rest, multi, true)
        case _ => None
    else if SimpleEscape(s[0]).Some? then Prepend([SimpleEscape(s[0]).value], Basic(s[1..], multi, false))
    else if s[0] == 'u' as int || s[0] == 'U' as int then
      match HexDigits(s[1..], if s[0] == 'U' as int then 0x1000_0000 else 0x1000)
      case None => None
      case Some(HexNumber(v, rest)) =>
        if IsScalar(v) then Prepend([v], Basic(rest, multi, false)) else None
    else None
  }

  /** The body of a literal string. */
  function Verbatim(s: Text, multi: bool): (r: Option<Literal>)
    ensures r.Some? ==> |r.value.rest| < |s|
    decreases |s|
  {
    if s == [] then None
    else if s[0] == APOSTROPHE then
      if !multi then Some(Literal([], s[1..]))
      else
        var n := Repeats(s, APOSTROPHE, 5);
        if n <= 2 then assert n > 0; Prepend(s[..n], Verbatim(s[n..], multi)) else Delimiters(s, APOSTROPHE, n)
    else if multi && IsAsciiVerticalWhitespace(s[0]) then
      match LineBreak(s)
      case Broke(rest) => Prepend([LF], Verbatim(rest, multi))
      case _ => None
    else if IsNonTabControl(s[0]) then None
    else Prepend(s[..1], Verbatim(s[1..], multi))
  }

  /** After the opening delimiter: a multi-line string drops one immediate line break. */
  function Body(s: Text, multi: bool, verbatim: bool): Option<Literal> {
    if !multi then (if verbatim then Verbatim(s, false) else Basic(s, false, false))
    else
      match LineBreak(s)
      case BadBreak => None
      case Broke(rest) => if verbatim then Verbatim(rest, true) else Basic(rest, true, false)
      case NoBreak => if verbatim then Verbatim(s, true) else Basic(s, true, false)
  }

  datatype StringRead = StringRead(literal: Literal, multi: bool)

  /** parse_string, on a text that begins with a delimiter. */
  function ReadString(s: Text): Option<StringRead>
    requires s != [] && IsStringDelimiter(s[0])
  {
    var verbatim := s[0] == APOSTROPHE;
    if |s| < 2 then None
    else if |s| == 2 then (if s[1] == s[0] then Some(StringRead(Literal([], []), false)) else None)
    else
      var multi := s[0] == s[1] == s[2];
      match Body(if multi then s[3..] else s[1..], multi, verbatim)
      case None => None
      case Some(l) => Some(StringRead(l, multi))
  }

  // ---------------------------------------------------------------------------------------
  // What the formatter prints
  // ---------------------------------------------------------------------------------------

  /** The formatter's flags, and the two arguments of print_string. */
  datatype Options = Options(literal: bool, multiLine: bool, unicode: bool, realTabs: bool,
                             allowMultiLine: bool, allowBare: bool)

  predicate IsControlTrait(c: Scalar) {
    c != LF && c != TAB && c != APOSTROPHE && (IsControl(c) || IsNonAsciiVerticalWhitespace(c))
  }

  predicate IsNonBare(c: Scalar) {
    c != LF && c != TAB && c != APOSTROPHE && !IsBareKeyCharacter(c)
  }

  predicate HasControl(cs: Text) { exists k :: 0 <= k < |cs| && IsControlTrait(cs[k]) }

  predicate HasNonAscii(cs: Text) { exists k :: 0 <= k < |cs| && cs[k] > 0x7F }

  predicate AllBare(cs: Text) { forall k :: 0 <= k < |cs| ==> !IsNonBare(cs[k]) }

  /** Printed in triple quotes? */
  predicate UsesMultiLine(cs: Text, o: Options) { o.allowMultiLine && o.multiLine && LF in cs }

  /** Printed in single quotes, without escapes? */
  predicate UsesVerbatim(cs: Text, o: Options) {
    && o.literal && !HasControl(cs) && (APOSTROPHE in cs ==> UsesMultiLine(cs, o))
    && (TAB in cs ==> o.realTabs) && (HasNonAscii(cs) ==> o.unicode)
  }

  /** An upper-case hexadecimal digit. */
  function HexDigit(d: nat): Scalar
    requires d < 16
  {
    if d < 10 then '0' as int + d else 'A' as int + (d - 10)
  }

  /** n digits with leading zeros. */
  function Hex(v: nat, n: nat): (t: Text)
    ensures |t| == n && forall k :: 0 <= k < n ==> t[k] < 0x80
  {
    if n == 0 then [] else Hex(v / 16, n - 1) + [HexDigit(v % 16)]
  }

  /** The table control_char_escapes. */
  function ControlEscape(c: nat): (t: Text)
    requires c <= 0x1F
  {
    if c == 0x08 then [BACKSLASH, 'b' as int] else if c == TAB then [BACKSLASH, 't' as int]
    else if c == LF then [BACKSLASH, 'n' as int] else if c == 0x0C then [BACKSLASH, 'f' as int]
    else if c == CR then [BACKSLASH, 'r' as int] else [BACKSLASH, 'u' as int] + Hex(c, 4)
  }

  /** How a character is escaped inside double quotes; None when it is printed as it is. */
  function Escape(c: nat, multi: bool, realTabs: bool, unicode: bool): (t: Option<Text>) {
    if c == QUOTE then Some([BACKSLASH, QUOTE])
    else if c == BACKSLASH then Some([BACKSLASH, BACKSLASH])
    else if c == 0x7F then Some([BACKSLASH, 'u' as int] + Hex(0x7F, 4))
    else if c == TAB then (if realTabs then None else Some([BACKSLASH, 't' as int]))
    else if c == LF then (if multi then None else Some([BACKSLASH, 'n' as int]))
    else if c <= 0x1F then Some(ControlEscape(c))
    else if c > 0x7F && (!unicode || IsNonAsciiVerticalWhitespace(c)) then
      Some(if c > 0xFFFF then [BACKSLASH, 'U' as int] + Hex(c, 8) else [BACKSLASH, 'u' as int] + Hex(c, 4))
    else None
  }

  function Shown(c: Scalar, multi: bool, realTabs: bool, unicode: bool): Text {
    match Escape(c, multi, realTabs, unicode)
    case None => [c]
    case Some(t) => t
  }

  function ShownAll(cs: Text, multi: bool, realTabs: bool, unicode: bool): Text {
    if cs == [] then [] else Shown(cs[0], multi, realTabs, unicode) + ShownAll(cs[1..], multi, realTabs, unicode)
  }

  function Delimiter(verbatim: bool, multi: bool): (d: Text)
    ensures |d| == if multi then 3 else 1
  {
    var q := if verbatim then APOSTROPHE else QUOTE;
    if multi then [q, q, q] else [q]
  }

  /** What print_string writes for a well-formed string. */
  function Printed(cs: Text, o: Options): Text {
    var multi, verbatim := UsesMultiLine(cs, o), UsesVerbatim(cs, o);
    if cs == [] then (if o.literal then [APOSTROPHE, APOSTROPHE] else [QUOTE, QUOTE])
    else if o.allowBare && AllBare(cs) then cs
    else
      var d := Delimiter(verbatim, multi);
      d + (if verbatim then cs else ShownAll(cs, multi, o.realTabs, o.unicode)) + d
  }

  // ---------------------------------------------------------------------------------------
  // Reading back escapes
  // ---------------------------------------------------------------------------------------

  function Power16(n: nat): nat { if n == 0 then 1 else 16 * Power16(n - 1) }

  lemma HexDigitReads(d: nat)
    requires d < 16
    ensures IsHexDigit(HexDigit(d)) && HexToDec(HexDigit(d)) == d
  {
  }

  function FoldHex(t: Text): nat
    requires forall k :: 0 <= k < |t| ==> IsHexDigit(t[k])
  {
    if t == [] then 0 else FoldHex(t[..|t| - 1]) * 16 + HexToDec(t[|t| - 1])
  }

  lemma {:induction false} HexFolds(v: nat, n: nat)
    ensures forall k :: 0 <= k < n ==> IsHexDigit(Hex(v, n)[k])
    ensures v < Power16(n) ==> FoldHex(Hex(v, n)) == v
  {
    if n > 0 {
      HexFolds(v / 16, n - 1);
      HexDigitReads(v % 16);
      var t := Hex(v, n);
      assert t[..n - 1] == Hex(v / 16, n - 1);
    }
  }

  /** The four and the eight digits of an escape, read back. */
  lemma ReadsHex(v: nat, n: nat, t: Text)
    requires n == 4 || n == 8
    requires v < Power16(n)
    ensures HexDigits(Hex(v, n) + t, Power16(n - 1)) == Some(HexNumber(v, t))
  {
    HexFolds(v, n);
    ReadsDigits(Hex(v, n), t);
  }

  lemma {:induction false} ReadsDigits(d: Text, t: Text)
    requires d != [] && forall k :: 0 <= k < |d| ==> IsHexDigit(d[k])
    ensures HexDigits(d + t, Power16(|d| - 1)) == Some(HexNumber(FoldHex(d), t))
  {
    assert (d + t)[1..] == d[1..] + t;
    if |d| == 1 {
      assert d[1..] + t == t;
      assert FoldHex(d[..0]) == 0;
    } else {
      assert Power16(|d| - 1) / 16 == Power16(|d| - 2);
      ReadsDigits(d[1..], t);
      FoldFromFront(d);
    }
  }

  lemma {:induction false} FoldFromFront(d: Text)
    requires d != [] && forall k :: 0 <= k < |d| ==> IsHexDigit(d[k])
    ensures FoldHex(d) == Power16(|d| - 1) * HexToDec(d[0]) + FoldHex(d[1..])
  {
    var n := |d| - 1;
    if n == 0 {
      assert FoldHex(d[..0]) == 0;
    } else {
      var front, x, y, last := d[..n], HexToDec(d[0]), FoldHex(d[1..n]), HexToDec(d[n]);
      FoldFromFront(front);
      assert front[1..] == d[1..n] == d[1..][..n - 1];
      assert FoldHex(d[1..]) == y * 16 + last;
      assert FoldHex(d) == (Power16(n - 1) * x + y) * 16 + last;
      ShiftsIn(Power16(n - 1), x, y, last);
    }
  }

  lemma ShiftsIn(p: nat, x: nat, y: nat, last: nat)
    ensures (p * x + y) * 16 + last == (16 * p) * x + (y * 16 + last)
  {
  }

  // ---------------------------------------------------------------------------------------
  // Double quotes: every string is read back, but for a first line feed between triple quotes
  // ---------------------------------------------------------------------------------------

  lemma ReadsRaw(c: Scalar, t: Text, multi: bool)
    requires c != QUOTE && c != BACKSLASH && (IsNonTabControl(c) ==> c == LF && multi)
    ensures Basic([c] + t, multi, false) == Prepend([c], Basic(t, multi, false))
  {
    assert ([c] + t)[1..] == t && ([c] + t)[..1] == [c];
  }

  lemma ReadsSimpleEscape(e: Scalar, v: Scalar, t: Text, multi: bool)
    requires SimpleEscape(e) == Some(v)
    ensures Basic([BACKSLASH, e] + t, multi, false) == Prepend([v], Basic(t, multi, false))
  {
    var s := [BACKSLASH, e] + t;
    assert s[1..] == [e] + t && ([e] + t)[1..] == t;
  }

  lemma ReadsUnicodeEscape(c: Scalar, n: nat, t: Text, multi: bool)
    requires (n == 4 && c <= 0xFFFF) || n == 8
    ensures Basic([BACKSLASH, if n == 4 then 'u' as int else 'U' as int] + Hex(c, n) + t, multi, false)
         == Prepend([c], Basic(t, multi, false))
  {
    var e: Scalar := if n == 4 then 'u' as int else 'U' as int;
    var digits := Hex(c, n) + t;
    PowersOf16();
    ReadsHex(c, n, t);
    EscapeOpens(e, digits, multi);
    assert [BACKSLASH, e] + Hex(c, n) + t == [BACKSLASH] + ([e] + digits);
    BackslashOpens([e] + digits, multi);
  }

  lemma BackslashOpens(s: Text, multi: bool)
    ensures Basic([BACKSLASH] + s, multi, false) == Escaped(s, multi)
  {
    assert ([BACKSLASH] + s)[1..] == s;
  }

  lemma EscapeOpens(e: Scalar, digits: Text, multi: bool)
    requires e == 'u' as int || e == 'U' as int
    ensures var h := HexDigits(digits, if e == 'U' as int then 0x1000_0000 else 0x1000);
            h.Some? && IsScalar(h.value.value)
            ==> Escaped([e] + digits, multi) == Prepend([h.value.value], Basic(h.value.rest, multi, false))
  {
    assert ([e] + digits)[1..] == digits;
  }

  lemma ReadsShown(c: Scalar, t: Text, multi: bool, realTabs: bool, unicode: bool)
    ensures Basic(Shown(c, multi, realTabs, unicode) + t, multi, false) == Prepend([c], Basic(t, multi, false))
  {
    var shown := Shown(c, multi, realTabs, unicode);
    if |shown| == 1 {
      ReadsRaw(c, t, multi);
    } else if |shown| == 2 {
      assert shown == [BACKSLASH, shown[1]];
      ReadsSimpleEscape(shown[1], c, t, multi);
    } else {
      ReadsUnicodeEscape(c, |shown| - 2, t, multi);
    }
  }

  lemma PowersOf16()
    ensures Power16(3) == 0x1000 && Power16(4) == 0x1_0000 && Power16(7) == 0x1000_0000 && Power16(8) == 0x1_0000_0000
  {
    assert Power16(2) == 256;
    assert Power16(5) == 0x10_0000 && Power16(6) == 0x100_0000;
  }

  lemma {:induction false} ReadsShownAll(cs: Text, t: Text, multi: bool, realTabs: bool, unicode: bool)
    ensures Basic(ShownAll(cs, multi, realTabs, unicode) + t, multi, false) == Prepend(cs, Basic(t, multi, false))
  {
    if cs == [] {
      assert [] + t == t;
      PrependNothing(Basic(t, multi, false));
    } else {
      var shown, more := Shown(cs[0], multi, realTabs, unicode), ShownAll(cs[1..], multi, realTabs, unicode);
      assert (shown + more) + t == shown + (more + t);
      ReadsShown(cs[0], more + t, multi, realTabs, unicode);
      ReadsShownAll(cs[1..], t, multi, realTabs, unicode);
      PrependTwice([cs[0]], cs[1..], Basic(t, multi, false));
      assert [cs[0]] + cs[1..] == cs;
    }
  }

  lemma PrependNothing(l: Option<Literal>)
    ensures Prepend([], l) == l
  {
    if l.Some? {
      assert [] + l.value.value == l.value.value;
    }
  }

  lemma PrependTwice(a: Text, b: Text, l: Option<Literal>)
    ensures Prepend(a, Prepend(b, l)) == Prepend(a + b, l)
  {
    if l.Some? {
      assert a + (b + l.value.value) == (a + b) + l.value.value;
    }
  }

  predicate Closes(rest: Text) { rest == [] || !IsStringDelimiter(rest[0]) }

  lemma ClosingRepeats(q: Scalar, n: nat, rest: Text)
    requires rest == [] || rest[0] != q
    requires n <= 5
    ensures Repeats(seq(n, _ => q) + rest, q, 5) == n
  {
    RepeatsExactly(q, n, rest, 5);
  }

  lemma {:induction false} RepeatsExactly(q: Scalar, n: nat, rest: Text, cap: nat)
    requires rest == [] || rest[0] != q
    requires n <= cap
    ensures Repeats(seq(n, _ => q) + rest, q, cap) == n
  {
    var s := seq(n, _ => q) + rest;
    if n == 0 {
      assert s == rest;
    } else {
      assert s[1..] == seq(n - 1, _ => q) + rest;
      RepeatsExactly(q, n - 1, rest, cap - 1);
    }
  }

  lemma ClosesQuoted(rest: Text, multi: bool)
    requires Closes(rest)
    ensures Basic(Delimiter(false, multi) + rest, multi, false) == Some(Literal([], rest))
  {
    if multi {
      assert Delimiter(false, true) == seq(3, _ => QUOTE);
      ClosingRepeats(QUOTE, 3, rest);
      assert (Delimiter(false, true) + rest)[3..] == rest;
      assert Delimiters(Delimiter(false, true) + rest, QUOTE, 3).value.value == [];
    } else {
      assert ([QUOTE] + rest)[1..] == rest;
    }
  }

  /** The body and the closing delimiter of a double-quoted string. */
  lemma ReadsQuoted(cs: Text, rest: Text, multi: bool, realTabs: bool, unicode: bool)
    requires Closes(rest)
    ensures Basic(ShownAll(cs, multi, realTabs, unicode) + Delimiter(false, multi) + rest, multi, false)
            == Some(Literal(cs, rest))
  {
    var shown, d := ShownAll(cs, multi, realTabs, unicode), Delimiter(false, multi);
    assert shown + d + rest == shown + (d + rest);
    ReadsShownAll(cs, d + rest, multi, realTabs, unicode);
    ClosesQuoted(rest, multi);
    assert cs + [] == cs;
  }

  // ---------------------------------------------------------------------------------------
  // Single quotes: exactly which strings are read back
  // ---------------------------------------------------------------------------------------

  lemma {:induction false} ReadsVerbatimLine(cs: Text, rest: Text)
    requires !HasControl(cs) && APOSTROPHE !in cs
    ensures Verbatim(cs + [APOSTROPHE] + rest, false) == if LF in cs then None else Some(Literal(cs, rest))
  {
    var s := cs + [APOSTROPHE] + rest;
    if cs == [] {
      assert s[1..] == rest;
    } else {
      assert s[1..] == cs[1..] + [APOSTROPHE] + rest && s[..1] == [cs[0]];
      assert s[0] == cs[0] && !IsControlTrait(cs[0]);
      TailKeeps(cs);
      ReadsVerbatimLine(cs[1..], rest);
      assert [cs[0]] + cs[1..] == cs;
    }
  }

  lemma TailKeeps(cs: Text)
    requires cs != []
    ensures !HasControl(cs) ==> !HasControl(cs[1..])
    ensures forall c :: c in cs <==> c == cs[0] || c in cs[1..]
  {
    assert cs == [cs[0]] + cs[1..];
    forall k | 0 <= k < |cs[1..]| && IsControlTrait(cs[1..][k])
      ensures HasControl(cs)
    {
      assert IsControlTrait(cs[k + 1]);
    }
  }

  predicate TripleAt(cs: Text, i: nat) {
    i + 3 <= |cs| && cs[i] == cs[i + 1] == cs[i + 2] == APOSTROPHE
  }

  predicate HasTriple(cs: Text) { exists i :: 0 <= i < |cs| && TripleAt(cs, i) }

  /** The apostrophes a text begins with, split off. */
  lemma {:induction false} SplitsRun(cs: Text) returns (k: nat)
    ensures k <= |cs| && cs[..k] == seq(k, _ => APOSTROPHE) && (k == |cs| || cs[k] != APOSTROPHE)
    ensures !HasControl(cs) ==> !HasControl(cs[k..])
    ensures HasTriple(cs) <==> k >= 3 || HasTriple(cs[k..])
  {
    k := 0;
    while k < |cs| && cs[k] == APOSTROPHE
      invariant k <= |cs| && cs[..k] == seq(k, _ => APOSTROPHE)
    {
      k := k + 1;
    }
    if k >= 3 {
      assert TripleAt(cs, 0);
    }
    forall i | 0 <= i < |cs| && TripleAt(cs, i)
      ensures k >= 3 || HasTriple(cs[k..])
    {
      if k < 3 {
        assert i >= k;
        assert TripleAt(cs[k..], i - k);
      }
    }
    forall i | 0 <= i < |cs[k..]| && TripleAt(cs[k..], i)
      ensures HasTriple(cs)
    {
      assert TripleAt(cs, i + k);
    }
    forall i | 0 <= i < |cs[k..]| && IsControlTrait(cs[k..][i])
      ensures HasControl(cs)
    {
      assert IsControlTrait(cs[i + k]);
    }
  }

  const TRIPLE: Text := [APOSTROPHE, APOSTROPHE, APOSTROPHE]

  /** Without three apostrophes in a row the text is the value; with them, parsing ends too early. */
  ghost predicate ReadsUpTo(l: Option<Literal>, cs: Text, rest: Text) {
    if HasTriple(cs) then l.Some? ==> |l.value.rest| > |rest| else l == Some(Literal(cs, rest))
  }

  lemma {:induction false} ReadsVerbatimMulti(cs: Text, rest: Text)
    requires !HasControl(cs) && Closes(rest)
    ensures ReadsUpTo(Verbatim(cs + TRIPLE + rest, true), cs, rest)
    decreases |cs|
  {
    var s := cs + TRIPLE + rest;
    var k := SplitsRun(cs);
    if k == |cs| && k <= 2 {
      assert s == seq(k + 3, _ => APOSTROPHE) + rest;
      ClosingRun(k, rest);
      assert seq(k, _ => APOSTROPHE) == cs;
      assert !HasTriple(cs[k..]);
    } else if k >= 3 {
      LongRun(s);
    } else if k > 0 {
      ReadsVerbatimMulti(cs[k..], rest);
      AfterShortRun(cs, k, rest);
    } else {
      TailKeeps(cs);
      ReadsVerbatimMulti(cs[1..], rest);
      AfterOrdinary(cs, rest);
    }
  }

  lemma AfterShortRun(cs: Text, k: nat, rest: Text)
    requires 1 <= k <= 2 && k < |cs| && cs[k] != APOSTROPHE && (forall i :: 0 <= i < k ==> cs[i] == APOSTROPHE)
    requires (HasTriple(cs) <==> HasTriple(cs[k..]))
             && ReadsUpTo(Verbatim(cs[k..] + TRIPLE + rest, true), cs[k..], rest)
    ensures ReadsUpTo(Verbatim(cs + TRIPLE + rest, true), cs, rest)
  {
    var t := cs[k..] + TRIPLE + rest;
    assert cs + TRIPLE + rest == seq(k, _ => APOSTROPHE) + t && seq(k, _ => APOSTROPHE) == cs[..k];
    ShortRun(k, t);
    ReadsOn(Verbatim(t, true), cs, k, rest);
  }

  lemma AfterOrdinary(cs: Text, rest: Text)
    requires cs != [] && cs[0] != APOSTROPHE && !HasControl(cs)
    requires ReadsUpTo(Verbatim(cs[1..] + TRIPLE + rest, true), cs[1..], rest)
    ensures ReadsUpTo(Verbatim(cs + TRIPLE + rest, true), cs, rest)
  {
    var t := cs[1..] + TRIPLE + rest;
    assert cs + TRIPLE + rest == [cs[0]] + t && !IsControlTrait(cs[0]) && [cs[0]] == cs[..1];
    OrdinaryCharacter(cs[0], t);
    TripleInTail(cs);
    ReadsOn(Verbatim(t, true), cs, 1, rest);
  }

  lemma ReadsOn(l: Option<Literal>, cs: Text, k: nat, rest: Text)
    requires k <= |cs| && (HasTriple(cs) <==> HasTriple(cs[k..])) && ReadsUpTo(l, cs[k..], rest)
    ensures ReadsUpTo(Prepend(cs[..k], l), cs, rest)
  {
    assert cs[..k] + cs[k..] == cs;
  }

  lemma ShortRun(k: nat, t: Text)
    requires 1 <= k <= 2 && t != [] && t[0] != APOSTROPHE
    ensures var q := seq(k, _ => APOSTROPHE); Verbatim(q + t, true) == Prepend(q, Verbatim(t, true))
  {
    var q := seq(k, _ => APOSTROPHE);
    ClosingRepeats(APOSTROPHE, k, t);
    assert (q + t)[..k] == q && (q + t)[k..] == t;
  }

  lemma OrdinaryCharacter(c: Scalar, t: Text)
    requires c != APOSTROPHE && !IsControlTrait(c)
    ensures Verbatim([c] + t, true) == Prepend([c], Verbatim(t, true))
  {
    assert ([c] + t)[1..] == t && ([c] + t)[..1] == [c];
  }

  lemma TripleInTail(cs: Text)
    requires cs != [] && cs[0] != APOSTROPHE
    ensures HasTriple(cs) <==> HasTriple(cs[1..])
  {
    forall i | 0 <= i < |cs| && TripleAt(cs, i)
      ensures HasTriple(cs[1..])
    {
      assert TripleAt(cs[1..], i - 1);
    }
    forall i | 0 <= i < |cs[1..]| && TripleAt(cs[1..], i)
      ensures HasTriple(cs)
    {
      assert TripleAt(cs, i + 1);
    }
  }

  lemma ClosingRun(k: nat, rest: Text)
    requires k <= 2 && Closes(rest)
    ensures Verbatim(seq(k + 3, _ => APOSTROPHE) + rest, true) == Some(Literal(seq(k, _ => APOSTROPHE), rest))
  {
    ClosingRepeats(APOSTROPHE, k + 3, rest);
    assert (seq(k + 3, _ => APOSTROPHE) + rest)[k + 3..] == rest;
  }

  lemma LongRun(s: Text)
    requires |s| >= 3 && s[0] == s[1] == s[2] == APOSTROPHE
    ensures Repeats(s, APOSTROPHE, 5) >= 3
    ensures Verbatim(s, true).Some? && |Verbatim(s, true).value.rest| >= |s| - 5
  {
    assert s[1..][0] == s[1] && s[1..][1..][0] == s[2];
    assert Repeats(s[1..][1..], APOSTROPHE, 3) >= 1;
  }

  // ---------------------------------------------------------------------------------------
  // The round trip, on code points
  // ---------------------------------------------------------------------------------------

  /** When printing and parsing gives a string back: in terms of the branch print_string takes. */
  predicate Survives(cs: Text, o: Options) {
    var multi, verbatim := UsesMultiLine(cs, o), UsesVerbatim(cs, o);
    && (multi ==> cs[0] != LF)
    && (verbatim && !multi ==> LF !in cs)
    && (verbatim && multi ==> !HasTriple(cs))
  }

  predicate ReadsBack(s: Text, cs: Text, rest: Text)
  {
    s != [] && IsStringDelimiter(s[0]) && ReadString(s).Some? && ReadString(s).value.literal == Literal(cs, rest)
  }

  lemma EmptyTextRoundTrip(o: Options, rest: Text)
    requires Closes(rest)
    ensures ReadsBack(Printed([], o) + rest, [], rest)
  {
    var s := Printed([], o) + rest;
    assert s[0] == s[1] && s[1..][1..] == rest;
    if rest != [] {
      assert s[2] == rest[0];
    }
  }

  /** For every string, every combination of flags and every continuation of the document. */
  lemma TextRoundTrip(cs: Text, o: Options, rest: Text)
    requires !o.allowBare && Closes(rest)
    ensures ReadsBack(Printed(cs, o) + rest, cs, rest) <==> Survives(cs, o)
  {
    if cs == [] {
      EmptyTextRoundTrip(o, rest);
    } else if UsesVerbatim(cs, o) {
      if UsesMultiLine(cs, o) { VerbatimMultiRoundTrip(cs, o, rest); } else { VerbatimLineRoundTrip(cs, o, rest); }
    } else {
      if UsesMultiLine(cs, o) { QuotedMultiRoundTrip(cs, o, rest); } else { QuotedLineRoundTrip(cs, o, rest); }
    }
  }

  lemma VerbatimLineRoundTrip(cs: Text, o: Options, rest: Text)
    requires cs != [] && !o.allowBare && UsesVerbatim(cs, o) && !UsesMultiLine(cs, o) && Closes(rest)
    ensures ReadsBack(Printed(cs, o) + rest, cs, rest) <==> LF !in cs
  {
    var body := cs + [APOSTROPHE] + rest;
    assert Printed(cs, o) + rest == [APOSTROPHE] + body;
    assert body[0] == cs[0] && cs[0] in cs;
    OpensLine(body, true, cs, rest);
    ReadsVerbatimLine(cs, rest);
  }

  /** One delimiter followed by something else opens a one-line body. */
  lemma OpensLine(body: Text, verbatim: bool, cs: Text, rest: Text)
    requires |body| >= 2 && body[0] != Delimiter(verbatim, false)[0]
    ensures ReadsBack(Delimiter(verbatim, false) + body, cs, rest)
            <==> Body(body, false, verbatim) == Some(Literal(cs, rest))
  {
    assert (Delimiter(verbatim, false) + body)[1..] == body;
  }

  /** Three equal delimiters open a multi-line body. */
  lemma OpensMulti(body: Text, verbatim: bool, cs: Text, rest: Text)
    ensures ReadsBack(Delimiter(verbatim, true) + body, cs, rest)
            <==> Body(body, true, verbatim) == Some(Literal(cs, rest))
  {
    assert (Delimiter(verbatim, true) + body)[3..] == body;
  }

  lemma VerbatimMultiRoundTrip(cs: Text, o: Options, rest: Text)
    requires cs != [] && !o.allowBare && UsesVerbatim(cs, o) && UsesMultiLine(cs, o) && Closes(rest)
    ensures ReadsBack(Printed(cs, o) + rest, cs, rest) <==> cs[0] != LF && !HasTriple(cs)
  {
    assert Printed(cs, o) + rest == Delimiter(true, true) + (cs + TRIPLE + rest);
    OpensMulti(cs + TRIPLE + rest, true, cs, rest);
    VerbatimBody(cs, rest);
  }

  lemma VerbatimBody(cs: Text, rest: Text)
    requires cs != [] && !HasControl(cs) && Closes(rest)
    ensures Body(cs + TRIPLE + rest, true, true) == Some(Literal(cs, rest)) <==> cs[0] != LF && !HasTriple(cs)
  {
    var body := cs + TRIPLE + rest;
    assert body[0] == cs[0] && !IsControlTrait(cs[0]);
    if cs[0] == LF {
      assert body[1..] == cs[1..] + TRIPLE + rest;
      TailKeeps(cs);
      ReadsVerbatimMulti(cs[1..], rest);
    } else {
      ReadsVerbatimMulti(cs, rest);
    }
  }

  lemma QuotedLineRoundTrip(cs: Text, o: Options, rest: Text)
    requires cs != [] && !o.allowBare && !UsesVerbatim(cs, o) && !UsesMultiLine(cs, o) && Closes(rest)
    ensures ReadsBack(Printed(cs, o) + rest, cs, rest)
  {
    var shown := ShownAll(cs, false, o.realTabs, o.unicode);
    var body := shown + [QUOTE] + rest;
    assert Printed(cs, o) + rest == [QUOTE] + body;
    assert body[0] == Shown(cs[0], false, o.realTabs, o.unicode)[0];
    OpensLine(body, false, cs, rest);
    ReadsQuoted(cs, rest, false, o.realTabs, o.unicode);
  }

  lemma QuotedMultiRoundTrip(cs: Text, o: Options, rest: Text)
    requires cs != [] && !o.allowBare && !UsesVerbatim(cs, o) && UsesMultiLine(cs, o) && Closes(rest)
    ensures ReadsBack(Printed(cs, o) + rest, cs, rest) <==> cs[0] != LF
  {
    var d, shown := Delimiter(false, true), ShownAll(cs, true, o.realTabs, o.unicode);
    assert Printed(cs, o) + rest == d + (shown + d + rest);
    OpensMulti(shown + d + rest, false, cs, rest);
    QuotedBody(cs, rest, o.realTabs, o.unicode);
  }

  /** A first line feed between triple quotes is dropped, and nothing else is. */
  lemma QuotedBody(cs: Text, rest: Text, realTabs: bool, unicode: bool)
    requires cs != [] && Closes(rest)
    ensures Body(ShownAll(cs, true, realTabs, unicode) + Delimiter(false, true) + rest, true, false)
         == Some(Literal(if cs[0] == LF then cs[1..] else cs, rest))
  {
    var t := Delimiter(false, true) + rest;
    var body := ShownAll(cs, true, realTabs, unicode) + Delimiter(false, true) + rest;
    var first, tail := Shown(cs[0], true, realTabs, unicode), ShownAll(cs[1..], true, realTabs, unicode);
    assert body == first + (tail + Delimiter(false, true) + rest);
    FirstShown(cs[0], tail + Delimiter(false, true) + rest, realTabs, unicode);
    if cs[0] == LF {
      ReadsQuoted(cs[1..], rest, true, realTabs, unicode);
    } else {
      ReadsQuoted(cs, rest, true, realTabs, unicode);
    }
  }

  lemma FirstShown(c: Scalar, t: Text, realTabs: bool, unicode: bool)
    ensures LineBreak(Shown(c, true, realTabs, unicode) + t) == if c == LF then Broke(t) else NoBreak
  {
    var shown := Shown(c, true, realTabs, unicode);
    assert (shown + t)[0] == shown[0];
    if c == LF {
      assert (shown + t)[1..] == t;
    }
  }
}
