/**
  The string parser of the TOML library (util/toml.hpp), moving a cursor over the code points
  and appending bytes to a buffer; and the round trip of whole strings, on bytes.
 */
module StringParser {
  import opened Wrappers
  import opened Utf8
  import opened CharClasses
  import opened StringText
  import opened StringFormatter

  /** What a parse function leaves: the bytes of its buffer, and the cursor. */
  datatype Parsed = Parsed(value: seq<Byte>, next: nat)

  /** A parse of text agrees with a literal read off a suffix of it. */
  ghost predicate Agrees(p: Option<Parsed>, l: Option<Literal>, text: Text) {
    match l
    case None => p.None?
    case Some(Literal(value, rest)) =>
      p.Some? && p.value.value == EncodeAll(value) && p.value.next <= |text| && text[p.value.next..] == rest
  }

  datatype LineEnd = NoLineEnd | BadLineEnd | LineEnd(next: nat)

  method ConsumeLineBreak(text: Text, at: nat) returns (r: LineEnd)
    requires at <= |text|
    ensures match LineBreak(text[at..])
            case NoBreak => r.NoLineEnd?
            case BadBreak => r.BadLineEnd?
            case Broke(rest) => r.LineEnd? && at < r.next <= |text| && text[r.next..] == rest
  {
    if at == |text| {
      return NoLineEnd;
    }
    if text[at] == 0x0B || text[at] == 0x0C {
      return BadLineEnd;
    }
    if text[at] == CR {
      if at + 1 == |text| || text[at + 1] != LF {
        return BadLineEnd;
      }
      assert text[at..][2..] == text[at + 2..];
      return LineEnd(at + 2);
    }
    if text[at] != LF {
      return NoLineEnd;
    }
    assert text[at..][1..] == text[at + 1..];
    return LineEnd(at + 1);
  }

  method ConsumeLeadingWhitespace(text: Text, at: nat) returns (next: Option<nat>)
    requires at <= |text|
    ensures match LeadingWhitespace(text[at..])
            case None => next.None?
            case Some(rest) => next.Some? && at <= next.value <= |text| && text[next.value..] == rest
  {
    var i := at;
    while i < |text| && IsHorizontalWhitespace(text[i])
      invariant at <= i <= |text| && LeadingWhitespace(text[i..]) == LeadingWhitespace(text[at..])
    {
      if !IsAsciiHorizontalWhitespace(text[i]) {
        return None;
      }
      assert text[i..][1..] == text[i + 1..];
      i := i + 1;
    }
    return Some(i);
  }

  /** The look-ahead over delimiters: four steps at most. */
  method CountDelimiters(text: Text, at: nat) returns (n: nat)
    requires at < |text|
    ensures n == Repeats(text[at..], text[at], 5) && at + n <= |text| && n > 0
  {
    var lookaheads := 0;
    n := 1;
    var open := true;
    assert text[at..][1..] == text[at + 1..];
    while open && lookaheads < 4
      invariant lookaheads <= 4 && at + n <= |text| && 1 <= n <= 5
      invariant open ==> n == lookaheads + 1
      invariant Repeats(text[at..], text[at], 5) == if open then n + Repeats(text[at + n..], text[at], 5 - n) else n
      decreases 4 - lookaheads, open
    {
      lookaheads := lookaheads + 1;
      if at + n < |text| && text[at + n] == text[at] {
        assert text[at + n..][1..] == text[at + n + 1..];
        n := n + 1;
      } else {
        open := false;
      }
    }
  }

  /** The digits of a unicode escape; a value of 32 bits never wraps. */
  method ConsumeHexDigits(text: Text, at: nat, place: nat) returns (r: Option<nat>, next: nat)
    requires at <= |text| && (place == 0x1000 || place == 0x1000_0000)
    ensures match HexDigits(text[at..], place)
            case None => r.None?
            case Some(HexNumber(v, rest)) => r == Some(v) && v < 0x1_0000_0000 && next <= |text| && text[next..] == rest
  {
    ghost var goal := HexDigits(text[at..], place);
    next := at;
    var placeValue: nat := place;
    var value: nat := 0;
    while placeValue > 0
      invariant at <= next <= |text|
      invariant IsPlace(placeValue) && value + Room(placeValue) <= 16 * place
      invariant goal == Plus(value, HexDigits(text[next..], placeValue))
    {
      if next == |text| || !IsHexDigit(text[next]) {
        return None, next;
      }
      assert text[next..][1..] == text[next + 1..];
      value, placeValue := AddHexDigit(value, placeValue, text[next..]);
      next := next + 1;
    }
    NoPlaceLeft(value, text[next..], place);
    r := Some(value);
  }

  lemma NoPlaceLeft(value: nat, s: Text, place: nat)
    requires value + Room(0) <= 16 * place && (place == 0x1000 || place == 0x1000_0000)
    ensures value < 0x1_0000_0000 && Plus(value, HexDigits(s, 0)) == Some(HexNumber(value, s))
  {
  }

  predicate IsPlace(p: nat) {
    p in {0, 1, 0x10, 0x100, 0x1000, 0x1_0000, 0x10_0000, 0x100_0000, 0x1000_0000}
  }

  /** How far the remaining digits may still raise the value, and one more. */
  function Room(place: nat): nat { if place == 0 then 1 else 16 * place }

  /** One digit; every place is a power of sixteen, so the products below are linear. */
  method AddHexDigit(value: nat, place: nat, s: Text) returns (value': nat, place': nat)
    requires place > 0 && IsPlace(place) && s != [] && IsHexDigit(s[0])
    ensures IsPlace(place') && value' + Room(place') <= value + Room(place)
    ensures Plus(value, HexDigits(s, place)) == Plus(value', HexDigits(s[1..], place'))
    ensures place' < place
  {
    var digit := HexToDec(s[0]);
    PlaceTimesDigit(place, digit);
    PlusTwice(value, place * digit, HexDigits(s[1..], place / 16));
    value', place' := value + place * digit, place / 16;
  }

  lemma PlaceTimesDigit(place: nat, digit: nat)
    requires place > 0 && IsPlace(place) && digit < 16
    ensures IsPlace(place / 16) && 0 <= place * digit && place * digit + Room(place / 16) <= Room(place)
  {
    if place == 1 {
    } else if place == 0x10 {
    } else if place == 0x100 {
    } else if place == 0x1000 {
    } else if place == 0x1_0000 {
    } else if place == 0x10_0000 {
    } else if place == 0x100_0000 {
    }
  }

  function Plus(v: nat, h: Option<HexNumber>): Option<HexNumber> {
    match h
    case None => None
    case Some(HexNumber(w, rest)) => Some(HexNumber(v + w, rest))
  }

  lemma PlusTwice(v: nat, w: nat, h: Option<HexNumber>)
    ensures Plus(v, Plus(w, h)) == Plus(v + w, h)
  {
  }

  /** What one round of a parse loop appends to the buffer, and where it leaves the cursor. */
  datatype Round = Round(bytes: seq<Byte>, next: nat, skipping: bool)

  /** The character after a backslash. */
  method ParseEscape(text: Text, at: nat, multi: bool) returns (r: Option<Round>, ghost v: Text)
    requires at < |text|
    ensures match r
            case None => Escaped(text[at..], multi).None?
            case Some(Round(bytes, next, skipping)) =>
              bytes == EncodeAll(v) && at < next <= |text|
              && Escaped(text[at..], multi) == Prepend(v, Basic(text[next..], multi, skipping))
  {
    var c := text[at];
    assert text[at..][1..] == text[at + 1..];
    v := [];
    if multi && IsWhitespace(c) {
      r := ParseLineEscape(text, at);
      return r, v;
    }
    if SimpleEscape(c).Some? {
      v := [SimpleEscape(c).value];
      return Some(Round(EncodeAll([SimpleEscape(c).value]), at + 1, false)), v;
    }
    if c == 'u' as int || c == 'U' as int {
      r, v := ParseUnicodeEscape(text, at, multi);
      return r, v;
    }
    return None, v;
  }

  /** A line end after a backslash: it and the white space after it are skipped. */
  method ParseLineEscape(text: Text, at: nat) returns (r: Option<Round>)
    requires at < |text| && IsWhitespace(text[at])
    ensures match r
            case None => Escaped(text[at..], true).None?
            case Some(Round(bytes, next, skipping)) =>
              bytes == EncodeAll([]) && at < next <= |text|
              && Escaped(text[at..], true) == Prepend([], Basic(text[next..], true, skipping))
  {
    var line := ConsumeLeadingWhitespace(text, at);
    if line.None? {
      return None;
    }
    var end := ConsumeLineBreak(text, line.value);
    if !end.LineEnd? {
      return None;
    }
    PrependNothing(Basic(text[end.next..], true, true));
    return Some(Round([], end.next, true));
  }

  /** Four or eight hexadecimal digits, and the bytes of the code point they name. */
  method ParseUnicodeEscape(text: Text, at: nat, multi: bool) returns (r: Option<Round>, ghost v: Text)
    requires at < |text| && (text[at] == 'u' as int || text[at] == 'U' as int)
    ensures match r
            case None => Escaped(text[at..], multi).None?
            case Some(Round(bytes, next, skipping)) =>
              bytes == EncodeAll(v) && at < next <= |text|
              && Escaped(text[at..], multi) == Prepend(v, Basic(text[next..], multi, skipping))
  {
    v := [];
    assert text[at..][1..] == text[at + 1..];
    var value, next := ConsumeHexDigits(text, at + 1, if text[at] == 'U' as int then 0x1000_0000 else 0x1000);
    if value.None? || !IsScalar(value.value) {
      return None, v;
    }
    v := [value.value];
    EncodeAllCons(value.value, []);
    assert Encode(value.value) + [] == Encode(value.value);
    return Some(Round(Encode(value.value), next, false)), v;
  }

  /** A character that needs no delimiter or escape handling. */
  method ParseOrdinary(text: Text, at: nat, multi: bool, skipping: bool) returns (r: Option<Round>, ghost v: Text)
    requires at < |text| && text[at] != QUOTE && text[at] != BACKSLASH
    ensures match r
            case None => Basic(text[at..], multi, skipping).None?
            case Some(Round(bytes, next, skipping')) =>
              bytes == EncodeAll(v) && at < next <= |text|
              && Basic(text[at..], multi, skipping) == Prepend(v, Basic(text[next..], multi, skipping'))
  {
    var c := text[at];
    assert text[at..][1..] == text[at + 1..] && text[at..][..1] == [c];
    v := [];
    PrependNothing(Basic(text[at + 1..], multi, skipping));
    if multi && IsAsciiVerticalWhitespace(c) {
      var end := ConsumeLineBreak(text, at);
      if !end.LineEnd? {
        return None, v;
      }
      v := if skipping then [] else [LF];
      return Some(Round(if skipping then [] else EncodeAll([LF]), end.next, skipping)), v;
    }
    if IsNonTabControl(c) {
      return None, v;
    }
    if multi && skipping && IsHorizontalWhitespace(c) {
      return Some(Round([], at + 1, skipping)), v;
    }
    v := [c];
    EncodeAllCons(c, []);
    assert Encode(c) + [] == Encode(c);
    return Some(Round(Encode(c), at + 1, false)), v;
  }

  /** The rest of a basic string, on either side of a backslash. */
  ghost function Left(text: Text, at: nat, multi: bool, escaped: bool, skipping: bool): Option<Literal>
    requires at <= |text|
  {
    if escaped then Escaped(text[at..], multi) else Basic(text[at..], multi, skipping)
  }

  datatype Outcome =
    | Failed
    | Closed(bytes: seq<Byte>, next: nat)
    | Going(bytes: seq<Byte>, next: nat, escaped: bool, skipping: bool)

  /** One round of parse_basic_string. */
  method BasicRound(text: Text, at: nat, multi: bool, escaped: bool, skipping: bool) returns (r: Outcome, ghost v: Text)
    requires at < |text|
    ensures match r
            case Failed => Left(text, at, multi, escaped, skipping) == None
            case Closed(bytes, next) => bytes == EncodeAll(v) && next <= |text|
                                        && Left(text, at, multi, escaped, skipping) == Some(Literal(v, text[next..]))
            case Going(bytes, next, escaped', skipping') =>
              bytes == EncodeAll(v) && at < next <= |text|
              && Left(text, at, multi, escaped, skipping) == Prepend(v, Left(text, next, multi, escaped', skipping'))
  {
    v := [];
    var round: Option<Round>;
    if escaped {
      round, v := ParseEscape(text, at, multi);
    } else if text[at] == QUOTE {
      var closed, n, added := ParseDelimiters(text, at, multi);
      v := added;
      if closed {
        return Closed(EncodeAll(added), at + n), v;
      }
      return Going(EncodeAll(added), at + n, false, false), v;
    } else if text[at] == BACKSLASH {
      assert text[at..][1..] == text[at + 1..];
      PrependNothing(Escaped(text[at + 1..], multi));
      return Going([], at + 1, true, false), v;
    } else {
      round, v := ParseOrdinary(text, at, multi, skipping);
    }
    match round {
      case None => r := Failed;
      case Some(Round(bytes, next, skipping')) => r := Going(bytes, next, false, skipping');
    }
  }

  /** A delimiter inside or at the end of a string: whether it closes it, how many belong together, what they add. */
  method ParseDelimiters(text: Text, at: nat, multi: bool) returns (closed: bool, n: nat, v: Text)
    requires at < |text| && IsStringDelimiter(text[at])
    ensures 0 < n && at + n <= |text|
    ensures text[at] == QUOTE ==> forall skipping ::
              Basic(text[at..], multi, skipping) ==
              if closed then Some(Literal(v, text[at + n..])) else Prepend(v, Basic(text[at + n..], multi, false))
    ensures text[at] == APOSTROPHE ==>
              Verbatim(text[at..], multi) ==
              if closed then Some(Literal(v, text[at + n..])) else Prepend(v, Verbatim(text[at + n..], multi))
  {
    var q := text[at];
    ghost var s := text[at..];
    assert s[1..] == text[at + 1..] && s[0] == q;
    if !multi {
      return true, 1, [];
    }
    n := CountDelimiters(text, at);
    assert s[n..] == text[at + n..];
    RepeatsMeans(s, q, 5);
    closed := n > 2;
    v := if closed then seq(n - 3, _ => q) else seq(n, _ => q);
    assert !closed ==> v == s[..n];
    assert closed ==> Delimiters(s, q, n) == Some(Literal(v, s[n..]));
  }

  /** A multi-line string drops one immediate line break. */
  method OpenBody(text: Text, at: nat, multi: bool) returns (start: Option<nat>)
    requires at <= |text|
    ensures match start
            case None => Body(text[at..], multi, true).None? && Body(text[at..], multi, false).None?
            case Some(i) => i <= |text| && Body(text[at..], multi, true) == Verbatim(text[i..], multi)
                            && Body(text[at..], multi, false) == Basic(text[i..], multi, false)
  {
    if multi {
      var end := ConsumeLineBreak(text, at);
      if end.BadLineEnd? {
        return None;
      }
      if end.LineEnd? {
        return Some(end.next);
      }
    }
    return Some(at);
  }

  method ParseBasicString(text: Text, at: nat, multi: bool) returns (r: Option<Parsed>)
    requires at < |text| && text[at] == QUOTE
    ensures Agrees(r, Body(text[at + 1..], multi, false), text)
  {
    var start := OpenBody(text, at + 1, multi);
    if start.None? {
      return None;
    }
    var i := start.value;
    ghost var goal, value := Left(text, i, multi, false, false), [];
    PrependNothing(goal);
    var str := [];
    var escaped, skipping := false, false;
    while i < |text|
      invariant i <= |text| && str == EncodeAll(value)
      invariant goal == Prepend(value, Left(text, i, multi, escaped, skipping))
    {
      var r;
      ghost var v;
      r, v := BasicRound(text, i, multi, escaped, skipping);
      EncodeAppend(value, v);
      match r {
        case Failed =>
          return None;
        case Closed(bytes, next) =>
          return Some(Parsed(str + bytes, next));
        case Going(bytes, next, escaped', skipping') =>
          PrependTwice(value, v, Left(text, next, multi, escaped', skipping'));
          value := value + v;
          str := str + bytes;
          i, escaped, skipping := next, escaped', skipping';
      }
    }
    return None;
  }

  lemma {:induction false} RepeatsMeans(s: Text, q: Scalar, cap: nat)
    ensures forall k :: 0 <= k < Repeats(s, q, cap) ==> s[k] == q
  {
    if cap > 0 && s != [] && s[0] == q {
      RepeatsMeans(s[1..], q, cap - 1);
      forall k | 0 < k < Repeats(s, q, cap)
        ensures s[k] == q
      {
        assert s[k] == s[1..][k - 1];
      }
    }
  }

  /** A character of a literal string other than its delimiter. */
  method ParseVerbatim(text: Text, at: nat, multi: bool) returns (ok: bool, v: Text, next: nat)
    requires at < |text| && text[at] != APOSTROPHE
    ensures !ok ==> Verbatim(text[at..], multi).None?
    ensures ok ==> at < next <= |text| && Verbatim(text[at..], multi) == Prepend(v, Verbatim(text[next..], multi))
  {
    v, next := [text[at]], at + 1;
    assert text[at..][1..] == text[at + 1..] && text[at..][..1] == [text[at]];
    if multi && IsAsciiVerticalWhitespace(text[at]) {
      var end := ConsumeLineBreak(text, at);
      if !end.LineEnd? {
        return false, v, next;
      }
      return true, [LF], end.next;
    }
    ok := !IsNonTabControl(text[at]);
  }

  /** One round of parse_literal_string. */
  method LiteralRound(text: Text, at: nat, multi: bool) returns (r: Outcome, ghost v: Text)
    requires at < |text|
    ensures match r
            case Failed => Verbatim(text[at..], multi) == None
            case Closed(bytes, next) => bytes == EncodeAll(v) && next <= |text|
                                        && Verbatim(text[at..], multi) == Some(Literal(v, text[next..]))
            case Going(bytes, next, _, _) => bytes == EncodeAll(v) && at < next <= |text|
                                             && Verbatim(text[at..], multi) == Prepend(v, Verbatim(text[next..], multi))
  {
    if text[at] == APOSTROPHE {
      var closed, n, added := ParseDelimiters(text, at, multi);
      return if closed then Closed(EncodeAll(added), at + n) else Going(EncodeAll(added), at + n, false, false), added;
    }
    var ok, added, next := ParseVerbatim(text, at, multi);
    return if ok then Going(EncodeAll(added), next, false, false) else Failed, added;
  }

  method ParseLiteralString(text: Text, at: nat, multi: bool) returns (r: Option<Parsed>)
    requires at < |text| && text[at] == APOSTROPHE
    ensures Agrees(r, Body(text[at + 1..], multi, true), text)
  {
    var start := OpenBody(text, at + 1, multi);
    if start.None? {
      return None;
    }
    var i := start.value;
    ghost var goal, value := Verbatim(text[i..], multi), [];
    PrependNothing(goal);
    var str := [];
    while i < |text|
      invariant i <= |text| && str == EncodeAll(value)
      invariant goal == Prepend(value, Verbatim(text[i..], multi))
    {
      var r;
      ghost var v;
      r, v := LiteralRound(text, i, multi);
      EncodeAppend(value, v);
      match r {
        case Failed =>
          return None;
        case Closed(bytes, next) =>
          return Some(Parsed(str + bytes, next));
        case Going(bytes, next, _, _) =>
          PrependTwice(value, v, Verbatim(text[next..], multi));
          value := value + v;
          str := str + bytes;
          i := next;
      }
    }
    return None;
  }

  /** parse_string: three characters decide the kind of string; a short look-ahead is stepped back. */
  method ParseString(text: Text, at: nat) returns (r: Option<Parsed>, multi: bool)
    requires at < |text| && IsStringDelimiter(text[at])
    ensures Agrees(r, (var s := ReadString(text[at..]); if s.None? then None else Some(s.value.literal)), text)
    ensures r.Some? ==> multi == ReadString(text[at..]).value.multi
  {
    multi := false;
    ghost var s := text[at..];
    var first, i := text[at], at + 1;
    if i == |text| {
      return None, false;
    }
    var second := text[i];
    i := i + 1;
    if i == |text| {
      return if second == first then Some(Parsed([], i)) else None, false;
    }
    if first == second == text[i] {
      multi := true;
    } else {
      i := i - 2;
    }
    assert s[3..] == text[at + 3..] && s[1..] == text[at + 1..] && s[2] == text[at + 2];
    if first == APOSTROPHE {
      r := ParseLiteralString(text, i, multi);
    } else {
      r := ParseBasicString(text, i, multi);
    }
  }

  // ---------------------------------------------------------------------------------------
  // The round trip, on bytes
  // ---------------------------------------------------------------------------------------

  /** Decoding a document and parsing the string it begins with: the string, and the rest of the document. */
  function ParsedBytes(document: seq<Byte>): Option<(seq<Byte>, seq<Byte>)> {
    if !WellFormed(document) then None
    else
      var text := Scalars(document);
      if text == [] || !IsStringDelimiter(text[0]) then None
      else
        match ReadString(text)
        case None => None
        case Some(r) => Some((EncodeAll(r.literal.value), EncodeAll(r.literal.rest)))
  }

  lemma EncodeIsInjective(a: Text, b: Text)
    ensures EncodeAll(a) == EncodeAll(b) <==> a == b
  {
    EncodeThenDecode(a);
    EncodeThenDecode(b);
  }

  /** Printing a string and parsing it again gives the string back, and leaves the rest of the document, exactly
      when the string is well-formed UTF-8 and print_string took a branch that can express it. */
  lemma StringRoundTrip(str: seq<Byte>, o: Options, rest: Text)
    requires !o.allowBare && Closes(rest)
    ensures ParsedBytes(PrintedBytes(str, o) + EncodeAll(rest)) == Some((str, EncodeAll(rest)))
            <==> WellFormed(str) && Survives(Scalars(str), o)
  {
    var document := PrintedBytes(str, o) + EncodeAll(rest);
    if WellFormed(str) {
      var cs := Scalars(str);
      var text := Printed(cs, o) + rest;
      EncodeAppend(Printed(cs, o), rest);
      EncodeThenDecode(text);
      DecodeThenEncode(str);
      TextRoundTrip(cs, o, rest);
      if text != [] && IsStringDelimiter(text[0]) && ReadString(text).Some? {
        var l := ReadString(text).value.literal;
        EncodeIsInjective(l.value, cs);
        EncodeIsInjective(l.rest, rest);
      }
    } else if ParsedBytes(document).Some? {
      EncodeThenDecode(ReadString(Scalars(document)).value.literal.value);
    }
  }

  /** In particular every well-formed string without a line feed survives, whatever the flags. */
  lemma StringsWithoutLineFeedSurvive(str: seq<Byte>, o: Options, rest: Text)
    requires !o.allowBare && Closes(rest) && WellFormed(str) && LF !in Scalars(str)
    ensures ParsedBytes(PrintedBytes(str, o) + EncodeAll(rest)) == Some((str, EncodeAll(rest)))
  {
    StringRoundTrip(str, o, rest);
  }
}
