/**
  The formatter's print_string (util/toml.hpp), on bytes: a scan for traits, then a bare, a
  literal or an escaped form, each with a plain-ASCII shortcut.
 */
module StringFormatter {
  import opened Wrappers
  import opened Utf8
  import opened Utf8Reader
  import opened CharClasses
  import opened StringText

  /** The bytes written for one decoded character between double quotes. */
  function Rendered(ch: Char, o: Options, multi: bool): seq<Byte> {
    match Escape(ch.value, multi, o.realTabs, o.unicode)
    case None => ch.bytes
    case Some(t) => EncodeAll(t)
  }

  function RenderedAll(chars: seq<Char>, o: Options, multi: bool): seq<Byte> {
    if chars == [] then []
    else RenderedAll(chars[..|chars| - 1], o, multi) + Rendered(chars[|chars| - 1], o, multi)
  }

  /** Malformed bytes are escaped one by one. */
  function ByteEscapes(bytes: seq<Byte>): seq<Byte> {
    if bytes == [] then []
    else ByteEscapes(bytes[..|bytes| - 1])
         + EncodeAll([BACKSLASH, 'u' as int, '0' as int, '0' as int] + Hex(bytes[|bytes| - 1], 2))
  }

  /** The escaping loop over undecoded bytes: pending ones belong to an unfinished code point. */
  function Rendering(d: Decoder, pending: seq<Byte>, s: seq<Byte>, o: Options, multi: bool): seq<Byte>
    decreases |s|
  {
    if s == [] then []
    else
      var d1, bytes := d.Feed(s[0]), pending + [s[0]];
      if d1.Error() then ByteEscapes(bytes) + Rendering(d1.Reset(), [], s[1..], o, multi)
      else if !d1.HasCodePoint() then Rendering(d1, bytes, s[1..], o, multi)
      else Rendered(Char(d1.codepoint, bytes), o, multi) + Rendering(d1, [], s[1..], o, multi)
  }

  /** What print_string writes. Malformed input is never literal, multi-line or raw beyond ASCII. */
  function PrintedBytes(str: seq<Byte>, o: Options): seq<Byte> {
    if WellFormed(str) then EncodeAll(Printed(Scalars(str), o))
    else [QUOTE] + Rendering(START, [], str, o.(unicode := false), false) + [QUOTE]
  }

  // ---------------------------------------------------------------------------------------
  // The loops on bytes agree with the forms on code points
  // ---------------------------------------------------------------------------------------

  /** What is still to be written, after some output. */
  ghost function Completed(out: seq<Byte>, d: Decoder, pending: seq<Byte>, s: seq<Byte>, o: Options, multi: bool)
    : seq<Byte>
  {
    out + Rendering(d, pending, s, o, multi)
  }

  lemma RenderingStep(out: seq<Byte>, d: Decoder, pending: seq<Byte>, s: seq<Byte>, o: Options, multi: bool)
    requires s != []
    ensures var d1, bytes := d.Feed(s[0]), pending + [s[0]];
            Completed(out, d, pending, s, o, multi) ==
            if d1.Error() then Completed(out + ByteEscapes(bytes), d1.Reset(), [], s[1..], o, multi)
            else if !d1.HasCodePoint() then Completed(out, d1, bytes, s[1..], o, multi)
            else Completed(out + Rendered(Char(d1.codepoint, bytes), o, multi), d1, [], s[1..], o, multi)
  {
    var d1, bytes := d.Feed(s[0]), pending + [s[0]];
    if d1.Error() {
      var tail := Rendering(d1.Reset(), [], s[1..], o, multi);
      assert Rendering(d, pending, s, o, multi) == ByteEscapes(bytes) + tail;
      Associates(out, ByteEscapes(bytes), tail);
    } else if d1.HasCodePoint() {
      var shown, tail := Rendered(Char(d1.codepoint, bytes), o, multi), Rendering(d1, [], s[1..], o, multi);
      assert Rendering(d, pending, s, o, multi) == shown + tail;
      Associates(out, shown, tail);
    }
  }

  lemma Associates(a: seq<Byte>, b: seq<Byte>, c: seq<Byte>)
    ensures a + (b + c) == (a + b) + c
  {
  }

  lemma {:induction false} RenderingFollowsRead(r: Reading, s: seq<Byte>, o: Options, multi: bool)
    requires !r.decoder.Error() && !Read(r, s).decoder.Error()
    ensures Completed(RenderedAll(r.out, o, multi), r.decoder, r.pending, s, o, multi)
            == RenderedAll(Read(r, s).out, o, multi)
    decreases |s|
  {
    if s != [] {
      var r1 := r.Feed(s[0]);
      RenderingStep(RenderedAll(r.out, o, multi), r.decoder, r.pending, s, o, multi);
      if r1.decoder.HasCodePoint() {
        assert r1.out[..|r1.out| - 1] == r.out;
      }
      RenderingFollowsRead(r1, s[1..], o, multi);
    }
  }

  lemma {:induction false} RenderedIsShown(cs: Text, o: Options, multi: bool)
    ensures RenderedAll(CharsOf(cs), o, multi) == EncodeAll(ShownAll(cs, multi, o.realTabs, o.unicode))
    decreases |cs|
  {
    if cs != [] {
      var front, c := cs[..|cs| - 1], cs[|cs| - 1];
      RenderedIsShown(front, o, multi);
      assert CharsOf(cs)[..|cs| - 1] == CharsOf(front);
      RenderedOne(c, o, multi);
      ShownAppend(front, c, o, multi);
      assert front + [c] == cs;
      EncodeAppend(ShownAll(front, multi, o.realTabs, o.unicode), Shown(c, multi, o.realTabs, o.unicode));
    }
  }

  lemma RenderedOne(c: Scalar, o: Options, multi: bool)
    ensures Rendered(Char(c, Encode(c)), o, multi) == EncodeAll(Shown(c, multi, o.realTabs, o.unicode))
  {
    EncodeAllCons(c, []);
    assert Encode(c) + [] == Encode(c);
  }

  lemma {:induction false} ShownAppend(cs: Text, c: Scalar, o: Options, multi: bool)
    ensures ShownAll(cs + [c], multi, o.realTabs, o.unicode)
            == ShownAll(cs, multi, o.realTabs, o.unicode) + Shown(c, multi, o.realTabs, o.unicode)
  {
    if cs == [] {
      assert [] + [c] == [c];
    } else {
      assert (cs + [c])[1..] == cs[1..] + [c];
      ShownAppend(cs[1..], c, o, multi);
    }
  }

  /** For well-formed input the escaping loop writes the shown characters. */
  lemma RenderingIsShown(str: seq<Byte>, o: Options, multi: bool)
    requires WellFormed(str)
    ensures Rendering(START, [], str, o, multi) == EncodeAll(ShownAll(Scalars(str), multi, o.realTabs, o.unicode))
  {
    ReferenceIsRfc3629(str);
    RenderingFollowsRead(Reading(START, [], []), str, o, multi);
    RenderedIsShown(Scalars(str), o, multi);
  }

  /** An ASCII string is its own sequence of scalar values. */
  lemma {:induction false} AsciiIsItself(str: seq<Byte>)
    requires Ascii(str)
    ensures WellFormed(str) && Scalars(str) == str
    decreases |str|
  {
    if str != [] {
      AsciiIsItself(str[1..]);
    }
  }

  lemma {:induction false} AsciiEncodesItself(cs: Text)
    requires !HasNonAscii(cs)
    ensures Ascii(EncodeAll(cs))
  {
    if cs != [] {
      forall k | 0 <= k < |cs[1..]|
        ensures cs[1..][k] <= 0x7F
      {
        assert cs[1..][k] == cs[k + 1];
      }
      AsciiEncodesItself(cs[1..]);
      assert Encode(cs[0]) == [cs[0]];
    }
  }

  /** A well-formed string has a character beyond ASCII exactly when it has such a byte. */
  lemma NonAsciiBytes(str: seq<Byte>)
    requires WellFormed(str)
    ensures HasNonAscii(Scalars(str)) <==> !Ascii(str)
  {
    if Ascii(str) {
      AsciiIsItself(str);
    } else if !HasNonAscii(Scalars(str)) {
      AsciiEncodesItself(Scalars(str));
      DecodeThenEncode(str);
    }
  }

  // ---------------------------------------------------------------------------------------
  // print_string
  // ---------------------------------------------------------------------------------------

  datatype Traits = Traits(lineBreaks: bool, tabs: bool, singleQuotes: bool, controlChars: bool, nonBare: bool) {
    /** One round of the switch of the trait scans. */
    function Note(c: nat, control: bool): Traits {
      if c == LF then this.(lineBreaks := true)
      else if c == TAB then this.(tabs := true)
      else if c == APOSTROPHE then this.(singleQuotes := true)
      else this.(controlChars := controlChars || control, nonBare := nonBare || !IsBareKeyCharacter(c))
    }

    predicate MultiLine(o: Options) { o.allowMultiLine && o.multiLine && lineBreaks }

    predicate Verbatim(o: Options, multi: bool) {
      o.literal && !controlChars && (!singleQuotes || multi) && (!tabs || o.realTabs)
    }

    predicate All() { lineBreaks && tabs && singleQuotes && controlChars && nonBare }

    /** The traits of a text, on top of a preset nonBare. */
    predicate Describes(cs: Text, preset: bool) {
      && (lineBreaks <==> LF in cs) && (tabs <==> TAB in cs) && (singleQuotes <==> APOSTROPHE in cs)
      && (controlChars <==> HasControl(cs)) && (nonBare <==> preset || !AllBare(cs))
    }
  }

  lemma NoteDescribes(t: Traits, cs: Text, k: nat, preset: bool)
    requires k < |cs| && t.Describes(cs[..k], preset)
    ensures t.Note(cs[k], IsControl(cs[k]) || IsNonAsciiVerticalWhitespace(cs[k])).Describes(cs[..k + 1], preset)
  {
    var c, before, after := cs[k], cs[..k], cs[..k + 1];
    assert after == before + [c];
    assert HasControl(after) <==> HasControl(before) || IsControlTrait(c) by {
      if HasControl(before) {
        var j :| 0 <= j < |before| && IsControlTrait(before[j]);
        assert IsControlTrait(after[j]);
      }
      if IsControlTrait(c) {
        assert IsControlTrait(after[k]);
      }
    }
    assert AllBare(after) <==> AllBare(before) && !IsNonBare(c) by {
      if AllBare(after) {
        assert forall j :: 0 <= j < |before| ==> before[j] == after[j];
        assert !IsNonBare(after[k]);
      }
    }
  }

  lemma AllTraitsStay(t: Traits, cs: Text, k: nat, preset: bool)
    requires k <= |cs| && t.All() && t.Describes(cs[..k], preset)
    ensures t.Describes(cs, preset)
  {
    assert cs == cs[..k] + cs[k..];
    var j :| 0 <= j < k && IsControlTrait(cs[..k][j]);
    assert IsControlTrait(cs[j]);
    if !preset {
      var l :| 0 <= l < k && IsNonBare(cs[..k][l]);
      assert IsNonBare(cs[l]);
    }
  }

  method ScanAscii(str: seq<Byte>, preset: bool) returns (traits: Traits)
    requires Ascii(str)
    ensures traits.Describes(str, preset)
  {
    traits := Traits(false, false, false, false, preset);
    var i := 0;
    while i < |str|
      invariant 0 <= i <= |str| && traits.Describes(str[..i], preset)
    {
      NoteDescribes(traits, str, i, preset);
      traits := traits.Note(str[i], IsControl(str[i]));
      i := i + 1;
      if traits.All() {
        AllTraitsStay(traits, str, i, preset);
        return;
      }
    }
    assert str[..i] == str;
  }

  lemma PrefixReads(str: seq<Byte>, i: nat)
    requires i <= |str|
    ensures WellFormed(str) ==>
              var cs, out := Scalars(str), Decode(str[..i]).out;
              |out| <= |cs| && forall k :: 0 <= k < |out| ==> out[k].value == cs[k]
  {
    ReferenceIsRfc3629(str);
    DecodePrefix(str, i);
  }

  lemma ScanEnds(str: seq<Byte>)
    ensures Decode(str).decoder.HasCodePoint() <==> WellFormed(str)
    ensures WellFormed(str) ==> |Decode(str).out| == |Scalars(str)|
  {
    ReferenceIsRfc3629(str);
  }

  /** The traits of what was decoded so far, if the string turns out to be well formed. */
  ghost predicate Scanned(traits: Traits, str: seq<Byte>, i: nat, preset: bool)
    requires i <= |str|
  {
    WellFormed(str) ==>
      |Decode(str[..i]).out| <= |Scalars(str)| && traits.Describes(Scalars(str)[..|Decode(str[..i]).out|], preset)
  }

  /** One round of the slow scan. */
  method ScanNext(traits: Traits, decoder: Decoder, str: seq<Byte>, i: nat, preset: bool)
    returns (traits': Traits, decoder': Decoder)
    requires i < |str| && decoder == Decode(str[..i]).decoder && !decoder.Error() && Scanned(traits, str, i, preset)
    ensures decoder' == Decode(str[..i + 1]).decoder
    ensures !decoder'.Error() ==> Scanned(traits', str, i + 1, preset)
  {
    ReadSnoc(Reading(START, [], []), str, i);
    PrefixReads(str, i + 1);
    traits', decoder' := traits, decoder.Feed(str[i]);
    if decoder'.HasCodePoint() {
      if WellFormed(str) {
        NoteDescribes(traits, Scalars(str), |Decode(str[..i]).out|, preset);
      }
      var c := decoder'.codepoint;
      traits' := traits.Note(c, IsControl(c) || IsNonAsciiVerticalWhitespace(c));
    }
  }

  /** The slow scan also finds out whether the string is well formed. */
  method ScanUnicode(str: seq<Byte>, preset: bool) returns (traits: Traits, wellFormed: bool)
    ensures wellFormed <==> WellFormed(str)
    ensures wellFormed ==> traits.Describes(Scalars(str), preset)
  {
    traits := Traits(false, false, false, false, preset);
    var decoder := START;
    var i := 0;
    while i < |str|
      invariant 0 <= i <= |str| && decoder == Decode(str[..i]).decoder && !decoder.Error()
                && Scanned(traits, str, i, preset)
    {
      traits, decoder := ScanNext(traits, decoder, str, i, preset);
      i := i + 1;
      if decoder.Error() {
        RejectedIsMalformed(str, i);
        return traits, false;
      }
    }
    assert str[..i] == str;
    ScanEnds(str);
    wellFormed := !decoder.NeedsMoreInput();
    if wellFormed {
      assert Scalars(str)[..|Decode(str).out|] == Scalars(str);
    }
  }

  /** The escaping loop for plain ASCII. */
  method EscapeAscii(str: seq<Byte>, o: Options, multi: bool) returns (out: seq<Byte>)
    requires Ascii(str)
    ensures out == EncodeAll(ShownAll(str, multi, o.realTabs, o.unicode))
  {
    out := [];
    var i := 0;
    while i < |str|
      invariant 0 <= i <= |str| && out == RenderedAll(CharsOf(str[..i]), o, multi)
    {
      assert CharsOf(str[..i + 1])[..i] == CharsOf(str[..i]);
      assert Encode(str[i]) == [str[i]];
      match Escape(str[i], multi, o.realTabs, o.unicode) {
        case None => out := out + [str[i]];
        case Some(t) => out := out + EncodeAll(t);
      }
      i := i + 1;
    }
    assert str[..i] == str;
    RenderedIsShown(str, o, multi);
  }

  method EscapeBytes(bytes: seq<Byte>) returns (out: seq<Byte>)
    ensures out == ByteEscapes(bytes)
  {
    out := [];
    var i := 0;
    while i < |bytes|
      invariant 0 <= i <= |bytes| && out == ByteEscapes(bytes[..i])
    {
      assert bytes[..i + 1][..i] == bytes[..i];
      out := out + EncodeAll([BACKSLASH, 'u' as int, '0' as int, '0' as int] + Hex(bytes[i], 2));
      i := i + 1;
    }
    assert bytes[..i] == bytes;
  }

  method EmitCharacter(codepoint: nat, raw: seq<Byte>, o: Options, multi: bool) returns (out: seq<Byte>)
    ensures out == Rendered(Char(codepoint, raw), o, multi)
  {
    match Escape(codepoint, multi, o.realTabs, o.unicode) {
      case None => out := raw;
      case Some(t) => out := EncodeAll(t);
    }
  }

  lemma Slices(str: seq<Byte>, start: nat, end: nat)
    requires start <= end < |str|
    ensures str[start..end + 1] == str[start..end] + [str[end]] && str[end + 1..end + 1] == []
    ensures str[end..][1..] == str[end + 1..] && str[end..][0] == str[end]
  {
  }

  /** One round: the byte at end is decoded, and what it completes is written. */
  method EmitNext(out: seq<Byte>, decoder: Decoder, str: seq<Byte>, start: nat, end: nat, o: Options, multi: bool)
    returns (out': seq<Byte>, decoder': Decoder, start': nat)
    requires start <= end < |str|
    ensures start' <= end + 1
    ensures Completed(out', decoder', str[start'..end + 1], str[end + 1..], o, multi)
         == Completed(out, decoder, str[start..end], str[end..], o, multi)
  {
    Slices(str, start, end);
    RenderingStep(out, decoder, str[start..end], str[end..], o, multi);
    out', decoder', start' := out, decoder.Feed(str[end]), start;
    if decoder'.Error() {
      var escapes := EscapeBytes(str[start..end + 1]);
      out', start', decoder' := out + escapes, end + 1, decoder'.Reset();
    } else if decoder'.HasCodePoint() {
      var shown := EmitCharacter(decoder'.codepoint, str[start..end + 1], o, multi);
      out', start' := out + shown, end + 1;
    }
  }

  /** The escaping loop that decodes as it goes. */
  method EscapeUnicode(str: seq<Byte>, o: Options, multi: bool) returns (out: seq<Byte>)
    ensures out == Rendering(START, [], str, o, multi)
  {
    out := [];
    var decoder := START;
    var start, end := 0, 0;
    while end < |str|
      invariant 0 <= start <= end <= |str|
      invariant Completed(out, decoder, str[start..end], str[end..], o, multi)
                == Completed([], START, [], str, o, multi)
    {
      out, decoder, start := EmitNext(out, decoder, str, start, end, o, multi);
      end := end + 1;
    }
    assert Completed([], START, [], str, o, multi) == Rendering(START, [], str, o, multi);
  }

  /** The pre-scan: the traits, and whether characters beyond ASCII may be printed as they are. */
  method Classify(str: seq<Byte>, o: Options) returns (traits: Traits, ascii: bool, unicode: bool)
    ensures ascii <==> Ascii(str)
    ensures WellFormed(str) ==> traits.Describes(Scalars(str), !o.allowBare) && unicode == o.unicode
    ensures !WellFormed(str) ==> !ascii && !traits.lineBreaks && traits.controlChars && traits.nonBare && !unicode
  {
    unicode := o.unicode;
    ascii := IsAscii(str);
    if ascii {
      AsciiIsItself(str);
      traits := ScanAscii(str, !o.allowBare);
    } else {
      var wellFormed;
      traits, wellFormed := ScanUnicode(str, !o.allowBare);
      if !wellFormed {
        traits := traits.(lineBreaks := false, controlChars := true, nonBare := true);
        unicode := false;
      }
    }
  }

  method PrintString(str: seq<Byte>, o: Options) returns (out: seq<Byte>)
    ensures out == PrintedBytes(str, o)
  {
    if str == [] {
      out := if o.literal then [APOSTROPHE, APOSTROPHE] else [QUOTE, QUOTE];
      AsciiIsItself(out);
      DecodeThenEncode(out);
      return;
    }
    var traits, ascii, unicode := Classify(str, o);
    if WellFormed(str) {
      DecodeThenEncode(str);
      NonAsciiBytes(str);
      BranchesAgree(traits, Scalars(str), o);
    }
    if !traits.nonBare && (ascii || unicode) {
      return str;
    }
    var multi := traits.MultiLine(o);
    var literal := traits.Verbatim(o, multi) && (ascii || unicode);
    out := Enclose(str, o, literal, multi, ascii, unicode);
  }

  lemma BranchesAgree(traits: Traits, cs: Text, o: Options)
    requires traits.Describes(cs, !o.allowBare)
    ensures !traits.nonBare && (!HasNonAscii(cs) || o.unicode) <==> o.allowBare && AllBare(cs)
    ensures traits.MultiLine(o) == UsesMultiLine(cs, o)
    ensures (traits.Verbatim(o, traits.MultiLine(o)) && (!HasNonAscii(cs) || o.unicode)) == UsesVerbatim(cs, o)
  {
  }

  /** The literal and the escaped form, between their delimiters. */
  method Enclose(str: seq<Byte>, o: Options, literal: bool, multi: bool, ascii: bool, unicode: bool)
    returns (out: seq<Byte>)
    requires ascii <==> Ascii(str)
    ensures WellFormed(str) ==>
              var d, cs := Delimiter(literal, multi), Scalars(str);
              out == EncodeAll(d + (if literal then cs else ShownAll(cs, multi, o.realTabs, unicode)) + d)
    ensures !WellFormed(str) && !literal ==>
              var d := Delimiter(false, multi);
              out == d + Rendering(START, [], str, o.(unicode := unicode), multi) + d
  {
    var q: Byte := if literal then APOSTROPHE else QUOTE;
    var quot: seq<Byte> := if multi then [q, q, q] else [q];
    var body := str;
    if ascii {
      AsciiIsItself(str);
    }
    if !literal {
      if ascii {
        body := EscapeAscii(str, o.(unicode := unicode), multi);
      } else {
        body := EscapeUnicode(str, o.(unicode := unicode), multi);
      }
    }
    out := quot + body + quot;
    if WellFormed(str) {
      DecodeThenEncode(str);
      RenderingIsShown(str, o.(unicode := unicode), multi);
      Quoted(if literal then Scalars(str) else ShownAll(Scalars(str), multi, o.realTabs, unicode), literal, multi);
    }
  }

  lemma Quoted(body: Text, verbatim: bool, multi: bool)
    ensures var d := Delimiter(verbatim, multi);
            EncodeAll(d + body + d) == d + EncodeAll(body) + d
  {
    var d := Delimiter(verbatim, multi);
    EncodeAppend(d + body, d);
    EncodeAppend(d, body);
    AsciiIsItself(d);
    DecodeThenEncode(d);
  }
}
