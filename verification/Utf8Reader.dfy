/**
  The block reader of the TOML library (util/toml.hpp, utf8_reader): it decodes the source
  32 bytes at a time, with a shortcut for blocks of plain ASCII, and hands out code points
  one by one. The reference is decoding the whole source byte by byte.
 */
module Utf8Reader {
  import opened Utf8

  datatype Char = Char(value: nat, bytes: seq<Byte>)

  datatype Position = Position(line: nat, column: nat)

  datatype Codepoint = Codepoint(ch: Char, position: Position)

  // ---------------------------------------------------------------------------------------
  // Reference: one byte at a time
  // ---------------------------------------------------------------------------------------

  /** Decoder state, the bytes of the code point being decoded, and the code points so far. */
  datatype Reading = Reading(decoder: Decoder, pending: seq<Byte>, out: seq<Char>) {
    function Feed(b: Byte): Reading {
      var d := decoder.Feed(b);
      if d.HasCodePoint() then Reading(d, [], out + [Char(d.codepoint, pending + [b])])
      else Reading(d, pending + [b], out)
    }
  }

  function Read(r: Reading, s: seq<Byte>): Reading
    decreases |s|
  {
    if s == [] || r.decoder.Error() then r else Read(r.Feed(s[0]), s[1..])
  }

  /** What byte-at-a-time decoding makes of a whole source. */
  function Decode(source: seq<Byte>): Reading { Read(Reading(START, [], []), source) }

  function After(ch: Char, p: Position): Position {
    if ch.value == 0x0A then Position(p.line + 1, 1) else Position(p.line, p.column + 1)
  }

  /** The position that follows the given code points. */
  function PositionAfter(chars: seq<Char>, p: Position): Position {
    if chars == [] then p else After(chars[|chars| - 1], PositionAfter(chars[..|chars| - 1], p))
  }

  /** Code points with their positions, the first of them at p. */
  function Placed(chars: seq<Char>, p: Position): (placed: seq<Codepoint>)
    ensures |placed| == |chars|
  {
    seq(|chars|, k requires 0 <= k < |chars| => Codepoint(chars[k], PositionAfter(chars[..k], p)))
  }

  const ORIGIN := Position(1, 1)

  /** The code points byte-at-a-time decoding delivers for a source, up to its first invalid byte. */
  function Reference(source: seq<Byte>): seq<Codepoint> { Placed(Decode(source).out, ORIGIN) }

  /** How many of some code points are line feeds. */
  function LineFeeds(chars: seq<Char>): nat {
    if chars == [] then 0 else LineFeeds(chars[1..]) + if chars[0].value == 10 then 1 else 0
  }

  /** A code point's line is one more than the line feeds before it; in its line all code points before it are counted,
      and none of them is a line feed. */
  lemma {:induction false} PositionsInNumbers(chars: seq<Char>, k: nat)
    requires k < |chars|
    ensures var p := Placed(chars, ORIGIN)[k].position;
            p.line == 1 + LineFeeds(chars[..k]) && 1 <= p.column <= k + 1
            && (forall i :: k - (p.column - 1) <= i < k ==> chars[i].value != 10)
            && (p.column <= k ==> chars[k - p.column].value == 10)
  {
    PositionCounts(chars[..k]);
    assert forall i :: 0 <= i < k ==> chars[..k][i] == chars[i];
  }

  lemma {:induction false} PositionCounts(chars: seq<Char>)
    ensures var p, k := PositionAfter(chars, ORIGIN), |chars|;
            p.line == 1 + LineFeeds(chars) && 1 <= p.column <= k + 1
            && (forall i :: k - (p.column - 1) <= i < k ==> chars[i].value != 10)
            && (p.column <= k ==> chars[k - p.column].value == 10)
  {
    if chars != [] {
      var front := chars[..|chars| - 1];
      PositionCounts(front);
      LineFeedsTogether(front, [chars[|chars| - 1]]);
      assert chars == front + [chars[|chars| - 1]];
    }
  }

  lemma {:induction false} LineFeedsTogether(a: seq<Char>, b: seq<Char>)
    ensures LineFeeds(a + b) == LineFeeds(a) + LineFeeds(b)
  {
    if a == [] {
      assert a + b == b;
    } else {
      assert (a + b)[1..] == a[1..] + b;
      LineFeedsTogether(a[1..], b);
    }
  }

  // ---------------------------------------------------------------------------------------
  // Facts about the reference
  // ---------------------------------------------------------------------------------------

  lemma {:induction false} ReadAppend(r: Reading, a: seq<Byte>, b: seq<Byte>)
    ensures Read(r, a + b) == Read(Read(r, a), b)
    decreases |a|
  {
    if a == [] {
      assert a + b == b;
    } else if !r.decoder.Error() {
      assert (a + b)[1..] == a[1..] + b;
      ReadAppend(r.Feed(a[0]), a[1..], b);
    }
  }

  lemma ReadSnoc(r: Reading, s: seq<Byte>, i: nat)
    requires i < |s| && !Read(r, s[..i]).decoder.Error()
    ensures Read(r, s[..i + 1]) == Read(r, s[..i]).Feed(s[i])
  {
    assert s[..i + 1] == s[..i] + [s[i]];
    ReadAppend(r, s[..i], [s[i]]);
    assert Read(Read(r, s[..i]), [s[i]]) == Read(Read(r, s[..i]).Feed(s[i]), []);
  }

  lemma {:induction false} ReadGrows(r: Reading, s: seq<Byte>)
    ensures r.out <= Read(r, s).out
    decreases |s|
  {
    if s != [] && !r.decoder.Error() {
      ReadGrows(r.Feed(s[0]), s[1..]);
    }
  }

  /** What a prefix of the source yields is a prefix of what the source yields, and an error is final. */
  lemma DecodePrefix(source: seq<Byte>, p: nat)
    requires p <= |source|
    ensures Decode(source[..p]).out <= Decode(source).out
    ensures Decode(source[..p]).decoder.Error() ==> Decode(source) == Decode(source[..p])
    ensures p == |source| ==> Decode(source[..p]) == Decode(source)
  {
    assert source == source[..p] + source[p..];
    ReadAppend(Reading(START, [], []), source[..p], source[p..]);
    ReadGrows(Decode(source[..p]), source[p..]);
  }

  lemma DecodeNext(source: seq<Byte>, p: nat, raw: seq<Byte>)
    requires p + |raw| <= |source| && raw == source[p..p + |raw|]
    ensures Decode(source[..p + |raw|]) == Read(Decode(source[..p]), raw)
  {
    assert source[..p + |raw|] == source[..p] + raw;
    ReadAppend(Reading(START, [], []), source[..p], raw);
  }

  lemma {:induction false} ReadFollowsRun(r: Reading, s: seq<Byte>)
    ensures Read(r, s).decoder == RunFrom(r.decoder, s).decoder
    decreases |s|
  {
    if s != [] && !r.decoder.Error() {
      ReadFollowsRun(r.Feed(s[0]), s[1..]);
    }
  }

  /** One well-formed character is read into its value and its own bytes. */
  lemma ReadOneChar(r: Reading, s: seq<Byte>)
    requires r.decoder.HasCodePoint() && r.pending == [] && CharLength(s) > 0
    ensures var n, v := CharLength(s), CharValue(s);
            Encode(v) == s[..n]
              && Read(r, s) == Read(Reading(Decoder(ACCEPT, v), [], r.out + [Char(v, Encode(v))]), s[n..])
  {
    CharIsEncoded(s);
    if CharLength(s) == 1 {
      assert [] + [s[0]] == s[..1];
    } else {
      ReadLongChar(r, s);
    }
  }

  lemma ReadLongChar(r: Reading, s: seq<Byte>)
    requires r.decoder.HasCodePoint() && r.pending == [] && CharLength(s) > 1
    ensures var n, v := CharLength(s), CharValue(s);
            Read(r, s) == Read(Reading(Decoder(ACCEPT, v), [], r.out + [Char(v, s[..n])]), s[n..])
  {
    var n := CharLength(s);
    if n == 2 {
      Feeds2(r.decoder, s[0], s[1]);
      ReadPair(r, s);
      assert [] + [s[0]] + [s[1]] == s[..2];
    } else if n == 3 {
      Feeds3(r.decoder, s[0], s[1], s[2]);
      ReadPair(r, s);
      ReadThird(r.Feed(s[0]).Feed(s[1]), s);
      assert [] + [s[0]] + [s[1]] + [s[2]] == s[..3];
    } else {
      Feeds4(r.decoder, s[0], s[1], s[2], s[3]);
      ReadPair(r, s);
      ReadThird(r.Feed(s[0]).Feed(s[1]), s);
      assert s[3..][1..] == s[4..];
      assert [] + [s[0]] + [s[1]] + [s[2]] + [s[3]] == s[..4];
    }
  }

  lemma ReadPair(r: Reading, s: seq<Byte>)
    requires |s| >= 2 && !r.decoder.Error() && !r.Feed(s[0]).decoder.Error()
    ensures Read(r, s) == Read(r.Feed(s[0]).Feed(s[1]), s[2..])
  {
    assert s[1..][1..] == s[2..];
  }

  lemma ReadThird(r2: Reading, s: seq<Byte>)
    requires |s| >= 3 && !r2.decoder.Error()
    ensures Read(r2, s[2..]) == Read(r2.Feed(s[2]), s[3..])
  {
    assert s[2..][1..] == s[3..];
  }

  /** The code points of a text: each scalar value with its own encoding as raw bytes. */
  function CharsOf(vs: seq<Scalar>): (chars: seq<Char>)
    ensures |chars| == |vs|
  {
    seq(|vs|, k requires 0 <= k < |vs| => Char(vs[k], Encode(vs[k])))
  }

  lemma {:induction false} ReadWellFormed(r: Reading, s: seq<Byte>)
    requires r.decoder.HasCodePoint() && r.pending == [] && WellFormed(s)
    ensures Read(r, s).out == r.out + CharsOf(Scalars(s))
    decreases |s|
  {
    if s == [] {
      assert CharsOf([]) == [];
    } else {
      var n, v := CharLength(s), CharValue(s);
      ReadOneChar(r, s);
      ReadWellFormed(Reading(Decoder(ACCEPT, v), [], r.out + [Char(v, Encode(v))]), s[n..]);
      assert CharsOf(Scalars(s)) == [Char(v, Encode(v))] + CharsOf(Scalars(s[n..]));
    }
  }

  /** The reference accepts exactly the well-formed sources, and delivers their scalar values with their bytes. */
  lemma ReferenceIsRfc3629(source: seq<Byte>)
    ensures Decode(source).decoder.HasCodePoint() <==> WellFormed(source)
    ensures WellFormed(source) ==> Decode(source).out == CharsOf(Scalars(source))
  {
    ReadFollowsRun(Reading(START, [], []), source);
    DecoderAcceptsExactlyWellFormed(source);
    if WellFormed(source) {
      ReadWellFormed(Reading(START, [], []), source);
    }
  }

  lemma RejectedIsMalformed(source: seq<Byte>, p: nat)
    requires p <= |source|
    requires Decode(source[..p]).decoder.Error() || (p == |source| && !Decode(source[..p]).decoder.HasCodePoint())
    ensures !WellFormed(source)
  {
    DecodePrefix(source, p);
    ReferenceIsRfc3629(source);
  }

  function Bytes(chars: seq<Char>): seq<Byte> {
    if chars == [] then [] else Bytes(chars[..|chars| - 1]) + chars[|chars| - 1].bytes
  }

  /** No byte is lost: the raw bytes of the code points, then the pending ones, are the source. */
  lemma {:induction false} RawBytesAreKept(source: seq<Byte>, i: nat)
    requires i <= |source| && !Decode(source[..i]).decoder.Error()
    ensures Bytes(Decode(source[..i]).out) + Decode(source[..i]).pending == source[..i]
  {
    if i > 0 {
      DecodePrefix(source[..i], i - 1);
      assert source[..i][..i - 1] == source[..i - 1];
      RawBytesAreKept(source, i - 1);
      ReadSnoc(Reading(START, [], []), source, i - 1);
      var r, b := Decode(source[..i - 1]), source[i - 1];
      assert Bytes(r.Feed(b).out) + r.Feed(b).pending == Bytes(r.out) + r.pending + [b] by {
        BytesOfOneMore(r.out, r.pending, b, r.decoder.Feed(b).codepoint);
      }
      assert source[..i] == source[..i - 1] + [source[i - 1]];
    }
  }

  lemma BytesOfOneMore(out: seq<Char>, pending: seq<Byte>, b: Byte, v: nat)
    ensures Bytes(out + [Char(v, pending + [b])]) + [] == Bytes(out) + pending + [b] == Bytes(out) + (pending + [b])
  {
    var all := out + [Char(v, pending + [b])];
    assert all[..|out|] == out;
  }

  /** The bytes still missing in a state, as far as the count of pending bytes goes. */
  function Missing(state: nat): nat {
    match state
    case 24 => 1 case 36 => 2 case 48 => 2 case 60 => 2 case 72 => 3 case 84 => 3 case 96 => 3
    case _ => 0
  }

  /** Pending and missing bytes never exceed four, and none are pending on acceptance. */
  predicate Bounded(r: Reading) {
    && (r.decoder.HasCodePoint() ==> r.pending == [])
    && (r.decoder.NeedsMoreInput() ==> 1 <= Missing(r.decoder.state) && |r.pending| + Missing(r.decoder.state) <= 4)
  }

  lemma FeedBounded(r: Reading, b: Byte)
    requires Bounded(r) && !r.decoder.Error()
    ensures Bounded(r.Feed(b))
    ensures r.Feed(b).decoder.NeedsMoreInput() && r.decoder.NeedsMoreInput()
            ==> Missing(r.Feed(b).decoder.state) < Missing(r.decoder.state)
  {
  }

  /** The count of four is reached only on a complete code point: the "overlong" branch is dead. */
  lemma OverlongIsUnreachable(source: seq<Byte>, i: nat)
    requires i <= |source|
    ensures Bounded(Decode(source[..i]))
    ensures Decode(source[..i]).decoder.NeedsMoreInput() ==> |Decode(source[..i]).pending| < 4
  {
    if i > 0 {
      OverlongIsUnreachable(source, i - 1);
      DecodePrefix(source[..i], i - 1);
      assert source[..i][..i - 1] == source[..i - 1];
      if !Decode(source[..i - 1]).decoder.Error() {
        ReadSnoc(Reading(START, [], []), source, i - 1);
        FeedBounded(Decode(source[..i - 1]), source[i - 1]);
      }
    }
  }

  lemma PositionAfterAppend(a: seq<Char>, b: seq<Char>, p: Position)
    ensures PositionAfter(a + b, p) == PositionAfter(b, PositionAfter(a, p))
  {
    if b == [] {
      assert a + b == a;
    } else {
      assert (a + b)[..|a + b| - 1] == a + b[..|b| - 1];
      PositionAfterAppend(a, b[..|b| - 1], p);
    }
  }

  lemma PlacedAppend(a: seq<Char>, b: seq<Char>, p: Position)
    ensures Placed(a + b, p) == Placed(a, p) + Placed(b, PositionAfter(a, p))
  {
    forall k | 0 <= k < |a + b|
      ensures Placed(a + b, p)[k] == (Placed(a, p) + Placed(b, PositionAfter(a, p)))[k]
    {
      if k < |a| {
        assert (a + b)[..k] == a[..k];
      } else {
        assert (a + b)[..k] == a + b[..k - |a|];
        PositionAfterAppend(a, b[..k - |a|], p);
      }
    }
  }

  lemma PlacedPrefix(a: seq<Char>, c: seq<Char>, p: Position)
    requires a <= c
    ensures Placed(a, p) <= Placed(c, p)
  {
    assert c == a + c[|a|..];
    PlacedAppend(a, c[|a|..], p);
  }

  /** The positions of a block follow those of the code points before it. */
  lemma BlockPlaced(before: seq<Char>, chars: seq<Char>, now: seq<Char>)
    requires now == before + chars
    ensures PositionAfter(now, ORIGIN) == PositionAfter(chars, PositionAfter(before, ORIGIN))
    ensures Placed(now, ORIGIN)[|before|..] == Placed(chars, PositionAfter(before, ORIGIN))
  {
    PositionAfterAppend(before, chars, ORIGIN);
    PlacedAppend(before, chars, ORIGIN);
  }

  ghost function AsciiChars(raw: seq<Byte>): (chars: seq<Char>)
    ensures |chars| == |raw|
  {
    seq(|raw|, k requires 0 <= k < |raw| => Char(raw[k], [raw[k]]))
  }

  /** The reference reads ASCII bytes as they are. */
  lemma {:induction false} ReadAscii(r: Reading, raw: seq<Byte>)
    requires r.decoder.HasCodePoint() && r.pending == [] && Ascii(raw)
    ensures var end := Read(r, raw);
            end.decoder.HasCodePoint() && end.pending == [] && end.out == r.out + AsciiChars(raw)
    decreases |raw|
  {
    if raw != [] {
      assert [] + [raw[0]] == [raw[0]];
      var r1 := r.Feed(raw[0]);
      assert r1 == Reading(Decoder(ACCEPT, raw[0]), [], r.out + [Char(raw[0], [raw[0]])]);
      ReadAscii(r1, raw[1..]);
      assert AsciiChars(raw) == [Char(raw[0], [raw[0]])] + AsciiChars(raw[1..]);
    }
  }

  // ---------------------------------------------------------------------------------------
  // The vectorised ASCII test
  // ---------------------------------------------------------------------------------------

  predicate Ascii(s: seq<Byte>) { forall i :: 0 <= i < |s| ==> s[i] <= 127 }

  const LANES := 16

  /** Sixteen bytes at a time are or-ed into a mask whose sign bits are tested at the end; the rest one by one.
      Only the sign bit of each lane of the mask is kept, since the comparison reads nothing else. */
  method IsAscii(s: seq<Byte>) returns (ascii: bool)
    ensures ascii <==> Ascii(s)
  {
    var simdable := |s| - |s| % LANES;
    var mask := seq(LANES, _ => false);
    var at := 0;
    while at < simdable
      invariant at % LANES == 0 && 0 <= at <= simdable && |mask| == LANES
      invariant (exists l :: 0 <= l < LANES && mask[l]) <==> !Ascii(s[..at])
    {
      ghost var before := mask;
      var current := s[at..at + LANES];
      mask := seq(LANES, l requires 0 <= l < LANES => mask[l] || current[l] >= 0x80);
      assert s[..at + LANES] == s[..at] + current;
      if l :| 0 <= l < LANES && before[l] {
        assert mask[l];
      }
      if l :| 0 <= l < LANES && current[l] >= 0x80 {
        assert mask[l] && s[..at + LANES][at + l] >= 0x80;
      }
      at := at + LANES;
    }
    if true in mask {
      return false;
    }
    while at < |s|
      invariant simdable <= at <= |s| && Ascii(s[..at])
    {
      if s[at] > 127 {
        return false;
      }
      at := at + 1;
    }
    return true;
  }

  // ---------------------------------------------------------------------------------------
  // The reader
  // ---------------------------------------------------------------------------------------

  const BLOCK_CAPACITY := 32

  datatype BlockStatus = Loaded | MalformedBlock

  datatype ReadResult = Got(cp: Codepoint) | EndOfInput | Malformed

  /** Decoders that treat every further byte alike: after a complete code point the old value is dead. */
  predicate SameDecoder(d: Decoder, e: Decoder) {
    d.state == e.state && (d.NeedsMoreInput() ==> d == e)
  }

  class Reader {
    const source: seq<Byte>
    var position: nat
    var nextPos: Position
    var decoder: Decoder
    const bytes: array<Byte>        // of the code point being decoded
    var bytesCount: nat
    const buffer: array<Codepoint>  // the decoded block
    var current: nat
    var count: nat
    ghost var delivered: nat

    /** The decoding of the bytes taken from the stream so far. */
    ghost function Taken(): Reading
      reads this
      requires position <= |source|
    {
      Decode(source[..position])
    }

    ghost predicate Scanning()
      reads this, bytes
    {
      && bytes.Length == 4 && buffer.Length == BLOCK_CAPACITY && position <= |source|
      && !Taken().decoder.Error() && SameDecoder(decoder, Taken().decoder)
      && bytesCount <= 4 && bytes[..bytesCount] == Taken().pending
      && nextPos == PositionAfter(Taken().out, ORIGIN)
      && (position == |source| ==> decoder.HasCodePoint())
    }

    ghost predicate Valid()
      reads this, bytes, buffer
    {
      && Scanning()
      && current <= count <= BLOCK_CAPACITY
      && delivered + (count - current) == |Taken().out|
      && buffer[current..count] == Placed(Taken().out, ORIGIN)[delivered..]
    }

    constructor (input: seq<Byte>)
      ensures Valid() && fresh(bytes) && fresh(buffer) && source == SkipMark(input) && delivered == 0
    {
      source := SkipMark(input);
      position := 0;
      nextPos := Position(1, 1);
      decoder := START;
      bytes := new Byte[4](_ => 0);
      bytesCount := 0;
      buffer := new Codepoint[BLOCK_CAPACITY](_ => Codepoint(Char(0, []), Position(0, 0)));
      current, count, delivered := 0, 0, 0;
    }

    /** calc_positions: line and column of every code point of the block. */
    method CalcPositions()
      requires count <= buffer.Length
      modifies this`nextPos, buffer
      ensures nextPos == PositionAfter(Chars(old(buffer[..count])), old(nextPos))
      ensures buffer[..count] == Placed(Chars(old(buffer[..count])), old(nextPos))
    {
      ghost var chars := Chars(buffer[..count]);
      assert chars[..0] == [];
      var i := 0;
      while i < count
        invariant 0 <= i <= count
        invariant nextPos == PositionAfter(chars[..i], old(nextPos))
        invariant buffer[..i] == Placed(chars, old(nextPos))[..i]
        invariant forall k :: i <= k < count ==> buffer[k].ch == chars[k]
      {
        buffer[i] := Codepoint(buffer[i].ch, nextPos);
        assert chars[..i + 1][..i] == chars[..i];
        nextPos := if buffer[i].ch.value == 0x0A then Position(nextPos.line + 1, 1)
                   else Position(nextPos.line, nextPos.column + 1);
        i := i + 1;
      }
      assert chars[..count] == chars;
    }

    /** The state in the middle of a block: the reference has read up to now, since the code points before. */
    ghost predicate InBlock(before: seq<Char>, now: Reading)
      reads this, bytes, buffer
    {
      && bytes.Length == 4 && buffer.Length == BLOCK_CAPACITY && count <= BLOCK_CAPACITY
      && !now.decoder.Error() && SameDecoder(decoder, now.decoder) && Bounded(now)
      && bytesCount <= 4 && bytes[..bytesCount] == now.pending
      && now.out == before + Chars(buffer[..count])
    }

    /** The shortcut: a block of ASCII bytes after a complete code point. */
    method FastPath(raw: seq<Byte>, ghost before: Reading)
      requires |raw| <= BLOCK_CAPACITY && Ascii(raw) && decoder.HasCodePoint() && count == 0
      requires InBlock(before.out, before)
      modifies this`decoder, this`bytesCount, this`count, buffer
      ensures InBlock(before.out, Read(before, raw)) && count == |raw| && decoder.HasCodePoint()
    {
      decoder := decoder.Reset();
      bytesCount := 0;
      count := |raw|;
      var i := 0;
      while i < count
        modifies buffer
        invariant 0 <= i <= count == |raw| <= buffer.Length
        invariant Chars(buffer[..i]) == AsciiChars(raw[..i])
      {
        buffer[i] := Codepoint(Char(raw[i], [raw[i]]), Position(0, 0));
        i := i + 1;
      }
      assert raw[..i] == raw;
      ReadAscii(before, raw);
    }

    /** One round of the decoder loop. The last branch, a fourth byte that completes nothing, is dead. */
    method DecodeByte(b: Byte, ghost before: seq<Char>, ghost last: Reading) returns (ok: bool)
      requires InBlock(before, last) && count < BLOCK_CAPACITY
      modifies this`decoder, this`bytesCount, this`count, bytes, buffer
      ensures ok ==> InBlock(before, last.Feed(b)) && old(count) <= count <= old(count) + 1
                     && (count > old(count) <==> decoder.HasCodePoint())
      ensures !ok ==> last.Feed(b).decoder.Error()
    {
      FeedBounded(last, b);
      decoder := decoder.Feed(b);
      if decoder.Error() {
        return false;
      }
      ghost var done := Chars(buffer[..count]);
      bytes[bytesCount] := b;
      bytesCount := bytesCount + 1;
      assert bytes[..bytesCount] == last.pending + [b];
      if decoder.HasCodePoint() {
        ghost var ch := Char(decoder.codepoint, last.pending + [b]);
        buffer[count] := Codepoint(Char(decoder.codepoint, bytes[..bytesCount]), Position(0, 0));
        assert Chars(buffer[..count + 1]) == done + [ch];
        assert last.out + [ch] == before + (done + [ch]);
        count := count + 1;
        bytesCount := 0;
      } else if bytesCount == 4 {
        assert false;
      }
      return true;
    }

    /** The decoder loop; false when it met an invalid byte. */
    method SlowPath(raw: seq<Byte>, ghost before: Reading) returns (ok: bool)
      requires |raw| <= BLOCK_CAPACITY && count == 0
      requires InBlock(before.out, before)
      modifies this`decoder, this`bytesCount, this`count, bytes, buffer
      ensures ok ==> InBlock(before.out, Read(before, raw))
      ensures ok && count == 0 && raw != [] ==> |raw| < 4 && decoder.NeedsMoreInput()
      ensures !ok ==> Read(before, raw).decoder.Error()
    {
      ghost var now := before;
      var i := 0;
      while i < |raw|
        invariant 0 <= i <= |raw| && count <= i && InBlock(before.out, now)
        invariant now == Read(before, raw[..i])
        invariant count == 0 && i > 0 ==> decoder.NeedsMoreInput() && Missing(decoder.state) + i <= 4
      {
        ReadSnoc(before, raw, i);
        FeedBounded(now, raw[i]);
        ok := DecodeByte(raw[i], before.out, now);
        now := now.Feed(raw[i]);
        if !ok {
          assert raw == raw[..i + 1] + raw[i + 1..];
          ReadAppend(before, raw[..i + 1], raw[i + 1..]);
          return;
        }
        i := i + 1;
      }
      assert raw[..i] == raw;
      return true;
    }

    /** Decoding one block, by the shortcut where it applies. */
    method DecodeBlock(raw: seq<Byte>, ghost before: Reading) returns (ok: bool)
      requires 0 < |raw| <= BLOCK_CAPACITY && count == 0 && InBlock(before.out, before)
      requires position <= |source| && (position < |source| ==> |raw| == BLOCK_CAPACITY)
      modifies this`decoder, this`bytesCount, this`count, bytes, buffer
      ensures ok ==> InBlock(before.out, Read(before, raw)) && count > 0
                     && (position == |source| ==> decoder.HasCodePoint())
      ensures !ok ==> Read(before, raw).decoder.Error()
                      || (position == |source| && !Read(before, raw).decoder.HasCodePoint())
    {
      var ascii := IsAscii(raw);
      if !decoder.NeedsMoreInput() && ascii {
        FastPath(raw, before);
        return true;
      }
      ok := SlowPath(raw, before);
      if ok && decoder.NeedsMoreInput() && position >= |source| {
        return false;
      }
    }

    /** The stream copies out the next block. */
    method NextBlock() returns (raw: seq<Byte>)
      requires position < |source|
      modifies this`position
      ensures 0 < |raw| <= BLOCK_CAPACITY && position <= |source| && (position < |source| ==> |raw| == BLOCK_CAPACITY)
      ensures Taken() == Read(old(Taken()), raw)
    {
      var num := if BLOCK_CAPACITY < |source| - position then BLOCK_CAPACITY else |source| - position;
      raw := source[position..position + num];
      DecodeNext(source, position, raw);
      position := position + num;
    }

    method ReadNextBlock() returns (status: BlockStatus)
      requires Valid() && current == count && position < |source|
      modifies this`position, this`nextPos, this`decoder, this`bytesCount, this`current, this`count, bytes, buffer
      ensures status.Loaded? ==> Valid() && current == 0 < count
      ensures status.MalformedBlock? ==> !WellFormed(source)
    {
      ghost var before := Taken();
      OverlongIsUnreachable(source, position);
      var raw := NextBlock();
      ghost var now := Taken();
      current, count := 0, 0;
      var ok := DecodeBlock(raw, before);
      if !ok {
        RejectedIsMalformed(source, position);
        return MalformedBlock;
      }
      FinishBlock(before.out, now);
      return Loaded;
    }

    /** The decoded block gets its positions and becomes what ReadNext hands out. */
    method FinishBlock(ghost before: seq<Char>, ghost now: Reading)
      requires position <= |source| && now == Taken() && InBlock(before, now)
      requires nextPos == PositionAfter(before, ORIGIN) && current == 0 && delivered == |before|
      requires position == |source| ==> decoder.HasCodePoint()
      modifies this`nextPos, buffer
      ensures Valid()
    {
      ghost var chars := Chars(buffer[..count]);
      CalcPositions();
      BlockPlaced(before, chars, now.out);
    }

    /** The next code point of the source: what the reference has there, or the reference's verdict. */
    method ReadNext() returns (r: ReadResult)
      requires Valid()
      modifies this`position, this`nextPos, this`decoder, this`bytesCount, this`current, this`count, this`delivered,
               bytes, buffer
      ensures r.Got? ==> Valid() && delivered == old(delivered) + 1
                         && old(delivered) < |Reference(source)| && r.cp == Reference(source)[old(delivered)]
      ensures r.EndOfInput? ==> Valid() && delivered == old(delivered) == |Reference(source)| && WellFormed(source)
      ensures r.Malformed? ==> !WellFormed(source)
    {
      if current == count {
        if position >= |source| {
          DecodePrefix(source, position);
          ReferenceIsRfc3629(source);
          return EndOfInput;
        }
        var status := ReadNextBlock();
        if status.MalformedBlock? {
          return Malformed;
        }
      }
      var cp := buffer[current];
      DecodePrefix(source, position);
      PlacedPrefix(Taken().out, Decode(source).out, ORIGIN);
      assert cp == buffer[current..count][0];
      current := current + 1;
      delivered := delivered + 1;
      return Got(cp);
    }
  }

  ghost function Chars(block: seq<Codepoint>): (chars: seq<Char>)
    ensures |chars| == |block| && forall k :: 0 <= k < |block| ==> chars[k] == block[k].ch
  {
    seq(|block|, k requires 0 <= k < |block| => block[k].ch)
  }

  const MARK: seq<Byte> := [0xEF, 0xBB, 0xBF]

  /** The stream skips a leading byte order mark. */
  function SkipMark(input: seq<Byte>): seq<Byte> {
    if MARK <= input then input[3..] else input
  }

  /** The bytes 0xEF, 0xBB and 0xBF at the beginning are skipped, once, and nothing else is. */
  lemma MarkInNumbers(s: seq<Byte>)
    ensures SkipMark([0xEF, 0xBB, 0xBF] + s) == s
    ensures (|s| < 3 || s[0] != 0xEF || s[1] != 0xBB || s[2] != 0xBF) ==> SkipMark(s) == s
  {
    assert ([0xEF, 0xBB, 0xBF] + s)[3..] == s;
  }
}
