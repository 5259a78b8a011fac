/**
  The table-driven UTF-8 decoder of the TOML library (util/toml.hpp, utf8_decoder), the
  encoder inside its string parser, and section 4 of RFC 3629 as an independent reference.
 */
module Utf8 {

  type Byte = b: int | 0 <= b < 256

  type Scalar = v: int | 0 <= v < 0xD800 || 0xE000 <= v < 0x11_0000

  // ---------------------------------------------------------------------------------------
  // The decoder automaton
  // ---------------------------------------------------------------------------------------

  /** The first 256 entries of state_table: the class of a byte. */
  function ClassOf(b: Byte): (c: nat)
    ensures c < 12
  {
    if b < 0x80 then 0 else if b < 0x90 then 1 else if b < 0xA0 then 9 else if b < 0xC0 then 7
    else if b < 0xC2 then 8 else if b < 0xE0 then 2 else if b < 0xE1 then 10 else if b < 0xED then 3
    else if b < 0xEE then 4 else if b < 0xF0 then 3 else if b < 0xF1 then 11 else if b < 0xF4 then 6
    else if b < 0xF5 then 5 else 8
  }

  const ACCEPT := 0
  const REJECT := 12

  /** The last 108 entries of state_table: one row of twelve classes per state. */
  function NextState(state: nat, c: nat): (next: nat) {
    match state
    case 0 => (match c case 0 => 0 case 2 => 24 case 3 => 36 case 4 => 60 case 5 => 96 case 6 => 84
                       case 10 => 48 case 11 => 72 case _ => 12)
    case 24 => if c == 1 || c == 7 || c == 9 then 0 else 12
    case 36 => if c == 1 || c == 7 || c == 9 then 24 else 12
    case 48 => if c == 7 then 24 else 12
    case 60 => if c == 1 || c == 9 then 24 else 12
    case 72 => if c == 7 || c == 9 then 36 else 12
    case 84 => if c == 1 || c == 7 || c == 9 then 36 else 12
    case 96 => if c == 1 then 36 else 12
    case _ => 12
  }

  /** One more than 255 >> c: masking a byte with 255 >> c is taking it modulo this power of two. */
  function MaskWidth(c: nat): (w: nat)
    ensures w > 0
  {
    match c
    case 0 => 256 case 1 => 128 case 2 => 64 case 3 => 32 case 4 => 16 case 5 => 8 case 6 => 4 case 7 => 2
    case _ => 1
  }

  datatype Decoder = Decoder(state: nat, codepoint: nat) {
    predicate Error() { state == REJECT }
    predicate HasCodePoint() { state == ACCEPT }
    predicate NeedsMoreInput() { !HasCodePoint() && !Error() }

    /** operator(): the 32-bit code point keeps the low bits of the lead byte, then shifts in six bits a byte. */
    function Feed(b: Byte): Decoder {
      var c := ClassOf(b);
      Decoder(NextState(state, c),
              if HasCodePoint() then b % MaskWidth(c) else (codepoint * 64) % 0x1_0000_0000 + b % 64)
    }

    function Reset(): Decoder { this.(state := ACCEPT) }
  }

  const START := Decoder(ACCEPT, 0)

  /** Feeding bytes until the end or the first error; emitted code points are collected. */
  datatype Run = Run(decoder: Decoder, out: seq<nat>)

  function RunFrom(d: Decoder, s: seq<Byte>): Run
    decreases |s|
  {
    if s == [] || d.Error() then Run(d, [])
    else
      var d1 := d.Feed(s[0]);
      var rest := RunFrom(d1, s[1..]);
      Run(rest.decoder, (if d1.HasCodePoint() then [d1.codepoint] else []) + rest.out)
  }

  predicate Accepts(s: seq<Byte>) { RunFrom(START, s).decoder.HasCodePoint() }

  // ---------------------------------------------------------------------------------------
  // RFC 3629, section 4: the ABNF of UTF8-octets, and section 3: the bit distribution
  // ---------------------------------------------------------------------------------------

  predicate Tail(b: Byte) { 0x80 <= b <= 0xBF }

  /** The length of the UTF8-char that s begins with, or 0 when s begins with none. */
  function CharLength(s: seq<Byte>): (n: nat)
    ensures n <= |s| && n <= 4
  {
    if |s| >= 1 && s[0] <= 0x7F then 1
    else if |s| >= 2 && 0xC2 <= s[0] <= 0xDF && Tail(s[1]) then 2
    else if |s| >= 3 && Tail(s[2])
            && ((s[0] == 0xE0 && 0xA0 <= s[1] <= 0xBF) || (0xE1 <= s[0] <= 0xEC && Tail(s[1]))
                || (s[0] == 0xED && 0x80 <= s[1] <= 0x9F) || (0xEE <= s[0] <= 0xEF && Tail(s[1]))) then 3
    else if |s| >= 4 && Tail(s[2]) && Tail(s[3])
            && ((s[0] == 0xF0 && 0x90 <= s[1] <= 0xBF) || (0xF1 <= s[0] <= 0xF3 && Tail(s[1]))
                || (s[0] == 0xF4 && 0x80 <= s[1] <= 0x8F)) then 4
    else 0
  }

  function CharValue(s: seq<Byte>): (v: Scalar)
    requires CharLength(s) > 0
  {
    var n := CharLength(s);
    if n == 1 then s[0]
    else if n == 2 then Value2(s[0], s[1])
    else if n == 3 then Value3(s[0], s[1], s[2])
    else Value4(s[0], s[1], s[2], s[3])
  }

  function Value2(b0: int, b1: int): int { (b0 - 0xC0) * 64 + (b1 - 0x80) }

  function Value3(b0: int, b1: int, b2: int): int { (b0 - 0xE0) * 4096 + (b1 - 0x80) * 64 + (b2 - 0x80) }

  function Value4(b0: int, b1: int, b2: int, b3: int): int {
    (b0 - 0xF0) * 262144 + (b1 - 0x80) * 4096 + (b2 - 0x80) * 64 + (b3 - 0x80)
  }

  /** A byte string is well formed when it is a concatenation of UTF8-chars. */
  predicate WellFormed(s: seq<Byte>) {
    s == [] || (CharLength(s) > 0 && WellFormed(s[CharLength(s)..]))
  }

  function Scalars(s: seq<Byte>): (vs: seq<Scalar>)
    requires WellFormed(s)
  {
    if s == [] then [] else [CharValue(s)] + Scalars(s[CharLength(s)..])
  }

  // ---------------------------------------------------------------------------------------
  // The encoder of parse_basic_string
  // ---------------------------------------------------------------------------------------

  /** The bytes appended for a \u or \U escape of value v; on disjoint bits | is +. */
  function Encode(v: Scalar): (s: seq<Byte>)
    ensures 1 <= |s| <= 4
  {
    if v < 0x80 then [v]
    else if v < 0x800 then [v / 64 + 0xC0, v % 64 + 0x80]
    else if v < 0x10000 then [v / 4096 + 0xE0, v / 64 % 64 + 0x80, v % 64 + 0x80]
    else [v / 262144 + 0xF0, v / 4096 % 64 + 0x80, v / 64 % 64 + 0x80, v % 64 + 0x80]
  }

  function EncodeAll(vs: seq<Scalar>): (s: seq<Byte>) {
    if vs == [] then [] else Encode(vs[0]) + EncodeAll(vs[1..])
  }

  /** Examples of section 7 of RFC 3629: an A, "not identical to", an alpha and a full stop; three Korean and three
      Japanese characters; and one beyond 16 bits. */
  lemma ExamplesOfRfc3629()
    ensures Encode(0x0041) == [0x41] && Encode(0x2262) == [0xE2, 0x89, 0xA2] && Encode(0x0391) == [0xCE, 0x91]
    ensures Encode(0x002E) == [0x2E]
    ensures Encode(0xD55C) == [0xED, 0x95, 0x9C] && Encode(0xAD6D) == [0xEA, 0xB5, 0xAD]
    ensures Encode(0xC5B4) == [0xEC, 0x96, 0xB4]
    ensures Encode(0x65E5) == [0xE6, 0x97, 0xA5] && Encode(0x672C) == [0xE6, 0x9C, 0xAC]
    ensures Encode(0x8A9E) == [0xE8, 0xAA, 0x9E] && Encode(0x2_33B4) == [0xF0, 0xA3, 0x8E, 0xB4]
  {
  }

  // ---------------------------------------------------------------------------------------
  // The machine operations behind the arithmetic
  // ---------------------------------------------------------------------------------------

  /** The shifts and masks of the decoder, on 32-bit words, are the arithmetic used here. */
  lemma DecoderBits(b: bv32, cp: bv32)
    requires b < 256 && cp < 0x8000
    ensures (b & 63) | (cp << 6) == b % 64 + cp * 64
    ensures b & (0xFF >> 2) == b % 64 && b & (0xFF >> 3) == b % 32 && b & (0xFF >> 4) == b % 16
    ensures b & (0xFF >> 5) == b % 8 && b & (0xFF >> 6) == b % 4
    ensures b & (0xFF >> 10) == 0 && b & (0xFF >> 11) == 0
  {
  }

  /** And so are those of the encoder. */
  lemma EncoderBits(v: bv32)
    requires v < 0x11_0000
    ensures (v & 0x3F) | 0x80 == v % 64 + 0x80
    ensures ((v >> 6) & 0x3F) | 0x80 == v / 64 % 64 + 0x80
    ensures ((v >> 12) & 0x3F) | 0x80 == v / 4096 % 64 + 0x80
    ensures (v >> 18) | 0xF0 == v / 262144 + 0xF0
    ensures v < 0x10000 ==> (v >> 12) | 0xE0 == v / 4096 + 0xE0
    ensures v < 0x800 ==> (v >> 6) | 0xC0 == v / 64 + 0xC0
  {
  }

  // ---------------------------------------------------------------------------------------
  // The decoder accepts exactly section 4 of RFC 3629 and yields its scalar values
  // ---------------------------------------------------------------------------------------

  lemma RunSteps(d: Decoder, s: seq<Byte>)
    requires s != [] && !d.Error()
    ensures var d1 := d.Feed(s[0]);
            RunFrom(d, s) == Run(RunFrom(d1, s[1..]).decoder,
                                 (if d1.HasCodePoint() then [d1.codepoint] else []) + RunFrom(d1, s[1..]).out)
  {
  }

  lemma Feeds2(d: Decoder, b0: Byte, b1: Byte)
    requires d.HasCodePoint() && 0xC2 <= b0 <= 0xDF && Tail(b1)
    ensures d.Feed(b0).NeedsMoreInput()
    ensures d.Feed(b0).Feed(b1) == Decoder(ACCEPT, Value2(b0, b1))
  {
  }

  lemma Feeds3(d: Decoder, b0: Byte, b1: Byte, b2: Byte)
    requires d.HasCodePoint() && CharLength([b0, b1, b2]) == 3
    ensures d.Feed(b0).NeedsMoreInput()
    ensures d.Feed(b0).Feed(b1) == Decoder(24, (b0 as int - 0xE0) * 64 + (b1 as int - 0x80))
    ensures d.Feed(b0).Feed(b1).Feed(b2) == Decoder(ACCEPT, Value3(b0, b1, b2))
  {
    assert d.Feed(b0).codepoint == b0 as int - 0xE0;
  }

  lemma Feeds4(d: Decoder, b0: Byte, b1: Byte, b2: Byte, b3: Byte)
    requires d.HasCodePoint() && CharLength([b0, b1, b2, b3]) == 4
    ensures d.Feed(b0).NeedsMoreInput()
    ensures d.Feed(b0).Feed(b1) == Decoder(36, (b0 as int - 0xF0) * 64 + (b1 as int - 0x80))
    ensures d.Feed(b0).Feed(b1).Feed(b2)
            == Decoder(24, ((b0 as int - 0xF0) * 64 + (b1 as int - 0x80)) * 64 + (b2 as int - 0x80))
    ensures d.Feed(b0).Feed(b1).Feed(b2).Feed(b3) == Decoder(ACCEPT, Value4(b0, b1, b2, b3))
  {
    assert d.Feed(b0).codepoint == b0 as int - 0xF0;
  }

  /** From an accepting state, one UTF8-char is consumed whole and yields its value. */
  lemma RunOneChar(d: Decoder, s: seq<Byte>)
    requires d.HasCodePoint() && CharLength(s) > 0
    ensures var n := CharLength(s);
            var rest := RunFrom(Decoder(ACCEPT, CharValue(s)), s[n..]);
            RunFrom(d, s) == Run(rest.decoder, [CharValue(s)] + rest.out)
  {
    RunSteps(d, s);
    if CharLength(s) == 2 {
      Feeds2(d, s[0], s[1]);
      RunSecond(d.Feed(s[0]), s);
    } else if CharLength(s) == 3 {
      RunThreeBytes(d, s);
    } else if CharLength(s) == 4 {
      RunFourBytes(d, s);
    }
  }

  lemma RunThreeBytes(d: Decoder, s: seq<Byte>)
    requires d.HasCodePoint() && CharLength(s) == 3
    ensures var rest := RunFrom(Decoder(ACCEPT, CharValue(s)), s[3..]);
            RunFrom(d, s) == Run(rest.decoder, [CharValue(s)] + rest.out)
  {
    RunSteps(d, s);
    Feeds3(d, s[0], s[1], s[2]);
    RunSecond(d.Feed(s[0]), s);
    RunThird(d.Feed(s[0]).Feed(s[1]), s);
  }

  lemma RunFourBytes(d: Decoder, s: seq<Byte>)
    requires d.HasCodePoint() && CharLength(s) == 4
    ensures var rest := RunFrom(Decoder(ACCEPT, CharValue(s)), s[4..]);
            RunFrom(d, s) == Run(rest.decoder, [CharValue(s)] + rest.out)
  {
    RunSteps(d, s);
    Feeds4(d, s[0], s[1], s[2], s[3]);
    RunSecond(d.Feed(s[0]), s);
    RunThird(d.Feed(s[0]).Feed(s[1]), s);
    RunSteps(d.Feed(s[0]).Feed(s[1]).Feed(s[2]), s[3..]);
    assert s[3..][1..] == s[4..];
  }

  lemma RunSecond(d1: Decoder, s: seq<Byte>)
    requires |s| >= 2 && d1.NeedsMoreInput()
    ensures var d2 := d1.Feed(s[1]);
            RunFrom(d1, s[1..]) == Run(RunFrom(d2, s[2..]).decoder,
                                       (if d2.HasCodePoint() then [d2.codepoint] else []) + RunFrom(d2, s[2..]).out)
  {
    RunSteps(d1, s[1..]);
    assert s[1..][1..] == s[2..];
  }

  lemma RunThird(d2: Decoder, s: seq<Byte>)
    requires |s| >= 3 && d2.NeedsMoreInput()
    ensures var d3 := d2.Feed(s[2]);
            RunFrom(d2, s[2..]) == Run(RunFrom(d3, s[3..]).decoder,
                                       (if d3.HasCodePoint() then [d3.codepoint] else []) + RunFrom(d3, s[3..]).out)
  {
    RunSteps(d2, s[2..]);
    assert s[2..][1..] == s[3..];
  }

  /** From an accepting state, input that begins with no UTF8-char never gets back to acceptance. */
  lemma RunNoChar(d: Decoder, s: seq<Byte>)
    requires d.HasCodePoint() && CharLength(s) == 0 && s != []
    ensures !RunFrom(d, s).decoder.HasCodePoint() && RunFrom(d, s).out == []
  {
    var d1 := d.Feed(s[0]);
    RunSteps(d, s);
    if |s| > 1 && !d1.Error() {
      var d2 := d1.Feed(s[1]);
      RunSteps(d1, s[1..]);
      assert s[1..][1..] == s[2..];
      if |s| > 2 && !d2.Error() {
        var d3 := d2.Feed(s[2]);
        RunSteps(d2, s[2..]);
        assert s[2..][1..] == s[3..];
        if |s| > 3 && !d3.Error() {
          RunSteps(d3, s[3..]);
          assert s[3..][1..] == s[4..];
        }
      }
    }
  }

  lemma {:induction false} RunAgrees(d: Decoder, s: seq<Byte>)
    requires d.HasCodePoint()
    ensures RunFrom(d, s).decoder.HasCodePoint() <==> WellFormed(s)
    ensures WellFormed(s) ==> RunFrom(d, s).out == Scalars(s)
    decreases |s|
  {
    if s == [] {
    } else if CharLength(s) == 0 {
      RunNoChar(d, s);
    } else {
      RunOneChar(d, s);
      RunAgrees(Decoder(ACCEPT, CharValue(s)), s[CharLength(s)..]);
    }
  }

  /** The automaton accepts a byte string exactly when it is well formed, and emits its scalar values. */
  lemma DecoderAcceptsExactlyWellFormed(s: seq<Byte>)
    ensures Accepts(s) <==> WellFormed(s)
    ensures WellFormed(s) ==> RunFrom(START, s).out == Scalars(s)
  {
    RunAgrees(START, s);
  }

  // ---------------------------------------------------------------------------------------
  // Encoding and decoding are inverse
  // ---------------------------------------------------------------------------------------

  lemma EncodedChar(v: Scalar, s: seq<Byte>)
    ensures CharLength(Encode(v) + s) == |Encode(v)|
    ensures CharValue(Encode(v) + s) == v
    ensures (Encode(v) + s)[|Encode(v)|..] == s
  {
    assert v == v / 64 * 64 + v % 64;
    assert v / 64 == v / 4096 * 64 + v / 64 % 64;
    assert v / 4096 == v / 262144 * 64 + v / 4096 % 64;
  }

  lemma CharIsEncoded(s: seq<Byte>)
    requires CharLength(s) > 0
    ensures Encode(CharValue(s)) == s[..CharLength(s)]
  {
    var n := CharLength(s);
    if n == 2 {
      Encodes2(s[0], s[1]);
    } else if n == 3 {
      Encodes3(s[0], s[1], s[2]);
    } else if n == 4 {
      Encodes4(s[0], s[1], s[2], s[3]);
    }
  }

  lemma Encodes2(b0: Byte, b1: Byte)
    requires CharLength([b0, b1]) == 2
    ensures 0x80 <= Value2(b0, b1) < 0x800 && Encode(Value2(b0, b1)) == [b0, b1]
  {
    SplitBase64(b0 as int - 0xC0, b1 as int - 0x80);
  }

  lemma Encodes3(b0: Byte, b1: Byte, b2: Byte)
    requires CharLength([b0, b1, b2]) == 3
    ensures 0x800 <= Value3(b0, b1, b2) < 0x10000 && !(0xD800 <= Value3(b0, b1, b2) < 0xE000)
    ensures Encode(Value3(b0, b1, b2)) == [b0, b1, b2]
  {
    NotSurrogate(b0, b1, b2);
    Digits64(0, b0 as int - 0xE0, b1 as int - 0x80, b2 as int - 0x80);
    var v := Value3(b0, b1, b2);
    assert v / 4096 % 64 == v / 4096;
    assert Encode(v)[0] == b0 && Encode(v)[1] == b1 && Encode(v)[2] == b2;
  }

  lemma NotSurrogate(b0: Byte, b1: Byte, b2: Byte)
    requires CharLength([b0, b1, b2]) == 3
    ensures 0x800 <= Value3(b0, b1, b2) < 0x10000 && !(0xD800 <= Value3(b0, b1, b2) < 0xE000)
  {
  }

  lemma Encodes4(b0: Byte, b1: Byte, b2: Byte, b3: Byte)
    requires CharLength([b0, b1, b2, b3]) == 4
    ensures 0x10000 <= Value4(b0, b1, b2, b3) < 0x11_0000
    ensures Encode(Value4(b0, b1, b2, b3)) == [b0, b1, b2, b3]
  {
    var v := Value4(b0, b1, b2, b3);
    Digits64(b0 as int - 0xF0, b1 as int - 0x80, b2 as int - 0x80, b3 as int - 0x80);
    assert Encode(v)[0] == b0 && Encode(v)[1] == b1 && Encode(v)[2] == b2 && Encode(v)[3] == b3;
  }

  lemma Digits64(d0: nat, d1: nat, d2: nat, d3: nat)
    requires d1 < 64 && d2 < 64 && d3 < 64
    ensures var v := d0 * 262144 + d1 * 4096 + d2 * 64 + d3;
            v / 262144 == d0 && v / 4096 % 64 == d1 && v / 64 % 64 == d2 && v % 64 == d3
  {
    var v := d0 * 262144 + d1 * 4096 + d2 * 64 + d3;
    SplitBase64(d0 * 4096 + d1 * 64 + d2, d3);
    SplitBase64(d0 * 64 + d1, d2);
    SplitBase64(d0, d1);
    assert v / 4096 == v / 64 / 64 && v / 262144 == v / 64 / 64 / 64;
  }

  lemma SplitBase64(high: int, low: int)
    requires 0 <= low < 64
    ensures (high * 64 + low) / 64 == high && (high * 64 + low) % 64 == low
  {
  }

  lemma {:induction false} EncodeThenDecode(vs: seq<Scalar>)
    ensures WellFormed(EncodeAll(vs)) && Scalars(EncodeAll(vs)) == vs
  {
    if vs != [] {
      EncodedChar(vs[0], EncodeAll(vs[1..]));
      EncodeThenDecode(vs[1..]);
    }
  }

  lemma EncodeAllCons(v: Scalar, vs: seq<Scalar>)
    ensures EncodeAll([v] + vs) == Encode(v) + EncodeAll(vs)
  {
    assert ([v] + vs)[1..] == vs;
  }

  lemma {:induction false} EncodeAppend(a: seq<Scalar>, b: seq<Scalar>)
    ensures EncodeAll(a + b) == EncodeAll(a) + EncodeAll(b)
  {
    if a == [] {
      assert a + b == b;
    } else {
      assert (a + b)[1..] == a[1..] + b;
      EncodeAppend(a[1..], b);
    }
  }

  lemma {:induction false} DecodeThenEncode(s: seq<Byte>)
    requires WellFormed(s)
    ensures EncodeAll(Scalars(s)) == s
    decreases |s|
  {
    if s != [] {
      var n, v := CharLength(s), CharValue(s);
      var rest := Scalars(s[n..]);
      calc {
        EncodeAll(Scalars(s));
        EncodeAll([v] + rest);
      == { EncodeAllCons(v, rest); }
        Encode(v) + EncodeAll(rest);
      == { CharIsEncoded(s); DecodeThenEncode(s[n..]); }
        s[..n] + s[n..];
        s;
      }
    }
  }

  /** Feeding the decoder what the escape encoder wrote returns the original scalar values. */
  lemma DecoderInvertsEncoder(vs: seq<Scalar>)
    ensures RunFrom(START, EncodeAll(vs)).out == vs && Accepts(EncodeAll(vs))
  {
    EncodeThenDecode(vs);
    DecoderAcceptsExactlyWellFormed(EncodeAll(vs));
  }
}
