/**
  Integers of the TOML library: parse_integer in bases 2, 8, 10 and 16, and the formatter's
  print of a 64-bit integer (util/toml.hpp). The reference is the grammar of TOML v1.0.0,
  section "Integer", and positional value; the code departs from it where it looks at a character
  whose block has been replaced.
 */
module IntegerText {
  import opened Wrappers
  import opened Utf8
  import opened CharClasses
  import opened Blocks

  type Text = seq<Scalar>

  const UNDERSCORE: Scalar := '_' as int
  const ZERO: Scalar := '0' as int

  type Base = b: nat | b == 2 || b == 8 || b == 10 || b == 16 witness 10

  predicate IsDigit(base: Base, c: int) {
    if base == 16 then IsHexDigit(c) else ZERO as int <= c < ZERO as int + base
  }

  function DigitValue(base: Base, c: int): (d: nat)
    requires IsDigit(base, c)
    ensures d < base
  {
    if base == 16 then HexToDec(c) else c - ZERO as int
  }

  predicate AllDigits(base: Base, d: Text) { forall k :: 0 <= k < |d| ==> IsDigit(base, d[k]) }

  // ---------------------------------------------------------------------------------------
  // Grammar and value
  // ---------------------------------------------------------------------------------------

  /** Digits, and underscores that follow digits. */
  predicate DigitsAndUnderscores(base: Base, s: Text) {
    forall k :: 0 <= k < |s| ==> InPlace(base, s, k)
  }

  predicate InPlace(base: Base, s: Text, k: nat)
    requires k < |s|
  {
    IsDigit(base, s[k]) || (s[k] == UNDERSCORE && 0 < k && IsDigit(base, s[k - 1]))
  }

  /** Digits, with single underscores between digits only. */
  predicate WellPlaced(base: Base, s: Text) {
    s != [] && DigitsAndUnderscores(base, s) && IsDigit(base, s[|s| - 1])
  }

  /** The text without its underscores. */
  function Digits(s: Text): (d: Text)
    ensures |d| <= |s|
  {
    if s == [] then []
    else Digits(s[..|s| - 1]) + if s[|s| - 1] == UNDERSCORE then [] else [s[|s| - 1]]
  }

  function Value(base: Base, d: Text): nat
    requires AllDigits(base, d)
  {
    if d == [] then 0 else Value(base, d[..|d| - 1]) * base + DigitValue(base, d[|d| - 1])
  }

  const I64_MAX := 0x7FFF_FFFF_FFFF_FFFF
  const TWO_64 := 0x1_0000_0000_0000_0000
  const MAX_HISTORY_LENGTH := 128

  /** The numbers a 64-bit integer holds. */
  predicate Fits(negative: bool, v: nat) { v <= if negative then I64_MAX + 1 else I64_MAX }

  /** Where a value ends: at the end of the text or at a value terminator. */
  function EndOf(text: Text, at: nat): (end: nat)
    requires at <= |text|
    ensures at <= end <= |text|
    ensures forall k :: at <= k < end ==> !IsValueTerminator(text[k])
    ensures end < |text| ==> IsValueTerminator(text[end])
    decreases |text| - at
  {
    if at == |text| || IsValueTerminator(text[at]) then at else EndOf(text, at + 1)
  }

  /** The letter after the zero of a prefixed integer. */
  function PrefixLetter(base: Base): Scalar {
    if base == 2 then 'b' as int else if base == 8 then 'o' as int else 'x' as int
  }

  predicate IsSign(c: Scalar) { c == '+' as int || c == '-' as int }

  /** Where the digits begin, if sign or prefix are in order. */
  function DigitsAt(base: Base, text: Text, at: nat): (p: Option<nat>)
    requires at < |text|
    ensures p.Some? ==> at <= p.value <= |text|
  {
    if base == 10 then Some(if IsSign(text[at]) then at + 1 else at)
    else if |text| - at > 2 && text[at] == ZERO && text[at + 1] == PrefixLetter(base) then Some(at + 2)
    else None
  }

  datatype Integer = Integer(value: int, next: nat)

  function Signed(negative: bool, v: nat): int { if negative then 0 - v as int else v }

  /** What an integer at a position of a text denotes: the grammar, at most 128 digits, no leading zeros in
      decimal, and a value that fits. */
  function ReadInteger(base: Base, text: Text, at: nat): Option<Integer>
    requires at < |text|
  {
    match DigitsAt(base, text, at)
    case None => None
    case Some(p) => ReadDigits(base, base == 10 && text[at] == '-' as int, text, p)
  }

  function ReadDigits(base: Base, negative: bool, text: Text, p: nat): Option<Integer>
    requires p <= |text|
  {
    if WellPlaced(base, text[p..EndOf(text, p)]) then Denoted(base, negative, text, p) else None
  }

  /** At most 128 digits, and what they denote. */
  function Denoted(base: Base, negative: bool, text: Text, p: nat): Option<Integer>
    requires p <= |text|
  {
    var end := EndOf(text, p);
    if OnlyDigits(base, text[p..end]) && |Digits(text[p..end])| <= MAX_HISTORY_LENGTH then
      DigitsAreDigits(base, text[p..end]);
      match Number(base, negative, Digits(text[p..end]))
      case None => None
      case Some(v) => Some(Integer(v, end))
    else None
  }

  function Number(base: Base, negative: bool, d: Text): Option<int>
    requires AllDigits(base, d)
  {
    if d != [] && (base == 10 ==> |d| == 1 || d[0] != ZERO) && Fits(negative, Value(base, d))
    then Some(Signed(negative, Value(base, d))) else None
  }

  predicate OnlyDigits(base: Base, s: Text) { forall k :: 0 <= k < |s| ==> s[k] == UNDERSCORE || IsDigit(base, s[k]) }

  lemma {:induction false} DigitsAreDigits(base: Base, s: Text)
    requires OnlyDigits(base, s)
    ensures AllDigits(base, Digits(s))
  {
    if s != [] {
      DigitsAreDigits(base, s[..|s| - 1]);
    }
  }

  lemma {:induction false} DigitsAppend(a: Text, b: Text)
    ensures Digits(a + b) == Digits(a) + Digits(b)
    decreases |b|
  {
    if b == [] {
      assert a + b == a;
    } else {
      assert (a + b)[..|a + b| - 1] == a + b[..|b| - 1];
      DigitsAppend(a, b[..|b| - 1]);
    }
  }

  // ---------------------------------------------------------------------------------------
  // Positional value
  // ---------------------------------------------------------------------------------------

  function Pow(base: Base, n: nat): (p: nat)
    ensures p > 0
  {
    if n == 0 then 1 else base * Pow(base, n - 1)
  }

  lemma {:induction false} ValueIsBounded(base: Base, d: Text)
    requires AllDigits(base, d)
    ensures Value(base, d) < Pow(base, |d|)
  {
    if d != [] {
      var front := d[..|d| - 1];
      ValueIsBounded(base, front);
      Scales(Value(base, front) + 1, Pow(base, |d| - 1), base);
    }
  }

  lemma Scales(a: nat, b: nat, c: nat)
    requires a <= b
    ensures a * c <= c * b
  {
  }

  /** The leading digit contributes its power; this is how parse_integer adds up, from the back. */
  lemma {:induction false} ValueFromFront(base: Base, d: Text)
    requires d != [] && AllDigits(base, d)
    ensures Value(base, d) == Pow(base, |d| - 1) * DigitValue(base, d[0]) + Value(base, d[1..])
  {
    var n := |d| - 1;
    if n == 0 {
      assert Value(base, d[..0]) == 0;
    } else {
      var front, back := d[..n], d[1..];
      ValueFromFront(base, front);
      assert front[1..] == back[..n - 1] && back[n - 1] == d[n];
      ShiftsIn(base, Pow(base, n - 1), DigitValue(base, d[0]), Value(base, back[..n - 1]), DigitValue(base, d[n]));
    }
  }

  lemma ShiftsIn(base: Base, p: nat, x: nat, y: nat, last: nat)
    ensures (p * x + y) * base + last == (base * p) * x + (y * base + last)
  {
  }

  lemma {:induction false} PowGrows(base: Base, m: nat, n: nat)
    requires m <= n
    ensures Pow(base, m) <= Pow(base, n)
  {
    if m < n {
      PowGrows(base, m, n - 1);
    }
  }

  lemma {:induction false} PowAdds(base: Base, m: nat, n: nat)
    ensures Pow(base, m + n) == Pow(base, m) * Pow(base, n)
  {
    if n > 0 {
      PowAdds(base, m, n - 1);
      assert Pow(base, m + n) == base * Pow(base, m + (n - 1));
      Associates(base, Pow(base, m), Pow(base, n - 1));
    }
  }

  lemma Associates(a: nat, b: nat, c: nat)
    ensures a * (b * c) == b * (a * c)
  {
  }

  function MaxDigits(base: Base): nat {
    if base == 2 then 63 else if base == 8 then 21 else if base == 10 then 19 else 16
  }

  /** Numbers of max_digits digits fit in 64 unsigned bits, and longer ones do not fit in 64 signed bits. */
  lemma MaxDigitsFit(base: Base)
    ensures (if base == 10 then I64_MAX + 1 else I64_MAX) < Pow(base, MaxDigits(base)) <= TWO_64
  {
    if base == 2 {
      PowersOfTwo();
    } else if base == 8 {
      PowersOfEight();
    } else if base == 10 {
      PowersOfTen();
    } else {
      PowersOfSixteen();
    }
  }

  lemma PowersOfTwo()
    ensures Pow(2, 63) == I64_MAX + 1
  {
    SevenBits();
    PowAdds(2, 7, 7);
    PowAdds(2, 14, 14);
    PowAdds(2, 28, 28);
    PowAdds(2, 56, 7);
  }

  lemma SevenBits()
    ensures Pow(2, 7) == 128
  {
    assert Pow(2, 3) == 8;
  }

  lemma PowersOfEight()
    ensures Pow(8, 21) == I64_MAX + 1
  {
    assert Pow(8, 7) == 0x20_0000;
    PowAdds(8, 7, 7);
    PowAdds(8, 14, 7);
  }

  lemma PowersOfTen()
    ensures Pow(10, 19) == 10_000_000_000_000_000_000
  {
    assert Pow(10, 6) == 1_000_000 && Pow(10, 7) == 10_000_000;
    PowAdds(10, 6, 6);
    PowAdds(10, 12, 7);
  }

  lemma PowersOfSixteen()
    ensures Pow(16, 16) == TWO_64
  {
    assert Pow(16, 4) == 0x1_0000;
    PowAdds(16, 4, 4);
    PowAdds(16, 8, 8);
  }

  lemma {:induction false} LeadingZeros(base: Base, d: Text, k: nat)
    requires k <= |d| && AllDigits(base, d) && forall j :: 0 <= j < k ==> d[j] == ZERO
    ensures Value(base, d) == Value(base, d[k..])
  {
    if k == 0 {
      assert d[0..] == d;
    } else {
      ValueFromFront(base, d);
      LeadingZeros(base, d[1..], k - 1);
      assert d[1..][k - 1..] == d[k..];
    }
  }

  lemma LeadingDigitCounts(base: Base, d: Text)
    requires d != [] && AllDigits(base, d) && d[0] != ZERO
    ensures Value(base, d) >= Pow(base, |d| - 1)
  {
    ValueFromFront(base, d);
    AtLeast(Pow(base, |d| - 1), DigitValue(base, d[0]));
  }

  lemma AtLeast(p: nat, x: nat)
    requires x >= 1
    ensures p * x >= p
  {
  }

  /** More significant digits than max_digits never fit. */
  lemma TooLong(base: Base, d: Text, negative: bool)
    requires AllDigits(base, d) && |d| > MaxDigits(base) && d[0] != ZERO && (negative ==> base == 10)
    ensures !Fits(negative, Value(base, d))
  {
    LeadingDigitCounts(base, d);
    PowGrows(base, MaxDigits(base), |d| - 1);
    MaxDigitsFit(base);
  }

  // ---------------------------------------------------------------------------------------
  // Underscores, as the code sees them
  // ---------------------------------------------------------------------------------------

  /** What the code asks of the character before k: an underscore follows a digit, and the value does not end with an
      underscore. */
  predicate Wants(base: Base, doc: Text, end: nat, k: nat, prev: Scalar)
    requires k <= end <= |doc|
  {
    if k == end then prev != UNDERSCORE else doc[k] == UNDERSCORE ==> IsDigit(base, prev)
  }

  /** The character before k, as it stands in the document. */
  predicate Written(base: Base, doc: Text, end: nat, k: nat)
    requires 0 < k <= end <= |doc|
  {
    Wants(base, doc, end, k, doc[k - 1])
  }

  /** The character before k, as the code reads it. */
  predicate Seen(base: Base, doc: Text, end: nat, k: nat, head: nat)
    requires 0 < k <= end <= |doc|
  {
    Wants(base, doc, end, k, PrevReads(doc, k, head))
  }

  /** A digit, then digits and underscores. */
  predicate Body(base: Base, doc: Text, p: nat, end: nat)
    requires p <= end <= |doc|
  {
    p < end && IsDigit(base, doc[p]) && OnlyDigits(base, doc[p..end])
  }

  /** The digits are in order, the characters before each of them read through a pointer: see PrevReads. */
  predicate Taken(base: Base, doc: Text, p: nat, end: nat, head: nat)
    requires p <= end <= |doc|
  {
    Body(base, doc, p, end) && forall k :: p < k <= end ==> Seen(base, doc, end, k, head)
  }

  /** What the code takes for an integer: as ReadInteger, but for the characters before underscores. */
  function TakeInteger(base: Base, doc: Text, at: nat, head: nat): Option<Integer>
    requires at < |doc|
  {
    match DigitsAt(base, doc, at)
    case None => None
    case Some(p) => TakeDigits(base, base == 10 && doc[at] == '-' as int, doc, p, head)
  }

  function TakeDigits(base: Base, negative: bool, doc: Text, p: nat, head: nat): Option<Integer>
    requires p <= |doc|
  {
    if Taken(base, doc, p, EndOf(doc, p), head) then Denoted(base, negative, doc, p) else None
  }

  /** The character before k matters and is not seen as it was written. */
  predicate Misread(base: Base, doc: Text, end: nat, k: nat, head: nat)
    requires 0 < k <= end <= |doc|
  {
    Seen(base, doc, end, k, head) != Written(base, doc, end, k)
  }

  /** Only a character whose block has been replaced is misread, and only before an underscore or the end of the
      value. */
  lemma MisreadIsRefilled(base: Base, doc: Text, end: nat, k: nat, head: nat)
    requires 0 < k <= end <= |doc| && Misread(base, doc, end, k, head)
    ensures Refilled(doc, k, head) && (k == end || doc[k] == UNDERSCORE)
  {
  }

  lemma PlacedByCharacter(base: Base, doc: Text, p: nat, end: nat)
    requires p <= end <= |doc|
    ensures WellPlaced(base, doc[p..end])
            <==> Body(base, doc, p, end) && forall k :: p < k <= end ==> Written(base, doc, end, k)
  {
    var s := doc[p..end];
    if WellPlaced(base, s) {
      PlacedIsBody(base, doc, p, end);
    }
    if Body(base, doc, p, end) && forall k :: p < k <= end ==> Written(base, doc, end, k) {
      BodyIsPlaced(base, doc, p, end);
    }
  }

  lemma PlacedIsBody(base: Base, doc: Text, p: nat, end: nat)
    requires p <= end <= |doc| && WellPlaced(base, doc[p..end])
    ensures Body(base, doc, p, end) && forall k :: p < k <= end ==> Written(base, doc, end, k)
  {
    var s := doc[p..end];
    assert InPlace(base, s, 0);
    forall k | 0 <= k < |s|
      ensures s[k] == UNDERSCORE || IsDigit(base, s[k])
    {
      assert InPlace(base, s, k);
    }
    forall k | p < k <= end
      ensures Written(base, doc, end, k)
    {
      assert k < end ==> InPlace(base, s, k - p);
      assert s[|s| - 1] == doc[end - 1];
    }
  }

  lemma BodyIsPlaced(base: Base, doc: Text, p: nat, end: nat)
    requires p <= end <= |doc| && Body(base, doc, p, end)
    requires forall k :: p < k <= end ==> Written(base, doc, end, k)
    ensures WellPlaced(base, doc[p..end])
  {
    var s := doc[p..end];
    forall k | 0 <= k < |s|
      ensures InPlace(base, s, k)
    {
      assert s[k] == UNDERSCORE || IsDigit(base, s[k]);
      assert k > 0 ==> Written(base, doc, end, p + k);
      assert k > 0 ==> doc[p + k - 1] == s[k - 1];
    }
    assert Written(base, doc, end, end);
    assert s[|s| - 1] == UNDERSCORE || IsDigit(base, s[|s| - 1]);
  }

  /** A value without misread characters is taken exactly if the grammar places its underscores. */
  lemma TakenIsPlaced(base: Base, doc: Text, p: nat, end: nat, head: nat)
    requires p <= end <= |doc| && forall k :: p < k <= end ==> !Misread(base, doc, end, k, head)
    ensures Taken(base, doc, p, end, head) <==> WellPlaced(base, doc[p..end])
  {
    PlacedByCharacter(base, doc, p, end);
    assert forall k :: p < k <= end ==> !Misread(base, doc, end, k, head)
                                        && (Seen(base, doc, end, k, head) <==> Written(base, doc, end, k));
  }

  /** A misread character decides: the grammar places all underscores, or all but the misread ones. */
  predicate Decides(base: Base, doc: Text, p: nat, end: nat, head: nat)
    requires p <= end <= |doc|
  {
    Body(base, doc, p, end) && (exists k :: p < k <= end && Misread(base, doc, end, k, head))
    && (WellPlaced(base, doc[p..end])
        || forall k :: p < k <= end ==> (Written(base, doc, end, k) <==> !Misread(base, doc, end, k, head)))
  }

  lemma TakenUnlessMisread(base: Base, doc: Text, p: nat, end: nat, head: nat)
    requires p <= end <= |doc|
    ensures (Taken(base, doc, p, end, head) <==> WellPlaced(base, doc[p..end])) <==> !Decides(base, doc, p, end, head)
  {
    PlacedByCharacter(base, doc, p, end);
    TakenByCharacter(base, doc, p, end, head);
    if forall k :: p < k <= end ==> !Misread(base, doc, end, k, head) {
      TakenIsPlaced(base, doc, p, end, head);
    }
  }

  /** A value that denotes an integer but for a misread character. */
  predicate Misleads(base: Base, doc: Text, at: nat, head: nat)
    requires at < |doc|
  {
    match DigitsAt(base, doc, at)
    case None => false
    case Some(p) =>
      Denoted(base, base == 10 && doc[at] == '-' as int, doc, p).Some? && Decides(base, doc, p, EndOf(doc, p), head)
  }

  /** The code takes what the grammar reads, except exactly where a misread character decides. */
  lemma TakesWhatIsRead(base: Base, doc: Text, at: nat, head: nat)
    requires at < |doc|
    ensures TakeInteger(base, doc, at, head) == ReadInteger(base, doc, at) <==> !Misleads(base, doc, at, head)
  {
    var start := DigitsAt(base, doc, at);
    if start.Some? {
      TakenUnlessMisread(base, doc, start.value, EndOf(doc, start.value), head);
    }
  }

  lemma TakenByCharacter(base: Base, doc: Text, p: nat, end: nat, head: nat)
    requires p <= end <= |doc|
    ensures Taken(base, doc, p, end, head)
            <==> Body(base, doc, p, end)
                 && forall k :: p < k <= end ==> (Written(base, doc, end, k) <==> !Misread(base, doc, end, k, head))
  {
    assert forall k :: p < k <= end ==>
        (Seen(base, doc, end, k, head) <==> (Written(base, doc, end, k) <==> !Misread(base, doc, end, k, head)));
  }

  const SCANNED := MAX_HISTORY_LENGTH - 1

  /** How far the reader has come when a value is parsed: parse_value has looked at up to 127 of its characters and gone
      back. */
  function ScanHead(doc: Text, at: nat): (head: nat)
    requires at <= |doc|
    ensures head <= |doc|
  {
    var end := EndOf(doc, at);
    if end - at < SCANNED then end else at + SCANNED
  }

  /** Values of up to 127 characters are replayed from the ring as a whole: what they denote is what is taken. */
  lemma ShortValuesAreRead(base: Base, doc: Text, at: nat)
    requires at < |doc| && EndOf(doc, at) - at <= 127
    ensures TakeInteger(base, doc, at, ScanHead(doc, at)) == ReadInteger(base, doc, at)
  {
    var head := ScanHead(doc, at);
    var start := DigitsAt(base, doc, at);
    if start.Some? {
      SameEnd(base, doc, at);
      TakenIsPlaced(base, doc, start.value, EndOf(doc, start.value), head);
    }
  }

  /** A sign or a prefix is not the end of a value. */
  lemma SameEnd(base: Base, doc: Text, at: nat)
    requires at < |doc| && DigitsAt(base, doc, at).Some?
    ensures EndOf(doc, DigitsAt(base, doc, at).value) == EndOf(doc, at)
  {
    var p := DigitsAt(base, doc, at).value;
    EndOfIs(doc, at, EndOf(doc, p));
  }

  // ---------------------------------------------------------------------------------------
  // A misread character decides
  // ---------------------------------------------------------------------------------------

  const ONE: Scalar := '1' as int
  const LINE_FEED: Scalar := '\n' as int

  /** A key of letters, an equals sign, and a hexadecimal integer that begins with zeros. */
  function LongInteger(key: nat, zeros: nat, tail: Text): (doc: Text)
    ensures |doc| == key + zeros + 5 + |tail|
  {
    seq(key, _ => 'a' as int) + [' ' as int, '=' as int, ' ' as int, ZERO, 'x' as int] + Zeros(zeros) + tail
  }

  lemma {:induction false} ZerosThenOne(zeros: nat)
    requires 0 < zeros < MAX_HISTORY_LENGTH
    ensures AllDigits(16, Zeros(zeros) + [ONE]) && Number(16, false, Zeros(zeros) + [ONE]) == Some(1)
    ensures Digits(Zeros(zeros)) == Zeros(zeros)
  {
    LeadingZeros(16, Zeros(zeros) + [ONE], zeros);
    assert (Zeros(zeros) + [ONE])[zeros..] == [ONE];
    assert Value(16, [ONE][..0]) == 0 && Value(16, [ONE]) == 1;
    NoUnderscores(16, Zeros(zeros));
  }

  lemma ReadAsOne(doc: Text)
    requires doc == LongInteger(29, 126, [UNDERSCORE, ONE, LINE_FEED])
    ensures EndOf(doc, 32) == EndOf(doc, 34) == 162 && Denoted(16, false, doc, 34) == Some(Integer(1, 162))
    ensures doc[34..162] == Zeros(126) + [UNDERSCORE, ONE]
  {
    EndOfIs(doc, 32, 162);
    EndOfIs(doc, 34, 162);
    assert doc[34..162] == Zeros(126) + [UNDERSCORE, ONE];
    DigitsAppend(Zeros(126), [UNDERSCORE, ONE]);
    ZerosThenOne(126);
  }

  /** The underscore begins a block of the document; the digit before it is overwritten before it is looked at. The
      grammar reads the integer, the code does not. */
  lemma WellPlacedButRefused(doc: Text)
    requires doc == LongInteger(29, 126, [UNDERSCORE, ONE, LINE_FEED])
    ensures ReadInteger(16, doc, 32) == Some(Integer(1, 162))
    ensures TakeInteger(16, doc, 32, ScanHead(doc, 32)) == None
  {
    var body := Zeros(126) + [UNDERSCORE, ONE];
    ReadAsOne(doc);
    assert DigitsAt(16, doc, 32) == Some(34);
    assert forall k :: 0 <= k < |body| ==> InPlace(16, body, k);
    assert body[127] == ONE;
    PlainBlocks(doc, 159);
    PlainBlocks(doc, 160);
    assert !Seen(16, doc, 162, 160, 159);
  }

  lemma OneIsDenoted(doc: Text)
    requires doc == LongInteger(28, 125, [ONE, UNDERSCORE, LINE_FEED])
    ensures EndOf(doc, 31) == EndOf(doc, 33) == 160 && Denoted(16, false, doc, 33) == Some(Integer(1, 160))
    ensures doc[33..160] == Zeros(125) + [ONE, UNDERSCORE]
  {
    EndOfIs(doc, 31, 160);
    EndOfIs(doc, 33, 160);
    assert doc[33..160] == Zeros(125) + [ONE, UNDERSCORE];
    DigitsAppend(Zeros(125), [ONE, UNDERSCORE]);
    ZerosThenOne(125);
  }

  /** The line feed begins a block; the underscore that ends the value is overwritten before it is looked at. The code
      takes the integer, the grammar does not. */
  lemma MisplacedButTaken(doc: Text)
    requires doc == LongInteger(28, 125, [ONE, UNDERSCORE, LINE_FEED])
    ensures ReadInteger(16, doc, 31) == None
    ensures TakeInteger(16, doc, 31, ScanHead(doc, 31)) == Some(Integer(1, 160))
  {
    var body := Zeros(125) + [ONE, UNDERSCORE];
    OneIsDenoted(doc);
    assert DigitsAt(16, doc, 31) == Some(33);
    assert body[126] == UNDERSCORE;
    assert !WellPlaced(16, body);
    EndUnseen(doc);
  }

  lemma EndUnseen(doc: Text)
    requires doc == LongInteger(28, 125, [ONE, UNDERSCORE, LINE_FEED])
    ensures Taken(16, doc, 33, 160, 158)
  {
    PlainBlocks(doc, 159);
    PlainBlocks(doc, 160);
    assert Seen(16, doc, 160, 160, 158);
    assert forall k :: 33 <= k < 160 ==> doc[k] == if k < 158 then ZERO else if k == 158 then ONE else UNDERSCORE;
    assert Seen(16, doc, 160, 159, 158);
  }

  // ---------------------------------------------------------------------------------------
  // parse_integer
  // ---------------------------------------------------------------------------------------

  /** One more character. */
  lemma OneMore(base: Base, doc: Text, p: nat, end: nat, stop: nat)
    requires p <= end < stop <= |doc| && OnlyDigits(base, doc[p..end])
    ensures OnlyDigits(base, doc[p..end + 1]) <==> doc[end] == UNDERSCORE || IsDigit(base, doc[end])
    ensures OnlyDigits(base, doc[p..stop]) ==> OnlyDigits(base, doc[p..end + 1])
  {
    assert doc[p..end + 1] == doc[p..end] + [doc[end]];
    assert doc[p..stop][end - p] == doc[end];
  }

  lemma OneMoreDigit(text: Text, at: nat, end: nat, stop: nat)
    requires at <= end < stop <= |text|
    ensures Digits(text[at..end + 1]) == Digits(text[at..end]) + if text[end] == UNDERSCORE then [] else [text[end]]
    ensures |Digits(text[at..end + 1])| <= |Digits(text[at..stop])|
  {
    var s := text[at..end + 1];
    assert s[..|s| - 1] == text[at..end];
    assert text[at..stop] == s + text[end + 1..stop];
    DigitsAppend(s, text[end + 1..stop]);
  }

  /** One round of the digit loop. */
  method ConsumeOne(base: Base, doc: Text, at: nat, end: nat, ghost stop: nat, head: nat, digits: array<Scalar>, n: nat)
    returns (ok: bool, m: nat)
    requires at <= end < stop <= |doc| && digits.Length == MAX_HISTORY_LENGTH && n <= MAX_HISTORY_LENGTH
    requires digits[..n] == Digits(doc[at..end]) && OnlyDigits(base, doc[at..end])
    modifies digits
    ensures ok ==> m <= MAX_HISTORY_LENGTH && digits[..m] == Digits(doc[at..end + 1])
    ensures ok ==> OnlyDigits(base, doc[at..end + 1])
    ensures ok && at < end ==> Seen(base, doc, stop, end, head)
    ensures !ok ==> !Taken(base, doc, at, stop, head) || |Digits(doc[at..stop])| > MAX_HISTORY_LENGTH
  {
    var c := doc[end];
    OneMore(base, doc, at, end, stop);
    OneMoreDigit(doc, at, end, stop);
    if c == UNDERSCORE {
      if end == at || !IsDigit(base, PrevReads(doc, end, head)) {
        assert at < end ==> !Seen(base, doc, stop, end, head);
        return false, n;
      }
      if end + 1 == |doc| {
        assert !Seen(base, doc, stop, stop, head);
        return false, n;
      }
      return true, n;
    }
    if !IsDigit(base, c) || n == MAX_HISTORY_LENGTH {
      return false, n;
    }
    digits[n] := c;
    assert digits[..n + 1] == digits[..n] + [c];
    return true, n + 1;
  }

  /** The digits up to the end of the value, without their underscores. */
  method ConsumeDigits(base: Base, doc: Text, at: nat, head: nat, digits: array<Scalar>)
    returns (length: Option<nat>, end: nat)
    requires at < |doc| && IsDigit(base, doc[at]) && digits.Length == MAX_HISTORY_LENGTH
    modifies digits
    ensures var body := doc[at..EndOf(doc, at)];
            if Taken(base, doc, at, EndOf(doc, at), head) && |Digits(body)| <= MAX_HISTORY_LENGTH
            then length.Some? && 0 < length.value <= MAX_HISTORY_LENGTH && digits[..length.value] == Digits(body)
                 && end == EndOf(doc, at)
            else length == None
  {
    length, end := ConsumeUpTo(base, doc, at, EndOf(doc, at), head, digits);
  }

  method ConsumeUpTo(base: Base, doc: Text, at: nat, ghost stop: nat, head: nat, digits: array<Scalar>)
    returns (length: Option<nat>, end: nat)
    requires at < stop <= |doc| && IsDigit(base, doc[at]) && digits.Length == MAX_HISTORY_LENGTH
    requires forall k :: at <= k < stop ==> !IsValueTerminator(doc[k])
    requires stop < |doc| ==> IsValueTerminator(doc[stop])
    modifies digits
    ensures var body := doc[at..stop];
            if Taken(base, doc, at, stop, head) && |Digits(body)| <= MAX_HISTORY_LENGTH
            then length.Some? && 0 < length.value <= MAX_HISTORY_LENGTH && digits[..length.value] == Digits(body)
              && end == stop
            else length == None
  {
    var n: nat, ok := 0, true;
    end := at;
    assert doc[at..at] == [];
    while end < |doc| && !IsValueTerminator(doc[end])
      invariant at <= end <= stop && n <= MAX_HISTORY_LENGTH && digits[..n] == Digits(doc[at..end])
      invariant OnlyDigits(base, doc[at..end])
      invariant SeenUpTo(base, doc, at, end, stop, head)
      decreases |doc| - end
    {
      ok, n := ConsumeOne(base, doc, at, end, stop, head, digits, n);
      if !ok {
        return None, end;
      }
      end := end + 1;
    }
    TakenAtEnd(base, doc, at, end, head);
    if PrevReads(doc, end, head) == UNDERSCORE {
      return None, end;
    }
    return Some(n), end;
  }

  /** The characters between two positions are in order as far as their predecessors go. */
  predicate SeenUpTo(base: Base, doc: Text, at: nat, end: nat, stop: nat, head: nat)
    requires end <= stop <= |doc|
  {
    forall k :: at < k < end ==> Seen(base, doc, stop, k, head)
  }

  lemma TakenAtEnd(base: Base, doc: Text, at: nat, end: nat, head: nat)
    requires at < end <= |doc| && IsDigit(base, doc[at]) && OnlyDigits(base, doc[at..end])
    requires SeenUpTo(base, doc, at, end, end, head)
    ensures Taken(base, doc, at, end, head) <==> PrevReads(doc, end, head) != UNDERSCORE
    ensures Digits(doc[at..end]) != []
  {
    assert Seen(base, doc, end, end, head) <==> PrevReads(doc, end, head) != UNDERSCORE;
    FirstIsKept(base, doc, at, end);
  }

  lemma FirstIsKept(base: Base, doc: Text, at: nat, end: nat)
    requires at < end <= |doc| && IsDigit(base, doc[at])
    ensures Digits(doc[at..end]) != []
  {
    assert doc[at..end] == [doc[at]] + doc[at + 1..end];
    DigitsAppend([doc[at]], doc[at + 1..end]);
    assert Digits([doc[at]]) == [doc[at]];
  }

  /** The digits from the back, each times its power; 64-bit sums that never wrap. */
  method Accumulate(base: Base, d: Text) returns (result: nat)
    requires AllDigits(base, d) && |d| <= MaxDigits(base)
    ensures result == Value(base, d)
  {
    result := 0;
    var power: nat := 1;
    var end := |d|;
    assert d[end..] == [];
    while end > 0
      invariant 0 <= end <= |d| && result == Value(base, d[end..])
      invariant end > 0 ==> power == Pow(base, |d| - end)
    {
      end := end - 1;
      assert d[end..][1..] == d[end + 1..];
      DigitFits(base, d[end..], power);
      result, power := AddDigit(result, power, DigitValue(base, d[end]), base);
    }
    assert d[0..] == d;
  }

  /** One digit, in 64 bits. */
  method AddDigit(result: nat, power: nat, digit: nat, base: nat) returns (r: nat, p: nat)
    ensures r == Wrap(result + Product(power, digit)) && p == Wrap(Product(power, base))
  {
    r := Wrap(result + Product(power, digit));
    p := Wrap(Product(power, base));
  }

  /** The next sum and, unless this was the last digit, the next power are what they are without wrapping. */
  lemma DigitFits(base: Base, s: Text, power: nat)
    requires 0 < |s| <= MaxDigits(base) && AllDigits(base, s) && power == Pow(base, |s| - 1)
    ensures Wrap(Value(base, s[1..]) + Product(power, DigitValue(base, s[0]))) == Value(base, s)
    ensures |s| < MaxDigits(base) ==> Wrap(Product(power, base)) == Pow(base, |s|)
  {
    SumFits(base, s, power);
    NoWrap(Value(base, s[1..]) + Product(power, DigitValue(base, s[0])));
    PowerFitsOnce(base, |s|, power);
    if |s| < MaxDigits(base) {
      NoWrap(Product(power, base));
    }
  }

  lemma NoWrap(n: nat)
    requires n < TWO_64
    ensures Wrap(n) == n
  {
  }

  /** The sum never wraps. */
  lemma SumFits(base: Base, s: Text, power: nat)
    requires 0 < |s| <= MaxDigits(base) && AllDigits(base, s) && power == Pow(base, |s| - 1)
    ensures Value(base, s[1..]) + Product(power, DigitValue(base, s[0])) == Value(base, s) < TWO_64
  {
    ValueFromFront(base, s);
    ValueIsBounded(base, s);
    MaxDigitsFit(base);
    PowGrows(base, |s|, MaxDigits(base));
  }

  /** The next power does not wrap, unless this was the last digit. */
  lemma PowerFitsOnce(base: Base, n: nat, power: nat)
    requires 0 < n <= MaxDigits(base) && power == Pow(base, n - 1)
    ensures Product(power, base) == Pow(base, n)
    ensures n < MaxDigits(base) ==> Product(power, base) < TWO_64
  {
    if n < MaxDigits(base) {
      PowerFits(base, n + 1);
    }
  }

  function Product(a: nat, b: nat): nat { a * b }

  /** Unsigned 64-bit arithmetic. */
  function Wrap(n: nat): nat { n % TWO_64 }

  lemma PowerFits(base: Base, n: nat)
    requires 0 < n <= MaxDigits(base)
    ensures Pow(base, n - 1) < Pow(base, n) <= TWO_64
  {
    MaxDigitsFit(base);
    PowGrows(base, n, MaxDigits(base));
    Grows(Pow(base, n - 1), base);
  }

  lemma Grows(p: nat, base: Base)
    requires p > 0
    ensures p < base * p
  {
  }

  /** From digits to a number: the single digit, the leading zeros, and the two range checks. */
  method Convert(base: Base, d: Text, negative: bool) returns (r: Option<int>)
    requires AllDigits(base, d) && d != [] && (negative ==> base == 10)
    ensures r == Number(base, negative, d)
  {
    if |d| == 1 {
      assert Value(base, d[..0]) == 0;
      return Some(Signed(negative, DigitValue(base, d[0])));
    }
    var msd := 0;
    if base != 10 {
      while msd < |d| && d[msd] == ZERO
        invariant msd <= |d| && forall j :: 0 <= j < msd ==> d[j] == ZERO
      {
        msd := msd + 1;
      }
      LeadingZeros(base, d, msd);
      if msd == |d| {
        return Some(0);
      }
    } else if d[0] == ZERO {
      return None;
    }
    var significant := d[msd..];
    if |significant| > MaxDigits(base) {
      TooLong(base, significant, negative);
      return None;
    }
    var result := Accumulate(base, significant);
    if result > I64_MAX + (if negative then 1 else 0) {
      return None;
    }
    // negating the magnitude of the smallest integer would overflow
    if negative && result == I64_MAX + 1 {
      return Some(-0x8000_0000_0000_0000);
    }
    return Some(if negative then -result else result);
  }

  method ParseDigits(base: Base, negative: bool, doc: Text, p: nat, head: nat) returns (r: Option<Integer>)
    requires p < |doc| && (negative ==> base == 10)
    ensures r == TakeDigits(base, negative, doc, p, head)
  {
    if !IsDigit(base, doc[p]) {
      return None;
    }
    var digits := new Scalar[MAX_HISTORY_LENGTH](_ => 0);
    var length, end := ConsumeDigits(base, doc, p, head, digits);
    if length.None? {
      return None;
    }
    DigitsAreDigits(base, doc[p..EndOf(doc, p)]);
    var value := Convert(base, digits[..length.value], negative);
    return if value.None? then None else Some(Integer(value.value, end));
  }

  method ParseInteger(base: Base, doc: Text, at: nat, head: nat) returns (r: Option<Integer>)
    requires at < |doc|
    ensures r == TakeInteger(base, doc, at, head)
  {
    var negative, p := false, at;
    if base == 10 {
      negative := doc[at] == '-' as int;
      if IsSign(doc[at]) {
        p := at + 1;
        if p == |doc| {
          return None;
        }
      }
    } else {
      if doc[at] != ZERO || at + 1 == |doc| || doc[at + 1] != PrefixLetter(base) || at + 2 == |doc| {
        return None;
      }
      p := at + 2;
    }
    r := ParseDigits(base, negative, doc, p, head);
  }

  // ---------------------------------------------------------------------------------------
  // Printing
  // ---------------------------------------------------------------------------------------

  /** What std::to_chars writes for a magnitude: lower-case letters. */
  function ToChars(base: Base, v: nat): (t: Text)
    ensures t != []
  {
    if v < base then [DigitOf(v)] else ToChars(base, v / base) + [DigitOf(v % base)]
  }

  function DigitOf(d: nat): Scalar
    requires d < 16
  {
    if d < 10 then ZERO + d else 'a' as int + (d - 10)
  }

  function UpperCase(c: Scalar): Scalar { if 'a' as int <= c <= 'f' as int then c - 32 else c }

  function Uppers(t: Text): (u: Text)
    ensures |u| == |t|
  {
    if t == [] then [] else Uppers(t[..|t| - 1]) + [UpperCase(t[|t| - 1])]
  }

  function Zeros(n: nat): (z: Text)
    ensures |z| == n && forall k :: 0 <= k < n ==> z[k] == ZERO
  {
    seq(n, _ => ZERO)
  }

  /** The characters of a number: at least the given number of them, padded with zeros in front. */
  function Padded(t: Text, min: nat): Text { Zeros(if |t| < min then min - |t| else 0) + t }

  function Shown(base: Base, v: int): (t: Text)
    ensures t != []
  {
    if v < 0 then ['-' as int] + Uppers(ToChars(base, -v)) else Uppers(ToChars(base, v))
  }

  datatype Formats = Formats(binary: bool, octal: bool, hexadecimal: bool)

  const NO_FORMAT := Formats(false, false, false)

  /** The base a value's flags ask for: exactly one of the three. */
  function Asked(f: Formats): Base {
    if f == Formats(true, false, false) then 2
    else if f == Formats(false, true, false) then 8
    else if f == Formats(false, false, true) then 16
    else 10
  }

  method PrintZero(minDigits: nat) returns (out: Text)
    ensures out == Padded([ZERO], minDigits)
  {
    out := [];
    var n := if minDigits == 0 then 1 else minDigits;
    var i := 0;
    while i < n
      invariant 0 <= i <= n && out == Zeros(i)
    {
      out, i := out + [ZERO], i + 1;
    }
  }

  /** The base in which a value is printed: other than ten for positive numbers only. */
  method PrintIntegerToStream(v: int, f: Formats, minDigits: nat) returns (out: Text)
    ensures out == Padded(Shown(if v < 0 then 10 else Asked(f), v), minDigits)
  {
    if v == 0 {
      assert Shown(Asked(f), 0) == [ZERO];
      out := PrintZero(minDigits);
      return;
    }
    var base: Base := if v < 0 then 10 else Asked(f);
    var text := ToChars(base, if v < 0 then -v else v);
    if v < 0 {
      text := ['-' as int] + text;
    }
    out := [];
    var i := |text|;
    while i < minDigits
      invariant |text| <= i && out == Zeros(i - |text|) && (i <= minDigits || i == |text|)
    {
      out, i := out + [ZERO], i + 1;
    }
    if base == 16 {
      LettersEndAtF(base, v);
      text := CapitalLetters(text);
    } else {
      DecimalHasNoLetters(base, if v < 0 then -v else v);
    }
    out := out + text;
  }

  method CapitalLetters(text: Text) returns (out: Text)
    requires forall k :: 0 <= k < |text| ==> text[k] <= 'f' as int
    ensures out == Uppers(text)
  {
    out := [];
    var i := 0;
    while i < |text|
      invariant 0 <= i <= |text| && out == Uppers(text[..i])
    {
      assert text[..i + 1][..i] == text[..i];
      out := out + [if text[i] >= 'a' as int then text[i] - 32 else text[i]];
      i := i + 1;
    }
    assert text[..i] == text;
  }

  lemma {:induction false} DecimalHasNoLetters(base: Base, v: nat)
    requires base <= 10
    ensures Uppers(ToChars(base, v)) == ToChars(base, v)
  {
    if v >= base {
      DecimalHasNoLetters(base, v / base);
    }
  }

  lemma {:induction false} LettersEndAtF(base: Base, v: nat)
    ensures forall k :: 0 <= k < |ToChars(base, v)| ==> ToChars(base, v)[k] <= 'f' as int
  {
    if v >= base {
      LettersEndAtF(base, v / base);
    }
  }

  /** The base the formatter prints an integer in: as flagged, if allowed and not negative. */
  function PrintedBase(v: int, flags: Formats, allowed: Formats): Base {
    if v >= 0 && ((Asked(flags) == 2 && allowed.binary) || (Asked(flags) == 8 && allowed.octal)
                  || (Asked(flags) == 16 && allowed.hexadecimal))
    then Asked(flags) else 10
  }

  function Prefix(base: Base): Text { if base == 10 then [] else [ZERO, PrefixLetter(base)] }

  function PrintedInteger(v: int, flags: Formats, allowed: Formats): (t: Text)
    ensures t != []
  {
    var base := PrintedBase(v, flags, allowed);
    Prefix(base) + Shown(base, v)
  }

  method PrintInteger(v: int, flags: Formats, allowed: Formats) returns (out: Text)
    ensures out == PrintedInteger(v, flags, allowed)
  {
    if v >= 0 && allowed != NO_FORMAT {
      if flags == Formats(true, false, false) {
        if allowed.binary {
          out := PrintPrefixed(v, flags);
          return;
        }
      } else if flags == Formats(false, true, false) {
        if allowed.octal {
          out := PrintPrefixed(v, flags);
          return;
        }
      } else if flags == Formats(false, false, true) {
        if allowed.hexadecimal {
          out := PrintPrefixed(v, flags);
          return;
        }
      }
    }
    assert PrintedBase(v, flags, allowed) == 10;
    out := PrintDecimal(v);
  }

  method PrintPrefixed(v: nat, flags: Formats) returns (out: Text)
    requires Asked(flags) != 10
    ensures out == Prefix(Asked(flags)) + Shown(Asked(flags), v)
  {
    var digits := PrintIntegerToStream(v, flags, 0);
    NoPadding(Shown(Asked(flags), v));
    out := [ZERO, PrefixLetter(Asked(flags))] + digits;
  }

  method PrintDecimal(v: int) returns (out: Text)
    ensures out == Prefix(10) + Shown(10, v)
  {
    out := PrintIntegerToStream(v, NO_FORMAT, 0);
    NoPadding(Shown(10, v));
  }

  lemma NoPadding(t: Text)
    ensures Padded(t, 0) == t
  {
  }

  // ---------------------------------------------------------------------------------------
  // Round trip
  // ---------------------------------------------------------------------------------------

  /** The digits printed for a number are digits of its base, start with zero only for zero, and have its value. */
  lemma {:induction false} ShownValue(base: Base, v: nat)
    ensures AllDigits(base, Shown(base, v)) && Value(base, Shown(base, v)) == v
    ensures v > 0 ==> Shown(base, v)[0] != ZERO
    ensures v < base ==> |Shown(base, v)| == 1
  {
    if v < base {
      OneDigit(base, v);
      ValueAppend(base, [], UpperCase(DigitOf(v)));
    } else {
      var q: nat, r: nat := v / base, v % base;
      Divided(v, base);
      ShownValue(base, q);
      DigitShows(base, r);
      LastDigit(base, v);
      ValueAppend(base, Shown(base, q), UpperCase(DigitOf(r)));
    }
  }

  lemma OneDigit(base: Base, v: nat)
    requires v < base
    ensures Shown(base, v) == [] + [UpperCase(DigitOf(v))]
    ensures IsDigit(base, UpperCase(DigitOf(v))) && DigitValue(base, UpperCase(DigitOf(v))) == v
    ensures v > 0 ==> UpperCase(DigitOf(v)) != ZERO
  {
    assert Uppers([DigitOf(v)]) == [] + [UpperCase(DigitOf(v))];
  }

  lemma LastDigit(base: Base, v: nat)
    requires v >= base
    ensures Shown(base, v) == Shown(base, v / base) + [UpperCase(DigitOf(v % base))]
  {
    var t := ToChars(base, v);
    assert t[..|t| - 1] == ToChars(base, v / base);
  }

  lemma DigitShows(base: Base, d: nat)
    requires d < base
    ensures var c := UpperCase(DigitOf(d)); IsDigit(base, c) && DigitValue(base, c) == d && (c == ZERO <==> d == 0)
  {
  }

  lemma ValueAppend(base: Base, front: Text, c: Scalar)
    requires AllDigits(base, front) && IsDigit(base, c)
    ensures AllDigits(base, front + [c])
    ensures Value(base, front + [c]) == Value(base, front) * base + DigitValue(base, c)
  {
    assert (front + [c])[..|front|] == front;
  }

  lemma Divided(v: nat, base: Base)
    ensures v / base * base + v % base == v && (v >= base ==> v / base > 0)
  {
  }

  lemma {:induction false} NoUnderscores(base: Base, d: Text)
    requires AllDigits(base, d)
    ensures Digits(d) == d
  {
    if d != [] {
      NoUnderscores(base, d[..|d| - 1]);
      assert d == d[..|d| - 1] + [d[|d| - 1]];
    }
  }

  lemma DigitsRead(base: Base, negative: bool, d: Text, text: Text, p: nat)
    requires AllDigits(base, d) && 0 < |d| <= MAX_HISTORY_LENGTH
    requires p + |d| <= |text| && text[p..p + |d|] == d
    requires p + |d| < |text| ==> IsValueTerminator(text[p + |d|])
    ensures EndOf(text, p) == p + |d|
    ensures ReadDigits(base, negative, text, p)
            == match Number(base, negative, d) case None => None case Some(v) => Some(Integer(v, p + |d|))
  {
    DigitsEnd(base, d, text, p);
    DigitsArePlaced(base, d);
    NoUnderscores(base, d);
  }

  lemma DigitsEnd(base: Base, d: Text, text: Text, p: nat)
    requires AllDigits(base, d) && p + |d| <= |text| && text[p..p + |d|] == d
    requires p + |d| < |text| ==> IsValueTerminator(text[p + |d|])
    ensures EndOf(text, p) == p + |d|
  {
    forall k | p <= k < p + |d|
      ensures !IsValueTerminator(text[k])
    {
      assert text[k] == d[k - p] && IsDigit(base, d[k - p]);
    }
    EndOfIs(text, p, p + |d|);
  }

  lemma DigitsArePlaced(base: Base, d: Text)
    requires AllDigits(base, d) && d != []
    ensures WellPlaced(base, d) && OnlyDigits(base, d)
  {
    assert forall k :: 0 <= k < |d| ==> InPlace(base, d, k);
  }

  lemma ShownIsNumber(base: Base, negative: bool, v: nat)
    requires Fits(negative, v) && (negative ==> base == 10)
    ensures AllDigits(base, Shown(base, v)) && |Shown(base, v)| <= 63
    ensures Number(base, negative, Shown(base, v)) == Some(Signed(negative, v))
  {
    ShownValue(base, v);
    if |Shown(base, v)| > MaxDigits(base) {
      TooLong(base, Shown(base, v), negative);
    }
  }

  lemma EndOfIs(text: Text, at: nat, end: nat)
    requires at <= end <= |text| && (end < |text| ==> IsValueTerminator(text[end]))
    requires forall k :: at <= k < end ==> !IsValueTerminator(text[k])
    ensures EndOf(text, at) == end
  {
  }

  /** Every 64-bit integer, the smallest included, printed with any flags, is read back, wherever in a document it
      stands. */
  lemma IntegerRoundTrip(v: int, flags: Formats, allowed: Formats, doc: Text, at: nat, end: nat)
    requires -0x8000_0000_0000_0000 <= v <= I64_MAX
    requires at <= end <= |doc| && doc[at..end] == PrintedInteger(v, flags, allowed)
    requires end < |doc| ==> IsValueTerminator(doc[end])
    ensures TakeInteger(PrintedBase(v, flags, allowed), doc, at, ScanHead(doc, at)) == Some(Integer(v, end))
  {
    var base, m: nat := PrintedBase(v, flags, allowed), if v < 0 then -v else v;
    ShownIsNumber(base, v < 0, m);
    PrintedAsLead(v, flags, allowed);
    AfterLead(base, v < 0, Shown(base, m), doc, at, end);
  }

  /** What stands before the digits: a minus or a prefix. */
  function Lead(base: Base, negative: bool): (t: Text)
    ensures |t| <= 2
  {
    if negative then ['-' as int] else Prefix(base)
  }

  lemma PrintedAsLead(v: int, flags: Formats, allowed: Formats)
    ensures var base, m: nat := PrintedBase(v, flags, allowed), if v < 0 then -v else v;
            PrintedInteger(v, flags, allowed) == Lead(base, v < 0) + Shown(base, m)
  {
  }

  /** A lead and digits, up to the end of the value. */
  lemma AfterLead(base: Base, negative: bool, d: Text, doc: Text, at: nat, end: nat)
    requires AllDigits(base, d) && 0 < |d| <= 63 && Number(base, negative, d).Some? && (negative ==> base == 10)
    requires at <= end <= |doc| && doc[at..end] == Lead(base, negative) + d
    requires end < |doc| ==> IsValueTerminator(doc[end])
    ensures TakeInteger(base, doc, at, ScanHead(doc, at)) == Some(Integer(Number(base, negative, d).value, end))
  {
    AfterLeadStands(base, negative, d, doc, at, end);
    ShortDigits(base, negative, d, doc, at, end - |d|);
  }

  lemma ShortDigits(base: Base, negative: bool, d: Text, doc: Text, at: nat, p: nat)
    requires AllDigits(base, d) && 0 < |d| <= 63 && at < |doc| && p <= at + 2 && p + |d| <= |doc|
             && doc[p..p + |d|] == d
    requires p + |d| < |doc| ==> IsValueTerminator(doc[p + |d|])
    requires DigitsAt(base, doc, at) == Some(p) && (base == 10 && doc[at] == '-' as int <==> negative)
    requires Number(base, negative, d).Some?
    ensures TakeInteger(base, doc, at, ScanHead(doc, at)) == Some(Integer(Number(base, negative, d).value, p + |d|))
  {
    DigitsRead(base, negative, d, doc, p);
    SameEnd(base, doc, at);
    ShortValuesAreRead(base, doc, at);
  }

  lemma AfterLeadStands(base: Base, negative: bool, d: Text, doc: Text, at: nat, end: nat)
    requires d != [] && AllDigits(base, d) && (negative ==> base == 10)
    requires at <= end <= |doc| && doc[at..end] == Lead(base, negative) + d
    ensures at < end - |d| + 1 <= at + 3 && doc[end - |d|..end] == d
    ensures DigitsAt(base, doc, at) == Some(end - |d|) && (base == 10 && doc[at] == '-' as int <==> negative)
  {
    var lead, t := Lead(base, negative), doc[at..end];
    assert t[|lead|..] == d && t[|lead|..] == doc[end - |d|..end];
    assert IsDigit(base, d[0]);
    assert doc[at] == t[0] && doc[end - 1] == t[|t| - 1];
    if base != 10 {
      assert doc[at + 1] == t[1];
    }
  }
}
