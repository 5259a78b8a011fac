/**
  Integers in numbers: signs, prefixes, digits and underscores as code points (util/toml.hpp,
  parse_integer and the formatter's print). The reference is TOML v1.0.0, section "Integer".
 */
module IntegerLaws {
  import opened Wrappers
  import opened Utf8
  import opened CharClasses
  import opened IntegerText

  /** Decimal integers are negative after 0x2D only; others begin with 0x30 and 0x62, 0x6F or 0x78; all fit 64 bits. */
  lemma BasesInNumbers(base: Base, doc: Text, at: nat, head: nat)
    requires at < |doc| && TakeInteger(base, doc, at, head) != None
    ensures var v := TakeInteger(base, doc, at, head).value.value;
            -0x8000_0000_0000_0000 <= v < 0x8000_0000_0000_0000
            && (base == 10 ==> if doc[at] == 0x2D then v <= 0 else v >= 0)
            && (base != 10 ==> v >= 0 && at + 2 < |doc| && doc[at] == 0x30)
            && (base == 2 ==> doc[at + 1] == 0x62) && (base == 8 ==> doc[at + 1] == 0x6F)
            && (base == 16 ==> doc[at + 1] == 0x78)
  {
  }

  /** A sign may stand before decimal digits, 0x2B or 0x2D; nothing else may. */
  lemma SignsInNumbers(doc: Text, at: nat)
    requires at < |doc|
    ensures DigitsAt(10, doc, at) == Some(if doc[at] == 0x2B || doc[at] == 0x2D then at + 1 else at)
    ensures ReadInteger(10, doc, at) == ReadDigits(10, doc[at] == 0x2D, doc, DigitsAt(10, doc, at).value)
  {
  }

  /** At most 128 digits: a one after zeros is read in base 16 exactly if there are fewer than 128 of them. */
  lemma DigitLimit(n: nat)
    ensures ReadDigits(16, false, Zeros(n) + [0x31], 0) == if n < 128 then Some(Integer(1, n + 1)) else None
  {
    var d := Zeros(n) + [0x31];
    DigitsEnd(16, d, d, 0);
    DigitsArePlaced(16, d);
    NoUnderscores(16, d);
    LeadingZeros(16, d, n);
    assert d[n..] == [0x31] && d[0..|d|] == d;
    ValueAppend(16, [], 0x31);
    assert [] + [0x31] == [0x31];
  }

  /** The digits of a base and what they stand for. */
  lemma DigitsInNumbers(base: Base, c: int)
    ensures IsDigit(base, c) <==> if base < 16 then 0x30 <= c < 0x30 + base
                                  else 0x30 <= c < 0x3A || 0x41 <= c < 0x47 || 0x61 <= c < 0x67
    ensures IsDigit(base, c) ==> DigitValue(base, c) == if c < 0x3A then c - 0x30 else if c < 0x47 then c - 0x37
                                                        else c - 0x57
  {
  }

  /** The last digit counts ones, all before it count the base. */
  lemma ValueInNumbers(base: Base, d: Text, c: Scalar)
    requires AllDigits(base, d) && IsDigit(base, c)
    ensures Value(base, []) == 0 && AllDigits(base, d + [c])
    ensures Value(base, d + [c]) == base * Value(base, d) + DigitValue(base, c)
  {
    ValueAppend(base, d, c);
    Commutes(Value(base, d), base);
  }

  lemma Commutes(a: nat, b: nat)
    ensures a * b == b * a
  {
  }

  /** An underscore, 0x5F, between digits does not count; before the first digit, after the last one or twice it is none
      of the grammar's. */
  lemma UnderscoresInNumbers(base: Base, a: Text, b: Text)
    requires AllDigits(base, a) && AllDigits(base, b)
    ensures WellPlaced(base, a + [0x5F] + b) <==> a != [] && b != []
    ensures !WellPlaced(base, a + [0x5F, 0x5F] + b)
    ensures Digits(a + [0x5F] + b) == a + b
  {
    OneUnderscore(base, a, b, a + [0x5F] + b);
    TwoUnderscores(base, a + [0x5F, 0x5F] + b, |a|);
    UnderscoreDropped(base, a, b);
  }

  lemma OneUnderscore(base: Base, a: Text, b: Text, s: Text)
    requires AllDigits(base, a) && AllDigits(base, b) && s == a + [0x5F] + b
    ensures WellPlaced(base, s) <==> a != [] && b != []
  {
    assert s[|a|] == 0x5F;
    if a != [] && b != [] {
      forall k | 0 <= k < |s|
        ensures InPlace(base, s, k)
      {
        assert s[k] == if k < |a| then a[k] else if k == |a| then 0x5F else b[k - |a| - 1];
        assert k == |a| ==> s[k - 1] == a[|a| - 1];
      }
      assert s[|s| - 1] == b[|b| - 1];
    } else if a == [] {
      assert !InPlace(base, s, 0);
    }
  }

  lemma TwoUnderscores(base: Base, s: Text, i: nat)
    requires i + 1 < |s| && s[i] == 0x5F && s[i + 1] == 0x5F
    ensures !WellPlaced(base, s)
  {
    assert !InPlace(base, s, i + 1);
  }

  lemma UnderscoreDropped(base: Base, a: Text, b: Text)
    requires AllDigits(base, a) && AllDigits(base, b)
    ensures Digits(a + [0x5F] + b) == a + b
  {
    NoUnderscores(base, a);
    NoUnderscores(base, b);
    DigitsAppend(a + [0x5F], b);
    DigitsAppend(a, [0x5F]);
    assert Digits([0x5F]) == [];
    assert a + [] == a;
  }

  /** A number that is not negative is printed in base 2, 8 or 16 if exactly that flag is set and the formatter allows
      it, after 0x30 and 0x62, 0x6F or 0x78; all others in decimal digits, negative ones after 0x2D. */
  lemma PrintedInNumbers(v: int, flags: Formats, allowed: Formats)
    ensures var t := PrintedInteger(v, flags, allowed);
            if v >= 0 && flags.binary && !flags.octal && !flags.hexadecimal && allowed.binary then
              After([0x30, 0x62], 2, v, t)
            else if v >= 0 && !flags.binary && flags.octal && !flags.hexadecimal && allowed.octal then
              After([0x30, 0x6F], 8, v, t)
            else if v >= 0 && !flags.binary && !flags.octal && flags.hexadecimal && allowed.hexadecimal then
              After([0x30, 0x78], 16, v, t)
            else if v >= 0 then After([], 10, v, t)
            else After([0x2D], 10, -v, t)
  {
    var base, m: nat := PrintedBase(v, flags, allowed), if v < 0 then -v else v;
    PrintedAsLead(v, flags, allowed);
    AfterLead(Lead(base, v < 0), base, m);
    BaseInNumbers(v, flags, allowed);
  }

  lemma BaseInNumbers(v: int, flags: Formats, allowed: Formats)
    ensures var base := PrintedBase(v, flags, allowed);
            base == (if v < 0 then 10
                     else if flags.binary && !flags.octal && !flags.hexadecimal && allowed.binary then 2
                     else if !flags.binary && flags.octal && !flags.hexadecimal && allowed.octal then 8
                     else if !flags.binary && !flags.octal && flags.hexadecimal && allowed.hexadecimal then 16 else 10)
            && Lead(base, v < 0) == (if v < 0 then [0x2D] else if base == 10 then [] else if base == 2 then [0x30, 0x62]
                                     else if base == 8 then [0x30, 0x6F] else [0x30, 0x78])
  {
  }

  /** A lead, and the digits of a number. */
  predicate After(lead: Text, base: Base, v: int, t: Text) { lead <= t && Denotes(base, t[|lead|..], v) }

  lemma AfterLead(lead: Text, base: Base, v: nat)
    ensures After(lead, base, v, lead + Shown(base, v))
  {
    ShownValue(base, v);
    NoSmallLetters(base, v);
    assert (lead + Shown(base, v))[|lead|..] == Shown(base, v);
  }

  /** Digits and capital letters with this value, and no zero in front of others. */
  predicate Denotes(base: Base, d: Text, v: int) {
    d != [] && AllDigits(base, d) && Value(base, d) == v && (|d| > 1 ==> d[0] != 0x30)
    && forall k :: 0 <= k < |d| ==> d[k] < 0x47
  }

  lemma {:induction false} NoSmallLetters(base: Base, v: nat)
    ensures forall k :: 0 <= k < |Shown(base, v)| ==> Shown(base, v)[k] < 0x47
    ensures |Shown(base, v)| > 1 ==> v > 0
  {
    if v < base {
      OneDigit(base, v);
    } else {
      LastDigit(base, v);
      NoSmallLetters(base, v / base);
    }
  }
}
