/**
  Dates and times in numbers: which character of a text is which digit of which field, and what
  the separators and signs are (util/toml.hpp). The references are section 5.6 of RFC 3339 and the
  Gregorian calendar.
 */
module DateTimeLaws {
  import opened Wrappers
  import opened Utf8
  import opened CharClasses
  import opened IntegerText
  import opened DateTime

  predicate DigitAt(text: Text, p: nat) { p < |text| && 0x30 <= text[p] <= 0x39 }

  /** The two digits at a position, the first one counting tens. */
  predicate PairAt(text: Text, p: nat) { DigitAt(text, p) && DigitAt(text, p + 1) }

  function TensAndOnes(text: Text, p: nat): nat
    requires PairAt(text, p)
  {
    10 * (text[p] - 0x30) + (text[p + 1] - 0x30)
  }

  /** The days of the twelve months, with one more in the second of every fourth year, but of every hundredth only if it
      is a four-hundredth. */
  function Days(year: nat, month: nat): nat
    requires 1 <= month <= 12
  {
    [31, 28, 31, 30, 31, 30, 31, 31, 30, 31, 30, 31][month - 1]
    + if month == 2 && year % 4 == 0 && (year % 100 == 0 ==> year % 400 == 0) then 1 else 0
  }

  /** Where a value ends. */
  predicate Stops(text: Text, p: nat) { p >= |text| || IsValueTerminator(text[p]) }

  lemma PairIsNumber(text: Text, p: nat)
    ensures NumberAt(text, p, 2) <==> PairAt(text, p)
    ensures PairAt(text, p) ==> NumberOf(text, p, 2) == TensAndOnes(text, p)
  {
    if PairAt(text, p) {
      SliceDigits(text, p, 2);
      TwoDigits(text, p);
    } else if p + 2 <= |text| {
      assert text[p..p + 2][0] == text[p] && text[p..p + 2][1] == text[p + 1];
    }
  }

  lemma YearIsNumber(text: Text, p: nat)
    ensures NumberAt(text, p, 4) <==> PairAt(text, p) && PairAt(text, p + 2)
    ensures PairAt(text, p) && PairAt(text, p + 2) ==>
              NumberOf(text, p, 4) == 100 * TensAndOnes(text, p) + TensAndOnes(text, p + 2)
  {
    if PairAt(text, p) && PairAt(text, p + 2) {
      SliceDigits(text, p, 4);
      FourDigits(text, p);
    } else if p + 4 <= |text| {
      assert forall k :: p <= k < p + 4 ==> text[p..p + 4][k - p] == text[k];
    }
  }

  // ---------------------------------------------------------------------------------------
  // Reading
  // ---------------------------------------------------------------------------------------

  predicate DateAt(text: Text, p: nat) {
    PairAt(text, p) && PairAt(text, p + 2) && Is(text, p + 4, 0x2D) && PairAt(text, p + 5) && Is(text, p + 7, 0x2D)
    && PairAt(text, p + 8)
  }

  /** Four digits of the year, two of the month and two of the day, with 0x2D between them. */
  lemma DateInNumbers(text: Text, p: nat, part: bool)
    ensures ReadDate(text, p, part)
            == if !DateAt(text, p) then None
               else
                 var y: nat := 100 * TensAndOnes(text, p) + TensAndOnes(text, p + 2);
                 var m, d := TensAndOnes(text, p + 5), TensAndOnes(text, p + 8);
                 if 1 <= m <= 12 && 1 <= d <= Days(y, m) && (part || Stops(text, p + 10))
                 then Some(Parsed(Date(y, m, d), p + 10)) else None
  {
    YearIsNumber(text, p);
    PairIsNumber(text, p + 5);
    PairIsNumber(text, p + 8);
    if DateAt(text, p) {
      CalendarInNumbers(100 * TensAndOnes(text, p) + TensAndOnes(text, p + 2), TensAndOnes(text, p + 5),
                        TensAndOnes(text, p + 8));
    }
  }

  lemma CalendarInNumbers(y: nat, m: nat, d: nat)
    ensures ValidDate(Date(y, m, d)) <==> y <= 9999 && 1 <= m <= 12 && 1 <= d <= Days(y, m)
  {
  }

  predicate ClockAt(text: Text, p: nat) {
    PairAt(text, p) && Is(text, p + 2, 0x3A) && PairAt(text, p + 3) && Is(text, p + 5, 0x3A) && PairAt(text, p + 6)
    && TensAndOnes(text, p) <= 23 && TensAndOnes(text, p + 3) <= 59 && TensAndOnes(text, p + 6) <= 59
  }

  /** Two digits of the hour, the minute and the second each, with 0x3A between them, and then the end or, with 0x2E
      before it, a fraction; in a date-time also what an offset begins with. */
  lemma TimeInNumbers(text: Text, p: nat, part: bool)
    ensures ReadTime(text, p, part)
            == if !ClockAt(text, p) then None
               else
                 var h, m, s := TensAndOnes(text, p), TensAndOnes(text, p + 3), TensAndOnes(text, p + 6);
                 if Stops(text, p + 8) || (part && text[p + 8] in [0x2B, 0x2D, 0x5A, 0x7A])
                 then Some(Parsed(Time(h, m, s, 0), p + 8))
                 else if text[p + 8] != 0x2E then None
                 else
                   match ReadFraction(text, p + 9, part)
                   case None => None
                   case Some(f) => Some(Parsed(Time(h, m, s, f.value), f.next))
  {
    PairIsNumber(text, p);
    PairIsNumber(text, p + 3);
    PairIsNumber(text, p + 6);
  }

  /** The digit of a fraction at some place, or zero where there is none. */
  function DigitOf(d: Text, i: nat): nat {
    var c: int := if i < |d| then d[i] else 0x30;
    if c < 0x30 then 0 else c - 0x30
  }

  /** The first nine digits as a number. */
  function Nine(d: Text): nat {
    100_000_000 * DigitOf(d, 0) + 10_000_000 * DigitOf(d, 1) + 1_000_000 * DigitOf(d, 2)
    + 100_000 * DigitOf(d, 3) + 10_000 * DigitOf(d, 4) + 1_000 * DigitOf(d, 5)
    + 100 * DigitOf(d, 6) + 10 * DigitOf(d, 7) + DigitOf(d, 8)
  }

  /** The first digit of a fraction counts a hundred million nanoseconds, the ninth one. */
  lemma FractionInNumbers(text: Text, p: nat, d: Text, part: bool)
    requires 0 < |d| <= 64 && p + |d| <= |text| && text[p..p + |d|] == d && Stops(text, p + |d|)
    requires forall k :: 0 <= k < |d| ==> 0x30 <= d[k] <= 0x39
    ensures ReadFraction(text, p, part)
            == Some(Parsed(Nine(d), p + |d|))
  {
    assert AllDigits(10, d);
    if p + |d| < |text| {
      assert !IsDigit(10, text[p + |d|]);
    }
    RunIs(text, p, |d|, MAX_DIGITS);
    NineDigits(d);
  }

  /** More than 64 digits are refused. */
  lemma LongFractionsFail(text: Text, p: nat, part: bool)
    requires p + 65 <= |text| && forall k :: p <= k < p + 65 ==> 0x30 <= text[k] <= 0x39
    ensures ReadFraction(text, p, part) == None
  {
    assert forall k :: p <= k < p + 64 ==> text[p..p + 64][k - p] == text[k];
    RunIs(text, p, 64, MAX_DIGITS);
  }

  /** The first n digits after the point, as nanoseconds. */
  function Sum(d: Text, n: nat): nat
    requires n <= 9
  {
    if n == 0 then 0 else Sum(d, n - 1) + DigitOf(d, n - 1) * Pow(10, 9 - n)
  }

  lemma NineDigits(d: Text)
    requires AllDigits(10, d)
    ensures Nanoseconds(d) == Nine(d)
  {
    var n := if |d| < 9 then |d| else 9;
    FractionTruncates(d);
    SumIsValue(d, n);
    NothingMore(d, n, 9);
    SumInNumbers(d);
  }

  lemma {:induction false} SumIsValue(d: Text, n: nat)
    requires AllDigits(10, d) && n <= |d| && n <= 9
    ensures Sum(d, n) == Value(10, d[..n]) * Pow(10, 9 - n)
  {
    if n > 0 {
      SumIsValue(d, n - 1);
      assert d[..n] == d[..n - 1] + [d[n - 1]];
      ValueAppend(10, d[..n - 1], d[n - 1]);
      Tenfold(Value(10, d[..n - 1]), d[n - 1] - 0x30, Pow(10, 9 - n));
    }
  }

  lemma Tenfold(v: int, x: int, p: int)
    ensures v * (10 * p) + x * p == (v * 10 + x) * p
  {
  }

  lemma {:induction false} NothingMore(d: Text, n: nat, m: nat)
    requires |d| <= n || n == 9
    requires n <= m <= 9
    ensures Sum(d, m) == Sum(d, n)
  {
    if n < m {
      NothingMore(d, n, m - 1);
    }
  }

  lemma SumInNumbers(d: Text)
    ensures Sum(d, 9) == Nine(d)
  {
    TenToThe();
    SumStep(d, 1, 100_000_000);
    SumStep(d, 2, 10_000_000);
    SumStep(d, 3, 1_000_000);
    SumStep(d, 4, 100_000);
    SumStep(d, 5, 10_000);
    SumStep(d, 6, 1_000);
    SumStep(d, 7, 100);
    SumStep(d, 8, 10);
    SumStep(d, 9, 1);
  }

  lemma SumStep(d: Text, n: nat, p: nat)
    requires 0 < n <= 9 && p == Pow(10, 9 - n)
    ensures Sum(d, n) == Sum(d, n - 1) + p * DigitOf(d, n - 1)
  {
  }

  lemma TenToThe()
    ensures Pow(10, 0) == 1 && Pow(10, 1) == 10 && Pow(10, 2) == 100 && Pow(10, 3) == 1_000 && Pow(10, 4) == 10_000
    ensures Pow(10, 5) == 100_000 && Pow(10, 6) == 1_000_000 && Pow(10, 7) == 10_000_000 && Pow(10, 8) == 100_000_000
  {
    assert Pow(10, 4) == 10_000;
    assert Pow(10, 8) == 10 * Pow(10, 7);
  }

  predicate OffsetAt(text: Text, p: nat) {
    (Is(text, p, 0x2B) || Is(text, p, 0x2D)) && PairAt(text, p + 1) && Is(text, p + 3, 0x3A) && PairAt(text, p + 4)
    && TensAndOnes(text, p + 1) <= 23 && TensAndOnes(text, p + 4) <= 59
  }

  /** 0x5A and 0x7A stand for no offset; after 0x2B hours and minutes count forward, after 0x2D backward. */
  lemma OffsetInNumbers(text: Text, p: nat)
    ensures ReadOffset(text, p)
            == if Is(text, p, 0x5A) || Is(text, p, 0x7A) then Some(Parsed(0, p + 1))
               else if !OffsetAt(text, p) then None
               else
                 var minutes: int := 60 * TensAndOnes(text, p + 1) + TensAndOnes(text, p + 4);
                 Some(Parsed(if text[p] == 0x2B then minutes else 0 - minutes, p + 6))
  {
    PairIsNumber(text, p + 1);
    PairIsNumber(text, p + 4);
  }

  /** A date, then 0x54, 0x74 or 0x20, then a time, then the end or an offset and the end. */
  lemma DateTimeInNumbers(text: Text, p: nat)
    ensures ReadDateTime(text, p)
            == match ReadDate(text, p, true)
               case None => None
               case Some(d) =>
                 if p + 10 >= |text| || text[p + 10] !in [0x54, 0x74, 0x20] then None
                 else
                   match ReadTime(text, p + 11, true)
                   case None => None
                   case Some(t) =>
                     if Stops(text, t.next) then Some(Parsed(DateTime(d.value, t.value, None), t.next))
                     else
                       match ReadOffset(text, t.next)
                       case None => None
                       case Some(o) =>
                         if Stops(text, o.next) then Some(Parsed(DateTime(d.value, t.value, Some(o.value)), o.next))
                         else None
  {
    if ReadDate(text, p, true).Some? {
      assert ReadDate(text, p, true).value.next == p + 10;
    }
  }

  // ---------------------------------------------------------------------------------------
  // Printing
  // ---------------------------------------------------------------------------------------

  /** The two digits of a number below a hundred. */
  function Two(v: nat): Text { [0x30 + v / 10 % 10, 0x30 + v % 10] }

  lemma TwoIsField(v: nat)
    requires v < 100
    ensures Field(v, 2) == Two(v)
  {
    OneMore(v, 1);
    OneMore(v / 10, 0);
    assert Field(0, 0) == [];
  }

  lemma OneMore(v: nat, n: nat)
    ensures Field(v, n + 1) == Field(v / 10, n) + [ZERO + v % 10]
  {
  }

  lemma FourIsField(v: nat)
    requires v < 10_000
    ensures Field(v, 4) == Two(v / 100) + Two(v % 100)
  {
    OneMore(v, 3);
    OneMore(v / 10, 2);
    TwoIsField(v / 100);
    assert v / 10 / 10 == v / 100 && v % 100 / 10 == v / 10 % 10 && v % 100 % 10 == v % 10;
  }

  lemma DatePrinted(d: Date)
    requires ValidDate(d)
    ensures PrintedDate(d) == Two(d.year / 100) + Two(d.year % 100) + [0x2D] + Two(d.month) + [0x2D] + Two(d.day)
  {
    FourIsField(d.year);
    TwoIsField(d.month);
    TwoIsField(d.day);
  }

  /** Hour, minute and second; a fraction that is not zero follows 0x2E and does not end with a zero. */
  lemma TimePrinted(t: Time)
    requires ValidTime(t)
    ensures var clock, p := Two(t.hour) + [0x3A] + Two(t.minute) + [0x3A] + Two(t.second), PrintedTime(t);
            if t.nanosecond == 0 then p == clock
            else 9 < |p| <= 18 && p[..8] == clock && p[8] == 0x2E && p[|p| - 1] != 0x30
                 && (forall k :: 9 <= k < |p| ==> 0x30 <= p[k] <= 0x39)
                 && t.nanosecond == Nine(p[9..])
  {
    ClockPrinted(t);
    if t.nanosecond != 0 {
      var f := Fraction(t.nanosecond, 9);
      FractionValue(t.nanosecond);
      NineDigits(f);
      NoTrailingZero(t.nanosecond, 9);
      assert PrintedTime(t)[9..] == f;
    }
  }

  lemma ClockPrinted(t: Time)
    requires ValidTime(t)
    ensures PrintedClock(t) == Two(t.hour) + [0x3A] + Two(t.minute) + [0x3A] + Two(t.second)
  {
    TwoIsField(t.hour);
    TwoIsField(t.minute);
    TwoIsField(t.second);
  }

  lemma {:induction false} NoTrailingZero(ns: nat, digits: nat)
    requires 0 < ns < Pow(10, digits)
    ensures var f := Fraction(ns, digits); f != [] && f[|f| - 1] != 0x30
  {
    if ns % 10 == 0 && digits > 0 {
      NoTrailingZero(ns / 10, digits - 1);
    }
  }

  lemma OffsetPrinted(minutes: int)
    requires -1440 < minutes < 1440
    ensures PrintedOffset(minutes)
            == if minutes == 0 then [0x5A]
               else if minutes > 0 then [0x2B] + Two(minutes / 60) + [0x3A] + Two(minutes % 60)
               else [0x2D] + Two((0 - minutes) / 60) + [0x3A] + Two((0 - minutes) % 60)
  {
    var m: nat := if minutes < 0 then -minutes else minutes;
    TwoIsField(m / 60);
    TwoIsField(m % 60);
  }

  lemma DateTimePrinted(dt: DateTime)
    ensures PrintedDateTime(dt)
            == PrintedDate(dt.date) + [0x54] + PrintedTime(dt.time)
               + if dt.offset.None? then [] else PrintedOffset(dt.offset.value)
  {
  }

  /** The order of printed dates, character by character, is the order of the dates. */
  predicate Before(a: Text, b: Text) {
    b != [] && (a == [] || a[0] < b[0] || (a[0] == b[0] && Before(a[1..], b[1..])))
  }

  predicate Earlier(a: Date, b: Date) {
    a.year < b.year || (a.year == b.year && (a.month < b.month || (a.month == b.month && a.day < b.day)))
  }

  lemma PrintedInOrder(a: Date, b: Date)
    requires ValidDate(a) && ValidDate(b)
    ensures Before(PrintedDate(a), PrintedDate(b)) <==> Earlier(a, b)
  {
    DatePrinted(a);
    DatePrinted(b);
    var ad, bd := Two(a.day), Two(b.day);
    var am, bm := Two(a.month) + ([0x2D] + ad), Two(b.month) + ([0x2D] + bd);
    var yearA, yearB := Two(a.year % 100) + ([0x2D] + am), Two(b.year % 100) + ([0x2D] + bm);
    assert PrintedDate(a) == Two(a.year / 100) + yearA && PrintedDate(b) == Two(b.year / 100) + yearB;
    TwoInOrder(a.year / 100, b.year / 100, yearA, yearB);
    TwoInOrder(a.year % 100, b.year % 100, [0x2D] + am, [0x2D] + bm);
    TwoInOrder(a.month, b.month, [0x2D] + ad, [0x2D] + bd);
    TwoInOrder(a.day, b.day, [], []);
    assert ad + [] == ad && bd + [] == bd;
    SameFirst(am, bm);
    SameFirst(ad, bd);
  }

  lemma SameFirst(a: Text, b: Text)
    ensures Before([0x2D] + a, [0x2D] + b) <==> Before(a, b)
  {
    assert ([0x2D] + a)[1..] == a && ([0x2D] + b)[1..] == b;
  }

  lemma TwoInOrder(v: nat, w: nat, a: Text, b: Text)
    requires v < 100 && w < 100
    ensures Before(Two(v) + a, Two(w) + b) <==> v < w || (v == w && Before(a, b))
  {
    var s, t := Two(v) + a, Two(w) + b;
    assert s[1..][0] == 0x30 + v % 10 && t[1..][0] == 0x30 + w % 10;
    assert s[1..][1..] == a && t[1..][1..] == b;
  }
}
