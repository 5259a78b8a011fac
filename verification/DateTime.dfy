/**
  Dates and times of the TOML library: the printer of date, time, offset and date-time, and
  parse_date, parse_time and parse_date_time (util/toml.hpp). The reference is TOML v1.0.0,
  section "Offset Date-Time".
 */
module DateTime {
  import opened Wrappers
  import opened Utf8
  import opened CharClasses
  import opened IntegerText

  // Field widths as in the source: 16, 8 and 8 bits; 8, 8, 8 and 32 bits; 16 bits signed.
  datatype Date = Date(year: nat, month: nat, day: nat)
  datatype Time = Time(hour: nat, minute: nat, second: nat, nanosecond: nat)
  datatype DateTime = DateTime(date: Date, time: Time, offset: Option<int>)
  datatype Parsed<T> = Parsed(value: T, next: nat)

  const DASH: Scalar := '-' as int
  const COLON: Scalar := ':' as int
  const POINT: Scalar := '.' as int
  const PLUS: Scalar := '+' as int

  // ---------------------------------------------------------------------------------------
  // The calendar
  // ---------------------------------------------------------------------------------------

  predicate LeapYear(year: nat) { year % 4 == 0 && (year % 100 != 0 || year % 400 == 0) }

  function DaysIn(year: nat, month: nat): nat {
    if month == 2 then (if LeapYear(year) then 29 else 28)
    else if month == 4 || month == 6 || month == 9 || month == 11 then 30
    else 31
  }

  predicate ValidDate(d: Date) { d.year <= 9999 && 1 <= d.month <= 12 && 1 <= d.day <= DaysIn(d.year, d.month) }

  predicate ValidTime(t: Time) { t.hour <= 23 && t.minute <= 59 && t.second <= 59 && t.nanosecond <= 999_999_999 }

  predicate ValidOffset(minutes: int) { -1440 < minutes < 1440 }

  predicate ValidDateTime(dt: DateTime) {
    ValidDate(dt.date) && ValidTime(dt.time) && (dt.offset.Some? ==> ValidOffset(dt.offset.value))
  }

  // ---------------------------------------------------------------------------------------
  // What a text denotes
  // ---------------------------------------------------------------------------------------

  /** A number of exactly n digits at a position. */
  predicate NumberAt(text: Text, p: nat, n: nat) { p + n <= |text| && AllDigits(10, text[p..p + n]) }

  function NumberOf(text: Text, p: nat, n: nat): nat
    requires NumberAt(text, p, n)
  {
    Value(10, text[p..p + n])
  }

  predicate Is(text: Text, p: nat, c: Scalar) { p < |text| && text[p] == c }

  predicate Ends(text: Text, p: nat) { p >= |text| || IsValueTerminator(text[p]) }

  predicate StartsOffset(text: Text, p: nat) {
    Is(text, p, PLUS) || Is(text, p, DASH) || Is(text, p, 'Z' as int) || Is(text, p, 'z' as int)
  }

  function ReadDate(text: Text, p: nat, partOfDateTime: bool): Option<Parsed<Date>> {
    if NumberAt(text, p, 4) && Is(text, p + 4, DASH) && NumberAt(text, p + 5, 2) && Is(text, p + 7, DASH)
       && NumberAt(text, p + 8, 2)
    then
      var date := Date(NumberOf(text, p, 4), NumberOf(text, p + 5, 2), NumberOf(text, p + 8, 2));
      if ValidDate(date) && (partOfDateTime || Ends(text, p + 10)) then Some(Parsed(date, p + 10)) else None
    else None
  }

  const MAX_DIGITS := 64

  /** How many decimal digits stand at a position, counted up to a limit. */
  function DigitRun(text: Text, p: nat, limit: nat): (n: nat)
    requires p <= |text|
    ensures n <= limit && p + n <= |text| && AllDigits(10, text[p..p + n])
    ensures n < limit && p + n < |text| ==> !IsDigit(10, text[p + n])
    decreases |text| - p
  {
    if limit == 0 || p == |text| || !IsDigit(10, text[p]) then 0
    else
      var rest := DigitRun(text, p + 1, limit - 1);
      assert text[p..p + 1 + rest] == [text[p]] + text[p + 1..p + 1 + rest];
      1 + rest
  }

  /** The whole nanoseconds of a decimal fraction. */
  function Nanoseconds(d: Text): nat
    requires AllDigits(10, d)
  {
    Value(10, d) * Pow(10, 9) / Pow(10, |d|)
  }

  /** The fraction of a second, after its point. */
  function ReadFraction(text: Text, p: nat, partOfDateTime: bool): Option<Parsed<nat>>
    requires p <= |text|
  {
    var n := DigitRun(text, p, MAX_DIGITS);
    if n == 0 || (n == MAX_DIGITS && p + n < |text| && IsDigit(10, text[p + n]))
       || (!partOfDateTime && !Ends(text, p + n))
    then None
    else Some(Parsed(Nanoseconds(text[p..p + n]), p + n))
  }

  /** Hour, minute and second; the seconds are mandatory. */
  function ReadClock(text: Text, p: nat): Option<Time> {
    if NumberAt(text, p, 2) && Is(text, p + 2, COLON) && NumberAt(text, p + 3, 2) && Is(text, p + 5, COLON)
       && NumberAt(text, p + 6, 2)
    then
      var time := Time(NumberOf(text, p, 2), NumberOf(text, p + 3, 2), NumberOf(text, p + 6, 2), 0);
      if ValidTime(time) then Some(time) else None
    else None
  }

  function ReadTime(text: Text, p: nat, partOfDateTime: bool): Option<Parsed<Time>> {
    match ReadClock(text, p)
    case None => None
    case Some(time) =>
      if Ends(text, p + 8) || (partOfDateTime && StartsOffset(text, p + 8)) then Some(Parsed(time, p + 8))
      else if text[p + 8] != POINT then None
      else
        match ReadFraction(text, p + 9, partOfDateTime)
        case None => None
        case Some(f) => Some(Parsed(time.(nanosecond := f.value), f.next))
  }

  function ReadOffset(text: Text, p: nat): Option<Parsed<int>> {
    if Is(text, p, 'Z' as int) || Is(text, p, 'z' as int) then Some(Parsed(0, p + 1))
    else if (Is(text, p, PLUS) || Is(text, p, DASH)) && NumberAt(text, p + 1, 2) && Is(text, p + 3, COLON)
            && NumberAt(text, p + 4, 2) && NumberOf(text, p + 1, 2) <= 23 && NumberOf(text, p + 4, 2) <= 59
    then
      var minutes: int := NumberOf(text, p + 1, 2) * 60 + NumberOf(text, p + 4, 2);
      Some(Parsed(if text[p] == DASH then -minutes else minutes, p + 6))
    else None
  }

  /** The offset, if any, and then the end of the value. */
  function ReadZone(text: Text, p: nat): Option<Parsed<Option<int>>> {
    if Ends(text, p) then Some(Parsed(None, p))
    else
      match ReadOffset(text, p)
      case None => None
      case Some(o) => if Ends(text, o.next) then Some(Parsed(Some(o.value), o.next)) else None
  }

  function ReadDateTime(text: Text, p: nat): Option<Parsed<DateTime>> {
    match ReadDate(text, p, true)
    case None => None
    case Some(d) =>
      if !(Is(text, d.next, ' ' as int) || Is(text, d.next, 'T' as int) || Is(text, d.next, 't' as int)) then None
      else
        match ReadTime(text, d.next + 1, true)
        case None => None
        case Some(t) =>
          match ReadZone(text, t.next)
          case None => None
          case Some(z) => Some(Parsed(DateTime(d.value, t.value, z.value), z.next))
  }

  // ---------------------------------------------------------------------------------------
  // What is printed
  // ---------------------------------------------------------------------------------------

  /** A number with at least the given number of digits. */
  function Field(v: nat, min: nat): Text
    decreases v + min
  {
    if v == 0 && min == 0 then [] else Field(v / 10, if min == 0 then 0 else min - 1) + [ZERO + v % 10]
  }

  function PrintedDate(d: Date): Text {
    Field(d.year, 4) + [DASH] + Field(d.month, 2) + [DASH] + Field(d.day, 2)
  }

  function PrintedClock(t: Time): Text {
    Field(t.hour, 2) + [COLON] + Field(t.minute, 2) + [COLON] + Field(t.second, 2)
  }

  /** A number of at most so many digits as a decimal fraction, without trailing zeros. */
  function Fraction(ns: nat, digits: nat): Text
    requires ns > 0
  {
    if ns % 10 == 0 && digits > 0 then Fraction(ns / 10, digits - 1) else Field(ns, digits)
  }

  function PrintedTime(t: Time): Text {
    PrintedClock(t)
    + if t.nanosecond == 0 || t.nanosecond > 999_999_999 then [] else [POINT] + Fraction(t.nanosecond, 9)
  }

  function PrintedOffset(minutes: int): Text {
    if minutes == 0 then ['Z' as int]
    else
      var m: nat := if minutes < 0 then -minutes else minutes;
      [if minutes < 0 then DASH else PLUS] + Field(m / 60, 2) + [COLON] + Field(m % 60, 2)
  }

  function PrintedDateTime(dt: DateTime): Text {
    PrintedDate(dt.date) + ['T' as int] + PrintedTime(dt.time) + PrintedZone(dt.offset)
  }

  function PrintedZone(offset: Option<int>): Text {
    if offset.None? then [] else PrintedOffset(offset.value)
  }

  // ---------------------------------------------------------------------------------------
  // Only valid values are read
  // ---------------------------------------------------------------------------------------

  lemma DivisionOf(q: nat, m: nat, r: nat)
    requires r < m
    ensures (q * m + r) / m == q
  {
    var x := q * m + r;
    var k := x / m;
    Ordered(k + 1, q, m);
    Ordered(q + 1, k, m);
  }

  lemma Ordered(a: int, b: int, m: nat)
    ensures a <= b ==> a * m <= b * m
  {
  }

  lemma PowTen()
    ensures Pow(10, 2) == 100 && Pow(10, 4) == 10_000 && Pow(10, 9) == 1_000_000_000
  {
    assert Pow(10, 4) == 10_000;
    PowAdds(10, 4, 4);
  }

  lemma NanosecondsAreValid(d: Text)
    requires AllDigits(10, d)
    ensures Nanoseconds(d) <= 999_999_999
  {
    PowTen();
    ValueIsBounded(10, d);
    Below(Value(10, d), Pow(10, 9), Pow(10, |d|));
  }

  lemma Below(v: nat, c: nat, m: nat)
    requires v < m && c > 0
    ensures v * c / m < c
  {
    Ordered(c, v * c / m, m);
    Ordered(v + 1, m, c);
  }

  /** No text yields a date, a time or an offset outside the calendar and the clock. */
  lemma OnlyValidIsRead(text: Text, p: nat)
    ensures ReadDateTime(text, p).Some? ==> ValidDateTime(ReadDateTime(text, p).value.value)
  {
    var d := ReadDate(text, p, true);
    if d.Some? {
      TimeReadIsValid(text, d.value.next + 1, true);
    }
  }

  lemma TimeReadIsValid(text: Text, p: nat, partOfDateTime: bool)
    ensures var r := ReadTime(text, p, partOfDateTime); r.Some? ==> ValidTime(r.value.value)
  {
    if p + 9 <= |text| {
      FractionReadIsValid(text, p + 9, partOfDateTime);
    }
  }

  lemma FractionReadIsValid(text: Text, p: nat, partOfDateTime: bool)
    requires p <= |text|
    ensures var r := ReadFraction(text, p, partOfDateTime); r.Some? ==> r.value.value <= 999_999_999
  {
    NanosecondsAreValid(text[p..p + DigitRun(text, p, MAX_DIGITS)]);
  }

  // ---------------------------------------------------------------------------------------
  // Fields read back
  // ---------------------------------------------------------------------------------------

  predicate Has(text: Text, p: nat, t: Text) {
    p + |t| <= |text| && forall k {:trigger t[k]} :: 0 <= k < |t| ==> text[p + k] == t[k]
  }

  lemma HasBoth(text: Text, p: nat, both: Text, a: Text, b: Text)
    requires Has(text, p, both) && both == a + b
    ensures Has(text, p, a) && Has(text, p + |a|, b)
  {
    forall k | 0 <= k < |a|
      ensures text[p + k] == a[k]
    {
      assert a[k] == both[k];
    }
    forall k | 0 <= k < |b|
      ensures text[p + |a| + k] == b[k]
    {
      assert b[k] == both[|a| + k];
    }
  }

  lemma HasAround(text: Text, p: nat, all: Text, a: Text, c: Scalar, b: Text)
    requires Has(text, p, all) && all == a + [c] + b
    ensures Has(text, p, a) && Is(text, p + |a|, c) && Has(text, p + |a| + 1, b)
  {
    HasBoth(text, p, all, a + [c], b);
    HasBoth(text, p, a + [c], a, [c]);
    assert [c][0] == c;
  }

  lemma HasParts(text: Text, all: Text, a: Text, c: Scalar, b: Text, d: Text)
    requires Has(text, 0, all) && all == a + [c] + b + d
    ensures Has(text, 0, a) && Is(text, |a|, c) && Has(text, |a| + 1, b) && Has(text, |a| + 1 + |b|, d)
  {
    HasBoth(text, 0, all, a + [c] + b, d);
    HasAround(text, 0, a + [c] + b, a, c, b);
  }

  lemma HasSlice(text: Text, p: nat, t: Text)
    requires Has(text, p, t)
    ensures text[p..p + |t|] == t
  {
  }

  lemma StartsWith(t: Text, rest: Text)
    requires Ends(rest, 0)
    ensures Has(t + rest, 0, t) && Ends(t + rest, |t|)
  {
  }

  lemma {:induction false} FieldIs(v: nat, n: nat)
    requires v < Pow(10, n)
    ensures |Field(v, n)| == n && AllDigits(10, Field(v, n)) && Value(10, Field(v, n)) == v
  {
    if n > 0 {
      FieldIs(v / 10, n - 1);
      ValueAppend(10, Field(v / 10, n - 1), ZERO + v % 10);
    }
  }

  lemma FieldReads(text: Text, p: nat, v: nat, n: nat)
    requires 0 < n && v < Pow(10, n) && Has(text, p, Field(v, n))
    ensures |Field(v, n)| == n && NumberAt(text, p, n) && NumberOf(text, p, n) == v
  {
    FieldIs(v, n);
    assert text[p..p + n] == Field(v, n);
  }

  lemma DateReads(text: Text, p: nat, d: Date, partOfDateTime: bool)
    requires Has(text, p, PrintedDate(d)) && ValidDate(d)
    requires partOfDateTime || Ends(text, p + |PrintedDate(d)|)
    ensures |PrintedDate(d)| == 10 && ReadDate(text, p, partOfDateTime) == Some(Parsed(d, p + 10))
  {
    PowTen();
    var year, month, day := Field(d.year, 4), Field(d.month, 2), Field(d.day, 2);
    HasAround(text, p, PrintedDate(d), year + [DASH] + month, DASH, day);
    HasAround(text, p, year + [DASH] + month, year, DASH, month);
    FieldReads(text, p, d.year, 4);
    FieldReads(text, p + 5, d.month, 2);
    FieldReads(text, p + 8, d.day, 2);
  }

  lemma ClockReads(text: Text, p: nat, t: Time)
    requires Has(text, p, PrintedClock(t)) && ValidTime(t)
    ensures |PrintedClock(t)| == 8 && ReadClock(text, p) == Some(t.(nanosecond := 0))
  {
    PowTen();
    var hour, minute, second := Field(t.hour, 2), Field(t.minute, 2), Field(t.second, 2);
    HasAround(text, p, PrintedClock(t), hour + [COLON] + minute, COLON, second);
    HasAround(text, p, hour + [COLON] + minute, hour, COLON, minute);
    FieldReads(text, p, t.hour, 2);
    FieldReads(text, p + 3, t.minute, 2);
    FieldReads(text, p + 6, t.second, 2);
  }

  /** Trimming zeros keeps the fraction. */
  lemma {:induction false} FractionIs(ns: nat, digits: nat)
    requires 0 < ns < Pow(10, digits)
    ensures var f := Fraction(ns, digits);
            0 < |f| <= digits && AllDigits(10, f) && Value(10, f) * Pow(10, digits - |f|) == ns
  {
    if ns % 10 == 0 && digits > 0 {
      FractionIs(ns / 10, digits - 1);
      var f := Fraction(ns, digits);
      Associates(Value(10, f), 10, Pow(10, digits - 1 - |f|));
    } else {
      FieldIs(ns, digits);
    }
  }

  lemma FractionValue(ns: nat)
    requires 0 < ns <= 999_999_999
    ensures var f := Fraction(ns, 9); 0 < |f| <= 9 && AllDigits(10, f) && Nanoseconds(f) == ns
  {
    PowTen();
    FractionIs(ns, 9);
    var f := Fraction(ns, 9);
    PowAdds(10, 9 - |f|, |f|);
    Cancels(Value(10, f), Pow(10, 9 - |f|), Pow(10, |f|));
  }

  lemma Cancels(v: nat, a: nat, b: nat)
    requires b > 0
    ensures v * (a * b) / b == v * a
  {
    DivisionOf(v * a, b, 0);
    assert v * (a * b) == v * a * b;
  }

  lemma {:induction false} RunIs(text: Text, p: nat, n: nat, limit: nat)
    requires p + n <= |text| && n <= limit && AllDigits(10, text[p..p + n])
    requires p + n < |text| && n < limit ==> !IsDigit(10, text[p + n])
    ensures DigitRun(text, p, limit) == n
    decreases n
  {
    if n > 0 {
      assert text[p] == text[p..p + n][0];
      assert text[p + 1..p + n] == text[p..p + n][1..];
      RunIs(text, p + 1, n - 1, limit - 1);
    }
  }

  lemma TimeReads(text: Text, p: nat, t: Time, partOfDateTime: bool)
    requires Has(text, p, PrintedTime(t)) && ValidTime(t)
    requires var end := p + |PrintedTime(t)|; Ends(text, end) || (partOfDateTime && StartsOffset(text, end))
    ensures ReadTime(text, p, partOfDateTime) == Some(Parsed(t, p + |PrintedTime(t)|))
  {
    TimeParts(text, p, t);
    ClockReads(text, p, t);
    if t.nanosecond == 0 {
      WithoutFraction(text, p, t, partOfDateTime);
    } else {
      PointAndFractionRead(text, p, t, partOfDateTime, p + |PrintedTime(t)|);
    }
  }

  lemma WithoutFraction(text: Text, p: nat, t: Time, partOfDateTime: bool)
    requires ReadClock(text, p) == Some(t) && (Ends(text, p + 8) || (partOfDateTime && StartsOffset(text, p + 8)))
    ensures ReadTime(text, p, partOfDateTime) == Some(Parsed(t, p + 8))
  {
  }

  lemma TimeParts(text: Text, p: nat, t: Time)
    requires ValidTime(t) && Has(text, p, PrintedTime(t))
    ensures var clock := PrintedClock(t);
            Has(text, p, clock)
            && if t.nanosecond == 0 then |PrintedTime(t)| == |clock|
               else var f := Fraction(t.nanosecond, 9);
                    Is(text, p + |clock|, POINT) && Has(text, p + |clock| + 1, f)
                      && |PrintedTime(t)| == |clock| + 1 + |f|
  {
    var clock := PrintedClock(t);
    if t.nanosecond == 0 {
      assert PrintedTime(t) == clock;
    } else {
      var f := Fraction(t.nanosecond, 9);
      assert PrintedTime(t) == clock + [POINT] + f;
      HasAround(text, p, PrintedTime(t), clock, POINT, f);
    }
  }

  lemma PointAndFractionRead(text: Text, p: nat, t: Time, partOfDateTime: bool, end: nat)
    requires 0 < t.nanosecond <= 999_999_999 && ReadClock(text, p) == Some(t.(nanosecond := 0))
    requires Is(text, p + 8, POINT) && Has(text, p + 9, Fraction(t.nanosecond, 9))
    requires end == p + 9 + |Fraction(t.nanosecond, 9)|
    requires Ends(text, end) || (partOfDateTime && StartsOffset(text, end))
    ensures ReadTime(text, p, partOfDateTime) == Some(Parsed(t, end))
  {
    FractionReads(text, p + 9, t.nanosecond, partOfDateTime);
    AppendsFraction(text, p, t, partOfDateTime, end);
  }

  lemma FractionReads(text: Text, p: nat, ns: nat, partOfDateTime: bool)
    requires 0 < ns <= 999_999_999 && Has(text, p, Fraction(ns, 9))
    requires var end := p + |Fraction(ns, 9)|; Ends(text, end) || (partOfDateTime && StartsOffset(text, end))
    ensures ReadFraction(text, p, partOfDateTime) == Some(Parsed(ns, p + |Fraction(ns, 9)|))
  {
    var f := Fraction(ns, 9);
    FractionValue(ns);
    HasSlice(text, p, f);
    RunReads(text, p, f, partOfDateTime);
  }

  lemma RunReads(text: Text, p: nat, f: Text, partOfDateTime: bool)
    requires 0 < |f| < MAX_DIGITS && AllDigits(10, f) && p + |f| <= |text| && text[p..p + |f|] == f
    requires Ends(text, p + |f|) || (partOfDateTime && StartsOffset(text, p + |f|))
    ensures ReadFraction(text, p, partOfDateTime) == Some(Parsed(Nanoseconds(f), p + |f|))
  {
    RunIs(text, p, |f|, MAX_DIGITS);
  }

  lemma AppendsFraction(text: Text, p: nat, t: Time, partOfDateTime: bool, end: nat)
    requires ReadClock(text, p) == Some(t.(nanosecond := 0)) && Is(text, p + 8, POINT)
    requires ReadFraction(text, p + 9, partOfDateTime) == Some(Parsed(t.nanosecond, end))
    ensures ReadTime(text, p, partOfDateTime) == Some(Parsed(t, end))
  {
  }

  lemma OffsetReads(text: Text, p: nat, minutes: int)
    requires Has(text, p, PrintedOffset(minutes)) && ValidOffset(minutes)
    ensures StartsOffset(text, p) && ReadOffset(text, p) == Some(Parsed(minutes, p + |PrintedOffset(minutes)|))
  {
    if minutes == 0 {
      assert PrintedOffset(0)[0] == 'Z' as int;
    } else {
      var m: nat := if minutes < 0 then -minutes else minutes;
      HoursAndMinutesRead(text, p, minutes < 0, m / 60, m % 60);
    }
  }

  lemma HoursAndMinutesRead(text: Text, p: nat, negative: bool, h: nat, m: nat)
    requires h <= 23 && m <= 59
    requires Has(text, p, [if negative then DASH else PLUS] + Field(h, 2) + [COLON] + Field(m, 2))
    ensures StartsOffset(text, p) && |Field(h, 2)| == 2 == |Field(m, 2)|
    ensures ReadOffset(text, p) == Some(Parsed(if negative then -(h * 60 + m) else h * 60 + m, p + 6))
  {
    PowTen();
    FieldIs(h, 2);
    FieldIs(m, 2);
    HasOffsetParts(text, p, if negative then DASH else PLUS, Field(h, 2), Field(m, 2));
    FieldReads(text, p + 1, h, 2);
    FieldReads(text, p + 4, m, 2);
    OffsetIs(text, p, h, m);
  }

  lemma OffsetIs(text: Text, p: nat, h: nat, m: nat)
    requires h <= 23 && m <= 59 && (Is(text, p, PLUS) || Is(text, p, DASH)) && Is(text, p + 3, COLON)
    requires NumberAt(text, p + 1, 2) && NumberOf(text, p + 1, 2) == h && NumberAt(text, p + 4, 2)
             && NumberOf(text, p + 4, 2) == m
    ensures ReadOffset(text, p) == Some(Parsed(if text[p] == DASH then -(h * 60 + m) else h * 60 + m, p + 6))
  {
  }

  lemma HasOffsetParts(text: Text, p: nat, sign: Scalar, hours: Text, minutes: Text)
    requires Has(text, p, [sign] + hours + [COLON] + minutes)
    ensures Is(text, p, sign) && Has(text, p + 1, hours) && Is(text, p + 1 + |hours|, COLON)
    ensures Has(text, p + 2 + |hours|, minutes)
  {
    HasAround(text, p, [sign] + hours + [COLON] + minutes, [sign] + hours, COLON, minutes);
    HasAround(text, p, [sign] + hours, [], sign, hours);
  }

  /** A date-time survives printing and parsing, whatever follows it, exactly when it is valid. */
  lemma DateTimeRoundTrip(dt: DateTime, rest: Text)
    requires Ends(rest, 0)
    ensures var t := PrintedDateTime(dt);
            ReadDateTime(t + rest, 0) == Some(Parsed(dt, |t|)) <==> ValidDateTime(dt)
  {
    OnlyValidIsRead(PrintedDateTime(dt) + rest, 0);
    if ValidDateTime(dt) {
      StartsWith(PrintedDateTime(dt), rest);
      DateTimeReads(PrintedDateTime(dt) + rest, dt);
    }
  }

  lemma DateTimeReads(text: Text, dt: DateTime)
    requires Has(text, 0, PrintedDateTime(dt)) && ValidDateTime(dt) && Ends(text, |PrintedDateTime(dt)|)
    ensures ReadDateTime(text, 0) == Some(Parsed(dt, |PrintedDateTime(dt)|))
  {
    PrintedParts(text, dt);
    DateReads(text, 0, dt.date, true);
    PartsRead(text, dt, 11 + |PrintedTime(dt.time)|, |PrintedDateTime(dt)|);
  }

  lemma PrintedParts(text: Text, dt: DateTime)
    requires Has(text, 0, PrintedDateTime(dt))
    ensures var date, time := PrintedDate(dt.date), PrintedTime(dt.time);
            Has(text, 0, date) && Is(text, |date|, 'T' as int) && Has(text, |date| + 1, time)
            && Has(text, |date| + 1 + |time|, PrintedZone(dt.offset))
            && |PrintedDateTime(dt)| == |date| + 1 + |time| + |PrintedZone(dt.offset)|
  {
    HasParts(text, PrintedDateTime(dt), PrintedDate(dt.date), 'T' as int, PrintedTime(dt.time), PrintedZone(dt.offset));
  }

  lemma PartsRead(text: Text, dt: DateTime, at: nat, end: nat)
    requires ValidDateTime(dt) && ReadDate(text, 0, true) == Some(Parsed(dt.date, 10)) && Is(text, 10, 'T' as int)
    requires Has(text, 11, PrintedTime(dt.time)) && at == 11 + |PrintedTime(dt.time)|
    requires Has(text, at, PrintedZone(dt.offset)) && end == at + |PrintedZone(dt.offset)| && Ends(text, end)
    ensures ReadDateTime(text, 0) == Some(Parsed(dt, end))
  {
    ZoneReads(text, at, dt.offset);
    TimeReads(text, 11, dt.time, true);
    Composes(text, dt, at, end);
  }

  lemma ZoneReads(text: Text, p: nat, offset: Option<int>)
    requires Has(text, p, PrintedZone(offset)) && (offset.Some? ==> ValidOffset(offset.value))
    requires Ends(text, p + |PrintedZone(offset)|)
    ensures Ends(text, p) || StartsOffset(text, p)
    ensures ReadZone(text, p) == Some(Parsed(offset, p + |PrintedZone(offset)|))
  {
    if offset.Some? {
      OffsetReads(text, p, offset.value);
      OffsetEnds(text, p, offset.value, p + |PrintedZone(offset)|);
    }
  }

  lemma OffsetEnds(text: Text, p: nat, minutes: int, end: nat)
    requires StartsOffset(text, p) && ReadOffset(text, p) == Some(Parsed(minutes, end)) && Ends(text, end)
    ensures ReadZone(text, p) == Some(Parsed(Some(minutes), end))
  {
  }

  lemma Composes(text: Text, dt: DateTime, at: nat, end: nat)
    requires ReadDate(text, 0, true) == Some(Parsed(dt.date, 10)) && Is(text, 10, 'T' as int)
    requires ReadTime(text, 11, true) == Some(Parsed(dt.time, at))
    requires ReadZone(text, at) == Some(Parsed(dt.offset, end))
    ensures ReadDateTime(text, 0) == Some(Parsed(dt, end))
  {
  }

  lemma DateRoundTrip(d: Date, rest: Text)
    requires Ends(rest, 0)
    ensures var t := PrintedDate(d); ReadDate(t + rest, 0, false) == Some(Parsed(d, |t|)) <==> ValidDate(d)
  {
    if ValidDate(d) {
      StartsWith(PrintedDate(d), rest);
      DateReads(PrintedDate(d) + rest, 0, d, false);
    }
  }

  lemma TimeRoundTrip(t: Time, rest: Text)
    requires Ends(rest, 0)
    ensures var s := PrintedTime(t); ReadTime(s + rest, 0, false) == Some(Parsed(t, |s|)) <==> ValidTime(t)
  {
    TimeReadIsValid(PrintedTime(t) + rest, 0, false);
    if ValidTime(t) {
      StartsWith(PrintedTime(t), rest);
      TimeReads(PrintedTime(t) + rest, 0, t, false);
    }
  }

  // ---------------------------------------------------------------------------------------
  // The printer
  // ---------------------------------------------------------------------------------------

  lemma {:induction false} PaddedField(v: nat, min: nat)
    requires v > 0 || min > 0
    ensures Padded(Shown(10, v), min) == Field(v, min)
    decreases v + min
  {
    var less := if min == 0 then 0 else min - 1;
    LastDecimal(v);
    if v < 10 {
      ZeroField(less);
    } else {
      PaddedField(v / 10, less);
      LastDigit(10, v);
      PaddedAppend(Shown(10, v / 10), ZERO + v % 10, min);
    }
  }

  lemma PaddedAppend(t: Text, c: Scalar, min: nat)
    requires t != []
    ensures Padded(t + [c], min) == Padded(t, if min == 0 then 0 else min - 1) + [c]
  {
  }

  lemma LastDecimal(v: nat)
    ensures UpperCase(DigitOf(v % 10)) == ZERO + v % 10
    ensures v < 10 ==> Shown(10, v) == [ZERO + v % 10]
  {
    if v < 10 {
      OneDigit(10, v);
    }
  }

  lemma {:induction false} ZeroField(n: nat)
    ensures Field(0, n) == Zeros(n)
  {
    if n > 0 {
      ZeroField(n - 1);
      assert Zeros(n) == Zeros(n - 1) + [ZERO];
    }
  }

  method PrintField(v: nat, min: nat) returns (out: Text)
    requires v > 0 || min > 0
    ensures out == Field(v, min)
  {
    out := PrintIntegerToStream(v, NO_FORMAT, min);
    PaddedField(v, min);
  }

  method PrintDate(d: Date) returns (out: Text)
    ensures out == PrintedDate(d)
  {
    var year := PrintField(d.year, 4);
    var month := PrintField(d.month, 2);
    var day := PrintField(d.day, 2);
    out := year + [DASH] + month + [DASH] + day;
  }

  method PrintClock(t: Time) returns (out: Text)
    ensures out == PrintedClock(t)
  {
    var hour := PrintField(t.hour, 2);
    var minute := PrintField(t.minute, 2);
    var second := PrintField(t.second, 2);
    out := hour + [COLON] + minute + [COLON] + second;
  }

  method PrintTime(t: Time) returns (out: Text)
    ensures out == PrintedTime(t)
  {
    out := PrintClock(t);
    if t.nanosecond != 0 && t.nanosecond <= 999_999_999 {
      var ns, digits := t.nanosecond, 9;
      while ns % 10 == 0
        invariant ns > 0 && digits >= 0 && ns < Pow(10, digits) && Fraction(ns, digits) == Fraction(t.nanosecond, 9)
        decreases digits
      {
        ns, digits := ns / 10, digits - 1;
      }
      var fraction := PrintField(ns, digits);
      out := out + ([POINT] + fraction);
    }
  }

  method PrintOffset(minutes: int) returns (out: Text)
    ensures out == PrintedOffset(minutes)
  {
    if minutes == 0 {
      return ['Z' as int];
    }
    var mins := minutes;
    if mins < 0 {
      out := [DASH];
      mins := -mins;
    } else {
      out := [PLUS];
    }
    var hours := mins / 60;
    var hh, mm := [ZERO, ZERO], [];
    if hours != 0 {
      hh := PrintField(hours, 2);
      mins := mins - hours * 60;
    } else {
      ZeroField(2);
    }
    mm := PrintField(mins, 2);
    out := out + hh + [COLON] + mm;
  }

  method PrintDateTime(dt: DateTime) returns (out: Text)
    ensures out == PrintedDateTime(dt)
  {
    var date := PrintDate(dt.date);
    var time := PrintTime(dt.time);
    out := date + ['T' as int] + time;
    if dt.offset.Some? {
      var offset := PrintOffset(dt.offset.value);
      out := out + offset;
    }
  }

  // ---------------------------------------------------------------------------------------
  // The parser
  // ---------------------------------------------------------------------------------------

  /** The next digits, into a buffer. */
  method ConsumeDigitSequence(text: Text, p: nat, len: nat, digits: array<nat>) returns (ok: bool)
    requires 0 < len <= digits.Length
    modifies digits
    ensures ok <==> NumberAt(text, p, len)
    ensures ok ==> forall i :: 0 <= i < len ==> digits[i] == text[p + i] - ZERO
  {
    var i := 0;
    while i < len
      invariant 0 <= i <= len && (i > 0 ==> p + i <= |text|)
      invariant forall k :: p <= k < p + i ==> IsDigit(10, text[k])
      invariant forall k :: 0 <= k < i ==> digits[k] == text[p + k] - ZERO
    {
      if p + i >= |text| {
        return false;
      }
      if !IsDigit(10, text[p + i]) {
        if NumberAt(text, p, len) {
          DigitOfNumber(text, p, len, i);
        }
        return false;
      }
      digits[i] := text[p + i] - ZERO;
      i := i + 1;
    }
    SliceDigits(text, p, len);
    return true;
  }

  lemma DigitOfNumber(text: Text, p: nat, n: nat, i: nat)
    requires NumberAt(text, p, n) && i < n
    ensures IsDigit(10, text[p + i])
  {
    assert text[p..p + n][i] == text[p + i];
  }

  lemma SliceDigits(text: Text, p: nat, n: nat)
    requires p + n <= |text| && forall k :: p <= k < p + n ==> IsDigit(10, text[k])
    ensures NumberAt(text, p, n)
  {
  }

  lemma TwoDigits(text: Text, p: nat)
    requires NumberAt(text, p, 2)
    ensures NumberOf(text, p, 2) == (text[p + 1] - ZERO) + (text[p] - ZERO) * 10
  {
    var d := text[p..p + 2];
    assert d == [] + [text[p]] + [text[p + 1]];
    ValueAppend(10, [], text[p]);
    ValueAppend(10, [text[p]], text[p + 1]);
  }

  lemma FourDigits(text: Text, p: nat)
    requires NumberAt(text, p, 4)
    ensures NumberOf(text, p, 4)
            == (text[p + 3] - ZERO) + (text[p + 2] - ZERO) * 10 + (text[p + 1] - ZERO) * 100 + (text[p] - ZERO) * 1000
  {
    var d := text[p..p + 4];
    assert text[p..p + 2] == d[..2];
    TwoDigits(text, p);
    assert d[..3] == text[p..p + 2] + [text[p + 2]];
    assert d == d[..3] + [text[p + 3]];
    ValueAppend(10, text[p..p + 2], text[p + 2]);
    ValueAppend(10, d[..3], text[p + 3]);
  }

  method ParseTwoDigits(text: Text, p: nat) returns (v: Option<nat>)
    ensures v == if NumberAt(text, p, 2) then Some(NumberOf(text, p, 2)) else None
  {
    var digits := new nat[2](_ => 0);
    var ok := ConsumeDigitSequence(text, p, 2, digits);
    if !ok {
      return None;
    }
    TwoDigits(text, p);
    assert digits[0] == text[p + 0] - ZERO;
    return Some(digits[1] + digits[0] * 10);
  }

  method ParseYear(text: Text, p: nat) returns (v: Option<nat>)
    ensures v == if NumberAt(text, p, 4) then Some(NumberOf(text, p, 4)) else None
    ensures v.Some? ==> v.value <= 9999
  {
    var digits := new nat[4](_ => 0);
    var ok := ConsumeDigitSequence(text, p, 4, digits);
    if !ok {
      return None;
    }
    FourDigits(text, p);
    assert digits[0] == text[p + 0] - ZERO;
    forall i | 0 <= i < 4
      ensures digits[i] <= 9
    {
      DigitOfNumber(text, p, 4, i);
    }
    return Some(digits[3] + digits[2] * 10 + digits[1] * 100 + digits[0] * 1000);
  }

  method ParseDate(text: Text, p: nat, partOfDateTime: bool) returns (r: Option<Parsed<Date>>)
    ensures r == ReadDate(text, p, partOfDateTime)
  {
    var year := ParseYear(text, p);
    if year.None? || p + 4 >= |text| || text[p + 4] != DASH {
      return None;
    }
    var month := ParseTwoDigits(text, p + 5);
    if month.None? || month.value == 0 || month.value > 12 {
      return None;
    }
    if p + 7 >= |text| || text[p + 7] != DASH {
      return None;
    }
    var day := ParseTwoDigits(text, p + 8);
    if day.None? || day.value == 0 || day.value > DaysIn(year.value, month.value) {
      return None;
    }
    if !partOfDateTime && p + 10 < |text| && !IsValueTerminator(text[p + 10]) {
      return None;
    }
    return Some(Parsed(Date(year.value, month.value, day.value), p + 10));
  }

  const TWO_32 := 0x1_0000_0000

  /** Unsigned 32-bit arithmetic. */
  function Wrap32(n: nat): nat { n % TWO_32 }

  /** The first nine digits as nanoseconds, and whatever follows them cut off. */
  lemma FractionTruncates(d: Text)
    requires AllDigits(10, d)
    ensures var n := if |d| < 9 then |d| else 9; Nanoseconds(d) == Value(10, d[..n]) * Pow(10, 9 - n)
  {
    if |d| < 9 {
      assert d[..|d|] == d;
      PowAdds(10, 9 - |d|, |d|);
      Cancels(Value(10, d), Pow(10, 9 - |d|), Pow(10, |d|));
    } else {
      var whole, tail := Value(10, d[..9]), Value(10, d[9..]);
      assert d == d[..9] + d[9..];
      ValueOfBoth(10, d[..9], d[9..]);
      ValueIsBounded(10, d[9..]);
      PowAdds(10, 9, |d| - 9);
      Truncates(whole, tail, Pow(10, |d| - 9), Pow(10, 9));
    }
  }

  lemma Truncates(whole: nat, tail: nat, m: nat, c: nat)
    requires tail < m && c > 0
    ensures (whole * m + tail) * c / (c * m) == whole
  {
    Ordered(tail + 1, m, c);
    assert (whole * m + tail) * c == whole * (c * m) + tail * c;
    DivisionOf(whole, c * m, tail * c);
  }

  lemma {:induction false} ValueOfBoth(base: Base, a: Text, b: Text)
    requires AllDigits(base, a) && AllDigits(base, b)
    ensures AllDigits(base, a + b)
    ensures Value(base, a + b) == Value(base, a) * Pow(base, |b|) + Value(base, b)
  {
    if b == [] {
      assert a + b == a;
    } else {
      var n := |b| - 1;
      var front := b[..n];
      ValueOfBoth(base, a, front);
      assert a + b == a + front + [b[n]] && b == front + [b[n]];
      ValueAppend(base, a + front, b[n]);
      ValueAppend(base, front, b[n]);
      Distributes(Value(base, a), Pow(base, n), Value(base, front), base);
    }
  }

  lemma Distributes(v: nat, p: nat, w: nat, base: Base)
    ensures (v * p + w) * base == v * (base * p) + w * base
  {
  }

  method ConsumeFraction(text: Text, p: nat, digits: array<nat>) returns (n: nat)
    requires p <= |text| && digits.Length == MAX_DIGITS
    modifies digits
    ensures n == DigitRun(text, p, MAX_DIGITS)
    ensures forall k :: 0 <= k < n ==> digits[k] == text[p + k] - ZERO
  {
    n := 0;
    while n < MAX_DIGITS && p + n < |text| && IsDigit(10, text[p + n])
      invariant n <= MAX_DIGITS && p + n <= |text|
      invariant forall k :: p <= k < p + n ==> IsDigit(10, text[k])
      invariant forall k :: 0 <= k < n ==> digits[k] == text[p + k] - ZERO
    {
      digits[n] := text[p + n] - ZERO;
      n := n + 1;
    }
    SliceDigits(text, p, n);
    RunIs(text, p, n, MAX_DIGITS);
  }

  /** The leading digits, from the back, in 32 bits. */
  method AccumulateFraction(digits: array<nat>, n: nat, ghost d: Text) returns (value: nat)
    requires n <= 9 && n <= digits.Length && |d| == n && AllDigits(10, d)
    requires forall k :: 0 <= k < n ==> digits[k] == d[k] - ZERO
    ensures value == Value(10, d)
  {
    value := 0;
    var place, i := 1, n;
    assert d[i..] == [];
    while i > 0
      invariant 0 <= i <= n && place == Pow(10, n - i) && value == Value(10, d[i..])
    {
      i := i - 1;
      assert d[i..][1..] == d[i + 1..] && d[i..][0] == d[i];
      value, place := AddDigit32(value, place, digits[i], d[i..]);
    }
    assert d[0..] == d;
  }

  method AddDigit32(value: nat, place: nat, digit: nat, ghost s: Text) returns (v: nat, p: nat)
    requires 0 < |s| <= 9 && AllDigits(10, s) && digit == s[0] - ZERO
    requires value == Value(10, s[1..]) && place == Pow(10, |s| - 1)
    ensures v == Value(10, s) && p == Pow(10, |s|)
  {
    SumFits32(s, place);
    PlaceFits32(|s|, place);
    v := Wrap32(value + Product(place, digit));
    p := Wrap32(place * 10);
  }

  lemma SumFits32(s: Text, place: nat)
    requires 0 < |s| <= 9 && AllDigits(10, s) && place == Pow(10, |s| - 1)
    ensures Wrap32(Value(10, s[1..]) + Product(place, s[0] - ZERO)) == Value(10, s)
  {
    SumFits(10, s, place);
    ValueIsBounded(10, s);
    PowTen();
    PowGrows(10, |s|, 9);
  }

  lemma PlaceFits32(n: nat, place: nat)
    requires 0 < n <= 9 && place == Pow(10, n - 1)
    ensures Wrap32(place * 10) == Pow(10, n)
  {
    PowTen();
    PowGrows(10, n, 9);
  }

  /** Nine digits in all, the missing ones zero. */
  method ScaleFraction(leading: nat, n: nat) returns (value: nat)
    requires leading < Pow(10, if n < 9 then n else 9)
    ensures value == leading * Pow(10, if n < 9 then 9 - n else 0)
  {
    value := leading;
    var i := n;
    while i < 9
      invariant n <= i && (i <= 9 || i == n)
      invariant value == leading * Pow(10, if n < 9 then i - n else 0)
      invariant value < Pow(10, if n < 9 then i else 9)
    {
      NextZero(leading, value, n, i);
      value := Wrap32(value * 10);
      i := i + 1;
    }
  }

  lemma NextZero(leading: nat, value: nat, n: nat, i: nat)
    requires n <= i < 9 && value == leading * Pow(10, i - n) && value < Pow(10, i)
    ensures Wrap32(value * 10) == value * 10 == leading * Pow(10, i + 1 - n) && value * 10 < Pow(10, i + 1)
  {
    PowTen();
    PowGrows(10, i + 1, 9);
    Distributes(leading, Pow(10, i - n), 0, 10);
  }

  method ParseFraction(text: Text, p: nat, partOfDateTime: bool) returns (r: Option<Parsed<nat>>)
    requires p <= |text|
    ensures r == ReadFraction(text, p, partOfDateTime)
  {
    var digits := new nat[MAX_DIGITS](_ => 0);
    var n := ConsumeFraction(text, p, digits);
    if !EndsFraction(text, p, n, partOfDateTime) {
      return None;
    }
    var value := FractionOf(digits, n, text[p..p + n]);
    return Some(Parsed(value, p + n));
  }

  predicate EndsFraction(text: Text, p: nat, n: nat, partOfDateTime: bool) {
    n > 0
    && (p + n < |text|
        ==> !(n == MAX_DIGITS && IsDigit(10, text[p + n])) && (partOfDateTime || IsValueTerminator(text[p + n])))
  }

  method FractionOf(digits: array<nat>, n: nat, ghost d: Text) returns (value: nat)
    requires n <= digits.Length && |d| == n && AllDigits(10, d)
    requires forall k :: 0 <= k < n ==> digits[k] == d[k] - ZERO
    ensures value == Nanoseconds(d)
  {
    var m := if n < 9 then n else 9;
    FractionTruncates(d);
    ValueIsBounded(10, d[..m]);
    value := AccumulateFraction(digits, m, d[..m]);
    value := ScaleFraction(value, n);
  }

  method ParseClock(text: Text, p: nat) returns (r: Option<Time>)
    ensures r == ReadClock(text, p)
  {
    var hour := ParseTwoDigits(text, p);
    if hour.None? || hour.value > 23 || p + 2 >= |text| || text[p + 2] != COLON {
      return None;
    }
    var minute := ParseTwoDigits(text, p + 3);
    if minute.None? || minute.value > 59 || p + 5 >= |text| || text[p + 5] != COLON {
      return None;
    }
    var second := ParseTwoDigits(text, p + 6);
    if second.None? || second.value > 59 {
      return None;
    }
    return Some(Time(hour.value, minute.value, second.value, 0));
  }

  method ParseTime(text: Text, p: nat, partOfDateTime: bool) returns (r: Option<Parsed<Time>>)
    ensures r == ReadTime(text, p, partOfDateTime)
  {
    var clock := ParseClock(text, p);
    if clock.None? {
      return None;
    }
    if Ends(text, p + 8) || (partOfDateTime && StartsOffset(text, p + 8)) {
      return Some(Parsed(clock.value, p + 8));
    }
    if text[p + 8] != POINT || p + 9 == |text| {
      return None;
    }
    var fraction := ParseFraction(text, p + 9, partOfDateTime);
    if fraction.None? {
      return None;
    }
    return Some(Parsed(clock.value.(nanosecond := fraction.value.value), fraction.value.next));
  }

  method ParseOffset(text: Text, p: nat) returns (r: Option<Parsed<int>>)
    requires p < |text| && IsSign(text[p])
    ensures r == ReadOffset(text, p)
  {
    var sign: int := if text[p] == DASH then -1 else 1;
    var hour := ParseTwoDigits(text, p + 1);
    if hour.None? || hour.value > 23 || p + 3 >= |text| || text[p + 3] != COLON {
      return None;
    }
    var minute := ParseTwoDigits(text, p + 4);
    if minute.None? || minute.value > 59 {
      return None;
    }
    return Some(Parsed((hour.value * 60 + minute.value) * sign, p + 6));
  }

  method ParseDateTime(text: Text, p: nat) returns (r: Option<Parsed<DateTime>>)
    ensures r == ReadDateTime(text, p)
  {
    var date := ParseDate(text, p, true);
    if date.None? || date.value.next >= |text| || text[date.value.next] !in {' ' as int, 'T' as int, 't' as int} {
      return None;
    }
    var time := ParseTime(text, date.value.next + 1, true);
    if time.None? {
      return None;
    }
    var zone := ParseZone(text, time.value.next);
    if zone.None? {
      return None;
    }
    return Some(Parsed(DateTime(date.value.value, time.value.value, zone.value.value), zone.value.next));
  }

  method ParseZone(text: Text, p: nat) returns (r: Option<Parsed<Option<int>>>)
    ensures r == ReadZone(text, p)
  {
    if p >= |text| || IsValueTerminator(text[p]) {
      return Some(Parsed(None, p));
    }
    var offset, next := 0, p;
    if text[p] == 'Z' as int || text[p] == 'z' as int {
      next := p + 1;
    } else if IsSign(text[p]) {
      var zone := ParseOffset(text, p);
      if zone.None? {
        return None;
      }
      offset, next := zone.value.value, zone.value.next;
    }
    if next < |text| && !IsValueTerminator(text[next]) {
      return None;
    }
    return Some(Parsed(Some(offset), next));
  }
}
