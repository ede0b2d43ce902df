/**
 * `validateDate` of includes/functions.php: `DateTime::createFromFormat('Y-m-d', $s)`
 * followed by `format('Y-m-d')`, and the string is accepted when the round
 * trip gives it back unchanged.
 *
 * `createFromFormat` is lenient: the year takes one to four digits, month
 * and day one or two, and out-of-range months and days do not fail but
 * overflow into the following months (2023-02-29 becomes 2023-03-01). The
 * round trip is what turns this lenient parser into a strict check.
 */
module Dates {
  import opened Wrappers
  import opened Php

  /** A year, month and day as parsed; not necessarily a calendar date. */
  datatype Date = Date(year: int, month: int, day: int)

  predicate IsLeap(y: int)
  {
    y % 4 == 0 && (y % 100 != 0 || y % 400 == 0)
  }

  function DaysInMonth(y: int, m: int): (n: int)
    requires 1 <= m <= 12
    ensures 28 <= n <= 31
  {
    if m == 2 then (if IsLeap(y) then 29 else 28)
    else if m == 4 || m == 6 || m == 9 || m == 11 then 30
    else 31
  }

  /** A real day of the proleptic Gregorian calendar. */
  predicate IsCalendarDate(d: Date)
  {
    1 <= d.month <= 12 && 1 <= d.day <= DaysInMonth(d.year, d.month)
  }

  // ---------------------------------------------------------------- parsing

  /** Up to `max` digits at the start of s, greedily, and what follows. */
  function TakeDigits(s: string, max: nat): (r: (string, string))
    ensures s == r.0 + r.1 && |r.0| <= max && AllDigits(r.0)
    ensures |r.0| == max || r.1 == [] || !IsDigit(r.1[0])
  {
    if max > 0 && s != [] && IsDigit(s[0]) then
      var t := TakeDigits(s[1..], max - 1);
      ([s[0]] + t.0, t.1)
    else ([], s)
  }

  /** A digit string that fills the field, or is followed by a non-digit,
      is read whole. */
  lemma {:induction false} TakeDigitsOf(d: string, rest: string, max: nat)
    requires AllDigits(d) && |d| <= max
    requires |d| == max || rest == [] || !IsDigit(rest[0])
    ensures TakeDigits(d + rest, max) == (d, rest)
  {
    var s := d + rest;
    if d != [] {
      assert s[0] == d[0] && s[1..] == d[1..] + rest;
      TakeDigitsOf(d[1..], rest, max - 1);
      assert [d[0]] + d[1..] == d;
    } else {
      assert s == rest;
    }
  }

  /** A digit run longer than the field leaves a digit behind. */
  lemma TakeDigitsLong(d: string, rest: string, max: nat)
    requires AllDigits(d) && |d| > max
    ensures var t := TakeDigits(d + rest, max); t.1 != [] && IsDigit(t.1[0])
  {
    var s := d + rest;
    var t := TakeDigits(s, max);
    var k := |t.0|;
    assert t.1 == s[k..];
    assert s[k] == d[k];
  }

  /** A numeric field of one to `max` digits, as `createFromFormat` reads it. */
  function Number(s: string, max: nat): Option<(nat, string)>
  {
    var t := TakeDigits(s, max);
    if t.0 == [] then None else Some((DigitsValue(t.0), t.1))
  }

  /** `createFromFormat('Y-m-d', s)`: the raw year, month and day, or None
      on unexpected or trailing data. */
  function Parse(s: string): (r: Option<Date>)
    ensures r.Some? ==> 0 <= r.value.year <= 9999 && 0 <= r.value.month <= 99 && 0 <= r.value.day <= 99
  {
    match Number(s, 4)
    case None => None
    case Some((y, r1)) =>
      if r1 == [] || r1[0] != '-' then None
      else
        match Number(r1[1..], 2)
        case None => None
        case Some((m, r2)) =>
          if r2 == [] || r2[0] != '-' then None
          else
            match Number(r2[1..], 2)
            case None => None
            case Some((d, r3)) =>
              if r3 != [] then None
              else
                assert y < 10000 by { DigitsBound(TakeDigits(s, 4).0, 4); }
                assert m < 100 && d < 100 by {
                  DigitsBound(TakeDigits(r1[1..], 2).0, 2);
                  DigitsBound(TakeDigits(r2[1..], 2).0, 2);
                }
                Some(Date(y, m, d))
  }

  lemma {:induction false} DigitsBound(s: string, k: nat)
    requires AllDigits(s) && |s| <= k
    ensures DigitsValue(s) < Pow10(k)
  {
    if s != [] {
      DigitsBound(s[..|s| - 1], k - 1);
    }
  }

  // ---------------------------------------------------------------- overflow

  /** Adds days beyond the end of a month into the following months. */
  function Forward(y: int, m: int, d: int): (r: Date)
    requires 1 <= m <= 12 && d >= 1
    ensures IsCalendarDate(r)
    decreases d
  {
    if d <= DaysInMonth(y, m) then Date(y, m, d)
    else if m == 12 then Forward(y + 1, 1, d - 31)
    else Forward(y, m + 1, d - DaysInMonth(y, m))
  }

  /** The date a parsed year, month and day stand for: the month is brought
      into 1..12 first, carrying into the year (month 0 is December of the
      year before), then day 0 is the last day of the previous month and a
      day past the month's end runs on into the next months. */
  function Normalize(raw: Date): (r: Date)
    requires 0 <= raw.month <= 99 && 0 <= raw.day <= 99
    ensures IsCalendarDate(r)
  {
    var t := raw.year * 12 + raw.month - 1;
    var y := t / 12;
    var m := t % 12 + 1;
    if raw.day == 0 then
      (if m == 1 then Date(y - 1, 12, 31) else Date(y, m - 1, DaysInMonth(y, m - 1)))
    else Forward(y, m, raw.day)
  }

  /** A calendar date needs no normalizing. */
  lemma NormalizeCalendar(d: Date)
    requires IsCalendarDate(d)
    ensures Normalize(d) == d
  {
    var t := d.year * 12 + d.month - 1;
    assert t / 12 == d.year && t % 12 + 1 == d.month;
  }

  // ---------------------------------------------------------------- formatting

  /** A two-digit field, zero-padded. */
  function Two(n: nat): (s: string)
    requires n < 100
    ensures |s| == 2 && AllDigits(s) && DigitsValue(s) == n
  {
    var s := PadLeft(NatText(n), 2, '0');
    TwoDigits(n, s);
    s
  }

  lemma TwoDigits(n: nat, s: string)
    requires n < 100 && s == PadLeft(NatText(n), 2, '0')
    ensures |s| == 2 && AllDigits(s) && DigitsValue(s) == n
  {
    NatTextLength(n, 2);
    var z := s[..|s| - |NatText(n)|];
    assert s == z + NatText(n);
    LeadingZerosValue(z, NatText(n));
    NatTextValue(n);
  }

  /** `format('Y')`: at least four digits, with a minus sign before a year
      before year 0. */
  function YearText(y: int): (s: string)
    ensures s != []
  {
    if y < 0 then "-" + PadLeft(NatText(-y), 4, '0') else PadLeft(NatText(y), 4, '0')
  }

  /** `format('Y-m-d')`. */
  function Format(d: Date): string
    requires 0 <= d.month < 100 && 0 <= d.day < 100
  {
    YearText(d.year) + ("-" + (Two(d.month) + ("-" + Two(d.day))))
  }

  /** An in-range year is exactly four digits with its value. */
  lemma FourDigitYear(y: int)
    requires 0 <= y <= 9999
    ensures |YearText(y)| == 4 && AllDigits(YearText(y)) && DigitsValue(YearText(y)) == y
  {
    var s := YearText(y);
    NatTextLength(y, 4);
    var z := s[..|s| - |NatText(y)|];
    assert s == z + NatText(y);
    LeadingZerosValue(z, NatText(y));
    NatTextValue(y);
  }

  /** A field of one to `max` digits followed by a non-digit is read whole. */
  lemma NumberOf(d: string, rest: string, max: nat)
    requires AllDigits(d) && 1 <= |d| <= max
    requires |d| == max || rest == [] || !IsDigit(rest[0])
    ensures Number(d + rest, max) == Some((DigitsValue(d), rest))
  {
    TakeDigitsOf(d, rest, max);
  }

  /** Four year digits, two month digits and two day digits joined by '-'
      parse to their values. */
  lemma ParseFields(y: string, m: string, d: string)
    requires |y| == 4 && |m| == 2 && |d| == 2
    requires AllDigits(y) && AllDigits(m) && AllDigits(d)
    ensures Parse(y + ("-" + (m + ("-" + d)))) == Some(Date(DigitsValue(y), DigitsValue(m), DigitsValue(d)))
  {
    var last := "-" + d;
    var tail := "-" + (m + last);
    NumberOf(y, tail, 4);
    assert tail[1..] == m + last;
    NumberOf(m, last, 2);
    assert last[1..] == d + [];
    NumberOf(d, [], 2);
  }

  /** Digit strings of one length with one value are the same string. */
  lemma {:induction false} DigitsInjective(a: string, b: string)
    requires |a| == |b| && AllDigits(a) && AllDigits(b)
    requires DigitsValue(a) == DigitsValue(b)
    ensures a == b
  {
    if a != [] {
      var a', b' := a[..|a| - 1], b[..|b| - 1];
      var x, y := DigitValue(a[|a| - 1]), DigitValue(b[|b| - 1]);
      assert DigitsValue(a) == DigitsValue(a') * 10 + x;
      assert DigitsValue(b) == DigitsValue(b') * 10 + y;
      assert x == y && DigitsValue(a') == DigitsValue(b') by { DivMod10(DigitsValue(a'), x, DigitsValue(b'), y); }
      DigitsInjective(a', b');
      assert a == a' + [a[|a| - 1]] && b == b' + [b[|b| - 1]];
    }
  }

  lemma DivMod10(p: nat, x: nat, q: nat, y: nat)
    requires x < 10 && y < 10 && p * 10 + x == q * 10 + y
    ensures x == y && p == q
  {
  }

  /** `format` writes any date back with these fields exactly as given. */
  lemma FormatFields(y: string, m: string, d: string)
    requires |y| == 4 && |m| == 2 && |d| == 2
    requires AllDigits(y) && AllDigits(m) && AllDigits(d)
    ensures DigitsValue(m) < 100 && DigitsValue(d) < 100
    ensures Format(Date(DigitsValue(y), DigitsValue(m), DigitsValue(d))) == y + ("-" + (m + ("-" + d)))
  {
    DigitsBound(y, 4);
    DigitsBound(m, 2);
    DigitsBound(d, 2);
    assert Pow10(2) == 100 && Pow10(4) == 10000;
    FourDigitYear(DigitsValue(y));
    DigitsInjective(YearText(DigitsValue(y)), y);
    DigitsInjective(Two(DigitsValue(m)), m);
    DigitsInjective(Two(DigitsValue(d)), d);
  }

  /** Reading back what `format` wrote gives the same fields, as long as the
      year fits the four digits `createFromFormat` reads. */
  lemma ParseFormat(d: Date)
    requires 0 <= d.month < 100 && 0 <= d.day < 100
    ensures Parse(Format(d)) == if 0 <= d.year <= 9999 then Some(d) else None
  {
    var y := YearText(d.year);
    var tail := "-" + (Two(d.month) + ("-" + Two(d.day)));
    assert Format(d) == y + tail;
    if d.year < 0 {
      assert (y + tail)[0] == '-';
      ParseDash(y + tail);
    } else if d.year > 9999 {
      NatTextLength(d.year, 4);
      assert y == NatText(d.year);
      ParseLongYear(y, tail);
    } else {
      FourDigitYear(d.year);
      ParseFields(y, Two(d.month), Two(d.day));
    }
  }

  /** A leading minus sign is unexpected data for 'Y'. */
  lemma ParseDash(s: string)
    requires s != [] && s[0] == '-'
    ensures Parse(s) == None
  {
    assert TakeDigits(s, 4).0 == [];
  }

  /** A year of five or more digits leaves a digit where '-' is expected. */
  lemma ParseLongYear(y: string, tail: string)
    requires AllDigits(y) && |y| > 4
    ensures Parse(y + tail) == None
  {
    TakeDigitsLong(y, tail, 4);
  }

  // ---------------------------------------------------------------- validateDate

  /** `validateDate($s)`. */
  predicate ValidateDate(s: string)
  {
    match Parse(s)
    case None => false
    case Some(raw) => Format(Normalize(raw)) == s
  }

  /** An accepted date is at least `Y-mm-dd` long. */
  lemma ValidatedLength(s: string)
    requires ValidateDate(s)
    ensures |s| >= 7
  {
    var d := Normalize(Parse(s).value);
    assert |Format(d)| == |YearText(d.year)| + 6;
  }

  /** Every calendar date of years 0 to 9999, written `YYYY-MM-DD`, passes. */
  lemma ValidateDateAccepts(d: Date)
    requires IsCalendarDate(d) && 0 <= d.year <= 9999
    ensures ValidateDate(Format(d))
  {
    ParseFormat(d);
    NormalizeCalendar(d);
  }

  /** A string passes exactly when it is the `YYYY-MM-DD` text of the
      calendar date it parses to: no overflowed day or month, no one-digit
      field, no trailing text. */
  lemma ValidateDateExact(s: string)
    ensures ValidateDate(s) <==> Parse(s).Some? && IsCalendarDate(Parse(s).value) && s == Format(Parse(s).value)
  {
    if ValidateDate(s) {
      var raw := Parse(s).value;
      ParseFormat(Normalize(raw));
    } else if Parse(s).Some? && IsCalendarDate(Parse(s).value) {
      NormalizeCalendar(Parse(s).value);
    }
  }

  /** February 29 passes in a leap year, */
  lemma LeapDayAccepted(y: int)
    requires 0 <= y <= 9999 && IsLeap(y)
    ensures ValidateDate(Format(Date(y, 2, 29)))
  {
    ValidateDateAccepts(Date(y, 2, 29));
  }

  /** and fails in a common year, where it overflows to March 1. */
  lemma NonLeapDayRejected(y: int)
    requires 0 <= y <= 9999 && !IsLeap(y)
    ensures !ValidateDate(Format(Date(y, 2, 29)))
    ensures Normalize(Date(y, 2, 29)) == Date(y, 3, 1)
  {
    RejectsNonCalendar(Date(y, 2, 29));
  }

  /** Month 13 fails; it overflows into January of the next year. */
  lemma MonthThirteenRejected(y: int, day: int)
    requires 0 <= y <= 9999 && 1 <= day <= 31
    ensures !ValidateDate(Format(Date(y, 13, day)))
    ensures Normalize(Date(y, 13, day)) == Date(y + 1, 1, day)
  {
    RejectsNonCalendar(Date(y, 13, day));
    MonthCarry(y, day);
  }

  lemma MonthCarry(y: int, day: int)
    requires 1 <= day <= 31
    ensures Normalize(Date(y, 13, day)) == Date(y + 1, 1, day)
  {
    var t := y * 12 + 13 - 1;
    assert t == (y + 1) * 12 + 0;
    DivMod12(y + 1, 0);
    assert t / 12 == y + 1 && t % 12 + 1 == 1;
    assert Forward(y + 1, 1, day) == Date(y + 1, 1, day);
  }

  lemma DivMod12(q: int, r: int)
    requires 0 <= r < 12
    ensures (q * 12 + r) / 12 == q && (q * 12 + r) % 12 == r
  {
  }

  /** The text of a date that is not on the calendar never passes. */
  lemma RejectsNonCalendar(d: Date)
    requires 0 <= d.year <= 9999 && 0 <= d.month < 100 && 0 <= d.day < 100
    requires !IsCalendarDate(d)
    ensures !ValidateDate(Format(d))
  {
    ParseFormat(d);
    ValidateDateExact(Format(d));
  }
}
