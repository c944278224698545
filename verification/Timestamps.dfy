/**
 The client compares reply timestamps as strings.  The server formats them to whole
 seconds in UTC with fixed-width fields, so the comparison of strings is the comparison
 of dates, and that of the seconds the dates stand for.
 */
module Timestamps {
  import opened Records
  import opened Sorting

  // A UTC date to the second, with a year of four digits.
  datatype Civil = Civil(year: nat, month: nat, day: nat, hour: nat, minute: nat, second: nat)

  predicate InRange(c: Civil) {
    c.year < 10000 && c.month < 100 && c.day < 100 && c.hour < 100 && c.minute < 100 && c.second < 100
  }

  // Earlier in time: the first field that differs decides.
  predicate Earlier(a: Civil, b: Civil) {
    if a.year != b.year then a.year < b.year
    else if a.month != b.month then a.month < b.month
    else if a.day != b.day then a.day < b.day
    else if a.hour != b.hour then a.hour < b.hour
    else if a.minute != b.minute then a.minute < b.minute
    else a.second < b.second
  }

  function Digits(n: nat, width: nat): (r: string)
    ensures |r| == width
    decreases width
  {
    if width == 0 then "" else Digits(n / 10, width - 1) + ['0' + (n % 10) as char]
  }

  // time.RFC3339 in UTC: yyyy-mm-ddThh:mm:ssZ.
  function Format(c: Civil): string {
    Digits(c.year, 4) + ("-" + (Digits(c.month, 2) + ("-" + (Digits(c.day, 2) + ("T" + (Digits(c.hour, 2) + (":" +
      (Digits(c.minute, 2) + (":" + (Digits(c.second, 2) + "Z"))))))))))
  }

  function Pow10(width: nat): nat {
    if width == 0 then 1 else 10 * Pow10(width - 1)
  }

  // Fixed-width numbers compare as text the way they compare as numbers.
  lemma {:induction false} DigitsCompare(n: nat, m: nat, width: nat, x: string, y: string)
    requires n < Pow10(width) && m < Pow10(width)
    ensures TextLess(Digits(n, width) + x, Digits(m, width) + y) <==> n < m || (n == m && TextLess(x, y))
    decreases width
  {
    if width == 0 {
      assert Digits(n, 0) + x == x && Digits(m, 0) + y == y;
    } else {
      var d, e := '0' + (n % 10) as char, '0' + (m % 10) as char;
      assert Digits(n, width) + x == Digits(n / 10, width - 1) + ([d] + x);
      assert Digits(m, width) + y == Digits(m / 10, width - 1) + ([e] + y);
      DigitsCompare(n / 10, m / 10, width - 1, [d] + x, [e] + y);
      SameFirst(d, x, e, y);
    }
  }

  lemma SameFirst(d: char, x: string, e: char, y: string)
    ensures TextLess([d] + x, [e] + y) <==> d < e || (d == e && TextLess(x, y))
  {
  }

  // A field and the mark after it.
  lemma FieldCompare(n: nat, m: nat, width: nat, mark: char, x: string, y: string)
    requires n < Pow10(width) && m < Pow10(width)
    ensures TextLess(Digits(n, width) + ([mark] + x), Digits(m, width) + ([mark] + y)) <==>
            n < m || (n == m && TextLess(x, y))
  {
    DigitsCompare(n, m, width, [mark] + x, [mark] + y);
    SameFirst(mark, x, mark, y);
  }

  lemma Powers()
    ensures Pow10(2) == 100 && Pow10(4) == 10000
  {
  }

  // One reply timestamp is less than another as a string exactly when it is earlier.
  lemma {:induction false} StringOrderIsTimeOrder(a: Civil, b: Civil)
    requires InRange(a) && InRange(b)
    ensures TextLess(Format(a), Format(b)) <==> Earlier(a, b)
  {
    Powers();
    var sa, sb := Digits(a.second, 2) + "Z", Digits(b.second, 2) + "Z";
    var ma, mb := Digits(a.minute, 2) + (":" + sa), Digits(b.minute, 2) + (":" + sb);
    var ha, hb := Digits(a.hour, 2) + (":" + ma), Digits(b.hour, 2) + (":" + mb);
    var da, db := Digits(a.day, 2) + ("T" + ha), Digits(b.day, 2) + ("T" + hb);
    var na, nb := Digits(a.month, 2) + ("-" + da), Digits(b.month, 2) + ("-" + db);
    DigitsCompare(a.second, b.second, 2, "Z", "Z");
    assert !TextLess("Z", "Z") by { assert !TextLess("", ""); }
    FieldCompare(a.minute, b.minute, 2, ':', sa, sb);
    FieldCompare(a.hour, b.hour, 2, ':', ma, mb);
    FieldCompare(a.day, b.day, 2, 'T', ha, hb);
    FieldCompare(a.month, b.month, 2, '-', da, db);
    FieldCompare(a.year, b.year, 4, '-', na, nb);
  }

  /******* The calendar *******/

  const SECONDS_PER_DAY := 86_400

  predicate Leap(year: nat) {
    year % 4 == 0 && (year % 100 != 0 || year % 400 == 0)
  }

  function YearLength(year: nat): nat {
    if Leap(year) then 366 else 365
  }

  function MonthLength(leap: bool, month: nat): nat {
    if month == 2 then (if leap then 29 else 28)
    else if month in {4, 6, 9, 11} then 30 else 31
  }

  // The year, from `year` on, in which the day falls, and the day within it.
  function YearOf(day: nat, year: nat): (r: (nat, nat))
    ensures r.1 < YearLength(r.0)
    decreases day
  {
    if day < YearLength(year) then (year, day) else YearOf(day - YearLength(year), year + 1)
  }

  // The days from the start of a month to the end of its year.
  function DaysFrom(leap: bool, month: nat): nat
    requires 1 <= month <= 13
    decreases 13 - month
  {
    if month == 13 then 0 else MonthLength(leap, month) + DaysFrom(leap, month + 1)
  }

  // The month, from `month` on, and the day within it.
  function MonthOf(day: nat, leap: bool, month: nat): (r: (nat, nat))
    requires 1 <= month <= 12 && day < DaysFrom(leap, month)
    ensures month <= r.0 <= 12 && r.1 < MonthLength(leap, r.0)
    decreases 13 - month
  {
    if day < MonthLength(leap, month) then (month, day) else MonthOf(day - MonthLength(leap, month), leap, month + 1)
  }

  lemma MonthsFillTheYear(leap: bool)
    ensures DaysFrom(leap, 1) == if leap then 366 else 365
  {
    assert DaysFrom(leap, 11) == 61;
    assert DaysFrom(leap, 9) == 122;
    assert DaysFrom(leap, 7) == 184;
    assert DaysFrom(leap, 5) == 245;
    assert DaysFrom(leap, 3) == 306;
  }

  // The UTC date of a second counted from the start of year 1.
  function CivilOf(second: nat): (c: Civil)
    ensures c.month <= 12 && c.day <= 31 && c.hour < 24 && c.minute < 60 && c.second < 60
  {
    var (year, dayOfYear) := YearOf(second / SECONDS_PER_DAY, 1);
    MonthsFillTheYear(Leap(year));
    var (month, day) := MonthOf(dayOfYear, Leap(year), 1);
    var time := second % SECONDS_PER_DAY;
    Civil(year, month, day + 1, time / 3600, time / 60 % 60, time % 60)
  }

  lemma {:induction false} YearsAscend(d: nat, e: nat, year: nat)
    requires d < e
    ensures YearOf(d, year).0 < YearOf(e, year).0 || (YearOf(d, year).0 == YearOf(e, year).0 && YearOf(d, year).1 < YearOf(e, year).1)
    decreases d
  {
    if d < YearLength(year) {
      YearsStart(e, year);
    } else {
      YearsAscend(d - YearLength(year), e - YearLength(year), year + 1);
    }
  }

  lemma {:induction false} YearsStart(e: nat, year: nat)
    ensures YearOf(e, year).0 >= year
    ensures YearOf(e, year).0 == year ==> YearOf(e, year).1 == e
    decreases e
  {
    if e >= YearLength(year) {
      YearsStart(e - YearLength(year), year + 1);
    }
  }

  lemma {:induction false} MonthsAscend(d: nat, e: nat, leap: bool, month: nat)
    requires 1 <= month <= 12 && d < e < DaysFrom(leap, month)
    ensures var (m, x) := MonthOf(d, leap, month);
      var (n, y) := MonthOf(e, leap, month);
      m < n || (m == n && x < y)
    decreases 13 - month
  {
    if d >= MonthLength(leap, month) {
      MonthsAscend(d - MonthLength(leap, month), e - MonthLength(leap, month), leap, month + 1);
    }
  }

  lemma TimesAscend(t: nat, u: nat)
    requires t < u
    ensures t / 3600 < u / 3600 || (t / 3600 == u / 3600 &&
            (t / 60 % 60 < u / 60 % 60 || (t / 60 % 60 == u / 60 % 60 && t % 60 < u % 60)))
  {
    assert t == t / 3600 * 3600 + t / 60 % 60 * 60 + t % 60;
    assert u == u / 3600 * 3600 + u / 60 % 60 * 60 + u % 60;
  }

  // The calendar runs forward.
  lemma {:induction false} CivilAscends(s: nat, t: nat)
    requires s < t
    ensures Earlier(CivilOf(s), CivilOf(t))
  {
    var d, e := s / SECONDS_PER_DAY, t / SECONDS_PER_DAY;
    if d == e {
      TimesAscend(s % SECONDS_PER_DAY, t % SECONDS_PER_DAY);
    } else {
      YearsAscend(d, e, 1);
      var (year, x) := YearOf(d, 1);
      var (year', y) := YearOf(e, 1);
      MonthsFillTheYear(Leap(year));
      if year == year' {
        MonthsAscend(x, y, Leap(year), 1);
      }
    }
  }

  // A reply timestamp.
  function Stamp(t: Instant): string
    requires 0 <= t
  {
    Format(CivilOf(WholeSecond(t)))
  }

  predicate FourDigitYear(t: Instant)
    requires 0 <= t
  {
    CivilOf(WholeSecond(t)).year < 10000
  }

  // The comparison the merge makes of two reply timestamps, as strings, is the one of the
  // whole seconds.
  lemma StampsCompareAsSeconds(a: Instant, b: Instant)
    requires 0 <= a && 0 <= b && FourDigitYear(a) && FourDigitYear(b)
    ensures TextLess(Stamp(a), Stamp(b)) <==> WholeSecond(a) < WholeSecond(b)
    ensures Stamp(a) == Stamp(b) <==> WholeSecond(a) == WholeSecond(b)
  {
    var s, t := WholeSecond(a), WholeSecond(b);
    StringOrderIsTimeOrder(CivilOf(s), CivilOf(t));
    StringOrderIsTimeOrder(CivilOf(t), CivilOf(s));
    TextOrderIsTotal(Stamp(a), Stamp(b));
    if s < t {
      CivilAscends(s, t);
    } else if t < s {
      CivilAscends(t, s);
    }
  }
}
