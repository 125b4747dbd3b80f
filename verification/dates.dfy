/** Calendar dates as the model sees them. JavaScript `Date` objects become a
    proleptic Gregorian (year, month, day) triple, and an instant is a date plus
    an opaque clock reading; `EpochDay` turns a date into the integer day
    number the timeline works with. */
module Dates {

  /** A calendar date; `month` is 1..12 and `day` is the day of the month. */
  datatype Date = Date(year: int, month: int, day: int)

  /** A moment in time: the calendar date it falls on, and an opaque clock
      value standing for the rest of the ISO timestamp. */
  datatype Instant = Instant(date: Date, clock: int)

  predicate IsLeapYear(y: int) {
    y % 4 == 0 && (y % 100 != 0 || y % 400 == 0)
  }

  function DaysInMonth(y: int, m: int): (n: int)
    requires 1 <= m <= 12
    ensures 28 <= n <= 31
    ensures n == 29 <==> m == 2 && IsLeapYear(y)
  {
    if m == 2 then (if IsLeapYear(y) then 29 else 28)
    else if m == 4 || m == 6 || m == 9 || m == 11 then 30
    else 31
  }

  predicate Valid(d: Date) {
    1 <= d.month <= 12 && 1 <= d.day <= DaysInMonth(d.year, d.month)
  }

  /** The calendar day after `d`, rolling over month and year ends. */
  function NextDate(d: Date): (r: Date)
    requires Valid(d)
    ensures Valid(r)
    ensures r.year == d.year || (r.year == d.year + 1 && r.month == 1 && r.day == 1)
  {
    if d.day < DaysInMonth(d.year, d.month) then Date(d.year, d.month, d.day + 1)
    else if d.month < 12 then Date(d.year, d.month + 1, 1)
    else Date(d.year + 1, 1, 1)
  }

  /** Days from 1 March of year 0 to 1 March of year `y` (a "shifted" year
      runs from March to the end of the following February, so the leap day
      is its last day). */
  function ShiftedYearStart(y: int): int {
    var era := y / 400;
    var yoe := y % 400;
    era * 146097 + yoe * 365 + yoe / 4 - yoe / 100
  }

  /** Days from 1 March to the first day of the month `mp` months later. */
  function MonthStart(mp: int): int {
    (153 * mp + 2) / 5
  }

  /** Months counted from March: March is 0, ..., February is 11. */
  function MonthIndex(m: int): int {
    if m > 2 then m - 3 else m + 9
  }

  /** Number of days between 1970-01-01 and `d` (negative before it). */
  function EpochDay(d: Date): int {
    var y := if d.month <= 2 then d.year - 1 else d.year;
    var mp := MonthIndex(d.month);
    ShiftedYearStart(y) + MonthStart(mp) + d.day - 1 - 719468
  }

  /** Integer division by a positive constant steps up by one exactly at its
      multiples. */
  lemma DivStep4(r: int)
    ensures r / 4 - (r - 1) / 4 == if r % 4 == 0 then 1 else 0
  {
    var a, b := (r - 1) / 4, (r - 1) % 4;
    assert r == 4 * a + b + 1;
    if b == 3 {
      assert r / 4 == a + 1 && r % 4 == 0;
    } else {
      assert r / 4 == a && r % 4 == b + 1;
    }
  }

  lemma DivStep100(r: int)
    ensures r / 100 - (r - 1) / 100 == if r % 100 == 0 then 1 else 0
  {
    var a, b := (r - 1) / 100, (r - 1) % 100;
    assert r == 100 * a + b + 1;
    if b == 99 {
      assert r / 100 == a + 1 && r % 100 == 0;
    } else {
      assert r / 100 == a && r % 100 == b + 1;
    }
  }

  /** The leap-year test only depends on the year's position in its
      400-year era. */
  lemma LeapYearInEra(y: int)
    ensures y % 4 == (y % 400) % 4
    ensures y % 100 == (y % 400) % 100
  {
    FourInEra(y);
    HundredInEra(y);
  }

  lemma FourInEra(y: int)
    ensures y % 4 == (y % 400) % 4
  {
    var q, r := y / 400, y % 400;
    var b, a := r / 4, r % 4;
    assert y == 4 * (100 * q + b) + a;
    RemainderOf4(y, 100 * q + b, a);
  }

  lemma HundredInEra(y: int)
    ensures y % 100 == (y % 400) % 100
  {
    var q, r := y / 400, y % 400;
    var b, a := r / 100, r % 100;
    assert y == 100 * (4 * q + b) + a;
    RemainderOf100(y, 4 * q + b, a);
  }

  /** The remainder by 4 is the `a` of any decomposition `x == 4 * k + a`
      with `0 <= a < 4`. */
  lemma RemainderOf4(x: int, k: int, a: int)
    requires x == 4 * k + a && 0 <= a < 4
    ensures x % 4 == a
  {
    var k', a' := x / 4, x % 4;
    assert 4 * (k - k') == a' - a;
  }

  /** The remainder by 100 is the `a` of any decomposition
      `x == 100 * k + a` with `0 <= a < 100`. */
  lemma RemainderOf100(x: int, k: int, a: int)
    requires x == 100 * k + a && 0 <= a < 100
    ensures x % 100 == a
  {
    var k', a' := x / 100, x % 100;
    assert 100 * (k - k') == a' - a;
  }

  /** Stepping back one year moves back one place in the era, or into the
      last year of the previous era. */
  lemma PreviousYearInEra(y: int)
    ensures y % 400 != 0 ==> (y - 1) / 400 == y / 400 && (y - 1) % 400 == y % 400 - 1
    ensures y % 400 == 0 ==> (y - 1) / 400 == y / 400 - 1 && (y - 1) % 400 == 399
  {
  }

  /** Consecutive shifted years differ by the length of the second one's
      February end: 365 days, plus one when `y` is a leap year. */
  lemma ShiftedYearLength(y: int)
    ensures ShiftedYearStart(y) - ShiftedYearStart(y - 1) == if IsLeapYear(y) then 366 else 365
  {
    var q, r := y / 400, y % 400;
    LeapYearInEra(y);
    PreviousYearInEra(y);
    if r == 0 {
      assert ShiftedYearStart(y) == q * 146097;
      assert ShiftedYearStart(y - 1) == (q - 1) * 146097 + 399 * 365 + 99 - 3;
    } else {
      DivStep4(r);
      DivStep100(r);
      assert IsLeapYear(y) <==> r % 4 == 0 && r % 100 != 0;
    }
  }

  /** In the March-based month count, a month other than February is
      followed by one that starts its length in days later. */
  lemma MonthStartStep(y: int, m: int)
    requires 1 <= m <= 12 && m != 2
    ensures var next := if m == 12 then 1 else m + 1;
      MonthStart(MonthIndex(next)) - MonthStart(MonthIndex(m)) == DaysInMonth(y, m)
  {
    if m == 1 {
      assert MonthStart(11) - MonthStart(10) == 31;
    } else if m == 3 {
      assert MonthStart(1) - MonthStart(0) == 31;
    } else if m == 4 {
      assert MonthStart(2) - MonthStart(1) == 30;
    } else if m == 5 {
      assert MonthStart(3) - MonthStart(2) == 31;
    } else if m == 6 {
      assert MonthStart(4) - MonthStart(3) == 30;
    } else if m == 7 {
      assert MonthStart(5) - MonthStart(4) == 31;
    } else if m == 8 {
      assert MonthStart(6) - MonthStart(5) == 31;
    } else if m == 9 {
      assert MonthStart(7) - MonthStart(6) == 30;
    } else if m == 10 {
      assert MonthStart(8) - MonthStart(7) == 31;
    } else if m == 11 {
      assert MonthStart(9) - MonthStart(8) == 30;
    } else {
      assert MonthStart(10) - MonthStart(9) == 31;
    }
  }

  /** The day number of the next calendar date is one more: `EpochDay`
      numbers the days of the calendar without gaps, across month ends,
      February 28/29 and year ends. */
  lemma EpochDayNext(d: Date)
    requires Valid(d)
    ensures EpochDay(NextDate(d)) == EpochDay(d) + 1
  {
    if d.day < DaysInMonth(d.year, d.month) {
      EpochDaySameMonth(d, NextDate(d));
    } else if d.month == 2 {
      EpochDayAfterFebruary(d);
    } else {
      EpochDayAfterMonthEnd(d);
    }
  }

  /** The last day of February is followed by 1 March, one day later. */
  lemma EpochDayAfterFebruary(d: Date)
    requires Valid(d) && d.month == 2 && d.day == DaysInMonth(d.year, 2)
    ensures EpochDay(Date(d.year, 3, 1)) == EpochDay(d) + 1
  {
    ShiftedYearLength(d.year);
    assert EpochDay(d) == ShiftedYearStart(d.year - 1) + 337 + d.day - 1 - 719468;
    assert EpochDay(Date(d.year, 3, 1)) == ShiftedYearStart(d.year) - 719468;
  }

  /** The last day of any other month is followed by the first of the next
      month (or of January), one day later. */
  lemma EpochDayAfterMonthEnd(d: Date)
    requires Valid(d) && d.month != 2 && d.day == DaysInMonth(d.year, d.month)
    ensures EpochDay(NextDate(d)) == EpochDay(d) + 1
  {
    MonthStartStep(d.year, d.month);
    var y := if d.month == 1 then d.year - 1 else d.year;
    var next := if d.month == 12 then 1 else d.month + 1;
    var start := ShiftedYearStart(y);
    assert EpochDay(d) == start + MonthStart(MonthIndex(d.month)) + d.day - 1 - 719468;
    assert EpochDay(NextDate(d)) == start + MonthStart(MonthIndex(next)) - 719468;
  }

  /** Day numbers of two dates in the same month differ by the difference of
      their days of the month. */
  lemma EpochDaySameMonth(a: Date, b: Date)
    requires a.year == b.year && a.month == b.month
    ensures EpochDay(b) - EpochDay(a) == b.day - a.day
  {
  }
}
