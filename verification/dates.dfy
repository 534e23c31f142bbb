/** Proleptic Gregorian calendar dates and naive date-times, as Python's
    `datetime` module represents them: years 1 to 9999, ordinals counted
    from 0001-01-01 (ordinal 1, a Monday), English month and weekday names. */
module Dates {

  const MinYear := 1
  const MaxYear := 9999
  const MicrosPerDay := 86_400_000_000

  datatype Date = Date(year: int, month: int, day: int)

  /** A naive date-time: a date and the microseconds elapsed since its midnight. */
  datatype Moment = Moment(date: Date, micros: int)

  const MaxDate := Date(MaxYear, 12, 31)

  const MonthNames: seq<string> := ["January", "February", "March", "April", "May", "June",
                                    "July", "August", "September", "October", "November", "December"]

  /** Weekday names indexed like Python's `weekday()`: Monday is 0. */
  const WeekdayNames: seq<string> := ["Monday", "Tuesday", "Wednesday", "Thursday",
                                      "Friday", "Saturday", "Sunday"]

  predicate IsLeapYear(y: int) {
    y % 4 == 0 && (y % 100 != 0 || y % 400 == 0)
  }

  function DaysInMonth(y: int, m: int): int
    requires 1 <= m <= 12
  {
    if m == 2 then (if IsLeapYear(y) then 29 else 28)
    else if m == 4 || m == 6 || m == 9 || m == 11 then 30
    else 31
  }

  function DaysInYear(y: int): int {
    if IsLeapYear(y) then 366 else 365
  }

  predicate ValidDate(d: Date) {
    && MinYear <= d.year <= MaxYear
    && 1 <= d.month <= 12
    && 1 <= d.day <= DaysInMonth(d.year, d.month)
  }

  predicate ValidMoment(t: Moment) {
    ValidDate(t.date) && 0 <= t.micros < MicrosPerDay
  }

  predicate AllValid(ds: seq<Date>) {
    forall i :: 0 <= i < |ds| ==> ValidDate(ds[i])
  }

  /** Midnight at the start of a date: what `datetime(y, m, d)` builds. */
  function Midnight(d: Date): Moment {
    Moment(d, 0)
  }

  /** Strict chronological order of dates (Python's `date < date`). */
  predicate Before(a: Date, b: Date) {
    || a.year < b.year
    || (a.year == b.year && a.month < b.month)
    || (a.year == b.year && a.month == b.month && a.day < b.day)
  }

  /** Python's `datetime <= datetime`: the date first, then the time of day. */
  predicate AtOrBefore(a: Moment, b: Moment) {
    Before(a.date, b.date) || (a.date == b.date && a.micros <= b.micros)
  }

  /** The date one day later (`+ timedelta(days=1)`), defined below 9999-12-31. */
  function NextDay(d: Date): (r: Date)
    requires ValidDate(d) && d != MaxDate
    ensures ValidDate(r)
    ensures Before(d, r)
    ensures forall x :: ValidDate(x) && Before(d, x) ==> !Before(x, r)
  {
    if d.day < DaysInMonth(d.year, d.month) then Date(d.year, d.month, d.day + 1)
    else if d.month < 12 then Date(d.year, d.month + 1, 1)
    else Date(d.year + 1, 1, 1)
  }

  /** `datetime(y, m, d)`: None where Python raises ValueError. */
  function MakeDate(y: int, m: int, d: int): (r: Option<Date>)
    ensures r.Some? <==> MinYear <= y <= MaxYear && 1 <= m <= 12 && 1 <= d <= DaysInMonth(y, m)
    ensures r.Some? ==> ValidDate(r.value) && r.value.year == y && r.value.month == m && r.value.day == d
  {
    if MinYear <= y <= MaxYear && 1 <= m <= 12 && 1 <= d <= DaysInMonth(y, m) then Some(Date(y, m, d))
    else None
  }

  datatype Option<T> = None | Some(value: T)

  function DaysBeforeYear(y: int): int
    requires y >= 1
  {
    var p := y - 1;
    365 * p + p / 4 - p / 100 + p / 400
  }

  function DaysBeforeMonth(y: int, m: int): nat
    requires 1 <= m <= 12
  {
    if m == 1 then 0 else DaysBeforeMonth(y, m - 1) + DaysInMonth(y, m - 1)
  }

  /** Python's `date.toordinal()`: 0001-01-01 has ordinal 1. */
  function Ordinal(d: Date): int
    requires ValidDate(d)
  {
    DaysBeforeYear(d.year) + DaysBeforeMonth(d.year, d.month) + d.day
  }

  /** Python's `date.weekday()`: Monday is 0, Sunday is 6. */
  function Weekday(d: Date): (w: int)
    requires ValidDate(d)
    ensures 0 <= w < 7
  {
    (Ordinal(d) + 6) % 7
  }

  /** `strftime('%B')` in an English locale. */
  function MonthName(m: int): string
    requires 1 <= m <= 12
  {
    MonthNames[m - 1]
  }

  /** `strftime('%A')` in an English locale. */
  function WeekdayName(d: Date): string
    requires ValidDate(d)
  {
    WeekdayNames[Weekday(d)]
  }

  /** One more multiple of `k` lies in 1..p+1 than in 1..p exactly when k divides p + 1. */
  lemma DivStep(p: nat, k: int)
    requires k == 4 || k == 100 || k == 400
    ensures (p + 1) / k == p / k + (if (p + 1) % k == 0 then 1 else 0)
  {
    if k == 4 {
      var q, r := p / 4, p % 4;
      assert p == 4 * q + r;
    } else if k == 100 {
      var q, r := p / 100, p % 100;
      assert p == 100 * q + r;
    } else {
      var q, r := p / 400, p % 400;
      assert p == 400 * q + r;
    }
  }

  lemma YearLength(y: int)
    requires y >= 1
    ensures DaysBeforeYear(y + 1) == DaysBeforeYear(y) + DaysInYear(y)
  {
    DivStep(y - 1, 4);
    DivStep(y - 1, 100);
    DivStep(y - 1, 400);
    DivisorsNest(y);
  }

  /** A multiple of 400 is a multiple of 100, and a multiple of 100 one of 4. */
  lemma DivisorsNest(y: int)
    ensures y % 400 == 0 ==> y % 100 == 0
    ensures y % 100 == 0 ==> y % 4 == 0
  {
    if y % 400 == 0 {
      MultipleMod(y, 400, 100);
    }
    if y % 100 == 0 {
      MultipleMod(y, 100, 4);
    }
  }

  lemma MultipleMod(y: int, big: int, small: int)
    requires (big == 400 && small == 100) || (big == 100 && small == 4)
    requires y % big == 0
    ensures y % small == 0
  {
    var k := (big / small) * (y / big);
    assert y == big * (y / big);
    assert y == small * k;
  }

  lemma MonthsFillYear(y: int)
    ensures DaysBeforeMonth(y, 12) + DaysInMonth(y, 12) == DaysInYear(y)
  {
    assert DaysBeforeMonth(y, 2) == 31;
    assert DaysBeforeMonth(y, 3) == 31 + DaysInMonth(y, 2);
    assert DaysBeforeMonth(y, 4) == 62 + DaysInMonth(y, 2);
    assert DaysBeforeMonth(y, 5) == 92 + DaysInMonth(y, 2);
    assert DaysBeforeMonth(y, 6) == 123 + DaysInMonth(y, 2);
    assert DaysBeforeMonth(y, 7) == 153 + DaysInMonth(y, 2);
    assert DaysBeforeMonth(y, 8) == 184 + DaysInMonth(y, 2);
    assert DaysBeforeMonth(y, 9) == 215 + DaysInMonth(y, 2);
    assert DaysBeforeMonth(y, 10) == 245 + DaysInMonth(y, 2);
    assert DaysBeforeMonth(y, 11) == 276 + DaysInMonth(y, 2);
  }

  /** Stepping one day forward advances the ordinal by exactly one. */
  lemma OrdinalNextDay(d: Date)
    requires ValidDate(d) && d != MaxDate
    ensures Ordinal(NextDay(d)) == Ordinal(d) + 1
  {
    if d.day == DaysInMonth(d.year, d.month) && d.month == 12 {
      YearLength(d.year);
      MonthsFillYear(d.year);
    }
  }

  /** Weekday names cycle: the day after a Sunday is a Monday, and so on. */
  lemma WeekdayNextDay(d: Date)
    requires ValidDate(d) && d != MaxDate
    ensures Weekday(NextDay(d)) == (Weekday(d) + 1) % 7
  {
    OrdinalNextDay(d);
    WeekdayStep(Ordinal(d));
  }

  lemma WeekdayStep(o: int)
    ensures (o + 1 + 6) % 7 == ((o + 6) % 7 + 1) % 7
  {
    var q, r := (o + 6) / 7, (o + 6) % 7;
    assert o + 6 == 7 * q + r;
    if r == 6 {
      assert o + 7 == 7 * (q + 1);
    } else {
      assert o + 7 == 7 * q + (r + 1);
    }
  }

  lemma DaysBeforeMonthBound(y: int, m: int)
    requires 1 <= m <= 12
    ensures DaysBeforeMonth(y, m) + DaysInMonth(y, m) <= DaysInYear(y)
    decreases 12 - m
  {
    if m == 12 {
      MonthsFillYear(y);
    } else {
      DaysBeforeMonthBound(y, m + 1);
    }
  }

  lemma DaysBeforeMonthMonotone(y: int, m: int, m': int)
    requires 1 <= m < m' <= 12
    ensures DaysBeforeMonth(y, m) + DaysInMonth(y, m) <= DaysBeforeMonth(y, m')
    decreases m' - m
  {
    if m + 1 < m' {
      DaysBeforeMonthMonotone(y, m + 1, m');
    }
  }

  lemma DaysBeforeYearMonotone(y: int, y': int)
    requires 1 <= y < y'
    ensures DaysBeforeYear(y) + DaysInYear(y) <= DaysBeforeYear(y')
    decreases y' - y
  {
    YearLength(y);
    if y + 1 < y' {
      DaysBeforeYearMonotone(y + 1, y');
      YearLength(y + 1);
    }
  }

  /** Chronological order is exactly the order of ordinals. */
  lemma {:induction false} BeforeIffOrdinal(a: Date, b: Date)
    requires ValidDate(a) && ValidDate(b)
    ensures Before(a, b) <==> Ordinal(a) < Ordinal(b)
  {
    DaysBeforeMonthBound(a.year, a.month);
    DaysBeforeMonthBound(b.year, b.month);
    if a.year < b.year {
      DaysBeforeYearMonotone(a.year, b.year);
    } else if b.year < a.year {
      DaysBeforeYearMonotone(b.year, a.year);
    } else if a.month < b.month {
      DaysBeforeMonthMonotone(a.year, a.month, b.month);
    } else if b.month < a.month {
      DaysBeforeMonthMonotone(a.year, b.month, a.month);
    }
  }

  /** Distinct valid dates have distinct ordinals. */
  lemma OrdinalInjective(a: Date, b: Date)
    requires ValidDate(a) && ValidDate(b) && Ordinal(a) == Ordinal(b)
    ensures a == b
  {
    BeforeIffOrdinal(a, b);
    BeforeIffOrdinal(b, a);
  }

  /** 15 March 2024 was a Friday. */
  lemma WeekdayExample()
    ensures WeekdayName(Date(2024, 3, 15)) == "Friday"
  {
    assert DaysBeforeMonth(2024, 3) == 60;
  }
}
