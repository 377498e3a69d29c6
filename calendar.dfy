/** The time-value arithmetic of JavaScript's `Date` in UTC, as the ECMAScript
    language specification defines it (Day, DaysInYear, DayFromYear,
    YearFromTime, InLeapYear, MonthFromTime, DateFromTime, HourFromTime,
    MinFromTime, MakeTime, MakeDay, MakeDate). A time value is an integer
    number of milliseconds since 1970-01-01T00:00:00Z. `Date.UTC(y, m, d, h, min, s)`
    is `MakeDate(MakeDay(y, m, d), MakeTime(h, min, s, 0))`; `getUTCDate()` and
    `getUTCMonth()` are `DateFromTime` and `MonthFromTime`. The constants
    86400000, 3600000 and 60000 are msPerDay, msPerHour and msPerMinute. */
module Calendar {

  function DaysInYear(y: int): (n: int)
    ensures n == 365 || n == 366
  {
    if y % 4 != 0 then 365
    else if y % 100 != 0 then 366
    else if y % 400 != 0 then 365
    else 366
  }

  predicate InLeapYear(y: int)
  {
    DaysInYear(y) == 366
  }

  /** Day number of the first day of year y. */
  function DayFromYear(y: int): int
    decreases if y < 1970 then 1970 - y else y - 1970
  {
    if y == 1970 then 0
    else if y > 1970 then DayFromYear(y - 1) + DaysInYear(y - 1)
    else DayFromYear(y + 1) - DaysInYear(y)
  }

  /** Days in month m (0 = January) of year y. */
  function DaysInMonth(y: int, m: int): (n: int)
    requires 0 <= m < 12
    ensures 28 <= n <= 31
  {
    if m == 1 then (if InLeapYear(y) then 29 else 28)
    else if m == 3 || m == 5 || m == 8 || m == 10 then 30
    else 31
  }

  /** Days of year y that precede month m: the thresholds of MonthFromTime
      (0, 31, 59, 90, 120, 151, 181, 212, 243, 273, 304, 334, plus one from
      March on in a leap year). */
  function DaysBeforeMonth(y: int, m: int): (n: int)
    requires 0 <= m < 12
    ensures 28 * m <= n <= 31 * m
  {
    if m == 0 then 0 else DaysBeforeMonth(y, m - 1) + DaysInMonth(y, m - 1)
  }

  function Day(t: int): int
  {
    t / 86400000
  }

  function MakeTime(hour: int, min: int, sec: int, ms: int): int
  {
    hour * 3600000 + min * 60000 + sec * 1000 + ms
  }

  /** Day number of date `date` of month `month` (0-based, carried into the
      year when outside 0..11) of year `year`. */
  function MakeDay(year: int, month: int, date: int): int
  {
    var ym := year + month / 12;
    var mn := month % 12;
    DayFromYear(ym) + DaysBeforeMonth(ym, mn) + date - 1
  }

  function MakeDate(day: int, time: int): int
  {
    day * 86400000 + time
  }

  /** `Date.UTC(year, month, date, hour, min, sec)`. */
  function DateUtc(year: int, month: int, date: int, hour: int, min: int, sec: int): int
  {
    MakeDate(MakeDay(year, month, date), MakeTime(hour, min, sec, 0))
  }

  /** Locates day number `z` (counted from the first day of year `y`) in its
      year: the year and the day within that year. */
  function YearWalk(z: int, y: int): (r: (int, int))
    decreases if z < 0 then 1 else 0, if z < 0 then -z else z
  {
    if z < 0 then YearWalk(z + DaysInYear(y - 1), y - 1)
    else if z < DaysInYear(y) then (y, z)
    else YearWalk(z - DaysInYear(y), y + 1)
  }

  function YearFromTime(t: int): int
  {
    YearWalk(Day(t), 1970).0
  }

  function DayWithinYear(t: int): int
  {
    YearWalk(Day(t), 1970).1
  }

  /** Month (0 = January) of day `d` of year `y`: the first month, from m
      on, that ends after day d (December when none does). */
  function MonthSearch(y: int, d: int, m: int): (r: int)
    requires 0 <= m < 12
    ensures m <= r < 12
    decreases 12 - m
  {
    if m == 11 || d < DaysBeforeMonth(y, m) + DaysInMonth(y, m) then m
    else MonthSearch(y, d, m + 1)
  }

  function MonthOfDay(y: int, d: int): (m: int)
    ensures 0 <= m < 12
  {
    MonthSearch(y, d, 0)
  }

  function MonthFromTime(t: int): (m: int)
    ensures 0 <= m < 12
  {
    MonthOfDay(YearFromTime(t), DayWithinYear(t))
  }

  function DateFromTime(t: int): int
  {
    DayWithinYear(t) - DaysBeforeMonth(YearFromTime(t), MonthFromTime(t)) + 1
  }

  function HourFromTime(t: int): int
  {
    (t / 3600000) % 24
  }

  function MinFromTime(t: int): int
  {
    (t / 60000) % 60
  }

  // ---------------------------------------------------------------------------
  // Facts about the arithmetic

  /** Consecutive years start DaysInYear apart. */
  lemma DayFromYearStep(y: int)
    ensures DayFromYear(y + 1) == DayFromYear(y) + DaysInYear(y)
  {
  }

  /** The closed form the language specification gives for DayFromYear. */
  lemma {:induction false} DayFromYearFormula(y: int)
    ensures DayFromYear(y) == 365 * (y - 1970) + (y - 1969) / 4 - (y - 1901) / 100 + (y - 1601) / 400
    decreases if y < 1970 then 1970 - y else y - 1970
  {
    if y > 1970 {
      DayFromYearFormula(y - 1);
      FourYearStep(y - 1);
      CenturyStep(y - 1);
      QuadCenturyStep(y - 1);
      LeapRuleNested(y - 1);
    } else if y < 1970 {
      DayFromYearFormula(y + 1);
      FourYearStep(y);
      CenturyStep(y);
      QuadCenturyStep(y);
      LeapRuleNested(y);
    }
  }

  /** Multiples of 400 are multiples of 100, which are multiples of 4. */
  lemma LeapRuleNested(y: int)
    ensures y % 400 == 0 ==> y % 100 == 0
    ensures y % 100 == 0 ==> y % 4 == 0
  {
    if y % 400 == 0 {
      var k := y / 400;
      assert y == 400 * k;
      assert y / 100 == 4 * k;
    }
    if y % 100 == 0 {
      var k := y / 100;
      assert y == 100 * k;
      assert y / 4 == 25 * k;
    }
  }

  lemma FourYearStep(y: int)
    ensures (y + 1 - 1969) / 4 == (y - 1969) / 4 + (if y % 4 == 0 then 1 else 0)
  {
    var q, r := (y - 1969) / 4, (y - 1969) % 4;
    assert y - 1969 == 4 * q + r && 0 <= r < 4;
    assert y % 4 == (r + 1) % 4;
    if r == 3 {
      assert y + 1 - 1969 == 4 * (q + 1);
    } else {
      assert y + 1 - 1969 == 4 * q + (r + 1);
    }
  }

  lemma CenturyStep(y: int)
    ensures (y + 1 - 1901) / 100 == (y - 1901) / 100 + (if y % 100 == 0 then 1 else 0)
  {
    var q, r := (y - 1901) / 100, (y - 1901) % 100;
    assert y - 1901 == 100 * q + r && 0 <= r < 100;
    assert y % 100 == (r + 1) % 100;
    if r == 99 {
      assert y + 1 - 1901 == 100 * (q + 1);
    } else {
      assert y + 1 - 1901 == 100 * q + (r + 1);
    }
  }

  lemma QuadCenturyStep(y: int)
    ensures (y + 1 - 1601) / 400 == (y - 1601) / 400 + (if y % 400 == 0 then 1 else 0)
  {
    var q, r := (y - 1601) / 400, (y - 1601) % 400;
    assert y - 1601 == 400 * q + r && 0 <= r < 400;
    assert y % 400 == (r + 1) % 400;
    if r == 399 {
      assert y + 1 - 1601 == 400 * (q + 1);
    } else {
      assert y + 1 - 1601 == 400 * q + (r + 1);
    }
  }

  /** A later year starts at least a whole year after an earlier one. */
  lemma {:induction false} DayFromYearMonotone(a: int, b: int)
    requires a < b
    ensures DayFromYear(a) + DaysInYear(a) <= DayFromYear(b)
    ensures DayFromYear(b) - DayFromYear(a) >= 365 * (b - a)
    decreases b - a
  {
    DayFromYearStep(a);
    if a + 1 < b {
      DayFromYearMonotone(a + 1, b);
    }
  }

  /** YearWalk finds the year containing the day and its offset in that year. */
  lemma {:induction false} YearWalkLocates(z: int, y: int)
    ensures var (yy, r) := YearWalk(z, y);
      DayFromYear(yy) + r == DayFromYear(y) + z && 0 <= r < DaysInYear(yy)
    decreases if z < 0 then 1 else 0, if z < 0 then -z else z
  {
    if z < 0 {
      assert YearWalk(z, y) == YearWalk(z + DaysInYear(y - 1), y - 1);
      DayFromYearStep(y - 1);
      YearWalkLocates(z + DaysInYear(y - 1), y - 1);
    } else if z >= DaysInYear(y) {
      assert YearWalk(z, y) == YearWalk(z - DaysInYear(y), y + 1);
      DayFromYearStep(y);
      YearWalkLocates(z - DaysInYear(y), y + 1);
    } else {
      assert YearWalk(z, y) == (y, z);
    }
  }

  /** The twelve months fill the year. */
  lemma MonthsFillYear(y: int)
    ensures DaysBeforeMonth(y, 11) + DaysInMonth(y, 11) == DaysInYear(y)
  {
    var leap := if InLeapYear(y) then 1 else 0;
    assert DaysBeforeMonth(y, 1) == 31;
    assert DaysBeforeMonth(y, 2) == 59 + leap;
    assert DaysBeforeMonth(y, 3) == 90 + leap;
    assert DaysBeforeMonth(y, 4) == 120 + leap;
    assert DaysBeforeMonth(y, 5) == 151 + leap;
    assert DaysBeforeMonth(y, 6) == 181 + leap;
    assert DaysBeforeMonth(y, 7) == 212 + leap;
    assert DaysBeforeMonth(y, 8) == 243 + leap;
    assert DaysBeforeMonth(y, 9) == 273 + leap;
    assert DaysBeforeMonth(y, 10) == 304 + leap;
    assert DaysBeforeMonth(y, 11) == 334 + leap;
  }

  /** A later month starts no earlier than the end of an earlier one. */
  lemma {:induction false} MonthsOrdered(y: int, a: int, b: int)
    requires 0 <= a < b < 12
    ensures DaysBeforeMonth(y, a) + DaysInMonth(y, a) <= DaysBeforeMonth(y, b)
    decreases b - a
  {
    if a + 1 < b {
      MonthsOrdered(y, a + 1, b);
    }
  }

  /** Leap years shift the month thresholds by at most one day, and only
      from March on. */
  lemma {:induction false} LeapShift(y1: int, y2: int, m: int)
    requires 0 <= m < 12
    ensures m <= 1 ==> DaysBeforeMonth(y1, m) == DaysBeforeMonth(y2, m)
    ensures -1 <= DaysBeforeMonth(y1, m) - DaysBeforeMonth(y2, m) <= 1
  {
    if m > 0 {
      LeapShift(y1, y2, m - 1);
    }
  }

  /** February has 29 days in leap years, 28 otherwise. */
  lemma FebruaryLength(y: int)
    ensures DaysInMonth(y, 1) == (if y % 4 == 0 && (y % 100 != 0 || y % 400 == 0) then 29 else 28)
  {
  }

  /** Every month ends within its year. */
  lemma MonthEndInYear(y: int, m: int)
    requires 0 <= m < 12
    ensures DaysBeforeMonth(y, m) + DaysInMonth(y, m) <= DaysInYear(y)
  {
    MonthsFillYear(y);
    if m < 11 {
      MonthsOrdered(y, m, 11);
    }
  }

  /** MonthSearch from month m picks the month whose days contain d. */
  lemma {:induction false} MonthSearchLocates(y: int, d: int, m: int)
    requires 0 <= m < 12 && DaysBeforeMonth(y, m) <= d < DaysInYear(y)
    ensures var r := MonthSearch(y, d, m);
      DaysBeforeMonth(y, r) <= d < DaysBeforeMonth(y, r) + DaysInMonth(y, r)
    decreases 12 - m
  {
    if m == 11 {
      MonthsFillYear(y);
    } else if d >= DaysBeforeMonth(y, m) + DaysInMonth(y, m) {
      assert DaysBeforeMonth(y, m + 1) == DaysBeforeMonth(y, m) + DaysInMonth(y, m);
      MonthSearchLocates(y, d, m + 1);
    }
  }

  /** MonthOfDay picks the month whose days contain d. */
  lemma MonthOfDayLocates(y: int, d: int)
    requires 0 <= d < DaysInYear(y)
    ensures var m := MonthOfDay(y, d);
      DaysBeforeMonth(y, m) <= d < DaysBeforeMonth(y, m) + DaysInMonth(y, m)
  {
    MonthSearchLocates(y, d, 0);
  }

  /** The one month, and day within it, that a day of the year falls on. */
  lemma MonthDayUnique(y: int, m1: int, d1: int, m2: int, d2: int)
    requires 0 <= m1 < 12 && 1 <= d1 <= DaysInMonth(y, m1)
    requires 0 <= m2 < 12 && 1 <= d2 <= DaysInMonth(y, m2)
    requires DaysBeforeMonth(y, m1) + d1 == DaysBeforeMonth(y, m2) + d2
    ensures m1 == m2 && d1 == d2
  {
    if m1 < m2 {
      MonthsOrdered(y, m1, m2);
    } else if m2 < m1 {
      MonthsOrdered(y, m2, m1);
    }
  }

  /** Every time value decomposes into a year, a month and a date of that
      month, and these name the day `Day(t)`. */
  lemma TimeFields(t: int)
    ensures var y, m := YearFromTime(t), MonthFromTime(t);
      && 1 <= DateFromTime(t) <= DaysInMonth(y, m)
      && DayFromYear(y) + DaysBeforeMonth(y, m) + DateFromTime(t) - 1 == Day(t)
  {
    YearWalkLocates(Day(t), 1970);
    MonthOfDayLocates(YearFromTime(t), DayWithinYear(t));
  }

  /** The year containing day z is the y with DayFromYear(y) <= z < DayFromYear(y + 1). */
  lemma YearOfDayUnique(t: int, y: int)
    requires DayFromYear(y) <= Day(t) < DayFromYear(y) + DaysInYear(y)
    ensures YearFromTime(t) == y
  {
    var yy := YearFromTime(t);
    YearWalkLocates(Day(t), 1970);
    if yy < y {
      DayFromYearMonotone(yy, y);
    } else if y < yy {
      DayFromYearMonotone(y, yy);
    }
  }

  /** MakeDay of a month inside the year: no carry into another year. */
  lemma MakeDayInYear(y: int, m: int, date: int)
    requires 0 <= m < 12
    ensures MakeDay(y, m, date) == DayFromYear(y) + DaysBeforeMonth(y, m) + date - 1
  {
    assert m / 12 == 0 && m % 12 == m;
  }

  /** A time of day below msPerDay leaves the day number alone. */
  lemma DayOfDate(z: int, tod: int)
    requires 0 <= tod < 86400000
    ensures Day(MakeDate(z, tod)) == z
  {
  }

  /** Round trip: a valid calendar date and a time within its day, assembled by
      MakeDate/MakeDay, read back as that same year, month and date. */
  lemma {:induction false} CalendarRoundTrip(y: int, m: int, date: int, tod: int)
    requires 0 <= m < 12 && 1 <= date <= DaysInMonth(y, m)
    requires 0 <= tod < 86400000
    ensures var t := MakeDate(MakeDay(y, m, date), tod);
      YearFromTime(t) == y && MonthFromTime(t) == m && DateFromTime(t) == date
  {
    var z := MakeDay(y, m, date);
    var t := MakeDate(z, tod);
    MakeDayInYear(y, m, date);
    DayOfDate(z, tod);
    MonthEndInYear(y, m);
    assert DayFromYear(y) <= Day(t) < DayFromYear(y) + DaysInYear(y);
    YearOfDayUnique(t, y);
    TimeFields(t);
    MonthDayUnique(y, MonthFromTime(t), DateFromTime(t), m, date);
  }

  // ---------------------------------------------------------------------------
  // Building an instant from written fields and reading it back

  /** Building `Date.UTC(y, m, day, hour, minute, 0)` and reading back its UTC
      date and month succeeds exactly for a real date with a time inside that
      day: day 00, day 31 of a 30-day month, 29 February of a common year and
      hour 24 fail; 99 minutes passes, as 01:39. */
  lemma CrossCheck(y: int, m: int, day: nat, hour: nat, minute: nat)
    requires 0 <= m < 12
    requires day < 100 && hour < 100 && minute < 100
    ensures var t := DateUtc(y, m, day, hour, minute, 0);
      (DateFromTime(t) == day && MonthFromTime(t) == m)
      <==> (1 <= day <= DaysInMonth(y, m) && hour * 60 + minute < 1440)
  {
    var q := hour * 60 + minute;
    var base := MakeDay(y, m, day);
    MakeDayInYear(y, m, day);
    assert DateUtc(y, m, day, hour, minute, 0) == MakeDate(base, q * 60000);
    if 1 <= day <= DaysInMonth(y, m) && q < 1440 {
      CalendarRoundTrip(y, m, day, q * 60000);
    } else {
      var t := MakeDate(base, q * 60000);
      if DateFromTime(t) == day && MonthFromTime(t) == m {
        CarryDays(base, q, t);
        MonthLanding(t, y, m, day, q / 1440);
        assert false;
      }
    }
  }

  /** Fewer than 6040 minutes carry a time value over at most four days. */
  lemma CarryDays(d: int, q: nat, t: int)
    requires q < 6040 && t == MakeDate(d, q * 60000)
    ensures Day(t) == d + q / 1440 && q / 1440 <= 4
    ensures q / 1440 == 0 ==> q < 1440
  {
    DayOfTime(d, q);
  }

  /** A time value whose month and date read back as m and day, lying k days
      (at most four) after that date of year y, is that date of year y. */
  lemma MonthLanding(t: int, y: int, m: int, day: int, k: int)
    requires 0 <= m < 12 && 0 <= k <= 4
    requires MonthFromTime(t) == m && DateFromTime(t) == day
    requires Day(t) == DayFromYear(y) + DaysBeforeMonth(y, m) + day - 1 + k
    ensures YearFromTime(t) == y && k == 0 && 1 <= day <= DaysInMonth(y, m)
  {
    TimeFields(t);
    SameMonthStart(YearFromTime(t), y, m, k);
  }

  /** A month start moved forward by at most four days stays the same
      month start only within the same year, and then moved by nothing. */
  lemma SameMonthStart(y1: int, y2: int, m: int, k: int)
    requires 0 <= m < 12 && 0 <= k <= 4
    requires DayFromYear(y1) + DaysBeforeMonth(y1, m) == DayFromYear(y2) + DaysBeforeMonth(y2, m) + k
    ensures y1 == y2 && k == 0
  {
    LeapShift(y1, y2, m);
    if y1 < y2 {
      DayFromYearMonotone(y1, y2);
    } else if y2 < y1 {
      DayFromYearMonotone(y2, y1);
    }
  }

  /** The day number of MakeDate(d, q minutes): whole days of q carry over. */
  lemma DayOfTime(d: int, q: nat)
    ensures Day(MakeDate(d, q * 60000)) == d + q / 1440
  {
    var k, r := q / 1440, q % 1440;
    assert q * 60000 == k * 86400000 + r * 60000;
    assert d * 86400000 + q * 60000 == (d + k) * 86400000 + r * 60000;
  }

  /** The hour and minute of MakeDate(d, q minutes) for q within the day. */
  lemma ClockOfTime(d: int, q: nat)
    requires q < 1440
    ensures HourFromTime(d * 86400000 + q * 60000) == q / 60
    ensures MinFromTime(d * 86400000 + q * 60000) == q % 60
  {
    var t := d * 86400000 + q * 60000;
    var h, mi := q / 60, q % 60;
    assert t == (d * 24 + h) * 3600000 + mi * 60000;
    assert t / 3600000 == d * 24 + h;
    assert t == (d * 1440 + q) * 60000;
    assert t / 60000 == d * 1440 + q;
  }

  /** The instant Date.UTC builds for a real date and a time within that day
      reads back as that year, month and date ... */
  lemma InstantDate(y: int, m: int, day: nat, hour: nat, minute: nat)
    requires 0 <= m < 12 && 1 <= day <= DaysInMonth(y, m) && hour * 60 + minute < 1440
    ensures var t := DateUtc(y, m, day, hour, minute, 0);
      YearFromTime(t) == y && MonthFromTime(t) == m && DateFromTime(t) == day
  {
    var q := hour * 60 + minute;
    assert DateUtc(y, m, day, hour, minute, 0) == MakeDate(MakeDay(y, m, day), q * 60000);
    CalendarRoundTrip(y, m, day, q * 60000);
  }

  /** ... and as that hour and minute, minutes past 59 rolling into the hour. */
  lemma InstantClock(y: int, m: int, day: nat, hour: nat, minute: nat)
    requires hour * 60 + minute < 1440
    ensures var t := DateUtc(y, m, day, hour, minute, 0);
      HourFromTime(t) == (hour * 60 + minute) / 60 && MinFromTime(t) == (hour * 60 + minute) % 60
  {
    var q := hour * 60 + minute;
    var d := MakeDay(y, m, day);
    assert DateUtc(y, m, day, hour, minute, 0) == d * 86400000 + q * 60000;
    ClockOfTime(d, q);
  }

  /** 2025-12-10T13:30:00Z. */
  lemma ExampleInstant()
    ensures DateUtc(2025, 11, 10, 13, 30, 0) == 1765373400000
  {
    ExampleDay();
  }

  lemma ExampleDay()
    ensures MakeDay(2025, 11, 10) == 20432
  {
    MakeDayInYear(2025, 11, 10);
    DecemberStart2025();
    Start2025();
  }

  lemma Start2025()
    ensures DayFromYear(2025) == 20089
  {
    DayFromYearFormula(2025);
  }

  lemma DecemberStart2025()
    ensures DaysBeforeMonth(2025, 11) == 334
  {
  }
}
