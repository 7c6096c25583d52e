/** The civil (proleptic Gregorian, UTC) date of a point in time given as
    epoch seconds: what Ruby's Time#year, #month and #day read off a time. */
module Calendar {

  datatype Date = Date(year: int, month: int, day: int)

  const SecondsPerDay: int := 86400

  /** Years are counted from March inside a 400-year era starting on
      0000-03-01, so that the leap day is the last day of its year.
      EraYearStart(y) is the day of the era on which March-year y starts. */
  function EraYearStart(y: int): int
  {
    365 * y + y / 4 - y / 100 + y / 400
  }

  /** Length of March-year y of an era: Feb 29 belongs to it when the
      calendar year y + 1 is a leap year. */
  function EraYearLength(y: int): int
  {
    365 + (if (y + 1) % 4 == 0 then 1 else 0)
        - (if (y + 1) % 100 == 0 then 1 else 0)
        + (if (y + 1) % 400 == 0 then 1 else 0)
  }

  lemma EraYearStep(y: int)
    requires 0 <= y
    ensures EraYearStart(y + 1) == EraYearStart(y) + EraYearLength(y)
  {
    assert (y + 1) / 4 == y / 4 + (if (y + 1) % 4 == 0 then 1 else 0);
    assert (y + 1) / 100 == y / 100 + (if (y + 1) % 100 == 0 then 1 else 0);
    assert (y + 1) / 400 == y / 400 + (if (y + 1) % 400 == 0 then 1 else 0);
  }

  /** Splits rem days counted from the start of March-year y of an era into
      a year of the era and a day of that year. */
  function YearOfEraFrom(rem: int, y: int): (r: (int, int))
    requires 0 <= y < 400 && 0 <= rem && EraYearStart(y) + rem < 146097
    ensures y <= r.0 < 400 && 0 <= r.1 < EraYearLength(r.0)
    ensures EraYearStart(r.0) + r.1 == EraYearStart(y) + rem
    decreases rem
  {
    if rem < EraYearLength(y) then (y, rem)
    else
      EraYearStep(y);
      YearOfEraFrom(rem - EraYearLength(y), y + 1)
  }

  /** Gregorian leap years: every fourth year, except centuries not
      divisible by 400. */
  predicate IsLeapYear(y: int)
  {
    y % 4 == 0 && (y % 100 != 0 || y % 400 == 0)
  }

  /** Number of days in month m of year y. */
  function DaysInMonth(y: int, m: int): (n: int)
    requires 1 <= m <= 12
    ensures 28 <= n <= 31
    ensures m == 2 ==> (n == 29 <==> IsLeapYear(y))
  {
    if m == 2 then (if IsLeapYear(y) then 29 else 28)
    else if m == 4 || m == 6 || m == 9 || m == 11 then 30
    else 31
  }

  /** A date that exists in the proleptic Gregorian calendar. */
  predicate ValidDate(d: Date)
  {
    1 <= d.month <= 12 && 1 <= d.day <= DaysInMonth(d.year, d.month)
  }

  /** Length of month mp counted from March (0 = March, 11 = February) in a
      March-year that holds a leap day exactly when leap. */
  function MarchMonthLength(mp: int, leap: bool): int
    requires 0 <= mp < 12
  {
    if mp == 11 then (if leap then 29 else 28)
    else if mp == 1 || mp == 3 || mp == 6 || mp == 8 then 30
    else 31
  }

  /** Day of the year (counted from March 1) -> (month index from March, day),
      in a March-year with a leap day exactly when leap. */
  function MonthOfYear(doy: int, leap: bool): (r: (int, int))
    requires 0 <= doy < (if leap then 366 else 365)
    ensures 0 <= r.0 < 12 && 1 <= r.1 <= MarchMonthLength(r.0, leap)
    ensures (153 * r.0 + 2) / 5 + r.1 - 1 == doy
  {
    var mp := (5 * doy + 2) / 153;
    MonthStartBounds(mp);
    (mp, doy - (153 * mp + 2) / 5 + 1)
  }

  /** Month mp from March starts on day (153 * mp + 2) / 5 of the March-year
      and the next one starts MarchMonthLength days later. */
  lemma MonthStartBounds(mp: int)
    requires 0 <= mp < 12
    ensures (153 * (mp + 1) + 2) / 5 == (153 * mp + 2) / 5 + MarchMonthLength(mp, true) || mp == 11
    ensures mp == 11 ==> (153 * mp + 2) / 5 == 337
  {
  }

  /** A day within month mp is mapped back to mp: the month and the day are
      determined by the day of the year. */
  lemma MonthOfYearUnique(mp: int, day: int, leap: bool)
    requires 0 <= mp < 12 && 1 <= day <= MarchMonthLength(mp, leap)
    ensures var doy := (153 * mp + 2) / 5 + day - 1;
      0 <= doy < (if leap then 366 else 365) && MonthOfYear(doy, leap) == (mp, day)
  {
    var doy := (153 * mp + 2) / 5 + day - 1;
    assert (5 * doy + 2) / 153 == mp;
  }

  /** The year a date belongs to when years start on March 1. */
  function MarchYear(d: Date): int
  {
    if d.month <= 2 then d.year - 1 else d.year
  }

  /** The month of a date counted from March (0 = March, 11 = February). */
  function MarchMonth(d: Date): int
  {
    if d.month > 2 then d.month - 3 else d.month + 9
  }

  /** The day of its March-year a date falls on, from 0. */
  function MarchDay(d: Date): int
  {
    (153 * MarchMonth(d) + 2) / 5 + d.day - 1
  }

  /** Days since 1970-01-01 of a civil date. */
  function DaysFromCivil(d: Date): int
  {
    var era := MarchYear(d) / 400;
    var yoe := MarchYear(d) - era * 400;
    era * 146097 + EraYearStart(yoe) + MarchDay(d) - 719468
  }

  /** The leap rule repeats every 400 years. */
  lemma {:induction false} LeapYearPeriod(y: int, era: int)
    ensures IsLeapYear(y + 400 * era) <==> IsLeapYear(y)
    decreases if era < 0 then -era else era
  {
    if era > 0 {
      LeapYearPeriod(y, era - 1);
      LeapYearStep(y + 400 * (era - 1));
    } else if era < 0 {
      LeapYearPeriod(y, era + 1);
      LeapYearStep(y + 400 * era);
    }
  }

  lemma LeapYearStep(y: int)
    ensures IsLeapYear(y + 400) <==> IsLeapYear(y)
  {
  }

  /** March-year y of an era holds a leap day exactly when calendar year
      y + 1 of that era is a leap year. */
  lemma EraYearLengthIsLeap(y: int)
    ensures EraYearLength(y) == (if IsLeapYear(y + 1) then 366 else 365)
  {
  }

  /** The civil date of a day number (days since 1970-01-01). */
  function CivilFromDays(z: int): (d: Date)
    ensures ValidDate(d)
    ensures DaysFromCivil(d) == z
  {
    var era := (z + 719468) / 146097;
    var doe := z + 719468 - era * 146097;
    var (yoe, doy) := YearOfEraFrom(doe, 0);
    EraYearLengthIsLeap(yoe);
    var (mp, day) := MonthOfYear(doy, IsLeapYear(yoe + 1));
    var month := if mp < 10 then mp + 3 else mp - 9;
    var y := yoe + era * 400;
    var d := Date(if month <= 2 then y + 1 else y, month, day);
    assert (if month <= 2 then d.year - 1 else d.year) == y;
    assert y / 400 == era;
    LeapYearPeriod(yoe + 1, era);
    d
  }

  /** EraYearStart never decreases. */
  lemma {:induction false} EraYearStartMonotone(a: int, b: int)
    requires 0 <= a <= b
    ensures EraYearStart(a) <= EraYearStart(b)
    decreases b - a
  {
    if a < b {
      EraYearStep(a);
      EraYearStartMonotone(a + 1, b);
    }
  }

  /** A day of an era falls in exactly one year of that era. */
  lemma EraSplitUnique(y1: int, r1: int, y2: int, r2: int)
    requires 0 <= y1 && 0 <= r1 < EraYearLength(y1)
    requires 0 <= y2 && 0 <= r2 < EraYearLength(y2)
    requires EraYearStart(y1) + r1 == EraYearStart(y2) + r2
    ensures y1 == y2 && r1 == r2
  {
    if y1 < y2 {
      EraYearStep(y1);
      EraYearStartMonotone(y1 + 1, y2);
    } else if y2 < y1 {
      EraYearStep(y2);
      EraYearStartMonotone(y2 + 1, y1);
    }
  }

  /** The parts DaysFromCivil adds up, for a valid date: the day of the
      March-year lies inside that year, the day of the era inside the era,
      and the month and day are read back from the day of the year. */
  lemma DateParts(d: Date) returns (era: int, yoe: int)
    requires ValidDate(d)
    ensures era == MarchYear(d) / 400 && yoe == MarchYear(d) - era * 400
    ensures DaysFromCivil(d) + 719468 == era * 146097 + (EraYearStart(yoe) + MarchDay(d))
    ensures 0 <= yoe < 400 && 0 <= MarchDay(d) < EraYearLength(yoe)
    ensures 0 <= EraYearStart(yoe) + MarchDay(d) < 146097
    ensures MonthOfYear(MarchDay(d), IsLeapYear(yoe + 1)) == (MarchMonth(d), d.day)
  {
    era := MarchYear(d) / 400;
    yoe := MarchYear(d) - era * 400;
    LeapYearPeriod(yoe + 1, era);
    assert IsLeapYear(yoe + 1) == (MarchMonth(d) == 11 ==> IsLeapYear(d.year)) || MarchMonth(d) != 11;
    EraYearLengthIsLeap(yoe);
    MonthOfYearUnique(MarchMonth(d), d.day, IsLeapYear(yoe + 1));
    EraYearStep(yoe);
    EraYearStartMonotone(yoe + 1, 400);
  }

  /** A number splits one way only into whole eras and a day of an era. */
  lemma EraUnique(e1: int, r1: int, e2: int, r2: int)
    requires 0 <= r1 < 146097 && 0 <= r2 < 146097
    requires e1 * 146097 + r1 == e2 * 146097 + r2
    ensures e1 == e2 && r1 == r2
  {
  }

  /** A date is fixed by its March-year, its month from March and its day. */
  lemma DateFromMarchParts(d1: Date, d2: Date)
    requires 1 <= d1.month <= 12 && 1 <= d2.month <= 12
    requires MarchYear(d1) == MarchYear(d2) && MarchMonth(d1) == MarchMonth(d2) && d1.day == d2.day
    ensures d1 == d2
  {
  }

  /** Distinct valid dates have distinct day numbers. */
  lemma DaysFromCivilInjective(d1: Date, d2: Date)
    requires ValidDate(d1) && ValidDate(d2)
    requires DaysFromCivil(d1) == DaysFromCivil(d2)
    ensures d1 == d2
  {
    var era1, yoe1 := DateParts(d1);
    var era2, yoe2 := DateParts(d2);
    EraUnique(era1, EraYearStart(yoe1) + MarchDay(d1), era2, EraYearStart(yoe2) + MarchDay(d2));
    EraSplitUnique(yoe1, MarchDay(d1), yoe2, MarchDay(d2));
    DateFromMarchParts(d1, d2);
  }

  /** Every valid date is the civil date of its own day number: a day
      number names one date and one only. */
  lemma CivilRoundTrip(d: Date)
    requires ValidDate(d)
    ensures CivilFromDays(DaysFromCivil(d)) == d
  {
    DaysFromCivilInjective(CivilFromDays(DaysFromCivil(d)), d);
  }

  /** The UTC civil date of a time given in epoch seconds. */
  function DateOf(t: int): (d: Date)
    ensures ValidDate(d)
    ensures DaysFromCivil(d) == t / SecondsPerDay
  {
    CivilFromDays(t / SecondsPerDay)
  }

  /** DateOf names the one valid date whose day number holds t. */
  lemma DateOfExactly(t: int, d: Date)
    ensures DateOf(t) == d <==> ValidDate(d) && DaysFromCivil(d) == t / SecondsPerDay
  {
    if ValidDate(d) && DaysFromCivil(d) == t / SecondsPerDay {
      DaysFromCivilInjective(DateOf(t), d);
    }
  }

  /** Two times fall into the same civil date exactly when they fall into the
      same day number: the buckets keyed by DateOf are the UTC days. */
  lemma SameDateIffSameDay(t1: int, t2: int)
    ensures DateOf(t1) == DateOf(t2) <==> t1 / SecondsPerDay == t2 / SecondsPerDay
  {
    if DateOf(t1) == DateOf(t2) {
      assert DaysFromCivil(DateOf(t1)) == DaysFromCivil(DateOf(t2));
    }
  }
}
