/** The proleptic Gregorian calendar the ISO clue is checked against, and the
    day numbering the evaluator works in: day 0 is 1970-01-01, a Thursday. */
module Calendar {

  /** The smallest and largest year the date backend represents. */
  const MIN_YEAR: int := -262144
  const MAX_YEAR: int := 262143

  predicate IsLeapYear(y: int) {
    y % 4 == 0 && (y % 100 != 0 || y % 400 == 0)
  }

  function DaysInMonth(y: int, m: nat): (n: nat)
    requires 1 <= m <= 12
    ensures 28 <= n <= 31
    ensures n == 29 <==> m == 2 && IsLeapYear(y)
  {
    if m == 2 then (if IsLeapYear(y) then 29 else 28)
    else if m == 4 || m == 6 || m == 9 || m == 11 then 30
    else 31
  }

  /** A real calendar date: a month of the year and a day of that month. */
  predicate IsValidDate(y: int, m: nat, d: nat) {
    1 <= m <= 12 && 1 <= d <= DaysInMonth(y, m)
  }

  // ---------------------------------------------------------------------
  // Day numbers. The count runs over years that start on the 1st of March,
  // so that the leap day is the last day of its year.

  /** Months since March of the month `m` (March 0, ..., February 11). */
  function MonthsSinceMarch(m: nat): (mp: nat)
    requires 1 <= m <= 12
    ensures mp < 12
  {
    if m > 2 then m - 3 else m + 9
  }

  /** Days from the 1st of March to the 1st of the month `mp` months later. */
  function MonthStart(mp: nat): nat {
    (153 * mp + 2) / 5
  }

  /** Days from 0000-03-01 to the 1st of March of year `yy`. */
  function MarchYearStart(yy: int): int {
    var era := yy / 400;
    var yoe := yy % 400;
    era * 146097 + yoe * 365 + yoe / 4 - yoe / 100
  }

  /** The day number of a date: days since 1970-01-01. */
  function DaysFromCivil(y: int, m: nat, d: nat): int
    requires IsValidDate(y, m, d)
  {
    var yy := if m <= 2 then y - 1 else y;
    MarchYearStart(yy) + MonthStart(MonthsSinceMarch(m)) + d - 1 - 719468
  }

  /** The date after a valid date. */
  function NextDate(y: int, m: nat, d: nat): (r: (int, nat, nat))
    requires IsValidDate(y, m, d)
    ensures IsValidDate(r.0, r.1, r.2)
    ensures r.0 == y || (r.0 == y + 1 && m == 12 && d == 31 && r.1 == 1 && r.2 == 1)
  {
    if d < DaysInMonth(y, m) then (y, m, d + 1)
    else if m < 12 then (y, m + 1, 1)
    else (y + 1, 1, 1)
  }

  /** A year that starts in March has 365 days, and one more when the
      February that ends it has a leap day. */
  lemma {:induction false} MarchYearLength(yy: int)
    ensures MarchYearStart(yy + 1) - MarchYearStart(yy) == 365 + (if IsLeapYear(yy + 1) then 1 else 0)
  {
    var era, yoe := yy / 400, yy % 400;
    assert yy == 400 * era + yoe;
    if yoe < 399 {
      YearWithinEra(era, yoe);
    } else {
      LastYearOfEra(era);
    }
  }

  /** Years within one 400-year era: the year `yoe` of era `era` is
      `400 * era + yoe`. */
  lemma {:induction false} EraOf(era: int, yoe: int)
    requires 0 <= yoe < 400
    ensures (400 * era + yoe) / 400 == era && (400 * era + yoe) % 400 == yoe
  {
  }

  lemma {:induction false} EraStart(era: int, yoe: int)
    requires 0 <= yoe < 400
    ensures MarchYearStart(400 * era + yoe) == era * 146097 + yoe * 365 + yoe / 4 - yoe / 100
  {
    EraOf(era, yoe);
  }

  /** Leap years repeat with the era. */
  lemma {:induction false} LeapInEra(era: int, yoe: int)
    requires 0 <= yoe < 400
    ensures IsLeapYear(400 * era + yoe) == IsLeapYear(yoe)
  {
    var y := 400 * era + yoe;
    assert y == 4 * (100 * era) + yoe;
    assert y == 100 * (4 * era) + yoe;
    EraOf(era, yoe);
  }

  /** Counting multiples of 4 or of 100 up to `a` adds one exactly at a multiple. */
  lemma {:induction false} DivStep(a: int, k: int)
    requires a >= 1 && (k == 4 || k == 100)
    ensures a / k - (a - 1) / k == if a % k == 0 then 1 else 0
  {
  }

  lemma {:induction false} CenturyIsFourth(a: int)
    requires a % 100 == 0
    ensures a % 4 == 0
  {
    assert a == 4 * (25 * (a / 100));
  }

  lemma {:induction false} YearWithinEra(era: int, yoe: int)
    requires 0 <= yoe < 399
    ensures var yy := 400 * era + yoe;
            MarchYearStart(yy + 1) - MarchYearStart(yy) == 365 + (if IsLeapYear(yy + 1) then 1 else 0)
  {
    EraStart(era, yoe);
    EraStart(era, yoe + 1);
    LeapInEra(era, yoe + 1);
    DivStep(yoe + 1, 4);
    DivStep(yoe + 1, 100);
    if (yoe + 1) % 100 == 0 {
      CenturyIsFourth(yoe + 1);
    }
  }

  lemma {:induction false} LastYearOfEra(era: int)
    ensures var yy := 400 * era + 399;
            MarchYearStart(yy + 1) - MarchYearStart(yy) == 365 + (if IsLeapYear(yy + 1) then 1 else 0)
  {
    EraStart(era, 399);
    EraStart(era + 1, 0);
    LeapInEra(era + 1, 0);
    assert 400 * era + 399 + 1 == 400 * (era + 1) + 0;
  }

  /** Each month `mp` months after March is as long as the calendar says. */
  lemma MonthLength(y: int, m: nat)
    requires 1 <= m <= 12 && m != 2
    ensures MonthStart(MonthsSinceMarch(m) + 1) - MonthStart(MonthsSinceMarch(m)) == DaysInMonth(y, m)
  {
  }

  /** Consecutive dates have consecutive day numbers: the numbering counts
      every day of the calendar exactly once. */
  lemma {:induction false} DaysFromCivilNext(y: int, m: nat, d: nat)
    requires IsValidDate(y, m, d)
    ensures var n := NextDate(y, m, d); DaysFromCivil(n.0, n.1, n.2) == DaysFromCivil(y, m, d) + 1
  {
    if d < DaysInMonth(y, m) {
    } else if m == 2 {
      MarchYearLength(y - 1);
      assert MonthStart(11) == 337;
    } else if m < 12 {
      MonthLength(y, m);
    } else {
      assert MonthStart(10) - MonthStart(9) == 31;
    }
  }

  /** Day 0 is 1970-01-01. */
  lemma Epoch()
    ensures DaysFromCivil(1970, 1, 1) == 0
  {
  }

  lemma {:induction false} LeapYearCycle(y: int)
    ensures IsLeapYear(y + 400) == IsLeapYear(y)
  {
    var era, yoe := y / 400, y % 400;
    assert y == 400 * era + yoe;
    LeapInEra(era, yoe);
    LeapInEra(era + 1, yoe);
  }

  lemma {:induction false} MarchYearCycle(yy: int)
    ensures MarchYearStart(yy + 400) == MarchYearStart(yy) + 146097
  {
    var era, yoe := yy / 400, yy % 400;
    assert yy == 400 * era + yoe;
    EraStart(era, yoe);
    EraStart(era + 1, yoe);
  }

  /** Four hundred years are always 146097 days: the calendar repeats. */
  lemma {:induction false} FourCenturies(y: int, m: nat, d: nat)
    requires IsValidDate(y, m, d)
    ensures IsValidDate(y + 400, m, d)
    ensures DaysFromCivil(y + 400, m, d) == DaysFromCivil(y, m, d) + 146097
  {
    LeapYearCycle(y);
    MarchYearCycle(if m <= 2 then y - 1 else y);
  }

  // ---------------------------------------------------------------------
  // Weekdays

  /** Days since the Monday of the day's week (Monday 0, ..., Sunday 6). */
  function WeekdayIndex(day: int): (i: nat)
    ensures i < 7
  {
    (day + 3) % 7
  }

  /** The Monday of the day's week. */
  function WeekStart(day: int): int {
    day - WeekdayIndex(day)
  }

  /** The week of a day is the seven days from its Monday, and the weekday
      index counts from that Monday. */
  lemma {:induction false} WeekOf(day: int, k: nat)
    requires k < 7
    ensures WeekdayIndex(WeekStart(day) + k) == k
    ensures WeekStart(WeekStart(day) + k) == WeekStart(day)
  {
    var q := (day + 3) / 7;
    assert WeekStart(day) + k + 3 == 7 * q + k;
  }

  /** Days a week apart share their weekday, and consecutive days have
      consecutive weekdays. */
  lemma WeekdaySteps(day: int)
    ensures WeekdayIndex(day + 7) == WeekdayIndex(day)
    ensures WeekdayIndex(day + 1) == (WeekdayIndex(day) + 1) % 7
  {
  }

  /** Two days with the same Monday are less than a week apart. */
  lemma SameWeek(a: int, b: int)
    requires WeekStart(a) == WeekStart(b)
    ensures -7 < a - b < 7
  {
  }

  /** 1970-01-01 was a Thursday and 2020-07-12 a Sunday. */
  lemma KnownWeekdays()
    ensures WeekdayIndex(DaysFromCivil(1970, 1, 1)) == 3
    ensures DaysFromCivil(2020, 7, 12) == 18455 && WeekdayIndex(18455) == 6
  {
  }
}
