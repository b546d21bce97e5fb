/**
 Instants in UTC, the proleptic Gregorian calendar, and the truncation of an
 instant to a calendar bucket.
 */
module Calendar {

  /** Microseconds since 0001-01-01T00:00:00 UTC, the zero instant of the source's clock library. */
  type Instant = int

  const MILLISECOND := 1_000
  const SECOND := 1_000_000
  const MINUTE := 60_000_000
  const HOUR := 3_600_000_000
  const DAY := 86_400_000_000

  function DayNumber(t: Instant): int { t / DAY }

  function TimeOfDay(t: Instant): int { t % DAY }

  function HourOf(t: Instant): int { TimeOfDay(t) / HOUR }

  function MinuteOf(t: Instant): int { TimeOfDay(t) % HOUR / MINUTE }

  /** 0 is Sunday; 0001-01-01, day number 0, was a Monday. */
  function Weekday(day: int): int { (day + 1) % 7 }

  datatype Date = Date(year: int, month: int, day: int)

  predicate IsLeap(year: int) {
    year % 4 == 0 && (year % 100 != 0 || year % 400 == 0)
  }

  function DaysBeforeYear(year: int): int {
    var y := year - 1;
    365 * y + y / 4 - y / 100 + y / 400
  }

  function YearOf(day: int): int {
    var n400, r400 := day / 146_097, day % 146_097;
    var n100 := if r400 / 36_524 > 3 then 3 else r400 / 36_524;
    var r100 := r400 - 36_524 * n100;
    var n4, r4 := r100 / 1_461, r100 % 1_461;
    var n1 := if r4 / 365 > 3 then 3 else r4 / 365;
    400 * n400 + 100 * n100 + 4 * n4 + n1 + 1
  }

  function DaysBeforeMonth(month: int, leap: bool): int {
    (if month <= 1 then 0 else if month == 2 then 31 else if month == 3 then 59 else if month == 4 then 90
     else if month == 5 then 120 else if month == 6 then 151 else if month == 7 then 181
     else if month == 8 then 212 else if month == 9 then 243 else if month == 10 then 273
     else if month == 11 then 304 else if month == 12 then 334 else 365)
    + (if leap && month > 2 then 1 else 0)
  }

  function MonthOf(yday: int, leap: bool): int {
    if yday < DaysBeforeMonth(2, leap) then 1
    else if yday < DaysBeforeMonth(3, leap) then 2
    else if yday < DaysBeforeMonth(4, leap) then 3
    else if yday < DaysBeforeMonth(5, leap) then 4
    else if yday < DaysBeforeMonth(6, leap) then 5
    else if yday < DaysBeforeMonth(7, leap) then 6
    else if yday < DaysBeforeMonth(8, leap) then 7
    else if yday < DaysBeforeMonth(9, leap) then 8
    else if yday < DaysBeforeMonth(10, leap) then 9
    else if yday < DaysBeforeMonth(11, leap) then 10
    else if yday < DaysBeforeMonth(12, leap) then 11
    else 12
  }

  function DateOf(day: int): Date {
    var year := YearOf(day);
    var yday := day - DaysBeforeYear(year);
    var month := MonthOf(yday, IsLeap(year));
    Date(year, month, yday - DaysBeforeMonth(month, IsLeap(year)) + 1)
  }

  function DayNumberOf(d: Date): int {
    DaysBeforeYear(d.year) + DaysBeforeMonth(d.month, IsLeap(d.year)) + d.day - 1
  }

  predicate ValidDate(d: Date) {
    1 <= d.month <= 12
    && 1 <= d.day <= DaysBeforeMonth(d.month + 1, IsLeap(d.year)) - DaysBeforeMonth(d.month, IsLeap(d.year))
  }

  function Midnight(d: Date): Instant { DayNumberOf(d) * DAY }

  // ----- division with remainder

  lemma ScaleUp(a: int, b: int, step: int)
    requires a <= b && step >= 0
    ensures a * step <= b * step
  {}

  lemma MultipleBelow(q: int, k: int, step: int, r: int)
    requires 0 <= r < step && q * step <= k * step + r
    ensures q <= k
  {
    if q > k {
      ScaleUp(k + 1, q, step);
    }
  }

  lemma Quotient(q: int, step: int, r: int)
    requires 0 <= r < step
    ensures (q * step + r) / step == q && (q * step + r) % step == r
  {
    var x := q * step + r;
    assert x == x / step * step + x % step;
    MultipleBelow(q, x / step, step, x % step);
    MultipleBelow(x / step, q, step, r);
  }

  // ----- the calendar is a bijection between day numbers and valid dates

  lemma NextQuotient(x: int, k: int)
    requires k in {4, 100, 400}
    ensures x / k == (x - 1) / k + if x % k == 0 then 1 else 0
  {
    if k == 4 {} else if k == 100 {} else {}
  }

  lemma CenturiesAreLeapYears(year: int)
    ensures year % 400 == 0 ==> year % 100 == 0
    ensures year % 100 == 0 ==> year % 4 == 0
  {
    if year % 400 == 0 { Quotient(4 * (year / 400), 100, 0); }
    if year % 100 == 0 { Quotient(25 * (year / 100), 4, 0); }
  }

  lemma NextYear(year: int)
    ensures DaysBeforeYear(year + 1) == DaysBeforeYear(year) + 365 + if IsLeap(year) then 1 else 0
  {
    NextQuotient(year, 4);
    NextQuotient(year, 100);
    NextQuotient(year, 400);
    CenturiesAreLeapYears(year);
  }

  lemma {:induction false} YearsIncrease(a: int, b: int)
    requires a < b
    ensures DaysBeforeYear(a) + 365 <= DaysBeforeYear(b)
    decreases b - a
  {
    NextYear(b - 1);
    if a < b - 1 {
      YearsIncrease(a, b - 1);
    }
  }

  lemma LeapParts(n400: int, n100: int, n4: int, n1: int)
    requires 0 <= n100 <= 3 && 0 <= n4 <= 24 && 0 <= n1 <= 3
    ensures IsLeap(400 * n400 + 100 * n100 + 4 * n4 + n1 + 1) <==> n1 == 3 && (n4 != 24 || n100 == 3)
  {
    var q4, q100 := 100 * n400 + 25 * n100 + n4, 4 * n400 + n100;
    var y := 400 * n400 + 100 * n100 + 4 * n4 + n1 + 1;
    if n1 < 3 {
      Quotient(q4, 4, n1 + 1);
    } else {
      Quotient(q4 + 1, 4, 0);
      if n4 < 24 {
        Quotient(q100, 100, 4 * n4 + 4);
      } else {
        Quotient(q100 + 1, 100, 0);
        if n100 < 3 {
          Quotient(n400, 400, 100 * n100 + 100);
        } else {
          Quotient(n400 + 1, 400, 0);
        }
      }
    }
  }

  lemma YearParts(n400: int, n100: int, n4: int, n1: int)
    requires 0 <= n100 <= 3 && 0 <= n4 <= 24 && 0 <= n1 <= 3
    ensures DaysBeforeYear(400 * n400 + 100 * n100 + 4 * n4 + n1 + 1)
         == 146_097 * n400 + 36_524 * n100 + 1_461 * n4 + 365 * n1
    ensures IsLeap(400 * n400 + 100 * n100 + 4 * n4 + n1 + 1) <==> n1 == 3 && (n4 != 24 || n100 == 3)
  {
    hide IsLeap;
    Quotient(100 * n400 + 25 * n100 + n4, 4, n1);
    Quotient(4 * n400 + n100, 100, 4 * n4 + n1);
    Quotient(n400, 400, 100 * n100 + 4 * n4 + n1);
    LeapParts(n400, n100, n4, n1);
  }

  /** The fields of a day within the 400, 100, 4 and 1 year cycles of the calendar. */
  lemma YearCycles(day: int)
    ensures var n400, r400 := day / 146_097, day % 146_097;
            var n100 := if r400 / 36_524 > 3 then 3 else r400 / 36_524;
            var r100 := r400 - 36_524 * n100;
            var n4, r4 := r100 / 1_461, r100 % 1_461;
            var n1 := if r4 / 365 > 3 then 3 else r4 / 365;
            0 <= n100 <= 3 && 0 <= n4 <= 24 && 0 <= n1 <= 3
            && 0 <= r4 - 365 * n1 <= 365
            && (r4 - 365 * n1 == 365 ==> n1 == 3 && (n4 != 24 || n100 == 3))
            && day == 146_097 * n400 + 36_524 * n100 + 1_461 * n4 + r4
  {}

  lemma YearOfBounds(day: int)
    ensures DaysBeforeYear(YearOf(day)) <= day < DaysBeforeYear(YearOf(day) + 1)
  {
    hide IsLeap, DaysBeforeYear;
    var n400, r400 := day / 146_097, day % 146_097;
    var n100 := if r400 / 36_524 > 3 then 3 else r400 / 36_524;
    var r100 := r400 - 36_524 * n100;
    var n4, r4 := r100 / 1_461, r100 % 1_461;
    var n1 := if r4 / 365 > 3 then 3 else r4 / 365;
    YearCycles(day);
    YearParts(n400, n100, n4, n1);
    NextYear(YearOf(day));
  }

  lemma YearOfUnique(day: int, year: int)
    requires DaysBeforeYear(year) <= day < DaysBeforeYear(year + 1)
    ensures YearOf(day) == year
  {
    YearOfBounds(day);
    var y := YearOf(day);
    if y < year {
      if y + 1 < year { YearsIncrease(y + 1, year); }
    } else if year < y {
      if year + 1 < y { YearsIncrease(year + 1, y); }
    }
  }

  lemma YearOfMonotone(a: int, b: int)
    requires a <= b
    ensures YearOf(a) <= YearOf(b)
  {
    YearOfBounds(a);
    YearOfBounds(b);
    if YearOf(b) + 1 < YearOf(a) { YearsIncrease(YearOf(b) + 1, YearOf(a)); }
  }

  lemma MonthOfBounds(yday: int, leap: bool)
    requires 0 <= yday < 365 + if leap then 1 else 0
    ensures 1 <= MonthOf(yday, leap) <= 12
    ensures DaysBeforeMonth(MonthOf(yday, leap), leap) <= yday < DaysBeforeMonth(MonthOf(yday, leap) + 1, leap)
  {}

  lemma MonthOfUnique(yday: int, leap: bool, month: int)
    requires 1 <= month <= 12
    requires DaysBeforeMonth(month, leap) <= yday < DaysBeforeMonth(month + 1, leap)
    ensures MonthOf(yday, leap) == month
  {}

  /** Every day number has a valid date, and that date names the day again. */
  lemma DateOfDay(day: int)
    ensures ValidDate(DateOf(day))
    ensures DayNumberOf(DateOf(day)) == day
  {
    var year := YearOf(day);
    YearOfBounds(day);
    NextYear(year);
    MonthOfBounds(day - DaysBeforeYear(year), IsLeap(year));
  }

  /** Every valid date is the date of the day it names. */
  lemma DayOfDate(d: Date)
    requires ValidDate(d)
    ensures DateOf(DayNumberOf(d)) == d
  {
    var yday := DaysBeforeMonth(d.month, IsLeap(d.year)) + d.day - 1;
    NextYear(d.year);
    assert 0 <= yday < 365 + if IsLeap(d.year) then 1 else 0;
    YearOfUnique(DayNumberOf(d), d.year);
    MonthOfUnique(yday, IsLeap(d.year), d.month);
  }

  // ----- the calendar in numbers

  function FirstOfNextMonth(year: int, month: int): Date {
    if month == 12 then Date(year + 1, 1, 1) else Date(year, month + 1, 1)
  }

  /** From the first of a month to the first of the next: the lengths of the months, leap years included. */
  lemma MonthLengths(year: int, month: int)
    requires 1 <= month <= 12
    ensures DayNumberOf(FirstOfNextMonth(year, month)) - DayNumberOf(Date(year, month, 1))
         == if month in {4, 6, 9, 11} then 30
            else if month != 2 then 31
            else if year % 400 == 0 || (year % 4 == 0 && year % 100 != 0) then 29 else 28
  {
    hide *;
    LengthOf(month, IsLeap(year));
    LeapYears(year);
    NextYear(year);
    DayOfFirst(year, month);
    DayOfFirst(year + 1, 1);
    if month < 12 { DayOfFirst(year, month + 1); }
    NextMonthIs(year, month);
  }

  lemma LengthOf(month: int, leap: bool)
    requires 1 <= month <= 12
    ensures DaysBeforeMonth(month + 1, leap) - DaysBeforeMonth(month, leap)
         == if month in {4, 6, 9, 11} then 30 else if month != 2 then 31 else if leap then 29 else 28
    ensures DaysBeforeMonth(1, leap) == 0 && DaysBeforeMonth(13, leap) == if leap then 366 else 365
  {}

  lemma LeapYears(year: int)
    ensures IsLeap(year) <==> year % 400 == 0 || (year % 4 == 0 && year % 100 != 0)
  {
    CenturiesAreLeapYears(year);
  }

  lemma DayOfFirst(year: int, month: int)
    ensures DayNumberOf(Date(year, month, 1)) == DaysBeforeYear(year) + DaysBeforeMonth(month, IsLeap(year))
    ensures DaysBeforeMonth(1, IsLeap(year)) == 0
  {}

  lemma NextMonthIs(year: int, month: int)
    ensures FirstOfNextMonth(year, month) == if month == 12 then Date(year + 1, 1, 1) else Date(year, month + 1, 1)
  {}

  /** The dates there are: days from one to the length of their month. */
  lemma DatesThereAre(d: Date)
    ensures ValidDate(d) <==>
              || (d.month in {1, 3, 5, 7, 8, 10, 12} && 1 <= d.day <= 31)
              || (d.month in {4, 6, 9, 11} && 1 <= d.day <= 30)
              || (d.month == 2 && 1 <= d.day <= 28)
              || (d.month == 2 && d.day == 29 && (d.year % 400 == 0 || (d.year % 4 == 0 && d.year % 100 != 0)))
  {
    LeapYears(d.year);
    if 1 <= d.month <= 12 {
      hide DaysBeforeMonth, IsLeap;
      LengthOf(d.month, IsLeap(d.year));
    }
  }

  /**
   Where the count of days begins, the days of the week, and the units of time: year 1 begins on
   day 0, the Unix epoch, a Thursday, is day 719162, and the days of the week follow each other.
   */
  lemma DaysAndUnits(day: int)
    ensures DayNumberOf(Date(1, 1, 1)) == 0 && DayNumberOf(Date(1970, 1, 1)) == 719_162
    ensures Weekday(719_162) == 4 && 0 <= Weekday(day) <= 6
    ensures Weekday(day + 1) == if Weekday(day) == 6 then 0 else Weekday(day) + 1
    ensures DAY == 24 * HOUR && HOUR == 60 * MINUTE && MINUTE == 60 * SECOND && SECOND == 1000 * MILLISECOND == 1_000_000
  {
    NextWeekday(day + 1);
  }

  // ----- truncation

  datatype Precision =
    | Microseconds | Milliseconds | Second
    | Minute | Minute5 | Minute10 | Minute15 | Minute20 | Minute30
    | Hour | Day | Week | Month | Year | Decade | Century | Millennia
    | Unsupported(name: string)

  /** Integer division that truncates toward zero, as the source's does. */
  function Quo(a: int, b: int): int
    requires b > 0
  {
    if a >= 0 then a / b else -(-a / b)
  }

  function TruncateByMinuteStep(t: Instant, step: int): Instant
    requires step > 0
  {
    Midnight(DateOf(DayNumber(t))) + HourOf(t) * HOUR + MinuteOf(t) / step * step * MINUTE
  }

  function TruncateWeek(t: Instant): Instant {
    var day := DayNumber(t);
    var weekday := if Weekday(day) == 0 then 7 else Weekday(day);
    Midnight(DateOf(day - (weekday - 1)))
  }

  /** The bucket of t; an unsupported precision, which TruncateTime rejects, leaves t alone. */
  function Truncate(p: Precision, t: Instant): Instant {
    var date := DateOf(DayNumber(t));
    match p
    case Microseconds => t
    case Milliseconds => t - t % MILLISECOND
    case Second => t - t % SECOND
    case Minute => t - t % MINUTE
    case Minute5 => TruncateByMinuteStep(t, 5)
    case Minute10 => TruncateByMinuteStep(t, 10)
    case Minute15 => TruncateByMinuteStep(t, 15)
    case Minute20 => TruncateByMinuteStep(t, 20)
    case Minute30 => TruncateByMinuteStep(t, 30)
    case Hour => t - t % HOUR
    case Day => Midnight(date)
    case Week => TruncateWeek(t)
    case Month => Midnight(Date(date.year, date.month, 1))
    case Year => Midnight(Date(date.year, 1, 1))
    case Decade => Midnight(Date(Quo(date.year, 10) * 10, 1, 1))
    case Century => Midnight(Date(Quo(date.year - 1, 100) * 100 + 1, 1, 1))
    case Millennia => Midnight(Date(Quo(date.year - 1, 1000) * 1000 + 1, 1, 1))
    case Unsupported(_) => t
  }

  /** The instants at which a bucket of precision p begins, by their calendar fields alone. */
  ghost predicate IsBoundary(p: Precision, t: Instant) {
    var date := DateOf(DayNumber(t));
    var newYear := TimeOfDay(t) == 0 && date.month == 1 && date.day == 1;
    match p
    case Microseconds => true
    case Milliseconds => t % MILLISECOND == 0
    case Second => t % SECOND == 0
    case Minute => t % MINUTE == 0
    case Minute5 => t % MINUTE == 0 && MinuteOf(t) % 5 == 0
    case Minute10 => t % MINUTE == 0 && MinuteOf(t) % 10 == 0
    case Minute15 => t % MINUTE == 0 && MinuteOf(t) % 15 == 0
    case Minute20 => t % MINUTE == 0 && MinuteOf(t) % 20 == 0
    case Minute30 => t % MINUTE == 0 && MinuteOf(t) % 30 == 0
    case Hour => t % HOUR == 0
    case Day => TimeOfDay(t) == 0
    case Week => TimeOfDay(t) == 0 && Weekday(DayNumber(t)) == 1
    case Month => TimeOfDay(t) == 0 && date.day == 1
    case Year => newYear
    case Decade => newYear && date.year % 10 == 0
    case Century => newYear && date.year % 100 == 1
    case Millennia => newYear && date.year % 1000 == 1
    case Unsupported(_) => false
  }

  ghost predicate GreatestBoundary(p: Precision, t: Instant, r: Instant) {
    IsBoundary(p, r) && r <= t && forall b :: IsBoundary(p, b) && b <= t ==> b <= r
  }

  /** False only in the years before year 1 that the source's truncating division rounds up. */
  predicate RoundsDown(p: Precision, t: Instant) {
    var year := YearOf(DayNumber(t));
    match p
    case Decade => year >= 0 || year % 10 == 0
    case Century => year >= 1 || year % 100 == 1
    case Millennia => year >= 1 || year % 1000 == 1
    case Unsupported(_) => false
    case _ => true
  }

  lemma MidnightSplits(day: int)
    ensures DayNumber(day * DAY) == day && TimeOfDay(day * DAY) == 0
  {}

  /** x - x % step is the greatest multiple of step not above x. */
  lemma StepIsFloor(x: int, step: int)
    requires step > 0
    ensures (x - x % step) % step == 0 && x - x % step <= x
    ensures forall b: int :: b % step == 0 && b <= x ==> b <= x - x % step
  {
    assert x - x % step == x / step * step;
    Quotient(x / step, step, 0);
    forall b: int | b % step == 0 && b <= x ensures b <= x - x % step {
      assert b == b / step * step;
      MultipleBelow(b / step, x / step, step, x % step);
      assert b / step * step <= x / step * step;
    }
  }

  lemma MinuteNumber(d: int, h: int, m: int, s: int)
    requires 0 <= s < MINUTE && 0 <= m < 60
    ensures var u := (d * DAY + h * HOUR + m * MINUTE + s) / MINUTE;
            u == d * 1440 + h * 60 + m && u % 60 == m
  {
    var hours := d * 24 + h;
    var u := hours * 60 + m;
    assert d * DAY + h * HOUR + m * MINUTE + s == u * MINUTE + s;
    Quotient(u, MINUTE, s);
    Quotient(hours, 60, m);
  }

  lemma MinuteOfHour(t: Instant)
    ensures MinuteOf(t) == t / MINUTE % 60
    ensures DayNumber(t) * DAY + HourOf(t) * HOUR == (t / MINUTE - MinuteOf(t)) * MINUTE
  {
    var d, h, m := DayNumber(t), HourOf(t), MinuteOf(t);
    var s := TimeOfDay(t) % HOUR % MINUTE;
    assert t == d * DAY + h * HOUR + m * MINUTE + s;
    MinuteNumber(d, h, m, s);
  }

  lemma StepDividesHour(u: int, step: int)
    requires step in {5, 10, 15, 20, 30}
    ensures u % 60 % step == u % step
  {
    var q, m := u / 60, u % 60;
    assert u == 60 * q + m;
    var k := 60 / step;
    assert m == m / step * step + m % step;
    Quotient(q * k + m / step, step, m % step);
    assert (q * k + m / step) * step + m % step == 60 * q + m by {
      if step == 5 {} else if step == 10 {} else if step == 15 {} else if step == 20 {} else {}
    }
  }

  lemma MinuteStepValue(t: Instant, step: int)
    requires step in {5, 10, 15, 20, 30}
    ensures var u := t / MINUTE; TruncateByMinuteStep(t, step) == (u - u % step) * MINUTE
  {
    var m, u := MinuteOf(t), t / MINUTE;
    DateOfDay(DayNumber(t));
    MinuteOfHour(t);
    StepDividesHour(u, step);
    assert m / step * step == m - m % step;
  }

  lemma MinuteOfStep(u: int, step: int)
    requires step in {5, 10, 15, 20, 30}
    ensures var r := (u - u % step) * MINUTE; r % MINUTE == 0 && MinuteOf(r) % step == 0
  {
    hide MinuteOf;
    var r := (u - u % step) * MINUTE;
    Quotient(u - u % step, MINUTE, 0);
    MinuteOfHour(r);
    StepDividesHour(u - u % step, step);
    StepIsFloor(u, step);
  }

  lemma MinuteStepBelow(t: Instant, b: Instant, step: int)
    requires step in {5, 10, 15, 20, 30} && b % MINUTE == 0 && MinuteOf(b) % step == 0 && b <= t
    ensures var u := t / MINUTE; b <= (u - u % step) * MINUTE
  {
    hide MinuteOf;
    var u, v := t / MINUTE, b / MINUTE;
    assert t == u * MINUTE + t % MINUTE && b == v * MINUTE;
    MinuteOfHour(b);
    StepDividesHour(v, step);
    MultipleBelow(v, u, MINUTE, t % MINUTE);
    StepIsFloor(u, step);
  }

  lemma MinuteStepIsFloor(t: Instant, step: int)
    requires step in {5, 10, 15, 20, 30}
    ensures var r := TruncateByMinuteStep(t, step);
            r <= t && r % MINUTE == 0 && MinuteOf(r) % step == 0
            && forall b: int :: b % MINUTE == 0 && MinuteOf(b) % step == 0 && b <= t ==> b <= r
  {
    hide TruncateByMinuteStep, MinuteOf;
    var u := t / MINUTE;
    MinuteStepValue(t, step);
    MinuteOfStep(u, step);
    assert u * MINUTE <= t && u - u % step <= u;
    forall b: int | b % MINUTE == 0 && MinuteOf(b) % step == 0 && b <= t ensures b <= (u - u % step) * MINUTE {
      MinuteStepBelow(t, b, step);
    }
  }

  lemma NextWeekday(day: int)
    ensures (day + 1) % 7 == if day % 7 == 6 then 0 else day % 7 + 1
  {
    assert day == day / 7 * 7 + day % 7;
  }

  lemma WeekStart(day: int)
    ensures TruncateWeek(day * DAY) == (day - day % 7) * DAY
    ensures Weekday(day) == 1 <==> day % 7 == 0
  {
    hide DateOf, DayNumberOf;
    MidnightSplits(day);
    DateOfDay(day - day % 7);
    NextWeekday(day);
  }

  lemma TruncateWeekOfDay(t: Instant)
    ensures TruncateWeek(t) == TruncateWeek(DayNumber(t) * DAY)
  {
    hide DateOf, DayNumberOf;
    MidnightSplits(DayNumber(t));
  }

  lemma WeekIsFloor(t: Instant)
    ensures GreatestBoundary(Week, t, Truncate(Week, t))
  {
    hide TruncateWeek, DateOf, Weekday;
    var day := DayNumber(t);
    var first := day - day % 7;
    WeekStart(day);
    TruncateWeekOfDay(t);
    MidnightSplits(day);
    assert Truncate(Week, t) == first * DAY;
    StepIsFloor(day, 7);
    MidnightSplits(first);
    WeekStart(first);
    forall b | IsBoundary(Week, b) && b <= t ensures b <= first * DAY {
      WeekStart(DayNumber(b));
      assert DayNumber(b) <= first;
    }
  }

  /** No month starts between the first of a day's month and that day. */
  lemma MonthStartsBefore(day: int, first: int)
    requires DateOf(first).day == 1 && first <= day
    ensures first <= day - (DateOf(day).day - 1)
  {
    hide YearOf, DaysBeforeYear, MonthOf, DaysBeforeMonth, IsLeap;
    var date, year := DateOf(day), YearOf(day);
    var start := day - (date.day - 1);
    if start < first {
      DateOfDay(day);
      DayOfDate(Date(date.year, date.month, 1));
      assert YearOf(start) == year;
      YearOfMonotone(start, first);
      YearOfMonotone(first, day);
      YearOfBounds(day);
      NextYear(year);
      MonthOfBounds(day - DaysBeforeYear(year), IsLeap(year));
      MonthOfUnique(first - DaysBeforeYear(year), IsLeap(year), date.month);
    }
  }

  lemma MonthIsFloor(t: Instant)
    ensures GreatestBoundary(Month, t, Truncate(Month, t))
  {
    var day := DayNumber(t);
    var date := DateOf(day);
    var first := Date(date.year, date.month, 1);
    DateOfDay(day);
    DayOfDate(first);
    var start := DayNumberOf(first);
    assert start == day - (date.day - 1);
    MidnightSplits(start);
    forall b | IsBoundary(Month, b) && b <= t ensures b <= start * DAY {
      MonthStartsBefore(day, DayNumber(b));
    }
  }

  ghost predicate NewYear(t: Instant) {
    TimeOfDay(t) == 0 && DateOf(DayNumber(t)).month == 1 && DateOf(DayNumber(t)).day == 1
  }

  lemma NewYearInstant(year: int)
    ensures var t := Midnight(Date(year, 1, 1));
            t == DaysBeforeYear(year) * DAY && NewYear(t) && DateOf(DayNumber(t)).year == year
  {
    DayOfDate(Date(year, 1, 1));
    MidnightSplits(DaysBeforeYear(year));
  }

  lemma NewYearNotAfter(year: int, t: Instant)
    ensures Midnight(Date(year, 1, 1)) <= t <==> year <= YearOf(DayNumber(t))
  {
    hide YearOf, DaysBeforeYear;
    var day := DayNumber(t);
    NewYearInstant(year);
    YearOfBounds(day);
    if year < YearOf(day) {
      YearsIncrease(year, YearOf(day));
    } else if YearOf(day) + 1 < year {
      YearsIncrease(YearOf(day) + 1, year);
    }
  }

  /** The new year of the greatest year not after t's that lies on a grid of years. */
  lemma NewYearIsFloor(t: Instant, year: int, stride: int, residue: int)
    requires stride > 0 && year % stride == residue && year <= YearOf(DayNumber(t))
    requires forall y: int :: y % stride == residue && y <= YearOf(DayNumber(t)) ==> y <= year
    ensures var r := Midnight(Date(year, 1, 1));
            r <= t && NewYear(r) && DateOf(DayNumber(r)).year % stride == residue
            && forall b :: NewYear(b) && DateOf(DayNumber(b)).year % stride == residue && b <= t ==> b <= r
  {
    var r := Midnight(Date(year, 1, 1));
    NewYearInstant(year);
    NewYearNotAfter(year, t);
    forall b | NewYear(b) && DateOf(DayNumber(b)).year % stride == residue && b <= t ensures b <= r {
      DateOfDay(DayNumber(b));
      var y := DateOf(DayNumber(b)).year;
      assert b == Midnight(Date(y, 1, 1));
      NewYearNotAfter(y, t);
      if y < year { YearsIncrease(y, year); }
      NewYearInstant(y);
    }
  }

  lemma QuoFloors(y: int, stride: int, shift: int)
    requires stride in {10, 100, 1000} && 0 <= shift <= 1
    ensures var r := Quo(y - shift, stride) * stride + shift;
            if y >= shift || y % stride == shift
            then r <= y && r % stride == shift && forall b: int :: b % stride == shift && b <= y ==> b <= r
            else r > y
  {
    var x := y - shift;
    var r := Quo(x, stride) * stride + shift;
    ShiftedRemainder(y, stride, shift);
    if x >= 0 || x % stride == 0 {
      StepIsFloor(x, stride);
      NegatedQuotient(x, stride);
      assert r == x - x % stride + shift;
      ShiftedRemainder(r, stride, shift);
      forall b: int | b % stride == shift && b <= y ensures b <= r {
        ShiftedRemainder(b, stride, shift);
      }
    } else {
      NegatedQuotient(x, stride);
    }
  }

  lemma ShiftedRemainder(y: int, stride: int, shift: int)
    requires 0 <= shift < stride
    ensures y % stride == shift <==> (y - shift) % stride == 0
  {
    var x := y - shift;
    assert y == y / stride * stride + y % stride;
    assert x == x / stride * stride + x % stride;
    if y % stride == shift {
      Quotient(y / stride, stride, 0);
    }
    if x % stride == 0 {
      Quotient(x / stride, stride, shift);
    }
  }

  lemma Negate(q: int, stride: int)
    ensures -q * stride == -(q * stride)
  {}

  lemma NegatedQuotient(x: int, stride: int)
    requires stride > 0
    ensures x >= 0 || x % stride == 0 ==> Quo(x, stride) * stride == x - x % stride
    ensures x < 0 && x % stride != 0 ==> Quo(x, stride) * stride > x
  {
    var q, r := x / stride, x % stride;
    assert x == q * stride + r;
    if x < 0 {
      if r == 0 {
        Negate(q, stride);
        Quotient(-q, stride, 0);
      } else {
        Negate(q + 1, stride);
        Quotient(-(q + 1), stride, stride - r);
        assert (q + 1) * stride == q * stride + stride;
      }
    }
  }

  lemma YearIsFloor(t: Instant)
    ensures GreatestBoundary(Year, t, Midnight(Date(YearOf(DayNumber(t)), 1, 1)))
  {
    hide YearOf, MonthOf, DaysBeforeYear, Midnight;
    NewYearIsFloor(t, YearOf(DayNumber(t)), 1, 0);
  }

  lemma YearsAreFloor(p: Precision, t: Instant)
    requires p in {Year, Decade, Century, Millennia}
    ensures GreatestBoundary(p, t, Truncate(p, t)) <==> RoundsDown(p, t)
  {
    hide YearOf, MonthOf, DaysBeforeYear, Quo, GreatestBoundary, Midnight, DayNumber;
    var year := YearOf(DayNumber(t));
    assert DateOf(DayNumber(t)).year == year;
    match p
    case Year => YearIsFloor(t);
    case Decade => GridIsFloor(p, t, Quo(year, 10) * 10, 10, 0);
    case Century => GridIsFloor(p, t, Quo(year - 1, 100) * 100 + 1, 100, 1);
    case Millennia => GridIsFloor(p, t, Quo(year - 1, 1000) * 1000 + 1, 1000, 1);
  }

  lemma GridIsFloor(p: Precision, t: Instant, start: int, stride: int, shift: int)
    requires (p, stride, shift) in {(Decade, 10, 0), (Century, 100, 1), (Millennia, 1000, 1)}
    requires start == Quo(YearOf(DayNumber(t)) - shift, stride) * stride + shift
    ensures GreatestBoundary(p, t, Midnight(Date(start, 1, 1))) <==> RoundsDown(p, t)
  {
    hide YearOf, MonthOf, DaysBeforeYear, Quo;
    var year := YearOf(DayNumber(t));
    QuoFloors(year, stride, shift);
    NewYearNotAfter(start, t);
    if start <= year {
      NewYearIsFloor(t, start, stride, shift);
    }
  }

  /**
   Truncation is the floor onto the bucket boundaries, for every instant and every
   supported precision, exactly when RoundsDown holds, so for every instant from year 1 on.
   */
  lemma TruncateIsFloor(p: Precision, t: Instant)
    requires !p.Unsupported?
    ensures GreatestBoundary(p, t, Truncate(p, t)) <==> RoundsDown(p, t)
  {
    hide MinuteOf, YearOf, DateOf, TruncateByMinuteStep, TruncateWeek, Weekday, DayNumberOf;
    match p
    case Microseconds =>
    case Milliseconds => StepIsFloor(t, MILLISECOND);
    case Second => StepIsFloor(t, SECOND);
    case Minute => StepIsFloor(t, MINUTE);
    case Minute5 => MinuteStepIsFloor(t, 5);
    case Minute10 => MinuteStepIsFloor(t, 10);
    case Minute15 => MinuteStepIsFloor(t, 15);
    case Minute20 => MinuteStepIsFloor(t, 20);
    case Minute30 => MinuteStepIsFloor(t, 30);
    case Hour => StepIsFloor(t, HOUR);
    case Day => StepIsFloor(t, DAY); DateOfDay(DayNumber(t));
    case Week => WeekIsFloor(t);
    case Month => MonthIsFloor(t);
    case _ => YearsAreFloor(p, t);
  }

  lemma RoundsDownFromYearOne(p: Precision, t: Instant)
    requires !p.Unsupported? && t >= 0
    ensures RoundsDown(p, t) && 1 <= YearOf(DayNumber(t))
  {
    YearOfMonotone(0, DayNumber(t));
  }

  lemma BoundaryRoundsDown(p: Precision, r: Instant)
    requires IsBoundary(p, r)
    ensures RoundsDown(p, r)
  {
    hide YearOf, MonthOf, DaysBeforeYear, DaysBeforeMonth, IsLeap, MinuteOf;
  }

  /** Where truncation is a floor it is idempotent and keeps the order of instants. */
  lemma TruncateLaws(p: Precision, t: Instant, u: Instant)
    requires RoundsDown(p, t) && RoundsDown(p, u)
    ensures Truncate(p, Truncate(p, t)) == Truncate(p, t) <= t
    ensures t <= u ==> Truncate(p, t) <= Truncate(p, u)
  {
    hide Truncate, IsBoundary;
    var r := Truncate(p, t);
    TruncateIsFloor(p, t);
    TruncateIsFloor(p, u);
    BoundaryRoundsDown(p, r);
    TruncateIsFloor(p, r);
  }

  predicate DayOrCoarser(p: Precision) {
    p.Day? || p.Week? || p.Month? || p.Year? || p.Decade? || p.Century? || p.Millennia?
  }

  lemma ConstantOnDay(p: Precision, t: Instant, u: Instant)
    requires DayOrCoarser(p) && DayNumber(t) == DayNumber(u)
    ensures Truncate(p, t) == Truncate(p, u)
  {
    hide DateOf, DayNumberOf, Quo;
  }

  /** Going through the day first does not change the bucket of a day or coarser precision. */
  lemma ThroughDay(p: Precision, t: Instant)
    requires DayOrCoarser(p)
    ensures Truncate(Day, t) == DayNumber(t) * DAY == t - t % DAY
    ensures Truncate(p, Truncate(Day, t)) == Truncate(p, t)
  {
    hide DateOf;
    DateOfDay(DayNumber(t));
    MidnightSplits(DayNumber(t));
    ConstantOnDay(p, Truncate(Day, t), t);
  }

  /** Going through the hour first does not change the bucket of the hour or of a day or coarser precision. */
  lemma ThroughHour(p: Precision, t: Instant)
    requires DayOrCoarser(p) || p.Hour?
    ensures Truncate(Hour, t) == t - t % HOUR
    ensures Truncate(p, Truncate(Hour, t)) == Truncate(p, t)
  {
    hide DateOf;
    var r := t - t % HOUR;
    HourInDay(t);
    if DayOrCoarser(p) {
      ConstantOnDay(p, r, t);
    }
  }

  lemma HourInDay(t: Instant)
    ensures var r := t - t % HOUR; r / HOUR == t / HOUR && DayNumber(r) == DayNumber(t)
  {
    var d, tod := DayNumber(t), TimeOfDay(t);
    var h, s := tod / HOUR, tod % HOUR;
    Quotient(24 * d + h, HOUR, s);
    assert t == (24 * d + h) * HOUR + s;
    Quotient(d, DAY, h * HOUR);
  }
}
