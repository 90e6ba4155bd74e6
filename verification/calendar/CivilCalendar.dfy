/** The calendar told in numbers: month lengths, day numbers, instants and weekdays as tables and
    closed forms, which the counting definitions of Dates meet. */
module CivilCalendar {
  import opened Dates

  const LENGTHS := [31, 28, 31, 30, 31, 30, 31, 31, 30, 31, 30, 31]
  const DAYS_BEFORE := [0, 31, 59, 90, 120, 151, 181, 212, 243, 273, 304, 334]

  /** 1 in leap years. */
  function LeapDay(year: int): int {
    if year % 4 != 0 then 0 else if year % 100 != 0 then 1 else if year % 400 != 0 then 0 else 1
  }

  function LengthOf(year: int, month: int): int
    requires 1 <= month <= 12
  {
    LENGTHS[month - 1] + if month == 2 then LeapDay(year) else 0
  }

  /** Days since 1 January 1970. */
  function DaysSince(year: int, month: int, day: int): int
    requires 1 <= month <= 12
  {
    365 * (year - 1) + (year - 1) / 4 - (year - 1) / 100 + (year - 1) / 400
    + DAYS_BEFORE[month - 1] + (if month > 2 then LeapDay(year) else 0) + day - 1 - 719162
  }

  lemma {:induction false} LeapDayIff(year: int)
    ensures LeapDay(year) == 1 <==> IsLeap(year)
  {
    if year % 400 == 0 {
      FourHundreds(year);
    }
    if year % 100 == 0 {
      Hundreds(year);
    }
  }

  lemma {:induction false} MonthLength(year: int, month: int)
    requires 1 <= month <= 12
    ensures DaysInMonth(year, month) == LengthOf(year, month)
  {
    hide IsLeap, LeapDay;
    LeapDayIff(year);
    LeapDayIsOneOrNone(year);
  }

  lemma {:induction false} LeapDayIsOneOrNone(year: int)
    ensures 0 <= LeapDay(year) <= 1
  {}

  lemma {:induction false} MonthsBefore(year: int, month: int)
    requires 1 <= month <= 12
    ensures DaysBeforeMonth(year, month) == DAYS_BEFORE[month - 1] + if month > 2 then LeapDay(year) else 0
  {
    hide LeapDay, DaysInMonth;
    if month == 1 {
    } else {
      MonthsBefore(year, month - 1);
      MonthLength(year, month - 1);
    }
  }

  /** A date is valid exactly when its day lies within the month's length. */
  lemma {:induction false} ValidIff(d: Date)
    ensures Valid(d) <==>
            d.year >= 0 && 1 <= d.month <= 12 && 1 <= d.day <= LengthOf(d.year, d.month) && 0 <= d.tod < 86400000
  {
    hide LeapDay, DaysInMonth;
    if 1 <= d.month <= 12 {
      MonthLength(d.year, d.month);
    }
  }

  /** The day number and the instant of every valid date. */
  lemma {:induction false} InstantIs(d: Date)
    requires Valid(d)
    ensures DayNumber(d) == DaysSince(d.year, d.month, d.day)
    ensures ToMs(d) == DaysSince(d.year, d.month, d.day) * 86400000 + d.tod
  {
    hide LeapDay, DaysBeforeMonth;
    IndexSplits(d);
    MonthsBefore(d.year, d.month);
  }

  /** Going back from an instant gives the one valid date with that day number and time of day. */
  lemma {:induction false} DateIs(ms: nat)
    ensures var d := FromMs(ms);
            && 1 <= d.month <= 12 && 1 <= d.day <= LengthOf(d.year, d.month)
            && DaysSince(d.year, d.month, d.day) == ms / 86400000 && d.tod == ms % 86400000
  {
    hide FromMs, LeapDay, DaysInMonth, MonthStart;
    FromMsRoundTrip(ms);
    ValidIff(FromMs(ms));
    InstantIs(FromMs(ms));
  }

  /** 1 January 1970 was a Thursday, and the weekdays go round from Monday, 0, to Sunday, 6. */
  lemma {:induction false} WeekdaysGoRound(n: int)
    ensures Weekday(0) == 3
    ensures Weekday(n + 1) == if Weekday(n) == 6 then 0 else Weekday(n) + 1
    ensures Weekday(n + 7) == Weekday(n)
  {}

  /** A step of any size: the year is taken as a signed 32-bit number, and the date stays where that
      year is outside -262143 to 262142. */
  lemma {:induction false} StepWraps(d: Date, months: nat)
    requires Valid(d)
    ensures var i := d.year * 12 + d.month - 1 + months;
            var year := (i / 12 + 2147483648) % 4294967296 - 2147483648;
            var e := AdvanceMonths(d, months);
            if year < -262143 || year > 262142 then e == d
            else e.year == year && e.month == i % 12 + 1 && e.tod == d.tod
  {
    hide DaysInMonth;
  }

  /** A step of n months: n months on, the day cut to that month's length, the time of day kept; past
      the year 262142 the date stays. */
  lemma {:induction false} StepIs(d: Date, months: nat)
    requires Valid(d) && d.year <= 262142 && months <= 12 * 0x7FFF_FFFF
    ensures var e := AdvanceMonths(d, months);
            if d.year * 12 + d.month - 1 + months > 262142 * 12 + 11 then e == d
            else && e.year * 12 + e.month == d.year * 12 + d.month + months && 1 <= e.month <= 12
                 && e.day == (if d.day < LengthOf(e.year, e.month) then d.day else LengthOf(e.year, e.month))
                 && e.tod == d.tod
  {
    hide LeapDay, DaysInMonth, AdvanceMonths;
    if MonthIndex(d) + months <= MAX_MONTH_INDEX {
      AdvanceInRange(d, months);
      var e := AdvanceMonths(d, months);
      IndexSplits(e);
      MonthLength(e.year, e.month);
    } else {
      AdvanceOutOfRange(d, months);
    }
  }

  /** Setting the day back does so as far as the month's length allows. */
  lemma {:induction false} DaySet(d: Date, day: int)
    requires Valid(d)
    ensures SetDay(d, day) ==
            d.(day := if day < LengthOf(d.year, d.month) then day else LengthOf(d.year, d.month))
  {
    hide LeapDay, DaysInMonth;
    MonthLength(d.year, d.month);
  }
}
