/** Gregorian dates with a time of day, counted in milliseconds since 1970-01-01. */
module Dates {

  const MS_PER_DAY := 86400000
  const MAX_YEAR := 262142
  const U32_RANGE := 0x1_0000_0000
  const EPOCH_DAYS := 719162

  /** `tod` is the time of day in milliseconds. */
  datatype Date = Date(year: int, month: int, day: int, tod: int)

  predicate IsLeap(year: int) {
    (year % 4 == 0 && year % 100 != 0) || year % 400 == 0
  }

  function DaysInMonth(year: int, month: int): (n: int)
    ensures 28 <= n <= 31
  {
    if month in {1, 3, 5, 7, 8, 10, 12} then 31
    else if month in {4, 6, 9, 11} then 30
    else if month == 2 then (if IsLeap(year) then 29 else 28)
    else 30
  }

  predicate Valid(d: Date) {
    && d.year >= 0 && 1 <= d.month <= 12
    && 1 <= d.day <= DaysInMonth(d.year, d.month)
    && 0 <= d.tod < MS_PER_DAY
  }

  // ---- months and days as numbers ----

  function MonthIndex(d: Date): int {
    d.year * 12 + d.month - 1
  }

  function DaysIn(m: int): (n: int)
    ensures 28 <= n <= 31
  {
    DaysInMonth(m / 12, m % 12 + 1)
  }

  function DaysBeforeYear(year: int): int {
    365 * (year - 1) + (year - 1) / 4 - (year - 1) / 100 + (year - 1) / 400
  }

  function DaysBeforeMonth(year: int, month: int): int
    decreases month
  {
    if month <= 1 then 0 else DaysBeforeMonth(year, month - 1) + DaysInMonth(year, month - 1)
  }

  /** Days from 1970-01-01 to the first of a month. */
  function MonthStart(m: int): int {
    DaysBeforeYear(m / 12) + DaysBeforeMonth(m / 12, m % 12 + 1) - EPOCH_DAYS
  }

  function DayNumber(d: Date): int {
    MonthStart(MonthIndex(d)) + d.day - 1
  }

  function ToMs(d: Date): int {
    DayNumber(d) * MS_PER_DAY + d.tod
  }

  /** 0 is Monday; 1970-01-01 was a Thursday. */
  function Weekday(dayNumber: int): (w: int)
    ensures 0 <= w <= 6
  {
    (dayNumber + 3) % 7
  }

  lemma {:induction false} LeapDays(year: int)
    ensures year / 4 == (year - 1) / 4 + (if year % 4 == 0 then 1 else 0)
    ensures year / 100 == (year - 1) / 100 + (if year % 100 == 0 then 1 else 0)
    ensures year / 400 == (year - 1) / 400 + (if year % 400 == 0 then 1 else 0)
  {}

  lemma {:induction false} FourHundreds(year: int)
    requires year % 400 == 0
    ensures year % 100 == 0
  {
    var q := year / 400;
    assert year == 100 * (4 * q);
  }

  lemma {:induction false} Hundreds(year: int)
    requires year % 100 == 0
    ensures year % 4 == 0
  {
    var q := year / 100;
    assert year == 4 * (25 * q);
  }

  lemma {:induction false} MonthsFillYear(year: int)
    ensures DaysBeforeMonth(year, 13) == if IsLeap(year) then 366 else 365
  {
    hide IsLeap;
    assert DaysBeforeMonth(year, 4) == 31 + 31 + DaysInMonth(year, 2);
    assert DaysBeforeMonth(year, 7) == DaysBeforeMonth(year, 4) + 30 + 31 + 30;
    assert DaysBeforeMonth(year, 10) == DaysBeforeMonth(year, 7) + 31 + 31 + 30;
    assert DaysBeforeMonth(year, 13) == DaysBeforeMonth(year, 10) + 31 + 30 + 31;
  }

  lemma {:induction false} YearLength(year: int)
    ensures DaysBeforeYear(year + 1) == DaysBeforeYear(year) + DaysBeforeMonth(year, 13)
  {
    hide DaysBeforeMonth;
    LeapDays(year);
    if year % 400 == 0 {
      FourHundreds(year);
    }
    if year % 100 == 0 {
      Hundreds(year);
    }
    MonthsFillYear(year);
  }

  /** Months follow one another without gap or overlap. */
  lemma {:induction false} NextMonthStart(m: int)
    ensures MonthStart(m + 1) == MonthStart(m) + DaysIn(m)
  {
    var y, k := m / 12, m % 12 + 1;
    if k < 12 {
      assert (m + 1) / 12 == y && (m + 1) % 12 == k;
    } else {
      assert (m + 1) / 12 == y + 1 && (m + 1) % 12 == 0;
      YearLength(y);
      assert DaysBeforeMonth(y, 13) == DaysBeforeMonth(y, 12) + DaysInMonth(y, 12);
    }
  }

  lemma {:induction false} MonthStartGrows(m: int, n: int)
    requires m < n
    ensures MonthStart(m) + DaysIn(m) <= MonthStart(n)
    decreases n - m
  {
    hide MonthStart, DaysIn;
    NextMonthStart(m);
    if m + 1 == n {
    } else {
      MonthStartGrows(m + 1, n);
    }
  }

  lemma {:induction false} EpochStart()
    ensures MonthStart(23640) == 0
  {
    assert 365 * 1969 + 1969 / 4 - 1969 / 100 + 1969 / 400 == EPOCH_DAYS;
    assert 23640 / 12 == 1970 && 23640 % 12 + 1 == 1;
    assert DaysBeforeMonth(1970, 1) == 0;
  }

  lemma {:induction false} IndexSplits(d: Date)
    requires Valid(d)
    ensures MonthIndex(d) / 12 == d.year && MonthIndex(d) % 12 + 1 == d.month
    ensures DaysIn(MonthIndex(d)) == DaysInMonth(d.year, d.month)
  {}

  /** A date in an earlier month is an earlier instant. */
  lemma {:induction false} EarlierMonth(a: Date, b: Date)
    requires Valid(a) && Valid(b) && MonthIndex(a) < MonthIndex(b)
    ensures DayNumber(a) < DayNumber(b) && ToMs(a) < ToMs(b)
  {
    IndexSplits(a);
    MonthStartGrows(MonthIndex(a), MonthIndex(b));
    DayOrder(a, b);
  }

  lemma {:induction false} DayOrder(a: Date, b: Date)
    requires 0 <= a.tod < MS_PER_DAY && 0 <= b.tod < MS_PER_DAY
    ensures DayNumber(a) < DayNumber(b) ==> ToMs(a) < ToMs(b)
  {}

  /** Instants name dates uniquely. */
  lemma {:induction false} ToMsInjective(a: Date, b: Date)
    requires Valid(a) && Valid(b) && ToMs(a) == ToMs(b)
    ensures a == b
  {
    DayOrder(a, b);
    DayOrder(b, a);
    if MonthIndex(a) < MonthIndex(b) {
      EarlierMonth(a, b);
    } else if MonthIndex(b) < MonthIndex(a) {
      EarlierMonth(b, a);
    } else {
      IndexSplits(a);
      IndexSplits(b);
    }
  }

  // ---- from milliseconds back to a date ----

  function NextDay(d: Date): Date {
    if d.day < DaysInMonth(d.year, d.month) then d.(day := d.day + 1)
    else if d.month < 12 then Date(d.year, d.month + 1, 1, d.tod)
    else Date(d.year + 1, 1, 1, d.tod)
  }

  function CivilDay(n: nat): Date {
    if n == 0 then Date(1970, 1, 1, 0) else NextDay(CivilDay(n - 1))
  }

  function FromMs(ms: nat): Date {
    CivilDay(ms / MS_PER_DAY).(tod := ms % MS_PER_DAY)
  }

  lemma {:induction false} NextDayCounts(d: Date)
    requires Valid(d)
    ensures Valid(NextDay(d)) && DayNumber(NextDay(d)) == DayNumber(d) + 1
  {
    hide MonthStart, IsLeap;
    IndexSplits(d);
    NextMonthStart(MonthIndex(d));
    if d.day < DaysInMonth(d.year, d.month) {
      assert MonthIndex(NextDay(d)) == MonthIndex(d);
    } else {
      assert MonthIndex(NextDay(d)) == MonthIndex(d) + 1;
    }
  }

  lemma {:induction false} CivilDayCounts(n: nat)
    ensures Valid(CivilDay(n)) && DayNumber(CivilDay(n)) == n && CivilDay(n).year >= 1970 && CivilDay(n).tod == 0
  {
    if n == 0 {
      EpochStart();
    } else {
      CivilDayCounts(n - 1);
      NextDayCounts(CivilDay(n - 1));
    }
  }

  /** Converting an instant to a date and back is the identity. */
  lemma {:induction false} FromMsRoundTrip(ms: nat)
    ensures Valid(FromMs(ms)) && ToMs(FromMs(ms)) == ms && FromMs(ms).year >= 1970
    ensures DayNumber(FromMs(ms)) == ms / MS_PER_DAY && FromMs(ms).tod == ms % MS_PER_DAY
  {
    var n := ms / MS_PER_DAY;
    CivilDayCounts(n);
    assert MonthIndex(FromMs(ms)) == MonthIndex(CivilDay(n));
  }

  /** Every valid date from 1970 on comes back from its own instant. */
  lemma {:induction false} ToMsRoundTrip(d: Date)
    requires Valid(d) && d.year >= 1970
    ensures ToMs(d) >= 0 && FromMs(ToMs(d)) == d
  {
    EpochStart();
    IndexSplits(d);
    if MonthIndex(d) > 23640 {
      MonthStartGrows(23640, MonthIndex(d));
    }
    FromMsRoundTrip(ToMs(d));
    ToMsInjective(d, FromMs(ToMs(d)));
  }

  // ---- the calendar's date arithmetic ----

  /** chrono refuses dates outside its year range; the callers then keep the old date. */
  predicate InCalendar(year: int) {
    -262143 <= year <= MAX_YEAR
  }

  function AsI32(x: int): int {
    (x + 0x8000_0000) % U32_RANGE - 0x8000_0000
  }

  /** Subtraction of two u32 months; a borrow wraps around. */
  function SubU32(a: int, b: int): int {
    (a - b) % U32_RANGE
  }

  function MonthsBetween(from: Date, to: Date): int {
    (to.year - from.year) * 12 + SubU32(to.month, from.month)
  }

  /** The day is cut to the length of the target month; the time of day stays. */
  function AdvanceMonths(d: Date, months: nat): Date
    requires Valid(d)
  {
    var total := MonthIndex(d) + months;
    var year := AsI32(total / 12);
    var month := total % 12 + 1;
    var dim := DaysInMonth(year, month);
    var day := if d.day < dim then d.day else dim;
    if InCalendar(year) then Date(year, month, day, d.tod) else d
  }

  function SetDay(d: Date, day: int): Date {
    var dim := DaysInMonth(d.year, d.month);
    d.(day := if day < dim then day else dim)
  }

  /** The date `months` later with the same day, for days that exist there. */
  function Shift(d: Date, months: int): Date {
    var m := MonthIndex(d) + months;
    Date(m / 12, m % 12 + 1, d.day, d.tod)
  }

  /** The last month index the calendar can hold. */
  const MAX_MONTH_INDEX := MAX_YEAR * 12 + 11

  lemma {:induction false} IndexInCalendar(d: Date)
    requires Valid(d) && d.year <= MAX_YEAR
    ensures MonthIndex(d) <= MAX_MONTH_INDEX
  {}

  lemma {:induction false} AdvanceInRange(d: Date, months: nat)
    requires Valid(d) && MonthIndex(d) + months <= MAX_MONTH_INDEX
    ensures Valid(AdvanceMonths(d, months))
    ensures MonthIndex(AdvanceMonths(d, months)) == MonthIndex(d) + months
    ensures AdvanceMonths(d, months).day == if d.day < DaysIn(MonthIndex(d) + months)
        then d.day else DaysIn(MonthIndex(d) + months)
    ensures AdvanceMonths(d, months).tod == d.tod
  {
    var total := MonthIndex(d) + months;
    assert 0 <= total / 12 <= MAX_YEAR;
  }

  /** The longest step a 32-bit interval of years can ask for. */
  const MAX_STEP := 12 * 0x7FFF_FFFF

  /** Past the calendar's end the date does not move at all; a year number that no longer fits
      32 bits turns negative and is refused as well. */
  lemma {:induction false} AdvanceOutOfRange(d: Date, months: nat)
    requires Valid(d) && MAX_MONTH_INDEX < MonthIndex(d) + months <= 2 * MAX_MONTH_INDEX + MAX_STEP
    ensures AdvanceMonths(d, months) == d
  {
    var year := (MonthIndex(d) + months) / 12;
    assert MAX_YEAR < year < 0x8000_0000 + 2 * MAX_YEAR + 2;
    assert AsI32(year) == if year < 0x8000_0000 then year else year - U32_RANGE;
  }

  /** Moving forward makes progress exactly when the target month exists; otherwise a loop
      that steps by months would repeat the same date for ever. */
  lemma {:induction false} AdvanceMovesIff(d: Date, months: nat)
    requires Valid(d) && d.year <= MAX_YEAR && 0 < months <= MAX_STEP
    ensures ToMs(AdvanceMonths(d, months)) > ToMs(d) <==> MonthIndex(d) + months <= MAX_MONTH_INDEX
    ensures MonthIndex(d) + months > MAX_MONTH_INDEX ==> AdvanceMonths(d, months) == d
  {
    IndexSplits(d);
    if MonthIndex(d) + months <= MAX_MONTH_INDEX {
      AdvanceInRange(d, months);
      EarlierMonth(d, AdvanceMonths(d, months));
    } else {
      AdvanceOutOfRange(d, months);
    }
  }

  /** Two steps are one step exactly when the stop in between does not cut the day further
      than the destination does. */
  lemma {:induction false} AdvanceComposesIff(d: Date, a: nat, b: nat)
    requires Valid(d) && MonthIndex(d) + a + b <= MAX_MONTH_INDEX
    ensures Valid(AdvanceMonths(d, a))
    ensures AdvanceMonths(AdvanceMonths(d, a), b) == AdvanceMonths(d, a + b) <==>
            d.day <= DaysIn(MonthIndex(d) + a) || DaysIn(MonthIndex(d) + a + b) <= DaysIn(MonthIndex(d) + a)
  {
    hide AdvanceMonths, DaysIn, MonthIndex, DaysInMonth;
    AdvanceInRange(d, a);
    AdvanceInRange(AdvanceMonths(d, a), b);
    AdvanceInRange(d, a + b);
    SameMonth(AdvanceMonths(AdvanceMonths(d, a), b), AdvanceMonths(d, a + b));
  }

  lemma {:induction false} SameMonth(a: Date, b: Date)
    requires Valid(a) && Valid(b) && MonthIndex(a) == MonthIndex(b)
    ensures a.year == b.year && a.month == b.month
  {
    IndexSplits(a);
    IndexSplits(b);
  }

  /** The difference in months, and what the wrapped subtraction does to it: it is exact when
      the later month number is not smaller, and otherwise 2^32 too large. */
  lemma {:induction false} MonthsBetweenIs(from: Date, to: Date)
    requires Valid(from) && Valid(to)
    ensures MonthsBetween(from, to) ==
            MonthIndex(to) - MonthIndex(from) + (if to.month < from.month then U32_RANGE else 0)
  {
    if to.month < from.month {
      assert (to.month - from.month + U32_RANGE) % U32_RANGE == to.month - from.month + U32_RANGE;
      assert (to.month - from.month) % U32_RANGE == (to.month - from.month + U32_RANGE) % U32_RANGE;
    }
  }

  // ---- the nth weekday of a month ----

  /** All of it is 32-bit unsigned arithmetic; a target of 0 is no day, and the date stays. */
  function NthWeekday(d: Date, week: nat, dayOfWeek: nat): Date {
    var first := MonthStart(MonthIndex(d));
    var diff := DaysUntil(Weekday(first), dayOfWeek);
    var target := (1 + diff + week * 7) % U32_RANGE;
    var dim := DaysInMonth(d.year, d.month);
    var day := if target < dim then target else dim;
    if day == 0 then d else d.(day := day)
  }

  /** How many days of the month before `day` fall on this weekday. */
  function EarlierSame(first: int, day: int, dayOfWeek: int): int
    decreases day
  {
    if day <= 1 then 0
    else EarlierSame(first, day - 1, dayOfWeek) + (if Weekday(first + day - 2) == dayOfWeek then 1 else 0)
  }

  /** Days until the first such weekday from a day with weekday `from`. */
  function DaysUntil(from: int, dayOfWeek: nat): (diff: int)
    requires 0 <= from <= 6
    ensures 0 <= diff <= 6
  {
    (dayOfWeek + 7 - from) % U32_RANGE % 7
  }

  lemma {:induction false} DaysUntilIs(from: int, dayOfWeek: nat)
    requires 0 <= from <= 6 && dayOfWeek <= 6
    ensures var diff := DaysUntil(from, dayOfWeek); from + diff == dayOfWeek || from + diff == dayOfWeek + 7
  {
    assert (dayOfWeek + 7 - from) % U32_RANGE == dayOfWeek + 7 - from;
  }

  lemma {:induction false} WeekdayAfter(first: int, k: nat)
    ensures Weekday(first + k) == (Weekday(first) + k) % 7
  {
    var q := (first + 3) / 7;
    assert first + 3 == 7 * q + Weekday(first);
    assert first + k + 3 == 7 * q + (Weekday(first) + k);
  }

  lemma {:induction false} SameResidueIff(a: int, b: int, rest: int, c: int)
    requires 0 <= rest <= 6 && a == b + rest + 7 * c
    ensures a % 7 == rest <==> b % 7 == 0
  {
    var t := b / 7;
    assert b == 7 * t + b % 7;
    if b % 7 == 0 {
      assert a == 7 * (t + c) + rest;
    }
    if a % 7 == rest {
      assert b == 7 * (a / 7 - c);
    }
  }

  lemma {:induction false} HitsWeekdayIff(first: int, k: nat, dayOfWeek: int)
    requires 0 <= dayOfWeek <= 6
    ensures Weekday(first + k) == dayOfWeek <==> (k - DaysUntil(Weekday(first), dayOfWeek)) % 7 == 0
  {
    hide Weekday, DaysUntil;
    WeekdayAfter(first, k);
    var r := Weekday(first);
    var diff := DaysUntil(r, dayOfWeek);
    DaysUntilIs(r, dayOfWeek);
    SameResidueIff(r + k, k - diff, dayOfWeek, if r + diff == dayOfWeek then 0 else 1);
  }

  lemma {:induction false} EarlierSameCount(first: int, day: int, dayOfWeek: int)
    requires 0 <= dayOfWeek <= 6 && day >= 1
    ensures var diff := DaysUntil(Weekday(first), dayOfWeek);
            EarlierSame(first, day, dayOfWeek) == if day - 1 <= diff then 0 else (day - 2 - diff) / 7 + 1
    decreases day
  {
    hide Weekday, DaysUntil;
    if day == 1 {
    } else {
      EarlierSameCount(first, day - 1, dayOfWeek);
      HitsWeekdayIff(first, day - 2, dayOfWeek);
    }
  }

  /** For the first to fourth week the answer stays in the month, falls on the requested
      weekday, and has exactly that many earlier days of that weekday before it. */
  lemma {:induction false} NthWeekdayIsNth(d: Date, week: nat, dayOfWeek: int)
    requires Valid(d) && 0 <= dayOfWeek <= 6 && week <= 3
    ensures var r := NthWeekday(d, week, dayOfWeek);
            && Valid(r) && MonthIndex(r) == MonthIndex(d) && r.tod == d.tod
            && Weekday(DayNumber(r)) == dayOfWeek
            && EarlierSame(MonthStart(MonthIndex(d)), r.day, dayOfWeek) == week
  {
    hide MonthStart, Weekday, DaysUntil, EarlierSame;
    var first := MonthStart(MonthIndex(d));
    var day := NthWeekday(d, week, dayOfWeek).day;
    assert day == 1 + DaysUntil(Weekday(first), dayOfWeek) + 7 * week;
    HitsWeekdayIff(first, day - 1, dayOfWeek);
    EarlierSameCount(first, day, dayOfWeek);
  }

  /** Week 4 is documented as "last". It hits the requested weekday exactly when the month has
      five of them, or is a 28-day February whose fourth one is the 28th; in every other month
      it answers the month's last day, whatever weekday that is. */
  lemma {:induction false} LastWeekdayIff(d: Date, dayOfWeek: int)
    requires Valid(d) && 0 <= dayOfWeek <= 6
    ensures var r := NthWeekday(d, 4, dayOfWeek);
            var diff := DaysUntil(Weekday(MonthStart(MonthIndex(d))), dayOfWeek);
            Valid(r) &&
            (Weekday(DayNumber(r)) == dayOfWeek <==>
              29 + diff <= DaysInMonth(d.year, d.month) || (DaysInMonth(d.year, d.month) == 28 && diff == 6))
  {
    hide MonthStart, Weekday, DaysUntil;
    var first := MonthStart(MonthIndex(d));
    HitsWeekdayIff(first, NthWeekday(d, 4, dayOfWeek).day - 1, dayOfWeek);
  }

  /** January 1970 has four Mondays, and its "last Monday" is answered with Saturday the 31st. */
  lemma {:induction false} LastMondayMissed()
    ensures var r := NthWeekday(Date(1970, 1, 1, 0), 4, 0);
            r == Date(1970, 1, 31, 0) && Weekday(DayNumber(r)) == 5
  {
    hide MonthStart;
    EpochStart();
    assert MonthIndex(Date(1970, 1, 1, 0)) == 23640;
  }
}
