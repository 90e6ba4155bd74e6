/** The loops that step by months, date by date: which day of the month each visited date has
    left, when such a loop ends, and what it leaves out. */
module MonthLoops {
  import opened Basics
  import opened Dates
  import opened Gather
  import opened Recurrence
  import opened RecurrenceExact
  import opened RuleExpansion

  /** The day a loop has left after i steps from month `m`: the smallest of the day it started
      with and the lengths of the months visited so far. */
  function VisitedDay(day: int, m: int, step: nat, i: nat): (d: int)
    ensures d <= day && d <= DaysIn(m + i * step)
  {
    if i == 0 then Min(day, DaysIn(m)) else Min(VisitedDay(day, m, step, i - 1), DaysIn(m + i * step))
  }

  lemma {:induction false} VisitedDayIs(day: int, first: Date, step: nat, k: nat)
    requires Valid(first) && first.year <= MAX_YEAR && step <= MAX_STEP
    requires MonthIndex(first) + k * step <= MAX_MONTH_INDEX
    requires first.day == Min(day, DaysIn(MonthIndex(first)))
    ensures Cursor(first, step, k).day == VisitedDay(day, MonthIndex(first), step, k)
  {
    hide ToMs, AdvanceMonths, DaysIn, MonthIndex;
    if k == 0 {
    } else {
      assert k * step == (k - 1) * step + step && (k - 1) * step >= 0;
      VisitedDayIs(day, first, step, k - 1);
      CursorInRange(first, step, k - 1);
      AdvanceInRange(Cursor(first, step, k - 1), step);
    }
  }

  /** Within a month, the day and the time of day decide. */
  function DayAndTime(d: Date): int {
    d.day * MS_PER_DAY + d.tod
  }

  lemma {:induction false} InstantOrder(a: Date, b: Date)
    requires Valid(a) && Valid(b)
    ensures ToMs(a) < ToMs(b) <==>
            MonthIndex(a) < MonthIndex(b) || (MonthIndex(a) == MonthIndex(b) && DayAndTime(a) < DayAndTime(b))
  {
    hide MonthIndex, MonthStart;
    if MonthIndex(a) < MonthIndex(b) {
      EarlierMonth(a, b);
    } else if MonthIndex(b) < MonthIndex(a) {
      EarlierMonth(b, a);
    }
  }

  // ---- when a loop ends ----

  /** A month loop ends exactly when the last date it can visit inside the calendar is not before
      the end: a later month, or the end's month with enough of the day left. */
  lemma {:induction false} LoopEndsIff(first: Date, step: nat, end: Date)
    requires Valid(first) && Valid(end) && first.year <= MAX_YEAR && 0 < step <= MAX_STEP
    ensures MonthIndex(first) <= MAX_MONTH_INDEX
    ensures var last := (MAX_MONTH_INDEX - MonthIndex(first)) / step;
            var m := MonthIndex(first) + last * step;
            Reaches(first, step, end) <==>
              || m > MonthIndex(end)
              || (m == MonthIndex(end) &&
                  VisitedDay(first.day, MonthIndex(first), step, last) * MS_PER_DAY + first.tod >= DayAndTime(end))
  {
    hide ToMs, MonthIndex, DaysIn;
    IndexInCalendar(first);
    var room := MAX_MONTH_INDEX - MonthIndex(first);
    var last := room / step;
    assert room == last * step + room % step;
    CursorInRange(first, step, last);
    var top := Cursor(first, step, last);
    IndexSplits(first);
    VisitedDayIs(first.day, first, step, last);
    InstantOrder(top, end);
    if n: nat :| ToMs(Cursor(first, step, n)) >= ToMs(end) {
      if n <= last {
        CursorGrows(first, step, n, last);
      } else {
        CursorStuck(first, step, last, n);
      }
    }
  }

  /** In particular whenever there is a month left one step behind the end's. */
  lemma {:induction false} LoopEndsWithRoom(first: Date, step: nat, end: Date)
    requires Valid(first) && Valid(end) && first.year <= MAX_YEAR && 0 < step <= MAX_STEP
    requires MonthIndex(end) + step <= MAX_MONTH_INDEX
    ensures Reaches(first, step, end)
  {
    hide MonthIndex, DaysIn, Reaches, VisitedDay;
    LoopEndsIff(first, step, end);
    var room := MAX_MONTH_INDEX - MonthIndex(first);
    assert room == room / step * step + room % step;
  }

  /** From 1 January 1970 in steps of the largest 32-bit number of months the first step leads past the
      calendar: the loop visits that day for ever, whatever later end it waits for. */
  lemma {:induction false} HugeStepNeverEnds(end: Date)
    requires Valid(end) && ToMs(end) > ToMs(Date(1970, 1, 1, 0))
    ensures !Reaches(Date(1970, 1, 1, 0), 0x7FFF_FFFF, end)
  {
    hide ToMs, Reaches, DaysIn;
    var first := Date(1970, 1, 1, 0);
    assert MonthIndex(first) == 23640;
    assert (MAX_MONTH_INDEX - 23640) / 0x7FFF_FFFF == 0;
    LoopEndsIff(first, 0x7FFF_FFFF, end);
    InstantOrder(first, end);
    assert DaysIn(23640) >= 28;
  }

  // ---- yearly rules of 29 February ----

  lemma {:induction false} FebruaryDays(base: Date, years: nat)
    requires base.month == 2
    ensures DaysIn(MonthIndex(base) + 12 * years) == if IsLeap(base.year + years) then 29 else 28
  {
    hide IsLeap;
    var m := MonthIndex(base) + 12 * years;
    assert m / 12 == base.year + years && m % 12 + 1 == 2;
  }

  /** Whether the i-th year visited after q skipped rounds is a leap year. */
  predicate LeapRound(base: Date, years: nat, i: int) {
    IsLeap(base.year + i * years)
  }

  lemma {:induction false} MonthsOfRounds(q: nat, years: nat, k: nat)
    ensures q * (years * 12) + k * (years * 12) == 12 * ((q + k) * years)
  {}

  lemma {:induction false} LeapDayLeft(base: Date, q: nat, years: nat, k: nat)
    requires base.month == 2
    ensures var m := MonthIndex(base) + q * (years * 12);
            VisitedDay(29, m, years * 12, k)
              == if forall i | q <= i <= q + k :: LeapRound(base, years, i) then 29 else 28
  {
    hide IsLeap, MonthIndex, DaysIn;
    MonthsOfRounds(q, years, k);
    FebruaryDays(base, (q + k) * years);
    if k == 0 {
      assert LeapRound(base, years, q) || !LeapRound(base, years, q);
    } else {
      LeapDayLeft(base, q, years, k - 1);
      assert LeapRound(base, years, q + k) || !LeapRound(base, years, q + k);
    }
  }

  /** A yearly rule born on 29 February that starts q rounds on (YearFastForward) visits, k rounds
      later, the date of one jump from its birth exactly when that year is common or every year
      visited so far is a leap year: once the 29th is lost it does not come back. */
  lemma {:induction false} LeapDayVisitedIff(base: Date, start: Date, first: Date, years: nat, q: nat, k: nat)
    requires Valid(base) && base.month == 2 && base.day == 29 && 0 < years * 12 <= MAX_STEP
    requires SkipsOnlyEarlier(base, start, first, years * 12, q)
    requires MonthIndex(first) + k * (years * 12) <= MAX_MONTH_INDEX
    ensures Cursor(first, years * 12, k) == AdvanceMonths(base, (q + k) * (years * 12)) <==>
            (LeapRound(base, years, q + k) ==> forall i | q <= i <= q + k :: LeapRound(base, years, i))
  {
    hide ToMs, MonthIndex, DaysIn, AdvanceMonths, IsLeap, VisitedDay, Cursor;
    var step := years * 12;
    CursorInRange(first, step, k);
    assert (q + k) * step == q * step + k * step;
    AdvanceInRange(base, (q + k) * step);
    SameMonth(Cursor(first, step, k), AdvanceMonths(base, (q + k) * step));
    VisitedDayIs(29, first, step, k);
    LeapDayLeft(base, q, years, k);
    assert (q + k) * step == 12 * ((q + k) * years);
    FebruaryDays(base, (q + k) * years);
    assert LeapRound(base, years, q + k) || !LeapRound(base, years, q + k);
  }

  /** Every year from 29 February 1972: in the next leap year the loop does not visit the 29th. */
  lemma {:induction false} LeapDayLost(base: Date)
    requires base == Date(1972, 2, 29, 0)
    ensures AdvanceMonths(base, 4 * 12) == Date(1976, 2, 29, 0) != Cursor(base, 12, 4)
  {
    hide ToMs, Cursor, AdvanceMonths, LeapRound, SkipsOnlyEarlier, MonthIndex;
    FourYearsOn(base);
    LeapDayVisitedIff(base, base, base, 1, 0, 4);
  }

  lemma {:induction false} FourYearsOn(base: Date)
    requires base == Date(1972, 2, 29, 0)
    ensures Valid(base) && AdvanceMonths(base, 4 * 12) == Date(1976, 2, 29, 0)
    ensures LeapRound(base, 1, 0 + 4) && !LeapRound(base, 1, 1)
    ensures SkipsOnlyEarlier(base, base, base, 1 * 12, 0) && MonthIndex(base) + 4 * (1 * 12) <= MAX_MONTH_INDEX
  {
    hide ToMs, LeapRound, AdvanceMonths;
    LeapYears(base);
    assert MonthIndex(base) == 23665 && DaysIn(23665) == 29 && DaysIn(23713) == 29;
    AdvanceInRange(base, 4 * 12);
    SameMonth(AdvanceMonths(base, 4 * 12), Date(1976, 2, 29, 0));
  }

  lemma {:induction false} LeapYears(base: Date)
    requires base.year == 1972
    ensures LeapRound(base, 1, 0 + 4) && !LeapRound(base, 1, 1)
  {}

  // ---- monthly rules with a base day past the 28th ----

  lemma {:induction false} ListingMonths(times: seq<int>, s: Schedule, c: Cycle, r: Rule)
    requires Supported(s, c, r) && r.cycleType == 3 && ExpandStart(s, c) < ExpandEnd(s, c) && Listing(times, s, c, r)
    ensures var base, start, end := FromMs(c.startAt), FromMs(ExpandStart(s, c)), FromMs(ExpandEnd(s, c));
            (WindowIsGood(s, c, r);
             MonthListing(times, s, c, OnDay(Min(base.day, 28)), MonthFirst(base, start, Interval(r)), Interval(r),
                          end))
  {
    hide ToMs, FromMs, MonthListing, MonthIndex;
  }

  lemma {:induction false} ClippedBase(base: Date, start: Date, first: Date, step: int, q: nat)
    requires Valid(base) && Valid(start) && step >= 1 && SkipsOnlyEarlier(base, start, first, step, q)
    ensures var series := base.(day := Min(base.day, 28));
            MonthIndex(series) == MonthIndex(base) && GoodSeries(series, start, step, q)
  {
    hide ToMs, MonthIndex, Shift, DaysIn;
    var series := base.(day := Min(base.day, 28));
    SameIndex(series, base);
    forall k: nat
      ensures Valid(Shift(series, k * step)) && MonthIndex(Shift(series, k * step)) == MonthIndex(series) + k * step
    {
      ShiftValid(series, k * step);
    }
    forall k: nat | k < q
      ensures Occ(series, step, k) < ToMs(start)
    {
      EarlierStep(series, start, step, q, k);
    }
  }

  /** The k-th date of a monthly rule, with its day cut to the 28th. */
  ghost function ClippedOcc(c: Cycle, r: Rule, k: nat): int
    requires c.startAt >= 0
  {
    var base := FromMs(c.startAt);
    Occ(base.(day := Min(base.day, 28)), Interval(r), k)
  }

  /** A date of the clipped series that the window and the filters admit is listed exactly when its
      month comes before the end's, or the day left by the months visited since the fast-forward -
      not the clipped day - still lies before the end. */
  lemma {:induction false} MonthlyListedIff(times: seq<int>, s: Schedule, c: Cycle, r: Rule, k: nat)
    requires Supported(s, c, r) && r.cycleType == 3 && ExpandStart(s, c) < ExpandEnd(s, c) && Listing(times, s, c, r)
    requires Keep(s, c, ClippedOcc(c, r, k)) && ClippedOcc(c, r, k) < ExpandEnd(s, c)
    ensures var base, end := FromMs(c.startAt), FromMs(ExpandEnd(s, c));
            var step, q := Interval(r), MonthsSkipped(base, FromMs(ExpandStart(s, c)), Interval(r));
            var month := MonthIndex(base) + k * step;
            && 0 <= q <= k && month <= MonthIndex(end)
            && (ClippedOcc(c, r, k) in times <==>
                || month < MonthIndex(end)
                || VisitedDay(base.day, MonthIndex(base) + q * step, step, k - q) * MS_PER_DAY + base.tod
                     < DayAndTime(end))
  {
    hide ToMs, FromMs, MonthIndex, Shift, Cursor, Picked, MonthListing, PicksSeries, AdvanceMonths, MonthsBetween,
      CeilTo, GoodSeries, DaysIn, Listing, Reaches, MonthsSkipped, VisitedDay;
    WindowIsGood(s, c, r);
    ListingMonths(times, s, c, r);
    var base, start, end := FromMs(c.startAt), FromMs(ExpandStart(s, c)), FromMs(ExpandEnd(s, c));
    var step, day := Interval(r), Min(base.day, 28);
    var series := base.(day := day);
    var first := MonthFirst(base, start, step);
    var q := MonthFastForward(base, start, end, step);
    MonthPicksSeries(base, start, first, step, q);
    ClippedBase(base, start, first, step, q);
    SeriesIsListed(times, s, c, OnDay(day), first, step, start, end, series, q, k);
    assert k * step == q * step + (k - q) * step;
    IndexInCalendar(end);
    CursorInRange(first, step, k - q);
    VisitedDayIs(base.day, first, step, k - q);
    InstantOrder(Cursor(first, step, k - q), end);
  }

  lemma {:induction false} MonthlyMissed(times: seq<int>, s: Schedule, c: Cycle, r: Rule, k: nat, day: int, q: int)
    requires Supported(s, c, r) && r.cycleType == 3 && ExpandStart(s, c) < ExpandEnd(s, c) && Listing(times, s, c, r)
    requires Keep(s, c, ClippedOcc(c, r, k)) && ClippedOcc(c, r, k) < ExpandEnd(s, c)
    requires q == MonthsSkipped(FromMs(c.startAt), FromMs(ExpandStart(s, c)), Interval(r)) && 0 <= q <= k
    requires var base, end := FromMs(c.startAt), FromMs(ExpandEnd(s, c));
             && MonthIndex(base) + k * Interval(r) == MonthIndex(end)
             && day == VisitedDay(base.day, MonthIndex(base) + q * Interval(r), Interval(r), k - q)
             && day * MS_PER_DAY + base.tod >= DayAndTime(end)
    ensures ClippedOcc(c, r, k) !in times
  {
    hide ToMs, FromMs, MonthIndex, Listing, Supported, VisitedDay, ClippedOcc, MonthsSkipped, DayAndTime;
    MonthlyListedIff(times, s, c, r, k);
  }

  /** Every second month from 31 January 1970, stopped on 30 March. */
  ghost predicate FromJanuary(s: Schedule, c: Cycle, r: Rule) {
    && s.cycle == Some(c) && c.rule == Some(r) && r.cycleType == 3 && r.step == 2 && c.exceptionTimes == []
    && c.startAt == s.startTime == JANUARY_31 && s.endTime == s.startTime
    && c.stopAt == MARCH_30
  }

  const JANUARY_31 := 30 * MS_PER_DAY
  const MARCH_28 := 86 * MS_PER_DAY
  const MARCH_30 := 88 * MS_PER_DAY

  lemma {:induction false} MarchDates()
    ensures ToMs(Date(1970, 1, 31, 0)) == JANUARY_31 && FromMs(JANUARY_31) == Date(1970, 1, 31, 0)
    ensures ToMs(Date(1970, 3, 28, 0)) == MARCH_28
    ensures ToMs(Date(1970, 3, 30, 0)) == MARCH_30 && FromMs(MARCH_30) == Date(1970, 3, 30, 0)
  {
    hide MonthStart, FromMs;
    EpochStart();
    NextMonthStart(23640);
    NextMonthStart(23641);
    assert DaysIn(23640) == 31 && DaysIn(23641) == 28;
    ToMsRoundTrip(Date(1970, 1, 31, 0));
    ToMsRoundTrip(Date(1970, 3, 30, 0));
  }

  lemma {:induction false} MarchVisited()
    ensures VisitedDay(31, 23640, 2, 1) == 31
  {
    assert DaysIn(23640) == 31 && DaysIn(23642) == 31;
    assert VisitedDay(31, 23640, 2, 0) == 31;
  }

  lemma {:induction false} MarchSupported(s: Schedule, c: Cycle, r: Rule)
    requires FromJanuary(s, c, r)
    ensures Supported(s, c, r)
  {
    MarchDates();
    hide ToMs, FromMs, MonthStart, MonthFirst, MonthsBetween, Reaches;
    var base, end := Date(1970, 1, 31, 0), Date(1970, 3, 30, 0);
    WindowDates(s, c);
    LoopEndsWithRoom(LoopFirst(base, base, r), 2, end);
  }

  /** The 28 March that its clipped series has is in the window and kept ... */
  lemma {:induction false} MarchAdmitted(s: Schedule, c: Cycle, r: Rule)
    requires FromJanuary(s, c, r)
    ensures ExpandStart(s, c) == JANUARY_31 && ExpandEnd(s, c) == MARCH_30 && Interval(r) == 2
    ensures ClippedOcc(c, r, 1) == MARCH_28 && Keep(s, c, MARCH_28) && MARCH_28 < ExpandEnd(s, c)
  {
    MarchDates();
    hide ToMs, FromMs, MonthStart;
    var base := Date(1970, 1, 31, 0);
    assert Shift(base.(day := 28), 2) == Date(1970, 3, 28, 0);
  }

  /** ... but is not listed, for the loop stood on the 31st. */
  lemma {:induction false} MonthlyMissesMarch(times: seq<int>, s: Schedule, c: Cycle, r: Rule)
    requires FromJanuary(s, c, r)
    ensures Supported(s, c, r)
    ensures Listing(times, s, c, r) ==>
      ClippedOcc(c, r, 1) == MARCH_28 && Keep(s, c, MARCH_28) && MARCH_28 < ExpandEnd(s, c) && MARCH_28 !in times
  {
    hide *;
    MarchSupported(s, c, r);
    MarchAdmitted(s, c, r);
    MarchFacts(s, c, r);
    if Listing(times, s, c, r) {
      MonthlyMissed(times, s, c, r, 1, 31, 0);
    }
  }

  lemma {:induction false} MarchFacts(s: Schedule, c: Cycle, r: Rule)
    requires FromJanuary(s, c, r)
    ensures r.cycleType == 3 && ExpandStart(s, c) < ExpandEnd(s, c) && c.startAt >= 0
    ensures MonthsSkipped(FromMs(c.startAt), FromMs(ExpandStart(s, c)), Interval(r)) == 0
    ensures var base, end := FromMs(c.startAt), FromMs(ExpandEnd(s, c));
            && MonthIndex(base) + 1 * Interval(r) == MonthIndex(end)
            && VisitedDay(base.day, MonthIndex(base) + 0 * Interval(r), Interval(r), 1 - 0) == 31
            && 31 * MS_PER_DAY + base.tod >= DayAndTime(end)
  {
    MarchDates();
    MarchVisited();
    hide ToMs, FromMs, VisitedDay;
    var base, end := Date(1970, 1, 31, 0), Date(1970, 3, 30, 0);
    assert MonthIndex(base) == 23640 && MonthIndex(end) == 23642;
  }
}
