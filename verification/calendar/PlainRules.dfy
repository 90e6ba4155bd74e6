/** What each kind of rule lists, told in plain numbers and dates: no loop, no filter and no
    conversion of the rule is named. */
module PlainRules {
  import opened Basics
  import opened CivilCalendar
  import opened Dates
  import opened Gather
  import opened MonthLoops
  import opened Recurrence
  import opened RecurrenceExact
  import opened RuleExpansion
  import opened RuleEdits
  import opened RuleStops

  const DAY := 86400000

  /** Between the later of the two starts and the window's end, and not excepted. */
  ghost predicate Admitted(s: Schedule, c: Cycle, t: int) {
    && t >= c.startAt && t >= s.startTime
    && t < s.endTime + 120 * DAY && (c.stopAt > 0 ==> t < c.stopAt)
    && t !in c.exceptionTimes
  }

  function StepOf(r: Rule): int {
    if r.step < 1 then 1 else r.step
  }

  lemma {:induction false} AdmittedIs(s: Schedule, c: Cycle, r: Rule, t: int)
    ensures Admitted(s, c, t) <==> Keep(s, c, t) && t < ExpandEnd(s, c)
    ensures Interval(r) == StepOf(r)
    ensures ExpandStart(s, c) == if c.startAt < s.startTime then s.startTime else c.startAt
  {}

  /** Which expansions the results are about: of daily and weekly rules all from 1970 on, of month and
      year rules all whose window ends a step before the calendar does, and none beyond it. */
  lemma {:induction false} SupportedWhen(s: Schedule, c: Cycle, r: Rule)
    ensures r.cycleType !in {3, 4, 5} || ExpandStart(s, c) >= ExpandEnd(s, c) ==>
              (Supported(s, c, r) <==> c.startAt >= 0)
    ensures c.startAt >= 0 && ExpandStart(s, c) < ExpandEnd(s, c) && r.cycleType in {3, 4, 5} ==>
              var end := FromMs(ExpandEnd(s, c));
              var step := if r.cycleType == 5 then 12 * StepOf(r) else StepOf(r);
              && (end.year * 12 + end.month - 1 + step <= 262142 * 12 + 11 ==> Supported(s, c, r))
              && (end.year > 262142 ==> !Supported(s, c, r))
  {
    hide FromMs, ToMs, Reaches, LoopFirst, MonthFirst, YearFirst;
    if c.startAt >= 0 && ExpandStart(s, c) < ExpandEnd(s, c) && r.cycleType in {3, 4, 5} {
      WindowDates(s, c);
      var base, start, end := FromMs(c.startAt), FromMs(ExpandStart(s, c)), FromMs(ExpandEnd(s, c));
      if end.year * 12 + end.month - 1 + StepMonths(r) <= 262142 * 12 + 11 {
        LoopEndsEarly(base, start, end, r);
      }
    }
  }

  lemma {:induction false} LoopEndsEarly(base: Date, start: Date, end: Date, r: Rule)
    requires InWindow(base, start, end, StepMonths(r)) && start.year <= MAX_YEAR
    requires MonthIndex(end) + StepMonths(r) <= MAX_MONTH_INDEX
    ensures Reaches(LoopFirst(base, start, r), StepMonths(r), end)
  {
    hide ToMs, Reaches, MonthIndex, DaysIn, MonthFirst, YearFirst;
    var first, step := LoopFirst(base, start, r), StepMonths(r);
    IndexInCalendar(first);
    RoomForLast(MonthIndex(first), step, MonthIndex(end));
    LoopEndsIff(first, step, end);
  }

  lemma {:induction false} RoomForLast(first: int, step: nat, end: int)
    requires step > 0 && end + step <= MAX_MONTH_INDEX && first <= MAX_MONTH_INDEX
    ensures first + (MAX_MONTH_INDEX - first) / step * step > end
  {}

  /** Daily rules: every so many days from the later of the two starts on. */
  lemma {:induction false} DailyListsIff(times: seq<int>, s: Schedule, t: int)
    requires Expansion(times, s) && s.cycle.value.rule.value.cycleType == 1
    ensures var c, r := s.cycle.value, s.cycle.value.rule.value;
            var first := if c.startAt < s.startTime then s.startTime else c.startAt;
            t in times <==> Admitted(s, c, t) && exists k: nat :: t == first + k * (StepOf(r) * DAY)
  {
    hide Supported, Listing;
    var c, r := s.cycle.value, s.cycle.value.rule.value;
    var first := if c.startAt < s.startTime then s.startTime else c.startAt;
    ExactHere(times, s);
    AdmittedIs(s, c, r, t);
    if k: nat :| t == first + k * (StepOf(r) * DAY) {
      assert DayTimes(first, Interval(r))(k) == t;
    }
  }

  lemma {:induction false} ExactHere(times: seq<int>, s: Schedule)
    requires Expansion(times, s) && s.cycle.value.rule.value.cycleType in {1, 2, 3, 5}
    requires Exactable(s.cycle.value, s.cycle.value.rule.value)
    ensures Exact(times, s, s.cycle.value, s.cycle.value.rule.value)
  {
    hide Supported, Listing, Exact;
    ExpansionIsExact(times, s, s.cycle.value, s.cycle.value.rule.value);
  }

  /** Weekly rules: on the named weekdays, in every so manyeth block of seven days from the rule's own
      start, at the time of day of the later of the two starts. */
  lemma {:induction false} WeeklyListsIff(times: seq<int>, s: Schedule, t: int)
    requires Expansion(times, s) && s.cycle.value.rule.value.cycleType == 2
    ensures var c, r := s.cycle.value, s.cycle.value.rule.value;
            var first := if c.startAt < s.startTime then s.startTime else c.startAt;
            t in times <==>
              && Admitted(s, c, t) && (t - first) % DAY == 0
              && NamesWeekday(r.weekSeqs, Weekday(t / DAY)) && (t - c.startAt) / (7 * DAY) % StepOf(r) == 0
  {
    hide Supported, Listing, Weekday, WeekDays;
    var c, r := s.cycle.value, s.cycle.value.rule.value;
    var first := if c.startAt < s.startTime then s.startTime else c.startAt;
    ExactHere(times, s);
    AdmittedIs(s, c, r, t);
    NamesWeekdayIff(r.weekSeqs, Weekday(t / DAY));
    if t >= first {
      EveryDayIff(first, t);
      WeekBlocks(c.startAt, t, StepOf(r));
    }
  }

  lemma {:induction false} EveryDayIff(first: int, t: int)
    requires first <= t
    ensures InDays(first, 1, t) <==> (t - first) % DAY == 0
  {
    PhaseIff(first, t, 1);
  }

  lemma {:induction false} WeekBlocks(startAt: int, t: int, step: int)
    requires startAt <= t && step >= 1
    ensures IsWeekIntervalMatch(startAt, t, step) <==> (t - startAt) / (7 * DAY) % step == 0
  {
    SevenDays(t - startAt);
  }

  lemma {:induction false} SevenDays(x: nat)
    ensures x / DAY / 7 == x / (7 * DAY)
  {}

  // ---- rules of months and years ----

  /** The time k steps of so many months after a date, with its day and time of day. */
  function SeriesTime(base: Date, months: nat, k: nat): int {
    var i := base.year * 12 + base.month - 1 + k * months;
    DaysSince(i / 12, i % 12 + 1, base.day) * DAY + base.tod
  }

  lemma {:induction false} SeriesTimeIs(base: Date, months: nat, k: nat)
    requires Valid(Shift(base, k * months))
    ensures Occ(base, months, k) == SeriesTime(base, months, k)
  {
    hide DaysSince, ToMs;
    InstantIs(Shift(base, k * months));
  }

  lemma {:induction false} DaysOfEveryMonth(base: Date, months: nat, k: nat)
    requires Valid(base) && base.day <= 28
    ensures Occ(base, months, k) == SeriesTime(base, months, k)
  {
    hide DaysSince, ToMs, Shift, Occ, MonthIndex, SeriesTime;
    ShiftValid(base, k * months);
    SeriesTimeIs(base, months, k);
  }

  lemma {:induction false} DaysOfEveryYear(base: Date, years: nat, k: nat)
    requires Valid(base) && !(base.month == 2 && base.day == 29)
    ensures Occ(base, years * 12, k) == SeriesTime(base, years * 12, k)
  {
    hide DaysSince, ToMs, Shift, Occ, MonthIndex, SeriesTime, DaysIn;
    assert k * (years * 12) == 12 * (k * years);
    YearsLater(base, k * years);
    ShiftValid(base, k * (years * 12));
    SeriesTimeIs(base, years * 12, k);
  }

  /** Monthly rules of a day every month has: the day and time of day of the rule's start, every so
      many months on. */
  lemma {:induction false} MonthlyListsIff(times: seq<int>, s: Schedule, t: int)
    requires Expansion(times, s) && s.cycle.value.rule.value.cycleType == 3 && FromMs(s.cycle.value.startAt).day <= 28
    ensures var c, r := s.cycle.value, s.cycle.value.rule.value;
            t in times <==> Admitted(s, c, t) && exists k: nat :: SeriesTime(FromMs(c.startAt), StepOf(r), k) == t
  {
    hide Listing, FromMs, ToMs, SeriesTime, Occ, LoopFirst, Reaches;
    var c, r := s.cycle.value, s.cycle.value.rule.value;
    ExactHere(times, s);
    AdmittedIs(s, c, r, t);
    FromMsRoundTrip(c.startAt);
    var base := FromMs(c.startAt);
    forall k: nat
      ensures Occ(base, StepOf(r), k) == SeriesTime(base, StepOf(r), k)
    {
      DaysOfEveryMonth(base, StepOf(r), k);
    }
  }

  /** Yearly rules of any day but 29 February: the same with years. */
  lemma {:induction false} YearlyListsIff(times: seq<int>, s: Schedule, t: int)
    requires Expansion(times, s) && s.cycle.value.rule.value.cycleType == 5
    requires var base := FromMs(s.cycle.value.startAt); !(base.month == 2 && base.day == 29)
    ensures var c, r := s.cycle.value, s.cycle.value.rule.value;
            t in times <==> Admitted(s, c, t) && exists k: nat :: SeriesTime(FromMs(c.startAt), StepOf(r) * 12, k) == t
  {
    hide Listing, FromMs, ToMs, SeriesTime, Occ, LoopFirst, Reaches;
    var c, r := s.cycle.value, s.cycle.value.rule.value;
    ExactHere(times, s);
    AdmittedIs(s, c, r, t);
    FromMsRoundTrip(c.startAt);
    var base := FromMs(c.startAt);
    forall k: nat
      ensures Occ(base, StepOf(r) * 12, k) == SeriesTime(base, StepOf(r) * 12, k)
    {
      DaysOfEveryYear(base, StepOf(r), k);
    }
  }

  // ---- nth-weekday rules ----

  function WeekOf(r: Rule): int {
    if r.weekSeqs == [] || r.weekSeqs[0] < 0 then 0 else r.weekSeqs[0]
  }

  /** The rule names one of the first four weeks and, if it names a weekday, one by a number from 0,
      Sunday, to 7, Sunday again. */
  predicate NamesNth(r: Rule) {
    WeekOf(r) <= 3 && (|r.weekSeqs| > 1 ==> 0 <= r.weekSeqs[1] <= 7)
  }

  /** The date lies in the week and falls on the weekday that the rule names; a rule without a weekday
      means that of its start. */
  predicate RightDay(r: Rule, base: Date, d: Date) {
    var w := Weekday(DayNumber(d));
    && 7 * WeekOf(r) < d.day <= 7 * WeekOf(r) + 7
    && (if |r.weekSeqs| > 1 then r.weekSeqs[1] == w + 1 || (w == 6 && r.weekSeqs[1] == 0)
        else w == Weekday(DayNumber(base)))
  }

  lemma {:induction false} PickedIsRight(r: Rule, base: Date, d: Date)
    requires NamesNth(r) && Valid(d)
    ensures RightDay(r, base, Picked(WeekPick(r, base), d))
  {
    hide MonthStart, Weekday;
    var w := WeekPick(r, base);
    NthWeekdayIsNth(d, w.week, w.dayOfWeek);
    NthDay(d, w.week, w.dayOfWeek);
  }

  lemma {:induction false} NthDay(d: Date, week: nat, dayOfWeek: nat)
    requires Valid(d) && week <= 3 && dayOfWeek <= 6
    ensures 7 * week < NthWeekday(d, week, dayOfWeek).day <= 7 * week + 7
  {
    hide MonthStart, Weekday, DaysUntil;
  }

  lemma {:induction false} OneRightDay(r: Rule, base: Date, d: Date, e: Date)
    requires Valid(d) && Valid(e) && MonthIndex(d) == MonthIndex(e) && d.tod == e.tod
    requires NamesNth(r) && RightDay(r, base, d) && RightDay(r, base, e)
    ensures d == e
  {
    hide MonthStart;
    SameMonth(d, e);
    assert DayNumber(d) - DayNumber(e) == d.day - e.day;
    SameRest(DayNumber(d) + 3, DayNumber(e) + 3, 7);
  }

  /** k steps of so many months lead from one date's month to the other's. */
  predicate StepsApart(base: Date, d: Date, months: nat, k: nat) {
    d.year * 12 + d.month == base.year * 12 + base.month + k * months
  }

  /** Whatever an nth-weekday rule lists is a right day in a right month at the right time. */
  lemma {:induction false} NthListedIsRight(times: seq<int>, s: Schedule, t: int) returns (d: Date)
    requires Expansion(times, s) && s.cycle.value.rule.value.cycleType == 4 && NamesNth(s.cycle.value.rule.value)
    requires t in times
    ensures var c, r, base := s.cycle.value, s.cycle.value.rule.value, FromMs(s.cycle.value.startAt);
            && Valid(d) && ToMs(d) == t && RightDay(r, base, d) && d.tod == base.tod
            && (exists k: nat :: StepsApart(base, d, StepOf(r), k))
            && t >= c.startAt && t >= s.startTime && t !in c.exceptionTimes
  {
    hide ToMs, FromMs, Listing, Guarded, Offered, Startable, Picked, Reaches, LoopFirst, RightDay, VisitedIn, PickOf,
      StepsApart;
    var c, r := s.cycle.value, s.cycle.value.rule.value;
    InstanceRound(times, s, t);
    AdmittedIs(s, c, r, t);
    var k: nat :| Guarded(c.startAt, ExpandStart(s, c), r)(k) < ExpandEnd(s, c)
                  && Offered(c.startAt, ExpandStart(s, c), r)(k) == t;
    RoundVisits(s, k);
    var v: Date :| Valid(v) && VisitedIn(s, MonthIndex(v)) == Some(v)
      && ToMs(v) == Guarded(c.startAt, ExpandStart(s, c), r)(k)
      && ToMs(Picked(PickOf(s), v)) == Offered(c.startAt, ExpandStart(s, c), r)(k);
    d := Picked(PickOf(s), v);
    VisitIsRight(s, v);
  }

  lemma {:induction false} VisitIsRight(s: Schedule, v: Date)
    requires ByMonths(s) && Open(s) && s.cycle.value.rule.value.cycleType == 4 && NamesNth(s.cycle.value.rule.value)
    requires Valid(v) && VisitedIn(s, MonthIndex(v)) == Some(v)
    ensures var r, base, d := s.cycle.value.rule.value, FromMs(s.cycle.value.startAt), Picked(PickOf(s), v);
            && Valid(d) && RightDay(r, base, d) && d.tod == base.tod
            && exists k: nat :: StepsApart(base, d, StepOf(r), k)
  {
    hide FromMs, Picked, RightDay, WeekPick, MonthsSkipped, DateVisited;
    var r, base, d := s.cycle.value.rule.value, FromMs(s.cycle.value.startAt), Picked(PickOf(s), v);
    PickedStaysInMonth(PickOf(s), v);
    PickedIsRight(r, base, v);
    VisitKeepsTime(s, MonthIndex(v));
    var q := Max(MonthsSkipped(base, FromMs(ExpandStart(s, s.cycle.value)), StepOf(r)), 0);
    assert q * StepOf(r) >= 0;
    var n := StepsTo(MonthIndex(v) - MonthIndex(base), q, StepOf(r));
    assert StepsApart(base, d, StepOf(r), n);
  }

  /** And every such day before the month of the window's end is listed, if the starts and the
      exceptions let it. */
  lemma {:induction false} RightNthIsListed(times: seq<int>, s: Schedule, d: Date, k: nat)
    requires Expansion(times, s) && s.cycle.value.rule.value.cycleType == 4 && NamesNth(s.cycle.value.rule.value)
    requires Open(s) && Valid(d) && s.cycle.value.startAt >= 0
    requires var c, r, base := s.cycle.value, s.cycle.value.rule.value, FromMs(s.cycle.value.startAt);
             && RightDay(r, base, d) && d.tod == base.tod && StepsApart(base, d, StepOf(r), k)
             && ToMs(d) >= c.startAt && ToMs(d) >= s.startTime && ToMs(d) !in c.exceptionTimes
             && MonthIndex(d) < MonthIndex(FromMs(ExpandEnd(s, c)))
    ensures ToMs(d) in times
  {
    hide ToMs, FromMs, Listing, Cursor, Guarded, Offered, Startable, Picked, Reaches, LoopFirst, MonthsSkipped,
      RightDay, DaysIn, WeekPick, DateVisited, Supported;
    var c, r := s.cycle.value, s.cycle.value.rule.value;
    SupportedStarts(s, c, r);
    var q := LoopIs(s);
    var base, start, end := FromMs(c.startAt), FromMs(ExpandStart(s, c)), FromMs(ExpandEnd(s, c));
    var step, m := Interval(r), MonthIndex(d);
    WindowDates(s, c);
    NotLaterMonth(start, d);
    StepsEnough(MonthIndex(base), q, k, step, MonthIndex(start));
    IndexInCalendar(end);
    GapIs(k, step);
    var v := VisitedIn(s, m).value;
    var n := VisitedInRound(s, m);
    EarlierMonth(v, end);
    PickedStaysInMonth(PickOf(s), v);
    PickedIsRight(r, base, v);
    VisitKeepsTime(s, m);
    OneRightDay(r, base, Picked(PickOf(s), v), d);
    assert Passes(s, c, r, ToMs(d));
    InstanceRound(times, s, ToMs(d));
  }

  lemma {:induction false} VisitKeepsTime(s: Schedule, m: int)
    requires ByMonths(s) && Open(s) && VisitedIn(s, m).Some?
    ensures VisitedIn(s, m).value.tod == FromMs(s.cycle.value.startAt).tod
  {
    hide FromMs;
  }

  lemma {:induction false} StepsEnough(base: int, q: nat, k: nat, step: int, start: int)
    requires step >= 1 && (q > 0 ==> base + (q - 1) * step < start) && base + k * step >= start
    ensures k * step >= q * step
  {
    if q > 0 {
      assert (k - (q - 1)) * step == k * step - (q - 1) * step;
      AtLeast(k - (q - 1), step);
      assert (k - q) * step == k * step - q * step;
      if k > q {
        AtLeast(k - q, step);
      }
    }
  }
}
