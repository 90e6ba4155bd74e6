/** The expansion entry point: window, dispatch on the rule kind, and what comes out. */
module RuleExpansion {
  import opened Basics
  import opened Dates
  import opened Gather
  import opened Recurrence
  import opened RecurrenceExact

  function ExpandEnd(s: Schedule, c: Cycle): int {
    var longest := s.endTime + EXPAND_DAYS * MS_PER_DAY;
    if c.stopAt > 0 then Min(c.stopAt, longest) else longest
  }

  function ExpandStart(s: Schedule, c: Cycle): int {
    Max(c.startAt, s.startTime)
  }

  function StepMonths(r: Rule): int {
    if r.cycleType == 5 then Interval(r) * 12 else Interval(r)
  }

  /** The first date a rule of months or years visits. */
  ghost function LoopFirst(base: Date, start: Date, r: Rule): (first: Date)
    requires Valid(base) && Valid(start) && ToMs(base) <= ToMs(start) && start.year <= MAX_YEAR
    ensures Valid(first) && first.year <= MAX_YEAR
  {
    LoopFirstIsGood(base, start, r);
    if r.cycleType == 5 then YearFirst(base, start, Interval(r)) else MonthFirst(base, start, Interval(r))
  }

  lemma {:induction false} LoopFirstIsGood(base: Date, start: Date, r: Rule)
    requires Valid(base) && Valid(start) && ToMs(base) <= ToMs(start) && start.year <= MAX_YEAR
    ensures base.year <= start.year && MonthsBetween(base, start) >= 0
    ensures Valid(MonthFirst(base, start, Interval(r))) && MonthFirst(base, start, Interval(r)).year <= MAX_YEAR
    ensures Valid(YearFirst(base, start, Interval(r))) && YearFirst(base, start, Interval(r)).year <= MAX_YEAR
  {
    hide ToMs, AdvanceMonths, MonthsBetween, CeilTo, DaysIn;
    NotLaterMonth(base, start);
    IndexSplits(base);
    IndexSplits(start);
    MonthsBetweenIs(base, start);
    CeilSize(MonthsBetween(base, start), Interval(r));
    Jump(base, CeilTo(MonthsBetween(base, start), Interval(r)));
    CeilSize(start.year - base.year, Interval(r));
    Jump(base, CeilTo(start.year - base.year, Interval(r)) * 12);
  }

  lemma {:induction false} WindowDates(s: Schedule, c: Cycle)
    requires c.startAt >= 0 && ExpandStart(s, c) < ExpandEnd(s, c)
    ensures var base, start, end := FromMs(c.startAt), FromMs(ExpandStart(s, c)), FromMs(ExpandEnd(s, c));
            && Valid(base) && Valid(start) && Valid(end)
            && ToMs(base) == c.startAt && ToMs(start) == ExpandStart(s, c) && ToMs(end) == ExpandEnd(s, c)
            && 0 <= ToMs(base) <= ToMs(start) < ToMs(end)
            && base.year <= start.year <= end.year
  {
    hide ToMs, FromMs, MonthIndex;
    var base, start, end := FromMs(c.startAt), FromMs(ExpandStart(s, c)), FromMs(ExpandEnd(s, c));
    FromMsRoundTrip(c.startAt);
    FromMsRoundTrip(ExpandStart(s, c));
    FromMsRoundTrip(ExpandEnd(s, c));
    NotLaterMonth(base, start);
    NotLaterMonth(start, end);
    IndexSplits(base);
    IndexSplits(start);
    IndexSplits(end);
  }

  /** Times from 1970 on and, for rules of months and years, a window in the calendar and a loop
      that ends (LoopEndsIff). */
  ghost predicate Supported(s: Schedule, c: Cycle, r: Rule) {
    && c.startAt >= 0
    && (ExpandStart(s, c) < ExpandEnd(s, c) && r.cycleType in {3, 4, 5} ==>
          var base, start, end := FromMs(c.startAt), FromMs(ExpandStart(s, c)), FromMs(ExpandEnd(s, c));
          end.year <= MAX_YEAR &&
          (WindowDates(s, c);
           Reaches(LoopFirst(base, start, r), StepMonths(r), end)))
  }

  ghost predicate HasRule(s: Schedule) {
    s.cycle.Some? && s.cycle.value.rule.Some?
  }

  /** What each kind of rule lists inside a non-empty window. */
  ghost predicate KindListing(times: seq<int>, s: Schedule, c: Cycle, r: Rule)
    requires Supported(s, c, r) && 0 <= ExpandStart(s, c) < ExpandEnd(s, c)
  {
    var base, start, end := FromMs(c.startAt), FromMs(ExpandStart(s, c)), FromMs(ExpandEnd(s, c));
    match r.cycleType
    case 1 =>
      var at := DayTimes(ToMs(start), Interval(r));
      Lists(times, at, at, Kept(s, c), ToMs(end))
    case 2 =>
      var at := DayTimes(ToMs(start), 1);
      Lists(times, at, at, WeekKept(s, c, r, ToMs(base)), ToMs(end))
    case 3 =>
      WindowIsGood(s, c, r);
      MonthListing(times, s, c, OnDay(Min(base.day, 28)), MonthFirst(base, start, Interval(r)), Interval(r), end)
    case 4 =>
      WindowIsGood(s, c, r);
      MonthListing(times, s, c, WeekPick(r, base), MonthFirst(base, start, Interval(r)), Interval(r), end)
    case 5 =>
      WindowIsGood(s, c, r);
      MonthListing(times, s, c, AsIs, YearFirst(base, start, Interval(r)), Interval(r) * 12, end)
    case _ => times == []
  }

  lemma {:induction false} WindowIsGood(s: Schedule, c: Cycle, r: Rule)
    requires Supported(s, c, r) && 0 <= ExpandStart(s, c) < ExpandEnd(s, c)
    ensures var base, start, end := FromMs(c.startAt), FromMs(ExpandStart(s, c)), FromMs(ExpandEnd(s, c));
            && Valid(base) && Valid(start) && Valid(end)
            && ToMs(base) == c.startAt && ToMs(start) == ExpandStart(s, c) && ToMs(end) == ExpandEnd(s, c)
            && 0 <= ToMs(base) <= ToMs(start) < ToMs(end)
            && (r.cycleType in {3, 4, 5} ==> InWindow(base, start, end, StepMonths(r)))
            && (r.cycleType in {3, 4} ==>
                  MonthsBetween(base, start) >= 0 && CanStep(MonthFirst(base, start, Interval(r)), Interval(r), end))
            && (r.cycleType == 4 ==> ValidPick(WeekPick(r, base)))
            && (r.cycleType == 5 ==>
                  base.year <= start.year && CanStep(YearFirst(base, start, Interval(r)), Interval(r) * 12, end))
            && 1 <= Min(base.day, 28) <= 28
  {
    hide ToMs, FromMs, MonthIndex, MonthFirst, YearFirst, MonthsBetween, Weekday, DayNumber, Reaches;
    WindowDates(s, c);
    if r.cycleType in {3, 4, 5} {
      LoopFirstIsGood(FromMs(c.startAt), FromMs(ExpandStart(s, c)), r);
    }
  }

  ghost predicate Listing(times: seq<int>, s: Schedule, c: Cycle, r: Rule)
    requires Supported(s, c, r)
  {
    if ExpandStart(s, c) >= ExpandEnd(s, c) then times == [] else KindListing(times, s, c, r)
  }

  /** An instance has a start of its own, the template's length and everything else of the template
      but the scope of an edit. */
  predicate IsInstanceOf(x: Schedule, s: Schedule) {
    x == Schedule(s.id, s.calendarId, s.version, x.startTime, x.startTime + s.endTime - s.startTime,
                  s.memberIds, s.cycleRuleId, s.cycle, 0, s.details)
  }

  lemma {:induction false} InstancesKeep(template: Schedule, instances: seq<Schedule>, duration: int)
    requires instances == InstancesAt(template, Starts(instances), duration)
    requires duration == template.endTime - template.startTime
    ensures forall x | x in instances :: IsInstanceOf(x, template)
  {
    forall i | 0 <= i < |instances|
      ensures IsInstanceOf(instances[i], template)
    {
      assert instances[i] == BuildInstance(template, Starts(instances)[i], duration);
    }
  }

  /** Expands a schedule, or reports that it carries no rule. */
  method GenByRule(schedule: Schedule) returns (result: Result<seq<Schedule>>)
    requires HasRule(schedule) ==> Supported(schedule, schedule.cycle.value, schedule.cycle.value.rule.value)
    ensures result.Ok? <==> schedule.cycle.Some? && schedule.cycle.value.rule.Some?
    ensures result.Ok? ==> forall x | x in result.value :: IsInstanceOf(x, schedule)
    ensures HasRule(schedule) ==>
              result.value == InstancesAt(schedule, Starts(result.value), schedule.endTime - schedule.startTime) &&
              Listing(Starts(result.value), schedule, schedule.cycle.value, schedule.cycle.value.rule.value)
  {
    hide ToMs, FromMs, MonthIndex, MonthListing, AdvanceMonths, MonthsBetween, CeilTo, DayTimes, Lists;
    if schedule.cycle.None? {
      return Err("gen_by_rule called without cycle rule");
    }
    var c := schedule.cycle.value;
    if c.rule.None? {
      return Err("gen_by_rule called without cycle rule.rule");
    }
    var rule := c.rule.value;
    var expandEndMax := schedule.endTime + EXPAND_DAYS * MS_PER_DAY;
    var expandEnd := if c.stopAt > 0 then Min(c.stopAt, expandEndMax) else expandEndMax;
    var expandStart := Max(c.startAt, schedule.startTime);
    if expandStart >= expandEnd {
      return Ok([]);
    }
    WindowIsGood(schedule, c, rule);
    var duration := schedule.endTime - schedule.startTime;
    var base := FromMs(c.startAt);
    var start := FromMs(expandStart);
    var end := FromMs(expandEnd);
    var instances := [];
    match rule.cycleType {
      case 1 => instances := GenByDay(schedule, c, rule, start, end, duration);
      case 2 => instances := GenByWeek(schedule, c, rule, base, start, end, duration);
      case 3 => instances := GenByMonth(schedule, c, rule, base, start, end, duration);
      case 4 => instances := GenByMonthWeek(schedule, c, rule, base, start, end, duration);
      case 5 => instances := GenByYear(schedule, c, rule, base, start, end, duration);
      case _ => assert InstancesAt(schedule, [], duration) == [];
    }
    result := Ok(instances);
    InstancesKeep(schedule, instances, duration);
  }

  // ---- one shape for all kinds ----

  /** What the loops of a rule need of its two start times; the window's end plays no part. */
  ghost predicate Startable(startAt: int, lo: int, r: Rule) {
    && 0 <= startAt <= lo
    && (r.cycleType in {3, 4, 5} ==> FromMs(lo).year <= MAX_YEAR)
  }

  lemma {:induction false} StartableDates(startAt: int, lo: int, r: Rule)
    requires Startable(startAt, lo, r)
    ensures var base, start := FromMs(startAt), FromMs(lo);
            && Valid(base) && Valid(start) && ToMs(base) == startAt && ToMs(start) == lo
            && 1 <= Min(base.day, 28) <= 28
            && (r.cycleType == 4 ==> ValidPick(WeekPick(r, base)))
  {
    hide ToMs, FromMs, MonthIndex, Weekday, DayNumber;
    FromMsRoundTrip(startAt);
    FromMsRoundTrip(lo);
  }

  /** The time the k-th round of the loop offers ... */
  ghost function Offered(startAt: int, lo: int, r: Rule): nat -> int
    requires Startable(startAt, lo, r)
  {
    StartableDates(startAt, lo, r);
    var base, start := FromMs(startAt), FromMs(lo);
    match r.cycleType
    case 1 => DayTimes(lo, Interval(r))
    case 2 => DayTimes(lo, 1)
    case 3 => PickedTimes(OnDay(Min(base.day, 28)), LoopFirst(base, start, r), Interval(r))
    case 4 => PickedTimes(WeekPick(r, base), LoopFirst(base, start, r), Interval(r))
    case 5 => PickedTimes(AsIs, LoopFirst(base, start, r), Interval(r) * 12)
    case _ => DayTimes(lo, 1)
  }

  /** ... and the time the loop's guard compares with the end in that round. */
  ghost function Guarded(startAt: int, lo: int, r: Rule): nat -> int
    requires Startable(startAt, lo, r)
  {
    StartableDates(startAt, lo, r);
    var base, start := FromMs(startAt), FromMs(lo);
    match r.cycleType
    case 1 => DayTimes(lo, Interval(r))
    case 2 => DayTimes(lo, 1)
    case 3 => CursorTimes(LoopFirst(base, start, r), Interval(r))
    case 4 => CursorTimes(LoopFirst(base, start, r), Interval(r))
    case 5 => CursorTimes(LoopFirst(base, start, r), Interval(r) * 12)
    case _ => DayTimes(lo, 1)
  }

  /** Whether an offered time passes the filters. */
  predicate Passes(s: Schedule, c: Cycle, r: Rule, t: int) {
    && Keep(s, c, t)
    && r.cycleType in {1, 2, 3, 4, 5}
    && (r.cycleType == 2 ==> c.startAt <= t && Weekday(t / MS_PER_DAY) in WeekDays(r.weekSeqs) &&
                             IsWeekIntervalMatch(c.startAt, t, Interval(r)))
  }

  /** The times a rule expands to, read off its start times, its rule and its window: offered in
      some round whose guard holds, and not filtered out. */
  ghost predicate Expands(s: Schedule, c: Cycle, r: Rule, t: int)
    requires Startable(c.startAt, ExpandStart(s, c), r)
  {
    Passes(s, c, r, t) &&
    exists k: nat :: Guarded(c.startAt, ExpandStart(s, c), r)(k) < ExpandEnd(s, c)
                     && Offered(c.startAt, ExpandStart(s, c), r)(k) == t
  }

  lemma {:induction false} SupportedStarts(s: Schedule, c: Cycle, r: Rule)
    requires Supported(s, c, r) && ExpandStart(s, c) < ExpandEnd(s, c)
    ensures Startable(c.startAt, ExpandStart(s, c), r)
  {
    hide ToMs, FromMs, MonthIndex, LoopFirst, Reaches;
    WindowDates(s, c);
  }

  lemma {:induction false} ListsExpands(times: seq<int>, keep: int -> bool, s: Schedule, c: Cycle, r: Rule)
    requires Startable(c.startAt, ExpandStart(s, c), r)
    requires Lists(times, Offered(c.startAt, ExpandStart(s, c), r), Guarded(c.startAt, ExpandStart(s, c), r), keep,
      ExpandEnd(s, c))
    requires forall t :: keep(t) <==> Passes(s, c, r, t)
    ensures Increasing(times)
    ensures forall t :: t in times <==> Expands(s, c, r, t)
  {
    hide Offered, Guarded, Passes, ExpandStart, ExpandEnd, Increasing, Startable;
  }

  lemma {:induction false} DayWeekLists(times: seq<int>, s: Schedule, c: Cycle, r: Rule)
    requires Supported(s, c, r) && ExpandStart(s, c) < ExpandEnd(s, c) && Listing(times, s, c, r)
    requires Startable(c.startAt, ExpandStart(s, c), r)
    ensures r.cycleType == 1 ==>
      Lists(times, Offered(c.startAt, ExpandStart(s, c), r), Guarded(c.startAt, ExpandStart(s, c), r), Kept(s, c),
            ExpandEnd(s, c))
    ensures r.cycleType == 2 ==>
      Lists(times, Offered(c.startAt, ExpandStart(s, c), r), Guarded(c.startAt, ExpandStart(s, c), r),
            WeekKept(s, c, r, c.startAt), ExpandEnd(s, c))
  {
    hide ToMs, FromMs, MonthIndex, WeekKept, Kept, DayTimes, Lists, LoopFirst;
    WindowDates(s, c);
  }

  lemma {:induction false} MonthLists(times: seq<int>, s: Schedule, c: Cycle, r: Rule)
    requires Supported(s, c, r) && ExpandStart(s, c) < ExpandEnd(s, c) && Listing(times, s, c, r)
    requires Startable(c.startAt, ExpandStart(s, c), r) && r.cycleType in {3, 4, 5}
    ensures Lists(times, Offered(c.startAt, ExpandStart(s, c), r), Guarded(c.startAt, ExpandStart(s, c), r), Kept(s, c),
                  ExpandEnd(s, c))
  {
    hide ToMs, FromMs, MonthIndex, Kept, Lists, CursorTimes, PickedTimes, MonthFirst, YearFirst, WeekPick;
    WindowDates(s, c);
  }

  /** A listing of any kind of rule is increasing and holds exactly the times it expands to. */
  lemma {:induction false} ListingShape(times: seq<int>, s: Schedule, c: Cycle, r: Rule)
    requires Supported(s, c, r) && ExpandStart(s, c) < ExpandEnd(s, c) && Listing(times, s, c, r)
    requires Startable(c.startAt, ExpandStart(s, c), r)
    ensures Increasing(times)
    ensures forall t :: t in times <==> Expands(s, c, r, t)
  {
    hide ToMs, FromMs, MonthIndex, Weekday, WeekDays, IsWeekIntervalMatch, Offered, Guarded, Supported, Startable,
      ExpandStart, ExpandEnd, Keep;
    if r.cycleType == 2 {
      DayWeekLists(times, s, c, r);
      ListsExpands(times, WeekKept(s, c, r, c.startAt), s, c, r);
    } else if r.cycleType in {1, 3, 4, 5} {
      if r.cycleType == 1 {
        DayWeekLists(times, s, c, r);
      } else {
        MonthLists(times, s, c, r);
      }
      ListsExpands(times, Kept(s, c), s, c, r);
    } else {
      assert times == [];
    }
  }

  // ---- the naive scan ----

  /** Every `interval` days from a start on. */
  ghost predicate InDays(start: int, interval: int, t: int) {
    exists k: nat :: DayTimes(start, interval)(k) == t
  }

  ghost predicate InMonths(base: Date, step: int, t: int) {
    exists k: nat :: Occ(base, step, k) == t
  }

  /** The series of a rule: days count from the window's start, months from the rule's own. */
  ghost predicate InSeries(startAt: int, lo: int, r: Rule, t: int)
    requires startAt >= 0
  {
    match r.cycleType
    case 1 => InDays(lo, Interval(r), t)
    case 2 => InDays(lo, 1, t) && startAt <= t && Weekday(t / MS_PER_DAY) in WeekDays(r.weekSeqs) &&
              IsWeekIntervalMatch(startAt, t, Interval(r))
    case 3 => InMonths(FromMs(startAt), Interval(r), t)
    case 5 => InMonths(FromMs(startAt), Interval(r) * 12, t)
    case _ => false
  }

  /** The rule's series, before the window, the exceptions and the two start times filter it. */
  ghost predicate Occurs(s: Schedule, c: Cycle, r: Rule, t: int)
    requires c.startAt >= 0
  {
    InSeries(c.startAt, ExpandStart(s, c), r, t)
  }

  /** Monthly rules are exact for base days every month has, yearly ones outside 29 February. */
  ghost predicate Exactable(c: Cycle, r: Rule)
    requires c.startAt >= 0
  {
    var base := FromMs(c.startAt);
    && (r.cycleType == 3 ==> base.day <= 28)
    && (r.cycleType == 5 ==> !(base.month == 2 && base.day == 29))
    && r.cycleType != 4
  }

  ghost predicate Exact(times: seq<int>, s: Schedule, c: Cycle, r: Rule)
    requires c.startAt >= 0
  {
    Increasing(times) &&
    forall t :: t in times <==> Occurs(s, c, r, t) && Keep(s, c, t) && t < ExpandEnd(s, c)
  }

  lemma {:induction false} MonthSeries(base: Date, start: Date, first: Date, step: int, q: nat)
    requires Valid(base) && Valid(start) && base.day <= 28 && step >= 1 && SkipsOnlyEarlier(base, start, first, step, q)
    ensures GoodSeries(base, start, step, q)
  {
    hide ToMs, MonthIndex, Shift, DaysIn;
    forall k: nat
      ensures Valid(Shift(base, k * step)) && MonthIndex(Shift(base, k * step)) == MonthIndex(base) + k * step
    {
      ShiftValid(base, k * step);
    }
    forall k: nat | k < q
      ensures Occ(base, step, k) < ToMs(start)
    {
      EarlierStep(base, start, step, q, k);
    }
  }

  lemma {:induction false} YearSeries(base: Date, start: Date, first: Date, years: nat, q: nat)
    requires Valid(base) && Valid(start) && years >= 1 && SkipsOnlyEarlier(base, start, first, years * 12, q)
    requires !(base.month == 2 && base.day == 29)
    ensures GoodSeries(base, start, years * 12, q)
  {
    hide ToMs, MonthIndex, Shift, DaysIn;
    forall k: nat
      ensures Valid(Shift(base, k * (years * 12)))
      ensures MonthIndex(Shift(base, k * (years * 12))) == MonthIndex(base) + k * (years * 12)
    {
      assert k * (years * 12) == 12 * (k * years);
      YearsLater(base, k * years);
      ShiftValid(base, k * (years * 12));
    }
    forall k: nat | k < q
      ensures Occ(base, years * 12, k) < ToMs(start)
    {
      EarlierStep(base, start, years * 12, q, k);
    }
  }

  /** The fast-forwarded month loop lists the series, filtered; no date is lost and none is
      added, whatever the wrapped month subtraction did. */
  lemma {:induction false} MonthListingExact(times: seq<int>, s: Schedule, c: Cycle, p: Pick, base: Date, start: Date,
                                             end: Date, first: Date, step: int, q: nat, t: int)
    requires ValidPick(p) && InWindow(base, start, end, step) && CanStep(first, step, end)
    requires SkipsOnlyEarlier(base, start, first, step, q) && GoodSeries(base, start, step, q)
    requires PicksSeries(p, first, step, base, q)
    requires ToMs(start) == ExpandStart(s, c)
    requires MonthListing(times, s, c, p, first, step, end)
    requires forall k: nat | MonthIndex(first) + k * step <= MAX_MONTH_INDEX ::
      Picked(p, Cursor(first, step, k)) == Cursor(first, step, k)
    ensures t in times <==> InMonths(base, step, t) && Keep(s, c, t) && t < ToMs(end)
  {
    hide ToMs, MonthIndex, Shift, Cursor, Picked, MonthListing, GoodSeries, Reaches;
    IndexInCalendar(end);
    if t in times {
      var k := ListedIsSeries(times, s, c, p, first, step, end, base, q, t);
    }
    if InMonths(base, step, t) && Keep(s, c, t) && t < ToMs(end) {
      var k: nat :| Occ(base, step, k) == t;
      SeriesIsListed(times, s, c, p, first, step, start, end, base, q, k);
      assert k * step == q * step + (k - q) * step;
      assert Picked(p, Cursor(first, step, k - q)) == Shift(base, (q + (k - q)) * step);
    }
  }

  lemma {:induction false} PicksCursor(p: Pick, first: Date, step: nat, base: Date, q: nat)
    requires ValidPick(p) && Valid(first) && first.year <= MAX_YEAR && step <= MAX_STEP
    requires p == AsIs || (exists day :: p == OnDay(day) && day == first.day)
    ensures forall k: nat | MonthIndex(first) + k * step <= MAX_MONTH_INDEX ::
      Picked(p, Cursor(first, step, k)) == Cursor(first, step, k)
  {
    hide ToMs, MonthIndex, DaysIn;
    forall k: nat | MonthIndex(first) + k * step <= MAX_MONTH_INDEX
      ensures Picked(p, Cursor(first, step, k)) == Cursor(first, step, k)
    {
      if p.OnDay? {
        var d := Cursor(first, step, k);
        forall i: nat
          ensures p.day <= DaysIn(MonthIndex(first) + i * step)
        {}
        CursorKeepsDay(first, step, k, p.day);
        CursorInRange(first, step, k);
      }
    }
  }

  lemma {:induction false} MonthlyExact(times: seq<int>, s: Schedule, c: Cycle, r: Rule)
    requires Supported(s, c, r) && Exactable(c, r) && r.cycleType == 3 && ExpandStart(s, c) < ExpandEnd(s, c)
    requires Listing(times, s, c, r)
    ensures Exact(times, s, c, r)
  {
    hide ToMs, FromMs, MonthIndex, Shift, Cursor, Picked, MonthListing, GoodSeries, PicksSeries, AdvanceMonths,
        MonthsBetween, CeilTo, SkipsOnlyEarlier, InWindow;
    WindowIsGood(s, c, r);
    var base, start, end := FromMs(c.startAt), FromMs(ExpandStart(s, c)), FromMs(ExpandEnd(s, c));
    var step := Interval(r);
    var first := MonthFirst(base, start, step);
    var q := MonthFastForward(base, start, end, step);
    FirstKeepsDay(base, start, first, step, q);
    MonthSeries(base, start, first, step, q);
    MonthPicksSeries(base, start, first, step, q);
    PicksCursor(OnDay(base.day), first, step, base, q);
    forall t
      ensures t in times <==> Occurs(s, c, r, t) && Keep(s, c, t) && t < ExpandEnd(s, c)
    {
      MonthListingExact(times, s, c, OnDay(base.day), base, start, end, first, step, q, t);
    }
    ListingIncreases(times, s, c, OnDay(base.day), first, step, end);
  }

  lemma {:induction false} FirstKeepsDay(base: Date, start: Date, first: Date, step: int, q: nat)
    requires SkipsOnlyEarlier(base, start, first, step, q) && base.day <= 28
    ensures first.day == base.day && base.(day := Min(base.day, 28)) == base
  {}

  lemma {:induction false} ListingIncreases(times: seq<int>, s: Schedule, c: Cycle, p: Pick, first: Date, step: nat,
      end: Date)
    requires ValidPick(p) && Valid(first) && first.year <= MAX_YEAR && step <= MAX_STEP
    requires MonthListing(times, s, c, p, first, step, end)
    ensures Increasing(times)
  {
    hide ToMs, Cursor;
  }

  lemma {:induction false} YearlyExact(times: seq<int>, s: Schedule, c: Cycle, r: Rule)
    requires Supported(s, c, r) && Exactable(c, r) && r.cycleType == 5 && ExpandStart(s, c) < ExpandEnd(s, c)
    requires Listing(times, s, c, r)
    ensures Exact(times, s, c, r)
  {
    hide ToMs, FromMs, MonthIndex, Shift, Cursor, Picked, MonthListing, GoodSeries, PicksSeries, AdvanceMonths,
        CeilTo, SkipsOnlyEarlier, InWindow;
    WindowIsGood(s, c, r);
    var base, start, end := FromMs(c.startAt), FromMs(ExpandStart(s, c)), FromMs(ExpandEnd(s, c));
    var years := Interval(r);
    var first := YearFirst(base, start, years);
    var q := YearFastForward(base, start, end, years);
    YearSeries(base, start, first, years, q);
    YearPicksSeries(base, start, first, years, q);
    PicksCursor(AsIs, first, years * 12, base, q);
    forall t
      ensures t in times <==> Occurs(s, c, r, t) && Keep(s, c, t) && t < ExpandEnd(s, c)
    {
      MonthListingExact(times, s, c, AsIs, base, start, end, first, years * 12, q, t);
    }
    ListingIncreases(times, s, c, AsIs, first, years * 12, end);
  }

  lemma {:induction false} DayOrWeekExact(times: seq<int>, s: Schedule, c: Cycle, r: Rule)
    requires Supported(s, c, r) && (r.cycleType == 1 || r.cycleType == 2) && ExpandStart(s, c) < ExpandEnd(s, c)
    requires Listing(times, s, c, r)
    ensures Exact(times, s, c, r)
  {
    hide ToMs, FromMs, DayTimes, Weekday, WeekDays, IsWeekIntervalMatch;
    WindowIsGood(s, c, r);
    forall t
      ensures Kept(s, c)(t) == Keep(s, c, t)
    {
      KeptIs(s, c, t);
    }
  }

  /** The main result on expansion: for every supported daily and weekly rule, every monthly
      rule with base day up to 28 and every yearly rule outside 29 February, the instances
      start, in order and once each, at exactly the times of the unclipped series that lie in
      [max(start_at, start_time), window end) and are not exceptions. */
  lemma {:induction false} ExpansionIsExact(times: seq<int>, s: Schedule, c: Cycle, r: Rule)
    requires Supported(s, c, r) && Exactable(c, r) && Listing(times, s, c, r)
    ensures Exact(times, s, c, r)
  {
    hide KindListing, Occurs, ToMs, FromMs;
    if ExpandStart(s, c) >= ExpandEnd(s, c) {
    } else if r.cycleType == 3 {
      MonthlyExact(times, s, c, r);
    } else if r.cycleType == 5 {
      YearlyExact(times, s, c, r);
    } else if r.cycleType == 1 || r.cycleType == 2 {
      DayOrWeekExact(times, s, c, r);
    } else {
      UnknownKind(times, s, c, r);
    }
  }

  lemma {:induction false} UnknownKind(times: seq<int>, s: Schedule, c: Cycle, r: Rule)
    requires Supported(s, c, r) && r.cycleType !in {1, 2, 3, 4, 5} && ExpandStart(s, c) < ExpandEnd(s, c)
    requires Listing(times, s, c, r)
    ensures Exact(times, s, c, r)
  {}
}
