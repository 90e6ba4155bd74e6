/** Expansion of a recurring schedule into instances: one loop per rule kind. */
module Recurrence {
  import opened Basics
  import opened Dates
  import opened Gather

  const EXPAND_DAYS := 120

  type I32 = x: int | -0x8000_0000 <= x <= 0x7FFF_FFFF

  datatype Rule = Rule(cycleType: int, step: I32, weekSeqs: seq<int>)

  datatype Cycle = Cycle(startAt: int, stopAt: int, exceptionTimes: seq<int>, rule: Option<Rule>)

  /** `details` stands for the descriptive fields an instance copies unchanged. */
  datatype Schedule = Schedule(id: int, calendarId: int, version: int, startTime: int, endTime: int,
                               memberIds: seq<int>, cycleRuleId: int, cycle: Option<Cycle>, modifyScope: int,
                               details: string)

  function BuildInstance(template: Schedule, start: int, duration: int): Schedule {
    template.(startTime := start, endTime := start + duration, modifyScope := 0)
  }

  function InstancesAt(template: Schedule, times: seq<int>, duration: int): seq<Schedule> {
    seq(|times|, i requires 0 <= i < |times| => BuildInstance(template, times[i], duration))
  }

  function Starts(instances: seq<Schedule>): seq<int> {
    seq(|instances|, i requires 0 <= i < |instances| => instances[i].startTime)
  }

  lemma {:induction false} StartsOf(template: Schedule, times: seq<int>, duration: int)
    ensures Starts(InstancesAt(template, times, duration)) == times
  {}

  lemma {:induction false} InstancesAppend(template: Schedule, times: seq<int>, t: int, duration: int)
    ensures InstancesAt(template, times + [t], duration) ==
            InstancesAt(template, times, duration) + [BuildInstance(template, t, duration)]
  {}

  /** The filter all loops share. */
  predicate Keep(s: Schedule, c: Cycle, t: int) {
    t >= c.startAt && t >= s.startTime && t !in c.exceptionTimes
  }

  function Interval(rule: Rule): (n: int)
    ensures 1 <= n <= 0x7FFF_FFFF
  {
    Max(rule.step, 1)
  }

  ghost function Kept(s: Schedule, c: Cycle): int -> bool {
    t => Keep(s, c, t)
  }

  lemma {:induction false} KeptIs(s: Schedule, c: Cycle, t: int)
    ensures Kept(s, c)(t) == Keep(s, c, t)
  {}

  // ---- daily ----

  function AddDays(d: Date, days: nat): Date {
    if days == 0 then d else NextDay(AddDays(d, days - 1))
  }

  lemma {:induction false} AddDaysIs(d: Date, days: nat)
    requires Valid(d)
    ensures Valid(AddDays(d, days)) && ToMs(AddDays(d, days)) == ToMs(d) + days * MS_PER_DAY
    ensures AddDays(d, days).tod == d.tod
  {
    if days == 0 {
    } else {
      hide DayNumber, NextDay, Valid;
      AddDaysIs(d, days - 1);
      NextDayCounts(AddDays(d, days - 1));
      NextDayTime(AddDays(d, days - 1));
    }
  }

  lemma {:induction false} NextDayTime(d: Date)
    ensures NextDay(d).tod == d.tod
  {}

  ghost function DayTimes(start: int, interval: int): nat -> int {
    k => start + k * (interval * MS_PER_DAY)
  }

  lemma {:induction false} DayTimesGrow(start: int, interval: int, i: nat, j: nat)
    requires interval >= 1
    ensures i < j ==> DayTimes(start, interval)(i) < DayTimes(start, interval)(j)
    ensures DayTimes(start, interval)(i + 1) == DayTimes(start, interval)(i) + interval * MS_PER_DAY
  {
    var step := interval * MS_PER_DAY;
    assert (i + 1) * step == i * step + step;
    if i < j {
      assert j * step == i * step + (j - i) * step;
      assert (j - i) * step > 0;
    }
  }

  lemma {:induction false} DayTimesNext(start: int, interval: int, n: nat)
    requires interval >= 1
    ensures forall k: nat :: k < n ==> DayTimes(start, interval)(k) < DayTimes(start, interval)(n)
    ensures forall k: nat :: k >= n ==> DayTimes(start, interval)(k) >= DayTimes(start, interval)(n)
    ensures DayTimes(start, interval)(n + 1) == DayTimes(start, interval)(n) + interval * MS_PER_DAY
  {
    forall k: nat | k < n
      ensures DayTimes(start, interval)(k) < DayTimes(start, interval)(n)
    {
      DayTimesGrow(start, interval, k, n);
    }
    forall k: nat | k >= n
      ensures DayTimes(start, interval)(k) >= DayTimes(start, interval)(n)
    {
      DayTimesGrow(start, interval, n, k);
    }
    DayTimesGrow(start, interval, n, n);
  }

  /** What a day loop has listed after n days, all of them before the end. */
  ghost predicate Collected(template: Schedule, duration: int, instances: seq<Schedule>, times: seq<int>,
                            at: nat -> int, keep: int -> bool, n: nat, end: int) {
    && (forall k: nat :: k < n ==> at(k) < end)
    && instances == InstancesAt(template, times, duration)
    && Gathered(times, at, keep, n)
  }

  lemma {:induction false} CollectNone(template: Schedule, duration: int, start: int, interval: int, keep: int -> bool,
                                       end: int)
    ensures Collected(template, duration, [], [], DayTimes(start, interval), keep, 0, end)
    ensures DayTimes(start, interval)(0) == start
  {}

  lemma {:induction false} CollectNext(template: Schedule, duration: int, instances: seq<Schedule>, times: seq<int>,
                                       start: int, interval: int, keep: int -> bool, n: nat, end: int)
    returns (times': seq<int>)
    requires Collected(template, duration, instances, times, DayTimes(start, interval), keep, n, end)
    requires interval >= 1 && DayTimes(start, interval)(n) < end
    ensures var at := DayTimes(start, interval);
            && Collected(template, duration,
                         if keep(at(n)) then instances + [BuildInstance(template, at(n), duration)] else instances,
                         times', at, keep, n + 1, end)
            && at(n + 1) == at(n) + interval * MS_PER_DAY
  {
    hide Gathered, InstancesAt, BuildInstance, DayTimes;
    var at := DayTimes(start, interval);
    DayTimesNext(start, interval, n);
    GatherNext(times, at, keep, n);
    InstancesAppend(template, times, at(n), duration);
    times' := if keep(at(n)) then times + [at(n)] else times;
  }

  lemma {:induction false} CollectDone(template: Schedule, duration: int, instances: seq<Schedule>, times: seq<int>,
                                       start: int, interval: int, keep: int -> bool, n: nat, end: int)
    requires Collected(template, duration, instances, times, DayTimes(start, interval), keep, n, end)
    requires interval >= 1 && DayTimes(start, interval)(n) >= end
    ensures instances == InstancesAt(template, Starts(instances), duration)
    ensures Lists(Starts(instances), DayTimes(start, interval), DayTimes(start, interval), keep, end)
  {
    hide Gathered, InstancesAt, Starts, DayTimes, Lists;
    var at := DayTimes(start, interval);
    DayTimesNext(start, interval, n);
    GatherDone(times, at, at, keep, n, end);
    StartsOf(template, times, duration);
  }

  method GenByDay(template: Schedule, c: Cycle, rule: Rule, start: Date, end: Date, duration: int)
    returns (instances: seq<Schedule>)
    requires Valid(start)
    ensures instances == InstancesAt(template, Starts(instances), duration)
    ensures Lists(Starts(instances), DayTimes(ToMs(start), Interval(rule)), DayTimes(ToMs(start), Interval(rule)),
        Kept(template, c), ToMs(end))
  {
    var interval := Interval(rule);
    var current := start;
    instances := [];
    ghost var times: seq<int> := [];
    ghost var n: nat := 0;
    ghost var at := DayTimes(ToMs(start), interval);
    hide Collected, InstancesAt, Starts, AddDays, ToMs, DayTimes, Valid, BuildInstance, Keep, Kept, Lists, Interval;
    CollectNone(template, duration, ToMs(start), interval, Kept(template, c), ToMs(end));
    while ToMs(current) < ToMs(end)
      invariant Valid(current) && ToMs(current) == at(n)
      invariant Collected(template, duration, instances, times, at, Kept(template, c), n, ToMs(end))
      decreases ToMs(end) - ToMs(current)
    {
      var ts := ToMs(current);
      KeptIs(template, c, ts);
      times := CollectNext(template, duration, instances, times, ToMs(start), interval, Kept(template, c), n,
        ToMs(end));
      if Keep(template, c, ts) {
        instances := instances + [BuildInstance(template, ts, duration)];
      }
      AddDaysIs(current, interval);
      current := AddDays(current, interval);
      n := n + 1;
    }
    CollectDone(template, duration, instances, times, ToMs(start), interval, Kept(template, c), n, ToMs(end));
  }

  // ---- weekly ----

  /** Sunday is stored as 0 and counted as 6. */
  function WeekDays(weekSeqs: seq<int>): seq<int> {
    seq(|weekSeqs|, i requires 0 <= i < |weekSeqs| => if weekSeqs[i] == 0 then 6 else weekSeqs[i] - 1)
  }

  /** The rule names weekday w, which counts from Monday, 0, to Sunday, 6: the rule's own numbers are
      0 for Sunday, then 1 for Monday up to 6 for Saturday. */
  predicate NamesWeekday(weekSeqs: seq<int>, w: int) {
    (w == 6 && 0 in weekSeqs) || w + 1 in weekSeqs
  }

  lemma {:induction false} NamesWeekdayIff(weekSeqs: seq<int>, w: int)
    requires 0 <= w <= 6
    ensures NamesWeekday(weekSeqs, w) <==> w in WeekDays(weekSeqs)
    ensures (forall x | x in weekSeqs :: 0 <= x <= 6) ==> (NamesWeekday(weekSeqs, w) <==> (w + 1) % 7 in weekSeqs)
  {
    var days := WeekDays(weekSeqs);
    if w in days {
      var i :| 0 <= i < |days| && days[i] == w;
      assert weekSeqs[i] in weekSeqs;
    }
    if w == 6 && 0 in weekSeqs {
      var i :| 0 <= i < |weekSeqs| && weekSeqs[i] == 0;
      assert days[i] == 6;
    }
    if w + 1 in weekSeqs {
      var i :| 0 <= i < |weekSeqs| && weekSeqs[i] == w + 1;
      assert days[i] == w;
    }
  }

  predicate IsWeekIntervalMatch(base: int, current: int, interval: int)
    requires base <= current
  {
    interval <= 1 || ((current - base) / MS_PER_DAY / 7) % interval == 0
  }

  ghost function WeekKept(s: Schedule, c: Cycle, rule: Rule, base: int): int -> bool {
    t => Keep(s, c, t) && base <= t && Weekday(t / MS_PER_DAY) in WeekDays(rule.weekSeqs) &&
         IsWeekIntervalMatch(base, t, Interval(rule))
  }

  method GenByWeek(template: Schedule, c: Cycle, rule: Rule, base: Date, start: Date, end: Date, duration: int)
    returns (instances: seq<Schedule>)
    requires Valid(base) && Valid(start) && ToMs(base) <= ToMs(start)
    ensures instances == InstancesAt(template, Starts(instances), duration)
    ensures Lists(Starts(instances), DayTimes(ToMs(start), 1), DayTimes(ToMs(start), 1), WeekKept(template, c, rule,
        ToMs(base)), ToMs(end))
  {
    var intervalWeeks := Interval(rule);
    var weekDays := WeekDays(rule.weekSeqs);
    instances := [];
    ghost var times: seq<int> := [];
    ghost var at := DayTimes(ToMs(start), 1);
    ghost var keep := WeekKept(template, c, rule, ToMs(base));
    hide Collected, InstancesAt, Starts, AddDays, ToMs, DayTimes, Valid, BuildInstance, Keep, Weekday, WeekDays;
    CollectNone(template, duration, ToMs(start), 1, keep, ToMs(end));
    if |weekDays| == 0 {
      NoDaysListed(template, c, rule, ToMs(base), ToMs(start), ToMs(end), duration);
      return;
    }
    var current := start;
    ghost var n: nat := 0;
    while ToMs(current) < ToMs(end)
      invariant Valid(current) && ToMs(current) == at(n) && ToMs(current) >= ToMs(start)
      invariant Collected(template, duration, instances, times, at, keep, n, ToMs(end))
      decreases ToMs(end) - ToMs(current)
    {
      var ts := ToMs(current);
      times := CollectNext(template, duration, instances, times, ToMs(start), 1, keep, n, ToMs(end));
      var weekday := Weekday(DayNumber(current));
      DayOfMs(current);
      if weekday in weekDays {
        if Keep(template, c, ts) && IsWeekIntervalMatch(ToMs(base), ts, intervalWeeks) {
          instances := instances + [BuildInstance(template, ts, duration)];
        }
      }
      AddDaysIs(current, 1);
      current := AddDays(current, 1);
      n := n + 1;
    }
    CollectDone(template, duration, instances, times, ToMs(start), 1, keep, n, ToMs(end));
  }

  lemma {:induction false} NoDaysListed(template: Schedule, c: Cycle, rule: Rule, base: int, start: int, end: int,
                                        duration: int)
    requires WeekDays(rule.weekSeqs) == []
    ensures Starts([]) == [] && [] == InstancesAt(template, [], duration)
    ensures Lists([], DayTimes(start, 1), DayTimes(start, 1), WeekKept(template, c, rule, base), end)
  {}

  lemma {:induction false} DayOfMs(d: Date)
    requires Valid(d)
    ensures ToMs(d) / MS_PER_DAY == DayNumber(d)
  {}

  // ---- rules that step by months ----

  /** The dates the loop visits. */
  function Cursor(first: Date, step: nat, k: nat): (d: Date)
    requires Valid(first) && first.year <= MAX_YEAR && step <= MAX_STEP
    ensures Valid(d) && d.year <= MAX_YEAR
  {
    if k == 0 then first
    else
      var before := Cursor(first, step, k - 1);
      AdvanceValid(before, step);
      AdvanceMonths(before, step)
  }

  lemma {:induction false} AdvanceValid(d: Date, months: nat)
    requires Valid(d) && d.year <= MAX_YEAR && months <= MAX_STEP
    ensures Valid(AdvanceMonths(d, months)) && AdvanceMonths(d, months).year <= MAX_YEAR
    ensures AdvanceMonths(d, months).tod == d.tod
    ensures ToMs(AdvanceMonths(d, months)) >= ToMs(d)
  {
    if MonthIndex(d) + months <= MAX_MONTH_INDEX {
      AdvanceInRange(d, months);
      if months > 0 {
        EarlierMonth(d, AdvanceMonths(d, months));
      } else {
        IndexSplits(d);
        SameMonth(d, AdvanceMonths(d, 0));
      }
    } else {
      AdvanceOutOfRange(d, months);
    }
  }

  lemma {:induction false} CursorGrows(first: Date, step: nat, i: nat, j: nat)
    requires Valid(first) && first.year <= MAX_YEAR && step <= MAX_STEP && i <= j
    ensures ToMs(Cursor(first, step, i)) <= ToMs(Cursor(first, step, j))
  {
    hide ToMs, AdvanceMonths, DaysInMonth;
    if i == j {
    } else {
      CursorGrows(first, step, i, j - 1);
      AdvanceValid(Cursor(first, step, j - 1), step);
    }
  }

  /** While the calendar lasts, the k-th date lies k steps on and has lost days only to the
      months passed through. */
  lemma {:induction false} CursorInRange(first: Date, step: nat, k: nat)
    requires Valid(first) && first.year <= MAX_YEAR && step <= MAX_STEP
    requires MonthIndex(first) + k * step <= MAX_MONTH_INDEX
    ensures MonthIndex(Cursor(first, step, k)) == MonthIndex(first) + k * step
    ensures Cursor(first, step, k).tod == first.tod && Cursor(first, step, k).day <= first.day
  {
    hide ToMs, AdvanceMonths;
    if k == 0 {
    } else {
      assert k * step == (k - 1) * step + step;
      assert (k - 1) * step >= 0;
      CursorInRange(first, step, k - 1);
      AdvanceInRange(Cursor(first, step, k - 1), step);
    }
  }

  /** A loop that steps by months ends exactly when it visits a date that is not before the
      end; LoopEndsIff says when it does. */
  ghost predicate Reaches(first: Date, step: nat, end: Date)
    requires Valid(first) && first.year <= MAX_YEAR && step <= MAX_STEP
  {
    exists n: nat :: ToMs(Cursor(first, step, n)) >= ToMs(end)
  }

  /** At the calendar's edge the loop visits the same date for ever. */
  lemma {:induction false} CursorStuck(first: Date, step: nat, k: nat, j: nat)
    requires Valid(first) && first.year <= MAX_YEAR && step <= MAX_STEP && k <= j
    requires MonthIndex(Cursor(first, step, k)) + step > MAX_MONTH_INDEX
    ensures Cursor(first, step, j) == Cursor(first, step, k)
  {
    hide ToMs, AdvanceMonths, DaysInMonth;
    if k == j {
    } else {
      CursorStuck(first, step, k, j - 1);
      IndexSplits(Cursor(first, step, k));
      AdvanceOutOfRange(Cursor(first, step, k), step);
    }
  }

  /** A date before the end from which the loop still gets to the end is not at the edge. */
  lemma {:induction false} NotStuckBefore(first: Date, step: nat, k: nat, end: Date)
    requires Valid(first) && first.year <= MAX_YEAR && step <= MAX_STEP && Reaches(first, step, end)
    requires ToMs(Cursor(first, step, k)) < ToMs(end)
    ensures MonthIndex(Cursor(first, step, k)) + step <= MAX_MONTH_INDEX
  {
    hide ToMs, Cursor, MonthIndex;
    var n: nat :| ToMs(Cursor(first, step, n)) >= ToMs(end);
    if n < k {
      CursorGrows(first, step, n, k);
    } else if MonthIndex(Cursor(first, step, k)) + step > MAX_MONTH_INDEX {
      CursorStuck(first, step, k, n);
    }
  }

  /** When the loop ends, a visited date before `end` was reached without hitting the
      calendar's edge. */
  lemma {:induction false} CursorBefore(first: Date, step: nat, k: nat, end: Date)
    requires Valid(first) && first.year <= MAX_YEAR && step <= MAX_STEP && Valid(end)
    requires Reaches(first, step, end)
    requires ToMs(Cursor(first, step, k)) < ToMs(end)
    ensures MonthIndex(first) + k * step <= MonthIndex(end)
    ensures MonthIndex(first) + k * step + step <= MAX_MONTH_INDEX
  {
    hide ToMs, AdvanceMonths, DaysInMonth, Reaches;
    NotStuckBefore(first, step, k, end);
    if k == 0 {
      NotLaterMonth(first, end);
    } else {
      assert k * step == (k - 1) * step + step;
      AdvanceValid(Cursor(first, step, k - 1), step);
      CursorBefore(first, step, k - 1, end);
      CursorInRange(first, step, k);
      NotLaterMonth(Cursor(first, step, k), end);
    }
  }

  lemma {:induction false} NotLaterMonth(a: Date, b: Date)
    requires Valid(a) && Valid(b) && ToMs(a) <= ToMs(b)
    ensures MonthIndex(a) <= MonthIndex(b)
  {
    if MonthIndex(a) > MonthIndex(b) {
      EarlierMonth(b, a);
    }
  }

  /** Strictly later months while in the calendar. */
  lemma {:induction false} CursorStrict(first: Date, step: nat, i: nat, j: nat)
    requires Valid(first) && first.year <= MAX_YEAR && 0 < step <= MAX_STEP && i < j
    requires MonthIndex(first) + j * step <= MAX_MONTH_INDEX
    ensures MonthIndex(Cursor(first, step, i)) < MonthIndex(Cursor(first, step, j))
  {
    hide ToMs, AdvanceMonths, Cursor, MonthIndex;
    assert j * step == i * step + (j - i) * step && (j - i) * step > 0;
    CursorInRange(first, step, i);
    CursorInRange(first, step, j);
  }

  /** Rounds up to a multiple of the interval. */
  function CeilTo(m: nat, interval: int): (n: nat)
    requires interval >= 1
    ensures m <= n < m + interval
  {
    CeilBounds(m, interval);
    ((m + interval - 1) / interval) * interval
  }

  lemma {:induction false} CeilBounds(m: nat, interval: int)
    requires interval >= 1
    ensures m <= ((m + interval - 1) / interval) * interval < m + interval
  {
    var x := m + interval - 1;
    assert x == (x / interval) * interval + x % interval;
  }

  /** Which date of a visited month becomes an instance. */
  datatype Pick = OnDay(day: int) | OnWeekday(week: nat, dayOfWeek: nat) | AsIs

  predicate ValidPick(p: Pick) {
    match p
    case OnDay(day) => 1 <= day <= 28
    case OnWeekday(_, _) => true
    case AsIs => true
  }

  function Picked(p: Pick, d: Date): Date
    requires ValidPick(p)
  {
    match p
    case OnDay(day) => SetDay(d, day)
    case OnWeekday(week, w) => NthWeekday(d, week, w)
    case AsIs => d
  }

  lemma {:induction false} PickedStaysInMonth(p: Pick, d: Date)
    requires ValidPick(p) && Valid(d)
    ensures Valid(Picked(p, d)) && MonthIndex(Picked(p, d)) == MonthIndex(d) && Picked(p, d).tod == d.tod
  {}

  ghost predicate CanStep(first: Date, step: nat, end: Date) {
    && Valid(first) && Valid(end) && first.year <= MAX_YEAR && end.year <= MAX_YEAR
    && 0 < step <= MAX_STEP && Reaches(first, step, end)
  }

  ghost function CursorTimes(first: Date, step: nat): nat -> int
    requires Valid(first) && first.year <= MAX_YEAR && step <= MAX_STEP
  {
    (k: nat) => ToMs(Cursor(first, step, k))
  }

  ghost function PickedTimes(p: Pick, first: Date, step: nat): nat -> int
    requires ValidPick(p) && Valid(first) && first.year <= MAX_YEAR && step <= MAX_STEP
  {
    (k: nat) => ToMs(Picked(p, Cursor(first, step, k)))
  }

  /** One turn of a month loop, for all three rule kinds. */
  lemma {:induction false} MonthTurn(p: Pick, first: Date, step: nat, end: Date, n: nat)
    requires ValidPick(p) && CanStep(first, step, end) && ToMs(Cursor(first, step, n)) < ToMs(end)
    ensures forall k: nat :: k < n ==> PickedTimes(p, first, step)(k) < PickedTimes(p, first, step)(n)
    ensures MonthIndex(Cursor(first, step, n)) <= MonthIndex(end)
    ensures MonthIndex(Cursor(first, step, n + 1)) == MonthIndex(Cursor(first, step, n)) + step
    ensures Cursor(first, step, n + 1) == AdvanceMonths(Cursor(first, step, n), step)
    ensures PickedTimes(p, first, step)(n) == ToMs(Picked(p, Cursor(first, step, n)))
  {
    hide ToMs, MonthIndex, Picked, AdvanceMonths, DaysInMonth;
    CursorBefore(first, step, n, end);
    CursorInRange(first, step, n);
    assert (n + 1) * step == n * step + step;
    CursorInRange(first, step, n + 1);
    forall k: nat | k < n
      ensures PickedTimes(p, first, step)(k) < PickedTimes(p, first, step)(n)
    {
      CursorStrict(first, step, k, n);
      PickedStaysInMonth(p, Cursor(first, step, k));
      PickedStaysInMonth(p, Cursor(first, step, n));
      EarlierMonth(Picked(p, Cursor(first, step, k)), Picked(p, Cursor(first, step, n)));
    }
  }

  /** The visited dates before `end` are the first n. */
  ghost predicate StopsAt(first: Date, step: nat, end: Date, n: nat)
    requires Valid(first) && first.year <= MAX_YEAR && step <= MAX_STEP
  {
    (n > 0 ==> ToMs(Cursor(first, step, n - 1)) < ToMs(end)) && ToMs(Cursor(first, step, n)) >= ToMs(end)
  }

  lemma {:induction false} MonthsDone(times: seq<int>, s: Schedule, c: Cycle, p: Pick, first: Date, step: nat,
      end: Date, n: nat)
    requires ValidPick(p) && Valid(first) && first.year <= MAX_YEAR && step <= MAX_STEP
    requires StopsAt(first, step, end, n)
    requires Gathered(times, PickedTimes(p, first, step), Kept(s, c), n)
    ensures MonthListing(times, s, c, p, first, step, end)
  {
    hide ToMs, Gathered, Cursor, Picked, PickedTimes, Lists, Kept;
    forall k: nat | k >= n
      ensures CursorTimes(first, step)(k) >= ToMs(end)
    {
      CursorGrows(first, step, n, k);
    }
    forall k: nat | k < n
      ensures CursorTimes(first, step)(k) < ToMs(end)
    {
      CursorGrows(first, step, k, n - 1);
    }
    GatherDone(times, PickedTimes(p, first, step), CursorTimes(first, step), Kept(s, c), n, ToMs(end));
  }

  lemma {:induction false} MonthEntry(template: Schedule, c: Cycle, p: Pick, first: Date, step: nat, duration: int)
    requires ValidPick(p) && Valid(first) && first.year <= MAX_YEAR && step <= MAX_STEP
    ensures Cursor(first, step, 0) == first && InstancesAt(template, [], duration) == []
    ensures Gathered([], PickedTimes(p, first, step), Kept(template, c), 0)
  {}

  /** What the three month loops compute: the picked date of every visited month whose cursor
      lies before the end. */
  ghost predicate MonthListing(times: seq<int>, s: Schedule, c: Cycle, p: Pick, first: Date, step: nat, end: Date)
    requires ValidPick(p) && Valid(first) && first.year <= MAX_YEAR && step <= MAX_STEP
  {
    Lists(times, PickedTimes(p, first, step), CursorTimes(first, step), Kept(s, c), ToMs(end))
  }

  function MonthFirst(base: Date, start: Date, interval: int): Date
    requires Valid(base) && Valid(start) && MonthsBetween(base, start) >= 0 && interval >= 1
  {
    AdvanceMonths(base, CeilTo(MonthsBetween(base, start), interval))
  }

  method GenByMonth(template: Schedule, c: Cycle, rule: Rule, base: Date, start: Date, end: Date, duration: int)
    returns (instances: seq<Schedule>)
    requires Valid(base) && Valid(start) && MonthsBetween(base, start) >= 0
    requires CanStep(MonthFirst(base, start, Interval(rule)), Interval(rule), end)
    ensures instances == InstancesAt(template, Starts(instances), duration)
    ensures MonthListing(Starts(instances), template, c, OnDay(Min(base.day, 28)), MonthFirst(base, start,
        Interval(rule)), Interval(rule), end)
  {
    hide ToMs, AdvanceMonths, MonthIndex, DaysInMonth, Gathered, InstancesAt, Starts, Cursor, PickedTimes, SetDay;
    var interval := Interval(rule);
    var dayOfMonth := Min(base.day, 28);
    var monthsSinceBase := MonthsBetween(base, start);
    var startMonthOffset := CeilTo(monthsSinceBase, interval);
    var current := AdvanceMonths(base, startMonthOffset);
    instances := [];
    ghost var times: seq<int> := [];
    ghost var p, first, n: nat := OnDay(dayOfMonth), current, 0;
    MonthEntry(template, c, p, first, interval, duration);
    while ToMs(current) < ToMs(end)
      invariant current == Cursor(first, interval, n)
      invariant n > 0 ==> ToMs(Cursor(first, interval, n - 1)) < ToMs(end)
      invariant instances == InstancesAt(template, times, duration)
      invariant Gathered(times, PickedTimes(p, first, interval), Kept(template, c), n)
      decreases MonthIndex(end) + interval - MonthIndex(current)
    {
      MonthTurn(p, first, interval, end, n);
      var adjusted := SetDay(current, dayOfMonth);
      var ts := ToMs(adjusted);
      GatherNext(times, PickedTimes(p, first, interval), Kept(template, c), n);
      InstancesAppend(template, times, ts, duration);
      if Keep(template, c, ts) {
        instances := instances + [BuildInstance(template, ts, duration)];
        times := times + [ts];
      }
      current := AdvanceMonths(current, interval);
      n := n + 1;
    }
    MonthsDone(times, template, c, p, first, interval, end, n);
    StartsOf(template, times, duration);
  }

  /** Which weekday of the month the rule names; a missing weekday is the base date's own. */
  function WeekPick(rule: Rule, base: Date): Pick {
    OnWeekday(
      if |rule.weekSeqs| == 0 then 0 else Max(rule.weekSeqs[0], 0),
      if |rule.weekSeqs| > 1 then (if rule.weekSeqs[1] == 0 then 6 else (rule.weekSeqs[1] - 1) % U32_RANGE)
      else Weekday(DayNumber(base)))
  }

  method GenByMonthWeek(template: Schedule, c: Cycle, rule: Rule, base: Date, start: Date, end: Date, duration: int)
    returns (instances: seq<Schedule>)
    requires Valid(base) && Valid(start) && MonthsBetween(base, start) >= 0
    requires CanStep(MonthFirst(base, start, Interval(rule)), Interval(rule), end)
    ensures instances == InstancesAt(template, Starts(instances), duration)
    ensures MonthListing(Starts(instances), template, c, WeekPick(rule, base), MonthFirst(base, start,
        Interval(rule)), Interval(rule), end)
  {
    hide ToMs, AdvanceMonths, MonthIndex, DaysInMonth, Gathered, InstancesAt, Starts, Cursor, PickedTimes, NthWeekday,
        DayNumber, Weekday;
    var interval := Interval(rule);
    var weekOfMonth := if |rule.weekSeqs| == 0 then 0 else Max(rule.weekSeqs[0], 0);
    var dayOfWeek: nat;
    if |rule.weekSeqs| > 1 {
      var w := rule.weekSeqs[1];
      dayOfWeek := if w == 0 then 6 else (w - 1) % U32_RANGE;
    } else {
      dayOfWeek := Weekday(DayNumber(base));
    }
    var monthsSinceBase := MonthsBetween(base, start);
    var startMonthOffset := CeilTo(monthsSinceBase, interval);
    var current := AdvanceMonths(base, startMonthOffset);
    instances := [];
    ghost var times: seq<int> := [];
    ghost var p, first, n: nat := OnWeekday(weekOfMonth, dayOfWeek), current, 0;
    MonthEntry(template, c, p, first, interval, duration);
    while ToMs(current) < ToMs(end)
      invariant current == Cursor(first, interval, n)
      invariant n > 0 ==> ToMs(Cursor(first, interval, n - 1)) < ToMs(end)
      invariant instances == InstancesAt(template, times, duration)
      invariant Gathered(times, PickedTimes(p, first, interval), Kept(template, c), n)
      decreases MonthIndex(end) + interval - MonthIndex(current)
    {
      MonthTurn(p, first, interval, end, n);
      var adjusted := NthWeekday(current, weekOfMonth, dayOfWeek);
      var ts := ToMs(adjusted);
      GatherNext(times, PickedTimes(p, first, interval), Kept(template, c), n);
      InstancesAppend(template, times, ts, duration);
      if Keep(template, c, ts) {
        instances := instances + [BuildInstance(template, ts, duration)];
        times := times + [ts];
      }
      current := AdvanceMonths(current, interval);
      n := n + 1;
    }
    MonthsDone(times, template, c, p, first, interval, end, n);
    StartsOf(template, times, duration);
  }

  function YearFirst(base: Date, start: Date, interval: int): Date
    requires Valid(base) && base.year <= start.year && interval >= 1
  {
    AdvanceMonths(base, CeilTo(start.year - base.year, interval) * 12)
  }

  method GenByYear(template: Schedule, c: Cycle, rule: Rule, base: Date, start: Date, end: Date, duration: int)
    returns (instances: seq<Schedule>)
    requires Valid(base) && Valid(start) && base.year <= start.year
    requires CanStep(YearFirst(base, start, Interval(rule)), Interval(rule) * 12, end)
    ensures instances == InstancesAt(template, Starts(instances), duration)
    ensures MonthListing(Starts(instances), template, c, AsIs, YearFirst(base, start, Interval(rule)),
        Interval(rule) * 12, end)
  {
    hide ToMs, AdvanceMonths, MonthIndex, DaysInMonth, Gathered, InstancesAt, Starts, Cursor, PickedTimes;
    var interval := Interval(rule);
    var yearsSinceBase := start.year - base.year;
    var startYearOffset := CeilTo(yearsSinceBase, interval);
    var current := AdvanceMonths(base, startYearOffset * 12);
    instances := [];
    ghost var times: seq<int> := [];
    ghost var p, first, step, n: nat := AsIs, current, interval * 12, 0;
    MonthEntry(template, c, p, first, step, duration);
    while ToMs(current) < ToMs(end)
      invariant current == Cursor(first, step, n)
      invariant n > 0 ==> ToMs(Cursor(first, step, n - 1)) < ToMs(end)
      invariant instances == InstancesAt(template, times, duration)
      invariant Gathered(times, PickedTimes(p, first, step), Kept(template, c), n)
      decreases MonthIndex(end) + step - MonthIndex(current)
    {
      MonthTurn(p, first, step, end, n);
      var ts := ToMs(current);
      GatherNext(times, PickedTimes(p, first, step), Kept(template, c), n);
      InstancesAppend(template, times, ts, duration);
      if Keep(template, c, ts) {
        instances := instances + [BuildInstance(template, ts, duration)];
        times := times + [ts];
      }
      current := AdvanceMonths(current, interval * 12);
      n := n + 1;
    }
    MonthsDone(times, template, c, p, first, step, end, n);
    StartsOf(template, times, duration);
  }

  // ---- the fast-forward ----

  ghost predicate InWindow(base: Date, start: Date, end: Date, step: int) {
    && Valid(base) && Valid(start) && Valid(end)
    && ToMs(base) <= ToMs(start) < ToMs(end)
    && 1 <= step <= MAX_STEP && end.year <= MAX_YEAR
  }

  /** The loop starts q steps after the base date, and every earlier step falls in a month
      before the window. When the start month's number is below the base month's the wrapped
      subtraction throws the offset past the calendar, and the loop starts at the base itself. */
  ghost predicate SkipsOnlyEarlier(base: Date, start: Date, first: Date, step: int, q: nat) {
    && Valid(first) && first.year <= MAX_YEAR
    && MonthIndex(first) == MonthIndex(base) + q * step
    && first.tod == base.tod
    && first.day == Min(base.day, DaysIn(MonthIndex(first)))
    && (q > 0 ==> MonthIndex(base) + (q - 1) * step < MonthIndex(start))
  }

  lemma {:induction false} WindowMonths(base: Date, start: Date, end: Date, step: int)
    requires InWindow(base, start, end, step)
    ensures 0 <= MonthIndex(base) <= MonthIndex(start) <= MonthIndex(end) <= MAX_MONTH_INDEX
    ensures base.year <= start.year <= end.year <= MAX_YEAR
  {
    hide ToMs;
    NotLaterMonth(base, start);
    NotLaterMonth(start, end);
    IndexSplits(base);
    IndexSplits(start);
    IndexSplits(end);
  }

  lemma {:induction false} AdvanceTo(base: Date, months: nat)
    requires Valid(base) && MonthIndex(base) + months <= MAX_MONTH_INDEX
    ensures var first := AdvanceMonths(base, months);
            && Valid(first) && first.year <= MAX_YEAR && first.tod == base.tod
            && MonthIndex(first) == MonthIndex(base) + months
            && first.day == Min(base.day, DaysIn(MonthIndex(first)))
  {
    AdvanceInRange(base, months);
  }

  lemma {:induction false} CeilIsMultiple(m: nat, interval: int) returns (q: nat)
    requires interval >= 1
    ensures CeilTo(m, interval) == q * interval && (q > 0 ==> (q - 1) * interval < m)
    ensures q == (m + interval - 1) / interval
  {
    q := (m + interval - 1) / interval;
    CeilBounds(m, interval);
    assert (q - 1) * interval == q * interval - interval;
  }

  /** How many steps after the base date a month loop starts: none when the unsigned
      subtraction wraps or the offset leaves the calendar, so that the base date is kept. */
  function MonthsSkipped(base: Date, start: Date, interval: int): int
    requires interval >= 1
  {
    var n := (MonthIndex(start) - MonthIndex(base) + interval - 1) / interval;
    if start.month < base.month || MonthIndex(base) + n * interval > MAX_MONTH_INDEX then 0 else n
  }

  function YearsSkipped(base: Date, start: Date, interval: int): int
    requires interval >= 1
  {
    var n := (start.year - base.year + interval - 1) / interval;
    if MonthIndex(base) + n * interval * 12 > MAX_MONTH_INDEX then 0 else n
  }

  /** The first date of a loop that jumps `months` ahead. */
  lemma {:induction false} Jump(base: Date, months: nat)
    requires Valid(base) && base.year <= MAX_YEAR && months <= MAX_MONTH_INDEX + MAX_STEP
    ensures var first := AdvanceMonths(base, months);
            var kept := if MonthIndex(base) + months <= MAX_MONTH_INDEX then months else 0;
            && Valid(first) && first.year <= MAX_YEAR && first.tod == base.tod
            && MonthIndex(first) == MonthIndex(base) + kept
            && first.day == Min(base.day, DaysIn(MonthIndex(first)))
  {
    IndexSplits(base);
    if MonthIndex(base) + months <= MAX_MONTH_INDEX {
      AdvanceTo(base, months);
    } else {
      AdvanceOutOfRange(base, months);
    }
  }

  lemma {:induction false} CeilSize(m: nat, interval: int)
    requires interval >= 1
    ensures m <= CeilTo(m, interval) < m + interval
  {}

  /** The month loop starts MonthsSkipped steps on and leaves out only months before the window. */
  lemma {:induction false} MonthFastForward(base: Date, start: Date, end: Date, interval: int) returns (q: nat)
    requires InWindow(base, start, end, interval) && interval <= 0x7FFF_FFFF
    ensures MonthsBetween(base, start) >= 0 && q == MonthsSkipped(base, start, interval)
    ensures SkipsOnlyEarlier(base, start, MonthFirst(base, start, interval), interval, q)
  {
    hide ToMs, AdvanceMonths, DaysIn, MonthsBetween, CeilTo, MonthIndex, IsLeap, DaysInMonth;
    WindowMonths(base, start, end, interval);
    MonthsBetweenIs(base, start);
    var m := MonthsBetween(base, start);
    var n := CeilIsMultiple(m, interval);
    CeilSize(m, interval);
    Jump(base, CeilTo(m, interval));
    q := if start.month < base.month || MonthIndex(base) + n * interval > MAX_MONTH_INDEX then 0 else n;
  }

  lemma {:induction false} YearsInMonths(q: int, interval: int)
    ensures q * (interval * 12) == q * interval * 12
    ensures (q - 1) * (interval * 12) == (q - 1) * interval * 12
  {}

  lemma {:induction false} YearFastForward(base: Date, start: Date, end: Date, interval: int) returns (q: nat)
    requires InWindow(base, start, end, interval * 12)
    ensures base.year <= start.year && interval >= 1 && q == YearsSkipped(base, start, interval)
    ensures SkipsOnlyEarlier(base, start, YearFirst(base, start, interval), interval * 12, q)
  {
    hide ToMs, AdvanceMonths, DaysIn, CeilTo, IsLeap, DaysInMonth;
    WindowMonths(base, start, end, interval * 12);
    var m := start.year - base.year;
    var n := CeilIsMultiple(m, interval);
    CeilSize(m, interval);
    YearsInMonths(n, interval);
    Jump(base, CeilTo(m, interval) * 12);
    q := if MonthIndex(base) + n * interval * 12 > MAX_MONTH_INDEX then 0 else n;
  }
}
