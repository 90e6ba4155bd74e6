/** Stopping and splitting rules of any kind, told on the calendar: at most the one date that the loop
    visits in the stop's own month decides whether the cut is right. */
module RuleStops {
  import opened Basics
  import opened Dates
  import opened Gather
  import opened Recurrence
  import opened RecurrenceExact
  import opened RuleExpansion
  import opened MonthLoops
  import opened RuleEdits

  // ---- the date a loop visits in a month ----

  /** The date k steps after the base, with the day left by the months visited since step q. */
  function DateVisited(base: Date, q: nat, step: nat, k: nat): Date
    requires q <= k
  {
    var m := MonthIndex(base) + k * step;
    Date(m / 12, m % 12 + 1, VisitedDay(base.day, MonthIndex(base) + q * step, step, k - q), base.tod)
  }

  lemma {:induction false} DateVisitedIs(base: Date, start: Date, first: Date, step: nat, q: nat, k: nat)
    requires Valid(base) && step <= MAX_STEP && SkipsOnlyEarlier(base, start, first, step, q) && q <= k
    requires MonthIndex(base) + k * step <= MAX_MONTH_INDEX
    ensures Cursor(first, step, k - q) == DateVisited(base, q, step, k)
  {
    hide ToMs, MonthIndex, DaysIn, VisitedDay, Cursor;
    assert k * step == q * step + (k - q) * step;
    CursorInRange(first, step, k - q);
    VisitedDayIs(base.day, first, step, k - q);
    IndexSplits(Cursor(first, step, k - q));
  }

  /** The date visited in month m, if the loop comes there. */
  function VisitedInMonth(base: Date, q: nat, step: nat, m: int): Option<Date>
    requires step > 0
  {
    var gap := m - MonthIndex(base);
    if gap >= q * step && gap % step == 0 && m <= MAX_MONTH_INDEX
    then (EnoughSteps(gap, q, step); Some(DateVisited(base, q, step, gap / step)))
    else None
  }

  lemma {:induction false} EnoughSteps(gap: int, q: nat, step: nat)
    requires step > 0 && gap >= q * step
    ensures gap / step >= q
  {
    var n := gap / step;
    assert gap == n * step + gap % step;
    assert (n - q) * step == n * step - q * step;
    AtLeast(n - q, step);
  }

  ghost predicate ByMonths(s: Schedule) {
    HasRule(s) && s.cycle.value.startAt >= 0 && s.cycle.value.rule.value.cycleType in {3, 4}
  }

  /** The date a monthly or nth-weekday rule visits in month m. */
  ghost function VisitedIn(s: Schedule, m: int): Option<Date>
    requires ByMonths(s) && Open(s)
  {
    var c := s.cycle.value;
    var base, start, step := FromMs(c.startAt), FromMs(ExpandStart(s, c)), Interval(c.rule.value);
    VisitedInMonth(base, Max(MonthsSkipped(base, start, step), 0), step, m)
  }

  /** Which day of a visited month the rule offers. */
  ghost function PickOf(s: Schedule): (p: Pick)
    requires ByMonths(s)
    ensures ValidPick(p)
  {
    var base, r := FromMs(s.cycle.value.startAt), s.cycle.value.rule.value;
    BaseDay(s.cycle.value.startAt);
    if r.cycleType == 3 then OnDay(Min(base.day, 28)) else WeekPick(r, base)
  }

  lemma {:induction false} BaseDay(startAt: int)
    requires startAt >= 0
    ensures 1 <= Min(FromMs(startAt).day, 28) <= 28
  {
    hide FromMs, ToMs;
    FromMsRoundTrip(startAt);
  }

  lemma {:induction false} LoopIs(s: Schedule) returns (q: nat)
    requires ByMonths(s) && Open(s) && Supported(s, s.cycle.value, s.cycle.value.rule.value)
    requires Startable(s.cycle.value.startAt, ExpandStart(s, s.cycle.value), s.cycle.value.rule.value)
    ensures var c, r := s.cycle.value, s.cycle.value.rule.value;
            var base, start, step := FromMs(c.startAt), FromMs(ExpandStart(s, c)), Interval(r);
            && Valid(base) && Valid(start) && ToMs(base) <= ToMs(start) && start.year <= MAX_YEAR
            && q == Max(MonthsSkipped(base, start, step), 0)
            && SkipsOnlyEarlier(base, start, LoopFirst(base, start, r), step, q)
            && Guarded(c.startAt, ExpandStart(s, c), r) == CursorTimes(LoopFirst(base, start, r), step)
            && Offered(c.startAt, ExpandStart(s, c), r) == PickedTimes(PickOf(s), LoopFirst(base, start, r), step)
            && CanStep(LoopFirst(base, start, r), step, FromMs(ExpandEnd(s, c)))
            && ToMs(FromMs(ExpandEnd(s, c))) == ExpandEnd(s, c)
  {
    hide ToMs, FromMs, MonthIndex, MonthsSkipped, MonthFirst, SkipsOnlyEarlier, CursorTimes, PickedTimes, Reaches,
      MonthsBetween;
    var c, r := s.cycle.value, s.cycle.value.rule.value;
    WindowIsGood(s, c, r);
    WindowDates(s, c);
    q := MonthFastForward(FromMs(c.startAt), FromMs(ExpandStart(s, c)), FromMs(ExpandEnd(s, c)), Interval(r));
  }

  lemma {:induction false} InstantInMonth(a: Date, b: Date)
    requires Valid(a) && Valid(b) && MonthIndex(a) == MonthIndex(b)
    ensures ToMs(a) < ToMs(b) <==> DayAndTime(a) < DayAndTime(b)
  {
    hide ToMs, MonthIndex;
    InstantOrder(a, b);
  }

  /** A round whose guard holds visits the date of its month. */
  lemma {:induction false} RoundVisits(s: Schedule, k: nat)
    requires ByMonths(s) && Open(s) && Supported(s, s.cycle.value, s.cycle.value.rule.value)
    requires Startable(s.cycle.value.startAt, ExpandStart(s, s.cycle.value), s.cycle.value.rule.value)
    requires var c, r := s.cycle.value, s.cycle.value.rule.value;
             Guarded(c.startAt, ExpandStart(s, c), r)(k) < ExpandEnd(s, c)
    ensures var c, r := s.cycle.value, s.cycle.value.rule.value;
            exists d: Date ::
              && Valid(d) && VisitedIn(s, MonthIndex(d)) == Some(d)
              && ToMs(d) == Guarded(c.startAt, ExpandStart(s, c), r)(k)
              && ToMs(Picked(PickOf(s), d)) == Offered(c.startAt, ExpandStart(s, c), r)(k)
  {
    hide ToMs, FromMs, MonthIndex, MonthsSkipped, Guarded, Offered, Startable, Supported, Picked, PickOf, Cursor,
      Reaches, LoopFirst, VisitedDay;
    var q := LoopIs(s);
    var c, r := s.cycle.value, s.cycle.value.rule.value;
    var base, start, end := FromMs(c.startAt), FromMs(ExpandStart(s, c)), FromMs(ExpandEnd(s, c));
    var first, step := LoopFirst(base, start, r), Interval(r);
    var d := Cursor(first, step, k);
    CursorBefore(first, step, k, end);
    CursorInRange(first, step, k);
    assert (q + k) * step == q * step + k * step;
    DateVisitedIs(base, start, first, step, q, q + k);
    GapIs(q + k, step);
    assert VisitedIn(s, MonthIndex(d)) == Some(d);
  }

  lemma {:induction false} GapIs(k: nat, step: nat)
    requires step > 0
    ensures k * step % step == 0 && k * step / step == k
  {
    Multiple(k, step);
  }

  /** A date the loop visits is visited in some round. */
  lemma {:induction false} VisitedInRound(s: Schedule, m: int) returns (k: nat)
    requires ByMonths(s) && Open(s) && Supported(s, s.cycle.value, s.cycle.value.rule.value)
    requires Startable(s.cycle.value.startAt, ExpandStart(s, s.cycle.value), s.cycle.value.rule.value)
    requires VisitedIn(s, m).Some?
    ensures var c, r, d := s.cycle.value, s.cycle.value.rule.value, VisitedIn(s, m).value;
            && Valid(d) && MonthIndex(d) == m
            && ToMs(d) == Guarded(c.startAt, ExpandStart(s, c), r)(k)
            && ToMs(Picked(PickOf(s), d)) == Offered(c.startAt, ExpandStart(s, c), r)(k)
  {
    hide ToMs, FromMs, MonthIndex, MonthsSkipped, Guarded, Offered, Startable, Supported, Picked, PickOf, Cursor,
      Reaches, LoopFirst, VisitedDay, DateVisited;
    var q := LoopIs(s);
    var c, r := s.cycle.value, s.cycle.value.rule.value;
    var base, start := FromMs(c.startAt), FromMs(ExpandStart(s, c));
    var first, step := LoopFirst(base, start, r), Interval(r);
    var n := StepsTo(m - MonthIndex(base), q, step);
    k := n - q;
    DateVisitedIs(base, start, first, step, q, n);
    CursorInRange(first, step, k);
  }

  lemma {:induction false} StepsTo(gap: int, q: nat, step: nat) returns (n: nat)
    requires step > 0 && gap >= q * step && gap % step == 0
    ensures n == gap / step && n >= q && n * step == gap && n * step == q * step + (n - q) * step
  {
    EnoughSteps(gap, q, step);
    n := gap / step;
    assert gap == n * step + gap % step;
    assert (n - q) * step == n * step - q * step;
  }

  // ---- stopping ----

  /** The date visited in the stop's month, if the old window admits it and what it offers passes the
      filters, lies before the stop exactly when what it offers does. */
  ghost predicate StopMonthClean(s: Schedule, t: int)
    requires ByMonths(s) && Open(s) && t >= 0
  {
    var c, r, stop, p := s.cycle.value, s.cycle.value.rule.value, FromMs(t), PickOf(s);
    match VisitedIn(s, MonthIndex(stop))
    case None => true
    case Some(d) =>
      ToMs(d) < ExpandEnd(s, c) && Passes(s, c, r, ToMs(Picked(p, d))) ==>
        (DayAndTime(d) < DayAndTime(stop) <==> DayAndTime(Picked(p, d)) < DayAndTime(stop))
  }

  lemma {:induction false} SameSide(p: Pick, d: Date, t: int)
    requires ValidPick(p) && Valid(d) && t >= 0 && MonthIndex(d) == MonthIndex(FromMs(t))
    ensures ToMs(d) < t <==> DayAndTime(d) < DayAndTime(FromMs(t))
    ensures ToMs(Picked(p, d)) < t <==> DayAndTime(Picked(p, d)) < DayAndTime(FromMs(t))
  {
    hide ToMs, FromMs, MonthIndex, Picked;
    FromMsRoundTrip(t);
    PickedStaysInMonth(p, d);
    InstantInMonth(d, FromMs(t));
    InstantInMonth(Picked(p, d), FromMs(t));
  }

  lemma {:induction false} CutsCleanIff(s: Schedule, t: int)
    requires ByMonths(s) && Open(s) && Supported(s, s.cycle.value, s.cycle.value.rule.value)
    requires Startable(s.cycle.value.startAt, ExpandStart(s, s.cycle.value), s.cycle.value.rule.value)
    requires 0 < t <= ExpandEnd(s, s.cycle.value)
    ensures CutsClean(s, t) <==> StopMonthClean(s, t)
  {
    hide ToMs, FromMs, MonthIndex, Guarded, Offered, Startable, Supported, Picked, PickOf, VisitedIn, Passes,
      DayAndTime;
    var c, r, p := s.cycle.value, s.cycle.value.rule.value, PickOf(s);
    var m := MonthIndex(FromMs(t));
    if VisitedIn(s, m).Some? {
      var k := VisitedInRound(s, m);
      SameSide(p, VisitedIn(s, m).value, t);
    }
    if StopMonthClean(s, t) {
      forall k: nat | Guarded(c.startAt, ExpandStart(s, c), r)(k) < ExpandEnd(s, c)
                      && Passes(s, c, r, Offered(c.startAt, ExpandStart(s, c), r)(k))
        ensures Guarded(c.startAt, ExpandStart(s, c), r)(k) < t <==> Offered(c.startAt, ExpandStart(s, c), r)(k) < t
      {
        RoundVisits(s, k);
        if !(Guarded(c.startAt, ExpandStart(s, c), r)(k) < t <==> Offered(c.startAt, ExpandStart(s, c), r)(k) < t) {
          var d := UncleanInStopsMonth(s, t, k);
          var e: Date :| Valid(e) && VisitedIn(s, MonthIndex(e)) == Some(e)
            && ToMs(e) == Guarded(c.startAt, ExpandStart(s, c), r)(k)
            && ToMs(Picked(p, e)) == Offered(c.startAt, ExpandStart(s, c), r)(k);
          ToMsInjective(d, e);
          SameSide(p, e, t);
        }
      }
    }
  }

  /** A stop inside the window leaves exactly the old instances before it: always for daily, weekly
      and yearly rules, and for the two kinds that step by months exactly when the one date visited in
      the stop's month and the one it offers are on the same side of the stop. */
  lemma {:induction false} StopAtCutsIff(before: seq<int>, after: seq<int>, s: Schedule, t: int)
    requires Expansion(before, s) && Expansion(after, WithStopAt(s, t))
    requires 0 < t <= ExpandEnd(s, s.cycle.value) && ExpandStart(s, s.cycle.value) < t
    ensures after == Where(before, x => x < t) <==> (ByMonths(s) ==> StopMonthClean(s, t))
  {
    hide ToMs, FromMs, MonthIndex, Guarded, Offered, Startable, Picked, PickOf, VisitedIn, Listing,
      StopMonthClean, CutsClean, Reaches, LoopFirst;
    StopAtCutsClean(before, after, s, t);
    if ByMonths(s) {
      CutsCleanIff(s, t);
    } else {
      StopAtCuts(before, after, s, t);
    }
  }

  // ---- "this and following" ----

  /** The date visited in t's month comes before the window's end and offers a time from t on. */
  ghost predicate OverrunsIn(s: Schedule, t: int)
    requires ByMonths(s) && Open(s) && t >= 0
  {
    var c, r, p := s.cycle.value, s.cycle.value.rule.value, PickOf(s);
    match VisitedIn(s, MonthIndex(FromMs(t)))
    case None => false
    case Some(d) =>
      && ToMs(d) < ExpandEnd(s, c) && Passes(s, c, r, ToMs(Picked(p, d)))
      && DayAndTime(Picked(p, d)) >= DayAndTime(FromMs(t))
  }

  lemma {:induction false} InstanceRound(times: seq<int>, s: Schedule, x: int)
    requires Expansion(times, s)
    ensures x in times <==>
            Open(s) && Startable(s.cycle.value.startAt, ExpandStart(s, s.cycle.value), s.cycle.value.rule.value) &&
            Expands(s, s.cycle.value, s.cycle.value.rule.value, x)
  {
    hide Supported, Listing, Expands, Startable;
    ExpansionShape(times, s);
  }

  /** An instance of a cut rule that lies behind the cut is offered in the cut's month. */
  lemma {:induction false} LateInstanceOverruns(times: seq<int>, cut: Schedule, t: int, a: int)
    requires Expansion(times, cut) && cut.cycle.value.stopAt == t > 0 && a in times && a >= t
    ensures ByMonths(cut) && cut.cycle.value.rule.value.cycleType == 4 && Open(cut) && OverrunsIn(cut, t)
  {
    hide ToMs, FromMs, MonthIndex, Guarded, Offered, Startable, Picked, PickOf, VisitedIn, Listing, Reaches,
      LoopFirst, DayAndTime, Passes;
    var c, r := cut.cycle.value, cut.cycle.value.rule.value;
    if r.cycleType != 4 {
      InstancesInWindow(times, cut, c, r);
    }
    InstanceRound(times, cut, a);
    var k: nat :| Guarded(c.startAt, ExpandStart(cut, c), r)(k) < ExpandEnd(cut, c)
                  && Offered(c.startAt, ExpandStart(cut, c), r)(k) == a;
    RoundVisits(cut, k);
    var visited := UncleanInStopsMonth(cut, t, k);
    var d: Date :| Valid(d) && VisitedIn(cut, MonthIndex(d)) == Some(d)
      && ToMs(d) == Guarded(c.startAt, ExpandStart(cut, c), r)(k)
      && ToMs(Picked(PickOf(cut), d)) == Offered(c.startAt, ExpandStart(cut, c), r)(k);
    ToMsInjective(d, visited);
    SameSide(PickOf(cut), d, t);
  }

  /** And what is offered there is an instance. */
  lemma {:induction false} OverrunIsInstance(times: seq<int>, cut: Schedule, t: int)
    requires Expansion(times, cut) && cut.cycle.value.stopAt == t > 0
    requires ByMonths(cut) && Open(cut) && OverrunsIn(cut, t)
    ensures exists a :: a in times && a >= t
  {
    hide ToMs, FromMs, MonthIndex, Guarded, Offered, Startable, Picked, PickOf, VisitedIn, Listing, Reaches,
      LoopFirst, DayAndTime, Passes;
    var c, r := cut.cycle.value, cut.cycle.value.rule.value;
    InstanceRound(times, cut, t);
    SupportedStarts(cut, c, r);
    var m := MonthIndex(FromMs(t));
    var d := VisitedIn(cut, m).value;
    var k := VisitedInRound(cut, m);
    SameSide(PickOf(cut), d, t);
    var a := ToMs(Picked(PickOf(cut), d));
    InstanceRound(times, cut, a);
  }

  /** "This and following": the old rule stops where the new one starts. Every new instance starts at
      the split or later, for rules of any kind. Every old one starts before it exactly unless the old
      rule is of the nth-weekday kind and visits a date in the split's own month that comes before the
      window's end and offers a time from the split on. */
  lemma {:induction false} SplitOrders(prior: Schedule, oldTimes: seq<int>, updated: Schedule, newTimes: seq<int>)
    requires prior.cycle.Some? && updated.startTime > 0
    requires Expansion(oldTimes, WithStopAt(prior, updated.startTime)) && Expansion(newTimes, updated)
    ensures var cut := WithStopAt(prior, updated.startTime);
            && (forall b | b in newTimes :: updated.startTime <= b)
            && ((forall a | a in oldTimes :: a < updated.startTime) <==>
                (cut.cycle.value.rule.value.cycleType == 4 && Open(cut) ==> !OverrunsIn(cut, updated.startTime)))
  {
    hide Listing, Supported, OverrunsIn, Open, Expands, Startable;
    var cut, t := WithStopAt(prior, updated.startTime), updated.startTime;
    forall b | b in newTimes
      ensures t <= b
    {
      NewInstanceIsLater(updated, newTimes, b);
    }
    if exists a :: a in oldTimes && a >= t {
      var a :| a in oldTimes && a >= t;
      LateInstanceOverruns(oldTimes, cut, t, a);
    }
    StartsFrom1970(cut);
    if cut.cycle.value.rule.value.cycleType == 4 && Open(cut) && OverrunsIn(cut, t) {
      OverrunIsInstance(oldTimes, cut, t);
    }
  }

  lemma {:induction false} StartsFrom1970(s: Schedule)
    requires HasRule(s) && Supported(s, s.cycle.value, s.cycle.value.rule.value)
    ensures s.cycle.value.startAt >= 0
  {}

  lemma {:induction false} NewInstanceIsLater(updated: Schedule, newTimes: seq<int>, b: int)
    requires Expansion(newTimes, updated) && b in newTimes
    ensures updated.startTime <= b
  {
    hide Listing, Supported, Startable, Offered, Guarded, Open;
    InstanceRound(newTimes, updated, b);
  }

  /** In particular for old rules of all other kinds every old instance comes before every new one. */
  lemma {:induction false} SplitSeparates(prior: Schedule, oldTimes: seq<int>, updated: Schedule, newTimes: seq<int>,
                                          a: int, b: int)
    requires prior.cycle.Some? && updated.startTime > 0
    requires Expansion(oldTimes, WithStopAt(prior, updated.startTime)) && Expansion(newTimes, updated)
    requires prior.cycle.value.rule.value.cycleType != 4
    requires a in oldTimes && b in newTimes
    ensures a < updated.startTime <= b
  {
    hide Listing, Supported, OverrunsIn, Open;
    SplitOrders(prior, oldTimes, updated, newTimes);
  }
}
