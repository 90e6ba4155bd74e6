/** What edits of a recurring rule do to its instances: cutting it off, taking one instance
    out, splitting it, and where the server keeps those edits. */
module RuleEdits {
  import opened Basics
  import opened Dates
  import opened Gather
  import opened Recurrence
  import opened RecurrenceExact
  import opened RuleExpansion
  import opened MonthLoops

  /** Except for nth-weekday rules, every instance starts inside the window. */
  lemma {:induction false} InstancesInWindow(times: seq<int>, s: Schedule, c: Cycle, r: Rule)
    requires Supported(s, c, r) && Listing(times, s, c, r) && r.cycleType != 4
    ensures forall t :: t in times ==> Keep(s, c, t) && ExpandStart(s, c) <= t < ExpandEnd(s, c)
  {
    hide ToMs, FromMs, MonthIndex, KindListing, Occurs, AdvanceMonths, MonthsBetween, CeilTo, DaysIn;
    if ExpandStart(s, c) < ExpandEnd(s, c) {
      if r.cycleType == 3 {
        MonthlyInWindow(times, s, c, r);
      } else if r.cycleType == 5 {
        YearlyInWindow(times, s, c, r);
      } else {
        ExpansionIsExact(times, s, c, r);
      }
    }
  }

  lemma {:induction false} MonthlyInWindow(times: seq<int>, s: Schedule, c: Cycle, r: Rule)
    requires Supported(s, c, r) && r.cycleType == 3 && ExpandStart(s, c) < ExpandEnd(s, c) && Listing(times, s, c, r)
    ensures forall t :: t in times ==> Keep(s, c, t) && t < ExpandEnd(s, c)
  {
    hide ToMs, FromMs, MonthIndex, Shift, Cursor, Picked, MonthListing, PicksSeries, AdvanceMonths, MonthsBetween,
        CeilTo, SkipsOnlyEarlier, InWindow;
    WindowIsGood(s, c, r);
    var base, start, end := FromMs(c.startAt), FromMs(ExpandStart(s, c)), FromMs(ExpandEnd(s, c));
    var step := Interval(r);
    var first := MonthFirst(base, start, step);
    var q := MonthFastForward(base, start, end, step);
    MonthPicksSeries(base, start, first, step, q);
    forall t | t in times
      ensures Keep(s, c, t) && t < ExpandEnd(s, c)
    {
      var k := ListedIsSeries(times, s, c, OnDay(Min(base.day, 28)), first, step, end, base.(day := Min(base.day,
          28)), q, t);
    }
  }

  lemma {:induction false} YearlyInWindow(times: seq<int>, s: Schedule, c: Cycle, r: Rule)
    requires Supported(s, c, r) && r.cycleType == 5 && ExpandStart(s, c) < ExpandEnd(s, c) && Listing(times, s, c, r)
    ensures forall t :: t in times ==> Keep(s, c, t) && t < ExpandEnd(s, c)
  {
    hide ToMs, FromMs, MonthIndex, Shift, Cursor, AdvanceMonths, CeilTo, InWindow;
    WindowIsGood(s, c, r);
    var base, start, end := FromMs(c.startAt), FromMs(ExpandStart(s, c)), FromMs(ExpandEnd(s, c));
    var first, step := YearFirst(base, start, Interval(r)), Interval(r) * 12;
    forall t | t in times
      ensures Keep(s, c, t) && t < ExpandEnd(s, c)
    {
      var i: nat :| CursorTimes(first, step)(i) < ToMs(end) && PickedTimes(AsIs, first, step)(i) == t;
      KeptIs(s, c, t);
    }
  }

  // ---- edits of the rule ----

  function WithStopAt(s: Schedule, stopAt: int): Schedule
    requires s.cycle.Some?
  {
    s.(cycle := Some(s.cycle.value.(stopAt := stopAt)))
  }

  /** An exception already listed is not listed twice. */
  function WithException(s: Schedule, t: int): Schedule
    requires s.cycle.Some?
  {
    var c := s.cycle.value;
    if t in c.exceptionTimes then s
    else s.(cycle := Some(c.(exceptionTimes := c.exceptionTimes + [t])))
  }

  /** `times` are the start times the expansion of a schedule with a rule comes out with. */
  ghost predicate Expansion(times: seq<int>, s: Schedule) {
    && HasRule(s)
    && Supported(s, s.cycle.value, s.cycle.value.rule.value)
    && Listing(times, s, s.cycle.value, s.cycle.value.rule.value)
  }

  ghost predicate Open(s: Schedule)
    requires s.cycle.Some?
  {
    ExpandStart(s, s.cycle.value) < ExpandEnd(s, s.cycle.value)
  }

  lemma {:induction false} ExpansionShape(times: seq<int>, s: Schedule)
    requires Expansion(times, s)
    ensures Increasing(times)
    ensures !Open(s) ==> times == []
    ensures Open(s) ==>
      var c, r := s.cycle.value, s.cycle.value.rule.value;
      Startable(c.startAt, ExpandStart(s, c), r) && forall t :: t in times <==> Expands(s, c, r, t)
  {
    hide Supported, KindListing, Startable, Expands;
    if Open(s) {
      SupportedStarts(s, s.cycle.value, s.cycle.value.rule.value);
      ListingShape(times, s, s.cycle.value, s.cycle.value.rule.value);
    }
  }

  /** Two expansions of one schedule are the same list. */
  lemma {:induction false} ExpansionUnique(a: seq<int>, b: seq<int>, s: Schedule)
    requires Expansion(a, s) && Expansion(b, s)
    ensures a == b
  {
    hide Supported, Listing, Expands, Increasing;
    ExpansionShape(a, s);
    ExpansionShape(b, s);
    if Open(s) {
      forall t ensures t in a <==> t in b {}
      IncreasingUnique(a, b);
    }
  }

  /** Excepting t takes out exactly the instance that starts at t, for every kind of rule. */
  lemma {:induction false} ExceptionRemovesOne(before: seq<int>, after: seq<int>, s: Schedule, t: int)
    requires Expansion(before, s) && Expansion(after, WithException(s, t))
    ensures after == Where(before, x => x != t)
  {
    hide Supported, Listing, Startable, Offered, Guarded, Increasing;
    var kept := Where(before, x => x != t);
    ExpansionShape(before, s);
    ExpansionShape(after, WithException(s, t));
    WhereIncreasing(before, x => x != t);
    forall x
      ensures x in after <==> x in kept
    {}
    IncreasingUnique(after, kept);
  }

  // ---- stopping a rule ----

  /** The guard of the loop compares the very times it offers. */
  ghost predicate GuardsWhatItOffers(s: Schedule)
    requires HasRule(s) && s.cycle.value.startAt >= 0
  {
    var r := s.cycle.value.rule.value;
    r.cycleType != 4 && (r.cycleType == 3 ==> FromMs(s.cycle.value.startAt).day <= 28)
  }

  lemma {:induction false} SmallDayStays(first: Date, step: nat, k: nat)
    requires Valid(first) && first.year <= MAX_YEAR && step <= MAX_STEP && first.day <= 28
    ensures Cursor(first, step, k).day == first.day
  {
    hide ToMs, MonthIndex;
    if k == 0 {
    } else {
      SmallDayStays(first, step, k - 1);
    }
  }

  lemma {:induction false} OffersWhatItGuards(s: Schedule, k: nat)
    requires HasRule(s) && Open(s) && s.cycle.value.startAt >= 0
    requires Startable(s.cycle.value.startAt, ExpandStart(s, s.cycle.value), s.cycle.value.rule.value)
    requires GuardsWhatItOffers(s)
    ensures var c, r := s.cycle.value, s.cycle.value.rule.value;
            Offered(c.startAt, ExpandStart(s, c), r)(k) == Guarded(c.startAt, ExpandStart(s, c), r)(k)
  {
    hide ToMs, FromMs, MonthIndex, Cursor, MonthFirst, YearFirst;
    var c, r := s.cycle.value, s.cycle.value.rule.value;
    if r.cycleType == 3 {
      WindowDates(s, c);
      var base, start := FromMs(c.startAt), FromMs(ExpandStart(s, c));
      var first := LoopFirst(base, start, r);
      FirstDaySmall(base, start, r);
      SmallDayStays(first, Interval(r), k);
    }
  }

  lemma {:induction false} FirstDaySmall(base: Date, start: Date, r: Rule)
    requires Valid(base) && Valid(start) && ToMs(base) <= ToMs(start) && start.year <= MAX_YEAR && base.day <= 28
    requires r.cycleType == 3
    ensures LoopFirst(base, start, r).day == base.day
  {
    hide ToMs, MonthIndex, MonthsBetween, CeilTo;
    LoopFirstIsGood(base, start, r);
  }

  lemma {:induction false} StoppedEnd(s: Schedule, t: int)
    requires s.cycle.Some? && 0 < t <= ExpandEnd(s, s.cycle.value)
    ensures var cut := WithStopAt(s, t);
            ExpandEnd(cut, cut.cycle.value) == t && ExpandStart(cut, cut.cycle.value) == ExpandStart(s, s.cycle.value)
  {}

  /** What a stop at t leaves, and what it should leave, in terms of the loop's rounds. */
  lemma {:induction false} StopShape(before: seq<int>, after: seq<int>, s: Schedule, t: int, x: int)
    requires Expansion(before, s) && Expansion(after, WithStopAt(s, t))
    requires ExpandStart(s, s.cycle.value) < t && 0 < t <= ExpandEnd(s, s.cycle.value)
    ensures var c, r := s.cycle.value, s.cycle.value.rule.value;
            && Startable(c.startAt, ExpandStart(s, c), r)
            && (x in after <==> Passes(s, c, r, x) && exists k: nat ::
                  Guarded(c.startAt, ExpandStart(s, c), r)(k) < t && Offered(c.startAt, ExpandStart(s, c), r)(k) == x)
            && (x in before <==> Passes(s, c, r, x) && exists k: nat ::
                  Guarded(c.startAt, ExpandStart(s, c), r)(k) < ExpandEnd(s, c)
                  && Offered(c.startAt, ExpandStart(s, c), r)(k) == x)
  {
    hide Supported, Listing, Startable, Offered, Guarded, Increasing;
    StoppedEnd(s, t);
    ExpansionShape(before, s);
    ExpansionShape(after, WithStopAt(s, t));
  }

  lemma {:induction false} StopKeepsShape(before: seq<int>, after: seq<int>, s: Schedule, t: int)
    requires Expansion(before, s) && Expansion(after, WithStopAt(s, t))
    ensures Increasing(after) && Increasing(Where(before, x => x < t))
    ensures 0 < t <= ExpandEnd(s, s.cycle.value) && t <= ExpandStart(s, s.cycle.value) ==>
      after == [] && Where(before, x => x < t) == []
  {
    hide Supported, Listing, Startable, Offered, Guarded, Increasing;
    ExpansionShape(before, s);
    ExpansionShape(after, WithStopAt(s, t));
    WhereIncreasing(before, x => x < t);
    if 0 < t <= ExpandEnd(s, s.cycle.value) && t <= ExpandStart(s, s.cycle.value) {
      StoppedEnd(s, t);
      var kept := Where(before, x => x < t);
      var x := if |kept| > 0 then kept[0] else 0;
      assert x !in kept;
    }
  }

  /** Stopping a rule at t, no later than its window would have ended, leaves exactly the old
      instances that start before t: for daily, weekly and yearly rules of any base date, and for
      monthly rules with a base day up to the 28th. */
  lemma {:induction false} StopAtCuts(before: seq<int>, after: seq<int>, s: Schedule, t: int)
    requires Expansion(before, s) && Expansion(after, WithStopAt(s, t)) && GuardsWhatItOffers(s)
    requires 0 < t <= ExpandEnd(s, s.cycle.value)
    ensures after == Where(before, x => x < t)
  {
    hide Startable, Offered, Guarded, Increasing, GuardsWhatItOffers, Passes, Listing;
    StopKeepsShape(before, after, s, t);
    hide Supported;
    if ExpandStart(s, s.cycle.value) < t {
      var kept := Where(before, x => x < t);
      forall x
        ensures x in after <==> x in kept
      {
        StopShape(before, after, s, t, x);
        forall k: nat
          ensures var c, r := s.cycle.value, s.cycle.value.rule.value;
                  Offered(c.startAt, ExpandStart(s, c), r)(k) == Guarded(c.startAt, ExpandStart(s, c), r)(k)
        {
          OffersWhatItGuards(s, k);
        }
      }
      IncreasingUnique(after, kept);
    }
  }

  /** Rounds whose guard holds offer different times. */
  lemma {:induction false} OffersDiffer(s: Schedule, i: nat, j: nat)
    requires HasRule(s) && Open(s) && i < j
    requires Supported(s, s.cycle.value, s.cycle.value.rule.value)
    requires Startable(s.cycle.value.startAt, ExpandStart(s, s.cycle.value), s.cycle.value.rule.value)
    requires var c, r := s.cycle.value, s.cycle.value.rule.value;
             Guarded(c.startAt, ExpandStart(s, c), r)(j) < ExpandEnd(s, c)
    ensures var c, r := s.cycle.value, s.cycle.value.rule.value;
            Offered(c.startAt, ExpandStart(s, c), r)(i) < Offered(c.startAt, ExpandStart(s, c), r)(j)
  {
    hide ToMs, FromMs, MonthIndex, DayTimes, MonthFirst, YearFirst, PickedTimes, Reaches, Picked;
    var c, r := s.cycle.value, s.cycle.value.rule.value;
    WindowDates(s, c);
    StartableDates(c.startAt, ExpandStart(s, c), r);
    var base, start, end := FromMs(c.startAt), FromMs(ExpandStart(s, c)), FromMs(ExpandEnd(s, c));
    if r.cycleType == 3 {
      MonthTurn(OnDay(Min(base.day, 28)), LoopFirst(base, start, r), Interval(r), end, j);
    } else if r.cycleType == 4 {
      MonthTurn(WeekPick(r, base), LoopFirst(base, start, r), Interval(r), end, j);
    } else if r.cycleType == 5 {
      MonthTurn(AsIs, LoopFirst(base, start, r), Interval(r) * 12, end, j);
    } else if r.cycleType == 1 {
      DayTimesGrow(ExpandStart(s, c), Interval(r), i, j);
    } else {
      DayTimesGrow(ExpandStart(s, c), 1, i, j);
    }
  }

  /** In no round that the old window admits does the stop fall between the time the round offers
      and the time its guard compares. */
  ghost predicate CutsClean(s: Schedule, t: int)
    requires HasRule(s)
    requires Startable(s.cycle.value.startAt, ExpandStart(s, s.cycle.value), s.cycle.value.rule.value)
  {
    var c, r := s.cycle.value, s.cycle.value.rule.value;
    var offered, guarded := Offered(c.startAt, ExpandStart(s, c), r), Guarded(c.startAt, ExpandStart(s, c), r);
    forall k: nat | guarded(k) < ExpandEnd(s, c) && Passes(s, c, r, offered(k)) :: guarded(k) < t <==> offered(k) < t
  }

  /** For any kind of rule a stop inside the window leaves exactly the old instances before it if
      and only if it cuts clean. */
  lemma {:induction false} StopAtCutsClean(before: seq<int>, after: seq<int>, s: Schedule, t: int)
    requires Expansion(before, s) && Expansion(after, WithStopAt(s, t))
    requires 0 < t <= ExpandEnd(s, s.cycle.value) && ExpandStart(s, s.cycle.value) < t
    ensures Startable(s.cycle.value.startAt, ExpandStart(s, s.cycle.value), s.cycle.value.rule.value)
    ensures after == Where(before, x => x < t) <==> CutsClean(s, t)
  {
    hide Startable, Offered, Guarded, Increasing, Passes, Listing, Supported;
    StopKeepsShape(before, after, s, t);
    var c, r := s.cycle.value, s.cycle.value.rule.value;
    var kept := Where(before, x => x < t);
    forall x ensures (x in after <==> x in kept) <==> (x in after <==> x in before && x < t) {}
    StopShape(before, after, s, t, 0);
    var offered, guarded := Offered(c.startAt, ExpandStart(s, c), r), Guarded(c.startAt, ExpandStart(s, c), r);
    if CutsClean(s, t) {
      forall x ensures x in after <==> x in kept {
        StopShape(before, after, s, t, x);
      }
      IncreasingUnique(after, kept);
    }
    if after == kept {
      forall k: nat | guarded(k) < ExpandEnd(s, c) && Passes(s, c, r, offered(k))
        ensures guarded(k) < t <==> offered(k) < t
      {
        OneRoundCutsClean(before, after, s, t, k);
      }
    }
  }

  /** A round that does not cut clean visits a date in the stop's month. */
  lemma {:induction false} UncleanInStopsMonth(s: Schedule, t: int, k: nat) returns (visited: Date)
    requires HasRule(s) && Open(s) && Supported(s, s.cycle.value, s.cycle.value.rule.value) && t >= 0
    requires Startable(s.cycle.value.startAt, ExpandStart(s, s.cycle.value), s.cycle.value.rule.value)
    requires var c, r := s.cycle.value, s.cycle.value.rule.value;
             && r.cycleType in {3, 4}
             && !(Guarded(c.startAt, ExpandStart(s, c), r)(k) < t <==> Offered(c.startAt, ExpandStart(s, c), r)(k) < t)
    ensures Valid(visited) && MonthIndex(visited) == MonthIndex(FromMs(t))
    ensures var c, r := s.cycle.value, s.cycle.value.rule.value;
            ToMs(visited) == Guarded(c.startAt, ExpandStart(s, c), r)(k)
  {
    hide ToMs, FromMs, MonthIndex, DayTimes, MonthFirst, YearFirst, Reaches, Picked, Cursor;
    var c, r := s.cycle.value, s.cycle.value.rule.value;
    WindowDates(s, c);
    StartableDates(c.startAt, ExpandStart(s, c), r);
    var base, start := FromMs(c.startAt), FromMs(ExpandStart(s, c));
    var p := if r.cycleType == 3 then OnDay(Min(base.day, 28)) else WeekPick(r, base);
    visited := Cursor(LoopFirst(base, start, r), Interval(r), k);
    var picked := Picked(p, visited);
    PickedStaysInMonth(p, visited);
    FromMsRoundTrip(t);
    if ToMs(visited) < t {
      NotLaterMonth(visited, FromMs(t));
      NotLaterMonth(FromMs(t), picked);
    } else {
      NotLaterMonth(picked, FromMs(t));
      NotLaterMonth(FromMs(t), visited);
    }
  }

  lemma {:induction false} OneRoundCutsClean(before: seq<int>, after: seq<int>, s: Schedule, t: int, k: nat)
    requires Expansion(before, s) && Expansion(after, WithStopAt(s, t))
    requires 0 < t <= ExpandEnd(s, s.cycle.value) && ExpandStart(s, s.cycle.value) < t
    requires Startable(s.cycle.value.startAt, ExpandStart(s, s.cycle.value), s.cycle.value.rule.value)
    requires after == Where(before, x => x < t)
    requires var c, r := s.cycle.value, s.cycle.value.rule.value;
             && Guarded(c.startAt, ExpandStart(s, c), r)(k) < ExpandEnd(s, c)
             && Passes(s, c, r, Offered(c.startAt, ExpandStart(s, c), r)(k))
    ensures var c, r := s.cycle.value, s.cycle.value.rule.value;
            Guarded(c.startAt, ExpandStart(s, c), r)(k) < t <==> Offered(c.startAt, ExpandStart(s, c), r)(k) < t
  {
    hide Startable, Offered, Guarded, Increasing, Passes, Listing, Supported;
    var c, r := s.cycle.value, s.cycle.value.rule.value;
    var offered, guarded := Offered(c.startAt, ExpandStart(s, c), r), Guarded(c.startAt, ExpandStart(s, c), r);
    var x := offered(k);
    StopShape(before, after, s, t, x);
    if x in after {
      var k': nat :| guarded(k') < t && offered(k') == x;
      if k' < k {
        OffersDiffer(s, k', k);
      } else if k < k' {
        OffersDiffer(s, k, k');
      }
    }
  }

  // ---- what the natural readings miss ----

  /** A daily rule counts its interval from the window's start. That is the same as counting
      from the rule's own start exactly when the two are a whole number of intervals apart. */
  lemma {:induction false} DailyPhaseIff(times: seq<int>, s: Schedule, c: Cycle, r: Rule)
    requires c.startAt >= 0 && r.cycleType == 1 && Exact(times, s, c, r)
    requires ExpandStart(s, c) < ExpandEnd(s, c) && ExpandStart(s, c) !in c.exceptionTimes
    ensures (forall t :: t in times <==> InDays(c.startAt, Interval(r), t) && Keep(s, c, t) && t < ExpandEnd(s, c)) <==>
            (ExpandStart(s, c) - c.startAt) % (Interval(r) * MS_PER_DAY) == 0
  {
    hide InDays;
    var lo := ExpandStart(s, c);
    StartsSeries(lo, Interval(r));
    assert lo in times;
    PhaseIff(c.startAt, lo, Interval(r));
    if (lo - c.startAt) % (Interval(r) * MS_PER_DAY) == 0 {
      forall t
        ensures InDays(lo, Interval(r), t) <==> InDays(c.startAt, Interval(r), t) && t >= lo
      {
        PhaseShift(c.startAt, lo, Interval(r), t);
      }
    }
  }

  lemma {:induction false} StartsSeries(lo: int, interval: int)
    requires interval >= 1
    ensures InDays(lo, interval, lo)
  {
    assert DayTimes(lo, interval)(0) == lo;
  }

  lemma {:induction false} PhaseIff(base: int, lo: int, interval: int)
    requires interval >= 1 && base <= lo
    ensures InDays(base, interval, lo) <==> (lo - base) % (interval * MS_PER_DAY) == 0
  {
    var step := interval * MS_PER_DAY;
    if InDays(base, interval, lo) {
      var k: nat :| DayTimes(base, interval)(k) == lo;
      Multiple(k, step);
    }
    if (lo - base) % step == 0 {
      assert DayTimes(base, interval)((lo - base) / step) == lo;
    }
  }

  lemma {:induction false} PhaseShift(base: int, lo: int, interval: int, t: int)
    requires interval >= 1 && base <= lo && (lo - base) % (interval * MS_PER_DAY) == 0
    ensures InDays(lo, interval, t) <==> InDays(base, interval, t) && t >= lo
  {
    var step := interval * MS_PER_DAY;
    var m := (lo - base) / step;
    assert lo == base + m * step;
    if InDays(lo, interval, t) {
      var k: nat :| DayTimes(lo, interval)(k) == t;
      assert (m + k) * step == m * step + k * step;
      assert DayTimes(base, interval)(m + k) == t;
      assert k * step >= 0;
    }
    if InDays(base, interval, t) && t >= lo {
      var k: nat :| DayTimes(base, interval)(k) == t;
      DayTimesGrow(base, interval, k, m);
      assert k >= m;
      assert (k - m) * step == k * step - m * step;
      assert DayTimes(lo, interval)(k - m) == t;
    }
  }

  // ---- weekly blocks ----

  /** The i-th visited day of the b-th week counted from the rule's own start. */
  function BlockDay(startAt: int, lo: int, b: int, i: int): int {
    startAt + (lo - startAt) % MS_PER_DAY + (7 * b + i) * MS_PER_DAY
  }

  lemma {:induction false} BlockDayIs(startAt: int, lo: int, b: nat, i: int)
    requires 0 <= startAt <= lo && 0 <= i <= 6 && BlockDay(startAt, lo, b, 0) >= lo
    ensures InDays(lo, 1, BlockDay(startAt, lo, b, i))
    ensures (BlockDay(startAt, lo, b, i) - startAt) / MS_PER_DAY / 7 == b
    ensures BlockDay(startAt, lo, b, i) / MS_PER_DAY == BlockDay(startAt, lo, b, 0) / MS_PER_DAY + i
  {
    var p, m := (lo - startAt) % MS_PER_DAY, (lo - startAt) / MS_PER_DAY;
    var t := BlockDay(startAt, lo, b, i);
    assert lo == startAt + p + m * MS_PER_DAY;
    assert 7 * b >= m;
    assert DayTimes(lo, 1)(7 * b + i - m) == t;
    assert (t - startAt) / MS_PER_DAY == 7 * b + i;
    assert t == BlockDay(startAt, lo, b, 0) + i * MS_PER_DAY;
  }

  /** A week that lies fully in the window and has no exception gets exactly one instance for
      each listed weekday when its number is a multiple of the interval, and none otherwise. */
  lemma {:induction false} WeekBlock(times: seq<int>, s: Schedule, c: Cycle, r: Rule, b: nat, w: int) returns (day: int)
    requires c.startAt >= 0 && r.cycleType == 2 && Exact(times, s, c, r) && 0 <= w <= 6
    requires var lo := ExpandStart(s, c);
             BlockDay(c.startAt, lo, b, 0) >= lo && BlockDay(c.startAt, lo, b, 6) < ExpandEnd(s, c)
    requires forall i :: 0 <= i <= 6 ==> BlockDay(c.startAt, ExpandStart(s, c), b, i) !in c.exceptionTimes
    ensures 0 <= day <= 6
    ensures forall i :: 0 <= i <= 6 ==>
              (BlockDay(c.startAt, ExpandStart(s, c), b, i) in times &&
               Weekday(BlockDay(c.startAt, ExpandStart(s, c), b, i) / MS_PER_DAY) == w <==>
               i == day && NamesWeekday(r.weekSeqs, w) && b % Interval(r) == 0)
  {
    hide Weekday, WeekDays, InDays;
    var lo := ExpandStart(s, c);
    var t0 := BlockDay(c.startAt, lo, b, 0);
    day := DaysUntil(Weekday(t0 / MS_PER_DAY), w);
    forall i | 0 <= i <= 6
      ensures BlockDay(c.startAt, lo, b, i) in times && Weekday(BlockDay(c.startAt, lo, b, i) / MS_PER_DAY) == w <==>
              i == day && NamesWeekday(r.weekSeqs, w) && b % Interval(r) == 0
    {
      OneBlockDay(times, s, c, r, b, i);
      HitsWeekdayIff(t0 / MS_PER_DAY, i, w);
      assert (i - day) % 7 == 0 <==> i == day;
    }
  }

  lemma {:induction false} OneBlockDay(times: seq<int>, s: Schedule, c: Cycle, r: Rule, b: nat, i: int)
    requires c.startAt >= 0 && r.cycleType == 2 && Exact(times, s, c, r) && 0 <= i <= 6
    requires var lo := ExpandStart(s, c);
             BlockDay(c.startAt, lo, b, 0) >= lo && BlockDay(c.startAt, lo, b, 6) < ExpandEnd(s, c)
    requires BlockDay(c.startAt, ExpandStart(s, c), b, i) !in c.exceptionTimes
    ensures var t, t0 := BlockDay(c.startAt, ExpandStart(s, c), b, i), BlockDay(c.startAt, ExpandStart(s, c), b, 0);
            && t / MS_PER_DAY == t0 / MS_PER_DAY + i
            && (t in times <==> NamesWeekday(r.weekSeqs, Weekday(t / MS_PER_DAY)) && b % Interval(r) == 0)
  {
    hide Weekday, WeekDays, InDays;
    BlockDayIs(c.startAt, ExpandStart(s, c), b, i);
    NamesWeekdayIff(r.weekSeqs, Weekday(BlockDay(c.startAt, ExpandStart(s, c), b, i) / MS_PER_DAY));
    assert Interval(r) == 1 ==> b % Interval(r) == 0;
  }

  // ---- nth-weekday rules ----

  /** Nth-weekday rules test the visited date, not the picked one, against the window's end.
      An instance can lie past the end, but never in a later month. */
  lemma {:induction false} NthWeekdayOverrunsItsMonthOnly(times: seq<int>, s: Schedule, c: Cycle, r: Rule, t: int)
      returns (d: Date)
    requires Supported(s, c, r) && r.cycleType == 4 && ExpandStart(s, c) < ExpandEnd(s, c) && Listing(times, s, c, r)
    requires t in times
    ensures Valid(d) && ToMs(d) == t && Keep(s, c, t) && MonthIndex(d) <= MonthIndex(FromMs(ExpandEnd(s, c)))
  {
    hide ToMs, FromMs, MonthIndex, Cursor, Picked, AdvanceMonths, MonthsBetween, CeilTo, InWindow;
    WindowIsGood(s, c, r);
    var base, start, end := FromMs(c.startAt), FromMs(ExpandStart(s, c)), FromMs(ExpandEnd(s, c));
    var p, first, step := WeekPick(r, base), MonthFirst(base, start, Interval(r)), Interval(r);
    var k: nat :| CursorTimes(first, step)(k) < ToMs(end) && PickedTimes(p, first, step)(k) == t;
    KeptIs(s, c, t);
    var at := Cursor(first, step, k);
    d := Picked(p, at);
    PickedStaysInMonth(p, at);
    NotLaterMonth(at, end);
  }

  const JANUARY_10 := 9 * MS_PER_DAY
  const JANUARY_23 := 22 * MS_PER_DAY

  /** Every month's fourth Friday from 1 January 1970 on, stopped on the 10th. */
  ghost predicate FourthFriday(s: Schedule, c: Cycle, r: Rule) {
    && s.cycle == Some(c) && c.rule == Some(r) && r == Rule(4, 1, [3, 5]) && c.exceptionTimes == []
    && c.startAt == s.startTime == s.endTime == 0 && c.stopAt == JANUARY_10
  }

  lemma {:induction false} FridayDates(at: int, stop: int)
    requires at == 0 && stop == JANUARY_10
    ensures FromMs(at) == Date(1970, 1, 1, 0) && FromMs(stop) == Date(1970, 1, 10, 0)
    ensures ToMs(Date(1970, 1, 1, 0)) == 0
    ensures ToMs(NthWeekday(Date(1970, 1, 1, 0), 3, 4)) == JANUARY_23
  {
    hide MonthStart, FromMs;
    EpochStart();
    assert MonthIndex(Date(1970, 1, 1, 0)) == 23640;
    ToMsRoundTrip(Date(1970, 1, 1, 0));
    ToMsRoundTrip(Date(1970, 1, 10, 0));
    assert NthWeekday(Date(1970, 1, 1, 0), 3, 4) == Date(1970, 1, 23, 0);
  }

  lemma {:induction false} FirstRound(p: Pick, first: Date, step: nat)
    requires ValidPick(p) && Valid(first) && first.year <= MAX_YEAR && step <= MAX_STEP
    ensures CursorTimes(first, step)(0) == ToMs(first) && PickedTimes(p, first, step)(0) == ToMs(Picked(p, first))
  {
    hide ToMs, Picked;
  }

  lemma {:induction false} SameStart(base: Date, r: Rule)
    requires Valid(base) && base.year <= MAX_YEAR && r.cycleType == 4
    ensures LoopFirst(base, base, r) == base
  {
    hide ToMs, AdvanceMonths, MonthsBetween, CeilTo, DaysIn, MonthIndex;
    MonthsBetweenIs(base, base);
    CeilNothing(Interval(r));
    Jump(base, 0);
    IndexInCalendar(base);
    IndexSplits(base);
    SameMonth(base, AdvanceMonths(base, 0));
  }

  lemma {:induction false} CeilNothing(interval: int)
    requires interval >= 1
    ensures CeilTo(0, interval) == 0
  {
    var q := CeilIsMultiple(0, interval);
    assert q > 1 ==> (q - 1) * interval > 0;
    assert q == 1 ==> (q - 1) * interval == 0;
  }

  lemma {:induction false} FridayPick(base: Date, r: Rule)
    requires r == Rule(4, 1, [3, 5])
    ensures WeekPick(r, base) == OnWeekday(3, 4) && Interval(r) == 1
  {
    hide Weekday, DayNumber;
  }

  lemma {:induction false} FridaySupported(s: Schedule, c: Cycle, r: Rule)
    requires FourthFriday(s, c, r)
    ensures ExpandStart(s, c) == c.startAt && ExpandEnd(s, c) == JANUARY_10
    ensures Supported(s, c, r) && Startable(c.startAt, c.startAt, r) && Passes(s, c, r, JANUARY_23)
  {
    hide ToMs, FromMs, MonthStart, NthWeekday, Weekday, Reaches, LoopFirst;
    FridayDates(c.startAt, c.stopAt);
    var base, end := FromMs(c.startAt), FromMs(c.stopAt);
    WindowDates(s, c);
    SameStart(base, r);
    LoopEndsWithRoom(base, Interval(r), end);
  }

  lemma {:induction false} FridayRound(at: int, r: Rule)
    requires at == 0 && r == Rule(4, 1, [3, 5]) && Startable(at, at, r)
    ensures Offered(at, at, r)(0) == JANUARY_23 && Guarded(at, at, r)(0) == 0
  {
    hide ToMs, FromMs, NthWeekday, MonthStart, Weekday, LoopFirst, WeekPick, CursorTimes, PickedTimes, Interval;
    FridayDates(at, JANUARY_10);
    StartableDates(at, at, r);
    var base := FromMs(at);
    SameStart(base, r);
    FridayPick(base, r);
    FirstRound(OnWeekday(3, 4), base, Interval(r));
  }

  lemma {:induction false} InRoundZero(s: Schedule, c: Cycle, r: Rule, t: int)
    requires Startable(c.startAt, ExpandStart(s, c), r) && Passes(s, c, r, t)
    requires Guarded(c.startAt, ExpandStart(s, c), r)(0) < ExpandEnd(s, c)
    requires Offered(c.startAt, ExpandStart(s, c), r)(0) == t
    ensures Expands(s, c, r, t)
  {
    hide Startable, Passes, Guarded, Offered, ExpandStart, ExpandEnd;
  }

  /** It does happen: the rule expands to the 23rd, behind its stop; so a stop on the 10th does not
      cut off what starts later. */
  lemma {:induction false} NthWeekdayOverruns(times: seq<int>, s: Schedule, c: Cycle, r: Rule)
    requires FourthFriday(s, c, r)
    ensures Supported(s, c, r)
    ensures Listing(times, s, c, r) ==> JANUARY_23 in times && ExpandEnd(s, c) == JANUARY_10 < JANUARY_23
  {
    assert c.startAt == 0 && r == Rule(4, 1, [3, 5]);
    hide *;
    FridaySupported(s, c, r);
    FridayRound(c.startAt, r);
    if Listing(times, s, c, r) {
      ListingShape(times, s, c, r);
      InRoundZero(s, c, r, JANUARY_23);
    }
  }
}
