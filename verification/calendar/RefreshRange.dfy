/** The client's answer to a pushed schedule: which calendars and which time range to redraw. */
module RefreshRange {
  import opened Basics
  import opened Dates
  import opened Recurrence
  import opened RuleExpansion
  import opened RuleEdits
  import opened RuleQueries

  const I64_MIN := -0x8000_0000_0000_0000
  const I64_MAX := 0x7FFF_FFFF_FFFF_FFFF

  datatype Range = Range(calendarIds: seq<int>, start: int, end: int)

  function EndOf(s: Schedule): int {
    if s.cycle.Some? then s.startTime + EXPAND_DAYS * MS_PER_DAY else s.endTime
  }

  method HandlePushScheduleUpdate(pushed: seq<Schedule>) returns (range: Option<Range>)
    requires forall p :: p in pushed ==> I64_MIN < EndOf(p) && p.startTime < I64_MAX
    ensures range.None? <==> pushed == []
    ensures range.Some? ==>
              && (forall p :: p in pushed ==> p.calendarId in range.value.calendarIds)
              && (forall id :: id in range.value.calendarIds ==> exists p :: p in pushed && p.calendarId == id)
              && (forall i, j | 0 <= i < j < |range.value.calendarIds| ::
                    range.value.calendarIds[i] != range.value.calendarIds[j])
              && (forall p :: p in pushed ==>
                    range.value.start <= p.startTime - MS_PER_DAY && EndOf(p) + MS_PER_DAY <= range.value.end)
              && (exists p :: p in pushed && range.value.start == p.startTime - MS_PER_DAY)
              && (exists p :: p in pushed && range.value.end == EndOf(p) + MS_PER_DAY)
  {
    var calIds: seq<int> := [];
    var minStart, maxEnd := I64_MAX, I64_MIN;
    for n := 0 to |pushed|
      invariant n == 0 ==> minStart == I64_MAX && maxEnd == I64_MIN
      invariant forall k :: 0 <= k < n ==> pushed[k].calendarId in calIds
      invariant forall id :: id in calIds ==> exists k :: 0 <= k < n && pushed[k].calendarId == id
      invariant forall i, j :: 0 <= i < j < |calIds| ==> calIds[i] != calIds[j]
      invariant forall k :: 0 <= k < n ==> minStart <= pushed[k].startTime && EndOf(pushed[k]) <= maxEnd
      invariant n > 0 ==> exists k :: 0 <= k < n && minStart == pushed[k].startTime
      invariant n > 0 ==> exists k :: 0 <= k < n && maxEnd == EndOf(pushed[k])
    {
      var s := pushed[n];
      assert pushed[n] in pushed;
      if pushed[n].calendarId !in calIds {
        calIds := calIds + [pushed[n].calendarId];
      }
      if s.startTime < minStart {
        minStart := s.startTime;
      }
      var end := if s.cycle.Some? then s.startTime + EXPAND_DAYS * MS_PER_DAY else s.endTime;
      if end > maxEnd {
        maxEnd := end;
      }
    }
    if minStart != I64_MAX && maxEnd != I64_MIN {
      range := Some(Range(calIds, minStart - MS_PER_DAY, maxEnd + MS_PER_DAY));
    } else {
      range := None;
    }
  }

  /** The range reaches a day behind the end, or 121 days behind the start of a rule. */
  lemma {:induction false} RedrawnUntil(s: Schedule)
    ensures EndOf(s) + MS_PER_DAY == if s.cycle.None? then s.endTime + 86400000 else s.startTime + 121 * 86400000
  {}

  /** For a schedule of at most one day the redrawn range holds the start of every instance the
      server can expand it to, for all rule kinds but the nth-weekday one. */
  lemma {:induction false} RangeCoversExpansion(s: Schedule, times: seq<int>, range: Range, t: int)
    requires HasRule(s) && s.endTime - s.startTime <= MS_PER_DAY
    requires var c := s.cycle.value;
             var r := c.rule.value;
             Supported(s, c, r) && r.cycleType != 4 && Listing(times, s, c, r)
    requires range.start <= s.startTime - MS_PER_DAY && EndOf(s) + MS_PER_DAY <= range.end
    requires t in times
    ensures range.start <= t < range.end
  {
    hide Listing, Supported;
    InstancesInWindow(times, s, s.cycle.value, s.cycle.value.rule.value);
  }

  /** The first time a daily rule offers at or behind t. */
  function FirstFrom(lo: int, interval: int, t: int): (first: int)
    requires interval >= 1
    ensures first >= lo && first >= t
  {
    if t <= lo then lo
    else (CeilBounds(t - lo, interval * MS_PER_DAY); lo + CeilTo(t - lo, interval * MS_PER_DAY))
  }

  /** Daily rules of any interval, with or without a stop: there is an instance behind the range
      computed for the schedule alone exactly when the first time offered there comes before the
      server's own end. Without a stop, starting with its schedule and repeated every day, this is so
      exactly when the schedule is longer than a day. */
  lemma {:induction false} LongEventOutgrowsRangeIff(s: Schedule, c: Cycle, r: Rule)
    requires s.cycle == Some(c) && c.rule == Some(r) && r.cycleType == 1 && c.exceptionTimes == [] && c.startAt >= 0
    ensures (exists t :: t >= EndOf(s) + MS_PER_DAY && HasInstanceAt(s, t)) <==>
            Open(s) && FirstFrom(ExpandStart(s, c), Interval(r), EndOf(s) + MS_PER_DAY) < ExpandEnd(s, c)
    ensures EveryDay(s, c, r) ==>
      ((exists t :: t >= EndOf(s) + MS_PER_DAY && HasInstanceAt(s, t)) <==> s.endTime - s.startTime > MS_PER_DAY)
  {
    hide HasInstanceAt, FirstFrom, ExpandStart, ExpandEnd, EndOf, EveryDay;
    var lo, behind := ExpandStart(s, c), EndOf(s) + MS_PER_DAY;
    var first := FirstFrom(lo, Interval(r), behind);
    if Open(s) {
      var k := FirstIsOffered(lo, Interval(r), behind);
      DailyInstance(s, c, r, first, k);
    }
    forall t | t >= behind && HasInstanceAt(s, t)
      ensures Open(s) && first <= t < ExpandEnd(s, c)
    {
      var k := DailyInstanceIs(s, c, r, t);
      NoneBetween(lo, Interval(r), behind, k);
    }
    if EveryDay(s, c, r) {
      DailyRangeEnd(s, c, r);
    }
  }

  lemma {:induction false} FirstIsOffered(lo: int, interval: int, t: int) returns (k: nat)
    requires interval >= 1
    ensures DayTimes(lo, interval)(k) == FirstFrom(lo, interval, t)
  {
    k := 0;
    if t > lo {
      k := CeilIsMultiple(t - lo, interval * MS_PER_DAY);
    }
  }

  lemma {:induction false} NoneBetween(lo: int, interval: int, t: int, k: nat)
    requires interval >= 1 && DayTimes(lo, interval)(k) >= t
    ensures FirstFrom(lo, interval, t) <= DayTimes(lo, interval)(k)
  {
    var step := interval * MS_PER_DAY;
    if t > lo {
      var n := CeilIsMultiple(t - lo, step);
      DayTimesGrow(lo, interval, n - 1, n);
      if k < n {
        DayTimesGrow(lo, interval, k, n - 1);
      } else {
        DayTimesGrow(lo, interval, n, k);
      }
    } else {
      DayTimesGrow(lo, interval, 0, k);
    }
  }

  lemma {:induction false} DailyInstance(s: Schedule, c: Cycle, r: Rule, t: int, k: nat)
    requires s.cycle == Some(c) && c.rule == Some(r) && r.cycleType == 1 && c.exceptionTimes == [] && c.startAt >= 0
    requires Open(s) && t >= ExpandStart(s, c) && DayTimes(ExpandStart(s, c), Interval(r))(k) == t
    ensures HasInstanceAt(s, t) <==> t < ExpandEnd(s, c)
  {
    hide ToMs, FromMs, DayTimes, Interval;
    var lo := ExpandStart(s, c);
    assert Startable(c.startAt, lo, r) && Passes(s, c, r, t);
    assert Guarded(c.startAt, lo, r)(k) == Offered(c.startAt, lo, r)(k) == t;
    assert forall j: nat :: Guarded(c.startAt, lo, r)(j) == Offered(c.startAt, lo, r)(j);
  }

  lemma {:induction false} DailyInstanceIs(s: Schedule, c: Cycle, r: Rule, t: int) returns (k: nat)
    requires s.cycle == Some(c) && c.rule == Some(r) && r.cycleType == 1 && c.startAt >= 0
    requires HasInstanceAt(s, t)
    ensures Open(s) && t < ExpandEnd(s, c) && DayTimes(ExpandStart(s, c), Interval(r))(k) == t
  {
    hide ToMs, FromMs, DayTimes, Interval;
    var lo := ExpandStart(s, c);
    k :| Guarded(c.startAt, lo, r)(k) < ExpandEnd(s, c) && Offered(c.startAt, lo, r)(k) == t;
  }

  lemma {:induction false} DailyRangeEnd(s: Schedule, c: Cycle, r: Rule)
    requires EveryDay(s, c, r)
    ensures Open(s) && FirstFrom(ExpandStart(s, c), Interval(r), EndOf(s) + MS_PER_DAY) < ExpandEnd(s, c) <==>
            s.endTime - s.startTime > MS_PER_DAY
  {
    var k := FirstIsOffered(s.startTime, 1, EndOf(s) + MS_PER_DAY);
  }
}
