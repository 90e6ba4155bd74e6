/** What the expansion loops compute, stated as a scan of base + k * interval over all k. */
module RecurrenceExact {
  import opened Basics
  import opened Dates
  import opened Gather
  import opened Recurrence

  /** The k-th date of the unclipped series. */
  ghost function Occ(base: Date, step: int, k: nat): int {
    ToMs(Shift(base, k * step))
  }

  /** Every visited date picks the series' date of the same month. */
  ghost predicate PicksSeries(p: Pick, first: Date, step: nat, series: Date, q: nat)
    requires ValidPick(p) && Valid(first) && first.year <= MAX_YEAR && step <= MAX_STEP
  {
    forall k: nat :: MonthIndex(first) + k * step <= MAX_MONTH_INDEX ==>
      Picked(p, Cursor(first, step, k)) == Shift(series, (q + k) * step) &&
      Picked(p, Cursor(first, step, k)).day <= Cursor(first, step, k).day
  }

  lemma {:induction false} ShiftIs(d: Date, series: Date, months: int)
    requires Valid(d) && MonthIndex(d) == MonthIndex(series) + months && d.day == series.day && d.tod == series.tod
    ensures d == Shift(series, months)
  {
    IndexSplits(d);
  }

  lemma {:induction false} CursorKeepsDay(first: Date, step: nat, k: nat, day: int)
    requires Valid(first) && first.year <= MAX_YEAR && step <= MAX_STEP
    requires MonthIndex(first) + k * step <= MAX_MONTH_INDEX
    requires day <= first.day && forall i: nat :: i <= k ==> day <= DaysIn(MonthIndex(first) + i * step)
    ensures day <= Cursor(first, step, k).day
  {
    hide ToMs, AdvanceMonths, DaysIn;
    if k == 0 {
    } else {
      assert k * step == (k - 1) * step + step && (k - 1) * step >= 0;
      CursorKeepsDay(first, step, k - 1, day);
      CursorInRange(first, step, k - 1);
      AdvanceInRange(Cursor(first, step, k - 1), step);
    }
  }

  /** Setting the day back to min(base day, 28) undoes whatever short months cut off. */
  lemma {:induction false} MonthPicksSeries(base: Date, start: Date, first: Date, step: nat, q: nat)
    requires Valid(base) && 0 < step <= MAX_STEP && SkipsOnlyEarlier(base, start, first, step, q)
    ensures PicksSeries(OnDay(Min(base.day, 28)), first, step, base.(day := Min(base.day, 28)), q)
  {
    hide ToMs, Cursor, MonthIndex, DaysIn;
    var day := Min(base.day, 28);
    var series := base.(day := day);
    assert MonthIndex(series) == MonthIndex(base) by { SameIndex(series, base); }
    forall k: nat | MonthIndex(first) + k * step <= MAX_MONTH_INDEX
      ensures Picked(OnDay(day), Cursor(first, step, k)) == Shift(series, (q + k) * step)
      ensures Picked(OnDay(day), Cursor(first, step, k)).day <= Cursor(first, step, k).day
    {
      var d := Cursor(first, step, k);
      CursorInRange(first, step, k);
      forall i: nat
        ensures day <= DaysIn(MonthIndex(first) + i * step)
      {}
      CursorKeepsDay(first, step, k, day);
      PickedStaysInMonth(OnDay(day), d);
      assert (q + k) * step == q * step + k * step;
      ShiftIs(Picked(OnDay(day), d), series, (q + k) * step);
    }
  }

  lemma {:induction false} SameIndex(a: Date, b: Date)
    requires a.year == b.year && a.month == b.month
    ensures MonthIndex(a) == MonthIndex(b)
  {}

  lemma {:induction false} YearsLater(base: Date, years: int)
    requires Valid(base) && !(base.month == 2 && base.day == 29)
    ensures base.day <= DaysIn(MonthIndex(base) + 12 * years)
  {
    var m := MonthIndex(base) + 12 * years;
    assert m / 12 == base.year + years && m % 12 + 1 == base.month;
  }

  /** Outside 29 February a yearly step never cuts the day. */
  lemma {:induction false} YearPicksSeries(base: Date, start: Date, first: Date, years: nat, q: nat)
    requires Valid(base) && 0 < years * 12 <= MAX_STEP && SkipsOnlyEarlier(base, start, first, years * 12, q)
    requires !(base.month == 2 && base.day == 29)
    ensures PicksSeries(AsIs, first, years * 12, base, q)
  {
    hide ToMs, Cursor, MonthIndex, DaysIn;
    var step := years * 12;
    assert q * step == 12 * (q * years);
    YearsLater(base, q * years);
    forall k: nat | MonthIndex(first) + k * step <= MAX_MONTH_INDEX
      ensures Picked(AsIs, Cursor(first, step, k)) == Shift(base, (q + k) * step)
      ensures Picked(AsIs, Cursor(first, step, k)).day <= Cursor(first, step, k).day
    {
      CursorInRange(first, step, k);
      forall i: nat
        ensures base.day <= DaysIn(MonthIndex(first) + i * step)
      {
        assert q * step + i * step == 12 * ((q + i) * years);
        YearsLater(base, (q + i) * years);
      }
      CursorKeepsDay(first, step, k, base.day);
      assert (q + k) * step == q * step + k * step;
      ShiftIs(Cursor(first, step, k), base, (q + k) * step);
    }
  }

  // ---- the listing against the series ----

  lemma {:induction false} SameMonthOrder(a: Date, b: Date)
    requires Valid(a) && Valid(b) && MonthIndex(a) == MonthIndex(b) && a.tod == b.tod && a.day <= b.day
    ensures ToMs(a) <= ToMs(b)
  {}

  /** Everything listed is a kept date of the series inside the window. */
  lemma {:induction false} ListedIsSeries(times: seq<int>, s: Schedule, c: Cycle, p: Pick, first: Date, step: nat,
                                          end: Date, series: Date, q: nat, t: int) returns (k: nat)
    requires ValidPick(p) && CanStep(first, step, end)
    requires MonthListing(times, s, c, p, first, step, end) && PicksSeries(p, first, step, series, q)
    requires t in times
    ensures Occ(series, step, k) == t && Keep(s, c, t) && t < ToMs(end)
  {
    hide ToMs, Cursor, MonthIndex, Picked, Shift, Increasing;
    var i: nat :| CursorTimes(first, step)(i) < ToMs(end) && PickedTimes(p, first, step)(i) == t;
    KeptIs(s, c, t);
    CursorBefore(first, step, i, end);
    k := q + i;
    var d := Cursor(first, step, i);
    PickedStaysInMonth(p, d);
    SameMonthOrder(Picked(p, d), d);
  }

  lemma {:induction false} StepsGrow(step: int, a: int, b: int)
    requires step >= 1 && a <= b
    ensures a * step <= b * step
  {
    assert b * step == a * step + (b - a) * step;
  }

  lemma {:induction false} EarlierStep(series: Date, start: Date, step: int, q: nat, k: nat)
    requires Valid(start) && step >= 1 && k < q && MonthIndex(series) + (q - 1) * step < MonthIndex(start)
    requires Valid(Shift(series, k * step)) && MonthIndex(Shift(series, k * step)) == MonthIndex(series) + k * step
    ensures Occ(series, step, k) < ToMs(start)
  {
    hide ToMs, MonthIndex, Shift;
    StepsGrow(step, k, q - 1);
    EarlierMonth(Shift(series, k * step), start);
  }

  lemma {:induction false} ShiftValid(d: Date, months: nat)
    requires Valid(d) && d.day <= DaysIn(MonthIndex(d) + months)
    ensures Valid(Shift(d, months)) && MonthIndex(Shift(d, months)) == MonthIndex(d) + months
  {}

  /** The series' own dates are valid, and those before step q lie before the window. */
  ghost predicate GoodSeries(series: Date, start: Date, step: int, q: nat) {
    && Valid(series)
    && (forall k: nat :: Valid(Shift(series, k * step)) && MonthIndex(Shift(series,
        k * step)) == MonthIndex(series) + k * step)
    && (forall k: nat :: k < q ==> Occ(series, step, k) < ToMs(start))
  }

  /** A kept date of the series inside the window is listed, unless the loop stopped in its
      very month because the visited date lies past the window's end. */
  lemma {:induction false} SeriesIsListed(times: seq<int>, s: Schedule, c: Cycle, p: Pick, first: Date, step: nat,
                                          start: Date, end: Date, series: Date, q: nat, k: nat)
    requires ValidPick(p) && CanStep(first, step, end) && Valid(start) && GoodSeries(series, start, step, q)
    requires MonthIndex(first) == MonthIndex(series) + q * step
    requires MonthListing(times, s, c, p, first, step, end) && PicksSeries(p, first, step, series, q)
    requires Keep(s, c, Occ(series, step, k)) && ToMs(start) <= Occ(series, step, k) < ToMs(end)
    ensures k >= q
    ensures MonthIndex(series) + k * step <= MonthIndex(end)
    ensures Occ(series, step, k) in times <==> ToMs(Cursor(first, step, k - q)) < ToMs(end)
  {
    hide ToMs, Cursor, MonthIndex, Picked, Shift, Increasing;
    var t, i := Occ(series, step, k), k - q;
    NotLaterMonth(Shift(series, k * step), end);
    IndexInCalendar(end);
    assert k * step == q * step + i * step;
    KeptIs(s, c, t);
    assert PickedTimes(p, first, step)(i) == t;
    if t in times {
      var i': nat :| CursorTimes(first, step)(i') < ToMs(end) && PickedTimes(p, first, step)(i') == t;
      CursorBefore(first, step, i', end);
      SameStep(series, step, q + i', k);
    }
  }

  lemma {:induction false} SameStep(series: Date, step: int, a: nat, b: nat)
    requires step >= 1 && Occ(series, step, a) == Occ(series, step, b)
    requires Valid(Shift(series, a * step)) && Valid(Shift(series, b * step))
    requires MonthIndex(Shift(series, a * step)) == MonthIndex(series) + a * step
    requires MonthIndex(Shift(series, b * step)) == MonthIndex(series) + b * step
    ensures a == b
  {
    hide ToMs, MonthIndex;
    ToMsInjective(Shift(series, a * step), Shift(series, b * step));
    assert a * step == b * step;
    assert (a - b) * step == 0;
  }
}
