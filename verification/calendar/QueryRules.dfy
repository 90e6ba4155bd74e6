/** Which rows the two calendar queries find and which rules they ask, told by the rows' own columns. */
module QueryRules {
  import opened Basics
  import opened Recurrence
  import opened RuleEdits
  import opened RuleQueries

  /** A stored row is found through its members when the user asks for the user's own calendar, and
      through its calendar when the user asks for another; the two look at the ends of the range
      differently. */
  lemma {:induction false} FoundIff(rows: seq<Schedule>, me: int, ids: seq<int>, from: int, to: int, x: Schedule)
    ensures x in FoundInRange(rows, me, ids, from, to) <==>
            && x in rows
            && ((me in ids && me in x.memberIds && x.startTime < to && from < x.endTime)
                || (x.calendarId in ids && x.calendarId != me && x.startTime <= to && from <= x.endTime))
  {
    hide FindByUserIds, FindByCalendarIds, OtherCalendars;
    assert Shares(x.memberIds, [me]) <==> me in x.memberIds by {
      assert me in [me];
    }
  }

  /** Starts before the range ends, ends after it starts, and one of the users is a member. */
  function MeetsUsers(users: seq<int>, from: int, to: int): Schedule -> bool {
    (x: Schedule) => x.startTime < to && x.endTime > from && exists u :: u in x.memberIds && u in users
  }

  /** Lies in one of the calendars and touches the range. */
  function MeetsCalendars(ids: seq<int>, from: int, to: int): Schedule -> bool {
    (x: Schedule) => x.startTime <= to && x.endTime >= from && x.calendarId in ids
  }

  /** The rows that are wanted, each once and in the table's order. */
  function Wanted(rows: seq<Schedule>, want: Schedule -> bool): seq<Schedule> {
    if rows == [] then []
    else if want(rows[0]) then [rows[0]] + Wanted(rows[1..], want)
    else Wanted(rows[1..], want)
  }

  lemma {:induction false} WantedNext(rows: seq<Schedule>, x: Schedule, want: Schedule -> bool)
    ensures Wanted(rows + [x], want) == Wanted(rows, want) + if want(x) then [x] else []
  {
    if rows == [] {
      assert rows + [x] == [x] && [x][1..] == [];
    } else {
      WantedNext(rows[1..], x, want);
      assert (rows + [x])[1..] == rows[1..] + [x];
    }
  }

  /** Found through its members. */
  lemma {:induction false} FoundByUser(rows: seq<Schedule>, users: seq<int>, from: int, to: int)
    ensures FindByUserIds(rows, users, from, to) == Wanted(rows, MeetsUsers(users, from, to))
  {
    if rows == [] {
    } else {
      var n := |rows| - 1;
      FoundByUser(rows[..n], users, from, to);
      WantedNext(rows[..n], rows[n], MeetsUsers(users, from, to));
      assert rows == rows[..n] + [rows[n]];
    }
  }

  /** Found through its calendar. */
  lemma {:induction false} FoundByCalendar(rows: seq<Schedule>, ids: seq<int>, from: int, to: int)
    ensures FindByCalendarIds(rows, ids, from, to) == Wanted(rows, MeetsCalendars(ids, from, to))
  {
    if rows == [] {
    } else {
      var n := |rows| - 1;
      FoundByCalendar(rows[..n], ids, from, to);
      WantedNext(rows[..n], rows[n], MeetsCalendars(ids, from, to));
      assert rows == rows[..n] + [rows[n]];
    }
  }

  /** A rule is asked when it is in another calendar that the user asks for and its template starts
      before the range ends; it offers its id when one of its instances starts in the range. */
  lemma {:induction false} OffersIff(cycleds: seq<CycledRow>, me: int, ids: seq<int>, from: int, to: int, id: int,
                                     j: int)
    ensures Offers(cycleds, OtherCalendars(ids, me), from, to, id, j) <==>
            && 0 <= j < |cycleds| && cycleds[j].template.id == id
            && cycleds[j].calendarId in ids && cycleds[j].calendarId != me && cycleds[j].template.startTime < to
            && exists t :: from <= t < to && HasInstanceAt(cycleds[j].template, t)
  {
    hide HasInstanceAt, OtherCalendars;
  }

  /** Cutting a rule and excepting a time write one column each; an exception is kept once. */
  lemma {:induction false} EditsWriteOneColumn(row: CycledRow, t: int)
    ensures UpdateStopAt(row, t) == CycledRow(row.id, row.calendarId, t, row.exceptions, row.template)
    ensures var after := AddExceptionTime(row, t);
            && after == CycledRow(row.id, row.calendarId, row.stopAt, after.exceptions, row.template)
            && t in after.exceptions && row.exceptions <= after.exceptions
            && (t in row.exceptions ==> after.exceptions == row.exceptions)
            && (t !in row.exceptions ==> |after.exceptions| == |row.exceptions| + 1)
  {}

  /** The same two edits of a template. */
  lemma {:induction false} TemplateEdits(s: Schedule, t: int)
    requires s.cycle.Some?
    ensures var c := s.cycle.value;
            && WithStopAt(s, t) == s.(cycle := Some(Cycle(c.startAt, t, c.exceptionTimes, c.rule)))
            && (t in c.exceptionTimes ==> WithException(s, t) == s)
            && (t !in c.exceptionTimes ==>
                  WithException(s, t) == s.(cycle := Some(Cycle(c.startAt, c.stopAt, c.exceptionTimes + [t], c.rule))))
  {}
}
