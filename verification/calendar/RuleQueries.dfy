/** Where edits of a rule are stored and what the two queries answer from: the edits change
    columns beside a template, the queries expand the template. */
module RuleQueries {
  import opened Basics
  import opened Dates
  import opened Gather
  import opened Recurrence
  import opened RuleExpansion
  import opened RuleEdits

  datatype CycledRow = CycledRow(id: int, calendarId: int, stopAt: int, exceptions: seq<int>, template: Schedule)

  function UpdateStopAt(row: CycledRow, t: int): CycledRow {
    row.(stopAt := t)
  }

  function AddExceptionTime(row: CycledRow, t: int): CycledRow {
    if t in row.exceptions then row else row.(exceptions := row.exceptions + [t])
  }

  // ---- the stored rows ----

  predicate Shares(a: seq<int>, b: seq<int>) {
    exists x :: x in a && x in b
  }

  function FindByUserIds(rows: seq<Schedule>, users: seq<int>, from: int, to: int): (found: seq<Schedule>)
    ensures forall x :: x in found <==> x in rows && x.startTime < to && x.endTime > from && Shares(x.memberIds, users)
  {
    if rows == [] then []
    else
      var x := rows[|rows| - 1];
      FindByUserIds(rows[..|rows| - 1], users, from, to)
      + (if x.startTime < to && x.endTime > from && Shares(x.memberIds, users) then [x] else [])
  }

  function FindByCalendarIds(rows: seq<Schedule>, ids: seq<int>, from: int, to: int): (found: seq<Schedule>)
    ensures forall x :: x in found <==> x in rows && x.calendarId in ids && x.endTime >= from && x.startTime <= to
  {
    if rows == [] then []
    else
      var x := rows[|rows| - 1];
      FindByCalendarIds(rows[..|rows| - 1], ids, from, to)
      + (if x.calendarId in ids && x.endTime >= from && x.startTime <= to then [x] else [])
  }

  /** The requested calendars without the user's own. */
  function OtherCalendars(ids: seq<int>, me: int): (others: seq<int>)
    ensures forall id :: id in others <==> id in ids && id != me
  {
    if ids == [] then []
    else OtherCalendars(ids[..|ids| - 1], me) + (if ids[|ids| - 1] == me then [] else [ids[|ids| - 1]])
  }

  function FoundInRange(rows: seq<Schedule>, me: int, ids: seq<int>, from: int, to: int): seq<Schedule> {
    (if me in ids then FindByUserIds(rows, [me], from, to) else [])
    + FindByCalendarIds(rows, OtherCalendars(ids, me), from, to)
  }

  // ---- the range query ----

  ghost predicate Expandable(s: Schedule) {
    HasRule(s) ==> Supported(s, s.cycle.value, s.cycle.value.rule.value)
  }

  /** A time the schedule expands to, read off its rule and its window. */
  ghost predicate HasInstanceAt(s: Schedule, t: int) {
    && HasRule(s) && Open(s)
    && Startable(s.cycle.value.startAt, ExpandStart(s, s.cycle.value), s.cycle.value.rule.value)
    && Expands(s, s.cycle.value, s.cycle.value.rule.value, t)
  }

  ghost predicate TimesOf(times: seq<int>, s: Schedule) {
    if HasRule(s) then Expansion(times, s) else times == []
  }

  lemma {:induction false} TimesAre(times: seq<int>, s: Schedule)
    requires TimesOf(times, s)
    ensures Increasing(times) && forall t :: t in times <==> HasInstanceAt(s, t)
  {
    hide Expansion, Expands, Startable;
    if HasRule(s) {
      ExpansionShape(times, s);
    }
  }

  function FirstIn(times: seq<int>, from: int, to: int): (first: Option<int>)
    ensures first.None? ==> forall t | t in times :: !(from <= t < to)
    ensures first.Some? ==> first.value in times && from <= first.value < to
  {
    if times == [] then None
    else
      var front := FirstIn(times[..|times| - 1], from, to);
      var last := times[|times| - 1];
      assert times == times[..|times| - 1] + [last];
      if front.Some? then front else if from <= last < to then Some(last) else None
  }

  lemma {:induction false} FirstInIsLeast(times: seq<int>, from: int, to: int)
    requires Increasing(times)
    ensures FirstIn(times, from, to).Some? ==>
      forall t | t in times && from <= t :: FirstIn(times, from, to).value <= t
  {
    if times == [] {
    } else {
      var front, last := times[..|times| - 1], times[|times| - 1];
      FirstInIsLeast(front, from, to);
      assert forall t :: t in times <==> t in front || t == last;
      if FirstIn(front, from, to).Some? {
        var i :| 0 <= i < |front| && front[i] == FirstIn(front, from, to).value;
        assert times[i] < last;
      }
    }
  }

  predicate HasId(answer: seq<Schedule>, id: int) {
    exists x :: x in answer && x.id == id
  }

  /** Only the first instance in the range is added, and only under a new id: all instances of a
      template carry the template's id. */
  function AddFirst(answer: seq<Schedule>, s: Schedule, times: seq<int>, from: int, to: int): seq<Schedule> {
    var first := FirstIn(times, from, to);
    if first.Some? && !HasId(answer, s.id)
    then answer + [BuildInstance(s, first.value, s.endTime - s.startTime)]
    else answer
  }

  predicate Chosen(row: CycledRow, others: seq<int>, to: int) {
    row.calendarId in others && row.template.startTime < to
  }

  function AddAllFirst(found: seq<Schedule>, cycleds: seq<CycledRow>, lists: seq<seq<int>>, others: seq<int>,
                       from: int, to: int): seq<Schedule>
    requires |lists| == |cycleds|
  {
    if cycleds == [] then found
    else
      var n := |cycleds| - 1;
      var answer := AddAllFirst(found, cycleds[..n], lists[..n], others, from, to);
      if Chosen(cycleds[n], others, to) then AddFirst(answer, cycleds[n].template, lists[n], from, to) else answer
  }

  ghost predicate AllTimes(lists: seq<seq<int>>, cycleds: seq<CycledRow>, others: seq<int>, to: int) {
    |lists| == |cycleds| &&
    forall j | 0 <= j < |cycleds| && Chosen(cycleds[j], others, to) :: TimesOf(lists[j], cycleds[j].template)
  }

  /** The instances of one template go in one by one. */
  method AddInRange(answer: seq<Schedule>, s: Schedule, instances: seq<Schedule>, from: int, to: int)
      returns (longer: seq<Schedule>)
    requires instances == InstancesAt(s, Starts(instances), s.endTime - s.startTime)
    ensures longer == AddFirst(answer, s, Starts(instances), from, to)
  {
    longer := answer;
    var times := Starts(instances);
    for n := 0 to |instances|
      invariant longer == AddFirst(answer, s, times[..n], from, to)
    {
      assert times[..n + 1][..n] == times[..n];
      var inst := instances[n];
      assert inst == BuildInstance(s, times[n], s.endTime - s.startTime);
      NewIdAdded(answer, s, times[..n], from, to);
      if inst.startTime >= from && inst.startTime < to {
        if !HasId(longer, inst.id) {
          longer := longer + [inst];
        }
      }
    }
    assert times[..|times|] == times;
  }

  lemma {:induction false} NewIdAdded(answer: seq<Schedule>, s: Schedule, times: seq<int>, from: int, to: int)
    ensures HasId(AddFirst(answer, s, times, from, to), s.id) <==>
            HasId(answer, s.id) || FirstIn(times, from, to).Some?
  {
    hide FirstIn;
    var longer := AddFirst(answer, s, times, from, to);
    if longer != answer {
      assert longer[|longer| - 1].id == s.id;
      assert longer[|longer| - 1] in longer;
    }
  }

  method ExpandInto(answer: seq<Schedule>, s: Schedule, from: int, to: int)
      returns (longer: seq<Schedule>, ghost times: seq<int>)
    requires Expandable(s)
    ensures TimesOf(times, s) && longer == AddFirst(answer, s, times, from, to)
  {
    hide Supported, Listing, FirstIn, AddFirst, InstancesAt, Starts;
    longer, times := answer, [];
    var result := GenByRule(s);
    if result.Ok? {
      times := Starts(result.value);
      longer := AddInRange(answer, s, result.value, from, to);
    } else {
      NothingAdded(answer, s, from, to);
    }
  }

  /** The loop over the rule rows of the requested calendars. */
  method ExpandAll(found: seq<Schedule>, cycleds: seq<CycledRow>, others: seq<int>, from: int, to: int)
      returns (answer: seq<Schedule>)
    requires forall row | row in cycleds && Chosen(row, others, to) :: Expandable(row.template)
    ensures exists lists ::
      AllTimes(lists, cycleds, others, to) && answer == AddAllFirst(found, cycleds, lists, others, from, to)
  {
    hide Expandable, TimesOf, AddFirst;
    answer := found;
    ghost var lists: seq<seq<int>> := [];
    for n := 0 to |cycleds|
      invariant AllTimes(lists, cycleds[..n], others, to)
      invariant answer == AddAllFirst(found, cycleds[..n], lists, others, from, to)
    {
      assert cycleds[..n + 1][..n] == cycleds[..n];
      var row := cycleds[n];
      assert row in cycleds;
      ghost var times: seq<int> := [];
      if row.calendarId in others && row.template.startTime < to {
        answer, times := ExpandInto(answer, row.template, from, to);
      }
      assert (lists + [times])[..n] == lists;
      lists := lists + [times];
    }
    assert cycleds[..|cycleds|] == cycleds;
  }

  method PullByCalendarIds(me: int, ids: seq<int>, from: int, to: int, rows: seq<Schedule>, cycleds: seq<CycledRow>)
      returns (answer: seq<Schedule>)
    requires forall row | row in cycleds && Chosen(row, OtherCalendars(ids, me), to) :: Expandable(row.template)
    ensures var others := OtherCalendars(ids, me);
            exists lists :: AllTimes(lists, cycleds, others, to)
              && answer == AddAllFirst(FoundInRange(rows, me, ids, from, to), cycleds, lists, others, from, to)
  {
    hide Expandable, TimesOf, AddAllFirst;
    var others := ids;
    answer := [];
    if me in ids {
      answer := FindByUserIds(rows, [me], from, to);
      others := OtherCalendars(ids, me);
    } else {
      NothingToSkip(ids, me);
    }
    if others == [] {
      NoCalendars(rows, from, to);
    } else {
      answer := answer + FindByCalendarIds(rows, others, from, to);
    }
    ghost var found := answer;
    assert found == FoundInRange(rows, me, ids, from, to) && others == OtherCalendars(ids, me);
    answer := ExpandAll(answer, cycleds, others, from, to);
  }

  lemma {:induction false} NothingToSkip(ids: seq<int>, me: int)
    requires me !in ids
    ensures OtherCalendars(ids, me) == ids
  {
    if ids == [] {
    } else {
      NothingToSkip(ids[..|ids| - 1], me);
    }
  }

  lemma {:induction false} NoCalendars(rows: seq<Schedule>, from: int, to: int)
    ensures FindByCalendarIds(rows, [], from, to) == []
  {
    if rows == [] {
    } else {
      NoCalendars(rows[..|rows| - 1], from, to);
    }
  }

  lemma {:induction false} NothingAdded(answer: seq<Schedule>, s: Schedule, from: int, to: int)
    ensures AddFirst(answer, s, [], from, to) == answer
  {}

  // ---- what the range query shows ----

  /** The j-th rule row is asked, names this id and has an instance in the range. */
  ghost predicate Offers(cycleds: seq<CycledRow>, others: seq<int>, from: int, to: int, id: int, j: int) {
    && 0 <= j < |cycleds| && Chosen(cycleds[j], others, to) && cycleds[j].template.id == id
    && exists t :: from <= t < to && HasInstanceAt(cycleds[j].template, t)
  }

  /** It is the first such row, and t is its first instance in the range. */
  ghost predicate Adds(cycleds: seq<CycledRow>, others: seq<int>, from: int, to: int, id: int, j: int, t: int) {
    && Offers(cycleds, others, from, to, id, j)
    && (forall i | 0 <= i < j :: !Offers(cycleds, others, from, to, id, i))
    && from <= t < to && HasInstanceAt(cycleds[j].template, t)
    && (forall x | from <= x < t :: !HasInstanceAt(cycleds[j].template, x))
  }

  predicate Shows(answer: seq<Schedule>, id: int, t: int) {
    exists x :: x in answer && x.id == id && x.startTime == t
  }

  lemma {:induction false} FirstInOffers(cycleds: seq<CycledRow>, lists: seq<seq<int>>, others: seq<int>, from: int,
                                         to: int, j: nat)
    requires AllTimes(lists, cycleds, others, to) && j < |cycleds| && Chosen(cycleds[j], others, to)
    ensures FirstIn(lists[j], from, to).Some? <==> Offers(cycleds, others, from, to, cycleds[j].template.id, j)
    ensures FirstIn(lists[j], from, to).Some? ==>
      var t := FirstIn(lists[j], from, to).value;
      HasInstanceAt(cycleds[j].template, t) && forall x | from <= x < t :: !HasInstanceAt(cycleds[j].template, x)
  {
    hide HasInstanceAt, TimesOf, Increasing, FirstIn;
    TimesAre(lists[j], cycleds[j].template);
    FirstInIsLeast(lists[j], from, to);
  }

  lemma {:induction false} OffersFront(cycleds: seq<CycledRow>, others: seq<int>, from: int, to: int, id: int, n: nat,
                                       i: int)
    requires n <= |cycleds| && i < n
    ensures Offers(cycleds[..n], others, from, to, id, i) <==> Offers(cycleds, others, from, to, id, i)
  {
    hide HasInstanceAt;
  }

  /** Ids in the answer: those found and those offered. */
  lemma {:induction false} AnswerIds(found: seq<Schedule>, cycleds: seq<CycledRow>, lists: seq<seq<int>>,
                                     others: seq<int>, from: int, to: int, id: int)
    requires AllTimes(lists, cycleds, others, to)
    ensures HasId(AddAllFirst(found, cycleds, lists, others, from, to), id) <==>
            HasId(found, id) || exists j :: Offers(cycleds, others, from, to, id, j)
  {
    hide HasInstanceAt, FirstIn, Offers, TimesOf;
    if cycleds == [] {
      assert forall j :: !Offers(cycleds, others, from, to, id, j) by { NoRowsNoOffer(cycleds, others, from, to, id); }
    } else {
      var n := |cycleds| - 1;
      AnswerIds(found, cycleds[..n], lists[..n], others, from, to, id);
      var before := AddAllFirst(found, cycleds[..n], lists[..n], others, from, to);
      forall i | i < n
        ensures Offers(cycleds[..n], others, from, to, id, i) <==> Offers(cycleds, others, from, to, id, i)
      {
        OffersFront(cycleds, others, from, to, id, n, i);
      }
      LastOffer(cycleds, lists, others, from, to, id);
      IdsAdded(before, cycleds[n].template, lists[n], from, to, id);
      OfferIndex(cycleds, others, from, to, id);
      OfferIndex(cycleds[..n], others, from, to, id);
    }
  }

  lemma {:induction false} NoRowsNoOffer(cycleds: seq<CycledRow>, others: seq<int>, from: int, to: int, id: int)
    requires cycleds == []
    ensures forall j :: !Offers(cycleds, others, from, to, id, j)
  {}

  lemma {:induction false} OfferIndex(cycleds: seq<CycledRow>, others: seq<int>, from: int, to: int, id: int)
    ensures forall j | Offers(cycleds, others, from, to, id, j) :: 0 <= j < |cycleds|
  {}

  lemma {:induction false} LastOffer(cycleds: seq<CycledRow>, lists: seq<seq<int>>, others: seq<int>,
                                     from: int, to: int, id: int)
    requires AllTimes(lists, cycleds, others, to) && cycleds != []
    ensures var n := |cycleds| - 1;
            Offers(cycleds, others, from, to, id, n) <==>
            Chosen(cycleds[n], others, to) && cycleds[n].template.id == id && FirstIn(lists[n], from, to).Some?
  {
    hide HasInstanceAt, FirstIn, TimesOf;
    var n := |cycleds| - 1;
    if Chosen(cycleds[n], others, to) {
      FirstInOffers(cycleds, lists, others, from, to, n);
    }
  }

  lemma {:induction false} IdsAdded(answer: seq<Schedule>, s: Schedule, times: seq<int>, from: int, to: int, id: int)
    ensures HasId(AddFirst(answer, s, times, from, to), id) <==>
            HasId(answer, id) || (s.id == id && FirstIn(times, from, to).Some?)
  {
    hide FirstIn;
    NewIdAdded(answer, s, times, from, to);
    var longer := AddFirst(answer, s, times, from, to);
    assert forall x :: x in longer ==> x in answer || x.id == s.id;
    assert forall x :: x in answer ==> x in longer;
  }

  lemma {:induction false} ShowsAdded(answer: seq<Schedule>, s: Schedule, times: seq<int>, from: int, to: int, id: int,
                                      t: int)
    ensures Shows(AddFirst(answer, s, times, from, to), id, t) <==>
            Shows(answer, id, t) || (!HasId(answer, id) && s.id == id && FirstIn(times, from, to) == Some(t))
  {
    hide FirstIn;
    var longer := AddFirst(answer, s, times, from, to);
    if longer != answer {
      var added := longer[|longer| - 1];
      assert forall x :: x in longer <==> x in answer || x == added;
    }
  }

  /** The exact answer: an entry with this id and start is shown when a stored row found in the
      range is one, or when no found row has the id and t is the first instance in the range of the
      first rule row that is asked, names the id and has one. */
  lemma {:induction false} RangeShowsIff(found: seq<Schedule>, cycleds: seq<CycledRow>, lists: seq<seq<int>>,
                                         others: seq<int>, from: int, to: int, id: int, t: int)
    requires AllTimes(lists, cycleds, others, to)
    ensures Shows(AddAllFirst(found, cycleds, lists, others, from, to), id, t) <==>
            Shows(found, id, t) || (!HasId(found, id) && exists j :: Adds(cycleds, others, from, to, id, j, t))
  {
    hide HasInstanceAt, FirstIn, Offers, TimesOf, Adds, HasId, Shows;
    if cycleds == [] {
      NoRowsNoAdd(cycleds, others, from, to, id, t);
    } else {
      var n := |cycleds| - 1;
      RangeShowsIff(found, cycleds[..n], lists[..n], others, from, to, id, t);
      var before := AddAllFirst(found, cycleds[..n], lists[..n], others, from, to);
      AnswerIds(found, cycleds[..n], lists[..n], others, from, to, id);
      ShowsAdded(before, cycleds[n].template, lists[n], from, to, id, t);
      AddsFront(cycleds, others, from, to, id, t);
      LastAdds(cycleds, lists, others, from, to, id, t);
    }
  }

  lemma {:induction false} NoRowsNoAdd(cycleds: seq<CycledRow>, others: seq<int>, from: int, to: int, id: int, t: int)
    requires cycleds == []
    ensures forall j :: !Adds(cycleds, others, from, to, id, j, t)
  {}

  /** Rows before the last add what they add without it. */
  lemma {:induction false} AddsFront(cycleds: seq<CycledRow>, others: seq<int>, from: int, to: int, id: int, t: int)
    requires cycleds != []
    ensures var n := |cycleds| - 1;
            && (forall j | Adds(cycleds[..n], others, from, to, id, j, t) :: Adds(cycleds, others, from, to, id, j, t))
            && (forall j | Adds(cycleds, others, from, to, id, j, t) ::
                  j == n || Adds(cycleds[..n], others, from, to, id, j, t))
  {
    hide HasInstanceAt, Offers;
    var n := |cycleds| - 1;
    OfferIndex(cycleds, others, from, to, id);
    OfferIndex(cycleds[..n], others, from, to, id);
    forall i | i < n
      ensures Offers(cycleds[..n], others, from, to, id, i) <==> Offers(cycleds, others, from, to, id, i)
    {
      OffersFront(cycleds, others, from, to, id, n, i);
    }
  }

  /** The last row adds its first time exactly when no row before it offers the id. */
  lemma {:induction false} LastAdds(cycleds: seq<CycledRow>, lists: seq<seq<int>>, others: seq<int>, from: int, to: int,
                                    id: int, t: int)
    requires AllTimes(lists, cycleds, others, to) && cycleds != []
    ensures var n := |cycleds| - 1;
            Adds(cycleds, others, from, to, id, n, t) <==>
            && (forall j :: !Offers(cycleds[..n], others, from, to, id, j))
            && Chosen(cycleds[n], others, to) && cycleds[n].template.id == id && FirstIn(lists[n], from, to) == Some(t)
  {
    hide HasInstanceAt, FirstIn, TimesOf, Offers;
    var n := |cycleds| - 1;
    OfferIndex(cycleds[..n], others, from, to, id);
    forall i | i < n
      ensures Offers(cycleds[..n], others, from, to, id, i) <==> Offers(cycleds, others, from, to, id, i)
    {
      OffersFront(cycleds, others, from, to, id, n, i);
    }
    LastOffer(cycleds, lists, others, from, to, id);
    if Chosen(cycleds[n], others, to) {
      FirstInOffers(cycleds, lists, others, from, to, n);
    }
  }

  // ---- the busy query ----

  datatype Brief = Brief(id: int, calendarId: int, startTime: int, endTime: int)

  function BriefOf(x: Schedule): Brief {
    Brief(x.id, x.calendarId, x.startTime, x.endTime)
  }

  function BriefsOf(answer: map<int, seq<Brief>>, user: int): seq<Brief> {
    if user in answer then answer[user] else []
  }

  predicate Has(answer: map<int, seq<Brief>>, user: int, b: Brief) {
    b in BriefsOf(answer, user)
  }

  lemma {:induction false} HasOneMore(answer: map<int, seq<Brief>>, user: int, b: Brief)
    ensures forall u, b1: Brief :: Has(answer[user := BriefsOf(answer, user) + [b]], u, b1) <==>
              Has(answer, u, b1) || (u == user && b1 == b)
  {
    var briefs := BriefsOf(answer, user);
    var after := answer[user := briefs + [b]];
    assert BriefsOf(after, user) == briefs + [b];
    assert forall u | u != user :: BriefsOf(after, u) == BriefsOf(answer, u);
    forall u, b1: Brief
      ensures Has(after, u, b1) <==> Has(answer, u, b1) || (u == user && b1 == b)
    {
      assert b1 in briefs + [b] <==> b1 in briefs || b1 == b;
    }
  }

  /** Adds one entry for every requested user who is a member. */
  method PushBriefs(answer: map<int, seq<Brief>>, users: seq<int>, x: Schedule)
      returns (longer: map<int, seq<Brief>>)
    ensures forall u, b: Brief :: Has(longer, u, b) <==>
      Has(answer, u, b) || (b == BriefOf(x) && u in users && u in x.memberIds)
  {
    hide Has, BriefsOf, BriefOf;
    longer := answer;
    for n := 0 to |users|
      invariant forall u, b: Brief :: Has(longer, u, b) <==>
        Has(answer, u, b) || (b == BriefOf(x) && u in users[..n] && u in x.memberIds)
    {
      var user := users[n];
      assert users[..n + 1] == users[..n] + [user];
      if user in x.memberIds {
        HasOneMore(longer, user, BriefOf(x));
        longer := longer[user := BriefsOf(longer, user) + [BriefOf(x)]];
      }
    }
    assert users[..|users|] == users;
  }

  ghost predicate FromStored(found: seq<Schedule>, users: seq<int>, u: int, b: Brief) {
    u in users && exists x :: x in found && u in x.memberIds && b == BriefOf(x)
  }

  /** b is an instance of the template that starts in the range. */
  ghost predicate InstanceBrief(s: Schedule, from: int, to: int, b: Brief) {
    && from <= b.startTime < to && HasInstanceAt(s, b.startTime)
    && b == Brief(s.id, s.calendarId, b.startTime, b.startTime + s.endTime - s.startTime)
  }

  ghost predicate FromRules(cycleds: seq<CycledRow>, used: set<int>, users: seq<int>, from: int, to: int, u: int,
                            b: Brief) {
    u in users && exists row :: row in cycleds && row.calendarId in used && u in row.template.memberIds
                                && InstanceBrief(row.template, from, to, b)
  }

  predicate Listed(instances: seq<Schedule>, from: int, to: int, b: Brief) {
    exists x :: x in instances && from <= x.startTime < to && b == BriefOf(x)
  }

  lemma {:induction false} ListedNext(instances: seq<Schedule>, n: nat, from: int, to: int, b: Brief)
    requires n < |instances|
    ensures Listed(instances[..n + 1], from, to, b) <==>
            Listed(instances[..n], from, to, b)
            || (from <= instances[n].startTime < to && b == BriefOf(instances[n]))
  {
    assert instances[..n + 1] == instances[..n] + [instances[n]];
  }

  lemma {:induction false} ListedIsInstance(instances: seq<Schedule>, s: Schedule, b: Brief, from: int, to: int)
    requires instances == InstancesAt(s, Starts(instances), s.endTime - s.startTime)
    requires forall t :: t in Starts(instances) <==> HasInstanceAt(s, t)
    ensures Listed(instances, from, to, b) <==> InstanceBrief(s, from, to, b)
  {
    hide HasInstanceAt;
    var times := Starts(instances);
    forall i | 0 <= i < |instances|
      ensures instances[i] == BuildInstance(s, times[i], s.endTime - s.startTime)
    {}
    if InstanceBrief(s, from, to, b) {
      var i :| 0 <= i < |times| && times[i] == b.startTime;
      assert b == BriefOf(instances[i]);
    }
    if x :| x in instances && from <= x.startTime < to && b == BriefOf(x) {
      var i :| 0 <= i < |instances| && instances[i] == x;
      assert times[i] in times;
    }
  }

  /** The instances of one template that start in the range. */
  method PushInstances(answer: map<int, seq<Brief>>, users: seq<int>, s: Schedule, from: int, to: int)
      returns (longer: map<int, seq<Brief>>)
    requires Expandable(s)
    ensures forall u, b: Brief :: Has(longer, u, b) <==>
      Has(answer, u, b) || (u in users && u in s.memberIds && InstanceBrief(s, from, to, b))
  {
    hide Supported, Listing, Starts, Has, HasInstanceAt, Listed, InstanceBrief;
    longer := answer;
    var instances := [];
    var result := GenByRule(s);
    if result.Ok? {
      instances := result.value;
      InstanceMembers(instances, s);
    } else {
      NoInstances(s);
    }
    NothingListed(from, to);
    for n := 0 to |instances|
      invariant forall u, b: Brief :: Has(longer, u, b) <==>
        Has(answer, u, b) || (u in users && u in s.memberIds && Listed(instances[..n], from, to, b))
    {
      forall b: Brief
        ensures Listed(instances[..n + 1], from, to, b) <==>
                Listed(instances[..n], from, to, b)
                || (from <= instances[n].startTime < to && b == BriefOf(instances[n]))
      {
        ListedNext(instances, n, from, to, b);
      }
      assert instances[n].memberIds == s.memberIds;
      if instances[n].startTime >= from && instances[n].startTime < to {
        longer := PushBriefs(longer, users, instances[n]);
      }
    }
    assert instances[..|instances|] == instances;
    forall b: Brief
      ensures Listed(instances, from, to, b) <==> InstanceBrief(s, from, to, b)
    {
      ListedIsInstance(instances, s, b, from, to);
    }
  }

  lemma {:induction false} NothingListed(from: int, to: int)
    ensures forall b: Brief :: !Listed([], from, to, b)
  {}

  lemma {:induction false} NoInstances(s: Schedule)
    requires !HasRule(s)
    ensures [] == InstancesAt(s, Starts([]), s.endTime - s.startTime)
    ensures forall t :: t in Starts([]) <==> HasInstanceAt(s, t)
  {}

  lemma {:induction false} InstanceMembers(instances: seq<Schedule>, s: Schedule)
    requires HasRule(s) && Expansion(Starts(instances), s)
    requires instances == InstancesAt(s, Starts(instances), s.endTime - s.startTime)
    ensures forall i | 0 <= i < |instances| :: instances[i].memberIds == s.memberIds
    ensures forall t :: t in Starts(instances) <==> HasInstanceAt(s, t)
  {
    hide HasInstanceAt, Expansion;
    TimesAre(Starts(instances), s);
    forall i | 0 <= i < |instances|
      ensures instances[i] == BuildInstance(s, Starts(instances)[i], s.endTime - s.startTime)
    {}
  }

  lemma {:induction false} StoredNext(found: seq<Schedule>, n: nat, users: seq<int>, u: int, b: Brief)
    requires n < |found|
    ensures FromStored(found[..n + 1], users, u, b) <==>
            FromStored(found[..n], users, u, b) || (b == BriefOf(found[n]) && u in users && u in found[n].memberIds)
  {
    assert found[..n + 1] == found[..n] + [found[n]];
  }

  lemma {:induction false} RulesNext(cycleds: seq<CycledRow>, n: nat, used: set<int>, users: seq<int>, from: int,
                                     to: int, u: int, b: Brief)
    requires n < |cycleds|
    ensures FromRules(cycleds[..n + 1], used, users, from, to, u, b) <==>
            FromRules(cycleds[..n], used, users, from, to, u, b)
            || (cycleds[n].calendarId in used && u in users && u in cycleds[n].template.memberIds
                && InstanceBrief(cycleds[n].template, from, to, b))
  {
    hide InstanceBrief;
    assert cycleds[..n + 1] == cycleds[..n] + [cycleds[n]];
  }

  /** Who is busy when: the stored rows found in the range, and every instance in the range of every
      rule of a calendar that one of those rows belongs to. */
  method PullBusy(users: seq<int>, from: int, to: int, rows: seq<Schedule>, cycleds: seq<CycledRow>)
      returns (answer: map<int, seq<Brief>>)
    requires forall row | row in cycleds :: Expandable(row.template)
    ensures var found := FindByUserIds(rows, users, from, to);
            var used := set x | x in found :: x.calendarId;
            forall u, b: Brief :: Has(answer, u, b) <==>
              FromStored(found, users, u, b) || FromRules(cycleds, used, users, from, to, u, b)
  {
    hide Has, Expandable, InstanceBrief, FromStored, FromRules;
    var found := FindByUserIds(rows, users, from, to);
    var used := set x | x in found :: x.calendarId;
    answer := map[];
    NothingYet(used, users, from, to);
    for n := 0 to |found|
      invariant forall u, b: Brief :: Has(answer, u, b) <==> FromStored(found[..n], users, u, b)
    {
      forall u, b: Brief
        ensures FromStored(found[..n + 1], users, u, b) <==>
                FromStored(found[..n], users, u, b) || (b == BriefOf(found[n]) && u in users && u in found[n].memberIds)
      {
        StoredNext(found, n, users, u, b);
      }
      answer := PushBriefs(answer, users, found[n]);
    }
    assert found[..|found|] == found;
    for n := 0 to |cycleds|
      invariant forall u, b: Brief :: Has(answer, u, b) <==>
        FromStored(found, users, u, b) || FromRules(cycleds[..n], used, users, from, to, u, b)
    {
      var row := cycleds[n];
      assert row in cycleds;
      forall u, b: Brief
        ensures FromRules(cycleds[..n + 1], used, users, from, to, u, b) <==>
                FromRules(cycleds[..n], used, users, from, to, u, b)
                || (row.calendarId in used && u in users && u in row.template.memberIds
                    && InstanceBrief(row.template, from, to, b))
      {
        RulesNext(cycleds, n, used, users, from, to, u, b);
      }
      if row.calendarId in used {
        answer := PushInstances(answer, users, row.template, from, to);
      }
    }
    assert cycleds[..|cycleds|] == cycleds;
  }

  lemma {:induction false} NothingYet(used: set<int>, users: seq<int>, from: int, to: int)
    ensures forall u, b: Brief :: !Has(map[], u, b)
    ensures forall u, b: Brief :: !FromStored([], users, u, b) && !FromRules([], used, users, from, to, u, b)
  {}

  // ---- what an edit of a rule row does to the answers ----

  /** A rule row with some stop and some exceptions edited in. */
  function Edited(row: CycledRow, stopAt: int, t: int): CycledRow {
    AddExceptionTime(UpdateStopAt(row, stopAt), t)
  }

  /** A time that a cut or an exception should have taken away. */
  ghost predicate Withdrawn(row: CycledRow, t: int) {
    t in row.exceptions || 0 < row.stopAt <= t
  }

  lemma {:induction false} EditedOffers(cycleds: seq<CycledRow>, n: nat, stopAt: int, x: int, others: seq<int>,
                                        from: int, to: int, id: int, j: int, t: int)
    requires n < |cycleds|
    ensures var after := cycleds[n := Edited(cycleds[n], stopAt, x)];
            && (Offers(after, others, from, to, id, j) <==> Offers(cycleds, others, from, to, id, j))
            && (Adds(after, others, from, to, id, j, t) <==> Adds(cycleds, others, from, to, id, j, t))
  {
    hide HasInstanceAt;
    var after := cycleds[n := Edited(cycleds[n], stopAt, x)];
    forall i
      ensures Offers(after, others, from, to, id, i) <==> Offers(cycleds, others, from, to, id, i)
    {}
  }

  /** The range query after a rule row was cut at `stopAt` and excepted at `x`: an entry with an id
      and a start is shown exactly under the condition that held before the edit. In particular a
      withdrawn time is still shown whenever no stored row with the id is found in the range, no
      earlier rule row offers the id, and the time is the template's first in the range. */
  lemma {:induction false} WithdrawnShownIff(found: seq<Schedule>, cycleds: seq<CycledRow>, n: nat,
                                             stopAt: int, x: int, lists: seq<seq<int>>, others: seq<int>,
                                             from: int, to: int, id: int, t: int)
    requires n < |cycleds|
    requires AllTimes(lists, cycleds[n := Edited(cycleds[n], stopAt, x)], others, to)
    ensures Shows(AddAllFirst(found, cycleds[n := Edited(cycleds[n], stopAt, x)], lists, others, from, to), id, t) <==>
            Shows(found, id, t) || (!HasId(found, id) && exists j :: Adds(cycleds, others, from, to, id, j, t))
  {
    hide HasInstanceAt, Offers, Adds, AllTimes, Shows, HasId, AddAllFirst;
    var after := cycleds[n := Edited(cycleds[n], stopAt, x)];
    RangeShowsIff(found, after, lists, others, from, to, id, t);
    forall j
      ensures Adds(after, others, from, to, id, j, t) <==> Adds(cycleds, others, from, to, id, j, t)
    {
      EditedOffers(cycleds, n, stopAt, x, others, from, to, id, j, t);
    }
  }

  // ---- a withdrawn day that is shown ----

  /** A rule for every day, without end or exceptions. */
  ghost predicate EveryDay(s: Schedule, c: Cycle, r: Rule) {
    && s.cycle == Some(c) && c.rule == Some(r) && r.cycleType == 1 && r.step <= 1 && c.exceptionTimes == []
    && 0 <= c.startAt <= s.startTime && c.stopAt <= 0
  }

  lemma {:induction false} EveryDayHas(s: Schedule, c: Cycle, r: Rule, day: nat, t: int)
    requires EveryDay(s, c, r) && t == s.startTime + day * MS_PER_DAY
    requires t < s.endTime + EXPAND_DAYS * MS_PER_DAY
    ensures HasInstanceAt(s, t)
  {
    hide ToMs, FromMs;
    var lo := ExpandStart(s, c);
    assert Startable(c.startAt, lo, r);
    assert Interval(r) == 1 && DayTimes(lo, 1)(day) == t;
    assert Guarded(c.startAt, lo, r)(day) < ExpandEnd(s, c) && Offered(c.startAt, lo, r)(day) == t;
    assert Passes(s, c, r, t);
  }

  /** The rule is stopped at its second day and that day is excepted as well; asked for the day, with
      nothing else stored, the range query shows it. */
  lemma {:induction false} WithdrawnDayIsShown(row: CycledRow, c: Cycle, r: Rule, lists: seq<seq<int>>, t: int)
    requires EveryDay(row.template, c, r) && row.template.endTime >= row.template.startTime
    requires t == row.template.startTime + MS_PER_DAY
    requires AllTimes(lists, [Edited(row, t, t)], [row.calendarId], t + MS_PER_DAY)
    ensures Withdrawn(Edited(row, t, t), t)
    ensures Shows(AddAllFirst([], [Edited(row, t, t)], lists, [row.calendarId], t, t + MS_PER_DAY), row.template.id, t)
  {
    hide HasInstanceAt, AllTimes, Shows, AddAllFirst, EveryDay, Adds, HasId, Withdrawn, Edited;
    EveryDayHas(row.template, c, r, 1, t);
    EditWithdraws(row, t);
    NothingFound(row.template.id, t);
    var cycleds := [row];
    assert cycleds[0 := Edited(row, t, t)] == [Edited(row, t, t)];
    WithdrawnShownIff([], cycleds, 0, t, t, lists, [row.calendarId], t, t + MS_PER_DAY, row.template.id, t);
    OnlyRowAdds(row, t, t + MS_PER_DAY);
  }

  lemma {:induction false} EditWithdraws(row: CycledRow, t: int)
    ensures Withdrawn(Edited(row, t, t), t)
  {
    var cut := UpdateStopAt(row, t);
    assert (cut.exceptions + [t])[|cut.exceptions|] == t;
  }

  lemma {:induction false} OnlyRowAdds(row: CycledRow, t: int, to: int)
    requires HasInstanceAt(row.template, t) && row.template.startTime < to && t < to
    ensures Adds([row], [row.calendarId], t, to, row.template.id, 0, t)
  {
    hide HasInstanceAt;
  }

  /** The busy query after any edit of a rule row: every time of its template in the range is reported
      for every member, withdrawn or not; the second day of an every-day rule is one. */
  lemma {:induction false} WithdrawnDayIsBusy(cycleds: seq<CycledRow>, n: nat, c: Cycle, r: Rule, used: set<int>,
                                              users: seq<int>, u: int, from: int, to: int, t: int)
    requires n < |cycleds| && cycleds[n].calendarId in used && u in users && u in cycleds[n].template.memberIds
    requires from <= t < to
    ensures var after := cycleds[n := Edited(cycleds[n], t, t)];
            var x := cycleds[n].template;
            && Withdrawn(after[n], t)
            && (HasInstanceAt(x, t) ==>
                  FromRules(after, used, users, from, to, u, Brief(x.id, x.calendarId, t, t + x.endTime - x.startTime)))
            && (EveryDay(x, c, r) && x.endTime >= x.startTime && t == x.startTime + MS_PER_DAY ==> HasInstanceAt(x, t))
  {
    var x := cycleds[n].template;
    if EveryDay(x, c, r) && x.endTime >= x.startTime && t == x.startTime + MS_PER_DAY {
      EveryDayHas(x, c, r, 1, t);
    }
    hide HasInstanceAt, EveryDay;
    var after := cycleds[n := Edited(cycleds[n], t, t)];
    assert after[n] in after && after[n].template == x;
  }

  /** Asked for its first two days at once, the range query shows the first and hides the second, which
      is an instance as well. */
  lemma {:induction false} SecondDayIsHidden(row: CycledRow, c: Cycle, r: Rule, lists: seq<seq<int>>, from: int)
    requires EveryDay(row.template, c, r) && row.template.endTime >= row.template.startTime
    requires from == row.template.startTime
    requires AllTimes(lists, [row], [row.calendarId], from + 2 * MS_PER_DAY)
    ensures HasInstanceAt(row.template, from) && HasInstanceAt(row.template, from + MS_PER_DAY)
    ensures var answer := AddAllFirst([], [row], lists, [row.calendarId], from, from + 2 * MS_PER_DAY);
            Shows(answer, row.template.id, from) && !Shows(answer, row.template.id, from + MS_PER_DAY)
  {
    hide HasInstanceAt, AllTimes, Shows, AddAllFirst, EveryDay, Adds, HasId, Withdrawn, Edited;
    EveryDayHas(row.template, c, r, 0, from);
    EveryDayHas(row.template, c, r, 1, from + MS_PER_DAY);
    var cycleds, others, to := [row], [row.calendarId], from + 2 * MS_PER_DAY;
    RangeShowsIff([], cycleds, lists, others, from, to, row.template.id, from);
    RangeShowsIff([], cycleds, lists, others, from, to, row.template.id, from + MS_PER_DAY);
    NothingFound(row.template.id, from);
    NothingFound(row.template.id, from + MS_PER_DAY);
    FirstIsAdded(row, from, to);
    OnlyFirstAdded(row, from, to, from + MS_PER_DAY);
  }

  lemma {:induction false} FirstIsAdded(row: CycledRow, from: int, to: int)
    requires HasInstanceAt(row.template, from) && row.template.startTime <= from < to
    ensures Adds([row], [row.calendarId], from, to, row.template.id, 0, from)
  {
    hide HasInstanceAt;
  }

  lemma {:induction false} OnlyFirstAdded(row: CycledRow, from: int, to: int, t: int)
    requires HasInstanceAt(row.template, from) && t > from
    ensures forall j :: !Adds([row], [row.calendarId], from, to, row.template.id, j, t)
  {
    hide HasInstanceAt;
    forall j ensures !Adds([row], [row.calendarId], from, to, row.template.id, j, t) {
      assert 0 <= j < 1 ==> [row][j] == row;
    }
  }

  lemma {:induction false} NothingFound(id: int, t: int)
    ensures !Shows([], id, t) && !HasId([], id)
  {}
}
