/** The client's message lists and read states, merged from pushed entities. */
module MessageStore {
  import opened Basics

  const ANNOUNCEMENT := 16

  datatype ReadState = ReadState(id: int, total: int, readCount: int, unreadCount: int, meRead: bool, version: int)

  /** `body` stands for the fields that a list shows and no step looks at. */
  datatype Msg = Msg(id: int, chatId: int, tpy: int, pos: int, status: int, body: int)

  datatype Row = Row(id: int, pos: int, status: int, body: int, read: Option<ReadState>)

  predicate IsAnnouncement(m: Msg) {
    m.tpy == ANNOUNCEMENT && m.id == m.chatId
  }

  // ---- the read-state cache ----

  function ApplyOne(cache: map<int, ReadState>, s: ReadState): map<int, ReadState> {
    if s.id in cache && cache[s.id].version > s.version then cache else cache[s.id := s]
  }

  function ApplyAll(cache: map<int, ReadState>, ss: seq<ReadState>): map<int, ReadState> {
    if ss == [] then cache else ApplyOne(ApplyAll(cache, ss[..|ss| - 1]), ss[|ss| - 1])
  }

  function Cached(cache: map<int, ReadState>, id: int): Option<ReadState> {
    if id in cache then Some(cache[id]) else None
  }

  /** The cache holds, for every message, a newest read state among those it had or was told. */
  lemma {:induction false} CacheIsNewest(cache: map<int, ReadState>, ss: seq<ReadState>, id: int)
    ensures var c := ApplyAll(cache, ss);
      && (id in c <==> id in cache || exists s :: s in ss && s.id == id)
      && (id in c ==> (id in cache && c[id] == cache[id]) || (c[id] in ss && c[id].id == id))
      && (id in cache ==> c[id].version >= cache[id].version)
      && (forall s | s in ss && s.id == id :: c[id].version >= s.version)
  {
    if ss == [] {
    } else {
      var front, last := ss[..|ss| - 1], ss[|ss| - 1];
      CacheIsNewest(cache, front, id);
      assert forall s :: s in ss <==> s in front || s == last;
    }
  }

  ghost predicate Keyed(cache: map<int, ReadState>) {
    forall id | id in cache :: cache[id].id == id
  }

  lemma {:induction false} CacheStaysKeyed(cache: map<int, ReadState>, ss: seq<ReadState>)
    requires Keyed(cache)
    ensures Keyed(ApplyAll(cache, ss))
  {
    if ss == [] {
    } else {
      CacheStaysKeyed(cache, ss[..|ss| - 1]);
    }
  }

  // ---- lists sorted by position, one row per id ----

  function Lookup(rows: seq<Row>, id: int): Option<Row> {
    if rows == [] then None
    else if rows[|rows| - 1].id == id then Some(rows[|rows| - 1])
    else Lookup(rows[..|rows| - 1], id)
  }

  predicate Sorted(rows: seq<Row>) {
    forall i, j | 0 <= i < j < |rows| :: rows[i].pos <= rows[j].pos
  }

  predicate OnePerId(rows: seq<Row>) {
    forall i, j | 0 <= i < j < |rows| :: rows[i].id != rows[j].id
  }

  lemma {:induction false} LookupFinds(rows: seq<Row>, id: int)
    ensures Lookup(rows, id).Some? ==> Lookup(rows, id).value in rows && Lookup(rows, id).value.id == id
    ensures Lookup(rows, id).None? ==> forall r | r in rows :: r.id != id
    ensures OnePerId(rows) ==> forall r | r in rows && r.id == id :: Lookup(rows, id) == Some(r)
  {
    if rows == [] {
    } else {
      LookupFinds(rows[..|rows| - 1], id);
      assert forall r :: r in rows <==> r in rows[..|rows| - 1] || r == rows[|rows| - 1];
    }
  }

  /** A stable sort: a row goes after the rows that are not later than it. */
  function Insert(rows: seq<Row>, row: Row): seq<Row> {
    if rows == [] || rows[|rows| - 1].pos <= row.pos then rows + [row]
    else Insert(rows[..|rows| - 1], row) + [rows[|rows| - 1]]
  }

  function SortByPos(rows: seq<Row>): seq<Row> {
    if rows == [] then [] else Insert(SortByPos(rows[..|rows| - 1]), rows[|rows| - 1])
  }

  lemma {:induction false} Bounded(rows: seq<Row>, row: Row, ins: seq<Row>, pos: int)
    requires multiset(ins) == multiset(rows) + multiset{row}
    requires row.pos <= pos && forall i | 0 <= i < |rows| :: rows[i].pos <= pos
    ensures forall i | 0 <= i < |ins| :: ins[i].pos <= pos
  {
    forall i | 0 <= i < |ins| ensures ins[i].pos <= pos {
      assert ins[i] in multiset(ins);
      assert ins[i] in rows || ins[i] == row;
    }
  }

  lemma {:induction false} InsertKeeps(rows: seq<Row>, row: Row)
    requires Sorted(rows)
    ensures Sorted(Insert(rows, row))
    ensures multiset(Insert(rows, row)) == multiset(rows) + multiset{row}
  {
    if rows == [] || rows[|rows| - 1].pos <= row.pos {
    } else {
      var front, last := rows[..|rows| - 1], rows[|rows| - 1];
      InsertKeeps(front, row);
      assert rows == front + [last];
      Bounded(front, row, Insert(front, row), last.pos);
    }
  }

  lemma {:induction false} SortKeeps(rows: seq<Row>)
    ensures Sorted(SortByPos(rows)) && multiset(SortByPos(rows)) == multiset(rows)
  {
    hide Insert;
    if rows == [] {
    } else {
      SortKeeps(rows[..|rows| - 1]);
      InsertKeeps(SortByPos(rows[..|rows| - 1]), rows[|rows| - 1]);
      assert rows == rows[..|rows| - 1] + [rows[|rows| - 1]];
    }
  }

  /** Reordering keeps one row per id, and what is found under each. */
  lemma {:induction false} ReorderKeeps(rows: seq<Row>, perm: seq<Row>)
    requires OnePerId(rows) && multiset(rows) == multiset(perm)
    ensures OnePerId(perm)
    ensures forall id :: Lookup(perm, id) == Lookup(rows, id)
  {
    forall r ensures r in rows <==> r in perm {
      assert r in multiset(rows) <==> r in multiset(perm);
    }
    forall i, j | 0 <= i < j < |perm| ensures perm[i].id != perm[j].id {
      if perm[i].id == perm[j].id {
        assert perm[i] in rows && perm[j] in rows;
        SameIdSameRow(rows, perm[i], perm[j]);
        TwiceMeansTwo(perm, i, j);
        OnceMeansOne(rows, perm[i]);
      }
    }
    forall id ensures Lookup(perm, id) == Lookup(rows, id) {
      LookupFinds(rows, id);
      LookupFinds(perm, id);
    }
  }

  lemma {:induction false} TwiceMeansTwo(rows: seq<Row>, i: nat, j: nat)
    requires i < j < |rows| && rows[i] == rows[j]
    ensures multiset(rows)[rows[i]] >= 2
  {
    assert rows == rows[..j] + [rows[j]] + rows[j + 1..];
    assert rows[i] in rows[..j];
  }

  lemma {:induction false} SameIdSameRow(rows: seq<Row>, a: Row, b: Row)
    requires OnePerId(rows) && a in rows && b in rows && a.id == b.id
    ensures a == b
  {}

  lemma {:induction false} OnceMeansOne(rows: seq<Row>, a: Row)
    requires OnePerId(rows)
    ensures multiset(rows)[a] <= 1
  {
    if rows == [] {
    } else {
      OnceMeansOne(rows[..|rows| - 1], a);
      var last := rows[|rows| - 1];
      assert rows == rows[..|rows| - 1] + [last];
      if a == last {
        assert a !in rows[..|rows| - 1];
      }
    }
  }

  predicate Rising(rows: seq<Row>) {
    forall i, j | 0 <= i < j < |rows| :: rows[i].pos < rows[j].pos
  }

  lemma {:induction false} SameLast(a: seq<Row>, b: seq<Row>)
    requires Rising(a) && Rising(b) && a != [] && b != []
    requires forall r :: r in a <==> r in b
    ensures a[|a| - 1] == b[|b| - 1]
  {
    var x, y := a[|a| - 1], b[|b| - 1];
    assert x in a && y in b;
    assert x in b && y in a;
  }

  lemma {:induction false} FrontOf(rows: seq<Row>, front: seq<Row>, last: Row, r: Row)
    requires Rising(rows) && rows == front + [last]
    ensures r in front <==> r in rows && r != last
  {
    assert rows[|front|] == last;
    if r in front {
      var i :| 0 <= i < |front| && front[i] == r;
      assert rows[i] == r;
    }
  }

  lemma {:induction false} StrictUnique(a: seq<Row>, b: seq<Row>)
    requires Rising(a) && Rising(b)
    requires forall r :: r in a <==> r in b
    ensures a == b
  {
    if a == [] || b == [] {
      var x := if |b| > 0 then b[0] else if |a| > 0 then a[0] else Row(0, 0, 0, 0, None);
      assert x in b <==> x in a;
    } else {
      SameLast(a, b);
      var fa, fb, last := a[..|a| - 1], b[..|b| - 1], a[|a| - 1];
      assert a == fa + [last] && b == fb + [last];
      forall r ensures r in fa <==> r in fb {
        FrontOf(a, fa, last, r);
        FrontOf(b, fb, last, r);
      }
      StrictUnique(fa, fb);
    }
  }

  // ---- merging ----

  function ListOf(messages: map<int, seq<Row>>, chat: int): seq<Row> {
    if chat in messages then messages[chat] else []
  }

  /** The last message of the batch for this row. */
  function Delivered(ms: seq<Msg>, chat: int, id: int): Option<Msg> {
    if ms == [] then None
    else
      var m := ms[|ms| - 1];
      if m.chatId == chat && m.id == id && !IsAnnouncement(m) then Some(m) else Delivered(ms[..|ms| - 1], chat, id)
  }

  /** The message makes row `id` of the chat: it is of another type than 16, or only named like its chat. */
  predicate MakesRow(m: Msg, chat: int, id: int) {
    m.chatId == chat && m.id == id && (m.tpy != 16 || id != chat)
  }

  lemma {:induction false} DeliveredIsLast(ms: seq<Msg>, chat: int, id: int) returns (k: nat)
    ensures Delivered(ms, chat, id).None? ==> forall j | 0 <= j < |ms| :: !MakesRow(ms[j], chat, id)
    ensures Delivered(ms, chat, id).Some? ==>
              && k < |ms| && MakesRow(ms[k], chat, id) && Delivered(ms, chat, id).value == ms[k]
              && forall j | k < j < |ms| :: !MakesRow(ms[j], chat, id)
  {
    k := 0;
    if ms == [] {
    } else {
      var n := |ms| - 1;
      if MakesRow(ms[n], chat, id) {
        k := n;
      } else {
        k := DeliveredIsLast(ms[..n], chat, id);
        assert forall j | 0 <= j < n :: ms[..n][j] == ms[j];
      }
    }
  }

  function RowFor(m: Msg, cache: map<int, ReadState>): Row {
    Row(m.id, m.pos, m.status, m.body, Cached(cache, m.id))
  }

  function Refreshed(row: Row, cache: map<int, ReadState>): Row {
    if row.id in cache then row.(read := Some(cache[row.id])) else row
  }

  datatype Store = Store(messages: map<int, seq<Row>>, cache: map<int, ReadState>)

  ghost predicate Backed(rows: seq<Row>, cache: map<int, ReadState>) {
    forall i | 0 <= i < |rows| :: rows[i].read == Cached(cache, rows[i].id)
  }

  ghost predicate Tidy(messages: map<int, seq<Row>>) {
    forall c | c in messages :: Sorted(messages[c]) && OnePerId(messages[c])
  }

  ghost predicate Coherent(s: Store) {
    Tidy(s.messages) && Keyed(s.cache) && forall c | c in s.messages :: Backed(s.messages[c], s.cache)
  }

  /** What is found under each id once `ms` and `ss` are merged in. */
  function Expected(s: Store, ms: seq<Msg>, ss: seq<ReadState>, chat: int, id: int): Option<Row> {
    var cache := ApplyAll(s.cache, ss);
    match Delivered(ms, chat, id)
    case Some(m) => Some(RowFor(m, cache))
    case None =>
      match Lookup(ListOf(s.messages, chat), id)
      case Some(row) => Some(Refreshed(row, cache))
      case None => None
  }

  ghost predicate Merged(s: Store, ms: seq<Msg>, ss: seq<ReadState>, t: Store) {
    && Coherent(t)
    && t.cache == ApplyAll(s.cache, ss)
    && forall chat, id :: Lookup(ListOf(t.messages, chat), id) == Expected(s, ms, ss, chat, id)
  }

  lemma {:induction false} ReplaceAt(rows: seq<Row>, i: nat, row: Row, after: seq<Row>)
    requires OnePerId(rows) && i < |rows| && rows[i].id == row.id && after == rows[i := row]
    ensures OnePerId(after)
    ensures forall id :: Lookup(after, id) == if id == row.id then Some(row) else Lookup(rows, id)
  {
    forall id ensures Lookup(after, id) == if id == row.id then Some(row) else Lookup(rows, id) {
      LookupFinds(after, id);
      LookupFinds(rows, id);
      assert after[i] == row;
      if id != row.id {
        forall r ensures r in after && r.id == id <==> r in rows && r.id == id {
          if r in rows && r.id == id {
            var j :| 0 <= j < |rows| && rows[j] == r;
            assert after[j] == r;
          }
        }
      }
    }
  }

  lemma {:induction false} PushNew(rows: seq<Row>, row: Row)
    requires OnePerId(rows) && forall r | r in rows :: r.id != row.id
    ensures OnePerId(rows + [row])
    ensures forall id :: Lookup(rows + [row], id) == if id == row.id then Some(row) else Lookup(rows, id)
  {
    assert (rows + [row])[..|rows|] == rows;
  }

  /** Replaces the row with the message's id or adds one, then sorts. */
  method PlaceRow(existing: seq<Row>, row: Row) returns (rows: seq<Row>)
    requires OnePerId(existing)
    ensures OnePerId(rows) && Sorted(rows)
    ensures forall id :: Lookup(rows, id) == if id == row.id then Some(row) else Lookup(existing, id)
  {
    hide Lookup, Insert;
    var idx := 0;
    while idx < |existing| && existing[idx].id != row.id
      invariant idx <= |existing| && forall i | 0 <= i < idx :: existing[i].id != row.id
    {
      idx := idx + 1;
    }
    var placed;
    if idx < |existing| {
      placed := existing[idx := row];
      ReplaceAt(existing, idx, row, placed);
    } else {
      PushNew(existing, row);
      placed := existing + [row];
    }
    rows := SortByPos(placed);
    SortKeeps(placed);
    ReorderKeeps(placed, rows);
  }

  class Client {
    var messages: map<int, seq<Row>>
    var readStates: map<int, ReadState>

    ghost function Contents(): Store
      reads this
    {
      Store(messages, readStates)
    }

    method ApplyReadStateMap(ss: seq<ReadState>)
      modifies `readStates
      ensures readStates == ApplyAll(old(readStates), ss)
    {
      for n := 0 to |ss|
        invariant readStates == ApplyAll(old(readStates), ss[..n])
      {
        assert ss[..n + 1][..n] == ss[..n];
        if ss[n].id in readStates && readStates[ss[n].id].version > ss[n].version {
          continue;
        }
        readStates := readStates[ss[n].id := ss[n]];
      }
      assert ss[..|ss|] == ss;
    }

    /** The message and read-state part of a merge. */
    method MergeEntity(ms: seq<Msg>, ss: seq<ReadState>)
      requires Coherent(Contents())
      requires forall i, j | 0 <= i < j < |ss| :: ss[i].id != ss[j].id
      modifies this
      ensures Merged(old(Contents()), ms, ss, Contents())
    {
      ghost var was := Contents();
      ApplyReadStateMap(ss);
      for n := 0 to |ms|
        invariant readStates == ApplyAll(was.cache, ss) && Tidy(messages)
        invariant Rebuilt(was, ms[..n], readStates, messages)
      {
        assert ms[..n + 1][..n] == ms[..n];
        if IsAnnouncement(ms[n]) {
          continue;
        }
        var m := ms[n];
        var rows := PlaceRow(ListOf(messages, m.chatId), RowFor(m, readStates));
        messages := messages[m.chatId := rows];
      }
      assert ms[..|ms|] == ms;
      if ss != [] {
        ghost var cache := readStates;
        ApplyReadStateMap(ss);
        AppliedTwice(was.cache, ss);
        assert readStates == cache;
        RefreshAll(was, ms, ss, messages);
        messages := RefreshMap(messages, readStates);
      } else {
        NothingToRefresh(was, ms, messages);
      }
    }
  }

  /** Before the lists are refreshed: delivered rows are new, the others as they were. */
  ghost predicate Rebuilt(s: Store, ms: seq<Msg>, cache: map<int, ReadState>, messages: map<int, seq<Row>>) {
    forall chat, id :: Lookup(ListOf(messages, chat), id)
      == match Delivered(ms, chat, id)
         case Some(m) => Some(RowFor(m, cache))
         case None => Lookup(ListOf(s.messages, chat), id)
  }

  function RefreshList(rows: seq<Row>, cache: map<int, ReadState>): (r: seq<Row>)
    ensures |r| == |rows| && forall i | 0 <= i < |r| :: r[i] == Refreshed(rows[i], cache)
  {
    if rows == [] then []
    else RefreshList(rows[..|rows| - 1], cache) + [Refreshed(rows[|rows| - 1], cache)]
  }

  function RefreshMap(messages: map<int, seq<Row>>, cache: map<int, ReadState>): map<int, seq<Row>> {
    map c | c in messages :: RefreshList(messages[c], cache)
  }

  lemma {:induction false} LookupRefreshed(rows: seq<Row>, cache: map<int, ReadState>, id: int)
    ensures Lookup(RefreshList(rows, cache), id)
      == match Lookup(rows, id) case Some(row) => Some(Refreshed(row, cache)) case None => None
  {
    if rows == [] {
    } else {
      LookupRefreshed(rows[..|rows| - 1], cache, id);
      assert RefreshList(rows, cache)[..|rows| - 1] == RefreshList(rows[..|rows| - 1], cache);
    }
  }

  lemma {:induction false} AppliedIsKept(cache: map<int, ReadState>, ss: seq<ReadState>, k: nat)
    requires k < |ss| && forall i, j | 0 <= i < j < |ss| :: ss[i].id != ss[j].id
    ensures var c := ApplyAll(cache, ss); ss[k].id in c && (c[ss[k].id] == ss[k] || c[ss[k].id].version > ss[k].version)
  {
    if k == |ss| - 1 {
    } else {
      AppliedIsKept(cache, ss[..|ss| - 1], k);
    }
  }

  lemma {:induction false} AppliedAgain(cache: map<int, ReadState>, ss: seq<ReadState>, n: nat)
    requires n <= |ss| && forall i, j | 0 <= i < j < |ss| :: ss[i].id != ss[j].id
    ensures ApplyAll(ApplyAll(cache, ss), ss[..n]) == ApplyAll(cache, ss)
  {
    if n == 0 {
    } else {
      AppliedAgain(cache, ss, n - 1);
      assert ss[..n][..n - 1] == ss[..n - 1];
      AppliedIsKept(cache, ss, n - 1);
    }
  }

  /** Applying one payload twice is applying it once. */
  lemma {:induction false} AppliedTwice(cache: map<int, ReadState>, ss: seq<ReadState>)
    requires forall i, j | 0 <= i < j < |ss| :: ss[i].id != ss[j].id
    ensures ApplyAll(ApplyAll(cache, ss), ss) == ApplyAll(cache, ss)
  {
    AppliedAgain(cache, ss, |ss|);
    assert ss[..|ss|] == ss;
  }

  lemma {:induction false} DeliveredMatches(ms: seq<Msg>, chat: int, id: int)
    ensures Delivered(ms, chat, id).Some? ==>
      Delivered(ms, chat, id).value in ms && Delivered(ms, chat, id).value.id == id
      && Delivered(ms, chat, id).value.chatId == chat && !IsAnnouncement(Delivered(ms, chat, id).value)
    ensures Delivered(ms, chat, id).None? ==>
      forall m | m in ms && m.chatId == chat && m.id == id :: IsAnnouncement(m)
  {
    if ms == [] {
    } else {
      DeliveredMatches(ms[..|ms| - 1], chat, id);
      assert forall m :: m in ms <==> m in ms[..|ms| - 1] || m == ms[|ms| - 1];
    }
  }

  lemma {:induction false} RowOrigin(s: Store, ms: seq<Msg>, cache: map<int, ReadState>,
                                     messages: map<int, seq<Row>>, chat: int, row: Row)
    requires Coherent(s) && Tidy(messages) && Rebuilt(s, ms, cache, messages)
    requires chat in messages && row in messages[chat]
    ensures row.read == Cached(cache, row.id) || row.read == Cached(s.cache, row.id)
  {
    LookupFinds(messages[chat], row.id);
    assert Lookup(ListOf(messages, chat), row.id) == Some(row);
    DeliveredMatches(ms, chat, row.id);
    LookupFinds(ListOf(s.messages, chat), row.id);
  }

  lemma {:induction false} RefreshedIsBacked(s: Store, ms: seq<Msg>, ss: seq<ReadState>,
                                             messages: map<int, seq<Row>>, chat: int)
    requires Coherent(s) && Tidy(messages) && Rebuilt(s, ms, ApplyAll(s.cache, ss), messages) && chat in messages
    ensures Backed(RefreshList(messages[chat], ApplyAll(s.cache, ss)), ApplyAll(s.cache, ss))
  {
    hide ApplyAll, Delivered, Lookup, RefreshList;
    var cache, rows := ApplyAll(s.cache, ss), messages[chat];
    forall i | 0 <= i < |rows| ensures Refreshed(rows[i], cache).read == Cached(cache, rows[i].id) {
      assert rows[i] in rows;
      RowOrigin(s, ms, cache, messages, chat, rows[i]);
      CacheIsNewest(s.cache, ss, rows[i].id);
    }
  }

  lemma {:induction false} RefreshAll(s: Store, ms: seq<Msg>, ss: seq<ReadState>, messages: map<int, seq<Row>>)
    requires Coherent(s) && Tidy(messages) && Rebuilt(s, ms, ApplyAll(s.cache, ss), messages)
    ensures var cache := ApplyAll(s.cache, ss);
      Merged(s, ms, ss, Store(RefreshMap(messages, cache), cache))
  {
    var cache := ApplyAll(s.cache, ss);
    var after := RefreshMap(messages, cache);
    CacheStaysKeyed(s.cache, ss);
    hide ApplyAll, Delivered, Lookup, RefreshList, Backed;
    forall c | c in messages ensures Backed(after[c], cache) {
      RefreshedIsBacked(s, ms, ss, messages, c);
    }
    forall chat, id ensures Lookup(ListOf(after, chat), id) == Expected(s, ms, ss, chat, id) {
      LookupRefreshed(ListOf(messages, chat), cache, id);
      DeliveredMatches(ms, chat, id);
      assert ListOf(after, chat) == RefreshList(ListOf(messages, chat), cache);
    }
  }

  lemma {:induction false} NothingToRefresh(s: Store, ms: seq<Msg>, messages: map<int, seq<Row>>)
    requires Coherent(s) && Tidy(messages) && Rebuilt(s, ms, s.cache, messages)
    ensures Merged(s, ms, [], Store(messages, s.cache))
  {
    forall c | c in messages ensures Backed(messages[c], s.cache) {
      forall i | 0 <= i < |messages[c]| ensures messages[c][i].read == Cached(s.cache, messages[c][i].id) {
        assert messages[c][i] in messages[c];
        RowOrigin(s, ms, s.cache, messages, c, messages[c][i]);
      }
    }
    forall chat, id ensures Lookup(ListOf(messages, chat), id) == Expected(s, ms, [], chat, id) {
      LookupFinds(ListOf(s.messages, chat), id);
    }
  }

  // ---- a merge, row by row ----

  /** What a list shows for an id after a merge: the fields of the last message that makes this row, and
      else the row that was there; with the read state the cache then has, or the row had. */
  lemma {:induction false} RowsAfterMerge(s: Store, ms: seq<Msg>, ss: seq<ReadState>, t: Store, chat: int, id: int)
    returns (k: nat)
    requires Merged(s, ms, ss, t)
    ensures var was, next := Lookup(ListOf(s.messages, chat), id), Lookup(ListOf(t.messages, chat), id);
            if forall j | 0 <= j < |ms| :: !MakesRow(ms[j], chat, id) then
              && (next.Some? <==> was.Some?)
              && (was.Some? ==>
                    next.value == was.value.(read := if id in t.cache then Some(t.cache[id]) else was.value.read))
            else
              && k < |ms| && MakesRow(ms[k], chat, id) && (forall j | k < j < |ms| :: !MakesRow(ms[j], chat, id))
              && next == Some(Row(id, ms[k].pos, ms[k].status, ms[k].body,
                                  if id in t.cache then Some(t.cache[id]) else None))
  {
    k := DeliveredIsLast(ms, chat, id);
    LookupFinds(ListOf(s.messages, chat), id);
  }

  /** The rows at one position, in order. */
  function AtPos(rows: seq<Row>, pos: int): seq<Row> {
    if rows == [] then []
    else
      var last := rows[|rows| - 1];
      AtPos(rows[..|rows| - 1], pos) + (if last.pos == pos then [last] else [])
  }

  lemma {:induction false} InsertIsStable(rows: seq<Row>, row: Row, pos: int)
    requires Sorted(rows)
    ensures AtPos(Insert(rows, row), pos) == AtPos(rows, pos) + (if row.pos == pos then [row] else [])
  {
    if rows == [] || rows[|rows| - 1].pos <= row.pos {
      assert (rows + [row])[..|rows|] == rows;
    } else {
      var front, last := rows[..|rows| - 1], rows[|rows| - 1];
      InsertIsStable(front, row, pos);
      assert (Insert(front, row) + [last])[..|Insert(front, row)|] == Insert(front, row);
    }
  }

  /** Rows at one position keep their order. */
  lemma {:induction false} SortIsStable(rows: seq<Row>, pos: int)
    ensures AtPos(SortByPos(rows), pos) == AtPos(rows, pos)
  {
    hide Insert, AtPos;
    if rows == [] {
    } else {
      var front, last := rows[..|rows| - 1], rows[|rows| - 1];
      SortIsStable(front, pos);
      SortKeeps(front);
      InsertIsStable(SortByPos(front), last, pos);
      AtPosNext(front, last, pos);
      assert rows == front + [last];
    }
  }

  lemma {:induction false} AtPosNext(rows: seq<Row>, row: Row, pos: int)
    ensures AtPos(rows + [row], pos) == AtPos(rows, pos) + (if row.pos == pos then [row] else [])
  {
    assert (rows + [row])[..|rows|] == rows;
  }
}
