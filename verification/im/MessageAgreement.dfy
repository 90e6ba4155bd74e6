/** Two clients that merge pushes into their message lists and read states: when do they end up with
    the same, and what keeps them apart? */
module MessageAgreement {
  import opened Basics
  import opened MessageStore

  // ---- many merges ----

  lemma {:induction false} ApplyConcat(cache: map<int, ReadState>, a: seq<ReadState>, b: seq<ReadState>)
    ensures ApplyAll(cache, a + b) == ApplyAll(ApplyAll(cache, a), b)
  {
    if b == [] {
      assert a + b == a;
    } else {
      ApplyConcat(cache, a, b[..|b| - 1]);
      assert (a + b)[..|a + b| - 1] == a + b[..|b| - 1];
    }
  }

  lemma {:induction false} DeliveredConcat(a: seq<Msg>, b: seq<Msg>, chat: int, id: int)
    ensures Delivered(a + b, chat, id) ==
            if Delivered(b, chat, id).Some? then Delivered(b, chat, id) else Delivered(a, chat, id)
  {
    if b == [] {
      assert a + b == a;
    } else {
      DeliveredConcat(a, b[..|b| - 1], chat, id);
      assert (a + b)[..|a + b| - 1] == a + b[..|b| - 1];
    }
  }

  lemma {:induction false} RowFound(rows: seq<Row>, id: int)
    ensures Lookup(rows, id).Some? ==> Lookup(rows, id).value.id == id
  {
    LookupFinds(rows, id);
  }

  /** Two merges one after the other are one merge of everything they brought. */
  lemma {:induction false} MergedTwice(s: Store, ms: seq<Msg>, ss: seq<ReadState>, t: Store,
                                       ns: seq<Msg>, rs: seq<ReadState>, u: Store)
    requires Merged(s, ms, ss, t) && Merged(t, ns, rs, u)
    ensures Merged(s, ms + ns, ss + rs, u)
  {
    hide ApplyAll, Lookup, Delivered, Coherent;
    ApplyConcat(s.cache, ss, rs);
    forall chat, id
      ensures Lookup(ListOf(u.messages, chat), id) == Expected(s, ms + ns, ss + rs, chat, id)
    {
      DeliveredConcat(ms, ns, chat, id);
      DeliveredMatches(ms, chat, id);
      RowFound(ListOf(s.messages, chat), id);
      CacheIsNewest(t.cache, rs, id);
    }
  }

  datatype Batch = Batch(ms: seq<Msg>, ss: seq<ReadState>)

  /** A client's stores while it merges batch after batch. */
  ghost predicate Merges(stores: seq<Store>, batches: seq<Batch>) {
    && |stores| == |batches| + 1 && Coherent(stores[0])
    && forall n | 0 <= n < |batches| :: Merged(stores[n], batches[n].ms, batches[n].ss, stores[n + 1])
  }

  function AllMessages(batches: seq<Batch>): seq<Msg> {
    if batches == [] then [] else AllMessages(batches[..|batches| - 1]) + batches[|batches| - 1].ms
  }

  function AllStates(batches: seq<Batch>): seq<ReadState> {
    if batches == [] then [] else AllStates(batches[..|batches| - 1]) + batches[|batches| - 1].ss
  }

  lemma {:induction false} NothingMerged(s: Store)
    requires Coherent(s)
    ensures Merged(s, [], [], s)
  {
    forall chat, id
      ensures Lookup(ListOf(s.messages, chat), id) == Expected(s, [], [], chat, id)
    {
      LookupFinds(ListOf(s.messages, chat), id);
    }
  }

  lemma {:induction false} MergesAreOne(stores: seq<Store>, batches: seq<Batch>, n: nat)
    requires Merges(stores, batches) && n <= |batches|
    ensures Merged(stores[0], AllMessages(batches[..n]), AllStates(batches[..n]), stores[n])
  {
    hide Merged, Coherent;
    if n == 0 {
      NothingMerged(stores[0]);
    } else {
      MergesAreOne(stores, batches, n - 1);
      assert batches[..n][..n - 1] == batches[..n - 1];
      MergedTwice(stores[0], AllMessages(batches[..n - 1]), AllStates(batches[..n - 1]), stores[n - 1],
        batches[n - 1].ms, batches[n - 1].ss, stores[n]);
    }
  }

  lemma {:induction false} RunIsOneMerge(stores: seq<Store>, batches: seq<Batch>)
    requires Merges(stores, batches)
    ensures Merged(stores[0], AllMessages(batches), AllStates(batches), stores[|batches|])
  {
    hide Merged, Coherent, AllMessages, AllStates;
    MergesAreOne(stores, batches, |batches|);
    assert batches[..|batches|] == batches;
  }

  // ---- read states ----

  /** What a client was told about read states: what it held for this id, then what it was brought. */
  function Told(s: Store, ss: seq<ReadState>, id: int): seq<ReadState> {
    (if id in s.cache then [s.cache[id]] else []) + ss
  }

  /** Number k is the last read state of greatest version for this id. */
  ghost predicate IsLastNewest(ss: seq<ReadState>, id: int, k: nat) {
    && k < |ss| && ss[k].id == id
    && (forall j | 0 <= j < |ss| && ss[j].id == id :: ss[j].version <= ss[k].version)
    && (forall j | k < j < |ss| && ss[j].id == id :: ss[j].version < ss[k].version)
  }

  ghost predicate Names(ss: seq<ReadState>, id: int) {
    exists k :: 0 <= k < |ss| && ss[k].id == id
  }

  /** The same last read state of greatest version, or none for this id in either. */
  ghost predicate SameLastNewest(ss: seq<ReadState>, rs: seq<ReadState>, id: int) {
    if Names(ss, id) && Names(rs, id)
    then exists k: nat, j: nat :: IsLastNewest(ss, id, k) && IsLastNewest(rs, id, j) && ss[k] == rs[j]
    else !Names(ss, id) && !Names(rs, id)
  }

  lemma {:induction false} AppliedFrom(cache: map<int, ReadState>, ss: seq<ReadState>, id: int)
    ensures Cached(ApplyAll(cache, ss), id) ==
            if id in cache then Cached(ApplyAll(map[id := cache[id]], ss), id) else Cached(ApplyAll(map[], ss), id)
  {
    if ss == [] {
    } else {
      AppliedFrom(cache, ss[..|ss| - 1], id);
    }
  }

  lemma {:induction false} FreshCache(ss: seq<ReadState>, id: int) returns (k: nat)
    ensures id in ApplyAll(map[], ss) <==> Names(ss, id)
    ensures Names(ss, id) ==> IsLastNewest(ss, id, k) && ApplyAll(map[], ss)[id] == ss[k]
  {
    k := 0;
    if ss == [] {
    } else {
      var n := |ss| - 1;
      k := FreshCache(ss[..n], id);
      NamesLast(ss, id);
      if ss[n].id == id && (!Names(ss[..n], id) || ss[k].version <= ss[n].version) {
        forall j | 0 <= j < n && ss[j].id == id
          ensures ss[j].version <= ss[n].version
        {
          assert ss[..n][j] == ss[j];
        }
        k := n;
      }
    }
  }

  lemma {:induction false} NamesLast(ss: seq<ReadState>, id: int)
    requires ss != []
    ensures Names(ss, id) <==> Names(ss[..|ss| - 1], id) || ss[|ss| - 1].id == id
  {
    var front := ss[..|ss| - 1];
    if k :| 0 <= k < |ss| && ss[k].id == id {
      assert k < |front| ==> front[k].id == id;
    }
    if k :| 0 <= k < |front| && front[k].id == id {
      assert ss[k].id == id;
    }
  }

  /** A client's read state for an id is the last of greatest version among what it was told. */
  lemma {:induction false} CacheIsLastNewest(s: Store, ss: seq<ReadState>, id: int) returns (k: nat)
    requires Keyed(s.cache)
    ensures id in ApplyAll(s.cache, ss) <==> Names(Told(s, ss, id), id)
    ensures id in ApplyAll(s.cache, ss) ==>
              IsLastNewest(Told(s, ss, id), id, k) && ApplyAll(s.cache, ss)[id] == Told(s, ss, id)[k]
  {
    k := FreshCache(Told(s, ss, id), id);
    AppliedFrom(s.cache, ss, id);
    if id in s.cache {
      var held := [s.cache[id]];
      ApplyConcat(map[], held, ss);
      assert held[..0] == [];
      assert ApplyAll(map[], held) == map[id := s.cache[id]];
    } else {
      assert Told(s, ss, id) == ss;
    }
  }

  lemma {:induction false} OneLastNewest(ss: seq<ReadState>, id: int, i: nat, j: nat)
    requires IsLastNewest(ss, id, i) && IsLastNewest(ss, id, j)
    ensures i == j
  {
    assert i < j || j < i || i == j;
  }

  /** Whatever two clients held and were brought: they hold the same read state for an id exactly when
      the last one of greatest version is the same. */
  lemma {:induction false} CachesAgreeIff(a: seq<Store>, abs: seq<Batch>, b: seq<Store>, bbs: seq<Batch>, id: int)
    requires Merges(a, abs) && Merges(b, bbs)
    ensures Cached(a[|abs|].cache, id) == Cached(b[|bbs|].cache, id) <==>
            SameLastNewest(Told(a[0], AllStates(abs), id), Told(b[0], AllStates(bbs), id), id)
  {
    hide Names, ApplyAll, AllStates, AllMessages, Told;
    RunIsOneMerge(a, abs);
    RunIsOneMerge(b, bbs);
    var ss, rs := Told(a[0], AllStates(abs), id), Told(b[0], AllStates(bbs), id);
    var k := CacheIsLastNewest(a[0], AllStates(abs), id);
    var j := CacheIsLastNewest(b[0], AllStates(bbs), id);
    if Names(ss, id) && Names(rs, id) && SameLastNewest(ss, rs, id) {
      var k': nat, j': nat :| IsLastNewest(ss, id, k') && IsLastNewest(rs, id, j') && ss[k'] == rs[j'];
      OneLastNewest(ss, id, k, k');
      OneLastNewest(rs, id, j, j');
    }
  }

  // ---- rows ----

  datatype Content = Content(pos: int, status: int, body: int)

  predicate IsFor(m: Msg, chat: int, id: int) {
    m.chatId == chat && m.id == id && !IsAnnouncement(m)
  }

  /** Number k is the last message brought for this row. */
  ghost predicate IsLastFor(ms: seq<Msg>, chat: int, id: int, k: nat) {
    k < |ms| && IsFor(ms[k], chat, id) && forall j | k < j < |ms| :: !IsFor(ms[j], chat, id)
  }

  lemma {:induction false} DeliveredIsLast(ms: seq<Msg>, chat: int, id: int) returns (k: nat)
    ensures Delivered(ms, chat, id).None? <==> forall j | 0 <= j < |ms| :: !IsFor(ms[j], chat, id)
    ensures Delivered(ms, chat, id).Some? ==> IsLastFor(ms, chat, id, k) && Delivered(ms, chat, id) == Some(ms[k])
  {
    k := 0;
    if ms == [] {
    } else {
      var n := |ms| - 1;
      if IsFor(ms[n], chat, id) {
        k := n;
      } else {
        k := DeliveredIsLast(ms[..n], chat, id);
      }
    }
  }

  predicate SameRow(x: seq<Row>, y: seq<Row>, id: int) {
    Lookup(x, id) == Lookup(y, id)
  }

  /** What a row shows: the last message brought for it, whatever the versions say, or else what the
      client had. */
  function Shown(s: Store, ms: seq<Msg>, chat: int, id: int): Option<Content> {
    match Delivered(ms, chat, id)
    case Some(m) => Some(Content(m.pos, m.status, m.body))
    case None =>
      match Lookup(ListOf(s.messages, chat), id)
      case Some(row) => Some(Content(row.pos, row.status, row.body))
      case None => None
  }

  lemma {:induction false} RowShows(s: Store, ms: seq<Msg>, ss: seq<ReadState>, t: Store, chat: int, id: int)
    requires Coherent(s) && Merged(s, ms, ss, t)
    ensures Lookup(ListOf(t.messages, chat), id)
      == match Shown(s, ms, chat, id)
         case Some(c) => Some(Row(id, c.pos, c.status, c.body, Cached(t.cache, id)))
         case None => None
  {
    DeliveredMatches(ms, chat, id);
    LookupFinds(ListOf(s.messages, chat), id);
    CacheIsNewest(s.cache, ss, id);
  }

  /** Two clients show the same under an id exactly when what was last brought for it is the same and,
      if there is anything, so is the last read state of greatest version. */
  lemma {:induction false} RowsAgreeIff(a: seq<Store>, abs: seq<Batch>, b: seq<Store>, bbs: seq<Batch>,
                                        chat: int, id: int)
    requires Merges(a, abs) && Merges(b, bbs)
    ensures var shown, other := Shown(a[0], AllMessages(abs), chat, id), Shown(b[0], AllMessages(bbs), chat, id);
            SameRow(ListOf(a[|abs|].messages, chat), ListOf(b[|bbs|].messages, chat), id) <==>
              shown == other
              && (shown.Some? ==>
                    SameLastNewest(Told(a[0], AllStates(abs), id), Told(b[0], AllStates(bbs), id), id))
  {
    hide Merged, Shown, Lookup, SameLastNewest, AllMessages, AllStates, Coherent;
    RunIsOneMerge(a, abs);
    RunIsOneMerge(b, bbs);
    RowShows(a[0], AllMessages(abs), AllStates(abs), a[|abs|], chat, id);
    RowShows(b[0], AllMessages(bbs), AllStates(bbs), b[|bbs|], chat, id);
    CachesAgreeIff(a, abs, b, bbs, id);
  }

  ghost predicate SameRows(t: Store, u: Store) {
    forall chat, id :: SameRow(ListOf(t.messages, chat), ListOf(u.messages, chat), id)
  }

  /** Nothing was told or brought last that differs. */
  ghost predicate SameNews(s: Store, abs: seq<Batch>, u: Store, bbs: seq<Batch>) {
    && (forall id :: SameLastNewest(Told(s, AllStates(abs), id), Told(u, AllStates(bbs), id), id))
    && (forall chat, id :: Shown(s, AllMessages(abs), chat, id) == Shown(u, AllMessages(bbs), chat, id))
  }

  /** Two clients, whatever they began with and in however many merges: they end with the same read
      states and rows exactly when for every id the last read state of greatest version, and for
      every row the last message brought, are the same. */
  lemma {:induction false} ClientsConvergeIff(a: seq<Store>, abs: seq<Batch>, b: seq<Store>, bbs: seq<Batch>)
    requires Merges(a, abs) && Merges(b, bbs)
    ensures a[|abs|].cache == b[|bbs|].cache && SameRows(a[|abs|], b[|bbs|]) <==> SameNews(a[0], abs, b[0], bbs)
  {
    hide Merged, Shown, SameLastNewest, Coherent, ListOf, Told, Cached, SameRow;
    var t, u := a[|abs|], b[|bbs|];
    SameCaches(t.cache, u.cache);
    if SameNews(a[0], abs, b[0], bbs) {
      forall id ensures Cached(t.cache, id) == Cached(u.cache, id) {
        CachesAgreeIff(a, abs, b, bbs, id);
      }
      forall chat, id ensures SameRow(ListOf(t.messages, chat), ListOf(u.messages, chat), id) {
        RowsAgreeIff(a, abs, b, bbs, chat, id);
      }
    }
    if t.cache == u.cache && SameRows(t, u) {
      forall id ensures SameLastNewest(Told(a[0], AllStates(abs), id), Told(b[0], AllStates(bbs), id), id) {
        CachesAgreeIff(a, abs, b, bbs, id);
      }
      forall chat, id
        ensures Shown(a[0], AllMessages(abs), chat, id) == Shown(b[0], AllMessages(bbs), chat, id)
      {
        RowsAgreeIff(a, abs, b, bbs, chat, id);
      }
    }
  }

  lemma {:induction false} SameCaches(c: map<int, ReadState>, d: map<int, ReadState>)
    ensures c == d <==> forall id :: Cached(c, id) == Cached(d, id)
  {
    if forall id :: Cached(c, id) == Cached(d, id) {
      forall id ensures (id in c <==> id in d) && (id in c ==> c[id] == d[id]) {
        assert Cached(c, id) == Cached(d, id);
      }
    }
  }

  predicate DistinctPositions(rows: seq<Row>) {
    forall i, j | 0 <= i < j < |rows| :: rows[i].pos != rows[j].pos
  }

  lemma {:induction false} SameMembersRise(x: seq<Row>, y: seq<Row>)
    requires Sorted(x) && Sorted(y) && OnePerId(x) && OnePerId(y) && DistinctPositions(x)
    requires forall r :: r in x <==> r in y
    ensures Rising(x) && Rising(y)
  {
    forall i, j | 0 <= i < j < |y|
      ensures y[i].pos < y[j].pos
    {
      assert y[i] in x && y[j] in x && y[i].id != y[j].id;
    }
  }

  lemma {:induction false} SameListIff(x: seq<Row>, y: seq<Row>)
    requires Sorted(x) && Sorted(y) && OnePerId(x) && OnePerId(y) && DistinctPositions(x)
    ensures x == y <==> forall id :: SameRow(x, y, id)
  {
    hide Lookup, Sorted, DistinctPositions;
    if forall id :: SameRow(x, y, id) {
      forall r ensures r in x <==> r in y {
        assert SameRow(x, y, r.id);
        LookupFinds(x, r.id);
        LookupFinds(y, r.id);
      }
      SameMembersRise(x, y);
      StrictUnique(x, y);
    }
  }

  /** The list on the screen, where positions differ: it is the same exactly when the rows are. */
  lemma {:induction false} ListsAgreeIff(a: seq<Store>, abs: seq<Batch>, b: seq<Store>, bbs: seq<Batch>, chat: int)
    requires Merges(a, abs) && Merges(b, bbs)
    requires DistinctPositions(ListOf(a[|abs|].messages, chat))
    ensures ListOf(a[|abs|].messages, chat) == ListOf(b[|bbs|].messages, chat) <==>
            forall id :: SameRow(ListOf(a[|abs|].messages, chat), ListOf(b[|bbs|].messages, chat), id)
  {
    hide Lookup, AllMessages, AllStates, Expected, DistinctPositions;
    RunIsOneMerge(a, abs);
    RunIsOneMerge(b, bbs);
    SameListIff(ListOf(a[|abs|].messages, chat), ListOf(b[|bbs|].messages, chat));
  }

  // ---- what keeps two clients apart ----

  const EMPTY := Store(map[], map[])

  function OneRow(m: Msg): Store {
    Store(map[m.chatId := [RowFor(m, map[])]], map[])
  }

  lemma {:induction false} BringsRow(s: Store, m: Msg)
    requires !IsAnnouncement(m)
    requires s == EMPTY || exists o: Msg :: s == OneRow(o) && o.chatId == m.chatId && o.id == m.id
    ensures Coherent(s) && Merged(s, [m], [], OneRow(m))
  {
    var row := RowFor(m, map[]);
    forall chat, id
      ensures Lookup(ListOf(OneRow(m).messages, chat), id) == Expected(s, [m], [], chat, id)
    {
      assert Delivered([m], chat, id) == if m.chatId == chat && m.id == id then Some(m) else Delivered([], chat, id);
      assert Lookup([row], id) == if m.id == id then Some(row) else Lookup([], id);
      if o: Msg :| s == OneRow(o) && o.chatId == m.chatId && o.id == m.id {
        assert Lookup([RowFor(o, map[])], id) == if o.id == id then Some(RowFor(o, map[])) else Lookup([], id);
      }
    }
  }

  /** A recall pushes the message again with another status. Two clients that get the original and the
      recall, the one in this order and the other the other way round: the second shows the message as
      if it had never been recalled. */
  lemma {:induction false} LateOriginalUndoesRecall(m: Msg, recalled: int)
    requires !IsAnnouncement(m) && recalled != m.status
    ensures var r := m.(status := recalled);
            var here, there := [EMPTY, OneRow(m), OneRow(r)], [EMPTY, OneRow(r), OneRow(m)];
            && Merges(here, [Batch([m], []), Batch([r], [])]) && Merges(there, [Batch([r], []), Batch([m], [])])
            && Lookup(ListOf(here[2].messages, m.chatId), m.id).value.status == recalled
            && Lookup(ListOf(there[2].messages, m.chatId), m.id).value.status == m.status
  {
    hide Merged, Coherent;
    var r := m.(status := recalled);
    BringsRow(EMPTY, m);
    BringsRow(EMPTY, r);
    BringsRow(OneRow(m), r);
    BringsRow(OneRow(r), m);
  }

  /** What a reader other than the sender is pushed of a read state: its counts are missing. */
  function Trimmed(r: ReadState): ReadState {
    ReadState(r.id, 0, 0, 0, r.meRead, r.version)
  }

  function OneState(r: ReadState): Store {
    Store(map[], map[r.id := r])
  }

  lemma {:induction false} BringsState(s: Store, r: ReadState)
    requires s == EMPTY || exists o: ReadState :: s == OneState(o) && o.id == r.id && o.version <= r.version
    ensures Coherent(s) && Merged(s, [], [r], OneState(r))
  {
    assert ApplyAll(s.cache, []) == s.cache;
    assert [r][..0] == [];
    assert ApplyAll(s.cache, [r]) == ApplyOne(s.cache, r) == map[r.id := r];
  }

  /** The trimmed and the full state have one version, so the one that comes later stays: two clients
      that get them in different orders end alike exactly when there was nothing to trim. */
  lemma {:induction false} LaterOfOneVersionStays(r: ReadState)
    ensures var trim := Trimmed(r);
            var here, there := [EMPTY, OneState(r), OneState(trim)], [EMPTY, OneState(trim), OneState(r)];
            && Merges(here, [Batch([], [r]), Batch([], [trim])]) && Merges(there, [Batch([], [trim]), Batch([], [r])])
            && (here[2].cache == there[2].cache <==> r.total == 0 && r.readCount == 0 && r.unreadCount == 0)
  {
    hide Merged, Coherent;
    var trim := Trimmed(r);
    BringsState(EMPTY, r);
    BringsState(EMPTY, trim);
    BringsState(OneState(r), trim);
    BringsState(OneState(trim), r);
    assert OneState(r).cache[r.id] == r && OneState(trim).cache[r.id] == trim;
  }
}
