/** What reaches a device, told in the fields of the stored rows: which packets of a pull are which
    rows, which change of which row stands for an entity, and what a device ends up with. */
module Deliveries {
  import opened Basics
  import opened PipelineTypes
  import opened PipelinePage
  import opened PipelineLayout
  import opened PipelineStore
  import opened PipelineRuns

  /** Number 1057 is the entity-change push. */
  predicate Push(command: int, body: Body) {
    command == 1057 && body.Changes?
  }

  /** Numbers of members, each once, in order. */
  ghost predicate Rise(idx: seq<int>) {
    forall i, j | 0 <= i < j < |idx| :: idx[i] < idx[j]
  }

  // ---- packets that are handed on ----

  /** `idx` numbers the rows from lo to hi that are no entity pushes. */
  ghost predicate Others(rows: seq<Row>, lo: int, hi: int, idx: seq<int>) {
    && Rise(idx)
    && forall j :: j in idx <==> lo <= j < hi && 0 <= j < |rows| && !Push(rows[j].command, rows[j].body)
  }

  /** `pos` numbers the packets that are no entity pushes. */
  ghost predicate OtherPackets(packets: seq<Packet>, pos: seq<int>) {
    && Rise(pos)
    && forall k :: k in pos <==> 0 <= k < |packets| && !Push(packets[k].cmd, packets[k].body)
  }

  /** The packet is the row: sid, command and body. */
  predicate Carries(p: Packet, r: Row) {
    p.rid == r.sid && p.cmd == r.command && p.body == r.body
  }

  lemma {:induction false} RiseMore(idx: seq<int>, n: int)
    requires Rise(idx) && forall j | j in idx :: j < n
    ensures Rise(idx + [n])
  {
    assert forall i | 0 <= i < |idx| :: idx[i] in idx;
  }

  /** `passed` are the rows numbered by `idx`, one to one and in order. */
  ghost predicate AreRows(rows: seq<Row>, idx: seq<int>, passed: seq<Packet>) {
    |idx| == |passed| &&
    forall i | 0 <= i < |idx| :: idx[i] in idx && 0 <= idx[i] < |rows| && Carries(passed[i], rows[idx[i]])
  }

  lemma {:induction false} OneMoreRow(rows: seq<Row>, n: nat, idx: seq<int>, passed: seq<Packet>, p: Packet)
    requires n == |rows| - 1 && Others(rows[..n], 0, n, idx) && AreRows(rows[..n], idx, passed)
    ensures Push(rows[n].command, rows[n].body) ==> Others(rows, 0, |rows|, idx) && AreRows(rows, idx, passed)
    ensures !Push(rows[n].command, rows[n].body) && Carries(p, rows[n]) ==>
              Others(rows, 0, |rows|, idx + [n]) && AreRows(rows, idx + [n], passed + [p])
  {
    hide Push, Carries;
    RiseMore(idx, n);
    forall i | 0 <= i < |idx|
      ensures idx[i] in idx + [n]
    {
      assert (idx + [n])[i] == idx[i];
    }
    assert forall j | 0 <= j < n :: rows[..n][j] == rows[j];
  }

  lemma {:induction false} PassedAre(rows: seq<Row>) returns (idx: seq<int>)
    ensures Others(rows, 0, |rows|, idx) && |idx| == |PassOf(Raw(rows))|
    ensures forall i | 0 <= i < |idx| :: idx[i] in idx && Carries(PassOf(Raw(rows))[i], rows[idx[i]])
  {
    idx := PassedRows(rows);
  }

  lemma {:induction false} PassedRows(rows: seq<Row>) returns (idx: seq<int>)
    ensures Others(rows, 0, |rows|, idx) && AreRows(rows, idx, PassOf(Raw(rows)))
  {
    idx := [];
    if rows == [] {
    } else {
      hide Others, AreRows;
      var n := |rows| - 1;
      RawInit(rows);
      idx := PassedRows(rows[..n]);
      OneMoreRow(rows, n, idx, PassOf(Raw(rows[..n])), ToPacket(rows[n]));
      if !IsEntityPush(ToPacket(rows[n])) {
        idx := idx + [n];
      }
    }
  }

  lemma {:induction false} HandedOn(packets: seq<Packet>) returns (pos: seq<int>)
    ensures OtherPackets(packets, pos) && |pos| == |PassOf(packets)|
    ensures forall i | 0 <= i < |pos| :: pos[i] in pos && PassOf(packets)[i] == packets[pos[i]]
  {
    pos := [];
    if packets == [] {
    } else {
      var n := |packets| - 1;
      var front := packets[..n];
      pos := HandedOn(front);
      forall i | 0 <= i < |pos| ensures pos[i] in pos && packets[pos[i]] == front[pos[i]] {}
      RiseMore(pos, n);
      if !IsEntityPush(packets[n]) {
        pos := pos + [n];
      }
    }
  }

  lemma {:induction false} PassedOfSlice(rows: seq<Row>, lo: nat, hi: nat) returns (idx: seq<int>)
    requires lo <= hi <= |rows|
    ensures Others(rows, lo, hi, idx) && |idx| == |PassOf(Raw(rows[lo..hi]))|
    ensures forall i | 0 <= i < |idx| :: idx[i] in idx && Carries(PassOf(Raw(rows[lo..hi]))[i], rows[idx[i]])
  {
    hide PassOf, Raw;
    var part := rows[lo..hi];
    var inner := PassedAre(part);
    idx := seq(|inner|, i requires 0 <= i < |inner| => inner[i] + lo);
    forall i | 0 <= i < |idx|
      ensures idx[i] in idx && inner[i] in inner && rows[idx[i]] == part[inner[i]]
    {}
    forall j
      ensures j in idx <==> lo <= j < hi && 0 <= j < |rows| && !Push(rows[j].command, rows[j].body)
    {
      ShiftedIn(inner, idx, lo, j);
    }
  }

  lemma {:induction false} ShiftedIn(inner: seq<int>, idx: seq<int>, lo: nat, j: int)
    requires |idx| == |inner| && forall i | 0 <= i < |idx| :: idx[i] == inner[i] + lo
    ensures j in idx <==> j - lo in inner
  {
    if j in idx {
      var i :| 0 <= i < |idx| && idx[i] == j;
      assert inner[i] == j - lo;
    }
    if j - lo in inner {
      var i :| 0 <= i < |inner| && inner[i] == j - lo;
      assert idx[i] == j;
    }
  }

  /** Where the rows with a larger sid begin. */
  ghost predicate SplitsAt(rows: seq<Row>, sid: int, r: nat) {
    && r <= |rows|
    && (forall j | 0 <= j < r :: rows[j].sid <= sid)
    && (forall j | r <= j < |rows| :: rows[j].sid > sid)
  }

  lemma {:induction false} OneSplit(rows: seq<Row>, sid: int, r: nat, r0: nat)
    requires SplitsAt(rows, sid, r) && SplitsAt(rows, sid, r0)
    ensures r == r0
  {
    var _ := (if r < |rows| then rows[r].sid else sid, if r0 < |rows| then rows[r0].sid else sid);
  }

  lemma {:induction false} WindowIs(rows: seq<Row>, cursor: int, load: nat) returns (r: nat, hi: nat)
    requires Ascending(rows)
    ensures SplitsAt(rows, cursor, r) && r <= hi <= |rows| && hi == (if r + load < |rows| then r + load else |rows|)
    ensures FindBySid(rows, cursor, load) == rows[r..hi]
  {
    hide Newer, Rank;
    NewerIsSuffix(rows, cursor);
    RankSplits(rows, cursor);
    r := Rank(rows, cursor);
    hi := if r + load < |rows| then r + load else |rows|;
    assert rows[r..] == rows[r..|rows|];
  }

  /** The packets of a pull that are no entity pushes are, one to one and in order, the rows of the
      window that are none: sid, command and body. */
  lemma {:induction false} PullCarriesRows(rows: seq<Row>, watermark: int, cursor: int, load: nat)
    returns (r: nat, idx: seq<int>, pos: seq<int>)
    requires Ascending(rows) && cursor > 0 && cursor >= watermark
    ensures SplitsAt(rows, cursor, r) && Others(rows, r, r + load, idx)
    ensures var packets := Reply(rows, watermark, cursor, load).packets;
            && OtherPackets(packets, pos) && |pos| == |idx|
            && forall i | 0 <= i < |pos| ::
                 pos[i] in pos && idx[i] in idx && Carries(packets[pos[i]], rows[idx[i]])
  {
    hide PagePackets, PassOf, Raw, FindBySid;
    var hi: nat;
    r, hi := WindowIs(rows, cursor, load);
    var packets := PagePackets(rows[r..hi]);
    PageProjections(rows[r..hi]);
    idx := PassedOfSlice(rows, r, hi);
    pos := HandedOn(packets);
  }

  /** The rest of the answer, by the cursor asked with: nothing known yet, expired, or a page. */
  lemma {:induction false} PullAnswers(rows: seq<Row>, watermark: int, cursor: int, load: nat)
    requires Ascending(rows)
    ensures var reply := Reply(rows, watermark, cursor, load);
            && reply.minSid == watermark
            && (reply.expired <==> cursor != 0 && cursor < watermark)
            && (cursor == 0 || cursor < watermark ==>
                  !reply.hasMore && reply.packets == []
                  && (if rows == [] then reply.sid == 0 else reply.sid == rows[|rows| - 1].sid))
            && (cursor != 0 && cursor >= watermark ==>
                  reply.sid == if reply.packets == [] then cursor else reply.packets[|reply.packets| - 1].rid)
            && (cursor != 0 && cursor >= watermark ==> forall r: nat :: SplitsAt(rows, cursor, r) ==>
                  (reply.hasMore <==> load > 0 && |rows| - r >= load))
  {
    hide PagePackets, FindBySid;
    var r0, hi := WindowIs(rows, cursor, load);
    forall r: nat | SplitsAt(rows, cursor, r)
      ensures r == r0
    {
      OneSplit(rows, cursor, r, r0);
    }
  }

  /** `idx` numbers the rows of a sid range that are no entity pushes. */
  ghost predicate OthersBetween(rows: seq<Row>, from: int, to: int, idx: seq<int>) {
    && Rise(idx)
    && forall j :: j in idx <==>
         0 <= j < |rows| && from < rows[j].sid <= to && !Push(rows[j].command, rows[j].body)
  }

  lemma {:induction false} SliceOf(rows: seq<Row>, from: int, to: int) returns (lo: nat, hi: nat)
    requires Ascending(rows) && from <= to
    ensures lo <= hi <= |rows| && Between(rows, from, to) == rows[lo..hi]
    ensures forall j | 0 <= j < |rows| :: lo <= j < hi <==> from < rows[j].sid <= to
  {
    hide Between, Rank;
    BetweenIsSlice(rows, from, to);
    RankSplits(rows, from);
    RankSplits(rows, to);
    lo, hi := Rank(rows, from), Rank(rows, to);
  }

  /** In every run the packets a device has received, other than entity pushes, are one to one and in
      order the rows of the log between its start and its cursor that are none. */
  lemma {:induction false} DeviceHoldsRows(events: seq<Event>, id: int) returns (idx: seq<int>)
    requires id in Run(events).devices
    ensures var u, dev := Run(events), Run(events).devices[id];
            && OthersBetween(u.log, dev.start, dev.cursor, idx) && |dev.view.passed| == |idx|
            && forall i | 0 <= i < |idx| :: idx[i] in idx && Carries(dev.view.passed[i], u.log[idx[i]])
  {
    hide Run, PassOf, Raw, Between, Fold, ChangesOf, Replay;
    RunSound(events);
    DevicesHoldTheLog(events, id);
    var u, dev := Run(events), Run(events).devices[id];
    var lo, hi := SliceOf(u.log, dev.start, dev.cursor);
    idx := PassedOfSlice(u.log, lo, hi);
  }

  // ---- changes that are merged ----

  /** Change i of row j is one of an entity push among the rows from lo to hi. */
  predicate ChangeAt(rows: seq<Row>, lo: int, hi: int, j: int, i: int) {
    && 0 <= lo <= j < hi && j < |rows|
    && Push(rows[j].command, rows[j].body) && 0 <= i < |rows[j].body.changes|
  }

  /** The pair comes earlier in the log. */
  predicate Earlier(j: int, i: int, j1: int, i1: int) {
    j < j1 || (j == j1 && i < i1)
  }

  /** Both changes are about one entity. */
  predicate SameEntity(a: Change, b: Change) {
    a.tpy == b.tpy && a.id == b.id
  }

  /** Of the changes of its entity none has a larger version and no earlier one has the same. */
  ghost predicate Best(rows: seq<Row>, lo: int, hi: int, j: int, i: int) {
    && ChangeAt(rows, lo, hi, j, i)
    && forall j1, i1 ::
         ChangeAt(rows, lo, hi, j1, i1) && SameEntity(rows[j1].body.changes[i1], rows[j].body.changes[i]) ==>
           && rows[j1].body.changes[i1].version <= rows[j].body.changes[i].version
           && (Earlier(j1, i1, j, i) ==> rows[j1].body.changes[i1].version < rows[j].body.changes[i].version)
  }

  /** Change m of packet k. */
  predicate ItemAt(packets: seq<Packet>, k: int, m: int) {
    && 0 <= k < |packets| && Push(packets[k].cmd, packets[k].body)
    && 0 <= m < |packets[k].body.changes|
  }

  /** How many changes the packets before number k carry. */
  function Ahead(packets: seq<Packet>, k: nat): nat
    requires k <= |packets|
  {
    |ChangesOf(packets[..k])|
  }

  lemma {:induction false} AheadNext(packets: seq<Packet>, k: nat)
    requires k < |packets|
    ensures ChangesOf(packets[..k + 1]) ==
            ChangesOf(packets[..k]) +
            (if Push(packets[k].cmd, packets[k].body) then packets[k].body.changes else [])
  {
    assert packets[..k + 1][..k] == packets[..k];
  }

  lemma {:induction false} AheadGrows(packets: seq<Packet>, k: nat, n: nat)
    requires k <= n <= |packets|
    ensures ChangesOf(packets[..k]) <= ChangesOf(packets[..n])
    decreases n
  {
    hide ChangesOf;
    if k == n {
    } else {
      AheadGrows(packets, k, n - 1);
      AheadNext(packets, n - 1);
    }
  }

  lemma {:induction false} Placed(packets: seq<Packet>, k: int, m: int)
    requires ItemAt(packets, k, m)
    ensures Ahead(packets, k) + m < |ChangesOf(packets)|
    ensures ChangesOf(packets)[Ahead(packets, k) + m] == packets[k].body.changes[m]
  {
    hide ChangesOf;
    AheadNext(packets, k);
    AheadGrows(packets, k + 1, |packets|);
    assert packets[..|packets|] == packets;
    var upTo := ChangesOf(packets[..k + 1]);
    assert upTo[Ahead(packets, k) + m] == packets[k].body.changes[m];
  }

  lemma {:induction false} PlacedInOrder(packets: seq<Packet>, k: int, m: int, k1: int, m1: int)
    requires ItemAt(packets, k, m) && ItemAt(packets, k1, m1)
    ensures Earlier(k, m, k1, m1) <==> Ahead(packets, k) + m < Ahead(packets, k1) + m1
  {
    hide ChangesOf;
    AheadNext(packets, k);
    AheadNext(packets, k1);
    if k < k1 {
      AheadGrows(packets, k + 1, k1);
    } else if k1 < k {
      AheadGrows(packets, k1 + 1, k);
    }
  }

  lemma {:induction false} Located(packets: seq<Packet>, n: nat) returns (k: int, m: int)
    requires n < |ChangesOf(packets)|
    ensures ItemAt(packets, k, m) && n == Ahead(packets, k) + m
    ensures ChangesOf(packets)[n] == packets[k].body.changes[m]
  {
    var last := |packets| - 1;
    var front := packets[..last];
    AheadNext(packets, last);
    assert packets[..last + 1] == packets;
    if n < |ChangesOf(front)| {
      k, m := Located(front, n);
      assert front[..k] == packets[..k];
    } else {
      k, m := last, n - |ChangesOf(front)|;
    }
  }

  lemma {:induction false} RowItem(rows: seq<Row>, lo: int, hi: int, j: int, i: int)
    requires 0 <= lo <= hi <= |rows|
    ensures ItemAt(Raw(rows[lo..hi]), j - lo, i) <==> ChangeAt(rows, lo, hi, j, i)
    ensures ChangeAt(rows, lo, hi, j, i) ==> Raw(rows[lo..hi])[j - lo].body == rows[j].body
  {}

  /** What the merge keeps of a stretch of rows is, for every entity, its best change there. */
  lemma {:induction false} BestKept(rows: seq<Row>, lo: int, hi: int, key: Key) returns (j: int, i: int)
    requires 0 <= lo <= hi <= |rows|
    ensures var kept := Fold(map[], ChangesOf(Raw(rows[lo..hi])));
            && (key in kept ==>
                  && Best(rows, lo, hi, j, i) && kept[key] ==
                     Kept(rows[j].body.changes[i].version, rows[j].body.changes[i].operate)
                  && key == Key(rows[j].body.changes[i].tpy, rows[j].body.changes[i].id))
            && (key !in kept ==> forall j1, i1 :: ChangeAt(rows, lo, hi, j1, i1) ==>
                  key != Key(rows[j1].body.changes[i1].tpy, rows[j1].body.changes[i1].id))
  {
    hide ChangesOf, Fold, Raw;
    var packets := Raw(rows[lo..hi]);
    var changes := ChangesOf(packets);
    var n := FoldKeepsFirstMax(changes, key);
    j, i := 0, 0;
    if key in Fold(map[], changes) {
      var k: int;
      k, i := Located(packets, n);
      j := k + lo;
      RowItem(rows, lo, hi, j, i);
      forall j1, i1 | ChangeAt(rows, lo, hi, j1, i1) && SameEntity(rows[j1].body.changes[i1], rows[j].body.changes[i])
        ensures rows[j1].body.changes[i1].version <= rows[j].body.changes[i].version
        ensures Earlier(j1, i1, j, i) ==> rows[j1].body.changes[i1].version < rows[j].body.changes[i].version
      {
        RowItem(rows, lo, hi, j1, i1);
        Placed(packets, j1 - lo, i1);
        PlacedInOrder(packets, j1 - lo, i1, k, i);
      }
    } else {
      forall j1, i1 | ChangeAt(rows, lo, hi, j1, i1)
        ensures key != Key(rows[j1].body.changes[i1].tpy, rows[j1].body.changes[i1].id)
      {
        RowItem(rows, lo, hi, j1, i1);
        Placed(packets, j1 - lo, i1);
      }
    }
  }

  lemma {:induction false} ListedItem(packets: seq<Packet>, kept: Merged, k: int, m: int)
    requires Lists(ChangesOf(packets), kept) && ItemAt(packets, k, m)
    ensures var c := packets[k].body.changes[m];
            Key(c.tpy, c.id) in kept && kept[Key(c.tpy, c.id)] == Kept(c.version, c.operate)
  {
    hide ChangesOf;
    Placed(packets, k, m);
  }

  lemma {:induction false} KeyIsListed(packets: seq<Packet>, kept: Merged, key: Key) returns (k: int, m: int)
    requires Lists(ChangesOf(packets), kept) && key in kept
    ensures ItemAt(packets, k, m) && key == Key(packets[k].body.changes[m].tpy, packets[k].body.changes[m].id)
  {
    hide ChangesOf;
    var n :| 0 <= n < |ChangesOf(packets)| && ChangesOf(packets)[n].Target() == key;
    k, m := Located(packets, n);
  }

  lemma {:induction false} ItemsAscend(packets: seq<Packet>, k: int, m: int, k1: int, m1: int)
    requires KeysAscend(ChangesOf(packets))
    requires ItemAt(packets, k, m) && ItemAt(packets, k1, m1) && Earlier(k, m, k1, m1)
    ensures var a, b := packets[k].body.changes[m], packets[k1].body.changes[m1];
            a.tpy < b.tpy || (a.tpy == b.tpy && a.id < b.id)
  {
    hide ChangesOf;
    Placed(packets, k, m);
    Placed(packets, k1, m1);
    PlacedInOrder(packets, k, m, k1, m1);
  }

  lemma {:induction false} PageOf(rows: seq<Row>, watermark: int, cursor: int, load: nat)
    returns (r: nat, hi: nat, kept: Merged)
    requires Ascending(rows) && cursor > 0 && cursor >= watermark
    ensures SplitsAt(rows, cursor, r) && r <= hi <= |rows|
    ensures hi == (if r + load < |rows| then r + load else |rows|)
    ensures kept == Fold(map[], ChangesOf(Raw(rows[r..hi])))
    ensures var packets := Reply(rows, watermark, cursor, load).packets;
            KeysAscend(ChangesOf(packets)) && Lists(ChangesOf(packets), kept)
  {
    hide PagePackets, FindBySid, ChangesOf, Raw, Fold, SortedChanges, KeysAscend, Lists;
    r, hi := WindowIs(rows, cursor, load);
    kept := Fold(map[], ChangesOf(Raw(rows[r..hi])));
    PageProjections(rows[r..hi]);
    SortedChangesList(kept);
  }

  /** Every change sent is the best of its entity among the rows from lo to hi. */
  ghost predicate OnlyBest(packets: seq<Packet>, rows: seq<Row>, lo: int, hi: int) {
    forall k, m :: ItemAt(packets, k, m) ==>
      exists j, i :: Best(rows, lo, hi, j, i) && packets[k].body.changes[m] == rows[j].body.changes[i]
  }

  /** Of every entity changed in the rows from lo to hi a change is sent. */
  ghost predicate EveryEntity(packets: seq<Packet>, rows: seq<Row>, lo: int, hi: int) {
    forall j, i :: ChangeAt(rows, lo, hi, j, i) ==>
      exists k, m :: ItemAt(packets, k, m) && SameEntity(packets[k].body.changes[m], rows[j].body.changes[i])
  }

  /** Type and id rise from one change sent to the next, within a packet and across packets. */
  ghost predicate ItemsRise(packets: seq<Packet>) {
    forall k, m, k1, m1 :: ItemAt(packets, k, m) && ItemAt(packets, k1, m1) && Earlier(k, m, k1, m1) ==>
      var a, b := packets[k].body.changes[m], packets[k1].body.changes[m1];
      a.tpy < b.tpy || (a.tpy == b.tpy && a.id < b.id)
  }

  lemma {:induction false} ListsOnlyBest(packets: seq<Packet>, rows: seq<Row>, lo: int, hi: int)
    requires 0 <= lo <= hi <= |rows| && Lists(ChangesOf(packets), Fold(map[], ChangesOf(Raw(rows[lo..hi]))))
    ensures OnlyBest(packets, rows, lo, hi)
  {
    hide ChangesOf, Raw, Fold, Lists;
    var kept := Fold(map[], ChangesOf(Raw(rows[lo..hi])));
    forall k, m | ItemAt(packets, k, m)
      ensures exists j, i :: Best(rows, lo, hi, j, i) && packets[k].body.changes[m] == rows[j].body.changes[i]
    {
      ListedItem(packets, kept, k, m);
      var c := packets[k].body.changes[m];
      var j, i := BestKept(rows, lo, hi, Key(c.tpy, c.id));
    }
  }

  lemma {:induction false} ListsEveryEntity(packets: seq<Packet>, rows: seq<Row>, lo: int, hi: int)
    requires 0 <= lo <= hi <= |rows| && Lists(ChangesOf(packets), Fold(map[], ChangesOf(Raw(rows[lo..hi]))))
    ensures EveryEntity(packets, rows, lo, hi)
  {
    hide ChangesOf, Raw, Fold, Lists;
    var kept := Fold(map[], ChangesOf(Raw(rows[lo..hi])));
    forall j, i | ChangeAt(rows, lo, hi, j, i)
      ensures exists k, m :: ItemAt(packets, k, m) && SameEntity(packets[k].body.changes[m], rows[j].body.changes[i])
    {
      var c := rows[j].body.changes[i];
      var _, _ := BestKept(rows, lo, hi, Key(c.tpy, c.id));
      var k, m := KeyIsListed(packets, kept, Key(c.tpy, c.id));
    }
  }

  lemma {:induction false} ListRises(packets: seq<Packet>)
    requires KeysAscend(ChangesOf(packets))
    ensures ItemsRise(packets)
  {
    hide ChangesOf, KeysAscend;
    forall k, m, k1, m1 | ItemAt(packets, k, m) && ItemAt(packets, k1, m1) && Earlier(k, m, k1, m1)
      ensures var a, b := packets[k].body.changes[m], packets[k1].body.changes[m1];
              a.tpy < b.tpy || (a.tpy == b.tpy && a.id < b.id)
    {
      ItemsAscend(packets, k, m, k1, m1);
    }
  }

  lemma {:induction false} BestStays(rows: seq<Row>, lo: int, hi: int, hi1: int)
    requires hi <= hi1 && (hi1 == hi || hi == |rows|)
    ensures forall j, i :: ChangeAt(rows, lo, hi, j, i) <==> ChangeAt(rows, lo, hi1, j, i)
    ensures forall j, i :: Best(rows, lo, hi, j, i) ==> Best(rows, lo, hi1, j, i)
  {}

  /** The entity pushes of a pull: every change in them is the best of its entity among the rows of
      the window, every entity changed in the window is there, and type and id rise from one change
      to the next, so none comes twice. */
  lemma {:induction false} PullCarriesChanges(rows: seq<Row>, watermark: int, cursor: int, load: nat)
    returns (r: nat)
    requires Ascending(rows) && cursor > 0 && cursor >= watermark
    ensures SplitsAt(rows, cursor, r)
    ensures var packets := Reply(rows, watermark, cursor, load).packets;
            OnlyBest(packets, rows, r, r + load) && EveryEntity(packets, rows, r, r + load) && ItemsRise(packets)
  {
    hide Reply, ChangesOf, Raw, Fold, KeysAscend, Lists, SplitsAt, ItemAt, ItemsRise, ChangeAt, Best;
    var hi: nat, kept: Merged;
    r, hi, kept := PageOf(rows, watermark, cursor, load);
    var packets := Reply(rows, watermark, cursor, load).packets;
    ListsOnlyBest(packets, rows, r, hi);
    ListsEveryEntity(packets, rows, r, hi);
    ListRises(packets);
    BestStays(rows, r, hi, r + load);
  }

  /** Row j is the last entity push among the rows from lo to hi. */
  ghost predicate LastPush(rows: seq<Row>, lo: int, hi: int, j: int) {
    && 0 <= lo <= j < hi && j < |rows| && Push(rows[j].command, rows[j].body)
    && forall j1 | j < j1 < hi && j1 < |rows| :: !Push(rows[j1].command, rows[j1].body)
  }

  /** Every push sent bears the sid of the last push row, carries up to 2048 changes and exactly as
      many when another follows, and lies behind the other packets whose rid is not larger. */
  ghost predicate PushesPlaced(packets: seq<Packet>, rows: seq<Row>, lo: int, hi: int) {
    forall k | 0 <= k < |packets| && Push(packets[k].cmd, packets[k].body) ::
      && 0 < |packets[k].body.changes| <= 2048
      && (exists j :: LastPush(rows, lo, hi, j) && packets[k].rid == rows[j].sid)
      && forall k1 | 0 <= k1 < |packets| ::
           if Push(packets[k1].cmd, packets[k1].body) then k < k1 ==> |packets[k].body.changes| == 2048
           else k1 < k <==> packets[k1].rid <= packets[k].rid
  }

  lemma {:induction false} SlotOf(passed: seq<Packet>, merged: seq<Packet>, rid: int) returns (s: nat)
    requires RidsAscend(passed) && forall p | p in passed :: !IsEntityPush(p)
    requires forall p | p in merged :: IsEntityPush(p)
    ensures var all := Emit(passed, merged, rid);
            && s + |merged| <= |all|
            && forall k | 0 <= k < |all| ::
                 && (IsEntityPush(all[k]) <==> s <= k < s + |merged|)
                 && (k < s ==> all[k].rid <= rid) && (s + |merged| <= k ==> all[k].rid > rid)
                 && (s <= k < s + |merged| ==> all[k] == merged[k - s])
  {
    hide SlotAfter;
    s := SlotAfter(passed, rid);
    SlotSplits(passed, rid);
    var all := Emit(passed, merged, rid);
    forall k | 0 <= k < |all|
      ensures if k < s then all[k] in passed[..s] && all[k] in passed
              else if k < s + |merged| then all[k] in merged && all[k] == merged[k - s]
              else all[k] in passed[s..] && all[k] in passed
    {
      if s + |merged| <= k {
        assert all[k] == passed[s..][k - s - |merged|];
      }
    }
  }

  lemma {:induction false} MergedAre(rid: int, changes: seq<Change>)
    ensures var merged := PushAll(rid, Chunks(changes));
            && (forall p | p in merged :: IsEntityPush(p) && p.rid == rid)
            && forall k | 0 <= k < |merged| ::
                 && merged[k].body.Changes? && 0 < |merged[k].body.changes| <= 2048
                 && (k < |merged| - 1 ==> |merged[k].body.changes| == 2048)
  {
    ChunksShape(changes);
  }

  lemma {:induction false} PagePlaced(rows: seq<Row>, lo: nat, hi: nat)
    requires Ascending(rows) && lo <= hi <= |rows|
    ensures PushesPlaced(PagePackets(rows[lo..hi]), rows, lo, hi)
  {
    hide Chunks, ChangesOf, Raw, Fold, PassOf, LastMergedSid, SortedChanges, PushAll, Emit;
    var part := rows[lo..hi];
    var changes, rid := SortedChanges(Fold(map[], ChangesOf(Raw(part)))), LastMergedSid(part);
    var merged := PushAll(rid, Chunks(changes));
    PassedFollowRows(part);
    PassIsPlain(Raw(part));
    MergedAre(rid, changes);
    var s := SlotOf(PassOf(Raw(part)), merged, rid);
    var packets := PagePackets(part);
    forall k | 0 <= k < |packets| && Push(packets[k].cmd, packets[k].body)
      ensures s <= k < s + |merged| && packets[k] == merged[k - s]
      ensures exists j :: LastPush(rows, lo, hi, j) && packets[k].rid == rows[j].sid
      ensures forall k1 | 0 <= k1 < |packets| ::
                if Push(packets[k1].cmd, packets[k1].body) then k < k1 ==> |packets[k].body.changes| == 2048
                else k1 < k <==> packets[k1].rid <= packets[k].rid
    {
      assert IsEntityPush(packets[k]);
      assert packets[k] == merged[k - s] && merged[k - s] in merged;
      var j := LastPushFound(rows, lo, hi);
      forall k1 | 0 <= k1 < |packets|
        ensures Push(packets[k1].cmd, packets[k1].body) <==> s <= k1 < s + |merged|
      {
        assert IsEntityPush(packets[k1]) <==> s <= k1 < s + |merged|;
      }
    }
  }

  lemma {:induction false} LastPushFound(rows: seq<Row>, lo: nat, hi: nat) returns (j: int)
    requires lo <= hi <= |rows| && MergedPackets(rows[lo..hi]) != []
    ensures LastPush(rows, lo, hi, j) && rows[j].sid == LastMergedSid(rows[lo..hi])
  {
    hide MergedPackets, ChangesOf, LastMergedSid;
    var part := rows[lo..hi];
    MergedPacketsEmpty(part);
    ChangesOfRows(part);
    var n := LastMerged(part);
    j := lo + n;
    forall j1 | j < j1 < hi
      ensures !Push(rows[j1].command, rows[j1].body)
    {
      assert part[j1 - lo] == rows[j1];
    }
  }

  /** Where the pushes of a pull lie, how full they are and which rid they bear. */
  lemma {:induction false} PullPlacesPushes(rows: seq<Row>, watermark: int, cursor: int, load: nat)
    returns (r: nat)
    requires Ascending(rows) && cursor > 0 && cursor >= watermark
    ensures SplitsAt(rows, cursor, r)
    ensures PushesPlaced(Reply(rows, watermark, cursor, load).packets, rows, r, r + load)
  {
    hide PagePackets, FindBySid;
    var hi: nat;
    r, hi := WindowIs(rows, cursor, load);
    PagePlaced(rows, r, hi);
    forall j | LastPush(rows, r, hi, j)
      ensures LastPush(rows, r, r + load, j)
    {}
  }

  /** What is kept of an entity are version and operation of its best change. */
  ghost predicate KeepsBest(kept: Merged, rows: seq<Row>, lo: int, hi: int) {
    && (forall key :: key in kept ==> exists j, i ::
          && Best(rows, lo, hi, j, i)
          && kept[key] == Kept(rows[j].body.changes[i].version, rows[j].body.changes[i].operate)
          && key == Key(rows[j].body.changes[i].tpy, rows[j].body.changes[i].id))
    && (forall j, i :: ChangeAt(rows, lo, hi, j, i) ==>
          Key(rows[j].body.changes[i].tpy, rows[j].body.changes[i].id) in kept)
  }

  lemma {:induction false} FoldKeepsBest(rows: seq<Row>, lo: int, hi: int)
    requires 0 <= lo <= hi <= |rows|
    ensures KeepsBest(Fold(map[], ChangesOf(Raw(rows[lo..hi]))), rows, lo, hi)
  {
    hide ChangesOf, Raw, Fold;
    var kept := Fold(map[], ChangesOf(Raw(rows[lo..hi])));
    forall key | key in kept
      ensures exists j, i ::
                && Best(rows, lo, hi, j, i)
                && kept[key] == Kept(rows[j].body.changes[i].version, rows[j].body.changes[i].operate)
                && key == Key(rows[j].body.changes[i].tpy, rows[j].body.changes[i].id)
    {
      var j, i := BestKept(rows, lo, hi, key);
    }
    forall j, i | ChangeAt(rows, lo, hi, j, i)
      ensures Key(rows[j].body.changes[i].tpy, rows[j].body.changes[i].id) in kept
    {
      var _, _ := BestKept(rows, lo, hi, Key(rows[j].body.changes[i].tpy, rows[j].body.changes[i].id));
    }
  }

  /** In every run what a device keeps of an entity is its best change among the rows of the log
      between the device's start and its cursor, and it keeps something of exactly those entities. */
  lemma {:induction false} DeviceHoldsBest(events: seq<Event>, id: int) returns (lo: nat, hi: nat)
    requires id in Run(events).devices
    ensures var u, dev := Run(events), Run(events).devices[id];
            && (forall j | 0 <= j < |u.log| :: lo <= j < hi <==> dev.start < u.log[j].sid <= dev.cursor)
            && KeepsBest(dev.view.kept, u.log, lo, hi)
  {
    hide Run, PassOf, Raw, Between, Fold, ChangesOf, Replay, KeepsBest;
    RunSound(events);
    DevicesHoldTheLog(events, id);
    var u, dev := Run(events), Run(events).devices[id];
    lo, hi := SliceOf(u.log, dev.start, dev.cursor);
    FoldKeepsBest(u.log, lo, hi);
  }
}
