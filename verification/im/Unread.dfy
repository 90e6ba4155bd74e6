/** Unread counts: every client derives them from pushed messages and read positions, which
    arrive late, twice and out of order. */
module Unread {
  import opened Basics
  import opened ChatLog
  import opened ChatRuns

  datatype Feed = Feed(referPos: int, referBadge: int, readPos: int, readBadge: int, badge: int)

  // ---- the client ----

  function OnMessage(f: Feed, m: Message, self: int): Feed {
    var g := if f.referPos < m.pos then f.(referPos := m.pos, referBadge := m.badge) else f;
    var h := if m.fromId == self && g.readPos < m.pos
             then g.(readPos := m.pos, readBadge := Min(m.badge, g.referBadge)) else g;
    if f.referPos < m.pos || (m.fromId == self && f.readPos < m.pos)
    then h.(badge := Max(0, h.referBadge - h.readBadge)) else h
  }

  function OnReadStatus(f: Feed, readPos: int, readBadge: int): Feed {
    if readPos <= f.readPos then f
    else f.(readPos := readPos, readBadge := readBadge, badge := Max(0, f.referBadge - readBadge))
  }

  datatype Wire = Wire(chatId: int, m: Message)

  function OnWire(feeds: map<int, Feed>, w: Wire, self: int): map<int, Feed> {
    if w.chatId in feeds then feeds[w.chatId := OnMessage(feeds[w.chatId], w.m, self)] else feeds
  }

  function OnWires(feeds: map<int, Feed>, ws: seq<Wire>, self: int): map<int, Feed> {
    if ws == [] then feeds else OnWire(OnWires(feeds, ws[..|ws| - 1], self), ws[|ws| - 1], self)
  }

  class FeedStore {
    var feeds: map<int, Feed>
    const self: int

    constructor (self: int)
      ensures feeds == map[] && this.self == self
    {
      feeds := map[];
      this.self := self;
    }

    /** The pass of a merge that moves the conversations' counters. */
    method MergeMessages(ws: seq<Wire>)
      modifies this
      ensures feeds == OnWires(old(feeds), ws, self)
    {
      for n := 0 to |ws|
        invariant feeds == OnWires(old(feeds), ws[..n], self)
      {
        assert ws[..n + 1][..n] == ws[..n];
        var m := ws[n].m;
        if ws[n].chatId in feeds {
          var feed := feeds[ws[n].chatId];
          var changed := false;
          if feed.referPos < m.pos {
            feed := feed.(referPos := m.pos, referBadge := m.badge);
            changed := true;
          }
          if m.fromId == self && feed.readPos < m.pos {
            feed := feed.(readPos := m.pos, readBadge := Min(m.badge, feed.referBadge));
            changed := true;
          }
          if changed {
            feed := feed.(badge := Max(0, feed.referBadge - feed.readBadge));
          }
          feeds := feeds[ws[n].chatId := feed];
        }
      }
      assert ws[..|ws|] == ws;
    }

    method MergeFeedReadStatus(chatId: int, readPos: int, readBadge: int)
      modifies this
      ensures feeds == if chatId in old(feeds)
                       then old(feeds)[chatId := OnReadStatus(old(feeds)[chatId], readPos, readBadge)]
                       else old(feeds)
    {
      if chatId !in feeds {
        return;
      }
      var feed := feeds[chatId];
      if readPos <= feed.readPos {
        assert feeds == feeds[chatId := feed];
        return;
      }
      feeds := feeds[chatId := feed.(readPos := readPos, readBadge := readBadge,
                                     badge := Max(0, feed.referBadge - readBadge))];
    }
  }

  // ---- what any order of deliveries adds up to ----

  datatype Delivery = Pushed(m: Message) | ReadStatus(pos: int, badge: int)

  function Deliver(f: Feed, d: Delivery, self: int): Feed {
    match d
    case Pushed(m) => OnMessage(f, m, self)
    case ReadStatus(pos, badge) => OnReadStatus(f, pos, badge)
  }

  function DeliverAll(f: Feed, ds: seq<Delivery>, self: int): Feed {
    if ds == [] then f else Deliver(DeliverAll(f, ds[..|ds| - 1], self), ds[|ds| - 1], self)
  }

  /** The message has a position of the log and the badge given with it, the read position the log's
      own count. A message pushed again after a recall or a deletion is one too. */
  ghost predicate Truthful(log: seq<Message>, d: Delivery) {
    match d
    case Pushed(m) => 1 <= m.pos <= |log| && m.badge == NonSystem(log, m.pos)
    case ReadStatus(pos, badge) => 0 <= pos <= |log| && badge == NonSystem(log, pos)
  }

  ghost predicate Consistent(log: seq<Message>, f: Feed) {
    && 0 <= f.referPos <= |log| && f.referBadge == NonSystem(log, f.referPos)
    && 0 <= f.readPos <= |log| && f.readBadge == NonSystem(log, f.readPos)
    && f.badge == Max(0, f.referBadge - f.readBadge)
  }

  /** The highest position among the delivered messages, and the highest position read:
      reported as read, or written by this user. */
  function TopPos(ds: seq<Delivery>): int {
    if ds == [] then 0
    else
      var d := ds[|ds| - 1];
      Max(TopPos(ds[..|ds| - 1]), if d.Pushed? then d.m.pos else 0)
  }

  function ReadOf(d: Delivery, self: int): int {
    match d
    case Pushed(m) => if m.fromId == self then m.pos else 0
    case ReadStatus(pos, _) => pos
  }

  function TopRead(ds: seq<Delivery>, self: int): int {
    if ds == [] then 0 else Max(TopRead(ds[..|ds| - 1], self), ReadOf(ds[|ds| - 1], self))
  }

  ghost function Settled(log: seq<Message>, referPos: int, readPos: int): Feed
    requires 0 <= referPos <= |log| && 0 <= readPos <= |log|
  {
    var refer, read := NonSystem(log, referPos), NonSystem(log, readPos);
    Feed(referPos, refer, readPos, read, Max(0, refer - read))
  }

  lemma {:induction false} NonSystemRises(log: seq<Message>, p: nat, q: nat)
    requires p <= q <= |log|
    ensures NonSystem(log, p) <= NonSystem(log, q)
  {
    if p == q {
    } else {
      NonSystemRises(log, p, q - 1);
    }
  }

  lemma {:induction false} DeliverSettles(log: seq<Message>, f: Feed, d: Delivery, self: int)
    requires Consistent(log, f) && Truthful(log, d)
    ensures var referPos := Max(f.referPos, if d.Pushed? then d.m.pos else 0);
            var readPos := Max(f.readPos, ReadOf(d, self));
            && 0 <= referPos <= |log| && 0 <= readPos <= |log|
            && Deliver(f, d, self) == Settled(log, referPos, readPos)
  {
    hide NonSystem;
    if d.Pushed? {
      NonSystemRises(log, d.m.pos, Max(f.referPos, d.m.pos));
    }
  }

  /** Whatever the order, and however often each one arrives: the counters are those of the
      highest position delivered and the highest position read. */
  lemma {:induction false} DeliveriesSettle(log: seq<Message>, f: Feed, ds: seq<Delivery>, self: int)
    requires Consistent(log, f)
    requires forall d | d in ds :: Truthful(log, d)
    ensures var referPos := Max(f.referPos, TopPos(ds));
            var readPos := Max(f.readPos, TopRead(ds, self));
            && 0 <= referPos <= |log| && 0 <= readPos <= |log|
            && DeliverAll(f, ds, self) == Settled(log, referPos, readPos)
  {
    if ds == [] {
    } else {
      var front, d := ds[..|ds| - 1], ds[|ds| - 1];
      assert d in ds;
      DeliveriesSettle(log, f, front, self);
      hide NonSystem, Deliver;
      var g := DeliverAll(f, front, self);
      assert Consistent(log, g);
      DeliverSettles(log, g, d, self);
    }
  }

  lemma {:induction false} TopsAreHighest(ds: seq<Delivery>, self: int)
    ensures forall d | d in ds :: (d.Pushed? ==> d.m.pos <= TopPos(ds)) && ReadOf(d, self) <= TopRead(ds, self)
    ensures TopPos(ds) == 0 || exists d :: d in ds && d.Pushed? && d.m.pos == TopPos(ds)
    ensures TopRead(ds, self) == 0 || exists d :: d in ds && ReadOf(d, self) == TopRead(ds, self)
    ensures TopPos(ds) >= 0 && TopRead(ds, self) >= 0
  {
    if ds == [] {
    } else {
      var front := ds[..|ds| - 1];
      TopsAreHighest(front, self);
      assert forall d :: d in ds <==> d in front || d == ds[|ds| - 1];
    }
  }

  /** Two deliveries that move the counters to the same positions, whatever else they say. */
  predicate SameNews(d: Delivery, e: Delivery, self: int) {
    && (if d.Pushed? then d.m.pos else 0) == (if e.Pushed? then e.m.pos else 0)
    && ReadOf(d, self) == ReadOf(e, self)
  }

  ghost predicate Covers(ds: seq<Delivery>, es: seq<Delivery>, self: int) {
    forall e | e in es :: exists d :: d in ds && SameNews(d, e, self)
  }

  lemma {:induction false} CoversTops(ds: seq<Delivery>, es: seq<Delivery>, self: int)
    requires Covers(ds, es, self)
    ensures TopPos(es) <= TopPos(ds) && TopRead(es, self) <= TopRead(ds, self)
  {
    hide TopPos, TopRead;
    TopsAreHighest(ds, self);
    TopsAreHighest(es, self);
  }

  /** Two devices that start alike and are told the same news, in any order and with any repetition,
      agree on all five numbers; it does not matter whether one of them got a message as it was sent
      and the other as it was recalled. */
  lemma {:induction false} DevicesAgree(log: seq<Message>, f: Feed, ds: seq<Delivery>, es: seq<Delivery>, self: int)
    requires Consistent(log, f)
    requires forall d | d in ds :: Truthful(log, d)
    requires forall e | e in es :: Truthful(log, e)
    requires Covers(ds, es, self) && Covers(es, ds, self)
    ensures DeliverAll(f, ds, self) == DeliverAll(f, es, self)
  {
    hide TopPos, TopRead, DeliverAll, NonSystem, ReadOf, Covers;
    DeliveriesSettle(log, f, ds, self);
    DeliveriesSettle(log, f, es, self);
    CoversTops(ds, es, self);
    CoversTops(es, ds, self);
  }

  /** A recall or a deletion pushes a message of the log again under a new version: no counter
      moves on a device that has it. */
  lemma {:induction false} PushedAgainMovesNothing(log: seq<Message>, f: Feed, ds: seq<Delivery>, m: Message,
                                                   version: int, self: int)
    requires Ranked(log) && Consistent(log, f) && m in log
    requires (forall d | d in ds :: Truthful(log, d)) && Pushed(m) in ds
    ensures DeliverAll(f, ds + [Pushed(m.(version := version))], self) == DeliverAll(f, ds, self)
  {
    hide DeliverAll, NonSystem;
    var again := Pushed(m.(version := version));
    var es := ds + [again];
    assert SameNews(Pushed(m), again, self);
    assert Truthful(log, again);
    forall d | d in ds ensures d in es && SameNews(d, d, self) {}
    DevicesAgree(log, f, ds, es, self);
  }

  predicate Countable(log: seq<Message>, p: int) {
    1 <= p <= |log| && !log[p - 1].system
  }

  /** The positions after `readPos` up to `referPos` that are not system messages. */
  ghost function UnreadPositions(log: seq<Message>, readPos: int, referPos: int): set<int>
    requires referPos <= |log|
  {
    set p | 0 < p <= referPos && readPos < p && Countable(log, p)
  }

  lemma {:induction false} CountsUnread(log: seq<Message>, readPos: nat, referPos: nat)
    requires readPos <= |log| && referPos <= |log|
    ensures |UnreadPositions(log, readPos, referPos)| == Max(0, NonSystem(log, referPos) - NonSystem(log, readPos))
  {
    if referPos <= readPos {
      NonSystemRises(log, referPos, readPos);
      assert UnreadPositions(log, readPos, referPos) == {};
    } else {
      NonSystemRises(log, readPos, referPos - 1);
      CountsUnread(log, readPos, referPos - 1);
      var before := UnreadPositions(log, readPos, referPos - 1);
      if !Countable(log, referPos) {
        assert UnreadPositions(log, readPos, referPos) == before;
      } else {
        assert UnreadPositions(log, readPos, referPos) == before + {referPos};
      }
    }
  }

  /** The badge shown is the number of non-system messages between the two positions, after any
      run of the chat and any delivery of what it sent. */
  lemma {:induction false} BadgeCountsUnread(c: Chat, es: seq<Event>, f: Feed, ds: seq<Delivery>, self: int)
    requires WellNumbered(c)
    requires Consistent(Run(c, es).log, f)
    requires forall d | d in ds :: Truthful(Run(c, es).log, d)
    ensures var log, g := Run(c, es).log, DeliverAll(f, ds, self);
            && g.referPos >= f.referPos && g.readPos >= f.readPos
            && 0 <= g.referPos <= |log| && 0 <= g.readPos <= |log|
            && g.badge == |UnreadPositions(log, g.readPos, g.referPos)|
            && g.referBadge - g.readBadge == NonSystem(log, g.referPos) - NonSystem(log, g.readPos)
  {
    hide Run, NonSystem, UnreadPositions, TopPos, TopRead, DeliverAll;
    PositionsAreExact(c, es);
    var log, g := Run(c, es).log, DeliverAll(f, ds, self);
    DeliveriesSettle(log, f, ds, self);
    CountsUnread(log, g.readPos, g.referPos);
  }

  // ---- the server's feed row ----

  /** One member's row for the chat. */
  datatype Row = Row(referPos: int, referBadge: int, readPos: int, readBadge: int)

  /** A new message overwrites the newest position, whatever it was. */
  function RowOnMessage(r: Row, m: Message): Row {
    r.(referPos := m.pos, referBadge := m.badge)
  }

  function ReadBadgeFor(r: Row, pos: int, readBadge: int): int {
    if pos >= r.referPos then r.referBadge else Max(Min(readBadge, r.referBadge), 0)
  }

  function RowOnRead(r: Row, pos: int, readBadge: int): Row {
    if pos <= r.readPos then r else r.(readPos := pos, readBadge := ReadBadgeFor(r, pos, readBadge))
  }

  /** The rows of one chat, by member. */
  class FeedTable {
    var rows: map<int, Row>

    method UpdateByNewMessage(memberIds: seq<int>, m: Message)
      modifies this
      ensures rows.Keys == old(rows).Keys
      ensures forall u | u in rows ::
        rows[u] == if u in memberIds then RowOnMessage(old(rows)[u], m) else old(rows)[u]
    {
      rows := map u | u in rows ::
        if u in memberIds then rows[u].(referPos := m.pos, referBadge := m.badge) else rows[u];
    }

    /** Advances a member's read position; what comes back is pushed to their devices. */
    method UpdateReadPos(user: int, pos: int, readBadge: int) returns (pushed: Option<Delivery>)
      modifies this
      ensures pushed.Some? <==> user in old(rows) && pos > old(rows)[user].readPos
      ensures rows == if user in old(rows) then old(rows)[user := RowOnRead(old(rows)[user], pos, readBadge)]
                      else old(rows)
      ensures pushed.Some? ==> pushed.value == ReadStatus(rows[user].readPos, rows[user].readBadge)
    {
      if user !in rows {
        return None;
      }
      var row := rows[user];
      if pos <= row.readPos {
        assert rows == rows[user := row];
        return None;
      }
      var badge := readBadge;
      if pos >= row.referPos {
        badge := row.referBadge;
      } else {
        badge := Max(Min(readBadge, row.referBadge), 0);
      }
      rows := rows[user := row.(readPos := pos, readBadge := badge)];
      return Some(ReadStatus(pos, badge));
    }
  }

  /** The row of one member, and every read position it pushed. */
  datatype Server = Server(row: Row, seen: int, pushes: seq<Delivery>)

  /** The row is updated for the message at a position, or the member reports a position read. */
  datatype Act = Announce(pos: int) | Report(pos: int)

  /** A message is pushed to the member only after their row was updated for it, so a device
      reports positions that were announced before. */
  predicate Enabled(log: seq<Message>, s: Server, a: Act) {
    match a
    case Announce(pos) => 1 <= pos <= |log|
    case Report(pos) => 1 <= pos <= s.seen
  }

  ghost function Advance(log: seq<Message>, s: Server, a: Act): Server
    requires 0 <= s.seen <= |log| && Enabled(log, s, a)
  {
    match a
    case Announce(pos) => s.(row := RowOnMessage(s.row, log[pos - 1]), seen := Max(s.seen, pos))
    case Report(pos) =>
      var row := RowOnRead(s.row, pos, NonSystem(log, pos));
      s.(row := row, pushes := s.pushes + if row == s.row then [] else [ReadStatus(row.readPos, row.readBadge)])
  }

  ghost predicate RowHolds(log: seq<Message>, s: Server) {
    && 0 <= s.row.referPos <= |log| && s.row.referBadge == NonSystem(log, s.row.referPos)
    && 0 <= s.row.readPos <= |log|
    && s.row.referPos <= s.seen <= |log|
  }

  ghost predicate Path(log: seq<Message>, states: seq<Server>, acts: seq<Act>) {
    && |states| == |acts| + 1
    && RowHolds(log, states[0]) && states[0].pushes == []
    && (forall n | 0 <= n < |acts| ::
          && 0 <= states[n].seen <= |log| && Enabled(log, states[n], acts[n])
          && states[n + 1] == Advance(log, states[n], acts[n]))
  }

  lemma {:induction false} AdvanceKeepsRow(log: seq<Message>, s: Server, a: Act)
    requires Ranked(log) && RowHolds(log, s) && Enabled(log, s, a)
    ensures RowHolds(log, Advance(log, s, a))
  {}

  /** A pushed read position is right exactly when the row has caught up with it, or nothing but
      system messages lies between. */
  lemma {:induction false} PushTruthfulIff(log: seq<Message>, s: Server, pos: int)
    requires RowHolds(log, s) && Enabled(log, s, Report(pos)) && pos > s.row.readPos
    ensures var t := Advance(log, s, Report(pos));
            && |t.pushes| == |s.pushes| + 1
            && (Truthful(log, t.pushes[|s.pushes|])
                <==> pos <= s.row.referPos || NonSystem(log, pos) == NonSystem(log, s.row.referPos))
  {
    hide NonSystem;
    if pos < s.row.referPos {
      NonSystemRises(log, pos, s.row.referPos);
    }
  }

  /** The row updates of the path come in position order. */
  ghost predicate InOrder(states: seq<Server>, acts: seq<Act>)
    requires |states| == |acts| + 1
  {
    forall n | 0 <= n < |acts| && acts[n].Announce? :: states[n].row.referPos <= acts[n].pos
  }

  lemma {:induction false} InOrderRow(log: seq<Message>, states: seq<Server>, acts: seq<Act>, n: nat)
    requires Ranked(log) && Path(log, states, acts) && InOrder(states, acts) && n <= |acts|
    requires states[0].row.referPos == states[0].seen
    ensures RowHolds(log, states[n]) && states[n].row.referPos == states[n].seen
    ensures forall d | d in states[n].pushes :: Truthful(log, d)
  {
    if n == 0 {
    } else {
      InOrderRow(log, states, acts, n - 1);
      var s, a := states[n - 1], acts[n - 1];
      AdvanceKeepsRow(log, s, a);
      if a.Report? && a.pos > s.row.readPos {
        PushTruthfulIff(log, s, a.pos);
        hide NonSystem;
        var t := Advance(log, s, a);
        assert t.pushes == s.pushes + [t.pushes[|s.pushes|]];
      }
    }
  }

  /** End to end: with row updates in order, a device that gets any part of what was sent, in any
      order, shows the number of unread messages. */
  lemma {:induction false} InOrderRowsGiveTrueBadges(c: Chat, es: seq<Event>, states: seq<Server>, acts: seq<Act>,
                                                     f: Feed, ds: seq<Delivery>, self: int)
    requires WellNumbered(c)
    requires Path(Run(c, es).log, states, acts) && InOrder(states, acts)
    requires states[0].row.referPos == states[0].seen
    requires Consistent(Run(c, es).log, f)
    requires forall d | d in ds :: if d.Pushed? then Truthful(Run(c, es).log, d) else d in states[|acts|].pushes
    ensures var log, g := Run(c, es).log, DeliverAll(f, ds, self);
            && 0 <= g.referPos <= |log|
            && g.badge == |UnreadPositions(log, g.readPos, g.referPos)|
  {
    hide Run, NonSystem, UnreadPositions, DeliverAll, Advance, RowHolds, Enabled;
    PositionsAreExact(c, es);
    InOrderRow(Run(c, es).log, states, acts, |acts|);
    BadgeCountsUnread(c, es, f, ds, self);
  }

  /** Out of order they do not: two messages, their row updates swapped, both read - and every
      device goes on showing one unread message. */
  lemma {:induction false} SwappedRowsLeaveAnUnread(m1: Message, m2: Message, self: int)
    requires m1 == Message(m1.id, m1.fromId, false, 1, 1, m1.version)
    requires m2 == Message(m2.id, m2.fromId, false, 2, 2, m2.version)
    requires self !in {m1.fromId, m2.fromId}
    ensures exists states: seq<Server>, acts: seq<Act> ::
      && Path([m1, m2], states, acts) && acts == [Announce(2), Announce(1), Report(2)]
      && states[3].pushes == [ReadStatus(2, 1)]
      && DeliverAll(Feed(0, 0, 0, 0, 0), [Pushed(m1), Pushed(m2)] + states[3].pushes, self)
         == Feed(2, 2, 2, 1, 1)
      && UnreadPositions([m1, m2], 2, 2) == {}
  {
    var log := [m1, m2];
    assert NonSystem(log, 1) == 1 && NonSystem(log, 2) == 2;
    var s0 := Server(Row(0, 0, 0, 0), 0, []);
    var acts := [Announce(2), Announce(1), Report(2)];
    var s1 := Advance(log, s0, acts[0]);
    var s2 := Advance(log, s1, acts[1]);
    var s3 := Advance(log, s2, acts[2]);
    var states := [s0, s1, s2, s3];
    assert s3.pushes == [ReadStatus(2, 1)];
    assert Path(log, states, acts);
    var a, b, d := Pushed(m1), Pushed(m2), ReadStatus(2, 1);
    var f := Feed(0, 0, 0, 0, 0);
    var ds := [a, b] + s3.pushes;
    assert ds == [a, b, d];
    assert ds[..2] == [a, b] && [a, b][..1] == [a] && [a][..0] == [];
    assert DeliverAll(f, [], self) == f;
    assert DeliverAll(f, [a], self) == Feed(1, 1, 0, 0, 1);
    assert DeliverAll(f, [a, b], self) == Feed(2, 2, 0, 0, 2);
    assert DeliverAll(f, ds, self) == Deliver(DeliverAll(f, [a, b], self), d, self);
  }
}
