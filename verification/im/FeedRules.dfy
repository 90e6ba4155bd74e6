/** What one event does to the counters of a conversation, told by the numbers before and after it, for
    any numbers at all. */
module FeedRules {
  import opened ChatLog
  import opened ChatRuns
  import opened ReadRaces
  import opened Unread

  /** A pushed message moves the newest position forward only, and an own message the read position too,
      whose unread count is then cut at that of the newest message. */
  lemma {:induction false} MessageMoves(f: Feed, m: Message, self: int)
    ensures var g := OnMessage(f, m, self);
            var newer, own := m.pos > f.referPos, m.fromId == self && m.pos > f.readPos;
            && g.referPos == (if newer then m.pos else f.referPos)
            && g.referBadge == (if newer then m.badge else f.referBadge)
            && g.readPos == (if own then m.pos else f.readPos)
            && g.readBadge == (if !own then f.readBadge else if m.badge < g.referBadge then m.badge else g.referBadge)
            && g.badge == (if !newer && !own then f.badge
                           else if g.referBadge > g.readBadge then g.referBadge - g.readBadge else 0)
  {}

  /** A reported read position moves the read position forward only. */
  lemma {:induction false} ReadStatusMoves(f: Feed, pos: int, badge: int)
    ensures pos <= f.readPos ==> OnReadStatus(f, pos, badge) == f
    ensures pos > f.readPos ==>
              OnReadStatus(f, pos, badge) == Feed(f.referPos, f.referBadge, pos, badge,
                                                  if f.referBadge > badge then f.referBadge - badge else 0)
  {}

  /** A message of another conversation does not count, and of one that is not listed neither. */
  lemma {:induction false} WireCounts(feeds: map<int, Feed>, w: Wire, self: int)
    ensures OnWire(feeds, w, self).Keys == feeds.Keys
    ensures forall id | id in feeds :: OnWire(feeds, w, self)[id] ==
              if id == w.chatId then OnMessage(feeds[id], w.m, self) else feeds[id]
  {}

  lemma {:induction false} WiresInOrder(feeds: map<int, Feed>, ws: seq<Wire>, w: Wire, self: int)
    ensures OnWires(feeds, [], self) == feeds
    ensures OnWires(feeds, ws + [w], self) == OnWire(OnWires(feeds, ws, self), w, self)
  {
    assert (ws + [w])[..|ws|] == ws;
  }

  /** The server's row takes every message's position, and a reported read position only forward; the
      count kept with it is the newest message's, or the reported one between 0 and that. */
  lemma {:induction false} RowMoves(r: Unread.Row, m: Message, pos: int, badge: int)
    ensures RowOnMessage(r, m) == Unread.Row(m.pos, m.badge, r.readPos, r.readBadge)
    ensures pos <= r.readPos ==> RowOnRead(r, pos, badge) == r
    ensures pos > r.readPos ==>
              var next := RowOnRead(r, pos, badge);
              && next.referPos == r.referPos && next.referBadge == r.referBadge && next.readPos == pos
              && (pos >= r.referPos ==> next.readBadge == r.referBadge)
              && (pos < r.referPos && badge <= r.referBadge && badge >= 0 ==> next.readBadge == badge)
              && (pos < r.referPos && badge > r.referBadge && r.referBadge >= 0 ==> next.readBadge == r.referBadge)
              && (pos < r.referPos && (badge < 0 || r.referBadge < 0) ==> next.readBadge == 0)
  {}

  /** Any message can be announced to the member's row, and a position reported once one not below it was;
      what a report stores it pushes, and nothing when it stores nothing. */
  lemma {:induction false} ServerMoves(log: seq<Message>, s: Server, pos: int)
    requires 0 <= s.seen <= |log|
    ensures Enabled(log, s, Announce(pos)) <==> 1 <= pos <= |log|
    ensures Enabled(log, s, Report(pos)) <==> 1 <= pos <= s.seen
    ensures 1 <= pos <= |log| ==>
              var next, m := Advance(log, s, Announce(pos)), log[pos - 1];
              && next.row == Unread.Row(m.pos, m.badge, s.row.readPos, s.row.readBadge)
              && next.seen == (if pos > s.seen then pos else s.seen) && next.pushes == s.pushes
    ensures 1 <= pos <= s.seen ==>
              var next := Advance(log, s, Report(pos));
              && next.row == RowOnRead(s.row, pos, NonSystem(log, pos)) && next.seen == s.seen
              && next.pushes ==
                 s.pushes + if pos > s.row.readPos then [ReadStatus(pos, next.row.readBadge)] else []
  {}

  /** The first statement of a report only looks, the second writes what was found, and a message may
      come in between. */
  lemma {:induction false} RaceMoves(r: Race, k: int, pos: int, badge: int, m: Message)
    ensures Next(r, LookUp(k, pos, badge)).row == r.row
    ensures pos <= r.row.readPos ==> Next(r, LookUp(k, pos, badge)).held == r.held
    ensures pos > r.row.readPos ==> Next(r, LookUp(k, pos, badge)).held == r.held[k := RowOnRead(r.row, pos, badge)]
    ensures k !in r.held ==> Next(r, Write(k)) == r
    ensures k in r.held ==>
              var row := Unread.Row(r.row.referPos, r.row.referBadge, r.held[k].readPos, r.held[k].readBadge);
              Next(r, Write(k)) == Race(row, r.held - {k})
    ensures Next(r, NewMessage(m)) == Race(Unread.Row(m.pos, m.badge, r.row.readPos, r.row.readBadge), r.held)
  {}
}
