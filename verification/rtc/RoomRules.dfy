/** What each critical section does to the rooms, the peers and the connections, told by the fields
    before and after it. */
module RoomRules {
  import opened Basics
  import opened Signaling

  /** Who is in a room; a room that is not there has nobody in it. */
  function In(t: Tables, r: int): set<int> {
    if r in t.rooms then t.rooms[r].members else {}
  }

  /** Nothing but room `r` may differ. */
  ghost predicate OnlyRoom(was: Tables, next: Tables, r: int) {
    && next.peers == was.peers
    && forall s :: s != r ==> (s in next.rooms <==> s in was.rooms) &&
                              (s in was.rooms ==> next.rooms[s] == was.rooms[s])
  }

  /** Nothing but what is noted of peer `p` may differ. */
  ghost predicate OnlyPeer(was: Tables, next: Tables, p: int) {
    && next.rooms == was.rooms
    && forall q :: q != p ==> (q in next.peers <==> q in was.peers) &&
                              (q in was.peers ==> next.peers[q] == was.peers[q])
  }

  /** Nothing but connection `k` may differ. */
  ghost predicate OnlyConn(was: World, next: World, k: int) {
    forall j :: j != k ==> (j in next.conns <==> j in was.conns) &&
                           (j in was.conns ==> next.conns[j] == was.conns[j])
  }

  /** A registered peer that is not in the room gets in exactly when fewer than four are; nobody is ever
      put out by a join. The first one in becomes the host. A join by anyone who does not get in still
      leaves the room behind, and the connection as it was. */
  lemma {:induction false} JoinAdmitsIff(w: World, k: int, r: int)
    requires k in w.conns && w.conns[k].phase == Idle && w.conns[k].peer.Some?
    ensures Enabled(w, k, Join(r))
    ensures var p, was, next := w.conns[k].peer.value, In(w.t, r), Step(w, k, Join(r));
            && (p in w.t.peers && p !in was ==> (p in In(next.t, r) <==> |was| < 4))
            && In(next.t, r) == (if p in w.t.peers && |was| < 4 then was + {p} else was)
            && r in next.t.rooms && OnlyRoom(w.t, next.t, r) && OnlyConn(w, next, k)
            && next.t.rooms[r].host ==
               (if r !in w.t.rooms || (was == {} && p in w.t.peers) then p else w.t.rooms[r].host)
            && k in next.conns && next.conns[k] ==
               (if p in w.t.peers && p !in was && |was| < 4 then Conn(Some(p), Entered(r)) else w.conns[k])
  {
    var p, was := w.conns[k].peer.value, In(w.t, r);
    assert p in was ==> was + {p} == was;
  }

  /** `next` is in the room and is not the peer, if the room is there and somebody else is in it. */
  predicate Follows(t: Tables, p: int, r: int, next: int) {
    r in t.rooms && t.rooms[r].members != {} && t.rooms[r].members != {p} ==>
      next in t.rooms[r].members && next != p
  }

  /** What a peer's departure does to a room: it is dropped when nobody else is in it, and handed to
      `next` when the peer was its host. */
  ghost predicate Departs(was: Tables, next: Tables, p: int, r: int, heir: int) {
    && OnlyRoom(was, next, r)
    && (r in next.rooms <==> r in was.rooms && exists q :: q in was.rooms[r].members && q != p)
    && (r in next.rooms ==>
          && (forall q :: q in next.rooms[r].members <==> q in was.rooms[r].members && q != p)
          && next.rooms[r].host == (if was.rooms[r].host == p then heir else was.rooms[r].host))
  }

  lemma {:induction false} ExpelDeparts(t: Tables, p: int, r: int, heir: int)
    ensures Departs(t, Expel(t, p, r, heir), p, r, heir)
  {
    if r in t.rooms {
      var left := t.rooms[r].members - {p};
      if exists q :: q in t.rooms[r].members && q != p {
        var q :| q in t.rooms[r].members && q != p;
        assert q in left;
      } else {
        assert left == {};
      }
    }
  }

  lemma {:induction false} LeaveDeparts(w: World, k: int, r: int, heir: int)
    requires k in w.conns && w.conns[k].phase == Idle && w.conns[k].peer.Some?
    requires Follows(w.t, w.conns[k].peer.value, r, heir)
    ensures Enabled(w, k, Leave(r, heir))
    ensures var next := Step(w, k, Leave(r, heir));
            && Departs(w.t, next.t, w.conns[k].peer.value, r, heir)
            && OnlyConn(w, next, k)
            && k in next.conns && next.conns[k] == Conn(w.conns[k].peer, Quitted(false))
  {
    hide Departs, Expel;
    ExpelDeparts(w.t, w.conns[k].peer.value, r, heir);
  }

  lemma {:induction false} CloseQuitDeparts(w: World, k: int, heir: int)
    requires k in w.conns && w.conns[k].phase.Quitting? && w.conns[k].peer.Some?
    requires Follows(w.t, w.conns[k].peer.value, w.conns[k].phase.room, heir)
    ensures Enabled(w, k, CloseQuit(heir))
    ensures var next := Step(w, k, CloseQuit(heir));
            && Departs(w.t, next.t, w.conns[k].peer.value, w.conns[k].phase.room, heir)
            && OnlyConn(w, next, k)
            && k in next.conns && next.conns[k] == Conn(w.conns[k].peer, Quitted(true))
  {
    hide Departs, Expel;
    ExpelDeparts(w.t, w.conns[k].peer.value, w.conns[k].phase.room, heir);
  }

  /** A connection opens without a peer; the first id announced is its peer for good, and announcing
      an id forgets the room noted of it. */
  lemma {:induction false} OpensAndAnnounces(w: World, k: int, p: int)
    ensures k !in w.conns ==>
              && Enabled(w, k, Connect) && Step(w, k, Connect).t == w.t && OnlyConn(w, Step(w, k, Connect), k)
              && k in Step(w, k, Connect).conns && Step(w, k, Connect).conns[k] == Conn(None, Idle)
    ensures k in w.conns && w.conns[k].phase == Idle ==>
              && Enabled(w, k, New(p))
              && var next := Step(w, k, New(p));
                 && OnlyPeer(w.t, next.t, p) && p in next.t.peers && next.t.peers[p] == None
                 && OnlyConn(w, next, k) && k in next.conns
                 && next.conns[k] == Conn(if w.conns[k].peer == None then Some(p) else w.conns[k].peer, Idle)
  {}

  /** A peer that is registered is noted to be in the room it entered, or in none after it left. */
  lemma {:induction false} NotesRoom(w: World, k: int)
    requires k in w.conns && w.conns[k].peer.Some?
    ensures w.conns[k].phase.Entered? ==>
              && Enabled(w, k, JoinNoted)
              && var p, next := w.conns[k].peer.value, Step(w, k, JoinNoted);
                 && OnlyPeer(w.t, next.t, p) && (p in next.t.peers <==> p in w.t.peers)
                 && (p in w.t.peers ==> next.t.peers[p] == Some(w.conns[k].phase.room))
                 && OnlyConn(w, next, k) && k in next.conns && next.conns[k] == Conn(Some(p), Idle)
    ensures w.conns[k].phase.Quitted? ==>
              && Enabled(w, k, LeaveNoted)
              && var p, next := w.conns[k].peer.value, Step(w, k, LeaveNoted);
                 && OnlyPeer(w.t, next.t, p) && (p in next.t.peers <==> p in w.t.peers)
                 && (p in w.t.peers ==> next.t.peers[p] == None)
                 && OnlyConn(w, next, k) && k in next.conns
                 && next.conns[k] == Conn(Some(p), if w.conns[k].phase.closing then Dropping else Idle)
  {}

  /** The room noted of a peer, if it is registered. */
  function NotedOf(t: Tables, p: int): Option<int> {
    if p !in t.peers then None else t.peers[p]
  }

  /** A closing connection looks twice for a room to leave and is gone at the end, with its peer. */
  lemma {:induction false} Closes(w: World, k: int)
    requires k in w.conns
    ensures w.conns[k].phase == Idle ==>
              && Enabled(w, k, Close)
              && var next := Step(w, k, Close);
                 && next.t == w.t && OnlyConn(w, next, k)
                 && (k in next.conns <==> w.conns[k].peer.Some?)
                 && (k in next.conns ==>
                       && next.conns[k].peer == w.conns[k].peer
                       && next.conns[k].phase ==
                          if NotedOf(w.t, w.conns[k].peer.value) == None then Dropping else Checked)
    ensures w.conns[k].phase == Checked && w.conns[k].peer.Some? ==>
              && Enabled(w, k, Recheck)
              && var room, next := NotedOf(w.t, w.conns[k].peer.value), Step(w, k, Recheck);
                 && next.t == w.t && OnlyConn(w, next, k) && k in next.conns
                 && next.conns[k] == Conn(w.conns[k].peer, if room.Some? then Quitting(room.value) else Dropping)
    ensures w.conns[k].phase == Dropping && w.conns[k].peer.Some? ==>
              && Enabled(w, k, CloseDrop)
              && var p, next := w.conns[k].peer.value, Step(w, k, CloseDrop);
                 && OnlyPeer(w.t, next.t, p) && p !in next.t.peers
                 && OnlyConn(w, next, k) && k !in next.conns
  {}

  /** No section is due in any other phase, nor on a connection that is not open. */
  lemma {:induction false} DueOnlyThen(w: World, k: int, a: Action)
    requires Enabled(w, k, a)
    ensures a.Connect? <==> k !in w.conns
    ensures k in w.conns ==>
              var phase := w.conns[k].phase;
              && (a.New? || a.Join? || a.Leave? || a.Close? ==> phase == Idle)
              && (a.JoinNoted? ==> phase.Entered?) && (a.LeaveNoted? ==> phase.Quitted?)
              && (a.Recheck? ==> phase == Checked) && (a.CloseQuit? ==> phase.Quitting?)
              && (a.CloseDrop? ==> phase == Dropping)
              && (a.New? || a.Close? || w.conns[k].peer.Some?)
              && (a.Leave? ==> Follows(w.t, w.conns[k].peer.value, a.r, a.next))
              && (a.CloseQuit? ==> Follows(w.t, w.conns[k].peer.value, phase.room, a.next))
  {}
}
