/** Meeting rooms: two tables behind separate locks, changed in several critical sections per
    request. Each method here is one critical section. */
module Signaling {
  import opened Basics

  const MAX_PEERS_PER_ROOM := 4

  datatype Room = Room(host: int, members: set<int>)

  /** Rooms by room id; for every registered peer, the room they are noted to be in. */
  datatype Tables = Tables(rooms: map<int, Room>, peers: map<int, Option<int>>)

  datatype Verdict = Admitted | RoomFull | AlreadyIn | PeerNotFound

  function RoomFor(t: Tables, p: int, r: int): Room {
    if r in t.rooms then t.rooms[r] else Room(p, {})
  }

  function Judge(t: Tables, p: int, r: int): Verdict {
    var room := RoomFor(t, p, r);
    if |room.members| >= MAX_PEERS_PER_ROOM then RoomFull
    else if p in room.members then AlreadyIn
    else if p !in t.peers then PeerNotFound
    else Admitted
  }

  /** A refused join still creates a room that was not there. */
  function Admit(t: Tables, p: int, r: int): Tables {
    var room := RoomFor(t, p, r);
    t.(rooms := t.rooms[r :=
      if Judge(t, p, r) == Admitted
      then Room(if room.members == {} then p else room.host, room.members + {p})
      else room])
  }

  /** `next` is the first of the hash map's remaining keys. */
  predicate CanFollow(t: Tables, p: int, r: int, next: int) {
    r in t.rooms && t.rooms[r].members != {p} && t.rooms[r].members != {} ==>
      next in t.rooms[r].members - {p}
  }

  function Expel(t: Tables, p: int, r: int, next: int): Tables {
    if r !in t.rooms then t
    else
      var left := t.rooms[r].members - {p};
      if left == {} then t.(rooms := t.rooms - {r})
      else t.(rooms := t.rooms[r := Room(if t.rooms[r].host == p then next else t.rooms[r].host, left)])
  }

  function Noted(t: Tables, p: int): Option<int> {
    if p in t.peers then t.peers[p] else None
  }

  function Note(t: Tables, p: int, room: Option<int>): Tables {
    if p in t.peers then t.(peers := t.peers[p := room]) else t
  }

  function Register(t: Tables, p: int): Tables {
    t.(peers := t.peers[p := None])
  }

  function Unregister(t: Tables, p: int): Tables {
    t.(peers := t.peers - {p})
  }

  class Signaler {
    var rooms: map<int, Room>
    var peers: map<int, Option<int>>

    ghost function Contents(): Tables
      reads this
    {
      Tables(rooms, peers)
    }

    method NewPeer(p: int)
      modifies `peers
      ensures Contents() == Register(old(Contents()), p)
    {
      peers := peers[p := None];
    }

    /** The first half of a join, under the room lock. */
    method EnterRoom(p: int, r: int) returns (v: Verdict)
      modifies `rooms
      ensures v == Judge(old(Contents()), p, r)
      ensures Contents() == Admit(old(Contents()), p, r)
      ensures var was := if r in old(rooms) then old(rooms)[r].members else {};
              && (v == RoomFull <==> |was| >= 4)
              && (v == AlreadyIn <==> |was| < 4 && p in was)
              && (v == PeerNotFound <==> |was| < 4 && p !in was && p !in peers)
              && r in rooms && rooms[r].members == if v == Admitted then was + {p} else was
    {
      if r !in rooms {
        rooms := rooms[r := Room(p, {})];
      }
      var room := rooms[r];
      assert rooms == rooms[r := room];
      if |room.members| >= MAX_PEERS_PER_ROOM {
        return RoomFull;
      }
      if p in room.members {
        return AlreadyIn;
      }
      if p !in peers {
        return PeerNotFound;
      }
      if room.members == {} {
        room := room.(host := p);
      }
      rooms := rooms[r := room.(members := room.members + {p})];
      return Admitted;
    }

    /** The second half of a join or a leave, under the peer lock. */
    method NoteRoom(p: int, room: Option<int>)
      modifies `peers
      ensures Contents() == Note(old(Contents()), p, room)
    {
      if p in peers {
        peers := peers[p := room];
      }
    }

    method RoomOf(p: int) returns (room: Option<int>)
      ensures room == Noted(Contents(), p)
    {
      room := if p in peers then peers[p] else None;
    }

    /** The first half of a leave; tells whether the room was removed. */
    method QuitRoom(p: int, r: int, next: int) returns (removed: bool)
      requires CanFollow(Contents(), p, r, next)
      modifies `rooms
      ensures Contents() == Expel(old(Contents()), p, r, next)
      ensures removed <==> r in old(rooms) && r !in rooms
      ensures removed <==> r in old(rooms) && old(rooms)[r].members - {p} == {}
    {
      if r !in rooms {
        return false;
      }
      var room := rooms[r].(members := rooms[r].members - {p});
      if room.members == {} {
        rooms := rooms - {r};
        return true;
      }
      if room.host == p {
        room := room.(host := next);
      }
      rooms := rooms[r := room];
      return false;
    }

    method DropPeer(p: int)
      modifies `peers
      ensures Contents() == Unregister(old(Contents()), p)
    {
      peers := peers - {p};
    }
  }

  // ---- connections ----

  /** Where a connection stands between critical sections. */
  datatype Phase = Idle | Entered(room: int) | Quitted(closing: bool) | Checked | Quitting(room: int) | Dropping

  datatype Conn = Conn(peer: Option<int>, phase: Phase)

  datatype World = World(t: Tables, conns: map<int, Conn>)

  datatype Action =
    | Connect
    | New(p: int)
    | Join(r: int)
    | JoinNoted
    | Leave(r: int, next: int)
    | LeaveNoted
    | Close
    | Recheck
    | CloseQuit(next: int)
    | CloseDrop

  predicate Enabled(w: World, k: int, a: Action) {
    if a.Connect? then k !in w.conns
    else
      && k in w.conns
      && var c := w.conns[k];
         match a
         case New(_) => c.phase == Idle
         case Join(_) => c.phase == Idle && c.peer.Some?
         case JoinNoted => c.phase.Entered? && c.peer.Some?
         case Leave(r, next) => c.phase == Idle && c.peer.Some? && CanFollow(w.t, c.peer.value, r, next)
         case LeaveNoted => c.phase.Quitted? && c.peer.Some?
         case Close => c.phase == Idle
         case Recheck => c.phase == Checked && c.peer.Some?
         case CloseQuit(next) =>
           c.phase.Quitting? && c.peer.Some? && CanFollow(w.t, c.peer.value, c.phase.room, next)
         case CloseDrop => c.phase == Dropping && c.peer.Some?
         case Connect => false
  }

  function At(w: World, t: Tables, k: int, c: Conn): World {
    World(t, w.conns[k := c])
  }

  /** One critical section of connection `k`. */
  function Step(w: World, k: int, a: Action): World
    requires Enabled(w, k, a)
  {
    if a.Connect? then At(w, w.t, k, Conn(None, Idle))
    else
      var c := w.conns[k];
      match a
      case Connect => w
      case New(p) => At(w, Register(w.t, p), k, if c.peer.None? then c.(peer := Some(p)) else c)
      case Join(r) =>
        At(w, Admit(w.t, c.peer.value, r), k,
           if Judge(w.t, c.peer.value, r) == Admitted then c.(phase := Entered(r)) else c)
      case JoinNoted => At(w, Note(w.t, c.peer.value, Some(c.phase.room)), k, c.(phase := Idle))
      case Leave(r, next) => At(w, Expel(w.t, c.peer.value, r, next), k, c.(phase := Quitted(false)))
      case LeaveNoted =>
        At(w, Note(w.t, c.peer.value, None), k, c.(phase := if c.phase.closing then Dropping else Idle))
      case Close =>
        if c.peer.None? then World(w.t, w.conns - {k})
        else At(w, w.t, k, c.(phase := if Noted(w.t, c.peer.value).Some? then Checked else Dropping))
      case Recheck =>
        var room := Noted(w.t, c.peer.value);
        At(w, w.t, k, c.(phase := if room.Some? then Quitting(room.value) else Dropping))
      case CloseQuit(next) => At(w, Expel(w.t, c.peer.value, c.phase.room, next), k, c.(phase := Quitted(true)))
      case CloseDrop => World(Unregister(w.t, c.peer.value), w.conns - {k})
  }

  /** One critical section, whichever is due: the signaler and the table of connections do what the
      step says. */
  method Perform(signaler: Signaler, conns: map<int, Conn>, k: int, a: Action) returns (after: map<int, Conn>)
    requires Enabled(World(signaler.Contents(), conns), k, a)
    modifies signaler
    ensures World(signaler.Contents(), after) == Step(World(old(signaler.Contents()), conns), k, a)
  {
    if a.Connect? {
      return conns[k := Conn(None, Idle)];
    }
    hide Judge, Admit, Expel, Note, Noted, Register, Unregister, CanFollow;
    var c := conns[k];
    match a
    case New(p) =>
      signaler.NewPeer(p);
      after := conns[k := if c.peer.None? then c.(peer := Some(p)) else c];
    case Join(r) =>
      var v := signaler.EnterRoom(c.peer.value, r);
      after := conns[k := if v == Admitted then c.(phase := Entered(r)) else c];
    case JoinNoted =>
      signaler.NoteRoom(c.peer.value, Some(c.phase.room));
      after := conns[k := c.(phase := Idle)];
    case Leave(r, next) =>
      var _ := signaler.QuitRoom(c.peer.value, r, next);
      after := conns[k := c.(phase := Quitted(false))];
    case LeaveNoted =>
      signaler.NoteRoom(c.peer.value, None);
      after := conns[k := c.(phase := if c.phase.closing then Dropping else Idle)];
    case Close =>
      if c.peer.None? {
        after := conns - {k};
      } else {
        var room := signaler.RoomOf(c.peer.value);
        after := conns[k := c.(phase := if room.Some? then Checked else Dropping)];
      }
    case Recheck =>
      var room := signaler.RoomOf(c.peer.value);
      after := conns[k := c.(phase := if room.Some? then Quitting(room.value) else Dropping)];
    case CloseQuit(next) =>
      var _ := signaler.QuitRoom(c.peer.value, c.phase.room, next);
      after := conns[k := c.(phase := Quitted(true))];
    case CloseDrop =>
      signaler.DropPeer(c.peer.value);
      after := conns - {k};
  }

  datatype Act = Act(k: int, a: Action)

  /** Any interleaving of critical sections. */
  ghost predicate Trace(ws: seq<World>, acts: seq<Act>) {
    && |ws| == |acts| + 1
    && forall n | 0 <= n < |acts| ::
         Enabled(ws[n], acts[n].k, acts[n].a) && ws[n + 1] == Step(ws[n], acts[n].k, acts[n].a)
  }

  const EMPTY := World(Tables(map[], map[]), map[])

  // ---- every interleaving: at most four peers, the host among them ----

  ghost predicate RoomSound(room: Room) {
    |room.members| <= MAX_PEERS_PER_ROOM && (room.members != {} ==> room.host in room.members)
  }

  ghost predicate RoomsSound(t: Tables) {
    forall r | r in t.rooms :: RoomSound(t.rooms[r])
  }

  lemma {:induction false} AdmitSound(t: Tables, p: int, r: int)
    requires RoomsSound(t)
    ensures RoomsSound(Admit(t, p, r))
  {}

  lemma {:induction false} ExpelSound(t: Tables, p: int, r: int, next: int)
    requires RoomsSound(t) && CanFollow(t, p, r, next)
    ensures RoomsSound(Expel(t, p, r, next))
  {
    if r in t.rooms {
      var was := t.rooms[r].members;
      assert p in was ==> |was - {p}| == |was| - 1;
      assert p !in was ==> was - {p} == was;
    }
  }

  lemma {:induction false} StepKeepsRooms(w: World, k: int, a: Action)
    requires Enabled(w, k, a) && RoomsSound(w.t)
    ensures RoomsSound(Step(w, k, a).t)
  {
    hide Admit, Expel, CanFollow, RoomSound;
    match a
    case Join(r) => AdmitSound(w.t, w.conns[k].peer.value, r);
    case Leave(r, next) => ExpelSound(w.t, w.conns[k].peer.value, r, next);
    case CloseQuit(next) => ExpelSound(w.t, w.conns[k].peer.value, w.conns[k].phase.room, next);
    case _ =>
  }

  /** Even when several connections share a peer id. */
  lemma {:induction false} RoomsStaySound(ws: seq<World>, acts: seq<Act>, n: nat)
    requires Trace(ws, acts) && RoomsSound(ws[0].t) && n <= |acts|
    ensures RoomsSound(ws[n].t)
  {
    if n == 0 {
    } else {
      hide RoomsSound, Step, Enabled;
      RoomsStaySound(ws, acts, n - 1);
      StepKeepsRooms(ws[n - 1], acts[n - 1].k, acts[n - 1].a);
    }
  }

  // ---- one connection per peer id ----

  function RoomsWith(rooms: map<int, Room>, p: int): set<int> {
    set r | r in rooms && p in rooms[r].members
  }

  /** A connection announces one peer id, which no other open connection has. */
  ghost predicate OwnId(w: World, k: int, a: Action)
    requires Enabled(w, k, a)
  {
    a.New? ==>
      if w.conns[k].peer.Some? then w.conns[k].peer == Some(a.p)
      else forall j | j in w.conns :: w.conns[j].peer != Some(a.p)
  }

  ghost predicate Distinct(w: World) {
    forall j, k | j in w.conns && k in w.conns && w.conns[j].peer.Some? && w.conns[j].peer == w.conns[k].peer :: j == k
  }

  /** What holds of a connection at each of its phases. */
  ghost predicate Linked(t: Tables, c: Conn) {
    if c.peer.None? then c.phase == Idle
    else
      var p := c.peer.value;
      && p in t.peers
      && (!c.phase.Quitted? && Noted(t, p).Some? ==> Noted(t, p).value in RoomsWith(t.rooms, p))
      && (c.phase.Entered? ==> c.phase.room in RoomsWith(t.rooms, p))
      && (c.phase.Dropping? ==> Noted(t, p).None?)
      && (c.phase.Checked? ==> Noted(t, p).Some?)
      && (c.phase.Quitting? ==> Noted(t, p) == Some(c.phase.room))
  }

  ghost predicate Orderly(w: World) {
    && Distinct(w)
    && (forall r | r in w.t.rooms :: w.t.rooms[r].members != {})
    && (forall k | k in w.conns :: Linked(w.t, w.conns[k]))
  }

  lemma {:induction false} AdmitRooms(t: Tables, p: int, r: int, q: int)
    ensures RoomsWith(Admit(t, p, r).rooms, q)
      == RoomsWith(t.rooms, q) + (if q == p && Judge(t, p, r) == Admitted then {r} else {})
  {}

  lemma {:induction false} ExpelRooms(t: Tables, p: int, r: int, next: int, q: int)
    ensures RoomsWith(Expel(t, p, r, next).rooms, q) == RoomsWith(t.rooms, q) - (if q == p then {r} else {})
  {
    var after := Expel(t, p, r, next).rooms;
    forall s ensures s in RoomsWith(after, q) <==> s in RoomsWith(t.rooms, q) && !(q == p && s == r) {
      if r in t.rooms && s == r && q != p {
        assert q in t.rooms[r].members ==> q in t.rooms[r].members - {p};
      }
    }
  }

  /** A step by one peer leaves the memberships and the note of every other peer alone. */
  lemma {:induction false} OthersUntouched(w: World, k: int, a: Action, q: int)
    requires Enabled(w, k, a)
    requires k in w.conns ==> w.conns[k].peer != Some(q)
    requires a.New? ==> a.p != q
    ensures RoomsWith(Step(w, k, a).t.rooms, q) == RoomsWith(w.t.rooms, q)
    ensures Noted(Step(w, k, a).t, q) == Noted(w.t, q)
    ensures q in Step(w, k, a).t.peers <==> q in w.t.peers
  {
    hide Judge, CanFollow;
    if k in w.conns && w.conns[k].peer.Some? {
      hide RoomsWith;
      var p := w.conns[k].peer.value;
      match a
      case Join(r) => AdmitRooms(w.t, p, r, q);
      case Leave(r, next) => ExpelRooms(w.t, p, r, next, q);
      case CloseQuit(next) => ExpelRooms(w.t, p, w.conns[k].phase.room, next, q);
      case _ =>
    }
  }

  lemma {:induction false} OthersStayLinked(w: World, k: int, a: Action, j: int)
    requires Enabled(w, k, a) && OwnId(w, k, a) && Distinct(w)
    requires j in w.conns && j != k && Linked(w.t, w.conns[j])
    ensures Linked(Step(w, k, a).t, w.conns[j])
  {
    if w.conns[j].peer.Some? {
      OthersUntouched(w, k, a, w.conns[j].peer.value);
      hide Step, RoomsWith, Noted, Enabled;
    }
  }

  lemma {:induction false} OwnStaysLinked(w: World, k: int, a: Action)
    requires Enabled(w, k, a) && OwnId(w, k, a) && !a.Connect? && Linked(w.t, w.conns[k])
    ensures k in Step(w, k, a).conns ==> Linked(Step(w, k, a).t, Step(w, k, a).conns[k])
  {
    hide Judge, CanFollow, RoomsWith;
    var c := w.conns[k];
    if c.peer.Some? {
      var p := c.peer.value;
      match a
      case Join(r) => AdmitRooms(w.t, p, r, p);
      case Leave(r, next) => ExpelRooms(w.t, p, r, next, p);
      case CloseQuit(next) => ExpelRooms(w.t, p, c.phase.room, next, p);
      case _ =>
    }
  }

  lemma {:induction false} StepKeepsOccupied(w: World, k: int, a: Action)
    requires Enabled(w, k, a) && Orderly(w)
    ensures forall r | r in Step(w, k, a).t.rooms :: Step(w, k, a).t.rooms[r].members != {}
  {
    hide Distinct, RoomsWith, CanFollow;
    if a.Join? {
      assert Linked(w.t, w.conns[k]);
    }
  }

  lemma {:induction false} StepKeepsOrder(w: World, k: int, a: Action)
    requires Enabled(w, k, a) && OwnId(w, k, a) && Orderly(w)
    ensures Orderly(Step(w, k, a))
  {
    StepKeepsOccupied(w, k, a);
    var v := Step(w, k, a);
    forall j | j in v.conns ensures Linked(v.t, v.conns[j]) {
      if j != k {
        OthersStayLinked(w, k, a, j);
      } else if !a.Connect? {
        OwnStaysLinked(w, k, a);
      }
    }
  }

  /** In every interleaving, with one connection per peer id, a peer that is not in the middle of
      leaving and is noted to be in a room is a member of that room, and no room is empty. */
  lemma {:induction false} NotedRoomsAreReal(ws: seq<World>, acts: seq<Act>, n: nat)
    requires Trace(ws, acts) && Orderly(ws[0]) && n <= |acts|
    requires forall i | 0 <= i < |acts| :: OwnId(ws[i], acts[i].k, acts[i].a)
    ensures Orderly(ws[n])
    ensures forall k | k in ws[n].conns && ws[n].conns[k].peer.Some? && !ws[n].conns[k].phase.Quitted? ::
      var p := ws[n].conns[k].peer.value;
      Noted(ws[n].t, p).Some? ==>
        Noted(ws[n].t, p).value in ws[n].t.rooms && p in ws[n].t.rooms[Noted(ws[n].t, p).value].members
  {
    if n == 0 {
    } else {
      NotedRoomsAreReal(ws, acts, n - 1);
      StepKeepsOrder(ws[n - 1], acts[n - 1].k, acts[n - 1].a);
    }
  }

  // ---- who is left behind ----

  /** The peer is in no room that its connection will not leave. */
  ghost predicate Tracked(t: Tables, c: Conn) {
    c.peer.Some? ==>
      var p := c.peer.value;
      match c.phase
      case Idle => RoomsWith(t.rooms, p) <= (if Noted(t, p).Some? then {Noted(t, p).value} else {})
      case Entered(room) => RoomsWith(t.rooms, p) <= {room}
      case Checked => RoomsWith(t.rooms, p) <= (if Noted(t, p).Some? then {Noted(t, p).value} else {})
      case Quitting(room) => RoomsWith(t.rooms, p) <= {room}
      case Quitted(_) => RoomsWith(t.rooms, p) == {}
      case Dropping => RoomsWith(t.rooms, p) == {}
  }

  /** Announcing again while in a room, entering a second room, leaving some other room. */
  ghost predicate Careless(w: World, k: int, a: Action)
    requires Enabled(w, k, a)
  {
    && k in w.conns && w.conns[k].peer.Some?
    && var p := w.conns[k].peer.value;
       match a
       case New(_) => RoomsWith(w.t.rooms, p) != {}
       case Join(r) => Judge(w.t, p, r) == Admitted && RoomsWith(w.t.rooms, p) != {}
       case Leave(r, _) => !(RoomsWith(w.t.rooms, p) <= {r})
       case _ => false
  }

  /** A connection in good order stays so exactly when its step is none of those three. */
  lemma {:induction false} LosesTrackIff(w: World, k: int, a: Action)
    requires Enabled(w, k, a) && OwnId(w, k, a) && k in w.conns && w.conns[k].peer.Some?
    requires Linked(w.t, w.conns[k]) && Tracked(w.t, w.conns[k])
    requires !a.CloseDrop?
    ensures k in Step(w, k, a).conns
    ensures Tracked(Step(w, k, a).t, Step(w, k, a).conns[k]) <==> !Careless(w, k, a)
  {
    hide Judge, CanFollow, RoomsWith;
    var c := w.conns[k];
    var p := c.peer.value;
    match a
    case Join(r) =>
      AdmitRooms(w.t, p, r, p);
      AdmittedIsNew(w.t, p, r);
    case Leave(r, next) => ExpelRooms(w.t, p, r, next, p);
    case CloseQuit(next) => ExpelRooms(w.t, p, c.phase.room, next, p);
    case _ =>
  }

  lemma {:induction false} AdmittedIsNew(t: Tables, p: int, r: int)
    ensures Judge(t, p, r) == Admitted ==> r !in RoomsWith(t.rooms, p)
  {}

  ghost predicate NoGhosts(w: World) {
    forall p | RoomsWith(w.t.rooms, p) != {} :: exists k :: k in w.conns && w.conns[k].peer == Some(p)
  }

  lemma {:induction false} OthersStayTracked(w: World, k: int, a: Action, j: int)
    requires Enabled(w, k, a) && OwnId(w, k, a) && Distinct(w)
    requires j in w.conns && j != k && Tracked(w.t, w.conns[j])
    ensures Tracked(Step(w, k, a).t, w.conns[j])
  {
    if w.conns[j].peer.Some? {
      OthersUntouched(w, k, a, w.conns[j].peer.value);
      hide Step, RoomsWith, Noted, Enabled;
    }
  }

  lemma {:induction false} StillOpen(w: World, k: int, a: Action, p: int)
    requires Enabled(w, k, a) && OwnId(w, k, a) && NoGhosts(w)
    requires forall j | j in w.conns :: Tracked(w.t, w.conns[j])
    requires RoomsWith(Step(w, k, a).t.rooms, p) != {}
    ensures exists j :: j in Step(w, k, a).conns && Step(w, k, a).conns[j].peer == Some(p)
  {
    var v := Step(w, k, a);
    if k in v.conns && v.conns[k].peer == Some(p) {
    } else if k in w.conns && w.conns[k].peer == Some(p) {
      assert false;
    } else {
      OthersUntouched(w, k, a, p);
      var j :| j in w.conns && w.conns[j].peer == Some(p);
      assert j in v.conns && v.conns[j].peer == Some(p);
    }
  }

  lemma {:induction false} StepKeepsGhostsOut(w: World, k: int, a: Action)
    requires Enabled(w, k, a) && OwnId(w, k, a) && Orderly(w) && NoGhosts(w)
    requires forall j | j in w.conns :: Tracked(w.t, w.conns[j])
    requires !Careless(w, k, a)
    ensures NoGhosts(Step(w, k, a))
    ensures forall j | j in Step(w, k, a).conns :: Tracked(Step(w, k, a).t, Step(w, k, a).conns[j])
  {
    var v := Step(w, k, a);
    forall j | j in v.conns ensures Tracked(v.t, v.conns[j]) {
      if j != k {
        OthersStayTracked(w, k, a, j);
      } else {
        OwnStaysTracked(w, k, a);
      }
    }
    forall p | RoomsWith(v.t.rooms, p) != {} ensures exists j :: j in v.conns && v.conns[j].peer == Some(p) {
      StillOpen(w, k, a, p);
    }
  }

  lemma {:induction false} OwnStaysTracked(w: World, k: int, a: Action)
    requires Enabled(w, k, a) && OwnId(w, k, a) && Orderly(w) && NoGhosts(w) && !Careless(w, k, a)
    requires k in w.conns ==> Tracked(w.t, w.conns[k])
    requires k in Step(w, k, a).conns
    ensures Tracked(Step(w, k, a).t, Step(w, k, a).conns[k])
  {
    if k in w.conns {
      if w.conns[k].peer.Some? {
        LosesTrackIff(w, k, a);
      } else if a.New? {
        assert RoomsWith(w.t.rooms, a.p) == {};
      }
    }
  }

  /** In every interleaving in which no connection is careless, everyone in a room is connected. */
  lemma {:induction false} NoGhostsWithoutCarelessness(ws: seq<World>, acts: seq<Act>, n: nat)
    requires Trace(ws, acts) && ws[0] == EMPTY && n <= |acts|
    requires forall i | 0 <= i < |acts| ::
      OwnId(ws[i], acts[i].k, acts[i].a) && !Careless(ws[i], acts[i].k, acts[i].a)
    ensures Orderly(ws[n]) && NoGhosts(ws[n])
    ensures forall j | j in ws[n].conns :: Tracked(ws[n].t, ws[n].conns[j])
  {
    if n == 0 {
    } else {
      NoGhostsWithoutCarelessness(ws, acts, n - 1);
      hide RoomsWith, Tracked, Careless, OwnId, Enabled, Step;
      StepKeepsOrder(ws[n - 1], acts[n - 1].k, acts[n - 1].a);
      StepKeepsGhostsOut(ws[n - 1], acts[n - 1].k, acts[n - 1].a);
    }
  }

  /** What a closing connection has left of the rooms it was in. */
  ghost predicate Closing(w: World, k: int, p: int, rooms: set<int>, noted: Option<int>) {
    var here := RoomsWith(w.t.rooms, p);
    var rest := rooms - (if noted.Some? then {noted.value} else {});
    if k !in w.conns then here == rest
    else
      && w.conns[k].peer == Some(p)
      && match w.conns[k].phase
         case Idle => here == rooms && Noted(w.t, p) == noted
         case Checked => here == rooms && Noted(w.t, p) == noted && noted.Some?
         case Quitting(room) => here == rooms && noted == Some(room)
         case Quitted(closing) => closing && here == rest
         case Dropping => here == rest
         case Entered(_) => false
  }

  lemma {:induction false} OwnClosingStep(w: World, k: int, a: Action, p: int, rooms: set<int>, noted: Option<int>)
    requires Enabled(w, k, a) && Closing(w, k, p, rooms, noted)
    requires a.Close? || a.Recheck? || a.CloseQuit? || a.CloseDrop? || (a.LeaveNoted? && k in w.conns)
    ensures Closing(Step(w, k, a), k, p, rooms, noted)
  {
    hide RoomsWith, CanFollow;
    if a.CloseQuit? {
      ExpelRooms(w.t, p, w.conns[k].phase.room, a.next, p);
    }
  }

  lemma {:induction false} OtherClosingStep(w: World, j: int, a: Action, k: int, p: int, rooms: set<int>,
      noted: Option<int>)
    requires Enabled(w, j, a) && Closing(w, k, p, rooms, noted) && j != k
    requires j in w.conns ==> w.conns[j].peer != Some(p)
    requires a.New? ==> a.p != p
    ensures Closing(Step(w, j, a), k, p, rooms, noted)
  {
    OthersUntouched(w, j, a, p);
    hide RoomsWith, Noted;
  }

  /** While connection `k` closes, whatever other peers do in between, it leaves the room it is
      noted to be in and no other: it ends up in no room exactly when it was in no other. */
  lemma {:induction false} CloseLeavesNoGhostIff(ws: seq<World>, acts: seq<Act>, k: int, p: int)
    requires Trace(ws, acts) && |acts| > 0
    requires k in ws[0].conns && ws[0].conns[k] == Conn(Some(p), Idle) && k !in ws[|acts|].conns
    requires forall i | 0 <= i < |acts| ::
      if acts[i].k == k then acts[i].a.Close? || acts[i].a.Recheck? || acts[i].a.CloseQuit? || acts[i].a.CloseDrop?
                             || (acts[i].a.LeaveNoted? && k in ws[i].conns)
      else (acts[i].k in ws[i].conns ==> ws[i].conns[acts[i].k].peer != Some(p))
           && (acts[i].a.New? ==> acts[i].a.p != p)
    ensures RoomsWith(ws[|acts|].t.rooms, p) == {} <==>
      RoomsWith(ws[0].t.rooms, p) <= (if Noted(ws[0].t, p).Some? then {Noted(ws[0].t, p).value} else {})
  {
    ClosingRun(ws, acts, k, p, |acts|);
  }

  lemma {:induction false} ClosingRun(ws: seq<World>, acts: seq<Act>, k: int, p: int, n: nat)
    requires Trace(ws, acts) && n <= |acts|
    requires k in ws[0].conns && ws[0].conns[k] == Conn(Some(p), Idle)
    requires forall i | 0 <= i < |acts| ::
      if acts[i].k == k then acts[i].a.Close? || acts[i].a.Recheck? || acts[i].a.CloseQuit? || acts[i].a.CloseDrop?
                             || (acts[i].a.LeaveNoted? && k in ws[i].conns)
      else (acts[i].k in ws[i].conns ==> ws[i].conns[acts[i].k].peer != Some(p))
           && (acts[i].a.New? ==> acts[i].a.p != p)
    ensures Closing(ws[n], k, p, RoomsWith(ws[0].t.rooms, p), Noted(ws[0].t, p))
  {
    if n == 0 {
    } else {
      ClosingRun(ws, acts, k, p, n - 1);
      hide Closing, RoomsWith, Noted, Step, Enabled;
      var rooms, noted := RoomsWith(ws[0].t.rooms, p), Noted(ws[0].t, p);
      if acts[n - 1].k == k {
        OwnClosingStep(ws[n - 1], k, acts[n - 1].a, p, rooms, noted);
      } else {
        OtherClosingStep(ws[n - 1], acts[n - 1].k, acts[n - 1].a, k, p, rooms, noted);
      }
    }
  }

  /** A peer joins a second room without leaving the first, then closes. */
  function TwoRooms(p: int, first: int, second: int): seq<Action> {
    [Connect, New(p), Join(first), JoinNoted, Join(second), JoinNoted,
     Close, Recheck, CloseQuit(p), LeaveNoted, CloseDrop]
  }

  function Alone(rooms: map<int, Room>, p: int, noted: Option<int>, phase: Phase): World {
    World(Tables(rooms, map[p := noted]), map[0 := Conn(Some(p), phase)])
  }

  function After(p: int, first: int, second: int, n: nat): World {
    var one := map[first := Room(p, {p})];
    var two := one[second := Room(p, {p})];
    if n == 0 then EMPTY
    else if n == 1 then World(EMPTY.t, map[0 := Conn(None, Idle)])
    else if n == 2 then Alone(map[], p, None, Idle)
    else if n == 3 then Alone(one, p, None, Entered(first))
    else if n == 4 then Alone(one, p, Some(first), Idle)
    else if n == 5 then Alone(two, p, Some(first), Entered(second))
    else if n == 6 then Alone(two, p, Some(second), Idle)
    else if n == 7 then Alone(two, p, Some(second), Checked)
    else if n == 8 then Alone(two, p, Some(second), Quitting(second))
    else if n == 9 then Alone(one, p, Some(second), Quitted(true))
    else if n == 10 then Alone(one, p, None, Dropping)
    else World(Tables(one, map[]), map[])
  }

  lemma {:induction false} EntersEmptyRoom(t: Tables, p: int, r: int)
    requires r !in t.rooms && p in t.peers
    ensures Judge(t, p, r) == Admitted && Admit(t, p, r) == t.(rooms := t.rooms[r := Room(p, {p})])
  {}

  lemma {:induction false} JoiningSteps(p: int, first: int, second: int, n: nat)
    requires first != second && n < 6
    ensures Enabled(After(p, first, second, n), 0, TwoRooms(p, first, second)[n])
    ensures Step(After(p, first, second, n), 0, TwoRooms(p, first, second)[n]) == After(p, first, second, n + 1)
  {
    hide Judge, Admit, Expel;
    var t := After(p, first, second, n).t;
    if n == 2 {
      EntersEmptyRoom(t, p, first);
    } else if n == 4 {
      EntersEmptyRoom(t, p, second);
    }
  }

  lemma {:induction false} ClosingSteps(p: int, first: int, second: int, n: nat)
    requires first != second && 6 <= n < 11
    ensures Enabled(After(p, first, second, n), 0, TwoRooms(p, first, second)[n])
    ensures Step(After(p, first, second, n), 0, TwoRooms(p, first, second)[n]) == After(p, first, second, n + 1)
  {
    hide Judge, Admit;
    var t := After(p, first, second, n).t;
    if n == 8 {
      assert t.rooms - {second} == After(p, first, second, 9).t.rooms;
    }
  }

  /** The first room is left with a peer that is no longer connected. */
  lemma {:induction false} SecondRoomLeavesAGhost(p: int, first: int, second: int)
    requires first != second
    ensures exists ws: seq<World>, acts: seq<Act> ::
      && Trace(ws, acts) && |acts| == 11 && ws[0] == EMPTY
      && (forall i | 0 <= i < |acts| :: acts[i] == Act(0, TwoRooms(p, first, second)[i]))
      && ws[11] == World(Tables(map[first := Room(p, {p})], map[]), map[])
  {
    hide After, TwoRooms, Step, Enabled;
    assert |TwoRooms(p, first, second)| == 11 && After(p, first, second, 0) == EMPTY
      && After(p, first, second, 11) == World(Tables(map[first := Room(p, {p})], map[]), map[]) by {
      Ends(p, first, second);
    }
    var ws := seq(12, i requires 0 <= i < 12 => After(p, first, second, i));
    var acts := seq(11, i requires 0 <= i < 11 => Act(0, TwoRooms(p, first, second)[i]));
    forall i | 0 <= i < 11 ensures Enabled(ws[i], 0, acts[i].a) && ws[i + 1] == Step(ws[i], 0, acts[i].a) {
      if i < 6 {
        JoiningSteps(p, first, second, i);
      } else {
        ClosingSteps(p, first, second, i);
      }
    }
    assert Trace(ws, acts);
  }

  lemma {:induction false} Ends(p: int, first: int, second: int)
    ensures |TwoRooms(p, first, second)| == 11 && After(p, first, second, 0) == EMPTY
    ensures After(p, first, second, 11) == World(Tables(map[first := Room(p, {p})], map[]), map[])
  {}
}
