/** The rows of one user's offline log, the packets a device receives, and what a device
    remembers after replaying them. */
module PipelineTypes {

  /** An entity is named by its type and its id; the merge sorts by type first. */
  datatype Key = Key(tpy: int, id: int) {
    predicate Below(other: Key) {
      tpy < other.tpy || (tpy == other.tpy && id < other.id)
    }
  }

  datatype Change = Change(id: int, tpy: int, version: int, operate: int) {
    function Target(): Key {
      Key(tpy, id)
    }
  }

  /** A row body either decodes as an entity-change push or is carried as bytes. */
  datatype Body = Changes(changes: seq<Change>) | Bytes(bytes: seq<int>)

  datatype Row = Row(sid: int, createdAt: int, command: int, body: Body)

  datatype Packet = Packet(rid: int, cmd: int, body: Body)

  /** What the merge keeps for one entity. */
  datatype Kept = Kept(version: int, operate: int)

  type Merged = map<Key, Kept>

  const PUSH_ENTITY_CHANGE := 1057

  /** Converting a stored row to a packet keeps the sid as the packet's rid. */
  function ToPacket(row: Row): Packet {
    Packet(row.sid, row.command, row.body)
  }

  /** The rows as they would go out if nothing were merged. */
  function Raw(rows: seq<Row>): seq<Packet> {
    seq(|rows|, i requires 0 <= i < |rows| => ToPacket(rows[i]))
  }

  predicate IsEntityPush(p: Packet) {
    p.cmd == PUSH_ENTITY_CHANGE && p.body.Changes?
  }

  predicate Ascending(rows: seq<Row>) {
    forall i, j :: 0 <= i < j < |rows| ==> rows[i].sid < rows[j].sid
  }

  /** Keeps the larger version; on a tie the change seen first stays. */
  function Record(kept: Merged, c: Change): Merged {
    if c.Target() !in kept || c.version > kept[c.Target()].version
    then kept[c.Target() := Kept(c.version, c.operate)]
    else kept
  }

  function Fold(kept: Merged, changes: seq<Change>): Merged {
    if changes == [] then kept
    else Record(Fold(kept, changes[..|changes| - 1]), changes[|changes| - 1])
  }

  /** All changes carried by the entity pushes of a packet sequence, in order. */
  function ChangesOf(packets: seq<Packet>): seq<Change> {
    if packets == [] then []
    else
      var p := packets[|packets| - 1];
      ChangesOf(packets[..|packets| - 1]) + (if IsEntityPush(p) then p.body.changes else [])
  }

  /** The packets of a sequence that are handed on untouched. */
  function PassOf(packets: seq<Packet>): seq<Packet> {
    if packets == [] then []
    else
      var p := packets[|packets| - 1];
      PassOf(packets[..|packets| - 1]) + (if IsEntityPush(p) then [] else [p])
  }

  /** What a device holds after replay: the version-max of every entity it heard about and
      the other packets in arrival order. */
  datatype View = View(kept: Merged, passed: seq<Packet>)

  const BLANK := View(map[], [])

  function Apply(v: View, p: Packet): View {
    if IsEntityPush(p) then v.(kept := Fold(v.kept, p.body.changes))
    else v.(passed := v.passed + [p])
  }

  /** A device replays packets one by one. */
  function Replay(v: View, packets: seq<Packet>): View {
    if packets == [] then v
    else Apply(Replay(v, packets[..|packets| - 1]), packets[|packets| - 1])
  }

  lemma {:induction false} FoldConcat(kept: Merged, a: seq<Change>, b: seq<Change>)
    ensures Fold(kept, a + b) == Fold(Fold(kept, a), b)
  {
    if b == [] {
      assert a + b == a;
    } else {
      FoldConcat(kept, a, b[..|b| - 1]);
      assert (a + b)[..|a + b| - 1] == a + b[..|b| - 1];
    }
  }

  lemma {:induction false} ChangesOfConcat(a: seq<Packet>, b: seq<Packet>)
    ensures ChangesOf(a + b) == ChangesOf(a) + ChangesOf(b)
  {
    if b == [] {
      assert a + b == a;
    } else {
      ChangesOfConcat(a, b[..|b| - 1]);
      assert (a + b)[..|a + b| - 1] == a + b[..|b| - 1];
    }
  }

  lemma {:induction false} PassOfConcat(a: seq<Packet>, b: seq<Packet>)
    ensures PassOf(a + b) == PassOf(a) + PassOf(b)
  {
    if b == [] {
      assert a + b == a;
    } else {
      PassOfConcat(a, b[..|b| - 1]);
      assert (a + b)[..|a + b| - 1] == a + b[..|b| - 1];
    }
  }

  /** Replay factors into one fold of the changes and one list of the other packets. */
  lemma {:induction false} ReplayFactors(v: View, packets: seq<Packet>)
    ensures Replay(v, packets) ==
            View(Fold(v.kept, ChangesOf(packets)), v.passed + PassOf(packets))
  {
    if packets == [] {
    } else {
      var front, p := packets[..|packets| - 1], packets[|packets| - 1];
      ReplayFactors(v, front);
      if IsEntityPush(p) {
        FoldConcat(v.kept, ChangesOf(front), p.body.changes);
        assert PassOf(packets) == PassOf(front);
      } else {
        assert v.passed + PassOf(packets) == v.passed + PassOf(front) + [p];
        assert ChangesOf(packets) == ChangesOf(front);
      }
    }
  }

  lemma {:induction false} ReplayConcat(v: View, a: seq<Packet>, b: seq<Packet>)
    ensures Replay(v, a + b) == Replay(Replay(v, a), b)
  {
    if b == [] {
      assert a + b == a;
    } else {
      ReplayConcat(v, a, b[..|b| - 1]);
      assert (a + b)[..|a + b| - 1] == a + b[..|b| - 1];
    }
  }

  lemma {:induction false} RawConcat(a: seq<Row>, b: seq<Row>)
    ensures Raw(a + b) == Raw(a) + Raw(b)
  {}

  /** The meaning of the fold, stated without it: an entity is present exactly when some
      change names it, and what is kept is the earliest change of greatest version. */
  ghost predicate IsFirstMax(changes: seq<Change>, key: Key, i: nat) {
    && i < |changes| && changes[i].Target() == key
    && (forall j :: 0 <= j < |changes| && changes[j].Target() == key ==> changes[j].version <= changes[i].version)
    && (forall j :: 0 <= j < i && changes[j].Target() == key ==> changes[j].version < changes[i].version)
  }

  lemma {:induction false} FoldKeepsFirstMax(changes: seq<Change>, key: Key) returns (i: nat)
    ensures key in Fold(map[], changes) <==> exists j :: 0 <= j < |changes| && changes[j].Target() == key
    ensures key in Fold(map[], changes) ==>
              IsFirstMax(changes, key, i) &&
              Fold(map[], changes)[key] == Kept(changes[i].version, changes[i].operate)
  {
    i := 0;
    if changes == [] {
    } else {
      var n := |changes| - 1;
      var front, c := changes[..n], changes[n];
      i := FoldKeepsFirstMax(front, key);
      if key in Fold(map[], front) {
        var j :| 0 <= j < |front| && front[j].Target() == key;
        assert changes[j].Target() == key;
        assert changes[i] == front[i];
      }
      if c.Target() == key && (key !in Fold(map[], front) || c.version > Fold(map[], front)[key].version) {
        forall j | 0 <= j < n && changes[j].Target() == key
          ensures changes[j].version < c.version
        {
          assert front[j].Target() == key;
        }
        i := n;
      }
      forall j | 0 <= j < |changes| && changes[j].Target() == key
        ensures key in Fold(map[], changes)
      {
        assert j == n || front[j].Target() == key;
      }
    }
  }

  /** Two summaries combined: the left one wins ties. */
  function Join(a: Merged, b: Merged): Merged {
    map k | k in a.Keys + b.Keys ::
      if k in a && (k !in b || b[k].version <= a[k].version) then a[k] else b[k]
  }

  /** Folding onto a summary only needs the summary of what is folded. */
  lemma {:induction false} FoldIsJoin(kept: Merged, changes: seq<Change>)
    ensures Fold(kept, changes) == Join(kept, Fold(map[], changes))
  {
    if changes == [] {
    } else {
      FoldIsJoin(kept, changes[..|changes| - 1]);
    }
  }
}
