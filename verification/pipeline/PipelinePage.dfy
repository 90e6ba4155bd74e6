/** One page of a pull: entity pushes of the window are merged to one change per entity,
    split into bounded packets and put back between the other packets. */
module PipelinePage {
  import opened PipelineTypes

  const MERGE_CHANGES_LIMIT := 2048

  // ---- the merged changes in key order ----

  ghost predicate IsLeast(k: Key, ks: set<Key>) {
    k in ks && forall o :: o in ks && o != k ==> k.Below(o)
  }

  lemma {:induction false} LeastExists(ks: set<Key>)
    requires ks != {}
    ensures exists k :: IsLeast(k, ks)
  {
    var k :| k in ks;
    var rest := ks - {k};
    assert forall o :: o in ks ==> o == k || o in rest;
    if rest == {} {
      assert IsLeast(k, ks);
    } else {
      LeastExists(rest);
      var k1 :| IsLeast(k1, rest);
      var least := if k1.Below(k) then k1 else k;
      assert IsLeast(least, ks);
    }
  }

  function Least(ks: set<Key>): (k: Key)
    requires ks != {}
    ensures IsLeast(k, ks)
  {
    LeastExists(ks);
    assert exists k :: k in ks && forall o :: o in ks && o != k ==> k.Below(o) by {
      var k :| IsLeast(k, ks);
    }
    var k :| k in ks && forall o :: o in ks && o != k ==> k.Below(o);
    k
  }

  function SortedKeys(ks: set<Key>): (keys: seq<Key>)
    ensures forall k :: k in keys <==> k in ks
  {
    if ks == {} then []
    else
      var k := Least(ks);
      [k] + SortedKeys(ks - {k})
  }

  /** The entries of the ordered map, smallest (type, id) first. */
  function SortedChanges(m: Merged): seq<Change> {
    var keys := SortedKeys(m.Keys);
    seq(|keys|, i requires 0 <= i < |keys| =>
      assert keys[i] in keys;
      Change(keys[i].id, keys[i].tpy, m[keys[i]].version, m[keys[i]].operate))
  }

  ghost predicate KeysAscend(changes: seq<Change>) {
    forall i, j :: 0 <= i < j < |changes| ==> changes[i].Target().Below(changes[j].Target())
  }

  ghost predicate Lists(changes: seq<Change>, m: Merged) {
    && (forall i :: 0 <= i < |changes| ==>
          changes[i].Target() in m && m[changes[i].Target()] == Kept(changes[i].version, changes[i].operate))
    && (forall k :: k in m ==> exists i :: 0 <= i < |changes| && changes[i].Target() == k)
  }

  lemma {:induction false} SortedKeysAscend(ks: set<Key>)
    ensures |SortedKeys(ks)| == |ks|
    ensures forall i, j :: 0 <= i < j < |SortedKeys(ks)| ==> SortedKeys(ks)[i].Below(SortedKeys(ks)[j])
  {
    if ks == {} {
    } else {
      var k := Least(ks);
      var tail := SortedKeys(ks - {k});
      SortedKeysAscend(ks - {k});
      forall j | 0 <= j < |tail|
        ensures k.Below(tail[j])
      {
        assert tail[j] in tail;
      }
    }
  }

  /** Every entity is listed exactly once, in strictly ascending key order. */
  lemma {:induction false} SortedChangesList(m: Merged)
    ensures |SortedChanges(m)| == |m|
    ensures KeysAscend(SortedChanges(m)) && Lists(SortedChanges(m), m)
  {
    hide SortedKeys, SortedChanges;
    var keys, all := SortedKeys(m.Keys), SortedChanges(m);
    SortedKeysAscend(m.Keys);
    ListedKeys(m);
    assert |m.Keys| == |m|;
    forall k | k in m
      ensures exists i :: 0 <= i < |all| && all[i].Target() == k
    {
      assert k in keys;
      var i :| 0 <= i < |keys| && keys[i] == k;
      assert all[i].Target() == k;
    }
  }

  lemma {:induction false} ListedKeys(m: Merged)
    ensures var keys, all := SortedKeys(m.Keys), SortedChanges(m);
            && |all| == |keys|
            && forall i :: 0 <= i < |keys| ==>
                 keys[i] in m && all[i].Target() == keys[i] && m[keys[i]] == Kept(all[i].version, all[i].operate)
  {
    var keys := SortedKeys(m.Keys);
    assert forall i :: 0 <= i < |keys| ==> keys[i] in keys;
  }

  lemma {:induction false} ListsOneMore(front: seq<Change>, m: Merged, c: Change)
    requires Lists(front, m) && forall i :: 0 <= i < |front| ==> front[i].Target() != c.Target()
    ensures Lists(front + [c], Record(m, c))
  {
    var all, after := front + [c], Record(m, c);
    forall k | k in after
      ensures exists i :: 0 <= i < |all| && all[i].Target() == k
    {
      if k == c.Target() {
        assert all[|front|].Target() == k;
      } else {
        var i :| 0 <= i < |front| && front[i].Target() == k;
        assert all[i].Target() == k;
      }
    }
  }

  lemma {:induction false} FrontAscends(changes: seq<Change>)
    requires KeysAscend(changes) && changes != []
    ensures var front, last := changes[..|changes| - 1], changes[|changes| - 1];
            KeysAscend(front) && forall i :: 0 <= i < |front| ==> front[i].Target() != last.Target()
  {
    var n := |changes| - 1;
    forall i | 0 <= i < n
      ensures changes[..n][i].Target() != changes[n].Target()
    {
      assert changes[i].Target().Below(changes[n].Target());
    }
  }

  /** Folding a list with pairwise different keys just collects it. */
  lemma {:induction false} FoldOfDistinct(changes: seq<Change>)
    requires KeysAscend(changes)
    ensures Lists(changes, Fold(map[], changes))
  {
    if changes == [] {
    } else {
      hide Lists, Record, KeysAscend;
      var front, last := changes[..|changes| - 1], changes[|changes| - 1];
      FrontAscends(changes);
      FoldOfDistinct(front);
      ListsOneMore(front, Fold(map[], front), last);
      assert front + [last] == changes;
    }
  }

  lemma {:induction false} ListingDetermines(changes: seq<Change>, m: Merged, n: Merged)
    requires Lists(changes, m) && Lists(changes, n)
    ensures m == n
  {
    forall k | k in m || k in n
      ensures k in m && k in n && m[k] == n[k]
    {
      var i :| 0 <= i < |changes| && changes[i].Target() == k;
    }
    assert m.Keys == n.Keys;
  }

  /** Listing a summary and folding the list gives the summary back. */
  lemma {:induction false} SortedChangesRoundTrip(m: Merged)
    ensures Fold(map[], SortedChanges(m)) == m
  {
    SortedChangesList(m);
    FoldOfDistinct(SortedChanges(m));
    ListingDetermines(SortedChanges(m), m, Fold(map[], SortedChanges(m)));
  }

  // ---- splitting into bounded packets ----

  function Chunks(changes: seq<Change>): (parts: seq<seq<Change>>)
  {
    if changes == [] then []
    else if |changes| <= MERGE_CHANGES_LIMIT then [changes]
    else [changes[..MERGE_CHANGES_LIMIT]] + Chunks(changes[MERGE_CHANGES_LIMIT..])
  }

  function EntityPush(rid: int, changes: seq<Change>): Packet {
    Packet(rid, PUSH_ENTITY_CHANGE, Changes(changes))
  }

  function PushAll(rid: int, parts: seq<seq<Change>>): seq<Packet> {
    seq(|parts|, i requires 0 <= i < |parts| => EntityPush(rid, parts[i]))
  }

  /** ceil(n / 2048) packets, all but the last full, none empty. */
  lemma {:induction false} ChunksShape(changes: seq<Change>)
    ensures |Chunks(changes)| == (|changes| + MERGE_CHANGES_LIMIT - 1) / MERGE_CHANGES_LIMIT
    ensures forall i :: 0 <= i < |Chunks(changes)| ==>
              0 < |Chunks(changes)[i]| <= MERGE_CHANGES_LIMIT &&
              (i < |Chunks(changes)| - 1 ==> |Chunks(changes)[i]| == MERGE_CHANGES_LIMIT)
  {
    if |changes| <= MERGE_CHANGES_LIMIT {
    } else {
      ChunksShape(changes[MERGE_CHANGES_LIMIT..]);
    }
  }

  /** The split packets carry the same changes in the same order. */
  lemma {:induction false} ChunksCarryAll(rid: int, changes: seq<Change>)
    ensures ChangesOf(PushAll(rid, Chunks(changes))) == changes
    ensures PassOf(PushAll(rid, Chunks(changes))) == []
    decreases |changes|
  {
    if changes == [] {
    } else {
      var head, tail := changes, [];
      if |changes| > MERGE_CHANGES_LIMIT {
        head, tail := changes[..MERGE_CHANGES_LIMIT], changes[MERGE_CHANGES_LIMIT..];
      }
      ChunksCarryAll(rid, tail);
      var p := [EntityPush(rid, head)];
      assert Chunks(changes) == [head] + Chunks(tail);
      assert PushAll(rid, Chunks(changes)) == p + PushAll(rid, Chunks(tail));
      assert p[..0] == [];
      ChangesOfConcat(p, PushAll(rid, Chunks(tail)));
      PassOfConcat(p, PushAll(rid, Chunks(tail)));
      assert head + tail == changes;
    }
  }

  // ---- the page ----

  /** The sid of the last entity push in the window, 0 when there is none. */
  function LastMergedSid(rows: seq<Row>): int {
    if rows == [] then 0
    else
      var r := rows[|rows| - 1];
      if IsEntityPush(ToPacket(r)) then r.sid else LastMergedSid(rows[..|rows| - 1])
  }

  /** Where the merged packets go: before the first other packet with a larger rid. */
  function SlotAfter(passed: seq<Packet>, rid: int): (k: nat)
    ensures k <= |passed|
    ensures forall i :: 0 <= i < k ==> passed[i].rid <= rid
    ensures k < |passed| ==> passed[k].rid > rid
  {
    if passed == [] || passed[0].rid > rid then 0 else 1 + SlotAfter(passed[1..], rid)
  }

  function MergedPackets(rows: seq<Row>): seq<Packet> {
    PushAll(LastMergedSid(rows), Chunks(SortedChanges(Fold(map[], ChangesOf(Raw(rows))))))
  }

  /** The other packets in order with the merged ones side by side in their slot. */
  function Emit(passed: seq<Packet>, merged: seq<Packet>, rid: int): seq<Packet> {
    var k := SlotAfter(passed, rid);
    passed[..k] + merged + passed[k..]
  }

  function PagePackets(rows: seq<Row>): seq<Packet> {
    Emit(PassOf(Raw(rows)), MergedPackets(rows), LastMergedSid(rows))
  }

  lemma {:induction false} RawPrefix(rows: seq<Row>, n: nat)
    requires n < |rows|
    ensures Raw(rows[..n + 1])[..n] == Raw(rows[..n])
    ensures Raw(rows[..n + 1])[n] == ToPacket(rows[n])
    ensures rows[..n + 1][..n] == rows[..n]
  {}

  /** First loop of a pull: sort the window's rows into changes and other packets. */
  method Collect(rows: seq<Row>) returns (passed: seq<Packet>, merged: Merged, lastMergedSid: int)
    ensures passed == PassOf(Raw(rows))
    ensures merged == Fold(map[], ChangesOf(Raw(rows)))
    ensures lastMergedSid == LastMergedSid(rows)
  {
    passed, merged, lastMergedSid := [], map[], 0;
    for n := 0 to |rows|
      invariant passed == PassOf(Raw(rows[..n]))
      invariant merged == Fold(map[], ChangesOf(Raw(rows[..n])))
      invariant lastMergedSid == LastMergedSid(rows[..n])
    {
      RawPrefix(rows, n);
      var row := rows[n];
      ghost var before := merged;
      if row.command == PUSH_ENTITY_CHANGE && row.body.Changes? {
        lastMergedSid := row.sid;
        var changes := row.body.changes;
        for j := 0 to |changes|
          invariant merged == Fold(before, changes[..j])
        {
          var c := changes[j];
          var key := c.Target();
          if key !in merged {
            merged := merged[key := Kept(c.version, c.operate)];
          } else if c.version > merged[key].version {
            merged := merged[key := Kept(c.version, c.operate)];
          }
          assert changes[..j + 1][..j] == changes[..j];
        }
        assert changes[..|changes|] == changes;
        FoldConcat(map[], ChangesOf(Raw(rows[..n])), changes);
      } else {
        passed := passed + [ToPacket(row)];
        assert ChangesOf(Raw(rows[..n + 1])) == ChangesOf(Raw(rows[..n]));
      }
    }
    assert rows[..|rows|] == rows;
  }

  /** Second loop: rebuild bounded packets, all carrying the largest merged sid. */
  method Repack(merged: Merged, lastMergedSid: int) returns (packets: seq<Packet>)
    ensures packets == PushAll(lastMergedSid, Chunks(SortedChanges(merged)))
  {
    packets := [];
    if merged != map[] {
      var allChanges := SortedChanges(merged);
      var rest := allChanges;
      while rest != []
        invariant packets + PushAll(lastMergedSid, Chunks(rest)) ==
                  PushAll(lastMergedSid, Chunks(allChanges))
        decreases |rest|
      {
        var size := if |rest| <= MERGE_CHANGES_LIMIT then |rest| else MERGE_CHANGES_LIMIT;
        assert size == |rest| ==> rest[..size] == rest && rest[size..] == [];
        assert Chunks(rest) == [rest[..size]] + Chunks(rest[size..]);
        packets := packets + [EntityPush(lastMergedSid, rest[..size])];
        assert PushAll(lastMergedSid, Chunks(rest)) ==
               [EntityPush(lastMergedSid, rest[..size])] + PushAll(lastMergedSid, Chunks(rest[size..]));
        rest := rest[size..];
      }
    }
  }

  /** Third loop: the other packets in order, the merged ones slipped in once. */
  method Interleave(passed: seq<Packet>, mergedPackets: seq<Packet>, lastMergedSid: int)
    returns (packets: seq<Packet>)
    ensures packets == Emit(passed, mergedPackets, lastMergedSid)
  {
    ghost var k := SlotAfter(passed, lastMergedSid);
    ghost var before, after := passed[..k], [];
    var emitted := mergedPackets == [];
    packets := [];
    for i := 0 to |passed|
      invariant mergedPackets != [] ==> (emitted <==> k < i)
      invariant mergedPackets == [] ==> emitted
      invariant i <= k ==> packets == passed[..i] && after == []
      invariant k < i ==> packets == before + mergedPackets + after && after == passed[k..i]
    {
      if !emitted && passed[i].rid > lastMergedSid {
        packets := packets + mergedPackets;
        emitted := true;
      }
      packets := packets + [passed[i]];
      if k <= i {
        after := after + [passed[i]];
        assert i == k && mergedPackets == [] ==> before + mergedPackets == before;
      }
    }
    if !emitted {
      packets := packets + mergedPackets;
    }
    assert after == passed[k..];
    assert packets == before + mergedPackets + after;
  }

  method BuildPage(rows: seq<Row>) returns (packets: seq<Packet>)
    ensures packets == PagePackets(rows)
  {
    var passed, merged, lastMergedSid := Collect(rows);
    var mergedPackets := Repack(merged, lastMergedSid);
    packets := Interleave(passed, mergedPackets, lastMergedSid);
  }

  // ---- what a page keeps ----

  lemma {:induction false} PassIsPlain(packets: seq<Packet>)
    ensures forall p :: p in PassOf(packets) ==> !IsEntityPush(p) && p in packets
  {
    if packets == [] {
    } else {
      PassIsPlain(packets[..|packets| - 1]);
    }
  }

  lemma {:induction false} PlainPasses(packets: seq<Packet>)
    requires forall p :: p in packets ==> !IsEntityPush(p)
    ensures PassOf(packets) == packets && ChangesOf(packets) == []
  {
    if packets == [] {
    } else {
      var n := |packets| - 1;
      PlainPasses(packets[..n]);
      assert packets[n] in packets;
      assert packets == packets[..n] + [packets[n]];
    }
  }

  lemma {:induction false} ChangesAround(a: seq<Packet>, b: seq<Packet>, c: seq<Packet>)
    requires ChangesOf(a) == [] && ChangesOf(c) == []
    ensures ChangesOf(a + b + c) == ChangesOf(b)
  {
    ChangesOfConcat(a, b);
    ChangesOfConcat(a + b, c);
  }

  lemma {:induction false} PassAround(a: seq<Packet>, b: seq<Packet>, c: seq<Packet>)
    requires PassOf(a) == a && PassOf(b) == [] && PassOf(c) == c
    ensures PassOf(a + b + c) == a + c
  {
    PassOfConcat(a, b);
    PassOfConcat(a + b, c);
  }

  lemma {:induction false} EmitProjections(passed: seq<Packet>, pushes: seq<Packet>, rid: int)
    requires forall p :: p in passed ==> !IsEntityPush(p)
    requires PassOf(pushes) == []
    ensures ChangesOf(Emit(passed, pushes, rid)) == ChangesOf(pushes)
    ensures PassOf(Emit(passed, pushes, rid)) == passed
  {
    var k := SlotAfter(passed, rid);
    var a, c := passed[..k], passed[k..];
    assert a + c == passed;
    assert forall p :: p in a ==> p in passed;
    assert forall p :: p in c ==> p in passed;
    PlainPasses(a);
    PlainPasses(c);
    ChangesAround(a, pushes, c);
    PassAround(a, pushes, c);
  }

  /** The page's two projections: the merged listing and the untouched packets. */
  lemma {:induction false} PageProjections(rows: seq<Row>)
    ensures ChangesOf(PagePackets(rows)) == SortedChanges(Fold(map[], ChangesOf(Raw(rows))))
    ensures PassOf(PagePackets(rows)) == PassOf(Raw(rows))
  {
    var all := SortedChanges(Fold(map[], ChangesOf(Raw(rows))));
    ChunksCarryAll(LastMergedSid(rows), all);
    PassIsPlain(Raw(rows));
    EmitProjections(PassOf(Raw(rows)), MergedPackets(rows), LastMergedSid(rows));
  }

  /** A device that replays the compressed page ends as if it had replayed every row. */
  lemma {:induction false} PageReplaysLikeRows(v: View, rows: seq<Row>)
    ensures Replay(v, PagePackets(rows)) == Replay(v, Raw(rows))
  {
    var raw := ChangesOf(Raw(rows));
    var all := SortedChanges(Fold(map[], raw));
    PageProjections(rows);
    ReplayFactors(v, PagePackets(rows));
    ReplayFactors(v, Raw(rows));
    SortedChangesRoundTrip(Fold(map[], raw));
    FoldIsJoin(v.kept, raw);
    FoldIsJoin(v.kept, all);
  }
}
