/** Where things sit in one page: order of rids, number and place of the merged packets,
    and which row the reply's cursor names. */
module PipelineLayout {
  import opened PipelineTypes
  import opened PipelinePage

  /** A row contributes to a page unless it is an entity push without changes. */
  predicate Productive(row: Row) {
    !IsEntityPush(ToPacket(row)) || row.body.changes != []
  }

  ghost predicate Barren(rows: seq<Row>) {
    forall i :: 0 <= i < |rows| ==> !Productive(rows[i])
  }

  ghost predicate RidsAscend(packets: seq<Packet>) {
    forall i, j :: 0 <= i < j < |packets| ==> packets[i].rid <= packets[j].rid
  }

  lemma {:induction false} RawInit(rows: seq<Row>)
    requires rows != []
    ensures Raw(rows)[..|rows| - 1] == Raw(rows[..|rows| - 1])
    ensures Raw(rows)[|rows| - 1] == ToPacket(rows[|rows| - 1])
  {}

  /** The untouched packets keep the order of their rows. */
  lemma {:induction false} PassedFollowRows(rows: seq<Row>)
    requires Ascending(rows)
    ensures RidsAscend(PassOf(Raw(rows)))
    ensures forall p :: p in PassOf(Raw(rows)) ==> exists i :: 0 <= i < |rows| && p == ToPacket(rows[i])
  {
    if rows == [] {
    } else {
      var n := |rows| - 1;
      RawInit(rows);
      PassedFollowRows(rows[..n]);
      var front := PassOf(Raw(rows[..n]));
      forall p | p in PassOf(Raw(rows))
        ensures exists i :: 0 <= i < |rows| && p == ToPacket(rows[i])
      {
        if p in front {
          var i :| 0 <= i < n && p == ToPacket(rows[..n][i]);
          assert p == ToPacket(rows[i]);
        }
      }
      forall i | 0 <= i < |front|
        ensures front[i].rid < rows[n].sid
      {
        assert front[i] in front;
        var j :| 0 <= j < n && front[i] == ToPacket(rows[..n][j]);
      }
    }
  }

  lemma {:induction false} LastPassed(rows: seq<Row>) returns (j: int)
    ensures -1 <= j < |rows|
    ensures j >= 0 ==> !IsEntityPush(ToPacket(rows[j])) && PassOf(Raw(rows)) != [] &&
                       PassOf(Raw(rows))[|PassOf(Raw(rows))| - 1] == ToPacket(rows[j])
    ensures j == -1 ==> PassOf(Raw(rows)) == []
    ensures forall i :: j < i < |rows| ==> IsEntityPush(ToPacket(rows[i]))
  {
    j := -1;
    if rows == [] {
    } else {
      var n := |rows| - 1;
      RawInit(rows);
      if IsEntityPush(ToPacket(rows[n])) {
        j := LastPassed(rows[..n]);
      } else {
        j := n;
      }
    }
  }

  lemma {:induction false} LastMerged(rows: seq<Row>) returns (j: int)
    ensures -1 <= j < |rows|
    ensures j >= 0 ==> IsEntityPush(ToPacket(rows[j])) && LastMergedSid(rows) == rows[j].sid
    ensures j == -1 ==> LastMergedSid(rows) == 0
    ensures forall i :: j < i < |rows| ==> !IsEntityPush(ToPacket(rows[i]))
  {
    j := -1;
    if rows == [] {
    } else {
      var n := |rows| - 1;
      if IsEntityPush(ToPacket(rows[n])) {
        j := n;
      } else {
        j := LastMerged(rows[..n]);
      }
    }
  }

  lemma {:induction false} ChangesOfRows(rows: seq<Row>)
    ensures ChangesOf(Raw(rows)) == [] <==>
            forall i :: 0 <= i < |rows| && IsEntityPush(ToPacket(rows[i])) ==> rows[i].body.changes == []
  {
    if rows == [] {
    } else {
      RawInit(rows);
      ChangesOfRows(rows[..|rows| - 1]);
      assert forall i :: 0 <= i < |rows| - 1 ==> rows[..|rows| - 1][i] == rows[i];
    }
  }

  lemma {:induction false} MergedPacketsEmpty(rows: seq<Row>)
    ensures MergedPackets(rows) == [] <==> ChangesOf(Raw(rows)) == []
  {
    var changes := ChangesOf(Raw(rows));
    var m := Fold(map[], changes);
    ChunksShape(SortedChanges(m));
    SortedChangesList(m);
    if changes != [] {
      assert m != map[] by {
        var _ := FoldKeepsFirstMax(changes, changes[0].Target());
      }
    }
  }

  lemma {:induction false} OrderedJoin(before: seq<Packet>, merged: seq<Packet>, after: seq<Packet>, rid: int)
    requires RidsAscend(before) && RidsAscend(after)
    requires forall p :: p in before ==> p.rid <= rid
    requires forall p :: p in merged ==> p.rid == rid
    requires forall p :: p in after ==> p.rid > rid
    ensures RidsAscend(before + merged + after)
  {
    var all := before + merged + after;
    forall i, j | 0 <= i < j < |all|
      ensures all[i].rid <= all[j].rid
    {
      var a, b := |before|, |before| + |merged|;
      assert if i < a then all[i] in before else if i < b then all[i] in merged else all[i] in after;
      assert if j < a then all[j] in before else if j < b then all[j] in merged else all[j] in after;
      assert i >= b ==> all[i] == after[i - b] && all[j] == after[j - b];
      assert j < a ==> all[i] == before[i] && all[j] == before[j];
    }
  }

  lemma {:induction false} SlotSplits(passed: seq<Packet>, rid: int)
    requires RidsAscend(passed)
    ensures forall p :: p in passed[..SlotAfter(passed, rid)] ==> p.rid <= rid
    ensures forall p :: p in passed[SlotAfter(passed, rid)..] ==> p.rid > rid
  {
    var k := SlotAfter(passed, rid);
    var after := passed[k..];
    forall p | p in after
      ensures p.rid > rid
    {
      var i :| 0 <= i < |after| && after[i] == p;
      assert after[i] == passed[k + i] && (i == 0 || passed[k].rid <= passed[k + i].rid);
    }
  }

  lemma {:induction false} MergedShape(rid: int, m: Merged)
    ensures var merged := PushAll(rid, Chunks(SortedChanges(m)));
            && (forall p :: p in merged ==>
                  p.rid == rid && IsEntityPush(p) && 0 < |p.body.changes| <= MERGE_CHANGES_LIMIT)
            && KeysAscend(ChangesOf(merged)) && Lists(ChangesOf(merged), m)
            && |merged| == (|m| + MERGE_CHANGES_LIMIT - 1) / MERGE_CHANGES_LIMIT
  {
    SortedChangesList(m);
    ChunksShape(SortedChanges(m));
    ChunksCarryAll(rid, SortedChanges(m));
  }

  ghost predicate IsLayout(packets: seq<Packet>, passed: seq<Packet>, m: Merged, rid: int,
                           before: seq<Packet>, merged: seq<Packet>, after: seq<Packet>)
  {
    && packets == before + merged + after
    && before + after == passed
    && (forall p :: p in before ==> p.rid <= rid)
    && (forall p :: p in after ==> p.rid > rid)
    && (forall p :: p in merged ==> p.rid == rid && IsEntityPush(p) && 0 < |p.body.changes| <= MERGE_CHANGES_LIMIT)
    && KeysAscend(ChangesOf(merged)) && Lists(ChangesOf(merged), m)
    && |merged| == (|m| + MERGE_CHANGES_LIMIT - 1) / MERGE_CHANGES_LIMIT
    && RidsAscend(packets)
  }

  lemma {:induction false} LayoutOf(passed: seq<Packet>, m: Merged, rid: int)
      returns (before: seq<Packet>, merged: seq<Packet>, after: seq<Packet>)
    requires RidsAscend(passed)
    ensures merged == PushAll(rid, Chunks(SortedChanges(m)))
    ensures IsLayout(Emit(passed, merged, rid), passed, m, rid, before, merged, after)
  {
    var k := SlotAfter(passed, rid);
    before, merged, after := passed[..k], PushAll(rid, Chunks(SortedChanges(m))), passed[k..];
    SlotSplits(passed, rid);
    MergedShape(rid, m);
    assert before + after == passed;
    OrderedJoin(before, merged, after, rid);
  }

  /** The shape of a page: ceil(n / 2048) merged packets for n entities, none empty or over
      the limit, side by side, each entity once and in key order, after exactly the other
      packets whose rid is not larger; rids never go down. */
  lemma {:induction false} PageLayout(rows: seq<Row>)
    returns (before: seq<Packet>, merged: seq<Packet>, after: seq<Packet>)
    requires Ascending(rows)
    ensures IsLayout(PagePackets(rows), PassOf(Raw(rows)), Fold(map[], ChangesOf(Raw(rows))),
                     LastMergedSid(rows), before, merged, after)
  {
    PassedFollowRows(rows);
    before, merged, after := LayoutOf(PassOf(Raw(rows)), Fold(map[], ChangesOf(Raw(rows))), LastMergedSid(rows));
  }

  lemma {:induction false} EmitLast(passed: seq<Packet>, merged: seq<Packet>, rid: int)
    ensures merged == [] ==> Emit(passed, merged, rid) == passed
    ensures merged != [] ==>
              var all := Emit(passed, merged, rid);
              all != [] && all[|all| - 1] ==
                if SlotAfter(passed, rid) < |passed| then passed[|passed| - 1] else merged[|merged| - 1]
  {
    var k := SlotAfter(passed, rid);
    assert passed[..k] + passed[k..] == passed;
    assert passed[..k] + [] == passed[..k];
  }

  /** With a push in the window, the slot is at the end exactly when the last row is a push. */
  lemma {:induction false} SlotAtEnd(rows: seq<Row>)
    requires Ascending(rows) && rows != []
    requires exists i :: 0 <= i < |rows| && IsEntityPush(ToPacket(rows[i]))
    ensures var passed := PassOf(Raw(rows));
            if IsEntityPush(ToPacket(rows[|rows| - 1])) then
              SlotAfter(passed, LastMergedSid(rows)) == |passed| && LastMergedSid(rows) == rows[|rows| - 1].sid
            else
              SlotAfter(passed, LastMergedSid(rows)) < |passed| && passed[|passed| - 1] == ToPacket(rows[|rows| - 1])
  {
    var passed, n := PassOf(Raw(rows)), |rows| - 1;
    var k := SlotAfter(passed, LastMergedSid(rows));
    var jm := LastMerged(rows);
    if IsEntityPush(ToPacket(rows[n])) {
      if k < |passed| {
        PassedFollowRows(rows);
        assert passed[k] in passed;
        var i :| 0 <= i < |rows| && passed[k] == ToPacket(rows[i]);
        assert false;
      }
    } else {
      RawInit(rows);
      assert rows[jm].sid < rows[n].sid;
      assert passed[|passed| - 1] == ToPacket(rows[n]);
      assert passed[|passed| - 1].rid > LastMergedSid(rows);
    }
  }

  lemma {:induction false} MergedRids(rows: seq<Row>)
    ensures forall p :: p in MergedPackets(rows) ==> p.rid == LastMergedSid(rows)
  {}

  /** The rid of a page's last packet when something was merged. */
  lemma {:induction false} LastRidMerged(rows: seq<Row>)
    requires Ascending(rows) && MergedPackets(rows) != []
    ensures rows != [] && PagePackets(rows) != []
    ensures PagePackets(rows)[|PagePackets(rows)| - 1].rid == rows[|rows| - 1].sid
  {
    var mp := MergedPackets(rows);
    MergedPacketsEmpty(rows);
    ChangesOfRows(rows);
    SlotAtEnd(rows);
    MergedRids(rows);
    assert mp[|mp| - 1] in mp;
    EmitLast(PassOf(Raw(rows)), mp, LastMergedSid(rows));
  }

  lemma {:induction false} PassedTail(rows: seq<Row>) returns (j: int)
    requires ChangesOf(Raw(rows)) == []
    ensures -1 <= j < |rows|
    ensures j == -1 <==> PassOf(Raw(rows)) == []
    ensures j >= 0 ==> PassOf(Raw(rows))[|PassOf(Raw(rows))| - 1] == ToPacket(rows[j])
    ensures Barren(rows[j + 1..])
    ensures j == -1 <==> Barren(rows)
  {
    j := LastPassed(rows);
    ChangesOfRows(rows);
    assert j >= 0 ==> Productive(rows[j]);
  }

  /** The last packet of a page names a row of the window; every row behind it carried no
      change at all. With any change in the window that row is the last one. An empty page
      means the whole window was empty pushes. */
  lemma {:induction false} PageCursor(rows: seq<Row>) returns (j: int)
    requires Ascending(rows)
    ensures -1 <= j < |rows|
    ensures j == -1 <==> PagePackets(rows) == []
    ensures j >= 0 ==> PagePackets(rows)[|PagePackets(rows)| - 1].rid == rows[j].sid
    ensures Barren(rows[j + 1..])
    ensures ChangesOf(Raw(rows)) != [] ==> j == |rows| - 1
    ensures j == -1 <==> Barren(rows)
  {
    MergedPacketsEmpty(rows);
    if MergedPackets(rows) == [] {
      EmitLast(PassOf(Raw(rows)), [], LastMergedSid(rows));
      j := PassedTail(rows);
    } else {
      LastRidMerged(rows);
      j := |rows| - 1;
      NotBarren(rows);
    }
  }

  lemma {:induction false} NotBarren(rows: seq<Row>)
    requires ChangesOf(Raw(rows)) != []
    ensures !Barren(rows)
  {
    ChangesOfRows(rows);
    var i :| 0 <= i < |rows| && IsEntityPush(ToPacket(rows[i])) && rows[i].body.changes != [];
    assert Productive(rows[i]);
  }

  /** Empty pushes leave a replaying device as it was. */
  lemma {:induction false} BarrenRowsReplayToNothing(v: View, rows: seq<Row>)
    requires Barren(rows)
    ensures Replay(v, Raw(rows)) == v
  {
    if rows == [] {
    } else {
      RawInit(rows);
      BarrenRowsReplayToNothing(v, rows[..|rows| - 1]);
      assert !Productive(rows[|rows| - 1]);
    }
  }
}
