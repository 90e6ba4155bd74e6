/** Replaying entity changes into the calendar client's tables: what a list of changes leaves, and
    whether a compressed page does what its rows did. */
module CalendarReplay {
  import opened PipelineTypes
  import opened PipelinePage
  import opened CalendarStore

  // ---- one entity at a time ----

  predicate IsLocal(k: Key) {
    k.tpy == CALENDAR || k.tpy == SCHEDULE
  }

  function TableOf(t: Tables, k: Key): map<int, bool> {
    if k.tpy == CALENDAR then t.calendars else t.schedules
  }

  /** Deleting beats marking dirty beats doing nothing. */
  function Strength(operate: int): int {
    if operate == OPERATE_DELETE then 2 else if operate == OPERATE_UPDATE then 1 else 0
  }

  /** The strongest thing any change in the list does to this entity. */
  function Strongest(changes: seq<Change>, k: Key): (s: int)
    ensures 0 <= s <= 2
  {
    if changes == [] then 0
    else
      var c := changes[|changes| - 1];
      var s := Strongest(changes[..|changes| - 1], k);
      if c.Target() == k && Strength(c.operate) > s then Strength(c.operate) else s
  }

  lemma {:induction false} StrongestBounds(changes: seq<Change>, k: Key)
    ensures forall i | 0 <= i < |changes| && changes[i].Target() == k ::
      Strength(changes[i].operate) <= Strongest(changes, k)
    ensures Strongest(changes, k) > 0 ==>
              exists i :: 0 <= i < |changes| && changes[i].Target() == k
                  && Strength(changes[i].operate) == Strongest(changes, k)
  {
    if changes == [] {
    } else {
      var n := |changes| - 1;
      var front := changes[..n];
      StrongestBounds(front, k);
      forall i | 0 <= i < |changes| && changes[i].Target() == k
        ensures Strength(changes[i].operate) <= Strongest(changes, k)
      {
        assert i < n ==> front[i] == changes[i];
      }
      if Strongest(changes, k) > 0 {
        if Strongest(front, k) == Strongest(changes, k) {
          var i :| 0 <= i < n && front[i].Target() == k && Strength(front[i].operate) == Strongest(front, k);
          assert changes[i] == front[i];
        }
      }
    }
  }

  lemma {:induction false} StrongestConcat(a: seq<Change>, b: seq<Change>, k: Key)
    ensures Strongest(a + b, k) == if Strongest(a, k) < Strongest(b, k) then Strongest(b, k) else Strongest(a, k)
  {
    if b == [] {
      assert a + b == a;
    } else {
      StrongestConcat(a, b[..|b| - 1], k);
      assert (a + b)[..|a + b| - 1] == a + b[..|b| - 1];
    }
  }

  /** What replaying a list leaves of one entity depends only on the strongest change to it. */
  ghost predicate Leaves(before: map<int, bool>, after: map<int, bool>, id: int, strength: int) {
    && (id in after <==> id in before && strength < 2)
    && (id in after ==> after[id] == (before[id] || strength == 1))
  }

  lemma {:induction false} ReplayLeaves(t: Tables, changes: seq<Change>, k: Key)
    requires IsLocal(k)
    ensures Leaves(TableOf(t, k), TableOf(HandleAll(t, changes), k), k.id, Strongest(changes, k))
  {
    if changes == [] {
    } else {
      ReplayLeaves(t, changes[..|changes| - 1], k);
    }
  }

  /** Some change has this type, id and operation. */
  ghost predicate Told(changes: seq<Change>, tpy: int, id: int, operate: int) {
    exists i :: 0 <= i < |changes| && changes[i].tpy == tpy && changes[i].id == id && changes[i].operate == operate
  }

  lemma {:induction false} ToldNext(changes: seq<Change>, tpy: int, id: int, operate: int)
    requires changes != []
    ensures var n := |changes| - 1;
            Told(changes, tpy, id, operate) <==>
              || Told(changes[..n], tpy, id, operate)
              || (changes[n].tpy == tpy && changes[n].id == id && changes[n].operate == operate)
  {
    var n := |changes| - 1;
    if Told(changes[..n], tpy, id, operate) {
      var i :| 0 <= i < n && changes[..n][i].tpy == tpy && changes[..n][i].id == id
               && changes[..n][i].operate == operate;
      assert changes[i].tpy == tpy;
    }
    if Told(changes, tpy, id, operate) {
      var i :| 0 <= i <= n && changes[i].tpy == tpy && changes[i].id == id && changes[i].operate == operate;
      assert i < n ==> changes[..n][i].tpy == tpy;
    }
  }

  /** Type 21 is a calendar, 22 a schedule; operation 3 deletes, 2 updates. A row is left exactly when
      no change deletes it, and it is marked exactly when it was or a change updates it. */
  lemma {:induction false} RowsLeftAndMarked(t: Tables, changes: seq<Change>, id: int)
    ensures var after := HandleAll(t, changes);
            && (id in after.calendars <==> id in t.calendars && !Told(changes, 21, id, 3))
            && (id in after.calendars ==> after.calendars[id] == (t.calendars[id] || Told(changes, 21, id, 2)))
            && (id in after.schedules <==> id in t.schedules && !Told(changes, 22, id, 3))
            && (id in after.schedules ==> after.schedules[id] == (t.schedules[id] || Told(changes, 22, id, 2)))
  {
    if changes == [] {
    } else {
      hide Told;
      RowsLeftAndMarked(t, changes[..|changes| - 1], id);
      ToldNext(changes, 21, id, 3);
      ToldNext(changes, 21, id, 2);
      ToldNext(changes, 22, id, 3);
      ToldNext(changes, 22, id, 2);
    }
  }

  ghost predicate SameStrengths(a: seq<Change>, b: seq<Change>) {
    forall k: Key :: IsLocal(k) ==> Strongest(a, k) == Strongest(b, k)
  }

  lemma {:induction false} SameTables(t: Tables, a: seq<Change>, b: seq<Change>)
    requires SameStrengths(a, b)
    ensures HandleAll(t, a) == HandleAll(t, b)
  {
    var ta, tb := HandleAll(t, a), HandleAll(t, b);
    forall id: int
      ensures id in ta.calendars <==> id in tb.calendars
      ensures id in ta.calendars && id in tb.calendars ==> ta.calendars[id] == tb.calendars[id]
      ensures id in ta.schedules <==> id in tb.schedules
      ensures id in ta.schedules && id in tb.schedules ==> ta.schedules[id] == tb.schedules[id]
    {
      ReplayLeaves(t, a, Key(CALENDAR, id));
      ReplayLeaves(t, b, Key(CALENDAR, id));
      ReplayLeaves(t, a, Key(SCHEDULE, id));
      ReplayLeaves(t, b, Key(SCHEDULE, id));
      assert IsLocal(Key(CALENDAR, id)) && IsLocal(Key(SCHEDULE, id));
    }
    assert ta.calendars == tb.calendars;
    assert ta.schedules == tb.schedules;
  }

  ghost predicate SameOnEveryStore(a: seq<Change>, b: seq<Change>) {
    forall t: Tables :: HandleAll(t, a) == HandleAll(t, b)
  }

  /** Two lists of changes do the same to every store exactly when they are equally strong on
      every calendar and schedule. */
  lemma {:induction false} SameOnEveryStoreIff(a: seq<Change>, b: seq<Change>)
    ensures SameOnEveryStore(a, b) <==> SameStrengths(a, b)
  {
    if SameStrengths(a, b) {
      forall t: Tables
        ensures HandleAll(t, a) == HandleAll(t, b)
      {
        SameTables(t, a, b);
      }
    } else {
      var k: Key :| IsLocal(k) && Strongest(a, k) != Strongest(b, k);
      var t := Tables(map[k.id := false], map[k.id := false]);
      ReplayLeaves(t, a, k);
      ReplayLeaves(t, b, k);
      assert HandleAll(t, a) != HandleAll(t, b);
    }
  }

  // ---- compressed against raw ----

  function Compressed(changes: seq<Change>): seq<Change> {
    SortedChanges(Fold(map[], changes))
  }

  lemma {:induction false} StrongestOfListing(changes: seq<Change>, m: Merged, k: Key)
    requires KeysAscend(changes) && Lists(changes, m)
    ensures Strongest(changes, k) == if k in m then Strength(m[k].operate) else 0
  {
    StrongestBounds(changes, k);
    if k in m {
      var i :| 0 <= i < |changes| && changes[i].Target() == k;
      forall j | 0 <= j < |changes| && changes[j].Target() == k
        ensures j == i
      {}
    }
  }

  /** For every calendar and schedule, the change the merge keeps (the first of greatest
      version) is as strong as any other change to it in the window. */
  ghost predicate WinnersAreStrongest(changes: seq<Change>) {
    forall i, w: nat :: 0 <= i < |changes| && IsLocal(changes[i].Target())
                              && IsFirstMax(changes, changes[i].Target(), w) ==>
      Strength(changes[i].operate) <= Strength(changes[w].operate)
  }

  lemma {:induction false} CompressedStrength(changes: seq<Change>, k: Key)
    ensures Strongest(Compressed(changes), k) <= Strongest(changes, k)
    ensures Strongest(Compressed(changes), k) < Strongest(changes, k) <==>
              exists i, w: nat :: 0 <= i < |changes| && changes[i].Target() == k && IsFirstMax(changes, k, w) &&
                                  Strength(changes[w].operate) < Strength(changes[i].operate)
  {
    var m := Fold(map[], changes);
    SortedChangesList(m);
    StrongestOfListing(Compressed(changes), m, k);
    StrongestBounds(changes, k);
    var w0 := FoldKeepsFirstMax(changes, k);
    if k in m {
      forall w: nat | IsFirstMax(changes, k, w)
        ensures w == w0
      {
        assert w < w0 || w0 < w || w == w0;
      }
    }
  }

  lemma {:induction false} FaithfulIff(changes: seq<Change>)
    ensures SameOnEveryStore(Compressed(changes), changes) <==> WinnersAreStrongest(changes)
  {
    hide Compressed, Strongest, SameOnEveryStore, IsLocal, Strength;
    SameOnEveryStoreIff(Compressed(changes), changes);
    forall k: Key
      ensures Strongest(Compressed(changes), k) <= Strongest(changes, k)
      ensures Strongest(Compressed(changes), k) < Strongest(changes, k) <==>
                exists i, w: nat :: 0 <= i < |changes| && changes[i].Target() == k && IsFirstMax(changes, k, w) &&
                                    Strength(changes[w].operate) < Strength(changes[i].operate)
    {
      CompressedStrength(changes, k);
    }
  }

  /** The compressed page leaves every local store as the rows would have, exactly when no
      entity's kept change is weaker than another change to it in the same window. */
  lemma {:induction false} CompressionIsFaithfulIff(rows: seq<Row>)
    ensures SameOnEveryStore(ChangesOf(PagePackets(rows)), ChangesOf(Raw(rows))) <==>
            WinnersAreStrongest(ChangesOf(Raw(rows)))
  {
    hide SameOnEveryStore, WinnersAreStrongest, SortedChanges, Fold, PagePackets;
    PageProjections(rows);
    FaithfulIff(ChangesOf(Raw(rows)));
  }

  /** Versions strictly increase per entity, only updates and deletes are sent, and nothing
      follows a delete. */
  ghost predicate WellVersioned(changes: seq<Change>) {
    && (forall i, j :: 0 <= i < j < |changes| && changes[i].Target() == changes[j].Target() ==>
          changes[i].version < changes[j].version && changes[i].operate != OPERATE_DELETE)
    && (forall i :: 0 <= i < |changes| ==> changes[i].operate == OPERATE_UPDATE || changes[i].operate == OPERATE_DELETE)
  }

  lemma {:induction false} WellVersionedIsFaithful(changes: seq<Change>)
    requires WellVersioned(changes)
    ensures SameOnEveryStore(Compressed(changes), changes)
  {
    forall i, w: nat | 0 <= i < |changes| && IsFirstMax(changes, changes[i].Target(), w)
      ensures Strength(changes[i].operate) <= Strength(changes[w].operate)
    {
      assert i <= w;
    }
    FaithfulIff(changes);
  }

  /** A schedule removed right after an edit is announced with the version of that edit: the
      update is kept, the delete is dropped, and the client keeps a schedule that is gone. */
  lemma {:induction false} TiedDeleteIsDropped(id: int, version: int)
    ensures var edit := Change(id, SCHEDULE, version, OPERATE_UPDATE);
            var removal := Change(id, SCHEDULE, version, OPERATE_DELETE);
            var t := Tables(map[], map[id := false]);
            && HandleAll(t, [edit, removal]) == Tables(map[], map[])
            && HandleAll(t, Compressed([edit, removal])) == Tables(map[], map[id := true])
  {
    var edit := Change(id, SCHEDULE, version, OPERATE_UPDATE);
    var removal := Change(id, SCHEDULE, version, OPERATE_DELETE);
    var t := Tables(map[], map[id := false]);
    var both := [edit, removal];
    assert both[..1] == [edit] && [edit][..0] == [];
    assert HandleAll(t, [edit]) == Handle(t, edit);
    assert HandleAll(t, both) == Handle(Handle(t, edit), removal);
    var m := Fold(map[], both);
    assert Fold(map[], [edit]) == map[Key(SCHEDULE, id) := Kept(version, OPERATE_UPDATE)];
    assert m == map[Key(SCHEDULE, id) := Kept(version, OPERATE_UPDATE)];
    SortedChangesList(m);
    var c := SortedChanges(m);
    assert |m| == 1;
    assert c == [edit] by {
      assert c[0].Target() in m;
    }
  }
}
