/** The calendar client catching up: does a whole sequence of compressed pages leave its tables as
    the unread rows would have? */
module CalendarSync {
  import opened PipelineTypes
  import opened PipelinePage
  import opened PipelineStore
  import opened PipelineSync
  import opened CalendarStore
  import opened CalendarReplay

  function Delivered(pages: seq<seq<Row>>): seq<Change> {
    if pages == [] then [] else ChangesOf(PagePackets(pages[0])) + Delivered(pages[1..])
  }

  function HeldIn(pages: seq<seq<Row>>, p: nat): seq<Change>
    requires p < |pages|
  {
    ChangesOf(Raw(pages[p]))
  }

  /** Change number i of window p is about this entity and is this strong. */
  ghost predicate Holds(pages: seq<seq<Row>>, p: nat, i: nat, k: Key, strength: int) {
    && p < |pages| && i < |HeldIn(pages, p)|
    && HeldIn(pages, p)[i].Target() == k && Strength(HeldIn(pages, p)[i].operate) == strength
  }

  /** The change to this entity that page p keeps is change number w of its window, and is
      this strong. */
  ghost predicate Keeps(pages: seq<seq<Row>>, p: nat, w: nat, k: Key, strength: int) {
    && p < |pages| && IsFirstMax(HeldIn(pages, p), k, w)
    && Strength(HeldIn(pages, p)[w].operate) == strength
  }

  lemma {:induction false} HeldStrength(pages: seq<seq<Row>>, k: Key)
    ensures forall p: nat, i: nat, s :: Holds(pages, p, i, k, s) ==> s <= Strongest(ChangesOfPages(pages), k)
    ensures var s := Strongest(ChangesOfPages(pages), k); s > 0 ==> exists p: nat, i: nat :: Holds(pages, p, i, k, s)
  {
    hide ChangesOf, Raw;
    if pages == [] {
    } else {
      var head, rest := HeldIn(pages, 0), pages[1..];
      HeldStrength(rest, k);
      StrongestBounds(head, k);
      StrongestConcat(head, ChangesOfPages(rest), k);
      forall p: nat, i: nat, s | Holds(pages, p, i, k, s)
        ensures s <= Strongest(ChangesOfPages(pages), k)
      {
        assert p > 0 ==> Holds(rest, p - 1, i, k, s);
      }
      var s := Strongest(ChangesOfPages(pages), k);
      if s > 0 && s == Strongest(head, k) {
        var i :| 0 <= i < |head| && head[i].Target() == k && Strength(head[i].operate) == s;
        assert Holds(pages, 0, i, k, s);
      } else if s > 0 {
        var p: nat, i: nat :| Holds(rest, p, i, k, s);
        assert Holds(pages, p + 1, i, k, s);
      }
    }
  }

  /** What one page does to an entity is what its kept change does. */
  lemma {:induction false} KeptStrength(changes: seq<Change>, k: Key)
    ensures forall w: nat :: IsFirstMax(changes, k, w) ==>
              Strongest(Compressed(changes), k) == Strength(changes[w].operate)
    ensures Strongest(Compressed(changes), k) > 0 ==> exists w: nat :: IsFirstMax(changes, k, w)
    ensures (exists i :: 0 <= i < |changes| && changes[i].Target() == k) ==> exists w: nat :: IsFirstMax(changes, k, w)
  {
    var m := Fold(map[], changes);
    SortedChangesList(m);
    StrongestOfListing(Compressed(changes), m, k);
    var w0 := FoldKeepsFirstMax(changes, k);
    forall w: nat | IsFirstMax(changes, k, w)
      ensures w == w0
    {
      assert w < w0 || w0 < w || w == w0;
    }
  }

  lemma {:induction false} DeliveredStrength(pages: seq<seq<Row>>, k: Key)
    ensures forall p: nat, w: nat, s :: Keeps(pages, p, w, k, s) ==> s <= Strongest(Delivered(pages), k)
    ensures var s := Strongest(Delivered(pages), k); s > 0 ==> exists p: nat, w: nat :: Keeps(pages, p, w, k, s)
  {
    hide ChangesOf, Raw, Compressed, PagePackets, IsFirstMax;
    if pages == [] {
    } else {
      var head, rest := HeldIn(pages, 0), pages[1..];
      DeliveredStrength(rest, k);
      PageIsCompressed(pages[0]);
      KeptStrength(head, k);
      StrongestConcat(Compressed(head), Delivered(rest), k);
      forall p: nat, w: nat, s | Keeps(pages, p, w, k, s)
        ensures s <= Strongest(Delivered(pages), k)
      {
        assert p > 0 ==> Keeps(rest, p - 1, w, k, s);
      }
      var s := Strongest(Delivered(pages), k);
      if s > 0 && s == Strongest(Compressed(head), k) {
        var w: nat :| IsFirstMax(head, k, w);
        assert Keeps(pages, 0, w, k, s);
      } else if s > 0 {
        var p: nat, w: nat :| Keeps(rest, p, w, k, s);
        assert Keeps(pages, p + 1, w, k, s);
      }
    }
  }

  lemma {:induction false} PageIsCompressed(rows: seq<Row>)
    ensures ChangesOf(PagePackets(rows)) == Compressed(ChangesOf(Raw(rows)))
  {
    PageProjections(rows);
  }

  ghost predicate Matched(pages: seq<seq<Row>>, k: Key, strength: int) {
    exists q: nat, w: nat, s :: s >= strength && Keeps(pages, q, w, k, s)
  }

  /** Every change to a calendar or schedule is matched by some page's kept change. */
  ghost predicate StrongestIsKept(pages: seq<seq<Row>>) {
    forall p: nat, i: nat, k: Key, s :: IsLocal(k) && Holds(pages, p, i, k, s) ==> Matched(pages, k, s)
  }

  lemma {:induction false} KeptIsHeld(pages: seq<seq<Row>>, p: nat, w: nat, k: Key, strength: int)
    requires Keeps(pages, p, w, k, strength)
    ensures Holds(pages, p, w, k, strength)
  {}

  lemma {:induction false} HeldIsKept(pages: seq<seq<Row>>, p: nat, i: nat, k: Key, strength: int)
    returns (w: nat, s: int)
    requires Holds(pages, p, i, k, strength)
    ensures s >= 0 && Keeps(pages, p, w, k, s)
  {
    hide ChangesOf, Raw;
    w := FoldKeepsFirstMax(HeldIn(pages, p), k);
    s := Strength(HeldIn(pages, p)[w].operate);
  }

  lemma {:induction false} KeptNotStronger(pages: seq<seq<Row>>, k: Key)
    ensures 0 <= Strongest(Delivered(pages), k) <= Strongest(ChangesOfPages(pages), k)
  {
    hide Delivered, ChangesOfPages, Strongest, Keeps, Holds;
    HeldStrength(pages, k);
    DeliveredStrength(pages, k);
    var s := Strongest(Delivered(pages), k);
    if s > 0 {
      var q: nat, w: nat :| Keeps(pages, q, w, k, s);
      KeptIsHeld(pages, q, w, k, s);
    }
  }

  lemma {:induction false} MatchedByStrongest(pages: seq<seq<Row>>, p: nat, i: nat, k: Key, strength: int)
    requires Holds(pages, p, i, k, strength) && strength <= Strongest(Delivered(pages), k)
    ensures Matched(pages, k, strength)
  {
    hide Delivered, Strongest, Keeps, Holds;
    var s := Strongest(Delivered(pages), k);
    DeliveredStrength(pages, k);
    if s > 0 {
      var q: nat, w: nat :| Keeps(pages, q, w, k, s);
    } else {
      var w, s' := HeldIsKept(pages, p, i, k, strength);
    }
  }

  lemma {:induction false} NotMatched(pages: seq<seq<Row>>, k: Key, strength: int)
    requires strength > Strongest(Delivered(pages), k)
    ensures !Matched(pages, k, strength)
  {
    hide Delivered, Strongest, Keeps;
    DeliveredStrength(pages, k);
  }

  lemma {:induction false} KeptIffAsStrongAt(pages: seq<seq<Row>>, k: Key)
    ensures (forall p: nat, i: nat, s :: Holds(pages, p, i, k, s) ==> Matched(pages, k, s)) <==>
            Strongest(Delivered(pages), k) == Strongest(ChangesOfPages(pages), k)
  {
    hide *;
    var kept, held := Strongest(Delivered(pages), k), Strongest(ChangesOfPages(pages), k);
    HeldStrength(pages, k);
    DeliveredStrength(pages, k);
    KeptNotStronger(pages, k);
    if kept == held {
      forall p: nat, i: nat, s | Holds(pages, p, i, k, s)
        ensures Matched(pages, k, s)
      {
        MatchedByStrongest(pages, p, i, k, s);
      }
    } else {
      var p: nat, i: nat :| Holds(pages, p, i, k, held);
      NotMatched(pages, k, held);
    }
  }

  lemma {:induction false} KeptIffAsStrong(pages: seq<seq<Row>>)
    ensures StrongestIsKept(pages) <==> SameStrengths(Delivered(pages), ChangesOfPages(pages))
  {
    hide Delivered, ChangesOfPages, Strongest, IsLocal, Holds, Matched;
    forall k: Key
      ensures (forall p: nat, i: nat, s :: Holds(pages, p, i, k, s) ==> Matched(pages, k, s)) <==>
              Strongest(Delivered(pages), k) == Strongest(ChangesOfPages(pages), k)
    {
      KeptIffAsStrongAt(pages, k);
    }
  }

  /** A client that catches up page after page ends with the store it would have after
      replaying the stored rows one by one, exactly when every change to a calendar or
      schedule is matched by a kept change as strong, in that page or another one. */
  lemma {:induction false} SyncIsFaithfulIff(rows: seq<Row>, watermark: int, cursor: int, load: nat,
                                            pages: seq<seq<Row>>)
    requires Ascending(rows) && load > 0 && cursor > 0 && cursor >= watermark && NeverStalls(rows, load)
    requires PagesOf(rows, watermark, cursor, load, pages)
    ensures SameOnEveryStore(Delivered(pages), ChangesOf(Raw(Newer(rows, cursor)))) <==> StrongestIsKept(pages)
  {
    hide *;
    PagesHoldTheUnread(rows, watermark, cursor, load, pages);
    SameOnEveryStoreIff(Delivered(pages), ChangesOfPages(pages));
    KeptIffAsStrong(pages);
  }

  lemma {:induction false} WellVersionedParts(a: seq<Change>, b: seq<Change>)
    requires WellVersioned(a + b)
    ensures WellVersioned(a) && WellVersioned(b)
  {
    var all := a + b;
    forall i, j | 0 <= i < j < |a| && a[i].Target() == a[j].Target()
      ensures a[i].version < a[j].version && a[i].operate != OPERATE_DELETE
    {
      assert all[i] == a[i] && all[j] == a[j];
    }
    forall i, j | 0 <= i < j < |b| && b[i].Target() == b[j].Target()
      ensures b[i].version < b[j].version && b[i].operate != OPERATE_DELETE
    {
      assert all[|a| + i] == b[i] && all[|a| + j] == b[j];
    }
    forall i | 0 <= i < |a| ensures a[i].operate == OPERATE_UPDATE || a[i].operate == OPERATE_DELETE {
      assert all[i] == a[i];
    }
    forall i | 0 <= i < |b| ensures b[i].operate == OPERATE_UPDATE || b[i].operate == OPERATE_DELETE {
      assert all[|a| + i] == b[i];
    }
  }

  lemma {:induction false} WellVersionedPages(pages: seq<seq<Row>>, p: nat)
    requires WellVersioned(ChangesOfPages(pages)) && p < |pages|
    ensures WellVersioned(HeldIn(pages, p))
  {
    hide ChangesOf, Raw, WellVersioned;
    WellVersionedParts(HeldIn(pages, 0), ChangesOfPages(pages[1..]));
    if p == 0 {
    } else {
      WellVersionedPages(pages[1..], p - 1);
    }
  }

  /** Where versions strictly increase over all the unread rows and nothing follows a delete, every
      page keeps the strongest change it holds, and catching up is faithful. */
  lemma {:induction false} WellVersionedSyncIsFaithful(rows: seq<Row>, watermark: int, cursor: int, load: nat,
                                                      pages: seq<seq<Row>>)
    requires Ascending(rows) && load > 0 && cursor > 0 && cursor >= watermark && NeverStalls(rows, load)
    requires PagesOf(rows, watermark, cursor, load, pages)
    requires WellVersioned(ChangesOf(Raw(Newer(rows, cursor))))
    ensures StrongestIsKept(pages)
    ensures SameOnEveryStore(Delivered(pages), ChangesOf(Raw(Newer(rows, cursor))))
  {
    hide *;
    PagesHoldTheUnread(rows, watermark, cursor, load, pages);
    WellVersionedIsKept(pages);
    SyncIsFaithfulIff(rows, watermark, cursor, load, pages);
  }

  lemma {:induction false} WellVersionedIsKept(pages: seq<seq<Row>>)
    requires WellVersioned(ChangesOfPages(pages))
    ensures StrongestIsKept(pages)
  {
    hide ChangesOfPages, WellVersioned, Holds, Keeps, IsLocal;
    forall p: nat, i: nat, k: Key, s | Holds(pages, p, i, k, s)
      ensures Matched(pages, k, s)
    {
      WellVersionedWinner(pages, p, i, k, s);
    }
  }

  lemma {:induction false} WellVersionedWinner(pages: seq<seq<Row>>, p: nat, i: nat, k: Key, strength: int)
    requires WellVersioned(ChangesOfPages(pages)) && Holds(pages, p, i, k, strength)
    ensures Matched(pages, k, strength)
  {
    hide ChangesOf, Raw, ChangesOfPages;
    WellVersionedPages(pages, p);
    var held := HeldIn(pages, p);
    var w := FoldKeepsFirstMax(held, k);
    assert i <= w;
    assert Keeps(pages, p, w, k, Strength(held[w].operate));
  }
}
