/** Who may change what in a chat, told by the request and the fields before and after it. */
module ChatRights {
  import opened Basics
  import opened ChatLog
  import opened ChatRuns

  lemma {:induction false} RunNext(c: Chat, es: seq<Event>, e: Event)
    ensures Run(c, es + [e]) == Step(Run(c, es), e)
  {
    assert (es + [e])[..|es|] == es;
  }

  /** Present in the member map and not switched off. */
  predicate Active(c: Chat, user: int) {
    user in c.members && c.members[user].active
  }

  lemma {:induction false} ActiveIs(c: Chat)
    ensures forall user :: user in Ids(c.members) <==> Active(c, user)
  {}

  /** The requests of this kind that are heard at all. */
  predicate Heard(c: Chat, e: Event) {
    match e
    case Send(_, fromId, _, _, dbOk) => c.status == 1 && fromId in c.members && dbOk
    case Add(actor, _, _) => c.chatType != 1 && (c.joinMode != 2 || actor == c.ownerId || actor in c.adminIds)
    case Delete(actor, _, _) => c.chatType != 1 && (actor == c.ownerId || actor in c.adminIds)
    case Leave(actor, _, _) => c.chatType != 1 && actor in c.members
    case Dismiss(actor, _, _) => c.chatType != 1 && actor == c.ownerId
    case Join(user, invited, _) => if invited then user !in c.members else c.chatType != 1
    case Update(actor, _, _) => c.chatType != 1 && (actor == c.ownerId || actor in c.adminIds)
  }

  /** A request that is not heard leaves the whole chat as it was. */
  lemma {:induction false} UnheardChangesNothing(c: Chat, es: seq<Event>, e: Event)
    requires !Heard(Run(c, es), e)
    ensures Run(c, es + [e]) == Run(c, es)
  {
    hide Run;
    RunNext(c, es, e);
  }

  /** An open chat becomes deleted exactly by its owner dismissing it with a write that succeeds, and a
      private chat by nothing; a dismissal by anybody else leaves the whole chat as it was. */
  lemma {:induction false} DismissedIff(c: Chat, es: seq<Event>, e: Event)
    ensures var was, next := Run(c, es), Run(c, es + [e]);
            && (was.status == 1 ==>
                  (next.status == 5 <==> e.Dismiss? && e.dbOk && e.actor == was.ownerId && was.chatType != 1)
                  && (next.status == 1 || next.status == 5))
            && (was.status != 1 ==> next.status == was.status || next.status == 5)
            && (e.Dismiss? && (e.actor != was.ownerId || was.chatType == 1) ==> next == was)
            && (e.Dismiss? && e.actor == was.ownerId && was.chatType != 1 ==>
                  next == was.(version := if was.version < e.now then e.now else was.version + 1,
                             status := if e.dbOk then 5 else was.status))
  {
    hide Run, AddAll, RemoveAll, Without, Ids, AddAdmins;
    RunNext(c, es, e);
  }

  /** The log grows exactly by a send that finds the chat open, the sender's key in the member map and
      the database answering, and then by this one message. */
  lemma {:induction false} LogGrowsIff(c: Chat, es: seq<Event>, e: Event)
    ensures var was, next := Run(c, es), Run(c, es + [e]);
            if e.Send? && was.status == 1 && e.fromId in was.members && e.dbOk then
              && next.log == was.log + [Message(e.id, e.fromId, e.system, was.lastPos + 1,
                                              was.lastBadge + (if e.system then 0 else 1), e.now)]
              && next.lastPos == was.lastPos + 1 && next.lastId == e.id
              && next.lastBadge == was.lastBadge + (if e.system then 0 else 1)
              && next.members == was.members && next.version == was.version
            else next.log == was.log && next.lastPos == was.lastPos && next.lastId == was.lastId
                 && next.lastBadge == was.lastBadge
  {
    hide Run, AddAll, RemoveAll, Without, Ids, AddAdmins;
    RunNext(c, es, e);
  }

  /** Who is in the map and who is a member after one request: only these four kinds change it. */
  lemma {:induction false} MemberIff(c: Chat, es: seq<Event>, e: Event, user: int)
    ensures var was, next := Run(c, es), Run(c, es + [e]);
            && (Active(next, user) <==>
                  match e
                  case Add(_, ids, _) => Active(was, user) || (Heard(was, e) && user in ids)
                  case Join(joiner, _, _) => Active(was, user) || (Heard(was, e) && user == joiner)
                  case Delete(_, ids, _) => Active(was, user) && !(Heard(was, e) && user in ids)
                  case Leave(actor, _, _) => Active(was, user) && !(Heard(was, e) && user == actor)
                  case _ => Active(was, user))
            && (user in next.members <==>
                  user in was.members ||
                  (Heard(was, e) && ((e.Add? && user in e.ids) || (e.Join? && user == e.user))))
  {
    hide Run, AddAll, RemoveAll, RemoveOne, Without, AddAdmins, Ids;
    RunNext(c, es, e);
    ActiveIs(Run(c, es));
    ActiveIs(Run(c, es + [e]));
    if Accepts(Run(c, es), e) {
      StepMembers(Run(c, es), e, user);
    }
  }

  // ---- owner and admins ----

  /** The first of the ids that is not `actor`. */
  ghost predicate FirstOther(ids: seq<int>, actor: int, n: int) {
    0 <= n < |ids| && ids[n] != actor && forall m | 0 <= m < n :: ids[m] == actor
  }

  lemma {:induction false} WithoutOne(ids: seq<int>, actor: int) returns (n: int)
    ensures Without(ids, [actor]) == [] <==> forall m | 0 <= m < |ids| :: ids[m] == actor
    ensures Without(ids, [actor]) != [] ==> FirstOther(ids, actor, n) && Without(ids, [actor])[0] == ids[n]
  {
    n := 0;
    if ids == [] {
    } else {
      var last := |ids| - 1;
      n := WithoutOne(ids[..last], actor);
      assert forall m | 0 <= m < last :: ids[..last][m] == ids[m];
      if Without(ids[..last], [actor]) == [] {
        n := last;
      }
    }
  }

  /** A chat changes hands by a quit of its owner, to the first admin that is left and else to `first`,
      by any quit when it has no owner, and by the owner's own wish. */
  lemma {:induction false} OwnerAfter(c: Chat, es: seq<Event>, e: Event)
    ensures var was, next := Run(c, es), Run(c, es + [e]);
            if Heard(was, e) && e.Leave? && was.ownerId == e.actor &&
               exists n :: FirstOther(was.adminIds, e.actor, n) && was.adminIds[n] != 0 then
              exists n :: FirstOther(was.adminIds, e.actor, n) && next.ownerId == was.adminIds[n]
            else if Heard(was, e) && e.Leave? && (was.ownerId == e.actor || was.ownerId == 0) then
              next.ownerId == if e.first.Some? then e.first.value else 0
            else if Heard(was, e) && e.Update? && e.actor == was.ownerId && e.wish.ownerId > 0 then
              next.ownerId == e.wish.ownerId
            else next.ownerId == was.ownerId
  {
    hide Run, AddAll, RemoveAll, RemoveOne, Without, AddAdmins, Ids;
    RunNext(c, es, e);
    if e.Leave? {
      var n := WithoutOne(Run(c, es).adminIds, e.actor);
    }
  }

  /** Some of the ids are members. */
  ghost predicate AnyActive(c: Chat, ids: seq<int>) {
    exists id :: id in ids && Active(c, id)
  }

  lemma {:induction false} RemovalChanges(c: Chat, ids: seq<int>)
    ensures Ids(RemoveAll(c.members, ids)) != Ids(c.members) <==> AnyActive(c, ids)
  {
    hide Ids, RemoveAll;
    RemoveAllMembers(c.members, ids);
    ActiveIs(c);
    var left := Ids(RemoveAll(c.members, ids));
    if forall id | id in ids :: !Active(c, id) {
      forall id ensures id in left <==> id in Ids(c.members) {
        assert id in ToSet(ids) <==> id in ids;
      }
    } else {
      var id :| id in ids && Active(c, id);
      assert id in Ids(c.members) && id !in left;
    }
  }

  lemma {:induction false} AdditionChanges(c: Chat, ids: seq<int>)
    ensures Ids(AddAll(c.members, ids)) != Ids(c.members) <==> exists id :: id in ids && !Active(c, id)
  {
    hide Ids, AddAll;
    AddAllMembers(c.members, ids);
    ActiveIs(c);
    var all := Ids(AddAll(c.members, ids));
    if forall id | id in ids :: Active(c, id) {
      forall id ensures id in all <==> id in Ids(c.members) {
        assert id in ToSet(ids) <==> id in ids;
      }
    } else {
      var id :| id in ids && !Active(c, id);
      assert id in all && id !in Ids(c.members);
    }
  }

  /** Who is an admin after one request. */
  lemma {:induction false} AdminIff(c: Chat, es: seq<Event>, e: Event, id: int)
    ensures var was, next := Run(c, es), Run(c, es + [e]);
            id in next.adminIds <==>
              if !Heard(was, e) then id in was.adminIds
              else match e
              case Delete(_, ids, _) => id in was.adminIds && !(id in ids && AnyActive(was, ids))
              case Leave(actor, _, _) => id in was.adminIds && id != actor
              case Update(actor, w, _) =>
                if actor == was.ownerId then (id in was.adminIds || id in w.adminsAdd) && id !in w.adminsRemove
                else id in was.adminIds
              case _ => id in was.adminIds
  {
    hide Run, AddAll, RemoveAll, RemoveOne, Without, AddAdmins, Ids;
    RunNext(c, es, e);
    var was := Run(c, es);
    match e
    case Delete(_, ids, _) =>
      RemovalChanges(was, ids);
      WithoutKeeps(was.adminIds, ids);
    case Leave(actor, _, _) => WithoutKeeps(was.adminIds, [actor]);
    case Update(_, w, _) =>
      AddAdminsIs(was.adminIds, w.adminsAdd);
      WithoutKeeps(AddAdmins(was.adminIds, w.adminsAdd), w.adminsRemove);
    case _ =>
  }

  /** `left` are the ids numbered by `idx`, each once and in order. */
  ghost predicate Picks(ids: seq<int>, idx: seq<int>, left: seq<int>) {
    && |left| == |idx|
    && (forall i, j | 0 <= i < j < |idx| :: idx[i] < idx[j])
    && (forall i | 0 <= i < |idx| :: 0 <= idx[i] < |ids| && left[i] == ids[idx[i]])
  }

  /** `idx` numbers the ids that are not gone. */
  ghost predicate NumbersLeft(ids: seq<int>, gone: seq<int>, idx: seq<int>) {
    forall j :: j in idx <==> 0 <= j < |ids| && ids[j] !in gone
  }

  lemma {:induction false} PicksMore(ids: seq<int>, n: nat, idx: seq<int>, left: seq<int>)
    requires n < |ids| && Picks(ids[..n], idx, left)
    ensures Picks(ids, idx, left) && Picks(ids, idx + [n], left + [ids[n]])
  {}

  lemma {:induction false} OneMoreLeft(ids: seq<int>, n: nat, gone: seq<int>, idx: seq<int>)
    requires n == |ids| - 1 && NumbersLeft(ids[..n], gone, idx)
    ensures NumbersLeft(ids, gone, if ids[n] in gone then idx else idx + [n])
  {
    assert forall j | 0 <= j < n :: ids[..n][j] == ids[j];
  }

  lemma {:induction false} OneMore(ids: seq<int>, n: nat, gone: seq<int>, idx: seq<int>, front: seq<int>,
                                   left: seq<int>) returns (more: seq<int>)
    requires n == |ids| - 1 && Picks(ids[..n], idx, front) && NumbersLeft(ids[..n], gone, idx)
    requires left == if ids[n] in gone then front else front + [ids[n]]
    ensures Picks(ids, more, left) && NumbersLeft(ids, gone, more)
  {
    hide *;
    PicksMore(ids, n, idx, front);
    OneMoreLeft(ids, n, gone, idx);
    more := if ids[n] in gone then idx else idx + [n];
  }

  lemma {:induction false} WithoutNext(ids: seq<int>, n: nat, gone: seq<int>)
    requires n == |ids| - 1
    ensures Without(ids, gone) == if ids[n] in gone then Without(ids[..n], gone) else Without(ids[..n], gone) + [ids[n]]
  {}

  /** Those left keep their order. */
  lemma {:induction false} LeftInOrder(ids: seq<int>, gone: seq<int>) returns (idx: seq<int>)
    ensures Picks(ids, idx, Without(ids, gone)) && NumbersLeft(ids, gone, idx)
  {
    idx := [];
    if ids == [] {
    } else {
      hide Picks, NumbersLeft;
      var n := |ids| - 1;
      idx := LeftInOrder(ids[..n], gone);
      WithoutNext(ids, n, gone);
      idx := OneMore(ids, n, gone, idx, Without(ids[..n], gone), Without(ids, gone));
    }
  }

  /** New admins come behind the old ones, each once. */
  lemma {:induction false} NewAdminsBehind(admins: seq<int>, ids: seq<int>)
    ensures admins <= AddAdmins(admins, ids)
    ensures forall i, j | |admins| <= j < |AddAdmins(admins, ids)| && 0 <= i < j ::
              AddAdmins(admins, ids)[i] != AddAdmins(admins, ids)[j]
  {
    if ids == [] {
    } else {
      NewAdminsBehind(admins, ids[..|ids| - 1]);
    }
  }

  // ---- join mode and version ----

  /** Whether a request that is heard changes something that counts. */
  ghost predicate Matters(was: Chat, e: Event) {
    match e
    case Send(_, _, _, _, _) => false
    case Add(_, ids, _) => exists id :: id in ids && !Active(was, id)
    case Join(user, _, _) => !Active(was, user)
    case Delete(_, ids, _) => AnyActive(was, ids)
    case Leave(_, _, _) => true
    case Dismiss(_, _, _) => true
    case Update(actor, w, _) =>
      || w.details
      || (w.joinMode > 0 && w.joinMode != was.joinMode)
      || (actor == was.ownerId &&
          ((w.ownerId > 0 && w.ownerId != was.ownerId)
           || w.adminsAdd != []
           || exists id :: id in w.adminsRemove && id in was.adminIds))
  }

  lemma {:induction false} WithoutShrinks(ids: seq<int>, gone: seq<int>)
    ensures |Without(ids, gone)| != |ids| <==> exists id :: id in gone && id in ids
  {
    NoneDropped(ids, gone);
    WithoutKeeps(ids, gone);
    if forall id | id in gone :: id !in ids {
      NothingGone(ids, gone);
    }
  }

  lemma {:induction false} NothingGone(ids: seq<int>, gone: seq<int>)
    requires forall id | id in gone :: id !in ids
    ensures Without(ids, gone) == ids
  {
    if ids == [] {
    } else {
      var front, last := ids[..|ids| - 1], ids[|ids| - 1];
      NothingGone(front, gone);
      assert ids == front + [last];
      assert last in ids;
    }
  }

  /** The version moves exactly when a request that is heard changes something, to the clock or one up,
      and stays when a quit leaves the chat without an owner. The type of a chat never changes, the join
      mode only by a wish for another. */
  lemma {:induction false} VersionAfter(c: Chat, es: seq<Event>, e: Event)
    ensures var was, next := Run(c, es), Run(c, es + [e]);
            && next.chatType == was.chatType
            && next.joinMode ==
               (if Heard(was, e) && e.Update? && e.wish.joinMode > 0 then e.wish.joinMode else was.joinMode)
            && next.version ==
               if Heard(was, e) && Matters(was, e) && (e.Leave? ==> next.ownerId != 0)
               then (if was.version < e.now then e.now else was.version + 1)
               else was.version
  {
    hide Run, AddAll, RemoveAll, RemoveOne, Without, AddAdmins, Ids;
    RunNext(c, es, e);
    var was := Run(c, es);
    match e
    case Add(_, ids, _) => AdditionChanges(was, ids);
    case Join(user, _, _) => AdditionChanges(was, [user]);
    case Delete(_, ids, _) => RemovalChanges(was, ids);
    case Update(_, w, _) =>
      NoAdmins(was.adminIds);
      WithoutShrinks(was.adminIds, w.adminsRemove);
    case _ =>
  }

  // ---- places in the member map ----

  /** Every entry has a place of its own below the number of entries. */
  ghost predicate OwnPlaces(members: map<int, Member>) {
    && (forall u | u in members :: 0 <= members[u].index < |members|)
    && (forall u, v | u in members && v in members && u != v :: members[u].index != members[v].index)
  }

  lemma {:induction false} AddOnePlaces(members: map<int, Member>, id: int)
    requires OwnPlaces(members)
    ensures OwnPlaces(AddOne(members, id))
  {
    if id in members {
      assert AddOne(members, id).Keys == members.Keys;
      assert |AddOne(members, id).Keys| == |members.Keys|;
    } else {
      assert AddOne(members, id).Keys == members.Keys + {id};
      assert |AddOne(members, id).Keys| == |members.Keys| + 1;
    }
  }

  lemma {:induction false} RemoveOnePlaces(members: map<int, Member>, id: int)
    requires OwnPlaces(members)
    ensures OwnPlaces(RemoveOne(members, id))
  {
    assert RemoveOne(members, id).Keys == members.Keys;
    assert |RemoveOne(members, id).Keys| == |members.Keys|;
  }

  lemma {:induction false} AddAllPlaces(members: map<int, Member>, ids: seq<int>)
    requires OwnPlaces(members)
    ensures OwnPlaces(AddAll(members, ids))
  {
    hide OwnPlaces, AddOne;
    if ids == [] {
    } else {
      AddAllPlaces(members, ids[..|ids| - 1]);
      AddOnePlaces(AddAll(members, ids[..|ids| - 1]), ids[|ids| - 1]);
    }
  }

  lemma {:induction false} RemoveAllPlaces(members: map<int, Member>, ids: seq<int>)
    requires OwnPlaces(members)
    ensures OwnPlaces(RemoveAll(members, ids))
  {
    hide OwnPlaces, RemoveOne;
    if ids == [] {
    } else {
      RemoveAllPlaces(members, ids[..|ids| - 1]);
      RemoveOnePlaces(RemoveAll(members, ids[..|ids| - 1]), ids[|ids| - 1]);
    }
  }

  /** In every run each entry of the member map keeps a place of its own. */
  lemma {:induction false} PlacesStayOwn(c: Chat, es: seq<Event>)
    requires OwnPlaces(c.members)
    ensures OwnPlaces(Run(c, es).members)
  {
    hide OwnPlaces, AddAll, RemoveAll, RemoveOne, Without, AddAdmins, Ids;
    if es == [] {
    } else {
      var front, e := es[..|es| - 1], es[|es| - 1];
      PlacesStayOwn(c, front);
      var was := Run(c, front);
      match e
      case Add(_, ids, _) => AddAllPlaces(was.members, ids);
      case Join(user, _, _) => AddAllPlaces(was.members, [user]);
      case Delete(_, ids, _) => RemoveAllPlaces(was.members, ids);
      case Leave(actor, _, _) => RemoveOnePlaces(was.members, actor);
      case _ =>
    }
  }
}
