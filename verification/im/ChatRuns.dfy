/** Whole runs of one chat: any order of sends, membership changes and dismissals. */
module ChatRuns {
  import opened Basics
  import opened ChatLog

  datatype Event =
    | Send(id: int, fromId: int, system: bool, now: int, dbOk: bool)
    | Add(actor: int, ids: seq<int>, now: int)
    | Delete(actor: int, ids: seq<int>, now: int)
    | Leave(actor: int, first: Option<int>, now: int)
    | Dismiss(actor: int, now: int, dbOk: bool)
    | Join(user: int, invited: bool, now: int)
    | Update(actor: int, wish: Wish, now: int)

  predicate Accepts(c: Chat, e: Event) {
    match e
    case Send(_, fromId, _, _, dbOk) => MaySend(c, fromId) && dbOk
    case Add(actor, _, _) => MayAdd(c, actor)
    case Delete(actor, _, _) => MayDelete(c, actor)
    case Leave(actor, _, _) => MayQuit(c, actor)
    case Dismiss(actor, _, _) => MayDismiss(c, actor)
    case Join(user, invited, _) => MayJoin(c, user, invited)
    case Update(actor, _, _) => MayUpdate(c, actor)
  }

  function Step(c: Chat, e: Event): Chat {
    if !Accepts(c, e) then c
    else match e
      case Send(id, fromId, system, now, _) => Sent(c, Numbered(c, id, fromId, system, now))
      case Add(_, ids, now) => Added(c, ids, now)
      case Delete(_, ids, now) => Deleted(c, ids, now)
      case Leave(actor, first, now) => Quit(c, actor, first, now)
      case Dismiss(_, now, dbOk) =>
        if dbOk then Dismissed(c, now) else c.(version := BumpVersion(c.version, now))
      case Join(user, _, now) => Added(c, [user], now)
      case Update(actor, wish, now) => Updated(c, actor, wish, now)
  }

  function Run(c: Chat, es: seq<Event>): Chat {
    if es == [] then c else Step(Run(c, es[..|es| - 1]), es[|es| - 1])
  }

  /** The handlers do what the step says, whatever the database answers. */
  method Handle(chat: ChatContext, e: Event, dbOk: bool) returns (r: Reply)
    requires chat.Valid()
    requires e.Send? || e.Dismiss? ==> dbOk == e.dbOk
    modifies chat
    ensures chat.Valid()
    ensures chat.Contents() == Step(old(chat.Contents()), e)
    ensures !Accepts(old(chat.Contents()), e) && !e.Join? ==> r != Done
  {
    match e
    case Send(id, fromId, system, now, _) => r := chat.UpdateLastMessage(id, fromId, system, now, dbOk);
    case Add(actor, ids, now) => r := chat.AddChatters(actor, ids, now, dbOk);
    case Delete(actor, ids, now) => r := chat.DeleteChatters(actor, ids, now, dbOk);
    case Leave(actor, first, now) => r := chat.ChatQuit(actor, first, now);
    case Dismiss(actor, now, _) => r := chat.ChatDismiss(actor, now, dbOk);
    case Join(user, invited, now) => r := chat.Join(user, invited, now, dbOk);
    case Update(actor, wish, now) => r := chat.ChatUpdate(actor, wish, now, dbOk);
  }

  // ---- positions and unread counts ----

  /** How many of the first `p` messages are not system messages. */
  function NonSystem(log: seq<Message>, p: nat): (n: nat)
    requires p <= |log|
  {
    if p == 0 then 0 else NonSystem(log, p - 1) + (if log[p - 1].system then 0 else 1)
  }

  /** Position i+1 is given to the i-th message, its badge counts the non-system ones so far. */
  ghost predicate Ranked(log: seq<Message>) {
    forall i | 0 <= i < |log| :: log[i].pos == i + 1 && log[i].badge == NonSystem(log, i + 1)
  }

  ghost predicate WellNumbered(c: Chat) {
    && Ranked(c.log)
    && c.lastPos == |c.log|
    && c.lastBadge == NonSystem(c.log, |c.log|)
    && (forall i | 0 <= i < |c.log| :: c.log[i].fromId in c.members)
  }

  lemma {:induction false} NonSystemPrefix(log: seq<Message>, m: Message, p: nat)
    requires p <= |log|
    ensures NonSystem(log + [m], p) == NonSystem(log, p)
  {
    if p == 0 {
    } else {
      NonSystemPrefix(log, m, p - 1);
    }
  }

  lemma {:induction false} KeysStay(c: Chat, e: Event)
    ensures c.members.Keys <= Step(c, e).members.Keys
  {
    match e
    case Add(_, ids, _) => AddAllMembers(c.members, ids);
    case Delete(_, ids, _) => RemoveAllMembers(c.members, ids);
    case Leave(actor, _, _) => RemoveOneIds(c.members, actor);
    case Join(user, _, _) => AddAllMembers(c.members, [user]);
    case _ =>
  }

  lemma {:induction false} StepKeepsNumbers(c: Chat, e: Event)
    requires WellNumbered(c)
    ensures WellNumbered(Step(c, e))
  {
    hide AddAll, RemoveAll, Without, Ids, AddAdmins;
    KeysStay(c, e);
    var d := Step(c, e);
    if e.Send? && Accepts(c, e) {
      var m := Numbered(c, e.id, e.fromId, e.system, e.now);
      assert d.log == c.log + [m];
      forall i | 0 <= i < |d.log|
        ensures d.log[i].pos == i + 1 && d.log[i].badge == NonSystem(d.log, i + 1)
      {
        NonSystemPrefix(c.log, m, i);
        if i < |c.log| {
          NonSystemPrefix(c.log, m, i + 1);
        }
      }
    } else {
      assert d.log == c.log && d.lastPos == c.lastPos && d.lastBadge == c.lastBadge;
    }
  }

  /** In every run the positions are exactly 1..n, each badge counts the non-system messages up
      to its position, and every sender has been a member at some time. */
  lemma {:induction false} PositionsAreExact(c: Chat, es: seq<Event>)
    requires WellNumbered(c)
    ensures WellNumbered(Run(c, es))
  {
    if es == [] {
    } else {
      PositionsAreExact(c, es[..|es| - 1]);
      StepKeepsNumbers(Run(c, es[..|es| - 1]), es[|es| - 1]);
    }
  }

  /** The log only grows, and once the chat is dismissed it never grows again. */
  lemma {:induction false} LogGrowsUntilDismissed(c: Chat, es: seq<Event>)
    ensures c.log <= Run(c, es).log
    ensures c.status != STATUS_NORMAL ==> Run(c, es).log == c.log && Run(c, es).status != STATUS_NORMAL
  {
    hide AddAll, RemoveAll, Without, Ids;
    if es == [] {
    } else {
      LogGrowsUntilDismissed(c, es[..|es| - 1]);
    }
  }

  // ---- versions ----

  predicate Panics(c: Chat, e: Event) {
    e.Leave? && Accepts(c, e) && NextOwner(c, e.actor, e.first) == 0
  }

  ghost predicate NeverPanics(c: Chat, es: seq<Event>) {
    forall n | 0 <= n < |es| :: !Panics(Run(c, es[..n]), es[n])
  }

  lemma {:induction false} NeverPanicsFront(c: Chat, es: seq<Event>)
    requires es != [] && NeverPanics(c, es)
    ensures NeverPanics(c, es[..|es| - 1]) && !Panics(Run(c, es[..|es| - 1]), es[|es| - 1])
  {
    var front := es[..|es| - 1];
    forall n | 0 <= n < |front| ensures !Panics(Run(c, front[..n]), front[n]) {
      assert front[..n] == es[..n];
    }
  }

  /** What a chat's version stands for. */
  predicate SameRoster(c: Chat, d: Chat) {
    && Ids(c.members) == Ids(d.members) && c.status == d.status && c.ownerId == d.ownerId && c.adminIds == d.adminIds
    && c.joinMode == d.joinMode
  }

  lemma {:induction false} StepVersion(c: Chat, e: Event)
    requires !Panics(c, e)
    ensures Step(c, e).version >= c.version
    ensures Step(c, e).version == c.version ==> SameRoster(c, Step(c, e))
  {
    hide AddAll, RemoveAll, Without, Ids, AddAdmins;
    if e.Update? {
      NoAdmins(c.adminIds);
      NoneDropped(c.adminIds, e.wish.adminsRemove);
    }
  }

  lemma {:induction false} NoneDropped(ids: seq<int>, gone: seq<int>)
    ensures |Without(ids, gone)| <= |ids|
    ensures |Without(ids, gone)| == |ids| ==> Without(ids, gone) == ids
  {
    if ids == [] {
    } else {
      NoneDropped(ids[..|ids| - 1], gone);
      assert ids == ids[..|ids| - 1] + [ids[|ids| - 1]];
    }
  }

  /** Along any run without a panicking quit the version never falls, and two states with the
      same version have the same members, status, owner, admins and join mode. */
  lemma {:induction false} VersionTellsTheRoster(c: Chat, es: seq<Event>)
    requires NeverPanics(c, es)
    ensures Run(c, es).version >= c.version
    ensures Run(c, es).version == c.version ==> SameRoster(c, Run(c, es))
  {
    hide AddAll, RemoveAll, Without, Ids, Step, Panics;
    if es == [] {
    } else {
      NeverPanicsFront(c, es);
      VersionTellsTheRoster(c, es[..|es| - 1]);
      StepVersion(Run(c, es[..|es| - 1]), es[|es| - 1]);
    }
  }

  /** `first` is a member that is left after the quit, when there is one; ids are not zero. */
  ghost predicate Plausible(c: Chat, e: Event) {
    && (e.Add? ==> 0 !in e.ids)
    && (e.Join? ==> e.user != 0)
    && (e.Leave? ==>
          var left := Ids(RemoveOne(c.members, e.actor));
          if e.first.Some? then e.first.value in left else left == {})
  }

  /** A quit panics exactly when nobody else is a member, there is no owner to keep and no admin to
      follow; the cache then shows the new members under the old version. */
  lemma {:induction false} QuitPanicsIff(c: Chat, actor: int, first: Option<int>, now: int)
    requires MayQuit(c, actor) && 0 !in c.adminIds && 0 !in Ids(c.members)
    requires Plausible(c, Leave(actor, first, now))
    ensures Panics(c, Leave(actor, first, now))
      <==> c.ownerId in {0, actor} && Ids(c.members) - {actor} == {}
           && (c.ownerId != actor || forall id | id in c.adminIds :: id == actor)
    ensures Panics(c, Leave(actor, first, now)) ==>
      Step(c, Leave(actor, first, now)).version == c.version
      && Ids(Step(c, Leave(actor, first, now)).members) == Ids(c.members) - {actor}
  {
    hide Ids, RemoveOne;
    WithoutKeeps(c.adminIds, [actor]);
    RemoveOneIds(c.members, actor);
    var admins := Without(c.adminIds, [actor]);
    if admins != [] {
      assert admins[0] in admins;
    }
  }

  lemma {:induction false} WithoutKeeps(ids: seq<int>, gone: seq<int>)
    ensures forall id :: id in Without(ids, gone) <==> id in ids && id !in gone
  {
    if ids == [] {
    } else {
      var front := ids[..|ids| - 1];
      WithoutKeeps(front, gone);
      assert forall id :: id in ids <==> id in front || id == ids[|ids| - 1];
    }
  }

  // ---- who is a member, who can write ----

  /** The last accepted membership change that names `user` added them; at the start, the
      member list. */
  ghost predicate Standing(c: Chat, es: seq<Event>, user: int) {
    if es == [] then user in Ids(c.members)
    else
      var front := es[..|es| - 1];
      var e := es[|es| - 1];
      if !Accepts(Run(c, front), e) then Standing(c, front, user)
      else match e
        case Add(_, ids, _) => user in ids || Standing(c, front, user)
        case Delete(_, ids, _) => user !in ids && Standing(c, front, user)
        case Leave(actor, _, _) => user != actor && Standing(c, front, user)
        case Join(joiner, _, _) => user == joiner || Standing(c, front, user)
        case _ => Standing(c, front, user)
  }

  /** `user` was in the member map at the start or was named by an accepted add. */
  ghost predicate EverAdded(c: Chat, es: seq<Event>, user: int) {
    if es == [] then user in c.members
    else
      var front := es[..|es| - 1];
      var e := es[|es| - 1];
      || EverAdded(c, front, user)
      || (Accepts(Run(c, front), e) && ((e.Add? && user in e.ids) || (e.Join? && user == e.user)))
  }

  lemma {:induction false} AddedMembers(c: Chat, ids: seq<int>, now: int, user: int)
    ensures user in Ids(Added(c, ids, now).members) <==> user in ids || user in Ids(c.members)
    ensures user in Added(c, ids, now).members <==> user in ids || user in c.members
  {
    hide AddAll;
    AddAllMembers(c.members, ids);
    if Ids(AddAll(c.members, ids)) == Ids(c.members) && user in ids {
      assert user in Ids(c.members);
    }
  }

  lemma {:induction false} StepMembers(c: Chat, e: Event, user: int)
    requires Accepts(c, e)
    ensures user in Ids(Step(c, e).members) <==>
      match e
      case Add(_, ids, _) => user in ids || user in Ids(c.members)
      case Delete(_, ids, _) => user !in ids && user in Ids(c.members)
      case Leave(actor, _, _) => user != actor && user in Ids(c.members)
      case Join(joiner, _, _) => user == joiner || user in Ids(c.members)
      case _ => user in Ids(c.members)
    ensures user in Step(c, e).members <==>
      user in c.members || (e.Add? && user in e.ids) || (e.Join? && user == e.user)
  {
    hide AddAll, RemoveAll, RemoveOne, Without, AddAdmins, Ids, Accepts;
    match e
    case Add(_, ids, now) => AddedMembers(c, ids, now, user);
    case Delete(_, ids, _) => RemoveAllMembers(c.members, ids);
    case Leave(actor, _, _) => RemoveOneIds(c.members, actor);
    case Join(joiner, _, now) => AddedMembers(c, [joiner], now, user);
    case _ =>
  }

  lemma {:induction false} MembersByHistory(c: Chat, es: seq<Event>, user: int)
    ensures user in Ids(Run(c, es).members) <==> Standing(c, es, user)
    ensures user in Run(c, es).members <==> EverAdded(c, es, user)
  {
    hide AddAll, RemoveAll, Without, Ids, Accepts;
    if es == [] {
    } else {
      var before := Run(c, es[..|es| - 1]);
      MembersByHistory(c, es[..|es| - 1], user);
      if Accepts(before, es[|es| - 1]) {
        StepMembers(before, es[|es| - 1], user);
      }
    }
  }

  /** The sender check is meant to admit current members only. It asks for the key in the
      member map, and removal keeps the key: after any run, a message from someone who is not a
      member gets a position exactly when they were added once and removed since. */
  lemma {:induction false} NonMemberWritesIff(c: Chat, es: seq<Event>, e: Event)
    requires e.Send?
    ensures Accepts(Run(c, es), e) && e.fromId !in Ids(Run(c, es).members)
      <==> Run(c, es).status == STATUS_NORMAL && e.dbOk
           && EverAdded(c, es, e.fromId) && !Standing(c, es, e.fromId)
  {
    MembersByHistory(c, es, e.fromId);
  }

  lemma {:induction false} RemovedMemberCanWrite()
    ensures exists c: Chat, es: seq<Event>, e: Event ::
      WellNumbered(c) && e in es && e.Send? && e.fromId !in Ids(Run(c, es).members)
      && |Run(c, es).log| == 1 && Run(c, es).log[0].fromId == e.fromId
  {
    var c := Chat(2, STATUS_NORMAL, 7, [], 0, 1, 0, 0, 0,
                  map[7 := Member(0, true), 8 := Member(1, true)], 2, []);
    var gone, e := Delete(7, [8], 10), Send(100, 8, false, 20, true);
    var ids := [8];
    assert ids[..0] == [];
    assert RemoveAll(c.members, []) == c.members;
    assert RemoveAll(c.members, ids) == c.members[8 := Member(1, false)];
    assert 8 in Ids(c.members) && 8 !in Ids(RemoveAll(c.members, ids));
    var es := [gone, e];
    assert es[..1] == [gone] && [gone][..0] == [];
    assert Run(c, []) == c;
    var mid := Run(c, [gone]);
    assert mid == Step(c, gone);
    assert mid.members == RemoveAll(c.members, ids);
    assert Run(c, es) == Step(mid, e);
    assert e == es[1];
  }

  // ---- the owner ----

  ghost predicate Led(c: Chat) {
    && c.ownerId in Ids(c.members)
    && (forall id | id in c.adminIds :: id in Ids(c.members))
    && 0 !in Ids(c.members)
  }

  /** The ways to leave a chat with an owner or an admin who is not a member: an admin removes the
      owner, the last member quits, or the owner names somebody who is not a member. */
  ghost predicate Breaks(c: Chat, e: Event) {
    Accepts(c, e) &&
    match e
    case Delete(_, ids, _) => c.ownerId in ids
    case Leave(actor, _, _) => Ids(c.members) == {actor}
    case Update(actor, w, _) =>
      c.ownerId == actor &&
      ((w.ownerId > 0 && w.ownerId !in Ids(c.members))
       || exists id :: id in w.adminsAdd && id !in w.adminsRemove && id !in Ids(c.members))
    case _ => false
  }

  lemma {:induction false} NextOwnerIsMember(c: Chat, actor: int, first: Option<int>)
    requires Led(c)
    requires first.Some? ==> first.value in Ids(RemoveOne(c.members, actor))
    requires NextOwner(c, actor, first) != 0
    ensures NextOwner(c, actor, first) in Ids(RemoveOne(c.members, actor))
    ensures forall id | id in Without(c.adminIds, [actor]) :: id in Ids(RemoveOne(c.members, actor))
  {
    hide Ids, RemoveOne;
    WithoutKeeps(c.adminIds, [actor]);
    RemoveOneIds(c.members, actor);
    var admins := Without(c.adminIds, [actor]);
    if admins != [] {
      assert admins[0] in admins;
    }
  }

  lemma {:induction false} AddAdminsIs(admins: seq<int>, ids: seq<int>)
    ensures forall id :: id in AddAdmins(admins, ids) <==> id in admins || id in ids
  {
    if ids == [] {
    } else {
      AddAdminsIs(admins, ids[..|ids| - 1]);
      assert forall id :: id in ids <==> id in ids[..|ids| - 1] || id == ids[|ids| - 1];
    }
  }

  lemma {:induction false} QuitKeepsLed(c: Chat, e: Event)
    requires e.Leave? && Accepts(c, e) && Led(c) && Plausible(c, e)
    ensures Led(Step(c, e)) <==> Ids(c.members) != {e.actor}
  {
    hide Ids, RemoveOne, NextOwner, Without;
    RemoveOneIds(c.members, e.actor);
    QuitPanicsIff(c, e.actor, e.first, e.now);
    if Panics(c, e) {
      assert c.ownerId == e.actor;
    } else {
      NextOwnerIsMember(c, e.actor, e.first);
    }
  }

  lemma {:induction false} WishKeepsLed(c: Chat, e: Event)
    requires e.Update? && Accepts(c, e) && Led(c)
    ensures Led(Step(c, e)) <==> !Breaks(c, e)
  {
    hide Ids, AddAdmins, Without;
    var w := e.wish;
    AddAdminsIs(c.adminIds, w.adminsAdd);
    WithoutKeeps(AddAdmins(c.adminIds, w.adminsAdd), w.adminsRemove);
  }

  lemma {:induction false} MoreMembersKeepLed(c: Chat, ids: seq<int>, e: Event)
    requires Led(c) && Plausible(c, e) && Accepts(c, e)
    requires (e.Add? && ids == e.ids) || (e.Join? && ids == [e.user])
    ensures Led(Step(c, e))
  {
    hide AddAll, Ids;
    AddAllMembers(c.members, ids);
  }

  lemma {:induction false} RemovalKeepsLed(c: Chat, e: Event)
    requires e.Delete? && Accepts(c, e) && Led(c) && Plausible(c, e)
    ensures Led(Step(c, e)) <==> c.ownerId !in e.ids
  {
    hide RemoveAll, Without, Ids;
    RemoveAllMembers(c.members, e.ids);
    WithoutKeeps(c.adminIds, e.ids);
  }

  /** A chat whose owner and admins are members keeps it so in a step exactly when the step is none
      of the three. */
  lemma {:induction false} LedUnlessBroken(c: Chat, e: Event)
    requires Led(c) && Plausible(c, e)
    ensures Led(Step(c, e)) <==> !Breaks(c, e)
  {
    hide AddAll, RemoveAll, Without, Ids, RemoveOne, NextOwner, AddAdmins;
    if !Accepts(c, e) {
      return;
    }
    match e
    case Add(_, ids, _) => MoreMembersKeepLed(c, ids, e);
    case Join(user, _, _) => MoreMembersKeepLed(c, [user], e);
    case Delete(_, ids, _) => RemovalKeepsLed(c, e);
    case Leave(_, _, _) => QuitKeepsLed(c, e);
    case Update(_, _, _) => WishKeepsLed(c, e);
    case _ =>
  }

  /** Along a run the owner and the admins are members at every moment exactly when no step of it is
      one of the three. */
  lemma {:induction false} LedThroughoutIff(c: Chat, es: seq<Event>)
    requires Led(c)
    requires forall n | 0 <= n < |es| :: Plausible(Run(c, es[..n]), es[n])
    ensures (forall n | 0 <= n <= |es| :: Led(Run(c, es[..n])))
      <==> (forall n | 0 <= n < |es| :: !Breaks(Run(c, es[..n]), es[n]))
  {
    hide Led, Breaks, Plausible, Step;
    forall n | 0 <= n < |es|
      ensures Run(c, es[..n + 1]) == Step(Run(c, es[..n]), es[n])
    {
      assert es[..n + 1][..n] == es[..n];
    }
    if forall n | 0 <= n < |es| :: !Breaks(Run(c, es[..n]), es[n]) {
      for n := 0 to |es|
        invariant forall k | 0 <= k <= n :: Led(Run(c, es[..k]))
      {
        LedUnlessBroken(Run(c, es[..n]), es[n]);
      }
    }
    if forall n | 0 <= n <= |es| :: Led(Run(c, es[..n])) {
      forall n | 0 <= n < |es|
        ensures !Breaks(Run(c, es[..n]), es[n])
      {
        assert Led(Run(c, es[..n + 1]));
        LedUnlessBroken(Run(c, es[..n]), es[n]);
      }
    }
  }

  /** An admin removes the owner, who is no member then but still the owner, and dismisses the chat. */
  lemma {:induction false} RemovedOwnerDismisses(c: Chat)
    requires c == Chat(2, STATUS_NORMAL, 7, [8], 0, 1, 0, 0, 0, map[7 := Member(0, true), 8 := Member(1, true)], 2, [])
    ensures Led(c)
    ensures var es := [Delete(8, [7], 10), Dismiss(7, 20, true)];
            && 7 !in Ids(Run(c, es[..1]).members) && Run(c, es[..1]).ownerId == 7
            && Run(c, es).status == STATUS_DELETED
  {
    hide Without;
    var gone, over := Delete(8, [7], 10), Dismiss(7, 20, true);
    var es := [gone, over];
    RemoveAllMembers(c.members, [7]);
    assert 7 in ToSet([7]) && 7 in Ids(c.members) && 8 in Ids(c.members);
    assert es[..1] == [gone] && [gone][..0] == [] && Run(c, []) == c;
    assert Run(c, [gone]) == Step(c, gone);
    assert Run(c, es) == Step(Run(c, [gone]), over);
  }
}
