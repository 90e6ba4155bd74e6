/** One chat's cached context on the server: positions and unread counts are handed out under
    the chat's lock, membership and dismissal change it. */
module ChatLog {
  import opened Basics

  datatype Reply = Done | NoPermission | Failed(reason: string) | Panicked

  const STATUS_NORMAL := 1
  const STATUS_DELETED := 5
  const CHAT_P2P := 1
  const JOIN_BY_ADMIN := 2

  /** A removed member stays in the map switched off. */
  datatype Member = Member(index: int, active: bool)

  datatype Message = Message(id: int, fromId: int, system: bool, pos: int, badge: int, version: int)

  /** The context as a value; `log` holds every message that was given a position. */
  datatype Chat = Chat(chatType: int, status: int, ownerId: int, adminIds: seq<int>, version: int, joinMode: int,
                       lastPos: int, lastBadge: int, lastId: int,
                       members: map<int, Member>, count: int, log: seq<Message>)

  /** The current members. */
  function Ids(members: map<int, Member>): set<int> {
    set id | id in members && members[id].active
  }

  predicate IsManager(c: Chat, id: int) {
    id == c.ownerId || id in c.adminIds
  }

  function BumpVersion(prev: int, now: int): (v: int)
    ensures v > prev && v >= now
  {
    if prev < now then now else prev + 1
  }

  // ---- the member map ----

  function AddOne(members: map<int, Member>, id: int): map<int, Member> {
    if id in members then members[id := members[id].(active := true)]
    else members[id := Member(|members|, true)]
  }

  function AddAll(members: map<int, Member>, ids: seq<int>): map<int, Member> {
    if ids == [] then members else AddOne(AddAll(members, ids[..|ids| - 1]), ids[|ids| - 1])
  }

  function RemoveOne(members: map<int, Member>, id: int): map<int, Member> {
    if id in members then members[id := members[id].(active := false)] else members
  }

  function RemoveAll(members: map<int, Member>, ids: seq<int>): map<int, Member> {
    if ids == [] then members else RemoveOne(RemoveAll(members, ids[..|ids| - 1]), ids[|ids| - 1])
  }

  lemma {:induction false} AddOneIds(members: map<int, Member>, id: int)
    ensures Ids(AddOne(members, id)) == Ids(members) + {id}
    ensures AddOne(members, id).Keys == members.Keys + {id}
  {}

  lemma {:induction false} AddOneCount(members: map<int, Member>, id: int)
    ensures Ids(AddOne(members, id)) == Ids(members) + {id}
    ensures |Ids(AddOne(members, id))| == |Ids(members)| + (if id in Ids(members) then 0 else 1)
  {
    hide Ids, AddOne;
    AddOneIds(members, id);
    assert id in Ids(members) ==> Ids(members) + {id} == Ids(members);
  }

  lemma {:induction false} RemoveOneIds(members: map<int, Member>, id: int)
    ensures Ids(RemoveOne(members, id)) == Ids(members) - {id}
    ensures RemoveOne(members, id).Keys == members.Keys
  {}

  lemma {:induction false} RemoveOneCount(members: map<int, Member>, id: int)
    ensures Ids(RemoveOne(members, id)) == Ids(members) - {id}
    ensures |Ids(RemoveOne(members, id))| == |Ids(members)| - (if id in Ids(members) then 1 else 0)
  {
    hide Ids, RemoveOne;
    RemoveOneIds(members, id);
    assert id !in Ids(members) ==> Ids(members) - {id} == Ids(members);
  }

  function ToSet(ids: seq<int>): (s: set<int>)
    ensures forall id :: id in s <==> id in ids
  {
    set id | id in ids
  }

  lemma {:induction false} ToSetSplits(ids: seq<int>)
    requires ids != []
    ensures ToSet(ids) == ToSet(ids[..|ids| - 1]) + {ids[|ids| - 1]}
  {
    assert forall id :: id in ids <==> id in ids[..|ids| - 1] || id == ids[|ids| - 1];
  }

  lemma {:induction false} AddAllStep(members: map<int, Member>, ids: seq<int>)
    requires ids != []
    ensures var front := AddAll(members, ids[..|ids| - 1]);
            && Ids(AddAll(members, ids)) == Ids(front) + {ids[|ids| - 1]}
            && AddAll(members, ids).Keys == front.Keys + {ids[|ids| - 1]}
  {
    hide Ids, AddOne;
    AddOneIds(AddAll(members, ids[..|ids| - 1]), ids[|ids| - 1]);
  }

  lemma {:induction false} JoinSteps(start: set<int>, front: set<int>, all: set<int>, names: set<int>, last: int)
    requires all == front + {last}
    ensures front == start + names ==> all == start + (names + {last})
  {}

  lemma {:induction false} LeaveSteps(start: set<int>, front: set<int>, all: set<int>, names: set<int>, last: int)
    requires all == front - {last}
    ensures front == start - names ==> all == start - (names + {last})
  {}

  /** Adding makes every listed id a member; removing keeps every map entry. */
  lemma {:induction false} AddAllMembers(members: map<int, Member>, ids: seq<int>)
    ensures Ids(AddAll(members, ids)) == Ids(members) + ToSet(ids)
    ensures AddAll(members, ids).Keys == members.Keys + ToSet(ids)
    decreases |ids|
  {
    if ids == [] {
    } else {
      hide Ids, ToSet, AddAll;
      var front, last := AddAll(members, ids[..|ids| - 1]), ids[|ids| - 1];
      var names := ToSet(ids[..|ids| - 1]);
      AddAllStep(members, ids);
      AddAllMembers(members, ids[..|ids| - 1]);
      ToSetSplits(ids);
      JoinSteps(Ids(members), Ids(front), Ids(AddAll(members, ids)), names, last);
      JoinSteps(members.Keys, front.Keys, AddAll(members, ids).Keys, names, last);
    }
  }

  lemma {:induction false} RemoveAllStep(members: map<int, Member>, ids: seq<int>)
    requires ids != []
    ensures var front := RemoveAll(members, ids[..|ids| - 1]);
            && Ids(RemoveAll(members, ids)) == Ids(front) - {ids[|ids| - 1]}
            && RemoveAll(members, ids).Keys == front.Keys
  {
    hide Ids, RemoveOne;
    RemoveOneIds(RemoveAll(members, ids[..|ids| - 1]), ids[|ids| - 1]);
  }

  lemma {:induction false} RemoveAllMembers(members: map<int, Member>, ids: seq<int>)
    ensures Ids(RemoveAll(members, ids)) == Ids(members) - ToSet(ids)
    ensures RemoveAll(members, ids).Keys == members.Keys
    decreases |ids|
  {
    if ids == [] {
    } else {
      hide Ids, ToSet, RemoveAll;
      RemoveAllStep(members, ids);
      RemoveAllMembers(members, ids[..|ids| - 1]);
      ToSetSplits(ids);
      LeaveSteps(Ids(members), Ids(RemoveAll(members, ids[..|ids| - 1])), Ids(RemoveAll(members, ids)),
        ToSet(ids[..|ids| - 1]), ids[|ids| - 1]);
    }
  }

  // ---- the operations as functions of the context ----

  function Numbered(c: Chat, id: int, fromId: int, system: bool, now: int): Message {
    Message(id, fromId, system, c.lastPos + 1, if system then c.lastBadge else c.lastBadge + 1, now)
  }

  predicate MaySend(c: Chat, fromId: int) {
    c.status == STATUS_NORMAL && fromId in c.members
  }

  function Sent(c: Chat, m: Message): Chat {
    c.(lastPos := m.pos, lastBadge := m.badge, lastId := m.id, log := c.log + [m])
  }

  predicate MayAdd(c: Chat, actor: int) {
    c.chatType != CHAT_P2P && (c.joinMode == JOIN_BY_ADMIN ==> IsManager(c, actor))
  }

  function Added(c: Chat, ids: seq<int>, now: int): Chat {
    var members := AddAll(c.members, ids);
    if Ids(members) == Ids(c.members) then c
    else c.(members := members, count := |Ids(members)|, version := BumpVersion(c.version, now))
  }

  predicate MayDelete(c: Chat, actor: int) {
    c.chatType != CHAT_P2P && IsManager(c, actor)
  }

  function Without(ids: seq<int>, gone: seq<int>): seq<int> {
    if ids == [] then []
    else Without(ids[..|ids| - 1], gone) + (if ids[|ids| - 1] in gone then [] else [ids[|ids| - 1]])
  }

  function Deleted(c: Chat, ids: seq<int>, now: int): Chat {
    var members := RemoveAll(c.members, ids);
    if Ids(members) == Ids(c.members) then c
    else c.(members := members, count := |Ids(members)|, adminIds := Without(c.adminIds, ids),
            version := BumpVersion(c.version, now))
  }

  predicate MayQuit(c: Chat, actor: int) {
    c.chatType != CHAT_P2P && actor in c.members
  }

  /** The owner after a quit: unchanged, else the first admin left, else whichever remaining
      member the hash map yields first; 0 when nobody is left. */
  function NextOwner(c: Chat, actor: int, first: Option<int>): int {
    var admins := Without(c.adminIds, [actor]);
    var owner := if c.ownerId == actor then (if admins == [] then 0 else admins[0]) else c.ownerId;
    if owner == 0 then (if first.Some? then first.value else 0) else owner
  }

  /** An owner id of 0 trips the assertion before the version is bumped. */
  function Quit(c: Chat, actor: int, first: Option<int>, now: int): Chat {
    var members := RemoveOne(c.members, actor);
    var owner := NextOwner(c, actor, first);
    c.(members := members, count := |Ids(members)|, adminIds := Without(c.adminIds, [actor]), ownerId := owner,
       version := if owner == 0 then c.version else BumpVersion(c.version, now))
  }

  predicate MayDismiss(c: Chat, actor: int) {
    c.ownerId == actor && c.chatType != CHAT_P2P
  }

  function Dismissed(c: Chat, now: int): Chat {
    c.(version := BumpVersion(c.version, now), status := STATUS_DELETED)
  }

  /** Joining through an invite link or an approved request. */
  predicate MayJoin(c: Chat, user: int, invited: bool) {
    if invited then user !in c.members else c.chatType != CHAT_P2P
  }

  predicate MayUpdate(c: Chat, actor: int) {
    c.chatType != CHAT_P2P && IsManager(c, actor)
  }

  function AddAdmins(admins: seq<int>, ids: seq<int>): seq<int> {
    if ids == [] then admins
    else
      var front := AddAdmins(admins, ids[..|ids| - 1]);
      if ids[|ids| - 1] in front then front else front + [ids[|ids| - 1]]
  }

  /** What a request to change a chat asks for; `details` tells whether the name, the description or
      the avatar change. */
  datatype Wish = Wish(details: bool, joinMode: int, ownerId: int, adminsAdd: seq<int>, adminsRemove: seq<int>)

  function WishedOwner(c: Chat, actor: int, w: Wish): int {
    if c.ownerId == actor && w.ownerId > 0 then w.ownerId else c.ownerId
  }

  function WishedAdmins(c: Chat, actor: int, w: Wish): seq<int> {
    if c.ownerId == actor then Without(AddAdmins(c.adminIds, w.adminsAdd), w.adminsRemove) else c.adminIds
  }

  function WishedMode(c: Chat, w: Wish): int {
    if w.joinMode > 0 then w.joinMode else c.joinMode
  }

  predicate Alters(c: Chat, actor: int, w: Wish) {
    || w.details
    || WishedMode(c, w) != c.joinMode
    || WishedOwner(c, actor, w) != c.ownerId
    || (c.ownerId == actor &&
        (w.adminsAdd != [] || |WishedAdmins(c, actor, w)| != |AddAdmins(c.adminIds, w.adminsAdd)|))
  }

  /** Only the owner's wishes about owner and admins are heard; nothing asks whether those they name
      are members. */
  function Updated(c: Chat, actor: int, w: Wish, now: int): Chat {
    c.(joinMode := WishedMode(c, w), ownerId := WishedOwner(c, actor, w), adminIds := WishedAdmins(c, actor, w),
       version := if Alters(c, actor, w) then BumpVersion(c.version, now) else c.version)
  }

  class ChatContext {
    var chatType: int
    var status: int
    var ownerId: int
    var adminIds: seq<int>
    var version: int
    var joinMode: int
    var lastPos: int
    var lastBadge: int
    var lastId: int
    var members: map<int, Member>
    var count: int
    ghost var log: seq<Message>

    ghost function Contents(): Chat
      reads this
    {
      Chat(chatType, status, ownerId, adminIds, version, joinMode, lastPos, lastBadge, lastId, members, count, log)
    }

    ghost predicate Valid()
      reads this
    {
      count == |Ids(members)|
    }

    /** Adds members one by one; tells whether anyone became a member. */
    method CmvAdd(ids: seq<int>) returns (updated: bool)
      requires Valid()
      modifies `members, `count
      ensures Valid() && members == AddAll(old(members), ids)
      ensures updated <==> Ids(members) != Ids(old(members))
    {
      updated := false;
      for n := 0 to |ids|
        invariant Valid() && members == AddAll(old(members), ids[..n])
        invariant Ids(old(members)) <= Ids(members)
        invariant updated <==> Ids(members) != Ids(old(members))
      {
        var id := ids[n];
        assert ids[..n + 1][..n] == ids[..n];
        AddOneCount(members, id);
        if id in members {
          if !members[id].active {
            updated := true;
            count := count + 1;
            members := members[id := members[id].(active := true)];
          }
          assert members == AddOne(AddAll(old(members), ids[..n]), id);
        } else {
          updated := true;
          members := members[id := Member(|members|, true)];
          count := count + 1;
        }
      }
      assert ids[..|ids|] == ids;
    }

    /** Switches members off one by one; their map entries stay. */
    method CmvRemove(ids: seq<int>) returns (updated: bool)
      requires Valid()
      modifies `members, `count
      ensures Valid() && members == RemoveAll(old(members), ids)
      ensures updated <==> Ids(members) != Ids(old(members))
    {
      updated := false;
      for n := 0 to |ids|
        invariant Valid() && members == RemoveAll(old(members), ids[..n])
        invariant Ids(members) <= Ids(old(members))
        invariant updated <==> Ids(members) != Ids(old(members))
      {
        var id := ids[n];
        assert ids[..n + 1][..n] == ids[..n];
        RemoveOneCount(members, id);
        if id in members {
          if members[id].active {
            members := members[id := members[id].(active := false)];
            updated := true;
            count := count - 1;
          }
          assert members == RemoveOne(RemoveAll(old(members), ids[..n]), id);
        }
      }
      assert ids[..|ids|] == ids;
    }

    method RetainAdmins(gone: seq<int>)
      modifies `adminIds
      ensures adminIds == Without(old(adminIds), gone)
    {
      var kept := [];
      for n := 0 to |adminIds|
        invariant adminIds == old(adminIds)
        invariant kept == Without(adminIds[..n], gone)
      {
        assert adminIds[..n + 1][..n] == adminIds[..n];
        if adminIds[n] !in gone {
          kept := kept + [adminIds[n]];
        }
      }
      assert adminIds[..|adminIds|] == adminIds;
      adminIds := kept;
    }

    /** Gives a message its position and unread count, or refuses and changes nothing. */
    method UpdateLastMessage(id: int, fromId: int, system: bool, now: int, dbOk: bool) returns (r: Reply)
      requires Valid()
      modifies this
      ensures Valid()
      ensures r == Done <==> MaySend(old(Contents()), fromId) && dbOk
      ensures r == Done <==> old(status) == 1 && fromId in old(members) && dbOk
      ensures Contents() == if r == Done then Sent(old(Contents()), Numbered(old(Contents()), id, fromId, system, now))
                            else old(Contents())
    {
      if status != STATUS_NORMAL {
        return Failed("chat dismissed");
      }
      if fromId !in members {
        return Failed("chat member not found");
      }
      var m := Message(id, fromId, system, lastPos + 1, if system then lastBadge else lastBadge + 1, now);
      if !dbOk {
        return Failed("database error");
      }
      lastBadge := m.badge;
      lastPos := m.pos;
      lastId := m.id;
      log := log + [m];
      return Done;
    }

    method AddChatters(actor: int, ids: seq<int>, now: int, dbOk: bool) returns (r: Reply)
      requires Valid()
      modifies this
      ensures Valid()
      ensures r == NoPermission <==> !MayAdd(old(Contents()), actor)
      ensures r == NoPermission <==>
              old(chatType) == 1 || (old(joinMode) == 2 && actor != old(ownerId) && actor !in old(adminIds))
      ensures Contents() == if r == NoPermission then old(Contents()) else Added(old(Contents()), ids, now)
    {
      if chatType == CHAT_P2P {
        return NoPermission;
      }
      if joinMode == JOIN_BY_ADMIN {
        if actor != ownerId && actor !in adminIds {
          return NoPermission;
        }
      }
      ghost var before := members;
      var changed := CmvAdd(ids);
      if changed {
        version := BumpVersion(version, now);
        if !dbOk {
          return Failed("database error");
        }
      } else {
        UnchangedAdd(before, ids);
      }
      return Done;
    }

    method DeleteChatters(actor: int, ids: seq<int>, now: int, dbOk: bool) returns (r: Reply)
      requires Valid()
      modifies this
      ensures Valid()
      ensures r == NoPermission <==> !MayDelete(old(Contents()), actor)
      ensures r == NoPermission <==> old(chatType) == 1 || (actor != old(ownerId) && actor !in old(adminIds))
      ensures Contents() == if r == NoPermission then old(Contents()) else Deleted(old(Contents()), ids, now)
    {
      if chatType == CHAT_P2P || !(ownerId == actor || actor in adminIds) {
        return NoPermission;
      }
      ghost var before := members;
      var changed := CmvRemove(ids);
      if changed {
        RetainAdmins(ids);
        version := BumpVersion(version, now);
        if !dbOk {
          return Failed("database error");
        }
      } else {
        UnchangedRemove(before, ids);
      }
      return Done;
    }

    method Join(user: int, invited: bool, now: int, dbOk: bool) returns (r: Reply)
      requires Valid()
      modifies this
      ensures Valid()
      ensures r == NoPermission <==> !invited && old(chatType) == 1
      ensures Contents() == if MayJoin(old(Contents()), user, invited) then Added(old(Contents()), [user], now)
                            else old(Contents())
    {
      if invited {
        if user in members {
          return Done;
        }
      } else if chatType == CHAT_P2P {
        return NoPermission;
      }
      ghost var before := members;
      var changed := CmvAdd([user]);
      if changed {
        version := BumpVersion(version, now);
        if !dbOk {
          return Failed("database error");
        }
      } else {
        UnchangedAdd(before, [user]);
      }
      return Done;
    }

    method PushAdmins(ids: seq<int>)
      modifies `adminIds
      ensures adminIds == AddAdmins(old(adminIds), ids)
    {
      for n := 0 to |ids|
        invariant adminIds == AddAdmins(old(adminIds), ids[..n])
      {
        assert ids[..n + 1][..n] == ids[..n];
        if ids[n] !in adminIds {
          adminIds := adminIds + [ids[n]];
        }
      }
      assert ids[..|ids|] == ids;
    }

    method ChatUpdate(actor: int, w: Wish, now: int, dbOk: bool) returns (r: Reply)
      requires Valid()
      modifies this
      ensures Valid()
      ensures r == NoPermission <==> !MayUpdate(old(Contents()), actor)
      ensures r == NoPermission <==> old(chatType) == 1 || (actor != old(ownerId) && actor !in old(adminIds))
      ensures Contents() == if r == NoPermission then old(Contents()) else Updated(old(Contents()), actor, w, now)
    {
      hide Ids, AddAdmins, Without;
      if chatType == CHAT_P2P {
        return NoPermission;
      }
      var isOwner := ownerId == actor;
      var isAdmin := actor in adminIds;
      if !isOwner && !isAdmin {
        return NoPermission;
      }
      var changed := w.details;
      if w.joinMode > 0 && w.joinMode != joinMode {
        joinMode := w.joinMode;
        changed := true;
      }
      if isOwner {
        if w.ownerId > 0 && w.ownerId != ownerId {
          ownerId := w.ownerId;
          changed := true;
        }
        NoAdmins(adminIds);
        if w.adminsAdd != [] {
          PushAdmins(w.adminsAdd);
          changed := true;
        }
        if w.adminsRemove != [] {
          var oldLen := |adminIds|;
          RetainAdmins(w.adminsRemove);
          if |adminIds| != oldLen {
            changed := true;
          }
        } else {
          NobodyDropped(adminIds);
        }
      }
      if changed {
        version := BumpVersion(version, now);
        if !dbOk {
          return Failed("database error");
        }
      }
      return Done;
    }

    /** `first` is the first id of the hash map after the quit, when there is one. */
    method ChatQuit(actor: int, first: Option<int>, now: int) returns (r: Reply)
      requires Valid()
      modifies this
      ensures Valid()
      ensures r == NoPermission <==> !MayQuit(old(Contents()), actor)
      ensures r == NoPermission <==> old(chatType) == 1 || actor !in old(members)
      ensures r == Panicked <==> MayQuit(old(Contents()), actor) && NextOwner(old(Contents()), actor, first) == 0
      ensures Contents() == if r == NoPermission then old(Contents()) else Quit(old(Contents()), actor, first, now)
    {
      hide RemoveAll, RemoveOne, Without, Ids;
      if chatType == CHAT_P2P || actor !in members {
        return NoPermission;
      }
      if actor in adminIds {
        RetainAdmins([actor]);
      } else {
        NothingToDrop(adminIds, actor);
      }
      if ownerId == actor {
        ownerId := if adminIds == [] then 0 else adminIds[0];
      }
      ghost var before := members;
      var _ := CmvRemove([actor]);
      RemoveJustOne(before, actor);
      if ownerId == 0 {
        ownerId := if first.Some? then first.value else 0;
      }
      if ownerId == 0 {
        return Panicked;
      }
      version := BumpVersion(version, now);
      return Done;
    }

    method ChatDismiss(actor: int, now: int, dbOk: bool) returns (r: Reply)
      requires Valid()
      modifies this
      ensures Valid()
      ensures r == NoPermission <==> !MayDismiss(old(Contents()), actor)
      ensures r == NoPermission <==> old(chatType) == 1 || actor != old(ownerId)
      ensures r == Done <==> MayDismiss(old(Contents()), actor) && dbOk
      ensures Contents() == if r == NoPermission then old(Contents())
                            else if r == Done then Dismissed(old(Contents()), now)
                            else old(Contents()).(version := BumpVersion(old(version), now))
    {
      if ownerId != actor || chatType == CHAT_P2P {
        return NoPermission;
      }
      version := BumpVersion(version, now);
      if !dbOk {
        return Failed("database error");
      }
      status := STATUS_DELETED;
      return Done;
    }
  }

  lemma {:induction false} NoAdmins(admins: seq<int>)
    ensures AddAdmins(admins, []) == admins
  {}

  lemma {:induction false} NobodyDropped(ids: seq<int>)
    ensures Without(ids, []) == ids
  {
    if ids == [] {
    } else {
      NobodyDropped(ids[..|ids| - 1]);
    }
  }

  lemma {:induction false} RemoveJustOne(members: map<int, Member>, id: int)
    ensures RemoveAll(members, [id]) == RemoveOne(members, id)
  {
    assert [id][..0] == [];
  }

  lemma {:induction false} NothingToDrop(ids: seq<int>, id: int)
    requires id !in ids
    ensures Without(ids, [id]) == ids
  {
    if ids == [] {
    } else {
      NothingToDrop(ids[..|ids| - 1], id);
    }
  }

  lemma {:induction false} UnchangedAdd(members: map<int, Member>, ids: seq<int>)
    requires Ids(AddAll(members, ids)) == Ids(members)
    ensures AddAll(members, ids) == members
  {
    if ids == [] {
    } else {
      var front := ids[..|ids| - 1];
      AddAllMembers(members, front);
      AddAllMembers(members, ids);
      assert forall id :: id in front ==> id in ids;
      assert Ids(AddAll(members, front)) == Ids(members);
      UnchangedAdd(members, front);
      var last := ids[|ids| - 1];
      assert last in ids;
      assert last in Ids(members);
      assert members[last].(active := true) == members[last];
    }
  }

  lemma {:induction false} UnchangedRemove(members: map<int, Member>, ids: seq<int>)
    requires Ids(RemoveAll(members, ids)) == Ids(members)
    ensures RemoveAll(members, ids) == members
  {
    if ids == [] {
    } else {
      var front := ids[..|ids| - 1];
      RemoveAllMembers(members, front);
      RemoveAllMembers(members, ids);
      assert forall id :: id in front ==> id in ids;
      assert Ids(RemoveAll(members, front)) == Ids(members);
      UnchangedRemove(members, front);
      var last := ids[|ids| - 1];
      assert last in ids;
      assert last !in Ids(members);
      if last in members {
        assert members[last].(active := false) == members[last];
      }
    }
  }
}
