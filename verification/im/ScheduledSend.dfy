/** A scheduled message meets its chat: the worker hands it to the ordinary send path, whose answer
    decides what the row will say. */
module ScheduledSend {
  import opened Basics
  import opened ChatLog
  import S = Scheduler

  const CHAT_GROUP := 2

  /** What a lookup in front of a send answers. A message that does not mention everybody is clear of
      the second one. */
  datatype Check = Clear | Bars | Errs

  predicate NotMuted(c: Chat, user: int, muting: Check) {
    IsManager(c, user) || muting == Clear
  }

  /** A refusal, which the send path answers with success. */
  predicate Refuses(c: Chat, user: int, muting: Check, atAll: Check) {
    || !MaySend(c, user)
    || (c.chatType == CHAT_GROUP && !IsManager(c, user) && muting == Bars)
    || (c.chatType == CHAT_GROUP && NotMuted(c, user, muting) && atAll == Bars)
  }

  predicate CheckFails(c: Chat, user: int, muting: Check, atAll: Check) {
    && MaySend(c, user) && c.chatType == CHAT_GROUP
    && (if NotMuted(c, user, muting) then atAll == Errs else muting == Errs)
  }

  /** What a send comes to. The checks read the chat at one moment, the position is given at a later
      one, when the chat may have changed. */
  function OutcomeOf(checked: Chat, later: Chat, user: int, muting: Check, atAll: Check, chatOk: bool, feedOk: bool):
      S.Outcome {
    if Refuses(checked, user, muting, atAll) then S.Refused
    else if CheckFails(checked, user, muting, atAll) || !MaySend(later, user) || !chatOk then S.FailedBefore
    else if !feedOk then S.FailedAfter
    else S.Delivered
  }

  function ChatAfter(later: Chat, outcome: S.Outcome, id: int, user: int, system: bool, now: int): Chat {
    if outcome == S.Delivered || outcome == S.FailedAfter
    then Sent(later, Numbered(later, id, user, system, now)) else later
  }

  /** The send path with nothing in between its two moments: check, give a position, update the
      members' feed rows. */
  method MessageSend(chat: ChatContext, id: int, user: int, system: bool, muting: Check, atAll: Check, now: int,
                     chatOk: bool, feedOk: bool) returns (outcome: S.Outcome)
    requires chat.Valid()
    modifies chat
    ensures chat.Valid()
    ensures outcome == OutcomeOf(old(chat.Contents()), old(chat.Contents()), user, muting, atAll, chatOk, feedOk)
    ensures chat.Contents() == ChatAfter(old(chat.Contents()), outcome, id, user, system, now)
  {
    if chat.status != STATUS_NORMAL {
      return S.Refused;
    }
    if user !in chat.members {
      return S.Refused;
    }
    if chat.chatType == CHAT_GROUP {
      var isOwner := chat.ownerId == user;
      var isAdmin := user in chat.adminIds;
      if !isOwner && !isAdmin && muting != Clear {
        return if muting == Bars then S.Refused else S.FailedBefore;
      }
      if atAll != Clear {
        return if atAll == Bars then S.Refused else S.FailedBefore;
      }
    }
    var r := chat.UpdateLastMessage(id, user, system, now, chatOk);
    if r != Done {
      return S.FailedBefore;
    }
    if !feedOk {
      return S.FailedAfter;
    }
    return S.Delivered;
  }

  /** The worker's next row says sent although its message is not in the chat's log exactly when the
      status write succeeded and the send was refused: the chat was not open, the user had never been
      added, they were muted, or the message mentioned everybody where that is barred. */
  lemma {:induction false} SentWithoutMessageIff(w: S.World, checked: Chat, later: Chat, muting: Check, atAll: Check,
                                                 chatOk: bool, feedOk: bool, writeOk: bool, msg: int, system: bool,
                                                 now: int)
    requires w.batch != [] && w.batch[0] in w.rows && w.rows[w.batch[0]].status == S.PENDING
    ensures var id, user := w.batch[0], w.rows[w.batch[0]].user;
            var outcome := OutcomeOf(checked, later, user, muting, atAll, chatOk, feedOk);
            var v, after := S.Step(w, S.SendNext(outcome, writeOk)), ChatAfter(later, outcome, msg, user, system, now);
            var numbered := !Refuses(checked, user, muting, atAll) && !CheckFails(checked, user, muting, atAll)
                            && MaySend(later, user) && chatOk;
            && (v.rows[id].status == S.SENT && |after.log| == |later.log| <==>
                writeOk && Refuses(checked, user, muting, atAll))
            && (v.rows[id].status == S.SENT && |after.log| == |later.log| + 1 <==> writeOk && numbered && feedOk)
            && (v.rows[id].status == S.PENDING && |after.log| == |later.log| + 1 <==>
                numbered && !(feedOk && writeOk))
  {
    hide MaySend, Refuses, CheckFails;
  }

  /** A message scheduled for a chat that is dismissed meanwhile: marked sent, never in the chat. */
  lemma {:induction false} DismissedChatSwallows(w: S.World, c: Chat, muting: Check, atAll: Check)
    requires w.batch != [] && w.batch[0] in w.rows && c.status == STATUS_DELETED
    ensures var outcome := OutcomeOf(c, c, w.rows[w.batch[0]].user, muting, atAll, true, true);
            && S.Step(w, S.SendNext(outcome, true)).rows[w.batch[0]].status == S.SENT
            && ChatAfter(c, outcome, 0, w.rows[w.batch[0]].user, false, 0) == c
  {}
}
