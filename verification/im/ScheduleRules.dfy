/** What each action on the scheduled messages does, and what a send comes to, told row by row. Status 0
    is pending, 1 sent and 2 cancelled. */
module ScheduleRules {
  import opened ChatLog
  import opened ScheduledSend
  import opened Scheduler

  /** Nothing but row `id` may differ. */
  ghost predicate OnlyRow(was: World, next: World, id: int) {
    forall x :: x != id ==> (x in next.rows <==> x in was.rows) && (x in was.rows ==> next.rows[x] == was.rows[x])
  }

  /** What a caller can ask for: a new row that lies ahead, pending, and the end of an own row that is
      still pending. Anything else changes nothing. */
  lemma {:induction false} UsersChange(w: World, id: int, user: int, sendAt: int, now: int)
    ensures id !in w.rows ==>
              && Enabled(w, Schedule(id, user, sendAt, now))
              && var next := Step(w, Schedule(id, user, sendAt, now));
                 && OnlyRow(w, next, id) && next == World(next.rows, w.batch, w.polled, w.attempts)
                 && (id in next.rows <==> now < sendAt)
                 && (id in next.rows ==> next.rows[id] == Row(user, sendAt, 0))
    ensures Enabled(w, Cancel(id, user))
    ensures var next := Step(w, Cancel(id, user));
            && OnlyRow(w, next, id) && next == World(next.rows, w.batch, w.polled, w.attempts)
            && (id in next.rows <==> id in w.rows)
            && (id in w.rows ==>
                  var status := if w.rows[id].user == user && w.rows[id].status == 0 then 2 else w.rows[id].status;
                  next.rows[id] == Row(w.rows[id].user, w.rows[id].sendAt, status))
  {}

  /** The worker may take `due` exactly when it holds nothing and these are up to a hundred different
      pending rows that are due, in order of their times, with no row left out that should go first. */
  lemma {:induction false} PollTakesIff(w: World, now: int, due: seq<int>)
    ensures Enabled(w, Poll(now, due)) <==>
            && w.batch == [] && |due| <= 100
            && (forall i | 0 <= i < |due| ::
                  due[i] in w.rows && w.rows[due[i]].sendAt <= now && w.rows[due[i]].status == 0)
            && (forall i, j | 0 <= i < j < |due| ::
                  due[i] != due[j] && w.rows[due[i]].sendAt <= w.rows[due[j]].sendAt)
            && (forall id | id in w.rows && w.rows[id].sendAt <= now && w.rows[id].status == 0 && id !in due ::
                  |due| == 100 && forall i | 0 <= i < |due| :: w.rows[due[i]].sendAt <= w.rows[id].sendAt)
    ensures Step(w, Poll(now, due)) == World(w.rows, due, now, w.attempts)
    ensures Enabled(w, Restart) && Step(w, Restart) == World(w.rows, [], w.polled, w.attempts)
  {
    var next := Step(w, Poll(now, due));
    if Selects(w.rows, now, due) {
      forall id | id in w.rows && w.rows[id].sendAt <= now && w.rows[id].status == 0 && id !in due
        ensures |due| == 100 && forall i | 0 <= i < |due| :: w.rows[due[i]].sendAt <= w.rows[id].sendAt
      {
        assert IsDue(w.rows, id, now);
      }
    }
  }

  /** The worker tries its batch in order. A row is marked sent exactly when sending reported no error and
      the mark was written, whatever its status has become. */
  lemma {:induction false} SendMarksIff(w: World, outcome: Outcome, writeOk: bool)
    requires w.batch != [] && w.batch[0] in w.rows
    ensures Enabled(w, SendNext(outcome, writeOk))
    ensures var id, next := w.batch[0], Step(w, SendNext(outcome, writeOk));
            var marked := writeOk && outcome != FailedBefore && outcome != FailedAfter;
            && OnlyRow(w, next, id) && id in next.rows
            && next.rows[id] == Row(w.rows[id].user, w.rows[id].sendAt, if marked then 1 else w.rows[id].status)
            && next.batch == w.batch[1..] && next.polled == w.polled
            && next.attempts == w.attempts + [Attempt(id, w.polled, outcome, marked)]
  {}

  /** When a send is refused and when it fails: `barred` from the chat, or silenced in a group chat, where
      the owner and the admins may speak although it is muted, but may not mention all where that is
      barred. */
  lemma {:induction false} SendComesTo(checked: Chat, later: Chat, user: int, muting: Check, atAll: Check,
                                       chatOk: bool, feedOk: bool)
    ensures var outcome := OutcomeOf(checked, later, user, muting, atAll, chatOk, feedOk);
            var barred := checked.status != 1 || user !in checked.members;
            var leads := user == checked.ownerId || user in checked.adminIds;
            var group := checked.chatType == 2;
            && (outcome == Refused <==>
                  barred || (group && if !leads && muting != Clear then muting == Bars else atAll == Bars))
            && (outcome == FailedBefore <==>
                  outcome != Refused &&
                  ((group && if !leads && muting != Clear then muting == Errs else atAll == Errs)
                   || later.status != 1 || user !in later.members || !chatOk))
            && (outcome == FailedAfter || outcome == Delivered <==> outcome != Refused && outcome != FailedBefore)
            && (outcome == Delivered ==> feedOk) && (outcome == FailedAfter ==> !feedOk)
  {}

  /** The chat gets the message exactly when it was delivered or only the feed update failed. */
  lemma {:induction false} SendAddsIff(c: Chat, outcome: Outcome, id: int, user: int, system: bool, now: int)
    ensures var next := ChatAfter(c, outcome, id, user, system, now);
            var badge := c.lastBadge + (if system then 0 else 1);
            if outcome == Delivered || outcome == FailedAfter then
              next == c.(lastPos := c.lastPos + 1, lastBadge := badge, lastId := id,
                         log := c.log + [Message(id, user, system, c.lastPos + 1, badge, now)])
            else next == c
  {}
}
