/** Messages scheduled for later: a table of rows, and one worker that polls it every second. */
module Scheduler {

  const PENDING := 0
  const SENT := 1
  const CANCELLED := 2
  const BATCH := 100

  datatype Row = Row(user: int, sendAt: int, status: int)

  /** What sending came to: a position given and success reported; a refusal, which is reported
      as success too; an error before a position was given, or after. */
  datatype Outcome = Delivered | Refused | FailedBefore | FailedAfter

  datatype Attempt = Attempt(id: int, polled: int, outcome: Outcome, marked: bool)

  /** `batch` is what the worker still has to send of its last poll. */
  datatype World = World(rows: map<int, Row>, batch: seq<int>, polled: int, attempts: seq<Attempt>)

  predicate Goes(a: Attempt) {
    a.outcome == Delivered || a.outcome == FailedAfter
  }

  predicate IsDue(rows: map<int, Row>, id: int, now: int) {
    id in rows && rows[id].sendAt <= now && rows[id].status == PENDING
  }

  /** The earliest due rows, at most a batch of them. */
  ghost predicate Selects(rows: map<int, Row>, now: int, due: seq<int>) {
    && |due| <= BATCH
    && (forall i | 0 <= i < |due| :: IsDue(rows, due[i], now))
    && (forall i, j | 0 <= i < j < |due| :: due[i] != due[j] && rows[due[i]].sendAt <= rows[due[j]].sendAt)
    && (forall id | IsDue(rows, id, now) && id !in due ::
          |due| == BATCH && forall i | 0 <= i < |due| :: rows[due[i]].sendAt <= rows[id].sendAt)
  }

  predicate MayCancel(rows: map<int, Row>, id: int, user: int) {
    id in rows && rows[id].user == user && rows[id].status == PENDING
  }

  datatype Action =
    | Schedule(id: int, user: int, sendAt: int, now: int)
    | Cancel(id: int, user: int)
    | Poll(now: int, due: seq<int>)
    | SendNext(outcome: Outcome, writeOk: bool)
    | Restart

  ghost predicate Enabled(w: World, a: Action) {
    match a
    case Schedule(id, _, _, _) => id !in w.rows
    case Cancel(_, _) => true
    case Poll(now, due) => w.batch == [] && Selects(w.rows, now, due)
    case SendNext(_, _) => w.batch != [] && w.batch[0] in w.rows
    case Restart => true
  }

  function Step(w: World, a: Action): World {
    match a
    case Schedule(id, user, sendAt, now) =>
      if sendAt > now then w.(rows := w.rows[id := Row(user, sendAt, PENDING)]) else w
    case Cancel(id, user) =>
      if MayCancel(w.rows, id, user) then w.(rows := w.rows[id := w.rows[id].(status := CANCELLED)]) else w
    case Poll(now, due) => w.(batch := due, polled := now)
    case SendNext(outcome, writeOk) =>
      if w.batch == [] || w.batch[0] !in w.rows then w
      else
        var id := w.batch[0];
        var marked := (outcome == Delivered || outcome == Refused) && writeOk;
        World(if marked then w.rows[id := w.rows[id].(status := SENT)] else w.rows,
              w.batch[1..], w.polled, w.attempts + [Attempt(id, w.polled, outcome, marked)])
    case Restart => w.(batch := [])
  }

  /** The worker sends its batch with nothing in between. */
  function SendAll(w: World, outcomes: seq<Outcome>, writes: seq<bool>): World
    requires |outcomes| == |writes|
  {
    if outcomes == [] then w
    else
      var n := |outcomes| - 1;
      Step(SendAll(w, outcomes[..n], writes[..n]), SendNext(outcomes[n], writes[n]))
  }

  class SchedulerService {
    var rows: map<int, Row>
    var batch: seq<int>
    var polled: int
    ghost var attempts: seq<Attempt>

    ghost function Contents(): World
      reads this
    {
      World(rows, batch, polled, attempts)
    }

    method ScheduleMessage(id: int, user: int, sendAt: int, now: int) returns (ok: bool)
      requires id !in rows
      modifies `rows
      ensures ok <==> sendAt > now
      ensures Contents() == Step(old(Contents()), Schedule(id, user, sendAt, now))
    {
      if sendAt <= now {
        return false;
      }
      rows := rows[id := Row(user, sendAt, PENDING)];
      return true;
    }

    method CancelSchedule(id: int, user: int) returns (ok: bool)
      modifies `rows
      ensures ok <==> MayCancel(old(rows), id, user)
      ensures ok <==> id in old(rows) && old(rows)[id].user == user && old(rows)[id].status == 0
      ensures Contents() == Step(old(Contents()), Cancel(id, user))
    {
      var affected := 0;
      if id in rows && rows[id].user == user && rows[id].status == PENDING {
        rows := rows[id := rows[id].(status := CANCELLED)];
        affected := 1;
      }
      return affected != 0;
    }

    /** One message of the batch; the mark is written whatever the status has become. */
    method SendOne(outcome: Outcome, writeOk: bool)
      requires batch != [] && batch[0] in rows
      modifies this
      ensures Contents() == Step(old(Contents()), SendNext(outcome, writeOk))
    {
      var id := batch[0];
      batch := batch[1..];
      match outcome
      case Delivered | Refused =>
        if writeOk {
          rows := rows[id := rows[id].(status := SENT)];
        }
        attempts := attempts + [Attempt(id, polled, outcome, writeOk)];
      case FailedBefore | FailedAfter =>
        attempts := attempts + [Attempt(id, polled, outcome, false)];
    }

    /** One round of the worker: the rows selected at `now`, sent one after another. */
    method RunOnce(now: int, due: seq<int>, outcomes: seq<Outcome>, writes: seq<bool>)
      requires batch == [] && Selects(rows, now, due) && |outcomes| == |writes| == |due|
      modifies this
      ensures Contents() == SendAll(Step(old(Contents()), Poll(now, due)), outcomes, writes)
      ensures batch == []
    {
      batch, polled := due, now;
      ghost var start := Contents();
      assert forall i | 0 <= i < |due| :: due[i] in rows;
      hide Step, Selects;
      for n := 0 to |due|
        invariant Contents() == SendAll(start, outcomes[..n], writes[..n])
        invariant batch == due[n..]
        invariant forall i | n <= i < |due| :: due[i] in rows
      {
        SendAllNext(start, outcomes, writes, n);
        SendDropsFirst(Contents(), outcomes[n], writes[n]);
        SendOne(outcomes[n], writes[n]);
      }
      assert outcomes[..|due|] == outcomes && writes[..|due|] == writes;
    }
  }

  lemma {:induction false} SendAllNext(w: World, outcomes: seq<Outcome>, writes: seq<bool>, n: nat)
    requires n < |outcomes| == |writes|
    ensures SendAll(w, outcomes[..n + 1], writes[..n + 1])
      == Step(SendAll(w, outcomes[..n], writes[..n]), SendNext(outcomes[n], writes[n]))
  {
    assert outcomes[..n + 1][..n] == outcomes[..n] && writes[..n + 1][..n] == writes[..n];
  }

  lemma {:induction false} SendDropsFirst(w: World, outcome: Outcome, writeOk: bool)
    requires w.batch != [] && w.batch[0] in w.rows
    ensures var v := Step(w, SendNext(outcome, writeOk)); v.batch == w.batch[1..] && v.rows.Keys == w.rows.Keys
  {}

  ghost predicate Trace(ws: seq<World>, acts: seq<Action>) {
    && |ws| == |acts| + 1
    && forall n | 0 <= n < |acts| :: Enabled(ws[n], acts[n]) && ws[n + 1] == Step(ws[n], acts[n])
  }

  const EMPTY := World(map[], [], 0, [])

  ghost predicate BatchSound(w: World) {
    && (forall i | 0 <= i < |w.batch| :: w.batch[i] in w.rows && w.rows[w.batch[i]].sendAt <= w.polled)
    && (forall i, j | 0 <= i < j < |w.batch| :: w.batch[i] != w.batch[j])
  }

  ghost predicate AttemptsSound(w: World) {
    && (forall k | 0 <= k < |w.attempts| ::
          var a := w.attempts[k];
          && a.id in w.rows && w.rows[a.id].sendAt <= a.polled
          && (a.marked ==> w.rows[a.id].status == SENT && a.id !in w.batch))
    && (forall j, k | 0 <= j < k < |w.attempts| :: w.attempts[j].id == w.attempts[k].id ==> !w.attempts[j].marked)
    && (forall id | id in w.rows && w.rows[id].status == SENT ::
          exists k :: 0 <= k < |w.attempts| && w.attempts[k].id == id && w.attempts[k].marked)
  }

  lemma {:induction false} StepKeepsBatch(w: World, a: Action)
    requires Enabled(w, a) && BatchSound(w)
    ensures BatchSound(Step(w, a))
  {}

  lemma {:induction false} SendKeepsAttempts(w: World, a: Action)
    requires a.SendNext? && Enabled(w, a) && BatchSound(w) && AttemptsSound(w)
    ensures AttemptsSound(Step(w, a))
  {
    var v := Step(w, a);
    var id := w.batch[0];
    assert id in w.batch && id !in w.batch[1..];
    assert forall x :: x in v.batch ==> x in w.batch;
    var last := v.attempts[|w.attempts|];
    assert v.attempts == w.attempts + [last];
    forall x | x in v.rows && v.rows[x].status == SENT
      ensures exists k :: 0 <= k < |v.attempts| && v.attempts[k].id == x && v.attempts[k].marked
    {
      if x == id && last.marked {
        assert v.attempts[|w.attempts|].marked;
      } else {
        var k :| 0 <= k < |w.attempts| && w.attempts[k].id == x && w.attempts[k].marked;
        assert v.attempts[k] == w.attempts[k];
      }
    }
  }

  lemma {:induction false} StepKeepsAttempts(w: World, a: Action)
    requires Enabled(w, a) && BatchSound(w) && AttemptsSound(w)
    ensures AttemptsSound(Step(w, a))
  {
    match a
    case SendNext(_, _) => SendKeepsAttempts(w, a);
    case Poll(_, due) =>
      forall k | 0 <= k < |w.attempts| && w.attempts[k].marked ensures w.attempts[k].id !in due {}
    case _ =>
  }

  /** In every run: nothing is attempted before its time; an attempt for a message that was
      attempted before means that none of the earlier ones was marked; and a row says sent
      exactly when some attempt for it was marked. */
  lemma {:induction false} WorkerIsSound(ws: seq<World>, acts: seq<Action>, n: nat)
    requires Trace(ws, acts) && ws[0] == EMPTY && n <= |acts|
    ensures BatchSound(ws[n]) && AttemptsSound(ws[n])
  {
    if n == 0 {
    } else {
      WorkerIsSound(ws, acts, n - 1);
      StepKeepsBatch(ws[n - 1], acts[n - 1]);
      StepKeepsAttempts(ws[n - 1], acts[n - 1]);
    }
  }

  function TimesSent(attempts: seq<Attempt>, id: int): nat {
    if attempts == [] then 0
    else
      var last := attempts[|attempts| - 1];
      TimesSent(attempts[..|attempts| - 1], id) + (if last.id == id && Goes(last) then 1 else 0)
  }

  lemma {:induction false} OneMore(attempts: seq<Attempt>, a: Attempt, id: int)
    ensures TimesSent(attempts + [a], id) == TimesSent(attempts, id) + (if a.id == id && Goes(a) then 1 else 0)
  {
    assert (attempts + [a])[..|attempts|] == attempts;
  }

  lemma {:induction false} SentNeedsAttempt(attempts: seq<Attempt>, id: int)
    ensures TimesSent(attempts, id) > 0 <==>
            exists k :: 0 <= k < |attempts| && attempts[k].id == id && Goes(attempts[k])
  {
    if attempts == [] {
    } else {
      var front := attempts[..|attempts| - 1];
      SentNeedsAttempt(front, id);
      if k :| 0 <= k < |attempts| && attempts[k].id == id && Goes(attempts[k]) {
        if k < |front| {
          assert front[k] == attempts[k];
        }
      }
      if TimesSent(front, id) > 0 {
        var k :| 0 <= k < |front| && front[k].id == id && Goes(front[k]);
        assert attempts[k] == front[k];
      }
    }
  }

  /** Sent at most once, if every attempt that gave the message a position was marked. */
  lemma {:induction false} SentAtMostOnce(w: World, id: int, n: nat)
    requires AttemptsSound(w) && n <= |w.attempts|
    requires forall k | 0 <= k < |w.attempts| && Goes(w.attempts[k]) && w.attempts[k].id == id :: w.attempts[k].marked
    ensures TimesSent(w.attempts[..n], id) <= 1
  {
    if n == 0 {
    } else {
      var all := w.attempts[..n];
      assert all[..n - 1] == w.attempts[..n - 1];
      SentAtMostOnce(w, id, n - 1);
      if all[n - 1].id == id {
        SentNeedsAttempt(w.attempts[..n - 1], id);
      }
    }
  }

  // ---- what can still come ----

  ghost predicate Settled(w: World, id: int) {
    id in w.rows && w.rows[id].status != PENDING && id !in w.batch
  }

  lemma {:induction false} SettledStep(w: World, a: Action, id: int)
    requires Enabled(w, a) && Settled(w, id)
    ensures var v := Step(w, a);
      && Settled(v, id) && v.rows[id] == w.rows[id] && TimesSent(v.attempts, id) == TimesSent(w.attempts, id)
  {
    hide TimesSent;
    if a.SendNext? {
      var v := Step(w, a);
      assert w.batch[0] in w.batch;
      assert forall x :: x in v.batch ==> x in w.batch;
      OneMore(w.attempts, v.attempts[|w.attempts|], id);
      assert v.attempts == w.attempts + [v.attempts[|w.attempts|]];
    }
  }

  lemma {:induction false} SettledStays(ws: seq<World>, acts: seq<Action>, id: int, n: nat)
    requires Trace(ws, acts) && Settled(ws[0], id) && n <= |acts|
    ensures Settled(ws[n], id) && ws[n].rows[id] == ws[0].rows[id]
    ensures TimesSent(ws[n].attempts, id) == TimesSent(ws[0].attempts, id)
  {
    if n == 0 {
    } else {
      SettledStays(ws, acts, id, n - 1);
      hide TimesSent, Step, Enabled;
      SettledStep(ws[n - 1], acts[n - 1], id);
    }
  }

  lemma {:induction false} Prepend(w: World, a: Action, ws: seq<World>, acts: seq<Action>)
    requires Trace(ws, acts) && Enabled(w, a) && ws[0] == Step(w, a)
    ensures Trace([w] + ws, [a] + acts)
  {
    hide Enabled, Step;
    var us, bs := [w] + ws, [a] + acts;
    forall n | 0 <= n < |bs| ensures Enabled(us[n], bs[n]) && us[n + 1] == Step(us[n], bs[n]) {
      if n > 0 {
        assert us[n] == ws[n - 1] && bs[n] == acts[n - 1] && us[n + 1] == ws[n];
      }
    }
  }

  /** The worker and the users can get from one state to the other. */
  ghost predicate Leads(w: World, v: World) {
    exists ws: seq<World>, acts: seq<Action> :: Trace(ws, acts) && ws[0] == w && ws[|acts|] == v
  }

  lemma {:induction false} LeadsToItself(w: World)
    ensures Leads(w, w)
  {
    hide Enabled, Step;
    assert Trace([w], []);
  }

  lemma {:induction false} LeadsOn(w: World, a: Action, v: World)
    requires Enabled(w, a) && Leads(Step(w, a), v)
    ensures Leads(w, v)
  {
    hide Enabled, Step;
    var ws: seq<World>, acts: seq<Action> :| Trace(ws, acts) && ws[0] == Step(w, a) && ws[|acts|] == v;
    Prepend(w, a, ws, acts);
    assert ([w] + ws)[|[a] + acts|] == v;
  }

  lemma {:induction false} SettledForEver(w: World, v: World, id: int)
    requires Settled(w, id) && Leads(w, v)
    ensures TimesSent(v.attempts, id) == TimesSent(w.attempts, id)
  {
    hide Enabled, Step, Settled;
    var ws: seq<World>, acts: seq<Action> :| Trace(ws, acts) && ws[0] == w && ws[|acts|] == v;
    SettledStays(ws, acts, id, |acts|);
  }

  lemma {:induction false} SendFirst(w: World, outcome: Outcome, writeOk: bool)
    requires w.batch != [] && w.batch[0] in w.rows
    ensures var a, v := SendNext(outcome, writeOk), Step(w, SendNext(outcome, writeOk));
      && Enabled(w, a) && v.batch == w.batch[1..] && v.polled == w.polled
      && (outcome in {FailedBefore, FailedAfter} || !writeOk ==> v.rows == w.rows)
      && forall id :: TimesSent(v.attempts, id) ==
                      TimesSent(w.attempts, id)
                      + (if id == w.batch[0] && outcome in {Delivered, FailedAfter} then 1 else 0)
  {
    hide TimesSent;
    var id := w.batch[0];
    var v := Step(w, SendNext(outcome, writeOk));
    assert v.attempts == w.attempts + [v.attempts[|w.attempts|]];
    forall x
      ensures TimesSent(v.attempts, x) ==
              TimesSent(w.attempts, x) + (if x == id && outcome in {Delivered, FailedAfter} then 1 else 0)
    {
      OneMore(w.attempts, v.attempts[|w.attempts|], x);
    }
  }

  /** What the worker holds in its batch it can still send. */
  lemma {:induction false} DrainTo(w: World, id: int) returns (v: World)
    requires BatchSound(w) && id in w.batch
    ensures Leads(w, v) && TimesSent(v.attempts, id) > TimesSent(w.attempts, id)
    decreases |w.batch|
  {
    hide Step, Enabled, TimesSent, Leads;
    var a := SendNext(Delivered, true);
    var next := Step(w, a);
    SendFirst(w, Delivered, true);
    StepKeepsBatch(w, a);
    if w.batch[0] == id {
      v := next;
      LeadsToItself(v);
    } else {
      v := DrainTo(next, id);
    }
    LeadsOn(w, a, v);
  }

  function Waiting(rows: map<int, Row>, id: int): set<int> {
    set x | x in rows && x != id && rows[x].status == PENDING
  }

  lemma {:induction false} SomeoneWaits(s: set<int>)
    requires s != {}
    ensures exists x :: x in s
  {
    assert (forall x :: x !in s) ==> s == {};
  }

  /** Every other pending row can be cancelled. */
  lemma {:induction false} ClearOthers(w: World, id: int) returns (v: World)
    requires w.batch == [] && id in w.rows
    ensures Leads(w, v) && v.batch == [] && v.attempts == w.attempts
    ensures id in v.rows && v.rows[id] == w.rows[id] && Waiting(v.rows, id) == {}
    decreases |Waiting(w.rows, id)|
  {
    hide Leads, Enabled;
    var others := Waiting(w.rows, id);
    if others == {} {
      v := w;
      LeadsToItself(w);
    } else {
      SomeoneWaits(others);
      var x :| x in others;
      var a := Cancel(x, w.rows[x].user);
      var next := Step(w, a);
      assert Waiting(next.rows, id) == others - {x};
      v := ClearOthers(next, id);
      CancelEnabled(w, x);
      LeadsOn(w, a, v);
    }
  }

  lemma {:induction false} CancelEnabled(w: World, x: int)
    requires x in w.rows
    ensures Enabled(w, Cancel(x, w.rows[x].user)) && Enabled(w, Restart)
  {}

  lemma {:induction false} PollOnly(w: World, id: int, now: int)
    requires w.batch == [] && IsDue(w.rows, id, now) && Waiting(w.rows, id) == {}
    ensures Enabled(w, Poll(now, [id])) && Step(w, Poll(now, [id])) == World(w.rows, [id], now, w.attempts)
  {
    assert forall x | x in w.rows && w.rows[x].status == PENDING :: x == id || x in Waiting(w.rows, id);
  }

  /** What is pending can still be sent: the worker restarts, the other rows are cancelled, the
      clock moves on. */
  lemma {:induction false} PendingCanGo(w: World, id: int) returns (v: World)
    requires id in w.rows && w.rows[id].status == PENDING
    ensures Leads(w, v) && TimesSent(v.attempts, id) > TimesSent(w.attempts, id)
  {
    hide Leads, Enabled, TimesSent, Waiting;
    var stopped := Step(w, Restart);
    var alone := ClearOthers(stopped, id);
    var now := alone.rows[id].sendAt;
    PollOnly(alone, id, now);
    var polled := Step(alone, Poll(now, [id]));
    SendFirst(polled, Delivered, true);
    v := Step(polled, SendNext(Delivered, true));
    LeadsToItself(v);
    LeadsOn(polled, SendNext(Delivered, true), v);
    LeadsOn(alone, Poll(now, [id]), v);
    LeadsTogether(stopped, alone, v);
    CancelEnabled(w, id);
    LeadsOn(w, Restart, v);
  }

  lemma {:induction false} LeadsTogether(w: World, u: World, v: World)
    requires Leads(w, u) && Leads(u, v)
    ensures Leads(w, v)
  {
    hide Enabled, Step;
    var ws: seq<World>, acts: seq<Action> :| Trace(ws, acts) && ws[0] == w && ws[|acts|] == u;
    TraceThen(ws, acts, v, |acts|);
  }

  lemma {:induction false} TraceThen(ws: seq<World>, acts: seq<Action>, v: World, n: nat)
    requires Trace(ws, acts) && n <= |acts| && Leads(ws[|acts|], v)
    ensures Leads(ws[|acts| - n], v)
  {
    hide Enabled, Step, Leads;
    if n == 0 {
    } else {
      TraceThen(ws, acts, v, n - 1);
      LeadsOn(ws[|acts| - n], acts[|acts| - n], v);
    }
  }

  // ---- sent again ----

  /** A message that was sent once will possibly be sent again exactly when its row is still pending
      - its status was not written, or sending reported an error after a position was given - or the
      worker still holds it. */
  lemma {:induction false} ResentIff(w: World, id: int)
    requires BatchSound(w) && AttemptsSound(w) && TimesSent(w.attempts, id) == 1
    ensures id in w.rows
    ensures (exists v :: Leads(w, v) && TimesSent(v.attempts, id) >= 2) <==>
            w.rows[id].status == PENDING || id in w.batch
  {
    hide Leads, TimesSent, BatchSound;
    SentNeedsAttempt(w.attempts, id);
    if w.rows[id].status == PENDING {
      var v := PendingCanGo(w, id);
    } else if id in w.batch {
      var v := DrainTo(w, id);
    } else {
      forall v | Leads(w, v)
        ensures TimesSent(v.attempts, id) == 1
      {
        SettledForEver(w, v, id);
      }
    }
  }

  /** Both ways to leave a sent message pending, in a run from its poll on: the error after the
      position, with every status write succeeding, and the failed write. */
  lemma {:induction false} UnmarkedIsSentAgain(w: World, id: int, now: int, failure: bool)
    requires w.batch == [id] && IsDue(w.rows, id, now) && Waiting(w.rows, id) == {}
    ensures exists ws: seq<World>, acts: seq<Action> ::
      && Trace(ws, acts) && |acts| == 3 && ws[0] == w
      && acts == [if failure then SendNext(FailedAfter, true) else SendNext(Delivered, false),
                  Poll(now, [id]), SendNext(Delivered, true)]
      && TimesSent(ws[3].attempts, id) == TimesSent(w.attempts, id) + 2
  {
    hide TimesSent, Step, Enabled, Waiting;
    var first := if failure then SendNext(FailedAfter, true) else SendNext(Delivered, false);
    var acts := [first, Poll(now, [id]), SendNext(Delivered, true)];
    var w1 := Step(w, first);
    SendFirst(w, first.outcome, first.writeOk);
    var w2 := Step(w1, acts[1]);
    PollOnly(w1, id, now);
    var w3 := Step(w2, acts[2]);
    SendFirst(w2, Delivered, true);
    var ws := [w, w1, w2, w3];
    assert Trace(ws, acts);
  }

  // ---- cancelling ----

  /** A cancel that was answered with success keeps the message from ever being sent exactly
      when the worker did not hold it in its batch already. */
  lemma {:induction false} CancelHonouredIff(w: World, id: int, user: int)
    requires BatchSound(w) && MayCancel(w.rows, id, user)
    ensures var v := Step(w, Cancel(id, user));
      id !in w.batch <==> forall u | Leads(v, u) :: TimesSent(u.attempts, id) == TimesSent(v.attempts, id)
  {
    hide Leads, TimesSent;
    var v := Step(w, Cancel(id, user));
    StepKeepsBatch(w, Cancel(id, user));
    if id in w.batch {
      var u := DrainTo(v, id);
    } else {
      forall u | Leads(v, u)
        ensures TimesSent(u.attempts, id) == TimesSent(v.attempts, id)
      {
        SettledForEver(v, u, id);
      }
    }
  }
}
