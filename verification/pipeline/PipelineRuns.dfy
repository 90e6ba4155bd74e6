/** Whole runs of one user's log: rows are appended, cleanups delete old ones, and any number
    of devices pull with their own cursors. */
module PipelineRuns {
  import opened PipelineTypes
  import opened PipelinePage
  import opened PipelineLayout
  import opened PipelineStore

  /** `start` is the cursor the device last jumped to (first pull or expiry); what it replayed
      since is in `view`. */
  datatype Device = Device(cursor: int, start: int, view: View)

  const NEW_DEVICE := Device(0, 0, BLANK)

  /** `log` remembers every row ever appended; `stored` is what the table still holds. */
  datatype User = User(log: seq<Row>, stored: seq<Row>, watermark: int, clock: int, devices: map<int, Device>)

  const NEW_USER := User([], [], 0, 0, map[])

  /** Appended sids increase and creation times do not go back: a row lies `gap + 1` above the
      last sid and is stamped `wait` after the previous row. The window size of a pull is free. */
  datatype Event =
    | Append(gap: nat, wait: nat, command: int, body: Body)
    | Cleanup(cutoff: int)
    | Pull(device: int, load: nat)

  /** A pull without packets moves the cursor (first contact), an expired one also clears the
      local data; otherwise the packets are replayed. */
  function Receive(dev: Device, reply: PullResponse): Device {
    if reply.expired then Device(reply.sid, reply.sid, BLANK)
    else if dev.cursor == 0 then Device(reply.sid, reply.sid, dev.view)
    else Device(reply.sid, dev.start, Replay(dev.view, reply.packets))
  }

  function DeviceOf(u: User, id: int): Device {
    if id in u.devices then u.devices[id] else NEW_DEVICE
  }

  function Appended(u: User, row: Row): User {
    u.(log := u.log + [row], stored := InsertRow(u.stored, row), clock := row.createdAt)
  }

  function Cleaned(u: User, cutoff: int): User {
    u.(stored := Living(u.stored, cutoff), watermark := Raise(u.watermark, DeadPeak(u.stored, cutoff)))
  }

  function Pulled(u: User, id: int, load: nat): User {
    var dev := DeviceOf(u, id);
    u.(devices := u.devices[id := Receive(dev, Reply(u.stored, u.watermark, dev.cursor, load))])
  }

  function Step(u: User, e: Event): User {
    match e
    case Append(gap, wait, command, body) =>
      Appended(u, Row(MaxSid(u.log) + 1 + gap, u.clock + wait, command, body))
    case Cleanup(cutoff) => Cleaned(u, cutoff)
    case Pull(id, load) => Pulled(u, id, load)
  }

  function Run(events: seq<Event>): User {
    if events == [] then NEW_USER
    else Step(Run(events[..|events| - 1]), events[|events| - 1])
  }

  // ---- windows of an ascending log ----

  /** How many rows lie at or below a cursor. */
  function Rank(rows: seq<Row>, sid: int): (k: nat)
    ensures k <= |rows|
  {
    if rows == [] then 0
    else Rank(rows[..|rows| - 1], sid) + (if rows[|rows| - 1].sid <= sid then 1 else 0)
  }

  /** The rows with from < sid <= to. */
  function Between(rows: seq<Row>, from: int, to: int): seq<Row> {
    if rows == [] then []
    else
      var r := rows[|rows| - 1];
      Between(rows[..|rows| - 1], from, to) + (if from < r.sid <= to then [r] else [])
  }

  lemma {:induction false} RankSplits(rows: seq<Row>, sid: int)
    requires Ascending(rows)
    ensures forall i :: 0 <= i < Rank(rows, sid) ==> rows[i].sid <= sid
    ensures forall i :: Rank(rows, sid) <= i < |rows| ==> rows[i].sid > sid
  {
    if rows == [] {
    } else {
      var n := |rows| - 1;
      RankSplits(rows[..n], sid);
      var k := Rank(rows[..n], sid);
      assert k < n ==> rows[..n][k].sid < rows[n].sid;
      assert forall i :: 0 <= i < n ==> rows[..n][i] == rows[i];
    }
  }

  lemma {:induction false} RankIs(rows: seq<Row>, sid: int, k: nat)
    requires Ascending(rows) && k <= |rows|
    requires k > 0 ==> rows[k - 1].sid <= sid
    requires k < |rows| ==> rows[k].sid > sid
    ensures Rank(rows, sid) == k
  {
    RankSplits(rows, sid);
    var r := Rank(rows, sid);
    assert forall i :: 0 <= i < k ==> rows[i].sid <= sid;
    assert forall i :: k <= i < |rows| ==> rows[i].sid > sid;
    assert r < |rows| ==> !(r < k);
    assert r > 0 ==> !(r - 1 >= k);
  }

  lemma {:induction false} NewerIsSuffix(rows: seq<Row>, sid: int)
    requires Ascending(rows)
    ensures Newer(rows, sid) == rows[Rank(rows, sid)..]
  {
    if rows == [] {
    } else {
      var n := |rows| - 1;
      NewerIsSuffix(rows[..n], sid);
      if rows[n].sid <= sid {
        RankFull(rows, sid);
        assert rows[..n][n..] == [] && rows[n + 1..] == [];
      } else {
        var k := Rank(rows[..n], sid);
        assert rows[..n][k..] + [rows[n]] == rows[k..];
      }
    }
  }

  lemma {:induction false} RanksOrdered(rows: seq<Row>, from: int, to: int)
    requires from <= to
    ensures Rank(rows, from) <= Rank(rows, to)
  {
    if rows == [] {
    } else {
      RanksOrdered(rows[..|rows| - 1], from, to);
    }
  }

  lemma {:induction false} RankFull(rows: seq<Row>, sid: int)
    requires Ascending(rows) && rows != [] && rows[|rows| - 1].sid <= sid
    ensures Rank(rows, sid) == |rows|
  {
    RankIs(rows, sid, |rows|);
  }

  lemma {:induction false} AscendingFront(rows: seq<Row>)
    requires Ascending(rows) && rows != []
    ensures Ascending(rows[..|rows| - 1])
  {}

  lemma {:induction false} BetweenIsSlice(rows: seq<Row>, from: int, to: int)
    requires Ascending(rows) && from <= to
    ensures Rank(rows, from) <= Rank(rows, to)
    ensures Between(rows, from, to) == rows[Rank(rows, from)..Rank(rows, to)]
  {
    hide Ascending;
    RanksOrdered(rows, from, to);
    if rows == [] {
    } else {
      AscendingFront(rows);
      var n := |rows| - 1;
      var a, b := Rank(rows[..n], from), Rank(rows[..n], to);
      BetweenIsSlice(rows[..n], from, to);
      assert rows[..n][a..b] == rows[a..b];
      if rows[n].sid <= to {
        RankFull(rows, to);
        assert b == n;
        if rows[n].sid <= from {
          RankFull(rows, from);
        } else {
          assert rows[a..n] + [rows[n]] == rows[a..n + 1];
        }
      }
    }
  }

  lemma {:induction false} BetweenJoins(rows: seq<Row>, a: int, b: int, c: int)
    requires Ascending(rows) && a <= b <= c
    ensures Between(rows, a, b) + Between(rows, b, c) == Between(rows, a, c)
  {
    BetweenIsSlice(rows, a, b);
    BetweenIsSlice(rows, b, c);
    BetweenIsSlice(rows, a, c);
  }

  lemma {:induction false} BetweenIgnoresLater(rows: seq<Row>, r: Row, from: int, to: int)
    requires to < r.sid
    ensures Between(rows + [r], from, to) == Between(rows, from, to)
  {
    assert (rows + [r])[..|rows|] == rows;
  }

  lemma {:induction false} BetweenNothing(rows: seq<Row>, at: int)
    ensures Between(rows, at, at) == []
  {
    if rows == [] {
    } else {
      BetweenNothing(rows[..|rows| - 1], at);
    }
  }

  // ---- the table is a suffix of the log ----

  ghost predicate TimesAscend(rows: seq<Row>, clock: int) {
    && (forall i, j :: 0 <= i < j < |rows| ==> rows[i].createdAt <= rows[j].createdAt)
    && (forall i :: 0 <= i < |rows| ==> rows[i].createdAt <= clock)
  }

  /** The cleanup has removed exactly the oldest rows, and the watermark is the sid of the
      last one removed. */
  ghost predicate Trimmed(log: seq<Row>, stored: seq<Row>, watermark: int) {
    && Ascending(log) && PositiveSids(log)
    && |stored| <= |log|
    && stored == log[|log| - |stored|..]
    && watermark == MaxSid(log[..|log| - |stored|])
  }

  lemma {:induction false} NoneLiving(rows: seq<Row>, cutoff: int, clock: int)
    requires TimesAscend(rows, clock) && rows != [] && rows[|rows| - 1].createdAt < cutoff
    ensures Living(rows, cutoff) == []
  {
    var n := |rows| - 1;
    if n == 0 {
    } else {
      assert rows[n - 1].createdAt <= rows[n].createdAt;
      NoneLiving(rows[..n], cutoff, clock);
    }
  }

  lemma {:induction false} PeakOfAllDead(rows: seq<Row>, cutoff: int, clock: int)
    requires TimesAscend(rows, clock) && Ascending(rows) && PositiveSids(rows)
    requires rows != [] && rows[|rows| - 1].createdAt < cutoff
    ensures DeadPeak(rows, cutoff) == MaxSid(rows)
  {
    var n := |rows| - 1;
    assert rows[n] in rows;
    if n == 0 {
    } else {
      assert rows[n - 1].createdAt <= rows[n].createdAt && rows[n - 1].sid < rows[n].sid;
      assert forall r :: r in rows[..n] ==> r in rows;
      PeakOfAllDead(rows[..n], cutoff, clock);
    }
  }

  /** With creation times ascending, a cleanup cuts a log in two. */
  lemma {:induction false} LivingSplits(rows: seq<Row>, cutoff: int, clock: int) returns (gone: seq<Row>)
    requires TimesAscend(rows, clock) && Ascending(rows) && PositiveSids(rows)
    ensures rows == gone + Living(rows, cutoff)
    ensures DeadPeak(rows, cutoff) == MaxSid(gone)
  {
    if rows == [] {
      gone := [];
    } else if rows[|rows| - 1].createdAt < cutoff {
      gone := rows;
      NoneLiving(rows, cutoff, clock);
      PeakOfAllDead(rows, cutoff, clock);
    } else {
      var front, last := rows[..|rows| - 1], rows[|rows| - 1];
      assert rows == front + [last];
      Parts(front, [last], clock);
      gone := LivingSplits(front, cutoff, clock);
      assert gone + (Living(front, cutoff) + [last]) == gone + Living(front, cutoff) + [last];
    }
  }

  lemma {:induction false} AppendTrims(log: seq<Row>, stored: seq<Row>, watermark: int, row: Row)
    requires Trimmed(log, stored, watermark) && row.sid > MaxSid(log) && row.sid > 0
    ensures InsertRow(stored, row) == stored + [row]
    ensures Trimmed(log + [row], stored + [row], watermark)
  {
    var d := |log| - |stored|;
    if stored != [] {
      assert stored[|stored| - 1] == log[|log| - 1];
    }
    assert (log + [row])[..d] == log[..d];
    forall i, j | 0 <= i < j < |log + [row]|
      ensures (log + [row])[i].sid < (log + [row])[j].sid
    {
      if j == |log| && i < |log| - 1 {
        assert log[i].sid < log[|log| - 1].sid;
      }
    }
  }

  lemma {:induction false} TrimmedBy(dead: seq<Row>, stored: seq<Row>)
    requires Ascending(dead + stored) && PositiveSids(dead + stored)
    ensures Trimmed(dead + stored, stored, MaxSid(dead))
  {
    var log := dead + stored;
    assert log[..|log| - |stored|] == dead;
    assert log[|log| - |stored|..] == stored;
  }

  lemma {:induction false} MaxSidOfConcat(a: seq<Row>, b: seq<Row>)
    requires Ascending(a + b) && PositiveSids(a + b)
    ensures MaxSid(a + b) == Raise(MaxSid(a), MaxSid(b))
  {
    if b == [] {
      assert a + b == a;
      assert a != [] ==> a[|a| - 1] in a + b;
    } else {
      var ab := a + b;
      assert ab[|ab| - 1] == b[|b| - 1];
      assert ab[|ab| - 1] in ab;
      assert a != [] ==> ab[|a| - 1] == a[|a| - 1];
    }
  }

  ghost predicate PositiveSids(rows: seq<Row>) {
    forall r :: r in rows ==> r.sid > 0
  }

  lemma {:induction false} Parts(a: seq<Row>, b: seq<Row>, clock: int)
    ensures Ascending(a + b) ==> Ascending(a) && Ascending(b)
    ensures PositiveSids(a + b) ==> PositiveSids(a) && PositiveSids(b)
    ensures TimesAscend(a + b, clock) ==> TimesAscend(a, clock) && TimesAscend(b, clock)
  {
    var ab := a + b;
    assert a == ab[..|a|] && b == ab[|a|..];
  }

  lemma {:induction false} TrimmedParts(log: seq<Row>, stored: seq<Row>, watermark: int) returns (dead: seq<Row>)
    requires Trimmed(log, stored, watermark)
    ensures log == dead + stored && watermark == MaxSid(dead)
  {
    dead := log[..|log| - |stored|];
  }

  lemma {:induction false} CleanupTrims(log: seq<Row>, stored: seq<Row>, watermark: int, clock: int, cutoff: int)
    requires Trimmed(log, stored, watermark) && TimesAscend(log, clock)
    ensures Trimmed(log, Living(stored, cutoff), Raise(watermark, DeadPeak(stored, cutoff)))
  {
    hide TimesAscend, Living, DeadPeak, MaxSid;
    var dead := TrimmedParts(log, stored, watermark);
    Parts(dead, stored, clock);
    var gone := LivingSplits(stored, cutoff, clock);
    var living := Living(stored, cutoff);
    assert log == dead + gone + living;
    CutFurther(dead, gone, living);
  }

  lemma {:induction false} CutFurther(dead: seq<Row>, gone: seq<Row>, living: seq<Row>)
    requires Ascending(dead + gone + living) && PositiveSids(dead + gone + living)
    ensures Trimmed(dead + gone + living, living, Raise(MaxSid(dead), MaxSid(gone)))
  {
    Parts(dead + gone, living, 0);
    MaxSidOfConcat(dead, gone);
    TrimmedBy(dead + gone, living);
  }

  // ---- one pull ----

  lemma {:induction false} NewerConcat(a: seq<Row>, b: seq<Row>, sid: int)
    ensures Newer(a + b, sid) == Newer(a, sid) + Newer(b, sid)
  {
    if b == [] {
      assert a + b == a;
    } else {
      NewerConcat(a, b[..|b| - 1], sid);
      assert (a + b)[..|a + b| - 1] == a + b[..|b| - 1];
    }
  }

  lemma {:induction false} NewerNone(rows: seq<Row>, sid: int)
    requires Ascending(rows) && MaxSid(rows) <= sid
    ensures Newer(rows, sid) == []
  {
    if rows == [] {
    } else {
      var n := |rows| - 1;
      assert n > 0 ==> rows[n - 1].sid < rows[n].sid;
      if n > 0 {
        NewerNone(rows[..n], sid);
      }
    }
  }

  /** Rows the table still has above a cursor are the log's rows above it, as long as the
      cursor is not behind the watermark. */
  lemma {:induction false} NothingMissing(log: seq<Row>, stored: seq<Row>, watermark: int, cursor: int)
    requires Trimmed(log, stored, watermark) && cursor >= watermark
    ensures Newer(stored, cursor) == Newer(log, cursor)
  {
    var dead := log[..|log| - |stored|];
    assert log == dead + stored;
    NewerConcat(dead, stored, cursor);
    NewerNone(dead, cursor);
  }

  lemma {:induction false} WindowRange(log: seq<Row>, cursor: int, n: nat)
    requires Ascending(log) && 0 < n <= |Newer(log, cursor)|
    ensures Ascending(Newer(log, cursor)[..n])
    ensures cursor < Newer(log, cursor)[n - 1].sid <= MaxSid(log)
    ensures Between(log, cursor, Newer(log, cursor)[n - 1].sid) == Newer(log, cursor)[..n]
  {
    hide Newer, Between, Rank;
    var r := Rank(log, cursor);
    NewerIsSuffix(log, cursor);
    RankSplits(log, cursor);
    var to := log[r + n - 1].sid;
    assert r + n - 1 < |log| - 1 ==> to < log[|log| - 1].sid;
    RankIs(log, to, r + n);
    BetweenIsSlice(log, cursor, to);
    assert log[r..][..n] == log[r..r + n];
  }

  lemma {:induction false} ReplayStopsAt(rows: seq<Row>, n: nat, v: View)
    requires n <= |rows| && Barren(rows[n..])
    ensures Replay(v, Raw(rows)) == Replay(v, Raw(rows[..n]))
  {
    assert rows == rows[..n] + rows[n..];
    RawConcat(rows[..n], rows[n..]);
    ReplayConcat(v, Raw(rows[..n]), Raw(rows[n..]));
    BarrenRowsReplayToNothing(Replay(v, Raw(rows[..n])), rows[n..]);
  }

  lemma {:induction false} WindowOf(log: seq<Row>, stored: seq<Row>, watermark: int, cursor: int, load: nat)
    returns (rows: seq<Row>)
    requires Trimmed(log, stored, watermark) && cursor >= watermark
    ensures rows == FindBySid(stored, cursor, load)
    ensures Ascending(rows) && rows <= Newer(log, cursor)
  {
    NothingMissing(log, stored, watermark, cursor);
    rows := FindBySid(stored, cursor, load);
    if rows != [] {
      WindowRange(log, cursor, |rows|);
    }
  }

  lemma {:induction false} WindowPart(log: seq<Row>, rows: seq<Row>, cursor: int, n: nat)
    requires Ascending(log) && rows <= Newer(log, cursor) && 0 < n <= |rows|
    ensures cursor < rows[n - 1].sid <= MaxSid(log)
    ensures Between(log, cursor, rows[n - 1].sid) == rows[..n]
  {
    var newer := Newer(log, cursor);
    WindowRange(log, cursor, n);
    assert newer[..n] == rows[..n] && newer[n - 1] == rows[n - 1];
  }

  lemma {:induction false} WindowAdvances(log: seq<Row>, rows: seq<Row>, cursor: int, v: View)
    requires Ascending(log) && Ascending(rows) && rows <= Newer(log, cursor) && cursor <= MaxSid(log)
    ensures var packets := PagePackets(rows);
            var to := if packets == [] then cursor else packets[|packets| - 1].rid;
            cursor <= to <= MaxSid(log) && Replay(v, packets) == Replay(v, Raw(Between(log, cursor, to)))
  {
    hide PagePackets, Replay, Between, Newer, Ascending, Barren;
    var j := PageCursor(rows);
    PageReplaysLikeRows(v, rows);
    ReplayStopsAt(rows, j + 1, v);
    BetweenNothing(log, cursor);
    if j >= 0 {
      WindowPart(log, rows, cursor, j + 1);
    }
  }

  /** A page read at `cursor` moves it to a row of the log; what the packets replay to is what
      all the rows passed over replay to. */
  lemma {:induction false} PullAdvances(log: seq<Row>, stored: seq<Row>, watermark: int, cursor: int,
                                        load: nat, v: View)
    requires Trimmed(log, stored, watermark) && cursor > 0 && watermark <= cursor <= MaxSid(log)
    ensures var reply := Reply(stored, watermark, cursor, load);
            && !reply.expired
            && cursor <= reply.sid <= MaxSid(log)
            && Replay(v, reply.packets) == Replay(v, Raw(Between(log, cursor, reply.sid)))
  {
    var rows := WindowOf(log, stored, watermark, cursor, load);
    WindowAdvances(log, rows, cursor, v);
  }

  // ---- what every run keeps ----

  /** What the device holds is what every log row of (start, cursor] replays to. */
  ghost predicate Exact(log: seq<Row>, dev: Device) {
    && 0 <= dev.start <= dev.cursor <= MaxSid(log)
    && dev.view == Replay(BLANK, Raw(Between(log, dev.start, dev.cursor)))
  }

  ghost predicate Sound(u: User) {
    && Trimmed(u.log, u.stored, u.watermark)
    && TimesAscend(u.log, u.clock)
    && (forall id :: id in u.devices ==> Exact(u.log, u.devices[id]))
  }

  lemma {:induction false} MaxSidBounds(log: seq<Row>, stored: seq<Row>, watermark: int)
    requires Trimmed(log, stored, watermark)
    ensures 0 <= MaxSid(stored) <= MaxSid(log)
    ensures 0 <= watermark <= MaxSid(log)
    ensures stored == [] ==> MaxSid(stored) == 0 && watermark == MaxSid(log)
    ensures stored != [] ==> watermark < MaxSid(stored) == MaxSid(log)
  {
    var d := |log| - |stored|;
    if log != [] {
      assert log[|log| - 1] in log;
      if d > 0 {
        assert log[d - 1] in log;
        assert d < |log| ==> log[d - 1].sid < log[|log| - 1].sid;
      }
      if stored == [] {
        assert log[..|log|] == log;
      }
    }
  }

  lemma {:induction false} ReceiveExact(u: User, dev: Device, load: nat)
    requires Sound(u) && Exact(u.log, dev)
    ensures Exact(u.log, Receive(dev, Reply(u.stored, u.watermark, dev.cursor, load)))
  {
    var reply := Reply(u.stored, u.watermark, dev.cursor, load);
    MaxSidBounds(u.log, u.stored, u.watermark);
    BetweenNothing(u.log, reply.sid);
    BetweenNothing(u.log, 0);
    if dev.cursor != 0 && dev.cursor >= u.watermark {
      PullAdvances(u.log, u.stored, u.watermark, dev.cursor, load, dev.view);
      var a, b := Between(u.log, dev.start, dev.cursor), Between(u.log, dev.cursor, reply.sid);
      BetweenJoins(u.log, dev.start, dev.cursor, reply.sid);
      RawConcat(a, b);
      ReplayConcat(BLANK, Raw(a), Raw(b));
    }
  }

  lemma {:induction false} TimesAppend(log: seq<Row>, row: Row, clock: int)
    requires TimesAscend(log, clock) && row.createdAt >= clock
    ensures TimesAscend(log + [row], row.createdAt)
  {}

  lemma {:induction false} ExactAppend(log: seq<Row>, row: Row, dev: Device)
    requires Exact(log, dev) && row.sid > MaxSid(log)
    ensures Exact(log + [row], dev)
  {
    BetweenIgnoresLater(log, row, dev.start, dev.cursor);
  }

  lemma {:induction false} LogGrows(u: User, row: Row)
    requires Sound(u) && row.sid > MaxSid(u.log) && row.createdAt >= u.clock
    ensures Sound(Appended(u, row))
  {
    MaxSidBounds(u.log, u.stored, u.watermark);
    AppendTrims(u.log, u.stored, u.watermark, row);
    TimesAppend(u.log, row, u.clock);
    forall id | id in u.devices
      ensures Exact(u.log + [row], u.devices[id])
    {
      ExactAppend(u.log, row, u.devices[id]);
    }
  }

  lemma {:induction false} DeviceMoves(u: User, id: int, dev: Device)
    requires Sound(u) && Exact(u.log, dev)
    ensures Sound(u.(devices := u.devices[id := dev]))
  {}

  lemma {:induction false} DeviceExact(u: User, id: int)
    requires Sound(u)
    ensures Exact(u.log, DeviceOf(u, id))
  {
    MaxSidBounds(u.log, u.stored, u.watermark);
    BetweenNothing(u.log, 0);
  }

  lemma {:induction false} PulledSound(u: User, id: int, load: nat)
    requires Sound(u)
    ensures Sound(Pulled(u, id, load))
  {
    var dev := DeviceOf(u, id);
    DeviceExact(u, id);
    ReceiveExact(u, dev, load);
    DeviceMoves(u, id, Receive(dev, Reply(u.stored, u.watermark, dev.cursor, load)));
  }

  lemma {:induction false} CleanedSound(u: User, cutoff: int)
    requires Sound(u)
    ensures Sound(Cleaned(u, cutoff))
  {
    CleanupTrims(u.log, u.stored, u.watermark, u.clock, cutoff);
  }

  lemma {:induction false} StepSound(u: User, e: Event) returns (next: User)
    requires Sound(u)
    ensures next == Step(u, e) && Sound(next)
  {
    hide Reply, InsertRow, Living, DeadPeak, Trimmed, TimesAscend, Exact;
    match e
    case Append(gap, wait, command, body) =>
      var row := Row(MaxSid(u.log) + 1 + gap, u.clock + wait, command, body);
      next := Appended(u, row);
      LogGrows(u, row);
    case Cleanup(cutoff) =>
      next := Cleaned(u, cutoff);
      CleanedSound(u, cutoff);
    case Pull(id, load) =>
      next := Pulled(u, id, load);
      PulledSound(u, id, load);
  }

  lemma {:induction false} RunSound(events: seq<Event>)
    ensures Sound(Run(events))
  {
    if events == [] {
    } else {
      RunSound(events[..|events| - 1]);
      var _ := StepSound(Run(events[..|events| - 1]), events[|events| - 1]);
    }
  }

  // ---- main results ----

  /** In every run, whatever was cleaned up or compressed on the way, a device holds exactly
      the first-maximal version of every change, and every other packet once and in order,
      among all rows ever appended between its start and its cursor. */
  lemma {:induction false} DevicesHoldTheLog(events: seq<Event>, id: int)
    requires id in Run(events).devices
    ensures var u := Run(events);
            var dev := u.devices[id];
            var rows := Between(u.log, dev.start, dev.cursor);
            dev.view == View(Fold(map[], ChangesOf(Raw(rows))), PassOf(Raw(rows)))
  {
    RunSound(events);
    var u := Run(events);
    var dev := u.devices[id];
    var rows := Between(u.log, dev.start, dev.cursor);
    ReplayFactors(BLANK, Raw(rows));
    assert [] + PassOf(Raw(rows)) == PassOf(Raw(rows));
  }

  lemma {:induction false} DeletedRow(log: seq<Row>, stored: seq<Row>, watermark: int, cursor: int) returns (r: Row)
    requires Trimmed(log, stored, watermark) && 0 < cursor < watermark
    ensures r in log && r.sid > cursor && r !in stored
  {
    var d := |log| - |stored|;
    r := log[d - 1];
    forall i | 0 <= i < |stored|
      ensures stored[i] != r
    {
      assert stored[i] == log[d + i];
    }
  }

  lemma {:induction false} NoDeletedRow(log: seq<Row>, stored: seq<Row>, watermark: int, cursor: int, r: Row)
    requires Trimmed(log, stored, watermark) && watermark <= cursor && r in log && r.sid > cursor
    ensures r in stored
  {
    var d := |log| - |stored|;
    var dead := log[..d];
    var i :| 0 <= i < |log| && log[i] == r;
    assert d > 0 ==> dead[d - 1] == log[d - 1];
    assert i >= d;
    assert stored[i - d] == r;
  }

  /** A device is told it expired exactly when some row above its cursor was deleted. */
  lemma {:induction false} ExpiredIffRowLost(events: seq<Event>, cursor: int, load: nat)
    requires cursor > 0
    ensures var u := Run(events);
            Reply(u.stored, u.watermark, cursor, load).expired <==>
              exists r :: r in u.log && r.sid > cursor && r !in u.stored
  {
    RunSound(events);
    var u := Run(events);
    if cursor < u.watermark {
      var r := DeletedRow(u.log, u.stored, u.watermark, cursor);
    } else {
      forall r | r in u.log && r.sid > cursor
        ensures r in u.stored
      {
        NoDeletedRow(u.log, u.stored, u.watermark, cursor, r);
      }
    }
  }

  /** The cursor handed out to a fresh or expired device is 0 exactly when the table is empty,
      and otherwise lies above the watermark, so it stays good until another cleanup. */
  lemma {:induction false} JumpCursorIsGood(events: seq<Event>, cursor: int, load: nat)
    ensures var u := Run(events);
            var reply := Reply(u.stored, u.watermark, cursor, load);
            cursor == 0 || reply.expired ==>
              (reply.sid == 0 <==> u.stored == []) &&
              (reply.sid != 0 ==> reply.sid == MaxSid(u.log) && !Reply(u.stored, u.watermark, reply.sid, load).expired)
  {
    hide Run, MaxSid, PagePackets, FindBySid, Trimmed;
    RunSound(events);
    var u := Run(events);
    MaxSidBounds(u.log, u.stored, u.watermark);
  }

  lemma {:induction false} WatermarkRises(events: seq<Event>, e: Event)
    ensures Run(events + [e]).watermark >= Run(events).watermark
  {
    assert (events + [e])[..|events|] == events;
  }

  lemma {:induction false} FirstPull(u: User, id: int, load: nat)
    requires DeviceOf(u, id).cursor == 0
    ensures Pulled(u, id, load)
      == u.(devices := u.devices[id := Device(MaxSid(u.stored), MaxSid(u.stored), DeviceOf(u, id).view)])
  {
    hide MaxSid, PagePackets, FindBySid, Replay;
  }

  /** A first pull on an empty table answers cursor 0, so the next pull counts as a first one
      again and steps over whatever was appended meanwhile: the device ends at cursor 1 without
      the packet of row 1, although it was never told it expired. */
  lemma {:induction false} EmptyFirstPullSkipsRows()
    ensures var u := Run([Pull(7, 0), Append(0, 0, 1211, Bytes([])), Pull(7, 0)]);
            && u.log == [Row(1, 0, 1211, Bytes([]))]
            && u.devices[7] == Device(1, 1, BLANK)
  {
    hide Pulled, Replay, Reply;
    var e0, e1, e2 := Pull(7, 0), Append(0, 0, 1211, Bytes([])), Pull(7, 0);
    var row := Row(1, 0, 1211, Bytes([]));
    var u1 := NEW_USER.(devices := map[7 := NEW_DEVICE]);
    var u2 := u1.(log := [row], stored := [row]);
    FirstPull(NEW_USER, 7, 0);
    FirstPull(u2, 7, 0);
    assert Step(NEW_USER, e0) == u1;
    assert Step(u1, e1) == u2 by {
      assert InsertRow([], row) == [row];
    }
    assert MaxSid([row]) == 1;
    assert Run([e0]) == Step(NEW_USER, e0) by {
      assert [e0][..0] == [];
    }
    assert Run([e0, e1]) == Step(Run([e0]), e1) by {
      assert [e0, e1][..1] == [e0];
    }
    assert Run([e0, e1, e2]) == Step(Run([e0, e1]), e2) by {
      assert [e0, e1, e2][..2] == [e0, e1];
    }
  }

  lemma {:induction false} BlankIffBarren(rows: seq<Row>)
    ensures Replay(BLANK, Raw(rows)) == BLANK <==> Barren(rows)
  {
    if Barren(rows) {
      BarrenRowsReplayToNothing(BLANK, rows);
    } else {
      ReplayFactors(BLANK, Raw(rows));
      if ChangesOf(Raw(rows)) != [] {
        var changes := ChangesOf(Raw(rows));
        var _ := FoldKeepsFirstMax(changes, changes[0].Target());
      } else {
        var j := PassedTail(rows);
      }
    }
  }

  lemma {:induction false} FirstPullLosslessIff(log: seq<Row>, dev: Device, to: int)
    requires Exact(log, dev) && dev.cursor == 0
    ensures dev.view == Replay(dev.view, Raw(Between(log, 0, to))) <==> Barren(Between(log, 0, to))
  {
    BetweenNothing(log, 0);
    BlankIffBarren(Between(log, 0, to));
  }

  /** A pull that is not answered "expired" delivers everything it moves past, except for the
      jump of a first pull, which loses nothing only if all it jumps over is empty. */
  lemma {:induction false} PullLosslessIff(u: User, id: int, load: nat)
    requires Sound(u) && id in u.devices
    ensures var dev := u.devices[id];
            var reply := Reply(u.stored, u.watermark, dev.cursor, load);
            !reply.expired ==>
              (Receive(dev, reply).view == Replay(dev.view, Raw(Between(u.log, dev.cursor, reply.sid))) <==>
               dev.cursor > 0 || Barren(Between(u.log, 0, reply.sid)))
  {
    var dev := u.devices[id];
    assert Exact(u.log, dev);
    if dev.cursor == 0 {
      FirstPullLosslessIff(u.log, dev, MaxSid(u.stored));
    } else if dev.cursor >= u.watermark {
      PullAdvances(u.log, u.stored, u.watermark, dev.cursor, load, dev.view);
    }
  }
}
