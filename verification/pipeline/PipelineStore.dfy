/** The gateway's tables: every user's log rows, the per-user cleanup watermark and the time
    of the last cleanup. A pull, a save and a cleanup each run as one transaction. */
module PipelineStore {
  import opened PipelineTypes
  import opened PipelinePage

  const LOAD_LIMIT := 500
  const USIZE_RANGE := 0x1_0000_0000_0000_0000
  const I64_RANGE := 0x1_0000_0000_0000_0000
  const I64_MAX := 0x7FFF_FFFF_FFFF_FFFF

  // ---- the watermark as stored bytes ----

  function Pow256(n: nat): (p: nat)
    ensures p > 0
  {
    if n == 0 then 1 else 256 * Pow256(n - 1)
  }

  function LittleEndian(u: nat, n: nat): (bytes: seq<int>)
    ensures |bytes| == n
  {
    if n == 0 then [] else [u % 256] + LittleEndian(u / 256, n - 1)
  }

  function FromLittleEndian(bytes: seq<int>): int {
    if bytes == [] then 0 else bytes[0] + 256 * FromLittleEndian(bytes[1..])
  }

  function ToData(watermark: int): seq<int> {
    LittleEndian(if watermark < 0 then (watermark + I64_RANGE) % I64_RANGE else watermark, 8)
  }

  /** Data of any other length reads as "nothing cleaned yet". */
  function FromData(data: seq<int>): int {
    if |data| != 8 then 0
    else
      var u := FromLittleEndian(data);
      if u > I64_MAX then u - I64_RANGE else u
  }

  lemma {:induction false} LittleEndianRoundTrip(u: nat, n: nat)
    requires u < Pow256(n)
    ensures FromLittleEndian(LittleEndian(u, n)) == u
  {
    if n == 0 {
    } else {
      LittleEndianRoundTrip(u / 256, n - 1);
    }
  }

  lemma {:induction false} WatermarkRoundTrip(watermark: int)
    requires -I64_MAX - 1 <= watermark <= I64_MAX
    ensures FromData(ToData(watermark)) == watermark
  {
    assert Pow256(8) == I64_RANGE by {
      assert Pow256(4) == 0x1_0000_0000;
      assert Pow256(8) == 256 * (256 * (256 * (256 * Pow256(4))));
    }
    LittleEndianRoundTrip(if watermark < 0 then watermark + I64_RANGE else watermark, 8);
  }

  function Raise(cur: int, watermark: int): int {
    if cur > watermark then cur else watermark
  }

  // ---- one user's rows ----

  function MaxSid(rows: seq<Row>): int {
    if rows == [] then 0 else rows[|rows| - 1].sid
  }

  /** Rows with a larger sid than the cursor, in sid order. */
  function Newer(rows: seq<Row>, sid: int): seq<Row> {
    if rows == [] then []
    else
      var r := rows[|rows| - 1];
      Newer(rows[..|rows| - 1], sid) + (if r.sid > sid then [r] else [])
  }

  function FindBySid(rows: seq<Row>, sid: int, limit: nat): seq<Row> {
    var newer := Newer(rows, sid);
    if |newer| <= limit then newer else newer[..limit]
  }

  function Living(rows: seq<Row>, cutoff: int): seq<Row> {
    if rows == [] then []
    else
      var r := rows[|rows| - 1];
      Living(rows[..|rows| - 1], cutoff) + (if r.createdAt < cutoff then [] else [r])
  }

  /** The largest sid the cleanup deletes, 0 when it deletes nothing. */
  function DeadPeak(rows: seq<Row>, cutoff: int): int {
    if rows == [] then 0
    else
      var r := rows[|rows| - 1];
      var peak := DeadPeak(rows[..|rows| - 1], cutoff);
      if r.createdAt < cutoff && r.sid > peak then r.sid else peak
  }

  function InsertRow(rows: seq<Row>, r: Row): seq<Row> {
    if rows == [] || rows[|rows| - 1].sid < r.sid then rows + [r]
    else InsertRow(rows[..|rows| - 1], r) + [rows[|rows| - 1]]
  }

  // ---- a pull as a function of one user's rows ----

  datatype PullRequest = PullRequest(sid: int, count: int)

  datatype PullResponse = PullResponse(sid: int, packets: seq<Packet>, hasMore: bool, expired: bool, minSid: int)

  /** `count as usize`: a negative count becomes a huge one. */
  function AsUsize(count: int): nat
    requires -0x8000_0000 <= count <= 0x7FFF_FFFF
  {
    if count < 0 then count + USIZE_RANGE else count
  }

  function Load(count: int): (load: nat)
    requires -0x8000_0000 <= count <= 0x7FFF_FFFF
    ensures load >= LOAD_LIMIT
  {
    if AsUsize(count) > LOAD_LIMIT then AsUsize(count) else LOAD_LIMIT
  }

  function Reply(rows: seq<Row>, watermark: int, sid: int, load: nat): PullResponse {
    if sid == 0 then PullResponse(MaxSid(rows), [], false, false, watermark)
    else if sid < watermark then PullResponse(MaxSid(rows), [], false, true, watermark)
    else
      var window := FindBySid(rows, sid, load);
      var packets := PagePackets(window);
      PullResponse(if packets == [] then sid else packets[|packets| - 1].rid,
                   packets, load > 0 && |window| == load, false, watermark)
  }

  // ---- the shared table ----

  datatype Stored = Stored(user: int, row: Row)

  /** Primary-key order: sid first, then user. */
  predicate KeyBefore(a: Stored, b: Stored) {
    a.row.sid < b.row.sid || (a.row.sid == b.row.sid && a.user < b.user)
  }

  ghost predicate SortedTable(table: seq<Stored>) {
    forall i, j :: 0 <= i < j < |table| ==> KeyBefore(table[i], table[j])
  }

  predicate HasKey(table: seq<Stored>, user: int, sid: int) {
    exists s :: s in table && s.user == user && s.row.sid == sid
  }

  function RowsOf(table: seq<Stored>, user: int): seq<Row> {
    if table == [] then []
    else
      var s := table[|table| - 1];
      RowsOf(table[..|table| - 1], user) + (if s.user == user then [s.row] else [])
  }

  function Insert(table: seq<Stored>, s: Stored): seq<Stored> {
    if table == [] || KeyBefore(table[|table| - 1], s) then table + [s]
    else Insert(table[..|table| - 1], s) + [table[|table| - 1]]
  }

  function Expired(table: seq<Stored>, cutoff: int): seq<(int, int)> {
    if table == [] then []
    else
      var s := table[|table| - 1];
      Expired(table[..|table| - 1], cutoff) + (if s.row.createdAt < cutoff then [(s.user, s.row.sid)] else [])
  }

  function Remaining(table: seq<Stored>, cutoff: int): seq<Stored> {
    if table == [] then []
    else
      var s := table[|table| - 1];
      Remaining(table[..|table| - 1], cutoff) + (if s.row.createdAt < cutoff then [] else [s])
  }

  /** Largest listed sid of a user, 0 when the user is not listed. */
  function PeakOf(pairs: seq<(int, int)>, user: int): int {
    if pairs == [] then 0
    else
      var p := pairs[|pairs| - 1];
      var peak := PeakOf(pairs[..|pairs| - 1], user);
      if p.0 == user && p.1 > peak then p.1 else peak
  }

  lemma {:induction false} RowsOfAppend(table: seq<Stored>, s: Stored, user: int)
    ensures RowsOf(table + [s], user) == if s.user == user then RowsOf(table, user) + [s.row] else RowsOf(table, user)
  {
    assert (table + [s])[..|table|] == table;
  }

  lemma {:induction false} LivingAppend(rows: seq<Row>, r: Row, cutoff: int)
    ensures Living(rows + [r], cutoff) ==
            if r.createdAt < cutoff then Living(rows, cutoff) else Living(rows, cutoff) + [r]
    ensures DeadPeak(rows + [r], cutoff) ==
            if r.createdAt < cutoff && r.sid > DeadPeak(rows, cutoff) then r.sid else DeadPeak(rows, cutoff)
  {
    assert (rows + [r])[..|rows|] == rows;
  }

  lemma {:induction false} PeakAppend(pairs: seq<(int, int)>, p: (int, int), user: int)
    ensures PeakOf(pairs + [p], user) == if p.0 == user && p.1 > PeakOf(pairs, user) then p.1 else PeakOf(pairs, user)
  {
    assert (pairs + [p])[..|pairs|] == pairs;
  }

  lemma {:induction false} InsertSorted(table: seq<Stored>, s: Stored)
    requires SortedTable(table) && !HasKey(table, s.user, s.row.sid)
    ensures SortedTable(Insert(table, s))
    ensures forall x :: x in Insert(table, s) <==> x in table || x == s
  {
    if table == [] {
    } else {
      var n := |table| - 1;
      var last := table[n];
      assert last in table;
      if KeyBefore(last, s) {
        assert forall i :: 0 <= i < n ==> KeyBefore(table[i], last);
      } else {
        var front := table[..n];
        assert forall x :: x in table <==> x in front || x == last;
        InsertSorted(front, s);
        var inserted := Insert(front, s);
        forall i | 0 <= i < |inserted|
          ensures KeyBefore(inserted[i], last)
        {
          assert inserted[i] in inserted;
        }
      }
    }
  }

  lemma {:induction false} InsertRowBelow(rows: seq<Row>, last: Row, r: Row)
    requires r.sid <= last.sid
    ensures InsertRow(rows + [last], r) == InsertRow(rows, r) + [last]
  {
    assert (rows + [last])[..|rows|] == rows;
  }

  lemma {:induction false} RowsOfInit(table: seq<Stored>, user: int)
    requires table != []
    ensures var last := table[|table| - 1];
            var front := RowsOf(table[..|table| - 1], user);
            RowsOf(table, user) == if last.user == user then front + [last.row] else front
  {}

  lemma {:induction false} TopRowBelow(table: seq<Stored>, s: Stored)
    requires SortedTable(table)
    requires table != [] ==> KeyBefore(table[|table| - 1], s)
    ensures InsertRow(RowsOf(table, s.user), s.row) == RowsOf(table, s.user) + [s.row]
  {
    var rows := RowsOf(table, s.user);
    if rows != [] {
      var n := |table| - 1;
      RowsOfSource(table, s.user);
      assert rows[|rows| - 1] in rows;
      var i :| 0 <= i <= n && table[i] == Stored(s.user, rows[|rows| - 1]);
      assert i < n ==> KeyBefore(table[i], table[n]);
    }
  }

  /** Inserting by primary key is inserting by sid in that user's log, and touches no other. */
  lemma {:induction false} RowsOfInsert(table: seq<Stored>, s: Stored, user: int)
    requires SortedTable(table) && !HasKey(table, s.user, s.row.sid)
    ensures RowsOf(Insert(table, s), user) ==
            if s.user == user then InsertRow(RowsOf(table, user), s.row) else RowsOf(table, user)
  {
    if table == [] || KeyBefore(table[|table| - 1], s) {
      RowsOfAppend(table, s, user);
      TopRowBelow(table, s);
    } else {
      var front, last := table[..|table| - 1], table[|table| - 1];
      assert forall x :: x in front ==> x in table;
      assert last in table;
      RowsOfInsert(front, s, user);
      RowsOfAppend(Insert(front, s), last, user);
      RowsOfInit(table, user);
      InsertRowBelow(RowsOf(front, user), last.row, s.row);
    }
  }

  lemma {:induction false} RowsOfSource(table: seq<Stored>, user: int)
    ensures forall r :: r in RowsOf(table, user) ==> Stored(user, r) in table
  {
    if table == [] {
    } else {
      var front := table[..|table| - 1];
      RowsOfSource(front, user);
      assert forall x :: x in front ==> x in table;
      assert table[|table| - 1] in table;
    }
  }

  /** Each user sees a log in strictly ascending sid order. */
  lemma {:induction false} RowsOfAscending(table: seq<Stored>, user: int)
    requires SortedTable(table)
    ensures Ascending(RowsOf(table, user))
  {
    if table == [] {
    } else {
      var n := |table| - 1;
      RowsOfAscending(table[..n], user);
      RowsOfSource(table[..n], user);
      var rows := RowsOf(table[..n], user);
      if table[n].user == user {
        forall i | 0 <= i < |rows|
          ensures rows[i].sid < table[n].row.sid
        {
          assert rows[i] in rows;
          assert Stored(user, rows[i]) in table[..n];
        }
      }
    }
  }

  /** Deleting expired rows from the shared table deletes exactly each user's expired rows. */
  lemma {:induction false} RemainingPerUser(table: seq<Stored>, cutoff: int, user: int)
    ensures RowsOf(Remaining(table, cutoff), user) == Living(RowsOf(table, user), cutoff)
  {
    if table == [] {
    } else {
      var front, s := table[..|table| - 1], table[|table| - 1];
      RemainingPerUser(front, cutoff, user);
      RowsOfInit(table, user);
      RowsOfAppend(Remaining(front, cutoff), s, user);
      LivingAppend(RowsOf(front, user), s.row, cutoff);
      if s.row.createdAt < cutoff {
        assert Remaining(table, cutoff) == Remaining(front, cutoff);
      }
    }
  }

  /** The listing taken before the delete names each user's largest deleted sid. */
  lemma {:induction false} PeakPerUser(table: seq<Stored>, cutoff: int, user: int)
    ensures PeakOf(Expired(table, cutoff), user) == DeadPeak(RowsOf(table, user), cutoff)
  {
    if table == [] {
    } else {
      var front, s := table[..|table| - 1], table[|table| - 1];
      PeakPerUser(front, cutoff, user);
      RowsOfInit(table, user);
      PeakAppend(Expired(front, cutoff), (s.user, s.row.sid), user);
      LivingAppend(RowsOf(front, user), s.row, cutoff);
      if s.row.createdAt >= cutoff {
        assert Expired(table, cutoff) == Expired(front, cutoff);
      }
    }
  }

  lemma {:induction false} RemainingSorted(table: seq<Stored>, cutoff: int)
    requires SortedTable(table)
    ensures SortedTable(Remaining(table, cutoff))
    ensures forall s :: s in Remaining(table, cutoff) ==> s in table
  {
    if table == [] {
    } else {
      var n := |table| - 1;
      RemainingSorted(table[..n], cutoff);
      var kept := Remaining(table[..n], cutoff);
      assert forall s :: s in table[..n] ==> s in table;
      forall i | 0 <= i < |kept|
        ensures KeyBefore(kept[i], table[n])
      {
        assert kept[i] in kept;
        var j :| 0 <= j < n && table[j] == kept[i];
      }
      assert table[n] in table;
    }
  }

  lemma {:induction false} PeakInRange(rows: seq<Row>, cutoff: int)
    requires forall r :: r in rows ==> 0 < r.sid <= I64_MAX
    ensures 0 <= DeadPeak(rows, cutoff) <= I64_MAX
  {
    if rows == [] {
    } else {
      assert rows[|rows| - 1] in rows;
      PeakInRange(rows[..|rows| - 1], cutoff);
    }
  }

  function InsertAll(table: seq<Stored>, users: seq<int>, row: Row): seq<Stored> {
    if users == [] then table
    else Insert(InsertAll(table, users[..|users| - 1], row), Stored(users[|users| - 1], row))
  }

  /** No addressed user appears twice or already owns a row with this sid. */
  ghost predicate NewKeys(table: seq<Stored>, users: seq<int>, sid: int) {
    && (forall u :: u in users ==> !HasKey(table, u, sid))
    && (forall i, j :: 0 <= i < j < |users| ==> users[i] != users[j])
  }

  lemma {:induction false} InsertAllKeys(table: seq<Stored>, users: seq<int>, row: Row)
    requires SortedTable(table) && NewKeys(table, users, row.sid)
    ensures SortedTable(InsertAll(table, users, row))
    ensures forall s :: s in InsertAll(table, users, row) <==> s in table || (s.row == row && s.user in users)
  {
    if users == [] {
    } else {
      var n := |users| - 1;
      var front := users[..n];
      assert forall u :: u in users <==> u in front || u == users[n];
      InsertAllKeys(table, front, row);
      var inner := InsertAll(table, front, row);
      assert !HasKey(inner, users[n], row.sid) by {
        assert !HasKey(table, users[n], row.sid);
        assert users[n] !in front;
      }
      InsertSorted(inner, Stored(users[n], row));
    }
  }

  lemma {:induction false} InsertAllRows(table: seq<Stored>, users: seq<int>, row: Row, user: int)
    requires SortedTable(table) && NewKeys(table, users, row.sid)
    ensures RowsOf(InsertAll(table, users, row), user) ==
            if user in users then InsertRow(RowsOf(table, user), row) else RowsOf(table, user)
  {
    if users == [] {
    } else {
      var n := |users| - 1;
      var front := users[..n];
      assert forall u :: u in users <==> u in front || u == users[n];
      assert users[n] !in front;
      InsertAllKeys(table, front, row);
      InsertAllRows(table, front, row, user);
      var inner := InsertAll(table, front, row);
      assert !HasKey(inner, users[n], row.sid) by {
        assert !HasKey(table, users[n], row.sid);
      }
      RowsOfInsert(inner, Stored(users[n], row), user);
    }
  }

  /** Seen so far without a clash, the next user clashes exactly when the key is taken. */
  lemma {:induction false} NewKeyStep(table: seq<Stored>, users: seq<int>, n: nat, row: Row)
    requires SortedTable(table) && n < |users| && NewKeys(table, users[..n], row.sid)
    ensures HasKey(InsertAll(table, users[..n], row), users[n], row.sid) ==> !NewKeys(table, users, row.sid)
    ensures !HasKey(InsertAll(table, users[..n], row), users[n], row.sid) ==> NewKeys(table, users[..n + 1], row.sid)
    ensures users[..n + 1][..n] == users[..n]
  {
    var front, user := users[..n], users[n];
    var pending := InsertAll(table, front, row);
    InsertAllKeys(table, front, row);
    assert user in users;
    if HasKey(pending, user, row.sid) {
      var s :| s in pending && s.user == user && s.row.sid == row.sid;
      if s !in table {
        var i :| 0 <= i < n && front[i] == user;
        assert users[i] == users[n];
      }
    } else {
      assert !HasKey(table, user, row.sid) by {
        assert forall s :: s in table ==> s in pending;
      }
      assert Stored(user, row) !in pending;
      assert forall u :: u in users[..n + 1] ==> u in front || u == user;
    }
  }

  /** For every user: exactly the rows created before the cutoff are deleted, and the listing
      the watermark is raised to names the largest of them. */
  lemma {:induction false} CleanupEveryUser(table: seq<Stored>, cutoff: int)
    requires forall s :: s in table ==> 0 < s.row.sid <= I64_MAX
    ensures forall u :: RowsOf(Remaining(table, cutoff), u) == Living(RowsOf(table, u), cutoff)
    ensures forall u :: PeakOf(Expired(table, cutoff), u) == DeadPeak(RowsOf(table, u), cutoff)
    ensures forall u :: 0 <= PeakOf(Expired(table, cutoff), u) <= I64_MAX
  {
    forall u: int
      ensures RowsOf(Remaining(table, cutoff), u) == Living(RowsOf(table, u), cutoff)
      ensures PeakOf(Expired(table, cutoff), u) == DeadPeak(RowsOf(table, u), cutoff)
      ensures 0 <= PeakOf(Expired(table, cutoff), u) <= I64_MAX
    {
      RemainingPerUser(table, cutoff, u);
      PeakPerUser(table, cutoff, u);
      RowsOfSource(table, u);
      PeakInRange(RowsOf(table, u), cutoff);
    }
  }

  lemma {:induction false} RemainingHolds(table: seq<Stored>, cutoff: int, s: Stored)
    ensures s in Remaining(table, cutoff) <==> s in table && s.row.createdAt >= cutoff
  {
    if table == [] {
    } else {
      var n := |table| - 1;
      RemainingHolds(table[..n], cutoff, s);
      assert table == table[..n] + [table[n]];
    }
  }

  /** `peak` is the largest sid among the user's rows created before the cutoff, 0 without one. */
  ghost predicate IsPeak(table: seq<Stored>, cutoff: int, user: int, peak: int) {
    && peak >= 0
    && (forall s | s in table && s.user == user && s.row.createdAt < cutoff :: s.row.sid <= peak)
    && (peak == 0 || exists s :: s in table && s.user == user && s.row.createdAt < cutoff && s.row.sid == peak)
  }

  lemma {:induction false} PeakIs(table: seq<Stored>, cutoff: int, user: int)
    ensures IsPeak(table, cutoff, user, PeakOf(Expired(table, cutoff), user))
  {
    if table == [] {
    } else {
      var n := |table| - 1;
      var front, s := table[..n], table[n];
      PeakIs(front, cutoff, user);
      PeakAppend(Expired(front, cutoff), (s.user, s.row.sid), user);
      if s.row.createdAt >= cutoff {
        assert Expired(table, cutoff) == Expired(front, cutoff);
      }
      assert forall x :: x in table <==> x in front || x == s;
    }
  }

  /** Where a cleanup leaves a user's watermark: over every row deleted, and where it was or at one of
      those rows. */
  lemma {:induction false} CleanupLifts(table: seq<Stored>, cutoff: int, user: int, before: int)
    requires before >= 0
    ensures var after := Raise(before, PeakOf(Expired(table, cutoff), user));
            && before <= after
            && (forall s | s in table && s.user == user && s.row.createdAt < cutoff :: s.row.sid <= after)
            && (after == before ||
                exists s :: s in table && s.user == user && s.row.createdAt < cutoff && s.row.sid == after)
  {
    PeakIs(table, cutoff, user);
  }

  lemma {:induction false} CleanedTable(table: seq<Stored>, cutoff: int)
    ensures forall s :: s in Remaining(table, cutoff) <==> s in table && s.row.createdAt >= cutoff
  {
    hide Remaining;
    forall s
      ensures s in Remaining(table, cutoff) <==> s in table && s.row.createdAt >= cutoff
    {
      RemainingHolds(table, cutoff, s);
    }
  }

  lemma {:induction false} RaisedByNothing(watermark: int)
    ensures watermark >= 0 ==> Raise(watermark, 0) == watermark
  {}

  class Gateway {
    var table: seq<Stored>
    var settings: map<int, seq<int>>
    var lastRun: int

    ghost predicate Valid()
      reads this
    {
      && SortedTable(table)
      && (forall s :: s in table ==> 0 < s.row.sid <= I64_MAX)
      && (forall u :: u in settings ==> 0 <= FromData(settings[u]) <= I64_MAX)
    }

    function Watermark(user: int): int
      reads this
    {
      if user in settings then FromData(settings[user]) else 0
    }

    constructor ()
      ensures Valid() && table == [] && settings == map[] && lastRun == 0
      ensures forall u :: Watermark(u) == 0
    {
      table, settings, lastRun := [], map[], 0;
    }

    /** Saving a packet adds one row to every addressed user's log and to no other; a
        duplicate primary key fails the whole insert. */
    method SavePacket(users: seq<int>, sid: int, cmd: int, body: Body, now: int) returns (ok: bool)
      requires Valid() && 0 < sid <= I64_MAX
      modifies `table
      ensures Valid()
      ensures ok <==> NewKeys(old(table), users, sid)
      ensures ok <==> && (forall s :: s in old(table) && s.row.sid == sid ==> s.user !in users)
                      && (forall i, j :: 0 <= i < j < |users| ==> users[i] != users[j])
      ensures if ok then
                forall s :: s in table <==> s in old(table) || (s.user in users && s.row == Row(sid, now, cmd, body))
              else table == old(table)
      ensures forall u :: RowsOf(table, u) ==
                          if ok && u in users then InsertRow(old(RowsOf(table, u)), Row(sid, now, cmd, body))
                          else old(RowsOf(table, u))
    {
      var row := Row(sid, now, cmd, body);
      var pending := table;
      ok := true;
      for n := 0 to |users|
        invariant ok && table == old(table)
        invariant NewKeys(table, users[..n], sid)
        invariant pending == InsertAll(table, users[..n], row)
      {
        var user := users[n];
        NewKeyStep(table, users, n, row);
        if HasKey(pending, user, sid) {
          return false;
        }
        pending := Insert(pending, Stored(user, row));
      }
      assert users[..|users|] == users;
      InsertAllKeys(table, users, row);
      forall u: int
        ensures RowsOf(pending, u) == if u in users then InsertRow(RowsOf(table, u), row) else RowsOf(table, u)
      {
        InsertAllRows(table, users, row, u);
      }
      table := pending;
    }

    /** Every branch of a pull in one statement: the answer is the reply computed from this
        user's rows and watermark; nothing is deleted. */
    method PullPacket(user: int, req: PullRequest) returns (resp: PullResponse)
      requires -0x8000_0000 <= req.count <= 0x7FFF_FFFF
      ensures resp == Reply(RowsOf(table, user), Watermark(user), req.sid, Load(req.count))
    {
      var watermark := Watermark(user);
      var rows := RowsOf(table, user);
      if req.sid == 0 {
        return PullResponse(MaxSid(rows), [], false, false, watermark);
      }
      if req.sid < watermark {
        return PullResponse(MaxSid(rows), [], false, true, watermark);
      }
      var load := Load(req.count);
      var window := FindBySid(rows, req.sid, load);
      var packets := BuildPage(window);
      var sid := if packets == [] then req.sid else packets[|packets| - 1].rid;
      resp := PullResponse(sid, packets, load > 0 && |window| == load, false, watermark);
    }

    /** The watermark only rises. */
    method UpdateWatermark(user: int, watermark: int)
      requires Valid() && 0 <= watermark <= I64_MAX
      modifies `settings
      ensures Valid()
      ensures Watermark(user) == Raise(old(Watermark(user)), watermark)
      ensures old(Watermark(user)) <= Watermark(user) && watermark <= Watermark(user)
      ensures Watermark(user) == old(Watermark(user)) || Watermark(user) == watermark
      ensures forall u :: u != user ==> Watermark(u) == old(Watermark(u))
    {
      var cur := if user in settings then FromData(settings[user]) else FromData([]);
      var next := Raise(cur, watermark);
      settings := settings[user := ToData(next)];
      WatermarkRoundTrip(next);
    }

    /** One cleanup: unless the interval has not passed, the rows created before the cutoff
        go and every user's watermark rises to the largest of the user's deleted sids.
        CleanupEveryUser restates both per user. */
    method CleanupOnce(now: int, ttl: int, interval: int) returns (ran: bool)
      requires Valid()
      modifies this
      ensures Valid()
      ensures ran <==> !(old(lastRun) > 0 && now - old(lastRun) < interval)
      ensures !ran ==> unchanged(this)
      ensures ran ==> lastRun == now
      ensures ran ==> table == Remaining(old(table), now * 1000 - ttl * 1000)
      ensures ran ==> forall u :: Watermark(u) ==
                                  Raise(old(Watermark(u)), PeakOf(Expired(old(table), now * 1000 - ttl * 1000), u))
      ensures ran ==> forall s :: s in table <==> s in old(table) && s.row.createdAt >= now * 1000 - ttl * 1000
    {
      if lastRun > 0 && now - lastRun < interval {
        return false;
      }
      hide Expired, Remaining, PeakOf, RowsOf, SortedTable, FromData, Raise;
      ran := true;
      var cutoff := now * 1000 - ttl * 1000;
      var expired := TakeExpired(cutoff);
      var perUser, order := PeaksPerUser(expired);
      RaiseAll(perUser, order);
      lastRun := now;
      forall u
        ensures Watermark(u) == Raise(old(Watermark(u)), PeakOf(expired, u))
      {
        RaisedByNothing(old(Watermark(u)));
      }
    }

    /** Lists the expired rows, then deletes them. */
    method TakeExpired(cutoff: int) returns (expired: seq<(int, int)>)
      requires Valid()
      modifies `table
      ensures Valid() && table == Remaining(old(table), cutoff)
      ensures expired == Expired(old(table), cutoff)
      ensures forall s :: s in table <==> s in old(table) && s.row.createdAt >= cutoff
      ensures forall u :: 0 <= PeakOf(expired, u) <= I64_MAX
    {
      expired := Expired(table, cutoff);
      CleanupEveryUser(table, cutoff);
      RemainingSorted(table, cutoff);
      CleanedTable(table, cutoff);
      table := Remaining(table, cutoff);
    }

    /** The per-user maximum of the deleted sids, and the users in some iteration order. */
    static method PeaksPerUser(expired: seq<(int, int)>) returns (perUser: map<int, int>, order: seq<int>)
      ensures forall u :: u in order <==> u in perUser
      ensures forall u :: u in perUser ==> perUser[u] == PeakOf(expired, u)
      ensures forall u :: u !in perUser ==> PeakOf(expired, u) == 0
    {
      perUser, order := map[], [];
      for n := 0 to |expired|
        invariant forall u :: u in order <==> u in perUser
        invariant forall u :: u in perUser ==> perUser[u] == PeakOf(expired[..n], u)
        invariant forall u :: u !in perUser ==> PeakOf(expired[..n], u) == 0
      {
        var (user, sid) := expired[n];
        assert expired[..n + 1][..n] == expired[..n];
        var high := if user in perUser then perUser[user] else 0;
        order := if user in perUser then order else order + [user];
        perUser := perUser[user := if sid > high then sid else high];
      }
      assert expired[..|expired|] == expired;
    }

    /** Raises every listed user's watermark; the order does not matter. */
    method RaiseAll(perUser: map<int, int>, order: seq<int>)
      requires Valid() && forall u :: u in perUser ==> 0 <= perUser[u] <= I64_MAX
      requires forall u :: u in order <==> u in perUser
      modifies `settings
      ensures Valid()
      ensures forall u :: Watermark(u) ==
                          if u in perUser then Raise(old(Watermark(u)), perUser[u]) else old(Watermark(u))
    {
      for n := 0 to |order|
        invariant Valid()
        invariant forall u :: Watermark(u) ==
                              if u in order[..n] then Raise(old(Watermark(u)), perUser[u]) else old(Watermark(u))
      {
        assert order[n] in order;
        UpdateWatermark(order[n], perUser[order[n]]);
      }
      assert order[..|order|] == order;
    }
  }
}
