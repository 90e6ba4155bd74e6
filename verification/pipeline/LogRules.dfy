/** What each operation on the offline log does, told row by row: which rows are there afterwards,
    where the watermark ends, and what one step of a run changes. */
module LogRules {
  import opened PipelineTypes
  import opened PipelinePage
  import opened PipelineStore
  import opened PipelineRuns

  // ---- the table ----

  lemma {:induction false} RowsOfHolds(table: seq<Stored>, user: int, row: Row)
    ensures row in RowsOf(table, user) <==> Stored(user, row) in table
  {
    if table == [] {
    } else {
      var n := |table| - 1;
      RowsOfInit(table, user);
      RowsOfHolds(table[..n], user, row);
      assert table == table[..n] + [table[n]];
    }
  }

  /** After a cleanup a user's log holds exactly the rows created at or after the cutoff. */
  lemma {:induction false} CleanupKeeps(table: seq<Stored>, cutoff: int, user: int, row: Row)
    ensures row in RowsOf(Remaining(table, cutoff), user) <==>
            Stored(user, row) in table && row.createdAt >= cutoff
  {
    RowsOfHolds(Remaining(table, cutoff), user, row);
    RemainingHolds(table, cutoff, Stored(user, row));
  }

  /** The count asked for is a minimum of 500; a negative one reads as a huge one. */
  lemma {:induction false} WindowSizes(count: int)
    requires -0x8000_0000 <= count <= 0x7FFF_FFFF
    ensures Load(count) == if count < 0 then 18446744073709551616 + count else if count < 500 then 500 else count
  {}

  lemma {:induction false} ByteIs(u: nat, n: nat, i: nat)
    requires i < n
    ensures LittleEndian(u, n)[i] == u / Pow256(i) % 256
  {
    if i == 0 {
    } else {
      ByteIs(u / 256, n - 1, i - 1);
      var p: int := Pow256(i - 1);
      assert u / 256 / p == u / (256 * p) by {
        DivideTwice(u, 256, p);
      }
    }
  }

  lemma {:induction false} RestFits(a: int, b: int, r: int, s: int)
    requires 0 <= r < a && 0 <= s < b
    ensures 0 <= a * s + r < a * b
  {
    assert a * s <= a * (b - 1);
  }

  lemma {:induction false} Regroup(a: int, b: int, q: int, r: int, s: int)
    ensures a * (b * q + s) + r == a * b * q + (a * s + r)
  {}

  lemma {:induction false} DivideTwice(u: int, a: int, b: int)
    requires u >= 0 && a > 0 && b > 0
    ensures a * b > 0 && u / a / b == u / (a * b)
  {
    var r, half := u % a, u / a;
    var q, s := half / b, half % b;
    assert u == a * half + r && half == b * q + s;
    RestFits(a, b, r, s);
    Regroup(a, b, q, r, s);
    QuotientIs(u, a * b, q, a * s + r);
  }

  lemma {:induction false} MultipleIsLarge(d: int, x: int)
    requires d > 0
    ensures x > 0 ==> d * x >= d
    ensures x < 0 ==> d * x <= -d
  {}

  lemma {:induction false} QuotientIs(u: int, d: int, q: int, r: int)
    requires d > 0 && u == d * q + r && 0 <= r < d
    ensures u / d == q
  {
    assert d * (u / d - q) == r - u % d;
    MultipleIsLarge(d, u / d - q);
  }

  /** The stored watermark: eight bytes, lowest first, of the value in two's complement. */
  lemma {:induction false} DataBytes(watermark: int, i: nat)
    requires -0x8000_0000_0000_0000 <= watermark <= 0x7FFF_FFFF_FFFF_FFFF && i < 8
    ensures |ToData(watermark)| == 8
    ensures ToData(watermark)[i] ==
            (if watermark < 0 then watermark + 18446744073709551616 else watermark) / Pow256(i) % 256
  {
    ByteIs(if watermark < 0 then watermark + 18446744073709551616 else watermark, 8, i);
  }

  /** Anything but eight bytes reads as 0. */
  lemma {:induction false} OtherDataReadsZero(data: seq<int>)
    ensures |data| != 8 ==> FromData(data) == 0
  {}

  // ---- one step of a run ----

  lemma {:induction false} RunNext(events: seq<Event>, e: Event)
    ensures Run(events + [e]) == Step(Run(events), e)
  {
    assert (events + [e])[..|events|] == events;
  }

  lemma {:induction false} LivingHolds(rows: seq<Row>, cutoff: int, r: Row)
    ensures r in Living(rows, cutoff) <==> r in rows && r.createdAt >= cutoff
  {
    if rows == [] {
    } else {
      var n := |rows| - 1;
      LivingHolds(rows[..n], cutoff, r);
      assert rows == rows[..n] + [rows[n]];
    }
  }

  lemma {:induction false} DeadPeakIs(rows: seq<Row>, cutoff: int)
    ensures DeadPeak(rows, cutoff) >= 0
    ensures forall r | r in rows && r.createdAt < cutoff :: r.sid <= DeadPeak(rows, cutoff)
    ensures DeadPeak(rows, cutoff) == 0 ||
            exists r :: r in rows && r.createdAt < cutoff && r.sid == DeadPeak(rows, cutoff)
  {
    if rows == [] {
    } else {
      var n := |rows| - 1;
      DeadPeakIs(rows[..n], cutoff);
      assert forall r :: r in rows <==> r in rows[..n] || r == rows[n];
    }
  }

  /** Appending puts one row behind everything there is and touches nothing else. */
  lemma {:induction false} AppendAdds(events: seq<Event>, gap: nat, wait: nat, command: int, body: Body)
    returns (row: Row)
    ensures var u, next := Run(events), Run(events + [Append(gap, wait, command, body)]);
            && row.command == command && row.body == body
            && (if u.log == [] then row.sid == 1 + gap else row.sid == u.log[|u.log| - 1].sid + 1 + gap)
            && row.createdAt == u.clock + wait
            && next == User(u.log + [row], u.stored + [row], u.watermark, row.createdAt, u.devices)
  {
    hide *;
    RunNext(events, Append(gap, wait, command, body));
    RunSound(events);
    var u := Run(events);
    row := AppendOf(u, gap, wait, command, body);
  }

  lemma {:induction false} AppendOf(u: User, gap: nat, wait: nat, command: int, body: Body) returns (row: Row)
    requires Sound(u)
    ensures row.command == command && row.body == body && row.createdAt == u.clock + wait
    ensures if u.log == [] then row.sid == 1 + gap else row.sid == u.log[|u.log| - 1].sid + 1 + gap
    ensures Step(u, Append(gap, wait, command, body)) ==
            User(u.log + [row], u.stored + [row], u.watermark, row.createdAt, u.devices)
  {
    row := Row(MaxSid(u.log) + 1 + gap, u.clock + wait, command, body);
    hide InsertRow, Ascending, PositiveSids, TimesAscend, Exact, Trimmed;
    MaxSidBounds(u.log, u.stored, u.watermark);
    AppendTrims(u.log, u.stored, u.watermark, row);
  }

  /** A cleanup deletes the rows created before the cutoff, lifts the watermark over each of them and
      no higher, and touches nothing else. */
  lemma {:induction false} CleanupDeletes(events: seq<Event>, cutoff: int)
    ensures var u, next := Run(events), Run(events + [Cleanup(cutoff)]);
            && next.log == u.log && next.clock == u.clock && next.devices == u.devices
            && (forall r :: r in next.stored <==> r in u.stored && r.createdAt >= cutoff)
            && (forall r :: r in u.stored && r.createdAt < cutoff ==> r.sid <= next.watermark)
            && u.watermark <= next.watermark
            && (next.watermark == u.watermark || next.watermark == 0 ||
                exists r :: r in u.stored && r.createdAt < cutoff && r.sid == next.watermark)
  {
    hide Run, Living, DeadPeak;
    RunNext(events, Cleanup(cutoff));
    var u := Run(events);
    DeadPeakIs(u.stored, cutoff);
    forall r
      ensures r in Living(u.stored, cutoff) <==> r in u.stored && r.createdAt >= cutoff
    {
      LivingHolds(u.stored, cutoff, r);
    }
  }

  /** The newest sid in the table, 0 when it is empty. */
  function Newest(rows: seq<Row>): int {
    if rows == [] then 0 else rows[|rows| - 1].sid
  }

  /** A pull changes one device and nothing else. On first contact it jumps to the newest row and keeps
      its data, an expired one jumps and forgets everything, and any other keeps its start. */
  lemma {:induction false} PullMovesOne(events: seq<Event>, id: int, load: nat)
    ensures var u, next := Run(events), Run(events + [Pull(id, load)]);
            var dev := if id in u.devices then u.devices[id] else Device(0, 0, View(map[], []));
            && next.log == u.log && next.stored == u.stored
            && next.watermark == u.watermark && next.clock == u.clock
            && next.devices.Keys == u.devices.Keys + {id}
            && (forall d :: d in u.devices && d != id ==> next.devices[d] == u.devices[d])
            && (dev.cursor == 0 ==> next.devices[id] == Device(Newest(u.stored), Newest(u.stored), dev.view))
            && (dev.cursor != 0 && dev.cursor < u.watermark ==>
                  next.devices[id] == Device(Newest(u.stored), Newest(u.stored), View(map[], [])))
            && (dev.cursor != 0 && dev.cursor >= u.watermark ==>
                  && next.devices[id].start == dev.start
                  && next.devices[id].cursor == Reply(u.stored, u.watermark, dev.cursor, load).sid
                  && dev.cursor <= next.devices[id].cursor)
  {
    hide Run, Replay, PagePackets, FindBySid;
    RunNext(events, Pull(id, load));
    RunSound(events);
    var u := Run(events);
    var dev := DeviceOf(u, id);
    MaxSidBounds(u.log, u.stored, u.watermark);
    DeviceExact(u, id);
    if dev.cursor != 0 && dev.cursor >= u.watermark {
      PullAdvances(u.log, u.stored, u.watermark, dev.cursor, load, dev.view);
    }
  }
}
