/** A device catching up: it pulls page after page until the server says there is no more. */
module PipelineSync {
  import opened PipelineTypes
  import opened PipelinePage
  import opened PipelineLayout
  import opened PipelineStore
  import opened PipelineRuns

  /** A full window of nothing but empty entity pushes. */
  ghost predicate Stalls(window: seq<Row>, load: nat) {
    |window| == load && Barren(window)
  }

  lemma {:induction false} WindowCursor(rows: seq<Row>, cursor: int, load: nat) returns (j: int)
    requires Ascending(rows)
    ensures var window := FindBySid(rows, cursor, load);
      && -1 <= j < |window|
      && (j == -1 <==> PagePackets(window) == []) && (j == -1 <==> Barren(window))
      && (j >= 0 ==> PagePackets(window)[|PagePackets(window)| - 1].rid > cursor)
  {
    hide PagePackets, Newer, FindBySid, Barren, Ascending;
    var window := FindBySid(rows, cursor, load);
    WindowAscends(rows, cursor, load);
    j := PageCursor(window);
    assert j >= 0 ==> window[j] in window;
  }

  lemma {:induction false} StuckWindow(rows: seq<Row>, watermark: int, cursor: int, load: nat)
    requires Ascending(rows) && load > 0 && cursor > 0 && cursor >= watermark
    ensures var reply := Reply(rows, watermark, cursor, load);
            && !reply.expired
            && (reply.hasMore && reply.sid == cursor <==> Stalls(FindBySid(rows, cursor, load), load))
            && (reply.sid == cursor ==> reply.packets == [])
  {
    hide PagePackets, Newer, FindBySid, Barren, Ascending;
    var j := WindowCursor(rows, cursor, load);
  }

  lemma {:induction false} NothingReceived(dev: Device, reply: PullResponse)
    requires dev.cursor > 0 && !reply.expired && reply.packets == [] && reply.sid == dev.cursor
    ensures Receive(dev, reply) == dev
  {}

  /** The only way a reply can announce more without moving the cursor; the device is then
      left exactly as it was, so asking again gets the same answer for ever. */
  lemma {:induction false} StuckIffBarrenWindow(rows: seq<Row>, watermark: int, dev: Device, load: nat)
    requires Ascending(rows) && load > 0 && dev.cursor > 0 && dev.cursor >= watermark
    ensures var reply := Reply(rows, watermark, dev.cursor, load);
            && (reply.hasMore && reply.sid == dev.cursor <==> Stalls(FindBySid(rows, dev.cursor, load), load))
            && (reply.hasMore && reply.sid == dev.cursor ==> Receive(dev, reply) == dev)
  {
    hide Reply, Receive, FindBySid, Stalls, Ascending;
    StuckWindow(rows, watermark, dev.cursor, load);
    var reply := Reply(rows, watermark, dev.cursor, load);
    if reply.sid == dev.cursor {
      NothingReceived(dev, reply);
    }
  }

  lemma {:induction false} WindowAscends(rows: seq<Row>, cursor: int, load: nat)
    requires Ascending(rows)
    ensures Ascending(FindBySid(rows, cursor, load))
    ensures forall r :: r in FindBySid(rows, cursor, load) ==> r.sid > cursor
  {
    NewerIsSuffix(rows, cursor);
    RankSplits(rows, cursor);
  }

  ghost predicate BarrenAt(rows: seq<Row>, i: nat, load: nat) {
    i + load <= |rows| && Barren(rows[i..i + load])
  }

  /** No window of `load` neighbouring rows is all empty pushes. The senders never store an
      empty push, so their logs satisfy this for every window size. */
  ghost predicate NeverStalls(rows: seq<Row>, load: nat) {
    forall i: nat :: !BarrenAt(rows, i, load)
  }

  lemma {:induction false} ProductiveNeverStalls(rows: seq<Row>, load: nat)
    requires load > 0 && forall r :: r in rows ==> Productive(r)
    ensures NeverStalls(rows, load)
  {
    forall i: nat
      ensures !BarrenAt(rows, i, load)
    {
      assert i + load <= |rows| ==> rows[i..i + load][0] == rows[i] && rows[i] in rows;
    }
  }

  lemma {:induction false} LeftAfter(rows: seq<Row>, cursor: int, n: nat)
    requires Ascending(rows) && n <= |Newer(rows, cursor)|
    ensures n > 0 ==> Newer(rows, cursor)[n - 1].sid > cursor
    ensures Newer(rows, if n == 0 then cursor else Newer(rows, cursor)[n - 1].sid) == Newer(rows, cursor)[n..]
  {
    NewerIsSuffix(rows, cursor);
    RankSplits(rows, cursor);
    if n > 0 {
      var r := Rank(rows, cursor);
      var to := rows[r + n - 1].sid;
      RankIs(rows, to, r + n);
      NewerIsSuffix(rows, to);
      assert rows[r..][n..] == rows[r + n..];
    }
  }

  lemma {:induction false} FullWindowCarries(rows: seq<Row>, cursor: int, load: nat)
    requires Ascending(rows) && NeverStalls(rows, load)
    ensures |FindBySid(rows, cursor, load)| == load ==> !Barren(FindBySid(rows, cursor, load))
  {
    NewerIsSuffix(rows, cursor);
    var r, window := Rank(rows, cursor), FindBySid(rows, cursor, load);
    if |window| == load {
      assert !BarrenAt(rows, r, load);
      assert window == rows[r..r + load];
    }
  }

  /** What one page leaves behind, seen from the client. */
  ghost predicate Consumes(rows: seq<Row>, cursor: int, v: View, reply: PullResponse, n: nat) {
    var left := Newer(rows, cursor);
    && !reply.expired
    && n <= |left| && Newer(rows, reply.sid) == left[n..]
    && Replay(v, reply.packets) == Replay(v, Raw(left[..n]))
    && reply.sid == (if n == 0 then cursor else left[n - 1].sid)
    && reply.sid >= cursor
    && (reply.hasMore ==> n > 0)
    && (!reply.hasMore ==> Barren(left[n..]))
  }

  /** What is left to read shrinks by a prefix, and the replay of the packets equals the
      replay of that prefix. */
  lemma {:induction false} PageConsumes(rows: seq<Row>, watermark: int, cursor: int, load: nat, v: View)
    returns (n: nat)
    requires Ascending(rows) && load > 0 && cursor > 0 && cursor >= watermark && NeverStalls(rows, load)
    ensures Consumes(rows, cursor, v, Reply(rows, watermark, cursor, load), n)
  {
    hide PagePackets, Replay, Newer, Barren, Ascending, NeverStalls;
    var left := Newer(rows, cursor);
    var window := FindBySid(rows, cursor, load);
    WindowAscends(rows, cursor, load);
    FullWindowCarries(rows, cursor, load);
    var j := PageCursor(window);
    n := j + 1;
    PageReplaysLikeRows(v, window);
    ReplayStopsAt(window, n, v);
    LeftAfter(rows, cursor, n);
    assert window[..n] == left[..n];
    assert n > 0 ==> window[j] == left[j];
  }

  ghost predicate Progress(rows: seq<Row>, watermark: int, start: Device, read: seq<Row>, dev: Device) {
    && dev.cursor > 0 && dev.cursor >= watermark && dev.start == start.start
    && read + Newer(rows, dev.cursor) == Newer(rows, start.cursor)
    && dev.view == Replay(start.view, Raw(read))
    && Reached(rows, start.cursor, dev.cursor)
  }

  /** The cursor has not gone back, and has not gone past the newest sid. */
  ghost predicate Reached(rows: seq<Row>, from: int, cursor: int) {
    from <= cursor && (cursor == from || cursor <= MaxSid(rows))
  }

  lemma {:induction false} Advances(rows: seq<Row>, watermark: int, start: Device, read: seq<Row>, dev: Device,
                                    reply: PullResponse, n: nat) returns (read': seq<Row>)
    requires Ascending(rows)
    requires Progress(rows, watermark, start, read, dev) && Consumes(rows, dev.cursor, dev.view, reply, n)
    ensures Progress(rows, watermark, start, read', Receive(dev, reply))
    ensures reply.hasMore ==> |Newer(rows, reply.sid)| < |Newer(rows, dev.cursor)|
    ensures !reply.hasMore ==>
              Receive(dev, reply).view == Replay(start.view, Raw(Newer(rows, start.cursor))) &&
              Barren(Newer(rows, reply.sid))
  {
    hide Replay, Newer, Barren, MaxSid, Ascending;
    var left := Newer(rows, dev.cursor);
    NewestAbove(rows, dev.cursor);
    assert n > 0 ==> left[n - 1] in left;
    Consumed(start.view, read, left[..n], left[n..]);
    assert left[..n] + left[n..] == left;
    read' := read + left[..n];
    if !reply.hasMore {
      ReplayRest(start.view, read', left[n..]);
    }
  }

  lemma {:induction false} Consumed(v: View, read: seq<Row>, step: seq<Row>, rest: seq<Row>)
    ensures Replay(Replay(v, Raw(read)), Raw(step)) == Replay(v, Raw(read + step))
    ensures read + (step + rest) == (read + step) + rest
  {
    RawConcat(read, step);
    ReplayConcat(v, Raw(read), Raw(step));
  }

  lemma {:induction false} ReplayRest(v: View, read: seq<Row>, rest: seq<Row>)
    requires Barren(rest)
    ensures Replay(v, Raw(read + rest)) == Replay(v, Raw(read))
  {
    RawConcat(read, rest);
    ReplayConcat(v, Raw(read), Raw(rest));
    BarrenRowsReplayToNothing(Replay(v, Raw(read)), rest);
  }

  lemma {:induction false} NewestAbove(rows: seq<Row>, cursor: int)
    requires Ascending(rows)
    ensures forall r :: r in Newer(rows, cursor) ==> r in rows && r.sid <= MaxSid(rows)
    ensures cursor < MaxSid(rows) && rows != [] ==> rows[|rows| - 1] in Newer(rows, cursor)
  {
    NewerIsSuffix(rows, cursor);
    RankSplits(rows, cursor);
  }

  /** Where every row carries something, nothing is left to read only past the newest sid. */
  lemma {:induction false} EndsAtNewest(rows: seq<Row>, from: int, cursor: int)
    requires Ascending(rows) && Reached(rows, from, cursor) && from > 0
    requires Barren(Newer(rows, cursor))
    ensures (forall r :: r in rows ==> Productive(r)) ==>
              cursor == if from < MaxSid(rows) then MaxSid(rows) else from
  {
    hide Newer, Productive, Ascending;
    NewestAbove(rows, cursor);
  }

  /** The client's sync loop against a server whose tables do not change meanwhile. A device
      with an unexpired cursor ends with the replay of every row above it, and past every row
      that carries anything, which is the newest sid where no empty push is stored; a first or
      expired pull ends at the newest sid with nothing. */
  method SyncToEnd(rows: seq<Row>, watermark: int, start: Device, load: nat) returns (dev: Device)
    requires Ascending(rows) && watermark >= 0 && load > 0 && NeverStalls(rows, load)
    ensures start.cursor == 0 || start.cursor < watermark ==>
              dev == Device(MaxSid(rows), MaxSid(rows), if start.cursor < watermark && start.cursor != 0
                  then BLANK else start.view)
    ensures start.cursor > 0 && start.cursor >= watermark ==>
              dev.view == Replay(start.view, Raw(Newer(rows, start.cursor))) &&
              Barren(Newer(rows, dev.cursor)) && dev.start == start.start
    ensures start.cursor > 0 && start.cursor >= watermark && (forall r :: r in rows ==> Productive(r)) ==>
              dev.cursor == if start.cursor < MaxSid(rows) then MaxSid(rows) else start.cursor
  {
    dev := start;
    ghost var read := [];
    while true
      invariant dev == start || (start.cursor > 0 && start.cursor >= watermark)
      invariant start.cursor > 0 && start.cursor >= watermark ==> Progress(rows, watermark, start, read, dev)
      decreases |Newer(rows, dev.cursor)|
    {
      var reply := Reply(rows, watermark, dev.cursor, load);
      if reply.expired {
        return Device(reply.sid, reply.sid, BLANK);
      }
      if start.cursor > 0 && start.cursor >= watermark {
        ghost var n := PageConsumes(rows, watermark, dev.cursor, load, dev.view);
        read := Advances(rows, watermark, start, read, dev, reply, n);
      }
      dev := Receive(dev, reply);
      if !reply.hasMore {
        if start.cursor > 0 && start.cursor >= watermark {
          EndsAtNewest(rows, start.cursor, dev.cursor);
        }
        return;
      }
    }
  }

  /** The windows of rows behind the pages of a device that catches up from the cursor. */
  ghost predicate PagesOf(rows: seq<Row>, watermark: int, cursor: int, load: nat, pages: seq<seq<Row>>)
    decreases |pages|
  {
    var reply := Reply(rows, watermark, cursor, load);
    && pages != [] && pages[0] == FindBySid(rows, cursor, load)
    && if reply.hasMore then PagesOf(rows, watermark, reply.sid, load, pages[1..]) else |pages| == 1
  }

  lemma {:induction false} PagesExist(rows: seq<Row>, watermark: int, cursor: int, load: nat)
    returns (pages: seq<seq<Row>>)
    requires Ascending(rows) && load > 0 && cursor > 0 && cursor >= watermark && NeverStalls(rows, load)
    ensures PagesOf(rows, watermark, cursor, load, pages)
    decreases |Newer(rows, cursor)|
  {
    hide Reply, FindBySid, Newer, NeverStalls, Ascending;
    var reply := Reply(rows, watermark, cursor, load);
    var n := PageConsumes(rows, watermark, cursor, load, BLANK);
    pages := [FindBySid(rows, cursor, load)];
    if !reply.hasMore {
    } else {
      var rest := PagesExist(rows, watermark, reply.sid, load);
      pages := pages + rest;
      assert pages[1..] == rest;
    }
  }

  /** The changes the windows hold, in order: read together they are all that was unread. */
  function ChangesOfPages(pages: seq<seq<Row>>): seq<Change> {
    if pages == [] then [] else ChangesOf(Raw(pages[0])) + ChangesOfPages(pages[1..])
  }

  lemma {:induction false} BarrenHoldsNothing(rows: seq<Row>)
    requires Barren(rows)
    ensures ChangesOf(Raw(rows)) == []
  {
    if ChangesOf(Raw(rows)) != [] {
      NotBarren(rows);
    }
  }

  lemma {:induction false} ChangesSplit(rows: seq<Row>, n: nat)
    requires n <= |rows|
    ensures ChangesOf(Raw(rows)) == ChangesOf(Raw(rows[..n])) + ChangesOf(Raw(rows[n..]))
  {
    assert rows[..n] + rows[n..] == rows;
    RawConcat(rows[..n], rows[n..]);
    ChangesOfConcat(Raw(rows[..n]), Raw(rows[n..]));
  }

  lemma {:induction false} PageHolds(rows: seq<Row>, watermark: int, cursor: int, load: nat)
    requires Ascending(rows) && load > 0 && cursor > 0 && cursor >= watermark && NeverStalls(rows, load)
    ensures var reply := Reply(rows, watermark, cursor, load);
            && reply.sid >= cursor
            && (reply.hasMore ==> |Newer(rows, reply.sid)| < |Newer(rows, cursor)|)
            && ChangesOf(Raw(Newer(rows, cursor))) ==
               ChangesOf(Raw(FindBySid(rows, cursor, load))) + ChangesOf(Raw(Newer(rows, reply.sid)))
            && (!reply.hasMore ==> ChangesOf(Raw(Newer(rows, reply.sid))) == [])
  {
    hide Raw, ChangesOf, PagePackets, Newer, Ascending, Barren, NeverStalls;
    var reply := Reply(rows, watermark, cursor, load);
    var left, window := Newer(rows, cursor), FindBySid(rows, cursor, load);
    WindowAscends(rows, cursor, load);
    FullWindowCarries(rows, cursor, load);
    var j := PageCursor(window);
    var n := j + 1;
    LeftAfter(rows, cursor, n);
    assert window[..n] == left[..n];
    assert n > 0 ==> window[n - 1] == left[n - 1];
    ChangesSplit(left, n);
    ChangesSplit(window, n);
    BarrenHoldsNothing(window[n..]);
    if !reply.hasMore {
      assert window == left;
    }
  }

  lemma {:induction false} PagesHoldTheUnread(rows: seq<Row>, watermark: int, cursor: int, load: nat,
                                              pages: seq<seq<Row>>)
    requires Ascending(rows) && load > 0 && cursor > 0 && cursor >= watermark && NeverStalls(rows, load)
    requires PagesOf(rows, watermark, cursor, load, pages)
    ensures ChangesOfPages(pages) == ChangesOf(Raw(Newer(rows, cursor)))
    decreases |pages|
  {
    hide Raw, ChangesOf, Reply, Newer, FindBySid, Ascending, NeverStalls;
    var reply := Reply(rows, watermark, cursor, load);
    PageHolds(rows, watermark, cursor, load);
    if reply.hasMore {
      PagesHoldTheUnread(rows, watermark, reply.sid, load, pages[1..]);
    } else {
      assert ChangesOfPages(pages[1..]) == [];
    }
  }

  /** A row saved late, below a device's cursor, is invisible to that device for ever: what
      lies above the cursor changes exactly when the new sid is above it. */
  lemma {:induction false} LateRowSeenIff(rows: seq<Row>, r: Row, cursor: int)
    requires Ascending(rows) && forall x :: x in rows ==> x.sid != r.sid
    ensures r in Newer(InsertRow(rows, r), cursor) <==> r.sid > cursor
    ensures r.sid <= cursor ==> Newer(InsertRow(rows, r), cursor) == Newer(rows, cursor)
  {
    if rows == [] || rows[|rows| - 1].sid < r.sid {
      NewerAppend(rows, r, cursor);
      if r.sid <= cursor {
        assert r !in Newer(rows, cursor) by {
          NewerAbove(rows, cursor);
        }
      }
    } else {
      var n := |rows| - 1;
      assert forall x :: x in rows[..n] ==> x in rows;
      assert rows[n] in rows;
      LateRowSeenIff(rows[..n], r, cursor);
      NewerAppend(InsertRow(rows[..n], r), rows[n], cursor);
    }
  }

  lemma {:induction false} NewerAppend(rows: seq<Row>, r: Row, cursor: int)
    ensures Newer(rows + [r], cursor) == if r.sid > cursor then Newer(rows, cursor) + [r] else Newer(rows, cursor)
  {
    assert (rows + [r])[..|rows|] == rows;
  }

  lemma {:induction false} NewerAbove(rows: seq<Row>, cursor: int)
    ensures forall x :: x in Newer(rows, cursor) ==> x.sid > cursor
  {
    if rows == [] {
    } else {
      NewerAbove(rows[..|rows| - 1], cursor);
    }
  }
}
