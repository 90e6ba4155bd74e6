/** The server's read report taken apart: the row is looked up in one statement and written in
    another, and other reports and messages may come in between. */
module ReadRaces {
  import opened ChatLog
  import opened Unread

  /** `held` is what the reports between their two statements are going to write. */
  datatype Race = Race(row: Row, held: map<int, Row>)

  datatype Step = LookUp(k: int, pos: int, badge: int) | Write(k: int) | NewMessage(m: Message)

  function Next(r: Race, a: Step): Race {
    match a
    case LookUp(k, pos, badge) =>
      if pos <= r.row.readPos then r else r.(held := r.held[k := RowOnRead(r.row, pos, badge)])
    case Write(k) =>
      if k !in r.held then r
      else Race(r.row.(readPos := r.held[k].readPos, readBadge := r.held[k].readBadge), r.held - {k})
    case NewMessage(m) => r.(row := RowOnMessage(r.row, m))
  }

  function After(r: Race, steps: seq<Step>): Race {
    if steps == [] then r else Next(After(r, steps[..|steps| - 1]), steps[|steps| - 1])
  }

  /** With nothing in between a report is the guarded update of Unread. */
  lemma {:induction false} AloneIsAtomic(row: Row, k: int, pos: int, badge: int)
    ensures Next(Next(Race(row, map[]), LookUp(k, pos, badge)), Write(k)).row == RowOnRead(row, pos, badge)
  {}

  /** Step j writes a position. */
  ghost predicate Writes(r: Race, steps: seq<Step>, j: int) {
    0 <= j < |steps| && steps[j].Write? && steps[j].k in After(r, steps[..j]).held
  }

  function Written(r: Race, steps: seq<Step>, j: nat): int
    requires Writes(r, steps, j)
  {
    After(r, steps[..j]).held[steps[j].k].readPos
  }

  lemma {:induction false} AfterNext(r: Race, steps: seq<Step>, n: nat)
    requires n < |steps|
    ensures After(r, steps[..n + 1]) == Next(After(r, steps[..n]), steps[n])
  {
    assert steps[..n + 1][..n] == steps[..n];
  }

  /** The read position of the row is what was written last. */
  lemma {:induction false} LastWritten(r: Race, steps: seq<Step>, m: nat, n: nat) returns (j: int)
    requires m <= n <= |steps|
    ensures j == m - 1 || (m <= j < n && Writes(r, steps, j))
    ensures forall i | j < i < n :: !Writes(r, steps, i)
    ensures After(r, steps[..n]).row.readPos ==
            if j < m then After(r, steps[..m]).row.readPos else Written(r, steps, j)
  {
    hide After;
    if m == n {
      j := m - 1;
    } else {
      j := LastWritten(r, steps, m, n - 1);
      AfterNext(r, steps, n - 1);
      if Writes(r, steps, n - 1) {
        j := n - 1;
      }
    }
  }

  /** Report k goes from its look-up at step m to its write at step n. */
  ghost predicate Spans(r: Race, steps: seq<Step>, k: int, m: nat, n: nat) {
    && m < n < |steps| && steps[n] == Write(k)
    && steps[m].LookUp? && steps[m].k == k && steps[m].pos > After(r, steps[..m]).row.readPos
    && forall i | m < i < n :: steps[i].NewMessage? || steps[i].k != k
  }

  lemma {:induction false} HeldUntil(r: Race, steps: seq<Step>, k: int, m: nat, n: nat, i: nat)
    requires Spans(r, steps, k, m, n) && m < i <= n
    ensures k in After(r, steps[..i]).held && After(r, steps[..i]).held[k].readPos == steps[m].pos
  {
    hide After;
    AfterNext(r, steps, i - 1);
    if i == m + 1 {
    } else {
      HeldUntil(r, steps, k, m, n, i - 1);
    }
  }

  /** In any interleaving a report moves the read position back exactly when, since its look-up, the
      last other report to write wrote a larger one. */
  lemma {:induction false} ReportGoesBackIff(r: Race, steps: seq<Step>, k: int, m: nat, n: nat)
    requires Spans(r, steps, k, m, n)
    ensures After(r, steps[..n + 1]).row.readPos == steps[m].pos
    ensures After(r, steps[..n + 1]).row.readPos < After(r, steps[..n]).row.readPos <==>
            exists j :: m < j < n && Writes(r, steps, j) && Written(r, steps, j) > steps[m].pos
                        && forall i | j < i < n :: !Writes(r, steps, i)
  {
    hide After, Writes, Written;
    AfterNext(r, steps, n);
    AfterNext(r, steps, m);
    HeldUntil(r, steps, k, m, n, n);
    var j := LastWritten(r, steps, m + 1, n);
  }

  /** Positions 2 and 1 are reported at once; the smaller is written last and stays. */
  lemma {:induction false} SmallerReportStays(row: Row, badge: int)
    requires row.readPos == 0
    ensures var steps := [LookUp(1, 1, badge), LookUp(2, 2, badge), Write(2), Write(1)];
            After(Race(row, map[]), steps[..3]).row.readPos == 2 && After(Race(row, map[]), steps).row.readPos == 1
  {
    var r := Race(row, map[]);
    var steps := [LookUp(1, 1, badge), LookUp(2, 2, badge), Write(2), Write(1)];
    assert steps[..0] == [] && After(r, []) == r;
    AfterNext(r, steps, 0);
    AfterNext(r, steps, 1);
    AfterNext(r, steps, 2);
    AfterNext(r, steps, 3);
    assert steps[..4] == steps;
  }
}
