/** Collecting the kept values of an increasing sequence, as the expansion loops do. */
module Gather {

  ghost predicate Increasing(times: seq<int>) {
    forall i, j :: 0 <= i < j < |times| ==> times[i] < times[j]
  }

  /** `times` lists, in order, the kept values among the first n. */
  ghost predicate Gathered(times: seq<int>, at: nat -> int, keep: int -> bool, n: nat) {
    && Increasing(times)
    && (forall t :: t in times ==> keep(t) && exists k: nat :: k < n && at(k) == t)
    && (forall k: nat :: k < n && keep(at(k)) ==> at(k) in times)
  }

  /** `times` lists, in order, exactly the kept values whose gate lies before the end. */
  ghost predicate Lists(times: seq<int>, at: nat -> int, gate: nat -> int, keep: int -> bool, end: int) {
    && Increasing(times)
    && (forall t :: t in times ==> keep(t) && exists k: nat :: gate(k) < end && at(k) == t)
    && (forall k: nat :: gate(k) < end && keep(at(k)) ==> at(k) in times)
  }

  lemma {:induction false} GatherNext(times: seq<int>, at: nat -> int, keep: int -> bool, n: nat)
    requires Gathered(times, at, keep, n)
    requires forall k: nat :: k < n ==> at(k) < at(n)
    ensures Gathered(if keep(at(n)) then times + [at(n)] else times, at, keep, n + 1)
  {
    var next := if keep(at(n)) then times + [at(n)] else times;
    forall t | t in next
      ensures keep(t) && exists k: nat :: k < n + 1 && at(k) == t
    {
      if t in times {
        var k: nat :| k < n && at(k) == t;
      }
    }
    forall i | 0 <= i < |times|
      ensures times[i] < at(n)
    {
      assert times[i] in times;
      var k: nat :| k < n && at(k) == times[i];
    }
  }

  lemma {:induction false} GatherDone(times: seq<int>, at: nat -> int, gate: nat -> int, keep: int -> bool, n: nat,
      end: int)
    requires Gathered(times, at, keep, n)
    requires forall k: nat :: k < n ==> gate(k) < end
    requires forall k: nat :: k >= n ==> gate(k) >= end
    ensures Lists(times, at, gate, keep, end)
  {
    forall t | t in times
      ensures exists k: nat :: gate(k) < end && at(k) == t
    {
      var k: nat :| k < n && at(k) == t;
    }
  }

  /** An increasing listing is determined by its members. */
  lemma {:induction false} IncreasingUnique(a: seq<int>, b: seq<int>)
    requires Increasing(a) && Increasing(b) && forall t :: t in a <==> t in b
    ensures a == b
  {
    assert |b| > 0 ==> b[0] in b && b[0] in a;
    if a == [] {
    } else {
      var n, m := |a| - 1, |b| - 1;
      assert a[n] in a;
      assert a[n] in b;
      assert b[m] in b;
      TopIs(a, b);
      forall t
        ensures t in a[..n] <==> t in b[..m]
      {
        WithoutTop(a, t);
        WithoutTop(b, t);
      }
      IncreasingUnique(a[..n], b[..m]);
      assert a == a[..n] + [a[n]];
      assert b == b[..m] + [b[m]];
    }
  }

  lemma {:induction false} TopIs(a: seq<int>, b: seq<int>)
    requires Increasing(a) && Increasing(b) && a != [] && b != []
    requires a[|a| - 1] in b && b[|b| - 1] in a
    ensures a[|a| - 1] == b[|b| - 1]
  {
    var i :| 0 <= i < |b| && b[i] == a[|a| - 1];
    var j :| 0 <= j < |a| && a[j] == b[|b| - 1];
    assert b[i] <= b[|b| - 1];
    assert a[j] <= a[|a| - 1];
  }

  lemma {:induction false} WithoutTop(a: seq<int>, t: int)
    requires Increasing(a) && a != []
    ensures t in a[..|a| - 1] <==> t in a && t != a[|a| - 1]
  {
    if t in a && t != a[|a| - 1] {
      var i :| 0 <= i < |a| && a[i] == t;
      assert a[..|a| - 1][i] == t;
    }
  }

  /** The members of a listing that satisfy a condition, in order. */
  function Where(times: seq<int>, keep: int -> bool): (kept: seq<int>)
    ensures forall t :: t in kept <==> t in times && keep(t)
  {
    if times == [] then []
    else Where(times[..|times| - 1], keep) + (if keep(times[|times| - 1]) then [times[|times| - 1]] else [])
  }

  lemma {:induction false} WhereIncreasing(times: seq<int>, keep: int -> bool)
    requires Increasing(times)
    ensures Increasing(Where(times, keep))
  {
    if times == [] {
    } else {
      var n := |times| - 1;
      var front := Where(times[..n], keep);
      WhereIncreasing(times[..n], keep);
      forall x | x in front
        ensures x < times[n]
      {
        var j :| 0 <= j < |times[..n]| && times[..n][j] == x;
        assert times[j] < times[n];
      }
      assert forall i :: 0 <= i < |front| ==> front[i] in front;
    }
  }
}
