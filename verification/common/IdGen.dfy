/** Entity ids and request ids: a clock reading packed together with a shared counter. */
module IdGen {
  import opened Basics

  datatype Kind = Plain | User | Bot

  const SECS_BASE := 1736553600
  const TWO_20 := 0x10_0000
  const TWO_32 := 0x1_0000_0000
  const TWO_52 := 0x10_0000_0000_0000
  const TWO_63 := 0x8000_0000_0000_0000
  const TWO_64 := 0x1_0000_0000_0000_0000

  /** The cast of an unsigned to a signed 64-bit number. */
  function Signed(x: int): int {
    if x < TWO_63 then x else x - TWO_64
  }

  /** 12 bits of cluster id, 32 bits of seconds, 20 bits of counter. */
  function Pack(union: nat, secs: nat, counter: nat): int {
    Signed(union % 4096 * TWO_52 + (secs - SECS_BASE) % TWO_32 * TWO_20 + counter % TWO_20)
  }

  /** How far a call moves the shared counter, and the number it uses. */
  function Width(k: Kind): nat { if k == Plain then 1 else 2 }

  function Taken(inc: nat, k: Kind): nat {
    match k
    case Plain => inc + 1
    case User => if inc % 2 == 0 then inc + 2 else inc + 1
    case Bot => if inc % 2 == 0 then inc + 1 else inc + 2
  }

  class IdSource {
    var inc: nat
    var base: nat
    const union: nat

    constructor (union: nat)
      ensures inc == 0 && base == 0 && this.union == union
    {
      inc, base := 0, 0;
      this.union := union;
    }

    method Next(secs: nat, k: Kind) returns (id: int)
      modifies this
      ensures inc == old(inc) + Width(k) && base >= secs && base >= old(base)
      ensures id == Pack(union, secs, Taken(old(inc), k))
    {
      if base < secs {
        base := secs;
      }
      var mine;
      if k == Plain {
        mine := inc;
        inc := inc + 1;
        mine := mine + 1;
      } else {
        mine := inc;
        inc := inc + 2;
        mine := mine + 2;
        if mine % 2 == 1 && k == User {
          mine := mine - 1;
        } else if mine % 2 == 0 && k == Bot {
          mine := mine - 1;
        }
      }
      id := Signed(union % 4096 * TWO_52 + (secs - SECS_BASE) % TWO_32 * TWO_20 + mine % TWO_20);
    }
  }

  // ---- any mix of concurrent calls ----

  /** Calls in the order in which they moved the shared counter; each read the clock at some
      moment of its own, so the seconds need not be in order. */
  datatype Call = Call(k: Kind, secs: nat)

  function CounterBefore(start: nat, calls: seq<Call>, n: nat): nat
    requires n <= |calls|
  {
    if n == 0 then start else CounterBefore(start, calls, n - 1) + Width(calls[n - 1].k)
  }

  function Number(start: nat, calls: seq<Call>, n: nat): nat
    requires n < |calls|
  {
    Taken(CounterBefore(start, calls, n), calls[n].k)
  }

  function Id(union: nat, start: nat, calls: seq<Call>, n: nat): int
    requires n < |calls|
  {
    Pack(union, calls[n].secs, Number(start, calls, n))
  }

  lemma {:induction false} CountersRise(start: nat, calls: seq<Call>, i: nat, j: nat)
    requires i <= j <= |calls|
    ensures j - i <= CounterBefore(start, calls, j) - CounterBefore(start, calls, i) <= 2 * (j - i)
  {
    if i == j {
    } else {
      CountersRise(start, calls, i, j - 1);
    }
  }

  lemma {:induction false} NumbersRise(start: nat, calls: seq<Call>, i: nat, j: nat)
    requires i < j < |calls|
    ensures 0 < Number(start, calls, j) - Number(start, calls, i) <= 2 * (j - i) + 1
  {
    CountersRise(start, calls, i, j);
    CountersRise(start, calls, i + 1, j);
    assert CounterBefore(start, calls, i + 1) == CounterBefore(start, calls, i) + Width(calls[i].k);
  }

  lemma {:induction false} HighField(hi: int, rest: int)
    requires 0 <= hi < 4096 && 0 <= rest < TWO_52
    ensures 0 <= hi * TWO_52 + rest < TWO_64
    ensures (hi * TWO_52 + rest) / TWO_52 == hi && (hi * TWO_52 + rest) % TWO_52 == rest
  {}

  lemma {:induction false} LowField(mid: int, lo: int)
    requires 0 <= lo < TWO_20
    ensures (mid * TWO_20 + lo) / TWO_20 == mid && (mid * TWO_20 + lo) % TWO_20 == lo
  {}

  lemma {:induction false} Fields(hi: int, mid: int, lo: int)
    requires 0 <= hi < 4096 && 0 <= mid < TWO_32 && 0 <= lo < TWO_20
    ensures var x := hi * TWO_52 + mid * TWO_20 + lo;
            0 <= x < TWO_64 && x / TWO_52 == hi && x % TWO_52 / TWO_20 == mid && x % TWO_20 == lo
  {
    var rest := mid * TWO_20 + lo;
    LowField(mid, lo);
    LowField(hi * TWO_32 + mid, lo);
    HighField(hi, rest);
    assert hi * TWO_52 + rest == (hi * TWO_32 + mid) * TWO_20 + lo;
  }

  /** An id read as an unsigned 64-bit number: 12 bits of cluster, 32 bits of seconds since
      11 January 2025, 20 bits of counter. */
  lemma {:induction false} FieldsReadBack(union: nat, secs: nat, counter: nat)
    ensures var id := Pack(union, secs, counter);
            var x := if id < 0 then id + 18446744073709551616 else id;
            && -9223372036854775808 <= id < 9223372036854775808
            && x / 4503599627370496 == union % 4096
            && x % 4503599627370496 / 1048576 == (secs - 1736553600) % 4294967296
            && x % 1048576 == counter % 1048576
  {
    Fields(union % 4096, (secs - SECS_BASE) % TWO_32, counter % TWO_20);
  }

  /** The number a call uses lies behind the counter it found, within the width it moves it: the next one
      for a plain id, the next even one for a user's, the next odd one for a bot's. */
  lemma {:induction false} NumberTaken(inc: nat, k: Kind)
    ensures inc < Taken(inc, k) <= inc + Width(k)
    ensures Width(k) == if k == Plain then 1 else 2
    ensures k == User ==> Taken(inc, k) % 2 == 0
    ensures k == Bot ==> Taken(inc, k) % 2 == 1
  {}

  /** So equal ids have equal fields. */
  lemma {:induction false} PackEqualIff(u: nat, s: nat, c: nat, v: nat, t: nat, d: nat)
    ensures Pack(u, s, c) == Pack(v, t, d)
      <==> u % 4096 == v % 4096 && (s - t) % TWO_32 == 0 && (c - d) % TWO_20 == 0
  {
    Fields(u % 4096, (s - SECS_BASE) % TWO_32, c % TWO_20);
    Fields(v % 4096, (t - SECS_BASE) % TWO_32, d % TWO_20);
    SameRest(s - SECS_BASE, t - SECS_BASE, TWO_32);
    SameRest(c, d, TWO_20);
  }

  /** Two ids of one cluster are equal exactly when they fall into the same second (of a 32-bit
      clock) and their counters differ by a multiple of 2^20, which is never zero; so no two of
      any 2^19 successive calls are. */
  lemma {:induction false} IdsEqualIff(union: nat, start: nat, calls: seq<Call>, i: nat, j: nat)
    requires i < j < |calls|
    ensures Id(union, start, calls, i) == Id(union, start, calls, j)
      <==> (calls[j].secs - calls[i].secs) % TWO_32 == 0
           && (Number(start, calls, j) - Number(start, calls, i)) % TWO_20 == 0
    ensures Number(start, calls, j) > Number(start, calls, i)
    ensures j - i < TWO_20 / 2 ==> Id(union, start, calls, i) != Id(union, start, calls, j)
  {
    NumbersRise(start, calls, i, j);
    PackEqualIff(union, calls[j].secs, Number(start, calls, j), union, calls[i].secs, Number(start, calls, i));
  }

  lemma {:induction false} LowBit(x: int)
    ensures x % TWO_20 % 2 == x % 2
  {
    var low, half := x % TWO_20, x / TWO_20 * (TWO_20 / 2);
    assert x - low == half * 2;
    Multiple(half, 2);
    SameRest(x, low, 2);
  }

  lemma {:induction false} SignedKeeps(x: nat)
    requires x < TWO_64
    ensures Signed(x) >= 0 <==> x / TWO_52 < 2048
    ensures Signed(x) % 2 == x % 2
  {}

  lemma {:induction false} PackSign(u: nat, s: nat, c: nat)
    ensures Pack(u, s, c) >= 0 <==> u % 4096 < 2048
    ensures Pack(u, s, c) % 2 == c % 2
  {
    hide Signed;
    var hi, mid, lo := u % 4096, (s - SECS_BASE) % TWO_32, c % TWO_20;
    var x := hi * TWO_52 + mid * TWO_20 + lo;
    Fields(hi, mid, lo);
    SignedKeeps(x);
    LowBit(x);
    LowBit(c);
  }

  lemma {:induction false} PackOrdered(u: nat, s: nat, c: nat, t: nat, d: nat)
    requires SECS_BASE <= s < t < SECS_BASE + TWO_32
    ensures Pack(u, s, c) < Pack(u, t, d)
  {
    assert (s - SECS_BASE) % TWO_32 == s - SECS_BASE && (t - SECS_BASE) % TWO_32 == t - SECS_BASE;
    assert (t - SECS_BASE) * TWO_20 >= (s - SECS_BASE) * TWO_20 + TWO_20;
    var hi := u % 4096 * TWO_52;
    assert (t - SECS_BASE) * TWO_20 + d % TWO_20 < TWO_52;
  }

  /** Bot ids are odd, user ids even, and within the clock's 136 years a later second gives a
      greater id; ids are non-negative exactly below cluster 2048. */
  lemma {:induction false} IdsOrdered(union: nat, start: nat, calls: seq<Call>, i: nat, j: nat)
    requires i < |calls| && j < |calls|
    ensures calls[i].k == Bot ==> Id(union, start, calls, i) % 2 == 1
    ensures calls[i].k == User ==> Id(union, start, calls, i) % 2 == 0
    ensures Id(union, start, calls, i) >= 0 <==> union % 4096 < 2048
    ensures SECS_BASE <= calls[i].secs < calls[j].secs < SECS_BASE + TWO_32 ==>
      Id(union, start, calls, i) < Id(union, start, calls, j)
  {
    hide Pack, CounterBefore;
    var s, t, a, b := calls[i].secs, calls[j].secs, Number(start, calls, i), Number(start, calls, j);
    PackSign(union, s, a);
    if SECS_BASE <= s < t < SECS_BASE + TWO_32 {
      PackOrdered(union, s, a, t, b);
    }
  }

  lemma {:induction false} LowPart(c: nat, d: nat)
    requires c < d < c + TWO_20
    ensures c % TWO_20 < d % TWO_20 <==> c / TWO_20 == d / TWO_20
  {
    assert c == c / TWO_20 * TWO_20 + c % TWO_20;
    assert d == d / TWO_20 * TWO_20 + d % TWO_20;
    assert c / TWO_20 <= d / TWO_20 <= c / TWO_20 + 1;
  }

  lemma {:induction false} SameSecondPack(u: nat, s: nat, c: nat, d: nat)
    ensures Pack(u, s, c) < Pack(u, s, d) <==> c % TWO_20 < d % TWO_20
  {
    Fields(u % 4096, (s - SECS_BASE) % TWO_32, c % TWO_20);
    Fields(u % 4096, (s - SECS_BASE) % TWO_32, d % TWO_20);
    assert u % 4096 < 2048 ==> u % 4096 * TWO_52 + TWO_52 <= TWO_63;
  }

  /** Within one second ids follow the order of the calls exactly as long as the counter does
      not pass a multiple of 2^20 in between; there the order turns round. */
  lemma {:induction false} CallOrderIff(union: nat, start: nat, calls: seq<Call>, i: nat, j: nat)
    requires i < j < |calls| && j - i < TWO_20 / 2 && calls[i].secs == calls[j].secs
    ensures Id(union, start, calls, i) < Id(union, start, calls, j)
      <==> Number(start, calls, i) / TWO_20 == Number(start, calls, j) / TWO_20
  {
    hide Pack, Number;
    NumbersRise(start, calls, i, j);
    LowPart(Number(start, calls, i), Number(start, calls, j));
    SameSecondPack(union, calls[i].secs, Number(start, calls, i), Number(start, calls, j));
  }

  // ---- request ids ----

  const RID_LIMIT := 1000000

  /** A caller takes the counter's value and moves it on; a caller that took one beyond the limit
      sets the counter back in a later step of its own. */
  datatype RidStep = Fetch(caller: int) | Reset(caller: int)

  /** The counter, and the callers that have still to set it back. */
  datatype RidState = RidState(counter: nat, owing: set<int>)

  predicate MayStep(s: RidState, a: RidStep) {
    match a
    case Fetch(k) => k !in s.owing
    case Reset(k) => k in s.owing
  }

  function RidNext(s: RidState, a: RidStep): RidState {
    match a
    case Fetch(k) => RidState(s.counter + 1, if s.counter > RID_LIMIT then s.owing + {k} else s.owing)
    case Reset(k) => RidState(1, s.owing - {k})
  }

  /** A fetch is open to any caller that has no reset to make and owes one when the counter was beyond a
      million; a reset sets the counter to 1. */
  lemma {:induction false} RequestSteps(s: RidState, k: int)
    ensures MayStep(s, Fetch(k)) <==> k !in s.owing
    ensures MayStep(s, Reset(k)) <==> k in s.owing
    ensures RidNext(s, Fetch(k)) == RidState(s.counter + 1, s.owing + if s.counter > 1000000 then {k} else {})
    ensures RidNext(s, Reset(k)) == RidState(1, s.owing - {k})
  {}

  function RidAfter(start: nat, steps: seq<RidStep>): RidState {
    if steps == [] then RidState(start, {}) else RidNext(RidAfter(start, steps[..|steps| - 1]), steps[|steps| - 1])
  }

  /** Any interleaving of callers from a counter nobody has to set back. */
  ghost predicate RidRun(start: nat, steps: seq<RidStep>) {
    start <= RID_LIMIT + 1 && forall n | 0 <= n < |steps| :: MayStep(RidAfter(start, steps[..n]), steps[n])
  }

  /** The number that the fetch at step n takes. */
  function Taking(start: nat, steps: seq<RidStep>, n: nat): nat
    requires n < |steps|
  {
    RidAfter(start, steps[..n]).counter
  }

  /** How many fetches lie between step n and the last reset before it, and what the counter was at
      that reset: the start's value when there is none. */
  function SinceReset(steps: seq<RidStep>, n: nat): nat
    requires n <= |steps|
  {
    if n == 0 || steps[n - 1].Reset? then 0 else SinceReset(steps, n - 1) + 1
  }

  function ResetValue(start: nat, steps: seq<RidStep>, n: nat): nat
    requires n <= |steps|
  {
    if n == 0 then start else if steps[n - 1].Reset? then 1 else ResetValue(start, steps, n - 1)
  }

  lemma {:induction false} CounterIs(start: nat, steps: seq<RidStep>, n: nat)
    requires n <= |steps|
    ensures RidAfter(start, steps[..n]).counter == ResetValue(start, steps, n) + SinceReset(steps, n)
  {
    if n == 0 {
    } else {
      CounterIs(start, steps, n - 1);
      assert steps[..n][..n - 1] == steps[..n - 1];
    }
  }

  lemma {:induction false} RisesWithoutReset(start: nat, steps: seq<RidStep>, i: nat, j: nat)
    requires i <= j <= |steps| && forall n | i <= n < j :: steps[n].Fetch?
    ensures RidAfter(start, steps[..j]).counter == RidAfter(start, steps[..i]).counter + (j - i)
  {
    if i == j {
    } else {
      RisesWithoutReset(start, steps, i, j - 1);
      assert steps[..j][..j - 1] == steps[..j - 1];
    }
  }

  /** Two fetches take the same number exactly when they lie equally far behind their own last
      resets, the start counting as a reset to its value; then a reset lies between them. */
  lemma {:induction false} TakeSameIff(start: nat, steps: seq<RidStep>, i: nat, j: nat)
    requires i < j < |steps| && steps[i].Fetch? && steps[j].Fetch?
    ensures Taking(start, steps, i) == Taking(start, steps, j) <==>
            ResetValue(start, steps, i) + SinceReset(steps, i) == ResetValue(start, steps, j) + SinceReset(steps, j)
    ensures Taking(start, steps, i) == Taking(start, steps, j) ==> exists n :: i < n < j && steps[n].Reset?
  {
    CounterIs(start, steps, i);
    CounterIs(start, steps, j);
    if forall n | i < n < j :: steps[n].Fetch? {
      assert forall n | i <= n < j :: steps[n].Fetch?;
      RisesWithoutReset(start, steps, i, j);
    }
  }

  /** Request ids carry the second and 20 bits of the number: two of them are equal exactly when they
      share the second and their distances behind their last resets agree up to 2^20. */
  lemma {:induction false} RequestIdsEqualIff(start: nat, steps: seq<RidStep>, i: nat, j: nat, s: nat, t: nat)
    requires i < |steps| && j < |steps|
    ensures Pack(0, s, Taking(start, steps, i)) == Pack(0, t, Taking(start, steps, j)) <==>
            (s - t) % TWO_32 == 0
            && (ResetValue(start, steps, i) + SinceReset(steps, i)
                - (ResetValue(start, steps, j) + SinceReset(steps, j))) % TWO_20 == 0
  {
    CounterIs(start, steps, i);
    CounterIs(start, steps, j);
    PackEqualIff(0, s, Taking(start, steps, i), 0, t, Taking(start, steps, j));
  }

  /** A counter is only set back by a caller that saw it beyond the limit, and each time it was seen
      so; without overlap the numbers come one after the other. */
  function Rid(start: nat, n: nat): nat {
    if n == 0 then start else AfterRid(Rid(start, n - 1))
  }

  function AfterRid(base: nat): nat {
    if base > RID_LIMIT then 1 else base + 1
  }

  class RidSource {
    var base: nat

    constructor ()
      ensures base == 0
    {
      base := 0;
    }

    /** One request on its own. */
    method NextRid(secs: nat) returns (id: int)
      modifies this
      ensures id == Pack(0, secs, old(base)) && base == AfterRid(old(base))
    {
      var mine := base;
      base := base + 1;
      if mine > RID_LIMIT {
        base := 1;
      }
      id := (secs - SECS_BASE) % TWO_32 * TWO_20 + mine % TWO_20;
    }
  }

  /** Calls one after another: each fetch is followed by the reset it owes, and nothing else. */
  function OneByOne(start: nat, n: nat): seq<RidStep> {
    if n == 0 then []
    else OneByOne(start, n - 1) + [Fetch(0)] + (if Rid(start, n - 1) > RID_LIMIT then [Reset(0)] else [])
  }

  lemma {:induction false} OneByOneIs(start: nat, n: nat)
    requires start <= RID_LIMIT + 1
    ensures RidRun(start, OneByOne(start, n))
    ensures RidAfter(start, OneByOne(start, n)) == RidState(Rid(start, n), {})
  {
    if n == 0 {
    } else {
      OneByOneIs(start, n - 1);
      var before := OneByOne(start, n - 1);
      RunThen(start, before, Fetch(0));
      var fetched := before + [Fetch(0)];
      if Rid(start, n - 1) > RID_LIMIT {
        RunThen(start, fetched, Reset(0));
      } else {
        assert OneByOne(start, n) == fetched;
      }
    }
  }

  lemma {:induction false} RunThen(start: nat, steps: seq<RidStep>, a: RidStep)
    requires RidRun(start, steps) && MayStep(RidAfter(start, steps), a)
    ensures RidRun(start, steps + [a]) && RidAfter(start, steps + [a]) == RidNext(RidAfter(start, steps), a)
  {
    var longer := steps + [a];
    assert longer[..|steps|] == steps;
    forall n | 0 <= n < |longer| ensures MayStep(RidAfter(start, longer[..n]), longer[n]) {
      if n < |steps| {
        assert longer[..n] == steps[..n];
      }
    }
  }

  lemma {:induction false} RidInRange(start: nat, n: nat)
    requires start <= RID_LIMIT + 1
    ensures Rid(start, n) <= RID_LIMIT + 1
    ensures n > 0 ==> Rid(start, n) >= 1
  {
    if n == 0 {
    } else {
      RidInRange(start, n - 1);
    }
  }

  /** From 1 on the values go round a cycle of RID_LIMIT + 1. */
  lemma {:induction false} RidCycles(start: nat, i: nat, d: nat)
    requires start <= RID_LIMIT + 1 && Rid(start, i) >= 1
    ensures Rid(start, i + d) == (Rid(start, i) - 1 + d) % (RID_LIMIT + 1) + 1
  {
    RidInRange(start, i);
    if d == 0 {
    } else {
      RidCycles(start, i, d - 1);
      RidInRange(start, i + d - 1);
      var a := Rid(start, i) - 1 + d - 1;
      NextRest(a, RID_LIMIT + 1);
    }
  }

  lemma {:induction false} NextRest(a: nat, m: int)
    requires m > 1
    ensures (a + 1) % m == if a % m == m - 1 then 0 else a % m + 1
  {
    var q := a / m;
    assert a == q * m + a % m;
    if a % m == m - 1 {
      assert a + 1 == (q + 1) * m + 0;
      RestIs(a + 1, q + 1, m, 0);
    } else {
      RestIs(a + 1, q, m, a % m + 1);
    }
  }

  /** Requests that do not overlap repeat a number exactly every 1000001 calls; the 0 that a
      fresh process begins with never comes back. */
  lemma {:induction false} RidRepeatsIff(start: nat, i: nat, j: nat)
    requires start <= 1000001 && i < j
    ensures Rid(start, i) == Rid(start, j) <==> Rid(start, i) != 0 && (j - i) % 1000001 == 0
  {
    RidInRange(start, i);
    RidInRange(start, j);
    if Rid(start, i) >= 1 {
      RidCycles(start, i, j - i);
      var a := Rid(start, i) - 1;
      assert a % (RID_LIMIT + 1) == a;
      SameRest(a + (j - i), a, RID_LIMIT + 1);
    }
  }

  /** Overlapping ones repeat at once: two callers pass the limit together, and between their resets
      a third takes the number that a fourth takes after them. */
  lemma {:induction false} OverlappingResetsRepeat(start: nat, steps: seq<RidStep>)
    requires start == RID_LIMIT + 1
    requires steps == [Fetch(1), Fetch(2), Reset(1), Fetch(3), Reset(2), Fetch(4)]
    ensures RidRun(start, steps) && Taking(start, steps, 3) == Taking(start, steps, 5) == 1
  {
    NoSteps(start);
    hide RidRun, RidAfter;
    var both := [Fetch(1)] + [Fetch(2)];
    RunThen(start, [], Fetch(1));
    assert [] + [Fetch(1)] == [Fetch(1)];
    RunThen(start, [Fetch(1)], Fetch(2));
    assert RidAfter(start, both) == RidState(start + 2, {1, 2});
    RunThen(start, both, Reset(1));
    RunThen(start, both + [Reset(1)], Fetch(3));
    RunThen(start, both + [Reset(1)] + [Fetch(3)], Reset(2));
    RunThen(start, both + [Reset(1)] + [Fetch(3)] + [Reset(2)], Fetch(4));
    assert steps == both + [Reset(1)] + [Fetch(3)] + [Reset(2)] + [Fetch(4)];
    assert steps[..3] == both + [Reset(1)];
    assert steps[..5] == both + [Reset(1)] + [Fetch(3)] + [Reset(2)];
  }

  lemma {:induction false} NoSteps(start: nat)
    requires start <= RID_LIMIT + 1
    ensures RidRun(start, []) && RidAfter(start, []) == RidState(start, {})
  {}
}
