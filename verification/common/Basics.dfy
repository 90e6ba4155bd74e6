/** What all parts share. */
module Basics {

  datatype Option<+T> = None | Some(value: T)

  datatype Result<+T> = Ok(value: T) | Err(message: string)

  function Max(a: int, b: int): (m: int)
    ensures a <= m && b <= m && (m == a || m == b)
  {
    if a < b then b else a
  }

  function Min(a: int, b: int): (m: int)
    ensures m <= a && m <= b && (m == a || m == b)
  {
    if a < b then a else b
  }

  lemma {:induction false} AtLeast(k: int, m: int)
    requires m > 0
    ensures k >= 1 ==> k * m >= m
    ensures k <= -1 ==> k * m <= -m
  {}

  lemma {:induction false} Small(k: int, m: int, x: int)
    requires m > 0 && k * m == x && -m < x < m
    ensures x == 0
  {
    AtLeast(k, m);
  }

  lemma {:induction false} Multiple(k: int, m: int)
    requires m > 0
    ensures k * m % m == 0
  {
    var q, x := k * m / m, k * m % m;
    assert (k - q) * m == x;
    Small(k - q, m, x);
  }

  lemma {:induction false} RestIs(x: int, q: int, m: int, r: int)
    requires 0 <= r < m && x == q * m + r
    ensures x % m == r
  {
    assert x == x / m * m + x % m;
    assert (q - x / m) * m == x % m - r;
    Small(q - x / m, m, x % m - r);
  }

  lemma {:induction false} SameRest(a: int, b: int, m: int)
    requires m > 0
    ensures a % m == b % m <==> (a - b) % m == 0
  {
    var q, r := a / m, b / m;
    var x, y := a % m, b % m;
    assert a == q * m + x && b == r * m + y;
    assert a - b == (q - r) * m + (x - y);
    if x == y {
      Multiple(q - r, m);
    }
    if (a - b) % m == 0 {
      var k := (a - b) / m;
      assert a - b == k * m;
      assert (k - q + r) * m == x - y;
      Small(k - q + r, m, x - y);
    }
  }
}
