/** Small definitions shared by the components. */
module Basics {
  /** A value that may be absent. */
  datatype Option<T> = None | Some(value: T)

  type Byte = bv8

  function Min(a: int, b: int): int { if a <= b then a else b }

  /** Integer division that truncates toward zero. */
  function TruncDiv(a: int, b: int): int
    requires b > 0
  {
    if a >= 0 then a / b else -((-a) / b)
  }

  /** The last n elements, or all of them. */
  function LastN<T>(s: seq<T>, n: nat): seq<T> {
    if |s| <= n then s else s[|s| - n..]
  }

  lemma LastMore<T>(s: seq<T>, x: T, n: nat)
    ensures var kept := LastN(s, n) + [x];
            LastN(s + [x], n) == if |kept| > n then kept[1..] else kept
  {}

  /** A quotient and remainder that fit are the quotient and remainder. */
  lemma ModIs(x: int, m: int, q: int, r: int)
    requires m > 0 && 0 <= r < m && x == m * q + r
    ensures x % m == r && x / m == q
  {
    var q1, r1 := x / m, x % m;
    assert x == m * q1 + r1;
    assert m * (q - q1) == r1 - r;
    assert q - q1 >= 1 ==> m * (q - q1) >= m;
    assert q - q1 <= -1 ==> m * (q - q1) <= -m;
  }

  lemma ProductGrows(p: int, q: int, v: int)
    requires p <= q && v >= 0
    ensures p * v <= q * v
  {
    assert (q - p) * v >= 0;
  }

  lemma DivAtLeast(a: int, v: int, b: int)
    requires v > 0 && b * v <= a
    ensures b <= a / v
  {
    var q := a / v;
    assert a == v * q + a % v && (q + 1) * v == v * q + v;
    if q + 1 <= b {
      ProductGrows(q + 1, b, v);
    }
  }

  lemma DivAtMost(a: int, v: int, b: int)
    requires v > 0 && a <= b * v
    ensures a / v <= b
  {
    var q := a / v;
    assert a == v * q + a % v && (b + 1) * v == b * v + v;
    if b + 1 <= q {
      ProductGrows(b + 1, q, v);
    }
  }
}
