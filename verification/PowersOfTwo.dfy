/** Bit masks on unbounded naturals: why masking with a power of two less one is a remainder. */
module PowersOfTwo {
  import opened Basics

  function Pow2(k: nat): (p: nat)
    ensures p >= 1
  {
    if k == 0 then 1 else 2 * Pow2(k - 1)
  }

  /** The bitwise conjunction of two naturals. */
  function And(a: nat, b: nat): nat {
    if a == 0 || b == 0 then 0 else (if a % 2 == 1 && b % 2 == 1 then 1 else 0) + 2 * And(a / 2, b / 2)
  }

  ghost predicate IsPowerOfTwo(n: nat) {
    exists k: nat :: n == Pow2(k)
  }

  lemma HalfMod(x: nat, p: nat)
    requires p >= 1
    ensures x % (2 * p) == x % 2 + 2 * (x / 2 % p)
  {
    var q, r := x / 2 / p, x / 2 % p;
    assert x / 2 == q * p + r;
    assert x == (2 * p) * q + (x % 2 + 2 * r) by {
      assert 2 * (q * p) == (2 * p) * q;
    }
    ModIs(x, 2 * p, q, x % 2 + 2 * r);
  }

  /** Masking with 2^k - 1 is the remainder by 2^k. */
  lemma {:induction false} MaskIsMod(x: nat, k: nat)
    ensures And(x, Pow2(k) - 1) == x % Pow2(k)
    decreases k
  {
    if k > 0 {
      hide And;
      MaskIsMod(x / 2, k - 1);
      AndOnes(x, Pow2(k - 1));
      HalfMod(x, Pow2(k - 1));
    }
  }

  lemma AndOnes(x: nat, p: nat)
    requires p >= 1
    ensures And(x, 2 * p - 1) == x % 2 + 2 * And(x / 2, p - 1)
  {
    assert (2 * p - 1) / 2 == p - 1 && (2 * p - 1) % 2 == 1;
  }

  /** The test n & (n - 1) == 0 on a positive n accepts exactly the powers of two. */
  lemma {:induction false} MaskTest(n: nat)
    requires n > 0
    ensures And(n, n - 1) == 0 <==> IsPowerOfTwo(n)
    decreases n
  {
    hide IsPowerOfTwo;
    if n == 1 {
      OneIsPower();
    } else if n % 2 == 0 {
      MaskTest(n / 2);
      assert (n - 1) / 2 == n / 2 - 1;
      PowerHalves(n);
    } else {
      AndTop(n);
      OddIsNoPower(n);
    }
  }

  lemma OneIsPower()
    ensures IsPowerOfTwo(1)
  {
    assert Pow2(0) == 1;
  }

  lemma PowerHalves(n: nat)
    requires n > 1 && n % 2 == 0
    ensures IsPowerOfTwo(n) <==> IsPowerOfTwo(n / 2)
  {
    if IsPowerOfTwo(n / 2) {
      var k: nat :| n / 2 == Pow2(k);
      assert n == Pow2(k + 1);
    }
    if IsPowerOfTwo(n) {
      var k: nat :| n == Pow2(k);
      assert n / 2 == Pow2(k - 1);
    }
  }

  lemma OddIsNoPower(n: nat)
    requires n > 1 && n % 2 == 1
    ensures !IsPowerOfTwo(n)
  {
    hide Pow2;
    forall k: nat ensures Pow2(k) != n {
      PowerParity(k);
    }
  }

  lemma PowerParity(k: nat)
    ensures Pow2(k) == 1 || Pow2(k) % 2 == 0
  {
    if k > 0 {
      assert Pow2(k) == 2 * Pow2(k - 1);
    }
  }

  lemma AndSelf(n: nat)
    ensures And(n, n) == n
  {}

  lemma AndTop(n: nat)
    requires n % 2 == 1 && n > 1
    ensures And(n, n - 1) == n - 1
  {
    AndSelf(n / 2);
    assert (n - 1) / 2 == n / 2;
  }

  /** Neighbouring counters occupy different places of a ring. */
  lemma RingDistinct(a: int, b: int, c: int)
    requires c > 0 && a < b < a + c
    ensures a % c != b % c
  {
    var q, r, d := a / c, a % c, b - a;
    assert a == c * q + r;
    if r + d < c {
      ModIs(b, c, q, r + d);
    } else {
      assert c * (q + 1) == c * q + c;
      ModIs(b, c, q + 1, r + d - c);
    }
  }

  /** Advancing a place of a ring is advancing its counter. */
  lemma RingNext(a: nat, c: nat)
    requires c > 0
    ensures (a % c + 1) % c == (a + 1) % c
  {
    var q, r := a / c, a % c;
    assert a == c * q + r;
    if r + 1 < c {
      ModIs(a + 1, c, q, r + 1);
      ModIs(r + 1, c, 0, r + 1);
    } else {
      assert c * (q + 1) == c * q + c;
      ModIs(a + 1, c, q + 1, 0);
      ModIs(c, c, 1, 0);
    }
  }

  /** The place of counter t in a ring of c cells. */
  function Place(t: nat, c: nat): (i: nat)
    requires c > 0
    ensures i < c
  {
    t % c
  }

  lemma PlacesDiffer(d: nat, k: nat, c: nat)
    requires c > 0 && d <= k < d + c
    ensures forall t: nat :: d <= t < d + c && t != k ==> Place(t, c) != Place(k, c)
  {
    forall t: nat | d <= t < d + c && t != k ensures Place(t, c) != Place(k, c) {
      if t < k { RingDistinct(t, k, c); } else { RingDistinct(k, t, c); }
    }
  }

  /** The masked successor of a place is the place of the next counter. */
  lemma PlaceNext(t: nat, c: nat)
    requires c > 0 && IsPowerOfTwo(c)
    ensures And(Place(t, c) + 1, c - 1) == Place(t + 1, c)
  {
    var k: nat :| c == Pow2(k);
    MaskIsMod(t % c + 1, k);
    RingNext(t, c);
  }

  /** A masked counter is its place. */
  lemma MaskedPlace(t: nat, c: nat)
    requires c > 0 && IsPowerOfTwo(c)
    ensures And(t, c - 1) == Place(t, c)
  {
    var k: nat :| c == Pow2(k);
    MaskIsMod(t, k);
  }

  lemma SamePlace(t: nat, c: nat)
    requires c > 0
    ensures Place(t + c, c) == Place(t, c)
  {
    ModIs(t + c, c, t / c + 1, t % c);
  }

  /** Going k cells on from a place either stays before the end or wraps once. */
  lemma PlaceAhead(t: nat, k: nat, c: nat)
    requires c > 0 && k <= c
    ensures Place(t + k, c) == if Place(t, c) + k < c then Place(t, c) + k else Place(t, c) + k - c
  {
    var q, r := t / c, t % c;
    if r + k < c {
      ModIs(t + k, c, q, r + k);
    } else {
      assert c * (q + 1) == c * q + c;
      ModIs(t + k, c, q + 1, r + k - c);
    }
  }

  /** Any c counters in a row reach every cell. */
  lemma EveryPlace(t: nat, i: nat, c: nat) returns (u: nat)
    requires c > 0 && i < c
    ensures t <= u < t + c && Place(u, c) == i
  {
    var r := Place(t, c);
    u := if r <= i then t + (i - r) else t + (i + c - r);
    PlaceAhead(t, u - t, c);
  }
}
