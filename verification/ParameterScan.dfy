/** The parameter grid: an odometer whose last wheel turns fastest visits the Cartesian product once each,
    in lexicographic order. */
module ParameterScans {
  import opened Basics

  type Range = seq<real>

  function Product(sizes: seq<nat>): nat
    decreases |sizes|
  {
    if sizes == [] then 1 else Product(sizes[..|sizes| - 1]) * sizes[|sizes| - 1]
  }

  ghost predicate AllPositive(sizes: seq<nat>) {
    forall i :: 0 <= i < |sizes| ==> sizes[i] > 0
  }

  /** The wheels after k turns of the last one. */
  function Digits(sizes: seq<nat>, k: nat): (d: seq<nat>)
    requires AllPositive(sizes)
    ensures |d| == |sizes|
    decreases |sizes|
  {
    if sizes == [] then []
    else
      var n := |sizes| - 1;
      Digits(sizes[..n], k / sizes[n]) + [k % sizes[n]]
  }

  /** The turns that a position of the wheels stands for. */
  function Number(sizes: seq<nat>, d: seq<nat>): nat
    requires |d| == |sizes|
    decreases |sizes|
  {
    if sizes == [] then 0
    else
      var n := |sizes| - 1;
      Number(sizes[..n], d[..n]) * sizes[n] + d[n]
  }

  ghost predicate InRange(sizes: seq<nat>, d: seq<nat>) {
    |d| == |sizes| && forall i :: 0 <= i < |d| ==> d[i] < sizes[i]
  }

  /** One turn: the last wheel that is not at its end advances, those after it go back to zero. */
  function Turn(sizes: seq<nat>, d: seq<nat>): (r: seq<nat>)
    requires |d| == |sizes|
    ensures |r| == |d|
    decreases |sizes|
  {
    if sizes == [] then []
    else
      var n := |sizes| - 1;
      if d[n] + 1 < sizes[n] then d[..n] + [d[n] + 1] else Turn(sizes[..n], d[..n]) + [0]
  }

  // ----- Arithmetic

  lemma DivModIs(k: nat, s: nat, q: nat, r: nat)
    requires s > 0 && r < s && k == q * s + r
    ensures k / s == q && k % s == r
  {
    assert q * s == s * q;
    ModIs(k, s, q, r);
  }

  lemma AtLeastOnce(x: int, s: nat)
    requires x >= 1
    ensures x * s >= s
  {
    assert (x - 1) * s >= 0;
  }

  lemma NextDivMod(k: nat, s: nat)
    requires s > 0
    ensures k % s + 1 < s ==> (k + 1) / s == k / s && (k + 1) % s == k % s + 1
    ensures k % s + 1 >= s ==> (k + 1) / s == k / s + 1 && (k + 1) % s == 0
  {
    var q, r := k / s, k % s;
    assert k == s * q + r;
    if r + 1 < s {
      DivModIs(k + 1, s, q, r + 1);
    } else {
      assert (q + 1) * s == s * q + s;
      DivModIs(k + 1, s, q + 1, 0);
    }
  }

  // ----- The odometer counts

  lemma {:induction false} TurnAdvances(sizes: seq<nat>, k: nat)
    requires AllPositive(sizes)
    ensures Turn(sizes, Digits(sizes, k)) == Digits(sizes, k + 1)
    decreases |sizes|
  {
    if sizes != [] {
      var n := |sizes| - 1;
      NextDivMod(k, sizes[n]);
      if k % sizes[n] + 1 >= sizes[n] {
        TurnAdvances(sizes[..n], k / sizes[n]);
      }
      assert Digits(sizes, k)[..n] == Digits(sizes[..n], k / sizes[n]);
    }
  }

  lemma {:induction false} ZeroDigits(sizes: seq<nat>)
    requires AllPositive(sizes)
    ensures Digits(sizes, 0) == seq(|sizes|, _ => 0)
    decreases |sizes|
  {
    if sizes != [] {
      var n := |sizes| - 1;
      DivModIs(0, sizes[n], 0, 0);
      ZeroDigits(sizes[..n]);
    }
  }

  /** Reading the wheels off gives the number of turns, for every number below the product. */
  lemma {:induction false} NumberOfDigits(sizes: seq<nat>, k: nat)
    requires AllPositive(sizes) && k < Product(sizes)
    ensures InRange(sizes, Digits(sizes, k)) && Number(sizes, Digits(sizes, k)) == k
    decreases |sizes|
  {
    if sizes == [] {
    } else {
      hide Product, AllPositive, Digits, Quotient, Remainder, Number, InRange;
      var n := |sizes| - 1;
      DigitsLast(sizes, k);
      QuotientBelow(k, Product(sizes[..n]), sizes[n]);
      NumberOfDigits(sizes[..n], Quotient(k, sizes[n]));
      NumberMore(sizes[..n], Digits(sizes[..n], Quotient(k, sizes[n])), sizes[n], Remainder(k, sizes[n]));
      assert sizes[..n] + [sizes[n]] == sizes;
    }
  }

  lemma NumberMore(sizes: seq<nat>, d: seq<nat>, s: nat, r: nat)
    requires InRange(sizes, d) && r < s
    ensures InRange(sizes + [s], d + [r]) && Number(sizes + [s], d + [r]) == Number(sizes, d) * s + r
  {
    assert (sizes + [s])[..|sizes|] == sizes && (d + [r])[..|d|] == d;
  }

  lemma QuotientBelow(k: nat, p: nat, s: nat)
    requires s > 0 && k < p * s
    ensures Quotient(k, s) < p && Quotient(k, s) * s + Remainder(k, s) == k
  {
    var q := k / s;
    assert k == s * q + k % s && s * q == q * s;
    assert s * (q - p) == s * q - p * s;
    assert q - p >= 0 ==> s * (q - p) >= 0;
  }

  /** Every position of the wheels is reached, after the number of turns it stands for. */
  lemma {:induction false} DigitsOfNumber(sizes: seq<nat>, d: seq<nat>)
    requires AllPositive(sizes) && InRange(sizes, d)
    ensures Number(sizes, d) < Product(sizes) && Digits(sizes, Number(sizes, d)) == d
    decreases |sizes|
  {
    if sizes != [] {
      var n := |sizes| - 1;
      var s, m := sizes[n], Number(sizes[..n], d[..n]);
      DigitsOfNumber(sizes[..n], d[..n]);
      DivModIs(m * s + d[n], s, m, d[n]);
      ProductAbove(m, Product(sizes[..n]), s, d[n]);
      assert d == d[..n] + [d[n]];
    }
  }

  lemma ProductAbove(m: nat, p: nat, s: nat, r: nat)
    requires m < p && r < s
    ensures m * s + r < p * s
  {
    AtLeastOnce(p - m, s);
    assert (p - m) * s == p * s - m * s;
  }

  /** Every position of the wheels comes up exactly once. */
  lemma ExactlyOnce(sizes: seq<nat>, d: seq<nat>)
    requires AllPositive(sizes) && InRange(sizes, d)
    ensures Number(sizes, d) < Product(sizes) && Digits(sizes, Number(sizes, d)) == d
    ensures forall k: nat :: k < Product(sizes) && Digits(sizes, k) == d ==> k == Number(sizes, d)
  {
    hide Digits, Number, Product, InRange;
    DigitsOfNumber(sizes, d);
    forall k: nat | k < Product(sizes) && Digits(sizes, k) == d ensures k == Number(sizes, d) {
      NumberOfDigits(sizes, k);
    }
  }

  // ----- Order and the closed form

  /** d comes before e: at the first wheel where they differ it is lower. */
  ghost predicate Precedes(d: seq<nat>, e: seq<nat>) {
    |d| == |e| && exists i :: 0 <= i < |d| && d[..i] == e[..i] && d[i] < e[i]
  }

  /** The positions come in lexicographic order. */
  function Quotient(k: nat, s: nat): nat
    requires s > 0
  {
    k / s
  }

  function Remainder(k: nat, s: nat): (r: nat)
    requires s > 0
    ensures r < s
  {
    k % s
  }

  lemma DigitsLast(sizes: seq<nat>, k: nat)
    requires AllPositive(sizes) && sizes != []
    ensures var n := |sizes| - 1;
            && AllPositive(sizes[..n]) && sizes[n] > 0
            && Digits(sizes, k) == Digits(sizes[..n], Quotient(k, sizes[n])) + [Remainder(k, sizes[n])]
            && Product(sizes) == Product(sizes[..n]) * sizes[n]
  {}

  lemma PrecedesLater(d: seq<nat>, e: seq<nat>, x: nat, y: nat)
    requires Precedes(d, e)
    ensures Precedes(d + [x], e + [y])
  {
    var i :| 0 <= i < |d| && d[..i] == e[..i] && d[i] < e[i];
    assert (d + [x])[..i] == d[..i] && (e + [y])[..i] == e[..i];
  }

  lemma PrecedesLast(d: seq<nat>, x: nat, y: nat)
    requires x < y
    ensures Precedes(d + [x], d + [y])
  {
    assert (d + [x])[..|d|] == (d + [y])[..|d|];
  }

  lemma {:induction false} Lexicographic(sizes: seq<nat>, j: nat, k: nat)
    requires AllPositive(sizes) && j < k < Product(sizes)
    ensures Precedes(Digits(sizes, j), Digits(sizes, k))
    decreases |sizes|
  {
    NonEmptySizes(sizes, k);
    hide Digits, Product, Precedes, AllPositive, Quotient, Remainder;
    var n := |sizes| - 1;
    DigitsLast(sizes, j);
    DigitsLast(sizes, k);
    var q, p := Quotient(j, sizes[n]), Quotient(k, sizes[n]);
    QuotientOrder(j, k, sizes[n]);
    if q == p {
      PrecedesLast(Digits(sizes[..n], q), Remainder(j, sizes[n]), Remainder(k, sizes[n]));
    } else {
      QuotientBelow(k, Product(sizes[..n]), sizes[n]);
      Lexicographic(sizes[..n], q, p);
      PrecedesLater(Digits(sizes[..n], q), Digits(sizes[..n], p), Remainder(j, sizes[n]), Remainder(k, sizes[n]));
    }
  }

  lemma NonEmptySizes(sizes: seq<nat>, k: nat)
    requires 0 < k < Product(sizes)
    ensures sizes != []
  {}

  lemma QuotientOrder(j: nat, k: nat, s: nat)
    requires s > 0 && j < k
    ensures Quotient(j, s) <= Quotient(k, s)
    ensures Quotient(j, s) == Quotient(k, s) ==> Remainder(j, s) < Remainder(k, s)
  {
    var q, p := j / s, k / s;
    assert j == s * q + j % s && k == s * p + k % s;
    assert s * (q - p) == s * q - s * p;
    assert q - p >= 1 ==> s * (q - p) >= s;
  }

  lemma {:induction false} ProductTail(sizes: seq<nat>, i: nat)
    requires i < |sizes|
    ensures Product(sizes[i..]) == Product(sizes[i..|sizes| - 1]) * sizes[|sizes| - 1]
  {
    assert sizes[i..][..|sizes[i..]| - 1] == sizes[i..|sizes| - 1];
  }

  lemma ProductPositive(sizes: seq<nat>)
    requires AllPositive(sizes)
    ensures Product(sizes) > 0
    decreases |sizes|
  {
    if sizes != [] {
      ProductPositive(sizes[..|sizes| - 1]);
      assert Product(sizes[..|sizes| - 1]) * sizes[|sizes| - 1] >= 1;
    }
  }

  /** Digit i of combination k is k over the product of the later sizes, modulo its own size. */
  lemma {:induction false} DigitFormula(sizes: seq<nat>, k: nat, i: nat)
    requires AllPositive(sizes) && i < |sizes|
    ensures Product(sizes[i + 1..]) > 0 && Digits(sizes, k)[i] == k / Product(sizes[i + 1..]) % sizes[i]
    decreases |sizes|
  {
    var n := |sizes| - 1;
    ProductPositive(sizes[i + 1..]);
    if i == n {
      assert sizes[i + 1..] == [];
      assert k / 1 == k;
    } else {
      DigitFormula(sizes[..n], k / sizes[n], i);
      assert sizes[..n][i + 1..] == sizes[i + 1..n];
      ProductTail(sizes, i + 1);
      DivTwice(k, sizes[n], Product(sizes[i + 1..n]));
    }
  }

  lemma DivTwice(k: nat, a: nat, b: nat)
    requires a > 0 && b > 0
    ensures b * a > 0 && k / a / b == k / (b * a)
  {
    var q := k / a;
    var p := q / b;
    var r := k % a + a * (q % b);
    assert k == a * q + k % a && q == b * p + q % b;
    assert a * (b * p + q % b) == a * (b * p) + a * (q % b);
    assert a * (b * p) == p * (b * a);
    RemainderBelow(k % a, q % b, a, b);
    DivModIs(k, b * a, p, r);
  }

  lemma RemainderBelow(r: nat, t: nat, a: nat, b: nat)
    requires r < a && t < b
    ensures b * a > 0 && r + a * t < b * a
  {
    AtLeastOnce(b - t, a);
    AtLeastOnce(b, a);
    assert (b - t) * a == b * a - a * t;
  }

  // ----- The scan

  function Sizes(ranges: seq<Range>): (s: seq<nat>)
    ensures |s| == |ranges| && forall i :: 0 <= i < |s| ==> s[i] == |ranges[i]|
  {
    seq(|ranges|, i requires 0 <= i < |ranges| => |ranges[i]|)
  }

  /** The parameters of a position; a repeated name takes its last value. */
  function Assignment(names: seq<string>, ranges: seq<Range>, d: seq<nat>): map<string, real>
    requires |names| == |ranges| == |d| && InRange(Sizes(ranges), d)
    decreases |names|
  {
    if names == [] then map[]
    else
      var n := |names| - 1;
      assert InRange(Sizes(ranges[..n]), d[..n]);
      Assignment(names[..n], ranges[..n], d[..n])[names[n] := ranges[n][d[n]]]
  }

  /** Each position gives each name the value of the last wheel that carries it. */
  lemma {:induction false} AssignmentGives(names: seq<string>, ranges: seq<Range>, d: seq<nat>, i: nat)
    requires |names| == |ranges| == |d| && InRange(Sizes(ranges), d) && i < |names|
    requires forall j :: i < j < |names| ==> names[j] != names[i]
    ensures names[i] in Assignment(names, ranges, d) && Assignment(names, ranges, d)[names[i]] == ranges[i][d[i]]
    decreases |names|
  {
    var n := |names| - 1;
    assert InRange(Sizes(ranges[..n]), d[..n]);
    if i < n {
      AssignmentGives(names[..n], ranges[..n], d[..n], i);
    }
  }

  /** An assignment has the given names and no others. */
  lemma {:induction false} AssignmentNames(names: seq<string>, ranges: seq<Range>, d: seq<nat>, name: string)
    requires |names| == |ranges| == |d| && InRange(Sizes(ranges), d)
    ensures name in Assignment(names, ranges, d) <==> name in names
    decreases |names|
  {
    if names != [] {
      var n := |names| - 1;
      assert InRange(Sizes(ranges[..n]), d[..n]);
      AssignmentNames(names[..n], ranges[..n], d[..n], name);
      assert names == names[..n] + [names[n]];
    }
  }

  class ParameterScan {
    var names: seq<string>
    var ranges: seq<Range>

    ghost predicate Valid()
      reads this
    {
      |names| == |ranges| && AllPositive(Sizes(ranges))
    }

    constructor ()
      ensures Valid() && names == [] && ranges == []
    {
      names, ranges := [], [];
    }

    method AddRange(name: string, values: Range)
      requires Valid() && values != []
      modifies this
      ensures Valid() && names == old(names) + [name] && ranges == old(ranges) + [values]
    {
      names := names + [name];
      ranges := ranges + [values];
    }

    function CountOf(): nat
      reads this
    {
      if ranges == [] then 0 else Product(Sizes(ranges))
    }

    method CombinationCount() returns (n: nat)
      ensures n == CountOf()
    {
      if ranges == [] { return 0; }
      n := 1;
      var sizes := Sizes(ranges);
      assert sizes[..|ranges|] == sizes;
      for i := 0 to |ranges|
        invariant n == Product(sizes[..i])
      {
        assert sizes[..i + 1][..i] == sizes[..i];
        n := n * |ranges[i]|;
      }
    }

    /** Combination k is the k-th position of the wheels. */
    method Combinations() returns (result: seq<map<string, real>>)
      requires Valid()
      ensures |result| == CountOf()
      ensures forall k: nat :: k < |result| ==>
                && InRange(Sizes(ranges), Digits(Sizes(ranges), k))
                && result[k] == Assignment(names, ranges, Digits(Sizes(ranges), k))
    {
      hide Digits, Product, Assignment, AllPositive, InRange, Turn;
      result := [];
      var total := CombinationCount();
      if total == 0 { return; }
      ghost var sizes := Sizes(ranges);
      var idx := seq(|names|, _ => 0);
      ZeroDigits(sizes);
      for combo := 0 to total
        invariant |result| == combo && idx == Digits(sizes, combo)
        invariant forall k: nat :: k < combo ==>
                    InRange(sizes, Digits(sizes, k)) && result[k] == Assignment(names, ranges, Digits(sizes, k))
      {
        NumberOfDigits(sizes, combo);
        var params := Assign(idx);
        result := result + [params];
        TurnAdvances(sizes, combo);
        idx := TurnWheels(idx);
      }
    }

    method Assign(idx: seq<nat>) returns (params: map<string, real>)
      requires |names| == |ranges| == |idx| && InRange(Sizes(ranges), idx)
      ensures params == Assignment(names, ranges, idx)
    {
      params := map[];
      for i := 0 to |names|
        invariant InRange(Sizes(ranges[..i]), idx[..i]) && params == Assignment(names[..i], ranges[..i], idx[..i])
      {
        assert names[..i + 1][..i] == names[..i] && ranges[..i + 1][..i] == ranges[..i] && idx[..i + 1][..i] == idx[..i];
        params := params[names[i] := ranges[i][idx[i]]];
      }
      assert names[..|names|] == names && ranges[..|names|] == ranges && idx[..|names|] == idx;
    }

    /** The carry loop: from the last wheel down, until one does not wrap. */
    method TurnWheels(start: seq<nat>) returns (idx: seq<nat>)
      requires |start| == |ranges|
      ensures idx == Turn(Sizes(ranges), start)
    {
      ghost var sizes := Sizes(ranges);
      idx := start;
      var d := |ranges|;
      assert start[..d] == start && sizes[..d] == sizes;
      assert Turn(sizes, start) + Zeros(0) == Turn(sizes, start);
      while d > 0
        invariant 0 <= d <= |ranges| && |idx| == |ranges|
        invariant idx[..d] == start[..d] && idx[d..] == Zeros(|ranges| - d)
        invariant Turn(sizes, start) == Turn(sizes[..d], start[..d]) + Zeros(|ranges| - d)
      {
        ghost var e := d - 1;
        assert sizes[..d][..e] == sizes[..e] && start[..d][..e] == start[..e];
        d := d - 1;
        if idx[d] + 1 < |ranges[d]| {
          idx := idx[d := idx[d] + 1];
          assert idx == (start[..d] + [start[d] + 1]) + Zeros(|ranges| - d - 1);
          return;
        }
        idx := idx[d := 0];
        assert (Turn(sizes[..d], start[..d]) + [0]) + Zeros(|ranges| - d - 1) == Turn(sizes[..d], start[..d]) + Zeros(|ranges| - d);
      }
      assert idx == idx[0..];
      assert [] + Zeros(|ranges|) == Zeros(|ranges|);
    }
  }

  function Zeros(n: nat): (z: seq<nat>)
    ensures |z| == n && forall i :: 0 <= i < n ==> z[i] == 0
  {
    seq(n, _ => 0)
  }
}
