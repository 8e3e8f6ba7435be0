/** The largest fall from a peak, found in one pass, against its definition over all pairs of points. */
module Performance {
  /** The highest value so far. */
  function Peak(nav: seq<real>): (p: real)
    requires nav != []
    decreases |nav|
  {
    var n := |nav| - 1;
    if n == 0 || nav[n] > Peak(nav[..n]) then nav[n] else Peak(nav[..n])
  }

  function Drop(from: real, to: real): real {
    if from > 0.0 then (from - to) / from else 0.0
  }

  /** The running maximum that the pass keeps. */
  function Drawdown(nav: seq<real>): (d: real)
    ensures d >= 0.0
    decreases |nav|
  {
    if nav == [] then 0.0
    else
      var d := Drawdown(nav[..|nav| - 1]);
      var now := Drop(Peak(nav), nav[|nav| - 1]);
      if now > d then now else d
  }

  lemma {:induction false} PeakIsHighest(nav: seq<real>, i: nat)
    requires i < |nav|
    ensures nav[i] <= Peak(nav)
    decreases |nav|
  {
    if i < |nav| - 1 { PeakIsHighest(nav[..|nav| - 1], i); }
  }

  lemma {:induction false} PeakIsReached(nav: seq<real>) returns (i: nat)
    requires nav != []
    ensures i < |nav| && nav[i] == Peak(nav)
    decreases |nav|
  {
    var n := |nav| - 1;
    if n == 0 || nav[n] > Peak(nav[..n]) {
      i := n;
    } else {
      i := PeakIsReached(nav[..n]);
    }
  }

  /** The fall is at most the share d of where it starts. */
  predicate WithinShare(from: real, to: real, d: real) {
    from - to <= d * from
  }

  /** No fall from a positive point to a later point that is not below zero is larger than d of its start. */
  ghost predicate NoneLarger(nav: seq<real>, d: real) {
    forall i, j :: 0 <= i <= j < |nav| && nav[i] > 0.0 && nav[j] >= 0.0 ==> WithinShare(nav[i], nav[j], d)
  }

  /** Some fall from a positive point to a later point is d of its start. */
  ghost predicate IsFall(nav: seq<real>, d: real) {
    exists i, j :: 0 <= i <= j < |nav| && nav[i] > 0.0 && nav[i] - nav[j] == d * nav[i]
  }

  /** The pass: no fall to a value that is not below zero is larger, relative to where it starts, and a positive
      result is the relative size of a fall that happened. */
  method MaxDrawdown(nav: seq<real>) returns (maxDd: real)
    ensures maxDd == Drawdown(nav) >= 0.0
    ensures NoneLarger(nav, maxDd) && (maxDd > 0.0 ==> IsFall(nav, maxDd))
  {
    hide Drop, NoneLarger, IsFall;
    LargestFall(nav);
    if |nav| < 2 {
      ShortSeries(nav);
      return 0.0;
    }
    var peak := nav[0];
    maxDd := 0.0;
    for i := 0 to |nav|
      invariant maxDd == Drawdown(nav[..i]) && peak == if i == 0 then nav[0] else Peak(nav[..i])
    {
      assert nav[..i + 1][..i] == nav[..i];
      if nav[i] > peak { peak := nav[i]; }
      var dd := Drop(peak, nav[i]);
      if dd > maxDd { maxDd := dd; }
    }
    assert nav[..|nav|] == nav;
  }

  lemma ShortSeries(nav: seq<real>)
    requires |nav| < 2
    ensures Drawdown(nav) == 0.0
  {
    if |nav| == 1 {
      assert nav[..0] == [];
      assert Drawdown([]) == 0.0;
    }
  }

  /** A higher start makes the fall to the same non-negative value no smaller. */
  lemma HigherFallsFurther(a: real, b: real, to: real)
    requires 0.0 < a <= b && to >= 0.0
    ensures Drop(a, to) <= Drop(b, to)
  {
    DropIsShare(a, to);
    DropIsShare(b, to);
    SmallerShare(to, a, b);
  }

  lemma DropIsShare(a: real, to: real)
    requires a > 0.0
    ensures Drop(a, to) == 1.0 - to / a
  {
    var q := to / a;
    assert q * a == to;
    assert (1.0 - q) * a == a - to;
    QuotientIs(a - to, a, 1.0 - q);
  }

  lemma QuotientIs(x: real, a: real, y: real)
    requires a > 0.0 && y * a == x
    ensures x / a == y
  {
    assert (x / a) * a == x;
    assert (x / a - y) * a == 0.0;
  }

  lemma SmallerShare(t: real, a: real, b: real)
    requires 0.0 < a <= b && t >= 0.0
    ensures t / b <= t / a
  {
    var q := t / b;
    assert q * b == t && q >= 0.0;
    assert q * (b - a) >= 0.0;
    assert q * a <= t;
    assert (t / a - q) * a >= 0.0;
  }

  /** From two starts the fall to the same value compares as the starts do, up to zero and only so far. */
  lemma FallsCompare(a: real, b: real, to: real)
    requires 0.0 < a < b
    ensures Drop(a, to) <= Drop(b, to) <==> to >= 0.0
  {
    if to >= 0.0 {
      HigherFallsFurther(a, b, to);
    } else {
      DropIsShare(a, to);
      DropIsShare(b, to);
      Shares(to, a, to, b);
      assert to * (b - a) == to * b - to * a;
      assert to * (b - a) < 0.0;
    }
  }

  /** A share compares as the cross products do. */
  lemma Shares(s: real, a: real, t: real, b: real)
    requires a > 0.0 && b > 0.0
    ensures t / b <= s / a <==> t * a <= s * b
  {
    var p, q := s / a, t / b;
    assert p * a == s && q * b == t;
    assert (p - q) * (a * b) == s * b - t * a by {
      assert (p - q) * (a * b) == (p * a) * b - (q * b) * a;
    }
    ProductPositive(a, b);
    SameSign(p - q, a * b);
  }

  lemma ProductPositive(a: real, b: real)
    requires a > 0.0 && b > 0.0
    ensures a * b > 0.0
  {}

  lemma SameSign(x: real, n: real)
    requires n > 0.0
    ensures x * n >= 0.0 <==> x >= 0.0
  {
    assert x > 0.0 ==> x * n > 0.0;
    assert x < 0.0 ==> x * n < 0.0;
  }

  /** At the point where a fall ends, the fall from the running peak is the larger one exactly when the
      value is not below zero, or the fall starts at the peak itself. */
  lemma PeakFallsFurther(nav: seq<real>, i: nat, j: nat)
    requires i <= j < |nav| && nav[i] > 0.0
    ensures Drop(nav[i], nav[j]) <= Drop(Peak(nav[..j + 1]), nav[j]) <==> nav[j] >= 0.0 || nav[i] == Peak(nav[..j + 1])
  {
    hide Drop, Peak;
    PeakIsHighest(nav[..j + 1], i);
    assert nav[..j + 1][i] == nav[i];
    if nav[i] < Peak(nav[..j + 1]) {
      FallsCompare(nav[i], Peak(nav[..j + 1]), nav[j]);
    }
  }

  // ----- The fall found is the largest of those from the running peaks

  lemma {:induction false} PeakFallsAreCovered(nav: seq<real>, k: nat)
    requires k < |nav|
    ensures Drop(Peak(nav[..k + 1]), nav[k]) <= Drawdown(nav)
    decreases |nav|
  {
    hide Drop, Peak;
    var n := |nav| - 1;
    if k < n {
      PeakFallsAreCovered(nav[..n], k);
      assert nav[..n][..k + 1] == nav[..k + 1];
    } else {
      assert nav[..n + 1] == nav;
    }
  }

  lemma {:induction false} PeakFallIsFound(nav: seq<real>) returns (k: nat)
    requires Drawdown(nav) > 0.0
    ensures k < |nav| && Drawdown(nav) == Drop(Peak(nav[..k + 1]), nav[k])
    decreases |nav|
  {
    hide Drop, Peak;
    var n := |nav| - 1;
    if Drawdown(nav) == Drawdown(nav[..n]) {
      k := PeakFallIsFound(nav[..n]);
      assert nav[..n][..k + 1] == nav[..k + 1];
    } else {
      k := n;
      assert nav[..n + 1] == nav;
    }
  }

  // ----- Exactly when no fall between two points is larger than the one found

  /** Some point k is, relative to the peak up to it, at least as low as point j is relative to point i. */
  ghost predicate Matched(nav: seq<real>, i: nat, j: nat)
    requires i <= j < |nav|
  {
    exists k: nat :: MatchedAt(nav, i, j, k)
  }

  ghost predicate MatchedAt(nav: seq<real>, i: nat, j: nat, k: nat)
    requires i <= j < |nav|
  {
    k < |nav| && Peak(nav[..k + 1]) > 0.0 && nav[k] * nav[i] <= nav[j] * Peak(nav[..k + 1])
  }

  lemma FallsByProducts(peak: real, at: real, from: real, to: real)
    requires peak > 0.0 && from > 0.0
    ensures Drop(from, to) <= Drop(peak, at) <==> at * from <= to * peak
  {
    DropIsShare(from, to);
    DropIsShare(peak, at);
    Shares(to, from, at, peak);
  }

  lemma BelowZeroFallsPastOne(from: real, to: real)
    requires from > 0.0 && to < 0.0
    ensures Drop(from, to) > 1.0
  {
    DropIsShare(from, to);
    var q := to / from;
    assert q * from == to;
    assert q >= 0.0 ==> q * from >= 0.0;
  }

  lemma MatchedCompares(nav: seq<real>, i: nat, j: nat, k: nat)
    requires i <= j < |nav| && k < |nav| && nav[i] > 0.0
    ensures MatchedAt(nav, i, j, k) ==> Drop(nav[i], nav[j]) <= Drop(Peak(nav[..k + 1]), nav[k])
    ensures Drop(Peak(nav[..k + 1]), nav[k]) > 0.0 && Drop(nav[i], nav[j]) <= Drop(Peak(nav[..k + 1]), nav[k]) ==>
              MatchedAt(nav, i, j, k)
  {
    hide Drop, Peak;
    var peak := Peak(nav[..k + 1]);
    if peak > 0.0 {
      FallsByProducts(peak, nav[k], nav[i], nav[j]);
    } else {
      NoFall(peak, nav[k]);
    }
  }

  /** A fall to a value below zero is covered exactly when it is matched. */
  lemma CoveredWhenMatched(nav: seq<real>, i: nat, j: nat)
    requires i <= j < |nav| && nav[i] > 0.0 && nav[j] < 0.0
    ensures Drop(nav[i], nav[j]) <= Drawdown(nav) <==> Matched(nav, i, j)
  {
    if Matched(nav, i, j) {
      hide Drop, Peak, Drawdown;
      var k: nat :| MatchedAt(nav, i, j, k);
      MatchedCompares(nav, i, j, k);
      PeakFallsAreCovered(nav, k);
    }
    hide Drop, Peak, Drawdown, MatchedAt;
    BelowZeroFallsPastOne(nav[i], nav[j]);
    if Drop(nav[i], nav[j]) <= Drawdown(nav) {
      var k := PeakFallIsFound(nav);
      MatchedCompares(nav, i, j, k);
    }
  }

  /** No fall between two points is larger, relative to where it starts, than the one found exactly when every
      fall to a value below zero is matched; in particular whenever no value is below zero. */
  lemma LargestFallExactlyWhen(nav: seq<real>)
    ensures (forall i, j :: 0 <= i <= j < |nav| && nav[i] > 0.0 ==> WithinShare(nav[i], nav[j], Drawdown(nav))) <==>
            (forall i, j :: 0 <= i <= j < |nav| && nav[i] > 0.0 && nav[j] < 0.0 ==> Matched(nav, i, j))
  {
    hide Drop, Drawdown, Matched, WithinShare;
    forall i, j | 0 <= i <= j < |nav| && nav[i] > 0.0
      ensures WithinShare(nav[i], nav[j], Drawdown(nav)) <==> (nav[j] < 0.0 ==> Matched(nav, i, j))
    {
      DropIs(nav[i], nav[j], Drawdown(nav));
      if nav[j] >= 0.0 {
        NoLargerFall(nav, i, j);
      } else {
        CoveredWhenMatched(nav, i, j);
      }
    }
  }

  /** A relative fall compared with a share d is the fall compared with that share of its start. */
  lemma DropIs(from: real, to: real, d: real)
    requires from > 0.0
    ensures Drop(from, to) <= d <==> WithinShare(from, to, d)
    ensures Drop(from, to) == d <==> from - to == d * from
  {
    var share := Drop(from, to);
    assert share * from == from - to;
    hide Drop;
    SameSign(d - share, from);
    SameSign(share - d, from);
    assert (d - share) * from == d * from - share * from;
    assert (share - d) * from == share * from - d * from;
  }

  lemma LargestFall(nav: seq<real>)
    ensures NoneLarger(nav, Drawdown(nav)) && (Drawdown(nav) > 0.0 ==> IsFall(nav, Drawdown(nav)))
  {
    hide Drop, Drawdown, WithinShare;
    forall i, j | 0 <= i <= j < |nav| && nav[i] > 0.0 && nav[j] >= 0.0
      ensures WithinShare(nav[i], nav[j], Drawdown(nav))
    {
      NoLargerFall(nav, i, j);
      DropIs(nav[i], nav[j], Drawdown(nav));
    }
    if Drawdown(nav) > 0.0 {
      var i, j := FallHappened(nav);
    }
  }

  /** No fall between two points, the later not below zero, is larger than the one found. */
  lemma {:induction false} NoLargerFall(nav: seq<real>, i: nat, j: nat)
    requires i <= j < |nav| && nav[j] >= 0.0
    ensures Drop(nav[i], nav[j]) <= Drawdown(nav)
    decreases |nav|
  {
    hide Drop;
    var n := |nav| - 1;
    if j < n {
      NoLargerFall(nav[..n], i, j);
    } else {
      PeakIsHighest(nav, i);
      if nav[i] > 0.0 {
        HigherFallsFurther(nav[i], Peak(nav), nav[j]);
      } else {
        NoFall(nav[i], nav[j]);
      }
    }
  }

  lemma NoFall(from: real, to: real)
    requires from <= 0.0
    ensures Drop(from, to) == 0.0
  {}

  /** The fall found is zero or one that happened, from a positive point to a later one. */
  lemma FallHappened(nav: seq<real>) returns (i: nat, j: nat)
    requires Drawdown(nav) > 0.0
    ensures i <= j < |nav| && nav[i] > 0.0 && nav[i] - nav[j] == Drawdown(nav) * nav[i]
  {
    hide Drop, Drawdown, Peak, WithinShare;
    j := PeakFallIsFound(nav);
    i := PeakIsReached(nav[..j + 1]);
    assert nav[..j + 1][i] == nav[i];
    OnlyPositiveFalls(nav[i], nav[j]);
    DropIs(nav[i], nav[j], Drawdown(nav));
  }

  lemma OnlyPositiveFalls(from: real, to: real)
    ensures Drop(from, to) > 0.0 ==> from > 0.0
  {}

  /** Below zero the one pass can miss a larger relative fall from an earlier, lower point. */
  lemma NegativeValuesEscape()
    ensures var nav := [1.0, 2.0, -3.0]; Drawdown(nav) == 2.5 && nav[0] - nav[2] == 4.0 * nav[0]
  {
    var nav := [1.0, 2.0, -3.0];
    assert nav[..2] == [1.0, 2.0] && nav[..2][..1] == [1.0] && nav[..2][..1][..0] == [];
    assert Peak([1.0]) == 1.0 && Peak([1.0, 2.0]) == 2.0 && Peak(nav) == 2.0;
    assert Drawdown([]) == 0.0 && Drawdown([1.0]) == 0.0 && Drawdown([1.0, 2.0]) == 0.0;
    assert Drop(2.0, -3.0) == 2.5 && Drop(1.0, -3.0) == 4.0;
  }
}
