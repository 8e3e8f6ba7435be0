/** The z-score mean-reversion strategy in exact real arithmetic. The square root is a parameter: callers
    pass a non-negative root of the variance. */
module MeanReversion {
  import opened Basics

  datatype Direction = Long | Short | Flat

  datatype Signal = Signal(direction: Direction, strength: real)

  datatype Params = Params(symbolId: nat, lookback: nat, entryZ: real, exitZ: real)

  // ----- The statistics as they are defined

  function Sum(xs: seq<real>): real
    decreases |xs|
  {
    if xs == [] then 0.0 else Sum(xs[..|xs| - 1]) + xs[|xs| - 1]
  }

  function SumSquares(xs: seq<real>): real
    decreases |xs|
  {
    if xs == [] then 0.0 else SumSquares(xs[..|xs| - 1]) + xs[|xs| - 1] * xs[|xs| - 1]
  }

  /** The sum of the squared distances from a point. */
  function SumDeviations(xs: seq<real>, m: real): (s: real)
    ensures s >= 0.0
    decreases |xs|
  {
    if xs == [] then 0.0
    else
      var d := xs[|xs| - 1] - m;
      SquareNonNegative(d);
      SumDeviations(xs[..|xs| - 1], m) + d * d
  }

  lemma SquareNonNegative(d: real)
    ensures d * d >= 0.0
  {}

  function Mean(xs: seq<real>): real
    requires xs != []
  {
    Sum(xs) / (|xs| as real)
  }

  /** The mean squared distance from the mean. */
  function TrueVariance(xs: seq<real>): real
    requires xs != []
  {
    SumDeviations(xs, Mean(xs)) / (|xs| as real)
  }

  /** The variance as the strategy computes it from its running sums. */
  function ComputedVariance(sum: real, sum2: real, n: nat): real
    requires n > 0
  {
    sum2 / (n as real) - (sum / (n as real)) * (sum / (n as real))
  }

  // ----- Algebra of the sums

  lemma SumMore(xs: seq<real>, x: real)
    ensures Sum(xs + [x]) == Sum(xs) + x && SumSquares(xs + [x]) == SumSquares(xs) + x * x
    ensures forall m :: SumDeviations(xs + [x], m) == SumDeviations(xs, m) + (x - m) * (x - m)
  {
    assert (xs + [x])[..|xs|] == xs;
  }

  /** Dropping the oldest sample takes exactly its share out of both sums. */
  lemma {:induction false} SumDropFirst(xs: seq<real>)
    requires xs != []
    ensures Sum(xs[1..]) == Sum(xs) - xs[0] && SumSquares(xs[1..]) == SumSquares(xs) - Square(xs[0])
    decreases |xs|
  {
    var n := |xs| - 1;
    if n == 0 {
      assert xs[1..] == [] && xs[..0] == [];
      assert Sum(xs[..0]) == 0.0 && SumSquares(xs[..0]) == 0.0;
    } else {
      SumDropFirst(xs[..n]);
      assert xs[1..][..|xs[1..]| - 1] == xs[..n][1..];
    }
  }

  /** Squared distances expand into the two sums. */
  function Square(x: real): real { x * x }

  function Expansion(q: real, s: real, k: real, m: real): real {
    q - 2.0 * m * s + k * (m * m)
  }

  lemma {:induction false} DeviationsExpand(xs: seq<real>, m: real)
    ensures SumDeviations(xs, m) == Expansion(SumSquares(xs), Sum(xs), |xs| as real, m)
    decreases |xs|
  {
    if xs == [] {
      NoDeviations(m);
    } else {
      hide Sum, SumSquares, SumDeviations, Expansion, Square;
      var n := |xs| - 1;
      DeviationsExpand(xs[..n], m);
      LastSample(xs, m);
      DeviationStep(SumSquares(xs[..n]), Sum(xs[..n]), n as real, xs[n], m);
    }
  }

  lemma LastSample(xs: seq<real>, m: real)
    requires xs != []
    ensures var n := |xs| - 1;
            && SumDeviations(xs, m) == SumDeviations(xs[..n], m) + Square(xs[n] - m)
            && SumSquares(xs) == SumSquares(xs[..n]) + Square(xs[n]) && Sum(xs) == Sum(xs[..n]) + xs[n]
            && |xs| as real == (n as real) + 1.0
  {}

  lemma Deviations(xs: seq<real>, m: real)
    ensures SumDeviations(xs, m) == SumSquares(xs) - 2.0 * m * Sum(xs) + (|xs| as real) * (m * m)
  {
    hide Sum, SumSquares, SumDeviations;
    DeviationsExpand(xs, m);
  }

  lemma NoDeviations(m: real)
    ensures SumDeviations([], m) == Expansion(SumSquares([]), Sum([]), 0.0, m)
  {}

  lemma DeviationStep(q: real, s: real, k: real, x: real, m: real)
    ensures Expansion(q, s, k, m) + Square(x - m) == Expansion(q + Square(x), s + x, k + 1.0, m)
  {
    ExpandSquare(x, m, s, k);
  }

  lemma ExpandSquare(x: real, m: real, s: real, k: real)
    ensures (x - m) * (x - m) == x * x - 2.0 * m * x + m * m
    ensures 2.0 * m * (s + x) == 2.0 * m * s + 2.0 * m * x
    ensures (k + 1.0) * (m * m) == k * (m * m) + m * m
  {}

  /** The computed variance is the true one. */
  lemma VarianceIsTrue(xs: seq<real>)
    requires xs != []
    ensures ComputedVariance(Sum(xs), SumSquares(xs), |xs|) == TrueVariance(xs)
    ensures TrueVariance(xs) >= 0.0
  {
    var n := |xs| as real;
    var s, q, m := Sum(xs), SumSquares(xs), Mean(xs);
    Deviations(xs, m);
    VarianceAlgebra(s, q, n);
    DivNonNegative(SumDeviations(xs, m), n);
  }

  lemma VarianceAlgebra(s: real, q: real, n: real)
    requires n > 0.0
    ensures var m := s / n; (q - 2.0 * m * s + n * (m * m)) / n == q / n - m * m
  {
    var m := s / n;
    assert s == m * n;
    assert 2.0 * m * s == 2.0 * (n * (m * m)) by {
      assert m * (m * n) == n * (m * m);
    }
    DivSplit(q, n * (m * m), n);
    assert n * (m * m) / n == m * m;
  }

  lemma DivSplit(a: real, b: real, n: real)
    requires n > 0.0
    ensures (a - b) / n == a / n - b / n
  {}

  lemma DivNonNegative(a: real, n: real)
    requires a >= 0.0 && n > 0.0
    ensures a / n >= 0.0
  {}

  // ----- The bound on the newest price

  lemma SumLast(xs: seq<real>)
    requires xs != []
    ensures var ys, x := xs[..|xs| - 1], xs[|xs| - 1];
            Sum(xs) == Sum(ys) + x && SumSquares(xs) == SumSquares(ys) + x * x
  {}

  /** The square of a sum is at most the number of terms times the sum of their squares. */
  lemma {:induction false} SumSquareBound(xs: seq<real>)
    ensures Sum(xs) * Sum(xs) <= (|xs| as real) * SumSquares(xs)
    decreases |xs|
  {
    hide Sum, SumSquares, SumDeviations;
    if xs == [] {
      NoSum();
    } else {
      var n := |xs| - 1;
      SumSquareBound(xs[..n]);
      SumLast(xs);
      Deviations(xs[..n], xs[n]);
      BoundStep(Sum(xs[..n]), SumSquares(xs[..n]), xs[n], n as real, Sum(xs), SumSquares(xs), |xs| as real);
    }
  }

  lemma NoSum()
    ensures Sum([]) * Sum([]) <= 0.0 * SumSquares([])
  {}

  lemma BoundStep(s: real, q: real, x: real, k: real, s1: real, q1: real, k1: real)
    requires s * s <= k * q && q - 2.0 * x * s + k * (x * x) >= 0.0
    requires s1 == s + x && q1 == q + x * x && k1 == k + 1.0
    ensures s1 * s1 <= k1 * q1
  {
    assert (s + x) * (s + x) == s * s + 2.0 * x * s + x * x;
    assert (k + 1.0) * (q + x * x) == k * q + q + k * (x * x) + x * x;
  }

  /** The same about any point m. */
  lemma ShiftBound(s: real, q: real, m: real, k: real)
    requires s * s <= k * q
    ensures (s - k * m) * (s - k * m) <= k * (q - 2.0 * m * s + k * (m * m))
  {
    assert (s - k * m) * (s - k * m) == s * s - 2.0 * (k * m) * s + (k * m) * (k * m);
    assert (k * m) * (k * m) == k * (k * (m * m));
    assert k * (q - 2.0 * m * s + k * (m * m)) == k * q - k * (2.0 * m * s) + k * (k * (m * m));
    assert k * (2.0 * m * s) == 2.0 * (k * m) * s;
  }

  /** The distance of the newest price from the mean, against the other prices' distances. */
  lemma DeviationsLast(xs: seq<real>, m: real)
    requires xs != []
    ensures var n := |xs| - 1; SumDeviations(xs, m) == SumDeviations(xs[..n], m) + (xs[n] - m) * (xs[n] - m)
  {}

  lemma VarianceIs(xs: seq<real>)
    requires xs != []
    ensures TrueVariance(xs) == SumDeviations(xs, Mean(xs)) / (|xs| as real)
  {
    hide SumDeviations, Mean;
  }

  lemma NewestAlgebra(s: real, q: real, x: real, m: real, k: real, n: real, dev: real)
    requires n == k + 1.0 && n > 0.0 && m == (s + x) / n
    requires s * s <= k * q && dev == q - 2.0 * m * s + k * (m * m)
    ensures (x - m) * (x - m) <= k * dev
  {
    ShiftBound(s, q, m, k);
    RestBalances(s, x, m, k, n);
    SameSquare(s - k * m, x - m);
  }

  lemma NewestAgainstRest(xs: seq<real>)
    requires xs != []
    ensures var n, m := |xs| - 1, Mean(xs);
            var d := xs[n] - m;
            && d * d <= (n as real) * SumDeviations(xs[..n], m)
            && TrueVariance(xs) == (SumDeviations(xs[..n], m) + d * d) / (|xs| as real)
  {
    hide Sum, SumSquares, SumDeviations, Mean, TrueVariance;
    var n, m := |xs| - 1, Mean(xs);
    MeanIs(xs);
    VarianceIs(xs);
    DeviationsLast(xs, m);
    SumLast(xs);
    SumSquareBound(xs[..n]);
    Deviations(xs[..n], m);
    NewestAlgebra(Sum(xs[..n]), SumSquares(xs[..n]), xs[n], m, n as real, |xs| as real, SumDeviations(xs[..n], m));
  }

  lemma RestBalances(s: real, x: real, m: real, k: real, n: real)
    requires n == k + 1.0 && n > 0.0 && m == (s + x) / n
    ensures s - k * m == -(x - m)
  {
    assert m * n == s + x;
    assert m * n == k * m + m;
  }

  lemma SameSquare(a: real, d: real)
    requires a == -d
    ensures a * a == d * d
  {}

  /** The newest price is within sqrt(n - 1) standard deviations of the mean. */
  lemma NewestIsBounded(xs: seq<real>)
    requires xs != []
    ensures var d := xs[|xs| - 1] - Mean(xs);
            d * d <= ((|xs| - 1) as real) * TrueVariance(xs)
  {
    hide Sum, SumSquares, SumDeviations, TrueVariance, Mean;
    var n, m := |xs| - 1, Mean(xs);
    NewestAgainstRest(xs);
    var d := xs[n] - m;
    BoundedByVariance(d * d, SumDeviations(xs[..n], m), n as real, |xs| as real);
  }

  lemma BoundedByVariance(d2: real, rest: real, k: real, n: real)
    requires n == k + 1.0 && k >= 0.0 && d2 <= k * rest
    ensures d2 <= k * ((rest + d2) / n)
  {
    var v := (rest + d2) / n;
    assert v * n == rest + d2;
    assert (k * v) * n == k * (rest + d2) by {
      assert (k * v) * n == k * (v * n);
    }
    assert d2 * n == k * d2 + d2;
    assert d2 * n <= k * rest + k * d2;
    DivideOut(d2, k * v, n);
  }

  lemma DivideOut(a: real, b: real, n: real)
    requires n > 0.0 && a * n <= b * n
    ensures a <= b
  {
    assert (a - b) * n == a * n - b * n;
    assert a > b ==> (a - b) * n > 0.0;
  }

  // ----- The signal

  function Window(closes: seq<real>, lookback: nat): seq<real> {
    LastN(closes, lookback)
  }

  /** root is a square root of the window's variance. */
  predicate IsRoot(root: real, xs: seq<real>)
    requires xs != []
  {
    root >= 0.0 && root * root == TrueVariance(xs)
  }

  function ZScore(xs: seq<real>, root: real): real
    requires xs != []
  {
    if |xs| >= 2 && root > 0.0 then (xs[|xs| - 1] - Mean(xs)) / root else 0.0
  }

  /** The excess over the entry threshold in units of the threshold, capped at one. */
  function Strength(excess: real, entryZ: real): real {
    if entryZ == 0.0 then 1.0 else if excess / entryZ < 1.0 then excess / entryZ else 1.0
  }

  function Decide(z: real, p: Params): Option<Signal> {
    if z > p.entryZ then Some(Signal(Short, Strength(z - p.entryZ, p.entryZ)))
    else if z < -p.entryZ then Some(Signal(Long, Strength(-z - p.entryZ, p.entryZ)))
    else if -p.exitZ < z < p.exitZ then Some(Signal(Flat, 0.0))
    else None
  }

  predicate IsEntry(s: Option<Signal>) {
    s.Some? && s.value.direction != Flat
  }

  lemma ProductPositive(a: real, b: real)
    requires a > 0.0 && b > 0.0
    ensures a * b > 0.0
  {}

  lemma SameFactor(a: real, v: real, w: real)
    requires v == w
    ensures a * v == a * w
  {}

  lemma SquarePositive(root: real, v: real)
    requires root > 0.0 && v == root * root
    ensures v > 0.0
  {
    calc {
      v;
      root * root;
    > { ProductPositive(root, root); }
      0.0;
    }
  }

  lemma RatioSquare(z: real, root: real, d: real, v: real)
    requires z * root == d && v == root * root
    ensures (z * z) * v == d * d
  {
    calc {
      (z * z) * v;
      { SameFactor(z * z, v, root * root); }
      (z * z) * (root * root);
      (z * root) * (z * root);
      { SameFactor(z * root, z * root, d); }
      (z * root) * d;
      { SameFactor(d, z * root, d); }
      d * d;
    }
  }

  lemma Ratio(d: real, root: real, v: real)
    requires root > 0.0 && v == root * root
    ensures v > 0.0 && (d / root) * (d / root) * v == d * d
  {
    SquarePositive(root, v);
    assert (d / root) * root == d;
    RatioSquare(d / root, root, d, v);
  }

  lemma ZSquareBound(xs: seq<real>, root: real)
    requires xs != [] && IsRoot(root, xs)
    ensures ZScore(xs, root) * ZScore(xs, root) <= (|xs| - 1) as real
  {
    hide Mean, TrueVariance;
    if |xs| >= 2 && root > 0.0 {
      var d, z := xs[|xs| - 1] - Mean(xs), ZScore(xs, root);
      NewestIsBounded(xs);
      RatioBound(d, root, (|xs| - 1) as real, TrueVariance(xs));
    }
  }

  lemma RatioBound(d: real, root: real, k: real, v: real)
    requires root > 0.0 && root * root == v && d * d <= k * v
    ensures (d / root) * (d / root) <= k
  {
    Ratio(d, root, v);
    DivideOut((d / root) * (d / root), k, v);
  }

  lemma SquareOrder(z: real, k: real, e: real)
    requires z * z <= k && k <= e * e && e >= 0.0
    ensures -e <= z <= e
  {
    assert z * z - e * e == (z - e) * (z + e) && z * z - e * e == (-z - e) * (-z + e);
    if z > e {
      ProductPositive(z - e, z + e);
    } else if z < -e {
      ProductPositive(-z - e, -z + e);
    }
  }

  /** With lookback - 1 <= entry_z squared no entry is ever signalled: whatever closes came in, the newest
      one cannot be far enough from the mean of a window it belongs to. */
  lemma EntryNeverFires(closes: seq<real>, p: Params, root: real)
    requires p.lookback >= 2 && |closes| >= p.lookback && p.entryZ >= 0.0
    requires (p.lookback - 1) as real <= p.entryZ * p.entryZ
    requires IsRoot(root, Window(closes, p.lookback))
    ensures !IsEntry(Decide(ZScore(Window(closes, p.lookback), root), p))
  {
    hide ZScore, IsRoot, Strength;
    var xs := Window(closes, p.lookback);
    ZSquareBound(xs, root);
    SquareOrder(ZScore(xs, root), (p.lookback - 1) as real, p.entryZ);
  }

  // ----- The condition is exact: above it a single spike fires

  /** n - 1 closes at a level and then one a step away. */
  function Spike(n: nat, step: real): seq<real>
    requires n > 0
  {
    seq(n - 1, _ => 0.0) + [step]
  }

  lemma {:induction false} LevelSums(n: nat)
    ensures Sum(seq(n, _ => 0.0)) == 0.0 && SumSquares(seq(n, _ => 0.0)) == 0.0
    decreases n
  {
    if n > 0 {
      LevelSums(n - 1);
      assert seq(n, _ => 0.0)[..n - 1] == seq(n - 1, _ => 0.0);
    }
  }

  lemma SpikeVariance(n: nat, step: real)
    requires n >= 2
    ensures var xs, d := Spike(n, step), Spike(n, step)[n - 1] - Mean(Spike(n, step));
            && |xs| == n && d * d == ((n - 1) as real) * TrueVariance(xs)
            && d == ((n - 1) as real) * (step / (n as real))
  {
    hide Sum, SumSquares, TrueVariance;
    var xs := Spike(n, step);
    LevelSums(n - 1);
    SumMore(seq(n - 1, _ => 0.0), step);
    VarianceIsTrue(xs);
    SpikeAlgebra(n as real, step);
  }

  lemma SpikeAlgebra(n: real, step: real)
    requires n >= 2.0
    ensures var m := step / n;
            && step - m == (n - 1.0) * m
            && (step - m) * (step - m) == (n - 1.0) * (step * step / n - m * m)
  {
    var m := step / n;
    assert step == m * n;
    assert step * step / n == m * m * n by {
      assert step * step == (m * m * n) * n;
      DivProduct(m * m * n, n);
    }
    assert ((n - 1.0) * m) * ((n - 1.0) * m) == (n - 1.0) * ((n - 1.0) * (m * m));
    assert m * m * n - m * m == (n - 1.0) * (m * m);
  }

  lemma DivProduct(a: real, n: real)
    requires n > 0.0
    ensures a * n / n == a
  {}

  lemma SquareOver(z: real, k: real, e: real)
    requires z >= 0.0 && z * z == k && k > e * e && e >= 0.0
    ensures z > e
  {
    assert z <= e ==> z * z <= e * z && e * z <= e * e;
  }

  /** With lookback - 1 above entry_z squared, a step up after a level stretch is signalled Short, and a
      step down Long. Together with EntryNeverFires: entries are possible exactly above that threshold. */
  lemma EntryFires(p: Params, up: real, down: real)
    requires p.lookback >= 2 && p.entryZ >= 0.0 && (p.lookback - 1) as real > p.entryZ * p.entryZ
    requires IsRoot(up, Spike(p.lookback, 1.0)) && IsRoot(down, Spike(p.lookback, -1.0))
    ensures Window(Spike(p.lookback, 1.0), p.lookback) == Spike(p.lookback, 1.0)
    ensures Window(Spike(p.lookback, -1.0), p.lookback) == Spike(p.lookback, -1.0)
    ensures var s := Decide(ZScore(Spike(p.lookback, 1.0), up), p); s.Some? && s.value.direction == Short
    ensures var s := Decide(ZScore(Spike(p.lookback, -1.0), down), p); s.Some? && s.value.direction == Long
  {
    hide Strength, ZScore, Spike, Mean, TrueVariance, IsRoot;
    SpikeZ(p.lookback, 1.0, up);
    SpikeZ(p.lookback, -1.0, down);
    SquareOver(ZScore(Spike(p.lookback, 1.0), up), (p.lookback - 1) as real, p.entryZ);
    var z := ZScore(Spike(p.lookback, -1.0), down);
    SameSquare(-z, z);
    SquareOver(-z, (p.lookback - 1) as real, p.entryZ);
  }

  lemma SpikeZ(n: nat, step: real, root: real)
    requires n >= 2 && (step == 1.0 || step == -1.0) && IsRoot(root, Spike(n, step))
    ensures |Spike(n, step)| == n
    ensures var z := ZScore(Spike(n, step), root);
            z * z == (n - 1) as real && (step == 1.0 ==> z >= 0.0) && (step == -1.0 ==> z <= 0.0)
  {
    hide Mean, TrueVariance, Spike;
    SpikeVariance(n, step);
    var xs := Spike(n, step);
    var k, d := (n - 1) as real, xs[n - 1] - Mean(xs);
    SpikeSign(n as real, step);
    SquareNonZero(d);
    RootNonZero(root, k);
    Ratio(d, root, root * root);
    EqualOut(ZScore(xs, root) * ZScore(xs, root), k, root * root);
    SignOfRatio(d, root);
  }

  lemma SpikeSign(n: real, step: real)
    requires n >= 2.0
    ensures step == 1.0 ==> (n - 1.0) * (step / n) > 0.0
    ensures step == -1.0 ==> (n - 1.0) * (step / n) < 0.0
  {
    assert 1.0 / n > 0.0 && -1.0 / n == -(1.0 / n);
    assert (n - 1.0) * (1.0 / n) > 0.0;
    assert (n - 1.0) * (-(1.0 / n)) == -((n - 1.0) * (1.0 / n));
  }

  lemma SquareNonZero(d: real)
    ensures d != 0.0 ==> d * d > 0.0
  {}

  lemma RootNonZero(root: real, k: real)
    ensures root == 0.0 ==> k * (root * root) == 0.0
  {}

  lemma EqualOut(a: real, b: real, n: real)
    requires n > 0.0 && a * n == b * n
    ensures a == b
  {
    assert a * n / n == a && b * n / n == b;
  }

  lemma SignOfRatio(d: real, root: real)
    requires root > 0.0
    ensures d > 0.0 ==> d / root >= 0.0
    ensures d < 0.0 ==> d / root <= 0.0
  {}

  // ----- The decision on the window itself

  /** The square of k deviations, for a variance v. */
  function Band(k: real, v: real): real { k * k * v }

  /** What the rule asks for, with d the distance of the newest price from the mean and v the variance: an entry
      against the move beyond entry_z deviations, an exit within exit_z, and silence in between. Without any
      deviation the price is at the mean. */
  ghost predicate Follows(signal: Option<Signal>, d: real, v: real, p: Params) {
    var entry := Square(d) > Band(p.entryZ, v);
    var exit := p.exitZ > 0.0 && (v == 0.0 || Square(d) < Band(p.exitZ, v));
    if p.entryZ >= 0.0 then
      if entry then signal.Some? && signal.value.direction == (if d > 0.0 then Short else Long)
                    && Excess(signal.value.strength, d, v, p.entryZ)
      else signal == if exit then Some(Signal(Flat, 0.0)) else None
    else
      signal.Some? && signal.value.direction == if d >= 0.0 || Square(d) < Band(p.entryZ, v) then Short else Long
  }

  /** Full strength from twice the threshold on, and below it 1 + strength thresholds make up the distance. */
  ghost predicate Excess(strength: real, d: real, v: real, e: real) {
    && 0.0 <= strength <= 1.0
    && if Square(d) >= Band(2.0 * e, v) then strength == 1.0
       else Band((1.0 + strength) * e, v) == Square(d)
  }

  lemma Beyond(z: real, e: real)
    requires e >= 0.0
    ensures z > e <==> z > 0.0 && z * z > e * e
  {
    if z > e {
      ProductPositive(z - e, z + e);
      assert (z - e) * (z + e) == z * z - e * e;
    } else if 0.0 < z < e {
      ProductPositive(e - z, z + e);
      assert (e - z) * (z + e) == e * e - z * z;
    }
  }

  lemma ScaledOrder(a: real, b: real, v: real)
    requires v > 0.0
    ensures a > b <==> a * v > b * v
  {
    if a > b {
      ProductPositive(a - b, v);
      assert (a - b) * v == a * v - b * v;
    } else if a < b {
      ProductPositive(b - a, v);
      assert (b - a) * v == b * v - a * v;
    }
  }

  lemma SignOfProduct(z: real, root: real)
    requires root > 0.0
    ensures z > 0.0 <==> z * root > 0.0
  {
    ScaledOrder(z, 0.0, root);
  }

  /** A comparison of the z-score, squared and freed of the division. */
  lemma ScoreAbove(z: real, d: real, root: real, v: real, e: real)
    requires root > 0.0 && v == root * root && z * root == d && e >= 0.0
    ensures v > 0.0
    ensures z > e <==> d > 0.0 && Square(d) > Band(e, v)
  {
    SquarePositive(root, v);
    RatioSquare(z, root, d, v);
    SignOfProduct(z, root);
    Beyond(z, e);
    ScaledOrder(z * z, e * e, v);
  }

  lemma SquareOfNegative(d: real)
    ensures Square(-d) == Square(d) && Square(d) >= 0.0
  {
    SquareNonNegative(d);
  }

  lemma NegativeProduct(z: real, root: real, d: real)
    requires z * root == d
    ensures (-z) * root == -d
  {}

  /** Both directions, and the band between them. */
  lemma ScoreCompares(z: real, d: real, root: real, v: real, e: real)
    requires root > 0.0 && v == root * root && z * root == d && e >= 0.0
    ensures v > 0.0
    ensures z > e <==> d > 0.0 && Square(d) > Band(e, v)
    ensures z < -e <==> d < 0.0 && Square(d) > Band(e, v)
    ensures Square(d) > Band(e, v) ==> d != 0.0
    ensures d >= 0.0 <==> z >= 0.0
  {
    ScoreAbove(z, d, root, v, e);
    NegativeProduct(z, root, d);
    ScoreAbove(-z, -d, root, v, e);
    SignOfProduct(-z, root);
    SquareOfNegative(d);
    BandNonNegative(e, v);
  }

  lemma BandNonNegative(e: real, v: real)
    requires v > 0.0
    ensures Band(e, v) >= 0.0
  {
    SquareNonNegative(e);
    ProductNonNegative(e * e, v);
  }

  lemma ProductNonNegative(a: real, b: real)
    requires a >= 0.0 && b >= 0.0
    ensures a * b >= 0.0
  {}

  /** Strictly inside the band. */
  lemma ScoreWithin(z: real, d: real, root: real, v: real, e: real)
    requires root > 0.0 && v == root * root && z * root == d && e > 0.0
    ensures -e < z < e <==> Square(d) < Band(e, v)
  {
    SquarePositive(root, v);
    RatioSquare(z, root, d, v);
    ScaledOrder(e * e, z * z, v);
    if z >= 0.0 {
      InsideSquare(z, e);
    } else {
      InsideSquare(-z, e);
      SameSquare(-z, z);
    }
  }

  lemma InsideSquare(z: real, e: real)
    requires z >= 0.0 && e > 0.0
    ensures z < e <==> z * z < e * e
  {
    if z < e {
      ProductPositive(e - z, z + e);
      assert (e - z) * (z + e) == e * e - z * z;
    } else {
      assert (z - e) * (z + e) == z * z - e * e;
      assert (z - e) * (z + e) >= 0.0;
    }
  }

  lemma ShareOfThreshold(z: real, e: real)
    requires z > e > 0.0
    ensures (1.0 + (z - e) / e) * e == z
    ensures (z - e) / e < 1.0 <==> z < 2.0 * e
    ensures (z - e) / e > 0.0
  {
    var q := (z - e) / e;
    assert q * e == z - e;
    ShareBounds(q, z, e);
  }

  lemma ShareBounds(q: real, z: real, e: real)
    requires e > 0.0 && q * e == z - e
    ensures (1.0 + q) * e == z
    ensures q < 1.0 <==> z < 2.0 * e
    ensures q > 0.0 <==> z > e
  {
    ScaledOrder(1.0, q, e);
    ScaledOrder(q, 0.0, e);
  }

  lemma BandOfScore(z: real, d: real, root: real, v: real)
    requires v == root * root && z * root == d
    ensures Band(z, v) == Square(d)
  {
    RatioSquare(z, root, d, v);
  }

  lemma StrengthFits(z: real, d: real, root: real, v: real, e: real)
    requires root > 0.0 && v == root * root && z * root == d && z > e >= 0.0
    ensures Excess(Strength(z - e, e), d, v, e)
  {
    BandOfScore(z, d, root, v);
    if e == 0.0 {
      SquareOfNegative(d);
      assert Band(2.0 * e, v) == 0.0;
    } else {
      ScoreWithin(z, d, root, v, 2.0 * e);
      ShareOfThreshold(z, e);
      hide Square, Band;
    }
  }

  lemma MirroredExcess(strength: real, d: real, v: real, e: real)
    requires Excess(strength, -d, v, e)
    ensures Excess(strength, d, v, e)
  {
    SquareOfNegative(d);
    hide Square, Band;
  }

  lemma AtTheMean(p: Params)
    requires p.entryZ > p.exitZ
    ensures Follows(Decide(0.0, p), 0.0, 0.0, p)
  {
    hide Excess, Strength;
    assert Square(0.0) == 0.0 && Band(p.entryZ, 0.0) == 0.0;
  }

  lemma SameBand(e: real, v: real)
    ensures Band(-e, v) == Band(e, v)
  {
    SameSquare(-e, e);
  }

  lemma DecisionFollows(z: real, d: real, root: real, v: real, p: Params)
    requires root > 0.0 && v == root * root && z * root == d && p.entryZ > p.exitZ
    ensures Follows(Decide(z, p), d, v, p)
  {
    hide Square, Band, Excess, Strength;
    var e := p.entryZ;
    if e >= 0.0 {
      ScoreCompares(z, d, root, v, e);
      if z > e {
        StrengthFits(z, d, root, v, e);
      } else if z < -e {
        NegativeProduct(z, root, d);
        StrengthFits(-z, -d, root, v, e);
        MirroredExcess(Strength(-z - e, e), d, v, e);
      } else if p.exitZ > 0.0 {
        ScoreWithin(z, d, root, v, p.exitZ);
      }
    } else {
      SameBand(e, v);
      ScoreCompares(z, d, root, v, -e);
      ScoreWithin(z, d, root, v, -e);
    }
  }

  lemma NothingLeft(d: real)
    requires Square(d) <= 0.0
    ensures d == 0.0
  {
    SquareSign(d);
    hide Square;
  }

  lemma SquareSign(d: real)
    ensures d != 0.0 ==> Square(d) > 0.0
  {
    if d > 0.0 {
      SquarePositive(d, Square(d));
    } else if d < 0.0 {
      SquareOfNegative(d);
      SquarePositive(-d, Square(-d));
    }
  }

  lemma TimesZero(k: real, v: real)
    requires v == 0.0
    ensures k * v == 0.0
  {}

  /** Every window's signal follows the rule on the window's own mean and variance. */
  lemma WindowFollows(xs: seq<real>, root: real, p: Params)
    requires |xs| >= 2 && IsRoot(root, xs) && p.entryZ > p.exitZ
    ensures Follows(Decide(ZScore(xs, root), p), xs[|xs| - 1] - Mean(xs), TrueVariance(xs), p)
  {
    hide Mean, TrueVariance, Decide, Follows;
    var d, v := xs[|xs| - 1] - Mean(xs), TrueVariance(xs);
    if root > 0.0 {
      assert (d / root) * root == d;
      DecisionFollows(d / root, d, root, v, p);
    } else {
      assert v == 0.0;
      NewestIsBounded(xs);
      TimesZero((|xs| - 1) as real, v);
      NothingLeft(d);
      AtTheMean(p);
    }
  }

  lemma AddSample(closes: seq<real>, price: real, lookback: nat)
    requires lookback >= 2
    ensures var w := Window(closes, lookback);
            && Window(closes + [price], lookback) == (if |w + [price]| > lookback then (w + [price])[1..] else w + [price])
            && Sum(w + [price]) == Sum(w) + price && SumSquares(w + [price]) == SumSquares(w) + Square(price)
  {
    hide Sum, SumSquares;
    SumMore(Window(closes, lookback), price);
    LastMore(closes, price, lookback);
  }

  lemma MeanIs(xs: seq<real>)
    requires xs != []
    ensures Mean(xs) == Sum(xs) / (|xs| as real)
  {}

  predicate IsRootOf(root: real, v: real) {
    root >= 0.0 && root * root == v
  }

  /** The root passed in is the root of what the strategy computes from its sums. */
  lemma RootOfComputed(xs: seq<real>, root: real)
    requires xs != [] && IsRoot(root, xs)
    ensures IsRootOf(root, ComputedVariance(Sum(xs), SumSquares(xs), |xs|))
  {
    hide Sum, SumSquares, TrueVariance, ComputedVariance;
    VarianceIsTrue(xs);
  }

  class MeanReversionStrategy {
    const params: Params
    var window: seq<real>
    var sum: real
    var sum2: real
    var mean: real
    var stddev: real
    var z: real
    ghost var closes: seq<real>  // every close so far

    /** The running sums always match the window, and the window is the last lookback closes. */
    ghost predicate Valid()
      reads this
    {
      params.lookback >= 2 && params.entryZ > params.exitZ && window == Window(closes, params.lookback) && sum == Sum(window) && sum2 == SumSquares(window)
    }

    constructor (p: Params)
      requires p.lookback >= 2 && p.entryZ > p.exitZ
      ensures Valid() && params == p && closes == []
    {
      params := p;
      window, sum, sum2, mean, stddev, z, closes := [], 0.0, 0.0, 0.0, 0.0, 0.0, [];
    }

    method UpdateStats(price: real, root: real)
      requires Valid() && IsRoot(root, Window(closes + [price], params.lookback))
      modifies this
      ensures Valid() && closes == old(closes) + [price]
      ensures mean == Mean(window) && z == ZScore(window, root)
      ensures stddev == if |window| < 2 then 0.0 else root
      ensures |window| >= 2 ==> IsRootOf(stddev, ComputedVariance(sum, sum2, |window|))
    {
      hide Sum, SumSquares, TrueVariance, IsRoot, IsRootOf, ComputedVariance, Mean, ZScore, Window, Square;
      AddSample(closes, price, params.lookback);
      closes := closes + [price];
      window := window + [price];
      sum := sum + price;
      sum2 := sum2 + Square(price);
      if |window| > params.lookback {
        SumDropFirst(window);
        var oldest := window[0];
        window := window[1..];
        sum := sum - oldest;
        sum2 := sum2 - Square(oldest);
      }
      var n := |window|;
      MeanIs(window);
      if n < 2 {
        MeanOfOne(window, root);
        mean := price;
        stddev := 0.0;
        z := 0.0;
        return;
      }
      mean := sum / (n as real);
      RootOfComputed(window, root);
      ZScoreIs(window, root);
      stddev := root;
      z := if stddev > 0.0 then (price - mean) / stddev else 0.0;
    }

    method OnBar(symbolId: nat, close: real, root: real) returns (signal: Option<Signal>)
      requires Valid() && (symbolId == params.symbolId ==> IsRoot(root, Window(closes + [close], params.lookback)))
      modifies this
      ensures Valid() && closes == if symbolId == params.symbolId then old(closes) + [close] else old(closes)
      ensures signal == if symbolId != params.symbolId || |closes| < params.lookback then None
                        else Decide(ZScore(Window(closes, params.lookback), root), params)
      ensures symbolId != params.symbolId || |closes| < params.lookback ==> signal == None
      ensures symbolId == params.symbolId && |closes| >= params.lookback ==>
                var recent := closes[|closes| - params.lookback..];
                Follows(signal, close - Mean(recent), TrueVariance(recent), params)
    {
      hide IsRoot, ZScore, Sum, SumSquares, TrueVariance, Strength, Mean, Follows, Decide;
      if symbolId != params.symbolId { return None; }
      UpdateStats(close, root);
      if |window| < params.lookback { return None; }
      WindowFollows(window, root, params);
      assert window == closes[|closes| - params.lookback..];
      signal := Decide(z, params);
    }
  }

  lemma MeanOfOne(xs: seq<real>, root: real)
    requires |xs| == 1
    ensures Mean(xs) == xs[0] && ZScore(xs, root) == 0.0
  {
    assert xs[..0] == [] && Sum(xs[..0]) == 0.0;
  }

  lemma ZScoreIs(xs: seq<real>, root: real)
    requires |xs| >= 2
    ensures ZScore(xs, root) == if root > 0.0 then (xs[|xs| - 1] - Mean(xs)) / root else 0.0
  {}
}
