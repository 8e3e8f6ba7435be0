/** The book-walk slippage estimate, against the depth of the book and against what the
    matching engine really does. */
module ExecutionSim {
  import opened Basics
  import opened ExchangeTypes
  import opened PriceTime
  import opened EngineSpec
  import opened EngineInvariant
  import opened EngineTheorems
  import opened BookLevels

  function DepthTotal(depth: seq<PriceLevel>): nat {
    if depth == [] then 0 else depth[0].totalQty + DepthTotal(depth[1..])
  }

  /** What q shares cost level by level; beyond the depth the price stays at `last`. */
  function WalkCost(depth: seq<PriceLevel>, q: nat, last: Price): int {
    if depth == [] then last * q
    else
      var take := Min(q, depth[0].totalQty);
      depth[0].price * take + WalkCost(depth[1..], q - take, depth[0].price)
  }

  /** Signed slippage: positive means paid more, or received less, than at arrival. */
  function Slippage(side: Side, qty: nat, arrival: Price, depth: seq<PriceLevel>): Price {
    if arrival == 0 || qty == 0 || depth == [] then 0
    else
      var vwap := TruncDiv(WalkCost(depth, qty, 0), qty);
      if side == Buy then vwap - arrival else arrival - vwap
  }

  /** The whole-number average of a cost over q shares: short of it, toward zero, by less than one a share. */
  ghost predicate IsAverage(average: int, cost: int, q: int) {
    && (cost >= 0 ==> 0 <= cost - average * q < q)
    && (cost <= 0 ==> -q < cost - average * q <= 0)
  }

  lemma TruncIsAverage(cost: int, q: nat)
    requires q > 0
    ensures IsAverage(TruncDiv(cost, q), cost, q)
  {
    var size := if cost >= 0 then cost else -cost;
    var share := size / q;
    assert size == q * share + size % q;
    assert (-share) * q == -(q * share);
  }

  /** The estimate as the simulator computes it: nothing without an arrival price, a quantity or a depth; otherwise
      by how much the average walked price is worse than the arrival price. */
  method BookWalkSlippage(side: Side, qty: nat, arrival: Price, depth: seq<PriceLevel>) returns (slippage: Price)
    ensures slippage == Slippage(side, qty, arrival, depth)
    ensures arrival == 0 || qty == 0 || depth == [] ==> slippage == 0
    ensures arrival != 0 && qty > 0 && depth != [] ==>
              IsAverage(if side == Buy then arrival + slippage else arrival - slippage, WalkCost(depth, qty, 0), qty)
  {
    if arrival == 0 || qty == 0 || depth == [] { return 0; }
    var remaining: nat := qty;
    var pvSum := 0;
    var i := 0;
    assert depth[0..] == depth;
    while i < |depth| && remaining != 0
      invariant i <= |depth|
      invariant pvSum + WalkCost(depth[i..], remaining, if i == 0 then 0 else depth[i - 1].price) == WalkCost(depth, qty, 0)
    {
      assert depth[i..][1..] == depth[i + 1..];
      var take := Min(remaining, depth[i].totalQty);
      pvSum := pvSum + depth[i].price * take;
      remaining := remaining - take;
      i := i + 1;
    }
    if remaining > 0 {
      pvSum := pvSum + depth[|depth| - 1].price * remaining;
    } else {
      WalkNothing(depth[i..], if i == 0 then 0 else depth[i - 1].price);
    }
    TruncIsAverage(pvSum, qty);
    var vwap := TruncDiv(pvSum, qty);
    return if side == Buy then vwap - arrival else arrival - vwap;
  }

  lemma {:induction false} WalkNothing(depth: seq<PriceLevel>, last: Price)
    ensures WalkCost(depth, 0, last) == 0
  {
    if depth != [] { WalkNothing(depth[1..], depth[0].price); }
  }

  // ----- The estimate and the sweep

  lemma CostOfFirst(head: Resting, rest: seq<Resting>, q: nat)
    requires q > 0
    ensures var a := Min(q, head.leaves);
            Cost(Takes([head] + rest, q)) == head.price * a + Cost(Takes(rest, q - a))
  {
    var ts := Takes([head] + rest, q);
    assert ([head] + rest)[1..] == rest;
    assert ts[1..] == Takes(rest, q - Min(q, head.leaves));
  }

  lemma QueueFirst(queue: seq<OrderId>, p: Price, orders: map<OrderId, Order>)
    requires queue != []
    ensures FlatQueue(queue, p, orders) == [Resting(queue[0], p, LeavesOf(orders, queue[0]))] + FlatQueue(queue[1..], p, orders)
    ensures QueueShares(queue, orders) == LeavesOf(orders, queue[0]) + QueueShares(queue[1..], orders)
  {}

  lemma {:induction false} QueueCost(queue: seq<OrderId>, p: Price, rest: seq<Resting>, orders: map<OrderId, Order>, q: nat)
    ensures var k := Min(q, QueueShares(queue, orders));
            Cost(Takes(FlatQueue(queue, p, orders) + rest, q)) == p * k + Cost(Takes(rest, q - k))
  {
    hide Takes, Cost, LeavesOf;
    if queue == [] {
      assert FlatQueue(queue, p, orders) + rest == rest;
    } else if q > 0 {
      hide FlatQueue, QueueShares;
      QueueFirst(queue, p, orders);
      var leaves, more := LeavesOf(orders, queue[0]), FlatQueue(queue[1..], p, orders);
      var head := Resting(queue[0], p, leaves);
      Assoc([head], more, rest);
      CostOfFirst(head, more + rest, q);
      QueueCost(queue[1..], p, rest, orders, q - Min(q, leaves));
      Distribute(p, Min(q, leaves), Min(q, leaves + QueueShares(queue[1..], orders)) - Min(q, leaves));
    } else {
      TakesNothing(rest);
      TakesNothing(FlatQueue(queue, p, orders) + rest);
    }
  }

  lemma Spread(p: int, k: int, n: nat)
    requires k <= p
    ensures k * n <= p * n
  {}

  lemma Distribute(p: int, a: int, b: int)
    ensures p * a + p * b == p * (a + b)
  {}

  /** Walking the best n levels of a side costs what taking from its orders costs, for every
      size those levels cover. */
  lemma {:induction false} WalkIsTakes(levels: seq<Level>, orders: map<OrderId, Order>, n: nat, q: nat, last: Price)
    requires q <= DepthTotal(DepthOf(levels, orders, n))
    ensures WalkCost(DepthOf(levels, orders, n), q, last) == Cost(Takes(Flat(levels, orders), q))
  {
    hide Takes, Cost, QueueShares, FlatQueue;
    var depth := DepthOf(levels, orders, n);
    if levels == [] || n == 0 {
      TakesNothing(Flat(levels, orders));
    } else {
      var take := Min(q, depth[0].totalQty);
      assert depth[1..] == DepthOf(levels[1..], orders, n - 1);
      WalkIsTakes(levels[1..], orders, n - 1, q - take, depth[0].price);
      QueueCost(levels[0].queue, levels[0].price, Flat(levels[1..], orders), orders, q);
    }
  }

  lemma {:induction false} DepthWithin(levels: seq<Level>, orders: map<OrderId, Order>, n: nat)
    ensures DepthTotal(DepthOf(levels, orders, n)) <= Shares(Flat(levels, orders))
  {
    if levels != [] && n != 0 {
      DepthWithin(levels[1..], orders, n - 1);
      QueueSharesConcat(levels[0].queue, levels[0].price, Flat(levels[1..], orders), orders);
    }
  }

  lemma {:induction false} QueueSharesConcat(queue: seq<OrderId>, p: Price, rest: seq<Resting>, orders: map<OrderId, Order>)
    ensures Shares(FlatQueue(queue, p, orders) + rest) == QueueShares(queue, orders) + Shares(rest)
  {
    var f := FlatQueue(queue, p, orders);
    if queue == [] {
      assert f + rest == rest;
    } else {
      assert (f + rest)[1..] == FlatQueue(queue[1..], p, orders) + rest;
      QueueSharesConcat(queue[1..], p, rest, orders);
    }
  }

  lemma {:induction false} AllAvailable(q: seq<Resting>, isBuy: bool)
    ensures SharesWithin(q, isBuy, 0) == Shares(q)
  {
    if q != [] { AllAvailable(q[1..], isBuy); }
  }

  /** The walk predicts the market: a market order no larger than the snapshot trades for
      exactly the walked cost. */
  lemma WalkPredictsMarketOrder(s: EngineState, levels: seq<Level>, n: nat, o: Order, now: Timestamp)
    requires Inv(s) && o.WellFormed() && o.id !in s.orders && o.otype == Market
    requires s.Contra(o) == Flat(levels, s.orders) && o.Leaves() <= DepthTotal(DepthOf(levels, s.orders, n))
    ensures TakerCost(Process(s, o, now).0.fills) - TakerCost(s.fills)
         == WalkCost(DepthOf(levels, s.orders, n), o.Leaves(), 0)
  {
    hide Inv, Process, Takes, Cost, Flat, DepthOf, TakerCost, WalkCost, SharesWithin;
    WalkIsTakes(levels, s.orders, n, o.Leaves(), 0);
    DepthWithin(levels, s.orders, n);
    AllAvailable(s.Contra(o), o.IsBuy());
    TradedQuantity(s, o, now, o.id);
  }

  /** The snapshot offers exactly the shares of its levels. */
  lemma {:induction false} DepthTotalIs(levels: seq<Level>, orders: map<OrderId, Order>, n: nat)
    ensures DepthTotal(DepthOf(levels, orders, n)) == Shares(Flat(if n <= |levels| then levels[..n] else levels, orders))
  {
    hide QueueShares, FlatQueue, Shares;
    NoShares();
    if levels != [] && n != 0 {
      var first := if n <= |levels| then levels[..n] else levels;
      DepthTotalIs(levels[1..], orders, n - 1);
      assert first[1..] == if n - 1 <= |levels[1..]| then levels[1..][..n - 1] else levels[1..];
      QueueSharesConcat(levels[0].queue, levels[0].price, Flat(first[1..], orders), orders);
      assert DepthOf(levels, orders, n)[1..] == DepthOf(levels[1..], orders, n - 1);
    }
  }

  lemma NoShares()
    ensures Shares([]) == 0
  {}

  /** Beyond the depth every further share is walked at the last level's price. */
  lemma {:induction false} WalkBeyond(depth: seq<PriceLevel>, q: nat, last: Price)
    requires depth != [] && q >= DepthTotal(depth)
    ensures WalkCost(depth, q, last)
         == WalkCost(depth, DepthTotal(depth), last) + depth[|depth| - 1].price * (q - DepthTotal(depth))
  {
    if |depth| == 1 {
      assert depth[1..] == [];
    } else {
      WalkBeyond(depth[1..], q - depth[0].totalQty, depth[0].price);
    }
  }

  /** What a quantity costs on the book: the first shares of the price-time list as far as the best n levels
      reach, and the last of these levels' price for the rest. */
  ghost function BookCost(levels: seq<Level>, orders: map<OrderId, Order>, n: nat, q: nat): int
    requires levels != [] && n > 0
  {
    var offered := Shares(Flat(if n <= |levels| then levels[..n] else levels, orders));
    Cost(Takes(Flat(levels, orders), Min(q, offered)))
    + levels[Min(n, |levels|) - 1].price * (q - Min(q, offered))
  }

  lemma WalkIsBookCost(levels: seq<Level>, orders: map<OrderId, Order>, n: nat, q: nat)
    requires levels != [] && n > 0
    ensures DepthOf(levels, orders, n) != [] && WalkCost(DepthOf(levels, orders, n), q, 0) == BookCost(levels, orders, n, q)
  {
    hide DepthOf, Flat, Takes, Cost, WalkCost, Shares, QueueShares;
    var depth := DepthOf(levels, orders, n);
    var total := DepthTotal(depth);
    DepthTotalIs(levels, orders, n);
    DepthSize(levels, orders, n);
    DepthAt(levels, orders, n, Min(n, |levels|) - 1);
    WalkIsTakes(levels, orders, n, Min(q, total), 0);
    if q > total {
      WalkBeyond(depth, q, 0);
    } else {
      TimesNothing(depth[|depth| - 1].price);
    }
  }

  lemma TimesNothing(p: int)
    ensures p * 0 == 0
  {}

  /** On any side of a book and for any quantity the estimate is the distance, in the direction that hurts,
      from the arrival price to the average of what the quantity costs on the book. */
  lemma SlippageOfBookCost(side: Side, levels: seq<Level>, orders: map<OrderId, Order>, n: nat, q: nat, arrival: Price)
    requires levels != [] && n > 0 && q > 0 && arrival != 0
    ensures var slippage := Slippage(side, q, arrival, DepthOf(levels, orders, n));
            IsAverage(if side == Buy then arrival + slippage else arrival - slippage, BookCost(levels, orders, n, q), q)
  {
    hide DepthOf, WalkCost, BookCost, IsAverage, TruncDiv;
    WalkIsBookCost(levels, orders, n, q);
    TruncIsAverage(WalkCost(DepthOf(levels, orders, n), q, 0), q);
  }

  /** The estimate against the engine: a market order no larger than the snapshot, at positive prices, pays or
      receives the estimated average price for each share, up to less than one price unit a share. */
  lemma SlippageIsPaid(s: EngineState, levels: seq<Level>, n: nat, o: Order, now: Timestamp, arrival: Price)
    requires Inv(s) && o.WellFormed() && o.id !in s.orders && o.otype == Market && o.Leaves() > 0 && arrival != 0
    requires s.Contra(o) == Flat(levels, s.orders) && o.Leaves() <= DepthTotal(DepthOf(levels, s.orders, n))
    ensures var paid := TakerCost(Process(s, o, now).0.fills) - TakerCost(s.fills);
            var slippage := Slippage(o.side, o.Leaves(), arrival, DepthOf(levels, s.orders, n));
            var average := if o.side == Buy then arrival + slippage else arrival - slippage;
            && (paid >= 0 ==> 0 <= paid - average * o.Leaves() < o.Leaves())
            && (paid <= 0 ==> -o.Leaves() < paid - average * o.Leaves() <= 0)
            && ((forall i :: 0 <= i < |s.Contra(o)| ==> s.Contra(o)[i].price > 0) ==> paid >= 0)
  {
    hide Inv, Process, Flat, DepthOf, TakerCost, WalkCost, TruncDiv, Takes, Cost;
    NoDepth();
    var depth := DepthOf(levels, s.orders, n);
    WalkPredictsMarketOrder(s, levels, n, o, now);
    WalkIsTakes(levels, s.orders, n, o.Leaves(), 0);
    TruncIsAverage(WalkCost(depth, o.Leaves(), 0), o.Leaves());
    if forall i :: 0 <= i < |s.Contra(o)| ==> s.Contra(o)[i].price > 0 {
      PositiveCost(s.Contra(o), o.Leaves());
    }
  }

  lemma NoDepth()
    ensures DepthTotal([]) == 0
  {}

  lemma {:induction false} PositiveCost(q: seq<Resting>, n: nat)
    requires forall i :: 0 <= i < |q| ==> q[i].price > 0
    ensures Cost(Takes(q, n)) >= 0
  {
    if q != [] && n != 0 {
      var k := Min(n, q[0].leaves);
      PositiveCost(q[1..], n - k);
      CostOfFirst(q[0], q[1..], n);
      assert [q[0]] + q[1..] == q;
      ProductGrows(0, q[0].price, k);
    }
  }

  // ----- Sign and monotonicity

  /** Best-first depth for an aggressor of the given side. */
  ghost predicate SortedDepth(depth: seq<PriceLevel>, isBuy: bool) {
    forall i, j :: 0 <= i < j < |depth| ==> Key(!isBuy, depth[i].price) <= Key(!isBuy, depth[j].price)
  }

  /** Walked cost in keys. */
  function WalkKey(depth: seq<PriceLevel>, isBuy: bool, q: nat, last: Price): int {
    if depth == [] then Key(!isBuy, last) * q
    else
      var take := Min(q, depth[0].totalQty);
      Key(!isBuy, depth[0].price) * take + WalkKey(depth[1..], isBuy, q - take, depth[0].price)
  }

  lemma {:induction false} WalkKeyIs(depth: seq<PriceLevel>, isBuy: bool, q: nat, last: Price)
    ensures WalkKey(depth, isBuy, q, last) == Key(!isBuy, WalkCost(depth, q, last))
  {
    if depth == [] {
      KeyTimes(!isBuy, last, q);
    } else {
      var take := Min(q, depth[0].totalQty);
      WalkKeyIs(depth[1..], isBuy, q - take, depth[0].price);
      KeyTimes(!isBuy, depth[0].price, take);
    }
  }

  /** The key of share number q, counted from zero. */
  function ShareKey(depth: seq<PriceLevel>, isBuy: bool, q: nat, last: Price): int {
    if depth == [] then Key(!isBuy, last)
    else if q < depth[0].totalQty then Key(!isBuy, depth[0].price)
    else ShareKey(depth[1..], isBuy, q - depth[0].totalQty, depth[0].price)
  }

  lemma {:induction false} ShareKeyBound(depth: seq<PriceLevel>, isBuy: bool, q: nat, last: Price, k: int)
    requires forall i :: 0 <= i < |depth| ==> k <= Key(!isBuy, depth[i].price)
    requires depth == [] ==> k <= Key(!isBuy, last)
    ensures k <= ShareKey(depth, isBuy, q, last)
  {
    if depth != [] && q >= depth[0].totalQty {
      ShareKeyBound(depth[1..], isBuy, q - depth[0].totalQty, depth[0].price, k);
    }
  }

  /** The first q shares cost at most q times the key of the next one. */
  lemma {:induction false} WalkUpper(depth: seq<PriceLevel>, isBuy: bool, q: nat, last: Price)
    requires SortedDepth(depth, isBuy)
    ensures WalkKey(depth, isBuy, q, last) <= ShareKey(depth, isBuy, q, last) * q
  {
    if depth != [] {
      var take := Min(q, depth[0].totalQty);
      var k, m := Key(!isBuy, depth[0].price), ShareKey(depth, isBuy, q, last);
      if q < depth[0].totalQty {
        WalkNothing(depth[1..], depth[0].price);
        WalkKeyIs(depth[1..], isBuy, 0, depth[0].price);
      } else {
        WalkUpper(depth[1..], isBuy, q - take, depth[0].price);
        ShareKeyBound(depth[1..], isBuy, q - take, depth[0].price, k);
        Spread(m, k, take);
        Distribute(m, take, q - take);
      }
    }
  }

  /** Each of d further shares costs at least the key of the next one. */
  lemma {:induction false} WalkLower(depth: seq<PriceLevel>, isBuy: bool, q: nat, d: nat, last: Price)
    requires SortedDepth(depth, isBuy)
    ensures WalkKey(depth, isBuy, q + d, last) >= WalkKey(depth, isBuy, q, last) + ShareKey(depth, isBuy, q, last) * d
  {
    if depth == [] {
      Distribute(Key(!isBuy, last), q, d);
    } else {
      var k := Key(!isBuy, depth[0].price);
      var a, b := Min(q, depth[0].totalQty), Min(q + d, depth[0].totalQty);
      if q < depth[0].totalQty {
        WalkAtLeast(depth[1..], isBuy, q + d - b, depth[0].price, k);
        WalkNothing(depth[1..], depth[0].price);
        WalkKeyIs(depth[1..], isBuy, 0, depth[0].price);
        Distribute(k, b, q + d - b);
        Distribute(k, q, d);
      } else {
        WalkLower(depth[1..], isBuy, q - a, d, depth[0].price);
      }
    }
  }

  lemma {:induction false} WalkAtLeast(depth: seq<PriceLevel>, isBuy: bool, q: nat, last: Price, k: int)
    requires forall i :: 0 <= i < |depth| ==> k <= Key(!isBuy, depth[i].price)
    requires k <= Key(!isBuy, last)
    ensures WalkKey(depth, isBuy, q, last) >= k * q
  {
    if depth == [] {
      Spread(Key(!isBuy, last), k, q);
    } else {
      var take := Min(q, depth[0].totalQty);
      WalkAtLeast(depth[1..], isBuy, q - take, depth[0].price, k);
      Spread(Key(!isBuy, depth[0].price), k, take);
      Distribute(k, take, q - take);
    }
  }

  /** The average key does not fall as the quantity grows. */
  lemma AverageGrows(depth: seq<PriceLevel>, isBuy: bool, q1: nat, q2: nat)
    requires SortedDepth(depth, isBuy) && q1 <= q2
    ensures WalkKey(depth, isBuy, q1, 0) * q2 <= WalkKey(depth, isBuy, q2, 0) * q1
  {
    WalkUpper(depth, isBuy, q1, 0);
    WalkLower(depth, isBuy, q1, q2 - q1, 0);
    CrossMultiply(WalkKey(depth, isBuy, q1, 0), WalkKey(depth, isBuy, q2, 0), ShareKey(depth, isBuy, q1, 0), q1, q2 - q1);
  }

  lemma CrossMultiply(x1: int, x2: int, m: int, q: nat, d: nat)
    requires x1 <= m * q && x2 >= x1 + m * d
    ensures x1 * (q + d) <= x2 * q
  {
    assert x1 * d <= (m * q) * d;
    assert (m * q) * d == (m * d) * q;
    assert (x1 + m * d) * q <= x2 * q;
    assert (x1 + m * d) * q == x1 * q + (m * d) * q;
    assert x1 * (q + d) == x1 * q + x1 * d;
  }

  lemma CancelFactor(a: int, b: int, n: int)
    requires n > 0 && a * n <= b * n
    ensures a <= b
  {
    assert (a - b) * n == a * n - b * n;
    assert a - b >= 1 ==> (a - b) * n >= n;
  }

  lemma FloorGrows(x1: int, x2: int, q1: nat, q2: nat)
    requires 0 < q1 && 0 < q2 && x1 * q2 <= x2 * q1
    ensures x1 / q1 <= x2 / q2
  {
    var f := x1 / q1;
    assert f * q1 <= x1;
    ProductGrows(f * q1, x1, q2);
    assert (f * q1) * q2 == (f * q2) * q1;
    CancelFactor(f * q2, x2, q1);
    DivAtLeast(x2, q2, f);
  }

  /** Truncating division keeps the order of fractions, below zero too. */
  lemma TruncGrows(x1: int, x2: int, q1: nat, q2: nat)
    requires 0 < q1 && 0 < q2 && x1 * q2 <= x2 * q1
    ensures TruncDiv(x1, q1) <= TruncDiv(x2, q2)
  {
    hide TruncDiv;
    TruncIs(x1, q1);
    TruncIs(x2, q2);
    if x1 >= 0 {
      SignOfProducts(x1, x2, q1, q2);
      FloorGrows(x1, x2, q1, q2);
    } else if x2 < 0 {
      Mirrored(x1, x2, q1, q2);
      FloorGrows(-x2, -x1, q2, q1);
    }
  }

  lemma TruncIs(x: int, q: nat)
    requires q > 0
    ensures x >= 0 ==> TruncDiv(x, q) == x / q >= 0
    ensures x < 0 ==> TruncDiv(x, q) == -((-x) / q) <= 0
  {
    DivAtLeast(if x >= 0 then x else -x, q, 0);
  }

  lemma Mirrored(x1: int, x2: int, q1: nat, q2: nat)
    requires x1 * q2 <= x2 * q1
    ensures (-x2) * q1 <= (-x1) * q2
  {
    assert (-x2) * q1 == -(x2 * q1) && (-x1) * q2 == -(x1 * q2);
  }

  lemma SignOfProducts(x1: int, x2: int, q1: nat, q2: nat)
    requires 0 < q1 && 0 < q2 && x1 * q2 <= x2 * q1 && x1 >= 0
    ensures x2 >= 0
  {
    assert x1 * q2 >= 0;
    assert x2 < 0 ==> x2 * q1 < 0;
  }

  /** Whatever the arrival price and the signs of the prices, on best-first depth the estimate never falls as
      the quantity grows, on both sides, in spite of the integer division and of the continuation at the last level. */
  lemma SlippageMonotone(side: Side, q1: nat, q2: nat, arrival: Price, depth: seq<PriceLevel>)
    requires SortedDepth(depth, side == Buy) && 0 < q1 <= q2
    ensures Slippage(side, q1, arrival, depth) <= Slippage(side, q2, arrival, depth)
  {
    hide SortedDepth, WalkCost, WalkKey, TruncDiv;
    var isBuy := side == Buy;
    AverageGrows(depth, isBuy, q1, q2);
    WalkKeyIs(depth, isBuy, q1, 0);
    WalkKeyIs(depth, isBuy, q2, 0);
    var c1, c2 := WalkCost(depth, q1, 0), WalkCost(depth, q2, 0);
    if isBuy {
      TruncGrows(c1, c2, q1, q2);
    } else {
      Negated(c1, c2, q1, q2);
      TruncGrows(c2, c1, q2, q1);
    }
  }

  /** With arrival at the best level the estimate is also never negative. */
  lemma SlippageGrows(side: Side, q1: nat, q2: nat, depth: seq<PriceLevel>)
    requires depth != [] && SortedDepth(depth, side == Buy) && q1 <= q2
    ensures 0 <= Slippage(side, q1, depth[0].price, depth) <= Slippage(side, q2, depth[0].price, depth)
  {
    hide SortedDepth, WalkCost, TruncDiv;
    SlippageNonNegative(side, q1, depth);
    SlippageNonNegative(side, q2, depth);
    if q1 > 0 {
      SlippageMonotone(side, q1, q2, depth[0].price, depth);
    }
  }

  lemma Negated(c1: int, c2: int, q1: nat, q2: nat)
    requires (-c1) * q2 <= (-c2) * q1
    ensures c2 * q1 <= c1 * q2
  {}

  lemma SlippageNonNegative(side: Side, q: nat, depth: seq<PriceLevel>)
    requires depth != [] && SortedDepth(depth, side == Buy)
    ensures Slippage(side, q, depth[0].price, depth) >= 0
  {
    hide SortedDepth, WalkCost, WalkKey;
    if q > 0 {
      var isBuy := side == Buy;
      var p, c := depth[0].price, WalkCost(depth, q, 0);
      FirstLevelIsBest(depth, isBuy, q);
      WalkKeyIs(depth, isBuy, q, 0);
      ByOne(p);
      hide TruncDiv;
      if isBuy {
        TruncGrows(p, c, 1, q);
      } else {
        NegatedProduct(p, q);
        TruncGrows(c, p, q, 1);
      }
    }
  }

  lemma ByOne(p: int)
    ensures TruncDiv(p, 1) == p
  {}

  lemma NegatedProduct(p: int, q: nat)
    ensures (-p) * q == -(p * q)
  {}

  lemma FirstLevelIsBest(depth: seq<PriceLevel>, isBuy: bool, q: nat)
    requires depth != [] && SortedDepth(depth, isBuy)
    ensures WalkKey(depth, isBuy, q, 0) >= Key(!isBuy, depth[0].price) * q
  {
    var k := Key(!isBuy, depth[0].price);
    var take := Min(q, depth[0].totalQty);
    WalkAtLeast(depth[1..], isBuy, q - take, depth[0].price, k);
    Distribute(k, take, q - take);
  }

  // ----- On a real book

  /** The depth of a valid side is sorted from its best price. */
  lemma DepthIsSorted(levels: seq<Level>, isBid: bool, orders: map<OrderId, Order>, n: nat)
    requires ValidLevels(levels, isBid)
    ensures SortedDepth(DepthOf(levels, orders, n), !isBid)
  {
    hide DepthOf, QueueShares;
    DepthSize(levels, orders, n);
    forall k | 0 <= k < |DepthOf(levels, orders, n)| ensures DepthOf(levels, orders, n)[k].price == levels[k].price {
      DepthAt(levels, orders, n, k);
    }
  }

  /** On the depth of a valid contra side, with the best contra price as arrival, slippage is never negative
      and never falls as the quantity grows. */
  lemma SlippageOnBook(side: Side, levels: seq<Level>, orders: map<OrderId, Order>, n: nat, q1: nat, q2: nat)
    requires ValidLevels(levels, side != Buy) && levels != [] && n > 0 && q1 <= q2
    ensures var depth := DepthOf(levels, orders, n);
            0 <= Slippage(side, q1, levels[0].price, depth) <= Slippage(side, q2, levels[0].price, depth)
  {
    hide DepthOf, SortedDepth, ValidLevels, Slippage;
    DepthIsSorted(levels, side != Buy, orders, n);
    DepthAt(levels, orders, n, 0);
    SlippageGrows(side, q1, q2, DepthOf(levels, orders, n));
  }
}
