/** One iteration of the sweep loop, seen from the price-time lists. */
module SweepSteps {
  import opened Basics
  import opened ExchangeTypes
  import opened PriceTime
  import opened EngineSpec
  import opened EngineInvariant
  import opened BookLevels
  import opened BookInvariant

  /** The take an iteration makes from the first contra order. */
  function NextTake(q: seq<Resting>, o: Order): Take
    requires q != [] && o.WellFormed()
  {
    Take(q[0].id, q[0].price, Min(o.Leaves(), q[0].leaves))
  }

  lemma AvailableAfter(q: seq<Resting>, isBuy: bool, limit: Price, k: nat)
    requires q != [] && Crosses(isBuy, limit, q[0].price) && 0 < k <= q[0].leaves
    ensures Available(Consume(q, k), isBuy, limit) == Available(q, isBuy, limit) - k
  {
    assert Consume(q[1..], 0) == q[1..];
    if k < q[0].leaves {
      assert Consume(q, k)[1..] == q[1..];
    }
  }

  ghost predicate CanTrade(s: EngineState, o: Order, limit: Price) {
    o.WellFormed() && o.Leaves() > 0 && s.Contra(o) != [] && Crosses(o.IsBuy(), limit, s.Contra(o)[0].price)
  }

  lemma NextTakeIsFront(s: EngineState, o: Order, limit: Price)
    requires Inv(s) && CanTrade(s, o, limit)
    ensures IsFront(s.Contra(o), NextTake(s.Contra(o), o))
    ensures NextTake(s.Contra(o), o).id in s.orders
    ensures s.orders[NextTake(s.Contra(o), o).id].Leaves() == s.Contra(o)[0].leaves
    ensures forall i :: 0 <= i < |s.Contra(o)| ==> s.Contra(o)[i].leaves > 0
  {}

  /** After one iteration the rest of the sweep is the sweep from there. */
  lemma SweepStep(s: EngineState, o: Order, limit: Price, now: Timestamp)
    requires Inv(s) && CanTrade(s, o, limit)
    ensures var t := NextTake(s.Contra(o), o);
            var (s1, o1) := ExecuteOne(s, o, t, now);
            && Inv(s1) && s1.orders.Keys == s.orders.Keys
            && o1.WellFormed() && o1.id == o.id && o1.side == o.side && o1.Leaves() == o.Leaves() - t.qty
            && t.qty > 0
            && Sweep(s, o, limit, now) == Sweep(s1, o1, limit, now)
            && SweepQty(s, o, limit) == t.qty + SweepQty(s1, o1, limit)
  {
    hide Inv, Consume, Takes, Available, Crosses;
    var q := s.Contra(o);
    var t := NextTake(q, o);
    var n := SweepQty(s, o, limit);
    NextTakeIsFront(s, o, limit);
    ExecuteOneInv(s, o, t, now);
    AvailableAfter(q, o.IsBuy(), limit, t.qty);
    AvailableAtLeast(q, o.IsBuy(), limit);
    AvailableBound(q, o.IsBuy(), limit);
    FirstTake(q, n);
    FirstTakeIs(q, n);
    var (s1, o1) := ExecuteOne(s, o, t, now);
    assert s1.Contra(o1) == Consume(q, t.qty);
    assert Takes(q, n)[0] == t;
  }

  lemma AvailableAtLeast(q: seq<Resting>, isBuy: bool, limit: Price)
    requires q != [] && Crosses(isBuy, limit, q[0].price)
    ensures Available(q, isBuy, limit) >= q[0].leaves
  {}

  lemma FirstTakeIs(q: seq<Resting>, n: nat)
    requires q != [] && n > 0
    ensures Takes(q, n) != [] && Takes(q, n)[0] == Take(q[0].id, q[0].price, Min(n, q[0].leaves))
  {}

  lemma SweepDone(s: EngineState, o: Order, limit: Price, now: Timestamp)
    requires o.WellFormed() && !CanTrade(s, o, limit)
    ensures Sweep(s, o, limit, now) == (s, o) && SweepQty(s, o, limit) == 0
  {}

  /** What EmitFill writes to the resting order before the book reduces it. */
  function Touched(o: Order, q: nat, now: Timestamp): Order {
    o.(lastFillTs := now, status := if o.filledQty + q >= o.qty then Filled else PartiallyFilled)
  }

  /** Touching and reducing the first contra order is one execution. */
  lemma StepMatches(s: EngineState, v: EngineState, o: Order, t: Take, now: Timestamp)
    requires Inv(s) && IsFront(s.Contra(o), t) && v.bids == s.bids && v.asks == s.asks && v.orders == s.orders
    ensures t.id in s.orders
    ensures var s1 := ExecuteOne(s, o, t, now).0;
            var s' := ReduceQty(v.(orders := s.orders[t.id := Touched(s.orders[t.id], t.qty, now)]), t.id, t.qty);
            s'.bids == s1.bids && s'.asks == s1.asks && s'.orders == s1.orders
  {
    FrontSide(s, o, t);
    hide Inv, Consume, Reduce;
    ReduceFront(s.Contra(o), t.qty);
  }

  lemma FrontSide(s: EngineState, o: Order, t: Take)
    requires Inv(s) && IsFront(s.Contra(o), t)
    ensures t.id in s.orders && s.orders[t.id].IsBuy() != o.IsBuy() && DistinctIds(s.Contra(o))
  {}

  /** Changing timestamps and statuses does not disturb the book. */
  lemma TouchOk(bids: seq<Level>, asks: seq<Level>, orders: map<OrderId, Order>, sides: map<OrderId, Side>,
                id: OrderId, q: nat, now: Timestamp)
    requires BookOk(bids, asks, orders, sides) && id in orders
    ensures var orders' := orders[id := Touched(orders[id], q, now)];
            && BookOk(bids, asks, orders', sides)
            && ViewOf(bids, asks, orders') == ViewOf(bids, asks, orders).(orders := orders')
  {
    hide Flat, ValidLevels, Sound;
    var orders' := orders[id := Touched(orders[id], q, now)];
    FlatFrame(bids, orders, orders');
    FlatFrame(asks, orders, orders');
    TouchSound(ViewOf(bids, asks, orders), id, q, now);
  }

  lemma TouchBacked(q: seq<Resting>, isBid: bool, orders: map<OrderId, Order>, id: OrderId, n: nat, now: Timestamp)
    requires SideBacked(q, isBid, orders) && id in orders
    ensures SideBacked(q, isBid, orders[id := Touched(orders[id], n, now)])
  {}

  lemma TouchListed(s: EngineState, id: OrderId, n: nat, now: Timestamp)
    requires Listed(s) && id in s.orders
    ensures Listed(s.(orders := s.orders[id := Touched(s.orders[id], n, now)]))
  {
    hide Ids;
  }

  lemma TouchSound(s: EngineState, id: OrderId, q: nat, now: Timestamp)
    requires Sound(s) && id in s.orders
    ensures Sound(s.(orders := s.orders[id := Touched(s.orders[id], q, now)]))
  {
    hide SideBacked, Listed, Sorted, DistinctIds, Touched;
    TouchBacked(s.bids, true, s.orders, id, q, now);
    TouchBacked(s.asks, false, s.orders, id, q, now);
    TouchListed(s, id, q, now);
  }

  /** The head of the first queue is the first resting order of the side. */
  lemma FrontOfLevels(levels: seq<Level>, isBid: bool, orders: map<OrderId, Order>)
    requires ValidLevels(levels, isBid)
    ensures levels == [] <==> Flat(levels, orders) == []
    ensures levels != [] ==>
              && levels[0].queue != []
              && Flat(levels, orders)[0] == Resting(levels[0].queue[0], levels[0].price, LeavesOf(orders, levels[0].queue[0]))
  {}

  // ----- The availability check

  lemma {:induction false} AvailableQueue(queue: seq<OrderId>, p: Price, rest: seq<Resting>, orders: map<OrderId, Order>,
                                          isBuy: bool, limit: Price)
    requires Crosses(isBuy, limit, p)
    ensures Available(FlatQueue(queue, p, orders) + rest, isBuy, limit)
         == QueueShares(queue, orders) + Available(rest, isBuy, limit)
  {
    var f := FlatQueue(queue, p, orders);
    if queue == [] {
      assert f + rest == rest;
    } else {
      AvailableQueue(queue[1..], p, rest, orders, isBuy, limit);
      assert (f + rest)[1..] == FlatQueue(queue[1..], p, orders) + rest;
    }
  }

  /** One level offers its whole queue, or ends the acceptable part of the side. */
  lemma AvailableLevel(levels: seq<Level>, orders: map<OrderId, Order>, isBuy: bool, limit: Price)
    requires levels != [] && levels[0].queue != []
    ensures Available(Flat(levels, orders), isBuy, limit)
         == if Crosses(isBuy, limit, levels[0].price)
            then QueueShares(levels[0].queue, orders) + Available(Flat(levels[1..], orders), isBuy, limit)
            else 0
  {
    if Crosses(isBuy, limit, levels[0].price) {
      AvailableQueue(levels[0].queue, levels[0].price, Flat(levels[1..], orders), orders, isBuy, limit);
    }
  }
}
