/** What the matching engine of one symbol does, stated on price-time lists, and what every
    processed order and every cancellation keeps. The classes OrderBook and MatchingEngine are
    proved to do exactly this. */
module EngineSpec {
  import opened Basics
  import opened ExchangeTypes
  import opened PriceTime

  /** The engine and its book. `orders` also keeps the orders that were filled completely. */
  datatype EngineState = EngineState(
    bids: seq<Resting>,
    asks: seq<Resting>,
    orders: map<OrderId, Order>,
    fills: seq<Fill>,
    fillsGenerated: nat,
    nextFillId: nat,
    ordersProcessed: nat)
  {
    /** The side an order trades against. */
    function Contra(o: Order): seq<Resting> { if o.IsBuy() then asks else bids }
  }

  const EMPTY_ENGINE := EngineState([], [], map[], [], 0, 1, 0)

  // ----- One execution

  /** The new state of an order that trades q shares. */
  function Executed(o: Order, q: nat, now: Timestamp): Order {
    o.(filledQty := Min(o.filledQty + q, o.qty),
       status := if o.filledQty + q >= o.qty then Filled else PartiallyFilled,
       lastFillTs := now)
  }

  function FillOf(o: Order, id: nat, price: Price, q: nat, now: Timestamp, aggressive: bool): Fill {
    Fill(id, o.id, o.symbolId, o.side, price, q, now, aggressive)
  }

  /** One step of the sweep: the aggressor takes t from the first contra order. */
  function ExecuteOne(s: EngineState, o: Order, t: Take, now: Timestamp): (EngineState, Order) {
    if t.id !in s.orders then (s, o)
    else
    var resting := s.orders[t.id];
    (s.(bids := if o.IsBuy() then s.bids else Consume(s.bids, t.qty),
        asks := if o.IsBuy() then Consume(s.asks, t.qty) else s.asks,
        orders := s.orders[t.id := Executed(resting, t.qty, now)],
        fills := s.fills + [FillOf(o, s.nextFillId, t.price, t.qty, now, true),
                            FillOf(resting, s.nextFillId + 1, t.price, t.qty, now, false)],
        fillsGenerated := s.fillsGenerated + 1,
        nextFillId := s.nextFillId + 2),
     Executed(o, t.qty, now))
  }

  function Execute(s: EngineState, o: Order, ts: seq<Take>, now: Timestamp): (EngineState, Order)
    decreases |ts|
  {
    if ts == [] then (s, o)
    else
      var (s1, o1) := ExecuteOne(s, o, ts[0], now);
      Execute(s1, o1, ts[1..], now)
  }

  // ----- The sweep and the order types

  /** How much the sweep trades: all the order wants, or all it can get within its limit. */
  function SweepQty(s: EngineState, o: Order, limit: Price): nat
    requires o.WellFormed()
  {
    Min(o.Leaves(), Available(s.Contra(o), o.IsBuy(), limit))
  }

  function Sweep(s: EngineState, o: Order, limit: Price, now: Timestamp): (EngineState, Order)
    requires o.WellFormed()
  {
    Execute(s, o, Takes(s.Contra(o), SweepQty(s, o, limit)), now)
  }

  function CancelResidual(o: Order, now: Timestamp): Order {
    o.(status := Cancelled, lastFillTs := now)
  }

  /** Shares resting at exactly price p. */
  function SharesAt(q: seq<Resting>, p: Price): nat {
    if q == [] then 0 else (if q[0].price == p then q[0].leaves else 0) + SharesAt(q[1..], p)
  }

  /** Shares resting at price p in front of an order. */
  function SharesBeforeAt(q: seq<Resting>, p: Price, id: OrderId): nat {
    if q == [] || q[0].id == id then 0
    else (if q[0].price == p then q[0].leaves else 0) + SharesBeforeAt(q[1..], p, id)
  }

  /** The queue position of an order: the shares at its own price that were there before it. */
  function AheadAtPrice(s: EngineState, id: OrderId): nat {
    if !Cancellable(s, id) then 0
    else SharesBeforeAt(if s.orders[id].IsBuy() then s.bids else s.asks, s.orders[id].limitPrice, id)
  }

  /** The residual of a limit order joins its own side. */
  function Rest(s: EngineState, o: Order): (EngineState, Order)
    requires o.Leaves() >= 0
  {
    var side := if o.IsBuy() then s.bids else s.asks;
    var o1 := o.(queuePos := SharesAt(side, o.limitPrice));
    var side1 := Insert(side, o.IsBuy(), Resting(o.id, o.limitPrice, o.Leaves()));
    (s.(bids := if o.IsBuy() then side1 else s.bids,
        asks := if o.IsBuy() then s.asks else side1,
        orders := s.orders[o.id := o1]),
     o1)
  }

  /** The price limit of the sweep; a market order has none. */
  function LimitOf(o: Order): Price { if o.otype == Market then 0 else o.limitPrice }

  function Process(s: EngineState, o: Order, now: Timestamp): (EngineState, Order)
    requires o.WellFormed()
  {
    var s0 := s.(ordersProcessed := s.ordersProcessed + 1);
    var o0 := o.(submitTs := now);
    match o.otype
    case Market =>
      var (s1, o1) := Sweep(s0, o0, 0, now);
      (s1, if o1.Leaves() > 0 then CancelResidual(o1, now) else o1)
    case Limit =>
      var (s1, o1) := Sweep(s0, o0, o0.limitPrice, now);
      if o1.Leaves() > 0 then Rest(s1, o1) else (s1, o1)
    case IOC =>
      var (s1, o1) := Sweep(s0, o0, o0.limitPrice, now);
      (s1, if o1.Leaves() > 0 then CancelResidual(o1, now) else o1)
    case FOK =>
      if SweepQty(s0, o0, o0.limitPrice) < o0.qty then
        (s0, o0.(status := Rejected, rejectReason := InsufficientLiquidity))
      else
        Sweep(s0, o0, o0.limitPrice, now)
  }

  /** A resting order leaves the book; anything else is not cancellable. */
  predicate Cancellable(s: EngineState, id: OrderId) {
    id in s.orders && s.orders[id].Leaves() > 0
  }

  function Cancel(s: EngineState, id: OrderId): EngineState {
    if Cancellable(s, id) then
      s.(bids := if s.orders[id].IsBuy() then RemoveId(s.bids, id) else s.bids,
         asks := if s.orders[id].IsBuy() then s.asks else RemoveId(s.asks, id),
         orders := s.orders - {id})
    else s
  }

  /** A resting order loses q shares, as the book records it. */
  function Reduced(o: Order, q: nat): Order {
    o.(filledQty := Min(o.filledQty + q, o.qty),
       status := if o.filledQty + q >= o.qty then Filled else PartiallyFilled)
  }

  function ReduceQty(s: EngineState, id: OrderId, q: nat): EngineState {
    if id !in s.orders then s
    else
      s.(bids := if s.orders[id].IsBuy() then Reduce(s.bids, id, q) else s.bids,
         asks := if s.orders[id].IsBuy() then s.asks else Reduce(s.asks, id, q),
         orders := s.orders[id := Reduced(s.orders[id], q)])
  }

  // ----- Invariant

  /** Every listed order is an order of the book, on its own side, with shares left. */
  ghost predicate SideBacked(q: seq<Resting>, isBid: bool, orders: map<OrderId, Order>) {
    forall i :: 0 <= i < |q| ==>
      && q[i].id in orders
      && var o := orders[q[i].id];
         o.id == q[i].id && o.limitPrice == q[i].price && o.IsBuy() == isBid && o.Leaves() == q[i].leaves > 0
  }

  ghost predicate Backed(s: EngineState) {
    SideBacked(s.bids, true, s.orders) && SideBacked(s.asks, false, s.orders)
  }

  ghost predicate Ordered(s: EngineState) {
    Sorted(s.bids, true) && Sorted(s.asks, false) && DistinctIds(s.bids) && DistinctIds(s.asks)
  }

  /** Every order of the book with shares left is listed. */
  ghost predicate Listed(s: EngineState) {
    forall id :: id in s.orders ==>
      && s.orders[id].WellFormed()
      && (s.orders[id].Leaves() > 0 ==> id in Ids(if s.orders[id].IsBuy() then s.bids else s.asks))
  }

  /** No buyer is willing to pay what a seller asks. */
  ghost predicate Uncrossed(s: EngineState) {
    forall i, j :: 0 <= i < |s.bids| && 0 <= j < |s.asks| ==> s.bids[i].price < s.asks[j].price
  }

  /** Lists and order table agree. */
  ghost predicate Sound(s: EngineState) {
    Backed(s) && Ordered(s) && Listed(s)
  }

  ghost predicate Inv(s: EngineState) {
    Sound(s) && Uncrossed(s) && s.nextFillId == 2 * s.fillsGenerated + 1
  }

  // ----- The takes of a sweep

  lemma {:induction false} TakesIds(q: seq<Resting>, n: nat)
    ensures forall i :: 0 <= i < |Takes(q, n)| ==> Takes(q, n)[i].id in Ids(q)
  {
    if q != [] && n != 0 {
      var k := Min(n, q[0].leaves);
      TakesIds(q[1..], n - k);
      IdsCons(q);
      assert Takes(q, n)[1..] == Takes(q[1..], n - k);
    }
  }

  /** The aggressor's own fields after any list of takes. */
  lemma {:induction false} ExecuteOrder(s: EngineState, o: Order, ts: seq<Take>, now: Timestamp)
    requires forall i :: 0 <= i < |ts| ==> ts[i].id in s.orders
    requires o.filledQty + TotalQty(ts) <= o.qty
    requires forall i :: 0 <= i < |ts| ==> ts[i].qty > 0
    ensures var o1 := Execute(s, o, ts, now).1;
            && o1 == o.(filledQty := o1.filledQty, status := o1.status, lastFillTs := o1.lastFillTs)
            && o1.filledQty == o.filledQty + TotalQty(ts)
            && o1.status == (if ts == [] then o.status else if o1.Leaves() == 0 then Filled else PartiallyFilled)
            && o1.lastFillTs == if ts == [] then o.lastFillTs else now
    decreases |ts|
  {
    if ts != [] {
      var (s1, o1) := ExecuteOne(s, o, ts[0], now);
      ExecuteOrder(s1, o1, ts[1..], now);
    }
  }

  lemma {:induction false} TakesPositive(q: seq<Resting>, n: nat)
    requires forall i :: 0 <= i < |q| ==> q[i].leaves > 0
    ensures forall i :: 0 <= i < |Takes(q, n)| ==> Takes(q, n)[i].qty > 0
    ensures n > 0 && q != [] ==> Takes(q, n) != []
  {
    if q != [] && n != 0 {
      var k := Min(n, q[0].leaves);
      TakesPositive(q[1..], n - k);
    }
  }

  /** A sweep fills the aggressor by exactly SweepQty shares. */
  lemma SweepOrder(s: EngineState, o: Order, limit: Price, now: Timestamp)
    requires o.WellFormed() && Backed(s)
    ensures var o1 := Sweep(s, o, limit, now).1;
            && o1.WellFormed()
            && o1 == o.(filledQty := o.filledQty + SweepQty(s, o, limit), status := o1.status, lastFillTs := o1.lastFillTs)
            && o1.status == (if SweepQty(s, o, limit) == 0 then o.status
                             else if o1.Leaves() == 0 then Filled else PartiallyFilled)
            && o1.lastFillTs == if SweepQty(s, o, limit) == 0 then o.lastFillTs else now
  {
    var q, n := s.Contra(o), SweepQty(s, o, limit);
    AvailableBound(q, o.IsBuy(), limit);
    TakesIds(q, n);
    TakesTotal(q, n);
    TakesPositive(q, n);
    if n > 0 { assert q != []; }
    ExecuteOrder(s, o, Takes(q, n), now);
  }
}
