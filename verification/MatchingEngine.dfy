/** The matching engine: it sweeps the contra side of its book level by level and order by
    order. Its effect on the book, on the order and on the fill log is the one EngineSpec
    describes on price-time lists. */
module MatchingEngines {
  import opened Basics
  import opened ExchangeTypes
  import opened PriceTime
  import opened EngineSpec
  import opened EngineInvariant
  import opened BookLevels
  import opened BookInvariant
  import opened OrderBooks
  import opened SweepSteps

  class MatchingEngine {
    const book: OrderBook
    // The fills passed to the fill callback, in order.
    var fills: seq<Fill>
    var fillsGenerated: nat
    var nextFillId: nat
    var ordersProcessed: nat

    /** The objects the engine owns. */
    ghost function Footprint(): set<object> { {this, book, book.bids, book.asks} }

    ghost predicate Valid()
      reads Footprint()
    {
      book.Valid() && Inv(State())
    }

    ghost function State(): EngineState
      reads Footprint()
    {
      book.View().(fills := fills, fillsGenerated := fillsGenerated, nextFillId := nextFillId,
                   ordersProcessed := ordersProcessed)
    }

    constructor (book: OrderBook)
      requires book.Valid() && book.View() == EMPTY_ENGINE
      ensures Valid() && this.book == book && State() == EMPTY_ENGINE
    {
      this.book := book;
      fills, fillsGenerated, nextFillId, ordersProcessed := [], 0, 1, 0;
    }

    /** One execution: both orders and both fills. The resting order is updated in the book. */
    method EmitFill(aggressor: Order, restingId: OrderId, price: Price, qty: nat, now: Timestamp) returns (aggressor': Order)
      requires restingId in book.orders
      modifies this`fills, this`fillsGenerated, this`nextFillId, book`orders
      ensures aggressor' == aggressor.(filledQty := aggressor.filledQty + qty,
                                       status := if aggressor.filledQty + qty >= aggressor.qty then Filled else PartiallyFilled,
                                       lastFillTs := now)
      ensures var resting := old(book.orders)[restingId];
              && fills == old(fills) + [Fill(old(nextFillId), aggressor.id, aggressor.symbolId, aggressor.side,
                                             price, qty, now, true),
                                        Fill(old(nextFillId) + 1, resting.id, resting.symbolId, resting.side,
                                             price, qty, now, false)]
              && book.orders == old(book.orders)[restingId := resting.(
                    lastFillTs := now, status := if resting.filledQty + qty >= resting.qty then Filled else PartiallyFilled)]
      ensures fillsGenerated == old(fillsGenerated) + 1 && nextFillId == old(nextFillId) + 2
    {
      fillsGenerated := fillsGenerated + 1;
      var aggFill := Fill(nextFillId, aggressor.id, aggressor.symbolId, aggressor.side, price, qty, now, true);
      nextFillId := nextFillId + 1;
      aggressor' := aggressor.(filledQty := aggressor.filledQty + qty, lastFillTs := now);
      if aggressor'.filledQty >= aggressor'.qty {
        aggressor' := aggressor'.(status := Filled);
      } else {
        aggressor' := aggressor'.(status := PartiallyFilled);
      }
      fills := fills + [aggFill];

      var resting := book.orders[restingId];
      var restFill := Fill(nextFillId, resting.id, resting.symbolId, resting.side, price, qty, now, false);
      nextFillId := nextFillId + 1;
      resting := resting.(lastFillTs := now);
      if resting.filledQty + qty >= resting.qty {
        resting := resting.(status := Filled);
      } else {
        resting := resting.(status := PartiallyFilled);
      }
      book.orders := book.orders[restingId := resting];
      fills := fills + [restFill];
    }

    /** The inner loop of the check: how much of a need one queue covers. */
    method CheckQueue(queue: seq<OrderId>, wanted: nat) returns (available: nat)
      requires forall id :: id in book.orders ==> book.orders[id].WellFormed()
      ensures available == Min(wanted, QueueShares(queue, book.orders))
    {
      hide QueueShares;
      available := 0;
      var needed: nat := wanted;
      var j := 0;
      assert queue[0..] == queue;
      while j < |queue|
        invariant j <= |queue| && available + needed == wanted
        invariant if needed > 0 then available + QueueShares(queue[j..], book.orders) == QueueShares(queue, book.orders)
                  else wanted <= QueueShares(queue, book.orders)
      {
        if needed == 0 { break; }
        QueueHead(queue, j, book.orders);
        if queue[j] in book.orders {
          var qty := Min(needed, book.orders[queue[j]].Leaves());
          available := available + qty;
          needed := needed - qty;
        }
        j := j + 1;
      }
      NoQueue(queue, j, book.orders);
    }

    /** The check-only pass: what the sweep would trade, without trading. */
    method CheckContra(order: Order, limit: Price) returns (available: nat)
      requires Valid() && order.WellFormed()
      ensures available == SweepQty(State(), order, limit)
    {
      hide Flat, Crosses, Available, QueueShares, Inv, BookOk;
      var isBuy := order.IsBuy();
      var levels := (if isBuy then book.asks else book.bids).levels;
      BookFacts();
      ghost var orders := book.orders;
      available := 0;
      var needed: nat := order.Leaves();
      var i := 0;
      assert levels[0..] == levels;
      while i < |levels|
        invariant i <= |levels|
        invariant available + needed == order.Leaves()
        invariant if needed > 0 then available + Available(Flat(levels[i..], orders), isBuy, limit) == Available(Flat(levels, orders), isBuy, limit)
                  else order.Leaves() <= Available(Flat(levels, orders), isBuy, limit)
      {
        if needed == 0 { break; }
        LevelAt(levels, i, orders, isBuy, limit);
        if limit > 0 && (if isBuy then levels[i].price > limit else levels[i].price < limit) { break; }
        var qty := CheckQueue(levels[i].queue, needed);
        available := available + qty;
        needed := needed - qty;
        i := i + 1;
      }
      NoLevels(levels, i, orders, isBuy, limit);
    }

    /** The real sweep: fill against the head of the best contra queue until the order is done,
        the side is empty, or its best price is beyond the limit. Every iteration fills at least
        one share. */
    method ExecuteContra(order: Order, limit: Price, now: Timestamp) returns (o1: Order, filledTotal: nat)
      requires Valid() && order.WellFormed() && order.id !in book.orders
      modifies this`fills, this`fillsGenerated, this`nextFillId, book, book.bids, book.asks
      ensures Valid()
      ensures (State(), o1) == Sweep(old(State()), order, limit, now)
      ensures filledTotal == SweepQty(old(State()), order, limit)
    {
      hide Inv, Sweep, SweepQty, BookOk, Flat, Crosses, ExecuteOne, EngineSpec.ReduceQty, ValidLevels, IsBest;
      o1, filledTotal := order, 0;
      var isBuy := order.IsBuy();
      var side := if isBuy then book.asks else book.bids;
      while o1.Leaves() > 0
        invariant Valid() && o1.WellFormed() && o1.IsBuy() == isBuy
        invariant Sweep(State(), o1, limit, now) == Sweep(old(State()), order, limit, now)
        invariant filledTotal + SweepQty(State(), o1, limit) == SweepQty(old(State()), order, limit)
        decreases o1.Leaves()
      {
        FrontFacts(isBuy);
        var best := side.BestPrice();
        if best.None? { break; }
        var price := best.value;
        CrossesIs(isBuy, limit, price);
        if limit > 0 && (if isBuy then price > limit else price < limit) { break; }
        var restingId := side.levels[0].queue[0];
        ghost var s := State();
        ghost var t := NextTake(s.Contra(o1), o1);
        NextTakeIsFront(s, o1, limit);
        SweepStep(s, o1, limit, now);
        StepMatches(s, book.View(), o1, t, now);
        var fillQty: nat := Min(o1.Leaves(), book.orders[restingId].Leaves());
        assert restingId == t.id && fillQty == t.qty && price == t.price;
        filledTotal := filledTotal + fillQty;
        ExecuteOneIs(s, o1, t, now);
        TouchOk(book.bids.levels, book.asks.levels, book.orders, book.orderSide, restingId, fillQty, now);
        ghost var (s1, next) := ExecuteOne(s, o1, t, now);
        o1 := EmitFill(o1, restingId, price, fillQty, now);
        book.ReduceQty(restingId, fillQty);
        assert State() == s1 && o1 == next;
      }
      SweepDone(State(), o1, limit, now);
    }

    /** One sweep, real or check-only; the result is the quantity traded or tradable. */
    method SweepContra(order: Order, limit: Price, now: Timestamp, checkOnly: bool) returns (o1: Order, quantity: nat)
      requires Valid() && order.WellFormed() && order.id !in book.orders
      modifies this`fills, this`fillsGenerated, this`nextFillId, book, book.bids, book.asks
      ensures Valid() && quantity == SweepQty(old(State()), order, limit)
      ensures checkOnly ==> o1 == order && State() == old(State())
      ensures !checkOnly ==> (State(), o1) == Sweep(old(State()), order, limit, now)
    {
      hide Inv, Sweep, SweepQty, BookOk, Flat;
      if checkOnly {
        o1 := order;
        quantity := CheckContra(order, limit);
      } else {
        o1, quantity := ExecuteContra(order, limit, now);
      }
    }

    static method CancelRemainder(order: Order, now: Timestamp) returns (o1: Order)
      requires order.WellFormed() && order.Leaves() > 0
      ensures o1 == CancelResidual(order, now)
    {
      o1 := order;
      if order.filledQty == 0 {
        o1 := o1.(status := Cancelled);
      } else if order.filledQty < order.qty {
        o1 := o1.(status := Cancelled);
      }
      o1 := o1.(lastFillTs := now);
    }

    method MatchMarket(order: Order, now: Timestamp) returns (o1: Order)
      requires Valid() && order.WellFormed() && order.id !in book.orders
      modifies this`fills, this`fillsGenerated, this`nextFillId, book, book.bids, book.asks
      ensures Valid()
      ensures var (s1, swept) := Sweep(old(State()), order, 0, now);
              State() == s1 && o1 == if swept.Leaves() > 0 then CancelResidual(swept, now) else swept
    {
      hide Inv, Sweep, SweepQty, BookOk, Flat, CancelResidual;
      ValidOrder(order, 0, now);
      var traded: nat;
      o1, traded := SweepContra(order, 0, now, false);
      if o1.Leaves() > 0 {
        o1 := CancelRemainder(o1, now);
      }
    }

    method MatchLimit(order: Order, now: Timestamp, restOnBook: bool) returns (o1: Order)
      requires Valid() && order.WellFormed() && order.id !in book.orders
      modifies this`fills, this`fillsGenerated, this`nextFillId, book, book.bids, book.asks
      ensures Valid()
      ensures var (s1, swept) := Sweep(old(State()), order, order.limitPrice, now);
              (State(), o1) == if swept.Leaves() <= 0 then (s1, swept)
                               else if restOnBook then Rest(s1, swept)
                               else (s1, CancelResidual(swept, now))
    {
      hide Inv, Sweep, SweepQty, BookOk, Flat, CancelResidual, Insert, SharesAt;
      ghost var s := State();
      ValidOrder(order, order.limitPrice, now);
      var traded: nat;
      o1, traded := SweepContra(order, order.limitPrice, now, false);
      if o1.Leaves() > 0 {
        if restOnBook {
          SweepLeavesRoom(s, order, now);
          o1 := book.Add(o1);
        } else {
          o1 := CancelRemainder(o1, now);
        }
      }
    }

    /** Immediate-or-cancel borrows the limit sweep under another type. */
    method MatchIoc(order: Order, now: Timestamp) returns (o1: Order)
      requires Valid() && order.WellFormed() && order.id !in book.orders && order.otype == IOC
      modifies this`fills, this`fillsGenerated, this`nextFillId, book, book.bids, book.asks
      ensures Valid()
      ensures var (s1, swept) := Sweep(old(State()), order, order.limitPrice, now);
              State() == s1 && o1 == if swept.Leaves() > 0 then CancelResidual(swept, now) else swept
    {
      hide Inv, Sweep, SweepQty, BookOk, Flat;
      SweepIgnoresType(State(), order, order.limitPrice, Limit, now);
      o1 := order.(otype := Limit);
      o1 := MatchLimit(o1, now, false);
      o1 := o1.(otype := IOC);
    }

    method MatchFok(order: Order, now: Timestamp) returns (o1: Order)
      requires Valid() && order.WellFormed() && order.id !in book.orders && order.otype == FOK
      modifies this`fills, this`fillsGenerated, this`nextFillId, book, book.bids, book.asks
      ensures Valid()
      ensures (State(), o1) == if SweepQty(old(State()), order, order.limitPrice) < order.qty
                               then (old(State()), order.(status := Rejected, rejectReason := InsufficientLiquidity))
                               else Sweep(old(State()), order, order.limitPrice, now)
    {
      hide Inv, Sweep, SweepQty, BookOk, Flat;
      var available: nat;
      o1, available := SweepContra(order, order.limitPrice, now, true);
      if available < order.qty {
        o1 := order.(status := Rejected, rejectReason := InsufficientLiquidity);
        return;
      }
      SweepIgnoresType(State(), order, order.limitPrice, Limit, now);
      o1 := order.(otype := Limit);
      o1, available := SweepContra(o1, order.limitPrice, now, false);
      o1 := o1.(otype := FOK);
    }

    /** Every order type, with exactly the effect the specification gives it. */
    method Process(order: Order, now: Timestamp) returns (o1: Order)
      requires Valid() && order.WellFormed() && order.id !in book.orders
      modifies this`fills, this`fillsGenerated, this`nextFillId, this`ordersProcessed, book, book.bids, book.asks
      ensures Valid()
      ensures (State(), o1) == EngineSpec.Process(old(State()), order, now)
    {
      hide Inv, Sweep, SweepQty, BookOk, Flat, Rest;
      CountingKeepsInv(State());
      ordersProcessed := ordersProcessed + 1;
      o1 := order.(submitTs := now);
      match order.otype {
        case Market => o1 := MatchMarket(o1, now);
        case Limit => o1 := MatchLimit(o1, now, true);
        case IOC => o1 := MatchIoc(o1, now);
        case FOK => o1 := MatchFok(o1, now);
      }
    }

    /** What a cancellation in the engine's book, made by the router, does to the engine. */
    method CancelInBook(id: OrderId) returns (ok: bool)
      requires Valid()
      modifies book, book.bids, book.asks
      ensures Valid() && State() == EngineSpec.Cancel(old(State()), id) && ok == Cancellable(old(State()), id)
    {
      hide Inv, BookOk, Flat;
      CancelKeepsInv(State(), id);
      CancelIgnoresFills(State(), book.View(), id);
      ok := book.Cancel(id);
    }

    // ----- What Valid says

    lemma ValidOrder(order: Order, limit: Price, now: Timestamp)
      requires Valid() && order.WellFormed() && order.id !in book.orders
      ensures Sweep(State(), order, limit, now).1.WellFormed()
      ensures Sweep(State(), order, limit, now).1.id == order.id
      ensures Sweep(State(), order, limit, now).0.orders.Keys == book.orders.Keys
    {
      SweepInv(State(), order, limit, now);
      SweepOrder(State(), order, limit, now);
    }

    lemma BookFacts()
      requires Valid()
      ensures forall id :: id in book.orders ==> book.orders[id].WellFormed()
      ensures forall k :: 0 <= k < |book.bids.levels| ==> book.bids.levels[k].queue != []
      ensures forall k :: 0 <= k < |book.asks.levels| ==> book.asks.levels[k].queue != []
    {}

    lemma FrontFacts(isBuy: bool)
      requires Valid()
      ensures IsHead(if isBuy then State().asks else State().bids, (if isBuy then book.asks else book.bids).levels)
    {
      hide Flat, Inv, Sound;
      FrontOfLevels(book.bids.levels, true, book.orders);
      FrontOfLevels(book.asks.levels, false, book.orders);
    }
  }

  lemma CancelIgnoresFills(s: EngineState, v: EngineState, id: OrderId)
    requires s.bids == v.bids && s.asks == v.asks && s.orders == v.orders
    ensures Cancellable(s, id) == Cancellable(v, id)
    ensures var (s1, v1) := (Cancel(s, id), Cancel(v, id));
            s1 == s.(bids := v1.bids, asks := v1.asks, orders := v1.orders)
            && v1 == v.(bids := v1.bids, asks := v1.asks, orders := v1.orders)
  {}

  /** After its sweep a limit residual may rest without crossing the book. */
  lemma SweepLeavesRoom(s: EngineState, o: Order, now: Timestamp)
    requires Inv(s) && o.WellFormed() && o.id !in s.orders
    ensures var (s1, o1) := Sweep(s, o, o.limitPrice, now);
            o1.Leaves() > 0 ==> Inv(Rest(s1, o1).0)
  {
    hide Sweep, Inv, Rest, Crosses;
    SweepInv(s, o, o.limitPrice, now);
    SweepOrder(s, o, o.limitPrice, now) by { InvSound(s); }
    var (s1, o1) := Sweep(s, o, o.limitPrice, now);
    if o1.Leaves() > 0 {
      assert s1.Contra(o1) == s1.Contra(o);
      RestInv(s1, o1);
    }
  }

  lemma InvSound(s: EngineState)
    requires Inv(s)
    ensures Sound(s) && Backed(s)
  {}

  /** The sweep does not look at the order's type; it only carries it along. */
  lemma {:induction false} ExecuteIgnoresType(s: EngineState, o: Order, ts: seq<Take>, t: OrderType, now: Timestamp)
    ensures var (s1, o1) := Execute(s, o, ts, now);
            Execute(s, o.(otype := t), ts, now) == (s1, o1.(otype := t))
    ensures Execute(s, o, ts, now).1.otype == o.otype
    decreases |ts|
  {
    if ts != [] {
      var (s1, o1) := ExecuteOne(s, o, ts[0], now);
      assert ExecuteOne(s, o.(otype := t), ts[0], now) == (s1, o1.(otype := t));
      ExecuteIgnoresType(s1, o1, ts[1..], t, now);
    }
  }

  lemma SweepIgnoresType(s: EngineState, o: Order, limit: Price, t: OrderType, now: Timestamp)
    requires o.WellFormed()
    ensures var (s1, o1) := Sweep(s, o, limit, now);
            Sweep(s, o.(otype := t), limit, now) == (s1, o1.(otype := t)) && o1.otype == o.otype
  {
    ExecuteIgnoresType(s, o, Takes(s.Contra(o), SweepQty(s, o, limit)), t, now);
  }

  /** The levels' first queue starts with the first order of the list. */
  ghost predicate IsHead(q: seq<Resting>, levels: seq<Level>) {
    if levels == [] then q == []
    else q != [] && levels[0].queue != [] && q[0].id == levels[0].queue[0] && q[0].price == levels[0].price
  }

  lemma CrossesIs(isBuy: bool, limit: Price, p: Price)
    ensures Crosses(isBuy, limit, p) <==> !(limit > 0 && (if isBuy then p > limit else p < limit))
  {}

  lemma QueueHead(queue: seq<OrderId>, j: nat, orders: map<OrderId, Order>)
    requires j < |queue|
    ensures QueueShares(queue[j..], orders) == LeavesOf(orders, queue[j]) + QueueShares(queue[j + 1..], orders)
  {
    assert queue[j..][1..] == queue[j + 1..];
  }

  /** The level at index i offers its queue, unless its price is beyond the limit. */
  lemma LevelAt(levels: seq<Level>, i: nat, orders: map<OrderId, Order>, isBuy: bool, limit: Price)
    requires i < |levels| && levels[i].queue != []
    ensures Available(Flat(levels[i..], orders), isBuy, limit)
         == if limit > 0 && (if isBuy then levels[i].price > limit else levels[i].price < limit) then 0
            else QueueShares(levels[i].queue, orders) + Available(Flat(levels[i + 1..], orders), isBuy, limit)
  {
    hide Flat, Available, QueueShares;
    AvailableLevel(levels[i..], orders, isBuy, limit);
    CrossesIs(isBuy, limit, levels[i].price);
    assert levels[i..][1..] == levels[i + 1..];
  }

  lemma NoQueue(queue: seq<OrderId>, j: nat, orders: map<OrderId, Order>)
    requires j <= |queue|
    ensures QueueShares(queue[j..], orders) >= 0
    ensures j == |queue| ==> QueueShares(queue[j..], orders) == 0
  {}

  lemma NoLevels(levels: seq<Level>, i: nat, orders: map<OrderId, Order>, isBuy: bool, limit: Price)
    requires i <= |levels|
    ensures Available(Flat(levels[i..], orders), isBuy, limit) >= 0
    ensures i == |levels| ==> Available(Flat(levels[i..], orders), isBuy, limit) == 0
  {}

  /** One execution, field by field. */
  lemma ExecuteOneIs(s: EngineState, o: Order, t: Take, now: Timestamp)
    requires t.id in s.orders && t.qty <= o.Leaves()
    ensures var (s1, o1) := ExecuteOne(s, o, t, now);
            && o1 == o.(filledQty := o.filledQty + t.qty,
                        status := if o.filledQty + t.qty >= o.qty then Filled else PartiallyFilled,
                        lastFillTs := now)
            && s1.fills == s.fills + [Fill(s.nextFillId, o.id, o.symbolId, o.side, t.price, t.qty, now, true),
                                      Fill(s.nextFillId + 1, s.orders[t.id].id, s.orders[t.id].symbolId,
                                           s.orders[t.id].side, t.price, t.qty, now, false)]
            && s1.fillsGenerated == s.fillsGenerated + 1 && s1.nextFillId == s.nextFillId + 2
            && s1.ordersProcessed == s.ordersProcessed
  {}
}
