/** The level-2 order book: two sides of price levels and the tables of orders and sides. */
module OrderBooks {
  import opened Basics
  import opened ExchangeTypes
  import opened PriceTime
  import opened EngineSpec
  import opened BookLevels
  import opened BookInvariant

  /** One side of the book; the map order of its prices is best first. */
  class BookSide {
    const isBid: bool
    var levels: seq<Level>

    constructor (isBid: bool)
      ensures this.isBid == isBid && levels == []
    {
      this.isBid := isBid;
      levels := [];
    }

    /** Appends to the queue of price p, which the map creates on first use. */
    method AddOrder(p: Price, id: OrderId)
      modifies this
      ensures levels == Enqueue(old(levels), isBid, p, id)
    {
      hide Key;
      var i := Position(levels, isBid, p);
      if !(i < |levels| && levels[i].price == p) {
        levels := levels[..i] + [Level(p, [])] + levels[i..];
      }
      levels := levels[i := Level(p, levels[i].queue + [id])];
    }

    /** Removes an order from the level of price p and erases the level if that empties it. */
    method RemoveOrder(p: Price, id: OrderId) returns (erased: bool)
      modifies this
      ensures levels == Dequeue(old(levels), isBid, p, id)
      ensures (forall k :: 0 <= k < |old(levels)| ==> old(levels)[k].queue != []) ==>
                (erased <==> |levels| < |old(levels)|)
    {
      hide Key;
      var i := Position(levels, isBid, p);
      if i == |levels| || levels[i].price != p {
        return false;
      }
      var queue := EraseFirst(levels[i].queue, id);
      erased := queue == [];
      if erased {
        levels := levels[..i] + levels[i + 1..];
      } else {
        levels := levels[i := Level(levels[i].price, queue)];
      }
    }

    /** The erase loop of RemoveOrder. */
    static method EraseFirst(q: seq<OrderId>, id: OrderId) returns (queue: seq<OrderId>)
      ensures queue == RemoveFirst(q, id)
    {
      var k := 0;
      while k < |q| && q[k] != id
        invariant k <= |q| && id !in q[..k]
      {
        k := k + 1;
      }
      FirstOccurrence(q, id, k);
      return if k < |q| then q[..k] + q[k + 1..] else q;
    }

    /** The front of the map order: the price of the first resting order, which no order of the side
        betters, or none exactly when nothing rests. */
    method BestPrice() returns (r: Option<Price>)
      ensures r == None <==> levels == []
      ensures r.Some? ==> r.value == levels[0].price
      ensures ValidLevels(levels, isBid) ==>
                forall orders :: if r == None then Flat(levels, orders) == [] else IsBest(Flat(levels, orders), isBid, r.value)
    {
      if levels == [] { return None; }
      if ValidLevels(levels, isBid) {
        forall orders ensures IsBest(Flat(levels, orders), isBid, levels[0].price) {
          FrontIsBest(levels, isBid, orders);
        }
      }
      return Some(levels[0].price);
    }
  }

  /** The book of one symbol. */
  class OrderBook {
    const bids: BookSide
    const asks: BookSide
    var orders: map<OrderId, Order>
    var orderSide: map<OrderId, Side>

    ghost predicate Valid()
      reads this, bids, asks
    {
      bids != asks && bids.isBid && !asks.isBid && BookOk(bids.levels, asks.levels, orders, orderSide)
    }

    /** The price-time lists and the order table; an engine without fills. */
    ghost function View(): EngineState
      reads this, bids, asks
    {
      ViewOf(bids.levels, asks.levels, orders)
    }

    constructor ()
      ensures Valid() && fresh(bids) && fresh(asks) && View() == EMPTY_ENGINE
    {
      bids := new BookSide(true);
      asks := new BookSide(false);
      orders, orderSide := map[], map[];
    }

    /** Shares of a queue, as the loops over resting identifiers add them up. */
    method QueueTotal(queue: seq<OrderId>) returns (total: nat)
      requires forall id :: id in queue && id in orders ==> orders[id].WellFormed()
      ensures total == QueueShares(queue, orders)
    {
      total := 0;
      for i := 0 to |queue|
        invariant total + QueueShares(queue[i..], orders) == QueueShares(queue, orders)
      {
        assert queue[i..][1..] == queue[i + 1..];
        if queue[i] in orders {
          total := total + orders[queue[i]].Leaves();
        }
      }
    }

    method Add(order: Order) returns (o1: Order)
      requires Valid() && order.id !in orders && order.WellFormed() && order.Leaves() > 0
      modifies this, bids, asks
      ensures Valid() && (View(), o1) == Rest(old(View()), order)
    {
      hide BookOk, Rest, Enqueue, QueueShares, SharesAt, Flat;
      var side := if order.IsBuy() then bids else asks;
      var i := Position(side.levels, side.isBid, order.limitPrice);
      OrdersWellFormed();
      var ahead := QueueTotal(QueueAt(side.levels, i, order.limitPrice));
      RestOrder(View(), order);
      AddOk(bids.levels, asks.levels, orders, orderSide, order);
      SideLevels(order.IsBuy());
      SharesAtLevel(side.levels, side.isBid, order.limitPrice, orders);
      o1 := order.(queuePos := ahead);
      side.AddOrder(order.limitPrice, order.id);
      orderSide := orderSide[order.id := order.side];
      orders := orders[order.id := o1];
    }

    method Cancel(id: OrderId) returns (ok: bool)
      requires Valid()
      modifies this, bids, asks
      ensures Valid() && View() == EngineSpec.Cancel(old(View()), id)
      ensures ok == Cancellable(old(View()), id)
    {
      hide BookOk, Dequeue;
      Tagged(id);
      if id !in orderSide || id !in orders {
        return false;
      }
      CancelOk(bids.levels, asks.levels, orders, orderSide, id);
      var p := orders[id].limitPrice;
      if orderSide[id] == Buy {
        var _ := bids.RemoveOrder(p, id);
      } else {
        var _ := asks.RemoveOrder(p, id);
      }
      orderSide := orderSide - {id};
      orders := orders - {id};
      ok := true;
    }

    method ReduceQty(id: OrderId, executed: nat)
      requires Valid()
      modifies this, bids, asks
      ensures Valid() && View() == EngineSpec.ReduceQty(old(View()), id, executed)
    {
      hide BookOk, Dequeue;
      if id !in orders {
        return;
      }
      ReduceOk(bids.levels, asks.levels, orders, orderSide, id, executed);
      var ord := orders[id].(filledQty := Min(orders[id].filledQty + executed, orders[id].qty));
      if ord.filledQty >= ord.qty {
        if ord.side == Buy {
          var _ := bids.RemoveOrder(ord.limitPrice, id);
        } else {
          var _ := asks.RemoveOrder(ord.limitPrice, id);
        }
        orders := orders[id := ord.(status := Filled)];
        orderSide := orderSide - {id};
      } else {
        orders := orders[id := ord.(status := PartiallyFilled)];
      }
    }

    /** Snapshot of the best n levels of one side. */
    method Depth(isBid: bool, n: nat) returns (depth: seq<PriceLevel>)
      requires Valid()
      ensures depth == DepthOf((if isBid then bids else asks).levels, orders, n)
    {
      hide BookOk, QueueShares;
      OrdersWellFormed();
      var levels := (if isBid then bids else asks).levels;
      depth := [];
      var i := 0;
      assert levels[0..] == levels;
      while i < |levels| && |depth| < n
        invariant i <= |levels| && |depth| == i <= n
        invariant depth + DepthOf(levels[i..], orders, n - i) == DepthOf(levels, orders, n)
      {
        assert levels[i..][1..] == levels[i + 1..];
        var total := QueueTotal(levels[i].queue);
        var level := PriceLevel(levels[i].price, total, |levels[i].queue|);
        AppendThen(depth, level, DepthOf(levels[i + 1..], orders, n - i - 1));
        depth := depth + [level];
        i := i + 1;
      }
      assert depth + [] == depth;
    }

    /** Shares in front of an order at its own price; nothing for an order that does not rest. */
    method QueuePosition(id: OrderId) returns (ahead: nat)
      requires Valid()
      ensures ahead == AheadAtPrice(View(), id)
    {
      hide BookOk, Flat, QueueShares;
      Tagged(id);
      OrdersWellFormed();
      PositionIs(id);
      if id !in orderSide || id !in orders { return 0; }
      var side := if orderSide[id] == Buy then bids else asks;
      var p := orders[id].limitPrice;
      var i := Position(side.levels, side.isBid, p);
      if i == |side.levels| || side.levels[i].price != p { return 0; }
      var queue := side.levels[i].queue;
      ahead := 0;
      var j := 0;
      assert queue[0..] == queue;
      while j < |queue| && queue[j] != id
        invariant j <= |queue|
        invariant ahead + SharesBefore(queue[j..], id, orders) == SharesBefore(queue, id, orders)
      {
        assert queue[j..][1..] == queue[j + 1..];
        if queue[j] in orders {
          ahead := ahead + orders[queue[j]].Leaves();
        }
        j := j + 1;
      }
    }

    // ----- What Valid says

    lemma PositionIs(id: OrderId)
      requires Valid()
      ensures !Cancellable(View(), id) ==> AheadAtPrice(View(), id) == 0
      ensures Cancellable(View(), id) ==>
                var isBid := orders[id].IsBuy();
                var levels, p := (if isBid then bids else asks).levels, orders[id].limitPrice;
                AheadAtPrice(View(), id) == SharesBefore(QueueAt(levels, Position(levels, isBid, p), p), id, orders)
    {
      if Cancellable(View(), id) {
        var isBid := orders[id].IsBuy();
        BeforeAtLevel((if isBid then bids else asks).levels, isBid, orders[id].limitPrice, id, orders);
      }
    }

    lemma OrdersWellFormed()
      requires Valid()
      ensures forall id :: id in orders ==> orders[id].WellFormed()
    {}

    lemma SideLevels(isBid: bool)
      requires Valid()
      ensures ValidLevels((if isBid then bids else asks).levels, isBid)
    {}

    lemma Tagged(id: OrderId)
      requires Valid()
      ensures id in orderSide <==> Cancellable(View(), id)
      ensures id in orderSide ==> id in orders && orderSide[id] == orders[id].side
    {}
  }

  lemma AppendThen<T>(a: seq<T>, x: T, b: seq<T>)
    ensures (a + [x]) + b == a + ([x] + b)
  {}

  lemma RestOrder(s: EngineState, o: Order)
    requires o.Leaves() >= 0
    ensures Rest(s, o).1 == o.(queuePos := SharesAt(if o.IsBuy() then s.bids else s.asks, o.limitPrice))
  {}
}
