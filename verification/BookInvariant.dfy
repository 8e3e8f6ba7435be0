/** The four maps of the order book stay consistent, and each book operation has exactly the
    effect on the price-time lists that EngineSpec describes. */
module BookInvariant {
  import opened ExchangeTypes
  import opened PriceTime
  import opened EngineSpec
  import opened EngineInvariant
  import opened BookLevels

  /** The price-time view of two sides of levels and an order table. */
  function ViewOf(bids: seq<Level>, asks: seq<Level>, orders: map<OrderId, Order>): EngineState {
    EMPTY_ENGINE.(bids := Flat(bids, orders), asks := Flat(asks, orders), orders := orders)
  }

  /** The four linked maps: valid levels that agree with the order table, and a side tag for
      exactly the orders that rest. */
  ghost predicate BookOk(bids: seq<Level>, asks: seq<Level>, orders: map<OrderId, Order>, sides: map<OrderId, Side>) {
    && ValidLevels(bids, true) && ValidLevels(asks, false)
    && Sound(ViewOf(bids, asks, orders))
    && SidesOk(orders, sides)
  }

  ghost predicate SidesOk(orders: map<OrderId, Order>, sides: map<OrderId, Side>) {
    && (forall id :: id in sides <==> id in orders && orders[id].Leaves() > 0)
    && (forall id :: id in sides ==> sides[id] == orders[id].side)
  }

  lemma FlatUpdate(levels: seq<Level>, orders: map<OrderId, Order>, id: OrderId, orders': map<OrderId, Order>)
    requires id !in Ids(Flat(levels, orders))
    requires forall other :: other != id ==> LeavesOf(orders, other) == LeavesOf(orders', other)
    ensures Flat(levels, orders') == Flat(levels, orders)
  {
    hide Flat, LeavesOf;
    FlatIds(levels, orders, id);
    FlatFrame(levels, orders, orders');
  }

  // ----- Adding

  lemma AddOk(bids: seq<Level>, asks: seq<Level>, orders: map<OrderId, Order>, sides: map<OrderId, Side>, o: Order)
    requires BookOk(bids, asks, orders, sides) && o.id !in orders && o.WellFormed() && o.Leaves() > 0
    ensures var o1 := Rest(ViewOf(bids, asks, orders), o).1;
            var bids' := if o.IsBuy() then Enqueue(bids, true, o.limitPrice, o.id) else bids;
            var asks' := if o.IsBuy() then asks else Enqueue(asks, false, o.limitPrice, o.id);
            && BookOk(bids', asks', orders[o.id := o1], sides[o.id := o.side])
            && ViewOf(bids', asks', orders[o.id := o1]) == Rest(ViewOf(bids, asks, orders), o).0
  {
    hide Flat, Enqueue, Sound, ValidLevels, Insert;
    var v := ViewOf(bids, asks, orders);
    var o1 := Rest(v, o).1;
    var orders' := orders[o.id := o1];
    SoundFacts(v, o.id);
    FlatUpdate(bids, orders, o.id, orders');
    FlatUpdate(asks, orders, o.id, orders');
    var side, isBid := if o.IsBuy() then bids else asks, o.IsBuy();
    EnqueueValid(side, isBid, o.limitPrice, o.id);
    FlatEnqueue(side, isBid, o.limitPrice, o.id, orders');
    RestSound(v, o);
  }

  lemma SoundFacts(s: EngineState, id: OrderId)
    requires Sound(s)
    ensures id !in s.orders ==> id !in Ids(s.bids) && id !in Ids(s.asks)
    ensures id in s.orders ==> id !in Ids(if s.orders[id].IsBuy() then s.asks else s.bids)
    ensures id in s.orders ==> s.orders[id].WellFormed()
    ensures DistinctIds(s.bids) && DistinctIds(s.asks)
    ensures forall i :: 0 <= i < |s.bids| && s.bids[i].id == id ==> id in s.orders && s.bids[i].price == s.orders[id].limitPrice
    ensures forall i :: 0 <= i < |s.asks| && s.asks[i].id == id ==> id in s.orders && s.asks[i].price == s.orders[id].limitPrice
  {}

  lemma RestSound(s: EngineState, o: Order)
    requires Sound(s) && o.WellFormed() && o.Leaves() > 0 && o.id !in s.orders
    ensures Sound(Rest(s, o).0)
  {
    RestBacked(s, o);
    RestListed(s, o);
  }

  // ----- Removing

  /** Dequeuing an order of the table, whether or not it still rests. */
  lemma DequeueListed(levels: seq<Level>, isBid: bool, orders: map<OrderId, Order>, p: Price, id: OrderId, orders': map<OrderId, Order>)
    requires ValidLevels(levels, isBid) && DistinctIds(Flat(levels, orders))
    requires forall i :: 0 <= i < |Flat(levels, orders)| && Flat(levels, orders)[i].id == id ==> Flat(levels, orders)[i].price == p
    requires forall other :: other != id ==> LeavesOf(orders, other) == LeavesOf(orders', other)
    ensures ValidLevels(Dequeue(levels, isBid, p, id), isBid)
    ensures Flat(Dequeue(levels, isBid, p, id), orders') == RemoveId(Flat(levels, orders), id)
  {
    hide Flat, Dequeue, LeavesOf, RemoveId, ValidLevels;
    ListedOnlyAt(levels, orders, p, id);
    DequeueValid(levels, isBid, p, id);
    FlatDequeue(levels, isBid, p, id, orders);
    RemoveIds(Flat(levels, orders), id);
    FlatUpdate(Dequeue(levels, isBid, p, id), orders, id, orders');
  }

  lemma CancelOk(bids: seq<Level>, asks: seq<Level>, orders: map<OrderId, Order>, sides: map<OrderId, Side>, id: OrderId)
    requires BookOk(bids, asks, orders, sides) && id in sides
    ensures var p := orders[id].limitPrice;
            var bids' := if orders[id].IsBuy() then Dequeue(bids, true, p, id) else bids;
            var asks' := if orders[id].IsBuy() then asks else Dequeue(asks, false, p, id);
            && BookOk(bids', asks', orders - {id}, sides - {id})
            && ViewOf(bids', asks', orders - {id}) == Cancel(ViewOf(bids, asks, orders), id)
  {
    hide Flat, Dequeue, Sound, ValidLevels, RemoveId, DistinctIds;
    var v := ViewOf(bids, asks, orders);
    var isBid := orders[id].IsBuy();
    SoundFacts(v, id);
    DequeueListed(if isBid then bids else asks, isBid, orders, orders[id].limitPrice, id, orders - {id});
    FlatUpdate(if isBid then asks else bids, orders, id, orders - {id});
    CancelKeepsSound(v, id);
  }

  // ----- Reducing

  lemma ReduceFilled(q: seq<Resting>, id: OrderId, n: nat)
    requires DistinctIds(q) && forall i :: 0 <= i < |q| && q[i].id == id ==> n >= q[i].leaves
    ensures Reduce(q, id, n) == RemoveId(q, id)
  {
    if id in Ids(q) {
      var i :| 0 <= i < |q| && q[i].id == id;
      ReduceCases(q, i, n);
    } else {
      ReduceAbsent(q, id, n);
      RemoveNothing(q, id);
    }
  }

  lemma ListedLeaves(s: EngineState, id: OrderId)
    requires Sound(s) && id in s.orders
    ensures forall i :: 0 <= i < |s.bids| && s.bids[i].id == id ==> s.bids[i].leaves == s.orders[id].Leaves()
    ensures forall i :: 0 <= i < |s.asks| && s.asks[i].id == id ==> s.asks[i].leaves == s.orders[id].Leaves()
  {}

  lemma ReduceLevels(levels: seq<Level>, isBid: bool, orders: map<OrderId, Order>, id: OrderId, n: nat)
    requires ValidLevels(levels, isBid) && DistinctIds(Flat(levels, orders)) && id in orders && orders[id].WellFormed()
    requires forall i :: 0 <= i < |Flat(levels, orders)| && Flat(levels, orders)[i].id == id ==>
               Flat(levels, orders)[i].price == orders[id].limitPrice && Flat(levels, orders)[i].leaves == orders[id].Leaves()
    ensures var o1 := Reduced(orders[id], n);
            var levels' := if o1.filledQty >= o1.qty then Dequeue(levels, isBid, o1.limitPrice, id) else levels;
            ValidLevels(levels', isBid) && Flat(levels', orders[id := o1]) == Reduce(Flat(levels, orders), id, n)
  {
    hide Flat, Dequeue, Reduce, ValidLevels, RemoveId, DistinctIds;
    var o1 := Reduced(orders[id], n);
    if o1.filledQty >= o1.qty {
      ReduceFilled(Flat(levels, orders), id, n);
      DequeueListed(levels, isBid, orders, o1.limitPrice, id, orders[id := o1]);
    } else {
      FlatReduce(levels, orders, id, o1, n);
    }
  }

  lemma ReduceOk(bids: seq<Level>, asks: seq<Level>, orders: map<OrderId, Order>, sides: map<OrderId, Side>, id: OrderId, n: nat)
    requires BookOk(bids, asks, orders, sides) && id in orders
    ensures var o1 := Reduced(orders[id], n);
            var full := o1.filledQty >= o1.qty;
            var bids' := if full && o1.IsBuy() then Dequeue(bids, true, o1.limitPrice, id) else bids;
            var asks' := if full && !o1.IsBuy() then Dequeue(asks, false, o1.limitPrice, id) else asks;
            var sides' := if full then sides - {id} else sides;
            && BookOk(bids', asks', orders[id := o1], sides')
            && ViewOf(bids', asks', orders[id := o1]) == ReduceQty(ViewOf(bids, asks, orders), id, n)
  {
    hide Flat, Dequeue, Sound, ValidLevels, Reduce, DistinctIds, Ids;
    var v := ViewOf(bids, asks, orders);
    var o1 := Reduced(orders[id], n);
    SoundFacts(v, id);
    ListedLeaves(v, id);
    ReduceLevels(if o1.IsBuy() then bids else asks, o1.IsBuy(), orders, id, n);
    FlatUpdate(if o1.IsBuy() then asks else bids, orders, id, orders[id := o1]);
    ReduceKeepsSound(v, id, n);
  }
}
