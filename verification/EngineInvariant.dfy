/** What every processed order and every cancellation keeps: the book stays ordered, backed by
    its order table and uncrossed, and no share appears or disappears. */
module EngineInvariant {
  import opened Basics
  import opened ExchangeTypes
  import opened PriceTime
  import opened EngineSpec

  // ----- One execution

  lemma BackedUpdate(q: seq<Resting>, isBid: bool, orders: map<OrderId, Order>, id: OrderId, o: Order)
    requires SideBacked(q, isBid, orders) && id !in Ids(q)
    ensures SideBacked(q, isBid, orders[id := o])
  {
    forall i | 0 <= i < |q| ensures q[i].id != id {
      assert q[i].id in Ids(q);
    }
  }

  lemma BackedConsume(q: seq<Resting>, isBid: bool, orders: map<OrderId, Order>, k: nat, now: Timestamp)
    requires SideBacked(q, isBid, orders) && DistinctIds(q) && q != [] && 0 < k <= q[0].leaves
    ensures SideBacked(Consume(q, k), isBid, orders[q[0].id := Executed(orders[q[0].id], k, now)])
  {
    DistinctTail(q);
    var o1 := Executed(orders[q[0].id], k, now);
    BackedUpdate(q[1..], isBid, orders, q[0].id, o1);
    assert Consume(q[1..], 0) == q[1..];
    if k < q[0].leaves {
      assert Consume(q, k)[1..] == q[1..];
    }
  }

  lemma ConsumeFrontIds(q: seq<Resting>, k: nat)
    requires q != [] && 0 < k <= q[0].leaves && DistinctIds(q)
    ensures Ids(Consume(q, k)) == if k < q[0].leaves then Ids(q) else Ids(q) - {q[0].id}
  {
    DistinctTail(q);
    if k < q[0].leaves {
      IdsCons(Consume(q, k));
      assert Consume(q, k)[1..] == q[1..];
    } else {
      assert Consume(q[1..], 0) == q[1..];
    }
  }

  ghost predicate IsFront(q: seq<Resting>, t: Take) {
    q != [] && t.id == q[0].id && t.price == q[0].price && 0 < t.qty <= q[0].leaves
  }

  /** The other side lists no order with the identifier of a listed order. */
  lemma SidesDisjoint(s: EngineState, isBid: bool, id: OrderId)
    requires Backed(s) && id in Ids(if isBid then s.bids else s.asks)
    ensures id !in Ids(if isBid then s.asks else s.bids)
    ensures id in s.orders && s.orders[id].IsBuy() == isBid
  {}

  lemma ExecuteOneBacked(s: EngineState, o: Order, t: Take, now: Timestamp)
    requires Backed(s) && Ordered(s) && IsFront(s.Contra(o), t)
    ensures Backed(ExecuteOne(s, o, t, now).0)
  {
    var q := s.Contra(o);
    assert q[0].id in Ids(q);
    SidesDisjoint(s, !o.IsBuy(), t.id);
    BackedConsume(q, !o.IsBuy(), s.orders, t.qty, now);
    BackedUpdate(if o.IsBuy() then s.bids else s.asks, o.IsBuy(), s.orders, t.id, Executed(s.orders[t.id], t.qty, now));
  }

  lemma ExecuteOneListed(s: EngineState, o: Order, t: Take, now: Timestamp)
    requires Backed(s) && Ordered(s) && Listed(s) && IsFront(s.Contra(o), t)
    ensures Listed(ExecuteOne(s, o, t, now).0)
  {
    var q := s.Contra(o);
    var s1 := ExecuteOne(s, o, t, now).0;
    ConsumeFrontIds(q, t.qty);
    assert s1.Contra(o) == Consume(q, t.qty);
    forall id | id in s1.orders
      ensures s1.orders[id].WellFormed()
      ensures s1.orders[id].Leaves() > 0 ==> id in Ids(if s1.orders[id].IsBuy() then s1.bids else s1.asks)
    {
      assert id in s.orders;
      if id == t.id {
        assert s.orders[id].IsBuy() != o.IsBuy();
        assert s1.orders[id].Leaves() == q[0].leaves - t.qty;
        assert q[0].id in Ids(q);
      }
    }
  }

  lemma ExecuteOneUncrossed(s: EngineState, o: Order, t: Take, now: Timestamp)
    requires Backed(s) && Ordered(s) && Uncrossed(s) && IsFront(s.Contra(o), t)
    ensures Ordered(ExecuteOne(s, o, t, now).0) && Uncrossed(ExecuteOne(s, o, t, now).0)
  {
    ConsumeKeeps(s.Contra(o), !o.IsBuy(), t.qty);
  }

  lemma ExecuteOneInv(s: EngineState, o: Order, t: Take, now: Timestamp)
    requires Inv(s) && IsFront(s.Contra(o), t)
    ensures var (s1, o1) := ExecuteOne(s, o, t, now);
            && Inv(s1)
            && s1.orders.Keys == s.orders.Keys
            && s1.Contra(o) == Consume(s.Contra(o), t.qty)
            && (if o.IsBuy() then s1.bids == s.bids else s1.asks == s.asks)
  {
    assert t.id in s.orders;
    hide Backed, Ordered, Listed, Uncrossed, Consume;
    ExecuteOneBacked(s, o, t, now);
    ExecuteOneListed(s, o, t, now);
    ExecuteOneUncrossed(s, o, t, now);
  }

  /** The first take of a sweep, and what it leaves to the rest of the sweep. */
  lemma FirstTake(q: seq<Resting>, n: nat)
    requires 0 < n <= Shares(q) && (forall i :: 0 <= i < |q| ==> q[i].leaves > 0)
    ensures var t := Takes(q, n)[0];
            && Takes(q, n) != [] && IsFront(q, t) && t.qty <= n
            && Takes(q, n)[1..] == Takes(Consume(q, t.qty), n - t.qty)
            && Consume(q, n) == Consume(Consume(q, t.qty), n - t.qty)
            && n - t.qty <= Shares(Consume(q, t.qty))
  {
    TakesStep(q, n);
    ConsumeShares(q, Min(n, q[0].leaves));
  }

  /** A sweep of n shares keeps the invariant and consumes exactly the first n contra shares;
      the aggressor's own side stays untouched. */
  lemma {:induction false} ExecuteInv(s: EngineState, o: Order, n: nat, now: Timestamp)
    requires Inv(s) && n <= Shares(s.Contra(o))
    ensures var s1 := Execute(s, o, Takes(s.Contra(o), n), now).0;
            && Inv(s1)
            && s1.orders.Keys == s.orders.Keys
            && s1.Contra(o) == Consume(s.Contra(o), n)
            && (if o.IsBuy() then s1.bids == s.bids else s1.asks == s.asks)
    decreases n
  {
    hide Inv, Takes, Consume, Shares, IsFront;
    CountingKeepsInv(s);
    var q := s.Contra(o);
    if n == 0 {
      NothingToExecute(q);
    } else {
      FirstTake(q, n);
      var t := Takes(q, n)[0];
      var (s1, o1) := ExecuteOne(s, o, t, now);
      ExecuteOneInv(s, o, t, now);
      assert s1.Contra(o1) == s1.Contra(o);
      ExecuteInv(s1, o1, n - t.qty, now);
    }
  }

  lemma NothingToExecute(q: seq<Resting>)
    ensures Takes(q, 0) == [] && Consume(q, 0) == q
  {}

  lemma {:induction false} ConsumeShares(q: seq<Resting>, n: nat)
    requires n <= Shares(q)
    ensures Shares(Consume(q, n)) == Shares(q) - n
  {
    if q != [] && n != 0 {
      if n < q[0].leaves {
        assert Consume(q, n)[1..] == q[1..];
      } else {
        ConsumeShares(q[1..], n - q[0].leaves);
      }
    }
  }

  // ----- The best remaining price

  /** After everything acceptable is consumed, nothing acceptable is left. */
  lemma {:induction false} NothingCrossableLeft(q: seq<Resting>, isBuy: bool, limit: Price)
    requires Sorted(q, !isBuy) && forall i :: 0 <= i < |q| ==> q[i].leaves > 0
    ensures forall i :: 0 <= i < |Consume(q, Available(q, isBuy, limit))| ==>
              !Crosses(isBuy, limit, Consume(q, Available(q, isBuy, limit))[i].price)
  {
    if q != [] {
      if Crosses(isBuy, limit, q[0].price) {
        NothingCrossableLeft(q[1..], isBuy, limit);
      } else {
        assert Consume(q, 0) == q;
        forall i | 0 <= i < |q| ensures !Crosses(isBuy, limit, q[i].price) {
          assert Key(!isBuy, q[0].price) <= Key(!isBuy, q[i].price);
        }
      }
    }
  }

  lemma SweepInv(s: EngineState, o: Order, limit: Price, now: Timestamp)
    requires Inv(s) && o.WellFormed() && o.id !in s.orders
    ensures var (s1, o1) := Sweep(s, o, limit, now);
            && Inv(s1)
            && s1.orders.Keys == s.orders.Keys
            && s1.Contra(o) == Consume(s.Contra(o), SweepQty(s, o, limit))
            && (if o.IsBuy() then s1.bids == s.bids else s1.asks == s.asks)
            && (o1.Leaves() > 0 ==> forall i :: 0 <= i < |s1.Contra(o)| ==> !Crosses(o.IsBuy(), limit, s1.Contra(o)[i].price))
  {
    var q := s.Contra(o);
    AvailableBound(q, o.IsBuy(), limit);
    SweepOrder(s, o, limit, now);
    ExecuteInv(s, o, SweepQty(s, o, limit), now);
    NothingCrossableLeft(q, o.IsBuy(), limit);
  }

  // ----- Resting

  lemma InsertBacked(q: seq<Resting>, isBid: bool, r: Resting, orders: map<OrderId, Order>, o: Order)
    requires SideBacked(q, isBid, orders) && r.id !in Ids(q)
    requires o.Leaves() > 0 && o.IsBuy() == isBid && r == Resting(o.id, o.limitPrice, o.Leaves())
    ensures SideBacked(Insert(q, isBid, r), isBid, orders[o.id := o])
  {
    BackedUpdate(q, isBid, orders, o.id, o);
    InsertIds(q, isBid, r);
    var t := Insert(q, isBid, r);
    forall i | 0 <= i < |t|
      ensures t[i] in q || t[i] == r
    {
      assert t[i] in t;
    }
  }

  lemma RestBacked(s: EngineState, o: Order)
    requires Sound(s) && o.WellFormed() && o.Leaves() > 0 && o.id !in s.orders
    ensures Backed(Rest(s, o).0) && Ordered(Rest(s, o).0)
  {
    var r := Resting(o.id, o.limitPrice, o.Leaves());
    var o1 := Rest(s, o).1;
    assert o.id !in Ids(s.bids) && o.id !in Ids(s.asks);
    if o.IsBuy() {
      InsertBacked(s.bids, true, r, s.orders, o1);
      BackedUpdate(s.asks, false, s.orders, o.id, o1);
      InsertKeeps(s.bids, true, r);
    } else {
      InsertBacked(s.asks, false, r, s.orders, o1);
      BackedUpdate(s.bids, true, s.orders, o.id, o1);
      InsertKeeps(s.asks, false, r);
    }
  }

  lemma RestListed(s: EngineState, o: Order)
    requires Sound(s) && o.WellFormed() && o.Leaves() > 0 && o.id !in s.orders
    ensures Listed(Rest(s, o).0)
  {
    InsertIds(if o.IsBuy() then s.bids else s.asks, o.IsBuy(), Resting(o.id, o.limitPrice, o.Leaves()));
  }

  lemma RestUncrossed(s: EngineState, o: Order)
    requires Inv(s) && o.WellFormed() && o.Leaves() > 0
    requires forall i :: 0 <= i < |s.Contra(o)| ==> !Crosses(o.IsBuy(), o.limitPrice, s.Contra(o)[i].price)
    ensures Uncrossed(Rest(s, o).0)
  {
    hide Backed, Ordered, Listed, Insert;
    var r := Resting(o.id, o.limitPrice, o.Leaves());
    var s1 := Rest(s, o).0;
    InsertIds(if o.IsBuy() then s.bids else s.asks, o.IsBuy(), r);
    forall i, j | 0 <= i < |s1.bids| && 0 <= j < |s1.asks|
      ensures s1.bids[i].price < s1.asks[j].price
    {
      assert s1.bids[i] in s1.bids && s1.asks[j] in s1.asks;
      if o.IsBuy() {
        assert s1.asks[j] == s.Contra(o)[j];
        assert s1.bids[i] in s.bids || s1.bids[i] == r;
      } else {
        assert s1.bids[i] == s.Contra(o)[i];
        assert s1.asks[j] in s.asks || s1.asks[j] == r;
      }
    }
  }

  lemma RestInv(s: EngineState, o: Order)
    requires Inv(s) && o.WellFormed() && o.Leaves() > 0 && o.id !in s.orders
    requires forall i :: 0 <= i < |s.Contra(o)| ==> !Crosses(o.IsBuy(), o.limitPrice, s.Contra(o)[i].price)
    ensures Inv(Rest(s, o).0) && Rest(s, o).0.orders.Keys == s.orders.Keys + {o.id}
  {
    RestBacked(s, o);
    RestListed(s, o);
    RestUncrossed(s, o);
  }

  /** What becomes of an order after its sweep: a limit residual rests, any other is cancelled. */
  function Finish(s: EngineState, o: Order, now: Timestamp): (EngineState, Order) {
    if o.Leaves() <= 0 || o.otype == FOK then (s, o)
    else if o.otype == Limit then Rest(s, o)
    else (s, CancelResidual(o, now))
  }

  predicate Refused(s: EngineState, o: Order)
    requires o.WellFormed()
  {
    o.otype == FOK && SweepQty(s, o, o.limitPrice) < o.qty
  }

  lemma ProcessCases(s: EngineState, o: Order, now: Timestamp)
    requires o.WellFormed() && Backed(s)
    ensures var s0, o0 := s.(ordersProcessed := s.ordersProcessed + 1), o.(submitTs := now);
            var (s1, o1) := Sweep(s0, o0, LimitOf(o), now);
            Process(s, o, now)
            == if Refused(s0, o0) then (s0, o0.(status := Rejected, rejectReason := InsufficientLiquidity))
               else Finish(s1, o1, now)
  {
    SweepOrder(s.(ordersProcessed := s.ordersProcessed + 1), o.(submitTs := now), LimitOf(o), now);
    hide Sweep, Rest;
  }

  lemma FinishInv(s: EngineState, o: Order, now: Timestamp)
    requires Inv(s) && o.WellFormed() && o.id !in s.orders
    requires o.Leaves() > 0 && o.otype == Limit ==>
               forall i :: 0 <= i < |s.Contra(o)| ==> !Crosses(o.IsBuy(), o.limitPrice, s.Contra(o)[i].price)
    ensures var (s1, o1) := Finish(s, o, now);
            && Inv(s1)
            && o1 == o.(status := o1.status, queuePos := o1.queuePos, lastFillTs := o1.lastFillTs)
            && s1.orders.Keys == s.orders.Keys + if o.otype == Limit && o.Leaves() > 0 then {o.id} else {}
  {
    if o.Leaves() > 0 && o.otype == Limit {
      RestInv(s, o);
      hide Inv, Crosses;
    }
  }

  lemma CountingKeepsInv(s: EngineState)
    requires Inv(s)
    ensures Inv(s.(ordersProcessed := s.ordersProcessed + 1)) && Backed(s) && Backed(s.(ordersProcessed := s.ordersProcessed + 1))
    ensures forall i :: 0 <= i < |s.bids| ==> s.bids[i].leaves > 0
    ensures forall i :: 0 <= i < |s.asks| ==> s.asks[i].leaves > 0
  {}

  /** Every order keeps the book ordered, backed, complete and uncrossed, and only a limit
      order with a residual enters the order table. */
  lemma ProcessKeepsInv(s: EngineState, o: Order, now: Timestamp)
    requires Inv(s) && o.WellFormed() && o.id !in s.orders
    ensures var (s1, o1) := Process(s, o, now);
            && Inv(s1)
            && o1.id == o.id && o1.WellFormed() && o1.qty == o.qty
            && s1.orders.Keys == s.orders.Keys + if o.otype == Limit && o1.Leaves() > 0 then {o.id} else {}
  {
    hide Inv, Backed, Process, Sweep, SweepQty, Crosses, Rest, Consume;
    var s0 := s.(ordersProcessed := s.ordersProcessed + 1);
    var o0 := o.(submitTs := now);
    CountingKeepsInv(s);
    ProcessCases(s, o, now);
    SweepInv(s0, o0, LimitOf(o), now);
    SweepOrder(s0, o0, LimitOf(o), now);
    var (s1, o1) := Sweep(s0, o0, LimitOf(o), now);
    if !Refused(s0, o0) {
      assert s1.Contra(o1) == s1.Contra(o0);
      FinishInv(s1, o1, now);
    }
  }

  // ----- Cancelling

  lemma CancelBacked(s: EngineState, id: OrderId)
    requires Sound(s) && Cancellable(s, id)
    ensures Backed(Cancel(s, id))
  {
    var isBid := s.orders[id].IsBuy();
    var q := if isBid then s.bids else s.asks;
    var other := if isBid then s.asks else s.bids;
    SidesDisjoint(s, isBid, id);
    RemoveIds(q, id);
    var t := RemoveId(q, id);
    forall i | 0 <= i < |t|
      ensures t[i] in q && t[i].id != id
    {
      assert t[i] in t;
    }
    forall i | 0 <= i < |other|
      ensures other[i].id != id
    {
      assert other[i].id in Ids(other);
    }
  }

  lemma CancelKeepsSound(s: EngineState, id: OrderId)
    requires Sound(s)
    ensures Sound(Cancel(s, id))
  {
    if Cancellable(s, id) {
      var isBid := s.orders[id].IsBuy();
      RemoveKeeps(if isBid then s.bids else s.asks, isBid, id);
      RemoveIds(if isBid then s.bids else s.asks, id);
      CancelBacked(s, id);
    }
  }

  lemma CancelUncrossed(s: EngineState, id: OrderId)
    requires Uncrossed(s)
    ensures Uncrossed(Cancel(s, id))
  {
    if Cancellable(s, id) {
      RemoveIds(if s.orders[id].IsBuy() then s.bids else s.asks, id);
      var s1 := Cancel(s, id);
      forall i, j | 0 <= i < |s1.bids| && 0 <= j < |s1.asks|
        ensures s1.bids[i].price < s1.asks[j].price
      {
        assert s1.bids[i] in s1.bids && s1.asks[j] in s1.asks;
        assert s1.bids[i] in s.bids && s1.asks[j] in s.asks;
      }
    }
  }

  lemma CancelKeepsInv(s: EngineState, id: OrderId)
    requires Inv(s)
    ensures Inv(Cancel(s, id))
    ensures Cancellable(s, id) <==> id in Ids(s.bids) || id in Ids(s.asks)
    ensures Cancel(s, id).orders.Keys == if Cancellable(s, id) then s.orders.Keys - {id} else s.orders.Keys
  {
    CancellableIsListed(s, id);
    hide Sound, Uncrossed;
    CancelKeepsSound(s, id);
    CancelUncrossed(s, id);
  }

  lemma CancellableIsListed(s: EngineState, id: OrderId)
    requires Sound(s)
    ensures Cancellable(s, id) <==> id in Ids(s.bids) || id in Ids(s.asks)
  {}

  // ----- Reducing a resting order

  /** Reducing an order either drops it or leaves it in place with fewer shares. */
  lemma {:induction false} ReduceCases(q: seq<Resting>, i: nat, n: nat)
    requires DistinctIds(q) && i < |q|
    ensures Reduce(q, q[i].id, n)
         == if n >= q[i].leaves then RemoveId(q, q[i].id) else q[i := q[i].(leaves := q[i].leaves - n)]
  {
    HeadIsAlone(q, i);
    hide DistinctIds, Ids, Reduce, RemoveId;
    if i == 0 {
      ReduceHead(q, n);
    } else {
      assert q[i] == q[1..][i - 1];
      ReduceCases(q[1..], i - 1, n);
      ReduceOther(q, q[i].id, n);
      UpdateTail(q, i, q[i].(leaves := q[i].leaves - Min(n, q[i].leaves)));
    }
  }

  lemma ReduceHead(q: seq<Resting>, n: nat)
    requires q != [] && q[0].id !in Ids(q[1..])
    ensures Reduce(q, q[0].id, n)
         == if n >= q[0].leaves then RemoveId(q, q[0].id) else q[0 := q[0].(leaves := q[0].leaves - n)]
  {
    ReduceAbsent(q[1..], q[0].id, n);
    RemoveNothing(q[1..], q[0].id);
  }

  lemma ReduceOther(q: seq<Resting>, id: OrderId, n: nat)
    requires q != [] && q[0].id != id
    ensures Reduce(q, id, n) == [q[0]] + Reduce(q[1..], id, n) && RemoveId(q, id) == [q[0]] + RemoveId(q[1..], id)
  {}

  lemma UpdateTail(q: seq<Resting>, i: nat, r: Resting)
    requires 0 < i < |q|
    ensures [q[0]] + q[1..][i - 1 := r] == q[i := r]
  {}

  lemma HeadIsAlone(q: seq<Resting>, i: nat)
    requires DistinctIds(q) && i < |q|
    ensures DistinctIds(q[1..]) && q[0].id !in Ids(q[1..])
    ensures i > 0 ==> q[0].id != q[i].id
  {
    DistinctTail(q);
  }

  lemma {:induction false} ReduceAbsent(q: seq<Resting>, id: OrderId, n: nat)
    requires id !in Ids(q)
    ensures Reduce(q, id, n) == q
  {
    if q != [] {
      IdsCons(q);
      ReduceAbsent(q[1..], id, n);
    }
  }

  /** The first order of a side, reduced, is the side with that many shares consumed. */
  lemma ReduceFront(q: seq<Resting>, n: nat)
    requires q != [] && DistinctIds(q) && 0 < n <= q[0].leaves
    ensures Reduce(q, q[0].id, n) == Consume(q, n)
  {
    DistinctTail(q);
    ReduceAbsent(q[1..], q[0].id, n);
    assert Consume(q[1..], 0) == q[1..];
  }

  lemma ReduceSideKeeps(q: seq<Resting>, isBid: bool, orders: map<OrderId, Order>, i: nat, n: nat)
    requires SideBacked(q, isBid, orders) && Sorted(q, isBid) && DistinctIds(q) && i < |q|
    ensures q[i].id in orders
    ensures var q' := Reduce(q, q[i].id, n);
            && SideBacked(q', isBid, orders[q[i].id := Reduced(orders[q[i].id], n)])
            && Sorted(q', isBid) && DistinctIds(q')
            && Ids(q') == if n >= q[i].leaves then Ids(q) - {q[i].id} else Ids(q)
  {
    hide Reduce, RemoveId;
    ReduceCases(q, i, n);
    if n >= q[i].leaves {
      RemovedSideKeeps(q, isBid, orders, i, n);
    } else {
      ReducedSideKeeps(q, isBid, orders, i, n);
    }
  }

  lemma RemovedSideKeeps(q: seq<Resting>, isBid: bool, orders: map<OrderId, Order>, i: nat, n: nat)
    requires SideBacked(q, isBid, orders) && Sorted(q, isBid) && DistinctIds(q) && i < |q|
    ensures q[i].id in orders
    ensures var q' := RemoveId(q, q[i].id);
            && SideBacked(q', isBid, orders[q[i].id := Reduced(orders[q[i].id], n)])
            && Sorted(q', isBid) && DistinctIds(q') && Ids(q') == Ids(q) - {q[i].id}
  {
    hide RemoveId, Sorted, DistinctIds, Reduced;
    var q' := RemoveId(q, q[i].id);
    RemoveKeeps(q, isBid, q[i].id);
    RemoveIds(q, q[i].id);
    forall j | 0 <= j < |q'| ensures q'[j] in q && q'[j].id != q[i].id { assert q'[j] in q'; }
  }

  lemma ReducedSideKeeps(q: seq<Resting>, isBid: bool, orders: map<OrderId, Order>, i: nat, n: nat)
    requires SideBacked(q, isBid, orders) && Sorted(q, isBid) && DistinctIds(q) && i < |q| && n < q[i].leaves
    ensures q[i].id in orders
    ensures var q' := q[i := q[i].(leaves := q[i].leaves - n)];
            && SideBacked(q', isBid, orders[q[i].id := Reduced(orders[q[i].id], n)])
            && Sorted(q', isBid) && DistinctIds(q') && Ids(q') == Ids(q)
  {
    hide Ids;
    var q' := q[i := q[i].(leaves := q[i].leaves - n)];
    assert forall j :: 0 <= j < |q| ==> q'[j].id == q[j].id && q'[j].price == q[j].price;
    SameIds(q, q');
  }

  lemma SameIds(q: seq<Resting>, q': seq<Resting>)
    requires |q| == |q'| && forall j :: 0 <= j < |q| ==> q'[j].id == q[j].id
    ensures Ids(q) == Ids(q')
  {
    forall x | x in Ids(q) ensures x in Ids(q') {
      var j :| 0 <= j < |q| && q[j].id == x;
      assert q'[j].id == x;
    }
  }

  /** Both sides after a reduction: the order's own side, and the other one. */
  lemma OtherSideLacks(s: EngineState, id: OrderId)
    requires Sound(s) && id in s.orders
    ensures id !in Ids(if s.orders[id].IsBuy() then s.asks else s.bids)
  {
    hide Sorted, DistinctIds, Listed;
  }

  lemma EntryLeaves(q: seq<Resting>, isBid: bool, orders: map<OrderId, Order>, id: OrderId) returns (i: nat)
    requires SideBacked(q, isBid, orders) && id in Ids(q)
    ensures i < |q| && q[i].id == id && id in orders && orders[id].Leaves() == q[i].leaves
  {
    i :| 0 <= i < |q| && q[i].id == id;
  }

  lemma ReduceSides(s: EngineState, id: OrderId, n: nat)
    requires Sound(s) && id in s.orders
    ensures var isBid := s.orders[id].IsBuy();
            var q, other := if isBid then s.bids else s.asks, if isBid then s.asks else s.bids;
            var orders := s.orders[id := Reduced(s.orders[id], n)];
            && SideBacked(Reduce(q, id, n), isBid, orders) && SideBacked(other, !isBid, orders)
            && Sorted(Reduce(q, id, n), isBid) && DistinctIds(Reduce(q, id, n))
            && Ids(Reduce(q, id, n)) == if n >= s.orders[id].Leaves() then Ids(q) - {id} else Ids(q)
  {
    hide Sorted, DistinctIds, SideBacked, Listed, Ids, Reduced, Reduce;
    var isBid := s.orders[id].IsBuy();
    var q := if isBid then s.bids else s.asks;
    var other := if isBid then s.asks else s.bids;
    OtherSideLacks(s, id);
    BackedUpdate(other, !isBid, s.orders, id, Reduced(s.orders[id], n));
    if id in Ids(q) {
      var i := EntryLeaves(q, isBid, s.orders, id);
      ReduceSideKeeps(q, isBid, s.orders, i, n);
    } else {
      ReduceAbsent(q, id, n);
      BackedUpdate(q, isBid, s.orders, id, Reduced(s.orders[id], n));
    }
  }

  lemma ReduceKeepsSound(s: EngineState, id: OrderId, n: nat)
    requires Sound(s)
    ensures Sound(ReduceQty(s, id, n))
  {
    hide Ids, SideBacked, Sorted, DistinctIds, Reduce;
    if id in s.orders {
      ReduceSides(s, id, n);
    }
  }
}
