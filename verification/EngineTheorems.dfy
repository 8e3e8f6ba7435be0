/** Accounting and execution quality of the matching engine: conservation of shares, symmetric
    fills, trades within the limit, best execution, and all-or-nothing orders. */
module EngineTheorems {
  import opened Basics
  import opened ExchangeTypes
  import opened PriceTime
  import opened EngineSpec
  import opened EngineInvariant

  // ----- Sums over the fill log

  /** Shares filled for one order. */
  function FilledOf(fs: seq<Fill>, id: OrderId): nat {
    if fs == [] then 0
    else FilledOf(fs[..|fs| - 1], id) + (if fs[|fs| - 1].orderId == id then fs[|fs| - 1].qty else 0)
  }

  /** Shares filled on one side of the executions: for takers or for makers. */
  function SideQty(fs: seq<Fill>, aggressive: bool): nat {
    if fs == [] then 0
    else SideQty(fs[..|fs| - 1], aggressive) + (if fs[|fs| - 1].aggressive == aggressive then fs[|fs| - 1].qty else 0)
  }

  /** What the takers paid, or received. */
  function TakerCost(fs: seq<Fill>): int {
    if fs == [] then 0
    else TakerCost(fs[..|fs| - 1]) + (if fs[|fs| - 1].aggressive then fs[|fs| - 1].price * fs[|fs| - 1].qty else 0)
  }

  lemma AppendPair(fs: seq<Fill>, a: Fill, b: Fill, id: OrderId)
    requires a.aggressive && !b.aggressive
    ensures FilledOf(fs + [a, b], id)
         == FilledOf(fs, id) + (if a.orderId == id then a.qty else 0) + (if b.orderId == id then b.qty else 0)
    ensures SideQty(fs + [a, b], true) == SideQty(fs, true) + a.qty
    ensures SideQty(fs + [a, b], false) == SideQty(fs, false) + b.qty
    ensures TakerCost(fs + [a, b]) == TakerCost(fs) + a.price * a.qty
  {
    var one, two := fs + [a], fs + [a, b];
    assert two[..|two| - 1] == one;
    assert one[..|one| - 1] == fs;
  }

  // ----- Conservation

  /** Shares an order of the book has left; fully filled orders have none. */
  function LeavesIn(s: EngineState, id: OrderId): int {
    if id in s.orders then s.orders[id].Leaves() else 0
  }

  /** Shares the price-time lists offer for an order. */
  function RestingIn(s: EngineState, id: OrderId): nat {
    RestingQty(s.bids, id) + RestingQty(s.asks, id)
  }

  lemma {:induction false} RestingQtyIs(q: seq<Resting>, id: OrderId)
    requires DistinctIds(q)
    ensures id !in Ids(q) ==> RestingQty(q, id) == 0
    ensures forall i :: 0 <= i < |q| && q[i].id == id ==> RestingQty(q, id) == q[i].leaves
  {
    if q != [] {
      DistinctTail(q);
      RestingQtyIs(q[1..], id);
      forall i | 0 <= i < |q| && q[i].id == id
        ensures RestingQty(q, id) == q[i].leaves
      {
        if i > 0 { assert q[i] == q[1..][i - 1]; }
      }
    }
  }

  /** The lists and the order table agree on every order. */
  lemma RestingIsLeaves(s: EngineState, id: OrderId)
    requires Inv(s)
    ensures RestingIn(s, id) == LeavesIn(s, id)
  {
    RestingQtyIs(s.bids, id);
    RestingQtyIs(s.asks, id);
    if id in Ids(s.bids) { SidesDisjoint(s, true, id); }
    if id in Ids(s.asks) { SidesDisjoint(s, false, id); }
  }

  /** Everything an order inside the book accounts for: shares filled and shares left. */
  function Account(s: EngineState, id: OrderId): int {
    FilledOf(s.fills, id) + LeavesIn(s, id)
  }

  /** Shares an order gave up when it was cancelled or rejected. */
  function GivenUp(o: Order): int {
    if o.status == Cancelled || o.status == Rejected then o.Leaves() else 0
  }

  lemma ExecuteOneAccounts(s: EngineState, o: Order, t: Take, now: Timestamp, id: OrderId)
    requires o.id !in s.orders && t.id in s.orders && s.orders[t.id].id == t.id
    requires t.qty <= s.orders[t.id].Leaves() && t.qty <= o.Leaves()
    ensures var (s1, o1) := ExecuteOne(s, o, t, now);
            && Account(s1, id) + (if id == o.id then o1.Leaves() else 0)
               == Account(s, id) + (if id == o.id then o.Leaves() else 0)
            && SideQty(s1.fills, true) - SideQty(s.fills, true) == SideQty(s1.fills, false) - SideQty(s.fills, false)
            && TakerCost(s1.fills) == TakerCost(s.fills) + t.price * t.qty
            && (id != o.id ==> FilledOf(s1.fills, id) == FilledOf(s.fills, id) + if t.id == id then t.qty else 0)
  {
    AppendPair(s.fills, FillOf(o, s.nextFillId, t.price, t.qty, now, true),
               FillOf(s.orders[t.id], s.nextFillId + 1, t.price, t.qty, now, false), id);
  }

  lemma FrontFacts(s: EngineState, o: Order, t: Take)
    requires Inv(s) && IsFront(s.Contra(o), t)
    ensures t.id in s.orders && s.orders[t.id].id == t.id && t.qty <= s.orders[t.id].Leaves()
  {}

  /** A sweep moves shares from leaves to fills, for both parties alike, and the taker pays
      exactly the cost of the takes. */
  lemma {:induction false} ExecuteAccounts(s: EngineState, o: Order, n: nat, now: Timestamp, id: OrderId)
    requires Inv(s) && n <= Shares(s.Contra(o)) && n <= o.Leaves() && o.id !in s.orders
    ensures var ts := Takes(s.Contra(o), n);
            var (s1, o1) := Execute(s, o, ts, now);
            && Account(s1, id) + (if id == o.id then o1.Leaves() else 0)
               == Account(s, id) + (if id == o.id then o.Leaves() else 0)
            && SideQty(s1.fills, true) - SideQty(s.fills, true) == SideQty(s1.fills, false) - SideQty(s.fills, false)
            && TakerCost(s1.fills) == TakerCost(s.fills) + Cost(ts)
            && (id != o.id ==> FilledOf(s1.fills, id) == FilledOf(s.fills, id) + TakenFrom(ts, id))
    decreases n
  {
    hide Inv, Account, SideQty, TakerCost, Takes, Consume;
    CountingKeepsInv(s);
    var q := s.Contra(o);
    if n == 0 {
      TakesNothing(q);
    } else {
      FirstTake(q, n);
      var t := Takes(q, n)[0];
      var (s1, o1) := ExecuteOne(s, o, t, now);
      ExecuteOneInv(s, o, t, now);
      FrontFacts(s, o, t);
      ExecuteOneAccounts(s, o, t, now, id);
      assert s1.Contra(o1) == s1.Contra(o);
      ExecuteAccounts(s1, o1, n - t.qty, now, id);
    }
  }

  lemma SweepAccounts(s: EngineState, o: Order, limit: Price, now: Timestamp, id: OrderId)
    requires Inv(s) && o.WellFormed() && o.id !in s.orders
    ensures var (s1, o1) := Sweep(s, o, limit, now);
            && Account(s1, id) + (if id == o.id then o1.Leaves() else 0)
               == Account(s, id) + (if id == o.id then o.Leaves() else 0)
            && SideQty(s1.fills, true) - SideQty(s.fills, true) == SideQty(s1.fills, false) - SideQty(s.fills, false)
            && TakerCost(s1.fills) == TakerCost(s.fills) + Cost(Takes(s.Contra(o), SweepQty(s, o, limit)))
            && (id != o.id ==>
                  FilledOf(s1.fills, id) == FilledOf(s.fills, id) + TakenFrom(Takes(s.Contra(o), SweepQty(s, o, limit)), id))
  {
    hide Inv, Account;
    AvailableBound(s.Contra(o), o.IsBuy(), limit);
    ExecuteAccounts(s, o, SweepQty(s, o, limit), now, id);
  }

  lemma FinishAccounts(s: EngineState, o: Order, now: Timestamp, id: OrderId)
    requires o.WellFormed() && o.id !in s.orders && o.status != Cancelled && o.status != Rejected
    requires o.otype == FOK ==> o.Leaves() == 0
    ensures var (s1, o1) := Finish(s, o, now);
            && s1.fills == s.fills
            && Account(s1, id) + (if id == o.id then GivenUp(o1) else 0)
               == Account(s, id) + (if id == o.id then o.Leaves() else 0)
  {}

  /** Fill-or-kill: an accepted order is filled completely, a refused one changes nothing. */
  lemma FokAtomic(s: EngineState, o: Order, now: Timestamp)
    requires Inv(s) && o.WellFormed() && o.id !in s.orders && o.otype == FOK && o.status == New
    ensures var (s1, o1) := Process(s, o, now);
            var enough := o.filledQty == 0 && o.qty <= SharesWithin(s.Contra(o), o.side == Buy, o.limitPrice);
            && (enough || o.qty == 0 ==> o1.Leaves() == 0 && o1.filledQty == o.qty && o1.status != Rejected)
            && (!enough && o.qty > 0 ==>
                  && o1 == o.(submitTs := now, status := Rejected, rejectReason := InsufficientLiquidity)
                  && s1 == s.(ordersProcessed := s.ordersProcessed + 1))
  {
    hide Inv, Backed, Process, Sweep, Available, SharesWithin;
    var s0 := s.(ordersProcessed := s.ordersProcessed + 1);
    var o0 := o.(submitTs := now);
    CountingKeepsInv(s);
    ContraSorted(s, o);
    AvailableIsWithin(s.Contra(o), o.IsBuy(), o.limitPrice);
    FokProcess(s, o, now);
    SweepOrder(s0, o0, o.limitPrice, now);
  }

  lemma FokProcess(s: EngineState, o: Order, now: Timestamp)
    requires o.WellFormed() && o.otype == FOK
    ensures var s0 := s.(ordersProcessed := s.ordersProcessed + 1);
            var o0 := o.(submitTs := now);
            Process(s, o, now) ==
              if SweepQty(s0, o0, o.limitPrice) < o.qty
              then (s0, o0.(status := Rejected, rejectReason := InsufficientLiquidity))
              else Sweep(s0, o0, o.limitPrice, now)
  {
    hide SweepQty, Sweep;
  }

  /** Conservation of shares. What an order accounts for changes only for the submitted order,
      which brings its shares in; shares it is denied are given up. Takers and makers trade the
      same number of shares. */
  lemma ProcessConserves(s: EngineState, o: Order, now: Timestamp, id: OrderId)
    requires Inv(s) && o.WellFormed() && o.id !in s.orders && o.status == New
    ensures var (s1, o1) := Process(s, o, now);
            && Account(s1, id) + (if id == o.id then GivenUp(o1) else 0)
               == Account(s, id) + (if id == o.id then o.Leaves() else 0)
            && SideQty(s1.fills, true) - SideQty(s.fills, true) == SideQty(s1.fills, false) - SideQty(s.fills, false)
  {
    hide Inv, Backed, Process, Sweep, Account, Finish;
    var s0 := s.(ordersProcessed := s.ordersProcessed + 1);
    var o0 := o.(submitTs := now);
    CountingKeepsInv(s);
    ProcessCases(s, o, now);
    CountedAccount(s, id);
    if !Refused(s0, o0) {
      SweepAccounts(s0, o0, LimitOf(o), now, id);
      SweepOrder(s0, o0, LimitOf(o), now);
      SweepInv(s0, o0, LimitOf(o), now);
      var (s1, o1) := Sweep(s0, o0, LimitOf(o), now);
      FinishAccounts(s1, o1, now, id);
    }
  }

  lemma CountedAccount(s: EngineState, id: OrderId)
    ensures Account(s.(ordersProcessed := s.ordersProcessed + 1), id) == Account(s, id)
  {}

  /** Cancelling gives up exactly the shares the order had left. */
  lemma CancelConserves(s: EngineState, id: OrderId, other: OrderId)
    requires Inv(s)
    ensures Account(Cancel(s, id), other)
         == Account(s, other) - if other == id && Cancellable(s, id) then RestingIn(s, id) else 0
    ensures Cancel(s, id).fills == s.fills
  {
    RestingIsLeaves(s, id);
  }

  // ----- Execution quality

  /** Whether an order may trade at a price: a market order at any; another at its limit or better, where a
      limit of zero or less is none. */
  predicate Within(o: Order, price: Price) {
    o.otype == Market || o.limitPrice <= 0 || if o.side == Buy then price <= o.limitPrice else price >= o.limitPrice
  }

  /** Best execution of a submitted order: for any other way x to take the traded quantity from
      the contra side, a buyer does not pay more than x costs and a seller does not receive less;
      and no way that respects the limit trades more. */
  lemma OrderGetsBestExecution(s: EngineState, o: Order, now: Timestamp, x: seq<nat>)
    requires Inv(s) && o.WellFormed() && o.id !in s.orders && IsAllocation(s.Contra(o), x)
    ensures var (s1, o1) := Process(s, o, now);
            var paid := TakerCost(s1.fills) - TakerCost(s.fills);
            && (AllocationQty(x) == o1.filledQty - o.filledQty ==>
                  if o.side == Buy then paid <= AllocationCost(s.Contra(o), x) else paid >= AllocationCost(s.Contra(o), x))
            && (o.otype != FOK && AllocationQty(x) <= o.Leaves()
                && (forall i :: 0 <= i < |x| && x[i] > 0 ==> Within(o, s.Contra(o)[i].price)) ==>
                  AllocationQty(x) <= o1.filledQty - o.filledQty)
  {
    hide Inv, Process, Takes, Cost, TakerCost, Available, SharesWithin, AllocationQty, AllocationCost;
    var q := s.Contra(o);
    ContraSorted(s, o);
    AvailableIsWithin(q, o.IsBuy(), LimitOf(o));
    BestExecution(q, !o.IsBuy(), x);
    if forall i :: 0 <= i < |x| && x[i] > 0 ==> Crosses(o.IsBuy(), LimitOf(o), q[i].price) {
      SweepIsMaximal(q, o.IsBuy(), LimitOf(o), x);
    }
    TradedQuantity(s, o, now, o.id);
  }

  lemma ContraSorted(s: EngineState, o: Order)
    requires Inv(s)
    ensures Sorted(s.Contra(o), !o.IsBuy())
  {}

  /** The traded quantity, its cost, and who it was taken from, for every order type. */
  lemma TradedQuantity(s: EngineState, o: Order, now: Timestamp, id: OrderId)
    requires Inv(s) && o.WellFormed() && o.id !in s.orders
    ensures var (s1, o1) := Process(s, o, now);
            && o1.filledQty >= o.filledQty
            && TakerCost(s1.fills) == TakerCost(s.fills) + Cost(Takes(s.Contra(o), o1.filledQty - o.filledQty))
            && (id != o.id ==> FilledOf(s1.fills, id)
                               == FilledOf(s.fills, id) + TakenFrom(Takes(s.Contra(o), o1.filledQty - o.filledQty), id))
            && (o.otype != FOK ==>
                  o1.filledQty - o.filledQty
                  == Min(o.Leaves(), SharesWithin(s.Contra(o), o.side == Buy, if o.otype == Market then 0 else o.limitPrice)))
  {
    hide Inv, Backed, Process, Sweep, Finish, Takes, Available, SharesWithin;
    ContraSorted(s, o);
    AvailableIsWithin(s.Contra(o), o.IsBuy(), LimitOf(o));
    var s0 := s.(ordersProcessed := s.ordersProcessed + 1);
    var o0 := o.(submitTs := now);
    CountingKeepsInv(s);
    ProcessCases(s, o, now);
    TakesNothing(s.Contra(o));
    if !Refused(s0, o0) {
      SweepAccounts(s0, o0, LimitOf(o), now, id);
      SweepOrder(s0, o0, LimitOf(o), now);
      var (s1, o1) := Sweep(s0, o0, LimitOf(o), now);
      FinishKeepsFills(s1, o1, now);
    }
  }

  /** Price-time priority of a submitted order: the resting order at position i of the contra
      side is filled with what is left of the traded quantity once everything in front of it is
      filled, and with nothing as long as anything in front of it is not. */
  lemma PriceTimePriority(s: EngineState, o: Order, now: Timestamp, i: nat)
    requires Inv(s) && o.WellFormed() && o.id !in s.orders && i < |s.Contra(o)|
    ensures var (s1, o1) := Process(s, o, now);
            var q := s.Contra(o);
            var traded := o1.filledQty - o.filledQty;
            FilledOf(s1.fills, q[i].id) - FilledOf(s.fills, q[i].id)
            == if traded <= Ahead(q, i) then 0 else Min(traded - Ahead(q, i), q[i].leaves)
  {
    hide Inv, Process, Takes, Cost, TakerCost, SharesWithin, FilledOf, DistinctIds, Ahead, TakenFrom;
    ContraListed(s, o, i);
    TradedQuantity(s, o, now, s.Contra(o)[i].id);
    Priority(s.Contra(o), Process(s, o, now).1.filledQty - o.filledQty, i);
  }

  lemma ContraListed(s: EngineState, o: Order, i: nat)
    requires Inv(s) && o.id !in s.orders && i < |s.Contra(o)|
    ensures DistinctIds(s.Contra(o)) && s.Contra(o)[i].id != o.id
  {}

  lemma TakesNothing(q: seq<Resting>)
    ensures Takes(q, 0) == [] && Cost([]) == 0
  {}

  lemma FinishKeepsFills(s: EngineState, o: Order, now: Timestamp)
    ensures Finish(s, o, now).0.fills == s.fills && Finish(s, o, now).1.filledQty == o.filledQty
  {}

  lemma {:induction false} TakesWithinLimit(q: seq<Resting>, isBuy: bool, limit: Price, n: nat)
    requires n <= Available(q, isBuy, limit) && forall i :: 0 <= i < |q| ==> q[i].leaves > 0
    ensures forall i :: 0 <= i < |Takes(q, n)| ==> Crosses(isBuy, limit, Takes(q, n)[i].price)
  {
    if q != [] && n != 0 {
      TakesWithinLimit(q[1..], isBuy, limit, n - Min(n, q[0].leaves));
    }
  }

  lemma {:induction false} ExecuteFills(s: EngineState, o: Order, ts: seq<Take>, now: Timestamp, isBuy: bool, limit: Price)
    requires forall i :: 0 <= i < |ts| ==> Crosses(isBuy, limit, ts[i].price)
    ensures s.fills <= Execute(s, o, ts, now).0.fills
    ensures forall k :: |s.fills| <= k < |Execute(s, o, ts, now).0.fills| ==>
              Crosses(isBuy, limit, Execute(s, o, ts, now).0.fills[k].price)
    decreases |ts|
  {
    if ts != [] {
      var (s1, o1) := ExecuteOne(s, o, ts[0], now);
      ExecuteFills(s1, o1, ts[1..], now, isBuy, limit);
    }
  }

  /** The fill log only grows, and no trade goes through the limit of the submitted order. */
  lemma NoTradeThrough(s: EngineState, o: Order, now: Timestamp)
    requires Inv(s) && o.WellFormed() && o.id !in s.orders
    ensures var s1 := Process(s, o, now).0;
            && s.fills <= s1.fills
            && forall k :: |s.fills| <= k < |s1.fills| ==> Within(o, s1.fills[k].price)
  {
    hide Inv, Process, Backed, Finish, Takes;
    var s0 := s.(ordersProcessed := s.ordersProcessed + 1);
    var o0 := o.(submitTs := now);
    CountingKeepsInv(s);
    ProcessCases(s, o, now);
    if !Refused(s0, o0) {
      var n := SweepQty(s0, o0, LimitOf(o));
      TakesWithinLimit(s.Contra(o), o.IsBuy(), LimitOf(o), n);
      ExecuteFills(s0, o0, Takes(s.Contra(o), n), now, o.IsBuy(), LimitOf(o));
      var (s1, o1) := Sweep(s0, o0, LimitOf(o), now);
      FinishKeepsFills(s1, o1, now);
    }
  }

  // ----- What becomes of the two lists

  /** Both lists after a call, the contra list by the shares traded and the own one by what rests. */
  lemma ListsAfter(s: EngineState, o: Order, now: Timestamp)
    requires Inv(s) && o.WellFormed() && o.id !in s.orders
    ensures var (s1, o1) := Process(s, o, now);
            var (own, own1) := if o.IsBuy() then (s.bids, s1.bids) else (s.asks, s1.asks);
            && o1.filledQty >= o.filledQty && s1.Contra(o) == Consume(s.Contra(o), o1.filledQty - o.filledQty)
            && own1 == if o.otype == Limit && o1.Leaves() > 0
                       then Insert(own, o.IsBuy(), Resting(o.id, o.limitPrice, o1.Leaves()))
                       else own
  {
    hide Inv, Backed, Process, Sweep, SweepQty, Insert, Consume, Finish;
    var s0 := s.(ordersProcessed := s.ordersProcessed + 1);
    var o0 := o.(submitTs := now);
    CountingKeepsInv(s);
    ProcessCases(s, o, now);
    NothingToExecute(s.Contra(o));
    if !Refused(s0, o0) {
      SweepInv(s0, o0, LimitOf(o), now);
      SweepOrder(s0, o0, LimitOf(o), now);
      var (s1, o1) := Sweep(s0, o0, LimitOf(o), now);
      RefusedIs(s0, o0);
      FinishLists(s1, o1, now);
    }
  }

  lemma RefusedIs(s: EngineState, o: Order)
    requires o.WellFormed()
    ensures o.otype == FOK && !Refused(s, o) ==> o.Leaves() <= SweepQty(s, o, o.limitPrice) && LimitOf(o) == o.limitPrice
  {}

  /** The contra list loses its front and nothing else in it moves. */
  lemma ContraAfter(s: EngineState, o: Order, now: Timestamp) returns (gone: nat)
    requires Inv(s) && o.WellFormed() && o.id !in s.orders
    ensures var s1 := Process(s, o, now).0;
            var (q, q1) := if o.side == Buy then (s.asks, s1.asks) else (s.bids, s1.bids);
            && |q1| + gone == |q|
            && forall i :: 0 <= i < |q1| ==> q1[i].id == q[gone + i].id && q1[i].price == q[gone + i].price
  {
    hide Inv, Process, Consume, Insert;
    ListsAfter(s, o, now);
    gone := ConsumeFront(s.Contra(o), Process(s, o, now).1.filledQty - o.filledQty);
  }

  /** On the own side only a limit residual appears, behind every order at its price or better and in front
      of every worse one. */
  lemma OwnSideAfter(s: EngineState, o: Order, now: Timestamp) returns (at: nat)
    requires Inv(s) && o.WellFormed() && o.id !in s.orders
    ensures var (s1, o1) := Process(s, o, now);
            var (q, q1) := if o.side == Buy then (s.bids, s1.bids) else (s.asks, s1.asks);
            if o.otype == Limit && o1.Leaves() > 0 then
              && at <= |q| && q1 == q[..at] + [Resting(o.id, o.limitPrice, o1.Leaves())] + q[at..]
              && (forall i :: 0 <= i < at ==> if o.side == Buy then q[i].price >= o.limitPrice else q[i].price <= o.limitPrice)
              && (forall i :: at <= i < |q| ==> if o.side == Buy then q[i].price < o.limitPrice else q[i].price > o.limitPrice)
            else q1 == q
  {
    hide Inv, Process, Consume, Insert, Sorted, DistinctIds;
    ListsAfter(s, o, now);
    SidesInOrder(s);
    var q := if o.IsBuy() then s.bids else s.asks;
    var leaves := Process(s, o, now).1.Leaves();
    at := 0;
    if leaves > 0 {
      at := InsertPlace(q, o.IsBuy(), Resting(o.id, o.limitPrice, leaves));
    }
  }

  lemma SidesInOrder(s: EngineState)
    requires Inv(s)
    ensures Sorted(s.bids, true) && Sorted(s.asks, false) && DistinctIds(s.bids) && DistinctIds(s.asks)
  {}

  lemma ConsumeFront(q: seq<Resting>, n: nat) returns (gone: nat)
    ensures |Consume(q, n)| + gone == |q|
    ensures forall i :: 0 <= i < |Consume(q, n)| ==>
              Consume(q, n)[i].id == q[gone + i].id && Consume(q, n)[i].price == q[gone + i].price
  {
    gone := ConsumeShape(q, n);
    hide Consume;
    var c := Consume(q, n);
    forall i | 0 <= i < |c| ensures c[i].id == q[gone + i].id && c[i].price == q[gone + i].price {
      if i > 0 { assert c[i] == c[1..][i - 1] == q[gone + 1..][i - 1]; }
    }
  }

  lemma FinishLists(s: EngineState, o: Order, now: Timestamp)
    requires o.otype == FOK ==> o.Leaves() == 0
    ensures var (s1, o1) := Finish(s, o, now);
            var (q, q1) := if o.IsBuy() then (s.bids, s1.bids) else (s.asks, s1.asks);
            && s1.Contra(o) == s.Contra(o) && o1.filledQty == o.filledQty && o1.qty == o.qty
            && q1 == if o.otype == Limit && o.Leaves() > 0 then Insert(q, o.IsBuy(), Resting(o.id, o.limitPrice, o.Leaves()))
                     else q
  {
    hide Insert;
  }

  /** A cancellation takes the order out of its list and its table entry, and everything else stays as it was. */
  lemma CancelInPlace(s: EngineState, id: OrderId) returns (at: nat)
    requires Inv(s) && Cancellable(s, id)
    ensures var s1 := Cancel(s, id);
            var (q, q1) := if s.orders[id].side == Buy then (s.bids, s1.bids) else (s.asks, s1.asks);
            && at < |q| && q[at].id == id && q1 == q[..at] + q[at + 1..]
            && s1 == s.(bids := s1.bids, asks := s1.asks, orders := s.orders - {id})
            && if s.orders[id].side == Buy then s1.asks == s.asks else s1.bids == s.bids
  {
    var q := if s.orders[id].IsBuy() then s.bids else s.asks;
    assert id in Ids(q);
    at :| 0 <= at < |q| && q[at].id == id;
    RemovePlace(q, at);
  }

  // ----- Queue position

  /** Shares at prices strictly better than p. */
  function BetterShares(q: seq<Resting>, isBid: bool, p: Price): nat {
    if q == [] then 0
    else (if Key(isBid, q[0].price) < Key(isBid, p) then q[0].leaves else 0) + BetterShares(q[1..], isBid, p)
  }

  /** An order waits for exactly the shares at better prices and for its queue position. */
  lemma {:induction false} QueuePositionIsExact(q: seq<Resting>, isBid: bool, i: nat)
    requires Sorted(q, isBid) && DistinctIds(q) && i < |q|
    ensures Ahead(q, i) == BetterShares(q, isBid, q[i].price) + SharesBeforeAt(q, q[i].price, q[i].id)
  {
    if i == 0 {
      NothingBetter(q, isBid, q[0].price);
    } else {
      assert q[1..][i - 1] == q[i];
      QueuePositionIsExact(q[1..], isBid, i - 1);
    }
  }

  lemma {:induction false} NothingBetter(q: seq<Resting>, isBid: bool, p: Price)
    requires forall i :: 0 <= i < |q| ==> Key(isBid, p) <= Key(isBid, q[i].price)
    ensures BetterShares(q, isBid, p) == 0
  {
    if q != [] { NothingBetter(q[1..], isBid, p); }
  }

  lemma {:induction false} BeforeInserted(q: seq<Resting>, isBid: bool, r: Resting)
    requires Sorted(q, isBid) && r.id !in Ids(q)
    ensures SharesBeforeAt(Insert(q, isBid, r), r.price, r.id) == SharesAt(q, r.price)
  {
    if q == [] {
    } else if Key(isBid, r.price) < Key(isBid, q[0].price) {
      NothingAt(q, isBid, r.price);
    } else {
      IdsCons(q);
      BeforeInserted(q[1..], isBid, r);
      assert Insert(q, isBid, r)[1..] == Insert(q[1..], isBid, r);
    }
  }

  lemma {:induction false} NothingAt(q: seq<Resting>, isBid: bool, p: Price)
    requires forall i :: 0 <= i < |q| ==> Key(isBid, p) < Key(isBid, q[i].price)
    ensures SharesAt(q, p) == 0
  {
    if q != [] { NothingAt(q[1..], isBid, p); }
  }

  /** The queue position stored with a resting order is the one the book reports for it. */
  lemma StoredQueuePosition(s: EngineState, o: Order)
    requires Sound(s) && o.WellFormed() && o.Leaves() > 0 && o.id !in s.orders
    ensures var (s1, o1) := Rest(s, o); o1.queuePos == AheadAtPrice(s1, o.id)
  {
    BeforeInserted(if o.IsBuy() then s.bids else s.asks, o.IsBuy(), Resting(o.id, o.limitPrice, o.Leaves()));
  }
}
