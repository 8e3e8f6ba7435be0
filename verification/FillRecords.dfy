/** What a processed order leaves on record: every fill field by field, the final state of the order and
    of the orders it met, and over whole router runs the fill log of every engine. */
module FillRecords {
  import opened Basics
  import opened ExchangeTypes
  import opened PriceTime
  import opened EngineSpec
  import opened EngineInvariant
  import opened EngineTheorems
  import opened RouterSpec

  // ----- The orders behind the takes

  /** The take comes from a resting order of the given side, at that order's own limit price. */
  ghost predicate TakesFrom(t: Take, isBid: bool, orders: map<OrderId, Order>) {
    && t.qty > 0 && t.id in orders
    && var r := orders[t.id];
       r.id == t.id && r.limitPrice == t.price && r.IsBuy() == isBid
  }

  lemma {:induction false} TakesBacked(q: seq<Resting>, isBid: bool, orders: map<OrderId, Order>, n: nat)
    requires SideBacked(q, isBid, orders)
    ensures forall i :: 0 <= i < |Takes(q, n)| ==> TakesFrom(Takes(q, n)[i], isBid, orders)
  {
    if q != [] && n != 0 {
      var k := Min(n, q[0].leaves);
      TakesBacked(q[1..], isBid, orders, n - k);
      assert Takes(q, n) == [Take(q[0].id, q[0].price, k)] + Takes(q[1..], n - k);
    }
  }

  /** An execution changes of a resting order only what was filled, its status and the time of it. */
  predicate SameTerms(a: Order, b: Order) {
    a == b.(filledQty := a.filledQty, status := a.status, lastFillTs := a.lastFillTs)
  }

  ghost predicate AllSameTerms(orders: map<OrderId, Order>, base: map<OrderId, Order>) {
    orders.Keys == base.Keys && forall id :: id in base ==> SameTerms(orders[id], base[id])
  }

  // ----- The fills of one order

  /** The two fills of one execution, the taker's first. */
  ghost predicate Recorded(fs: seq<Fill>, at: nat, id: nat, t: Take, o: Order, r: Order, now: Timestamp) {
    && at + 1 < |fs|
    && fs[at] == Fill(id, o.id, o.symbolId, o.side, t.price, t.qty, now, true)
    && fs[at + 1] == Fill(id + 1, r.id, r.symbolId, r.side, t.price, t.qty, now, false)
  }

  lemma RecordedLater(fs: seq<Fill>, gs: seq<Fill>, at: nat, id: nat, t: Take, o: Order, r: Order, now: Timestamp)
    requires Recorded(fs, at, id, t, o, r, now) && fs <= gs
    ensures Recorded(gs, at, id, t, o, r, now)
  {}

  lemma OneRecorded(s: EngineState, o: Order, t: Take, now: Timestamp, base: map<OrderId, Order>)
    requires t.id in s.orders && AllSameTerms(s.orders, base)
    ensures var (s1, o1) := ExecuteOne(s, o, t, now);
            && AllSameTerms(s1.orders, base) && SameTerms(o1, o)
            && s.fills <= s1.fills && |s1.fills| == |s.fills| + 2
            && s1.nextFillId == s.nextFillId + 2 && s1.fillsGenerated == s.fillsGenerated + 1
            && Recorded(s1.fills, |s.fills|, s.nextFillId, t, o, base[t.id], now)
  {}

  lemma {:induction false} ExecuteRecords(s: EngineState, o: Order, ts: seq<Take>, now: Timestamp, base: map<OrderId, Order>)
    requires AllSameTerms(s.orders, base) && forall i :: 0 <= i < |ts| ==> ts[i].id in base
    ensures var s1 := Execute(s, o, ts, now).0;
            && AllSameTerms(s1.orders, base)
            && s.fills <= s1.fills && |s1.fills| == |s.fills| + 2 * |ts|
            && s1.nextFillId == s.nextFillId + 2 * |ts| && s1.fillsGenerated == s.fillsGenerated + |ts|
            && forall i :: 0 <= i < |ts| ==>
                 Recorded(s1.fills, |s.fills| + 2 * i, s.nextFillId + 2 * i, ts[i], o, base[ts[i].id], now)
    decreases |ts|
  {
    hide ExecuteOne, AllSameTerms, Recorded;
    SameKeys(s.orders, base);
    if ts != [] {
      var (s1, o1) := ExecuteOne(s, o, ts[0], now);
      OneRecorded(s, o, ts[0], now, base);
      ExecuteRecords(s1, o1, ts[1..], now, base);
      var fs := Execute(s1, o1, ts[1..], now).0.fills;
      RecordedLater(s1.fills, fs, |s.fills|, s.nextFillId, ts[0], o, base[ts[0].id], now);
      forall i | 0 <= i < |ts|
        ensures Recorded(fs, |s.fills| + 2 * i, s.nextFillId + 2 * i, ts[i], o, base[ts[i].id], now)
      {
        if i > 0 {
          assert ts[1..][i - 1] == ts[i];
          SameTaker(fs, |s.fills| + 2 * i, s.nextFillId + 2 * i, ts[i], o, o1, base[ts[i].id], now);
        }
      }
    }
  }

  lemma SameKeys(orders: map<OrderId, Order>, base: map<OrderId, Order>)
    requires AllSameTerms(orders, base)
    ensures orders.Keys == base.Keys
  {}

  lemma SameTaker(fs: seq<Fill>, at: nat, id: nat, t: Take, o: Order, o1: Order, r: Order, now: Timestamp)
    requires Recorded(fs, at, id, t, o1, r, now) && SameTerms(o1, o)
    ensures Recorded(fs, at, id, t, o, r, now)
  {}

  /** The fill log after an order, execution by execution. */
  lemma ProcessRecords(s: EngineState, o: Order, now: Timestamp) returns (ts: seq<Take>)
    requires Inv(s) && o.WellFormed() && o.id !in s.orders
    ensures forall i :: 0 <= i < |ts| ==> ts[i].id in s.orders && TakesFrom(ts[i], !o.IsBuy(), s.orders)
    ensures var s1 := Process(s, o, now).0;
            && s.fills <= s1.fills && |s1.fills| == |s.fills| + 2 * |ts|
            && s1.nextFillId == s.nextFillId + 2 * |ts| && s1.fillsGenerated == s.fillsGenerated + |ts|
            && forall i :: 0 <= i < |ts| ==>
                 Recorded(s1.fills, |s.fills| + 2 * i, s.nextFillId + 2 * i, ts[i], o, s.orders[ts[i].id], now)
  {
    hide Inv, Backed, Process, Finish, Takes, AllSameTerms, Recorded, TakesFrom, SweepQty, Execute;
    var s0, o0 := s.(ordersProcessed := s.ordersProcessed + 1), o.(submitTs := now);
    CountingKeepsInv(s);
    ProcessCases(s, o, now);
    if Refused(s0, o0) {
      ts := [];
    } else {
      ts := Takes(s.Contra(o), SweepQty(s0, o0, LimitOf(o)));
      ContraBacked(s, o);
      TakesBacked(s.Contra(o), !o.IsBuy(), s.orders, SweepQty(s0, o0, LimitOf(o)));
      TakesKnown(ts, !o.IsBuy(), s.orders);
      SameToBegin(s.orders);
      ExecuteRecords(s0, o0, ts, now, s.orders);
      var (s1, o1) := Sweep(s0, o0, LimitOf(o), now);
      FinishKeepsLog(s1, o1, now);
      forall i | 0 <= i < |ts|
        ensures Recorded(s1.fills, |s.fills| + 2 * i, s.nextFillId + 2 * i, ts[i], o, s.orders[ts[i].id], now)
      {
        SameStamp(s1.fills, |s.fills| + 2 * i, s.nextFillId + 2 * i, ts[i], o, s.orders[ts[i].id], now);
      }
    }
  }

  lemma SameStamp(fs: seq<Fill>, at: nat, id: nat, t: Take, o: Order, r: Order, now: Timestamp)
    requires Recorded(fs, at, id, t, o.(submitTs := now), r, now)
    ensures Recorded(fs, at, id, t, o, r, now)
  {}

  lemma ContraBacked(s: EngineState, o: Order)
    requires Backed(s)
    ensures SideBacked(s.Contra(o), !o.IsBuy(), s.orders)
  {}

  lemma TakesKnown(ts: seq<Take>, isBid: bool, orders: map<OrderId, Order>)
    requires forall i :: 0 <= i < |ts| ==> TakesFrom(ts[i], isBid, orders)
    ensures forall i :: 0 <= i < |ts| ==> ts[i].id in orders
  {}

  lemma SameToBegin(orders: map<OrderId, Order>)
    ensures AllSameTerms(orders, orders)
  {}

  lemma FinishKeepsLog(s: EngineState, o: Order, now: Timestamp)
    ensures var s1 := Finish(s, o, now).0;
            s1.fills == s.fills && s1.nextFillId == s.nextFillId && s1.fillsGenerated == s.fillsGenerated
  {}

  lemma RecordedFill(fs: seq<Fill>, at: nat, id: nat, t: Take, o: Order, orders: map<OrderId, Order>, now: Timestamp, k: nat)
    requires t.id in orders && TakesFrom(t, !o.IsBuy(), orders) && Recorded(fs, at, id, t, o, orders[t.id], now)
    requires at <= k <= at + 1
    ensures fs[k].id == id + (k - at) && fs[k].timestamp == now && fs[k].qty > 0 && fs[k].aggressive == (k == at)
    ensures k == at ==>
              && fs[k].orderId == o.id && fs[k].symbolId == o.symbolId && fs[k].side == o.side
              && fs[k + 1].price == fs[k].price && fs[k + 1].qty == fs[k].qty
    ensures k == at + 1 ==>
              && fs[k].orderId in orders
              && var r := orders[fs[k].orderId];
                 && fs[k].symbolId == r.symbolId && fs[k].side == r.side && fs[k].price == r.limitPrice
                 && r.IsBuy() != o.IsBuy()
  {}

  /** The fill log only grows, and the fill at any new position k is either the submitted order's, with its
      identifier, symbol and side, or that of a resting order of the other side, with its identifier,
      symbol and side and at its limit price. The two of one execution stand side by side with the same
      price and quantity; every new fill carries the time of the call and the next unused identifier. */
  lemma NewFills(s: EngineState, o: Order, now: Timestamp, k: nat)
    requires Inv(s) && o.WellFormed() && o.id !in s.orders
    requires |s.fills| <= k < |Process(s, o, now).0.fills|
    ensures var fs := Process(s, o, now).0.fills;
            && s.fills <= fs && Process(s, o, now).0.nextFillId == s.nextFillId + (|fs| - |s.fills|)
            && fs[k].id == s.nextFillId + (k - |s.fills|) && fs[k].timestamp == now && fs[k].qty > 0
            && fs[k].aggressive == ((k - |s.fills|) % 2 == 0)
            && (fs[k].aggressive ==>
                  && fs[k].orderId == o.id && fs[k].symbolId == o.symbolId && fs[k].side == o.side
                  && k + 1 < |fs| && fs[k + 1].price == fs[k].price && fs[k + 1].qty == fs[k].qty)
            && (!fs[k].aggressive ==>
                  && fs[k].orderId in s.orders
                  && var r := s.orders[fs[k].orderId];
                     && fs[k].symbolId == r.symbolId && fs[k].side == r.side && fs[k].price == r.limitPrice
                     && r.IsBuy() != o.IsBuy())
  {
    hide Inv, Process, Recorded, TakesFrom;
    var ts := ProcessRecords(s, o, now);
    var i: nat := (k - |s.fills|) / 2;
    RecordedFill(Process(s, o, now).0.fills, |s.fills| + 2 * i, s.nextFillId + 2 * i, ts[i], o, s.orders, now, k);
  }

  // ----- The final state of the order and of the orders it met

  /** Where the submitted order ends: rejected without a trade, filled, resting with or without a fill, or
      cancelled. Its other fields, the reason included, are as submitted. */
  lemma FinalStatus(s: EngineState, o: Order, now: Timestamp)
    requires Inv(s) && o.WellFormed() && o.id !in s.orders
    ensures var (s1, o1) := Process(s, o, now);
            var traded := o1.filledQty - o.filledQty;
            && s1.ordersProcessed == s.ordersProcessed + 1 && traded >= 0
            && (o.id in s1.orders ==> s1.orders[o.id] == o1)
            && if o.otype == FOK && o.qty > 0 && traded == 0 then
                 o1 == o.(submitTs := now, status := Rejected, rejectReason := InsufficientLiquidity)
               else
                 var residual := o1.Leaves() > 0 && o.otype != Limit;
                 o1 == o.(submitTs := now, filledQty := o1.filledQty, queuePos := o1.queuePos,
                          lastFillTs := if traded > 0 || residual then now else o.lastFillTs,
                          status := if residual then Cancelled
                                    else if traded == 0 then o.status
                                    else if o1.Leaves() == 0 then Filled
                                    else PartiallyFilled)
  {
    hide Inv, Backed, Sweep, Process;
    var s0, o0 := s.(ordersProcessed := s.ordersProcessed + 1), o.(submitTs := now);
    CountingKeepsInv(s);
    ProcessCases(s, o, now);
    SweepInv(s0, o0, LimitOf(o), now);
    SweepOrder(s0, o0, LimitOf(o), now);
    SweepCounts(s0, o0, LimitOf(o), now);
  }

  lemma {:induction false} ExecuteCounts(s: EngineState, o: Order, ts: seq<Take>, now: Timestamp)
    ensures Execute(s, o, ts, now).0.ordersProcessed == s.ordersProcessed
    decreases |ts|
  {
    if ts != [] {
      var (s1, o1) := ExecuteOne(s, o, ts[0], now);
      ExecuteCounts(s1, o1, ts[1..], now);
    }
  }

  lemma SweepCounts(s: EngineState, o: Order, limit: Price, now: Timestamp)
    requires o.WellFormed()
    ensures Sweep(s, o, limit, now).0.ordersProcessed == s.ordersProcessed
  {
    ExecuteCounts(s, o, Takes(s.Contra(o), SweepQty(s, o, limit)), now);
  }

  /** What a resting order is after it got some more shares. */
  function Met(r: Order, got: int, now: Timestamp): Order
    requires got >= 0
  {
    if got == 0 then r
    else r.(filledQty := r.filledQty + got, lastFillTs := now,
            status := if r.filledQty + got == r.qty then Filled else PartiallyFilled)
  }

  lemma ExecuteOneMaker(s: EngineState, o: Order, t: Take, now: Timestamp, id: OrderId)
    requires t.id in s.orders && s.orders[t.id].id == t.id && 0 < t.qty <= s.orders[t.id].Leaves()
    requires id in s.orders && id != o.id
    ensures var s1 := ExecuteOne(s, o, t, now).0;
            var got := if t.id == id then t.qty else 0;
            id in s1.orders && s1.orders[id] == Met(s.orders[id], got, now)
  {}

  lemma MetTwice(r: Order, a: nat, b: nat, now: Timestamp)
    requires a + b <= r.Leaves()
    ensures Met(Met(r, a, now), b, now) == Met(r, a + b, now)
  {}

  lemma {:induction false} ExecuteMaker(s: EngineState, o: Order, n: nat, now: Timestamp, id: OrderId)
    requires Inv(s) && n <= Shares(s.Contra(o)) && o.id !in s.orders && id in s.orders
    ensures var s1 := Execute(s, o, Takes(s.Contra(o), n), now).0;
            var got := TakenFrom(Takes(s.Contra(o), n), id);
            && id in s1.orders && s1.orders[id] == Met(s.orders[id], got, now) && got <= s.orders[id].Leaves()
    decreases n
  {
    hide Inv, Takes, Consume, ExecuteOne, Met;
    CountingKeepsInv(s);
    KnownOrder(s, id);
    var q := s.Contra(o);
    if n == 0 {
      TakesNothing(q);
      MetTwice(s.orders[id], 0, 0, now);
      NotMet(s.orders[id], now);
    } else {
      FirstTake(q, n);
      var t := Takes(q, n)[0];
      var (s1, o1) := ExecuteOne(s, o, t, now);
      ExecuteOneInv(s, o, t, now);
      OneOrder(s, o, t, now);
      FrontFacts(s, o, t);
      ExecuteOneMaker(s, o, t, now, id);
      assert s1.Contra(o1) == s1.Contra(o);
      ExecuteMaker(s1, o1, n - t.qty, now, id);
      var got := if t.id == id then t.qty else 0;
      var more := TakenFrom(Takes(s1.Contra(o1), n - t.qty), id);
      MetLeaves(s.orders[id], got, now);
      MetTwice(s.orders[id], got, more, now);
    }
  }

  lemma OneOrder(s: EngineState, o: Order, t: Take, now: Timestamp)
    ensures SameTerms(ExecuteOne(s, o, t, now).1, o)
  {}

  lemma NotMet(r: Order, now: Timestamp)
    ensures Met(r, 0, now) == r
  {}

  lemma MetLeaves(r: Order, got: nat, now: Timestamp)
    ensures Met(r, got, now).Leaves() == r.Leaves() - got
  {}

  lemma KnownOrder(s: EngineState, id: OrderId)
    requires Inv(s) && id in s.orders
    ensures s.orders[id].Leaves() >= 0
  {}

  lemma FinishKeepsOthers(s: EngineState, o: Order, now: Timestamp, id: OrderId)
    requires id in s.orders && id != o.id
    ensures var s1 := Finish(s, o, now).0; id in s1.orders && s1.orders[id] == s.orders[id]
  {}

  /** Every resting order after the call: untouched if it got nothing, otherwise with what it got added,
      the time of the call, and Filled exactly when nothing is left of it. */
  lemma MakerStatus(s: EngineState, o: Order, now: Timestamp, id: OrderId)
    requires Inv(s) && o.WellFormed() && o.id !in s.orders && id in s.orders
    ensures var s1 := Process(s, o, now).0;
            var r, got := s.orders[id], FilledOf(s1.fills, id) - FilledOf(s.fills, id);
            && id in s1.orders && 0 <= got <= r.Leaves()
            && s1.orders[id] == if got == 0 then r
                                else r.(filledQty := r.filledQty + got, lastFillTs := now,
                                        status := if r.filledQty + got == r.qty then Filled else PartiallyFilled)
  {
    hide Inv, Backed, Process, Finish, Takes, SweepQty, Execute, FilledOf;
    var s0, o0 := s.(ordersProcessed := s.ordersProcessed + 1), o.(submitTs := now);
    CountingKeepsInv(s);
    KnownOrder(s, id);
    ProcessCases(s, o, now);
    if !Refused(s0, o0) {
      var n := SweepQty(s0, o0, LimitOf(o));
      SweepWithin(s0, o0, LimitOf(o));
      SweepAccounts(s0, o0, LimitOf(o), now, id);
      ExecuteMaker(s0, o0, n, now, id);
      SweepKeepsId(s0, o0, LimitOf(o), now);
      var (s1, o1) := Sweep(s0, o0, LimitOf(o), now);
      FinishKeepsFills(s1, o1, now);
      FinishKeepsOthers(s1, o1, now, id);
    }
  }

  lemma SweepKeepsId(s: EngineState, o: Order, limit: Price, now: Timestamp)
    requires o.WellFormed() && Backed(s)
    ensures Sweep(s, o, limit, now).1.id == o.id
  {
    SweepOrder(s, o, limit, now);
  }

  lemma SweepWithin(s: EngineState, o: Order, limit: Price)
    requires o.WellFormed()
    ensures SweepQty(s, o, limit) <= Shares(s.Contra(o))
  {
    AvailableBound(s.Contra(o), o.IsBuy(), limit);
  }

  // ----- The log over whole runs

  /** One execution: taker and maker are different orders on opposite sides, and agree on the rest. */
  predicate IsExecution(taker: Fill, maker: Fill) {
    && taker.aggressive && !maker.aggressive && taker.orderId != maker.orderId
    && taker.price == maker.price && taker.qty == maker.qty && taker.timestamp == maker.timestamp
    && ((taker.side == Buy && maker.side == Sell) || (taker.side == Sell && maker.side == Buy))
  }

  /** Fills are numbered from one, belong to the symbol, and come in executions. */
  ghost predicate LogOk(fs: seq<Fill>, sym: SymbolId) {
    && |fs| % 2 == 0
    && (forall k :: 0 <= k < |fs| ==> fs[k].id == k + 1 && fs[k].symbolId == sym && fs[k].qty > 0)
    && (forall k :: 0 <= k < |fs| - 1 && k % 2 == 0 ==> IsExecution(fs[k], fs[k + 1]))
  }

  ghost predicate SidedOrders(orders: map<OrderId, Order>, sym: SymbolId) {
    forall id :: id in orders ==> orders[id].symbolId == sym && orders[id].side != Unknown
  }

  ghost predicate LogInv(e: EngineState, sym: SymbolId) {
    LogOk(e.fills, sym) && |e.fills| == 2 * e.fillsGenerated && SidedOrders(e.orders, sym)
  }

  lemma ProcessKeepsLog(s: EngineState, o: Order, now: Timestamp, sym: SymbolId)
    requires Inv(s) && LogInv(s, sym) && o.WellFormed() && o.id !in s.orders && o.symbolId == sym && o.side != Unknown
    ensures LogInv(Process(s, o, now).0, sym)
  {
    hide Inv, Process;
    var s1 := Process(s, o, now).0;
    NextIsCounted(s);
    var ts := ProcessRecords(s, o, now);
    FillsStayOk(s, o, now, sym);
    ProcessKeepsInv(s, o, now);
    FinalStatus(s, o, now);
    forall id | id in s1.orders ensures s1.orders[id].symbolId == sym && s1.orders[id].side != Unknown {
      if id in s.orders { MakerStatus(s, o, now, id); }
    }
  }

  lemma NextIsCounted(s: EngineState)
    requires Inv(s)
    ensures s.nextFillId == 2 * s.fillsGenerated + 1
  {}

  lemma FillsStayOk(s: EngineState, o: Order, now: Timestamp, sym: SymbolId)
    requires Inv(s) && LogInv(s, sym) && o.WellFormed() && o.id !in s.orders && o.symbolId == sym && o.side != Unknown
    ensures LogOk(Process(s, o, now).0.fills, sym)
  {
    hide Inv, Process, IsExecution, Recorded;
    NextIsCounted(s);
    var ts := ProcessRecords(s, o, now);
    var n, fs := |s.fills|, Process(s, o, now).0.fills;
    forall k | 0 <= k < |fs| - 1 && k % 2 == 0 ensures IsExecution(fs[k], fs[k + 1]) {
      if k < n {
        assert k + 1 < n && fs[k] == s.fills[k] && fs[k + 1] == s.fills[k + 1];
      } else {
        NewFills(s, o, now, k);
        NewFills(s, o, now, k + 1);
        NewPair(s, o, fs[k], fs[k + 1]);
      }
    }
    forall k | 0 <= k < |fs| ensures fs[k].id == k + 1 && fs[k].symbolId == sym && fs[k].qty > 0 {
      if k < n {
        assert fs[k] == s.fills[k];
      } else {
        NewFills(s, o, now, k);
      }
    }
  }

  lemma NewPair(s: EngineState, o: Order, a: Fill, b: Fill)
    requires a.aggressive && !b.aggressive && a.price == b.price && a.qty == b.qty && a.timestamp == b.timestamp
    requires a.orderId == o.id && a.side == o.side && o.side != Unknown
    requires b.orderId in s.orders && o.id !in s.orders
    requires var r := s.orders[b.orderId]; b.side == r.side && r.side != Unknown && r.IsBuy() != o.IsBuy()
    ensures IsExecution(a, b)
  {}

  ghost predicate LogsInv(rs: RouterState) {
    forall sym :: sym in rs.engines ==> LogInv(rs.engines[sym], sym)
  }

  lemma StepKeepsLogs(t: Traced, c: Command)
    requires TracedInv(t) && LogsInv(t.router) && Acceptable(c)
    ensures LogsInv(Step(t, c).router)
  {
    hide Inv, Process, Cancel, LogInv, FutureClear, Balanced, SideQty;
    match c
    case Register(sym) => EmptyLog(sym);
    case Submit(o, now) =>
      var rs := t.router;
      if Valid(rs, o) {
        var e := rs.engines[o.symbolId];
        UnissuedIsUnknown(rs, o.symbolId, rs.nextOrderId);
        ProcessKeepsLog(e, Stamped(rs, o, now), now, o.symbolId);
      }
    case CancelOrder(id, _) =>
      if Finds(t.router, id) {
        CancelKeepsLog(t.router.engines[t.router.symbolOf[id]], id, t.router.symbolOf[id]);
      }
  }

  lemma EmptyLog(sym: SymbolId)
    ensures LogInv(EMPTY_ENGINE, sym)
  {}

  lemma CancelKeepsLog(e: EngineState, id: OrderId, sym: SymbolId)
    requires LogInv(e, sym)
    ensures LogInv(Cancel(e, id), sym)
  {
    hide LogOk;
  }

  lemma {:induction false} RunKeepsLogs(t: Traced, cs: seq<Command>)
    requires TracedInv(t) && LogsInv(t.router) && forall i :: 0 <= i < |cs| ==> Acceptable(cs[i])
    ensures LogsInv(Run(t, cs).router)
    decreases |cs|
  {
    hide TracedInv, Step, LogsInv;
    if cs != [] {
      StepKeeps(t, cs[0]);
      StepKeepsLogs(t, cs[0]);
      RunKeepsLogs(Step(t, cs[0]), cs[1..]);
    }
  }

  /** After any run the fills of an engine are numbered 1, 2, 3 and so on, all carry the engine's symbol and
      a positive quantity, and come in pairs of one buy and one sell of different orders at the same
      price, quantity and time, the taker first. */
  lemma EveryFillHasItsOpposite(cs: seq<Command>, sym: SymbolId, k: nat)
    requires forall i :: 0 <= i < |cs| ==> Acceptable(cs[i])
    requires var rs := Run(Traced(EMPTY_ROUTER, map[]), cs).router;
             sym in rs.engines && k < |rs.engines[sym].fills|
    ensures var fs := Run(Traced(EMPTY_ROUTER, map[]), cs).router.engines[sym].fills;
            var j := if k % 2 == 0 then k + 1 else k - 1;
            && fs[k].id == k + 1 && fs[k].symbolId == sym && fs[k].qty > 0
            && 0 <= j < |fs| && fs[k].aggressive == (k % 2 == 0) && fs[j].aggressive != fs[k].aggressive
            && fs[j].orderId != fs[k].orderId && fs[j].price == fs[k].price && fs[j].qty == fs[k].qty
            && fs[j].timestamp == fs[k].timestamp
            && (fs[k].side == Buy ==> fs[j].side == Sell) && (fs[k].side != Buy ==> fs[k].side == Sell && fs[j].side == Buy)
  {
    StartKeeps();
    EmptyLogs();
    RunKeepsLogs(Traced(EMPTY_ROUTER, map[]), cs);
    hide Run, TracedInv;
    OppositeAt(Run(Traced(EMPTY_ROUTER, map[]), cs).router.engines[sym].fills, sym, k);
  }

  lemma EmptyLogs()
    ensures LogsInv(EMPTY_ROUTER)
  {}

  lemma OppositeAt(fs: seq<Fill>, sym: SymbolId, k: nat)
    requires LogOk(fs, sym) && k < |fs|
    ensures var j := if k % 2 == 0 then k + 1 else k - 1;
            && fs[k].id == k + 1 && fs[k].symbolId == sym && fs[k].qty > 0
            && 0 <= j < |fs| && if k % 2 == 0 then IsExecution(fs[k], fs[j]) else IsExecution(fs[j], fs[k])
  {
    hide IsExecution;
    var even: nat := if k % 2 == 0 then k else k - 1;
    assert IsExecution(fs[even], fs[even + 1]);
  }
}
