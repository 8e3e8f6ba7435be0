/** The order router over whole runs: any number of symbols, any sequence of registrations,
    submissions and cancellations, starting from nothing. */
module RouterSpec {
  import opened ExchangeTypes
  import opened PriceTime
  import opened EngineSpec
  import opened EngineInvariant
  import opened EngineTheorems

  datatype RouterState = RouterState(
    engines: map<SymbolId, EngineState>,
    symbolOf: map<OrderId, SymbolId>,
    nextOrderId: nat,
    ordersSubmitted: nat)

  const EMPTY_ROUTER := RouterState(map[], map[], 1, 0)

  datatype Command =
    | Register(symbol: SymbolId)
    | Submit(order: Order, now: Timestamp)
    | CancelOrder(id: OrderId, now: Timestamp)

  // ----- Single requests

  /** A symbol is registered at most once; the program throws on a second attempt. */
  function RegisterSymbol(rs: RouterState, sym: SymbolId): RouterState {
    if sym in rs.engines then rs else rs.(engines := rs.engines[sym := EMPTY_ENGINE])
  }

  predicate Valid(rs: RouterState, o: Order) {
    && o.qty != 0
    && o.symbolId in rs.engines
    && o.side != Unknown
    && (o.otype != Market ==> o.limitPrice > 0)
  }

  function RejectionOf(rs: RouterState, o: Order): Order {
    o.(status := Rejected, rejectReason := if o.symbolId in rs.engines then InvalidQuantity else UnknownSymbol)
  }

  /** The order as the router hands it to the engine. */
  function Stamped(rs: RouterState, o: Order, now: Timestamp): Order {
    o.(id := rs.nextOrderId, submitTs := now, status := New)
  }

  function SubmitOrder(rs: RouterState, o: Order, now: Timestamp): (RouterState, Order, OrderId)
    requires o.WellFormed()
  {
    if !Valid(rs, o) then (rs, RejectionOf(rs, o), INVALID_ORDER_ID)
    else
      var (e1, o1) := Process(rs.engines[o.symbolId], Stamped(rs, o, now), now);
      (RouterState(rs.engines[o.symbolId := e1], rs.symbolOf[rs.nextOrderId := o.symbolId],
                   rs.nextOrderId + 1, rs.ordersSubmitted + 1),
       o1, rs.nextOrderId)
  }

  /** Whether a cancel request finds its order. */
  predicate Finds(rs: RouterState, id: OrderId) {
    id in rs.symbolOf && rs.symbolOf[id] in rs.engines && Cancellable(rs.engines[rs.symbolOf[id]], id)
  }

  function CancelRequest(rs: RouterState, id: OrderId): RouterState {
    if !Finds(rs, id) then rs
    else
      var sym := rs.symbolOf[id];
      rs.(engines := rs.engines[sym := Cancel(rs.engines[sym], id)], symbolOf := rs.symbolOf - {id})
  }

  /** Which orders are accepted and what an answer says. An accepted order gets the next identifier and goes to
      its symbol's engine as new; a refused one changes nothing and is told whether its symbol was at fault. */
  lemma SubmitExactly(rs: RouterState, o: Order, now: Timestamp)
    requires o.WellFormed() && rs.nextOrderId > 0
    ensures var (rs1, o1, id) := SubmitOrder(rs, o, now);
            var accepted := o.qty > 0 && o.symbolId in rs.engines && (o.side == Buy || o.side == Sell)
                            && (o.otype == Market || o.limitPrice > 0);
            && (id != INVALID_ORDER_ID <==> accepted)
            && if accepted then
                 var (e1, processed) := Process(rs.engines[o.symbolId], o.(id := id, submitTs := now, status := New), now);
                 && id == rs.nextOrderId && rs1.nextOrderId == id + 1 && rs1.ordersSubmitted == rs.ordersSubmitted + 1
                 && rs1.symbolOf == rs.symbolOf[id := o.symbolId] && rs1.engines == rs.engines[o.symbolId := e1]
                 && o1 == processed
               else
                 && rs1 == rs
                 && o1 == o.(status := Rejected,
                             rejectReason := if o.symbolId in rs.engines then InvalidQuantity else UnknownSymbol)
  {
    hide Process;
  }

  /** What a cancel request leaves behind: without the order resting under its symbol, everything as it was;
      otherwise the order is gone from the router's table and from its engine's, and nothing else changed. */
  lemma CancelExactly(rs: RouterState, id: OrderId)
    ensures var rs1 := CancelRequest(rs, id);
            if !Finds(rs, id) then rs1 == rs
            else
              var sym := rs.symbolOf[id];
              var (e, e1) := (rs.engines[sym], rs1.engines[sym]);
              && rs1.nextOrderId == rs.nextOrderId && rs1.ordersSubmitted == rs.ordersSubmitted
              && rs1.symbolOf == rs.symbolOf - {id} && rs1.engines == rs.engines[sym := e1]
              && e1 == e.(bids := e1.bids, asks := e1.asks, orders := e.orders - {id})
  {}

  // ----- Runs, with a ledger of what was asked for and what was given up

  datatype Entry = Entry(symbol: SymbolId, submitted: int, givenUp: int)

  datatype Traced = Traced(router: RouterState, ledger: map<OrderId, Entry>)

  ghost predicate Acceptable(c: Command) { c.Submit? ==> c.order.WellFormed() }

  ghost function Step(t: Traced, c: Command): Traced
    requires Acceptable(c)
  {
    match c
    case Register(sym) => t.(router := RegisterSymbol(t.router, sym))
    case Submit(o, now) =>
      var (rs, o1, id) := SubmitOrder(t.router, o, now);
      if id == INVALID_ORDER_ID then t.(router := rs)
      else Traced(rs, t.ledger[id := Entry(o.symbolId, o.Leaves(), GivenUp(o1))])
    case CancelOrder(id, _) =>
      if !Finds(t.router, id) || id !in t.ledger then t.(router := CancelRequest(t.router, id))
      else
        var e := t.ledger[id];
        var resting := RestingIn(t.router.engines[t.router.symbolOf[id]], id);
        Traced(CancelRequest(t.router, id), t.ledger[id := e.(givenUp := e.givenUp + resting)])
  }

  ghost function Run(t: Traced, cs: seq<Command>): Traced
    requires forall i :: 0 <= i < |cs| ==> Acceptable(cs[i])
    decreases |cs|
  {
    if cs == [] then t else Run(Step(t, cs[0]), cs[1..])
  }

  // ----- Invariant

  /** Every order of an engine carries an identifier that was issued for that engine. */
  ghost predicate Routed(rs: RouterState) {
    && rs.nextOrderId >= 1
    && (forall sym, id :: sym in rs.engines && id in rs.engines[sym].orders ==>
          id in rs.symbolOf && rs.symbolOf[id] == sym)
    && (forall id :: id in rs.symbolOf ==> 1 <= id < rs.nextOrderId && rs.symbolOf[id] in rs.engines)
  }

  ghost predicate EnginesInv(rs: RouterState) {
    forall sym :: sym in rs.engines ==>
      && Inv(rs.engines[sym])
      && SideQty(rs.engines[sym].fills, true) == SideQty(rs.engines[sym].fills, false)
  }

  /** Nothing is on record for identifiers that were not issued yet. */
  ghost predicate FutureClear(rs: RouterState) {
    forall sym, id :: sym in rs.engines && id >= rs.nextOrderId ==> FilledOf(rs.engines[sym].fills, id) == 0
  }

  /** One entry of the ledger balances. */
  ghost predicate Balanced(t: Traced, id: OrderId)
    requires id in t.ledger
  {
    var e := t.ledger[id];
    && e.symbol in t.router.engines
    && Account(t.router.engines[e.symbol], id) + e.givenUp == e.submitted
    && (id in t.router.symbolOf ==> t.router.symbolOf[id] == e.symbol)
  }

  ghost predicate TracedInv(t: Traced) {
    && Routed(t.router)
    && EnginesInv(t.router)
    && FutureClear(t.router)
    && (forall id :: id in t.ledger <==> 1 <= id < t.router.nextOrderId)
    && (forall id :: id in t.ledger ==> Balanced(t, id))
  }

  // ----- Each request keeps the invariant

  lemma RegisterKeeps(t: Traced, sym: SymbolId)
    requires TracedInv(t)
    ensures TracedInv(Step(t, Register(sym)))
  {
    hide Inv, SideQty, FilledOf, LeavesIn;
    EmptyFacts();
    var t1 := Step(t, Register(sym));
    forall id | id in t1.ledger ensures Balanced(t1, id) {
      assert Balanced(t, id);
    }
  }

  lemma EmptyFacts()
    ensures Inv(EMPTY_ENGINE) && SideQty([], true) == SideQty([], false)
    ensures forall id :: FilledOf([], id) == 0
  {}

  /** What one submission does to one engine, for every identifier. */
  lemma SubmitEngine(s: EngineState, o: Order, now: Timestamp)
    requires Inv(s) && o.WellFormed() && o.id !in s.orders && o.status == New
    requires SideQty(s.fills, true) == SideQty(s.fills, false)
    ensures var (s1, o1) := Process(s, o, now);
            && Inv(s1) && SideQty(s1.fills, true) == SideQty(s1.fills, false)
            && s.orders.Keys <= s1.orders.Keys <= s.orders.Keys + {o.id}
            && (forall id :: id != o.id ==> Account(s1, id) == Account(s, id))
            && Account(s1, o.id) + GivenUp(o1) == Account(s, o.id) + o.Leaves()
  {
    hide Inv, Process, SideQty, Account;
    ProcessKeepsInv(s, o, now);
    forall id {
      ProcessConserves(s, o, now, id);
    }
    ProcessConserves(s, o, now, o.id);
  }

  lemma NotListedAccount(s: EngineState, id: OrderId)
    requires id !in s.orders
    ensures Account(s, id) == FilledOf(s.fills, id)
  {}

  lemma UnissuedIsUnknown(rs: RouterState, sym: SymbolId, id: OrderId)
    requires Routed(rs) && sym in rs.engines && id >= rs.nextOrderId
    ensures id !in rs.engines[sym].orders
  {
    hide Routed;
    if id in rs.engines[sym].orders {
      RoutedAt(rs, sym, id);
    }
  }

  lemma RoutedAt(rs: RouterState, sym: SymbolId, id: OrderId)
    requires Routed(rs) && sym in rs.engines && id in rs.engines[sym].orders
    ensures id in rs.symbolOf && rs.symbolOf[id] == sym && 1 <= id < rs.nextOrderId
  {}

  /** Requests keep identifiers attached to their symbol. */
  lemma SubmitRouted(rs: RouterState, o: Order, now: Timestamp)
    requires Routed(rs) && o.WellFormed() && Valid(rs, o) && Inv(rs.engines[o.symbolId])
    ensures Routed(SubmitOrder(rs, o, now).0)
    ensures rs.nextOrderId !in rs.engines[o.symbolId].orders
  {
    hide Inv, Process;
    var id0, e := rs.nextOrderId, rs.engines[o.symbolId];
    UnissuedIsUnknown(rs, o.symbolId, id0);
    ProcessKeepsInv(e, Stamped(rs, o, now), now);
    var rs1 := SubmitOrder(rs, o, now).0;
    forall sym, id | sym in rs1.engines && id in rs1.engines[sym].orders
      ensures id in rs1.symbolOf && rs1.symbolOf[id] == sym
    {
      if id != id0 || sym != o.symbolId {
        assert id in rs.engines[sym].orders;
        RoutedAt(rs, sym, id);
      }
    }
  }

  lemma CancelRouted(rs: RouterState, id: OrderId)
    requires Routed(rs) && Finds(rs, id) && Inv(rs.engines[rs.symbolOf[id]])
    ensures Routed(CancelRequest(rs, id))
  {
    hide Inv, Cancel;
    CancelKeepsInv(rs.engines[rs.symbolOf[id]], id);
  }

  lemma SubmitFutureClear(rs: RouterState, o: Order, now: Timestamp)
    requires Routed(rs) && FutureClear(rs) && o.WellFormed() && Valid(rs, o)
    requires rs.nextOrderId !in rs.engines[o.symbolId].orders && Inv(rs.engines[o.symbolId])
    requires SideQty(rs.engines[o.symbolId].fills, true) == SideQty(rs.engines[o.symbolId].fills, false)
    ensures FutureClear(SubmitOrder(rs, o, now).0)
  {
    hide Inv, Process, SideQty, FilledOf, Account, GivenUp;
    var e := rs.engines[o.symbolId];
    var rs1 := SubmitOrder(rs, o, now).0;
    var e1 := rs1.engines[o.symbolId];
    SubmitEngine(e, Stamped(rs, o, now), now);
    forall id | id > rs.nextOrderId ensures FilledOf(e1.fills, id) == 0 {
      UnissuedIsUnknown(rs, o.symbolId, id);
      NotListedAccount(e, id);
      NotListedAccount(e1, id);
    }
  }

  lemma SubmitKeeps(t: Traced, o: Order, now: Timestamp)
    requires TracedInv(t) && o.WellFormed()
    ensures TracedInv(Step(t, Submit(o, now)))
  {
    hide Inv, Process, SideQty, FilledOf, Account, GivenUp, Routed, FutureClear;
    var rs := t.router;
    if Valid(rs, o) {
      var id0 := rs.nextOrderId;
      var e := rs.engines[o.symbolId];
      SubmitRouted(rs, o, now);
      SubmitFutureClear(rs, o, now);
      UnissuedAccount(rs, o.symbolId, id0);
      SubmitEngine(e, Stamped(rs, o, now), now);
      var t1 := Step(t, Submit(o, now));
      forall id | id in t1.ledger ensures Balanced(t1, id) {
        assert id != id0 ==> Balanced(t, id);
      }
    }
  }

  lemma UnissuedAccount(rs: RouterState, sym: SymbolId, id: OrderId)
    requires Routed(rs) && FutureClear(rs) && sym in rs.engines && id >= rs.nextOrderId
    ensures Account(rs.engines[sym], id) == 0 && rs.nextOrderId >= 1
  {
    UnissuedIsUnknown(rs, sym, id);
  }

  lemma CancelEngine(s: EngineState, id: OrderId)
    requires Inv(s) && Cancellable(s, id)
    ensures var s1 := Cancel(s, id);
            && Inv(s1) && s1.fills == s.fills && s1.orders.Keys == s.orders.Keys - {id}
            && (forall other :: other != id ==> Account(s1, other) == Account(s, other))
            && Account(s1, id) == Account(s, id) - RestingIn(s, id)
  {
    hide Inv, Account, Cancel, RestingIn;
    CancelKeepsInv(s, id);
    forall other { CancelConserves(s, id, other); }
    CancelConserves(s, id, id);
  }

  lemma CancelKeeps(t: Traced, id0: OrderId, now: Timestamp)
    requires TracedInv(t)
    ensures TracedInv(Step(t, CancelOrder(id0, now)))
  {
    hide Inv, Cancel, SideQty, FilledOf, Account, RestingIn, Routed;
    var rs := t.router;
    if Finds(rs, id0) {
      CancelRouted(rs, id0);
      CancelEngine(rs.engines[rs.symbolOf[id0]], id0);
      var t1 := Step(t, CancelOrder(id0, now));
      forall id | id in t1.ledger ensures Balanced(t1, id) {
        assert Balanced(t, id);
      }
    }
  }

  lemma {:induction false} RunKeeps(t: Traced, cs: seq<Command>)
    requires TracedInv(t) && forall i :: 0 <= i < |cs| ==> Acceptable(cs[i])
    ensures TracedInv(Run(t, cs))
    decreases |cs|
  {
    hide TracedInv, Step;
    if cs != [] {
      StepKeeps(t, cs[0]);
      RunKeeps(Step(t, cs[0]), cs[1..]);
    }
  }

  lemma StepKeeps(t: Traced, c: Command)
    requires TracedInv(t) && Acceptable(c)
    ensures TracedInv(Step(t, c))
  {
    hide TracedInv, Step;
    match c {
      case Register(sym) => RegisterKeeps(t, sym);
      case Submit(o, now) => SubmitKeeps(t, o, now);
      case CancelOrder(id, now) => CancelKeeps(t, id, now);
    }
  }

  lemma StartKeeps()
    ensures TracedInv(Traced(EMPTY_ROUTER, map[]))
  {}

  // ----- Whole runs

  /** No run ever leaves a crossed book. */
  lemma NeverCrossed(cs: seq<Command>, sym: SymbolId)
    requires forall i :: 0 <= i < |cs| ==> Acceptable(cs[i])
    ensures var rs := Run(Traced(EMPTY_ROUTER, map[]), cs).router;
            sym in rs.engines ==>
              forall i, j :: 0 <= i < |rs.engines[sym].bids| && 0 <= j < |rs.engines[sym].asks| ==>
                rs.engines[sym].bids[i].price < rs.engines[sym].asks[j].price
  {
    StartKeeps();
    RunKeeps(Traced(EMPTY_ROUTER, map[]), cs);
  }

  /** Share conservation over whole runs. For every identifier ever issued, the shares filled, the
      shares resting and the shares given up add up to the shares submitted; and takers have
      traded exactly what makers have. */
  lemma SharesAreConserved(cs: seq<Command>)
    requires forall i :: 0 <= i < |cs| ==> Acceptable(cs[i])
    ensures var t := Run(Traced(EMPTY_ROUTER, map[]), cs);
            && (forall id :: 1 <= id < t.router.nextOrderId ==>
                  && id in t.ledger && t.ledger[id].symbol in t.router.engines
                  && var e := t.router.engines[t.ledger[id].symbol];
                     FilledOf(e.fills, id) + RestingIn(e, id) + t.ledger[id].givenUp == t.ledger[id].submitted)
            && (forall sym :: sym in t.router.engines ==>
                  SideQty(t.router.engines[sym].fills, true) == SideQty(t.router.engines[sym].fills, false))
  {
    var t := Run(Traced(EMPTY_ROUTER, map[]), cs);
    StartKeeps();
    RunKeeps(Traced(EMPTY_ROUTER, map[]), cs);
    hide Inv, SideQty, FilledOf, RestingIn, LeavesIn, Run;
    forall id | 1 <= id < t.router.nextOrderId
      ensures id in t.ledger && t.ledger[id].symbol in t.router.engines
      ensures var e := t.router.engines[t.ledger[id].symbol];
              FilledOf(e.fills, id) + RestingIn(e, id) + t.ledger[id].givenUp == t.ledger[id].submitted
    {
      assert Balanced(t, id);
      RestingIsLeaves(t.router.engines[t.ledger[id].symbol], id);
    }
  }

  /** In every reachable state a cancel request succeeds for exactly the orders that rest in some
      book, so a filled, rejected, cancelled or unknown order cannot be cancelled (again). */
  lemma CancelFindsExactlyResting(cs: seq<Command>, id: OrderId)
    requires forall i :: 0 <= i < |cs| ==> Acceptable(cs[i])
    ensures var rs := Run(Traced(EMPTY_ROUTER, map[]), cs).router;
            && (Finds(rs, id) <==> exists sym :: sym in rs.engines && RestingIn(rs.engines[sym], id) > 0)
            && !Finds(CancelRequest(rs, id), id)
  {
    var rs := Run(Traced(EMPTY_ROUTER, map[]), cs).router;
    StartKeeps();
    RunKeeps(Traced(EMPTY_ROUTER, map[]), cs);
    hide Run;
    ResidentIsFound(rs, id);
  }

  lemma ResidentIsFound(rs: RouterState, id: OrderId)
    requires Routed(rs) && EnginesInv(rs)
    ensures Finds(rs, id) <==> exists sym :: sym in rs.engines && RestingIn(rs.engines[sym], id) > 0
    ensures !Finds(CancelRequest(rs, id), id)
  {
    hide Inv, RestingIn, SideQty;
    forall sym | sym in rs.engines
      ensures RestingIn(rs.engines[sym], id) == LeavesIn(rs.engines[sym], id)
    {
      RestingIsLeaves(rs.engines[sym], id);
    }
    if Finds(rs, id) {
      assert RestingIn(rs.engines[rs.symbolOf[id]], id) > 0;
    }
  }
}
