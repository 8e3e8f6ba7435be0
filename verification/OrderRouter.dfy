/** The order router: it issues identifiers, owns one book and one engine per symbol, and sends
    every request to the right one. */
module OrderRouters {
  import opened ExchangeTypes
  import opened EngineSpec
  import opened EngineInvariant
  import opened BookLevels
  import opened BookInvariant
  import opened OrderBooks
  import opened MatchingEngines
  import opened RouterSpec

  class OrderRouter {
    var engines: map<SymbolId, MatchingEngine>
    var symbolOf: map<OrderId, SymbolId>
    var nextOrderId: nat
    var ordersSubmitted: nat
    ghost var Repr: set<object>

    /** Every engine lives in Repr, and no two of them share an object. */
    ghost predicate Separate()
      reads this
    {
      && this !in Repr
      && (forall sym :: sym in engines ==> engines[sym].Footprint() <= Repr)
      && (forall s, t :: s in engines && t in engines && s != t ==> engines[s].Footprint() !! engines[t].Footprint())
    }

    ghost function States(): map<SymbolId, EngineState>
      requires Separate()
      reads this, Repr
    {
      map sym | sym in engines :: engines[sym].State()
    }

    ghost function State(): RouterState
      requires Separate()
      reads this, Repr
    {
      RouterState(States(), symbolOf, nextOrderId, ordersSubmitted)
    }

    ghost predicate Valid()
      reads this, Repr
    {
      && Separate()
      && (forall sym :: sym in engines ==> engines[sym].Valid())
      && Routed(State())
    }

    constructor ()
      ensures Valid() && State() == EMPTY_ROUTER && Repr == {}
    {
      engines, symbolOf, nextOrderId, ordersSubmitted := map[], map[], 1, 0;
      Repr := {};
    }

    method NewEngine() returns (engine: MatchingEngine)
      ensures fresh(engine.Footprint()) && engine.Valid() && engine.State() == EMPTY_ENGINE
    {
      hide Inv, Routed, Separate, States, BookOk;
      var book := new OrderBook();
      engine := new MatchingEngine(book);
    }

    /** Registers a symbol; a symbol that is registered already is an error. */
    method Register(sym: SymbolId) returns (ok: bool)
      requires Valid()
      modifies this
      ensures Valid() && State() == RegisterSymbol(old(State()), sym)
      ensures ok == (sym !in old(engines)) && fresh(Repr - old(Repr))
    {
      hide Inv, Routed, MatchingEngine.Valid, MatchingEngine.State, Separate, States;
      KnownSymbols();
      if sym in engines {
        return false;
      }
      RegisterRouted(State(), sym);
      OutsideRepr();
      var engine := NewEngine();
      engines := engines[sym := engine];
      Repr := Repr + engine.Footprint();
      EngineAddedSeparate(sym, engine);
      EngineAddedStates(sym, engine);
      ok := true;
    }

    lemma OutsideRepr()
      requires Valid()
      ensures this !in Repr
    {}

    twostate lemma EngineAddedSeparate(sym: SymbolId, new engine: MatchingEngine)
      requires old(Separate()) && sym !in old(engines) && engines == old(engines)[sym := engine]
      requires this !in engine.Footprint() && engine.Footprint() !! old(Repr) && Repr == old(Repr) + engine.Footprint()
      ensures Separate()
    {
      forall s, t | s in engines && t in engines && s != t
        ensures engines[s].Footprint() !! engines[t].Footprint()
      {
        if s == sym { assert old(engines[t].Footprint()) <= old(Repr); }
        else if t == sym { assert old(engines[s].Footprint()) <= old(Repr); }
      }
    }

    /** An engine that was registered before keeps its state as long as Repr is untouched. */
    twostate lemma EngineKept(sym: SymbolId)
      requires old(Valid()) && sym in old(engines) && unchanged(old(Repr))
      ensures old(engines)[sym].Valid() && old(engines)[sym].State() == old(engines[sym].State())
    {
      hide Inv, Routed, MatchingEngine.Valid, MatchingEngine.State;
      assert old(engines[sym].Footprint()) <= old(Repr) && old(engines[sym].Valid());
    }

    twostate lemma EngineAddedStates(sym: SymbolId, new engine: MatchingEngine)
      requires old(Valid()) && sym !in old(engines) && engines == old(engines)[sym := engine] && Separate()
      requires unchanged(old(Repr)) && engine.Valid()
      ensures forall s :: s in engines ==> engines[s].Valid()
      ensures States() == old(States())[sym := engine.State()]
    {
      hide Inv, Routed, MatchingEngine.Valid, MatchingEngine.State;
      forall s | s in engines && s != sym
        ensures engines[s].Valid() && engines[s].State() == old(engines[s].State())
      {
        EngineKept(s);
      }
    }

    /** What the router rejects without asking an engine. */
    method Validate(order: Order) returns (ok: bool)
      requires Valid()
      ensures ok == RouterSpec.Valid(State(), order)
      ensures ok <==> order.qty > 0 && order.symbolId in engines && (order.side == Buy || order.side == Sell)
                      && (order.otype == Market || order.limitPrice > 0)
    {
      hide Inv, Routed, MatchingEngine.Valid, MatchingEngine.State;
      if order.qty == 0 { return false; }
      if order.symbolId !in engines { return false; }
      if order.side == Unknown { return false; }
      if order.otype == Limit || order.otype == IOC || order.otype == FOK {
        if order.limitPrice <= 0 { return false; }
      }
      return true;
    }

    method Submit(order: Order, now: Timestamp) returns (o1: Order, id: OrderId)
      requires Valid() && order.WellFormed()
      modifies this, Repr
      ensures Valid() && Repr == old(Repr)
      ensures (State(), o1, id) == SubmitOrder(old(State()), order, now)
      ensures id != INVALID_ORDER_ID <==>
                && order.qty > 0 && order.symbolId in old(engines) && (order.side == Buy || order.side == Sell)
                && (order.otype == Market || order.limitPrice > 0)
      ensures id != INVALID_ORDER_ID ==>
                id == old(nextOrderId) && nextOrderId == id + 1 && symbolOf == old(symbolOf)[id := order.symbolId]
      ensures id == INVALID_ORDER_ID ==>
                && State() == old(State())
                && o1 == order.(status := Rejected,
                                rejectReason := if order.symbolId in old(engines) then InvalidQuantity else UnknownSymbol)
    {
      hide Inv, Routed, EngineSpec.Process, MatchingEngine.Valid, MatchingEngine.State, Separate, States;
      KnownSymbols();
      FirstIdentifier();
      SubmitExactly(State(), order, now);
      var ok := Validate(order);
      if !ok {
        o1 := order.(status := Rejected, rejectReason := InvalidQuantity);
        if order.symbolId !in engines {
          o1 := o1.(rejectReason := UnknownSymbol);
        }
        return o1, INVALID_ORDER_ID;
      }
      ghost var before := State();
      var engine := engines[order.symbolId];
      EngineInv(order.symbolId);
      SubmitRouted(before, order, now);
      id := nextOrderId;
      o1 := order.(id := id, submitTs := now, status := New);
      nextOrderId := nextOrderId + 1;
      ordersSubmitted := ordersSubmitted + 1;
      symbolOf := symbolOf[id := order.symbolId];
      o1 := engine.Process(o1, now);
      OneEngineChanged(order.symbolId);
      assert State() == SubmitOrder(before, order, now).0;
    }

    method Cancel(id: OrderId) returns (ok: bool)
      requires Valid()
      modifies this, Repr
      ensures Valid() && Repr == old(Repr)
      ensures State() == CancelRequest(old(State()), id) && ok == Finds(old(State()), id)
      ensures if ok then id in old(symbolOf) && symbolOf == old(symbolOf) - {id} else State() == old(State())
      ensures nextOrderId == old(nextOrderId) && ordersSubmitted == old(ordersSubmitted)
    {
      hide Inv, Routed, EngineSpec.Cancel, MatchingEngine.Valid, MatchingEngine.State, Separate, States;
      KnownSymbols();
      CancelExactly(State(), id);
      if id !in symbolOf || symbolOf[id] !in engines {
        return false;
      }
      ghost var before := State();
      var sym := symbolOf[id];
      var engine := engines[sym];
      EngineInv(sym);
      CancelNothing(engine.State(), id);
      ok := engine.CancelInBook(id);
      if ok {
        CancelRouted(before, id);
        symbolOf := symbolOf - {id};
      }
      OneEngineChanged(sym);
      assert State() == CancelRequest(before, id);
    }

    /** A request changes one engine; every other engine keeps its state. */
    twostate lemma OneEngineChanged(sym: SymbolId)
      requires old(Valid()) && engines == old(engines) && Repr == old(Repr) && sym in engines
      requires engines[sym].Valid()
      requires unchanged(Repr - engines[sym].Footprint())
      ensures Separate() && (forall s :: s in engines ==> engines[s].Valid())
      ensures States() == old(States())[sym := engines[sym].State()]
    {
      hide Inv, Routed, MatchingEngine.Valid, MatchingEngine.State;
      forall s | s in engines && s != sym
        ensures engines[s].Valid() && engines[s].State() == old(engines[s].State())
      {
        assert engines[s].Footprint() <= Repr - engines[sym].Footprint();
        assert old(engines[s].Valid());
      }
    }

    lemma FirstIdentifier()
      requires Valid()
      ensures nextOrderId > 0
    {}

    lemma KnownSymbols()
      requires Valid()
      ensures States().Keys == engines.Keys
    {}

    lemma EngineInv(sym: SymbolId)
      requires Valid() && sym in engines
      ensures engines[sym].Valid() && Inv(engines[sym].State()) && engines[sym].book.orders == engines[sym].State().orders
      ensures States().Keys == engines.Keys && States()[sym] == engines[sym].State()
      ensures this !in Repr && engines[sym].Footprint() <= Repr
    {
      hide Routed, BookOk, Flat, Inv;
    }

  }

  lemma CancelNothing(s: EngineState, id: OrderId)
    ensures !Cancellable(s, id) ==> Cancel(s, id) == s
  {}

  lemma RegisterRouted(rs: RouterState, sym: SymbolId)
    requires Routed(rs)
    ensures Routed(RegisterSymbol(rs, sym)) && Inv(EMPTY_ENGINE)
  {}
}
