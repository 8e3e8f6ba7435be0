/** Price-time priority in its simplest form: one side of a book is the list of its resting
    orders, best price first and oldest first within a price. The order book, which keeps
    price levels of queues instead, is proved against this form. */
module PriceTime {
  import opened Basics
  import opened ExchangeTypes

  /** A resting order: its identifier, its price and the shares it still offers. */
  datatype Resting = Resting(id: OrderId, price: Price, leaves: nat)

  /** A quantity taken from one resting order. */
  datatype Take = Take(id: OrderId, price: Price, qty: nat)

  /** Ascending key order is best-first order: highest bid first, lowest ask first. */
  function Key(isBid: bool, p: Price): int { if isBid then -p else p }

  ghost predicate Sorted(q: seq<Resting>, isBid: bool) {
    forall i, j :: 0 <= i < j < |q| ==> Key(isBid, q[i].price) <= Key(isBid, q[j].price)
  }

  ghost predicate DistinctIds(q: seq<Resting>) {
    forall i, j :: 0 <= i < j < |q| ==> q[i].id != q[j].id
  }

  ghost function Ids(q: seq<Resting>): set<OrderId> {
    set i | 0 <= i < |q| :: q[i].id
  }

  /** Whether an aggressor may trade at the contra price; a limit of zero or less is no limit. */
  predicate Crosses(isBuy: bool, limit: Price, contra: Price) {
    limit > 0 ==> if isBuy then contra <= limit else contra >= limit
  }

  /** Shares resting in the leading orders whose price the aggressor accepts. */
  function Available(q: seq<Resting>, isBuy: bool, limit: Price): nat {
    if q == [] || !Crosses(isBuy, limit, q[0].price) then 0
    else q[0].leaves + Available(q[1..], isBuy, limit)
  }

  function Shares(q: seq<Resting>): nat {
    if q == [] then 0 else q[0].leaves + Shares(q[1..])
  }

  /** The list after its first n shares are gone. */
  function Consume(q: seq<Resting>, n: nat): seq<Resting> {
    if q == [] || n == 0 then q
    else if n < q[0].leaves then [q[0].(leaves := q[0].leaves - n)] + q[1..]
    else Consume(q[1..], n - q[0].leaves)
  }

  /** Which orders the first n shares come from. */
  function Takes(q: seq<Resting>, n: nat): seq<Take> {
    if q == [] || n == 0 then []
    else
      var k := Min(n, q[0].leaves);
      [Take(q[0].id, q[0].price, k)] + Takes(q[1..], n - k)
  }

  /** A new order goes behind every order whose price is at least as good. */
  function Insert(q: seq<Resting>, isBid: bool, r: Resting): seq<Resting> {
    if q == [] || Key(isBid, r.price) < Key(isBid, q[0].price) then [r] + q
    else [q[0]] + Insert(q[1..], isBid, r)
  }

  function RemoveId(q: seq<Resting>, id: OrderId): seq<Resting> {
    if q == [] then []
    else (if q[0].id == id then [] else [q[0]]) + RemoveId(q[1..], id)
  }

  /** The list after the orders with this identifier lost n shares; an order with none left goes. */
  function Reduce(q: seq<Resting>, id: OrderId, n: nat): seq<Resting> {
    if q == [] then []
    else
      (if q[0].id != id then [q[0]]
       else if n >= q[0].leaves then []
       else [q[0].(leaves := q[0].leaves - n)]) + Reduce(q[1..], id, n)
  }

  /** The shares the list offers under one identifier. */
  function RestingQty(q: seq<Resting>, id: OrderId): nat {
    if q == [] then 0
    else (if q[0].id == id then q[0].leaves else 0) + RestingQty(q[1..], id)
  }

  function TotalQty(ts: seq<Take>): nat {
    if ts == [] then 0 else ts[0].qty + TotalQty(ts[1..])
  }

  function Cost(ts: seq<Take>): int {
    if ts == [] then 0 else ts[0].price * ts[0].qty + Cost(ts[1..])
  }

  // ----- Consuming and taking

  lemma {:induction false} TakesTotal(q: seq<Resting>, n: nat)
    requires n <= Shares(q)
    ensures TotalQty(Takes(q, n)) == n
  {
    if q != [] && n != 0 {
      var k := Min(n, q[0].leaves);
      TakesTotal(q[1..], n - k);
      assert Takes(q, n)[1..] == Takes(q[1..], n - k);
    }
  }

  lemma {:induction false} AvailableBound(q: seq<Resting>, isBuy: bool, limit: Price)
    ensures Available(q, isBuy, limit) <= Shares(q)
  {
    if q != [] && Crosses(isBuy, limit, q[0].price) {
      AvailableBound(q[1..], isBuy, limit);
    }
  }

  /** Takes, one at a time: after the first one, the rest is a take from what was left. */
  lemma TakesStep(q: seq<Resting>, n: nat)
    requires q != [] && n > 0 && q[0].leaves > 0 && n <= Shares(q)
    ensures var k := Min(n, q[0].leaves);
            && k > 0
            && Takes(q, n) == [Take(q[0].id, q[0].price, k)] + Takes(Consume(q, k), n - k)
            && Consume(q, n) == Consume(Consume(q, k), n - k)
  {
    var k := Min(n, q[0].leaves);
    if n < q[0].leaves {
      assert Takes(Consume(q, k), 0) == [];
    } else {
      assert Consume(q[1..], 0) == q[1..];
      assert Consume(q, k) == q[1..];
    }
  }

  // ----- Order of the list

  /** Consuming drops a prefix and may shrink the order it stops at. */
  lemma {:induction false} ConsumeShape(q: seq<Resting>, n: nat) returns (m: nat)
    ensures m <= |q| && |Consume(q, n)| == |q| - m
    ensures m < |q| ==>
              && Consume(q, n)[0].id == q[m].id
              && Consume(q, n)[0].price == q[m].price
              && Consume(q, n)[1..] == q[m + 1..]
  {
    m := 0;
    if q != [] && n != 0 && n >= q[0].leaves {
      m := ConsumeShape(q[1..], n - q[0].leaves);
      assert m < |q[1..]| ==> q[1..][m + 1..] == q[m + 2..];
      m := m + 1;
    }
  }

  lemma ConsumeKeeps(q: seq<Resting>, isBid: bool, n: nat)
    requires Sorted(q, isBid) && DistinctIds(q)
    ensures Sorted(Consume(q, n), isBid) && DistinctIds(Consume(q, n))
    ensures |Consume(q, n)| <= |q|
    ensures forall i :: 0 <= i < |Consume(q, n)| ==> Consume(q, n)[i].price == q[i + |q| - |Consume(q, n)|].price
  {
    var m := ConsumeShape(q, n);
    var c := Consume(q, n);
    hide Consume;
    forall i | 0 <= i < |c|
      ensures c[i].id == q[m + i].id && c[i].price == q[m + i].price
    {
      if i > 0 { assert c[i] == c[1..][i - 1] == q[m + 1..][i - 1]; }
    }
  }

  /** Prepending an order that is no worse than the rest keeps the list in order. */
  lemma SortedCons(r: Resting, q: seq<Resting>, isBid: bool)
    requires Sorted(q, isBid)
    requires forall j :: 0 <= j < |q| ==> Key(isBid, r.price) <= Key(isBid, q[j].price)
    ensures Sorted([r] + q, isBid)
  {}

  lemma DistinctCons(r: Resting, q: seq<Resting>)
    requires DistinctIds(q) && r.id !in Ids(q)
    ensures DistinctIds([r] + q)
  {}

  lemma DistinctTail(q: seq<Resting>)
    requires q != [] && DistinctIds(q)
    ensures DistinctIds(q[1..]) && q[0].id !in Ids(q[1..])
    ensures Ids(q) == {q[0].id} + Ids(q[1..])
  {
    IdsCons(q);
  }

  lemma {:induction false} InsertIds(q: seq<Resting>, isBid: bool, r: Resting)
    ensures Ids(Insert(q, isBid, r)) == Ids(q) + {r.id}
    ensures forall x :: x in Insert(q, isBid, r) <==> x in q || x == r
  {
    var s := Insert(q, isBid, r);
    IdsCons(s);
    if q == [] || Key(isBid, r.price) < Key(isBid, q[0].price) {
      assert s[1..] == q;
    } else {
      InsertIds(q[1..], isBid, r);
      IdsCons(q);
      assert q == [q[0]] + q[1..];
      assert s[1..] == Insert(q[1..], isBid, r);
    }
  }

  lemma {:induction false} InsertKeeps(q: seq<Resting>, isBid: bool, r: Resting)
    requires Sorted(q, isBid) && DistinctIds(q) && r.id !in Ids(q)
    ensures Sorted(Insert(q, isBid, r), isBid) && DistinctIds(Insert(q, isBid, r))
  {
    if q == [] || Key(isBid, r.price) < Key(isBid, q[0].price) {
      SortedCons(r, q, isBid);
      DistinctCons(r, q);
    } else {
      DistinctTail(q);
      InsertKeeps(q[1..], isBid, r);
      InsertIds(q[1..], isBid, r);
      var t := Insert(q[1..], isBid, r);
      SortedCons(q[0], t, isBid) by {
        forall j | 0 <= j < |t| ensures Key(isBid, q[0].price) <= Key(isBid, t[j].price) {
          assert t[j] in t;
        }
      }
      DistinctCons(q[0], t);
    }
  }

  lemma IdsCons(q: seq<Resting>)
    requires q != []
    ensures Ids(q) == {q[0].id} + Ids(q[1..])
  {
    forall x | x in Ids(q) ensures x in {q[0].id} + Ids(q[1..]) {
      var i :| 0 <= i < |q| && q[i].id == x;
      if i > 0 { assert q[1..][i - 1].id == x; }
    }
    forall x | x in Ids(q[1..]) ensures x in Ids(q) {
      var i :| 0 <= i < |q[1..]| && q[1..][i].id == x;
      assert q[i + 1].id == x;
    }
  }

  lemma {:induction false} RemoveIds(q: seq<Resting>, id: OrderId)
    ensures Ids(RemoveId(q, id)) == Ids(q) - {id}
    ensures forall r :: r in RemoveId(q, id) <==> r in q && r.id != id
  {
    if q != [] {
      RemoveIds(q[1..], id);
      IdsCons(q);
      assert q == [q[0]] + q[1..];
      if q[0].id != id {
        IdsCons(RemoveId(q, id));
        assert RemoveId(q, id)[1..] == RemoveId(q[1..], id);
      } else {
        assert RemoveId(q, id) == RemoveId(q[1..], id);
      }
    }
  }

  lemma {:induction false} RemoveKeeps(q: seq<Resting>, isBid: bool, id: OrderId)
    requires Sorted(q, isBid) && DistinctIds(q)
    ensures Sorted(RemoveId(q, id), isBid) && DistinctIds(RemoveId(q, id))
  {
    if q != [] {
      DistinctTail(q);
      RemoveKeeps(q[1..], isBid, id);
      RemoveIds(q[1..], id);
      var t := RemoveId(q[1..], id);
      if q[0].id == id {
        assert RemoveId(q, id) == t;
      } else {
        SortedCons(q[0], t, isBid) by {
          forall j | 0 <= j < |t| ensures Key(isBid, q[0].price) <= Key(isBid, t[j].price) {
            assert t[j] in t;
          }
        }
        DistinctCons(q[0], t);
      }
    }
  }

  // ----- Time and price priority

  /** Shares standing in front of the order at index i. */
  function Ahead(q: seq<Resting>, i: nat): nat
    requires i <= |q|
  {
    if i == 0 then 0 else q[0].leaves + Ahead(q[1..], i - 1)
  }

  function TakenFrom(ts: seq<Take>, id: OrderId): nat {
    if ts == [] then 0 else (if ts[0].id == id then ts[0].qty else 0) + TakenFrom(ts[1..], id)
  }

  lemma {:induction false} NothingTaken(q: seq<Resting>, n: nat, id: OrderId)
    requires forall i :: 0 <= i < |q| ==> q[i].id != id
    ensures TakenFrom(Takes(q, n), id) == 0
  {
    if q != [] && n != 0 {
      var k := Min(n, q[0].leaves);
      NothingTaken(q[1..], n - k, id);
      assert Takes(q, n)[1..] == Takes(q[1..], n - k);
    }
  }

  /** Strict priority, exactly: an order receives what the sweep still has when it reaches the
      order, capped by what the order offers. So it receives shares if and only if the
      sweep is larger than everything in front of it. */
  lemma {:induction false} Priority(q: seq<Resting>, n: nat, i: nat)
    requires i < |q| && DistinctIds(q)
    ensures TakenFrom(Takes(q, n), q[i].id)
         == if n <= Ahead(q, i) then 0 else Min(n - Ahead(q, i), q[i].leaves)
  {
    if n != 0 {
      var k := Min(n, q[0].leaves);
      assert Takes(q, n)[1..] == Takes(q[1..], n - k);
      if i == 0 {
        NothingTaken(q[1..], n - k, q[0].id);
      } else {
        assert q[i] == q[1..][i - 1];
        Priority(q[1..], n - k, i - 1);
      }
    }
  }

  // ----- Best execution

  /** An allocation takes x[i] shares from the i-th resting order. */
  ghost predicate IsAllocation(q: seq<Resting>, x: seq<nat>) {
    |x| == |q| && forall i :: 0 <= i < |q| ==> x[i] <= q[i].leaves
  }

  function AllocationQty(x: seq<nat>): nat {
    if x == [] then 0 else x[0] + AllocationQty(x[1..])
  }

  function AllocationCost(q: seq<Resting>, x: seq<nat>): int
    requires |x| == |q|
  {
    if q == [] then 0 else q[0].price * x[0] + AllocationCost(q[1..], x[1..])
  }

  /** What the first n shares cost, counted in keys: a price paid or a price forgone. */
  function KeyCost(q: seq<Resting>, isBid: bool, n: nat): int {
    if q == [] || n == 0 then 0
    else
      var k := Min(n, q[0].leaves);
      Key(isBid, q[0].price) * k + KeyCost(q[1..], isBid, n - k)
  }

  function AllocationKeyCost(q: seq<Resting>, isBid: bool, x: seq<nat>): int
    requires |x| == |q|
  {
    if q == [] then 0 else Key(isBid, q[0].price) * x[0] + AllocationKeyCost(q[1..], isBid, x[1..])
  }

  lemma KeyTimes(isBid: bool, p: Price, n: nat)
    ensures Key(isBid, p * n) == Key(isBid, p) * n
  {}

  lemma {:induction false} KeyCostOfTakes(q: seq<Resting>, isBid: bool, n: nat)
    ensures KeyCost(q, isBid, n) == Key(isBid, Cost(Takes(q, n)))
  {
    if q != [] && n != 0 {
      var k := Min(n, q[0].leaves);
      KeyCostOfTakes(q[1..], isBid, n - k);
      assert Takes(q, n)[1..] == Takes(q[1..], n - k);
      KeyTimes(isBid, q[0].price, k);
    }
  }

  lemma {:induction false} KeyCostOfAllocation(q: seq<Resting>, isBid: bool, x: seq<nat>)
    requires |x| == |q|
    ensures AllocationKeyCost(q, isBid, x) == Key(isBid, AllocationCost(q, x))
  {
    if q != [] {
      KeyCostOfAllocation(q[1..], isBid, x[1..]);
      KeyTimes(isBid, q[0].price, x[0]);
    }
  }

  /** Moving m shares from key p to later shares that cost at least p each. */
  lemma Exchange(p: int, k: int, a: nat, b: nat, d: nat, c0: int, c1: int)
    requires k <= p && a <= b <= a + d
    requires c1 >= c0 + k * (d - (b - a))
    ensures p * b + c1 >= p * a + c0 + k * d
  {
    var m := b - a;
    assert p * b == p * a + p * m;
    assert k * d == k * (d - m) + k * m;
    assert k * m <= p * m;
  }

  /** Taking d more shares costs at least the best key for each of them. */
  lemma {:induction false} MarginalCost(q: seq<Resting>, isBid: bool, k: int, n: nat, d: nat)
    requires forall i :: 0 <= i < |q| ==> k <= Key(isBid, q[i].price)
    requires n + d <= Shares(q)
    ensures KeyCost(q, isBid, n + d) >= KeyCost(q, isBid, n) + k * d
  {
    if q != [] && n + d != 0 {
      var a, b := Min(n, q[0].leaves), Min(n + d, q[0].leaves);
      MarginalCost(q[1..], isBid, k, n - a, d - (b - a));
      hide KeyCost, Key;
      KeyCostStep(q, isBid, n);
      KeyCostStep(q, isBid, n + d);
      assert n - a + (d - (b - a)) == n + d - b;
      Exchange(Key(isBid, q[0].price), k, a, b, d, KeyCost(q[1..], isBid, n - a), KeyCost(q[1..], isBid, n + d - b));
    } else if q == [] {
      assert d == 0;
    }
  }

  lemma KeyCostStep(q: seq<Resting>, isBid: bool, n: nat)
    requires q != []
    ensures var a := Min(n, q[0].leaves);
            KeyCost(q, isBid, n) == Key(isBid, q[0].price) * a + KeyCost(q[1..], isBid, n - a)
  {}

  lemma {:induction false} BestKeyCost(q: seq<Resting>, isBid: bool, x: seq<nat>)
    requires Sorted(q, isBid) && IsAllocation(q, x)
    ensures AllocationQty(x) <= Shares(q)
    ensures KeyCost(q, isBid, AllocationQty(x)) <= AllocationKeyCost(q, isBid, x)
  {
    if q != [] {
      var n := AllocationQty(x);
      assert IsAllocation(q[1..], x[1..]);
      BestKeyCost(q[1..], isBid, x[1..]);
      if n == 0 {
        AllOfNothing(q, isBid, x);
      } else {
        var k := Min(n, q[0].leaves);
        var p := Key(isBid, q[0].price);
        var rest := q[1..];
        assert n - x[0] == AllocationQty(x[1..]) == (n - k) + (k - x[0]);
        MarginalCost(rest, isBid, p, n - k, k - x[0]);
        Telescope(p, x[0], k, KeyCost(rest, isBid, n - k), KeyCost(rest, isBid, n - x[0]));
      }
    }
  }

  lemma Telescope(p: int, a: nat, k: nat, c: int, d: int)
    requires a <= k && d >= c + p * (k - a)
    ensures p * k + c <= p * a + d
  {
    assert p * k == p * a + p * (k - a);
  }

  /** Best execution: no other way of taking the same number of shares from the resting orders
      costs a buyer less, or pays a seller more, than the sweep. */
  lemma BestExecution(q: seq<Resting>, isBid: bool, x: seq<nat>)
    requires Sorted(q, isBid) && IsAllocation(q, x)
    ensures AllocationQty(x) <= Shares(q)
    ensures if isBid then Cost(Takes(q, AllocationQty(x))) >= AllocationCost(q, x)
            else Cost(Takes(q, AllocationQty(x))) <= AllocationCost(q, x)
  {
    BestKeyCost(q, isBid, x);
    KeyCostOfTakes(q, isBid, AllocationQty(x));
    KeyCostOfAllocation(q, isBid, x);
  }

  lemma {:induction false} AllOfNothing(q: seq<Resting>, isBid: bool, x: seq<nat>)
    requires |x| == |q| && AllocationQty(x) == 0
    ensures AllocationKeyCost(q, isBid, x) == 0
  {
    if q != [] { AllOfNothing(q[1..], isBid, x[1..]); }
  }

  /** The sweep is also as large as it may be: shares taken only at acceptable prices never
      exceed what the leading acceptable orders offer. */
  lemma {:induction false} SweepIsMaximal(q: seq<Resting>, isBuy: bool, limit: Price, x: seq<nat>)
    requires Sorted(q, !isBuy) && IsAllocation(q, x)
    requires forall i :: 0 <= i < |q| && x[i] > 0 ==> Crosses(isBuy, limit, q[i].price)
    ensures AllocationQty(x) <= Available(q, isBuy, limit)
  {
    if q != [] {
      if Crosses(isBuy, limit, q[0].price) {
        SweepIsMaximal(q[1..], isBuy, limit, x[1..]);
      } else {
        assert forall i :: 0 <= i < |q| ==> x[i] == 0;
        ZeroAllocation(x);
      }
    }
  }

  /** Shares resting at prices an aggressor with this limit accepts; zero or less is no limit. */
  function SharesWithin(q: seq<Resting>, isBuy: bool, limit: Price): nat {
    if q == [] then 0
    else
      (if limit <= 0 || (if isBuy then q[0].price <= limit else q[0].price >= limit) then q[0].leaves else 0)
      + SharesWithin(q[1..], isBuy, limit)
  }

  /** On a best-first list stopping at the first unacceptable price loses nothing. */
  lemma {:induction false} AvailableIsWithin(q: seq<Resting>, isBuy: bool, limit: Price)
    requires Sorted(q, !isBuy)
    ensures Available(q, isBuy, limit) == SharesWithin(q, isBuy, limit)
  {
    if q != [] {
      AvailableIsWithin(q[1..], isBuy, limit);
      if !Crosses(isBuy, limit, q[0].price) {
        assert q[1..] != [] ==> !Crosses(isBuy, limit, q[1..][0].price);
      }
    }
  }

  // ----- Places in the list

  /** A new order goes behind all orders at its price or better, and in front of all worse ones. */
  lemma {:induction false} InsertPlace(q: seq<Resting>, isBid: bool, r: Resting) returns (i: nat)
    requires Sorted(q, isBid)
    ensures i <= |q| && Insert(q, isBid, r) == q[..i] + [r] + q[i..]
    ensures forall j :: 0 <= j < i ==> if isBid then q[j].price >= r.price else q[j].price <= r.price
    ensures forall j :: i <= j < |q| ==> if isBid then q[j].price < r.price else q[j].price > r.price
  {
    hide Insert;
    InsertStep(q, isBid, r);
    if q == [] || Key(isBid, r.price) < Key(isBid, q[0].price) {
      i := 0;
      assert q[..0] + [r] + q[0..] == [r] + q;
    } else {
      var k := InsertPlace(q[1..], isBid, r);
      i := k + 1;
      ShiftPlace(q, k, r);
      forall j | 0 < j < |q| ensures q[j] == q[1..][j - 1] {}
    }
  }

  lemma InsertStep(q: seq<Resting>, isBid: bool, r: Resting)
    ensures Insert(q, isBid, r) == if q == [] || Key(isBid, r.price) < Key(isBid, q[0].price) then [r] + q
                                   else [q[0]] + Insert(q[1..], isBid, r)
  {}

  lemma ShiftPlace(q: seq<Resting>, k: nat, r: Resting)
    requires k < |q|
    ensures [q[0]] + (q[1..][..k] + [r] + q[1..][k..]) == q[..k + 1] + [r] + q[k + 1..]
  {
    assert [q[0]] + q[1..][..k] == q[..k + 1] && q[1..][k..] == q[k + 1..];
  }

  /** Removing an order moves the ones behind it up and nothing else. */
  lemma {:induction false} RemovePlace(q: seq<Resting>, i: nat)
    requires DistinctIds(q) && i < |q|
    ensures RemoveId(q, q[i].id) == q[..i] + q[i + 1..]
  {
    DistinctTail(q);
    if i == 0 {
      RemoveNothing(q[1..], q[0].id);
    } else {
      assert q[1..][i - 1] == q[i];
      RemovePlace(q[1..], i - 1);
      assert [q[0]] + q[1..][..i - 1] == q[..i] && q[1..][i..] == q[i + 1..];
    }
  }

  lemma {:induction false} RemoveNothing(q: seq<Resting>, id: OrderId)
    requires forall i :: 0 <= i < |q| ==> q[i].id != id
    ensures RemoveId(q, id) == q
  {
    if q != [] { RemoveNothing(q[1..], id); }
  }

  lemma {:induction false} ZeroAllocation(x: seq<nat>)
    requires forall i :: 0 <= i < |x| ==> x[i] == 0
    ensures AllocationQty(x) == 0
  {
    if x != [] { ZeroAllocation(x[1..]); }
  }
}
