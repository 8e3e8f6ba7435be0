/** Price levels of queues, the representation the order book keeps, and the price-time list
    it stands for. A sorted map from prices to queues is the list of its entries in map order. */
module BookLevels {
  import opened ExchangeTypes
  import opened PriceTime
  import opened EngineSpec

  datatype Level = Level(price: Price, queue: seq<OrderId>)

  /** Map order without duplicate keys, and no empty queue. */
  ghost predicate ValidLevels(levels: seq<Level>, isBid: bool) {
    && (forall i, j :: 0 <= i < j < |levels| ==> Key(isBid, levels[i].price) < Key(isBid, levels[j].price))
    && (forall i :: 0 <= i < |levels| ==> levels[i].queue != [])
  }

  function LeavesOf(orders: map<OrderId, Order>, id: OrderId): nat {
    if id in orders && orders[id].Leaves() >= 0 then orders[id].Leaves() else 0
  }

  function FlatQueue(queue: seq<OrderId>, p: Price, orders: map<OrderId, Order>): seq<Resting> {
    if queue == [] then []
    else [Resting(queue[0], p, LeavesOf(orders, queue[0]))] + FlatQueue(queue[1..], p, orders)
  }

  /** The price-time list of a side. */
  function Flat(levels: seq<Level>, orders: map<OrderId, Order>): seq<Resting> {
    if levels == [] then []
    else FlatQueue(levels[0].queue, levels[0].price, orders) + Flat(levels[1..], orders)
  }

  /** First entry whose key is not below p: where the map finds p, or would put it. */
  function Position(levels: seq<Level>, isBid: bool, p: Price): (i: nat)
    ensures i <= |levels|
    ensures forall k :: 0 <= k < i ==> Key(isBid, levels[k].price) < Key(isBid, p)
    ensures i < |levels| ==> Key(isBid, p) <= Key(isBid, levels[i].price)
  {
    if levels == [] || Key(isBid, p) <= Key(isBid, levels[0].price) then 0
    else 1 + Position(levels[1..], isBid, p)
  }

  /** The shares of a queue. */
  function QueueShares(queue: seq<OrderId>, orders: map<OrderId, Order>): nat {
    if queue == [] then 0 else LeavesOf(orders, queue[0]) + QueueShares(queue[1..], orders)
  }

  /** The shares of a queue in front of an order. */
  function SharesBefore(queue: seq<OrderId>, id: OrderId, orders: map<OrderId, Order>): nat {
    if queue == [] || queue[0] == id then 0
    else LeavesOf(orders, queue[0]) + SharesBefore(queue[1..], id, orders)
  }

  /** One level of a depth snapshot. */
  datatype PriceLevel = PriceLevel(price: Price, totalQty: nat, orderCount: nat)

  /** The best n levels of a side. */
  function DepthOf(levels: seq<Level>, orders: map<OrderId, Order>, n: nat): seq<PriceLevel> {
    if levels == [] || n == 0 then []
    else
      [PriceLevel(levels[0].price, QueueShares(levels[0].queue, orders), |levels[0].queue|)]
      + DepthOf(levels[1..], orders, n - 1)
  }

  // ----- Lists of levels and their flat form

  lemma Assoc<T>(x: seq<T>, y: seq<T>, z: seq<T>)
    ensures (x + y) + z == x + (y + z)
  {}

  lemma {:induction false} FlatConcat(a: seq<Level>, b: seq<Level>, orders: map<OrderId, Order>)
    ensures Flat(a + b, orders) == Flat(a, orders) + Flat(b, orders)
  {
    if a == [] {
      assert a + b == b;
    } else {
      FlatConcat(a[1..], b, orders);
      assert (a + b)[1..] == a[1..] + b;
      Assoc(FlatQueue(a[0].queue, a[0].price, orders), Flat(a[1..], orders), Flat(b, orders));
    }
  }

  lemma FlatSplit(levels: seq<Level>, i: nat, orders: map<OrderId, Order>)
    requires i < |levels|
    ensures Flat(levels, orders)
         == Flat(levels[..i], orders) + FlatQueue(levels[i].queue, levels[i].price, orders) + Flat(levels[i + 1..], orders)
  {
    assert levels == levels[..i] + levels[i..];
    FlatConcat(levels[..i], levels[i..], orders);
    assert levels[i..][1..] == levels[i + 1..];
  }

  lemma {:induction false} QueueConcat(a: seq<OrderId>, b: seq<OrderId>, p: Price, orders: map<OrderId, Order>)
    ensures FlatQueue(a + b, p, orders) == FlatQueue(a, p, orders) + FlatQueue(b, p, orders)
  {
    if a == [] {
      assert a + b == b;
    } else {
      QueueConcat(a[1..], b, p, orders);
      assert (a + b)[1..] == a[1..] + b;
      Assoc([Resting(a[0], p, LeavesOf(orders, a[0]))], FlatQueue(a[1..], p, orders), FlatQueue(b, p, orders));
    }
  }

  lemma {:induction false} QueueIndex(queue: seq<OrderId>, p: Price, orders: map<OrderId, Order>)
    ensures |FlatQueue(queue, p, orders)| == |queue|
    ensures forall i :: 0 <= i < |queue| ==> FlatQueue(queue, p, orders)[i] == Resting(queue[i], p, LeavesOf(orders, queue[i]))
  {
    if queue != [] { QueueIndex(queue[1..], p, orders); }
  }

  ghost predicate QueuedIn(levels: seq<Level>, id: OrderId) {
    exists k :: 0 <= k < |levels| && id in levels[k].queue
  }

  /** Every entry of the flat form comes from a level of its price. */
  lemma {:induction false} FlatOrigin(levels: seq<Level>, orders: map<OrderId, Order>, i: nat) returns (k: nat)
    requires i < |Flat(levels, orders)|
    ensures k < |levels| && Flat(levels, orders)[i].price == levels[k].price && Flat(levels, orders)[i].id in levels[k].queue
  {
    var n := |levels[0].queue|;
    QueueIndex(levels[0].queue, levels[0].price, orders);
    if i < n {
      k := 0;
    } else {
      k := FlatOrigin(levels[1..], orders, i - n);
      k := k + 1;
    }
  }

  lemma {:induction false} QueuedIsListed(levels: seq<Level>, orders: map<OrderId, Order>, k: nat, id: OrderId) returns (i: nat)
    requires k < |levels| && id in levels[k].queue
    ensures i < |Flat(levels, orders)| && Flat(levels, orders)[i].id == id && Flat(levels, orders)[i].price == levels[k].price
  {
    QueueIndex(levels[0].queue, levels[0].price, orders);
    if k == 0 {
      i :| 0 <= i < |levels[0].queue| && levels[0].queue[i] == id;
    } else {
      i := QueuedIsListed(levels[1..], orders, k - 1, id);
      i := i + |levels[0].queue|;
    }
  }

  lemma FlatIds(levels: seq<Level>, orders: map<OrderId, Order>, id: OrderId)
    ensures id in Ids(Flat(levels, orders)) <==> QueuedIn(levels, id)
  {
    if id in Ids(Flat(levels, orders)) {
      var i :| 0 <= i < |Flat(levels, orders)| && Flat(levels, orders)[i].id == id;
      var k := FlatOrigin(levels, orders, i);
    }
    if QueuedIn(levels, id) {
      var k :| 0 <= k < |levels| && id in levels[k].queue;
      var i := QueuedIsListed(levels, orders, k, id);
    }
  }

  // ----- Changes of the order table

  lemma {:induction false} QueueFrame(queue: seq<OrderId>, p: Price, orders: map<OrderId, Order>, orders': map<OrderId, Order>)
    requires forall id :: id in queue ==> LeavesOf(orders, id) == LeavesOf(orders', id)
    ensures FlatQueue(queue, p, orders) == FlatQueue(queue, p, orders')
  {
    if queue != [] { QueueFrame(queue[1..], p, orders, orders'); }
  }

  /** The flat form depends only on the shares its own orders have left. */
  lemma {:induction false} FlatFrame(levels: seq<Level>, orders: map<OrderId, Order>, orders': map<OrderId, Order>)
    requires forall k, id :: 0 <= k < |levels| && id in levels[k].queue ==> LeavesOf(orders, id) == LeavesOf(orders', id)
    ensures Flat(levels, orders) == Flat(levels, orders')
  {
    if levels != [] {
      QueueFrame(levels[0].queue, levels[0].price, orders, orders');
      FlatFrame(levels[1..], orders, orders');
    }
  }

  lemma ReduceCons(r: Resting, q: seq<Resting>, id: OrderId, n: nat)
    ensures Reduce([r] + q, id, n) == Reduce([r], id, n) + Reduce(q, id, n)
  {
    assert ([r] + q)[1..] == q;
    assert Reduce([], id, n) == [];
  }

  lemma {:induction false} ReduceConcat(a: seq<Resting>, b: seq<Resting>, id: OrderId, n: nat)
    ensures Reduce(a + b, id, n) == Reduce(a, id, n) + Reduce(b, id, n)
  {
    if a == [] {
      assert a + b == b;
    } else {
      hide Reduce;
      ReduceConcat(a[1..], b, id, n);
      assert a == [a[0]] + a[1..];
      Assoc([a[0]], a[1..], b);
      ReduceCons(a[0], a[1..] + b, id, n);
      ReduceCons(a[0], a[1..], id, n);
      Assoc(Reduce([a[0]], id, n), Reduce(a[1..], id, n), Reduce(b, id, n));
    }
  }

  lemma {:induction false} QueueReduce(queue: seq<OrderId>, p: Price, orders: map<OrderId, Order>, id: OrderId, o: Order, n: nat)
    requires n < LeavesOf(orders, id) && o.Leaves() == LeavesOf(orders, id) - n
    ensures FlatQueue(queue, p, orders[id := o]) == Reduce(FlatQueue(queue, p, orders), id, n)
  {
    if queue != [] {
      QueueReduce(queue[1..], p, orders, id, o, n);
      assert FlatQueue(queue, p, orders)[1..] == FlatQueue(queue[1..], p, orders);
    }
  }

  /** A partial fill shows in the flat form as fewer shares at the same place. */
  lemma {:induction false} FlatReduce(levels: seq<Level>, orders: map<OrderId, Order>, id: OrderId, o: Order, n: nat)
    requires n < LeavesOf(orders, id) && o.Leaves() == LeavesOf(orders, id) - n
    ensures Flat(levels, orders[id := o]) == Reduce(Flat(levels, orders), id, n)
  {
    if levels != [] {
      QueueReduce(levels[0].queue, levels[0].price, orders, id, o, n);
      FlatReduce(levels[1..], orders, id, o, n);
      ReduceConcat(FlatQueue(levels[0].queue, levels[0].price, orders), Flat(levels[1..], orders), id, n);
    }
  }

  // ----- Adding to a level

  lemma InsertBehindHead(head: Resting, q: seq<Resting>, isBid: bool, r: Resting)
    requires Key(isBid, head.price) <= Key(isBid, r.price)
    ensures Insert([head] + q, isBid, r) == [head] + Insert(q, isBid, r)
  {
    assert ([head] + q)[1..] == q;
  }

  lemma {:induction false} InsertPast(a: seq<Resting>, b: seq<Resting>, isBid: bool, r: Resting)
    requires forall i :: 0 <= i < |a| ==> Key(isBid, a[i].price) <= Key(isBid, r.price)
    ensures Insert(a + b, isBid, r) == a + Insert(b, isBid, r)
  {
    hide Insert, Key;
    if a == [] {
      assert a + b == b;
    } else {
      InsertPast(a[1..], b, isBid, r);
      assert a == [a[0]] + a[1..];
      Assoc([a[0]], a[1..], b);
      InsertBehindHead(a[0], a[1..] + b, isBid, r);
      Assoc([a[0]], a[1..], Insert(b, isBid, r));
    }
  }

  lemma FlatKeysBelow(levels: seq<Level>, orders: map<OrderId, Order>, isBid: bool, b: int)
    requires forall k :: 0 <= k < |levels| ==> Key(isBid, levels[k].price) <= b
    ensures forall i :: 0 <= i < |Flat(levels, orders)| ==> Key(isBid, Flat(levels, orders)[i].price) <= b
  {
    forall i | 0 <= i < |Flat(levels, orders)|
      ensures Key(isBid, Flat(levels, orders)[i].price) <= b
    {
      var k := FlatOrigin(levels, orders, i);
    }
  }

  lemma InsertBefore(b: seq<Resting>, isBid: bool, r: Resting)
    requires b != [] ==> Key(isBid, r.price) < Key(isBid, b[0].price)
    ensures Insert(b, isBid, r) == [r] + b
  {}

  /** The queue found at index i for price p, and the levels behind it. */
  function QueueAt(levels: seq<Level>, i: nat, p: Price): seq<OrderId> {
    if i < |levels| && levels[i].price == p then levels[i].queue else []
  }

  function Behind(levels: seq<Level>, i: nat, p: Price): seq<Level>
    requires i <= |levels|
  {
    if i < |levels| && levels[i].price == p then levels[i + 1..] else levels[i..]
  }

  /** The levels after an order joined level p, which is created if it does not exist. */
  function Enqueue(levels: seq<Level>, isBid: bool, p: Price, id: OrderId): seq<Level> {
    var i := Position(levels, isBid, p);
    levels[..i] + [Level(p, QueueAt(levels, i, p) + [id])] + Behind(levels, i, p)
  }

  lemma ValidInsert(levels: seq<Level>, isBid: bool, i: nat, l: Level)
    requires ValidLevels(levels, isBid) && i <= |levels| && l.queue != []
    requires forall k :: 0 <= k < i ==> Key(isBid, levels[k].price) < Key(isBid, l.price)
    requires forall k :: i <= k < |levels| ==> Key(isBid, l.price) < Key(isBid, levels[k].price)
    ensures ValidLevels(levels[..i] + [l] + levels[i..], isBid)
  {
    var t := levels[..i] + [l] + levels[i..];
    forall j | 0 <= j < |t|
      ensures t[j] == if j < i then levels[j] else if j == i then l else levels[j - 1]
    {}
  }

  /** Entries behind the position of p have worse prices. */
  lemma BehindIsWorse(levels: seq<Level>, isBid: bool, p: Price)
    requires ValidLevels(levels, isBid)
    ensures var i := Position(levels, isBid, p);
            forall k :: 0 <= k < |Behind(levels, i, p)| ==> Key(isBid, p) < Key(isBid, Behind(levels, i, p)[k].price)
  {
    var i := Position(levels, isBid, p);
    if i < |levels| && levels[i].price != p {
      assert Key(isBid, p) < Key(isBid, levels[i].price);
    }
  }

  lemma NotFoundIsWorse(levels: seq<Level>, isBid: bool, p: Price)
    requires ValidLevels(levels, isBid)
    requires var i := Position(levels, isBid, p); i == |levels| || levels[i].price != p
    ensures forall k :: Position(levels, isBid, p) <= k < |levels| ==> Key(isBid, p) < Key(isBid, levels[k].price)
  {
    var i := Position(levels, isBid, p);
    if i < |levels| {
      assert Key(isBid, p) < Key(isBid, levels[i].price);
    }
  }

  lemma ReplaceKeepsValid(levels: seq<Level>, isBid: bool, i: nat, queue: seq<OrderId>)
    requires ValidLevels(levels, isBid) && i < |levels| && queue != []
    ensures ValidLevels(levels[i := Level(levels[i].price, queue)], isBid)
  {
    hide Key;
  }

  lemma Overwrite<T>(s: seq<T>, i: nat, x: T)
    requires i < |s|
    ensures s[..i] + [x] + s[i + 1..] == s[i := x]
  {}

  lemma PutAtIs(levels: seq<Level>, i: nat, p: Price, id: OrderId)
    requires i <= |levels|
    ensures levels[..i] + [Level(p, QueueAt(levels, i, p) + [id])] + Behind(levels, i, p) ==
              if i < |levels| && levels[i].price == p then levels[i := Level(p, levels[i].queue + [id])]
              else levels[..i] + [Level(p, [id])] + levels[i..]
  {
    if i < |levels| && levels[i].price == p {
      Overwrite(levels, i, Level(p, levels[i].queue + [id]));
    } else {
      assert [] + [id] == [id];
    }
  }

  lemma EnqueueIs(levels: seq<Level>, isBid: bool, p: Price, id: OrderId)
    ensures var i := Position(levels, isBid, p);
            Enqueue(levels, isBid, p, id) ==
              if i < |levels| && levels[i].price == p then levels[i := Level(p, levels[i].queue + [id])]
              else levels[..i] + [Level(p, [id])] + levels[i..]
  {
    hide Key, QueueAt, Behind;
    PutAtIs(levels, Position(levels, isBid, p), p, id);
  }

  lemma EnqueueValid(levels: seq<Level>, isBid: bool, p: Price, id: OrderId)
    requires ValidLevels(levels, isBid)
    ensures ValidLevels(Enqueue(levels, isBid, p, id), isBid)
  {
    hide Key, Enqueue, ValidLevels;
    EnqueueIs(levels, isBid, p, id);
    var i := Position(levels, isBid, p);
    if i < |levels| && levels[i].price == p {
      ReplaceKeepsValid(levels, isBid, i, levels[i].queue + [id]);
    } else {
      NotFoundIsWorse(levels, isBid, p);
      ValidInsert(levels, isBid, i, Level(p, [id]));
    }
  }

  lemma Splice<T>(a: seq<T>, x: T, b: seq<T>)
    ensures (a + [x] + b)[..|a|] == a && (a + [x] + b)[|a|] == x && (a + [x] + b)[|a| + 1..] == b
  {}

  /** Joining a level is inserting by price and time. */
  lemma FlatEnqueue(levels: seq<Level>, isBid: bool, p: Price, id: OrderId, orders: map<OrderId, Order>)
    requires ValidLevels(levels, isBid)
    ensures Flat(Enqueue(levels, isBid, p, id), orders)
         == Insert(Flat(levels, orders), isBid, Resting(id, p, LeavesOf(orders, id)))
  {
    hide Flat, Insert, FlatQueue, ValidLevels, LeavesOf;
    var i := Position(levels, isBid, p);
    var r := Resting(id, p, LeavesOf(orders, id));
    var queue, rest := QueueAt(levels, i, p), Behind(levels, i, p);
    var f, m, g := Flat(levels[..i], orders), FlatQueue(queue, p, orders), Flat(rest, orders);
    Splice(levels[..i], Level(p, queue + [id]), rest);
    assert Enqueue(levels, isBid, p, id) == levels[..i] + [Level(p, queue + [id])] + rest;
    BehindIsWorse(levels, isBid, p);
    FlatSplit(Enqueue(levels, isBid, p, id), i, orders);
    QueueConcat(queue, [id], p, orders);
    SingleQueue(id, p, orders);
    assert Flat(Enqueue(levels, isBid, p, id), orders) == (f + (m + [r])) + g;
    SplitFound(levels, i, p, orders);
    assert Flat(levels, orders) == (f + m) + g;
    forall k | 0 <= k < |rest| ensures Key(isBid, r.price) < Key(isBid, rest[k].price) {
      assert Key(isBid, p) < Key(isBid, Behind(levels, Position(levels, isBid, p), p)[k].price);
    }
    InsertBetween(levels, i, queue, rest, isBid, r, orders);
    Assoc(f, m, [r]);
    Assoc(f + m, [r], g);
  }

  lemma KeysOfBoth(f: seq<Resting>, m: seq<Resting>, isBid: bool, b: int)
    requires forall j :: 0 <= j < |f| ==> Key(isBid, f[j].price) <= b
    requires forall j :: 0 <= j < |m| ==> Key(isBid, m[j].price) <= b
    ensures forall j :: 0 <= j < |f + m| ==> Key(isBid, (f + m)[j].price) <= b
  {}

  lemma InsertBetween(levels: seq<Level>, i: nat, queue: seq<OrderId>, rest: seq<Level>, isBid: bool, r: Resting,
                      orders: map<OrderId, Order>)
    requires i <= |levels| && forall k :: 0 <= k < i ==> Key(isBid, levels[k].price) < Key(isBid, r.price)
    requires forall k :: 0 <= k < |rest| ==> Key(isBid, r.price) < Key(isBid, rest[k].price)
    ensures Insert((Flat(levels[..i], orders) + FlatQueue(queue, r.price, orders)) + Flat(rest, orders), isBid, r)
         == (Flat(levels[..i], orders) + FlatQueue(queue, r.price, orders)) + ([r] + Flat(rest, orders))
  {
    hide Flat, FlatQueue, Insert, LeavesOf;
    var f, m := Flat(levels[..i], orders), FlatQueue(queue, r.price, orders);
    FlatKeysBelow(levels[..i], orders, isBid, Key(isBid, r.price));
    QueueIndex(queue, r.price, orders);
    KeysOfBoth(f, m, isBid, Key(isBid, r.price));
    InsertPast(f + m, Flat(rest, orders), isBid, r);
    FlatFirst(rest, orders, isBid, Key(isBid, r.price));
    InsertBefore(Flat(rest, orders), isBid, r);
  }

  lemma SingleQueue(id: OrderId, p: Price, orders: map<OrderId, Order>)
    ensures FlatQueue([id], p, orders) == [Resting(id, p, LeavesOf(orders, id))]
    ensures FlatQueue([], p, orders) == []
  {}

  lemma SplitFound(levels: seq<Level>, i: nat, p: Price, orders: map<OrderId, Order>)
    requires i <= |levels|
    ensures Flat(levels, orders)
         == Flat(levels[..i], orders) + FlatQueue(QueueAt(levels, i, p), p, orders) + Flat(Behind(levels, i, p), orders)
  {
    if i < |levels| && levels[i].price == p {
      FlatSplit(levels, i, orders);
    } else {
      assert levels == levels[..i] + levels[i..];
      FlatConcat(levels[..i], levels[i..], orders);
      SingleQueue(0, p, orders);
    }
  }

  lemma FlatFirst(levels: seq<Level>, orders: map<OrderId, Order>, isBid: bool, b: int)
    requires forall k :: 0 <= k < |levels| ==> b < Key(isBid, levels[k].price)
    ensures Flat(levels, orders) != [] ==> b < Key(isBid, Flat(levels, orders)[0].price)
  {
    if Flat(levels, orders) != [] {
      var k := FlatOrigin(levels, orders, 0);
    }
  }

  /** p is the price of the first resting order, and none bids more, or asks less. */
  ghost predicate IsBest(q: seq<Resting>, isBid: bool, p: Price) {
    && q != [] && q[0].price == p
    && forall i :: 0 <= i < |q| ==> if isBid then q[i].price <= p else p <= q[i].price
  }

  lemma FrontIsBest(levels: seq<Level>, isBid: bool, orders: map<OrderId, Order>)
    requires ValidLevels(levels, isBid) && levels != []
    ensures IsBest(Flat(levels, orders), isBid, levels[0].price)
  {
    var q := Flat(levels, orders);
    assert q[0].price == levels[0].price;
    hide Flat;
    forall i | 0 <= i < |q| ensures Key(isBid, levels[0].price) <= Key(isBid, q[i].price) {
      var k := FlatOrigin(levels, orders, i);
    }
  }

  // ----- Removing from a level

  /** Removing the first occurrence in a queue. */
  function RemoveFirst(queue: seq<OrderId>, id: OrderId): seq<OrderId> {
    if queue == [] then []
    else if queue[0] == id then queue[1..]
    else [queue[0]] + RemoveFirst(queue[1..], id)
  }

  lemma {:induction false} FirstOccurrence(queue: seq<OrderId>, id: OrderId, k: nat)
    requires k <= |queue| && id !in queue[..k] && (k < |queue| ==> queue[k] == id)
    ensures RemoveFirst(queue, id) == if k < |queue| then queue[..k] + queue[k + 1..] else queue
  {
    if queue == [] {
    } else if k == 0 {
      assert queue[..0] + queue[1..] == queue[1..];
    } else {
      var head, more := queue[0], queue[1..];
      assert queue == [head] + more;
      assert queue[..k] == [head] + more[..k - 1];
      assert head == queue[..k][0];
      assert RemoveFirst(queue, id) == [head] + RemoveFirst(more, id);
      hide RemoveFirst;
      FirstOccurrence(more, id, k - 1);
      if k < |queue| {
        assert more[k..] == queue[k + 1..];
        Assoc([head], more[..k - 1], more[k..]);
      }
    }
  }

  lemma RemoveCons(r: Resting, q: seq<Resting>, id: OrderId)
    ensures RemoveId([r] + q, id) == RemoveId([r], id) + RemoveId(q, id)
  {
    assert ([r] + q)[1..] == q;
    assert RemoveId([], id) == [];
  }

  lemma {:induction false} RemoveConcat(a: seq<Resting>, b: seq<Resting>, id: OrderId)
    ensures RemoveId(a + b, id) == RemoveId(a, id) + RemoveId(b, id)
  {
    if a == [] {
      assert a + b == b;
    } else {
      hide RemoveId;
      RemoveConcat(a[1..], b, id);
      assert a == [a[0]] + a[1..];
      Assoc([a[0]], a[1..], b);
      RemoveCons(a[0], a[1..] + b, id);
      RemoveCons(a[0], a[1..], id);
      Assoc(RemoveId([a[0]], id), RemoveId(a[1..], id), RemoveId(b, id));
    }
  }

  lemma {:induction false} QueueRemove(queue: seq<OrderId>, id: OrderId, p: Price, orders: map<OrderId, Order>)
    requires forall i, j :: 0 <= i < j < |queue| ==> queue[i] != queue[j]
    ensures FlatQueue(RemoveFirst(queue, id), p, orders) == RemoveId(FlatQueue(queue, p, orders), id)
  {
    if queue != [] {
      var f := FlatQueue(queue, p, orders);
      assert f[1..] == FlatQueue(queue[1..], p, orders);
      if queue[0] == id {
        QueueIndex(queue[1..], p, orders);
        RemoveNothing(f[1..], id);
      } else {
        QueueRemove(queue[1..], id, p, orders);
      }
    }
  }

  /** The levels without the order, as the map entry for p is rewritten or erased. */
  function WithQueue(levels: seq<Level>, i: nat, queue: seq<OrderId>): seq<Level>
    requires i < |levels|
  {
    levels[..i] + (if queue == [] then [] else [Level(levels[i].price, queue)]) + levels[i + 1..]
  }

  /** An order sits in at most one place, at level p. */
  ghost predicate OnlyAt(levels: seq<Level>, p: Price, id: OrderId) {
    && (forall k :: 0 <= k < |levels| && id in levels[k].queue ==> levels[k].price == p)
    && (forall k, i, j :: 0 <= k < |levels| && 0 <= i < j < |levels[k].queue| ==> levels[k].queue[i] != levels[k].queue[j])
  }

  lemma WithQueueValid(levels: seq<Level>, isBid: bool, i: nat, queue: seq<OrderId>)
    requires ValidLevels(levels, isBid) && i < |levels|
    ensures ValidLevels(WithQueue(levels, i, queue), isBid)
  {}

  lemma FlatWithQueue(levels: seq<Level>, i: nat, queue: seq<OrderId>, orders: map<OrderId, Order>)
    requires i < |levels|
    ensures Flat(WithQueue(levels, i, queue), orders)
         == Flat(levels[..i], orders) + FlatQueue(queue, levels[i].price, orders) + Flat(levels[i + 1..], orders)
  {
    hide Flat, FlatQueue;
    var levels' := WithQueue(levels, i, queue);
    SingleQueue(0, levels[i].price, orders);
    if queue == [] {
      assert levels' == levels[..i] + levels[i + 1..];
      FlatConcat(levels[..i], levels[i + 1..], orders);
    } else {
      assert levels'[..i] == levels[..i] && levels'[i + 1..] == levels[i + 1..] && levels'[i] == Level(levels[i].price, queue);
      FlatSplit(levels', i, orders);
    }
  }

  /** The levels without the order: the entry for p is rewritten, or erased when it empties. */
  function Dequeue(levels: seq<Level>, isBid: bool, p: Price, id: OrderId): seq<Level> {
    var i := Position(levels, isBid, p);
    if i == |levels| || levels[i].price != p then levels
    else WithQueue(levels, i, RemoveFirst(levels[i].queue, id))
  }

  lemma DequeueValid(levels: seq<Level>, isBid: bool, p: Price, id: OrderId)
    requires ValidLevels(levels, isBid)
    ensures ValidLevels(Dequeue(levels, isBid, p, id), isBid)
  {
    var i := Position(levels, isBid, p);
    if i < |levels| && levels[i].price == p {
      WithQueueValid(levels, isBid, i, RemoveFirst(levels[i].queue, id));
    }
  }

  lemma FlatDequeueAt(levels: seq<Level>, i: nat, id: OrderId, orders: map<OrderId, Order>)
    requires i < |levels| && OnlyAt(levels, levels[i].price, id)
    requires forall k :: 0 <= k < |levels| && k != i ==> levels[k].price != levels[i].price
    ensures Flat(WithQueue(levels, i, RemoveFirst(levels[i].queue, id)), orders) == RemoveId(Flat(levels, orders), id)
  {
    hide Flat, FlatQueue, RemoveId, RemoveFirst, WithQueue;
    var p := levels[i].price;
    var f, m, g := Flat(levels[..i], orders), FlatQueue(levels[i].queue, p, orders), Flat(levels[i + 1..], orders);
    AbsentElsewhere(levels[..i], id, orders);
    AbsentElsewhere(levels[i + 1..], id, orders);
    QueueRemove(levels[i].queue, id, p, orders);
    FlatSplit(levels, i, orders);
    RemoveConcat(f + m, g, id);
    RemoveConcat(f, m, id);
    FlatWithQueue(levels, i, RemoveFirst(levels[i].queue, id), orders);
  }

  /** Leaving a level is leaving the price-time list. */
  lemma FlatDequeue(levels: seq<Level>, isBid: bool, p: Price, id: OrderId, orders: map<OrderId, Order>)
    requires ValidLevels(levels, isBid) && OnlyAt(levels, p, id)
    ensures Flat(Dequeue(levels, isBid, p, id), orders) == RemoveId(Flat(levels, orders), id)
  {
    hide Flat, RemoveId, RemoveFirst, WithQueue;
    var i := Position(levels, isBid, p);
    if i == |levels| || levels[i].price != p {
      forall k | 0 <= k < |levels| ensures id !in levels[k].queue {
        if k >= i { assert Key(isBid, p) < Key(isBid, levels[i].price) <= Key(isBid, levels[k].price); }
      }
      AbsentElsewhere(levels, id, orders);
    } else {
      forall k | 0 <= k < |levels| && k != i ensures levels[k].price != levels[i].price {
        if k < i { assert Key(isBid, levels[k].price) < Key(isBid, levels[i].price); }
        else { assert Key(isBid, levels[i].price) < Key(isBid, levels[k].price); }
      }
      FlatDequeueAt(levels, i, id, orders);
    }
  }

  lemma AbsentElsewhere(levels: seq<Level>, id: OrderId, orders: map<OrderId, Order>)
    requires forall k :: 0 <= k < |levels| ==> id !in levels[k].queue
    ensures RemoveId(Flat(levels, orders), id) == Flat(levels, orders)
  {
    forall j | 0 <= j < |Flat(levels, orders)| ensures Flat(levels, orders)[j].id != id {
      var k := FlatOrigin(levels, orders, j);
    }
    RemoveNothing(Flat(levels, orders), id);
  }

  // ----- What the list says about the levels

  /** Distinct identifiers in the list mean distinct places in the queues. */
  lemma ListedOnlyAt(levels: seq<Level>, orders: map<OrderId, Order>, p: Price, id: OrderId)
    requires DistinctIds(Flat(levels, orders))
    requires forall i :: 0 <= i < |Flat(levels, orders)| && Flat(levels, orders)[i].id == id ==> Flat(levels, orders)[i].price == p
    ensures OnlyAt(levels, p, id)
  {
    forall k | 0 <= k < |levels| && id in levels[k].queue ensures levels[k].price == p {
      var i := QueuedIsListed(levels, orders, k, id);
    }
    forall k, i, j | 0 <= k < |levels| && 0 <= i < j < |levels[k].queue|
      ensures levels[k].queue[i] != levels[k].queue[j]
    {
      FlatSplit(levels, k, orders);
      QueueIndex(levels[k].queue, levels[k].price, orders);
      var n := |Flat(levels[..k], orders)|;
      assert Flat(levels, orders)[n + i].id != Flat(levels, orders)[n + j].id;
    }
  }

  // ----- Shares at a price

  lemma {:induction false} SharesAtConcat(a: seq<Resting>, b: seq<Resting>, p: Price)
    ensures SharesAt(a + b, p) == SharesAt(a, p) + SharesAt(b, p)
  {
    if a == [] {
      assert a + b == b;
    } else {
      SharesAtConcat(a[1..], b, p);
      assert (a + b)[1..] == a[1..] + b;
    }
  }

  lemma {:induction false} SharesAtOther(q: seq<Resting>, p: Price)
    requires forall i :: 0 <= i < |q| ==> q[i].price != p
    ensures SharesAt(q, p) == 0
  {
    if q != [] { SharesAtOther(q[1..], p); }
  }

  lemma {:induction false} SharesAtQueue(queue: seq<OrderId>, p: Price, orders: map<OrderId, Order>)
    ensures SharesAt(FlatQueue(queue, p, orders), p) == QueueShares(queue, orders)
  {
    if queue != [] {
      SharesAtQueue(queue[1..], p, orders);
      assert FlatQueue(queue, p, orders)[1..] == FlatQueue(queue[1..], p, orders);
    }
  }

  lemma OtherPrices(levels: seq<Level>, orders: map<OrderId, Order>, p: Price)
    requires forall k :: 0 <= k < |levels| ==> levels[k].price != p
    ensures SharesAt(Flat(levels, orders), p) == 0
  {
    var q := Flat(levels, orders);
    forall i | 0 <= i < |q| ensures q[i].price != p {
      var k := FlatOrigin(levels, orders, i);
    }
    SharesAtOther(q, p);
  }

  /** The shares resting at p are the shares of the queue the map holds for p. */
  lemma SharesAtLevel(levels: seq<Level>, isBid: bool, p: Price, orders: map<OrderId, Order>)
    requires ValidLevels(levels, isBid)
    ensures SharesAt(Flat(levels, orders), p) == QueueShares(QueueAt(levels, Position(levels, isBid, p), p), orders)
  {
    hide Flat, FlatQueue, SharesAt, QueueShares, LeavesOf;
    var i := Position(levels, isBid, p);
    var queue, rest := QueueAt(levels, i, p), Behind(levels, i, p);
    BehindIsWorse(levels, isBid, p);
    SplitFound(levels, i, p, orders);
    SharesAtConcat(Flat(levels[..i], orders) + FlatQueue(queue, p, orders), Flat(rest, orders), p);
    SharesAtConcat(Flat(levels[..i], orders), FlatQueue(queue, p, orders), p);
    OtherPrices(levels[..i], orders, p);
    OtherPrices(rest, orders, p) by {
      forall k | 0 <= k < |rest| ensures rest[k].price != p {
        assert Key(isBid, p) < Key(isBid, Behind(levels, i, p)[k].price);
      }
    }
    SharesAtQueue(queue, p, orders);
  }

  lemma {:induction false} BeforeOther(a: seq<Resting>, b: seq<Resting>, p: Price, id: OrderId)
    requires forall i :: 0 <= i < |a| ==> a[i].price != p && a[i].id != id
    ensures SharesBeforeAt(a + b, p, id) == SharesBeforeAt(b, p, id)
  {
    if a == [] {
      assert a + b == b;
    } else {
      BeforeOther(a[1..], b, p, id);
      assert (a + b)[1..] == a[1..] + b;
    }
  }

  lemma {:induction false} BeforeInQueue(queue: seq<OrderId>, p: Price, rest: seq<Resting>, id: OrderId, orders: map<OrderId, Order>)
    requires forall i :: 0 <= i < |rest| ==> rest[i].price != p
    ensures SharesBeforeAt(FlatQueue(queue, p, orders) + rest, p, id) == SharesBefore(queue, id, orders)
  {
    var f := FlatQueue(queue, p, orders);
    if queue == [] {
      assert f + rest == rest;
      BeforeNone(rest, p, id);
    } else {
      assert (f + rest)[1..] == FlatQueue(queue[1..], p, orders) + rest;
      BeforeInQueue(queue[1..], p, rest, id, orders);
    }
  }

  lemma {:induction false} BeforeNone(q: seq<Resting>, p: Price, id: OrderId)
    requires forall i :: 0 <= i < |q| ==> q[i].price != p
    ensures SharesBeforeAt(q, p, id) == 0
  {
    if q != [] { BeforeNone(q[1..], p, id); }
  }

  lemma FlatAvoids(levels: seq<Level>, orders: map<OrderId, Order>, p: Price)
    requires forall k :: 0 <= k < |levels| ==> levels[k].price != p
    ensures forall i :: 0 <= i < |Flat(levels, orders)| ==> Flat(levels, orders)[i].price != p
  {
    forall i | 0 <= i < |Flat(levels, orders)| ensures Flat(levels, orders)[i].price != p {
      var k := FlatOrigin(levels, orders, i);
    }
  }

  lemma BehindAvoids(levels: seq<Level>, isBid: bool, p: Price)
    requires ValidLevels(levels, isBid)
    ensures var rest := Behind(levels, Position(levels, isBid, p), p);
            forall k :: 0 <= k < |rest| ==> rest[k].price != p
  {
    BehindIsWorse(levels, isBid, p);
    hide Behind;
  }

  /** What lies at other prices is not the order looked for. */
  lemma OthersAvoid(a: seq<Resting>, b: seq<Resting>, p: Price, id: OrderId)
    requires forall i :: 0 <= i < |a + b| && (a + b)[i].id == id ==> (a + b)[i].price == p
    requires forall i :: 0 <= i < |a| ==> a[i].price != p
    ensures forall i :: 0 <= i < |a| ==> a[i].id != id
  {
    forall j | 0 <= j < |a| ensures a[j].id != id { assert (a + b)[j] == a[j]; }
  }

  /** The queue position is read off the queue of the order's own level. */
  lemma BeforeAtLevel(levels: seq<Level>, isBid: bool, p: Price, id: OrderId, orders: map<OrderId, Order>)
    requires ValidLevels(levels, isBid)
    requires forall i :: 0 <= i < |Flat(levels, orders)| && Flat(levels, orders)[i].id == id ==> Flat(levels, orders)[i].price == p
    ensures SharesBeforeAt(Flat(levels, orders), p, id) == SharesBefore(QueueAt(levels, Position(levels, isBid, p), p), id, orders)
  {
    hide Flat, FlatQueue, SharesBeforeAt, SharesBefore, LeavesOf, Key;
    var i := Position(levels, isBid, p);
    var queue, rest := QueueAt(levels, i, p), Behind(levels, i, p);
    BehindIsWorse(levels, isBid, p);
    SplitFound(levels, i, p, orders);
    var a, m, b := Flat(levels[..i], orders), FlatQueue(queue, p, orders), Flat(rest, orders);
    Assoc(a, m, b);
    FlatAvoids(levels[..i], orders, p);
    BehindAvoids(levels, isBid, p);
    FlatAvoids(rest, orders, p);
    OthersAvoid(a, m + b, p, id);
    BeforeOther(a, m + b, p, id);
    BeforeInQueue(queue, p, b, id, orders);
  }

  // ----- Depth

  /** The orders at one price, in list order. */
  function AtPrice(q: seq<Resting>, p: Price): seq<Resting> {
    if q == [] then [] else (if q[0].price == p then [q[0]] else []) + AtPrice(q[1..], p)
  }

  lemma {:induction false} AtPriceConcat(a: seq<Resting>, b: seq<Resting>, p: Price)
    ensures AtPrice(a + b, p) == AtPrice(a, p) + AtPrice(b, p)
  {
    if a == [] {
      assert a + b == b;
    } else {
      AtPriceConcat(a[1..], b, p);
      assert (a + b)[1..] == a[1..] + b;
      Assoc(if a[0].price == p then [a[0]] else [], AtPrice(a[1..], p), AtPrice(b, p));
    }
  }

  lemma {:induction false} AtOtherPrice(q: seq<Resting>, p: Price)
    requires forall i :: 0 <= i < |q| ==> q[i].price != p
    ensures AtPrice(q, p) == []
  {
    if q != [] { AtOtherPrice(q[1..], p); }
  }

  lemma {:induction false} AtOwnPrice(q: seq<Resting>, p: Price)
    requires forall i :: 0 <= i < |q| ==> q[i].price == p
    ensures AtPrice(q, p) == q
  {
    if q != [] { AtOwnPrice(q[1..], p); }
  }

  /** A level's queue is the orders at its price, oldest first. */
  lemma LevelIsPrice(levels: seq<Level>, isBid: bool, orders: map<OrderId, Order>, k: nat)
    requires ValidLevels(levels, isBid) && k < |levels|
    ensures AtPrice(Flat(levels, orders), levels[k].price) == FlatQueue(levels[k].queue, levels[k].price, orders)
  {
    hide Flat, FlatQueue, AtPrice, LeavesOf;
    var p := levels[k].price;
    var a, m, b := Flat(levels[..k], orders), FlatQueue(levels[k].queue, p, orders), Flat(levels[k + 1..], orders);
    FlatSplit(levels, k, orders);
    AtPriceConcat(a + m, b, p);
    AtPriceConcat(a, m, p);
    FlatAvoids(levels[..k], orders, p);
    FlatAvoids(levels[k + 1..], orders, p);
    AtOtherPrice(a, p);
    AtOtherPrice(b, p);
    QueueIndex(levels[k].queue, p, orders);
    AtOwnPrice(m, p);
    OneInTheMiddle(m);
  }

  lemma OneInTheMiddle(m: seq<Resting>)
    ensures [] + m + [] == m
  {}

  lemma {:induction false} QueueTotals(queue: seq<OrderId>, p: Price, orders: map<OrderId, Order>)
    ensures Shares(FlatQueue(queue, p, orders)) == QueueShares(queue, orders) && |FlatQueue(queue, p, orders)| == |queue|
  {
    if queue != [] {
      QueueTotals(queue[1..], p, orders);
      assert FlatQueue(queue, p, orders)[1..] == FlatQueue(queue[1..], p, orders);
    }
  }

  lemma {:induction false} DepthAt(levels: seq<Level>, orders: map<OrderId, Order>, n: nat, k: nat)
    requires k < |levels| && k < n
    ensures |DepthOf(levels, orders, n)| == if n <= |levels| then n else |levels|
    ensures k < |DepthOf(levels, orders, n)|
    ensures DepthOf(levels, orders, n)[k]
         == PriceLevel(levels[k].price, QueueShares(levels[k].queue, orders), |levels[k].queue|)
  {
    hide QueueShares;
    if k > 0 {
      DepthAt(levels[1..], orders, n - 1, k - 1);
    } else if n > 1 && |levels| > 1 {
      DepthAt(levels[1..], orders, n - 1, 0);
    }
  }

  ghost predicate HasPrice(depth: seq<PriceLevel>, p: Price) {
    exists k :: 0 <= k < |depth| && depth[k].price == p
  }

  ghost predicate AllBetter(depth: seq<PriceLevel>, isBid: bool, p: Price) {
    forall k :: 0 <= k < |depth| ==> if isBid then depth[k].price > p else depth[k].price < p
  }

  /** A depth snapshot on the price-time list: entry k has the total shares and the number of the orders at its
      price, later entries have worse prices, and an order at none of these prices is worse than all of
      them and the snapshot is full. */
  lemma DepthIs(levels: seq<Level>, isBid: bool, orders: map<OrderId, Order>, n: nat)
    requires ValidLevels(levels, isBid)
    ensures var q, depth := Flat(levels, orders), DepthOf(levels, orders, n);
            && |depth| <= n
            && (forall k :: 0 <= k < |depth| ==>
                  var at := AtPrice(q, depth[k].price);
                  depth[k].totalQty == Shares(at) && depth[k].orderCount == |at| > 0)
            && (forall j, k :: 0 <= j < k < |depth| ==>
                  if isBid then depth[j].price > depth[k].price else depth[j].price < depth[k].price)
            && (forall i :: 0 <= i < |q| ==>
                  HasPrice(depth, q[i].price) || (|depth| == n && AllBetter(depth, isBid, q[i].price)))
  {
    hide Flat, DepthOf, QueueShares, FlatQueue, AtPrice, Shares;
    var q, depth := Flat(levels, orders), DepthOf(levels, orders, n);
    DepthSize(levels, orders, n);
    forall k | 0 <= k < |depth|
      ensures depth[k].price == levels[k].price
      ensures var at := AtPrice(q, depth[k].price); depth[k].totalQty == Shares(at) && depth[k].orderCount == |at| > 0
    {
      DepthAt(levels, orders, n, k);
      LevelIsPrice(levels, isBid, orders, k);
      QueueTotals(levels[k].queue, levels[k].price, orders);
    }
    forall i | 0 <= i < |q|
      ensures HasPrice(depth, q[i].price) || (|depth| == n && AllBetter(depth, isBid, q[i].price))
    {
      var m := FlatOrigin(levels, orders, i);
      if m < |depth| { assert depth[m].price == q[i].price; }
    }
  }

  lemma DepthSize(levels: seq<Level>, orders: map<OrderId, Order>, n: nat)
    ensures |DepthOf(levels, orders, n)| == if n <= |levels| then n else |levels|
  {
    hide QueueShares;
    if levels != [] && n > 0 { DepthAt(levels, orders, n, 0); }
  }
}
