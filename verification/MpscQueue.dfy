/** The multi-producer single-consumer linked queue as atomic steps on shared memory. A producer
    prepares a node, exchanges the head and links the old head; the consumer loads the link of its
    tail, takes the value of the next node and releases the old one. Any interleaving of these steps
    is a list of actions. */
module MpscQueues {
  import opened Basics

  type Address = nat
  type Producer = nat

  /** A node. The first dummy node holds no value; maker is the producer that allocated it. */
  datatype Node<T> = Node(value: Option<T>, next: Option<Address>, maker: Producer)

  /** Where a producer stands inside enqueue. The ticket is its place in the order of the exchanges. */
  datatype Enqueuing<T> =
    | Prepared(node: Address, value: T)
    | Swapped(prev: Address, node: Address, ticket: nat)

  /** Where the consumer stands inside dequeue. */
  datatype Dequeuing = Idle | Loaded(next: Address) | Releasing(spent: Address)

  datatype Memory<T> = Memory(
    nodes: map<Address, Node<T>>,            // the allocated nodes
    head: Address,                           // exchanged by producers
    tail: Address,                           // owned by the consumer
    producers: map<Producer, Enqueuing<T>>,  // the producers inside enqueue
    consumer: Dequeuing,
    exchanged: seq<(Producer, T)>,           // history: values in the order of the exchanges
    delivered: seq<Option<T>>,               // history: values returned by dequeue
    order: seq<Address>,                     // history: the nodes in the order they became the head
    faulted: bool)                           // whether a step touched a node that is not allocated

  datatype Action<T> =
    | Prepare(p: Producer, value: T, at: Address)
    | ExchangeHead(p: Producer)
    | LinkNext(p: Producer)
    | LoadNext
    | TakeValue
    | ReleaseOld

  function Initial<T>(dummy: Address): Memory<T> {
    Memory(map[dummy := Node(None, None, 0)], dummy, dummy, map[], Idle, [], [], [dummy], false)
  }

  // ----- The atomic steps; an action that is not enabled changes nothing

  /** Allocates a node, possibly at an address used before, and stores the value in it. */
  function DoPrepare<T>(m: Memory<T>, p: Producer, value: T, at: Address): Memory<T> {
    if p in m.producers || at in m.nodes then m
    else m.(nodes := m.nodes[at := Node(Some(value), None, p)], producers := m.producers[p := Prepared(at, value)])
  }

  function DoExchange<T>(m: Memory<T>, p: Producer): Memory<T> {
    if p !in m.producers || !m.producers[p].Prepared? then m
    else
      var node := m.producers[p].node;
      m.(head := node, producers := m.producers[p := Swapped(m.head, node, |m.exchanged|)],
         exchanged := m.exchanged + [(p, m.producers[p].value)], order := m.order + [node])
  }

  function DoLink<T>(m: Memory<T>, p: Producer): Memory<T> {
    if p !in m.producers || !m.producers[p].Swapped? then m
    else if m.producers[p].prev !in m.nodes then m.(faulted := true)
    else
      var prev := m.producers[p].prev;
      m.(nodes := m.nodes[prev := m.nodes[prev].(next := Some(m.producers[p].node))],
         producers := m.producers - {p})
  }

  /** With no link the dequeue returns nothing and the consumer is idle again. */
  function DoLoad<T>(m: Memory<T>): Memory<T> {
    if !m.consumer.Idle? then m
    else if m.tail !in m.nodes then m.(faulted := true)
    else if m.nodes[m.tail].next.None? then m
    else m.(consumer := Loaded(m.nodes[m.tail].next.value))
  }

  function DoTake<T>(m: Memory<T>): Memory<T> {
    if !m.consumer.Loaded? then m
    else if m.consumer.next !in m.nodes then m.(faulted := true)
    else
      m.(delivered := m.delivered + [m.nodes[m.consumer.next].value], tail := m.consumer.next,
         consumer := Releasing(m.tail))
  }

  function DoRelease<T>(m: Memory<T>): Memory<T> {
    if !m.consumer.Releasing? then m
    else if m.consumer.spent !in m.nodes then m.(faulted := true)
    else m.(nodes := m.nodes - {m.consumer.spent}, consumer := Idle)
  }

  function Step<T>(m: Memory<T>, a: Action<T>): Memory<T> {
    match a
    case Prepare(p, value, at) => DoPrepare(m, p, value, at)
    case ExchangeHead(p) => DoExchange(m, p)
    case LinkNext(p) => DoLink(m, p)
    case LoadNext => DoLoad(m)
    case TakeValue => DoTake(m)
    case ReleaseOld => DoRelease(m)
  }

  function Run<T>(m: Memory<T>, actions: seq<Action<T>>): Memory<T>
    decreases |actions|
  {
    if actions == [] then m else Run(Step(m, actions[0]), actions[1..])
  }

  // ----- Invariant. The n + 1 nodes of the order are numbered from 0; d values have been delivered, so
  // the nodes d to n form the queue and node t + 1 carries the value with ticket t.

  ghost predicate InQueue(order: seq<Address>, d: nat, a: Address) {
    exists t :: d <= t < |order| && order[t] == a
  }

  /** The nodes from tail to head are allocated and all different. */
  ghost predicate OrderOk(keys: set<Address>, head: Address, tail: Address, order: seq<Address>, d: nat) {
    && d < |order| && order[d] == tail && order[|order| - 1] == head
    && (forall t :: d <= t < |order| ==> order[t] in keys)
    && (forall t, u :: d <= t < u < |order| ==> order[t] != order[u])
  }

  /** The producer with ticket t has not stored its link yet. */
  ghost predicate Unlinked<T>(producers: map<Producer, Enqueuing<T>>, exchanged: seq<(Producer, T)>, t: nat) {
    && t < |exchanged| && exchanged[t].0 in producers && producers[exchanged[t].0].Swapped?
    && producers[exchanged[t].0].ticket == t
  }

  ghost function LinkOf<T>(producers: map<Producer, Enqueuing<T>>, exchanged: seq<(Producer, T)>,
                           order: seq<Address>, t: nat): Option<Address>
    requires t < |order|
  {
    if t == |order| - 1 || Unlinked(producers, exchanged, t) then None else Some(order[t + 1])
  }

  /** A node links to its successor, unless the successor's producer is still to store the link. */
  ghost predicate LinksOk<T>(nodes: map<Address, Node<T>>, producers: map<Producer, Enqueuing<T>>,
                             exchanged: seq<(Producer, T)>, order: seq<Address>, d: nat) {
    forall t: nat :: d <= t < |order| && order[t] in nodes ==>
      nodes[order[t]].next == LinkOf(producers, exchanged, order, t)
  }

  /** A producer between exchange and link holds a ticket that is not delivered. */
  ghost predicate PendingOk<T>(producers: map<Producer, Enqueuing<T>>, exchanged: seq<(Producer, T)>,
                               order: seq<Address>, d: nat) {
    && |order| == |exchanged| + 1
    && forall p :: p in producers && producers[p].Swapped? ==>
         var t := producers[p].ticket;
         d <= t < |exchanged| && exchanged[t].0 == p && producers[p].prev == order[t] && producers[p].node == order[t + 1]
  }

  /** A prepared node is private to its producer. */
  ghost predicate PrivateOk<T>(nodes: map<Address, Node<T>>, producers: map<Producer, Enqueuing<T>>,
                               consumer: Dequeuing, order: seq<Address>, d: nat) {
    forall p :: p in producers && producers[p].Prepared? ==>
      var a := producers[p].node;
      && a in nodes && nodes[a] == Node(Some(producers[p].value), None, p)
      && !InQueue(order, d, a) && consumer != Releasing(a)
  }

  /** An allocated node is in the queue, private to its maker, or being released. */
  ghost predicate NoLeak<T>(nodes: map<Address, Node<T>>, producers: map<Producer, Enqueuing<T>>,
                            consumer: Dequeuing, order: seq<Address>, d: nat) {
    forall a :: a in nodes && !InQueue(order, d, a) && consumer != Releasing(a) ==>
      var p := nodes[a].maker;
      p in producers && producers[p].Prepared? && producers[p].node == a
  }

  /** What was exchanged is what was delivered followed by what the queue still holds. */
  ghost predicate ValuesOk<T>(nodes: map<Address, Node<T>>, exchanged: seq<(Producer, T)>,
                              delivered: seq<Option<T>>, order: seq<Address>) {
    && |order| == |exchanged| + 1 && |delivered| <= |exchanged|
    && (forall t :: 0 <= t < |delivered| ==> delivered[t] == Some(exchanged[t].1))
    && (forall t :: |delivered| < t < |order| && order[t] in nodes ==>
          nodes[order[t]].value == Some(exchanged[t - 1].1))
  }

  ghost predicate ConsumerOk<T>(nodes: map<Address, Node<T>>, consumer: Dequeuing, tail: Address,
                                order: seq<Address>, d: nat) {
    match consumer
    case Idle => true
    case Loaded(next) => d + 1 < |order| && next == order[d + 1] && tail in nodes && nodes[tail].next == Some(next)
    case Releasing(spent) => spent in nodes && !InQueue(order, d, spent)
  }

  ghost predicate Inv<T>(m: Memory<T>) {
    var d := |m.delivered|;
    && !m.faulted
    && OrderOk(m.nodes.Keys, m.head, m.tail, m.order, d)
    && LinksOk(m.nodes, m.producers, m.exchanged, m.order, d)
    && PendingOk(m.producers, m.exchanged, m.order, d)
    && PrivateOk(m.nodes, m.producers, m.consumer, m.order, d)
    && NoLeak(m.nodes, m.producers, m.consumer, m.order, d)
    && ValuesOk(m.nodes, m.exchanged, m.delivered, m.order)
    && ConsumerOk(m.nodes, m.consumer, m.tail, m.order, d)
  }

  // ----- Every step keeps the invariant

  lemma InitialInv<T>(dummy: Address)
    ensures Inv(Initial<T>(dummy))
  {
    assert Initial<T>(dummy).order[0] == dummy;
  }

  lemma PrepareKeeps<T>(m: Memory<T>, p: Producer, value: T, at: Address)
    requires Inv(m)
    ensures Inv(DoPrepare(m, p, value, at))
  {
    hide OrderOk, LinksOk, PendingOk, PrivateOk, NoLeak, ValuesOk, ConsumerOk;
    if p !in m.producers && at !in m.nodes {
      PrepareFrame(m, p, value, at);
      PreparePrivate(m, p, value, at);
      assert m.nodes[at := Node(Some(value), None, p)].Keys == m.nodes.Keys + {at};
    }
  }

  lemma PrepareLinks<T>(producers: map<Producer, Enqueuing<T>>, exchanged: seq<(Producer, T)>, order: seq<Address>,
                        p: Producer, value: T, at: Address)
    requires p !in producers
    ensures forall t: nat :: t < |order| ==>
              LinkOf(producers[p := Prepared(at, value)], exchanged, order, t) == LinkOf(producers, exchanged, order, t)
  {}

  lemma PrepareFrame<T>(m: Memory<T>, p: Producer, value: T, at: Address)
    requires Inv(m) && p !in m.producers && at !in m.nodes
    ensures OrderOk(m.nodes.Keys + {at}, m.head, m.tail, m.order, |m.delivered|)
    ensures LinksOk(m.nodes[at := Node(Some(value), None, p)], m.producers[p := Prepared(at, value)],
                    m.exchanged, m.order, |m.delivered|)
    ensures PendingOk(m.producers[p := Prepared(at, value)], m.exchanged, m.order, |m.delivered|)
    ensures ValuesOk(m.nodes[at := Node(Some(value), None, p)], m.exchanged, m.delivered, m.order)
  {
    hide LinkOf, Unlinked, PrivateOk, NoLeak, ConsumerOk;
    PrepareLinks(m.producers, m.exchanged, m.order, p, value, at);
  }

  lemma PreparePrivate<T>(m: Memory<T>, p: Producer, value: T, at: Address)
    requires Inv(m) && p !in m.producers && at !in m.nodes
    ensures PrivateOk(m.nodes[at := Node(Some(value), None, p)], m.producers[p := Prepared(at, value)],
                      m.consumer, m.order, |m.delivered|)
    ensures NoLeak(m.nodes[at := Node(Some(value), None, p)], m.producers[p := Prepared(at, value)],
                   m.consumer, m.order, |m.delivered|)
    ensures ConsumerOk(m.nodes[at := Node(Some(value), None, p)], m.consumer, m.tail, m.order, |m.delivered|)
  {
    hide LinksOk, PendingOk, ValuesOk;
  }

  lemma ExchangeKeeps<T>(m: Memory<T>, p: Producer)
    requires Inv(m)
    ensures Inv(DoExchange(m, p))
  {
    hide OrderOk, LinksOk, PendingOk, PrivateOk, NoLeak, ValuesOk, ConsumerOk;
    if p in m.producers && m.producers[p].Prepared? {
      ExchangeLinks(m, p);
      ExchangeQueue(m, p);
      ExchangePrivate(m, p);
    }
  }

  lemma ExchangeQueue<T>(m: Memory<T>, p: Producer)
    requires Inv(m) && p in m.producers && m.producers[p].Prepared?
    ensures var m1 := DoExchange(m, p);
            && OrderOk(m1.nodes.Keys, m1.head, m1.tail, m1.order, |m1.delivered|)
            && PendingOk(m1.producers, m1.exchanged, m1.order, |m1.delivered|)
            && ValuesOk(m1.nodes, m1.exchanged, m1.delivered, m1.order)
  {
    hide LinksOk, NoLeak, ConsumerOk;
  }

  lemma ExchangeLinks<T>(m: Memory<T>, p: Producer)
    requires Inv(m) && p in m.producers && m.producers[p].Prepared?
    ensures var m1 := DoExchange(m, p);
            && LinksOk(m1.nodes, m1.producers, m1.exchanged, m1.order, |m1.delivered|)
            && ConsumerOk(m1.nodes, m1.consumer, m1.tail, m1.order, |m1.delivered|)
  {
    hide NoLeak, ValuesOk;
    var m1 := DoExchange(m, p);
    forall t: nat | t < |m.exchanged| ensures Unlinked(m1.producers, m1.exchanged, t) == Unlinked(m.producers, m.exchanged, t) {}
    assert Unlinked(m1.producers, m1.exchanged, |m.exchanged|);
  }

  lemma ExchangePrivate<T>(m: Memory<T>, p: Producer)
    requires Inv(m) && p in m.producers && m.producers[p].Prepared?
    ensures var m1 := DoExchange(m, p);
            && PrivateOk(m1.nodes, m1.producers, m1.consumer, m1.order, |m1.delivered|)
            && NoLeak(m1.nodes, m1.producers, m1.consumer, m1.order, |m1.delivered|)
  {
    hide LinksOk, PendingOk, ValuesOk, ConsumerOk, InQueue;
    forall a ensures InQueue(DoExchange(m, p).order, |m.delivered|, a)
                     <==> InQueue(m.order, |m.delivered|, a) || a == m.producers[p].node
    {
      QueueGrows(m.order, |m.delivered|, m.producers[p].node, a);
    }
  }

  lemma QueueGrows(order: seq<Address>, d: nat, node: Address, a: Address)
    requires d <= |order|
    ensures InQueue(order + [node], d, a) <==> InQueue(order, d, a) || a == node
  {
    assert (order + [node])[|order|] == node;
    if InQueue(order, d, a) {
      var t :| d <= t < |order| && order[t] == a;
      assert (order + [node])[t] == a;
    }
  }

  lemma LinkKeeps<T>(m: Memory<T>, p: Producer)
    requires Inv(m)
    ensures Inv(DoLink(m, p))
  {
    hide OrderOk, LinksOk, PrivateOk, NoLeak, ValuesOk, ConsumerOk;
    if p in m.producers && m.producers[p].Swapped? {
      LinkQueue(m, p);
      LinkLinks(m, p);
      LinkPrivate(m, p);
    }
  }

  lemma LinkQueue<T>(m: Memory<T>, p: Producer)
    requires Inv(m) && p in m.producers && m.producers[p].Swapped?
    ensures m.producers[p].prev in m.nodes
    ensures var m1 := DoLink(m, p);
            && OrderOk(m1.nodes.Keys, m1.head, m1.tail, m1.order, |m1.delivered|)
            && PendingOk(m1.producers, m1.exchanged, m1.order, |m1.delivered|)
            && ValuesOk(m1.nodes, m1.exchanged, m1.delivered, m1.order)
            && ConsumerOk(m1.nodes, m1.consumer, m1.tail, m1.order, |m1.delivered|)
  {
    hide LinksOk, LinkOf, Unlinked, PrivateOk, NoLeak;
  }

  /** The stored link is the one the order asks for, and no other ticket is settled by it. */
  lemma LinkSettles<T>(m: Memory<T>, p: Producer)
    requires Inv(m) && p in m.producers && m.producers[p].Swapped? && m.producers[p].prev in m.nodes
    ensures var m1 := DoLink(m, p);
            forall t: nat :: t < |m.order| ==>
              LinkOf(m1.producers, m1.exchanged, m1.order, t) ==
                if t == m.producers[p].ticket then Some(m.producers[p].node) else LinkOf(m.producers, m.exchanged, m.order, t)
  {
    hide OrderOk, LinksOk, PrivateOk, NoLeak, ValuesOk, ConsumerOk;
  }

  lemma LinkLinks<T>(m: Memory<T>, p: Producer)
    requires Inv(m) && p in m.producers && m.producers[p].Swapped? && m.producers[p].prev in m.nodes
    ensures var m1 := DoLink(m, p);
            LinksOk(m1.nodes, m1.producers, m1.exchanged, m1.order, |m1.delivered|)
  {
    hide LinkOf, Unlinked, PrivateOk, NoLeak, ValuesOk, ConsumerOk;
    LinkSettles(m, p);
  }

  lemma LinkPrivate<T>(m: Memory<T>, p: Producer)
    requires Inv(m) && p in m.producers && m.producers[p].Swapped? && m.producers[p].prev in m.nodes
    ensures var m1 := DoLink(m, p);
            && PrivateOk(m1.nodes, m1.producers, m1.consumer, m1.order, |m1.delivered|)
            && NoLeak(m1.nodes, m1.producers, m1.consumer, m1.order, |m1.delivered|)
  {
    hide LinksOk, ValuesOk, ConsumerOk;
  }

  lemma LoadKeeps<T>(m: Memory<T>)
    requires Inv(m)
    ensures Inv(DoLoad(m))
  {
    hide PendingOk, ValuesOk;
  }

  lemma TakeKeeps<T>(m: Memory<T>)
    requires Inv(m)
    ensures Inv(DoTake(m))
  {
    hide OrderOk, LinksOk, PendingOk, PrivateOk, NoLeak, ValuesOk, ConsumerOk;
    if m.consumer.Loaded? {
      TakeQueue(m);
      TakePending(m);
      TakePrivate(m);
    }
  }

  lemma TakeQueue<T>(m: Memory<T>)
    requires Inv(m) && m.consumer.Loaded?
    ensures m.consumer.next in m.nodes
    ensures var m1 := DoTake(m);
            && OrderOk(m1.nodes.Keys, m1.head, m1.tail, m1.order, |m1.delivered|)
            && LinksOk(m1.nodes, m1.producers, m1.exchanged, m1.order, |m1.delivered|)
            && ValuesOk(m1.nodes, m1.exchanged, m1.delivered, m1.order)
            && ConsumerOk(m1.nodes, m1.consumer, m1.tail, m1.order, |m1.delivered|)
  {
    hide PendingOk, PrivateOk, NoLeak, LinkOf, Unlinked;
  }

  /** What the link of a queued node is. */
  lemma LinkAt<T>(m: Memory<T>, t: nat)
    requires Inv(m) && |m.delivered| <= t < |m.order|
    ensures m.order[t] in m.nodes && m.nodes[m.order[t]].next == LinkOf(m.producers, m.exchanged, m.order, t)
  {
    hide LinkOf, PendingOk, PrivateOk, NoLeak, ValuesOk, ConsumerOk;
  }

  lemma TakePending<T>(m: Memory<T>)
    requires Inv(m) && m.consumer.Loaded? && m.consumer.next in m.nodes
    ensures var m1 := DoTake(m); PendingOk(m1.producers, m1.exchanged, m1.order, |m1.delivered|)
  {
    hide LinksOk, PrivateOk, NoLeak, ValuesOk;
    LinkAt(m, |m.delivered|);
  }

  lemma TakePrivate<T>(m: Memory<T>)
    requires Inv(m) && m.consumer.Loaded? && m.consumer.next in m.nodes
    ensures var m1 := DoTake(m);
            && PrivateOk(m1.nodes, m1.producers, m1.consumer, m1.order, |m1.delivered|)
            && NoLeak(m1.nodes, m1.producers, m1.consumer, m1.order, |m1.delivered|)
  {
    hide LinksOk, PendingOk, ValuesOk, ConsumerOk;
  }

  lemma ReleaseKeeps<T>(m: Memory<T>)
    requires Inv(m)
    ensures Inv(DoRelease(m))
  {
    hide PendingOk, LinkOf, Unlinked;
  }

  lemma StepKeeps<T>(m: Memory<T>, a: Action<T>)
    requires Inv(m)
    ensures Inv(Step(m, a))
  {
    hide Inv, DoPrepare, DoExchange, DoLink, DoLoad, DoTake, DoRelease;
    match a
    case Prepare(p, value, at) => PrepareKeeps(m, p, value, at);
    case ExchangeHead(p) => ExchangeKeeps(m, p);
    case LinkNext(p) => LinkKeeps(m, p);
    case LoadNext => LoadKeeps(m);
    case TakeValue => TakeKeeps(m);
    case ReleaseOld => ReleaseKeeps(m);
  }

  lemma {:induction false} RunKeeps<T>(m: Memory<T>, actions: seq<Action<T>>)
    requires Inv(m)
    ensures Inv(Run(m, actions))
    decreases |actions|
  {
    hide Inv, Step;
    if actions != [] {
      StepKeeps(m, actions[0]);
      RunKeeps(Step(m, actions[0]), actions[1..]);
    }
  }

  // ----- What every run guarantees

  function Values<T>(exchanged: seq<(Producer, T)>): (values: seq<Option<T>>)
    ensures |values| == |exchanged|
  {
    seq(|exchanged|, i requires 0 <= i < |exchanged| => Some(exchanged[i].1))
  }

  /** Under every interleaving the values come out in the order of the exchanges, none lost, none
      repeated, and no step touches a node that is not allocated. */
  lemma FirstInFirstOut<T>(dummy: Address, actions: seq<Action<T>>)
    ensures var m := Run(Initial<T>(dummy), actions);
            !m.faulted && m.delivered <= Values(m.exchanged)
  {
    hide LinksOk, PendingOk, PrivateOk, NoLeak, ConsumerOk, OrderOk, Run;
    InitialInv<T>(dummy);
    RunKeeps(Initial<T>(dummy), actions);
  }

  /** Every node that the next step of a producer or of the consumer reads, writes or frees is allocated. */
  lemma TouchedNodesAreAllocated<T>(dummy: Address, actions: seq<Action<T>>)
    ensures var m := Run(Initial<T>(dummy), actions);
            && m.tail in m.nodes && m.head in m.nodes
            && (m.consumer.Loaded? ==> m.consumer.next in m.nodes)
            && (m.consumer.Releasing? ==> m.consumer.spent in m.nodes)
            && (forall p :: p in m.producers && m.producers[p].Swapped? ==>
                  m.producers[p].prev in m.nodes && m.producers[p].node in m.nodes)
  {
    hide LinksOk, PrivateOk, NoLeak, ValuesOk, Run;
    InitialInv<T>(dummy);
    RunKeeps(Initial<T>(dummy), actions);
  }

  /** A node about to be reclaimed is not the head, so no later exchange can return it, not the tail,
      and neither end of a pending link nor private to a producer. */
  lemma ReclaimedIsUnreachable<T>(dummy: Address, actions: seq<Action<T>>)
    ensures var m := Run(Initial<T>(dummy), actions);
            m.consumer.Releasing? ==>
              && m.consumer.spent in m.nodes && m.consumer.spent != m.head && m.consumer.spent != m.tail
              && (forall p :: p in m.producers ==>
                    && m.producers[p].node != m.consumer.spent
                    && (m.producers[p].Swapped? ==> m.producers[p].prev != m.consumer.spent))
              && (forall a :: a in m.nodes && a != m.consumer.spent && InQueue(m.order, |m.delivered|, a) ==>
                    m.nodes[a].next != Some(m.consumer.spent))
  {
    hide Run;
    InitialInv<T>(dummy);
    RunKeeps(Initial<T>(dummy), actions);
    var m := Run(Initial<T>(dummy), actions);
    if m.consumer.Releasing? {
      SpentIsUnreachable(m);
    }
  }

  lemma SpentIsUnreachable<T>(m: Memory<T>)
    requires Inv(m) && m.consumer.Releasing?
    ensures m.consumer.spent in m.nodes && m.consumer.spent != m.head && m.consumer.spent != m.tail
    ensures forall p :: p in m.producers ==>
              && m.producers[p].node != m.consumer.spent
              && (m.producers[p].Swapped? ==> m.producers[p].prev != m.consumer.spent)
    ensures forall a :: a in m.nodes && InQueue(m.order, |m.delivered|, a) ==> m.nodes[a].next != Some(m.consumer.spent)
  {
    hide NoLeak, ValuesOk;
  }

  /** An idle consumer's dequeue comes back empty exactly when nothing is undelivered or the producer
      of the next value is still between its exchange and its link. */
  lemma EmptyExactlyWhen<T>(dummy: Address, actions: seq<Action<T>>)
    ensures var m := Run(Initial<T>(dummy), actions);
            m.consumer.Idle? ==>
              (DoLoad(m).consumer.Idle? <==>
                || |m.delivered| == |m.exchanged|
                || (exists p :: p in m.producers && m.producers[p].Swapped? && m.producers[p].ticket == |m.delivered|))
  {
    hide Run;
    InitialInv<T>(dummy);
    RunKeeps(Initial<T>(dummy), actions);
    var m := Run(Initial<T>(dummy), actions);
    if m.consumer.Idle? {
      IdleLoad(m);
    }
  }

  lemma IdleLoad<T>(m: Memory<T>)
    requires Inv(m) && m.consumer.Idle?
    ensures DoLoad(m).consumer.Idle? <==>
              || |m.delivered| == |m.exchanged|
              || (exists p :: p in m.producers && m.producers[p].Swapped? && m.producers[p].ticket == |m.delivered|)
  {
    hide LinksOk, PrivateOk, NoLeak, ConsumerOk;
    LinkAt(m, |m.delivered|);
  }

  // ----- The queue without interference: every call runs its steps to the end

  ghost predicate Settled<T>(m: Memory<T>) {
    Inv(m) && m.producers == map[] && m.consumer.Idle?
  }

  /** No link is pending and the consumer is between calls; nodes may still be prepared. */
  ghost predicate Quiet<T>(m: Memory<T>) {
    Inv(m) && m.consumer.Idle? && forall p :: p in m.producers ==> m.producers[p].Prepared?
  }

  lemma RunThree<T>(m: Memory<T>, a: Action<T>, b: Action<T>, c: Action<T>)
    ensures Run(m, [a, b, c]) == Step(Step(Step(m, a), b), c)
  {
    hide Step;
    assert [a, b, c][1..] == [b, c] && [b, c][1..] == [c] && [c][1..] == [];
    assert Run(m, [a, b, c]) == Run(Step(m, a), [b, c]);
    assert Run(Step(m, a), [b, c]) == Run(Step(Step(m, a), b), [c]);
  }

  lemma EnqueueRuns<T>(m: Memory<T>, p: Producer, value: T, at: Address)
    requires Settled(m) && at !in m.nodes
    ensures var m1 := Run(m, [Prepare(p, value, at), ExchangeHead(p), LinkNext(p)]);
            && Settled(m1) && m.head in m.nodes && m.head != at
            && m1 == m.(nodes := m.nodes[at := Node(Some(value), None, p)][m.head := m.nodes[m.head].(next := Some(at))],
                        head := at, exchanged := m.exchanged + [(p, value)], order := m.order + [at])
  {
    hide LinksOk, PendingOk, PrivateOk, NoLeak, ValuesOk, ConsumerOk, Run;
    RunThree(m, Prepare(p, value, at), ExchangeHead(p), LinkNext(p));
    RunKeeps(m, [Prepare(p, value, at), ExchangeHead(p), LinkNext(p)]);
    var m1 := DoPrepare(m, p, value, at);
    var m2 := DoExchange(m1, p);
    assert m.order[|m.order| - 1] == m.head;
    assert m2.nodes[m.head] == m.nodes[m.head];
    assert DoLink(m2, p).producers == map[];
  }

  lemma DequeueRuns<T>(m: Memory<T>)
    requires Quiet(m)
    ensures var m1 := Run(m, [LoadNext, TakeValue, ReleaseOld]);
            && Quiet(m1) && m.tail in m.nodes
            && (m.nodes[m.tail].next == None <==> |m.delivered| == |m.exchanged|)
            && if m.nodes[m.tail].next == None then m1 == m
               else var next := m.nodes[m.tail].next.value;
                 && next in m.nodes && |m.delivered| < |m.exchanged|
                 && m.nodes[next].value == Some(m.exchanged[|m.delivered|].1)
                 && m1 == m.(nodes := m.nodes - {m.tail}, tail := next, delivered := m.delivered + [m.nodes[next].value])
  {
    hide PrivateOk, NoLeak, ConsumerOk, PendingOk, LinksOk, Run;
    RunThree(m, LoadNext, TakeValue, ReleaseOld);
    RunKeeps(m, [LoadNext, TakeValue, ReleaseOld]);
    LinkAt(m, |m.delivered|);
    assert |m.order| == |m.exchanged| + 1;
  }

  class MpscQueue<T> {
    var nodes: map<Address, Node<T>>
    var head: Address
    var tail: Address
    ghost var exchanged: seq<(Producer, T)>
    ghost var delivered: seq<Option<T>>
    ghost var order: seq<Address>

    ghost function State(): Memory<T>
      reads this
    {
      Memory(nodes, head, tail, map[], Idle, exchanged, delivered, order, false)
    }

    ghost predicate Valid()
      reads this
    {
      Settled(State())
    }

    constructor (dummy: Address)
      ensures Valid() && State() == Initial(dummy)
    {
      nodes := map[dummy := Node(None, None, 0)];
      head, tail := dummy, dummy;
      exchanged, delivered, order := [], [], [dummy];
      new;
      InitialInv<T>(dummy);
    }

    /** The address is what the allocator returns; p is the calling producer. */
    method Enqueue(p: Producer, value: T, at: Address)
      requires Valid() && at !in nodes
      modifies this
      ensures Valid() && State() == Run(old(State()), [Prepare(p, value, at), ExchangeHead(p), LinkNext(p)])
      ensures exchanged == old(exchanged) + [(p, value)] && delivered == old(delivered)
    {
      hide Inv, Run;
      EnqueueRuns(State(), p, value, at);
      nodes := nodes[at := Node(Some(value), None, p)];
      var prev := head;
      head := at;
      nodes := nodes[prev := nodes[prev].(next := Some(at))];
      exchanged := exchanged + [(p, value)];
      order := order + [at];
    }

    method Dequeue() returns (r: Option<T>)
      requires Valid()
      modifies this
      ensures Valid() && State() == Run(old(State()), [LoadNext, TakeValue, ReleaseOld])
      ensures exchanged == old(exchanged)
      ensures |old(delivered)| == |exchanged| ==> r == None && delivered == old(delivered)
      ensures |old(delivered)| != |exchanged| ==>
                |old(delivered)| < |exchanged| && r == Some(exchanged[|old(delivered)|].1) && delivered == old(delivered) + [r]
    {
      hide Inv, Run;
      DequeueRuns(State());
      var next := nodes[tail].next;
      if next == None {
        return None;
      }
      var spent := tail;
      r := nodes[next.value].value;
      tail := next.value;
      nodes := nodes - {spent};
      delivered := delivered + [r];
    }

    /** The destructor walks the links from the tail and frees every node exactly once: the addresses it
        frees, one after the other, are all different and are those that were allocated. */
    method Destroy() returns (ghost freed: seq<Address>)
      requires Valid()
      modifies this
      ensures nodes == map[]
      ensures forall i, j :: 0 <= i < j < |freed| ==> freed[i] != freed[j]
      ensures forall a :: a in freed <==> a in old(nodes)
    {
      hide Inv, InQueue;
      freed := [];
      var node := Some(tail);
      ghost var m := State();
      ghost var t: nat := |m.delivered|;
      HeapIsQueue(m);
      while node != None
        invariant |m.delivered| <= t <= |m.order|
        invariant node == if t < |m.order| then Some(m.order[t]) else None
        invariant HeapIs(nodes.Keys, m.order, t)
        invariant forall a :: a in nodes ==> a in m.nodes && nodes[a] == m.nodes[a]
        invariant forall i, j :: 0 <= i < j < |freed| ==> freed[i] != freed[j]
        invariant forall a :: a in m.nodes <==> a in freed || a in nodes
        invariant forall a :: a in freed ==> a !in nodes
        decreases |m.order| - t
      {
        var tmp := node.value;
        SettledLink(m, t);
        FreeFirst(m, nodes.Keys, t);
        node := nodes[tmp].next;
        nodes := nodes - {tmp};
        freed := freed + [tmp];
        t := t + 1;
      }
      NothingLeft(nodes.Keys, m.order);
    }
  }

  /** The allocated addresses are exactly the nodes from t on. */
  ghost predicate HeapIs(keys: set<Address>, order: seq<Address>, t: nat) {
    forall a :: a in keys <==> InQueue(order, t, a)
  }

  /** Once nothing is in flight, the allocated nodes are the queue: nothing has leaked. */
  lemma HeapIsQueue<T>(m: Memory<T>)
    requires Settled(m)
    ensures |m.delivered| < |m.order| && m.order[|m.delivered|] == m.tail
    ensures HeapIs(m.nodes.Keys, m.order, |m.delivered|)
  {
    hide PendingOk, PrivateOk, ValuesOk, ConsumerOk, LinksOk;
  }

  lemma SettledLink<T>(m: Memory<T>, t: nat)
    requires Settled(m) && |m.delivered| <= t < |m.order|
    ensures m.order[t] in m.nodes
    ensures m.nodes[m.order[t]].next == if t == |m.order| - 1 then None else Some(m.order[t + 1])
  {
    hide LinksOk, PendingOk, PrivateOk, NoLeak, ValuesOk, ConsumerOk, OrderOk;
    LinkAt(m, t);
  }

  lemma FreeFirst<T>(m: Memory<T>, keys: set<Address>, t: nat)
    requires Settled(m) && |m.delivered| <= t < |m.order| && HeapIs(keys, m.order, t)
    ensures m.order[t] in keys && HeapIs(keys - {m.order[t]}, m.order, t + 1)
  {
    hide LinksOk, PendingOk, PrivateOk, NoLeak, ValuesOk, ConsumerOk;
    assert InQueue(m.order, t, m.order[t]);
  }

  lemma NothingLeft(keys: set<Address>, order: seq<Address>)
    requires HeapIs(keys, order, |order|)
    ensures keys == {}
  {
    forall a ensures a !in keys {
      assert !InQueue(order, |order|, a);
    }
  }

  /** With no link pending, dequeuing over and over delivers everything that was exchanged. */
  lemma {:induction false} DrainDeliversAll<T>(m: Memory<T>) returns (drain: seq<Action<T>>)
    requires Quiet(m)
    ensures Run(m, drain).delivered == Values(m.exchanged)
    ensures forall a :: a in drain ==> Finishes(a)
    decreases |m.exchanged| - |m.delivered|
  {
    hide PrivateOk, NoLeak, ConsumerOk, PendingOk, LinksOk, OrderOk, Run;
    DequeueRuns(m);
    if |m.delivered| == |m.exchanged| {
      drain := [];
      RunNothing(m);
    } else {
      var one: seq<Action<T>> := [LoadNext, TakeValue, ReleaseOld];
      var rest := DrainDeliversAll(Run(m, one));
      drain := one + rest;
      RunAppend(m, one, rest);
    }
  }

  // ----- Finishing from anywhere

  /** The steps that complete calls under way: no value is prepared or exchanged. */
  predicate Finishes<T>(a: Action<T>) {
    !a.Prepare? && !a.ExchangeHead?
  }

  ghost function Pending<T>(m: Memory<T>): set<Producer> {
    set p | p in m.producers && m.producers[p].Swapped?
  }

  lemma PrevAllocated<T>(m: Memory<T>, p: Producer)
    requires Inv(m) && p in m.producers && m.producers[p].Swapped?
    ensures m.producers[p].prev in m.nodes
  {
    hide Inv, DoLink;
    LinkQueue(m, p);
  }

  lemma PendingShrinks<T>(m: Memory<T>, p: Producer)
    requires Inv(m) && p in Pending(m)
    ensures var m1 := Step(m, LinkNext(p));
            && Inv(m1) && |Pending(m1)| < |Pending(m)| && m1.consumer == m.consumer && m1.exchanged == m.exchanged
  {
    hide Inv;
    StepKeeps(m, LinkNext(p));
    PrevAllocated(m, p);
    var m1 := Step(m, LinkNext(p));
    assert m1.producers == m.producers - {p};
    assert Pending(m) == Pending(m1) + {p} && p !in Pending(m1);
  }

  /** Every pending link can be stored. */
  lemma {:induction false} LinksFinish<T>(m: Memory<T>) returns (links: seq<Action<T>>)
    requires Inv(m)
    ensures var m1 := Run(m, links);
            Inv(m1) && Pending(m1) == {} && m1.consumer == m.consumer && m1.exchanged == m.exchanged
    ensures forall a :: a in links ==> Finishes(a)
    decreases |Pending(m)|
  {
    hide Inv, Run, Step, Pending;
    if Pending(m) == {} {
      links := [];
      RunNothing(m);
    } else {
      var p :| p in Pending(m);
      PendingShrinks(m, p);
      var rest := LinksFinish(Step(m, LinkNext(p)));
      links := [LinkNext(p)] + rest;
      RunAppend(m, [LinkNext(p)], rest);
      RunOne(m, LinkNext(p));
    }
  }

  lemma RunOne<T>(m: Memory<T>, a: Action<T>)
    ensures Run(m, [a]) == Step(m, a)
  {
    hide Step;
    assert [a][1..] == [];
    RunNothing(Step(m, a));
  }

  /** The consumer can finish the call it is in. */
  lemma ConsumerFinishes<T>(m: Memory<T>) returns (steps: seq<Action<T>>)
    requires Inv(m)
    ensures var m1 := Run(m, steps);
            Inv(m1) && m1.consumer.Idle? && m1.producers == m.producers && m1.exchanged == m.exchanged
    ensures forall a :: a in steps ==> Finishes(a)
  {
    hide Inv, Run, Step;
    match m.consumer {
      case Idle =>
        steps := [];
        RunNothing(m);
      case Loaded(_) =>
        steps := [TakeValue] + [ReleaseOld];
        RunAppend(m, [TakeValue], [ReleaseOld]);
        RunOne(m, TakeValue);
        TakeMoves(m);
        StepKeeps(m, TakeValue);
        RunOne(Step(m, TakeValue), ReleaseOld);
        ReleaseMoves(Step(m, TakeValue));
        StepKeeps(Step(m, TakeValue), ReleaseOld);
      case Releasing(_) =>
        steps := [ReleaseOld];
        RunOne(m, ReleaseOld);
        ReleaseMoves(m);
        StepKeeps(m, ReleaseOld);
    }
  }

  lemma TakeMoves<T>(m: Memory<T>)
    requires Inv(m) && m.consumer.Loaded?
    ensures var m1 := Step(m, TakeValue);
            m1.consumer.Releasing? && m1.producers == m.producers && m1.exchanged == m.exchanged
  {
    TakeQueue(m);
    hide Inv;
  }

  lemma ReleaseMoves<T>(m: Memory<T>)
    requires Inv(m) && m.consumer.Releasing?
    ensures var m1 := Step(m, ReleaseOld);
            m1.consumer.Idle? && m1.producers == m.producers && m1.exchanged == m.exchanged
  {
    hide OrderOk, LinksOk, PendingOk, PrivateOk, NoLeak, ValuesOk, InQueue;
  }

  /** From every reachable state, whatever calls are under way, the steps that complete them followed by
      dequeues deliver everything that has been exchanged, without any further exchange. */
  lemma EverythingExchangedIsDelivered<T>(dummy: Address, actions: seq<Action<T>>) returns (finish: seq<Action<T>>)
    ensures forall a :: a in finish ==> Finishes(a)
    ensures Run(Initial<T>(dummy), actions + finish).delivered == Values(Run(Initial<T>(dummy), actions).exchanged)
  {
    hide Inv, Run, Initial, Values;
    InitialInv<T>(dummy);
    RunKeeps(Initial<T>(dummy), actions);
    var m := Run(Initial<T>(dummy), actions);
    var links := LinksFinish(m);
    var m1 := Run(m, links);
    var steps := ConsumerFinishes(m1);
    var m2 := Run(m1, steps);
    NothingPending(m1, m2);
    var drain := DrainDeliversAll(m2);
    finish := (links + steps) + drain;
    RunAppend(m, links, steps);
    RunAppend(m, links + steps, drain);
    RunAppend(Initial<T>(dummy), actions, finish);
  }

  lemma NothingPending<T>(m: Memory<T>, m1: Memory<T>)
    requires Pending(m) == {} && m1.producers == m.producers
    ensures forall p :: p in m1.producers ==> m1.producers[p].Prepared?
  {
    forall p | p in m1.producers ensures m1.producers[p].Prepared? {
      assert p !in Pending(m);
    }
  }

  lemma RunNothing<T>(m: Memory<T>)
    ensures Run(m, []) == m
  {}

  lemma {:induction false} RunAppend<T>(m: Memory<T>, a: seq<Action<T>>, b: seq<Action<T>>)
    ensures Run(m, a + b) == Run(Run(m, a), b)
    decreases |a|
  {
    hide Step;
    if a == [] {
      assert a + b == b;
    } else {
      assert (a + b)[1..] == a[1..] + b;
      RunAppend(Step(m, a[0]), a[1..], b);
    }
  }
}
