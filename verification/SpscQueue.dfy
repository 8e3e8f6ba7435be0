/** The single-producer single-consumer slot queue as atomic steps. The producer loads the read
    position, tests for room, stores the value, raises the slot's flag and publishes the write
    position; the consumer loads the write position, tests the slot, copies the value, lowers the
    flag and publishes the read position. The two sides interleave freely. */
module SpscQueues {
  import opened Basics
  import opened PowersOfTwo

  /** A slot; before its first use it holds no value. */
  datatype Slot<T> = Slot(value: Option<T>, ready: bool)

  /** Where the producer stands inside enqueue; seen is the number of deliveries its load saw. */
  datatype Enqueuing<T> =
    | Resting
    | Checking(value: T, loaded: nat, seen: nat)
    | Storing(value: T)
    | Flagging(value: T)
    | Publishing(value: T)

  /** Where the consumer stands inside dequeue; seen is the number of values its load saw. */
  datatype Dequeuing<T> =
    | Waiting
    | Testing(loaded: nat, seen: nat)
    | Reading
    | Clearing(value: T)
    | Retiring(value: T)

  datatype Ring<T> = Ring(
    slots: seq<Slot<T>>,
    writePos: nat,
    readPos: nat,
    producer: Enqueuing<T>,
    consumer: Dequeuing<T>,
    accepted: seq<T>,    // history: the values enqueued
    delivered: seq<T>,   // history: the values dequeued
    refused: seq<nat>,   // history: how many values were queued at the load before each refusal
    starved: bool)       // whether a dequeue ever met a published slot whose flag was down

  datatype Action<T> =
    | BeginEnqueue(value: T) | CheckRoom | StoreValue | RaiseFlag | PublishWrite
    | BeginDequeue | TestSlot | ReadValue | LowerFlag | PublishRead

  /** The constructor throws unless the capacity is a power of two. */
  function Create<T>(capacity: nat): (r: Option<Ring<T>>)
    ensures r.Some? <==> capacity > 0 && IsPowerOfTwo(capacity)
  {
    if capacity == 0 then None
    else
      MaskTest(capacity);
      if And(capacity, capacity - 1) != 0 then None
      else Some(Ring(seq(capacity, i => Slot(None, false)), 0, 0, Resting, Waiting, [], [], [], false))
  }

  function Next<T>(r: Ring<T>, pos: nat): nat {
    if |r.slots| == 0 then 0 else And(pos + 1, |r.slots| - 1)
  }

  // ----- The atomic steps; an action that is not enabled changes nothing

  function DoCheck<T>(r: Ring<T>): Ring<T> {
    if !r.producer.Checking? then r
    else if Next(r, r.writePos) == r.producer.loaded then
      r.(producer := Resting, refused := r.refused + [if r.producer.seen <= |r.accepted| then |r.accepted| - r.producer.seen else 0])
    else r.(producer := Storing(r.producer.value))
  }

  function DoStore<T>(r: Ring<T>): Ring<T> {
    if !r.producer.Storing? || r.writePos >= |r.slots| then r
    else r.(slots := r.slots[r.writePos := r.slots[r.writePos].(value := Some(r.producer.value))],
            producer := Flagging(r.producer.value))
  }

  function DoRaise<T>(r: Ring<T>): Ring<T> {
    if !r.producer.Flagging? || r.writePos >= |r.slots| then r
    else r.(slots := r.slots[r.writePos := r.slots[r.writePos].(ready := true)],
            producer := Publishing(r.producer.value))
  }

  function DoPublishWrite<T>(r: Ring<T>): Ring<T> {
    if !r.producer.Publishing? then r
    else r.(writePos := Next(r, r.writePos), producer := Resting, accepted := r.accepted + [r.producer.value])
  }

  function DoTest<T>(r: Ring<T>): Ring<T> {
    if !r.consumer.Testing? || r.readPos >= |r.slots| then r
    else if r.readPos == r.consumer.loaded then r.(consumer := Waiting)
    else if !r.slots[r.readPos].ready then r.(consumer := Waiting, starved := true)
    else r.(consumer := Reading)
  }

  function DoRead<T>(r: Ring<T>): Ring<T> {
    if !r.consumer.Reading? || r.readPos >= |r.slots| || r.slots[r.readPos].value.None? then r
    else r.(consumer := Clearing(r.slots[r.readPos].value.value))
  }

  function DoLower<T>(r: Ring<T>): Ring<T> {
    if !r.consumer.Clearing? || r.readPos >= |r.slots| then r
    else r.(slots := r.slots[r.readPos := r.slots[r.readPos].(ready := false)], consumer := Retiring(r.consumer.value))
  }

  function DoPublishRead<T>(r: Ring<T>): Ring<T> {
    if !r.consumer.Retiring? then r
    else r.(readPos := Next(r, r.readPos), consumer := Waiting, delivered := r.delivered + [r.consumer.value])
  }

  function Step<T>(r: Ring<T>, a: Action<T>): Ring<T> {
    match a
    case BeginEnqueue(v) => if r.producer.Resting? then r.(producer := Checking(v, r.readPos, |r.delivered|)) else r
    case CheckRoom => DoCheck(r)
    case StoreValue => DoStore(r)
    case RaiseFlag => DoRaise(r)
    case PublishWrite => DoPublishWrite(r)
    case BeginDequeue => if r.consumer.Waiting? then r.(consumer := Testing(r.writePos, |r.accepted|)) else r
    case TestSlot => DoTest(r)
    case ReadValue => DoRead(r)
    case LowerFlag => DoLower(r)
    case PublishRead => DoPublishRead(r)
  }

  function Run<T>(r: Ring<T>, actions: seq<Action<T>>): Ring<T>
    decreases |actions|
  {
    if actions == [] then r else Run(Step(r, actions[0]), actions[1..])
  }

  // ----- Invariant, for w values accepted, d delivered and capacity c

  ghost predicate PositionsOk(c: nat, writePos: nat, readPos: nat, w: nat, d: nat) {
    c > 0 && IsPowerOfTwo(c) && writePos == Place(w, c) && readPos == Place(d, c) && d <= w < d + c
  }

  /** The queued slots hold the values accepted and not delivered. */
  ghost predicate FilledOk<T>(slots: seq<Slot<T>>, accepted: seq<T>, d: nat) {
    |slots| > 0 && forall t: nat :: d <= t < |accepted| ==> slots[Place(t, |slots|)].value == Some(accepted[t])
  }

  /** A flag is up from the producer's raise to the consumer's lowering and at no other time. */
  ghost predicate FlagsOk<T>(slots: seq<Slot<T>>, producer: Enqueuing<T>, consumer: Dequeuing<T>, w: nat, d: nat) {
    |slots| > 0 && forall t: nat :: d <= t < d + |slots| ==>
      (slots[Place(t, |slots|)].ready <==> (t < w || (t == w && producer.Publishing?)) && !(t == d && consumer.Retiring?))
  }

  ghost predicate ProducerOk<T>(slots: seq<Slot<T>>, producer: Enqueuing<T>, w: nat, d: nat) {
    |slots| > 0 &&
    match producer
    case Resting => true
    case Checking(_, loaded, seen) => seen <= d && loaded == Place(seen, |slots|) && seen <= w < seen + |slots|
    case Storing(_) => w + 1 < d + |slots|
    case Flagging(v) => w + 1 < d + |slots| && slots[Place(w, |slots|)].value == Some(v)
    case Publishing(v) => w + 1 < d + |slots| && slots[Place(w, |slots|)].value == Some(v)
  }

  ghost predicate ConsumerOk<T>(c: nat, consumer: Dequeuing<T>, accepted: seq<T>, d: nat) {
    c > 0 &&
    match consumer
    case Waiting => true
    case Testing(loaded, seen) => d <= seen <= |accepted| && loaded == Place(seen, c)
    case Reading => d < |accepted|
    case Clearing(v) => d < |accepted| && v == accepted[d]
    case Retiring(v) => d < |accepted| && v == accepted[d]
  }

  ghost predicate Inv<T>(r: Ring<T>) {
    var d := |r.delivered|;
    && !r.starved && r.delivered <= r.accepted
    && PositionsOk(|r.slots|, r.writePos, r.readPos, |r.accepted|, d)
    && FilledOk(r.slots, r.accepted, d)
    && FlagsOk(r.slots, r.producer, r.consumer, |r.accepted|, d)
    && ProducerOk(r.slots, r.producer, |r.accepted|, d)
    && ConsumerOk(|r.slots|, r.consumer, r.accepted, d)
    && (forall i :: 0 <= i < |r.refused| ==> r.refused[i] == |r.slots| - 1)
  }

  // ----- Every step keeps the invariant

  lemma CreateInv<T>(capacity: nat)
    requires capacity > 0 && IsPowerOfTwo(capacity)
    ensures Inv(Create<T>(capacity).value)
  {
    MaskTest(capacity);
  }

  lemma CheckKeeps<T>(r: Ring<T>)
    requires Inv(r)
    ensures Inv(DoCheck(r))
  {
    hide FilledOk, FlagsOk, ConsumerOk, Place, And, IsPowerOfTwo;
    if r.producer.Checking? {
      var w, c := |r.accepted|, |r.slots|;
      PlaceNext(w, c);
      PlacesDiffer(r.producer.seen + 1, w + 1, c);
      PlacesDiffer(r.producer.seen, r.producer.seen, c);
      SamePlace(r.producer.seen, c);
      FlagsIgnore(r.slots, r.producer, Resting, r.consumer, |r.accepted|, |r.delivered|);
      FlagsIgnore(r.slots, r.producer, Storing(r.producer.value), r.consumer, |r.accepted|, |r.delivered|);
    }
  }

  /** Flags speak of the producer only when it is publishing. */
  lemma FlagsIgnore<T>(slots: seq<Slot<T>>, p: Enqueuing<T>, q: Enqueuing<T>, consumer: Dequeuing<T>, w: nat, d: nat)
    requires FlagsOk(slots, p, consumer, w, d) && !p.Publishing? && !q.Publishing?
    ensures FlagsOk(slots, q, consumer, w, d)
  {}

  lemma StoreKeeps<T>(r: Ring<T>)
    requires Inv(r)
    ensures Inv(DoStore(r))
  {
    hide Place, And, IsPowerOfTwo;
    if r.producer.Storing? {
      PlacesDiffer(|r.delivered|, |r.accepted|, |r.slots|);
    }
  }

  lemma RaiseKeeps<T>(r: Ring<T>)
    requires Inv(r)
    ensures Inv(DoRaise(r))
  {
    hide Place, And, IsPowerOfTwo;
    if r.producer.Flagging? {
      PlacesDiffer(|r.delivered|, |r.accepted|, |r.slots|);
    }
  }

  lemma PublishWriteKeeps<T>(r: Ring<T>)
    requires Inv(r)
    ensures Inv(DoPublishWrite(r))
  {
    hide Place, And, IsPowerOfTwo;
    if r.producer.Publishing? {
      PlaceNext(|r.accepted|, |r.slots|);
    }
  }

  lemma TestKeeps<T>(r: Ring<T>)
    requires Inv(r)
    ensures Inv(DoTest(r))
  {
    hide FilledOk, Place, And, IsPowerOfTwo;
    if r.consumer.Testing? {
      assert r.slots[Place(|r.delivered|, |r.slots|)].ready <== |r.delivered| < |r.accepted|;
    }
  }

  lemma ReadKeeps<T>(r: Ring<T>)
    requires Inv(r)
    ensures Inv(DoRead(r))
  {
    hide Place, And, IsPowerOfTwo;
  }

  lemma LowerKeeps<T>(r: Ring<T>)
    requires Inv(r)
    ensures Inv(DoLower(r))
  {
    hide Place, And, IsPowerOfTwo;
    if r.consumer.Clearing? {
      PlacesDiffer(|r.delivered|, |r.delivered|, |r.slots|);
    }
  }

  lemma PublishReadKeeps<T>(r: Ring<T>)
    requires Inv(r)
    ensures Inv(DoPublishRead(r))
  {
    hide Place, And, IsPowerOfTwo;
    if r.consumer.Retiring? {
      PlaceNext(|r.delivered|, |r.slots|);
      SamePlace(|r.delivered|, |r.slots|);
    }
  }

  lemma BeginKeeps<T>(r: Ring<T>, a: Action<T>)
    requires Inv(r) && (a.BeginEnqueue? || a.BeginDequeue?)
    ensures Inv(Step(r, a))
  {
    hide FilledOk, Place, And, IsPowerOfTwo;
  }

  lemma StepKeeps<T>(r: Ring<T>, a: Action<T>)
    requires Inv(r)
    ensures Inv(Step(r, a))
  {
    hide Inv, DoCheck, DoStore, DoRaise, DoPublishWrite, DoTest, DoRead, DoLower, DoPublishRead;
    match a
    case BeginEnqueue(v) => BeginKeeps(r, a);
    case CheckRoom => CheckKeeps(r);
    case StoreValue => StoreKeeps(r);
    case RaiseFlag => RaiseKeeps(r);
    case PublishWrite => PublishWriteKeeps(r);
    case BeginDequeue => BeginKeeps(r, a);
    case TestSlot => TestKeeps(r);
    case ReadValue => ReadKeeps(r);
    case LowerFlag => LowerKeeps(r);
    case PublishRead => PublishReadKeeps(r);
  }

  lemma {:induction false} RunKeeps<T>(r: Ring<T>, actions: seq<Action<T>>)
    requires Inv(r)
    ensures Inv(Run(r, actions)) && |Run(r, actions).slots| == |r.slots|
    decreases |actions|
  {
    hide Inv, Step;
    if actions != [] {
      StepKeeps(r, actions[0]);
      StepSize(r, actions[0]);
      RunKeeps(Step(r, actions[0]), actions[1..]);
    }
  }

  lemma StepSize<T>(r: Ring<T>, a: Action<T>)
    ensures |Step(r, a).slots| == |r.slots|
  {
    hide Next;
  }

  // ----- What every run guarantees

  /** Under every interleaving: values come out in the order they went in, at most capacity - 1 are
      queued, a refused enqueue saw exactly that many, and a published slot is never found unready. */
  lemma FirstInFirstOut<T>(capacity: nat, actions: seq<Action<T>>)
    requires Create<T>(capacity).Some?
    ensures var r := Run(Create<T>(capacity).value, actions);
            && r.delivered <= r.accepted
            && |r.accepted| - |r.delivered| <= capacity - 1
            && !r.starved
            && forall i :: 0 <= i < |r.refused| ==> r.refused[i] == capacity - 1
  {
    hide FilledOk, FlagsOk, ProducerOk, ConsumerOk, Run, IsPowerOfTwo, And;
    CreateInv<T>(capacity);
    RunKeeps(Create<T>(capacity).value, actions);
  }

  ghost predicate Writes<T>(r: Ring<T>) {
    r.producer.Storing? || r.producer.Flagging?
  }

  ghost predicate Uses<T>(r: Ring<T>) {
    r.consumer.Reading? || r.consumer.Clearing?
  }

  /** The slot a producer is storing into is never the slot the consumer is working on. */
  lemma SidesDoNotShareASlot<T>(capacity: nat, actions: seq<Action<T>>)
    requires Create<T>(capacity).Some?
    ensures var r := Run(Create<T>(capacity).value, actions);
            Writes(r) && Uses(r) ==> r.writePos != r.readPos
  {
    hide FilledOk, FlagsOk, Run, IsPowerOfTwo, And, Place;
    CreateInv<T>(capacity);
    var r := Run(Create<T>(capacity).value, actions);
    RunKeeps(Create<T>(capacity).value, actions);
    PlacesDiffer(|r.delivered|, |r.accepted|, |r.slots|);
  }

  // ----- The queue without interference

  function EnqueueSteps<T>(value: T): seq<Action<T>> {
    [BeginEnqueue(value), CheckRoom, StoreValue, RaiseFlag, PublishWrite]
  }

  function DequeueSteps<T>(): seq<Action<T>> {
    [BeginDequeue, TestSlot, ReadValue, LowerFlag, PublishRead]
  }

  /** In every reachable state the producer refuses exactly when capacity - 1 values were queued as it saw the
      consumer's position, and the consumer answers empty exactly when nothing was queued as it saw the
      producer's; a slot it reads is ready, so the second test for it never sends it away. */
  lemma AnswersAreExact<T>(capacity: nat, actions: seq<Action<T>>)
    requires Create<T>(capacity).Some?
    ensures var r := Run(Create<T>(capacity).value, actions);
            && (r.producer.Checking? ==>
                  && r.producer.seen <= |r.delivered|
                  && (Step(r, CheckRoom).producer.Resting? <==> |r.accepted| - r.producer.seen == capacity - 1))
            && (r.consumer.Testing? ==>
                  && |r.delivered| <= r.consumer.seen <= |r.accepted|
                  && (Step(r, TestSlot).consumer.Waiting? <==> |r.delivered| == r.consumer.seen)
                  && (|r.delivered| < r.consumer.seen ==> r.readPos < |r.slots| && r.slots[r.readPos].ready))
  {
    hide Run, IsPowerOfTwo, And;
    CreateInv<T>(capacity);
    var r := Run(Create<T>(capacity).value, actions);
    RunKeeps(Create<T>(capacity).value, actions);
    if r.producer.Checking? { CheckIsExact(r); }
    if r.consumer.Testing? { TestIsExact(r); }
  }

  lemma CheckIsExact<T>(r: Ring<T>)
    requires Inv(r) && r.producer.Checking?
    ensures r.producer.seen <= |r.delivered|
    ensures Step(r, CheckRoom).producer.Resting? <==> |r.accepted| - r.producer.seen == |r.slots| - 1
  {
    hide FilledOk, FlagsOk, ConsumerOk, Place, And, IsPowerOfTwo;
    var w, c := |r.accepted|, |r.slots|;
    PlaceNext(w, c);
    PlacesDiffer(r.producer.seen + 1, w + 1, c);
    SamePlace(r.producer.seen, c);
  }

  lemma TestIsExact<T>(r: Ring<T>)
    requires Inv(r) && r.consumer.Testing?
    ensures |r.delivered| <= r.consumer.seen <= |r.accepted|
    ensures Step(r, TestSlot).consumer.Waiting? <==> |r.delivered| == r.consumer.seen
    ensures |r.delivered| < r.consumer.seen ==> r.readPos < |r.slots| && r.slots[r.readPos].ready
  {
    hide FilledOk, ProducerOk, Place, And, IsPowerOfTwo;
    var d, c := |r.delivered|, |r.slots|;
    PlacesDiffer(d, d, c);
    assert d < r.consumer.seen ==> r.slots[Place(d, c)].ready;
  }

  lemma RunMore<T>(r: Ring<T>, a: Action<T>, rest: seq<Action<T>>)
    ensures Run(r, [a] + rest) == Run(Step(r, a), rest)
  {
    assert ([a] + rest)[1..] == rest;
  }

  lemma RunFive<T>(r: Ring<T>, a: Action<T>, b: Action<T>, c: Action<T>, d: Action<T>, e: Action<T>)
    ensures Run(r, [a, b, c, d, e]) == Step(Step(Step(Step(Step(r, a), b), c), d), e)
  {
    hide Step;
    RunMore(r, a, [b, c, d, e]);
    RunMore(Step(r, a), b, [c, d, e]);
    RunMore(Step(Step(r, a), b), c, [d, e]);
    RunMore(Step(Step(Step(r, a), b), c), d, [e]);
    assert [e][1..] == [];
    assert [a, b, c, d, e] == [a] + [b, c, d, e] && [b, c, d, e] == [b] + [c, d, e];
    assert [c, d, e] == [c] + [d, e] && [d, e] == [d] + [e];
  }

  ghost predicate Settled<T>(r: Ring<T>) {
    Inv(r) && r.producer.Resting? && r.consumer.Waiting?
  }

  /** The masked test for a full ring is exact. */
  lemma FullTest<T>(r: Ring<T>)
    requires Inv(r)
    ensures r.writePos < |r.slots|
    ensures Next(r, r.writePos) == r.readPos <==> |r.accepted| - |r.delivered| == |r.slots| - 1
    ensures |r.accepted| - |r.delivered| <= |r.slots| - 1 && r.delivered <= r.accepted
  {
    hide FilledOk, FlagsOk, ProducerOk, ConsumerOk, IsPowerOfTwo, And, Place;
    var w, d, c := |r.accepted|, |r.delivered|, |r.slots|;
    PlaceNext(w, c);
    PlacesDiffer(d + 1, w + 1, c);
    SamePlace(d, c);
  }

  lemma EnqueueTrace<T>(r: Ring<T>, value: T)
    requires r.producer.Resting? && r.writePos < |r.slots| && r.delivered <= r.accepted
    ensures Step(Step(Step(Step(Step(r, BeginEnqueue(value)), CheckRoom), StoreValue), RaiseFlag), PublishWrite) ==
              if Next(r, r.writePos) == r.readPos
              then r.(refused := r.refused + [|r.accepted| - |r.delivered|])
              else r.(slots := r.slots[r.writePos := Slot(Some(value), true)], writePos := Next(r, r.writePos),
                      accepted := r.accepted + [value])
  {
    hide And;
    var r1 := Step(r, BeginEnqueue(value));
    var r2 := DoCheck(r1);
    var r3 := DoStore(r2);
    if Next(r, r.writePos) != r.readPos {
      var r4 := DoRaise(r3);
      assert r4.slots == r.slots[r.writePos := Slot(Some(value), true)];
    }
  }

  lemma EnqueueRuns<T>(r: Ring<T>, value: T)
    requires Settled(r)
    ensures var r1 := Run(r, EnqueueSteps(value));
            && Settled(r1) && r.writePos < |r.slots| && r.delivered == r1.delivered
            && |r.accepted| - |r.delivered| <= |r.slots| - 1
            && (Next(r, r.writePos) == r.readPos <==> |r.accepted| - |r.delivered| == |r.slots| - 1)
            && if Next(r, r.writePos) == r.readPos
               then r1 == r.(refused := r.refused + [|r.accepted| - |r.delivered|])
               else r1 == r.(slots := r.slots[r.writePos := Slot(Some(value), true)], writePos := Next(r, r.writePos),
                             accepted := r.accepted + [value])
  {
    hide Inv, Run, Step, Next;
    FullTest(r);
    EnqueueTrace(r, value);
    RunFive(r, BeginEnqueue(value), CheckRoom, StoreValue, RaiseFlag, PublishWrite);
    RunKeeps(r, EnqueueSteps(value));
  }

  /** The test for an empty ring is exact, and the slot in front is ready. */
  lemma EmptyTest<T>(r: Ring<T>)
    requires Settled(r)
    ensures r.readPos < |r.slots| && |r.delivered| <= |r.accepted|
    ensures r.readPos == r.writePos <==> |r.accepted| == |r.delivered|
    ensures |r.delivered| < |r.accepted| ==> r.slots[r.readPos] == Slot(Some(r.accepted[|r.delivered|]), true)
  {
    hide IsPowerOfTwo, And, Place;
    PlacesDiffer(|r.delivered|, |r.accepted|, |r.slots|);
  }

  lemma DequeueTrace<T>(r: Ring<T>)
    requires r.consumer.Waiting? && r.readPos < |r.slots|
    requires r.readPos != r.writePos ==> r.slots[r.readPos].ready && r.slots[r.readPos].value.Some?
    ensures Step(Step(Step(Step(Step(r, BeginDequeue), TestSlot), ReadValue), LowerFlag), PublishRead) ==
              if r.readPos == r.writePos then r
              else r.(slots := r.slots[r.readPos := r.slots[r.readPos].(ready := false)],
                      readPos := Next(r, r.readPos), delivered := r.delivered + [r.slots[r.readPos].value.value])
  {
    hide And;
    var r1 := Step(r, BeginDequeue);
    var r2 := DoTest(r1);
    var r3 := DoRead(r2);
    var r4 := DoLower(r3);
  }

  lemma DequeueRuns<T>(r: Ring<T>)
    requires Settled(r)
    ensures var r1 := Run(r, DequeueSteps());
            && Settled(r1) && r.readPos < |r.slots| && r1.accepted == r.accepted && |r.delivered| <= |r.accepted|
            && (r.readPos == r.writePos <==> |r.accepted| == |r.delivered|)
            && if r.readPos == r.writePos then r1 == r
               else
                 && r.slots[r.readPos] == Slot(Some(r.accepted[|r.delivered|]), true)
                 && r1 == r.(slots := r.slots[r.readPos := r.slots[r.readPos].(ready := false)],
                             readPos := Next(r, r.readPos), delivered := r.delivered + [r.accepted[|r.delivered|]])
  {
    hide Inv, Run, Step, Next;
    EmptyTest(r);
    DequeueTrace(r);
    RunFive<T>(r, BeginDequeue, TestSlot, ReadValue, LowerFlag, PublishRead);
    RunKeeps<T>(r, DequeueSteps());
  }

  class SpscQueue<T(0)> {
    const buffer: array<Slot<T>>
    const capacity: nat
    var writePos: nat
    var readPos: nat
    ghost var accepted: seq<T>
    ghost var delivered: seq<T>
    ghost var refused: seq<nat>

    ghost function State(): Ring<T>
      reads this, buffer
    {
      Ring(buffer[..], writePos, readPos, Resting, Waiting, accepted, delivered, refused, false)
    }

    ghost predicate Valid()
      reads this, buffer
    {
      buffer.Length == capacity && Settled(State())
    }

    constructor (size: nat)
      requires Create<T>(size).Some?
      ensures Valid() && fresh(buffer) && State() == Create<T>(size).value
    {
      CreateInv<T>(size);
      capacity := size;
      buffer := new Slot<T>[size](_ => Slot(None, false));
      writePos, readPos := 0, 0;
      accepted, delivered, refused := [], [], [];
      new;
      assert State().slots == Create<T>(size).value.slots;
    }

    method Enqueue(value: T) returns (ok: bool)
      requires Valid()
      modifies this, buffer
      ensures Valid() && State() == Run(old(State()), EnqueueSteps(value))
      ensures ok <==> |old(accepted)| - |old(delivered)| < capacity - 1
      ensures accepted == (if ok then old(accepted) + [value] else old(accepted)) && delivered == old(delivered)
    {
      hide Inv, Run, And;
      EnqueueRuns(State(), value);
      var next := And(writePos + 1, capacity - 1);
      if next == readPos {
        refused := refused + [|accepted| - |delivered|];
        return false;
      }
      buffer[writePos] := Slot(Some(value), buffer[writePos].ready);
      buffer[writePos] := buffer[writePos].(ready := true);
      writePos := next;
      accepted := accepted + [value];
      assert buffer[..] == old(buffer[..])[old(writePos) := Slot(Some(value), true)];
      return true;
    }

    method Dequeue() returns (value: Option<T>)
      requires Valid()
      modifies this, buffer
      ensures Valid() && State() == Run(old(State()), DequeueSteps())
      ensures accepted == old(accepted)
      ensures |old(delivered)| == |accepted| ==> value == None && delivered == old(delivered)
      ensures |old(delivered)| != |accepted| ==>
                |old(delivered)| < |accepted| && value == Some(accepted[|old(delivered)|])
                && delivered == old(delivered) + [value.value]
    {
      hide Inv, Run, And;
      DequeueRuns(State());
      if readPos == writePos {
        return None;
      }
      if !buffer[readPos].ready {
        return None;
      }
      value := buffer[readPos].value;
      buffer[readPos] := buffer[readPos].(ready := false);
      readPos := And(readPos + 1, capacity - 1);
      delivered := delivered + [value.value];
    }
  }
}
