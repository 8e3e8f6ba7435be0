/** The single-producer single-consumer byte ring. A write loads the other side's index once, copies
    byte by byte and then publishes its own; a read does the same. Bytes move one at a time, so the
    two copies interleave freely. Indices count all bytes ever and are masked on access. */
module ByteRings {
  import opened Basics
  import opened PowersOfTwo

  datatype Writer = WriterIdle | Writing(data: seq<Byte>, done: nat)
  datatype Reader = ReaderIdle | Reading(count: nat, out: seq<Byte>)

  datatype Ring = Ring(
    cells: seq<Byte>,
    head: nat,            // published by the writer
    tail: nat,            // published by the reader
    writer: Writer,
    reader: Reader,
    written: seq<Byte>,   // history: the bytes published
    consumed: seq<Byte>)  // history: the bytes handed out

  datatype Action =
    | BeginWrite(data: seq<Byte>) | PutByte | PublishHead
    | BeginRead(limit: nat) | GetByte | PublishTail

  function Fill(head: nat, tail: nat): nat {
    if head >= tail then head - tail else 0
  }

  /** What an index loaded at this moment allows. */
  function Room(r: Ring): nat {
    if Fill(r.head, r.tail) <= |r.cells| then |r.cells| - Fill(r.head, r.tail) else 0
  }

  // ----- The atomic steps; an action that is not enabled changes nothing

  function DoBeginWrite(r: Ring, data: seq<Byte>): Ring {
    if !r.writer.WriterIdle? || Min(|data|, Room(r)) == 0 then r
    else r.(writer := Writing(data[..Min(|data|, Room(r))], 0))
  }

  function DoPut(r: Ring): Ring {
    if !r.writer.Writing? || r.writer.done >= |r.writer.data| || |r.cells| == 0 then r
    else
      r.(cells := r.cells[Place(r.head + r.writer.done, |r.cells|) := r.writer.data[r.writer.done]],
         writer := r.writer.(done := r.writer.done + 1))
  }

  function DoPublishHead(r: Ring): Ring {
    if !r.writer.Writing? || r.writer.done < |r.writer.data| then r
    else r.(head := r.head + |r.writer.data|, writer := WriterIdle, written := r.written + r.writer.data)
  }

  function DoBeginRead(r: Ring, limit: nat): Ring {
    if !r.reader.ReaderIdle? || Min(limit, Fill(r.head, r.tail)) == 0 then r
    else r.(reader := Reading(Min(limit, Fill(r.head, r.tail)), []))
  }

  function DoGet(r: Ring): Ring {
    if !r.reader.Reading? || |r.reader.out| >= r.reader.count || |r.cells| == 0 then r
    else r.(reader := r.reader.(out := r.reader.out + [r.cells[Place(r.tail + |r.reader.out|, |r.cells|)]]))
  }

  function DoPublishTail(r: Ring): Ring {
    if !r.reader.Reading? || |r.reader.out| < r.reader.count then r
    else r.(tail := r.tail + r.reader.count, reader := ReaderIdle, consumed := r.consumed + r.reader.out)
  }

  function Step(r: Ring, a: Action): Ring {
    match a
    case BeginWrite(data) => DoBeginWrite(r, data)
    case PutByte => DoPut(r)
    case PublishHead => DoPublishHead(r)
    case BeginRead(limit) => DoBeginRead(r, limit)
    case GetByte => DoGet(r)
    case PublishTail => DoPublishTail(r)
  }

  function Run(r: Ring, actions: seq<Action>): Ring
    decreases |actions|
  {
    if actions == [] then r else Run(Step(r, actions[0]), actions[1..])
  }

  function Empty(cells: seq<Byte>): Ring {
    Ring(cells, 0, 0, WriterIdle, ReaderIdle, [], [])
  }

  // ----- Invariant

  ghost predicate CountsOk(c: nat, head: nat, tail: nat, written: seq<Byte>, consumed: seq<Byte>) {
    c > 0 && head == |written| && tail == |consumed| && consumed <= written && head <= tail + c
  }

  /** The cells between the indices hold the bytes written and not yet consumed. */
  ghost predicate CellsOk(cells: seq<Byte>, tail: nat, written: seq<Byte>) {
    |cells| > 0 && forall t: nat :: tail <= t < |written| ==> cells[Place(t, |cells|)] == written[t]
  }

  /** A write fits in what is free, and what it has copied lies beyond the head. */
  ghost predicate WriterOk(cells: seq<Byte>, head: nat, tail: nat, writer: Writer) {
    writer.Writing? ==>
      && |cells| > 0 && writer.done <= |writer.data| && head + |writer.data| <= tail + |cells|
      && forall t: nat :: head <= t < head + writer.done ==> cells[Place(t, |cells|)] == writer.data[t - head]
  }

  /** A read stays within what is published, and what it has copied is the stream. */
  ghost predicate ReaderOk(tail: nat, reader: Reader, written: seq<Byte>) {
    reader.Reading? ==>
      |reader.out| <= reader.count && tail + reader.count <= |written| && reader.out == written[tail..tail + |reader.out|]
  }

  ghost predicate Inv(r: Ring) {
    && CountsOk(|r.cells|, r.head, r.tail, r.written, r.consumed)
    && CellsOk(r.cells, r.tail, r.written)
    && WriterOk(r.cells, r.head, r.tail, r.writer)
    && ReaderOk(r.tail, r.reader, r.written)
  }

  // ----- Every step keeps the invariant

  lemma PutKeeps(r: Ring)
    requires Inv(r)
    ensures Inv(DoPut(r))
  {
    hide Place;
    if r.writer.Writing? && r.writer.done < |r.writer.data| {
      PlacesDiffer(r.tail, r.head + r.writer.done, |r.cells|);
    }
  }

  lemma PublishHeadKeeps(r: Ring)
    requires Inv(r)
    ensures Inv(DoPublishHead(r))
  {
    hide Place;
    if r.writer.Writing? && r.writer.done == |r.writer.data| && r.reader.Reading? {
      assert (r.written + r.writer.data)[r.tail..r.tail + |r.reader.out|] == r.written[r.tail..r.tail + |r.reader.out|];
    }
  }

  lemma GetKeeps(r: Ring)
    requires Inv(r)
    ensures Inv(DoGet(r))
  {
    hide Place, WriterOk;
    if r.reader.Reading? && |r.reader.out| < r.reader.count {
      var n := |r.reader.out|;
      assert r.written[r.tail..r.tail + n] + [r.written[r.tail + n]] == r.written[r.tail..r.tail + n + 1];
    }
  }

  lemma PublishTailKeeps(r: Ring)
    requires Inv(r)
    ensures Inv(DoPublishTail(r))
  {
    hide Place;
    if r.reader.Reading? && |r.reader.out| == r.reader.count {
      assert r.consumed == r.written[..r.tail];
      assert r.written[..r.tail] + r.written[r.tail..r.tail + r.reader.count] == r.written[..r.tail + r.reader.count];
    }
  }

  lemma StepKeeps(r: Ring, a: Action)
    requires Inv(r)
    ensures Inv(Step(r, a)) && |Step(r, a).cells| == |r.cells|
  {
    hide Place;
    match a
    case BeginWrite(data) =>
    case PutByte => PutKeeps(r);
    case PublishHead => PublishHeadKeeps(r);
    case BeginRead(limit) =>
    case GetByte => GetKeeps(r);
    case PublishTail => PublishTailKeeps(r);
  }

  lemma {:induction false} RunKeeps(r: Ring, actions: seq<Action>)
    requires Inv(r)
    ensures Inv(Run(r, actions)) && |Run(r, actions).cells| == |r.cells|
    decreases |actions|
  {
    hide Inv, Step;
    if actions != [] {
      StepKeeps(r, actions[0]);
      RunKeeps(Step(r, actions[0]), actions[1..]);
    }
  }

  // ----- What every run guarantees

  /** Under every interleaving of byte copies the bytes read are a prefix of the bytes written and the
      ring never holds more than its capacity. */
  lemma FirstInFirstOut(cells: seq<Byte>, actions: seq<Action>)
    requires |cells| > 0
    ensures var r := Run(Empty(cells), actions);
            && r.consumed <= r.written && r.head == |r.written| && r.tail == |r.consumed|
            && 0 <= r.head - r.tail <= |cells|
  {
    hide Run, CellsOk, WriterOk, ReaderOk;
    assert Inv(Empty(cells)) by { EmptyInv(cells); }
    RunKeeps(Empty(cells), actions);
  }

  lemma EmptyInv(cells: seq<Byte>)
    requires |cells| > 0
    ensures Inv(Empty(cells))
  {}

  /** The index a side loaded may be stale, but it only under-reports: what a write took still fits and
      what a read took is still published, whatever the other side has done since. */
  lemma StaleIndexUnderReports(cells: seq<Byte>, actions: seq<Action>)
    requires |cells| > 0
    ensures var r := Run(Empty(cells), actions);
            && (r.writer.Writing? ==> |r.writer.data| <= |cells| - (|r.written| - |r.consumed|))
            && (r.reader.Reading? ==> r.reader.count <= |r.written| - |r.consumed|)
  {
    hide Run, CellsOk, Place;
    assert Inv(Empty(cells)) by { EmptyInv(cells); }
    RunKeeps(Empty(cells), actions);
  }

  lemma RoomIsExact(r: Ring)
    requires Inv(r)
    ensures 0 <= |r.written| - |r.consumed| <= |r.cells|
    ensures Room(r) == |r.cells| - (|r.written| - |r.consumed|) && Fill(r.head, r.tail) == |r.written| - |r.consumed|
  {}

  /** A write begins with as many bytes as are free at that moment, a read with as many as are published, up to
      what is asked for. */
  lemma BeginTakesAll(cells: seq<Byte>, actions: seq<Action>, data: seq<Byte>, limit: nat)
    requires |cells| > 0
    ensures var r := Run(Empty(cells), actions);
            var used := |r.written| - |r.consumed|;
            && 0 <= used <= |cells|
            && (r.writer.WriterIdle? && Min(|data|, |cells| - used) > 0 ==>
                  Step(r, BeginWrite(data)).writer == Writing(data[..Min(|data|, |cells| - used)], 0))
            && (r.reader.ReaderIdle? && Min(limit, used) > 0 ==>
                  Step(r, BeginRead(limit)).reader == Reading(Min(limit, used), []))
  {
    hide Run, Inv, Room, Fill;
    assert Inv(Empty(cells)) by { EmptyInv(cells); }
    RunKeeps(Empty(cells), actions);
    RoomIsExact(Run(Empty(cells), actions));
  }

  /** A byte being copied in and a byte being copied out never share a cell. */
  lemma CopiesDoNotOverlap(cells: seq<Byte>, actions: seq<Action>)
    requires |cells| > 0
    ensures var r := Run(Empty(cells), actions);
            r.writer.Writing? && r.writer.done < |r.writer.data| && r.reader.Reading? && |r.reader.out| < r.reader.count ==>
              Place(r.head + r.writer.done, |cells|) != Place(r.tail + |r.reader.out|, |cells|)
  {
    hide Run, CellsOk, Place;
    assert Inv(Empty(cells)) by { EmptyInv(cells); }
    RunKeeps(Empty(cells), actions);
    var r := Run(Empty(cells), actions);
    if r.writer.Writing? && r.writer.done < |r.writer.data| && r.reader.Reading? {
      PlacesDiffer(r.tail, r.head + r.writer.done, |cells|);
    }
  }

  // ----- The ring without interference

  ghost predicate Settled(r: Ring) {
    Inv(r) && r.writer.WriterIdle? && r.reader.ReaderIdle? && IsPowerOfTwo(|r.cells|)
  }

  /** The bytes written and not yet read. */
  function Contents(r: Ring): seq<Byte> {
    if r.tail <= |r.written| then r.written[r.tail..] else []
  }

  /** after is before with data laid into the cells from counter h on. */
  ghost predicate Laid(before: seq<Byte>, after: seq<Byte>, h: nat, data: seq<Byte>) {
    && |after| == |before| > 0
    && forall t: nat :: h <= t < h + |before| ==>
         after[Place(t, |before|)] == if t < h + |data| then data[t - h] else before[Place(t, |before|)]
  }

  lemma LaidOnce(before: seq<Byte>, a: seq<Byte>, b: seq<Byte>, h: nat, data: seq<Byte>)
    requires Laid(before, a, h, data) && Laid(before, b, h, data)
    ensures a == b
  {
    hide Place;
    forall i | 0 <= i < |before| ensures a[i] == b[i] {
      var t := EveryPlace(h, i, |before|);
    }
  }

  function Puts(n: nat): (s: seq<Action>)
    ensures |s| == n && forall i :: 0 <= i < n ==> s[i] == PutByte
  {
    seq(n, _ => PutByte)
  }

  function Gets(n: nat): (s: seq<Action>)
    ensures |s| == n && forall i :: 0 <= i < n ==> s[i] == GetByte
  {
    seq(n, _ => GetByte)
  }

  function WriteSteps(data: seq<Byte>, n: nat): seq<Action> {
    [BeginWrite(data)] + (Puts(n) + [PublishHead])
  }

  function ReadSteps(limit: nat, n: nat): seq<Action> {
    [BeginRead(limit)] + (Gets(n) + [PublishTail])
  }

  lemma {:induction false} RunAppend(r: Ring, a: seq<Action>, b: seq<Action>)
    ensures Run(r, a + b) == Run(Run(r, a), b)
    decreases |a|
  {
    hide Step;
    if a == [] {
      assert a + b == b;
    } else {
      assert (a + b)[1..] == a[1..] + b;
      RunAppend(Step(r, a[0]), a[1..], b);
    }
  }

  lemma RunOne(r: Ring, a: Action)
    ensures Run(r, [a]) == Step(r, a)
  {
    hide Step;
    assert [a][1..] == [];
    assert Run(Step(r, a), []) == Step(r, a);
  }

  lemma {:induction false} PutsRun(r: Ring, n: nat)
    requires Inv(r) && r.writer.Writing? && r.writer.done == 0 && n <= |r.writer.data|
    ensures var r1 := Run(r, Puts(n));
            r1 == r.(cells := r1.cells, writer := Writing(r.writer.data, n)) && Laid(r.cells, r1.cells, r.head, r.writer.data[..n])
    decreases n
  {
    hide Place, CellsOk, ReaderOk, Step, Run;
    if n == 0 {
      RunNothing(r);
    } else {
      PutsRun(r, n - 1);
      assert Puts(n) == Puts(n - 1) + [PutByte];
      RunAppend(r, Puts(n - 1), [PutByte]);
      var r1 := Run(r, Puts(n - 1));
      RunOne(r1, PutByte);
      PutLays(r, r1, n - 1);
    }
  }

  lemma RunNothing(r: Ring)
    ensures Run(r, []) == r
  {}

  lemma PutLays(r: Ring, r1: Ring, k: nat)
    requires Inv(r) && r.writer.Writing? && r.writer.done == 0 && k < |r.writer.data|
    requires r1 == r.(cells := r1.cells, writer := Writing(r.writer.data, k)) && Laid(r.cells, r1.cells, r.head, r.writer.data[..k])
    ensures var r2 := Step(r1, PutByte);
            r2 == r.(cells := r2.cells, writer := Writing(r.writer.data, k + 1))
            && Laid(r.cells, r2.cells, r.head, r.writer.data[..k + 1])
  {
    hide Place, CellsOk, ReaderOk;
    PlacesDiffer(r.head, r.head + k, |r.cells|);
  }

  /** An uninterrupted write takes what fits and lays it at the head. */
  lemma WriteRuns(r: Ring, data: seq<Byte>)
    requires Settled(r)
    ensures r.tail <= r.head <= r.tail + |r.cells| && Room(r) == |r.cells| - (r.head - r.tail)
    ensures var n: nat := Min(|data|, Room(r));
            var r1 := Run(r, WriteSteps(data, n));
            && Settled(r1) && Laid(r.cells, r1.cells, r.head, data[..n])
            && r1 == r.(cells := r1.cells, head := r.head + n, written := r.written + data[..n])
            && Contents(r1) == Contents(r) + data[..n]
  {
    hide CellsOk, WriterOk, ReaderOk, Step, Run, IsPowerOfTwo, Laid;
    var n: nat := Min(|data|, Room(r));
    RunKeeps(r, WriteSteps(data, n));
    RunAppend(r, [BeginWrite(data)], Puts(n) + [PublishHead]);
    RunOne(r, BeginWrite(data));
    var r0 := Step(r, BeginWrite(data));
    RunAppend(r0, Puts(n), [PublishHead]);
    if n == 0 {
      RunNothing(r0);
      RunOne(r0, PublishHead);
      NothingWritten(r, data);
    } else {
      StepKeeps(r, BeginWrite(data));
      WriteBegins(r, data);
      PutsRun(r0, n);
      RunOne(Run(r0, Puts(n)), PublishHead);
      WriteEnds(r, Run(r0, Puts(n)), data[..n]);
    }
  }

  lemma NothingWritten(r: Ring, data: seq<Byte>)
    requires Settled(r) && Min(|data|, Room(r)) == 0
    ensures Step(r, BeginWrite(data)) == r && Step(r, PublishHead) == r
    ensures Laid(r.cells, r.cells, r.head, data[..0]) && r.written + data[..0] == r.written
  {
    hide CellsOk, IsPowerOfTwo;
    LaidNothing(r.cells, r.head);
  }

  lemma WriteBegins(r: Ring, data: seq<Byte>)
    requires r.writer.WriterIdle? && Min(|data|, Room(r)) > 0
    ensures var n := Min(|data|, Room(r));
            Step(r, BeginWrite(data)) == r.(writer := Writing(data[..n], 0)) && data[..n][..n] == data[..n]
  {}

  lemma WriteEnds(r: Ring, r1: Ring, data: seq<Byte>)
    requires r.writer.WriterIdle? && r1 == r.(cells := r1.cells, writer := Writing(data, |data|))
    ensures Step(r1, PublishHead) == r.(cells := r1.cells, head := r.head + |data|, written := r.written + data)
  {}

  lemma LaidNothing(cells: seq<Byte>, h: nat)
    requires |cells| > 0
    ensures Laid(cells, cells, h, [])
  {}

  lemma {:induction false} GetsRun(r: Ring, n: nat)
    requires Inv(r) && r.reader.Reading? && r.reader.out == [] && n <= r.reader.count
    ensures Run(r, Gets(n)) == r.(reader := Reading(r.reader.count, r.written[r.tail..r.tail + n]))
    decreases n
  {
    hide Place, WriterOk, Step, Run;
    if n == 0 {
      RunNothing(r);
    } else {
      GetsRun(r, n - 1);
      assert Gets(n) == Gets(n - 1) + [GetByte];
      RunAppend(r, Gets(n - 1), [GetByte]);
      var r1 := Run(r, Gets(n - 1));
      RunOne(r1, GetByte);
      GetTakes(r, n - 1);
    }
  }

  lemma GetTakes(r: Ring, k: nat)
    requires Inv(r) && r.reader.Reading? && k < r.reader.count
    ensures r.tail + k + 1 <= |r.written|
    ensures Step(r.(reader := Reading(r.reader.count, r.written[r.tail..r.tail + k])), GetByte) ==
              r.(reader := Reading(r.reader.count, r.written[r.tail..r.tail + k + 1]))
  {
    hide Place, WriterOk;
    assert r.written[r.tail..r.tail + k] + [r.written[r.tail + k]] == r.written[r.tail..r.tail + k + 1];
  }

  /** An uninterrupted read hands out the oldest bytes and removes them. */
  lemma ReadRuns(r: Ring, limit: nat)
    requires Settled(r)
    ensures r.tail <= r.head && Fill(r.head, r.tail) == r.head - r.tail
    ensures var n: nat := Min(limit, Fill(r.head, r.tail));
            var r1 := Run(r, ReadSteps(limit, n));
            && Settled(r1) && n <= |Contents(r)|
            && r1 == r.(tail := r.tail + n, consumed := r.consumed + Contents(r)[..n])
            && Contents(r1) == Contents(r)[n..]
  {
    hide CellsOk, WriterOk, Step, Run, IsPowerOfTwo, CountsOk, ReaderOk;
    var n: nat := Min(limit, Fill(r.head, r.tail));
    ReadSplits(r, n);
    RunKeeps(r, ReadSteps(limit, n));
    RunAppend(r, [BeginRead(limit)], Gets(n) + [PublishTail]);
    RunOne(r, BeginRead(limit));
    var r0 := Step(r, BeginRead(limit));
    RunAppend(r0, Gets(n), [PublishTail]);
    if n == 0 {
      RunNothing(r0);
      RunOne(r0, PublishTail);
      NothingRead(r, limit);
    } else {
      StepKeeps(r, BeginRead(limit));
      assert r0 == r.(reader := Reading(n, [])) by { ReadBegins(r, limit); }
      GetsRun(r0, n);
      RunOne(Run(r0, Gets(n)), PublishTail);
      ReadEnds(r, Run(r0, Gets(n)), r.written[r.tail..r.tail + n]);
    }
  }

  lemma ReadSplits(r: Ring, n: nat)
    requires Settled(r) && n <= Fill(r.head, r.tail)
    ensures r.tail <= r.head && Fill(r.head, r.tail) == r.head - r.tail
    ensures r.tail + n <= |r.written| && n <= |Contents(r)|
    ensures r.written[r.tail..r.tail + n] == Contents(r)[..n]
    ensures Contents(r.(tail := r.tail + n, consumed := r.consumed + Contents(r)[..n])) == Contents(r)[n..]
  {
    hide CellsOk, IsPowerOfTwo;
  }

  lemma NothingRead(r: Ring, limit: nat)
    requires Settled(r) && Min(limit, Fill(r.head, r.tail)) == 0
    ensures Step(r, BeginRead(limit)) == r && Step(r, PublishTail) == r
    ensures r.consumed + Contents(r)[..0] == r.consumed
  {
    hide CellsOk, IsPowerOfTwo;
  }

  lemma ReadBegins(r: Ring, limit: nat)
    requires r.reader.ReaderIdle? && Min(limit, Fill(r.head, r.tail)) > 0
    ensures Step(r, BeginRead(limit)) == r.(reader := Reading(Min(limit, Fill(r.head, r.tail)), []))
  {}

  lemma ReadEnds(r: Ring, r1: Ring, out: seq<Byte>)
    requires r.reader.ReaderIdle? && r1 == r.(reader := Reading(|out|, out))
    ensures Step(r1, PublishTail) == r.(tail := r.tail + |out|, consumed := r.consumed + out)
  {}

  /** Bytes laid into the cells from a start cell on, wrapping at the end, are laid at the head. */
  lemma WrappedLays(before: seq<Byte>, h: nat, bytes: seq<Byte>, after: seq<Byte>)
    requires |after| == |before| > 0 && |bytes| <= |before|
    requires forall i :: 0 <= i < |before| ==> after[i] == Wrapped(before, Place(h, |before|), bytes, i)
    ensures Laid(before, after, h, bytes)
  {
    hide Place;
    var c := |before|;
    forall t: nat | h <= t < h + c
      ensures after[Place(t, c)] == if t < h + |bytes| then bytes[t - h] else before[Place(t, c)]
    {
      PlaceAhead(h, t - h, c);
    }
  }

  /** Cell i after bytes have been laid from a start cell on. */
  function Wrapped(before: seq<Byte>, start: nat, bytes: seq<Byte>, i: nat): Byte
    requires i < |before| && start < |before| && |bytes| <= |before|
  {
    if start <= i < start + |bytes| then bytes[i - start]
    else if i + |before| < start + |bytes| then bytes[i + |before| - start]
    else before[i]
  }

  /** The oldest bytes lie in the cells from the tail's place on, wrapping at the end. */
  lemma OldestByte(r: Ring, n: nat, i: nat)
    requires Settled(r) && i < n <= Fill(r.head, r.tail)
    ensures |r.cells| > 0 && n <= |r.cells| && n <= |Contents(r)| && r.tail + i < |r.written|
    ensures Contents(r)[i] == r.cells[Place(r.tail + i, |r.cells|)]
  {
    hide Place, IsPowerOfTwo, WriterOk, ReaderOk;
    assert r.cells[Place(r.tail + i, |r.cells|)] == r.written[r.tail + i];
  }

  lemma OldestBytes(r: Ring, n: nat)
    requires Settled(r) && n <= Fill(r.head, r.tail)
    ensures |r.cells| > 0 && n <= |r.cells| && n <= |Contents(r)|
    ensures var c, start := |r.cells|, Place(r.tail, |r.cells|);
            forall i :: 0 <= i < n ==> Contents(r)[i] == r.cells[if start + i < c then start + i else start + i - c]
  {
    hide Place, IsPowerOfTwo, CellsOk, WriterOk, ReaderOk;
    var c, start := |r.cells|, Place(r.tail, |r.cells|);
    forall i | 0 <= i < n
      ensures Contents(r)[i] == r.cells[if start + i < c then start + i else start + i - c]
    {
      PlaceAhead(r.tail, i, c);
      OldestByte(r, n, i);
    }
  }

  class SpscRingBuffer {
    const data: array<Byte>
    const mask: nat
    var head: nat
    var tail: nat
    ghost var written: seq<Byte>
    ghost var consumed: seq<Byte>

    ghost function State(): Ring
      reads this, data
    {
      Ring(data[..], head, tail, WriterIdle, ReaderIdle, written, consumed)
    }

    ghost predicate Valid()
      reads this, data
    {
      mask + 1 == data.Length && Settled(State())
    }

    /** The capacity is rounded up to the next power of two, at least one. */
    constructor (capacity: nat)
      ensures Valid() && fresh(data) && head == 0 && tail == 0 && written == [] && consumed == []
      ensures IsPowerOfTwo(data.Length) && data.Length >= capacity && (data.Length == 1 || data.Length / 2 < capacity)
    {
      var size, k: nat := 1, 0;
      while size < capacity
        invariant size == Pow2(k) && (size == 1 || size / 2 < capacity)
        decreases capacity - size
      {
        size := 2 * size;
        k := k + 1;
      }
      data := new Byte[size](_ => 0);
      mask := size - 1;
      head, tail := 0, 0;
      written, consumed := [], [];
      new;
      EmptyInv(data[..]);
      assert State() == Empty(data[..]);
    }

    /** The copy of one contiguous chunk. */
    method CopyIn(start: nat, chunk: seq<Byte>)
      requires start + |chunk| <= data.Length
      modifies data
      ensures forall i :: 0 <= i < data.Length ==>
                data[i] == if start <= i < start + |chunk| then chunk[i - start] else old(data[i])
    {
      for k := 0 to |chunk|
        invariant forall i :: 0 <= i < data.Length ==>
                    data[i] == if start <= i < start + k then chunk[i - start] else old(data[i])
      {
        data[start + k] := chunk[k];
      }
    }

    /** The masked copy of try_write: one chunk, or two around the wrap. */
    method CopyAtHead(bytes: seq<Byte>)
      requires data.Length > 0 && mask + 1 == data.Length && IsPowerOfTwo(data.Length) && |bytes| <= data.Length
      modifies data
      ensures Laid(old(data[..]), data[..], head, bytes)
    {
      hide And, Laid, IsPowerOfTwo, Place;
      ghost var before := data[..];
      MaskedPlace(head, data.Length);
      var start := And(head, mask);
      var wrap := data.Length - start;
      if |bytes| <= wrap {
        CopyIn(start, bytes);
      } else {
        CopyIn(start, bytes[..wrap]);
        CopyIn(0, bytes[wrap..]);
      }
      WrappedLays(before, head, bytes, data[..]);
    }

    lemma RoomNow()
      requires Valid()
      ensures 0 <= |written| - |consumed| <= data.Length
      ensures Room(State()) == data.Length - (|written| - |consumed|) && Fill(head, tail) == |written| - |consumed|
    {
      RoomIsExact(State());
    }

    method TryWrite(bytes: seq<Byte>) returns (n: nat)
      requires Valid()
      modifies this, data
      ensures Valid() && n == Min(|bytes|, Room(old(State())))
      ensures n == Min(|bytes|, data.Length - (|old(written)| - |old(consumed)|)) && written == old(written) + bytes[..n]
      ensures State() == Run(old(State()), WriteSteps(bytes, n))
      ensures Contents(State()) == old(Contents(State())) + bytes[..n]
    {
      hide Inv, Run, Laid, IsPowerOfTwo, Room, Fill, Contents, WriteSteps;
      RoomNow();
      WriteRuns(State(), bytes);
      ghost var before := data[..];
      ghost var after := Run(State(), WriteSteps(bytes, Min(|bytes|, Room(State())))).cells;
      var avail: nat := data.Length - (head - tail);
      n := Min(|bytes|, avail);
      if n == 0 {
        assert bytes[..0] == [];
        LaidNothing(before, head);
        LaidOnce(before, before, after, head, bytes[..n]);
        return;
      }
      CopyAtHead(bytes[..n]);
      LaidOnce(before, data[..], after, head, bytes[..n]);
      head := head + n;
      written := written + bytes[..n];
    }

    method CopyOut(out: array<Byte>, at: nat, start: nat, n: nat)
      requires out != data && at + n <= out.Length && start + n <= data.Length
      modifies out
      ensures forall i :: 0 <= i < out.Length ==>
                out[i] == if at <= i < at + n then data[start + (i - at)] else old(out[i])
    {
      for k := 0 to n
        invariant forall i :: 0 <= i < out.Length ==>
                    out[i] == if at <= i < at + k then data[start + (i - at)] else old(out[i])
      {
        out[at + k] := data[start + k];
      }
    }

    /** The masked copy of try_read: one chunk, or two around the wrap. */
    method CopyFromTail(out: array<Byte>, n: nat)
      requires Valid() && out != data && n <= out.Length && tail <= head && n <= Fill(head, tail)
      modifies out
      ensures n <= |Contents(State())| && out[..n] == Contents(State())[..n] && out[n..] == old(out[n..])
    {
      hide And, IsPowerOfTwo, Place, Inv, Contents, Fill;
      MaskedPlace(tail, data.Length);
      OldestBytes(State(), n);
      ghost var oldest := Contents(State());
      var start := And(tail, mask);
      var wrap := data.Length - start;
      if n <= wrap {
        CopyOut(out, 0, start, n);
      } else {
        CopyOut(out, 0, start, wrap);
        CopyOut(out, wrap, 0, n - wrap);
      }
      assert forall i :: 0 <= i < n ==> out[i] == oldest[i];
    }

    method TryRead(out: array<Byte>) returns (n: nat)
      requires Valid() && out != data
      modifies this, out
      ensures Valid() && n == Min(out.Length, Fill(old(head), old(tail))) && n <= |old(Contents(State()))|
      ensures n == Min(out.Length, |old(written)| - |old(consumed)|) && consumed == old(consumed) + out[..n]
      ensures State() == Run(old(State()), ReadSteps(out.Length, n))
      ensures out[..n] == old(Contents(State()))[..n] && out[n..] == old(out[n..])
      ensures Contents(State()) == old(Contents(State()))[n..]
    {
      hide Inv, Run, IsPowerOfTwo, Fill, Contents, ReadSteps;
      RoomNow();
      ReadRuns(State(), out.Length);
      var avail: nat := head - tail;
      n := Min(out.Length, avail);
      if n == 0 {
        return;
      }
      CopyFromTail(out, n);
      tail := tail + n;
      consumed := consumed + out[..n];
    }
  }
}
