/** The multicast subscriber: datagrams carry a symbol, a sequence number and a frame; every symbol has
    its own reorder window, and every dispatched frame goes through a parser of its own. */
module UdpFeeds {
  import opened Basics
  import opened Bytes
  import opened WireFormat
  import opened ParserSpec
  import opened BinaryParsers
  import opened ReorderWindow

  type SymbolId = nat

  const PREFIX_SIZE: nat := 12

  datatype Feed = Feed(windows: map<SymbolId, Window>, gaps: nat, delivered: seq<(SymbolId, Message)>)

  const NO_FEED: Feed := Feed(map[], 0, [])

  // ----- The datagram prefix

  function WriteNat(n: nat, width: nat): (s: seq<Byte>)
    ensures |s| == width
    decreases width
  {
    if width == 0 then [] else [ByteOf(n % 256)] + WriteNat(n / 256, width - 1)
  }

  function ReadNat(s: seq<Byte>): nat
    decreases |s|
  {
    if s == [] then 0 else Value(s[0]) + 256 * ReadNat(s[1..])
  }

  function Pow256(k: nat): (p: nat)
    ensures p >= 1
  {
    if k == 0 then 1 else 256 * Pow256(k - 1)
  }

  lemma {:induction false} NatRoundTrip(n: nat, width: nat)
    requires n < Pow256(width)
    ensures ReadNat(WriteNat(n, width)) == n
    decreases width
  {
    hide ByteOf, Value;
    if width > 0 {
      NatRoundTrip(n / 256, width - 1);
      ValueOfByte(n % 256);
    }
  }

  lemma DivideOnce(n: nat, b: nat, q: nat)
    requires b > 0 && q > 0
    ensures n / b / q == n / (b * q)
  {
    var k, r := n / b / q, n / b % q;
    assert n / b == q * k + r && n == b * (n / b) + n % b;
    var rest := b * r + n % b;
    assert b * (q * k + r) == (b * q) * k + b * r;
    assert b * q > 0 && rest < b * q by {
      ProductGrows(r + 1, q, b);
      assert (r + 1) * b == b * r + b && q * b == b * q;
    }
    assert rest >= 0 by { assert b * r >= 0; }
    ModIs(n, b * q, k, rest);
  }

  /** A number goes out low byte first. */
  lemma {:induction false} NatIsLittleEndian(n: nat, width: nat, i: nat)
    requires i < width
    ensures WriteNat(n, width)[i] as int == n / Pow256(i) % 256
    decreases width
  {
    hide ByteOf, Value;
    if i == 0 {
      ValueOfByte(n % 256);
      ValueIsNumber(ByteOf(n % 256));
    } else {
      NatIsLittleEndian(n / 256, width - 1, i - 1);
      DivideOnce(n, 256, Pow256(i - 1));
    }
  }

  /** The bytes of a datagram: the symbol in four, the sequence number in eight, low byte first, and the frame. */
  lemma DatagramOnTheWire(symbol: SymbolId, p: Packet, i: nat)
    requires i < 8
    ensures var d := Datagram(symbol, p);
            && |d| == 12 + |p.frame| && d[12..] == p.frame
            && (i < 4 ==> d[i] as int == symbol / Pow256(i) % 256)
            && d[4 + i] as int == p.seqNo / Pow256(i) % 256
  {
    hide WriteNat, Pow256;
    NatIsLittleEndian(p.seqNo, 8, i);
    if i < 4 { NatIsLittleEndian(symbol, 4, i); }
    assert Datagram(symbol, p)[12..] == p.frame;
  }

  function Datagram(symbol: SymbolId, p: Packet): seq<Byte> {
    WriteNat(symbol, 4) + WriteNat(p.seqNo, 8) + p.frame
  }

  function SymbolOf(dgram: seq<Byte>): SymbolId
    requires |dgram| >= PREFIX_SIZE
  {
    ReadNat(dgram[..4])
  }

  function PacketOf(dgram: seq<Byte>): Packet
    requires |dgram| >= PREFIX_SIZE
  {
    Packet(ReadNat(dgram[4..PREFIX_SIZE]), dgram[PREFIX_SIZE..])
  }

  /** The receiver reads back what the publisher put before the frame. */
  lemma PrefixRoundTrip(symbol: SymbolId, p: Packet)
    requires symbol < Pow256(4) && p.seqNo < Pow256(8)
    ensures var d := Datagram(symbol, p); |d| >= PREFIX_SIZE && SymbolOf(d) == symbol && PacketOf(d) == p
  {
    hide WriteNat, ReadNat, Pow256;
    var d := Datagram(symbol, p);
    assert d[..4] == WriteNat(symbol, 4) && d[4..PREFIX_SIZE] == WriteNat(p.seqNo, 8) && d[PREFIX_SIZE..] == p.frame;
    NatRoundTrip(symbol, 4);
    NatRoundTrip(p.seqNo, 8);
  }

  // ----- The receiver

  /** The callbacks fire for ticks and bars only. */
  predicate Reported(r: ParseResult) {
    r.Decoded? && (r.message.kind == Tick || r.message.kind == Bar)
  }

  function Report(symbol: SymbolId, results: seq<ParseResult>): seq<(SymbolId, Message)>
    decreases |results|
  {
    if results == [] then []
    else
      var n := |results| - 1;
      Report(symbol, results[..n]) + if Reported(results[n]) then [(symbol, results[n].message)] else []
  }

  function Deliver(symbol: SymbolId, frames: seq<Frame>): seq<(SymbolId, Message)>
    decreases |frames|
  {
    if frames == [] then []
    else Deliver(symbol, frames[..|frames| - 1]) + Report(symbol, Push(INITIAL, frames[|frames| - 1]).1)
  }

  function WindowOf(windows: map<SymbolId, Window>, symbol: SymbolId): Window {
    if symbol in windows then windows[symbol] else START
  }

  function Handle(f: Feed, dgram: seq<Byte>, size: nat): Feed {
    if |dgram| < PREFIX_SIZE then f
    else
      var symbol := SymbolOf(dgram);
      var r := Receive(WindowOf(f.windows, symbol), PacketOf(dgram), size);
      Feed(f.windows[symbol := r.0], f.gaps + (if r.2 then 1 else 0), f.delivered + Deliver(symbol, r.1))
  }

  function HandleAll(ds: seq<seq<Byte>>, size: nat): Feed
    decreases |ds|
  {
    if ds == [] then NO_FEED else Handle(HandleAll(ds[..|ds| - 1], size), ds[|ds| - 1], size)
  }

  // ----- Symbols do not disturb one another

  /** The packets of one symbol among the datagrams. */
  function PacketsOf(ds: seq<seq<Byte>>, symbol: SymbolId): seq<Packet>
    decreases |ds|
  {
    if ds == [] then []
    else
      var n := |ds| - 1;
      PacketsOf(ds[..n], symbol) +
      if |ds[n]| >= PREFIX_SIZE && SymbolOf(ds[n]) == symbol then [PacketOf(ds[n])] else []
  }

  function ForSymbol(log: seq<(SymbolId, Message)>, symbol: SymbolId): seq<(SymbolId, Message)>
    decreases |log|
  {
    if log == [] then []
    else
      var n := |log| - 1;
      ForSymbol(log[..n], symbol) + if log[n].0 == symbol then [log[n]] else []
  }

  lemma {:induction false} ForSymbolAppend(a: seq<(SymbolId, Message)>, b: seq<(SymbolId, Message)>, symbol: SymbolId)
    ensures ForSymbol(a + b, symbol) == ForSymbol(a, symbol) + ForSymbol(b, symbol)
    decreases |b|
  {
    if b == [] {
      assert a + b == a;
    } else {
      var n := |b| - 1;
      assert (a + b)[..|a + b| - 1] == a + b[..n];
      ForSymbolAppend(a, b[..n], symbol);
    }
  }

  /** A log in which every entry has the same symbol. */
  lemma {:induction false} ForSymbolUniform(log: seq<(SymbolId, Message)>, owner: SymbolId, symbol: SymbolId)
    requires forall i :: 0 <= i < |log| ==> log[i].0 == owner
    ensures ForSymbol(log, symbol) == if owner == symbol then log else []
    decreases |log|
  {
    if log != [] {
      ForSymbolUniform(log[..|log| - 1], owner, symbol);
    }
  }

  lemma {:induction false} ReportUniform(symbol: SymbolId, results: seq<ParseResult>)
    ensures forall i :: 0 <= i < |Report(symbol, results)| ==> Report(symbol, results)[i].0 == symbol
    decreases |results|
  {
    if results != [] {
      ReportUniform(symbol, results[..|results| - 1]);
    }
  }

  lemma {:induction false} DeliverUniform(symbol: SymbolId, frames: seq<Frame>)
    ensures forall i :: 0 <= i < |Deliver(symbol, frames)| ==> Deliver(symbol, frames)[i].0 == symbol
    decreases |frames|
  {
    hide Report, Push;
    if frames != [] {
      DeliverUniform(symbol, frames[..|frames| - 1]);
      ReportUniform(symbol, Push(INITIAL, frames[|frames| - 1]).1);
    }
  }

  lemma {:induction false} DeliverAppend(symbol: SymbolId, a: seq<Frame>, b: seq<Frame>)
    ensures Deliver(symbol, a + b) == Deliver(symbol, a) + Deliver(symbol, b)
    decreases |b|
  {
    hide Report, Push;
    if b == [] {
      assert a + b == a;
    } else {
      var n := |b| - 1;
      assert (a + b)[..|a + b| - 1] == a + b[..n];
      DeliverAppend(symbol, a, b[..n]);
    }
  }

  /** Whatever the other symbols' datagrams are, a symbol's window and deliveries are those of its own
      packets alone. */
  lemma {:induction false} SymbolsAreIndependent(ds: seq<seq<Byte>>, symbol: SymbolId, size: nat)
    ensures var f, o := HandleAll(ds, size), After(PacketsOf(ds, symbol), size);
            && WindowOf(f.windows, symbol) == o.window
            && ForSymbol(f.delivered, symbol) == Deliver(symbol, o.dispatched)
    decreases |ds|
  {
    hide Receive, Deliver, ForSymbol, After, SymbolOf, PacketOf, Handle;
    if ds == [] {
      NothingYet(symbol, size);
    } else {
      var t, d := ds[..|ds| - 1], ds[|ds| - 1];
      SymbolsAreIndependent(t, symbol, size);
      HandleKeepsApart(HandleAll(t, size), d, symbol, size);
      if |d| >= PREFIX_SIZE && SymbolOf(d) == symbol {
        AfterOneMore(PacketsOf(t, symbol), PacketOf(d), size);
        DeliverAppend(symbol, After(PacketsOf(t, symbol), size).dispatched,
                      Receive(After(PacketsOf(t, symbol), size).window, PacketOf(d), size).1);
      } else {
        assert PacketsOf(ds, symbol) == PacketsOf(t, symbol);
      }
    }
  }

  /** One datagram changes its own symbol's window and deliveries and no other's. */
  lemma HandleKeepsApart(f: Feed, d: seq<Byte>, symbol: SymbolId, size: nat)
    ensures var f1 := Handle(f, d, size);
            if |d| >= PREFIX_SIZE && SymbolOf(d) == symbol then
              var r := Receive(WindowOf(f.windows, symbol), PacketOf(d), size);
              && WindowOf(f1.windows, symbol) == r.0
              && ForSymbol(f1.delivered, symbol) == ForSymbol(f.delivered, symbol) + Deliver(symbol, r.1)
            else
              && WindowOf(f1.windows, symbol) == WindowOf(f.windows, symbol)
              && ForSymbol(f1.delivered, symbol) == ForSymbol(f.delivered, symbol)
  {
    hide Receive, Deliver, ForSymbol, SymbolOf, PacketOf;
    if |d| >= PREFIX_SIZE {
      var owner := SymbolOf(d);
      var r := Receive(WindowOf(f.windows, owner), PacketOf(d), size);
      DeliverUniform(owner, r.1);
      ForSymbolAppend(f.delivered, Deliver(owner, r.1), symbol);
      ForSymbolUniform(Deliver(owner, r.1), owner, symbol);
    }
  }

  lemma NothingYet(symbol: SymbolId, size: nat)
    ensures ForSymbol([], symbol) == [] && Deliver(symbol, []) == [] && After([], size) == Outcome(START, [], 0, false)
  {}

  // ----- The gap counter

  /** How many datagrams carried a number beyond the one their symbol's window expected. */
  ghost function AheadCount(ds: seq<seq<Byte>>, size: nat): nat
    decreases |ds|
  {
    if ds == [] then 0
    else
      var t, d := ds[..|ds| - 1], ds[|ds| - 1];
      AheadCount(t, size)
      + if |d| >= 12 && PacketOf(d).seqNo > After(PacketsOf(t, SymbolOf(d)), size).window.expected then 1 else 0
  }

  /** Every datagram ahead of its own symbol's window counts as one gap, whichever symbol it is. */
  lemma {:induction false} GapsAreCounted(ds: seq<seq<Byte>>, size: nat)
    ensures HandleAll(ds, size).gaps == AheadCount(ds, size)
    decreases |ds|
  {
    hide SymbolOf, PacketOf, After, Drain, Deliver, PacketsOf;
    if ds != [] {
      var t, d := ds[..|ds| - 1], ds[|ds| - 1];
      GapsAreCounted(t, size);
      if |d| >= 12 {
        SymbolsAreIndependent(t, SymbolOf(d), size);
        GapOpens(WindowOf(HandleAll(t, size).windows, SymbolOf(d)), PacketOf(d), size);
      }
    }
  }

  lemma GapOpens(w: Window, p: Packet, size: nat)
    ensures Receive(w, p, size).2 <==> p.seqNo > w.expected
  {
    hide Drain;
  }

  // ----- From messages to messages

  ghost predicate Carries(ps: seq<Packet>, ms: seq<Message>) {
    && |ps| == |ms|
    && (forall s :: 0 <= s < |ms| ==> WellFormed(ms[s]))
    && (forall i :: 0 <= i < |ps| ==> ps[i].seqNo < |ms| && ps[i].frame == Encode(ms[ps[i].seqNo]))
  }

  function Tagged(symbol: SymbolId, ms: seq<Message>): (r: seq<(SymbolId, Message)>)
    ensures |r| == |ms|
  {
    seq(|ms|, i requires 0 <= i < |ms| => (symbol, ms[i]))
  }

  /** The ticks and bars among messages; the callbacks are for these two kinds. */
  function TicksAndBars(ms: seq<Message>): seq<Message>
    decreases |ms|
  {
    if ms == [] then []
    else
      var n := |ms| - 1;
      TicksAndBars(ms[..n]) + if ms[n].kind == Tick || ms[n].kind == Bar then [ms[n]] else []
  }

  lemma TaggedMore(symbol: SymbolId, ms: seq<Message>, m: Message)
    ensures Tagged(symbol, ms + [m]) == Tagged(symbol, ms) + [(symbol, m)]
  {}

  lemma DeliverOne(symbol: SymbolId, m: Message)
    requires WellFormed(m)
    ensures Report(symbol, Push(INITIAL, Encode(m)).1) == if m.kind == Tick || m.kind == Bar then [(symbol, m)] else []
  {
    hide Push, Encode, WellFormed;
    ParserInvertsOne(m);
    assert [Decoded(m)][..0] == [];
    assert Report(symbol, []) == [];
  }

  lemma ParserInvertsOne(m: Message)
    requires WellFormed(m)
    ensures Push(INITIAL, Encode(m)).1 == [Decoded(m)]
  {
    hide Push, Encode, FrameShaped, FrameResult;
    EncodedFrame(m);
    FrameParses([], Encode(m));
    assert [] + Encode(m) == Encode(m);
  }

  lemma {:induction false} DeliverMessages(symbol: SymbolId, frames: seq<Frame>, ms: seq<Message>)
    requires |frames| == |ms|
    requires forall s :: 0 <= s < |ms| ==> WellFormed(ms[s]) && frames[s] == Encode(ms[s])
    ensures Deliver(symbol, frames) == Tagged(symbol, TicksAndBars(ms))
    decreases |ms|
  {
    hide Push, Encode, Report, WellFormed, Tagged;
    if ms == [] {
      NothingTagged(symbol);
    } else {
      var n := |ms| - 1;
      DeliverMessages(symbol, frames[..n], ms[..n]);
      DeliverOne(symbol, ms[n]);
      TaggedMore(symbol, TicksAndBars(ms[..n]), ms[n]);
      assert Deliver(symbol, frames[..n]) + [] == Deliver(symbol, frames[..n]);
      assert TicksAndBars(ms[..n]) + [] == TicksAndBars(ms[..n]);
    }
  }

  lemma NothingTagged(symbol: SymbolId)
    ensures Tagged(symbol, []) == []
  {}

  /** End to end for one symbol: of its messages, encoded, numbered from zero and reordered within the window
      among any other traffic, the ticks and bars are reported exactly once each, intact and in order, and
      nothing else is. */
  lemma ReorderedMessagesArriveInOrder(ds: seq<seq<Byte>>, symbol: SymbolId, ms: seq<Message>, at: seq<nat>, size: nat)
    requires IsReordering(PacketsOf(ds, symbol), at) && Carries(PacketsOf(ds, symbol), ms)
    requires forall s :: 0 <= s < |at| ==> at[s] <= s + size
    ensures ForSymbol(HandleAll(ds, size).delivered, symbol) == Tagged(symbol, TicksAndBars(ms))
  {
    hide HandleAll, PacketsOf, After, ForSymbol, Encode, Deliver, Tagged, WellFormed;
    var ps := PacketsOf(ds, symbol);
    SymbolsAreIndependent(ds, symbol, size);
    BoundedReordering(ps, at, size);
    var frames := After(ps, size).dispatched;
    forall s | 0 <= s < |ms| ensures frames[s] == Encode(ms[s]) {
      assert ps[at[s]].seqNo == s;
    }
    DeliverMessages(symbol, frames, ms);
  }

  class AsyncUdpFeed {
    const reorderWindow: nat
    var seqMap: map<SymbolId, Window>
    var gapsDetected: nat
    ghost var delivered: seq<(SymbolId, Message)>  // the callbacks' arguments, with the symbol of the window

    ghost function State(): Feed
      reads this
    {
      Feed(seqMap, gapsDetected, delivered)
    }

    constructor (window: nat)
      ensures State() == NO_FEED && reorderWindow == window
    {
      reorderWindow := window;
      seqMap, gapsDetected, delivered := map[], 0, [];
    }

    method HandleDatagram(dgram: seq<Byte>)
      modifies this
      ensures State() == Handle(old(State()), dgram, reorderWindow)
    {
      hide Drain, Deliver, SymbolOf, PacketOf;
      if |dgram| < PREFIX_SIZE { return; }
      var symbol := SymbolOf(dgram);
      var p := PacketOf(dgram);
      if symbol !in seqMap {
        seqMap := seqMap[symbol := START];
      }
      var ss := seqMap[symbol];
      assert seqMap == old(seqMap)[symbol := ss];
      DeliverNothing(symbol);
      assert delivered + [] == delivered;
      if p.seqNo < ss.expected {
        return;
      }
      if p.seqNo > ss.expected {
        gapsDetected := gapsDetected + 1;
        if |ss.pending| < reorderWindow {
          seqMap := seqMap[symbol := ss.(pending := ss.pending[p.seqNo := p.frame])];
        }
        return;
      }
      ss := DispatchAndDrain(symbol, p.frame, ss);
      seqMap := seqMap[symbol := ss];
    }

    /** Dispatches the expected frame and then every buffered frame that follows without a gap. */
    method DispatchAndDrain(symbol: SymbolId, frame: Frame, start: Window) returns (ss: Window)
      modifies this`delivered
      ensures var r := Drain(Window(start.expected + 1, start.pending));
              ss == r.0 && delivered == old(delivered) + Deliver(symbol, [frame] + r.1)
    {
      hide Drain, Deliver;
      DispatchFrame(symbol, frame);
      ss := start.(expected := start.expected + 1);
      ghost var frames := [frame];
      DeliverSingle(symbol, frame);
      while ss.expected in ss.pending
        invariant Drain(Window(start.expected + 1, start.pending)).0 == Drain(ss).0
        invariant [frame] + Drain(Window(start.expected + 1, start.pending)).1 == frames + Drain(ss).1
        invariant delivered == old(delivered) + Deliver(symbol, frames)
        decreases |ss.pending|
      {
        var next := ss.pending[ss.expected];
        DrainStep(ss, frames);
        DeliverAppend(symbol, frames, [next]);
        DeliverSingle(symbol, next);
        DispatchFrame(symbol, next);
        frames := frames + [next];
        ss := Window(ss.expected + 1, ss.pending - {ss.expected});
      }
      DrainStops(ss);
      assert frames + [] == frames;
    }

    /** A parser of its own for one frame; the callbacks get the ticks and bars it decodes. */
    method DispatchFrame(symbol: SymbolId, frame: Frame)
      modifies this`delivered
      ensures delivered == old(delivered) + Report(symbol, ParserSpec.Push(INITIAL, frame).1)
    {
      hide ParserSpec.Push;
      var parser := new BinaryParser();
      var results := parser.Push(frame);
      assert results[..0] == [];
      for i := 0 to |results|
        invariant delivered == old(delivered) + Report(symbol, results[..i])
      {
        assert results[..i + 1][..i] == results[..i];
        if Reported(results[i]) {
          delivered := delivered + [(symbol, results[i].message)];
        }
      }
      assert results[..|results|] == results;
    }
  }

  lemma DeliverNothing(symbol: SymbolId)
    ensures Deliver(symbol, []) == []
  {}

  lemma DeliverSingle(symbol: SymbolId, frame: Frame)
    ensures Deliver(symbol, [frame]) == Report(symbol, Push(INITIAL, frame).1)
  {
    hide Report, Push;
    assert [frame][..0] == [];
    DeliverNothing(symbol);
    var r := Report(symbol, Push(INITIAL, frame).1);
    assert [] + r == r;
  }

  lemma DrainStep(w: Window, drained: seq<Frame>)
    requires w.expected in w.pending
    ensures var w1 := Window(w.expected + 1, w.pending - {w.expected});
            && |w1.pending| < |w.pending|
            && Drain(w).0 == Drain(w1).0
            && drained + Drain(w).1 == (drained + [w.pending[w.expected]]) + Drain(w1).1
  {
    Shrinks(w.pending, w.expected);
    var w1 := Window(w.expected + 1, w.pending - {w.expected});
    assert drained + ([w.pending[w.expected]] + Drain(w1).1) == (drained + [w.pending[w.expected]]) + Drain(w1).1;
  }

  lemma DrainStops(w: Window)
    requires w.expected !in w.pending
    ensures Drain(w) == (w, [])
  {}
}
