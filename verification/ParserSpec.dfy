/** The streaming parser as a function of one byte, and what it makes of whole streams. */
module ParserSpec {
  import opened Basics
  import opened Bytes
  import opened Crc32s
  import opened WireFormat

  datatype Mode = SeekMagic | ReadHeader | ReadPayload | ReadTrailer

  datatype Parser = Parser(mode: Mode, buf: seq<Byte>, payloadLen: nat, code: Byte)

  datatype ParseError = BadMagic | BadCRC | UnknownType | PayloadTooLarge | Truncated

  datatype ParseResult = Decoded(message: Message) | Failed(error: ParseError)

  const INITIAL: Parser := Parser(SeekMagic, [], 0, UNKNOWN)

  /** A heartbeat may be short and then keeps its zeroed body; the others may not. */
  function Interpret(code: Byte, payload: seq<Byte>): ParseResult {
    match KindOf(code)
    case None => Failed(UnknownType)
    case Some(k) =>
      if |payload| >= SizeOf(k) then Decoded(Message(k, payload[..SizeOf(k)]))
      else if k == Heartbeat then Decoded(Message(k, seq(SizeOf(k), _ => 0)))
      else Failed(Truncated)
  }

  /** What a collected frame with a payload of the given length yields. */
  function Dispatch(code: Byte, length: nat, buf: seq<Byte>): ParseResult
    requires |buf| == HEADER_SIZE + length + TRAILER_SIZE
  {
    var end := HEADER_SIZE + length;
    if ReadU32(buf[end..]) != Crc(buf[..end]) then Failed(BadCRC) else Interpret(code, buf[HEADER_SIZE..end])
  }

  function Step(p: Parser, b: Byte): (Parser, seq<ParseResult>) {
    var buf := p.buf + [b];
    match p.mode
    case SeekMagic =>
      if |buf| < 4 then (p.(buf := buf), [])
      else if ReadU32(buf[..4]) == 0xFEED_0001 then (p.(mode := ReadHeader, buf := buf), [])
      else (p.(buf := buf[1..]), [])
    case ReadHeader =>
      if |buf| < HEADER_SIZE then (p.(buf := buf), [])
      else
        var length := ReadU16(buf[5..7]);
        if length > MAX_PAYLOAD then (INITIAL, [Failed(PayloadTooLarge)])
        else (Parser(if length > 0 then ReadPayload else ReadTrailer, buf, length, buf[4]), [])
    case ReadPayload =>
      if |buf| < HEADER_SIZE + p.payloadLen then (p.(buf := buf), [])
      else (p.(mode := ReadTrailer, buf := buf), [])
    case ReadTrailer =>
      if |buf| < HEADER_SIZE + p.payloadLen + TRAILER_SIZE then (p.(buf := buf), [])
      else (INITIAL, [Dispatch(p.code, p.payloadLen, buf[..HEADER_SIZE + p.payloadLen + TRAILER_SIZE])])
  }

  function Push(p: Parser, data: seq<Byte>): (Parser, seq<ParseResult>)
    decreases |data|
  {
    if data == [] then (p, [])
    else
      var first := Step(p, data[0]);
      var rest := Push(first.0, data[1..]);
      (rest.0, first.1 + rest.1)
  }

  // ----- Chunks

  lemma {:induction false} PushAppend(p: Parser, a: seq<Byte>, b: seq<Byte>)
    ensures var first := Push(p, a);
            var second := Push(first.0, b);
            Push(p, a + b) == (second.0, first.1 + second.1)
    decreases |a|
  {
    hide Step;
    if a == [] {
      assert a + b == b;
      assert [] + Push(p, b).1 == Push(p, b).1;
    } else {
      assert (a + b)[1..] == a[1..] + b;
      PushAppend(Step(p, a[0]).0, a[1..], b);
      var x, y, z := Step(p, a[0]).1, Push(Step(p, a[0]).0, a[1..]).1, Push(Push(p, a).0, b).1;
      assert x + (y + z) == (x + y) + z;
    }
  }

  /** A silent first part. */
  lemma PushSilent(p: Parser, a: seq<Byte>, b: seq<Byte>, q: Parser)
    requires Push(p, a) == (q, [])
    ensures Push(p, a + b) == Push(q, b)
  {
    hide Push;
    PushAppend(p, a, b);
    assert [] + Push(q, b).1 == Push(q, b).1;
  }

  function PushChunks(p: Parser, chunks: seq<seq<Byte>>): (Parser, seq<ParseResult>)
    decreases |chunks|
  {
    if chunks == [] then (p, [])
    else
      var first := Push(p, chunks[0]);
      var rest := PushChunks(first.0, chunks[1..]);
      (rest.0, first.1 + rest.1)
  }

  function Concat(chunks: seq<seq<Byte>>): seq<Byte>
    decreases |chunks|
  {
    if chunks == [] then [] else chunks[0] + Concat(chunks[1..])
  }

  /** How a stream is cut into chunks makes no difference. */
  lemma {:induction false} ChunksDoNotMatter(p: Parser, chunks: seq<seq<Byte>>)
    ensures PushChunks(p, chunks) == Push(p, Concat(chunks))
    decreases |chunks|
  {
    hide Push;
    if chunks == [] {
      PushNothing(p);
    } else {
      ChunksDoNotMatter(Push(p, chunks[0]).0, chunks[1..]);
      PushAppend(p, chunks[0], Concat(chunks[1..]));
    }
  }

  lemma PushNothing(p: Parser)
    ensures Push(p, []) == (p, [])
  {}

  lemma PushOne(p: Parser, b: Byte)
    ensures Push(p, [b]) == Step(p, b)
  {
    hide Step;
    assert [b][1..] == [];
    assert Push(Step(p, b).0, []) == (Step(p, b).0, []);
    assert Step(p, b).1 + [] == Step(p, b).1;
  }

  // ----- Looking for the magic

  lemma MagicTest(s: seq<Byte>)
    requires |s| == 4
    ensures ReadU32(s) == 0xFEED_0001 <==> s == MAGIC
  {
    hide ReadU32, Little;
    ReadIsLittle(s);
    ReadIsLittle(MAGIC);
    MagicIs();
    if Little(s) == Little(MAGIC) {
      LittleInjective(s, MAGIC);
    }
  }

  predicate MagicAt(s: seq<Byte>, i: nat) {
    i + 4 <= |s| && s[i..i + 4] == MAGIC
  }

  ghost predicate NoMagic(s: seq<Byte>) {
    forall i: nat :: !MagicAt(s, i)
  }

  /** The last three bytes, or fewer. */
  function Last3(s: seq<Byte>): seq<Byte> {
    if |s| <= 3 then s else s[|s| - 3..]
  }

  lemma SeekStep(s: seq<Byte>, b: Byte)
    ensures var p := INITIAL.(buf := Last3(s));
            Step(p, b) == if |s| >= 3 && (s + [b])[|s| - 3..] == MAGIC then (INITIAL.(mode := ReadHeader, buf := MAGIC), [])
                          else (INITIAL.(buf := Last3(s + [b])), [])
  {
    hide ReadU32;
    var buf := Last3(s) + [b];
    if |s| >= 3 {
      assert buf == (s + [b])[|s| - 3..];
      assert buf[..4] == buf;
      MagicTest(buf);
      assert buf[1..] == Last3(s + [b]);
    } else {
      assert buf == Last3(s + [b]);
    }
  }

  /** While no magic has gone by, the parser keeps the last three bytes and emits nothing. */
  lemma {:induction false} SeekKeeps(s: seq<Byte>)
    requires NoMagic(s)
    ensures Push(INITIAL, s) == (INITIAL.(buf := Last3(s)), [])
    decreases |s|
  {
    hide Push, Step, NoMagic, MAGIC;
    if s == [] {
      PushNothing(INITIAL);
    } else {
      var n := |s| - 1;
      assert s == s[..n] + [s[n]];
      NoMagicPrefix(s);
      SeekKeeps(s[..n]);
      var p := INITIAL.(buf := Last3(s[..n]));
      PushSilent(INITIAL, s[..n], [s[n]], p);
      PushOne(p, s[n]);
      SeekStep(s[..n], s[n]);
      assert |s| >= 4 ==> s[|s| - 4..] == s[|s[..n]| - 3..];
    }
  }

  lemma NoMagicPrefix(s: seq<Byte>)
    requires NoMagic(s) && |s| > 0
    ensures NoMagic(s[..|s| - 1])
    ensures |s| >= 4 ==> s[|s| - 4..] != MAGIC
  {
    var n := |s| - 1;
    forall i: nat ensures !MagicAt(s[..n], i) {
      assert !MagicAt(s, i);
      if i + 4 <= n {
        assert s[..n][i..i + 4] == s[i..i + 4];
      }
    }
    if |s| >= 4 {
      assert !MagicAt(s, n - 3);
      assert s[n - 3..n - 3 + 4] == s[|s| - 4..];
    }
  }

  /** The magic has no border: it cannot begin in garbage and end inside the next magic. */
  lemma NoStraddle(g: seq<Byte>)
    requires NoMagic(g)
    ensures NoMagic(g + MAGIC[..3])
  {
    var s := g + MAGIC[..3];
    forall i: nat ensures !MagicAt(s, i) {
      if i + 4 <= |g| {
        assert !MagicAt(g, i);
        assert s[i..i + 4] == g[i..i + 4];
      } else if i + 4 <= |s| {
        assert s[i..i + 4][3] == s[i + 3];
        assert s[i + 3] == MAGIC[..3][i + 3 - |g|];
      }
    }
  }

  /** After garbage the magic is found exactly where the frame starts. */
  lemma FindsMagic(g: seq<Byte>)
    requires NoMagic(g)
    ensures Push(INITIAL, g + MAGIC) == (INITIAL.(mode := ReadHeader, buf := MAGIC), [])
  {
    hide Push, Step, NoMagic;
    var s := g + MAGIC[..3];
    NoStraddle(g);
    SeekKeeps(s);
    assert g + MAGIC == s + [MAGIC[3]];
    PushSilent(INITIAL, s, [MAGIC[3]], INITIAL.(buf := Last3(s)));
    PushOne(INITIAL.(buf := Last3(s)), MAGIC[3]);
    SeekStep(s, MAGIC[3]);
    assert (s + [MAGIC[3]])[|s| - 3..] == MAGIC;
  }

  // ----- One frame

  /** Bytes laid out as a frame; the checksum and the type may be anything. */
  predicate FrameShaped(f: seq<Byte>) {
    |f| >= HEADER_SIZE && f[..4] == MAGIC && |f| == HEADER_SIZE + ReadU16(f[5..7]) + TRAILER_SIZE
  }

  function FrameResult(f: seq<Byte>): ParseResult
    requires FrameShaped(f)
  {
    Dispatch(f[4], ReadU16(f[5..7]), f)
  }

  /** The state after k bytes of a frame. */
  function Collecting(f: seq<Byte>, k: nat): Parser
    requires FrameShaped(f) && 4 <= k < |f|
  {
    var length := ReadU16(f[5..7]);
    if k < HEADER_SIZE then Parser(ReadHeader, f[..k], 0, UNKNOWN)
    else Parser(if k < HEADER_SIZE + length then ReadPayload else ReadTrailer, f[..k], length, f[4])
  }

  lemma CollectStep(f: seq<Byte>, k: nat)
    requires FrameShaped(f) && 4 <= k < |f|
    ensures Step(Collecting(f, k), f[k]) ==
              if k + 1 < |f| then (Collecting(f, k + 1), []) else (INITIAL, [FrameResult(f)])
  {
    hide Crc, ReadU32, Interpret, ReadU16;
    assert f[..k] + [f[k]] == f[..k + 1];
    if k + 1 == HEADER_SIZE {
      assert f[..k + 1][5..7] == f[5..7];
      LengthInRange(f[5..7]);
    }
    if k + 1 == |f| {
      assert f[..|f|] == f;
    }
  }

  lemma LengthInRange(s: seq<Byte>)
    requires |s| == 2
    ensures ReadU16(s) <= MAX_PAYLOAD
  {}

  lemma {:induction false} Collects(f: seq<Byte>, k: nat)
    requires FrameShaped(f) && 4 <= k < |f|
    ensures Push(Collecting(f, k), f[k..]) == (INITIAL, [FrameResult(f)])
    decreases |f| - k
  {
    hide Step, Collecting, FrameResult, FrameShaped, Push;
    CollectStep(f, k);
    assert f[k..] == [f[k]] + f[k + 1..];
    PushOne(Collecting(f, k), f[k]);
    if k + 1 < |f| {
      PushSilent(Collecting(f, k), [f[k]], f[k + 1..], Collecting(f, k + 1));
      Collects(f, k + 1);
    } else {
      assert f[k..] == [f[k]];
    }
  }

  /** Whatever its content, a frame after garbage is consumed whole and yields one result. */
  lemma FrameParses(g: seq<Byte>, f: seq<Byte>)
    requires NoMagic(g) && FrameShaped(f)
    ensures Push(INITIAL, g + f) == (INITIAL, [FrameResult(f)])
  {
    hide Push, Step, NoMagic, FrameResult, ReadU16;
    FindsMagic(g);
    assert g + f == (g + MAGIC) + f[4..];
    PushSilent(INITIAL, g + MAGIC, f[4..], Collecting(f, 4));
    Collects(f, 4);
  }

  /** The payload of a frame with an intact checksum: the type code picks the structure, a payload shorter than it
      is truncated unless it is a heartbeat's, which then reads as zeros, and a longer one is cut off. */
  function Reading(code: Byte, payload: seq<Byte>): ParseResult {
    if code == 0x01 then Whole(Tick, 128, payload)
    else if code == 0x02 then Whole(Bar, 128, payload)
    else if code == 0x03 then
      Decoded(Message(Heartbeat, if |payload| >= 8 then payload[..8] else [0, 0, 0, 0, 0, 0, 0, 0]))
    else if code == 0x10 then Whole(Subscribe, 8, payload)
    else if code == 0x11 then Whole(Ack, 16, payload)
    else Failed(UnknownType)
  }

  function Whole(k: Kind, size: nat, payload: seq<Byte>): ParseResult {
    if |payload| >= size then Decoded(Message(k, payload[..size])) else Failed(Truncated)
  }

  lemma InterpretReads(code: Byte, payload: seq<Byte>)
    ensures Interpret(code, payload) == Reading(code, payload)
  {
    assert seq(8, _ => 0 as Byte) == [0, 0, 0, 0, 0, 0, 0, 0];
  }

  /** What comes out of any block that starts with the magic and has the announced length, after garbage: BadCRC
      exactly when the last four bytes are not the checksum of the others, and otherwise the reading of its
      payload by its type code. */
  lemma FrameOutcome(g: seq<Byte>, f: seq<Byte>)
    requires NoMagic(g) && |f| >= 11 && f[..4] == [0x01, 0x00, 0xED, 0xFE]
    requires f[5] as int + 256 * (f[6] as int) == |f| - 11
    ensures var end := |f| - 4;
            Push(INITIAL, g + f) ==
              (INITIAL, [if f[end..] != WriteU32(Crc(f[..end])) then Failed(BadCRC) else Reading(f[4], f[7..end])])
  {
    hide Push, NoMagic, Reading, Interpret, ReadU32, WriteU32, Crc, Value;
    ValueIsNumber(f[5]);
    ValueIsNumber(f[6]);
    FrameParses(g, f);
    InterpretReads(f[4], f[7..|f| - 4]);
    ChecksumIs(f[|f| - 4..], Crc(f[..|f| - 4]));
  }

  lemma ChecksumIs(s: seq<Byte>, c: Word)
    requires |s| == 4
    ensures ReadU32(s) == c <==> s == WriteU32(c)
  {
    hide ReadU32, WriteU32, Little;
    U32RoundTrip(c);
    if ReadU32(s) == c {
      ReadIsLittle(s);
      ReadIsLittle(WriteU32(c));
      LittleInjective(s, WriteU32(c));
    }
  }

  lemma EncodedFrame(m: Message)
    requires WellFormed(m)
    ensures FrameShaped(Encode(m)) && FrameResult(Encode(m)) == Decoded(m)
  {
    hide Crc, ReadU32, WriteU32, ReadU16, WriteU16;
    var n := |m.body|;
    var f := Encode(m);
    var body := Header(Code(m.kind), n) + m.body;
    assert f[5..7] == WriteU16(n);
    U16RoundTrip(n);
    assert f[7 + n..] == WriteU32(Crc(body)) && f[..7 + n] == body && f[7..7 + n] == m.body;
    U32RoundTrip(Crc(body));
    assert m.body[..n] == m.body;
  }

  // ----- Streams

  /** Each message preceded by garbage, which may be empty. */
  function Stream(items: seq<(seq<Byte>, Message)>): seq<Byte>
    decreases |items|
  {
    if items == [] then [] else items[0].0 + Encode(items[0].1) + Stream(items[1..])
  }

  function Messages(items: seq<(seq<Byte>, Message)>): (r: seq<ParseResult>)
    ensures |r| == |items|
  {
    seq(|items|, i requires 0 <= i < |items| => Decoded(items[i].1))
  }

  ghost predicate Sendable(items: seq<(seq<Byte>, Message)>) {
    forall i :: 0 <= i < |items| ==> NoMagic(items[i].0) && WellFormed(items[i].1)
  }

  lemma MessagesStep(items: seq<(seq<Byte>, Message)>)
    requires items != []
    ensures [Decoded(items[0].1)] + Messages(items[1..]) == Messages(items)
  {}

  /** The parser inverts the encoder and resynchronises: for any garbage without a magic between any
      messages it emits exactly those messages in order and ends in its initial state. */
  lemma {:induction false} ParserInvertsEncoder(items: seq<(seq<Byte>, Message)>)
    requires Sendable(items)
    ensures Push(INITIAL, Stream(items)) == (INITIAL, Messages(items))
    decreases |items|
  {
    hide Push, NoMagic, WellFormed, Encode, Messages, FrameResult, FrameShaped;
    if items == [] {
      PushNothing(INITIAL);
    } else {
      var g, m := items[0].0, items[0].1;
      EncodedFrame(m);
      FrameParses(g, Encode(m));
      ParserInvertsEncoder(items[1..]);
      PushAppend(INITIAL, g + Encode(m), Stream(items[1..]));
      MessagesStep(items);
    }
  }

  /** The same for a stream cut into chunks in any way. */
  lemma ParserInvertsEncoderInChunks(items: seq<(seq<Byte>, Message)>, chunks: seq<seq<Byte>>)
    requires Sendable(items) && Concat(chunks) == Stream(items)
    ensures PushChunks(INITIAL, chunks) == (INITIAL, Messages(items))
  {
    hide Push, Sendable;
    ChunksDoNotMatter(INITIAL, chunks);
    ParserInvertsEncoder(items);
  }

  // ----- Damage

  /** f with at most four consecutive bytes changed, magic and length kept. */
  ghost predicate Damaged(f: seq<Byte>, d: seq<Byte>) {
    && |d| == |f| >= HEADER_SIZE && d != f
    && d[..4] == f[..4] && d[5..7] == f[5..7]
    && exists at, n: nat :: DiffersWithin(f, d, at, n)
  }

  ghost predicate DiffersWithin(f: seq<Byte>, d: seq<Byte>, at: nat, n: nat) {
    n <= 4 && |d| == |f| && at + n <= |f| && f[..at] == d[..at] && f[at + n..] == d[at + n..]
  }

  lemma ChecksumOk(f: seq<Byte>)
    requires FrameShaped(f)
    ensures ReadU32(f[|f| - 4..]) == Crc(f[..|f| - 4]) <==> FeedAll(ONES, f) == Bits(ONES, 32)
  {
    hide FeedAll, ReadU32, Crc, Bits, Little;
    ReadIsLittle(f[|f| - 4..]);
    ResidueTest(f[..|f| - 4], f[|f| - 4..]);
    assert f == f[..|f| - 4] + f[|f| - 4..];
  }

  /** Damage to an intact frame always makes the checksum fail: nothing is decoded from it. */
  lemma DamageIsDetected(f: seq<Byte>, d: seq<Byte>)
    requires FrameShaped(f) && FrameResult(f) != Failed(BadCRC) && Damaged(f, d)
    ensures FrameShaped(d) && FrameResult(d) == Failed(BadCRC)
  {
    hide FeedAll, ReadU32, Crc, Bits, ReadU16, Interpret;
    var at: nat, n: nat :| DiffersWithin(f, d, at, n);
    ChecksumOk(f);
    var v, w := f[at..at + n], d[at..at + n];
    assert f == f[..at] + v + f[at + n..];
    assert d == f[..at] + w + f[at + n..];
    BurstChangesRegister(ONES, f[..at], v, w, f[at + n..]);
    ChecksumOk(d);
  }

  /** A damaged frame between good ones costs exactly that one message. */
  lemma DamageCostsOneMessage(before: seq<(seq<Byte>, Message)>, g: seq<Byte>, m: Message, d: seq<Byte>,
                              after: seq<(seq<Byte>, Message)>)
    requires Sendable(before) && Sendable(after) && NoMagic(g) && WellFormed(m) && Damaged(Encode(m), d)
    ensures Push(INITIAL, Stream(before) + (g + d) + Stream(after)) ==
              (INITIAL, Messages(before) + [Failed(BadCRC)] + Messages(after))
  {
    hide Push, Sendable, NoMagic, WellFormed, Encode, Damaged, FrameShaped, FrameResult, Stream, Messages;
    EncodedFrame(m);
    DamageIsDetected(Encode(m), d);
    ParserInvertsEncoder(before);
    FrameParses(g, d);
    ParserInvertsEncoder(after);
    PushAppend(INITIAL, Stream(before), g + d);
    PushAppend(INITIAL, Stream(before) + (g + d), Stream(after));
  }

  // ----- Nothing is invented

  predicate FrameAt(s: seq<Byte>, i: nat, j: nat) {
    i <= j <= |s| && FrameShaped(s[i..j])
  }

  /** The result is that of the frame which stands at the span. */
  predicate ResultOf(s: seq<Byte>, span: (nat, nat), r: ParseResult) {
    FrameAt(s, span.0, span.1) && FrameResult(s[span.0..span.1]) == r
  }

  /** The results are those of frames of the stream, one after the other and without overlap, the last
      ending by the limit. */
  ghost predicate DisjointFrames(s: seq<Byte>, results: seq<ParseResult>, spans: seq<(nat, nat)>, limit: nat) {
    && |spans| == |results|
    && (forall i :: 0 <= i < |spans| ==> ResultOf(s, spans[i], results[i]) && spans[i].1 <= limit)
    && (forall i, j :: 0 <= i < j < |spans| ==> spans[i].1 <= spans[j].0)
  }

  /** The buffer is the end of the stream so far, and what has been recognised of it is so. */
  predicate Tracks(p: Parser, s: seq<Byte>) {
    && |p.buf| <= |s| && s[|s| - |p.buf|..] == p.buf
    && match p.mode
       case SeekMagic => |p.buf| <= 3
       case ReadHeader => 4 <= |p.buf| < HEADER_SIZE && p.buf[..4] == MAGIC
       case _ =>
         && |p.buf| >= HEADER_SIZE && p.buf[..4] == MAGIC && p.code == p.buf[4] && p.payloadLen == ReadU16(p.buf[5..7])
         && if p.mode == ReadPayload then |p.buf| < HEADER_SIZE + p.payloadLen
            else HEADER_SIZE + p.payloadLen <= |p.buf| < HEADER_SIZE + p.payloadLen + TRAILER_SIZE
  }

  lemma TrackGrows(p: Parser, s: seq<Byte>, b: Byte)
    requires Tracks(p, s)
    ensures var buf := p.buf + [b];
            |buf| <= |s + [b]| && (s + [b])[|s + [b]| - |buf|..] == buf
  {
    hide ReadU16;
  }

  lemma TrackSeek(p: Parser, s: seq<Byte>, b: Byte)
    requires Tracks(p, s) && p.mode == SeekMagic
    ensures Tracks(Step(p, b).0, s + [b]) && Step(p, b).1 == []
  {
    TrackGrows(p, s, b);
    if |p.buf| < 3 {
      hide ReadU16, ReadU32, Dispatch;
    } else {
      SlideOrFind(p, b);
      SeekTracks(p.buf + [b], s + [b], p);
    }
  }

  /** With four bytes in hand the parser has found the magic or lets the oldest byte go. */
  lemma SlideOrFind(p: Parser, b: Byte)
    requires p.mode == SeekMagic && |p.buf| == 3
    ensures var buf := p.buf + [b];
            Step(p, b) == if buf == MAGIC then (p.(mode := ReadHeader, buf := buf), []) else (p.(buf := buf[1..]), [])
  {
    hide ReadU32, ReadU16, MAGIC;
    var buf := p.buf + [b];
    assert buf[..4] == buf;
    MagicTest(buf);
  }

  lemma SeekTracks(buf: seq<Byte>, s: seq<Byte>, p: Parser)
    requires |buf| == 4 <= |s| && s[|s| - 4..] == buf
    ensures buf == MAGIC ==> Tracks(p.(mode := ReadHeader, buf := buf), s)
    ensures Tracks(p.(mode := SeekMagic, buf := buf[1..]), s)
  {
    hide ReadU16;
    assert buf[..4] == buf;
    assert s[|s| - 3..] == buf[1..];
  }

  lemma TrackHeader(p: Parser, s: seq<Byte>, b: Byte)
    requires Tracks(p, s) && p.mode == ReadHeader
    ensures Tracks(Step(p, b).0, s + [b]) && Step(p, b).1 == []
  {
    hide ReadU16, ReadU32;
    TrackGrows(p, s, b);
    var buf := p.buf + [b];
    assert buf[..4] == p.buf[..4];
    if |buf| == HEADER_SIZE {
      LengthInRange(buf[5..7]);
    }
  }

  /** A step emits nothing, or the result of the frame that fills the buffer and ends with the byte. */
  ghost predicate StepEmits(p: Parser, s: seq<Byte>, b: Byte) {
    && |p.buf| <= |s|
    && var r := Step(p, b);
       if r.1 == [] then |r.0.buf| <= |p.buf| + 1
       else |r.1| == 1 && r.0.buf == [] && ResultOf(s + [b], (|s| - |p.buf|, |s| + 1), r.1[0])
  }

  lemma TrackBody(p: Parser, s: seq<Byte>, b: Byte)
    requires Tracks(p, s) && (p.mode == ReadPayload || p.mode == ReadTrailer)
    ensures Tracks(Step(p, b).0, s + [b]) && StepEmits(p, s, b)
  {
    hide ReadU16, ReadU32, Dispatch;
    TrackGrows(p, s, b);
    var buf := p.buf + [b];
    assert buf[..4] == p.buf[..4] && buf[5..7] == p.buf[5..7];
    if p.mode == ReadTrailer && |buf| == HEADER_SIZE + p.payloadLen + TRAILER_SIZE {
      assert buf[..|buf|] == buf;
      assert (s + [b])[|s| - |p.buf|..|s| + 1] == buf;
    }
  }

  lemma StepIsShort(p: Parser, b: Byte)
    ensures |Step(p, b).0.buf| <= |p.buf| + 1
  {
    hide ReadU16, ReadU32, Dispatch;
  }

  lemma TrackStep(p: Parser, s: seq<Byte>, b: Byte)
    requires Tracks(p, s)
    ensures |Step(p, b).0.buf| <= |s| + 1
    ensures Tracks(Step(p, b).0, s + [b]) && StepEmits(p, s, b)
  {
    TracksBuffer(p, s);
    hide Tracks, Step, ResultOf;
    StepIsShort(p, b);
    match p.mode
    case SeekMagic => TrackSeek(p, s, b);
    case ReadHeader => TrackHeader(p, s, b);
    case ReadPayload => TrackBody(p, s, b);
    case ReadTrailer => TrackBody(p, s, b);
  }

  lemma TracksBuffer(p: Parser, s: seq<Byte>)
    requires Tracks(p, s)
    ensures |p.buf| <= |s|
  {
    hide ReadU16;
  }

  lemma SpanInLongerStream(s: seq<Byte>, b: Byte, span: (nat, nat), r: ParseResult)
    requires ResultOf(s, span, r)
    ensures ResultOf(s + [b], span, r)
  {
    hide FrameShaped, FrameResult;
    assert (s + [b])[span.0..span.1] == s[span.0..span.1];
  }

  lemma SpansInLongerStream(s: seq<Byte>, b: Byte, results: seq<ParseResult>, spans: seq<(nat, nat)>, limit: nat)
    requires DisjointFrames(s, results, spans, limit)
    ensures DisjointFrames(s + [b], results, spans, limit)
  {
    hide ResultOf;
    forall i | 0 <= i < |spans| ensures ResultOf(s + [b], spans[i], results[i]) {
      SpanInLongerStream(s, b, spans[i], results[i]);
    }
  }

  lemma OneMoreFrame(s: seq<Byte>, results: seq<ParseResult>, spans: seq<(nat, nat)>, limit: nat, span: (nat, nat), r: ParseResult)
    requires DisjointFrames(s, results, spans, limit) && ResultOf(s, span, r) && limit <= span.0 <= span.1
    ensures DisjointFrames(s, results + [r], spans + [span], span.1)
  {
    hide ResultOf;
  }

  /** Whatever bytes arrive, the results are those of disjoint frames of the stream at increasing positions:
      a message is decoded once, and only from a magic, a length and a matching checksum all received. */
  lemma {:induction false} NothingIsInvented(s: seq<Byte>) returns (spans: seq<(nat, nat)>)
    ensures var r := Push(INITIAL, s);
            Tracks(r.0, s) && |r.0.buf| <= |s| && DisjointFrames(s, r.1, spans, |s| - |r.0.buf|)
    decreases |s|
  {
    hide Push, Step, Tracks, DisjointFrames, ResultOf, INITIAL;
    if s == [] {
      PushNothing(INITIAL);
      StartTracks();
      spans := [];
      NoFrames();
    } else {
      var t, b := s[..|s| - 1], s[|s| - 1];
      assert s == t + [b];
      spans := NothingIsInvented(t);
      var r := Push(INITIAL, t);
      PushMore(INITIAL, t, b, r);
      spans := FramesAfterStep(r.0, t, b, r.1, spans);
    }
  }

  lemma PushMore(p: Parser, t: seq<Byte>, b: Byte, r: (Parser, seq<ParseResult>))
    requires r == Push(p, t)
    ensures Push(p, t + [b]) == (Step(r.0, b).0, r.1 + Step(r.0, b).1)
  {
    hide Push, Step;
    PushAppend(p, t, [b]);
    PushOne(r.0, b);
  }

  lemma FramesAfterStep(p: Parser, t: seq<Byte>, b: Byte, results: seq<ParseResult>, before: seq<(nat, nat)>)
    returns (spans: seq<(nat, nat)>)
    requires Tracks(p, t) && |p.buf| <= |t| && DisjointFrames(t, results, before, |t| - |p.buf|)
    ensures var e := Step(p, b);
            && Tracks(e.0, t + [b]) && |e.0.buf| <= |t| + 1
            && DisjointFrames(t + [b], results + e.1, spans, |t| + 1 - |e.0.buf|)
  {
    hide Step, Tracks, DisjointFrames, ResultOf;
    TrackStep(p, t, b);
    var start := |t| - |p.buf|;
    SpansInLongerStream(t, b, results, before, start);
    var e := Step(p, b);
    if e.1 == [] {
      assert results + [] == results;
      LaterLimit(t + [b], results, before, start, |t| + 1 - |e.0.buf|);
      spans := before;
    } else {
      OneMoreFrame(t + [b], results, before, start, (start, |t| + 1), e.1[0]);
      assert e.1 == [e.1[0]];
      spans := before + [(start, |t| + 1)];
    }
  }

  lemma NoFrames()
    ensures DisjointFrames([], [], [], 0)
  {}

  lemma LaterLimit(s: seq<Byte>, results: seq<ParseResult>, spans: seq<(nat, nat)>, limit: nat, later: nat)
    requires DisjointFrames(s, results, spans, limit) && limit <= later
    ensures DisjointFrames(s, results, spans, later)
  {
    hide ResultOf;
  }

  lemma StartTracks()
    ensures Tracks(INITIAL, [])
  {}

  lemma FrameNeverReports(f: seq<Byte>)
    requires FrameShaped(f)
    ensures FrameResult(f) != Failed(BadMagic) && FrameResult(f) != Failed(PayloadTooLarge)
  {
    hide Crc, ReadU32;
  }

  /** Two of the error codes never occur: the seek skips over a bad magic, and a sixteen-bit length
      cannot exceed the limit. */
  lemma UnusedErrors(s: seq<Byte>)
    ensures forall r :: r in Push(INITIAL, s).1 ==> r != Failed(BadMagic) && r != Failed(PayloadTooLarge)
  {
    hide Push, Tracks, FrameShaped, FrameResult;
    var spans := NothingIsInvented(s);
    var results := Push(INITIAL, s).1;
    forall r | r in results ensures r != Failed(BadMagic) && r != Failed(PayloadTooLarge) {
      var i :| 0 <= i < |results| && results[i] == r;
      assert ResultOf(s, spans[i], r);
      FrameNeverReports(s[spans[i].0..spans[i].1]);
    }
  }
}
