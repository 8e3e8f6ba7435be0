/** The wire frame: magic, type, length, payload, checksum; all fields little-endian. */
module WireFormat {
  import opened Basics
  import opened Bytes
  import opened Crc32s

  /** 0xFEED0001, least significant byte first. */
  const MAGIC: seq<Byte> := [0x01, 0x00, 0xED, 0xFE]

  const HEADER_SIZE: nat := 7
  const TRAILER_SIZE: nat := 4
  const MAX_PAYLOAD: nat := 65535

  datatype Kind = Tick | Bar | Heartbeat | Subscribe | Ack

  const UNKNOWN: Byte := 0xFF

  /** A message is the bytes of its structure. */
  datatype Message = Message(kind: Kind, body: seq<Byte>)

  function Code(k: Kind): Byte {
    match k
    case Tick => 0x01
    case Bar => 0x02
    case Heartbeat => 0x03
    case Subscribe => 0x10
    case Ack => 0x11
  }

  function KindOf(code: Byte): Option<Kind> {
    if code == 0x01 then Some(Tick)
    else if code == 0x02 then Some(Bar)
    else if code == 0x03 then Some(Heartbeat)
    else if code == 0x10 then Some(Subscribe)
    else if code == 0x11 then Some(Ack)
    else None
  }

  /** The size of the structure in memory. */
  function SizeOf(k: Kind): nat {
    match k
    case Tick => 128
    case Bar => 128
    case Heartbeat => 8
    case Subscribe => 8
    case Ack => 16
  }

  predicate WellFormed(m: Message) {
    |m.body| == SizeOf(m.kind)
  }

  function WriteU16(n: nat): (s: seq<Byte>)
    ensures |s| == 2
  {
    [ByteOf(n % 256), ByteOf(n / 256 % 256)]
  }

  function ReadU16(s: seq<Byte>): nat
    requires |s| == 2
  {
    Value(s[0]) + 256 * Value(s[1])
  }

  lemma TwoDigits(n: nat)
    requires n < 0x1_0000
    ensures n % 256 + 256 * (n / 256 % 256) == n
  {}

  lemma U16RoundTrip(n: nat)
    requires n <= MAX_PAYLOAD
    ensures ReadU16(WriteU16(n)) == n
  {
    hide Value, ByteOf;
    var low, high := n % 256, n / 256 % 256;
    ValueOfByte(low);
    ValueOfByte(high);
    assert ReadU16(WriteU16(n)) == low + 256 * high;
    TwoDigits(n);
  }

  function WriteU32(c: Word): (s: seq<Byte>)
    ensures |s| == 4
  {
    [LowByte(c), LowByte(Shift8(c)), LowByte(Shift8(Shift8(c))), LowByte(Shift8(Shift8(Shift8(c))))]
  }

  function ReadU32(s: seq<Byte>): Word
    requires |s| == 4
  {
    Widen(s[0]) | (Widen(s[1]) << 8) | (Widen(s[2]) << 16) | (Widen(s[3]) << 24)
  }

  lemma U32RoundTrip(c: Word)
    ensures ReadU32(WriteU32(c)) == c
  {
    hide LowByte, Shift8, Widen;
    Reassemble(c);
  }

  lemma Reassemble(c: Word)
    ensures Widen(LowByte(c)) | (Widen(LowByte(Shift8(c))) << 8) | (Widen(LowByte(Shift8(Shift8(c)))) << 16)
            | (Widen(LowByte(Shift8(Shift8(Shift8(c))))) << 24) == c
  {}

  /** The field reader and the word of the checksum proofs agree. */
  lemma ReadIsLittle(s: seq<Byte>)
    requires |s| == 4
    ensures ReadU32(s) == Little(s)
  {
    hide Widen, Shl8, Xor;
    var s1, s2, s3 := s[1..], s[2..], s[3..];
    assert s1[1..] == s2 && s2[1..] == s3 && s3[1..] == [];
    assert Little(s3) == Xor(Widen(s[3]), Shl8(0));
    assert Little(s2) == Xor(Widen(s[2]), Shl8(Little(s3)));
    assert Little(s1) == Xor(Widen(s[1]), Shl8(Little(s2)));
    FourBytes(s[0], s[1], s[2], s[3]);
  }

  lemma FourBytes(a: Byte, b: Byte, c: Byte, d: Byte)
    ensures Widen(a) | (Widen(b) << 8) | (Widen(c) << 16) | (Widen(d) << 24) ==
            Xor(Widen(a), Shl8(Xor(Widen(b), Shl8(Xor(Widen(c), Shl8(Xor(Widen(d), Shl8(0))))))))
  {}

  /** The magic is the four bytes of 0xFEED0001. */
  lemma MagicIs()
    ensures ReadU32(MAGIC) == 0xFEED_0001
  {}

  function Header(code: Byte, length: nat): (s: seq<Byte>)
    ensures |s| == HEADER_SIZE
  {
    MAGIC + [code] + WriteU16(length)
  }

  /** The whole frame around a payload. */
  function Frame(code: Byte, payload: seq<Byte>): (f: seq<Byte>)
    ensures |f| == HEADER_SIZE + |payload| + TRAILER_SIZE
  {
    var body := Header(code, |payload|) + payload;
    body + WriteU32(Crc(body))
  }

  function Encode(m: Message): seq<Byte> {
    Frame(Code(m.kind), m.body)
  }

  lemma LittleEndian16(n: nat)
    requires n <= MAX_PAYLOAD
    ensures WriteU16(n)[0] as int == n % 256 && WriteU16(n)[1] as int == n / 256
  {
    hide Value, ByteOf;
    var low, high := n % 256, n / 256 % 256;
    ValueOfByte(low);
    ValueOfByte(high);
    ValueIsNumber(ByteOf(low));
    ValueIsNumber(ByteOf(high));
    HighDigit(n);
  }

  lemma HighDigit(n: nat)
    requires n < 0x1_0000
    ensures n / 256 % 256 == n / 256
  {}

  lemma LittleEndian32(c: Word)
    ensures var w := WriteU32(c);
            && w[0] as Word == c & 0xFF && w[1] as Word == (c >> 8) & 0xFF
            && w[2] as Word == (c >> 16) & 0xFF && w[3] as Word == (c >> 24) & 0xFF
  {}

  lemma CodeOnTheWire(k: Kind)
    ensures match k
            case Tick => Code(k) == 0x01 && SizeOf(k) == 128
            case Bar => Code(k) == 0x02 && SizeOf(k) == 128
            case Heartbeat => Code(k) == 0x03 && SizeOf(k) == 8
            case Subscribe => Code(k) == 0x10 && SizeOf(k) == 8
            case Ack => Code(k) == 0x11 && SizeOf(k) == 16
  {}

  /** The bytes of an encoded message, one by one: the magic 0xFEED0001 from its low byte up, the type code, the
      length of the payload low byte first, the payload, and the checksum of all before it low byte first. */
  lemma BytesOnTheWire(m: Message)
    requires WellFormed(m)
    ensures var f, n := Encode(m), |m.body|;
            && |f| == n + 11
            && f[0] == 0x01 && f[1] == 0x00 && f[2] == 0xED && f[3] == 0xFE
            && (m.kind == Tick ==> f[4] == 0x01 && n == 128) && (m.kind == Bar ==> f[4] == 0x02 && n == 128)
            && (m.kind == Heartbeat ==> f[4] == 0x03 && n == 8) && (m.kind == Subscribe ==> f[4] == 0x10 && n == 8)
            && (m.kind == Ack ==> f[4] == 0x11 && n == 16)
            && f[5] as int == n % 256 && f[6] as int == n / 256
            && f[7..n + 7] == m.body
            && var c := Crc(f[..n + 7]);
               && f[n + 7] as Word == c & 0xFF && f[n + 8] as Word == (c >> 8) & 0xFF
               && f[n + 9] as Word == (c >> 16) & 0xFF && f[n + 10] as Word == (c >> 24) & 0xFF
  {
    hide Code, SizeOf, WriteU16, WriteU32, Crc;
    var f, n := Encode(m), |m.body|;
    var body := Header(Code(m.kind), n) + m.body;
    CodeOnTheWire(m.kind);
    LittleEndian16(n);
    LittleEndian32(Crc(body));
    assert f[..n + 7] == body && f[7..n + 7] == m.body;
    assert f[5..7] == WriteU16(n) && f[n + 7..] == WriteU32(Crc(body));
    assert f[5] == f[5..7][0] && f[6] == f[5..7][1];
  }

  /** write_frame: nothing is written when the buffer is too small. */
  method WriteFrame(table: seq<Word>, code: Byte, payload: seq<Byte>, buf: array<Byte>) returns (n: nat)
    requires IsTable(table)
    modifies buf
    ensures n == if buf.Length < HEADER_SIZE + |payload| + TRAILER_SIZE then 0 else HEADER_SIZE + |payload| + TRAILER_SIZE
    ensures buf[..n] == if n == 0 then [] else Frame(code, payload)
    ensures buf[n..] == old(buf[n..])
  {
    hide IsTable, Crc, WriteU32, Header;
    var total := HEADER_SIZE + |payload| + TRAILER_SIZE;
    if buf.Length < total {
      return 0;
    }
    var h := HEADER_SIZE + |payload|;
    WriteBody(code, payload, buf);
    var checksum := Crc32(table, buf[..h]);
    label Body:
    Put(buf, h, WriteU32(checksum));
    assert buf[..h] == old@Body(buf[..h]);
    assert buf[h..total] == WriteU32(checksum);
    assert buf[..total] == buf[..h] + buf[h..total];
    assert buf[total..] == old(buf[total..]) by {
      assert old@Body(buf[h..])[TRAILER_SIZE..] == old(buf[h..])[TRAILER_SIZE..];
    }
    n := total;
  }

  /** Everything before the checksum. */
  method WriteBody(code: Byte, payload: seq<Byte>, buf: array<Byte>)
    requires HEADER_SIZE + |payload| <= buf.Length
    modifies buf
    ensures buf[..HEADER_SIZE + |payload|] == Header(code, |payload|) + payload
    ensures buf[HEADER_SIZE + |payload|..] == old(buf[HEADER_SIZE + |payload|..])
  {
    hide WriteU16;
    Put(buf, 0, MAGIC);
    Put(buf, 4, [code]);
    Put(buf, 5, WriteU16(|payload|));
    Put(buf, HEADER_SIZE, payload);
  }

  method Put(buf: array<Byte>, at: nat, bytes: seq<Byte>)
    requires at + |bytes| <= buf.Length
    modifies buf
    ensures forall i :: 0 <= i < buf.Length ==>
              buf[i] == if at <= i < at + |bytes| then bytes[i - at] else old(buf[i])
  {
    for k := 0 to |bytes|
      invariant forall i :: 0 <= i < buf.Length ==>
                  buf[i] == if at <= i < at + k then bytes[i - at] else old(buf[i])
    {
      buf[at + k] := bytes[k];
    }
  }
}
