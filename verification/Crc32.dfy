/** The table-driven CRC-32 of section 8 of RFC 1952: the table step equals eight bit steps, the steps are
    linear and injective, so a change confined to four consecutive bytes always changes the result. */
module Crc32s {
  import opened Basics
  import opened Bytes

  type Word = bv32

  /** The reversed generator polynomial. */
  const POLY: Word := 0xEDB88320

  const ONES: Word := 0xFFFF_FFFF

  function Xor(a: Word, b: Word): Word { a ^ b }

  function Half(c: Word): Word { c >> 1 }

  function Shift8(c: Word): Word { c >> 8 }

  function Low8(c: Word): Word { c & 0xFF }

  predicate Odd(c: Word) { c & 1 == 1 }

  function Widen(b: Byte): Word { b as Word }

  /** One step of the division, least significant bit first. */
  function Bit(c: Word): Word {
    if Odd(c) then Xor(POLY, Half(c)) else Half(c)
  }

  function Bits(c: Word, k: nat): Word
    decreases k
  {
    if k == 0 then c else Bit(Bits(c, k - 1))
  }

  /** The reference step: mix the byte in and divide eight times. */
  function Feed(c: Word, b: Byte): Word {
    Bits(Xor(c, Widen(b)), 8)
  }

  function FeedAll(c: Word, data: seq<Byte>): Word
    decreases |data|
  {
    if data == [] then c else FeedAll(Feed(c, data[0]), data[1..])
  }

  function Crc(data: seq<Byte>): Word {
    Xor(FeedAll(ONES, data), ONES)
  }

  // ----- Linearity and injectivity of the division

  lemma OddXor(a: Word, b: Word)
    ensures Odd(Xor(a, b)) <==> Odd(a) != Odd(b)
  {}

  lemma HalfXor(a: Word, b: Word)
    ensures Half(Xor(a, b)) == Xor(Half(a), Half(b))
  {}

  lemma XorAssociates(a: Word, b: Word, c: Word)
    ensures Xor(Xor(a, b), c) == Xor(a, Xor(b, c))
  {}

  lemma XorCommutes(a: Word, b: Word)
    ensures Xor(a, b) == Xor(b, a)
  {}

  lemma XorVanishes(p: Word, a: Word)
    ensures Xor(p, Xor(p, a)) == a
  {}

  lemma XorMoves(p: Word, a: Word, b: Word)
    ensures Xor(a, b) == Xor(Xor(p, a), Xor(p, b))
    ensures Xor(p, Xor(a, b)) == Xor(Xor(p, a), b)
    ensures Xor(p, Xor(a, b)) == Xor(a, Xor(p, b))
  {
    hide Xor;
    XorAssociates(p, a, b);
    XorAssociates(a, p, b);
    XorCommutes(p, a);
    XorAssociates(a, p, Xor(p, b));
    XorVanishes(p, b);
  }

  lemma XorCancels(a: Word, b: Word, c: Word)
    requires Xor(a, c) == Xor(b, c)
    ensures a == b
  {
    assert (a ^ c) ^ c == a && (b ^ c) ^ c == b;
  }

  lemma BitLinear(a: Word, b: Word)
    ensures Bit(Xor(a, b)) == Xor(Bit(a), Bit(b))
  {
    hide Half, Odd, Xor;
    OddXor(a, b);
    HalfXor(a, b);
    XorMoves(POLY, Half(a), Half(b));
  }

  lemma BitInjective(a: Word, b: Word)
    requires Bit(a) == Bit(b)
    ensures a == b
  {}

  lemma {:induction false} BitsLinear(a: Word, b: Word, k: nat)
    ensures Bits(Xor(a, b), k) == Xor(Bits(a, k), Bits(b, k))
    decreases k
  {
    hide Bit, Xor;
    if k > 0 {
      BitsLinear(a, b, k - 1);
      BitLinear(Bits(a, k - 1), Bits(b, k - 1));
    }
  }

  lemma {:induction false} BitsInjective(a: Word, b: Word, k: nat)
    requires Bits(a, k) == Bits(b, k)
    ensures a == b
    decreases k
  {
    hide Bit;
    if k > 0 {
      BitInjective(Bits(a, k - 1), Bits(b, k - 1));
      BitsInjective(a, b, k - 1);
    }
  }

  lemma {:induction false} BitsAppend(c: Word, j: nat, k: nat)
    ensures Bits(c, j + k) == Bits(Bits(c, j), k)
    decreases k
  {
    hide Bit;
    if k > 0 {
      BitsAppend(c, j, k - 1);
    }
  }

  // ----- The check value

  /** One byte, with the eight registers it leads through. */
  lemma DivideByte(c: Word, b: Byte, s1: Word, s2: Word, s3: Word, s4: Word, s5: Word, s6: Word, s7: Word, s8: Word)
    requires s1 == Bit(Xor(c, Widen(b))) && s2 == Bit(s1) && s3 == Bit(s2) && s4 == Bit(s3)
    requires s5 == Bit(s4) && s6 == Bit(s5) && s7 == Bit(s6) && s8 == Bit(s7)
    ensures Feed(c, b) == s8
  {
    hide Bit, Xor, Widen;
    var x := Xor(c, Widen(b));
    assert Bits(x, 1) == s1 && Bits(x, 2) == s2 && Bits(x, 3) == s3 && Bits(x, 4) == s4;
    assert Bits(x, 5) == s5 && Bits(x, 6) == s6 && Bits(x, 7) == s7 && Bits(x, 8) == s8;
  }

  function FeedThree(c: Word, b0: Byte, b1: Byte, b2: Byte): Word {
    Feed(Feed(Feed(c, b0), b1), b2)
  }

  lemma FeedFirst(c: Word, data: seq<Byte>, rest: seq<Byte>)
    requires data != [] && rest == data[1..]
    ensures FeedAll(c, data) == FeedAll(Feed(c, data[0]), rest)
  {}

  lemma FeedThreeOf(c: Word, b0: Byte, b1: Byte, b2: Byte, rest: seq<Byte>)
    ensures FeedAll(c, [b0, b1, b2] + rest) == FeedAll(FeedThree(c, b0, b1, b2), rest)
  {
    hide Feed, FeedAll;
    FeedFirst(c, [b0, b1, b2] + rest, [b1, b2] + rest);
    FeedFirst(Feed(c, b0), [b1, b2] + rest, [b2] + rest);
    FeedFirst(Feed(Feed(c, b0), b1), [b2] + rest, rest);
  }

  lemma CheckPart1()
    ensures FeedThree(0xFFFFFFFF, 0x31, 0x32, 0x33) == 0x77B79C2D
  {
    hide Feed, Bits;
    DivideByte(0xFFFFFFFF, 0x31, 0x7FFFFFE7, 0xD2477CD3, 0x849B3D49, 0xAFF51D84, 0x57FA8EC2, 0x2BFD4761, 0xF8462090, 0x7C231048);
    DivideByte(0x7C231048, 0x32, 0x3E11883D, 0xF2B0473E, 0x7958239F, 0xD11492EF, 0x8532CA57, 0xAF21E60B, 0xBA287025, 0xB0ACBB32);
    DivideByte(0xB0ACBB32, 0x33, 0xB5EEDEA0, 0x5AF76F50, 0x2D7BB7A8, 0x16BDDBD4, 0x0B5EEDEA, 0x05AF76F5, 0xEF6F385A, 0x77B79C2D);
  }

  lemma CheckPart2()
    ensures FeedThree(0x77B79C2D, 0x34, 0x35, 0x36) == 0xF68D2C9E
  {
    hide Feed, Bits;
    DivideByte(0x77B79C2D, 0x34, 0xD6634D2C, 0x6B31A696, 0x3598D34B, 0xF774EA85, 0x9602F662, 0x4B017B31, 0xC8383EB8, 0x641C1F5C);
    DivideByte(0x641C1F5C, 0x35, 0xDFB68C94, 0x6FDB464A, 0x37EDA325, 0xF64E52B2, 0x7B272959, 0xD02B178C, 0x68158BC6, 0x340AC5E3);
    DivideByte(0x340AC5E3, 0x36, 0xF7BDE1CA, 0x7BDEF0E5, 0xD057FB52, 0x682BFDA9, 0xD9AD7DF4, 0x6CD6BEFA, 0x366B5F7D, 0xF68D2C9E);
  }

  lemma CheckPart3()
    ensures FeedThree(0xF68D2C9E, 0x37, 0x38, 0x39) == 0x340BC6D9
  {
    hide Feed, Bits;
    DivideByte(0xF68D2C9E, 0x37, 0x96FE1574, 0x4B7F0ABA, 0x25BF855D, 0xFF67418E, 0x7FB3A0C7, 0xD2615343, 0x84882A81, 0xAFFC9660);
    DivideByte(0xAFFC9660, 0x38, 0x57FE4B2C, 0x2BFF2596, 0x15FF92CB, 0xE7474A45, 0x9E1B2602, 0x4F0D9301, 0xCA3E4AA0, 0x651F2550);
    DivideByte(0x651F2550, 0x39, 0xDF371194, 0x6F9B88CA, 0x37CDC465, 0xF65E6112, 0x7B2F3089, 0xD02F1B64, 0x68178DB2, 0x340BC6D9);
  }

  /** The checksum of the digits 1 to 9 is the published check value of CRC-32. */
  lemma CheckValue()
    ensures Crc([0x31, 0x32, 0x33, 0x34, 0x35, 0x36, 0x37, 0x38, 0x39]) == 0xCBF4_3926
  {
    var first, second, third: seq<Byte> := [0x31, 0x32, 0x33], [0x34, 0x35, 0x36], [0x37, 0x38, 0x39];
    assert [0x31, 0x32, 0x33, 0x34, 0x35, 0x36, 0x37, 0x38, 0x39] == first + (second + third);
    assert third == third + [];
    FeedNothing(0x340BC6D9);
    hide FeedAll, FeedThree;
    FeedThreeOf(0xFFFFFFFF, 0x31, 0x32, 0x33, second + third);
    FeedThreeOf(0x77B79C2D, 0x34, 0x35, 0x36, third);
    FeedThreeOf(0xF68D2C9E, 0x37, 0x38, 0x39, []);
    CheckPart1();
    CheckPart2();
    CheckPart3();
  }

  lemma FeedNothing(c: Word)
    ensures FeedAll(c, []) == c
  {}

  // ----- The table

  /** With the low eight bits clear, eight steps are a shift. */
  lemma ShiftOut(c: Word)
    requires Low8(c) == 0
    ensures Bits(c, 8) == Shift8(c)
  {
    hide Bit, Half, Odd;
    var h1 := Half(c); var h2 := Half(h1); var h3 := Half(h2); var h4 := Half(h3);
    var h5 := Half(h4); var h6 := Half(h5); var h7 := Half(h6); var h8 := Half(h7);
    EightHalves(c);
    EvenBit(c); EvenBit(h1); EvenBit(h2); EvenBit(h3); EvenBit(h4); EvenBit(h5); EvenBit(h6); EvenBit(h7);
    EightBits(c);
  }

  lemma EvenBit(c: Word)
    requires !Odd(c)
    ensures Bit(c) == Half(c)
  {}

  lemma EightBits(c: Word)
    ensures Bits(c, 8) == Bit(Bit(Bit(Bit(Bit(Bit(Bit(Bit(c))))))))
  {
    hide Bit;
    assert Bits(c, 1) == Bit(c);
    assert Bits(c, 2) == Bit(Bits(c, 1));
    assert Bits(c, 3) == Bit(Bits(c, 2));
    assert Bits(c, 4) == Bit(Bits(c, 3));
    assert Bits(c, 5) == Bit(Bits(c, 4));
    assert Bits(c, 6) == Bit(Bits(c, 5));
    assert Bits(c, 7) == Bit(Bits(c, 6));
  }

  lemma EightHalves(c: Word)
    requires Low8(c) == 0
    ensures var h1 := Half(c); var h2 := Half(h1); var h3 := Half(h2); var h4 := Half(h3);
            var h5 := Half(h4); var h6 := Half(h5); var h7 := Half(h6); var h8 := Half(h7);
            && !Odd(c) && !Odd(h1) && !Odd(h2) && !Odd(h3) && !Odd(h4) && !Odd(h5) && !Odd(h6) && !Odd(h7)
            && h8 == Shift8(c)
  {}

  lemma SplitLow(c: Word)
    ensures Xor(c & 0xFFFF_FF00, Low8(c)) == c
    ensures Low8(c & 0xFFFF_FF00) == 0 && Shift8(c & 0xFFFF_FF00) == Shift8(c)
  {}

  /** Looking the low byte up and shifting is eight steps. */
  lemma TableStep(c: Word)
    ensures Xor(Shift8(c), Bits(Low8(c), 8)) == Bits(c, 8)
  {
    hide Xor, Low8, Shift8, Bits;
    SplitLow(c);
    ShiftOut(c & 0xFFFF_FF00);
    BitsLinear(c & 0xFFFF_FF00, Low8(c), 8);
  }

  function LowByte(c: Word): Byte { (c & 0xFF) as Byte }

  /** The table holds for every byte the eight steps that start from it. */
  ghost predicate IsTable(table: seq<Word>) {
    |table| == 256 && forall b: Byte :: table[Value(b)] == Bits(Widen(b), 8)
  }

  lemma BitIs(c: Word)
    ensures Bit(c) == if c & 1 != 0 then POLY ^ (c >> 1) else c >> 1
  {
    assert c & 1 == 0 || c & 1 == 1;
  }

  method MakeCrcTable() returns (table: seq<Word>)
    ensures IsTable(table)
  {
    hide Bit, ByteOf, Value, Widen, Bits;
    table := [];
    for i := 0 to 256
      invariant |table| == i && forall j: nat :: j < i ==> table[j] == Bits(Widen(ByteOf(j)), 8)
    {
      var c := EightSteps(Widen(ByteOf(i)));
      table := table + [c];
    }
    forall b: Byte ensures table[Value(b)] == Bits(Widen(b), 8) {
      ByteOfValue(b);
    }
  }

  /** The inner loop of make_crc_table. */
  method EightSteps(i: Word) returns (c: Word)
    ensures c == Bits(i, 8)
  {
    hide Bit;
    c := i;
    for k := 0 to 8
      invariant c == Bits(i, k)
    {
      BitIs(c);
      c := if c & 1 != 0 then POLY ^ (c >> 1) else c >> 1;
    }
  }

  lemma LookupStep(table: seq<Word>, c: Word, b: Byte)
    requires IsTable(table)
    ensures Xor(Shift8(c), table[Value(LowByte(Xor(c, Widen(b))))]) == Feed(c, b)
  {
    hide Xor, Shift8, Low8, LowByte, Widen, Value, Bits;
    var x := Xor(c, Widen(b));
    TableStep(x);
    ByteShiftsOut(c, b);
    LowByteWidens(x);
  }

  lemma LowByteWidens(c: Word)
    ensures Widen(LowByte(c)) == Low8(c)
  {}

  lemma ByteShiftsOut(c: Word, b: Byte)
    ensures Shift8(Xor(c, Widen(b))) == Shift8(c)
  {}

  /** The byte loop computes the reference checksum. */
  method Crc32(table: seq<Word>, data: seq<Byte>) returns (crc: Word)
    requires IsTable(table)
    ensures crc == Crc(data)
  {
    hide Xor, Shift8, LowByte, Widen, Value, Bits, IsTable, Feed;
    crc := ONES;
    for i := 0 to |data|
      invariant FeedAll(crc, data[i..]) == FeedAll(ONES, data)
    {
      LookupStep(table, crc, data[i]);
      TableSize(table);
      var idx := LowByte(Xor(crc, Widen(data[i])));
      assert data[i..][1..] == data[i + 1..];
      crc := Xor(Shift8(crc), table[Value(idx)]);
    }
    crc := Xor(crc, ONES);
  }

  lemma TableSize(table: seq<Word>)
    requires IsTable(table)
    ensures |table| == 256
  {}

  // ----- Error detection

  lemma {:induction false} FeedAppend(c: Word, a: seq<Byte>, b: seq<Byte>)
    ensures FeedAll(c, a + b) == FeedAll(FeedAll(c, a), b)
    decreases |a|
  {
    hide Feed;
    if a == [] {
      assert a + b == b;
    } else {
      assert (a + b)[1..] == a[1..] + b;
      FeedAppend(Feed(c, a[0]), a[1..], b);
    }
  }

  /** Equal data keeps different registers different. */
  lemma {:induction false} FeedInjective(c: Word, d: Word, data: seq<Byte>)
    requires FeedAll(c, data) == FeedAll(d, data)
    ensures c == d
    decreases |data|
  {
    hide Xor, Bits, Widen;
    if data != [] {
      FeedInjective(Feed(c, data[0]), Feed(d, data[0]), data[1..]);
      BitsInjective(Xor(c, Widen(data[0])), Xor(d, Widen(data[0])), 8);
      XorCancels(c, d, Widen(data[0]));
    }
  }

  function Shl8(c: Word): Word { c << 8 }

  /** At most four bytes as a little-endian word. */
  function Little(w: seq<Byte>): Word
    decreases |w|
  {
    if w == [] then 0 else Xor(Widen(w[0]), Shl8(Little(w[1..])))
  }

  lemma ShiftBack(x: Word)
    requires x < 0x0100_0000
    ensures Low8(Shl8(x)) == 0 && Shift8(Shl8(x)) == x
  {}

  lemma {:induction false} LittleSmall(w: seq<Byte>)
    requires |w| <= 3
    ensures Little(w) < if |w| == 0 then 1 else if |w| == 1 then 0x100 else if |w| == 2 then 0x1_0000 else 0x0100_0000
    decreases |w|
  {
    hide Xor, Widen, Shl8;
    if |w| > 0 {
      LittleSmall(w[1..]);
      Pack(w[0], Little(w[1..]));
    }
  }

  lemma Pack(b: Byte, x: Word)
    ensures x < 1 ==> Xor(Widen(b), Shl8(x)) < 0x100
    ensures x < 0x100 ==> Xor(Widen(b), Shl8(x)) < 0x1_0000
    ensures x < 0x1_0000 ==> Xor(Widen(b), Shl8(x)) < 0x0100_0000
  {}

  /** At most four bytes are fed as one word: eight steps for each. */
  lemma {:induction false} FeedWord(c: Word, w: seq<Byte>)
    requires |w| <= 4
    ensures FeedAll(c, w) == Bits(Xor(c, Little(w)), 8 * |w|)
    decreases |w|
  {
    hide Xor, Widen, Shl8, Shift8, Low8, Bits;
    if w == [] {
      XorZero(c);
      NoBits(c);
    } else {
      var c0, rest := Xor(c, Widen(w[0])), Little(w[1..]);
      FeedWord(Feed(c, w[0]), w[1..]);
      LittleSmall(w[1..]);
      ShiftBack(rest);
      ShiftOut(Shl8(rest));
      BitsLinear(c0, Shl8(rest), 8);
      XorAssociates(c, Widen(w[0]), Shl8(rest));
      BitsAppend(Xor(c, Little(w)), 8, 8 * |w[1..]|);
    }
  }

  lemma XorZero(c: Word)
    ensures Xor(c, 0) == c
  {}

  lemma NoBits(c: Word)
    ensures Bits(c, 0) == c
  {}

  /** Four bytes are determined by their word. */
  lemma {:induction false} LittleInjective(v: seq<Byte>, w: seq<Byte>)
    requires |v| == |w| <= 4 && Little(v) == Little(w)
    ensures v == w
    decreases |v|
  {
    hide Xor, Widen, Shl8;
    if |v| > 0 {
      LittleSmall(v[1..]);
      LittleSmall(w[1..]);
      Unpack(v[0], Little(v[1..]), w[0], Little(w[1..]));
      LittleInjective(v[1..], w[1..]);
      assert v == [v[0]] + v[1..] && w == [w[0]] + w[1..];
    }
  }

  lemma Unpack(a: Byte, x: Word, b: Byte, y: Word)
    requires x < 0x0100_0000 && y < 0x0100_0000 && Xor(Widen(a), Shl8(x)) == Xor(Widen(b), Shl8(y))
    ensures a == b && x == y
  {}

  /** Two strings that differ only within one window of at most four bytes leave different registers. */
  lemma BurstChangesRegister(c: Word, pre: seq<Byte>, v: seq<Byte>, w: seq<Byte>, post: seq<Byte>)
    requires |v| == |w| <= 4 && v != w
    ensures FeedAll(c, pre + v + post) != FeedAll(c, pre + w + post)
  {
    hide FeedAll, Xor, Bits, Little;
    FeedAppend(c, pre + v, post);
    FeedAppend(c, pre + w, post);
    FeedAppend(c, pre, v);
    FeedAppend(c, pre, w);
    var d := FeedAll(c, pre);
    FeedWord(d, v);
    FeedWord(d, w);
    if FeedAll(c, pre + v + post) == FeedAll(c, pre + w + post) {
      FeedInjective(FeedAll(d, v), FeedAll(d, w), post);
      BitsInjective(Xor(d, Little(v)), Xor(d, Little(w)), 8 * |v|);
      XorCommutes(d, Little(v));
      XorCommutes(d, Little(w));
      XorCancels(Little(v), Little(w), d);
      LittleInjective(v, w);
    }
  }

  /** A change confined to four consecutive bytes always changes the checksum. */
  lemma BurstChangesCrc(pre: seq<Byte>, v: seq<Byte>, w: seq<Byte>, post: seq<Byte>)
    requires |v| == |w| <= 4 && v != w
    ensures Crc(pre + v + post) != Crc(pre + w + post)
  {
    hide FeedAll, Xor;
    BurstChangesRegister(ONES, pre, v, w, post);
    var a, b := FeedAll(ONES, pre + v + post), FeedAll(ONES, pre + w + post);
    if Xor(a, ONES) == Xor(b, ONES) {
      XorCancels(a, b, ONES);
    }
  }

  /** Data followed by four bytes carries its own checksum exactly when the whole leaves the residue. */
  lemma ResidueTest(data: seq<Byte>, trailer: seq<Byte>)
    requires |trailer| == 4
    ensures Little(trailer) == Crc(data) <==> FeedAll(ONES, data + trailer) == Bits(ONES, 32)
  {
    hide FeedAll, Xor, Bits, Little;
    var d := FeedAll(ONES, data);
    FeedAppend(ONES, data, trailer);
    FeedWord(d, trailer);
    XorVanishes(d, ONES);
    XorVanishes(d, Little(trailer));
    if Little(trailer) == Crc(data) {
      assert Xor(d, Little(trailer)) == ONES;
    }
    if Bits(Xor(d, Little(trailer)), 32) == Bits(ONES, 32) {
      BitsInjective(Xor(d, Little(trailer)), ONES, 32);
    }
  }
}
