/** A small module tying a byte to the number it stands for, bit by bit. */
module Bytes {
  import opened Basics

  /** The bit under a one-bit mask. */
  function BitAt(b: Byte, mask: Byte): (bit: nat)
    ensures bit <= 1
  {
    if b & mask != 0 then 1 else 0
  }

  function Value(b: Byte): (n: nat)
    ensures n < 256
  {
    BitAt(b, 1) + 2 * (BitAt(b, 2) + 2 * (BitAt(b, 4) + 2 * (BitAt(b, 8) + 2 * (BitAt(b, 16) + 2 * (BitAt(b, 32)
    + 2 * (BitAt(b, 64) + 2 * BitAt(b, 128)))))))
  }

  /** The number a byte stands for is its unsigned value. */
  lemma ValueIsNumber(b: Byte)
    ensures Value(b) == b as int
  {}

  function OneBit(bit: nat, mask: Byte): Byte {
    if bit == 1 then mask else 0
  }

  function Assemble(b0: nat, b1: nat, b2: nat, b3: nat, b4: nat, b5: nat, b6: nat, b7: nat): Byte {
    OneBit(b0, 1) | OneBit(b1, 2) | OneBit(b2, 4) | OneBit(b3, 8) | OneBit(b4, 16) | OneBit(b5, 32)
    | OneBit(b6, 64) | OneBit(b7, 128)
  }

  function ByteOf(n: nat): Byte {
    Assemble(n % 2, n / 2 % 2, n / 2 / 2 % 2, n / 2 / 2 / 2 % 2, n / 2 / 2 / 2 / 2 % 2, n / 2 / 2 / 2 / 2 / 2 % 2,
             n / 2 / 2 / 2 / 2 / 2 / 2 % 2, n / 2 / 2 / 2 / 2 / 2 / 2 / 2 % 2)
  }

  lemma AssembledBits(b0: nat, b1: nat, b2: nat, b3: nat, b4: nat, b5: nat, b6: nat, b7: nat)
    requires b0 <= 1 && b1 <= 1 && b2 <= 1 && b3 <= 1 && b4 <= 1 && b5 <= 1 && b6 <= 1 && b7 <= 1
    ensures var b := Assemble(b0, b1, b2, b3, b4, b5, b6, b7);
            && BitAt(b, 1) == b0 && BitAt(b, 2) == b1 && BitAt(b, 4) == b2 && BitAt(b, 8) == b3
            && BitAt(b, 16) == b4 && BitAt(b, 32) == b5 && BitAt(b, 64) == b6 && BitAt(b, 128) == b7
  {}

  lemma ByteFromBits(b: Byte)
    ensures Assemble(BitAt(b, 1), BitAt(b, 2), BitAt(b, 4), BitAt(b, 8), BitAt(b, 16), BitAt(b, 32),
                     BitAt(b, 64), BitAt(b, 128)) == b
  {}

  lemma Halve(bit: nat, m: nat)
    requires bit <= 1
    ensures (bit + 2 * m) % 2 == bit && (bit + 2 * m) / 2 == m
  {}

  lemma ValueOfByte(n: nat)
    requires n < 256
    ensures Value(ByteOf(n)) == n
  {
    hide Assemble, BitAt;
    var h1: nat := n / 2; var h2: nat := h1 / 2; var h3: nat := h2 / 2; var h4: nat := h3 / 2;
    var h5: nat := h4 / 2; var h6: nat := h5 / 2; var h7: nat := h6 / 2;
    AssembledBits(n % 2, h1 % 2, h2 % 2, h3 % 2, h4 % 2, h5 % 2, h6 % 2, h7 % 2);
  }

  /** Four bits below m come off one after the other. */
  lemma FourBits(b0: nat, b1: nat, b2: nat, b3: nat, m: nat)
    requires b0 <= 1 && b1 <= 1 && b2 <= 1 && b3 <= 1
    ensures var n := b0 + 2 * (b1 + 2 * (b2 + 2 * (b3 + 2 * m)));
            && n % 2 == b0 && n / 2 % 2 == b1 && n / 2 / 2 % 2 == b2 && n / 2 / 2 / 2 % 2 == b3
            && n / 2 / 2 / 2 / 2 == m
  {
    var h3: nat := b3 + 2 * m;
    var h2: nat := b2 + 2 * h3;
    var h1: nat := b1 + 2 * h2;
    Halve(b0, h1);
    Halve(b1, h2);
    Halve(b2, h3);
    Halve(b3, m);
  }

  lemma ByteOfValue(b: Byte)
    ensures ByteOf(Value(b)) == b
  {
    hide Assemble, BitAt;
    ByteFromBits(b);
    var high: nat := BitAt(b, 16) + 2 * (BitAt(b, 32) + 2 * (BitAt(b, 64) + 2 * (BitAt(b, 128) + 2 * 0)));
    FourBits(BitAt(b, 1), BitAt(b, 2), BitAt(b, 4), BitAt(b, 8), high);
    FourBits(BitAt(b, 16), BitAt(b, 32), BitAt(b, 64), BitAt(b, 128), 0);
  }
}
