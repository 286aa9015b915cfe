/** What the operations of RFC 1321 on words and bytes do, bit by bit and as arithmetic. */
module Md5Bits {
  import opened Md5Spec

  /** The k-th bit, counting from the low-order one. */
  predicate Bit(x: Word, k: Word)
    requires k < 32
  {
    (x >> k) & 1 == 1
  }

  function And(x: Word, y: Word): Word {
    x & y
  }

  function Or(x: Word, y: Word): Word {
    x | y
  }

  function Xor(x: Word, y: Word): Word {
    x ^ y
  }

  function Not(x: Word): Word {
    !x
  }

  lemma RawAndBit(x: Word, y: Word, k: Word)
    requires k < 32
    ensures Bit(x & y, k) == (Bit(x, k) && Bit(y, k))
  {
  }

  lemma AndBit(x: Word, y: Word, k: Word)
    requires k < 32
    ensures Bit(And(x, y), k) == (Bit(x, k) && Bit(y, k))
  {
    RawAndBit(x, y, k);
    hide Bit;
  }

  lemma RawOrBit(x: Word, y: Word, k: Word)
    requires k < 32
    ensures Bit(x | y, k) == (Bit(x, k) || Bit(y, k))
  {
  }

  lemma OrBit(x: Word, y: Word, k: Word)
    requires k < 32
    ensures Bit(Or(x, y), k) == (Bit(x, k) || Bit(y, k))
  {
    RawOrBit(x, y, k);
    hide Bit;
  }

  lemma RawXorBit(x: Word, y: Word, k: Word)
    requires k < 32
    ensures Bit(x ^ y, k) == (Bit(x, k) != Bit(y, k))
  {
  }

  lemma XorBit(x: Word, y: Word, k: Word)
    requires k < 32
    ensures Bit(Xor(x, y), k) == (Bit(x, k) != Bit(y, k))
  {
    RawXorBit(x, y, k);
    hide Bit;
  }

  lemma NotBit(x: Word, k: Word)
    requires k < 32
    ensures Bit(Not(x), k) == !Bit(x, k)
  {
  }

  lemma FIs(x: Word, y: Word, z: Word)
    ensures F(x, y, z) == Or(And(x, y), And(Not(x), z))
  {
  }

  lemma GIs(x: Word, y: Word, z: Word)
    ensures G(x, y, z) == Or(And(x, z), And(y, Not(z)))
  {
  }

  lemma XorIs(x: Word, y: Word)
    ensures Xor(x, y) == x ^ y
  {
  }

  lemma HOf(x: Word, y: Word, z: Word, xy: Word)
    requires xy == x ^ y
    ensures H(x, y, z) == xy ^ z
  {
  }

  lemma HOfBit(x: Word, y: Word, z: Word, k: Word, xy: Word)
    requires k < 32 && xy == x ^ y
    ensures Bit(H(x, y, z), k) == (Bit(xy, k) != Bit(z, k))
  {
    HOf(x, y, z, xy);
    hide Bit, H;
    RawXorBit(xy, z, k);
  }

  lemma IIs(x: Word, y: Word, z: Word)
    ensures I(x, y, z) == Xor(y, Or(x, Not(z)))
  {
  }

  /** Section 3.4, bit by bit: F takes the bit of y where x has a 1, and that of z elsewhere. */
  lemma FBits(x: Word, y: Word, z: Word, k: Word)
    requires k < 32
    ensures Bit(F(x, y, z), k) == if Bit(x, k) then Bit(y, k) else Bit(z, k)
  {
    hide Bit, F, And, Or, Xor, Not;
    FIs(x, y, z);
    NotBit(x, k);
    AndBit(x, y, k);
    AndBit(Not(x), z, k);
    OrBit(And(x, y), And(Not(x), z), k);
  }

  /** G takes the bit of x where z has a 1, and that of y elsewhere. */
  lemma GBits(x: Word, y: Word, z: Word, k: Word)
    requires k < 32
    ensures Bit(G(x, y, z), k) == if Bit(z, k) then Bit(x, k) else Bit(y, k)
  {
    hide Bit, G, And, Or, Xor, Not;
    GIs(x, y, z);
    NotBit(z, k);
    AndBit(x, z, k);
    AndBit(y, Not(z), k);
    OrBit(And(x, z), And(y, Not(z)), k);
  }

  /** H has a 1 where an odd number of the three has. */
  lemma HBits(x: Word, y: Word, z: Word, k: Word)
    requires k < 32
    ensures Bit(H(x, y, z), k) == (Bit(x, k) == (Bit(y, k) == Bit(z, k)))
  {
    hide Bit, H, And, Or, Xor, Not;
    XorIs(x, y);
    HOfBit(x, y, z, k, Xor(x, y));
    XorBit(x, y, k);
  }

  /** I is y, inverted where x has a 1 or z a 0. */
  lemma IBits(x: Word, y: Word, z: Word, k: Word)
    requires k < 32
    ensures Bit(I(x, y, z), k) == (Bit(y, k) != (Bit(x, k) || !Bit(z, k)))
  {
    hide Bit, I, And, Or, Xor, Not;
    IIs(x, y, z);
    NotBit(z, k);
    OrBit(x, Not(z), k);
    XorBit(y, Or(x, Not(z)), k);
  }

  /** Rotation as arithmetic modulo 2^32: what the product loses at the top comes back at the bottom. */
  function Rotated(x: Word, n: nat): Word
    requires 0 < n < 32
  {
    x * (1 << n) + x / (1 << (32 - n))
  }

  lemma Rotations1(x: Word)
    ensures RotateLeft(x, 7) == Rotated(x, 7) && RotateLeft(x, 12) == Rotated(x, 12)
    ensures RotateLeft(x, 17) == Rotated(x, 17) && RotateLeft(x, 22) == Rotated(x, 22)
  {
  }

  lemma Rotations2(x: Word)
    ensures RotateLeft(x, 5) == Rotated(x, 5) && RotateLeft(x, 9) == Rotated(x, 9)
    ensures RotateLeft(x, 14) == Rotated(x, 14) && RotateLeft(x, 20) == Rotated(x, 20)
  {
  }

  lemma Rotations3(x: Word)
    ensures RotateLeft(x, 4) == Rotated(x, 4) && RotateLeft(x, 11) == Rotated(x, 11)
    ensures RotateLeft(x, 16) == Rotated(x, 16) && RotateLeft(x, 23) == Rotated(x, 23)
  {
  }

  lemma Rotations4(x: Word)
    ensures RotateLeft(x, 6) == Rotated(x, 6) && RotateLeft(x, 10) == Rotated(x, 10)
    ensures RotateLeft(x, 15) == Rotated(x, 15) && RotateLeft(x, 21) == Rotated(x, 21)
  {
  }

  /** The rotation of every step. */
  lemma RotateLeftIs(x: Word, i: nat)
    requires i < 64
    ensures 0 < Shift(i) < 32 && RotateLeft(x, Shift(i)) == Rotated(x, Shift(i))
  {
    hide RotateLeft, Rotated;
    Rotations1(x);
    Rotations2(x);
    Rotations3(x);
    Rotations4(x);
  }

  // ----- bytes -----

  /** Section 2: a word is its bytes with the low-order byte first. */
  lemma WordOfIs(b0: Byte, b1: Byte, b2: Byte, b3: Byte)
    ensures WordOf(b0, b1, b2, b3) ==
      b0 as Word + 0x100 * (b1 as Word) + 0x1_0000 * (b2 as Word) + 0x100_0000 * (b3 as Word)
  {
  }

  /** Section 3.2: the length in bits modulo 2^64 as eight bytes, the low-order one first. */
  lemma LengthBytesAre(bits: nat)
    ensures LengthBytes(bits) ==
      [LowByte(bits), LowByte(bits / 0x100), LowByte(bits / 0x1_0000), LowByte(bits / 0x100_0000),
       LowByte(bits / 0x1_0000_0000), LowByte(bits / 0x100_0000_0000),
       LowByte(bits / 0x1_0000_0000_0000), LowByte(bits / 0x100_0000_0000_0000)]
  {
    hide LowByte, LowBytes;
    LowWord(bits);
    var h := bits / 0x1_0000_0000;
    LowWord(h);
    assert h / 0x100 == bits / 0x100_0000_0000 && h / 0x1_0000 == bits / 0x1_0000_0000_0000;
    assert h / 0x100_0000 == bits / 0x100_0000_0000_0000;
  }

  lemma LowWord(n: nat)
    ensures LowBytes(n % 0x1_0000_0000) ==
      [LowByte(n), LowByte(n / 0x100), LowByte(n / 0x1_0000), LowByte(n / 0x100_0000)]
  {
    hide LowByte;
    var m, q := n % 0x1_0000_0000, n / 0x1_0000_0000;
    Mod256(m, 0x100_0000 * q);
    assert n / 0x100 == m / 0x100 + 0x100 * (0x1_0000 * q);
    Mod256(m / 0x100, 0x1_0000 * q);
    assert n / 0x1_0000 == m / 0x1_0000 + 0x100 * (0x100 * q);
    Mod256(m / 0x1_0000, 0x100 * q);
    assert n / 0x100_0000 == m / 0x100_0000 + 0x100 * q;
    Mod256(m / 0x100_0000, q);
    SameByte(m, n);
    SameByte(m / 0x100, n / 0x100);
    SameByte(m / 0x1_0000, n / 0x1_0000);
    SameByte(m / 0x100_0000, n / 0x100_0000);
  }

  lemma Mod256(m: nat, k: nat)
    ensures (m + 0x100 * k) % 0x100 == m % 0x100
  {
  }

  lemma SameByte(m: nat, n: nat)
    requires m % 0x100 == n % 0x100
    ensures LowByte(m) == LowByte(n)
  {
  }
}
