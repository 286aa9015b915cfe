/** The MD5 message digest as sections 3.1 to 3.5 of RFC 1321 define it, on 8-bit bytes and 32-bit words. */
module Md5Spec {
  type Byte = bv8
  type Word = bv32

  /** The four registers A, B, C, D. */
  datatype Regs = Regs(a: Word, b: Word, c: Word, d: Word)

  /** Addition of words, modulo 2^32. */
  function Add(x: Word, y: Word): Word {
    x + y
  }

  function F(x: Word, y: Word, z: Word): Word {
    (x & y) | (!x & z)
  }

  function G(x: Word, y: Word, z: Word): Word {
    (x & z) | (y & !z)
  }

  function H(x: Word, y: Word, z: Word): Word {
    x ^ y ^ z
  }

  function I(x: Word, y: Word, z: Word): Word {
    y ^ (x | !z)
  }

  function RotateLeft(x: Word, n: nat): Word
    requires n <= 32
  {
    (x << n) | (x >> (32 - n))
  }

  /** Section 3.4: the function that round i / 16 uses. */
  function Aux(i: nat, x: Word, y: Word, z: Word): Word {
    if i < 16 then F(x, y, z) else if i < 32 then G(x, y, z) else if i < 48 then H(x, y, z) else I(x, y, z)
  }

  /** Section 3.4: the message word that step i reads. */
  function WordIndex(i: nat): (k: nat)
    ensures k < 16
  {
    (if i < 16 then i else if i < 32 then 5 * i + 1 else if i < 48 then 3 * i + 5 else 7 * i) % 16
  }

  function OfFour(i: nat, s0: nat, s1: nat, s2: nat, s3: nat): nat {
    if i % 4 == 0 then s0 else if i % 4 == 1 then s1 else if i % 4 == 2 then s2 else s3
  }

  /** Section 3.4: the rotation of step i. */
  function Shift(i: nat): (s: nat)
    requires i < 64
    ensures s <= 32
  {
    if i < 16 then OfFour(i, 7, 12, 17, 22) else if i < 32 then OfFour(i, 5, 9, 14, 20)
    else if i < 48 then OfFour(i, 4, 11, 16, 23) else OfFour(i, 6, 10, 15, 21)
  }

  /** Section 3.4: T[i + 1], the integer part of 2^32 times abs(sin(i + 1)). */
  function Sine(i: nat): Word
    requires i < 64
  {
    if i < 16 then Sine1(i) else if i < 32 then Sine2(i) else if i < 48 then Sine3(i) else Sine4(i)
  }

  function Sine1(i: nat): Word
    requires 0 <= i < 16
  {
    match i
    case 0 => 0xd76aa478 case 1 => 0xe8c7b756 case 2 => 0x242070db case 3 => 0xc1bdceee
    case 4 => 0xf57c0faf case 5 => 0x4787c62a case 6 => 0xa8304613 case 7 => 0xfd469501
    case 8 => 0x698098d8 case 9 => 0x8b44f7af case 10 => 0xffff5bb1 case 11 => 0x895cd7be
    case 12 => 0x6b901122 case 13 => 0xfd987193 case 14 => 0xa679438e case _ => 0x49b40821
  }

  function Sine2(i: nat): Word
    requires 16 <= i < 32
  {
    match i
    case 16 => 0xf61e2562 case 17 => 0xc040b340 case 18 => 0x265e5a51 case 19 => 0xe9b6c7aa
    case 20 => 0xd62f105d case 21 => 0x2441453 case 22 => 0xd8a1e681 case 23 => 0xe7d3fbc8
    case 24 => 0x21e1cde6 case 25 => 0xc33707d6 case 26 => 0xf4d50d87 case 27 => 0x455a14ed
    case 28 => 0xa9e3e905 case 29 => 0xfcefa3f8 case 30 => 0x676f02d9 case _ => 0x8d2a4c8a
  }

  function Sine3(i: nat): Word
    requires 32 <= i < 48
  {
    match i
    case 32 => 0xfffa3942 case 33 => 0x8771f681 case 34 => 0x6d9d6122 case 35 => 0xfde5380c
    case 36 => 0xa4beea44 case 37 => 0x4bdecfa9 case 38 => 0xf6bb4b60 case 39 => 0xbebfbc70
    case 40 => 0x289b7ec6 case 41 => 0xeaa127fa case 42 => 0xd4ef3085 case 43 => 0x4881d05
    case 44 => 0xd9d4d039 case 45 => 0xe6db99e5 case 46 => 0x1fa27cf8 case _ => 0xc4ac5665
  }

  function Sine4(i: nat): Word
    requires 48 <= i < 64
  {
    match i
    case 48 => 0xf4292244 case 49 => 0x432aff97 case 50 => 0xab9423a7 case 51 => 0xfc93a039
    case 52 => 0x655b59c3 case 53 => 0x8f0ccc92 case 54 => 0xffeff47d case 55 => 0x85845dd1
    case 56 => 0x6fa87e4f case 57 => 0xfe2ce6e0 case 58 => 0xa3014314 case 59 => 0x4e0811a1
    case 60 => 0xf7537e82 case 61 => 0xbd3af235 case 62 => 0x2ad7d2bb case _ => 0xeb86d391
  }

  /** b + ((a + f + x + t) <<< s), the operation every step performs. */
  function Mix(a: Word, b: Word, f: Word, x: Word, s: nat, t: Word): Word
    requires s <= 32
  {
    Add(b, RotateLeft(Add(Add(Add(a, f), x), t), s))
  }

  /** Step i on registers that rotate by one place from step to step. */
  function Step(i: nat, r: Regs, x: seq<Word>): Regs
    requires i < 64 && |x| == 16
  {
    Regs(r.d, Mix(r.a, r.b, Aux(i, r.b, r.c, r.d), x[WordIndex(i)], Shift(i), Sine(i)), r.b, r.c)
  }

  /** The first n steps. */
  function Steps(n: nat, r: Regs, x: seq<Word>): Regs
    requires n <= 64 && |x| == 16
  {
    if n == 0 then r else Step(n - 1, Steps(n - 1, r, x), x)
  }

  /** A word as four bytes, low-order byte first (section 2). */
  function WordBytes(w: Word): (s: seq<Byte>)
    ensures |s| == 4
  {
    [(w & 0xff) as Byte, ((w >> 8) & 0xff) as Byte, ((w >> 16) & 0xff) as Byte, ((w >> 24) & 0xff) as Byte]
  }

  function Bytes(ws: seq<Word>): (s: seq<Byte>)
    ensures |s| == 4 * |ws|
  {
    if ws == [] then [] else WordBytes(ws[0]) + Bytes(ws[1..])
  }

  function WordOf(b0: Byte, b1: Byte, b2: Byte, b3: Byte): Word {
    b0 as Word | (b1 as Word << 8) | (b2 as Word << 16) | (b3 as Word << 24)
  }

  function WordsOf(s: seq<Byte>): (ws: seq<Word>)
    requires |s| % 4 == 0
    ensures 4 * |ws| == |s|
  {
    if s == [] then [] else [WordOf(s[0], s[1], s[2], s[3])] + WordsOf(s[4..])
  }

  function Compress(r: Regs, block: seq<Byte>): Regs
    requires |block| == 64
  {
    var x := WordsOf(block);
    var q := Steps(64, r, x);
    Regs(Add(r.a, q.a), Add(r.b, q.b), Add(r.c, q.c), Add(r.d, q.d))
  }

  /** Section 3.4: the blocks of s, one after the other. */
  function Blocks(r: Regs, s: seq<Byte>): Regs
    requires |s| % 64 == 0
    decreases |s|
  {
    if s == [] then r
    else
      var rest := s[64..];
      assert |rest| % 64 == 0;
      Blocks(Compress(r, s[..64]), rest)
  }

  /** Section 3.3. */
  const INIT := Regs(0x67452301, 0xefcdab89, 0x98badcfe, 0x10325476)

  function Zeros(n: nat): (s: seq<Byte>)
    ensures |s| == n
  {
    seq(n, _ => 0)
  }

  /** Section 3.1: one 1 bit, then 0 bits up to 448 modulo 512 bits, for a message of n bytes. */
  function Padding(n: nat): (s: seq<Byte>)
    ensures 1 <= |s| <= 64 && (n + |s|) % 64 == 56
  {
    [0x80] + Zeros((55 - n) % 64)
  }

  function LowByte(n: nat): Byte {
    (n % 0x100) as Byte
  }

  /** The low 32 bits of a number as four bytes, low-order byte first. */
  function LowBytes(n: nat): (s: seq<Byte>)
    ensures |s| == 4
  {
    [LowByte(n), LowByte(n / 0x100), LowByte(n / 0x1_0000), LowByte(n / 0x100_0000)]
  }

  /** Section 3.2: the low 64 bits of a length in bits, low-order word first. */
  function LengthBytes(bits: nat): (s: seq<Byte>)
    ensures |s| == 8
  {
    LowBytes(bits % 0x1_0000_0000) + LowBytes(bits / 0x1_0000_0000 % 0x1_0000_0000)
  }

  function Pad(m: seq<Byte>): (s: seq<Byte>)
    ensures |s| % 64 == 0
  {
    var p := Padding(|m|);
    Aligned(|m| + |p|);
    m + p + LengthBytes(8 * |m|)
  }

  lemma Aligned(n: nat)
    requires n % 64 == 56
    ensures (n + 8) % 64 == 0
  {
  }

  function RegBytes(r: Regs): (s: seq<Byte>)
    ensures |s| == 16
  {
    Bytes([r.a, r.b, r.c, r.d])
  }

  /** Section 3.5. */
  function Digest(m: seq<Byte>): seq<Byte> {
    RegBytes(Blocks(INIT, Pad(m)))
  }

  lemma {:induction false} WordsOfBytes(ws: seq<Word>)
    ensures WordsOf(Bytes(ws)) == ws
  {
    hide WordBytes, WordOf;
    if ws != [] {
      WordsOfBytes(ws[1..]);
      assert Bytes(ws)[4..] == Bytes(ws[1..]);
      WordOfBytes(ws[0]);
    }
  }

  lemma WordOfBytes(w: Word)
    ensures var b := WordBytes(w); WordOf(b[0], b[1], b[2], b[3]) == w
  {
  }

  lemma {:induction false} BytesOfWords(s: seq<Byte>)
    requires |s| % 4 == 0
    ensures Bytes(WordsOf(s)) == s
  {
    hide WordBytes, WordOf;
    if s != [] {
      BytesOfWords(s[4..]);
      assert WordsOf(s)[1..] == WordsOf(s[4..]);
      BytesOfWord(s[0], s[1], s[2], s[3]);
    }
  }

  lemma BytesOfWord(b0: Byte, b1: Byte, b2: Byte, b3: Byte)
    ensures WordBytes(WordOf(b0, b1, b2, b3)) == [b0, b1, b2, b3]
  {
  }

  lemma {:induction false} BlocksConcat(r: Regs, s: seq<Byte>, t: seq<Byte>)
    requires |s| % 64 == 0 && |t| % 64 == 0
    ensures Blocks(r, s + t) == Blocks(Blocks(r, s), t)
    decreases |s|
  {
    hide Compress;
    if s == [] {
      assert s + t == t;
    } else {
      assert (s + t)[..64] == s[..64] && (s + t)[64..] == s[64..] + t;
      BlocksConcat(Compress(r, s[..64]), s[64..], t);
    }
  }
}
