/** What a digest object stands for between two calls, and what the calls do to it. */
module Md5Stream {
  import opened Md5Spec

  const TWO_64: nat := 0x1_0000_0000_0000_0000

  /** Registers after the complete blocks, the bytes of the incomplete block, and the bit counter. */
  datatype Context = Context(regs: Regs, tail: seq<Byte>, bits: nat)

  const FRESH := Context(INIT, [], 0)

  predicate Reachable(c: Context) {
    |c.tail| < 64 && c.bits < TWO_64 && c.bits % 8 == 0 && c.bits / 8 % 64 == |c.tail|
  }

  function Absorb(c: Context, input: seq<Byte>): Context {
    var data := c.tail + input;
    var n := |data| - |data| % 64;
    Context(Blocks(c.regs, data[..n]), data[n..], (c.bits + 8 * |input|) % TWO_64)
  }

  function AbsorbAll(c: Context, chunks: seq<seq<Byte>>): Context
    decreases |chunks|
  {
    if chunks == [] then c else AbsorbAll(Absorb(c, chunks[0]), chunks[1..])
  }

  function Concat(chunks: seq<seq<Byte>>): seq<Byte> {
    if chunks == [] then [] else chunks[0] + Concat(chunks[1..])
  }

  /** The closing padding as the code measures it, from the number of buffered bytes. */
  function PadLen(index: nat): (n: nat)
    requires index < 64
    ensures 1 <= n <= 64 && (index + n) % 64 == 56
  {
    if index < 56 then 56 - index else 120 - index
  }

  function Finish(c: Context): seq<Byte>
    requires Reachable(c)
  {
    var padded := Absorb(c, [0x80] + Zeros(PadLen(|c.tail|) - 1));
    RegBytes(Absorb(padded, LengthBytes(c.bits)).regs)
  }

  /** A bit count modulo 2^64 still tells the number of bytes modulo 64. */
  lemma BitsTellBytes(m: nat)
    ensures var e := 8 * m % TWO_64; e % 8 == 0 && e / 8 % 64 == m % 64
  {
    var q, r := m / 0x2000_0000_0000_0000, m % 0x2000_0000_0000_0000;
    assert m == q * 0x2000_0000_0000_0000 + r;
    assert 8 * m == q * TWO_64 + 8 * r;
    assert 8 * m % TWO_64 == 8 * r;
    Mod64(m, q * 0x80_0000_0000_0000);
  }

  lemma AbsorbReachable(c: Context, input: seq<Byte>)
    requires Reachable(c)
    ensures Reachable(Absorb(c, input))
  {
    hide Blocks, Compress;
    var k := c.bits / 8;
    BitsTellBytes(k + |input|);
    Mod64(k + |input|, k / 64);
  }

  lemma Mod64(x: int, y: int)
    ensures (x - 64 * y) % 64 == x % 64
  {
  }

  lemma AbsorbNothing(c: Context)
    requires Reachable(c)
    ensures Absorb(c, []) == c
  {
    hide Compress;
    var data := c.tail + [];
    assert data == c.tail && data[..0] == [] && data[0..] == data;
    assert |data| % 64 == |data|;
  }

  lemma AddMod(x: nat, y: nat, z: nat)
    ensures ((x + y) % TWO_64 + z) % TWO_64 == (x + (y + z)) % TWO_64
  {
  }

  /** Absorb, for a caller that knows how many bytes the complete blocks take. */
  lemma AbsorbSplit(c: Context, input: seq<Byte>, done: nat)
    requires done <= |c.tail + input| < done + 64 && done % 64 == 0
    ensures Absorb(c, input) ==
      Context(Blocks(c.regs, (c.tail + input)[..done]), (c.tail + input)[done..], (c.bits + 8 * |input|) % TWO_64)
  {
    hide Compress, Blocks;
    var n := |c.tail + input|;
    assert n % 64 == n - done by { Mod64(n, done / 64); }
  }

  lemma AbsorbBits(c: Context, input: seq<Byte>)
    ensures Absorb(c, input).bits == (c.bits + 8 * |input|) % TWO_64
  {
    hide Compress, Blocks;
  }

  lemma WholeBlocks(n: nat)
    ensures (n - n % 64) % 64 == 0 && n - n % 64 <= n < n - n % 64 + 64
  {
    Mod64(n, n / 64);
  }

  /** Two calls are one call on the concatenation. */
  lemma AbsorbConcat(c: Context, s: seq<Byte>, t: seq<Byte>)
    ensures Absorb(Absorb(c, s), t) == Absorb(c, s + t)
  {
    hide Blocks, Compress, Absorb;
    var d1 := c.tail + s;
    var n1 := |d1| - |d1| % 64;
    WholeBlocks(|d1|);
    AbsorbSplit(c, s, n1);
    var d2 := d1[n1..] + t;
    var n2 := |d2| - |d2| % 64;
    WholeBlocks(|d2|);
    AbsorbSplit(Absorb(c, s), t, n2);
    SplitTwice(c.tail, s, t, n1, n2);
    AbsorbSplit(c, s + t, n1 + n2);
    BlocksConcat(c.regs, d1[..n1], d2[..n2]);
    AddMod(c.bits, 8 * |s|, 8 * |t|);
  }

  /** Cutting off blocks before and after t arrives is cutting them off at once. */
  lemma SplitTwice(tail: seq<Byte>, s: seq<Byte>, t: seq<Byte>, n1: nat, n2: nat)
    requires n1 <= |tail + s| && n2 <= |(tail + s)[n1..] + t| && n1 % 64 == 0 && n2 % 64 == 0
    ensures (n1 + n2) % 64 == 0
    ensures (tail + (s + t))[..n1 + n2] == (tail + s)[..n1] + ((tail + s)[n1..] + t)[..n2]
    ensures (tail + (s + t))[n1 + n2..] == ((tail + s)[n1..] + t)[n2..]
  {
    var d1 := tail + s;
    assert tail + (s + t) == d1[..n1] + (d1[n1..] + t);
  }

  lemma {:induction false} AbsorbAllIsAbsorb(c: Context, chunks: seq<seq<Byte>>)
    requires Reachable(c)
    ensures AbsorbAll(c, chunks) == Absorb(c, Concat(chunks))
    decreases |chunks|
  {
    hide Absorb, Reachable;
    if chunks == [] {
      AbsorbNothing(c);
    } else {
      AbsorbReachable(c, chunks[0]);
      AbsorbAllIsAbsorb(Absorb(c, chunks[0]), chunks[1..]);
      AbsorbConcat(c, chunks[0], Concat(chunks[1..]));
    }
  }

  lemma LengthBytesWrap(b: nat)
    ensures LengthBytes(b % TWO_64) == LengthBytes(b)
  {
    hide LowBytes;
    var e, q := b % TWO_64, b / TWO_64;
    assert b == e + 0x1_0000_0000 * (0x1_0000_0000 * q);
    Shift32(e, 0x1_0000_0000 * q);
    Shift32(e / 0x1_0000_0000, q);
  }

  lemma Shift32(x: nat, k: nat)
    ensures (x + 0x1_0000_0000 * k) % 0x1_0000_0000 == x % 0x1_0000_0000
    ensures (x + 0x1_0000_0000 * k) / 0x1_0000_0000 == x / 0x1_0000_0000 + k
  {
  }

  lemma PaddingOfTail(n: nat)
    ensures [0x80] + Zeros(PadLen(n % 64) - 1) == Padding(n)
  {
    assert n == n % 64 + 64 * (n / 64);
    Mod64(55 - n % 64, n / 64);
  }

  lemma FinishIsDigest(m: seq<Byte>)
    requires Reachable(Absorb(FRESH, m))
    ensures Finish(Absorb(FRESH, m)) == Digest(m)
  {
    hide Blocks, Compress, RegBytes, LengthBytes, Padding, PadLen, Zeros;
    var c := Absorb(FRESH, m);
    assert FRESH.tail + m == m;
    assert |c.tail| == |m| % 64;
    var p, l := [0x80] + Zeros(PadLen(|c.tail|) - 1), LengthBytes(c.bits);
    PaddingOfTail(|m|);
    LengthBytesWrap(8 * |m|);
    assert l == LengthBytes(8 * |m|);
    AbsorbConcat(FRESH, m, p);
    AbsorbConcat(FRESH, m + p, l);
    var d := FRESH.tail + (m + p + l);
    assert d == Pad(m);
    assert d[..|d|] == d;
  }

  /** Every way of cutting a message into update calls yields the digest of the whole message. */
  lemma StreamingDigest(chunks: seq<seq<Byte>>)
    ensures Reachable(AbsorbAll(FRESH, chunks))
    ensures Finish(AbsorbAll(FRESH, chunks)) == Digest(Concat(chunks))
  {
    hide Absorb, Finish, Digest;
    assert Reachable(FRESH);
    AbsorbAllIsAbsorb(FRESH, chunks);
    AbsorbReachable(FRESH, Concat(chunks));
    FinishIsDigest(Concat(chunks));
  }
}
