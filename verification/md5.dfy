/** The MD5 class: buffering, the two-word bit counter, and the closing padding. */
module Md5 {
  import Md5Rounds
  import Octets
  import opened Md5Spec
  import opened Md5Stream

  /** size_type and the counter words, whose sums wrap at 2^32; kept as integers, apart from the words of the state. */
  type Size = Octets.Word

  /** uint4 count[2], low-order word first. */
  type Counter = s: seq<Size> | |s| == 2 witness [0, 0]

  function Add32(x: Size, y: Size): Size {
    (x + y) % 0x1_0000_0000
  }

  const BLOCK_SIZE: nat := 64

  /** Unsigned 32-bit shifts by the amounts the counter uses. */
  function Shl3(x: Size): Size {
    8 * x % 0x1_0000_0000
  }

  function Shr29(x: Size): Size {
    x / 0x2000_0000
  }

  /** The value of the counter words (count[1], count[0]). */
  function Bits(lo: Size, hi: Size): nat {
    hi * 0x1_0000_0000 + lo
  }

  lemma LowCarries(lo: Size, s: Size)
    ensures lo + s == Add32(lo, s) + if Add32(lo, s) < s then 0x1_0000_0000 else 0
  {
  }

  lemma ShiftsSplit(length: Size)
    ensures 8 * length == Shr29(length) * 0x1_0000_0000 + Shl3(length)
  {
  }

  /** The carry test on the low word makes the two words one 64-bit counter. */
  lemma CounterAdds(lo: Size, hi: Size, length: Size)
    ensures
      var low := Add32(lo, Shl3(length));
      var high := if low < Shl3(length) then Add32(hi, 1) else hi;
      Bits(low, Add32(high, Shr29(length))) == (Bits(lo, hi) + 8 * length) % TWO_64
  {
    hide Add32, Shl3, Shr29;
    var s, u := Shl3(length), Shr29(length);
    ShiftsSplit(length);
    LowCarries(lo, s);
    var low := Add32(lo, s);
    var carry: Size := if low < s then 1 else 0;
    AddThree(hi, carry, u);
    AddZero(hi);
    CounterWraps(hi + carry + u, low);
    assert Bits(lo, hi) + 8 * length == (hi + carry + u) * 0x1_0000_0000 + low;
  }

  lemma AddZero(x: Size)
    ensures Add32(x, 0) == x
  {
  }

  lemma AddThree(hi: Size, carry: Size, u: Size)
    ensures Add32(Add32(hi, carry), u) == (hi + carry + u) % 0x1_0000_0000
  {
  }

  lemma CounterWraps(top: nat, low: Size)
    ensures (top * 0x1_0000_0000 + low) % TWO_64 == top % 0x1_0000_0000 * 0x1_0000_0000 + low
  {
    var k, t := top / 0x1_0000_0000, top % 0x1_0000_0000;
    assert top * 0x1_0000_0000 + low == k * TWO_64 + (t * 0x1_0000_0000 + low);
  }

  lemma LengthOfBits(lo: Size, hi: Size)
    ensures LengthBytes(Bits(lo, hi)) == LowBytes(lo) + LowBytes(hi)
  {
    hide LowBytes;
    assert Bits(lo, hi) / 0x1_0000_0000 == hi && Bits(lo, hi) % 0x1_0000_0000 == lo;
  }

  lemma LowWordGivesIndex(lo: Size, hi: Size)
    ensures Bits(lo, hi) / 8 % 64 == lo / 8 % 64
  {
    assert Bits(lo, hi) / 8 == lo / 8 + 64 * (hi * 0x80_0000);
    Mod64(Bits(lo, hi) / 8, hi * 0x80_0000);
  }

  /** The block loop of update compares i + 64 with length in 32-bit arithmetic. */
  predicate BlockGuard(i: Size, length: Size) {
    Add32(i, BLOCK_SIZE) <= length
  }

  /** The lengths for which that sum never wraps, for a given number of buffered bytes. */
  predicate FitsCounter(index: nat, length: Size)
    requires index < 64
  {
    length < 0x1_0000_0000 - 64 + (64 - index) % 64
  }

  /** Exactly for those lengths, the loop never starts a block that reaches past the input. */
  lemma BlockLoopStaysInside(index: nat, length: Size)
    requires index < 64 && 64 - index <= length
    ensures FitsCounter(index, length) <==>
            forall i: Size :: 64 - index <= i <= length && (i + index) % 64 == 0 && BlockGuard(i, length) ==>
              i + 64 <= length
  {
    if !FitsCounter(index, length) {
      var i: Size := 0x1_0000_0000 - 64 + (64 - index) % 64;
      assert (i + index) % 64 == 0 && BlockGuard(i, length) && i + 64 > length;
    }
  }

  lemma ShortFits(index: nat, length: Size)
    requires index < 64 && length <= 64
    ensures FitsCounter(index, length)
  {
  }

  lemma FreshFits(length: Size)
    requires length < 0x1_0000_0000 - 64
    ensures Reachable(FRESH) && FitsCounter(|FRESH.tail|, length)
  {
  }

  lemma NextBlock(index: nat, i: Size, length: Size)
    requires index < 64 && 64 - index <= i <= length && (index + i) % 64 == 0 && FitsCounter(index, length)
    ensures BlockGuard(i, length) <==> i + 64 <= length
    ensures BlockGuard(i, length) ==> Add32(i, BLOCK_SIZE) == i + 64 && (index + (i + 64)) % 64 == 0
  {
    Mod64(index + i, -1);
  }

  lemma {:induction false} BytesAppend(ws: seq<Word>, w: Word)
    ensures Bytes(ws + [w]) == Bytes(ws) + WordBytes(w)
  {
    hide WordBytes;
    if ws == [] {
      assert ws + [w] == [w] && Bytes([w][1..]) == [];
    } else {
      BytesAppend(ws[1..], w);
      assert (ws + [w])[1..] == ws[1..] + [w];
    }
  }

  lemma {:induction false} WordsAppend(s: seq<Byte>, b: seq<Byte>)
    requires |s| % 4 == 0 && |b| == 4
    ensures WordsOf(s + b) == WordsOf(s) + [WordOf(b[0], b[1], b[2], b[3])]
  {
    hide WordOf;
    if s == [] {
      assert s + b == b && WordsOf(b[4..]) == [];
    } else {
      WordsAppend(s[4..], b);
      assert (s + b)[4..] == s[4..] + b;
    }
  }

  lemma NextWord(s: seq<Byte>, j: nat)
    requires j % 4 == 0 && j + 4 <= |s|
    ensures (j + 4) % 4 == 0 && WordsOf(s[..j + 4]) == WordsOf(s[..j]) + [WordOf(s[j], s[j + 1], s[j + 2], s[j + 3])]
  {
    hide WordOf, WordsOf;
    WordsAppend(s[..j], s[j..j + 4]);
    assert s[..j + 4] == s[..j] + s[j..j + 4];
  }

  /** The bytes input[offset..offset + len] as words. */
  method Decode(output: array<Word>, input: array<Byte>, offset: nat, len: nat)
    requires len % 4 == 0 && len <= 4 * output.Length && offset + len <= input.Length
    modifies output
    ensures output[..len / 4] == WordsOf(input[offset..offset + len])
    ensures output[len / 4..] == old(output[len / 4..])
  {
    ghost var s := input[offset..offset + len];
    assert WordsOf(s[..0]) == [] && s[..len] == s;
    hide WordOf, WordsOf;
    var i, j := 0, 0;
    while j < len
      invariant j == 4 * i && j <= len
      invariant output[..i] == WordsOf(s[..j])
      invariant output[len / 4..] == old(output[len / 4..])
    {
      output[i] := WordOf(input[offset + j], input[offset + j + 1], input[offset + j + 2], input[offset + j + 3]);
      NextWord(s, j);
      i, j := i + 1, j + 4;
    }
  }

  method EncodeWord(output: array<Byte>, j: nat, w: Word)
    requires j + 4 <= output.Length
    modifies output
    ensures output[..] == old(output[..j]) + WordBytes(w) + old(output[j + 4..])
  {
    output[j] := (w & 0xff) as Byte;
    output[j + 1] := ((w >> 8) & 0xff) as Byte;
    output[j + 2] := ((w >> 16) & 0xff) as Byte;
    output[j + 3] := ((w >> 24) & 0xff) as Byte;
  }

  /** The words of input, low-order byte first. */
  method Encode(output: array<Byte>, input: array<Word>, len: nat)
    requires len % 4 == 0 && len <= 4 * input.Length && len <= output.Length
    modifies output
    ensures output[..len] == Bytes(input[..len / 4])
    ensures output[len..] == old(output[len..])
  {
    var i, j := 0, 0;
    while j < len
      invariant j == 4 * i && j <= len
      invariant output[..j] == Bytes(input[..i])
      invariant output[len..] == old(output[len..])
    {
      var w := input[i];
      EncodeWord(output, j, w);
      BytesAppend(input[..i], w);
      assert input[..i + 1] == input[..i] + [w];
      assert output[..j + 4] == output[..j] + WordBytes(w);
      i, j := i + 1, j + 4;
    }
  }

  /** encode on the two counter words. */
  method EncodeCount(output: array<Byte>, input: Counter)
    requires output.Length == 8
    modifies output
    ensures output[..] == LowBytes(input[0]) + LowBytes(input[1])
  {
    EncodeSize(output, 0, input[0]);
    EncodeSize(output, 4, input[1]);
    assert output[..] == output[..4] + output[4..];
  }

  method EncodeSize(output: array<Byte>, j: nat, n: Size)
    requires j + 4 <= output.Length
    modifies output
    ensures output[j..j + 4] == LowBytes(n)
    ensures output[..j] == old(output[..j]) && output[j + 4..] == old(output[j + 4..])
  {
    output[j] := (n % 0x100) as Byte;
    output[j + 1] := (n / 0x100 % 0x100) as Byte;
    output[j + 2] := (n / 0x1_0000 % 0x100) as Byte;
    output[j + 3] := (n / 0x100_0000 % 0x100) as Byte;
  }

  /** Appending a block is compressing it. */
  lemma OneBlock(r: Regs, s: seq<Byte>, block: seq<Byte>)
    requires |s| % 64 == 0 && |block| == 64
    ensures Blocks(r, s + block) == Compress(Blocks(r, s), block)
  {
    hide Compress;
    BlocksConcat(r, s, block);
    assert block[..64] == block && block[64..] == [];
  }

  lemma FirstBlock(r: Regs, s: seq<Byte>)
    requires |s| == 0 || |s| == 64
    ensures Blocks(r, s) == if s == [] then r else Compress(r, s)
  {
    hide Compress;
    if s != [] {
      assert s[..64] == s && s[64..] == [];
    }
  }

  lemma AbsorbedBlocks(c: Context, text: seq<Byte>, i: nat)
    requires i <= |text| < i + 64 && |c.tail + text[..i]| % 64 == 0
    ensures Absorb(c, text) == Context(Blocks(c.regs, c.tail + text[..i]), text[i..], (c.bits + 8 * |text|) % TWO_64)
  {
    hide Absorb, Blocks, Compress;
    AbsorbSplit(c, text, |c.tail| + i);
    assert (c.tail + text)[..|c.tail| + i] == c.tail + text[..i];
    assert (c.tail + text)[|c.tail| + i..] == text[i..];
  }

  lemma AbsorbedTail(c: Context, text: seq<Byte>)
    requires |c.tail| + |text| < 64
    ensures Absorb(c, text) == Context(c.regs, c.tail + text, (c.bits + 8 * |text|) % TWO_64)
  {
    hide Absorb, Blocks, Compress;
    AbsorbSplit(c, text, 0);
    FirstBlock(c.regs, []);
    assert (c.tail + text)[..0] == [] && (c.tail + text)[0..] == c.tail + text;
  }

  class MD5 {
    var finalized: bool
    var count: Counter
    const buffer: array<Byte>
    const state: array<Word>
    const digest: array<Byte>

    ghost predicate Valid() {
      buffer.Length == 64 && state.Length == 4 && digest.Length == 16
      && buffer != digest
    }

    ghost function StateRegs(): Regs
      requires Valid()
      reads state
    {
      Regs(state[0], state[1], state[2], state[3])
    }

    /** The context that the fields stand for. */
    ghost function Abs(): Context
      requires Valid()
      reads this`count, buffer, state
    {
      Context(StateRegs(), buffer[..count[0] / 8 % 64], Bits(count[0], count[1]))
    }

    constructor ()
      ensures Valid() && !finalized && Abs() == FRESH
      ensures fresh(buffer) && fresh(state) && fresh(digest)
    {
      buffer := new Byte[64](_ => 0);
      state := new Word[4](_ => 0);
      digest := new Byte[16](_ => 0);
      new;
      Init();
    }

    /** The shortcut constructor: the digest of one text. */
    constructor FromText(text: array<Byte>)
      requires text.Length < 0x1_0000_0000 - 64
      ensures Valid() && finalized && digest[..] == Digest(text[..])
      ensures fresh(buffer) && fresh(state) && fresh(digest)
    {
      buffer := new Byte[64](_ => 0);
      state := new Word[4](_ => 0);
      digest := new Byte[16](_ => 0);
      new;
      hide Absorb, Finish, Digest, Compress, Blocks, FitsCounter, Reachable, Bits;
      Init();
      FreshFits(text.Length);
      assert text[..text.Length] == text[..];
      Update(text, text.Length);
      FinishIsDigest(text[..]);
      Finalize();
    }

    method Init()
      requires Valid()
      modifies this, state
      ensures !finalized && Abs() == FRESH
    {
      finalized := false;
      count := [0, 0];
      state[0] := 0x67452301;
      state[1] := 0xefcdab89;
      state[2] := 0x98badcfe;
      state[3] := 0x10325476;
    }

    /** One block, read at block[offset..offset + 64]. */
    method Transform(block: array<Byte>, offset: nat)
      requires Valid() && offset + 64 <= block.Length
      modifies state
      ensures StateRegs() == Compress(old(StateRegs()), block[offset..offset + 64])
    {
      hide Steps, WordsOf, Add;
      var a, b, c, d := state[0], state[1], state[2], state[3];
      ghost var r := Regs(a, b, c, d);
      var x := new Word[16](_ => 0);
      Decode(x, block, offset, 64);
      assert x[..] == x[..16];
      Md5Rounds.Begin(r, x[..]);
      a, b, c, d := Md5Rounds.Round1(a, b, c, d, x, r);
      a, b, c, d := Md5Rounds.Round2(a, b, c, d, x, r);
      a, b, c, d := Md5Rounds.Round3(a, b, c, d, x, r);
      a, b, c, d := Md5Rounds.Round4(a, b, c, d, x, r);
      state[0] := Add(state[0], a);
      state[1] := Add(state[1], b);
      state[2] := Add(state[2], c);
      state[3] := Add(state[3], d);
    }

    /** One call of update is Absorb, for every length that fits the 32-bit loop counter. */
    method Update(input: array<Byte>, length: Size)
      requires Valid() && Reachable(Abs()) && length <= input.Length
      requires FitsCounter(|Abs().tail|, length)
      requires input != buffer
      modifies this`count, buffer, state
      ensures Abs() == Absorb(old(Abs()), input[..length])
      ensures Reachable(Abs())
    {
      hide Compress, Blocks, Bits, Absorb, Add32, FitsCounter;
      ghost var c0, text, whole := Abs(), input[..length], input[..];
      var index := AddToCount(length);
      AbsorbReachable(c0, text);
      AbsorbBits(c0, text);
      ghost var c1 := Absorb(c0, text);
      assert Bits(count[0], count[1]) == c1.bits && count[0] / 8 % 64 == |c1.tail|;

      var firstpart := 64 - index;
      var i: Size;
      if length >= firstpart {
        i := TransformAll(input, firstpart, length, c0);
        assert input[..] == whole;
        assert text[..i] == input[..i];
        AbsorbedBlocks(c0, text, i);
        index := 0;
      } else {
        i := 0;
        AbsorbedTail(c0, text);
      }
      assert StateRegs() == c1.regs && c1.tail == buffer[..index] + text[i..];
      Octets.Memcpy(buffer, index, input[i..length]);
      assert buffer[..|c1.tail|] == c1.tail;
    }

    /** The branch of update that completes the buffered block; returns how much input it used. */
    method TransformAll(input: array<Byte>, firstpart: Size, length: Size, ghost c0: Context) returns (i: Size)
      requires Valid() && input != buffer && firstpart <= length <= input.Length
      requires |c0.tail| == 64 - firstpart < 64 && FitsCounter(|c0.tail|, length)
      requires StateRegs() == c0.regs && buffer[..64 - firstpart] == c0.tail
      modifies buffer, state
      ensures i <= length < i + 64 && (|c0.tail| + i) % 64 == 0
      ensures StateRegs() == Blocks(c0.regs, c0.tail + input[..i])
    {
      hide Compress, Blocks, Add32, FitsCounter;
      Octets.Memcpy(buffer, 64 - firstpart, input[..firstpart]);
      assert buffer[0..64] == c0.tail + input[..firstpart];
      Transform(buffer, 0);
      FirstBlock(c0.regs, c0.tail + input[..firstpart]);
      i := TransformChunks(input, firstpart, length, c0);
    }

    /** The block loop of update: whole blocks from firstpart on; returns where it stops. */
    method TransformChunks(input: array<Byte>, firstpart: Size, length: Size, ghost c0: Context) returns (i: Size)
      requires Valid() && length <= input.Length && |c0.tail| < 64
      requires 64 - |c0.tail| == firstpart <= length && FitsCounter(|c0.tail|, length)
      requires |c0.tail + input[..firstpart]| == 64
      requires StateRegs() == Blocks(c0.regs, c0.tail + input[..firstpart])
      modifies state
      ensures i <= length < i + 64 && (|c0.tail| + i) % 64 == 0
      ensures StateRegs() == Blocks(c0.regs, c0.tail + input[..i])
    {
      hide Compress, Blocks, Add32, FitsCounter;
      i := firstpart;
      NextBlock(|c0.tail|, i, length);
      while Add32(i, BLOCK_SIZE) <= length
        invariant firstpart <= i <= length && (|c0.tail| + i) % 64 == 0
        invariant StateRegs() == Blocks(c0.regs, c0.tail + input[..i])
        invariant BlockGuard(i, length) ==> Add32(i, BLOCK_SIZE) == i + 64 <= length && (|c0.tail| + (i + 64)) % 64 == 0
        invariant !BlockGuard(i, length) ==> length < i + 64
        decreases length - i
      {
        Transform(input, i);
        OneBlock(c0.regs, c0.tail + input[..i], input[i..i + 64]);
        assert c0.tail + input[..i + 64] == c0.tail + input[..i] + input[i..i + 64];
        i := Add32(i, BLOCK_SIZE);
        NextBlock(|c0.tail|, i, length);
      }
    }

    /** The bit counter of update; returns the number of bytes buffered before the call. */
    method AddToCount(length: Size) returns (index: nat)
      requires Valid() && Reachable(Abs())
      modifies this`count
      ensures index == |old(Abs()).tail|
      ensures Bits(count[0], count[1]) == (old(Abs()).bits + 8 * length) % TWO_64
      ensures count[0] / 8 % 64 == Bits(count[0], count[1]) / 8 % 64
    {
      hide Shl3, Shr29, Bits;
      CounterAdds(count[0], count[1], length);
      index := count[0] / 8 % 64;
      count := count[0 := Add32(count[0], Shl3(length))];
      if count[0] < Shl3(length) {
        count := count[1 := Add32(count[1], 1)];
      }
      count := count[1 := Add32(count[1], Shr29(length))];
      LowWordGivesIndex(count[0], count[1]);
    }

    /** The digest is written once; a second call changes nothing. */
    method Finalize()
      requires Valid() && (!finalized ==> Reachable(Abs()))
      modifies this, buffer, state, digest
      ensures finalized
      ensures old(finalized) ==> unchanged(this, buffer, state, digest)
      ensures !old(finalized) ==> digest[..] == Finish(old(Abs()))
      ensures !old(finalized) ==> buffer[..] == Zeros(64) && count == [0, 0]
    {
      if !finalized {
        WriteDigest();
        Zeroize();
        finalized := true;
      }
    }

    /** Padding, length and digest: the part of finalize that closes the message. */
    method WriteDigest()
      requires Valid() && Reachable(Abs())
      modifies this`count, buffer, state, digest
      ensures digest[..] == Finish(old(Abs()))
    {
      hide Absorb, Compress, Blocks, Bytes, FitsCounter, LowBytes;
      ghost var c0 := Abs();
      var bits := new Byte[8](_ => 0);
      LengthOfBits(count[0], count[1]);
      EncodeCount(bits, count);
      AppendPadding();
      assert bits[..8] == LengthBytes(c0.bits);
      ShortFits(|Abs().tail|, 8);
      Update(bits, 8);
      Encode(digest, state, 16);
      assert state[..4] == [state[0], state[1], state[2], state[3]];
      assert digest[..] == digest[..16];
    }

    /** Pads out to 56 modulo 64. */
    method AppendPadding()
      requires Valid() && Reachable(Abs())
      modifies this`count, buffer, state
      ensures Abs() == Absorb(old(Abs()), [0x80] + Zeros(PadLen(|old(Abs()).tail|) - 1))
      ensures Reachable(Abs())
    {
      hide Absorb, Compress, Blocks, FitsCounter;
      var padding := new Byte[64](k => if k == 0 then 0x80 else 0);
      LowWordGivesIndex(count[0], count[1]);
      var index := count[0] / 8 % 64;
      var padLen := if index < 56 then 56 - index else 120 - index;
      assert padding[..padLen] == [0x80] + Zeros(PadLen(|Abs().tail|) - 1);
      ShortFits(index, padLen);
      Update(padding, padLen);
    }

    method Zeroize()
      requires Valid()
      modifies this`count, buffer
      ensures buffer[..] == Zeros(64) && count == [0, 0]
    {
      forall k | 0 <= k < 64 {
        buffer[k] := 0;
      }
      count := [0, 0];
    }
  }
}
