/** The compression function as the code writes it: 64 lines whose register arguments rotate. */
module Md5Rounds {
  import opened Md5Spec

  const S11: nat := 7
  const S12: nat := 12
  const S13: nat := 17
  const S14: nat := 22
  const S21: nat := 5
  const S22: nat := 9
  const S23: nat := 14
  const S24: nat := 20
  const S31: nat := 4
  const S32: nat := 11
  const S33: nat := 16
  const S34: nat := 23
  const S41: nat := 6
  const S42: nat := 10
  const S43: nat := 15
  const S44: nat := 21

  function FF(a: Word, b: Word, c: Word, d: Word, x: Word, s: nat, ac: Word): Word
    requires s <= 32
  {
    Add(RotateLeft(Add(Add(Add(a, F(b, c, d)), x), ac), s), b)
  }

  function GG(a: Word, b: Word, c: Word, d: Word, x: Word, s: nat, ac: Word): Word
    requires s <= 32
  {
    Add(RotateLeft(Add(Add(Add(a, G(b, c, d)), x), ac), s), b)
  }

  function HH(a: Word, b: Word, c: Word, d: Word, x: Word, s: nat, ac: Word): Word
    requires s <= 32
  {
    Add(RotateLeft(Add(Add(Add(a, H(b, c, d)), x), ac), s), b)
  }

  function II(a: Word, b: Word, c: Word, d: Word, x: Word, s: nat, ac: Word): Word
    requires s <= 32
  {
    Add(RotateLeft(Add(Add(Add(a, I(b, c, d)), x), ac), s), b)
  }

  lemma FFIsMix(a: Word, b: Word, c: Word, d: Word, x: Word, s: nat, ac: Word)
    requires s <= 32
    ensures FF(a, b, c, d, x, s, ac) == Mix(a, b, F(b, c, d), x, s, ac)
  {
  }

  lemma GGIsMix(a: Word, b: Word, c: Word, d: Word, x: Word, s: nat, ac: Word)
    requires s <= 32
    ensures GG(a, b, c, d, x, s, ac) == Mix(a, b, G(b, c, d), x, s, ac)
  {
  }

  lemma HHIsMix(a: Word, b: Word, c: Word, d: Word, x: Word, s: nat, ac: Word)
    requires s <= 32
    ensures HH(a, b, c, d, x, s, ac) == Mix(a, b, H(b, c, d), x, s, ac)
  {
  }

  lemma IIIsMix(a: Word, b: Word, c: Word, d: Word, x: Word, s: nat, ac: Word)
    requires s <= 32
    ensures II(a, b, c, d, x, s, ac) == Mix(a, b, I(b, c, d), x, s, ac)
  {
  }

  /** What line i of the unrolled code leaves in its first register argument. */
  function Line(i: nat, a: Word, b: Word, c: Word, d: Word, x: Word): Word
    requires i < 64
  {
    if i < 16 then FF(a, b, c, d, x, Shift(i), Sine(i))
    else if i < 32 then GG(a, b, c, d, x, Shift(i), Sine(i))
    else if i < 48 then HH(a, b, c, d, x, Shift(i), Sine(i))
    else II(a, b, c, d, x, Shift(i), Sine(i))
  }

  lemma StepIsLine(i: nat, r: Regs, x: seq<Word>)
    requires i < 64 && |x| == 16
    ensures Step(i, r, x) == Regs(r.d, Line(i, r.a, r.b, r.c, r.d, x[WordIndex(i)]), r.b, r.c)
  {
    hide F, G, H, I, FF, GG, HH, II, Mix, Shift, Sine, WordIndex;
    var y := x[WordIndex(i)];
    FFIsMix(r.a, r.b, r.c, r.d, y, Shift(i), Sine(i));
    GGIsMix(r.a, r.b, r.c, r.d, y, Shift(i), Sine(i));
    HHIsMix(r.a, r.b, r.c, r.d, y, Shift(i), Sine(i));
    IIIsMix(r.a, r.b, r.c, r.d, y, Shift(i), Sine(i));
  }

  /** Four lines, written to a, d, c and b, are four steps, which bring the registers back to their own names. */
  lemma FourSteps(i: nat, r: Regs, q: Regs, p: Regs, x: seq<Word>)
    requires i + 4 <= 64 && |x| == 16 && Steps(i, r, x) == q
    requires p.a == Line(i, q.a, q.b, q.c, q.d, x[WordIndex(i)])
    requires p.d == Line(i + 1, q.d, p.a, q.b, q.c, x[WordIndex(i + 1)])
    requires p.c == Line(i + 2, q.c, p.d, p.a, q.b, x[WordIndex(i + 2)])
    requires p.b == Line(i + 3, q.b, p.c, p.d, p.a, x[WordIndex(i + 3)])
    ensures Steps(i + 4, r, x) == p
  {
    hide Line, Step, WordIndex;
    StepIsLine(i, q, x);
    StepIsLine(i + 1, Steps(i + 1, r, x), x);
    StepIsLine(i + 2, Steps(i + 2, r, x), x);
    StepIsLine(i + 3, Steps(i + 3, r, x), x);
  }

  lemma FourF(i: nat, r: Regs, q: Regs, p: Regs, x: seq<Word>)
    requires i % 4 == 0 && i < 16 && |x| == 16 && Steps(i, r, x) == q
    requires p.a == FF(q.a, q.b, q.c, q.d, x[WordIndex(i)], S11, Sine(i))
    requires p.d == FF(q.d, p.a, q.b, q.c, x[WordIndex(i + 1)], S12, Sine(i + 1))
    requires p.c == FF(q.c, p.d, p.a, q.b, x[WordIndex(i + 2)], S13, Sine(i + 2))
    requires p.b == FF(q.b, p.c, p.d, p.a, x[WordIndex(i + 3)], S14, Sine(i + 3))
    ensures Steps(i + 4, r, x) == p
  {
    hide FF, GG, HH, II, Steps, Sine, WordIndex;
    FourSteps(i, r, q, p, x);
  }

  lemma FourG(i: nat, r: Regs, q: Regs, p: Regs, x: seq<Word>)
    requires i % 4 == 0 && 16 <= i < 32 && |x| == 16 && Steps(i, r, x) == q
    requires p.a == GG(q.a, q.b, q.c, q.d, x[WordIndex(i)], S21, Sine(i))
    requires p.d == GG(q.d, p.a, q.b, q.c, x[WordIndex(i + 1)], S22, Sine(i + 1))
    requires p.c == GG(q.c, p.d, p.a, q.b, x[WordIndex(i + 2)], S23, Sine(i + 2))
    requires p.b == GG(q.b, p.c, p.d, p.a, x[WordIndex(i + 3)], S24, Sine(i + 3))
    ensures Steps(i + 4, r, x) == p
  {
    hide FF, GG, HH, II, Steps, Sine, WordIndex;
    FourSteps(i, r, q, p, x);
  }

  lemma FourH(i: nat, r: Regs, q: Regs, p: Regs, x: seq<Word>)
    requires i % 4 == 0 && 32 <= i < 48 && |x| == 16 && Steps(i, r, x) == q
    requires p.a == HH(q.a, q.b, q.c, q.d, x[WordIndex(i)], S31, Sine(i))
    requires p.d == HH(q.d, p.a, q.b, q.c, x[WordIndex(i + 1)], S32, Sine(i + 1))
    requires p.c == HH(q.c, p.d, p.a, q.b, x[WordIndex(i + 2)], S33, Sine(i + 2))
    requires p.b == HH(q.b, p.c, p.d, p.a, x[WordIndex(i + 3)], S34, Sine(i + 3))
    ensures Steps(i + 4, r, x) == p
  {
    hide FF, GG, HH, II, Steps, Sine, WordIndex;
    FourSteps(i, r, q, p, x);
  }

  lemma FourI(i: nat, r: Regs, q: Regs, p: Regs, x: seq<Word>)
    requires i % 4 == 0 && 48 <= i < 64 && |x| == 16 && Steps(i, r, x) == q
    requires p.a == II(q.a, q.b, q.c, q.d, x[WordIndex(i)], S41, Sine(i))
    requires p.d == II(q.d, p.a, q.b, q.c, x[WordIndex(i + 1)], S42, Sine(i + 1))
    requires p.c == II(q.c, p.d, p.a, q.b, x[WordIndex(i + 2)], S43, Sine(i + 2))
    requires p.b == II(q.b, p.c, p.d, p.a, x[WordIndex(i + 3)], S44, Sine(i + 3))
    ensures Steps(i + 4, r, x) == p
  {
    hide FF, GG, HH, II, Steps, Sine, WordIndex;
    FourSteps(i, r, q, p, x);
  }

  lemma Begin(r: Regs, x: seq<Word>)
    requires |x| == 16
    ensures Steps(0, r, x) == r
  {
  }

  /** The constants of round 1, in the order of the lines. */
  lemma Constants1()
    ensures Sine(0) == 0xd76aa478 && Sine(1) == 0xe8c7b756 && Sine(2) == 0x242070db && Sine(3) == 0xc1bdceee
    ensures Sine(4) == 0xf57c0faf && Sine(5) == 0x4787c62a && Sine(6) == 0xa8304613 && Sine(7) == 0xfd469501
    ensures Sine(8) == 0x698098d8 && Sine(9) == 0x8b44f7af && Sine(10) == 0xffff5bb1 && Sine(11) == 0x895cd7be
    ensures Sine(12) == 0x6b901122 && Sine(13) == 0xfd987193 && Sine(14) == 0xa679438e && Sine(15) == 0x49b40821
    ensures WordIndex(0) == 0 && WordIndex(1) == 1 && WordIndex(2) == 2 && WordIndex(3) == 3
    ensures WordIndex(4) == 4 && WordIndex(5) == 5 && WordIndex(6) == 6 && WordIndex(7) == 7
    ensures WordIndex(8) == 8 && WordIndex(9) == 9 && WordIndex(10) == 10 && WordIndex(11) == 11
    ensures WordIndex(12) == 12 && WordIndex(13) == 13 && WordIndex(14) == 14 && WordIndex(15) == 15
  {
    hide Sine2, Sine3, Sine4;
  }

  /** The constants of round 2, in the order of the lines. */
  lemma Constants2()
    ensures Sine(16) == 0xf61e2562 && Sine(17) == 0xc040b340 && Sine(18) == 0x265e5a51 && Sine(19) == 0xe9b6c7aa
    ensures Sine(20) == 0xd62f105d && Sine(21) == 0x2441453 && Sine(22) == 0xd8a1e681 && Sine(23) == 0xe7d3fbc8
    ensures Sine(24) == 0x21e1cde6 && Sine(25) == 0xc33707d6 && Sine(26) == 0xf4d50d87 && Sine(27) == 0x455a14ed
    ensures Sine(28) == 0xa9e3e905 && Sine(29) == 0xfcefa3f8 && Sine(30) == 0x676f02d9 && Sine(31) == 0x8d2a4c8a
    ensures WordIndex(16) == 1 && WordIndex(17) == 6 && WordIndex(18) == 11 && WordIndex(19) == 0
    ensures WordIndex(20) == 5 && WordIndex(21) == 10 && WordIndex(22) == 15 && WordIndex(23) == 4
    ensures WordIndex(24) == 9 && WordIndex(25) == 14 && WordIndex(26) == 3 && WordIndex(27) == 8
    ensures WordIndex(28) == 13 && WordIndex(29) == 2 && WordIndex(30) == 7 && WordIndex(31) == 12
  {
    hide Sine1, Sine3, Sine4;
  }

  /** The constants of round 3, in the order of the lines. */
  lemma Constants3()
    ensures Sine(32) == 0xfffa3942 && Sine(33) == 0x8771f681 && Sine(34) == 0x6d9d6122 && Sine(35) == 0xfde5380c
    ensures Sine(36) == 0xa4beea44 && Sine(37) == 0x4bdecfa9 && Sine(38) == 0xf6bb4b60 && Sine(39) == 0xbebfbc70
    ensures Sine(40) == 0x289b7ec6 && Sine(41) == 0xeaa127fa && Sine(42) == 0xd4ef3085 && Sine(43) == 0x4881d05
    ensures Sine(44) == 0xd9d4d039 && Sine(45) == 0xe6db99e5 && Sine(46) == 0x1fa27cf8 && Sine(47) == 0xc4ac5665
    ensures WordIndex(32) == 5 && WordIndex(33) == 8 && WordIndex(34) == 11 && WordIndex(35) == 14
    ensures WordIndex(36) == 1 && WordIndex(37) == 4 && WordIndex(38) == 7 && WordIndex(39) == 10
    ensures WordIndex(40) == 13 && WordIndex(41) == 0 && WordIndex(42) == 3 && WordIndex(43) == 6
    ensures WordIndex(44) == 9 && WordIndex(45) == 12 && WordIndex(46) == 15 && WordIndex(47) == 2
  {
    hide Sine1, Sine2, Sine4;
  }

  /** The constants of round 4, in the order of the lines. */
  lemma Constants4()
    ensures Sine(48) == 0xf4292244 && Sine(49) == 0x432aff97 && Sine(50) == 0xab9423a7 && Sine(51) == 0xfc93a039
    ensures Sine(52) == 0x655b59c3 && Sine(53) == 0x8f0ccc92 && Sine(54) == 0xffeff47d && Sine(55) == 0x85845dd1
    ensures Sine(56) == 0x6fa87e4f && Sine(57) == 0xfe2ce6e0 && Sine(58) == 0xa3014314 && Sine(59) == 0x4e0811a1
    ensures Sine(60) == 0xf7537e82 && Sine(61) == 0xbd3af235 && Sine(62) == 0x2ad7d2bb && Sine(63) == 0xeb86d391
    ensures WordIndex(48) == 0 && WordIndex(49) == 7 && WordIndex(50) == 14 && WordIndex(51) == 5
    ensures WordIndex(52) == 12 && WordIndex(53) == 3 && WordIndex(54) == 10 && WordIndex(55) == 1
    ensures WordIndex(56) == 8 && WordIndex(57) == 15 && WordIndex(58) == 6 && WordIndex(59) == 13
    ensures WordIndex(60) == 4 && WordIndex(61) == 11 && WordIndex(62) == 2 && WordIndex(63) == 9
  {
    hide Sine1, Sine2, Sine3;
  }

  method Round1(a0: Word, b0: Word, c0: Word, d0: Word, x: array<Word>, ghost r: Regs)
    returns (a: Word, b: Word, c: Word, d: Word)
    requires x.Length == 16 && Steps(0, r, x[..]) == Regs(a0, b0, c0, d0)
    ensures Steps(16, r, x[..]) == Regs(a, b, c, d)
  {
    hide FF, GG, HH, II, Steps, Sine, WordIndex;
    Constants1();
    a, b, c, d := a0, b0, c0, d0;
    ghost var q := Regs(a, b, c, d);
    a := FF(a, b, c, d, x[0], S11, 0xd76aa478);
    d := FF(d, a, b, c, x[1], S12, 0xe8c7b756);
    c := FF(c, d, a, b, x[2], S13, 0x242070db);
    b := FF(b, c, d, a, x[3], S14, 0xc1bdceee);
    FourF(0, r, q, Regs(a, b, c, d), x[..]);
    q := Regs(a, b, c, d);
    a := FF(a, b, c, d, x[4], S11, 0xf57c0faf);
    d := FF(d, a, b, c, x[5], S12, 0x4787c62a);
    c := FF(c, d, a, b, x[6], S13, 0xa8304613);
    b := FF(b, c, d, a, x[7], S14, 0xfd469501);
    FourF(4, r, q, Regs(a, b, c, d), x[..]);
    q := Regs(a, b, c, d);
    a := FF(a, b, c, d, x[8], S11, 0x698098d8);
    d := FF(d, a, b, c, x[9], S12, 0x8b44f7af);
    c := FF(c, d, a, b, x[10], S13, 0xffff5bb1);
    b := FF(b, c, d, a, x[11], S14, 0x895cd7be);
    FourF(8, r, q, Regs(a, b, c, d), x[..]);
    q := Regs(a, b, c, d);
    a := FF(a, b, c, d, x[12], S11, 0x6b901122);
    d := FF(d, a, b, c, x[13], S12, 0xfd987193);
    c := FF(c, d, a, b, x[14], S13, 0xa679438e);
    b := FF(b, c, d, a, x[15], S14, 0x49b40821);
    FourF(12, r, q, Regs(a, b, c, d), x[..]);
  }

  method Round2(a0: Word, b0: Word, c0: Word, d0: Word, x: array<Word>, ghost r: Regs)
    returns (a: Word, b: Word, c: Word, d: Word)
    requires x.Length == 16 && Steps(16, r, x[..]) == Regs(a0, b0, c0, d0)
    ensures Steps(32, r, x[..]) == Regs(a, b, c, d)
  {
    hide FF, GG, HH, II, Steps, Sine, WordIndex;
    Constants2();
    a, b, c, d := a0, b0, c0, d0;
    ghost var q := Regs(a, b, c, d);
    a := GG(a, b, c, d, x[1], S21, 0xf61e2562);
    d := GG(d, a, b, c, x[6], S22, 0xc040b340);
    c := GG(c, d, a, b, x[11], S23, 0x265e5a51);
    b := GG(b, c, d, a, x[0], S24, 0xe9b6c7aa);
    FourG(16, r, q, Regs(a, b, c, d), x[..]);
    q := Regs(a, b, c, d);
    a := GG(a, b, c, d, x[5], S21, 0xd62f105d);
    d := GG(d, a, b, c, x[10], S22, 0x2441453);
    c := GG(c, d, a, b, x[15], S23, 0xd8a1e681);
    b := GG(b, c, d, a, x[4], S24, 0xe7d3fbc8);
    FourG(20, r, q, Regs(a, b, c, d), x[..]);
    q := Regs(a, b, c, d);
    a := GG(a, b, c, d, x[9], S21, 0x21e1cde6);
    d := GG(d, a, b, c, x[14], S22, 0xc33707d6);
    c := GG(c, d, a, b, x[3], S23, 0xf4d50d87);
    b := GG(b, c, d, a, x[8], S24, 0x455a14ed);
    FourG(24, r, q, Regs(a, b, c, d), x[..]);
    q := Regs(a, b, c, d);
    a := GG(a, b, c, d, x[13], S21, 0xa9e3e905);
    d := GG(d, a, b, c, x[2], S22, 0xfcefa3f8);
    c := GG(c, d, a, b, x[7], S23, 0x676f02d9);
    b := GG(b, c, d, a, x[12], S24, 0x8d2a4c8a);
    FourG(28, r, q, Regs(a, b, c, d), x[..]);
  }

  method Round3(a0: Word, b0: Word, c0: Word, d0: Word, x: array<Word>, ghost r: Regs)
    returns (a: Word, b: Word, c: Word, d: Word)
    requires x.Length == 16 && Steps(32, r, x[..]) == Regs(a0, b0, c0, d0)
    ensures Steps(48, r, x[..]) == Regs(a, b, c, d)
  {
    hide FF, GG, HH, II, Steps, Sine, WordIndex;
    Constants3();
    a, b, c, d := a0, b0, c0, d0;
    ghost var q := Regs(a, b, c, d);
    a := HH(a, b, c, d, x[5], S31, 0xfffa3942);
    d := HH(d, a, b, c, x[8], S32, 0x8771f681);
    c := HH(c, d, a, b, x[11], S33, 0x6d9d6122);
    b := HH(b, c, d, a, x[14], S34, 0xfde5380c);
    FourH(32, r, q, Regs(a, b, c, d), x[..]);
    q := Regs(a, b, c, d);
    a := HH(a, b, c, d, x[1], S31, 0xa4beea44);
    d := HH(d, a, b, c, x[4], S32, 0x4bdecfa9);
    c := HH(c, d, a, b, x[7], S33, 0xf6bb4b60);
    b := HH(b, c, d, a, x[10], S34, 0xbebfbc70);
    FourH(36, r, q, Regs(a, b, c, d), x[..]);
    q := Regs(a, b, c, d);
    a := HH(a, b, c, d, x[13], S31, 0x289b7ec6);
    d := HH(d, a, b, c, x[0], S32, 0xeaa127fa);
    c := HH(c, d, a, b, x[3], S33, 0xd4ef3085);
    b := HH(b, c, d, a, x[6], S34, 0x4881d05);
    FourH(40, r, q, Regs(a, b, c, d), x[..]);
    q := Regs(a, b, c, d);
    a := HH(a, b, c, d, x[9], S31, 0xd9d4d039);
    d := HH(d, a, b, c, x[12], S32, 0xe6db99e5);
    c := HH(c, d, a, b, x[15], S33, 0x1fa27cf8);
    b := HH(b, c, d, a, x[2], S34, 0xc4ac5665);
    FourH(44, r, q, Regs(a, b, c, d), x[..]);
  }

  method Round4(a0: Word, b0: Word, c0: Word, d0: Word, x: array<Word>, ghost r: Regs)
    returns (a: Word, b: Word, c: Word, d: Word)
    requires x.Length == 16 && Steps(48, r, x[..]) == Regs(a0, b0, c0, d0)
    ensures Steps(64, r, x[..]) == Regs(a, b, c, d)
  {
    hide FF, GG, HH, II, Steps, Sine, WordIndex;
    Constants4();
    a, b, c, d := a0, b0, c0, d0;
    ghost var q := Regs(a, b, c, d);
    a := II(a, b, c, d, x[0], S41, 0xf4292244);
    d := II(d, a, b, c, x[7], S42, 0x432aff97);
    c := II(c, d, a, b, x[14], S43, 0xab9423a7);
    b := II(b, c, d, a, x[5], S44, 0xfc93a039);
    FourI(48, r, q, Regs(a, b, c, d), x[..]);
    q := Regs(a, b, c, d);
    a := II(a, b, c, d, x[12], S41, 0x655b59c3);
    d := II(d, a, b, c, x[3], S42, 0x8f0ccc92);
    c := II(c, d, a, b, x[10], S43, 0xffeff47d);
    b := II(b, c, d, a, x[1], S44, 0x85845dd1);
    FourI(52, r, q, Regs(a, b, c, d), x[..]);
    q := Regs(a, b, c, d);
    a := II(a, b, c, d, x[8], S41, 0x6fa87e4f);
    d := II(d, a, b, c, x[15], S42, 0xfe2ce6e0);
    c := II(c, d, a, b, x[6], S43, 0xa3014314);
    b := II(b, c, d, a, x[13], S44, 0x4e0811a1);
    FourI(56, r, q, Regs(a, b, c, d), x[..]);
    q := Regs(a, b, c, d);
    a := II(a, b, c, d, x[4], S41, 0xf7537e82);
    d := II(d, a, b, c, x[11], S42, 0xbd3af235);
    c := II(c, d, a, b, x[2], S43, 0x2ad7d2bb);
    b := II(b, c, d, a, x[9], S44, 0xeb86d391);
    FourI(60, r, q, Regs(a, b, c, d), x[..]);
  }
}
