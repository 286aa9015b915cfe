/** Two of the digests that appendix A.5 of RFC 1321 lists, computed step by step. */
module Md5Vectors {
  import Md5Rounds
  import opened Md5Spec

  /** The words of a block that is zero except for its first word and its length. */
  predicate Sparse(x: seq<Word>, first: Word, bits: Word) {
    |x| == 16 && x[0] == first && x[14] == bits && forall k :: 0 < k < 16 && k != 14 ==> x[k] == 0
  }

  lemma Next(i: nat, x: seq<Word>, q: Regs, w: Word, b: Word)
    requires i < 64 && |x| == 16 && Steps(i, INIT, x) == q && x[WordIndex(i)] == w
    requires Mix(q.a, q.b, Aux(i, q.b, q.c, q.d), w, Shift(i), Sine(i)) == b
    ensures Steps(i + 1, INIT, x) == Regs(q.d, b, q.b, q.c)
  {
    hide Mix, Aux, Shift, Sine, WordIndex;
  }

  lemma Empty4(x: seq<Word>)
    requires Sparse(x, 0x80, 0x0)
    ensures Steps(4, INIT, x) == Regs(0xa5202774, 0x1b163203, 0xe7f06b23, 0xf59592dd)
  {
    Md5Rounds.Begin(INIT, x);
    hide Steps, Sine, WordIndex;
    Md5Rounds.Constants1();
    Next(0, x, Regs(0x67452301, 0xefcdab89, 0x98badcfe, 0x10325476), 0x80, 0xa5202774);
    Next(1, x, Regs(0x10325476, 0xa5202774, 0xefcdab89, 0x98badcfe), 0, 0xf59592dd);
    Next(2, x, Regs(0x98badcfe, 0xf59592dd, 0xa5202774, 0xefcdab89), 0, 0xe7f06b23);
    Next(3, x, Regs(0xefcdab89, 0xe7f06b23, 0xf59592dd, 0xa5202774), 0, 0x1b163203);
  }

  lemma Empty8(x: seq<Word>)
    requires Sparse(x, 0x80, 0x0)
    ensures Steps(8, INIT, x) == Regs(0x32033344, 0x9bc13ce9, 0xf5b158db, 0x2f35d494)
  {
    hide Steps, Sine, WordIndex;
    Md5Rounds.Constants1();
    Empty4(x);
    Next(4, x, Regs(0xa5202774, 0x1b163203, 0xe7f06b23, 0xf59592dd), 0, 0x32033344);
    Next(5, x, Regs(0xf59592dd, 0x32033344, 0x1b163203, 0xe7f06b23), 0, 0x2f35d494);
    Next(6, x, Regs(0xe7f06b23, 0x2f35d494, 0x32033344, 0x1b163203), 0, 0xf5b158db);
    Next(7, x, Regs(0x1b163203, 0xf5b158db, 0x2f35d494, 0x32033344), 0, 0x9bc13ce9);
  }

  lemma Empty12(x: seq<Word>)
    requires Sparse(x, 0x80, 0x0)
    ensures Steps(12, INIT, x) == Regs(0x3893b991, 0x70768a29, 0xe1ef0576, 0xfce4a312)
  {
    hide Steps, Sine, WordIndex;
    Md5Rounds.Constants1();
    Empty8(x);
    Next(8, x, Regs(0x32033344, 0x9bc13ce9, 0xf5b158db, 0x2f35d494), 0, 0x3893b991);
    Next(9, x, Regs(0x2f35d494, 0x3893b991, 0x9bc13ce9, 0xf5b158db), 0, 0xfce4a312);
    Next(10, x, Regs(0xf5b158db, 0xfce4a312, 0x3893b991, 0x9bc13ce9), 0, 0xe1ef0576);
    Next(11, x, Regs(0x9bc13ce9, 0xe1ef0576, 0xfce4a312, 0x3893b991), 0, 0x70768a29);
  }

  lemma Empty16(x: seq<Word>)
    requires Sparse(x, 0x80, 0x0)
    ensures Steps(16, INIT, x) == Regs(0xf56c7cf1, 0xd6819c6a, 0x5aa53f75, 0x374943a7)
  {
    hide Steps, Sine, WordIndex;
    Md5Rounds.Constants1();
    Empty12(x);
    Next(12, x, Regs(0x3893b991, 0x70768a29, 0xe1ef0576, 0xfce4a312), 0, 0xf56c7cf1);
    Next(13, x, Regs(0xfce4a312, 0xf56c7cf1, 0x70768a29, 0xe1ef0576), 0, 0x374943a7);
    Next(14, x, Regs(0xe1ef0576, 0x374943a7, 0xf56c7cf1, 0x70768a29), 0x0, 0x5aa53f75);
    Next(15, x, Regs(0x70768a29, 0x5aa53f75, 0x374943a7, 0xf56c7cf1), 0, 0xd6819c6a);
  }

  lemma Empty20(x: seq<Word>)
    requires Sparse(x, 0x80, 0x0)
    ensures Steps(20, INIT, x) == Regs(0x1c7d7513, 0xbd782e17, 0xc095f13a, 0x7bd57a3a)
  {
    hide Steps, Sine, WordIndex;
    Md5Rounds.Constants2();
    Empty16(x);
    Next(16, x, Regs(0xf56c7cf1, 0xd6819c6a, 0x5aa53f75, 0x374943a7), 0, 0x1c7d7513);
    Next(17, x, Regs(0x374943a7, 0x1c7d7513, 0xd6819c6a, 0x5aa53f75), 0, 0x7bd57a3a);
    Next(18, x, Regs(0x5aa53f75, 0x7bd57a3a, 0x1c7d7513, 0xd6819c6a), 0, 0xc095f13a);
    Next(19, x, Regs(0xd6819c6a, 0xc095f13a, 0x7bd57a3a, 0x1c7d7513), 0x80, 0xbd782e17);
  }

  lemma Empty24(x: seq<Word>)
    requires Sparse(x, 0x80, 0x0)
    ensures Steps(24, INIT, x) == Regs(0x3d1e3e6c, 0xe422531a, 0xeb41643e, 0x68b7b3e3)
  {
    hide Steps, Sine, WordIndex;
    Md5Rounds.Constants2();
    Empty20(x);
    Next(20, x, Regs(0x1c7d7513, 0xbd782e17, 0xc095f13a, 0x7bd57a3a), 0, 0x3d1e3e6c);
    Next(21, x, Regs(0x7bd57a3a, 0x3d1e3e6c, 0xbd782e17, 0xc095f13a), 0, 0x68b7b3e3);
    Next(22, x, Regs(0xc095f13a, 0x68b7b3e3, 0x3d1e3e6c, 0xbd782e17), 0, 0xeb41643e);
    Next(23, x, Regs(0xbd782e17, 0xeb41643e, 0x68b7b3e3, 0x3d1e3e6c), 0, 0xe422531a);
  }

  lemma Empty28(x: seq<Word>)
    requires Sparse(x, 0x80, 0x0)
    ensures Steps(28, INIT, x) == Regs(0x306ec122, 0xa0572807, 0xa3c663da, 0xd28c77c2)
  {
    hide Steps, Sine, WordIndex;
    Md5Rounds.Constants2();
    Empty24(x);
    Next(24, x, Regs(0x3d1e3e6c, 0xe422531a, 0xeb41643e, 0x68b7b3e3), 0, 0x306ec122);
    Next(25, x, Regs(0x68b7b3e3, 0x306ec122, 0xe422531a, 0xeb41643e), 0x0, 0xd28c77c2);
    Next(26, x, Regs(0xeb41643e, 0xd28c77c2, 0x306ec122, 0xe422531a), 0, 0xa3c663da);
    Next(27, x, Regs(0xe422531a, 0xa3c663da, 0xd28c77c2, 0x306ec122), 0, 0xa0572807);
  }

  lemma Empty32(x: seq<Word>)
    requires Sparse(x, 0x80, 0x0)
    ensures Steps(32, INIT, x) == Regs(0x13707036, 0xa2205f1f, 0x1c31c384, 0xae7813db)
  {
    hide Steps, Sine, WordIndex;
    Md5Rounds.Constants2();
    Empty28(x);
    Next(28, x, Regs(0x306ec122, 0xa0572807, 0xa3c663da, 0xd28c77c2), 0, 0x13707036);
    Next(29, x, Regs(0xd28c77c2, 0x13707036, 0xa0572807, 0xa3c663da), 0, 0xae7813db);
    Next(30, x, Regs(0xa3c663da, 0xae7813db, 0x13707036, 0xa0572807), 0, 0x1c31c384);
    Next(31, x, Regs(0xa0572807, 0x1c31c384, 0xae7813db, 0x13707036), 0, 0xa2205f1f);
  }

  lemma Empty36(x: seq<Word>)
    requires Sparse(x, 0x80, 0x0)
    ensures Steps(36, INIT, x) == Regs(0xdf63eaa1, 0x004b6669, 0x12f3e755, 0xc3689f5b)
  {
    hide Steps, Sine, WordIndex;
    Md5Rounds.Constants3();
    Empty32(x);
    Next(32, x, Regs(0x13707036, 0xa2205f1f, 0x1c31c384, 0xae7813db), 0, 0xdf63eaa1);
    Next(33, x, Regs(0xae7813db, 0xdf63eaa1, 0xa2205f1f, 0x1c31c384), 0, 0xc3689f5b);
    Next(34, x, Regs(0x1c31c384, 0xc3689f5b, 0xdf63eaa1, 0xa2205f1f), 0, 0x12f3e755);
    Next(35, x, Regs(0xa2205f1f, 0x12f3e755, 0xc3689f5b, 0xdf63eaa1), 0x0, 0x004b6669);
  }

  lemma Empty40(x: seq<Word>)
    requires Sparse(x, 0x80, 0x0)
    ensures Steps(40, INIT, x) == Regs(0x5f7a9b2e, 0xc5dc8c15, 0x91ca4cb7, 0xabc34e16)
  {
    hide Steps, Sine, WordIndex;
    Md5Rounds.Constants3();
    Empty36(x);
    Next(36, x, Regs(0xdf63eaa1, 0x004b6669, 0x12f3e755, 0xc3689f5b), 0, 0x5f7a9b2e);
    Next(37, x, Regs(0xc3689f5b, 0x5f7a9b2e, 0x004b6669, 0x12f3e755), 0, 0xabc34e16);
    Next(38, x, Regs(0x12f3e755, 0xabc34e16, 0x5f7a9b2e, 0x004b6669), 0, 0x91ca4cb7);
    Next(39, x, Regs(0x004b6669, 0x91ca4cb7, 0xabc34e16, 0x5f7a9b2e), 0, 0xc5dc8c15);
  }

  lemma Empty44(x: seq<Word>)
    requires Sparse(x, 0x80, 0x0)
    ensures Steps(44, INIT, x) == Regs(0x4497169d, 0x0fe32453, 0xfd95f243, 0x76fd93d4)
  {
    hide Steps, Sine, WordIndex;
    Md5Rounds.Constants3();
    Empty40(x);
    Next(40, x, Regs(0x5f7a9b2e, 0xc5dc8c15, 0x91ca4cb7, 0xabc34e16), 0, 0x4497169d);
    Next(41, x, Regs(0xabc34e16, 0x4497169d, 0xc5dc8c15, 0x91ca4cb7), 0x80, 0x76fd93d4);
    Next(42, x, Regs(0x91ca4cb7, 0x76fd93d4, 0x4497169d, 0xc5dc8c15), 0, 0xfd95f243);
    Next(43, x, Regs(0xc5dc8c15, 0xfd95f243, 0x76fd93d4, 0x4497169d), 0, 0x0fe32453);
  }

  lemma Empty48(x: seq<Word>)
    requires Sparse(x, 0x80, 0x0)
    ensures Steps(48, INIT, x) == Regs(0x3f55edfd, 0xca7d2dbd, 0x68d84ea2, 0x22a31f54)
  {
    hide Steps, Sine, WordIndex;
    Md5Rounds.Constants3();
    Empty44(x);
    Next(44, x, Regs(0x4497169d, 0x0fe32453, 0xfd95f243, 0x76fd93d4), 0, 0x3f55edfd);
    Next(45, x, Regs(0x76fd93d4, 0x3f55edfd, 0x0fe32453, 0xfd95f243), 0, 0x22a31f54);
    Next(46, x, Regs(0xfd95f243, 0x22a31f54, 0x3f55edfd, 0x0fe32453), 0, 0x68d84ea2);
    Next(47, x, Regs(0x0fe32453, 0x68d84ea2, 0x22a31f54, 0x3f55edfd), 0, 0xca7d2dbd);
  }

  lemma Empty52(x: seq<Word>)
    requires Sparse(x, 0x80, 0x0)
    ensures Steps(52, INIT, x) == Regs(0x93aa2577, 0x561e0689, 0xcd85b8cb, 0x1688dc85)
  {
    hide Steps, Sine, WordIndex;
    Md5Rounds.Constants4();
    Empty48(x);
    Next(48, x, Regs(0x3f55edfd, 0xca7d2dbd, 0x68d84ea2, 0x22a31f54), 0x80, 0x93aa2577);
    Next(49, x, Regs(0x22a31f54, 0x93aa2577, 0xca7d2dbd, 0x68d84ea2), 0, 0x1688dc85);
    Next(50, x, Regs(0x68d84ea2, 0x1688dc85, 0x93aa2577, 0xca7d2dbd), 0x0, 0xcd85b8cb);
    Next(51, x, Regs(0xca7d2dbd, 0xcd85b8cb, 0x1688dc85, 0x93aa2577), 0, 0x561e0689);
  }

  lemma Empty56(x: seq<Word>)
    requires Sparse(x, 0x80, 0x0)
    ensures Steps(56, INIT, x) == Regs(0x5625a114, 0x1e77fa61, 0x392ad0d0, 0x3450f42b)
  {
    hide Steps, Sine, WordIndex;
    Md5Rounds.Constants4();
    Empty52(x);
    Next(52, x, Regs(0x93aa2577, 0x561e0689, 0xcd85b8cb, 0x1688dc85), 0, 0x5625a114);
    Next(53, x, Regs(0x1688dc85, 0x5625a114, 0x561e0689, 0xcd85b8cb), 0, 0x3450f42b);
    Next(54, x, Regs(0xcd85b8cb, 0x3450f42b, 0x5625a114, 0x561e0689), 0, 0x392ad0d0);
    Next(55, x, Regs(0x561e0689, 0x392ad0d0, 0x3450f42b, 0x5625a114), 0, 0x1e77fa61);
  }

  lemma Empty60(x: seq<Word>)
    requires Sparse(x, 0x80, 0x0)
    ensures Steps(60, INIT, x) == Regs(0x474a9c8c, 0x30130182, 0x36594b14, 0xdfce00bc)
  {
    hide Steps, Sine, WordIndex;
    Md5Rounds.Constants4();
    Empty56(x);
    Next(56, x, Regs(0x5625a114, 0x1e77fa61, 0x392ad0d0, 0x3450f42b), 0, 0x474a9c8c);
    Next(57, x, Regs(0x3450f42b, 0x474a9c8c, 0x1e77fa61, 0x392ad0d0), 0, 0xdfce00bc);
    Next(58, x, Regs(0x392ad0d0, 0xdfce00bc, 0x474a9c8c, 0x1e77fa61), 0, 0x36594b14);
    Next(59, x, Regs(0x1e77fa61, 0x36594b14, 0xdfce00bc, 0x474a9c8c), 0, 0x30130182);
  }

  lemma Empty64(x: seq<Word>)
    requires Sparse(x, 0x80, 0x0)
    ensures Steps(64, INIT, x) == Regs(0x7246fad3, 0x14e45506, 0xff4ea3eb, 0x6e10a476)
  {
    hide Steps, Sine, WordIndex;
    Md5Rounds.Constants4();
    Empty60(x);
    Next(60, x, Regs(0x474a9c8c, 0x30130182, 0x36594b14, 0xdfce00bc), 0, 0x7246fad3);
    Next(61, x, Regs(0xdfce00bc, 0x7246fad3, 0x30130182, 0x36594b14), 0, 0x6e10a476);
    Next(62, x, Regs(0x36594b14, 0x6e10a476, 0x7246fad3, 0x30130182), 0, 0xff4ea3eb);
    Next(63, x, Regs(0x30130182, 0xff4ea3eb, 0x6e10a476, 0x7246fad3), 0, 0x14e45506);
  }

  lemma Abc4(x: seq<Word>)
    requires Sparse(x, 0x80636261, 0x18)
    ensures Steps(4, INIT, x) == Regs(0xd6d117b4, 0x7ad956f2, 0x2f6fbd72, 0x344a8432)
  {
    Md5Rounds.Begin(INIT, x);
    hide Steps, Sine, WordIndex;
    Md5Rounds.Constants1();
    Next(0, x, Regs(0x67452301, 0xefcdab89, 0x98badcfe, 0x10325476), 0x80636261, 0xd6d117b4);
    Next(1, x, Regs(0x10325476, 0xd6d117b4, 0xefcdab89, 0x98badcfe), 0, 0x344a8432);
    Next(2, x, Regs(0x98badcfe, 0x344a8432, 0xd6d117b4, 0xefcdab89), 0, 0x2f6fbd72);
    Next(3, x, Regs(0xefcdab89, 0x2f6fbd72, 0x344a8432, 0xd6d117b4), 0, 0x7ad956f2);
  }

  lemma Abc8(x: seq<Word>)
    requires Sparse(x, 0x80636261, 0x18)
    ensures Steps(8, INIT, x) == Regs(0xc73741ef, 0x928d99f6, 0x207dc67b, 0x8bac3051)
  {
    hide Steps, Sine, WordIndex;
    Md5Rounds.Constants1();
    Abc4(x);
    Next(4, x, Regs(0xd6d117b4, 0x7ad956f2, 0x2f6fbd72, 0x344a8432), 0, 0xc73741ef);
    Next(5, x, Regs(0x344a8432, 0xc73741ef, 0x7ad956f2, 0x2f6fbd72), 0, 0x8bac3051);
    Next(6, x, Regs(0x2f6fbd72, 0x8bac3051, 0xc73741ef, 0x7ad956f2), 0, 0x207dc67b);
    Next(7, x, Regs(0x7ad956f2, 0x207dc67b, 0x8bac3051, 0xc73741ef), 0, 0x928d99f6);
  }

  lemma Abc12(x: seq<Word>)
    requires Sparse(x, 0x80636261, 0x18)
    ensures Steps(12, INIT, x) == Regs(0x854b3712, 0x5ed49596, 0x3020401c, 0x74e2f284)
  {
    hide Steps, Sine, WordIndex;
    Md5Rounds.Constants1();
    Abc8(x);
    Next(8, x, Regs(0xc73741ef, 0x928d99f6, 0x207dc67b, 0x8bac3051), 0, 0x854b3712);
    Next(9, x, Regs(0x8bac3051, 0x854b3712, 0x928d99f6, 0x207dc67b), 0, 0x74e2f284);
    Next(10, x, Regs(0x207dc67b, 0x74e2f284, 0x854b3712, 0x928d99f6), 0, 0x3020401c);
    Next(11, x, Regs(0x928d99f6, 0x3020401c, 0x74e2f284, 0x854b3712), 0, 0x5ed49596);
  }

  lemma Abc16(x: seq<Word>)
    requires Sparse(x, 0x80636261, 0x18)
    ensures Steps(16, INIT, x) == Regs(0xdda9b9a6, 0x72aff2e0, 0xe396856b, 0xa1051895)
  {
    hide Steps, Sine, WordIndex;
    Md5Rounds.Constants1();
    Abc12(x);
    Next(12, x, Regs(0x854b3712, 0x5ed49596, 0x3020401c, 0x74e2f284), 0, 0xdda9b9a6);
    Next(13, x, Regs(0x74e2f284, 0xdda9b9a6, 0x5ed49596, 0x3020401c), 0, 0xa1051895);
    Next(14, x, Regs(0x3020401c, 0xa1051895, 0xdda9b9a6, 0x5ed49596), 0x18, 0xe396856b);
    Next(15, x, Regs(0x5ed49596, 0xe396856b, 0xa1051895, 0xdda9b9a6), 0, 0x72aff2e0);
  }

  lemma Abc20(x: seq<Word>)
    requires Sparse(x, 0x80636261, 0x18)
    ensures Steps(20, INIT, x) == Regs(0x3e9e9126, 0xb5b204e4, 0xe25e1652, 0x4a1d804e)
  {
    hide Steps, Sine, WordIndex;
    Md5Rounds.Constants2();
    Abc16(x);
    Next(16, x, Regs(0xdda9b9a6, 0x72aff2e0, 0xe396856b, 0xa1051895), 0, 0x3e9e9126);
    Next(17, x, Regs(0xa1051895, 0x3e9e9126, 0x72aff2e0, 0xe396856b), 0, 0x4a1d804e);
    Next(18, x, Regs(0xe396856b, 0x4a1d804e, 0x3e9e9126, 0x72aff2e0), 0, 0xe25e1652);
    Next(19, x, Regs(0x72aff2e0, 0xe25e1652, 0x4a1d804e, 0x3e9e9126), 0x80636261, 0xb5b204e4);
  }

  lemma Abc24(x: seq<Word>)
    requires Sparse(x, 0x80636261, 0x18)
    ensures Steps(24, INIT, x) == Regs(0x59a8ffda, 0x47092c07, 0xabfc7920, 0x6d002f1e)
  {
    hide Steps, Sine, WordIndex;
    Md5Rounds.Constants2();
    Abc20(x);
    Next(20, x, Regs(0x3e9e9126, 0xb5b204e4, 0xe25e1652, 0x4a1d804e), 0, 0x59a8ffda);
    Next(21, x, Regs(0x4a1d804e, 0x59a8ffda, 0xb5b204e4, 0xe25e1652), 0, 0x6d002f1e);
    Next(22, x, Regs(0xe25e1652, 0x6d002f1e, 0x59a8ffda, 0xb5b204e4), 0, 0xabfc7920);
    Next(23, x, Regs(0xb5b204e4, 0xabfc7920, 0x6d002f1e, 0x59a8ffda), 0, 0x47092c07);
  }

  lemma Abc28(x: seq<Word>)
    requires Sparse(x, 0x80636261, 0x18)
    ensures Steps(28, INIT, x) == Regs(0xb7f268cf, 0x786acb8f, 0xfe1623b1, 0x09388eff)
  {
    hide Steps, Sine, WordIndex;
    Md5Rounds.Constants2();
    Abc24(x);
    Next(24, x, Regs(0x59a8ffda, 0x47092c07, 0xabfc7920, 0x6d002f1e), 0, 0xb7f268cf);
    Next(25, x, Regs(0x6d002f1e, 0xb7f268cf, 0x47092c07, 0xabfc7920), 0x18, 0x09388eff);
    Next(26, x, Regs(0xabfc7920, 0x09388eff, 0xb7f268cf, 0x47092c07), 0, 0xfe1623b1);
    Next(27, x, Regs(0x47092c07, 0xfe1623b1, 0x09388eff, 0xb7f268cf), 0, 0x786acb8f);
  }

  lemma Abc32(x: seq<Word>)
    requires Sparse(x, 0x80636261, 0x18)
    ensures Steps(32, INIT, x) == Regs(0x790a77fb, 0x726342d3, 0xa62884aa, 0x9f47e4f8)
  {
    hide Steps, Sine, WordIndex;
    Md5Rounds.Constants2();
    Abc28(x);
    Next(28, x, Regs(0xb7f268cf, 0x786acb8f, 0xfe1623b1, 0x09388eff), 0, 0x790a77fb);
    Next(29, x, Regs(0x09388eff, 0x790a77fb, 0x786acb8f, 0xfe1623b1), 0, 0x9f47e4f8);
    Next(30, x, Regs(0xfe1623b1, 0x9f47e4f8, 0x790a77fb, 0x786acb8f), 0, 0xa62884aa);
    Next(31, x, Regs(0x786acb8f, 0xa62884aa, 0x9f47e4f8, 0x790a77fb), 0, 0x726342d3);
  }

  lemma Abc36(x: seq<Word>)
    requires Sparse(x, 0x80636261, 0x18)
    ensures Steps(36, INIT, x) == Regs(0xb3707ebf, 0x3b0875c7, 0x8d212ff5, 0x60127b2e)
  {
    hide Steps, Sine, WordIndex;
    Md5Rounds.Constants3();
    Abc32(x);
    Next(32, x, Regs(0x790a77fb, 0x726342d3, 0xa62884aa, 0x9f47e4f8), 0, 0xb3707ebf);
    Next(33, x, Regs(0x9f47e4f8, 0xb3707ebf, 0x726342d3, 0xa62884aa), 0, 0x60127b2e);
    Next(34, x, Regs(0xa62884aa, 0x60127b2e, 0xb3707ebf, 0x726342d3), 0, 0x8d212ff5);
    Next(35, x, Regs(0x726342d3, 0x8d212ff5, 0x60127b2e, 0xb3707ebf), 0x18, 0x3b0875c7);
  }

  lemma Abc40(x: seq<Word>)
    requires Sparse(x, 0x80636261, 0x18)
    ensures Steps(40, INIT, x) == Regs(0x21b117b9, 0x5a2f5ea5, 0x3575227e, 0x6e7429d5)
  {
    hide Steps, Sine, WordIndex;
    Md5Rounds.Constants3();
    Abc36(x);
    Next(36, x, Regs(0xb3707ebf, 0x3b0875c7, 0x8d212ff5, 0x60127b2e), 0, 0x21b117b9);
    Next(37, x, Regs(0x60127b2e, 0x21b117b9, 0x3b0875c7, 0x8d212ff5), 0, 0x6e7429d5);
    Next(38, x, Regs(0x8d212ff5, 0x6e7429d5, 0x21b117b9, 0x3b0875c7), 0, 0x3575227e);
    Next(39, x, Regs(0x3b0875c7, 0x3575227e, 0x6e7429d5, 0x21b117b9), 0, 0x5a2f5ea5);
  }

  lemma Abc44(x: seq<Word>)
    requires Sparse(x, 0x80636261, 0x18)
    ensures Steps(44, INIT, x) == Regs(0x11de1779, 0x4c6124f4, 0x31c465ca, 0xfadcaa38)
  {
    hide Steps, Sine, WordIndex;
    Md5Rounds.Constants3();
    Abc40(x);
    Next(40, x, Regs(0x21b117b9, 0x5a2f5ea5, 0x3575227e, 0x6e7429d5), 0, 0x11de1779);
    Next(41, x, Regs(0x6e7429d5, 0x11de1779, 0x5a2f5ea5, 0x3575227e), 0x80636261, 0xfadcaa38);
    Next(42, x, Regs(0x3575227e, 0xfadcaa38, 0x11de1779, 0x5a2f5ea5), 0, 0x31c465ca);
    Next(43, x, Regs(0x5a2f5ea5, 0x31c465ca, 0xfadcaa38, 0x11de1779), 0, 0x4c6124f4);
  }

  lemma Abc48(x: seq<Word>)
    requires Sparse(x, 0x80636261, 0x18)
    ensures Steps(48, INIT, x) == Regs(0x7f2e507b, 0x7beb9700, 0x8fae6399, 0x99d9679d)
  {
    hide Steps, Sine, WordIndex;
    Md5Rounds.Constants3();
    Abc44(x);
    Next(44, x, Regs(0x11de1779, 0x4c6124f4, 0x31c465ca, 0xfadcaa38), 0, 0x7f2e507b);
    Next(45, x, Regs(0xfadcaa38, 0x7f2e507b, 0x4c6124f4, 0x31c465ca), 0, 0x99d9679d);
    Next(46, x, Regs(0x31c465ca, 0x99d9679d, 0x7f2e507b, 0x4c6124f4), 0, 0x8fae6399);
    Next(47, x, Regs(0x4c6124f4, 0x8fae6399, 0x99d9679d, 0x7f2e507b), 0, 0x7beb9700);
  }

  lemma Abc52(x: seq<Word>)
    requires Sparse(x, 0x80636261, 0x18)
    ensures Steps(52, INIT, x) == Regs(0x7b201df8, 0x8bf025c4, 0xb298cefd, 0xf4e8e96e)
  {
    hide Steps, Sine, WordIndex;
    Md5Rounds.Constants4();
    Abc48(x);
    Next(48, x, Regs(0x7f2e507b, 0x7beb9700, 0x8fae6399, 0x99d9679d), 0x80636261, 0x7b201df8);
    Next(49, x, Regs(0x99d9679d, 0x7b201df8, 0x7beb9700, 0x8fae6399), 0, 0xf4e8e96e);
    Next(50, x, Regs(0x8fae6399, 0xf4e8e96e, 0x7b201df8, 0x7beb9700), 0x18, 0xb298cefd);
    Next(51, x, Regs(0x7beb9700, 0xb298cefd, 0xf4e8e96e, 0x7b201df8), 0, 0x8bf025c4);
  }

  lemma Abc56(x: seq<Word>)
    requires Sparse(x, 0x80636261, 0x18)
    ensures Steps(56, INIT, x) == Regs(0x06cc5e8a, 0x3bfa2c27, 0x7d632dd0, 0x5b0d97aa)
  {
    hide Steps, Sine, WordIndex;
    Md5Rounds.Constants4();
    Abc52(x);
    Next(52, x, Regs(0x7b201df8, 0x8bf025c4, 0xb298cefd, 0xf4e8e96e), 0, 0x06cc5e8a);
    Next(53, x, Regs(0xf4e8e96e, 0x06cc5e8a, 0x8bf025c4, 0xb298cefd), 0, 0x5b0d97aa);
    Next(54, x, Regs(0xb298cefd, 0x5b0d97aa, 0x06cc5e8a, 0x8bf025c4), 0, 0x7d632dd0);
    Next(55, x, Regs(0x8bf025c4, 0x7d632dd0, 0x5b0d97aa, 0x06cc5e8a), 0, 0x3bfa2c27);
  }

  lemma Abc60(x: seq<Word>)
    requires Sparse(x, 0x80636261, 0x18)
    ensures Steps(60, INIT, x) == Regs(0x7f81cc35, 0x7327d604, 0x4f9dbe3f, 0x094454ab)
  {
    hide Steps, Sine, WordIndex;
    Md5Rounds.Constants4();
    Abc56(x);
    Next(56, x, Regs(0x06cc5e8a, 0x3bfa2c27, 0x7d632dd0, 0x5b0d97aa), 0, 0x7f81cc35);
    Next(57, x, Regs(0x5b0d97aa, 0x7f81cc35, 0x3bfa2c27, 0x7d632dd0), 0, 0x094454ab);
    Next(58, x, Regs(0x7d632dd0, 0x094454ab, 0x7f81cc35, 0x3bfa2c27), 0, 0x4f9dbe3f);
    Next(59, x, Regs(0x3bfa2c27, 0x4f9dbe3f, 0x094454ab, 0x7f81cc35), 0, 0x7327d604);
  }

  lemma Abc64(x: seq<Word>)
    requires Sparse(x, 0x80636261, 0x18)
    ensures Steps(64, INIT, x) == Regs(0x310ade8f, 0xc08226b3, 0xe484b9d8, 0x624d8cb2)
  {
    hide Steps, Sine, WordIndex;
    Md5Rounds.Constants4();
    Abc60(x);
    Next(60, x, Regs(0x7f81cc35, 0x7327d604, 0x4f9dbe3f, 0x094454ab), 0, 0x310ade8f);
    Next(61, x, Regs(0x094454ab, 0x310ade8f, 0x7327d604, 0x4f9dbe3f), 0, 0x624d8cb2);
    Next(62, x, Regs(0x4f9dbe3f, 0x624d8cb2, 0x310ade8f, 0x7327d604), 0, 0xe484b9d8);
    Next(63, x, Regs(0x7327d604, 0xe484b9d8, 0x624d8cb2, 0x310ade8f), 0, 0xc08226b3);
  }

  // ----- blocks and digests -----

  lemma {:induction false} WordsAt(s: seq<Byte>, k: nat)
    requires |s| % 4 == 0 && 4 * k < |s|
    ensures WordsOf(s)[k] == WordOf(s[4 * k], s[4 * k + 1], s[4 * k + 2], s[4 * k + 3])
  {
    hide WordOf;
    if k > 0 {
      WordsAt(s[4..], k - 1);
    }
  }

  lemma RegBytesAre(r: Regs)
    ensures RegBytes(r) == WordBytes(r.a) + WordBytes(r.b) + WordBytes(r.c) + WordBytes(r.d)
  {
    hide WordBytes;
    BytesOf([r.a, r.b, r.c, r.d]);
    BytesOf([r.b, r.c, r.d]);
    BytesOf([r.c, r.d]);
    BytesOf([r.d]);
    assert Bytes([]) == [];
  }

  lemma BytesOf(ws: seq<Word>)
    requires ws != []
    ensures Bytes(ws) == WordBytes(ws[0]) + Bytes(ws[1..])
  {
  }

  lemma SparseWords(s: seq<Byte>, b0: Byte, b1: Byte, b2: Byte, b3: Byte, l: Byte)
    requires |s| == 64 && s[0] == b0 && s[1] == b1 && s[2] == b2 && s[3] == b3 && s[56] == l
    requires forall k :: 4 <= k < 64 && k != 56 ==> s[k] == 0
    ensures Sparse(WordsOf(s), WordOf(b0, b1, b2, b3), WordOf(l, 0, 0, 0))
  {
    assert WordOf(0, 0, 0, 0) == 0;
    hide WordOf, WordsOf;
    forall k | 0 <= k < 16
      ensures WordsOf(s)[k] == if k == 0 then WordOf(b0, b1, b2, b3) else if k == 14 then WordOf(l, 0, 0, 0) else 0
    {
      WordsAt(s, k);
    }
  }

  lemma Lengths()
    ensures LengthBytes(0) == [0, 0, 0, 0, 0, 0, 0, 0]
    ensures LengthBytes(24) == [0x18, 0, 0, 0, 0, 0, 0, 0]
  {
    ZeroByte();
    AbcByte();
    hide LowByte;
  }

  lemma ZeroByte()
    ensures LowByte(0) == 0
  {
  }

  lemma AbcByte()
    ensures LowByte(24) == 0x18
  {
  }

  /** The block of a message of at most three bytes. */
  lemma ShortBlock(m: seq<Byte>, l: Byte)
    requires |m| <= 3 && LengthBytes(8 * |m|) == [l, 0, 0, 0, 0, 0, 0, 0]
    ensures
      var s := Pad(m);
      && |s| == 64 && s[..|m|] == m && s[|m|] == 0x80 && s[56] == l
      && forall k :: |m| < k < 64 && k != 56 ==> s[k] == 0
  {
    hide LengthBytes;
  }

  lemma OneBlockDigest(m: seq<Byte>, q: Regs)
    requires |Pad(m)| == 64 && Steps(64, INIT, WordsOf(Pad(m))) == q
    ensures Digest(m) == WordBytes(INIT.a + q.a) + WordBytes(INIT.b + q.b) + WordBytes(INIT.c + q.c) +
      WordBytes(INIT.d + q.d)
  {
    hide Pad, Steps, WordBytes, WordsOf, RegBytes;
    var s := Pad(m);
    assert s[..64] == s && s[64..] == [];
    var r := Compress(INIT, s);
    assert Blocks(r, []) == r;
    RegBytesAre(r);
  }

  /** MD5 ("") = d41d8cd98f00b204e9800998ecf8427e */
  lemma EmptyDigest()
    ensures Digest([]) ==
      [0xd4, 0x1d, 0x8c, 0xd9, 0x8f, 0x00, 0xb2, 0x04,
       0xe9, 0x80, 0x09, 0x98, 0xec, 0xf8, 0x42, 0x7e]
  {
    hide Pad, Steps, Digest, WordsOf, WordBytes, LengthBytes;
    Lengths();
    ShortBlock([], 0);
    var s := Pad([]);
    SparseWords(s, 0x80, 0, 0, 0, 0);
    assert WordOf(0x80, 0, 0, 0) == 0x80 && WordOf(0, 0, 0, 0) == 0;
    Empty64(WordsOf(s));
    OneBlockDigest([], Regs(0x7246fad3, 0x14e45506, 0xff4ea3eb, 0x6e10a476));
    EmptyBytes();
  }

  lemma EmptyBytes()
    ensures
      WordBytes(INIT.a + 0x7246fad3) + WordBytes(INIT.b + 0x14e45506) + WordBytes(INIT.c + 0xff4ea3eb) +
      WordBytes(INIT.d + 0x6e10a476) ==
      [0xd4, 0x1d, 0x8c, 0xd9, 0x8f, 0x00, 0xb2, 0x04,
       0xe9, 0x80, 0x09, 0x98, 0xec, 0xf8, 0x42, 0x7e]
  {
  }

  /** MD5 ("abc") = 900150983cd24fb0d6963f7d28e17f72 */
  lemma AbcDigest()
    ensures Digest([0x61, 0x62, 0x63]) ==
      [0x90, 0x01, 0x50, 0x98, 0x3c, 0xd2, 0x4f, 0xb0,
       0xd6, 0x96, 0x3f, 0x7d, 0x28, 0xe1, 0x7f, 0x72]
  {
    hide Pad, Steps, Digest, WordsOf, WordBytes, LengthBytes;
    Lengths();
    var m: seq<Byte> := [0x61, 0x62, 0x63];
    ShortBlock(m, 0x18);
    var s := Pad(m);
    assert s[0] == m[0] && s[1] == m[1] && s[2] == m[2];
    SparseWords(s, 0x61, 0x62, 0x63, 0x80, 0x18);
    assert WordOf(0x61, 0x62, 0x63, 0x80) == 0x80636261 && WordOf(0x18, 0, 0, 0) == 0x18;
    Abc64(WordsOf(s));
    OneBlockDigest(m, Regs(0x310ade8f, 0xc08226b3, 0xe484b9d8, 0x624d8cb2));
    AbcBytes();
  }

  lemma AbcBytes()
    ensures
      WordBytes(INIT.a + 0x310ade8f) + WordBytes(INIT.b + 0xc08226b3) + WordBytes(INIT.c + 0xe484b9d8) +
      WordBytes(INIT.d + 0x624d8cb2) ==
      [0x90, 0x01, 0x50, 0x98, 0x3c, 0xd2, 0x4f, 0xb0,
       0xd6, 0x96, 0x3f, 0x7d, 0x28, 0xe1, 0x7f, 0x72]
  {
  }
}
