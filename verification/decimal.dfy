/** Decimal text: what "%d" and operator<< write for an int, and what atoi reads. */
module Decimal {

  predicate IsDigit(c: char) {
    '0' <= c <= '9'
  }

  predicate AllDigits(s: string) {
    forall k :: 0 <= k < |s| ==> IsDigit(s[k])
  }

  function DigitValue(c: char): (d: nat)
    requires IsDigit(c)
    ensures d < 10
  {
    c as int - '0' as int
  }

  function DigitChar(d: nat): (c: char)
    requires d < 10
    ensures IsDigit(c) && DigitValue(c) == d
  {
    (d + '0' as int) as char
  }

  function NatText(n: nat): (s: string)
    ensures s != "" && AllDigits(s)
  {
    if n < 10 then [DigitChar(n)] else NatText(n / 10) + [DigitChar(n % 10)]
  }

  function IntText(v: int): string {
    if v < 0 then "-" + NatText(-v) else NatText(v)
  }

  /** Digits read from the left until the first other character. */
  function ReadDigits(acc: nat, s: string): nat
    decreases |s|
  {
    if s == "" || !IsDigit(s[0]) then acc else ReadDigits(10 * acc + DigitValue(s[0]), s[1..])
  }

  predicate IsSpace(c: char) {
    c == ' ' || '\t' <= c <= '\r'
  }

  function SkipSpaces(s: string): string {
    if s != "" && IsSpace(s[0]) then SkipSpaces(s[1..]) else s
  }

  function Atoi(s: string): int {
    var t := SkipSpaces(s);
    if t != "" && t[0] == '-' then 0 - ReadDigits(0, t[1..])
    else if t != "" && t[0] == '+' then ReadDigits(0, t[1..])
    else ReadDigits(0, t)
  }

  /** Digits without a superfluous leading zero, and a minus sign only before a value that is not zero. */
  predicate CanonicalNat(s: string) {
    s != "" && AllDigits(s) && (|s| == 1 || s[0] != '0')
  }

  predicate CanonicalInt(s: string) {
    CanonicalNat(s) || (s != "" && s[0] == '-' && CanonicalNat(s[1..]) && s[1..] != "0")
  }

  lemma {:induction false} ReadsLastDigit(acc: nat, s: string, c: char)
    requires AllDigits(s) && IsDigit(c)
    ensures ReadDigits(acc, s + [c]) == 10 * ReadDigits(acc, s) + DigitValue(c)
    decreases |s|
  {
    if s == "" {
      assert ReadDigits(10 * acc + DigitValue(c), [c][1..]) == 10 * acc + DigitValue(c);
    } else {
      assert (s + [c])[1..] == s[1..] + [c];
      ReadsLastDigit(10 * acc + DigitValue(s[0]), s[1..], c);
    }
  }

  lemma {:induction false} ReadNatText(n: nat)
    ensures ReadDigits(0, NatText(n)) == n && CanonicalNat(NatText(n)) && (NatText(n) == "0" <==> n == 0)
  {
    if n < 10 {
      assert ReadDigits(n, NatText(n)[1..]) == n;
      assert NatText(n)[0] == '0' <==> n == 0;
    } else {
      ReadNatText(n / 10);
      ReadsLastDigit(0, NatText(n / 10), DigitChar(n % 10));
      assert NatText(n)[0] == NatText(n / 10)[0];
      assert |NatText(n)| >= 2;
    }
  }

  lemma {:induction false} WriteReadDigits(s: string)
    requires CanonicalNat(s)
    ensures NatText(ReadDigits(0, s)) == s
    ensures ReadDigits(0, s) == 0 ==> s == "0"
    decreases |s|
  {
    if |s| == 1 {
      assert ReadDigits(DigitValue(s[0]), s[1..]) == DigitValue(s[0]);
    } else {
      var t, c := s[..|s| - 1], s[|s| - 1];
      assert s == t + [c];
      WriteReadDigits(t);
      ReadsLastDigit(0, t, c);
      assert t[0] == s[0];
    }
  }

  lemma AtoiIntText(v: int)
    ensures Atoi(IntText(v)) == v
  {
    if v < 0 {
      ReadNatText(-v);
      assert IntText(v)[1..] == NatText(-v);
    } else {
      ReadNatText(v);
    }
  }

  /** Reading and writing back gives the same text exactly for the canonical ones. */
  lemma IntTextAtoi(s: string)
    ensures IntText(Atoi(s)) == s <==> CanonicalInt(s)
  {
    var v := Atoi(s);
    if CanonicalNat(s) {
      WriteReadDigits(s);
    } else if CanonicalInt(s) {
      WriteReadDigits(s[1..]);
      assert s == "-" + s[1..];
    } else {
      ReadNatText(if v < 0 then -v else v);
      assert v < 0 ==> IntText(v)[1..] == NatText(-v);
    }
  }

  // ----- digit by digit -----

  /** n divided by ten k times. */
  function Tenths(n: nat, k: nat): nat {
    if k == 0 then n else Tenths(n / 10, k - 1)
  }

  /** The decimal digits of a number, in ASCII, the last one first, without leading zeros. */
  lemma {:induction false} NatTextDigit(n: nat, k: nat)
    requires k < |NatText(n)|
    ensures NatText(n)[|NatText(n)| - 1 - k] as int == 48 + Tenths(n, k) % 10
    ensures Tenths(n, |NatText(n)|) == 0 && (Tenths(n, |NatText(n)| - 1) == 0 ==> n == 0 && |NatText(n)| == 1)
    decreases n
  {
    if n >= 10 {
      NatTextDigit(n / 10, if k == 0 then 0 else k - 1);
    }
  }

  /** A minus sign in front of negative numbers only. */
  lemma IntTextSign(v: int)
    ensures IntText(v) == if v < 0 then [45 as char] + NatText(-v) else NatText(v)
  {
  }

  lemma {:induction false} SkipsSpaces(ws: string, t: string)
    requires forall k :: 0 <= k < |ws| ==> ws[k] as int == 32 || 9 <= ws[k] as int <= 13
    requires t == "" || !(t[0] as int == 32 || 9 <= t[0] as int <= 13)
    ensures SkipSpaces(ws + t) == t
    decreases |ws|
  {
    if ws == "" {
      assert ws + t == t;
    } else {
      assert (ws + t)[1..] == ws[1..] + t;
      SkipsSpaces(ws[1..], t);
    }
  }

  lemma {:induction false} ReadsUpTo(acc: nat, ds: string, rest: string)
    requires AllDigits(ds) && (rest == "" || !(48 <= rest[0] as int <= 57))
    ensures ReadDigits(acc, ds + rest) == ReadDigits(acc, ds)
    decreases |ds|
  {
    if ds == "" {
      assert ds + rest == rest;
    } else {
      assert (ds + rest)[1..] == ds[1..] + rest;
      ReadsUpTo(10 * acc + DigitValue(ds[0]), ds[1..], rest);
    }
  }

  function Zeros(z: nat): (s: string)
    ensures |s| == z && AllDigits(s)
  {
    if z == 0 then "" else [48 as char] + Zeros(z - 1)
  }

  lemma {:induction false} ReadsZeros(z: nat, s: string)
    ensures ReadDigits(0, Zeros(z) + s) == ReadDigits(0, s)
  {
    if z == 0 {
      assert Zeros(0) + s == s;
    } else {
      ReadsZeros(z - 1, s);
      var t := Zeros(z) + s;
      assert t[0] as int == 48 && t[1..] == Zeros(z - 1) + s;
    }
  }

  /**
   * atoi reads a number behind white space and an optional sign, with any leading zeros, and ignores what follows.
   */
  lemma AtoiReads(ws: string, sign: string, z: nat, n: nat, rest: string)
    requires forall k :: 0 <= k < |ws| ==> ws[k] as int == 32 || 9 <= ws[k] as int <= 13
    requires sign == "" || sign == "+" || sign == "-"
    requires rest == "" || !(48 <= rest[0] as int <= 57)
    ensures Atoi(ws + (sign + (Zeros(z) + NatText(n) + rest))) == if sign == "-" then 0 - n else n
  {
    var ds := Zeros(z) + NatText(n);
    ReadNatText(n);
    ReadsZeros(z, NatText(n));
    ReadsUpTo(0, ds, rest);
    var t := sign + (ds + rest);
    assert ds[0] == t[|sign|];
    SkipsSpaces(ws, t);
    if sign == "" {
      assert t == ds + rest;
    } else {
      assert t[1..] == ds + rest;
    }
  }

  /** A text in which no digit follows the white space and the sign reads as 0. */
  lemma AtoiOfNoNumber(ws: string, sign: string, rest: string)
    requires forall k :: 0 <= k < |ws| ==> ws[k] as int == 32 || 9 <= ws[k] as int <= 13
    requires sign == "" || sign == "+" || sign == "-"
    requires rest == "" || !(48 <= rest[0] as int <= 57)
    requires sign == "" && rest != "" ==> rest[0] != '+' && rest[0] != '-' && !IsSpace(rest[0])
    ensures Atoi(ws + (sign + rest)) == 0
  {
    var t := sign + rest;
    SkipsSpaces(ws, t);
    if sign == "" {
      assert t == rest;
    } else {
      assert t[1..] == rest;
    }
  }
}
