/** The base64 encoding of section 4 of RFC 4648, and the codec that fills small arrays byte by byte. */
module Base64 {
  import opened Octets

  type Sextet = x: int | 0 <= x < 64

  /** The n characters from first on. */
  function Run(first: char, n: nat): (s: string)
    requires first as int + n < 0xD800
    ensures |s| == n
  {
    seq(n, k requires 0 <= k < n => (first as int + k) as char)
  }

  const ALPHABET: string := Run('A', 26) + Run('a', 26) + Run('0', 10) + "+/"

  function Letter(v: Sextet): char {
    ALPHABET[v]
  }

  predicate IsLetter(c: char) {
    'A' <= c <= 'Z' || 'a' <= c <= 'z' || '0' <= c <= '9' || c == '+' || c == '/'
  }

  /** The position of a letter in the alphabet. */
  function ValueOf(c: char): Sextet
    requires IsLetter(c)
  {
    if 'A' <= c <= 'Z' then c as int - 'A' as int
    else if 'a' <= c <= 'z' then c as int - 'a' as int + 26
    else if '0' <= c <= '9' then c as int - '0' as int + 52
    else if c == '+' then 62 else 63
  }

  /** ValueOf is the only position of a letter, and nothing else occurs in the alphabet. */
  lemma AlphabetPositions(c: char, v: Sextet)
    ensures Letter(v) == c <==> IsLetter(c) && ValueOf(c) == v
  {
  }

  /** std::string::find cast to unsigned char: the position, or npos truncated to 255. */
  function Find(c: char): Byte {
    if IsLetter(c) then ValueOf(c) else 255
  }

  /** A 24-bit group, most significant byte first. */
  function Group(b0: Byte, b1: Byte, b2: Byte): (n: nat)
    ensures n < 0x100_0000
  {
    b0 * 0x1_0000 + b1 * 0x100 + b2
  }

  function Sextets(n: nat): (v: seq<Sextet>)
    requires n < 0x100_0000
    ensures |v| == 4
  {
    [n / 0x4_0000, n / 0x1000 % 64, n / 64 % 64, n % 64]
  }

  function GroupOf(v0: Sextet, v1: Sextet, v2: Sextet, v3: Sextet): (n: nat)
    ensures n < 0x100_0000
  {
    v0 * 0x4_0000 + v1 * 0x1000 + v2 * 64 + v3
  }

  function GroupBytes(n: nat): (b: seq<Byte>)
    requires n < 0x100_0000
    ensures |b| == 3
  {
    [n / 0x1_0000, n / 0x100 % 0x100, n % 0x100]
  }

  function Letters(v: seq<Sextet>): (s: string)
    ensures |s| == |v|
  {
    seq(|v|, k requires 0 <= k < |v| => Letter(v[k]))
  }

  function Encoded(b: seq<Byte>): string {
    if |b| == 0 then ""
    else if |b| == 1 then Letters(Sextets(Group(b[0], 0, 0))[..2]) + "=="
    else if |b| == 2 then Letters(Sextets(Group(b[0], b[1], 0))[..3]) + "="
    else Letters(Sextets(Group(b[0], b[1], b[2]))) + Encoded(b[3..])
  }

  /** The longest prefix of letters. */
  function LetterPrefix(s: string): (n: nat)
    ensures n <= |s|
    ensures forall k :: 0 <= k < n ==> IsLetter(s[k])
    ensures n < |s| ==> !IsLetter(s[n])
  {
    if s == [] || !IsLetter(s[0]) then 0 else 1 + LetterPrefix(s[1..])
  }

  function Values(s: string): (v: seq<Sextet>)
    requires forall k :: 0 <= k < |s| ==> IsLetter(s[k])
    ensures |v| == |s|
  {
    seq(|s|, k requires 0 <= k < |s| => ValueOf(s[k]))
  }

  /** The whole bytes that a sequence of six-bit values holds. */
  function Bytes(v: seq<Sextet>): seq<Byte> {
    if |v| <= 1 then []
    else if |v| == 2 then GroupBytes(GroupOf(v[0], v[1], 0, 0))[..1]
    else if |v| == 3 then GroupBytes(GroupOf(v[0], v[1], v[2], 0))[..2]
    else GroupBytes(GroupOf(v[0], v[1], v[2], v[3])) + Bytes(v[4..])
  }

  function Decoded(s: string): seq<Byte> {
    Bytes(Values(s[..LetterPrefix(s)]))
  }

  /** The strings section 4 of RFC 4648 produces: whole quanta, the last one padded with zero bits. */
  predicate Canonical(s: string) {
    s == "" ||
    (|s| >= 4 && IsLetter(s[0]) && IsLetter(s[1]) &&
     (if IsLetter(s[2]) && IsLetter(s[3]) then Canonical(s[4..])
      else if IsLetter(s[2]) then |s| == 4 && s[3] == '=' && ValueOf(s[2]) % 4 == 0
      else |s| == 4 && s[2] == '=' && s[3] == '=' && ValueOf(s[1]) % 16 == 0))
  }

  lemma GroupSextets(n: nat)
    requires n < 0x100_0000
    ensures var v := Sextets(n); GroupOf(v[0], v[1], v[2], v[3]) == n
  {
    assert n / 0x1000 == n / 64 / 64 && n / 0x4_0000 == n / 0x1000 / 64;
  }

  lemma SextetsGroup(v0: Sextet, v1: Sextet, v2: Sextet, v3: Sextet)
    ensures Sextets(GroupOf(v0, v1, v2, v3)) == [v0, v1, v2, v3]
  {
    var n := GroupOf(v0, v1, v2, v3);
    assert n / 64 == v0 * 0x1000 + v1 * 64 + v2;
    assert n / 0x1000 == v0 * 64 + v1;
    assert n / 0x4_0000 == v0;
  }

  lemma GroupBytesGroup(b0: Byte, b1: Byte, b2: Byte)
    ensures GroupBytes(Group(b0, b1, b2)) == [b0, b1, b2]
  {
    var n := Group(b0, b1, b2);
    assert n / 0x100 == b0 * 0x100 + b1;
    assert n / 0x1_0000 == b0;
  }

  /** The shifts and masks of the encoder cut a group into its sextets. */
  lemma EncoderBits(b0: Byte, b1: Byte, b2: Byte)
    ensures Sextets(Group(b0, b1, b2)) == [b0 / 4, b0 % 4 * 16 + b1 / 16, b1 % 16 * 4 + b2 / 64, b2 % 64]
  {
    var n := Group(b0, b1, b2);
    var m := b0 * 0x400 + b1 * 4 + b2 / 64;
    By64(n, m, b2 % 64);
    By64(m, b0 * 16 + b1 / 16, b1 % 16 * 4 + b2 / 64);
    By64(b0 * 16 + b1 / 16, b0 / 4, b0 % 4 * 16 + b1 / 16);
    assert n / 0x1000 == n / 64 / 64 && n / 0x4_0000 == n / 0x1000 / 64;
  }

  lemma By64(n: nat, q: nat, r: nat)
    requires r < 64 && n == q * 64 + r
    ensures n / 64 == q && n % 64 == r
  {
  }

  /** The shifts and masks of the decoder put a group together, as far as its values are defined. */
  lemma DecoderBits(v0: Sextet, v1: Sextet, v2: Sextet, v3: Sextet)
    ensures GroupBytes(GroupOf(v0, v1, v2, v3)) == [v0 * 4 + v1 / 16, v1 % 16 * 16 + v2 / 4, v2 % 4 * 64 + v3]
  {
    var n := GroupOf(v0, v1, v2, v3);
    var m := v0 * 0x400 + v1 * 16 + v2 / 4;
    By256(n, m, v2 % 4 * 64 + v3);
    By256(m, v0 * 4 + v1 / 16, v1 % 16 * 16 + v2 / 4);
    assert n / 0x1_0000 == m / 0x100;
  }

  lemma {:induction false} PrefixOfLetters(v: seq<Sextet>, t: string)
    requires t == "" || !IsLetter(t[0])
    ensures LetterPrefix(Letters(v) + t) == |v| && Values(Letters(v)) == v
  {
    var s := Letters(v) + t;
    forall k | 0 <= k < |v|
      ensures s[k] == Letter(v[k]) && IsLetter(s[k]) && ValueOf(s[k]) == v[k]
    {
      AlphabetPositions(Letter(v[k]), v[k]);
    }
    assert t != "" ==> s[|v|] == t[0];
    assert LetterPrefix(s) <= |v|;
    assert Values(Letters(v)) == v;
  }

  lemma {:induction false} DecodedSplits(v: seq<Sextet>, s: string)
    requires |v| == 4
    ensures Decoded(Letters(v) + s) == GroupBytes(GroupOf(v[0], v[1], v[2], v[3])) + Decoded(s)
  {
    var n := LetterPrefix(s);
    var w := Values(s[..n]);
    forall k | 0 <= k < n
      ensures s[k] == Letter(w[k])
    {
      AlphabetPositions(s[k], w[k]);
    }
    assert Letters(v) + s == Letters(v + w) + s[n..];
    PrefixOfLetters(v + w, s[n..]);
    assert (Letters(v) + s)[..4 + n] == Letters(v + w);
    assert (v + w)[4..] == w;
  }

  /** What the letters of v decode to, when padding or nothing follows them. */
  lemma DecodedLetters(v: seq<Sextet>, t: string)
    requires t == "" || !IsLetter(t[0])
    ensures Decoded(Letters(v) + t) == Bytes(v)
  {
    hide Letters, LetterPrefix, Values, Bytes, IsLetter;
    PrefixOfLetters(v, t);
    assert (Letters(v) + t)[..|v|] == Letters(v);
  }

  lemma DecodeOne(b: seq<Byte>)
    requires |b| == 1
    ensures Decoded(Encoded(b)) == b
  {
    hide Letters, Group, GroupOf, Sextets, GroupBytes, Decoded;
    var n := Group(b[0], 0, 0);
    DecodedLetters(Sextets(n)[..2], "==");
    TrailingSextets(b[0], 0);
    GroupSextets(n);
    GroupBytesGroup(b[0], 0, 0);
  }

  lemma DecodeTwo(b: seq<Byte>)
    requires |b| == 2
    ensures Decoded(Encoded(b)) == b
  {
    hide Letters, Group, GroupOf, Sextets, GroupBytes, Decoded;
    var n := Group(b[0], b[1], 0);
    DecodedLetters(Sextets(n)[..3], "=");
    TrailingSextets(b[0], b[1]);
    GroupSextets(n);
    GroupBytesGroup(b[0], b[1], 0);
  }

  lemma EncodedWhole(b: seq<Byte>)
    requires |b| >= 3
    ensures Encoded(b) == Letters(Sextets(Group(b[0], b[1], b[2]))) + Encoded(b[3..])
  {
    hide Letters, Group, Sextets;
  }

  lemma DecodeWhole(b: seq<Byte>)
    requires |b| >= 3
    ensures Decoded(Encoded(b)) == b[..3] + Decoded(Encoded(b[3..]))
  {
    hide Letters, Group, GroupOf, Sextets, GroupBytes, Decoded, Encoded;
    var n := Group(b[0], b[1], b[2]);
    EncodedWhole(b);
    DecodedSplits(Sextets(n), Encoded(b[3..]));
    GroupSextets(n);
    GroupBytesGroup(b[0], b[1], b[2]);
    FirstThree(b);
  }

  lemma FirstThree(b: seq<Byte>)
    requires |b| >= 3
    ensures b[..3] == [b[0], b[1], b[2]]
  {
  }

  /** Section 4 of RFC 4648 round trip: decoding what was encoded gives the bytes back. */
  lemma {:induction false} DecodeEncode(b: seq<Byte>)
    ensures Decoded(Encoded(b)) == b
  {
    if |b| == 0 {
      assert Decoded("") == [];
    } else {
      hide Encoded, Decoded;
      if |b| == 1 {
        DecodeOne(b);
      } else if |b| == 2 {
        DecodeTwo(b);
      } else {
        DecodeWhole(b);
        DecodeEncode(b[3..]);
        assert b == b[..3] + b[3..];
      }
    }
  }

  /** The unused bits of a short final quantum are zero. */
  lemma TrailingSextets(b0: Byte, b1: Byte)
    ensures Sextets(Group(b0, b1, 0))[3] == 0 && Sextets(Group(b0, b1, 0))[2] % 4 == 0
    ensures Sextets(Group(b0, 0, 0))[2] == 0 && Sextets(Group(b0, 0, 0))[3] == 0
    ensures Sextets(Group(b0, 0, 0))[1] % 16 == 0
  {
    hide Sextets, Group;
    EncoderBits(b0, b1, 0);
    EncoderBits(b0, 0, 0);
  }

  lemma {:induction false} EncodedLength(b: seq<Byte>)
    ensures |Encoded(b)| == (|b| + 2) / 3 * 4
  {
    hide Letters, Sextets, Group;
    if |b| >= 3 {
      EncodedLength(b[3..]);
      assert (|b| - 3 + 2) / 3 == (|b| + 2) / 3 - 1;
    }
  }

  lemma {:induction false} EncodedCanonical(b: seq<Byte>)
    ensures Canonical(Encoded(b))
  {
    hide Letter;
    if |b| != 0 {
      var b1 := if |b| == 1 then 0 else b[1];
      var b2 := if |b| <= 2 then 0 else b[2];
      var v := Sextets(Group(b[0], b1, b2));
      forall k | 0 <= k < 4
        ensures IsLetter(Letter(v[k])) && ValueOf(Letter(v[k])) == v[k]
      {
        AlphabetPositions(Letter(v[k]), v[k]);
      }
      TrailingSextets(b[0], b1);
      if |b| >= 3 {
        EncodedCanonical(b[3..]);
        assert Encoded(b)[4..] == Encoded(b[3..]);
      }
    }
  }

  /** The other round trip holds exactly for the strings the RFC's encoder can produce. */
  lemma {:induction false} EncodeDecode(s: string)
    ensures Encoded(Decoded(s)) == s <==> Canonical(s)
  {
    if Canonical(s) {
      EncodeDecodeCanonical(s);
    } else {
      EncodedCanonical(Decoded(s));
    }
  }

  lemma {:induction false} EncodeDecodeCanonical(s: string)
    requires Canonical(s)
    ensures Encoded(Decoded(s)) == s
  {
    hide Letter, ValueOf, Group, GroupOf, Sextets, GroupBytes;
    if s != "" {
      var v0, v1 := ValueOf(s[0]), ValueOf(s[1]);
      AlphabetPositions(s[0], v0);
      AlphabetPositions(s[1], v1);
      if IsLetter(s[2]) {
        var v2 := ValueOf(s[2]);
        AlphabetPositions(s[2], v2);
        if IsLetter(s[3]) {
          var v3 := ValueOf(s[3]);
          AlphabetPositions(s[3], v3);
          assert s == Letters([v0, v1, v2, v3]) + s[4..];
          DecodedSplits([v0, v1, v2, v3], s[4..]);
          Reencoded(v0, v1, v2, v3);
          EncodeDecodeCanonical(s[4..]);
          assert Decoded(s)[3..] == Decoded(s[4..]);
        } else {
          assert s == Letters([v0, v1, v2]) + "=";
          PrefixOfLetters([v0, v1, v2], "=");
          assert s[..3] == Letters([v0, v1, v2]);
          Reencoded(v0, v1, v2, 0);
        }
      } else {
        assert s == Letters([v0, v1]) + "==";
        PrefixOfLetters([v0, v1], "==");
        assert s[..2] == Letters([v0, v1]);
        Reencoded(v0, v1, 0, 0);
      }
    }
  }

  lemma GroupGroupBytes(n: nat)
    requires n < 0x100_0000
    ensures var b := GroupBytes(n); Group(b[0], b[1], b[2]) == n
  {
    assert n / 0x1_0000 == n / 0x100 / 0x100;
  }

  lemma Reencoded(v0: Sextet, v1: Sextet, v2: Sextet, v3: Sextet)
    ensures var b := GroupBytes(GroupOf(v0, v1, v2, v3));
            && Sextets(Group(b[0], b[1], b[2])) == [v0, v1, v2, v3]
            && (v3 == 0 && v2 % 4 == 0 ==> b[2] == 0)
            && (v3 == 0 && v2 == 0 && v1 % 16 == 0 ==> b[1] == 0)
  {
    hide GroupBytes, GroupOf, Group, Sextets;
    DecoderBits(v0, v1, v2, v3);
    GroupGroupBytes(GroupOf(v0, v1, v2, v3));
    SextetsGroup(v0, v1, v2, v3);
  }

  // ----- character by character, byte by byte -----

  lemma LetterCode(v: Sextet)
    ensures Letter(v) as int ==
      if v < 26 then 65 + v else if v < 52 then 97 + (v - 26) else if v < 62 then 48 + (v - 52)
      else if v == 62 then '+' as int else '/' as int
  {
  }

  lemma LettersCodes(n: nat, b0: Byte, b1: Byte, b2: Byte, k: nat)
    requires n <= 4 && k < n
    ensures
      var v := if k == 0 then b0 / 4 else if k == 1 then b0 % 4 * 16 + b1 / 16 else if k == 2 then b1 % 16 * 4 + b2 / 64
               else b2 % 64;
      Letters(Sextets(Group(b0, b1, b2))[..n])[k] as int ==
      if v < 26 then 65 + v else if v < 52 then 97 + (v - 26) else if v < 62 then 48 + (v - 52)
      else if v == 62 then '+' as int else '/' as int
  {
    hide Sextets, Group, Letter;
    EncoderBits(b0, b1, b2);
    LetterCode(Sextets(Group(b0, b1, b2))[k]);
  }

  lemma EncodedStart(b: seq<Byte>, i: nat)
    requires 0 < |b| && i < 4
    ensures
      var b1, b2 := if |b| > 1 then b[1] else 0, if |b| > 2 then b[2] else 0;
      && |Encoded(b)| >= 4
      && if (i == 2 && |b| == 1) || (i == 3 && |b| <= 2) then Encoded(b)[i] == '='
         else Encoded(b)[i] == Letters(Sextets(Group(b[0], b1, b2))[..i + 1])[i]
  {
    hide Sextets, Group, Letter;
  }

  lemma EncodedLater(b: seq<Byte>)
    requires |b| >= 3
    ensures |Encoded(b)| == 4 + |Encoded(b[3..])| && Encoded(b)[4..] == Encoded(b[3..])
  {
    hide Sextets, Group, Letter;
  }

  /**
   * Each character of the encoding in ASCII, quantum by quantum: the letters, then the digits, then plus and slash,
   * for six bits of the input each; bits behind the end are 0, and characters without any bits are equals signs.
   */
  lemma {:induction false} EncodedCharacters(b: seq<Byte>, q: nat, k: nat)
    requires 3 * q < |b| && k < 4
    ensures 4 * q + k < |Encoded(b)|
    ensures
      var b0, b1, b2 :=
        b[3 * q], if 3 * q + 1 < |b| then b[3 * q + 1] else 0, if 3 * q + 2 < |b| then b[3 * q + 2] else 0;
      var v := if k == 0 then b0 / 4 else if k == 1 then b0 % 4 * 16 + b1 / 16 else if k == 2 then b1 % 16 * 4 + b2 / 64
               else b2 % 64;
      Encoded(b)[4 * q + k] as int ==
      if (k == 2 && 3 * q + 1 >= |b|) || (k == 3 && 3 * q + 2 >= |b|) then '=' as int
      else if v < 26 then 65 + v else if v < 52 then 97 + (v - 26) else if v < 62 then 48 + (v - 52)
      else if v == 62 then '+' as int else '/' as int
    decreases q
  {
    hide Encoded, Letters, Sextets, Group;
    if q == 0 {
      EncodedStart(b, k);
      LettersCodes(k + 1, b[0], if |b| > 1 then b[1] else 0, if |b| > 2 then b[2] else 0, k);
    } else {
      EncodedCharacters(b[3..], q - 1, k);
      EncodedLater(b);
      assert Encoded(b)[4 * q + k] == Encoded(b)[4..][4 * (q - 1) + k];
    }
  }

  lemma {:induction false} BytesLength(v: seq<Sextet>)
    ensures |Bytes(v)| == |v| * 3 / 4
  {
    hide GroupBytes, GroupOf;
    if |v| >= 4 {
      BytesLength(v[4..]);
    }
  }

  lemma BytesStart(v: seq<Sextet>, k: nat)
    requires k < 3 && k + 1 < |v|
    ensures
      && k < |Bytes(v)|
      && var x: int, y: int := v[k], v[k + 1];
         Bytes(v)[k] == if k == 0 then x * 4 + y / 16 else if k == 1 then x % 16 * 16 + y / 4 else x % 4 * 64 + y
  {
    hide GroupBytes, GroupOf;
    DecoderBits(v[0], v[1], if |v| > 2 then v[2] else 0, if |v| > 3 then v[3] else 0);
  }

  lemma BytesLater(v: seq<Sextet>)
    requires |v| >= 4
    ensures |Bytes(v)| == 3 + |Bytes(v[4..])| && Bytes(v)[3..] == Bytes(v[4..])
  {
    hide GroupBytes, GroupOf;
  }

  lemma {:induction false} BytesAt(v: seq<Sextet>, q: nat, k: nat)
    requires k < 3 && 4 * q + k + 1 < |v|
    ensures
      && 3 * q + k < |Bytes(v)|
      && var x: int, y: int := v[4 * q + k], v[4 * q + k + 1];
         Bytes(v)[3 * q + k] ==
         if k == 0 then x * 4 + y / 16 else if k == 1 then x % 16 * 16 + y / 4 else x % 4 * 64 + y
    decreases q
  {
    hide Bytes;
    if q == 0 {
      BytesStart(v, k);
    } else {
      BytesLater(v);
      BytesAt(v[4..], q - 1, k);
      assert Bytes(v)[3 * q + k] == Bytes(v)[3..][3 * (q - 1) + k];
    }
  }

  lemma DecodedLength(s: string)
    ensures |Decoded(s)| == LetterPrefix(s) * 3 / 4
  {
    hide Bytes, ValueOf;
    BytesLength(Values(s[..LetterPrefix(s)]));
  }

  /** Each byte of the decoding, from the positions in the alphabet of the two letters that hold its bits. */
  lemma DecodedBytes(s: string, q: nat, k: nat)
    requires k < 3 && 4 * q + k + 1 < LetterPrefix(s)
    ensures 3 * q + k < |Decoded(s)|
    ensures
      var x: int, y: int := ValueOf(s[4 * q + k]), ValueOf(s[4 * q + k + 1]);
      Decoded(s)[3 * q + k] == if k == 0 then x * 4 + y / 16 else if k == 1 then x % 16 * 16 + y / 4 else x % 4 * 64 + y
  {
    hide Bytes, ValueOf;
    BytesAt(Values(s[..LetterPrefix(s)]), q, k);
  }
}
