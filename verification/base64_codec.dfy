/** The codec of base64.cc: loops that fill a group of three or four and append to the result. */
module Base64Codec {
  import opened Octets
  import opened Base64

  lemma WholeGroup(g: seq<Byte>, rest: seq<Byte>)
    requires |g| == 3
    ensures Encoded(g + rest) == Letters(Sextets(Group(g[0], g[1], g[2]))) + Encoded(rest)
  {
    assert (g + rest)[3..] == rest;
  }

  /** The shifts and masks of the encoder, on a full group of three. */
  method SplitGroup(group: array<Byte>, quad: array<Byte>)
    requires group.Length == 3 && quad.Length == 4 && group != quad
    modifies quad
    ensures quad[..] == Sextets(Group(group[0], group[1], group[2]))
  {
    quad[0] := group[0] / 4;
    quad[1] := group[0] % 4 * 16 + group[1] / 16;
    quad[2] := group[1] % 16 * 4 + group[2] / 64;
    quad[3] := group[2] % 64;
    hide Sextets, Group;
    EncoderBits(group[0], group[1], group[2]);
  }

  /** The letters of the first n values. */
  method AppendLetters(s: string, quad: array<Byte>, n: nat, ghost v: seq<Sextet>) returns (ret: string)
    requires n <= quad.Length && n <= |v| && forall k :: 0 <= k < n ==> quad[k] == v[k]
    ensures ret == s + Letters(v[..n])
  {
    ret := s;
    var j := 0;
    while j < n
      invariant j <= n && ret == s + Letters(v[..j])
    {
      ret := ret + [ALPHABET[quad[j]]];
      assert Letters(v[..j + 1]) == Letters(v[..j]) + [Letter(v[j])];
      j := j + 1;
    }
  }

  /** Four letters for a full group of three. */
  method EncodeGroup(s: string, group: array<Byte>, quad: array<Byte>, ghost rest: seq<Byte>) returns (ret: string)
    requires group.Length == 3 && quad.Length == 4 && group != quad
    modifies quad
    ensures ret + Encoded(rest) == s + Encoded(group[..] + rest)
  {
    hide Letter, Letters, Group, Sextets;
    WholeGroup(group[..], rest);
    SplitGroup(group, quad);
    ghost var v := Sextets(Group(group[0], group[1], group[2]));
    ret := AppendLetters(s, quad, 4, v);
    assert v[..4] == v;
  }

  method Base64Encode(bytes: array<Byte>, length: nat) returns (ret: string)
    requires length <= bytes.Length
    ensures ret == Encoded(bytes[..length])
  {
    hide Letter, Letters, Group, Sextets, Encoded;
    ret := "";
    var i, inLen, next := 0, length, 0;
    var group := new Byte[3](_ => 0);
    var quad := new Byte[4](_ => 0);
    ghost var all := bytes[..length];
    assert all[0..] == all;
    while inLen > 0
      invariant next + inLen == length && 0 <= i < 3 && i <= next
      invariant group[..i] == all[next - i..next]
      invariant Encoded(all) == ret + Encoded(all[next - i..])
    {
      inLen := inLen - 1;
      group[i] := bytes[next];
      assert group[..i + 1] == all[next - i..next + 1];
      next := next + 1;
      i := i + 1;
      if i == 3 {
        GroupThenRest(all, next - 3);
        assert group[..] == group[..3];
        ret := EncodeGroup(ret, group, quad, all[next..]);
        i := 0;
      }
    }
    assert all[next - i..] == all[next - i..next];
    if i > 0 {
      ret := EncodeRest(ret, group, i, quad);
    } else {
      NoLetters();
    }
  }

  lemma GroupThenRest(all: seq<Byte>, from: nat)
    requires from + 3 <= |all|
    ensures all[from..] == all[from..from + 3] + all[from + 3..]
  {
  }

  lemma NoLetters()
    ensures Encoded([]) == ""
  {
  }

  /** The bytes left over: zero fill, i + 1 letters, and = up to four characters. */
  method EncodeRest(s: string, group: array<Byte>, left: nat, quad: array<Byte>) returns (ret: string)
    requires group.Length == 3 && quad.Length == 4 && group != quad && 0 < left < 3
    modifies group, quad
    ensures ret == s + Encoded(old(group[..left]))
  {
    hide Letter, Letters, Group, Sextets;
    var i := left;
    var j := i;
    while j < 3
      invariant i <= j <= 3 && group[..i] == old(group[..left])
      invariant forall k :: i <= k < j ==> group[k] == 0
    {
      group[j] := 0;
      j := j + 1;
    }
    SplitGroup(group, quad);
    ghost var v := Sextets(Group(group[0], group[1], group[2]));
    ret := AppendLetters(s, quad, i + 1, v);
    ghost var lettered := ret;
    assert group[0] == old(group[..left])[0] && (i == 2 ==> group[1] == old(group[..left])[1]);
    while i < 3
      invariant left <= i <= 3
      invariant ret == lettered + if i == left then "" else if i == left + 1 then "=" else "=="
    {
      ret := ret + "=";
      i := i + 1;
    }
  }

  /** The shifts and masks of the decoder, where a value may be the 255 of a failed find. */
  function Joined(q0: int, q1: int, q2: int, q3: int): (b: seq<Byte>)
    ensures |b| == 3
  {
    [(q0 * 4 + q1 / 16 % 4) % 256, (q1 % 16 * 16 + q2 / 4 % 16) % 256, (q2 % 4 * 64 + q3) % 256]
  }

  /** Unused lanes do not reach the bytes that are kept: k + 1 values decide the first k bytes. */
  lemma LanesDecideBytes(v0: Sextet, v1: Sextet, v2: Sextet, v3: Sextet, x2: Byte, x3: Byte)
    ensures Joined(v0, v1, v2, v3) == GroupBytes(GroupOf(v0, v1, v2, v3))
    ensures Joined(v0, v1, x2, x3)[0] == GroupBytes(GroupOf(v0, v1, 0, 0))[0]
    ensures Joined(v0, v1, v2, x3)[0] == GroupBytes(GroupOf(v0, v1, v2, 0))[0]
    ensures Joined(v0, v1, v2, x3)[1] == GroupBytes(GroupOf(v0, v1, v2, 0))[1]
  {
    hide GroupBytes, GroupOf;
    DecoderBits(v0, v1, v2, v3);
    DecoderBits(v0, v1, v2, 0);
    DecoderBits(v0, v1, 0, 0);
  }

  predicate Lettered(s: string) {
    forall k :: 0 <= k < |s| ==> IsLetter(s[k])
  }

  function BytesOf(s: string): seq<Byte>
    requires Lettered(s)
  {
    Bytes(Values(s))
  }

  lemma DecodesGroup(s: string, t: string)
    requires Lettered(s) && Lettered(t) && |s| == 4
    ensures Lettered(s + t) && BytesOf(s + t) == BytesOf(s) + BytesOf(t)
  {
    hide GroupBytes, GroupOf, ValueOf, IsLetter;
    var v, w := Values(s), Values(t);
    assert Values(s + t) == v + w;
    BytesSplit(v, w);
  }

  lemma BytesSplit(v: seq<Sextet>, w: seq<Sextet>)
    requires |v| == 4
    ensures Bytes(v + w) == Bytes(v) + Bytes(w)
  {
    hide GroupBytes, GroupOf;
    assert (v + w)[4..] == w && v[4..] == [] && Bytes(v[4..]) == [];
    assert Bytes(v) == GroupBytes(GroupOf(v[0], v[1], v[2], v[3]));
  }

  /** What is decoded is the longest prefix of letters, and nothing from a prefix of no letters. */
  lemma DecodedPrefix(s: string)
    ensures Lettered(s[..LetterPrefix(s)]) && Decoded(s) == BytesOf(s[..LetterPrefix(s)])
    ensures BytesOf("") == [] && !IsLetter('=') && !IsLetter('\0')
  {
  }

  /** A full group of four is appended, and what comes after it remains. */
  lemma AppendGroup(s: string, from: nat, n: nat)
    requires from + 4 <= n <= |s| && Lettered(s[..n])
    ensures Lettered(s[from..n]) && Lettered(s[from..from + 4]) && Lettered(s[from + 4..n])
    ensures BytesOf(s[from..n]) == BytesOf(s[from..from + 4]) + BytesOf(s[from + 4..n])
  {
    hide BytesOf, IsLetter;
    assert forall k :: from <= k < n ==> s[k] == s[..n][k];
    DecodesGroup(s[from..from + 4], s[from + 4..n]);
    assert s[from..n] == s[from..from + 4] + s[from + 4..n];
  }

  method Base64Decode(s: string) returns (ret: seq<Byte>)
    ensures ret == Decoded(s)
  {
    hide IsLetter, Lettered, BytesOf, Decoded, LetterPrefix;
    ret := [];
    var inLen, i, next := |s|, 0, 0;
    var quad := new char[4](_ => '\0');
    ghost var n := LetterPrefix(s);
    DecodedPrefix(s);
    assert s[0..n] == s[..n];
    while inLen > 0 && s[next] != '=' && IsLetter(s[next])
      invariant next + inLen == |s| && 0 <= i < 4 && i <= next <= n
      invariant quad[..i] == s[next - i..next] && Lettered(s[next - i..n])
      invariant Decoded(s) == ret + BytesOf(s[next - i..n])
    {
      inLen := inLen - 1;
      quad[i] := s[next];
      assert quad[..i + 1] == s[next - i..next + 1];
      next := next + 1;
      i := i + 1;
      if i == 4 {
        AppendGroup(s, next - 4, n);
        var bytes := FindAndJoin(quad, 4);
        ret := ret + bytes;
        i := 0;
      }
    }
    assert next == n;
    if i > 0 {
      var bytes := FindAndJoin(quad, i);
      ret := ret + bytes;
    } else {
      assert s[n..n] == "";
    }
  }

  /** Looks the first n characters up, fills the other lanes with the find of character 0, and joins them. */
  method FindAndJoin(quad: array<char>, n: nat) returns (bytes: seq<Byte>)
    requires quad.Length == 4 && 0 < n <= 4 && Lettered(quad[..n])
    modifies quad
    ensures bytes == BytesOf(old(quad[..n]))
  {
    hide GroupOf, GroupBytes, ValueOf, IsLetter, Joined;
    ghost var t := quad[..n];
    ghost var v := Values(t);
    var j := n;
    while j < 4
      invariant n <= j <= 4 && quad[..n] == t
      invariant forall k :: n <= k < j ==> quad[k] == '\0'
    {
      quad[j] := '\0';
      j := j + 1;
    }
    NulIsNoLetter();
    ghost var filled := quad[..];
    assert filled[..n] == t;
    var values := new Byte[4](_ => 0);
    j := 0;
    while j < 4
      invariant j <= 4 && quad[..] == filled
      invariant forall k :: 0 <= k < j ==> values[k] == if k < n then v[k] else 255
    {
      assert quad[j] == filled[j] && (j < n ==> filled[j] == t[j]);
      values[j] := Find(quad[j]);
      j := j + 1;
    }
    var group := Joined(values[0], values[1], values[2], values[3]);
    bytes := group[..n - 1];
    KeptBytes(v, values[2], values[3]);
  }

  /** The bytes kept from n values, whatever the unused lanes hold. */
  lemma KeptBytes(v: seq<Sextet>, x2: Byte, x3: Byte)
    requires 0 < |v| <= 4
    ensures
      var v1: Byte := if |v| > 1 then v[1] else 255;
      var v2: Byte := if |v| > 2 then v[2] else x2;
      var v3: Byte := if |v| > 3 then v[3] else x3;
      Joined(v[0], v1, v2, v3)[..|v| - 1] == Bytes(v)
  {
    hide GroupOf, GroupBytes, Joined;
    if |v| >= 2 {
      LanesDecideBytes(v[0], v[1], if |v| < 3 then 0 else v[2], if |v| < 4 then 0 else v[3], x2, x3);
    }
    if |v| == 4 {
      assert v[4..] == [] && Bytes(v[4..]) == [];
    }
  }

  lemma NulIsNoLetter()
    ensures !IsLetter('\0')
  {
  }
}
