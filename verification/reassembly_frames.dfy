/** Which cuttings of a stream of frames are safe, and how large the buffer must be. */
module ReassemblyFrames {
  import opened Wire
  import opened Reassembly

  /** s is the beginning of a stream of frames without single CRs and LFs. */
  predicate Framed(s: string) {
    s == "" || s == "\r" || (CRLF <= s && Framed(s[2..])) || (!IsBreak(s[0]) && Framed(s[1..]))
  }

  predicate Plain(f: string) {
    forall k :: 0 <= k < |f| ==> !IsBreak(f[k])
  }

  lemma {:induction false} PlainThenFramed(f: string, t: string)
    requires Plain(f) && Framed(t)
    ensures Framed(f + t)
    decreases |f|
  {
    if f == "" {
      assert f + t == t;
    } else {
      assert (f + t)[1..] == f[1..] + t && (f + t)[0] == f[0];
      PlainThenFramed(f[1..], t);
    }
  }

  lemma {:induction false} JoinedIsFramed(frames: seq<string>)
    requires forall k :: 0 <= k < |frames| ==> Plain(frames[k])
    ensures Framed(Joined(frames, CRLF))
  {
    if frames != [] {
      var t := Joined(frames[1..], CRLF);
      JoinedIsFramed(frames[1..]);
      assert (CRLF + t)[2..] == t;
      PlainThenFramed(frames[0], CRLF + t);
      assert frames[0] + (CRLF + t) == Joined(frames, CRLF);
    }
  }

  lemma {:induction false} FramedPrefix(s: string, t: string)
    requires Framed(s + t)
    ensures Framed(s)
    decreases |s|
  {
    if |s| > 1 {
      assert (s + t)[0] == s[0] && (s + t)[1] == s[1];
      if CRLF <= s {
        assert (s + t)[2..] == s[2..] + t;
        FramedPrefix(s[2..], t);
      } else {
        assert (s + t)[1..] == s[1..] + t;
        FramedPrefix(s[1..], t);
      }
    } else if |s| == 1 {
      assert (s + t)[0] == s[0];
      assert s[1..] == "" && s == [s[0]];
    }
  }

  lemma {:induction false} FramedTail(s: string)
    requires Framed(s) && Find(s, CRLF) >= 0
    ensures Framed(s[Find(s, CRLF) + 2..])
    decreases |s|
  {
    hide Find;
    if CRLF <= s {
      FindHere(s, CRLF);
    } else {
      var t := s[1..];
      FindStep(s, CRLF);
      FramedTail(t);
      assert t[Find(t, CRLF) + 2..] == s[Find(s, CRLF) + 2..];
    }
  }

  lemma {:induction false} FramedResumes(s: string, t: string)
    requires Framed(s + t)
    ensures Framed(Rest(s, CRLF) + t)
    decreases |s|
  {
    hide Find, Framed;
    var pos := Find(s, CRLF);
    if pos >= 0 {
      FindInPrefix(s, t);
      FramedTail(s + t);
      assert (s + t)[pos + 2..] == s[pos + 2..] + t;
      FramedResumes(s[pos + 2..], t);
    }
  }

  predicate EndsInCr(s: string) {
    s != "" && s[|s| - 1] == '\r'
  }

  /** The only CR or LF outside a CRLF is a CR whose LF is still to come. */
  lemma {:induction false} LoneBreak(s: string)
    requires Framed(s) && Find(s, CRLF) == -1
    ensures FindLastOf(s) >= 0 <==> EndsInCr(s)
    decreases |s|
  {
    if |s| > 1 {
      LoneBreak(s[1..]);
      var k := FindLastOf(s);
      if k >= 1 {
        assert s[1..][k - 1] == s[k];
      }
      if FindLastOf(s[1..]) >= 0 {
        assert s[FindLastOf(s[1..]) + 1] == s[1..][FindLastOf(s[1..])];
      }
    }
  }

  /** The read delivers a frame and ends between the CR and the LF of another. */
  predicate Dangling(buffer: string, chunk: string) {
    Find(buffer + chunk, CRLF) >= 0 && EndsInCr(buffer + chunk)
  }

  lemma RestEnds(s: string)
    requires Find(s, CRLF) >= 0
    ensures EndsInCr(Rest(s, CRLF)) <==> EndsInCr(s)
  {
    hide Find, Rest, Split, Joined;
    var j, r := Joined(Split(s, CRLF), CRLF), Rest(s, CRLF);
    SplitJoined(s, CRLF);
    JoinedEnds(s);
    if r == "" {
      assert s == j;
    } else {
      assert s[|s| - 1] == r[|r| - 1];
    }
  }

  lemma LossyIsDangling(buffer: string, chunk: string)
    requires Framed(buffer + chunk)
    ensures Lossy(buffer, chunk) <==> Dangling(buffer, chunk)
  {
    hide Find, FindLastOf, Framed, EndsInCr, Rest;
    var whole := buffer + chunk;
    if Find(whole, CRLF) >= 0 {
      assert whole + "" == whole && Rest(whole, CRLF) + "" == Rest(whole, CRLF);
      FramedResumes(whole, "");
      SplitJoined(whole, CRLF);
      LoneBreak(Rest(whole, CRLF));
      RestEnds(whole);
    }
  }

  predicate NeverDangling(chunks: seq<string>)
    decreases |chunks|
  {
    chunks == [] ||
    (NeverDangling(chunks[..|chunks| - 1]) && !Dangling(Reads(chunks[..|chunks| - 1]).buffer, chunks[|chunks| - 1]))
  }

  /** A stream of frames is received whole exactly if no read that delivers ends between a CR and its LF. */
  lemma {:induction false} SafeCuttings(chunks: seq<string>)
    requires Framed(Stream(chunks))
    ensures Clean(chunks) <==> NeverDangling(chunks)
    decreases |chunks|
  {
    hide Framed, Lossy, Dangling, Read;
    if chunks != [] {
      var most, last := chunks[..|chunks| - 1], chunks[|chunks| - 1];
      FramedPrefix(Stream(most), last);
      SafeCuttings(most);
      if Clean(most) {
        CuttingDoesNotMatter(most);
        FramedResumes(Stream(most), last);
        LossyIsDangling(Reads(most).buffer, last);
      }
    }
  }

  /** From sender to receiver: with clean reads, the messages come out as they went in unless one contains the token. */
  lemma AllDelivered(chunks: seq<string>, messages: seq<string>)
    requires Clean(chunks) && Stream(chunks) == Sent(messages)
    ensures Reads(chunks) == Result(EscapeAll(messages), "")
    ensures UnescapeAll(Reads(chunks).frames) == messages <==>
      forall k :: 0 <= k < |messages| ==> !Occurs(messages[k], TOKEN)
  {
    CuttingDoesNotMatter(chunks);
    EscapeAllFree(messages);
    SplitOfJoined(EscapeAll(messages));
    EscapeAllRoundTrip(messages);
  }

  lemma {:induction false} RestFits(s: string, frames: seq<string>, size: nat)
    requires s <= Joined(frames, CRLF) && size > 0
    requires forall k :: 0 <= k < |frames| ==> !Occurs(frames[k], CRLF) && |frames[k]| + 2 <= size
    ensures |Rest(s, CRLF)| < size
    decreases |frames|
  {
    if frames != [] {
      var f, t := frames[0], Joined(frames[1..], CRLF);
      if |s| < |f| + 2 {
        RestIsShorter(s);
      } else {
        var u := s[|f| + 2..];
        assert s == f + CRLF + u && u <= t;
        FindDelimiter(f, u);
        RestFits(u, frames[1..], size);
      }
    }
  }

  lemma RestIsShorter(s: string)
    ensures |Rest(s, CRLF)| <= |s|
    decreases |s|
  {
  }

  /** If each frame and its delimiter fit, the buffer is never full, so the next read can take something. */
  lemma NeverFull(chunks: seq<string>, frames: seq<string>, size: nat)
    requires Clean(chunks) && Stream(chunks) <= Joined(frames, CRLF) && size > 0
    requires forall k :: 0 <= k < |frames| ==> !Occurs(frames[k], CRLF) && |frames[k]| + 2 <= size
    ensures |Reads(chunks).buffer| < size
  {
    CuttingDoesNotMatter(chunks);
    RestFits(Stream(chunks), frames, size);
  }

  // ----- a frame that does not fit -----

  /** Each read takes no more than what still fits into a buffer of the given size. */
  predicate Fits(chunks: seq<string>, size: nat)
    decreases |chunks|
  {
    chunks == [] ||
    (Fits(chunks[..|chunks| - 1], size)
     && |Reads(chunks[..|chunks| - 1]).buffer| + |chunks[|chunks| - 1]| <= size)
  }

  lemma NotComplete(f: string, n: nat)
    requires !Occurs(f, CRLF) && n < |f| + 2
    ensures Find((f + CRLF)[..n], CRLF) == -1
  {
    hide Find;
    var s := (f + CRLF)[..n];
    if Find(s, CRLF) >= 0 {
      FindInPrefix(s, (f + CRLF)[n..]);
      assert s + (f + CRLF)[n..] == f + CRLF == f + CRLF + "";
      FindDelimiter(f, "");
    }
  }

  /** Up to the end of an incomplete frame f, only the frames before it are split off, and f is in the rest. */
  lemma {:induction false} SplitBefore(s: string, frames: seq<string>, f: string)
    requires s <= Joined(frames, CRLF) + f + CRLF && |s| < |Joined(frames, CRLF)| + |f| + 2
    requires !Occurs(f, CRLF) && forall k :: 0 <= k < |frames| ==> !Occurs(frames[k], CRLF)
    ensures Split(s, CRLF) <= frames
    ensures |s| >= |Joined(frames, CRLF)| ==> Split(s, CRLF) == frames && Rest(s, CRLF) == s[|Joined(frames, CRLF)|..]
    decreases |frames|
  {
    hide Find, Split, Rest, Joined;
    SplitStep(s, CRLF);
    if frames == [] {
      NothingJoined(CRLF);
      assert s == (f + CRLF)[..|s|];
      NotComplete(f, |s|);
    } else {
      var g, rest := frames[0], frames[1..];
      var j := Joined(rest, CRLF);
      assert frames == [g] + rest;
      JoinedStep(g, rest, CRLF);
      SplitBeforeStep(s, g, j, f);
      if |s| >= |g| + 2 {
        var t := s[|g| + 2..];
        FindDelimiter(g, t);
        SplitBefore(t, rest, f);
        assert s[..|g|] == g;
        assert |t| >= |j| ==> t[|j|..] == s[|g + CRLF + j|..];
      } else {
        NotComplete(g, |s|);
      }
    }
  }

  lemma SplitBeforeStep(s: string, g: string, j: string, f: string)
    requires s <= g + CRLF + j + f + CRLF
    ensures |s| < |g| + 2 ==> s == (g + CRLF)[..|s|]
    ensures |s| >= |g| + 2 ==> s == g + CRLF + s[|g| + 2..] && s[|g| + 2..] <= j + f + CRLF
  {
    var whole := g + CRLF + j + f + CRLF;
    assert s == whole[..|s|];
    assert whole == (g + CRLF) + (j + f + CRLF);
  }

  /** The reads of a stream whose next frame f does not fit stop for good when f has filled the buffer. */
  lemma {:induction false} Wedged(chunks: seq<string>, frames: seq<string>, f: string, rest: string, size: nat)
    requires Fits(chunks, size) && Clean(chunks) && Stream(chunks) <= Joined(frames, CRLF) + f + CRLF + rest
    requires !Occurs(f, CRLF) && size < |f| + 2
    requires forall k :: 0 <= k < |frames| ==> !Occurs(frames[k], CRLF)
    ensures Reads(chunks).frames <= frames
    ensures |Stream(chunks)| <= |Joined(frames, CRLF)| + size
    ensures |Stream(chunks)| >= |Joined(frames, CRLF)| ==>
      Reads(chunks) == Result(frames, Stream(chunks)[|Joined(frames, CRLF)|..])
    decreases |chunks|
  {
    hide Find, Split, Rest, Joined, Read, Lossy;
    var s := Stream(chunks);
    var j := Joined(frames, CRLF);
    if chunks != [] {
      var most := chunks[..|chunks| - 1];
      Wedged(most, frames, f, rest, size);
      CuttingDoesNotMatter(most);
      SplitJoined(Stream(most), CRLF);
      assert |Reads(most).buffer| <= |Stream(most)|;
      assert |s| <= |j| + size;
    }
    assert s <= j + f + CRLF by { PrefixCut(s, j + f + CRLF, rest); }
    CuttingDoesNotMatter(chunks);
    SplitBefore(s, frames, f);
  }

  lemma PrefixCut(s: string, a: string, b: string)
    requires s <= a + b && |s| <= |a|
    ensures s <= a
  {
    assert s == (a + b)[..|s|] == a[..|s|];
  }

  /** As the first frame of a stream it is never delivered, however it is cut, and whatever breaks it contains. */
  lemma {:induction false} WedgedFromTheStart(chunks: seq<string>, f: string, rest: string, size: nat)
    requires Fits(chunks, size) && Stream(chunks) <= f + CRLF + rest
    requires !Occurs(f, CRLF) && size < |f| + 2
    ensures Reads(chunks) == Result([], Stream(chunks)) && |Stream(chunks)| <= size && Clean(chunks)
    decreases |chunks|
  {
    hide Find, Split, Rest, FindLastOf;
    if chunks != [] {
      var most, last := chunks[..|chunks| - 1], chunks[|chunks| - 1];
      WedgedFromTheStart(most, f, rest, size);
      PrefixCut(Stream(chunks), f + CRLF, rest);
      assert Stream(chunks) == (f + CRLF)[..|Stream(chunks)|];
      NotComplete(f, |Stream(chunks)|);
    }
  }

  lemma {:induction false} NoFindWithoutCrlf(f: string, tail: string)
    requires Plain(f) && (tail == "" || tail == "\r")
    ensures Find(f + tail, CRLF) == -1
    decreases |f|
  {
    if f != "" {
      assert (f + tail)[1..] == f[1..] + tail && (f + tail)[0] == f[0];
      NoFindWithoutCrlf(f[1..], tail);
    }
  }

  lemma OneFrame(f: string, t: string)
    requires Find(f, CRLF) == -1 && Find(t, CRLF) == -1
    ensures Split(f + CRLF + t, CRLF) == [f]
  {
    hide Find;
    var s := f + CRLF + t;
    FindDelimiter(f, t);
    assert s[..|f|] == f && s[|f| + 2..] == t;
    assert Split(t, CRLF) == [];
  }

  lemma LastBreak(s: string)
    requires s != "" && IsBreak(s[|s| - 1])
    ensures s[FindLastOf(s) + 1..] == ""
  {
  }

  /** A read that ends between the CR and the LF behind g loses g, and puts the LF into the next frame. */
  lemma DanglingCrLoses(f: string, g: string, h: string)
    requires Plain(f) && Plain(g) && Plain(h)
    ensures Stream([f + CRLF + (g + "\r"), ("\n" + h) + CRLF]) == Joined([f, g, h], CRLF)
    ensures Reads([f + CRLF + (g + "\r"), ("\n" + h) + CRLF]) == Result([f, "\n" + h], "")
  {
    hide Read, Stream, Reads, Joined;
    StreamOfTwo(f + CRLF + (g + "\r"), ("\n" + h) + CRLF);
    JoinedThree(f, g, h);
    NoFindWithoutCrlf(f, "");
    NoFindWithoutCrlf(g, "\r");
    NoFindWithoutCrlf(h, "");
    NoFindWithoutCrlf("", "");
    FindBehind('\n', h);
    assert f + "" == f && h + "" == h && "" + "" == "";
    assert ("\n" + h) + CRLF + "" == ("\n" + h) + CRLF;
    ReadsOneFrame(f, g + "\r");
    ReadsOneFrame("\n" + h, "");
  }

  lemma ReadsOneFrame(f: string, t: string)
    requires Find(f, CRLF) == -1 && Find(t, CRLF) == -1 && (t == "" || IsBreak(t[|t| - 1]))
    ensures Read("", f + CRLF + t) == Result([f], "")
  {
    hide Find, Split, FindLastOf;
    var s := f + CRLF + t;
    assert "" + s == s;
    FindDelimiter(f, t);
    OneFrame(f, t);
    assert IsBreak(s[|s| - 1]) by {
      if t != "" {
        assert s[|s| - 1] == t[|t| - 1];
      }
    }
    LastBreak(s);
  }

  lemma JoinedThree(f: string, g: string, h: string)
    ensures Joined([f, g, h], CRLF) == (f + CRLF + (g + "\r")) + (("\n" + h) + CRLF)
  {
    assert [f, g, h][1..] == [g, h] && [g, h][1..] == [h] && [h][1..] == [];
    assert Joined([h], CRLF) == h + CRLF;
    assert Joined([g, h], CRLF) == g + CRLF + (h + CRLF);
    assert Joined([f, g, h], CRLF) == f + CRLF + (g + CRLF + (h + CRLF));
  }

  lemma StreamOfTwo(x: string, y: string)
    ensures Stream([x, y]) == x + y
    ensures
      var r := Read("", x); var r' := Read(r.buffer, y);
      Reads([x, y]) == Result(r.frames + r'.frames, r'.buffer)
  {
    hide Read;
    var r := Read("", x);
    assert [x, y][..1] == [x] && [x][..0] == [] && [x, y][1] == y;
    assert "" + x == x && [] + r.frames == r.frames;
    assert Stream([x]) == x;
    assert Reads([x]) == Result([] + r.frames, r.buffer);
  }
}
