/** The receive buffer in front of the work queue: a byte stream cut into reads, cut back into frames. */
module Reassembly {
  import opened Wire

  predicate IsBreak(c: char) {
    c == '\r' || c == '\n'
  }

  /** find_last_of("\r\n"): the last CR or the last LF, whichever comes later; not the last CRLF. */
  function FindLastOf(s: string): (pos: int)
    ensures -1 <= pos < |s| && (pos >= 0 ==> IsBreak(s[pos]))
    ensures forall k :: pos < k < |s| ==> !IsBreak(s[k])
  {
    if s == "" then -1
    else if IsBreak(s[|s| - 1]) then |s| - 1
    else FindLastOf(s[..|s| - 1])
  }

  /** What one call of ReadCb hands to the queue, and what it leaves in the buffer. */
  datatype Result = Result(frames: seq<string>, buffer: string)

  function Read(buffer: string, chunk: string): Result {
    var whole := buffer + chunk;
    if Find(whole, CRLF) >= 0 then Result(Split(whole, CRLF), whole[FindLastOf(whole) + 1..]) else Result([], whole)
  }

  /** All the reads of a connection. */
  function Reads(chunks: seq<string>): Result
    decreases |chunks|
  {
    if chunks == [] then Result([], "")
    else
      var before := Reads(chunks[..|chunks| - 1]);
      var r := Read(before.buffer, chunks[|chunks| - 1]);
      Result(before.frames + r.frames, r.buffer)
  }

  function Stream(chunks: seq<string>): string
    decreases |chunks|
  {
    if chunks == [] then "" else Stream(chunks[..|chunks| - 1]) + chunks[|chunks| - 1]
  }

  /** The read finds a frame, and behind the last frame a CR or LF that belongs to the next. */
  predicate Lossy(buffer: string, chunk: string) {
    var whole := buffer + chunk;
    Find(whole, CRLF) >= 0 && FindLastOf(Rest(whole, CRLF)) >= 0
  }

  predicate Clean(chunks: seq<string>)
    decreases |chunks|
  {
    chunks == [] ||
    (Clean(chunks[..|chunks| - 1]) && !Lossy(Reads(chunks[..|chunks| - 1]).buffer, chunks[|chunks| - 1]))
  }

  class Receiver {
    const SIZE: nat
    const buf: array<char>
    var len: nat

    ghost predicate Valid()
      reads this
    {
      buf.Length == SIZE && len <= SIZE
    }

    ghost function Contents(): string
      requires Valid()
      reads this, buf
    {
      buf[..len]
    }

    constructor (size: nat)
      ensures Valid() && SIZE == size && Contents() == "" && fresh(buf)
    {
      SIZE := size;
      buf := new char[size];
      len := 0;
    }

    /** bufferevent_read: pending is what has arrived on the socket, taken what still fits. */
    method Take(pending: string) returns (taken: nat)
      requires Valid()
      modifies this, buf
      ensures Valid()
      ensures taken == if |pending| <= SIZE - old(len) then |pending| else SIZE - old(len)
      ensures Contents() == old(Contents()) + pending[..taken]
    {
      taken := if |pending| <= SIZE - len then |pending| else SIZE - len;
      forall i | 0 <= i < taken {
        buf[len + i] := pending[i];
      }
      len := len + taken;
    }

    /** memmove of everything behind the first n bytes to the front. */
    method Drop(n: nat)
      requires Valid() && n <= len
      modifies this, buf
      ensures Valid() && Contents() == old(Contents())[n..]
    {
      forall i | 0 <= i < SIZE - n {
        buf[i] := buf[n + i];
      }
      len := len - n;
    }

    method ReadCb(pending: string) returns (taken: nat, frames: seq<string>)
      requires Valid()
      modifies this, buf
      ensures Valid()
      ensures taken == if |pending| <= SIZE - old(len) then |pending| else SIZE - old(len)
      ensures Result(frames, Contents()) == Read(old(Contents()), pending[..taken])
    {
      hide Find, Split, FindLastOf;
      taken := Take(pending);
      frames := [];
      var strRecv := buf[..len];
      if Find(strRecv, CRLF) >= 0 {
        frames := SplitData(strRecv, CRLF);
        Drop(FindLastOf(strRecv) + 1);
      }
    }
  }

  // ----- nothing is lost or duplicated, exactly when no read is lossy -----

  lemma {:induction false} JoinedConcat(a: seq<string>, b: seq<string>)
    ensures Joined(a + b, CRLF) == Joined(a, CRLF) + Joined(b, CRLF)
  {
    if a == [] {
      assert a + b == b;
    } else {
      JoinedConcat(a[1..], b);
      assert (a + b)[1..] == a[1..] + b;
    }
  }

  /** What a read drops is the end of the rest: up to its last CR or LF. */
  lemma ReadDrops(buffer: string, chunk: string)
    ensures
      var r := Read(buffer, chunk); var n := |Joined(r.frames, CRLF)| + |r.buffer|;
      && (Lossy(buffer, chunk) ==> n < |buffer + chunk|)
      && (!Lossy(buffer, chunk) ==> Joined(r.frames, CRLF) + r.buffer == buffer + chunk && n == |buffer + chunk|)
  {
    hide Find, FindLastOf;
    var whole := buffer + chunk;
    if Find(whole, CRLF) >= 0 {
      SplitJoined(whole, CRLF);
      var j, rest := Joined(Split(whole, CRLF), CRLF), Rest(whole, CRLF);
      JoinedEnds(whole);
      assert whole[|j|..] == rest && whole[..|j|] == j;
      assert forall k :: |j| <= k < |whole| ==> whole[k] == rest[k - |j|];
      assert IsBreak(whole[|j| - 1]);
    }
  }

  lemma JoinedEnds(s: string)
    requires Find(s, CRLF) >= 0
    ensures var j := Joined(Split(s, CRLF), CRLF); j != "" && j[|j| - 1] == '\n'
  {
    hide Find, Split;
    SplitIsNotEmpty(s);
    FramesEnd(Split(s, CRLF));
  }

  lemma SplitIsNotEmpty(s: string)
    requires Find(s, CRLF) >= 0
    ensures Split(s, CRLF) != []
  {
  }

  lemma {:induction false} FramesEnd(frames: seq<string>)
    requires frames != []
    ensures var j := Joined(frames, CRLF); j != "" && j[|j| - 1] == '\n'
    decreases |frames|
  {
    if |frames| > 1 {
      FramesEnd(frames[1..]);
    }
  }

  /** The frames delivered and the bytes still buffered are the bytes read, exactly if no read was lossy. */
  lemma {:induction false} Conservation(chunks: seq<string>)
    ensures
      var r := Reads(chunks);
      && |Joined(r.frames, CRLF)| + |r.buffer| <= |Stream(chunks)|
      && (Joined(r.frames, CRLF) + r.buffer == Stream(chunks) <==> Clean(chunks))
      && (!Clean(chunks) ==> |Joined(r.frames, CRLF)| + |r.buffer| < |Stream(chunks)|)
    decreases |chunks|
  {
    hide Read, Lossy;
    if chunks != [] {
      var most, last := chunks[..|chunks| - 1], chunks[|chunks| - 1];
      Conservation(most);
      var before := Reads(most);
      var r := Read(before.buffer, last);
      ReadDrops(before.buffer, last);
      JoinedConcat(before.frames, r.frames);
      var j := Joined(before.frames, CRLF);
      if Clean(chunks) {
        assert (j + Joined(r.frames, CRLF)) + r.buffer == j + (before.buffer + last) == (j + before.buffer) + last;
      }
    }
  }

  // ----- independence of the cutting -----

  lemma FindInPrefix(s: string, t: string)
    requires Find(s, CRLF) >= 0
    ensures Find(s + t, CRLF) == Find(s, CRLF)
    decreases |s|
  {
    hide Find;
    if CRLF <= s {
      FindHere(s, CRLF);
      FindHere(s + t, CRLF);
    } else {
      FindStep(s, CRLF);
      assert (s + t)[1..] == s[1..] + t && (s + t)[0] == s[0] && (s + t)[1] == s[1];
      FindStep(s + t, CRLF);
      FindInPrefix(s[1..], t);
    }
  }

  lemma SliceOfPrefix(s: string, t: string, pos: nat)
    requires pos + 2 <= |s|
    ensures (s + t)[..pos] == s[..pos] && (s + t)[pos + 2..] == s[pos + 2..] + t
  {
  }

  /** Splitting may be resumed from the rest. */
  lemma {:induction false} SplitResumes(s: string, t: string)
    ensures Split(s + t, CRLF) == Split(s, CRLF) + Split(Rest(s, CRLF) + t, CRLF)
    ensures Rest(s + t, CRLF) == Rest(Rest(s, CRLF) + t, CRLF)
    decreases |s|
  {
    hide Find;
    var pos := Find(s, CRLF);
    if pos >= 0 {
      var u := s[pos + 2..];
      FindInPrefix(s, t);
      SplitResumes(u, t);
      SliceOfPrefix(s, t, pos);
      assert Split(s + t, CRLF) == [s[..pos]] + Split(u + t, CRLF);
    }
  }

  lemma {:induction false} RestOfRead(buffer: string, chunk: string)
    requires Find(buffer, CRLF) == -1 && !Lossy(buffer, chunk)
    ensures var whole := buffer + chunk; Read(buffer, chunk) == Result(Split(whole, CRLF), Rest(whole, CRLF))
  {
    hide Find, FindLastOf;
    ReadDrops(buffer, chunk);
    SplitJoined(buffer + chunk, CRLF);
    var j := Joined(Split(buffer + chunk, CRLF), CRLF);
    if Find(buffer + chunk, CRLF) >= 0 {
      assert (j + Read(buffer, chunk).buffer)[|j|..] == (j + Rest(buffer + chunk, CRLF))[|j|..];
    }
  }

  /** When no read is lossy, what is delivered does not depend on how the stream was cut. */
  lemma {:induction false} CuttingDoesNotMatter(chunks: seq<string>)
    requires Clean(chunks)
    ensures Reads(chunks) == Result(Split(Stream(chunks), CRLF), Rest(Stream(chunks), CRLF))
    decreases |chunks|
  {
    hide Read, Lossy, Find, Split, Rest;
    if chunks == [] {
      NothingSplit();
    } else {
      var most, last := chunks[..|chunks| - 1], chunks[|chunks| - 1];
      CuttingDoesNotMatter(most);
      SplitJoined(Stream(most), CRLF);
      SplitResumes(Stream(most), last);
      RestOfRead(Reads(most).buffer, last);
    }
  }

  lemma NothingSplit()
    ensures Split("", CRLF) == [] && Rest("", CRLF) == ""
  {
  }
}
