/** The text protocol on the sockets: line breaks escaped inside a message, CRLF after it. */
module Wire {
  const CRLF: string := "\r\n"

  /** What a CRLF inside a message becomes: backslash, r, backslash, n. */
  const TOKEN: string := "\\r\\n"

  /** std::string::find; -1 is npos. */
  function Find(s: string, p: string): (pos: int)
    requires p != ""
    ensures -1 <= pos && (pos >= 0 ==> pos + |p| <= |s|)
    ensures pos >= 0 ==> p <= s[pos..]
  {
    if p <= s then 0
    else if s == "" then -1
    else
      var pos := Find(s[1..], p);
      if pos < 0 then -1 else pos + 1
  }

  predicate Occurs(s: string, p: string)
    requires p != ""
  {
    Find(s, p) >= 0
  }

  lemma FindStep(s: string, p: string)
    requires p != "" && s != "" && !(p <= s)
    ensures Find(s, p) == if Find(s[1..], p) < 0 then -1 else Find(s[1..], p) + 1
  {
  }

  lemma FindHere(s: string, p: string)
    requires p != "" && p <= s
    ensures Find(s, p) == 0
  {
  }

  /** Find returns the leftmost occurrence, and -1 only when there is none. */
  lemma {:induction false} FindIsFirst(s: string, p: string, k: nat)
    requires p != "" && k <= |s| && p <= s[k..]
    ensures 0 <= Find(s, p) <= k
    decreases |s|
  {
    if !(p <= s) {
      assert s[1..][k - 1..] == s[k..];
      FindIsFirst(s[1..], p, k - 1);
    }
  }

  /** boost::regex_replace with patterns that match only themselves: from the left, without overlaps. */
  function Replace(s: string, p: string, q: string): string
    requires p != ""
  {
    if p <= s then q + Replace(s[|p|..], p, q)
    else if s == "" then ""
    else [s[0]] + Replace(s[1..], p, q)
  }

  function Escape(m: string): string {
    Replace(m, CRLF, TOKEN)
  }

  function Unescape(m: string): string {
    Replace(m, TOKEN, CRLF)
  }

  /** The first character of an escaped text is its own, unless the text starts with a line break. */
  lemma EscapeHead(m: string)
    ensures Escape(m) == "" <==> m == ""
    ensures m != "" ==> Escape(m)[0] == if CRLF <= m then '\\' else m[0]
  {
  }

  /** A message on the wire cannot contain the delimiter. */
  lemma {:induction false} EscapedHasNoCrlf(m: string)
    ensures Find(Escape(m), CRLF) == -1
    decreases |m|
  {
    if CRLF <= m {
      EscapedHasNoCrlf(m[2..]);
      AfterToken(Escape(m[2..]));
      assert Escape(m) == TOKEN + Escape(m[2..]);
    } else if m != "" {
      var t := m[1..];
      EscapedHasNoCrlf(t);
      EscapeHead(t);
      assert m == [m[0]] + t && Escape(m) == [m[0]] + Escape(t) && Escape(m)[1..] == Escape(t);
    }
  }

  lemma FindBehind(c: char, x: string)
    requires c != '\r' && Find(x, CRLF) == -1
    ensures Find([c] + x, CRLF) == -1
  {
    var s := [c] + x;
    assert s[0] == c && s[1..] == x && CRLF[0] == '\r' && !(CRLF <= s);
  }

  lemma AfterToken(x: string)
    requires Find(x, CRLF) == -1
    ensures Find(TOKEN + x, CRLF) == -1
  {
    FindBehind('n', x);
    FindBehind('\\', "n" + x);
    FindBehind('r', "\\" + ("n" + x));
    FindBehind('\\', "r" + ("\\" + ("n" + x)));
    assert TOKEN + x == "\\" + ("r" + ("\\" + ("n" + x)));
  }

  /** Escaping brings no token to the front of a text that starts with neither. */
  lemma NoTokenAtFront(m: string)
    requires !(CRLF <= m) && !(TOKEN <= m)
    ensures !(TOKEN <= Escape(m))
  {
    EscapeHead(m);
    if m != "" && m[0] == '\\' {
      assert Escape(m)[1..] == Escape(m[1..]);
      EscapeHead(m[1..]);
      if 1 < |m| && m[1] == 'r' {
        assert m[1..][1..] == m[2..] && Escape(m)[2..] == Escape(m[1..])[1..] == Escape(m[2..]);
        EscapeHead(m[2..]);
        LastOfToken(m);
      }
    }
  }

  lemma LastOfToken(m: string)
    requires 2 <= |m| && m[0] == '\\' && m[1] == 'r' && !(TOKEN <= m)
    requires |Escape(m)| >= 2 && Escape(m)[2..] == Escape(m[2..])
    ensures !(TOKEN <= Escape(m))
  {
    var t, e := m[2..], Escape(m);
    EscapeHead(t);
    if CRLF <= t {
      assert Escape(t)[1] == 'r' && e[3] == e[2..][1];
    } else if t != "" {
      assert Escape(t)[1..] == Escape(t[1..]);
      EscapeHead(t[1..]);
      assert |e| >= 4 ==> e[3] == e[2..][1] == Escape(t[1..])[0] && e[2] == e[2..][0];
    }
  }

  lemma EscapeBehind(c: char, x: string)
    requires c != '\r'
    ensures Escape([c] + x) == [c] + Escape(x)
  {
    var s := [c] + x;
    assert s[0] == c && s[1..] == x && CRLF[0] == '\r' && !(CRLF <= s);
  }

  lemma EscapeKeepsToken(m: string)
    requires TOKEN <= m
    ensures Escape(m) == TOKEN + Escape(m[4..])
  {
    var x := m[4..];
    EscapeBehind('n', x);
    EscapeBehind('\\', "n" + x);
    EscapeBehind('r', "\\" + ("n" + x));
    EscapeBehind('\\', "r" + ("\\" + ("n" + x)));
    assert m == "\\" + ("r" + ("\\" + ("n" + x)));
    assert TOKEN + Escape(x) == "\\" + ("r" + ("\\" + ("n" + Escape(x))));
  }

  /** A message survives the wire exactly if it does not contain the token itself; otherwise it comes out shorter. */
  lemma {:induction false} UnescapeEscape(m: string)
    ensures Unescape(Escape(m)) == m <==> !Occurs(m, TOKEN)
    ensures |Unescape(Escape(m))| <= |m|
    ensures Occurs(m, TOKEN) ==> |Unescape(Escape(m))| < |m|
    decreases |m|
  {
    if CRLF <= m {
      UnescapeEscape(m[2..]);
      assert Escape(m)[4..] == Escape(m[2..]) && TOKEN <= Escape(m);
      assert Unescape(Escape(m)) == CRLF + Unescape(Escape(m[2..]));
      assert m == CRLF + m[2..] && m[1..][1..] == m[2..];
    } else if TOKEN <= m {
      UnescapeEscape(m[4..]);
      EscapeKeepsToken(m);
      assert Escape(m)[4..] == Escape(m[4..]);
      assert Unescape(Escape(m)) == CRLF + Unescape(Escape(m[4..]));
    } else if m != "" {
      UnescapeEscape(m[1..]);
      NoTokenAtFront(m);
      assert Escape(m)[1..] == Escape(m[1..]) && Escape(m)[0] == m[0];
      assert Unescape(Escape(m)) == [m[0]] + Unescape(Escape(m[1..]));
      assert m == [m[0]] + m[1..];
    }
  }

  // ----- the bytes themselves -----

  /** No carriage return is followed by a line feed. */
  predicate NoLineBreak(x: string) {
    forall k :: 0 <= k < |x| - 1 ==> !(x[k] as int == 13 && x[k + 1] as int == 10)
  }

  /** Nowhere a backslash, an r, a backslash and an n. */
  predicate NoToken(x: string) {
    forall k :: 0 <= k < |x| - 3 ==>
      !(x[k] as int == 92 && x[k + 1] as int == 114 && x[k + 2] as int == 92 && x[k + 3] as int == 110)
  }

  /** The two texts, character by character. */
  lemma Codes()
    ensures CRLF == [13 as char, 10 as char] && TOKEN == [92 as char, 114 as char, 92 as char, 110 as char]
  {
  }

  lemma ReplaceBehind(c: char, t: string, p: string, q: string)
    requires p != "" && !(p <= [c] + t)
    ensures Replace([c] + t, p, q) == [c] + Replace(t, p, q)
  {
    assert ([c] + t)[1..] == t;
  }

  lemma ReplaceHere(p: string, y: string, q: string)
    requires p != ""
    ensures Replace(p + y, p, q) == q + Replace(y, p, q)
  {
    assert (p + y)[|p|..] == y;
  }

  lemma ReplaceNothing(p: string, q: string)
    requires p != ""
    ensures Replace("", p, q) == ""
  {
  }

  /** Replacing leaves a text alone in which p does not start anywhere, also when p comes behind it. */
  lemma {:induction false} ReplaceFirst(x: string, y: string, p: string, q: string)
    requires p != ""
    requires forall k :: 0 <= k < |x| ==> !(p <= x[k..] + (p + y)) && !(p <= x[k..])
    ensures Replace(x + (p + y), p, q) == x + (q + Replace(y, p, q)) && Replace(x, p, q) == x
    decreases |x|
  {
    hide Replace;
    if x == "" {
      ReplaceHere(p, y, q);
      ReplaceNothing(p, q);
      assert x + (p + y) == p + y;
    } else {
      var t := x[1..];
      assert forall k :: 0 <= k < |t| ==> t[k..] == x[k + 1..];
      ReplaceFirst(t, y, p, q);
      assert x == [x[0]] + t && x[0..] == x;
      assert x + (p + y) == [x[0]] + (t + (p + y));
      ReplaceBehind(x[0], t + (p + y), p, q);
      ReplaceBehind(x[0], t, p, q);
    }
  }

  /** The first line break of a text goes out as backslash, r, backslash, n; what precedes it stays as it is. */
  lemma EscapeLineBreak(x: string, y: string)
    requires NoLineBreak(x)
    ensures Escape(x + ([13 as char, 10 as char] + y)) ==
      x + ([92 as char, 114 as char, 92 as char, 110 as char] + Escape(y))
    ensures Escape(x) == x
  {
    hide Replace;
    forall k | 0 <= k < |x|
      ensures !(CRLF <= x[k..] + (CRLF + y)) && !(CRLF <= x[k..])
    {
      LineBreakStarts(x[k..], y);
    }
    ReplaceFirst(x, y, CRLF, TOKEN);
    Codes();
  }

  lemma LineBreakStarts(x: string, y: string)
    requires x != "" && NoLineBreak(x)
    ensures !(CRLF <= x + (CRLF + y)) && !(CRLF <= x)
  {
    var s := x + (CRLF + y);
    assert s[0] == x[0] && s[1] == if |x| > 1 then x[1] else CRLF[0];
  }

  /** And the first of these comes back as a carriage return and a line feed. */
  lemma UnescapeToken(x: string, y: string)
    requires NoToken(x)
    ensures Unescape(x + ([92 as char, 114 as char, 92 as char, 110 as char] + y)) ==
      x + ([13 as char, 10 as char] + Unescape(y))
    ensures Unescape(x) == x
  {
    hide Replace;
    forall k | 0 <= k < |x|
      ensures !(TOKEN <= x[k..] + (TOKEN + y)) && !(TOKEN <= x[k..])
    {
      TokenStarts(x[k..], y);
    }
    ReplaceFirst(x, y, TOKEN, CRLF);
    Codes();
  }

  lemma TokenStarts(x: string, y: string)
    requires x != "" && NoToken(x)
    ensures !(TOKEN <= x + (TOKEN + y)) && !(TOKEN <= x)
  {
    var s := x + (TOKEN + y);
    assert s[0] == x[0] && s[1] == (if |x| > 1 then x[1] else TOKEN[0]);
    assert s[2] == (if |x| > 2 then x[2] else TOKEN[2 - |x|]) && s[3] == (if |x| > 3 then x[3] else TOKEN[3 - |x|]);
  }

  // ----- framing -----

  /** The frames of s: what precedes each delimiter. */
  function Split(s: string, delimiter: string): seq<string>
    requires delimiter != ""
    decreases |s|
  {
    var pos := Find(s, delimiter);
    if pos < 0 then [] else [s[..pos]] + Split(s[pos + |delimiter|..], delimiter)
  }

  /** What follows the last delimiter. */
  function Rest(s: string, delimiter: string): string
    requires delimiter != ""
    decreases |s|
  {
    var pos := Find(s, delimiter);
    if pos < 0 then s else Rest(s[pos + |delimiter|..], delimiter)
  }

  function Joined(frames: seq<string>, delimiter: string): string {
    if frames == [] then "" else frames[0] + delimiter + Joined(frames[1..], delimiter)
  }

  lemma PrefixOff(x: string, p: string)
    requires p <= x
    ensures x == p + x[|p|..]
  {
  }

  lemma StillPrefix(s: string, p: string, pos: nat, at: nat)
    requires at <= pos <= |s| && p <= s[..pos][at..]
    ensures p <= s[at..]
  {
    assert s[at..][..pos - at] == s[..pos][at..];
  }

  /** What precedes the first delimiter has none. */
  lemma FrameIsFree(s: string, delimiter: string)
    requires delimiter != "" && Find(s, delimiter) >= 0
    ensures Find(s[..Find(s, delimiter)], delimiter) == -1
  {
    var pos := Find(s, delimiter);
    var at := Find(s[..pos], delimiter);
    if at >= 0 {
      StillPrefix(s, delimiter, pos, at);
      FindIsFirst(s, delimiter, at);
    }
  }

  lemma Cut(s: string, delimiter: string)
    requires delimiter != "" && Find(s, delimiter) >= 0
    ensures
      var pos := Find(s, delimiter);
      s == s[..pos] + (delimiter + s[pos + |delimiter|..])
  {
    hide Find;
    var pos := Find(s, delimiter);
    PrefixOff(s[pos..], delimiter);
    assert s[pos..][|delimiter|..] == s[pos + |delimiter|..];
  }

  lemma SplitStep(s: string, delimiter: string)
    requires delimiter != ""
    ensures
      var pos := Find(s, delimiter);
      if pos < 0 then Split(s, delimiter) == [] && Rest(s, delimiter) == s
      else
        var t := s[pos + |delimiter|..];
        Split(s, delimiter) == [s[..pos]] + Split(t, delimiter) && Rest(s, delimiter) == Rest(t, delimiter)
  {
    hide Find;
  }

  lemma JoinedStep(frame: string, frames: seq<string>, delimiter: string)
    ensures Joined([frame] + frames, delimiter) == frame + delimiter + Joined(frames, delimiter)
  {
    assert ([frame] + frames)[1..] == frames;
  }

  lemma {:induction false} SplitDropsNothing(s: string, delimiter: string)
    requires delimiter != ""
    ensures Joined(Split(s, delimiter), delimiter) + Rest(s, delimiter) == s
    decreases |s|
  {
    hide Find, Split, Rest, Joined;
    var pos := Find(s, delimiter);
    SplitStep(s, delimiter);
    if pos < 0 {
      assert Joined([], delimiter) == "" by { NothingJoined(delimiter); }
    } else {
      var t := s[pos + |delimiter|..];
      Cut(s, delimiter);
      SplitDropsNothing(t, delimiter);
      JoinedStep(s[..pos], Split(t, delimiter), delimiter);
      Associate(s[..pos], delimiter, Joined(Split(t, delimiter), delimiter), Rest(t, delimiter));
    }
  }

  lemma NothingJoined(delimiter: string)
    ensures Joined([], delimiter) == ""
  {
  }

  lemma Associate(a: string, b: string, c: string, d: string)
    ensures a + (b + (c + d)) == (a + b + c) + d
  {
  }

  lemma {:induction false} SplitIsFree(s: string, delimiter: string)
    requires delimiter != ""
    ensures forall k :: 0 <= k < |Split(s, delimiter)| ==> !Occurs(Split(s, delimiter)[k], delimiter)
    ensures !Occurs(Rest(s, delimiter), delimiter)
    decreases |s|
  {
    hide Find, Split, Rest;
    var pos := Find(s, delimiter);
    SplitStep(s, delimiter);
    if pos >= 0 {
      FrameIsFree(s, delimiter);
      SplitIsFree(s[pos + |delimiter|..], delimiter);
    }
  }

  /** Splitting cuts a text into frames and a rest, all free of the delimiter, and drops nothing else. */
  lemma {:induction false} SplitJoined(s: string, delimiter: string)
    requires delimiter != ""
    ensures Joined(Split(s, delimiter), delimiter) + Rest(s, delimiter) == s
    ensures forall k :: 0 <= k < |Split(s, delimiter)| ==> !Occurs(Split(s, delimiter)[k], delimiter)
    ensures !Occurs(Rest(s, delimiter), delimiter)
  {
    hide Occurs, Split, Rest, Joined;
    SplitDropsNothing(s, delimiter);
    SplitIsFree(s, delimiter);
  }

  /** The loop erases what it has pushed; it ends because the delimiter is not empty. */
  method SplitData(str: string, delimiter: string) returns (data: seq<string>)
    requires delimiter != ""
    ensures data == Split(str, delimiter)
  {
    hide Find, Split, Rest;
    data := [];
    var s := str;
    var pos := Find(s, delimiter);
    while pos >= 0
      invariant pos == Find(s, delimiter)
      invariant Split(str, delimiter) == data + Split(s, delimiter)
      decreases |s|
    {
      SplitStep(s, delimiter);
      var token := s[..pos];
      data := data + [token];
      s := s[pos + |delimiter|..];
      pos := Find(s, delimiter);
    }
    SplitStep(s, delimiter);
  }

  function UnescapeAll(frames: seq<string>): seq<string> {
    if frames == [] then [] else [Unescape(frames[0])] + UnescapeAll(frames[1..])
  }

  function EscapeAll(messages: seq<string>): seq<string> {
    if messages == [] then [] else [Escape(messages[0])] + EscapeAll(messages[1..])
  }

  /** What a peer sends for a list of messages. */
  function Sent(messages: seq<string>): string {
    Joined(EscapeAll(messages), CRLF)
  }

  /** Every message on the wire ends with a carriage return and a line feed. */
  lemma SentEnds(m: string, ms: seq<string>)
    ensures Sent([m] + ms) == Escape(m) + [13 as char, 10 as char] + Sent(ms)
  {
    hide Escape;
    assert ([m] + ms)[1..] == ms;
    assert EscapeAll([m] + ms) == [Escape(m)] + EscapeAll(ms);
    JoinedStep(Escape(m), EscapeAll(ms), CRLF);
  }

  /** A delimiter after a text without one is found where the text ends, even after a trailing CR. */
  lemma {:induction false} FindDelimiter(x: string, t: string)
    requires Find(x, CRLF) == -1
    ensures Find(x + CRLF + t, CRLF) == |x|
  {
    hide Find;
    var s := x + CRLF + t;
    if x == "" {
      FindHere(s, CRLF);
    } else {
      var y := x[1..];
      assert s[0] == x[0] && s[1] == if |x| > 1 then x[1] else '\r';
      assert s[1..] == y + CRLF + t;
      NotHere(x);
      FindStep(x, CRLF);
      FindDelimiter(y, t);
      assert !(CRLF <= s) by { assert |x| > 1 ==> x[..2] == [x[0], x[1]]; }
      FindStep(s, CRLF);
    }
  }

  lemma NotHere(x: string)
    requires Find(x, CRLF) == -1
    ensures !(CRLF <= x)
  {
  }

  /** Splitting undoes joining, whatever single CRs and LFs the frames contain. */
  lemma {:induction false} SplitOfJoined(frames: seq<string>)
    requires forall k :: 0 <= k < |frames| ==> !Occurs(frames[k], CRLF)
    ensures Split(Joined(frames, CRLF), CRLF) == frames && Rest(Joined(frames, CRLF), CRLF) == ""
  {
    if frames == [] {
      assert Joined([], CRLF) == "";
    } else {
      hide Find, Split, Rest;
      var f, t := frames[0], Joined(frames[1..], CRLF);
      var s := Joined(frames, CRLF);
      FindDelimiter(f, t);
      SplitOfJoined(frames[1..]);
      SplitStep(s, CRLF);
      assert s[..|f|] == f && s[|f| + 2..] == t;
    }
  }

  lemma {:induction false} EscapeAllFree(messages: seq<string>)
    ensures forall k :: 0 <= k < |EscapeAll(messages)| ==> !Occurs(EscapeAll(messages)[k], CRLF)
  {
    if messages != [] {
      EscapedHasNoCrlf(messages[0]);
      EscapeAllFree(messages[1..]);
    }
  }

  /** A list of messages comes out of the wire as it went in exactly if no message contains the token. */
  lemma {:induction false} ListRoundTrip(messages: seq<string>)
    ensures UnescapeAll(Split(Sent(messages), CRLF)) == messages <==>
      forall k :: 0 <= k < |messages| ==> !Occurs(messages[k], TOKEN)
  {
    EscapeAllFree(messages);
    SplitOfJoined(EscapeAll(messages));
    EscapeAllRoundTrip(messages);
  }

  lemma {:induction false} EscapeAllRoundTrip(messages: seq<string>)
    ensures |UnescapeAll(EscapeAll(messages))| == |messages|
    ensures UnescapeAll(EscapeAll(messages)) == messages <==>
      forall k :: 0 <= k < |messages| ==> !Occurs(messages[k], TOKEN)
  {
    if messages != [] {
      UnescapeEscape(messages[0]);
      EscapeAllRoundTrip(messages[1..]);
      assert messages == [messages[0]] + messages[1..];
      assert forall k :: 0 < k < |messages| ==> messages[k] == messages[1..][k - 1];
    }
  }
}
