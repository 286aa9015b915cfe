/** Handing requests to the event thread: a list, and one byte through a pipe for each request. */
module Handoff {
  import opened Wrappers

  class CThreadSafeList<T> {
    var list_: seq<T>

    constructor ()
      ensures list_ == []
    {
      list_ := [];
    }

    method PushBack(pt: T)
      modifies this
      ensures list_ == old(list_) + [pt]
    {
      list_ := list_ + [pt];
    }

    method PopFront() returns (pt: Option<T>)
      modifies this
      ensures (pt, list_) == Popped(old(list_))
    {
      pt := None;
      if |list_| > 0 {
        pt := Some(list_[0]);
        list_ := list_[1..];
      }
    }
  }

  function Popped<T>(list: seq<T>): (Option<T>, seq<T>) {
    if |list| > 0 then (Some(list[0]), list[1..]) else (None, list)
  }

  type Request = nat

  /** Requests are numbered in the order in which they were pushed. */
  datatype State = State(
    list: seq<Request>,
    pushed: nat,                 // how many were ever pushed (history)
    writing: map<nat, Request>,  // threads between push_back and write
    bytes: nat,                  // in the pipe
    failed: set<Request>,        // requests whose write failed (history)
    reading: bool,               // the event thread has read a byte and not popped yet
    popped: seq<Request>,        // what the event thread has got (history)
    misses: nat)                 // pop_front on an empty list (history)

  const INIT := State([], 0, map[], 0, {}, false, [], 0)

  datatype Event = Push(t: nat) | Write(t: nat) | WriteFails(t: nat) | ReadByte | Pop

  predicate Enabled(s: State, e: Event) {
    match e
    case Push(t) => t !in s.writing
    case Write(t) => t in s.writing
    case WriteFails(t) => t in s.writing
    case ReadByte => !s.reading && s.bytes > 0
    case Pop => s.reading
  }

  function Step(s: State, e: Event): State
    requires Enabled(s, e)
  {
    match e
    case Push(t) => s.(list := s.list + [s.pushed], pushed := s.pushed + 1, writing := s.writing[t := s.pushed])
    case Write(t) => s.(bytes := s.bytes + 1, writing := s.writing - {t})
    case WriteFails(t) => s.(failed := s.failed + {s.writing[t]}, writing := s.writing - {t})
    case ReadByte => s.(bytes := s.bytes - 1, reading := true)
    case Pop =>
      var (pt, rest) := Popped(s.list);
      if pt.Some? then s.(list := rest, reading := false, popped := s.popped + [pt.value])
      else s.(reading := false, misses := s.misses + 1)
  }

  predicate Possible(s: State, es: seq<Event>)
    decreases |es|
  {
    es == [] || (Enabled(s, es[0]) && Possible(Step(s, es[0]), es[1..]))
  }

  function After(s: State, es: seq<Event>): State
    requires Possible(s, es)
    decreases |es|
  {
    if es == [] then s else After(Step(s, es[0]), es[1..])
  }

  function Upto(n: nat): seq<Request> {
    seq(n, k => k)
  }

  /** Every request in the list is announced by a byte, held by the reader, about to be announced, or never will be. */
  ghost predicate Counted(s: State) {
    |s.list| == s.bytes + (if s.reading then 1 else 0) + |s.writing| + |s.failed|
  }

  ghost predicate Ordered(s: State) {
    s.popped + s.list == Upto(s.pushed) && s.misses == 0
  }

  ghost predicate Distinct(s: State) {
    && (forall t :: t in s.writing ==> s.writing[t] < s.pushed && s.writing[t] !in s.failed)
    && (forall t, u :: t in s.writing && u in s.writing && s.writing[t] == s.writing[u] ==> t == u)
    && (forall r :: r in s.failed ==> r < s.pushed)
  }

  ghost predicate Inv(s: State) {
    Counted(s) && Ordered(s) && Distinct(s)
  }

  lemma StepKeepsCounted(s: State, e: Event)
    requires Counted(s) && Distinct(s) && Enabled(s, e)
    ensures Counted(Step(s, e))
  {
    hide Upto;
    match e
    case Push(t) => Added(s.writing, t, s.pushed);
    case Write(t) => Removed(s.writing, t);
    case WriteFails(t) => Removed(s.writing, t); Included(s.failed, s.writing[t]);
    case ReadByte =>
    case Pop =>
  }

  lemma StepKeepsOrdered(s: State, e: Event)
    requires Counted(s) && Ordered(s) && Enabled(s, e)
    ensures Ordered(Step(s, e))
  {
    var t := Step(s, e);
    if e.Push? {
      assert t.popped + t.list == (s.popped + s.list) + [s.pushed] == Upto(t.pushed);
    } else if e.Pop? {
      assert t.popped + t.list == s.popped + s.list;
    }
  }

  lemma StepKeepsDistinct(s: State, e: Event)
    requires Distinct(s) && Enabled(s, e)
    ensures Distinct(Step(s, e))
  {
  }

  lemma StepKeepsInv(s: State, e: Event)
    requires Inv(s) && Enabled(s, e)
    ensures Inv(Step(s, e))
  {
    hide Step, Enabled, Counted, Ordered, Distinct;
    StepKeepsCounted(s, e);
    StepKeepsOrdered(s, e);
    StepKeepsDistinct(s, e);
  }

  lemma Added<K, V>(m: map<K, V>, k: K, v: V)
    requires k !in m
    ensures |m[k := v]| == |m| + 1
  {
    assert m[k := v].Keys == m.Keys + {k};
  }

  lemma Included<T>(a: set<T>, x: T)
    requires x !in a
    ensures |a + {x}| == |a| + 1
  {
  }

  lemma Removed<K, V>(m: map<K, V>, k: K)
    requires k in m
    ensures |m - {k}| == |m| - 1
  {
    assert (m - {k}).Keys == m.Keys - {k};
  }

  lemma {:induction false} RunKeepsInv(s: State, es: seq<Event>)
    requires Inv(s) && Possible(s, es)
    ensures Inv(After(s, es))
    decreases |es|
  {
    hide Inv, Step, Enabled;
    if es != [] {
      StepKeepsInv(s, es[0]);
      RunKeepsInv(Step(s, es[0]), es[1..]);
    }
  }

  lemma InitInv()
    ensures Inv(INIT)
  {
  }

  /** Having read a byte, the event thread finds a request, and requests come in the order they were pushed. */
  lemma PopFindsARequest(es: seq<Event>)
    requires Possible(INIT, es)
    ensures
      var s := After(INIT, es);
      && s.misses == 0 && (s.reading ==> s.list != []) && s.bytes <= |s.list|
      && s.popped == Upto(|s.popped|)
  {
    hide Possible, After;
    InitInv();
    RunKeepsInv(INIT, es);
    var s := After(INIT, es);
    assert s.popped == (s.popped + s.list)[..|s.popped|];
  }

  /**
   * When everything has settled, exactly as many requests are left over as writes have failed, and they are the
   * last ones pushed, whichever writes it was that failed.
   */
  lemma LeftOver(es: seq<Event>)
    requires Possible(INIT, es)
    requires var s := After(INIT, es); s.writing == map[] && s.bytes == 0 && !s.reading
    ensures
      var s := After(INIT, es);
      && |s.failed| <= s.pushed && s.popped == Upto(s.pushed - |s.failed|)
      && (s.list == [] <==> s.failed == {})
  {
    hide Possible, After;
    InitInv();
    RunKeepsInv(INIT, es);
    var s := After(INIT, es);
    assert |s.popped + s.list| == s.pushed;
    assert s.popped == (s.popped + s.list)[..|s.popped|];
  }

  predicate Settled(s: State) {
    s.writing == map[] && s.bytes == 0 && !s.reading
  }

  ghost predicate CanSettle(s: State) {
    exists fs: seq<Event> :: Possible(s, fs) && Settled(After(s, fs)) && After(s, fs).failed == s.failed
  }

  lemma SettlesAfter(s: State, e: Event)
    requires Enabled(s, e) && CanSettle(Step(s, e)) && Step(s, e).failed == s.failed
    ensures CanSettle(s)
  {
    hide Enabled, Step, Settled;
    var fs: seq<Event> :|
      Possible(Step(s, e), fs) && Settled(After(Step(s, e), fs)) && After(Step(s, e), fs).failed == Step(s, e).failed;
    assert ([e] + fs)[1..] == fs;
    assert Possible(s, [e] + fs) && After(s, [e] + fs) == After(Step(s, e), fs);
  }

  lemma NothingToDo(s: State)
    requires Settled(s)
    ensures CanSettle(s)
  {
    assert Possible(s, []) && After(s, []) == s;
  }

  /** Bytes, reads and writes can always be worked off, so that only requests whose writes failed are left. */
  lemma {:induction false} AlwaysSettles(s: State)
    ensures CanSettle(s)
    decreases |s.writing|, s.bytes, s.reading
  {
    hide Possible, After, CanSettle;
    if s.writing != map[] {
      var t :| t in s.writing;
      Removed(s.writing, t);
      AlwaysSettles(Step(s, Write(t)));
      SettlesAfter(s, Write(t));
    } else if s.reading {
      AlwaysSettles(Step(s, Pop));
      SettlesAfter(s, Pop);
    } else if s.bytes > 0 {
      AlwaysSettles(Step(s, ReadByte));
      SettlesAfter(s, ReadByte);
    } else {
      NothingToDo(s);
    }
  }
}
