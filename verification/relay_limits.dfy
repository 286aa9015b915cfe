/** Runs in which the relay check is wrong: each side condition of RelaySafety is needed. */
module RelayLimits {
  import opened Decimal
  import opened Relay
  import opened RelaySafety

  predicate Reaches(s: State, es: seq<Event>, u: State) {
    Possible(s, es) && After(s, es) == u
  }

  lemma {:induction false} RunConcat(s: State, es: seq<Event>, u: State, fs: seq<Event>, v: State)
    requires Reaches(s, es, u) && Reaches(u, fs, v)
    ensures Reaches(s, es + fs, v)
    decreases |es|
  {
    hide Enabled, Step;
    if es == [] {
      assert es + fs == fs;
    } else {
      RunConcat(Step(s, es[0]), es[1..], u, fs, v);
      assert (es + fs)[1..] == es[1..] + fs;
    }
  }

  lemma Start(s: State)
    ensures Reaches(s, [], s)
  {
  }

  lemma Then(s: State, es: seq<Event>, u: State, e: Event)
    requires Reaches(s, es, u) && Enabled(u, e)
    ensures Reaches(s, es + [e], Step(u, e))
  {
    hide Enabled, Step;
    Start(Step(u, e));
    assert [e][0] == e && [e][1..] == [];
    RunConcat(s, es, u, [e], Step(u, e));
  }

  // ----- three stages of a connection's life, and the states they lead to -----

  predicate Free(s: State, fd: nat) {
    !s.inserting && fd !in s.open && fd !in s.owner
  }

  function Arrival(s: State, fd: nat): seq<Event> {
    [] + [Accept(fd)] + [Insert] + [Serve(|s.accepted|)]
  }

  function Arrived(s: State, fd: nat): State {
    var n := |s.accepted|;
    s.(accepted := s.accepted + [Conn(fd, NextId(s.id))], id := NextId(s.id), open := s.open[fd := n],
       table := s.table[fd := NextId(s.id)], owner := s.owner[fd := n], served := s.served + {n})
  }

  lemma Arrives(s: State, fd: nat)
    requires Inv(s) && Free(s, fd)
    ensures Reaches(s, Arrival(s, fd), Arrived(s, fd))
  {
    hide Possible, After, NextId, RegistrationsOk;
    var n := |s.accepted|;
    var s1 := Step(s, Accept(fd));
    Start(s);
    Then(s, [], s, Accept(fd));
    Then(s, [] + [Accept(fd)], s1, Insert);
    Then(s, [] + [Accept(fd)] + [Insert], Step(s1, Insert), Serve(n));
  }

  function Registration(n: nat, guid: Guid, last: Event): seq<Event> {
    [] + [Online(0, n, guid)] + [HsetFd(0)] + [last]
  }

  /** Connection n has registered guid for the first time; the id is lost if the last command fails. */
  function Registered(s: State, n: nat, guid: Guid, whole: bool): State
    requires n < |s.accepted|
  {
    var c := s.accepted[n];
    s.(issued := s.issued + {(n, guid)},
       records := s.records[guid := Record(Field(IntText(c.fd), n), if whole then Field(IntText(c.id), n) else Nil)])
  }

  lemma OnlineStep(s: State, n: nat, guid: Guid)
    requires IsOpen(s, n) && n in s.served - s.closing && s.writers == map[]
    ensures
      var e := Online(0, n, guid);
      Enabled(s, e) && Step(s, e) == s.(issued := s.issued + {(n, guid)}, writers := map[0 := WritingFd(n, guid)])
  {
    hide ConnectionStep, ReaderStep, FieldsOf, IntText;
  }

  lemma HsetFdStep(s: State, n: nat, guid: Guid)
    requires n < |s.accepted| && s.writers == map[0 := WritingFd(n, guid)] && guid !in s.records
    ensures
      Enabled(s, HsetFd(0)) && Step(s, HsetFd(0)) ==
        s.(records := s.records[guid := Record(Field(IntText(s.accepted[n].fd), n), Nil)],
           writers := map[0 := WritingId(n, guid)])
  {
    hide ConnectionStep, ReaderStep, IntText;
  }

  lemma LastStep(s: State, n: nat, guid: Guid, whole: bool)
    requires n < |s.accepted| && s.writers == map[0 := WritingId(n, guid)]
    requires guid in s.records && s.records[guid].id.Nil?
    ensures
      var e := if whole then HsetId(0) else HsetFails(0);
      var id := if whole then Field(IntText(s.accepted[n].id), n) else Nil;
      Enabled(s, e) && Step(s, e) == s.(records := s.records[guid := s.records[guid].(id := id)], writers := map[])
  {
    hide ConnectionStep, ReaderStep, IntText;
    if !whole {
      assert s.records[guid := s.records[guid].(id := Nil)] == s.records;
    }
  }

  lemma Registers(s: State, n: nat, guid: Guid, whole: bool)
    requires IsOpen(s, n) && n in s.served - s.closing && s.writers == map[] && guid !in s.records
    ensures Reaches(s, Registration(n, guid, if whole then HsetId(0) else HsetFails(0)), Registered(s, n, guid, whole))
  {
    hide Reaches, Step, Enabled, IntText;
    var e := if whole then HsetId(0) else HsetFails(0);
    Start(s);
    OnlineStep(s, n, guid);
    Then(s, [], s, Online(0, n, guid));
    var s1 := Step(s, Online(0, n, guid));
    HsetFdStep(s1, n, guid);
    Then(s, [] + [Online(0, n, guid)], s1, HsetFd(0));
    var s2 := Step(s1, HsetFd(0));
    LastStep(s2, n, guid, whole);
    Then(s, [] + [Online(0, n, guid)] + [HsetFd(0)], s2, e);
    assert Step(s2, e).records == Registered(s, n, guid, whole).records;
  }

  function Departure(n: nat): seq<Event> {
    [] + [EraseEntry(n)] + [CloseFd(n)]
  }

  function Left(s: State, n: nat): State
    requires n < |s.accepted|
  {
    var fd := s.accepted[n].fd;
    s.(table := s.table - {fd}, owner := s.owner - {fd}, closing := s.closing + {n}, open := s.open - {fd})
  }

  lemma Leaves(s: State, n: nat)
    requires IsOpen(s, n) && n in s.served - s.closing
    ensures Reaches(s, Departure(n), Left(s, n))
  {
    hide Possible, After;
    Start(s);
    Then(s, [], s, EraseEntry(n));
    Then(s, [] + [EraseEntry(n)], Step(s, EraseEntry(n)), CloseFd(n));
  }

  // ----- other clients come and go -----

  /** Visits by other clients change nothing else. */
  predicate SameElsewhere(s: State, u: State) {
    && s.table == u.table && s.owner == u.owner && s.open == u.open && s.issued == u.issued
    && s.records == u.records && s.writers == u.writers && s.readers == u.readers && s.accepted <= u.accepted
  }

  lemma VisitLeaves(s: State, fd: nat)
    requires Inv(s) && Free(s, fd)
    ensures
      var n := |s.accepted|;
      var u := Left(Arrived(s, fd), n);
      && Reaches(s, Arrival(s, fd) + Departure(n), u)
      && Inv(u) && Free(u, fd) && SameElsewhere(s, u) && |u.accepted| == n + 1
  {
    hide Possible, After, NextId, RegistrationsOk, Enabled, Step, Arrival, Departure;
    var n := |s.accepted|;
    var s1 := Arrived(s, fd);
    Arrives(s, fd);
    Leaves(s1, n);
    RunConcat(s, Arrival(s, fd), s1, Departure(n), Left(s1, n));
    RunKeepsInv(s, Arrival(s, fd) + Departure(n));
    var u := Left(s1, n);
    assert u.table == s.table && u.owner == s.owner && u.open == s.open;
  }

  lemma {:induction false} VisitsLeave(s: State, fd: nat, k: nat)
    requires Inv(s) && Free(s, fd)
    ensures exists es, u ::
      && Reaches(s, es, u) && Inv(u) && Free(u, fd) && SameElsewhere(s, u) && |u.accepted| == |s.accepted| + k
  {
    hide Inv, Arrival, Departure, Enabled, Step, Free, Possible, After;
    if k == 0 {
      Start(s);
    } else {
      VisitsLeave(s, fd, k - 1);
      var es, u :|
        Reaches(s, es, u) && Inv(u) && Free(u, fd) && SameElsewhere(s, u) && |u.accepted| == |s.accepted| + k - 1;
      VisitLeaves(u, fd);
      var n := |u.accepted|;
      RunConcat(s, es, u, Arrival(u, fd) + Departure(n), Left(Arrived(u, fd), n));
    }
  }

  // ----- the counterexamples -----

  lemma InitInv()
    ensures Inv(INIT)
  {
  }

  /** The first connection registers guid on fd 5 and leaves. */
  lemma FirstDevice(guid: Guid, whole: bool)
    ensures exists es, u ::
      && Reaches(INIT, es, u) && Inv(u) && Free(u, 5) && Free(u, 6) && u.readers == map[]
      && |u.accepted| == 1 && u.issued == {(0, guid)}
      && u.records == map[guid := Record(Field(IntText(5), 0), if whole then Field(IntText(1), 0) else Nil)]
  {
    hide Possible, After, IntText, Enabled, Step, Inv, Arrival, Registration, Departure;
    InitInv();
    Arrives(INIT, 5);
    var s1 := Arrived(INIT, 5);
    Registers(s1, 0, guid, whole);
    var s2 := Registered(s1, 0, guid, whole);
    Leaves(s2, 0);
    var u := Left(s2, 0);
    var es := Arrival(INIT, 5);
    var fs := Registration(0, guid, if whole then HsetId(0) else HsetFails(0));
    RunConcat(INIT, es, s1, fs, s2);
    RunConcat(INIT, es + fs, s2, Departure(0), u);
    RunKeepsInv(INIT, es + fs + Departure(0));
  }

  /** A relay to guid has read both fields. */
  function Asked(s: State, guid: Guid): State {
    s.(readers := s.readers[0 := ReadBoth(guid, FieldsOf(s.records, guid).fd, FieldsOf(s.records, guid).id)])
  }

  lemma Asks(s: State, guid: Guid)
    requires s.readers == map[]
    ensures Reaches(s, [] + [HgetFd(0, guid)] + [HgetId(0)], Asked(s, guid))
  {
    hide Possible, After;
    Start(s);
    Then(s, [], s, HgetFd(0, guid));
    Then(s, [] + [HgetFd(0, guid)], Step(s, HgetFd(0, guid)), HgetId(0));
    assert Step(Step(s, HgetFd(0, guid)), HgetId(0)).readers == Asked(s, guid).readers;
  }

  /** The check would let the relay send to a connection that never issued DEVICE_ONLINE for the guid. */
  ghost predicate WrongPass(s: State, t: nat) {
    && Checking(s, t) && Passes(s, s.readers[t])
    && var fd := Value(s.readers[t].fd);
       !(fd in s.open && (s.open[fd], s.readers[t].guid) in s.issued)
  }

  /**
   * A whole record that is one connection older than the window passes for a stranger; so does a record
   * without an id, with every connection inside the window.
   */
  lemma StrangerPasses(guid: Guid, whole: bool)
    ensures exists es, s ::
      && Reaches(INIT, es, s) && WrongPass(s, 0)
      && |s.accepted| == (if whole then CYCLE + 1 else CYCLE)
      && (s.readers[0].id.Nil? <==> !whole)
  {
    hide Reaches, IntText, Enabled, Step, Arrival, Inv, WrongPass;
    FirstDevice(guid, whole);
    var es, u :|
      && Reaches(INIT, es, u) && Inv(u) && Free(u, 5) && Free(u, 6) && u.readers == map[]
      && |u.accepted| == 1 && u.issued == {(0, guid)}
      && u.records == map[guid := Record(Field(IntText(5), 0), if whole then Field(IntText(1), 0) else Nil)];
    var n := if whole then CYCLE else CYCLE - 1;
    VisitsLeave(u, 6, n - 1);
    var fs, v :|
      Reaches(u, fs, v) && Inv(v) && Free(v, 6) && SameElsewhere(u, v) && |v.accepted| == |u.accepted| + n - 1;
    RunConcat(INIT, es, u, fs, v);
    Arrives(v, 5);
    var w := Arrived(v, 5);
    RunConcat(INIT, es + fs, v, Arrival(v, 5), w);
    Asks(w, guid);
    var s := Asked(w, guid);
    RunConcat(INIT, es + fs + Arrival(v, 5), w, [] + [HgetFd(0, guid)] + [HgetId(0)], s);
    assert v.id == IdOf(n - 1) && s.table[5] == IdOf(n) by { IdOfPrevious(v); NextIdCycles(n - 1); }
    IsWrong(s, n, guid, whole);
  }

  /** What the relay has read, and the table entry it meets. */
  lemma IsWrong(s: State, n: nat, guid: Guid, whole: bool)
    requires n == (if whole then CYCLE else CYCLE - 1) && s.issued == {(0, guid)}
    requires s.readers == map[0 := ReadBoth(guid, Field(IntText(5), 0), if whole then Field(IntText(1), 0) else Nil)]
    requires 5 in s.table && s.table[5] == IdOf(n) && 5 in s.open && s.open[5] == n
    ensures WrongPass(s, 0)
  {
    hide IntText, Atoi;
    ReplyValues();
    assert (n, guid) !in s.issued;
  }

  lemma IdOfPrevious(s: State)
    requires Inv(s) && s.accepted != []
    ensures s.id == IdOf(|s.accepted| - 1)
  {
  }

  lemma ReplyValues()
    ensures Atoi(IntText(5)) == 5 && Atoi(IntText(1)) == 1 && Atoi("") == 0
  {
    AtoiIntText(5);
    AtoiIntText(1);
  }

  /**
   * A refused connection leaves its entry behind, and insert does not overwrite it: a device on the reused fd
   * registers in full, stays connected, and is never found.
   */
  lemma StaleEntryHides(guid: Guid)
    ensures exists es, s, n ::
      && Reaches(INIT, es, s) && Checking(s, 0) && !Passes(s, s.readers[0])
      && s.readers[0] == ReadBoth(guid, Field(IntText(5), n), Field(IntText(IdOf(n)), n))
      && IsOpen(s, n) && n !in s.closing && PrevRefused(s, n)
  {
    hide Possible, After, IntText, Atoi, Registration, Enabled, Step;
    var s0 := INIT.(accepted := [Conn(5, 1)], id := 1, table := map[5 := 1], owner := map[5 := 0], refused := {0});
    RefusedFirst(s0);
    var s1 := s0.(accepted := [Conn(5, 1), Conn(5, 2)], id := 2, open := map[5 := 1], served := {1});
    KeepsStaleEntry(s0, s1);
    Registers(s1, 1, guid, true);
    var s2 := Registered(s1, 1, guid, true);
    Asks(s2, guid);
    var s := Asked(s2, guid);
    var es := [] + [Accept(5)] + [Insert] + [Refuse(0)];
    var fs := [] + [Accept(5)] + [Insert] + [Serve(1)];
    RunConcat(INIT, es, s0, fs, s1);
    RunConcat(INIT, es + fs, s1, Registration(1, guid, HsetId(0)), s2);
    RunConcat(INIT, es + fs + Registration(1, guid, HsetId(0)), s2, [] + [HgetFd(0, guid)] + [HgetId(0)], s);
    AtoiIntText(2);
    ReplyValues();
    assert s.readers[0] == ReadBoth(guid, Field(IntText(5), 1), Field(IntText(IdOf(1)), 1));
    assert s.accepted[..1] == [Conn(5, 1)] && LastOn([Conn(5, 1)], 5) == 0;
  }

  lemma RefusedFirst(s0: State)
    requires s0 == INIT.(accepted := [Conn(5, 1)], id := 1, table := map[5 := 1], owner := map[5 := 0], refused := {0})
    ensures Reaches(INIT, [] + [Accept(5)] + [Insert] + [Refuse(0)], s0)
  {
    hide Possible, After;
    Start(INIT);
    Then(INIT, [], INIT, Accept(5));
    var s1 := Step(INIT, Accept(5));
    Then(INIT, [] + [Accept(5)], s1, Insert);
    Then(INIT, [] + [Accept(5)] + [Insert], Step(s1, Insert), Refuse(0));
  }

  lemma KeepsStaleEntry(s0: State, s1: State)
    requires s0 == INIT.(accepted := [Conn(5, 1)], id := 1, table := map[5 := 1], owner := map[5 := 0], refused := {0})
    requires s1 == s0.(accepted := [Conn(5, 1), Conn(5, 2)], id := 2, open := map[5 := 1], served := {1})
    ensures Reaches(s0, [] + [Accept(5)] + [Insert] + [Serve(1)], s1)
  {
    hide Possible, After;
    Start(s0);
    Then(s0, [], s0, Accept(5));
    var u := Step(s0, Accept(5));
    assert u.accepted == s1.accepted;
    Then(s0, [] + [Accept(5)], u, Insert);
    Then(s0, [] + [Accept(5)] + [Insert], Step(u, Insert), Serve(1));
  }

  lemma RefusedAgain(s0: State, s1: State)
    requires s0 == INIT.(accepted := [Conn(5, 1)], id := 1, table := map[5 := 1], owner := map[5 := 0], refused := {0})
    requires s1 == s0.(accepted := [Conn(5, 1), Conn(5, 2)], id := 2, refused := {0, 1})
    ensures Reaches(s0, [] + [Accept(5)] + [Insert] + [Refuse(1)], s1)
  {
    hide Possible, After;
    Start(s0);
    Then(s0, [], s0, Accept(5));
    var u := Step(s0, Accept(5));
    assert u.accepted == s1.accepted;
    Then(s0, [] + [Accept(5)], u, Insert);
    Then(s0, [] + [Accept(5)] + [Insert], Step(u, Insert), Refuse(1));
  }

  /** A connection that meets an entry under its fd gets none of its own. */
  function ArrivedBehind(s: State, fd: nat): State {
    var n := |s.accepted|;
    s.(accepted := s.accepted + [Conn(fd, NextId(s.id))], id := NextId(s.id), open := s.open[fd := n],
       served := s.served + {n})
  }

  lemma ArrivesBehind(s: State, fd: nat)
    requires Inv(s) && !s.inserting && fd !in s.open && fd in s.owner
    ensures Reaches(s, Arrival(s, fd), ArrivedBehind(s, fd))
  {
    hide Possible, After, NextId, RegistrationsOk;
    var s1 := Step(s, Accept(fd));
    Start(s);
    Then(s, [], s, Accept(fd));
    Then(s, [] + [Accept(fd)], s1, Insert);
    Then(s, [] + [Accept(fd)] + [Insert], Step(s1, Insert), Serve(|s.accepted|));
  }

  lemma TwiceRefused()
    ensures exists es, s ::
      && Reaches(INIT, es, s) && Inv(s) && Free(s, 6) && !s.inserting && |s.accepted| == 2 && s.open == map[]
      && s.table == map[5 := 1] && s.owner == map[5 := 0]
      && s.records == map[] && s.writers == map[] && s.readers == map[]
  {
    hide Possible, After, Enabled, Step, Inv;
    var s0 := INIT.(accepted := [Conn(5, 1)], id := 1, table := map[5 := 1], owner := map[5 := 0], refused := {0});
    RefusedFirst(s0);
    var s1 := s0.(accepted := [Conn(5, 1), Conn(5, 2)], id := 2, refused := {0, 1});
    RefusedAgain(s0, s1);
    var es := [] + [Accept(5)] + [Insert] + [Refuse(0)];
    var fs := [] + [Accept(5)] + [Insert] + [Refuse(1)];
    RunConcat(INIT, es, s0, fs, s1);
    InitInv();
    RunKeepsInv(INIT, es + fs);
  }

  /**
   * Two connections are refused on one fd; the entry of the first stays, and 65537 accepts later a device that
   * registers there carries its id, and is found, although the connection just before it on the fd was refused.
   */
  lemma OldEntryPasses(guid: Guid)
    ensures exists es, s, n ::
      && Reaches(INIT, es, s) && WholeRecordRead(s, 0, n) && PrevRefused(s, n) && Passes(s, s.readers[0])
      && |s.accepted| == CYCLE + 1
  {
    hide Reaches, IntText, Enabled, Step, Arrival, Registration, Inv, Passes, PrevRefused;
    TwiceRefused();
    var es, u :|
      && Reaches(INIT, es, u) && Inv(u) && Free(u, 6) && !u.inserting && |u.accepted| == 2 && u.open == map[]
      && u.table == map[5 := 1] && u.owner == map[5 := 0]
      && u.records == map[] && u.writers == map[] && u.readers == map[];
    VisitsLeave(u, 6, CYCLE - 2);
    var fs, v :| Reaches(u, fs, v) && Inv(v) && Free(v, 6) && SameElsewhere(u, v) && |v.accepted| == CYCLE;
    RunConcat(INIT, es, u, fs, v);
    ArrivesBehind(v, 5);
    var n := |v.accepted|;
    var w := ArrivedBehind(v, 5);
    RunConcat(INIT, es + fs, v, Arrival(v, 5), w);
    NewSerial(v);
    Registers(w, n, guid, true);
    var x := Registered(w, n, guid, true);
    RunConcat(INIT, es + fs + Arrival(v, 5), w, Registration(n, guid, HsetId(0)), x);
    Asks(x, guid);
    var s := Asked(x, guid);
    var gs := es + fs + Arrival(v, 5) + Registration(n, guid, HsetId(0));
    RunConcat(INIT, gs, x, [] + [HgetFd(0, guid)] + [HgetId(0)], s);
    IsOldEntry(gs + ([] + [HgetFd(0, guid)] + [HgetId(0)]), s, n);
  }

  lemma NewSerial(s: State)
    requires Inv(s)
    ensures |s.accepted| !in s.closing
  {
  }

  lemma IsOldEntry(es: seq<Event>, s: State, n: nat)
    requires Reaches(INIT, es, s) && WholeRecordRead(s, 0, n) && n == CYCLE && n !in s.closing
    requires s.owner == map[5 := 0]
    ensures PrevRefused(s, n) && Passes(s, s.readers[0])
  {
    hide Possible, After, PrevRefused, Passes, Value;
    EntryMet(es, 0, n);
    RegisteredDeviceFound(es, 0, n);
  }
}
