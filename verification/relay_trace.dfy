/** What a relay that sends, and a record that is read, go back to in the steps of the run. */
module RelayTrace {
  import opened Decimal
  import opened Relay

  /** The state before the k-th step. */
  function StateAt(es: seq<Event>, k: nat): State
    requires k <= |es|
  {
    if Possible(INIT, es[..k]) then After(INIT, es[..k]) else INIT
  }

  lemma {:induction false} PrefixRuns(s: State, es: seq<Event>, k: nat)
    requires Possible(s, es) && k < |es|
    ensures Possible(s, es[..k]) && Enabled(After(s, es[..k]), es[k])
    ensures Possible(s, es[..k + 1]) && After(s, es[..k + 1]) == Step(After(s, es[..k]), es[k])
    decreases k
  {
    hide Enabled, Step;
    if k == 0 {
      assert es[..0] == [] && es[..1] == [es[0]] && es[..1][1..] == [];
    } else {
      PrefixRuns(Step(s, es[0]), es[1..], k - 1);
      assert es[..k][0] == es[0] && es[..k][1..] == es[1..][..k - 1];
      assert es[..k + 1][0] == es[0] && es[..k + 1][1..] == es[1..][..k];
    }
  }

  lemma StepAt(es: seq<Event>, k: nat)
    requires Possible(INIT, es) && k < |es|
    ensures Enabled(StateAt(es, k), es[k]) && StateAt(es, k + 1) == Step(StateAt(es, k), es[k])
  {
    hide Possible, After, Enabled, Step;
    PrefixRuns(INIT, es, k);
  }

  lemma AtStart(es: seq<Event>)
    ensures StateAt(es, 0) == INIT
  {
    assert es[..0] == [];
  }

  lemma AtEnd(es: seq<Event>)
    requires Possible(INIT, es)
    ensures StateAt(es, |es|) == After(INIT, es)
  {
    assert es[..|es|] == es;
  }

  // ----- relays -----

  /** e is a step of relay t. */
  predicate OfReader(e: Event, t: nat) {
    match e
    case HgetFd(k, guid) => k == t
    case HgetId(k) => k == t
    case HgetFails(k) => k == t
    case Check(k) => k == t
    case Send(k) => k == t
    case _ => false
  }

  /** Relay t takes no step from one step up to another. */
  predicate Rests(es: seq<Event>, from: nat, to: nat, t: nat)
    requires to <= |es|
  {
    forall x :: from <= x < to ==> !OfReader(es[x], t)
  }

  /** The number in the fd field of a guid's record; no field reads as 0. */
  function FdIn(records: map<Guid, Record>, guid: Guid): int {
    if guid in records && records[guid].fd.Field? then Atoi(records[guid].fd.text) else 0
  }

  function IdIn(records: map<Guid, Record>, guid: Guid): int {
    if guid in records && records[guid].id.Field? then Atoi(records[guid].id.text) else 0
  }

  predicate FdRead(es: seq<Event>, i: nat, m: nat, t: nat, r: Reader)
    requires m <= |es|
  {
    && i < m && r.ReadFd? && es[i] == HgetFd(t, r.guid) && Value(r.fd) == FdIn(StateAt(es, i).records, r.guid)
    && Rests(es, i + 1, m, t)
  }

  predicate BothRead(es: seq<Event>, i: nat, j: nat, m: nat, t: nat, r: Reader)
    requires m <= |es|
  {
    && i < j < m && r.ReadBoth? && es[i] == HgetFd(t, r.guid) && es[j] == HgetId(t)
    && Value(r.fd) == FdIn(StateAt(es, i).records, r.guid) && Value(r.id) == IdIn(StateAt(es, j).records, r.guid)
    && Rests(es, i + 1, j, t) && Rests(es, j + 1, m, t)
  }

  /**
   * Relay t read the fd of guid at step i and the id at step j, and at step k the table held that fd with that id;
   * since then it has taken no step.
   */
  predicate Checked(es: seq<Event>, i: nat, j: nat, k: nat, m: nat, t: nat, guid: Guid, sfd: int)
    requires m <= |es|
  {
    && i < j < k < m && es[i] == HgetFd(t, guid) && es[j] == HgetId(t) && es[k] == Check(t)
    && Rests(es, i + 1, j, t) && Rests(es, j + 1, k, t) && Rests(es, k + 1, m, t)
    && sfd == FdIn(StateAt(es, i).records, guid)
    && sfd in StateAt(es, k).table && StateAt(es, k).table[sfd] == IdIn(StateAt(es, j).records, guid)
  }

  lemma FieldValues(records: map<Guid, Record>, guid: Guid)
    ensures Value(FieldsOf(records, guid).fd) == FdIn(records, guid)
    ensures Value(FieldsOf(records, guid).id) == IdIn(records, guid)
  {
    assert Atoi("") == 0;
    hide Atoi;
  }

  function With(s: State, t: nat, r: Reader): State {
    s.(readers := s.readers[t := r])
  }

  lemma WithTwice(s: State, t: nat, q: Reader, r: Reader)
    ensures With(With(s, t, q), t, r) == With(s, t, r)
  {
    assert s.readers[t := q][t := r] == s.readers[t := r];
  }

  lemma WithThenWithout(s: State, t: nat, r: Reader)
    requires t !in s.readers
    ensures With(s, t, r).(readers := With(s, t, r).readers - {t}) == s
  {
    assert s.readers[t := r] - {t} == s.readers;
  }

  lemma ReadingSteps(s: State, t: nat, guid: Guid)
    ensures t !in s.readers ==>
      Enabled(s, HgetFd(t, guid)) && Step(s, HgetFd(t, guid)) == With(s, t, ReadFd(guid, FieldsOf(s.records, guid).fd))
    ensures t in s.readers && s.readers[t].ReadFd? ==>
      && var r := s.readers[t];
      Enabled(s, HgetId(t)) && Step(s, HgetId(t)) == With(s, t, ReadBoth(r.guid, r.fd, FieldsOf(s.records, r.guid).id))
  {
    hide FieldsOf;
  }

  lemma CheckSends(s: State, t: nat)
    requires t in s.readers && s.readers[t].ReadBoth?
    ensures Enabled(s, Check(t))
    ensures
      var r := s.readers[t]; var u := Step(s, Check(t));
      if Value(r.fd) in s.table && s.table[Value(r.fd)] == Value(r.id) then
        u == With(s, t, Verified(r.guid, Value(r.fd)))
        && Enabled(u, Send(t)) && Step(u, Send(t)) == s.(readers := s.readers - {t})
      else u == s.(readers := s.readers - {t})
  {
    hide Value;
    var r := s.readers[t];
    assert s.readers[t := Verified(r.guid, Value(r.fd))] - {t} == s.readers - {t};
  }

  /** Step e of relay t makes it r. */
  predicate Makes(s: State, e: Event, t: nat, r: Reader) {
    match e
    case HgetFd(_, guid) => r == ReadFd(guid, FieldsOf(s.records, guid).fd)
    case HgetId(_) =>
      && t in s.readers && s.readers[t].ReadFd?
      && r == ReadBoth(s.readers[t].guid, s.readers[t].fd, FieldsOf(s.records, s.readers[t].guid).id)
    case Check(_) =>
      && t in s.readers && s.readers[t].ReadBoth?
      && var fd := Value(s.readers[t].fd);
         r == Verified(s.readers[t].guid, fd) && fd in s.table && s.table[fd] == Value(s.readers[t].id)
    case _ => false
  }

  /** A relay is what it was, or this step made it so. */
  lemma ReaderChange(s: State, e: Event, t: nat)
    requires Enabled(s, e) && t in Step(s, e).readers
    ensures
      if OfReader(e, t) then Makes(s, e, t, Step(s, e).readers[t])
      else t in s.readers && s.readers[t] == Step(s, e).readers[t]
  {
    hide Enabled, ConnectionStep, WriterStep, ReaderStep, Makes;
    if OnConnections(e) {
      ConnectionStepFrames(s, e);
    } else if OnWriters(e) {
      WriterStepFrames(s, e);
    } else if OfReader(e, t) {
      OwnReaderStep(s, e, t);
    } else {
      OtherReaderStep(s, e, t);
    }
  }

  lemma OwnReaderStep(s: State, e: Event, t: nat)
    requires Enabled(s, e) && OfReader(e, t) && t in Step(s, e).readers
    ensures Makes(s, e, t, Step(s, e).readers[t])
  {
    OwnTurn(s, e, t);
    hide Value, FieldsOf, Step, Enabled;
    if e.HgetFd? {
      ReadingSteps(s, t, e.guid);
    } else if e.HgetId? {
      ReadingSteps(s, t, "");
    } else if e.Check? {
      CheckSends(s, t);
    } else {
      EndingStep(s, e, t);
    }
  }

  lemma OwnTurn(s: State, e: Event, t: nat)
    requires Enabled(s, e) && OfReader(e, t)
    ensures e.HgetFd? ==> e == HgetFd(t, e.guid) && t !in s.readers
    ensures e.HgetId? ==> e == HgetId(t) && t in s.readers && s.readers[t].ReadFd?
    ensures e.Check? ==> e == Check(t) && t in s.readers && s.readers[t].ReadBoth?
  {
  }

  lemma EndingStep(s: State, e: Event, t: nat)
    requires Enabled(s, e) && OfReader(e, t) && (e.HgetFails? || e.Send?)
    ensures t !in Step(s, e).readers
  {
  }

  lemma OtherReaderStep(s: State, e: Event, t: nat)
    requires Enabled(s, e) && !OnConnections(e) && !OnWriters(e) && !OfReader(e, t)
    requires t in Step(s, e).readers
    ensures t in s.readers && s.readers[t] == Step(s, e).readers[t]
  {
    hide Value, FieldsOf, Step;
    if e.HgetFd? {
      ReadingSteps(s, e.t, e.guid);
    } else if e.HgetId? {
      ReadingSteps(s, e.t, "");
    } else if e.Check? {
      CheckSends(s, e.t);
    } else {
      EndingStepFrames(s, e);
    }
  }

  lemma EndingStepFrames(s: State, e: Event)
    requires Enabled(s, e) && (e.HgetFails? || e.Send?)
    ensures Step(s, e).readers == s.readers - {e.t}
  {
  }

  lemma {:induction false} FdWasRead(es: seq<Event>, m: nat, t: nat)
    requires Possible(INIT, es) && m <= |es| && t in StateAt(es, m).readers && StateAt(es, m).readers[t].ReadFd?
    ensures exists i: nat :: FdRead(es, i, m, t, StateAt(es, m).readers[t])
    decreases m
  {
    hide Possible, StateAt, Step, Enabled, Value, FdIn, FieldsOf, OfReader;
    if m == 0 {
      AtStart(es);
    } else {
      var r := StateAt(es, m).readers[t];
      StepAt(es, m - 1);
      ReaderChange(StateAt(es, m - 1), es[m - 1], t);
      if OfReader(es[m - 1], t) {
        FieldValues(StateAt(es, m - 1).records, r.guid);
        ReaderOf(es[m - 1], t);
        assert FdRead(es, m - 1, m, t, r);
      } else {
        FdWasRead(es, m - 1, t);
        var i: nat :| FdRead(es, i, m - 1, t, r);
        assert FdRead(es, i, m, t, r);
      }
    }
  }

  lemma ReaderOf(e: Event, t: nat)
    requires OfReader(e, t)
    ensures e.HgetFd? ==> e == HgetFd(t, e.guid)
    ensures e.HgetId? ==> e == HgetId(t)
    ensures e.Check? ==> e == Check(t)
  {
  }

  lemma {:induction false} BothWereRead(es: seq<Event>, m: nat, t: nat)
    requires Possible(INIT, es) && m <= |es| && t in StateAt(es, m).readers && StateAt(es, m).readers[t].ReadBoth?
    ensures exists i: nat, j: nat :: BothRead(es, i, j, m, t, StateAt(es, m).readers[t])
    decreases m
  {
    hide Possible, StateAt, Step, Enabled, Value, FdIn, IdIn, FieldsOf, OfReader;
    if m == 0 {
      AtStart(es);
    } else {
      var r := StateAt(es, m).readers[t];
      StepAt(es, m - 1);
      ReaderChange(StateAt(es, m - 1), es[m - 1], t);
      if OfReader(es[m - 1], t) {
        FieldValues(StateAt(es, m - 1).records, r.guid);
        ReaderOf(es[m - 1], t);
        FdWasRead(es, m - 1, t);
        var i: nat :| FdRead(es, i, m - 1, t, StateAt(es, m - 1).readers[t]);
        assert BothRead(es, i, m - 1, m, t, r);
      } else {
        BothWereRead(es, m - 1, t);
        var i: nat, j: nat :| BothRead(es, i, j, m - 1, t, r);
        assert BothRead(es, i, j, m, t, r);
      }
    }
  }

  lemma {:induction false} WasChecked(es: seq<Event>, m: nat, t: nat)
    requires Possible(INIT, es) && m <= |es| && t in StateAt(es, m).readers && StateAt(es, m).readers[t].Verified?
    ensures
      var r := StateAt(es, m).readers[t];
      exists i: nat, j: nat, k: nat :: Checked(es, i, j, k, m, t, r.guid, r.sfd)
    decreases m
  {
    hide Possible, StateAt, Step, Enabled, Value, FdIn, IdIn, FieldsOf, OfReader;
    if m == 0 {
      AtStart(es);
    } else {
      var r := StateAt(es, m).readers[t];
      StepAt(es, m - 1);
      ReaderChange(StateAt(es, m - 1), es[m - 1], t);
      if OfReader(es[m - 1], t) {
        ReaderOf(es[m - 1], t);
        BothWereRead(es, m - 1, t);
        var i: nat, j: nat :| BothRead(es, i, j, m - 1, t, StateAt(es, m - 1).readers[t]);
        assert Checked(es, i, j, m - 1, m, t, r.guid, r.sfd);
      } else {
        WasChecked(es, m - 1, t);
        var i: nat, j: nat, k: nat :| Checked(es, i, j, k, m - 1, t, r.guid, r.sfd);
        assert Checked(es, i, j, k, m, t, r.guid, r.sfd);
      }
    }
  }

  /**
   * In every run, a relay that can send has read the fd and the id of the guid, in this order, and then checked
   * that the table holds this fd with this id; these are its last three steps.
   */
  lemma VerifiedWasChecked(es: seq<Event>, t: nat)
    requires Possible(INIT, es) && t in After(INIT, es).readers && After(INIT, es).readers[t].Verified?
    ensures
      var r := After(INIT, es).readers[t];
      exists i: nat, j: nat, k: nat :: Checked(es, i, j, k, |es|, t, r.guid, r.sfd)
  {
    hide Possible, After, StateAt, Checked;
    AtEnd(es);
    WasChecked(es, |es|, t);
  }

  /** So does every send: one passing check allows one send. */
  lemma SendWasChecked(es: seq<Event>, m: nat, t: nat)
    requires Possible(INIT, es) && m < |es| && es[m] == Send(t)
    ensures
      && t in StateAt(es, m).readers && StateAt(es, m).readers[t].Verified?
      && var r := StateAt(es, m).readers[t];
         exists i: nat, j: nat, k: nat :: Checked(es, i, j, k, m, t, r.guid, r.sfd)
  {
    hide Possible, StateAt, Checked, Step;
    StepAt(es, m);
    WasChecked(es, m, t);
  }

  /** A check that finds the pair makes its relay send, one that does not ends it; nothing else changes. */
  lemma CheckDecides(s: State, t: nat)
    requires Enabled(s, Check(t))
    ensures
      var r := s.readers[t];
      && r.ReadBoth?
      && var fd := if r.fd.Field? then Atoi(r.fd.text) else 0;
         var id := if r.id.Field? then Atoi(r.id.text) else 0;
         && (fd in s.table && s.table[fd] == id ==>
               Step(s, Check(t)) == s.(readers := s.readers[t := Verified(r.guid, fd)]))
         && (!(fd in s.table && s.table[fd] == id) ==> Step(s, Check(t)) == s.(readers := s.readers - {t}))
  {
    assert Atoi("") == 0;
    hide Atoi;
  }

  /** A relay that nothing interrupts: it can always go through, and it sends exactly if the table holds the pair. */
  lemma UndisturbedRelay(s: State, t: nat, guid: Guid)
    requires t !in s.readers
    ensures
      var fd, id := FdIn(s.records, guid), IdIn(s.records, guid);
      && Possible(s, [HgetFd(t, guid), HgetId(t), Check(t)])
      && var u := After(s, [HgetFd(t, guid), HgetId(t), Check(t)]);
         if fd in s.table && s.table[fd] == id then
           u == With(s, t, Verified(guid, fd)) && Enabled(u, Send(t)) && Step(u, Send(t)) == s
         else u == s
  {
    hide FdIn, IdIn, Value, FieldsOf, Enabled, Step;
    var r := FieldsOf(s.records, guid);
    FieldValues(s.records, guid);
    var s1 := With(s, t, ReadFd(guid, r.fd));
    var s2 := With(s, t, ReadBoth(guid, r.fd, r.id));
    ReadingSteps(s, t, guid);
    ReadingSteps(s1, t, guid);
    WithTwice(s, t, ReadFd(guid, r.fd), ReadBoth(guid, r.fd, r.id));
    CheckSends(s2, t);
    WithThenWithout(s, t, ReadBoth(guid, r.fd, r.id));
    WithTwice(s, t, ReadBoth(guid, r.fd, r.id), Verified(guid, Value(r.fd)));
    ThreeSteps(s, HgetFd(t, guid), HgetId(t), Check(t));
  }

  lemma ThreeSteps(s: State, a: Event, b: Event, c: Event)
    requires Enabled(s, a) && Enabled(Step(s, a), b) && Enabled(Step(Step(s, a), b), c)
    ensures Possible(s, [a, b, c]) && After(s, [a, b, c]) == Step(Step(Step(s, a), b), c)
  {
    hide Enabled, Step;
    assert [a, b, c][1..] == [b, c] && [b, c][1..] == [c] && [c][1..] == [];
    var v := Step(Step(Step(s, a), b), c);
    assert Possible(v, []) && After(v, []) == v;
    assert Possible(Step(Step(s, a), b), [c]) && After(Step(Step(s, a), b), [c]) == v;
    assert Possible(Step(s, a), [b, c]) && After(Step(s, a), [b, c]) == v;
  }

  // ----- records -----

  /** e is a step of the DEVICE_ONLINE handler in thread t. */
  predicate OfWriter(e: Event, t: nat) {
    match e
    case Online(k, n, guid) => k == t
    case HsetFd(k) => k == t
    case HsetId(k) => k == t
    case HsetFails(k) => k == t
    case _ => false
  }

  predicate WriterRests(es: seq<Event>, from: nat, to: nat, t: nat)
    requires to <= |es|
  {
    forall x :: from <= x < to ==> !OfWriter(es[x], t)
  }

  /** Thread t handles DEVICE_ONLINE of connection n since step i, and has taken no step up to m. */
  predicate Started(es: seq<Event>, i: nat, m: nat, t: nat, n: nat, guid: Guid)
    requires m <= |es|
  {
    i < m && es[i] == Online(t, n, guid) && WriterRests(es, i + 1, m, t)
  }

  /** Thread t writes the fd of connection n under guid at step k. */
  predicate WritesFd(es: seq<Event>, k: nat, t: nat, n: nat, guid: Guid) {
    k < |es| && es[k] == HsetFd(t) && exists i: nat :: i < k && Started(es, i, k, t, n, guid)
  }

  /** Thread t, having written the fd, writes the id of connection n under guid at step k. */
  predicate WritesId(es: seq<Event>, k: nat, t: nat, n: nat, guid: Guid) {
    && k < |es| && es[k] == HsetId(t)
    && exists j: nat :: j < k && WriterRests(es, j + 1, k, t) && WritesFd(es, j, t, n, guid)
  }

  lemma WriterChange(s: State, e: Event, t: nat)
    requires Enabled(s, e) && t in Step(s, e).writers
    ensures
      var w := Step(s, e).writers[t];
      if !OfWriter(e, t) then t in s.writers && s.writers[t] == w
      else if e.Online? then e == Online(t, e.n, e.guid) && w == WritingFd(e.n, e.guid)
      else
        && e == HsetFd(t) && t in s.writers && s.writers[t].WritingFd?
        && w == WritingId(s.writers[t].conn, s.writers[t].guid)
  {
    hide ConnectionStep, ReaderStep, IntText, FieldsOf;
    if OnConnections(e) {
      ConnectionStepFrames(s, e);
    } else if !OnWriters(e) {
      ReaderStepFrames(s, e);
    }
  }

  lemma {:induction false} WasStarted(es: seq<Event>, m: nat, t: nat)
    requires Possible(INIT, es) && m <= |es| && t in StateAt(es, m).writers && StateAt(es, m).writers[t].WritingFd?
    ensures
      var w := StateAt(es, m).writers[t];
      exists i: nat :: Started(es, i, m, t, w.conn, w.guid)
    decreases m
  {
    hide Possible, StateAt, Step, Enabled, OfWriter;
    if m == 0 {
      AtStart(es);
    } else {
      var w := StateAt(es, m).writers[t];
      StepAt(es, m - 1);
      WriterChange(StateAt(es, m - 1), es[m - 1], t);
      if OfWriter(es[m - 1], t) {
        assert Started(es, m - 1, m, t, w.conn, w.guid);
      } else {
        WasStarted(es, m - 1, t);
        var i: nat :| Started(es, i, m - 1, t, w.conn, w.guid);
        assert Started(es, i, m, t, w.conn, w.guid);
      }
    }
  }

  lemma {:induction false} WroteFd(es: seq<Event>, m: nat, t: nat)
    requires Possible(INIT, es) && m <= |es| && t in StateAt(es, m).writers && StateAt(es, m).writers[t].WritingId?
    ensures
      var w := StateAt(es, m).writers[t];
      exists j: nat :: j < m && WriterRests(es, j + 1, m, t) && WritesFd(es, j, t, w.conn, w.guid)
    decreases m
  {
    hide Possible, StateAt, Step, Enabled, OfWriter, WritesFd;
    if m == 0 {
      AtStart(es);
    } else {
      var w := StateAt(es, m).writers[t];
      StepAt(es, m - 1);
      WriterChange(StateAt(es, m - 1), es[m - 1], t);
      if OfWriter(es[m - 1], t) {
        WasStarted(es, m - 1, t);
        assert WritesFd(es, m - 1, t, w.conn, w.guid) by {
          WriteOf(es, m - 1, t, w.conn, w.guid);
        }
      } else {
        WroteFd(es, m - 1, t);
        var j: nat :| j < m - 1 && WriterRests(es, j + 1, m - 1, t) && WritesFd(es, j, t, w.conn, w.guid);
        assert j < m && WriterRests(es, j + 1, m, t) && WritesFd(es, j, t, w.conn, w.guid);
      }
    }
  }

  lemma WriteOf(es: seq<Event>, k: nat, t: nat, n: nat, guid: Guid)
    requires k < |es| && es[k] == HsetFd(t) && exists i: nat :: Started(es, i, k, t, n, guid)
    ensures WritesFd(es, k, t, n, guid)
  {
  }

  lemma StartsOnce(es: seq<Event>, i: nat, j: nat, k: nat, t: nat, m: nat, n: nat, g: Guid, h: Guid)
    requires k <= |es| && Started(es, i, k, t, m, g) && Started(es, j, k, t, n, h)
    ensures m == n && g == h
  {
    assert OfWriter(es[i], t) && OfWriter(es[j], t);
    assert i == j;
  }

  /** Who writes an fd is what its thread is in the state before. */
  lemma WriterOfFd(es: seq<Event>, k: nat, t: nat)
    requires Possible(INIT, es) && k < |es| && es[k] == HsetFd(t)
    ensures t in StateAt(es, k).writers && StateAt(es, k).writers[t].WritingFd?
    ensures
      var w := StateAt(es, k).writers[t];
      forall n: nat, g: Guid :: WritesFd(es, k, t, n, g) <==> n == w.conn && g == w.guid
  {
    hide Possible, StateAt, Step, Started;
    StepAt(es, k);
    WasStarted(es, k, t);
    var w := StateAt(es, k).writers[t];
    WriteOf(es, k, t, w.conn, w.guid);
    forall n: nat, g: Guid | WritesFd(es, k, t, n, g)
      ensures n == w.conn && g == w.guid
    {
      var i: nat :| Started(es, i, k, t, n, g);
      var j: nat :| Started(es, j, k, t, w.conn, w.guid);
      StartsOnce(es, i, j, k, t, n, w.conn, g, w.guid);
    }
  }

  lemma WritesOnce(es: seq<Event>, i: nat, j: nat, k: nat, t: nat, m: nat, n: nat, g: Guid, h: Guid)
    requires Possible(INIT, es) && k <= |es| && i < k && j < k
    requires WriterRests(es, i + 1, k, t) && WriterRests(es, j + 1, k, t)
    requires WritesFd(es, i, t, m, g) && WritesFd(es, j, t, n, h)
    ensures m == n && g == h
  {
    hide Possible, StateAt, Started;
    assert OfWriter(es[i], t) && OfWriter(es[j], t);
    assert i == j;
    WriterOfFd(es, i, t);
  }

  lemma WriterOfId(es: seq<Event>, k: nat, t: nat)
    requires Possible(INIT, es) && k < |es| && es[k] == HsetId(t)
    ensures t in StateAt(es, k).writers && StateAt(es, k).writers[t].WritingId?
    ensures
      var w := StateAt(es, k).writers[t];
      forall n: nat, g: Guid :: WritesId(es, k, t, n, g) <==> n == w.conn && g == w.guid
  {
    hide Possible, StateAt, Step, WritesFd, WriterRests;
    StepAt(es, k);
    WroteFd(es, k, t);
    var w := StateAt(es, k).writers[t];
    forall n: nat, g: Guid | WritesId(es, k, t, n, g)
      ensures n == w.conn && g == w.guid
    {
      var i: nat :| i < k && WriterRests(es, i + 1, k, t) && WritesFd(es, i, t, n, g);
      var j: nat :| j < k && WriterRests(es, j + 1, k, t) && WritesFd(es, j, t, w.conn, w.guid);
      WritesOnce(es, i, j, k, t, n, w.conn, g, w.guid);
    }
  }

  lemma FieldChange(s: State, e: Event, guid: Guid)
    requires Enabled(s, e)
    ensures
      var before := FieldsOf(s.records, guid); var after := FieldsOf(Step(s, e).records, guid);
      && (if e.HsetFd? && s.writers[e.t].guid == guid
          then after.fd.Field? && after.fd.author == s.writers[e.t].conn else after.fd == before.fd)
      && (if e.HsetId? && s.writers[e.t].guid == guid
          then after.id.Field? && after.id.author == s.writers[e.t].conn else after.id == before.id)
  {
    hide ConnectionStep, ReaderStep, IntText;
    if OnConnections(e) {
      ConnectionStepFrames(s, e);
    } else if !OnWriters(e) {
      ReaderStepFrames(s, e);
    }
  }

  /** f is what the last write of an fd under guid before step m left, or there was none. */
  ghost predicate LastFd(es: seq<Event>, m: nat, guid: Guid, f: Field) {
    if f.Nil? then forall k: nat, t: nat, n: nat :: k < m ==> !WritesFd(es, k, t, n, guid)
    else exists k: nat, t: nat :: k < m && WritesFd(es, k, t, f.author, guid) &&
           forall l: nat, u: nat, n: nat :: k < l < m ==> !WritesFd(es, l, u, n, guid)
  }

  ghost predicate LastId(es: seq<Event>, m: nat, guid: Guid, f: Field) {
    if f.Nil? then forall k: nat, t: nat, n: nat :: k < m ==> !WritesId(es, k, t, n, guid)
    else exists k: nat, t: nat :: k < m && WritesId(es, k, t, f.author, guid) &&
           forall l: nat, u: nat, n: nat :: k < l < m ==> !WritesId(es, l, u, n, guid)
  }

  lemma FdChange(es: seq<Event>, k: nat, guid: Guid)
    requires Possible(INIT, es) && k < |es|
    ensures
      var f, g := FieldsOf(StateAt(es, k).records, guid).fd, FieldsOf(StateAt(es, k + 1).records, guid).fd;
      || (g.Field? && exists t: nat :: WritesFd(es, k, t, g.author, guid))
      || (f == g && forall t: nat, n: nat :: !WritesFd(es, k, t, n, guid))
  {
    hide Possible, StateAt, Step, Enabled, WritesFd, FieldsOf;
    StepAt(es, k);
    FieldChange(StateAt(es, k), es[k], guid);
    OthersWriteNoFd(es, k);
    if es[k].HsetFd? {
      WriterOfFd(es, k, es[k].t);
      var w := StateAt(es, k).writers[es[k].t];
      assert WritesFd(es, k, es[k].t, w.conn, w.guid);
    }
  }

  lemma LastFdNext(es: seq<Event>, m: nat, guid: Guid, f: Field, g: Field)
    requires m < |es| && LastFd(es, m, guid, f)
    requires
      || (g.Field? && exists t: nat :: WritesFd(es, m, t, g.author, guid))
      || (f == g && forall t: nat, n: nat :: !WritesFd(es, m, t, n, guid))
    ensures LastFd(es, m + 1, guid, g)
  {
    hide WritesFd;
    if f == g && forall t: nat, n: nat :: !WritesFd(es, m, t, n, guid) {
    } else {
      var t: nat :| WritesFd(es, m, t, g.author, guid);
      assert forall l: nat, u: nat, n: nat :: m < l < m + 1 ==> !WritesFd(es, l, u, n, guid);
    }
  }

  lemma {:induction false} FdIsLast(es: seq<Event>, m: nat, guid: Guid)
    requires Possible(INIT, es) && m <= |es|
    ensures LastFd(es, m, guid, FieldsOf(StateAt(es, m).records, guid).fd)
    decreases m
  {
    hide Possible, StateAt, Step, Enabled, WritesFd, FieldsOf;
    if m == 0 {
      AtStart(es);
      NoRecord(guid);
    } else {
      FdIsLast(es, m - 1, guid);
      FdChange(es, m - 1, guid);
      var f, g := FieldsOf(StateAt(es, m - 1).records, guid).fd, FieldsOf(StateAt(es, m).records, guid).fd;
      LastFdNext(es, m - 1, guid, f, g);
    }
  }

  lemma OthersWriteNoFd(es: seq<Event>, k: nat)
    requires k < |es|
    ensures forall t: nat, n: nat, g: Guid :: WritesFd(es, k, t, n, g) ==> es[k] == HsetFd(t)
  {
  }

  lemma NoRecord(guid: Guid)
    ensures FieldsOf(INIT.records, guid) == Record(Nil, Nil)
  {
  }

  lemma OthersWriteNoId(es: seq<Event>, k: nat)
    requires k < |es|
    ensures forall t: nat, n: nat, g: Guid :: WritesId(es, k, t, n, g) ==> es[k] == HsetId(t)
  {
  }

  lemma IdChange(es: seq<Event>, k: nat, guid: Guid)
    requires Possible(INIT, es) && k < |es|
    ensures
      var f, g := FieldsOf(StateAt(es, k).records, guid).id, FieldsOf(StateAt(es, k + 1).records, guid).id;
      || (g.Field? && exists t: nat :: WritesId(es, k, t, g.author, guid))
      || (f == g && forall t: nat, n: nat :: !WritesId(es, k, t, n, guid))
  {
    hide Possible, StateAt, Step, Enabled, WritesId, FieldsOf;
    StepAt(es, k);
    FieldChange(StateAt(es, k), es[k], guid);
    OthersWriteNoId(es, k);
    if es[k].HsetId? {
      WriterOfId(es, k, es[k].t);
      var w := StateAt(es, k).writers[es[k].t];
      assert WritesId(es, k, es[k].t, w.conn, w.guid);
    }
  }

  lemma LastIdNext(es: seq<Event>, m: nat, guid: Guid, f: Field, g: Field)
    requires m < |es| && LastId(es, m, guid, f)
    requires
      || (g.Field? && exists t: nat :: WritesId(es, m, t, g.author, guid))
      || (f == g && forall t: nat, n: nat :: !WritesId(es, m, t, n, guid))
    ensures LastId(es, m + 1, guid, g)
  {
    hide WritesId;
    if f == g && forall t: nat, n: nat :: !WritesId(es, m, t, n, guid) {
    } else {
      var t: nat :| WritesId(es, m, t, g.author, guid);
      assert forall l: nat, u: nat, n: nat :: m < l < m + 1 ==> !WritesId(es, l, u, n, guid);
    }
  }

  lemma {:induction false} IdIsLast(es: seq<Event>, m: nat, guid: Guid)
    requires Possible(INIT, es) && m <= |es|
    ensures LastId(es, m, guid, FieldsOf(StateAt(es, m).records, guid).id)
    decreases m
  {
    hide Possible, StateAt, Step, Enabled, WritesId, FieldsOf;
    if m == 0 {
      AtStart(es);
      NoRecord(guid);
    } else {
      IdIsLast(es, m - 1, guid);
      IdChange(es, m - 1, guid);
      var f, g := FieldsOf(StateAt(es, m - 1).records, guid).id, FieldsOf(StateAt(es, m).records, guid).id;
      LastIdNext(es, m - 1, guid, f, g);
    }
  }

  /**
   * In every run, each field of a record is the one that the last handler wrote there, and reads as its
   * connection's fd or id; a field that no handler wrote is missing.
   */
  lemma RecordIsLastWritten(es: seq<Event>, guid: Guid)
    requires Possible(INIT, es)
    ensures
      var s := After(INIT, es); var r := FieldsOf(s.records, guid);
      && LastFd(es, |es|, guid, r.fd) && LastId(es, |es|, guid, r.id)
      && (r.fd.Field? ==> r.fd.author < |s.accepted| && Atoi(r.fd.text) == s.accepted[r.fd.author].fd)
      && (r.id.Field? ==> r.id.author < |s.accepted| && Atoi(r.id.text) == s.accepted[r.id.author].id)
  {
    hide Possible, After, StateAt, LastFd, LastId, FieldsOf, Atoi, IntText;
    FdIsLast(es, |es|, guid);
    IdIsLast(es, |es|, guid);
    AtEnd(es);
    InvAtStart();
    RunKeepsInv(INIT, es);
    FieldTexts(After(INIT, es), guid);
  }

  lemma InvAtStart()
    ensures Inv(INIT)
  {
  }

  lemma FieldTexts(s: State, guid: Guid)
    requires Inv(s)
    ensures
      var r := FieldsOf(s.records, guid);
      && (r.fd.Field? ==> r.fd.author < |s.accepted| && Atoi(r.fd.text) == s.accepted[r.fd.author].fd)
      && (r.id.Field? ==> r.id.author < |s.accepted| && Atoi(r.id.text) == s.accepted[r.id.author].id)
  {
    hide Atoi, IntText, IdOf;
    FieldsAreOk(s, guid);
    var r := FieldsOf(s.records, guid);
    if r.fd.Field? {
      AtoiIntText(s.accepted[r.fd.author].fd);
    }
    if r.id.Field? {
      AtoiIntText(s.accepted[r.id.author].id);
    }
  }
}
