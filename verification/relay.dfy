/**
 * Relaying a message to a device whose socket number may have been reused: the interleaved steps of the
 * accepting thread, the worker threads, the DEVICE_ONLINE writers and the relay readers of imDevServer.
 */
module Relay {
  import opened Decimal
  import opened ThreadSafeMap

  type Guid = string

  /** The conn object: the socket and the id it was accepted with. */
  datatype Conn = Conn(fd: int, id: int)

  /** The ids cycle through 0..65536. */
  const CYCLE: nat := 65537

  function NextId(id: int): int {
    if id > 65535 then 0 else id + 1
  }

  /** The id of the n-th accepted connection, counting from 0: the counter starts at 0 and is stepped first. */
  function IdOf(n: nat): nat {
    (n + 1) % CYCLE
  }

  /** A hash field in Redis, with the serial number of the connection that wrote it (history). */
  datatype Field = Nil | Field(text: string, author: nat)

  datatype Record = Record(fd: Field, id: Field)

  /** A DEVICE_ONLINE handler that is about to write its fd, and then its id. */
  datatype Writer = WritingFd(conn: nat, guid: Guid) | WritingId(conn: nat, guid: Guid)

  /** A relay that has read the fd, then the id, then passed the table check. */
  datatype Reader =
    | ReadFd(guid: Guid, fd: Field)
    | ReadBoth(guid: Guid, fd: Field, id: Field)
    | Verified(guid: Guid, sfd: int)

  datatype State = State(
    accepted: seq<Conn>,         // every connection ever accepted, by serial number (history)
    id: int,                     // CNetCore::id_
    inserting: bool,             // the last accepted connection is not in the table yet
    table: map<int, int>,        // CNetCore::map_csfd_id_
    owner: map<int, nat>,        // whose insertion each table entry is (history)
    open: map<int, nat>,         // the connection behind each open fd
    served: set<nat>,            // connections with a conn object
    refused: set<nat>,           // connections closed because conn_new failed
    closing: set<nat>,           // served connections whose table entry is erased
    issued: set<(nat, Guid)>,    // DEVICE_ONLINE messages handled (history)
    records: map<Guid, Record>,
    writers: map<nat, Writer>,
    readers: map<nat, Reader>)

  const INIT := State([], 0, false, map[], map[], map[], {}, {}, {}, {}, map[], map[], map[])

  datatype Event =
    | Accept(fd: nat)                          // accept() returns fd; the counter is stepped
    | Insert                                   // map_csfd_id_.insert, then dispatch to a worker
    | Serve(n: nat)                            // conn_new succeeds
    | Refuse(n: nat)                           // conn_new fails: the fd is closed, its entry stays
    | Online(t: nat, n: nat, guid: Guid)       // thread t starts DEVICE_ONLINE for connection n
    | HsetFd(t: nat)
    | HsetId(t: nat)
    | HsetFails(t: nat)                        // a failing command ends the handler
    | EraseEntry(n: nat)                       // the close handler erases the table entry
    | CloseFd(n: nat)                          // and closes the fd
    | HgetFd(t: nat, guid: Guid)
    | HgetId(t: nat)
    | HgetFails(t: nat)
    | Check(t: nat)                            // findValueByKey
    | Send(t: nat)

  function FieldsOf(records: map<Guid, Record>, guid: Guid): Record {
    if guid in records then records[guid] else Record(Nil, Nil)
  }

  /** A missing field is an empty reply, which counts as success; atoi makes it 0. */
  function Value(f: Field): int {
    if f.Nil? then Atoi("") else Atoi(f.text)
  }

  predicate IsOpen(s: State, n: nat) {
    n < |s.accepted| && s.accepted[n].fd in s.open && s.open[s.accepted[n].fd] == n
  }

  /** findValueByKey on the two values read. */
  predicate Passes(s: State, r: Reader)
    requires r.ReadBoth?
  {
    Value(r.fd) in s.table && s.table[Value(r.fd)] == Value(r.id)
  }

  predicate Enabled(s: State, e: Event) {
    match e
    case Accept(fd) => !s.inserting && fd !in s.open
    case Insert => s.inserting && s.accepted != []
    case Serve(n) => IsOpen(s, n) && n !in s.served + s.refused && !(s.inserting && n == |s.accepted| - 1)
    case Refuse(n) => IsOpen(s, n) && n !in s.served + s.refused && !(s.inserting && n == |s.accepted| - 1)
    case Online(t, n, guid) => IsOpen(s, n) && n in s.served - s.closing && t !in s.writers
    case HsetFd(t) => t in s.writers && s.writers[t].WritingFd? && s.writers[t].conn < |s.accepted|
    case HsetId(t) => t in s.writers && s.writers[t].WritingId? && s.writers[t].conn < |s.accepted|
    case HsetFails(t) => t in s.writers
    case EraseEntry(n) => IsOpen(s, n) && n in s.served - s.closing
    case CloseFd(n) => IsOpen(s, n) && n in s.closing
    case HgetFd(t, guid) => t !in s.readers
    case HgetId(t) => t in s.readers && s.readers[t].ReadFd?
    case HgetFails(t) => t in s.readers && !s.readers[t].Verified?
    case Check(t) => t in s.readers && s.readers[t].ReadBoth?
    case Send(t) => t in s.readers && s.readers[t].Verified?
  }

  /** Steps of the accepting thread and of the open and close handlers. */
  predicate OnConnections(e: Event) {
    e.Accept? || e.Insert? || e.Serve? || e.Refuse? || e.EraseEntry? || e.CloseFd?
  }

  /** Steps of the DEVICE_ONLINE handlers; the remaining ones are those of the relays. */
  predicate OnWriters(e: Event) {
    e.Online? || e.HsetFd? || e.HsetId? || e.HsetFails?
  }

  function ConnectionStep(s: State, e: Event): State
    requires Enabled(s, e) && OnConnections(e)
  {
    match e
    case Accept(fd) =>
      s.(accepted := s.accepted + [Conn(fd, NextId(s.id))], id := NextId(s.id), inserting := true,
         open := s.open[fd := |s.accepted|])
    case Insert =>
      var n := |s.accepted| - 1;
      var fd := s.accepted[n].fd;
      s.(inserting := false, table := Inserted(s.table, fd, s.id), owner := Inserted(s.owner, fd, n))
    case Serve(n) => s.(served := s.served + {n})
    case Refuse(n) => s.(refused := s.refused + {n}, open := s.open - {s.accepted[n].fd})
    case EraseEntry(n) =>
      var fd := s.accepted[n].fd;
      s.(table := s.table - {fd}, owner := s.owner - {fd}, closing := s.closing + {n})
    case CloseFd(n) => s.(open := s.open - {s.accepted[n].fd})
  }

  function WriterStep(s: State, e: Event): State
    requires Enabled(s, e) && OnWriters(e)
  {
    match e
    case Online(t, n, guid) =>
      s.(issued := s.issued + {(n, guid)}, writers := s.writers[t := WritingFd(n, guid)])
    case HsetFd(t) =>
      var w := s.writers[t];
      var r := FieldsOf(s.records, w.guid).(fd := Field(IntText(s.accepted[w.conn].fd), w.conn));
      s.(records := s.records[w.guid := r], writers := s.writers[t := WritingId(w.conn, w.guid)])
    case HsetId(t) =>
      var w := s.writers[t];
      var r := FieldsOf(s.records, w.guid).(id := Field(IntText(s.accepted[w.conn].id), w.conn));
      s.(records := s.records[w.guid := r], writers := s.writers - {t})
    case HsetFails(t) => s.(writers := s.writers - {t})
  }

  function ReaderStep(s: State, e: Event): State
    requires Enabled(s, e) && !OnConnections(e) && !OnWriters(e)
  {
    match e
    case HgetFd(t, guid) => s.(readers := s.readers[t := ReadFd(guid, FieldsOf(s.records, guid).fd)])
    case HgetId(t) =>
      var r := s.readers[t];
      s.(readers := s.readers[t := ReadBoth(r.guid, r.fd, FieldsOf(s.records, r.guid).id)])
    case HgetFails(t) => s.(readers := s.readers - {t})
    case Check(t) =>
      var r := s.readers[t];
      if Passes(s, r) then s.(readers := s.readers[t := Verified(r.guid, Value(r.fd))])
      else s.(readers := s.readers - {t})
    case Send(t) => s.(readers := s.readers - {t})
  }

  function Step(s: State, e: Event): State
    requires Enabled(s, e)
  {
    if OnConnections(e) then ConnectionStep(s, e)
    else if OnWriters(e) then WriterStep(s, e)
    else ReaderStep(s, e)
  }

  predicate Possible(s: State, es: seq<Event>)
    decreases |es|
  {
    es == [] || (Enabled(s, es[0]) && Possible(Step(s, es[0]), es[1..]))
  }

  function After(s: State, es: seq<Event>): State
    requires Possible(s, es)
    decreases |es|
  {
    if es == [] then s else After(Step(s, es[0]), es[1..])
  }

  // ----- the invariant -----

  ghost predicate FdFieldOk(s: State, f: Field, guid: Guid) {
    f.Field? ==> (f.author, guid) in s.issued && f.author < |s.accepted| && f.text == IntText(s.accepted[f.author].fd)
  }

  ghost predicate IdFieldOk(s: State, f: Field, guid: Guid) {
    f.Field? ==> (f.author, guid) in s.issued && f.author < |s.accepted| && f.text == IntText(IdOf(f.author))
  }

  ghost predicate ReaderOk(s: State, r: Reader) {
    match r
    case ReadFd(guid, fd) => FdFieldOk(s, fd, guid)
    case ReadBoth(guid, fd, id) => FdFieldOk(s, fd, guid) && IdFieldOk(s, id, guid)
    case Verified(guid, sfd) => true
  }

  ghost predicate ConnectionsOk(s: State) {
    && s.id == (if s.accepted == [] then 0 else IdOf(|s.accepted| - 1))
    && (forall n :: 0 <= n < |s.accepted| ==> s.accepted[n].id == IdOf(n))
    && (s.inserting ==> s.accepted != [] && IsOpen(s, |s.accepted| - 1) && |s.accepted| - 1 !in s.served + s.refused)
    && (forall fd :: fd in s.open ==> s.open[fd] < |s.accepted| && s.accepted[s.open[fd]].fd == fd)
    && (forall n :: n in s.served ==> n < |s.accepted| && n !in s.refused)
    && (forall n :: n in s.refused ==> n < |s.accepted|)
    && s.closing <= s.served
  }

  /** Every entry is its owner's, and unless the owner was refused, the owner is what the fd is open for. */
  ghost predicate TableOk(s: State) {
    && s.table.Keys == s.owner.Keys
    && (forall fd :: fd in s.owner ==>
          && s.owner[fd] < |s.accepted| && s.accepted[s.owner[fd]].fd == fd && s.table[fd] == IdOf(s.owner[fd])
          && (s.owner[fd] !in s.refused ==> fd in s.open && s.open[fd] == s.owner[fd]))
    && (forall n :: n in s.closing && IsOpen(s, n) ==> s.accepted[n].fd !in s.table)
  }

  ghost predicate RegistrationsOk(s: State) {
    && (forall n, g :: (n, g) in s.issued ==> n in s.served)
    && (forall t :: t in s.writers ==> (s.writers[t].conn, s.writers[t].guid) in s.issued)
    && (forall g :: g in s.records ==> FdFieldOk(s, s.records[g].fd, g) && IdFieldOk(s, s.records[g].id, g))
    && (forall t :: t in s.readers ==> ReaderOk(s, s.readers[t]))
  }

  ghost predicate Inv(s: State) {
    ConnectionsOk(s) && TableOk(s) && RegistrationsOk(s)
  }

  lemma NextIdCycles(n: nat)
    ensures NextId(IdOf(n)) == IdOf(n + 1)
  {
  }

  lemma AcceptKeepsConnections(s: State, fd: nat)
    requires ConnectionsOk(s) && Enabled(s, Accept(fd))
    ensures ConnectionsOk(Step(s, Accept(fd)))
  {
    hide IdOf, NextId;
    if s.accepted != [] {
      NextIdCycles(|s.accepted| - 1);
    }
    FirstId();
  }

  lemma FirstId()
    ensures NextId(0) == IdOf(0)
  {
  }

  lemma StepKeepsConnections(s: State, e: Event)
    requires ConnectionsOk(s) && Enabled(s, e) && OnConnections(e)
    ensures ConnectionsOk(Step(s, e))
  {
    hide IdOf, NextId;
    if e.Accept? {
      hide Step, Enabled, ConnectionsOk;
      AcceptKeepsConnections(s, e.fd);
    }
  }

  lemma AcceptKeepsTable(s: State, fd: nat)
    requires ConnectionsOk(s) && TableOk(s) && Enabled(s, Accept(fd))
    ensures TableOk(Step(s, Accept(fd)))
  {
    hide IdOf, NextId;
  }

  lemma InsertKeepsTable(s: State)
    requires ConnectionsOk(s) && TableOk(s) && Enabled(s, Insert)
    ensures TableOk(Step(s, Insert))
  {
    hide IdOf, NextId;
  }

  lemma OpeningKeepsTable(s: State, e: Event)
    requires ConnectionsOk(s) && TableOk(s) && Enabled(s, e) && (e.Serve? || e.Refuse?)
    ensures TableOk(Step(s, e))
  {
    hide IdOf, NextId;
  }

  lemma ClosingKeepsTable(s: State, e: Event)
    requires ConnectionsOk(s) && TableOk(s) && Enabled(s, e) && (e.EraseEntry? || e.CloseFd?)
    ensures TableOk(Step(s, e))
  {
    hide IdOf, NextId;
  }

  lemma StepKeepsTable(s: State, e: Event)
    requires ConnectionsOk(s) && TableOk(s) && Enabled(s, e) && OnConnections(e)
    ensures TableOk(Step(s, e))
  {
    hide Step, Enabled, ConnectionsOk, TableOk;
    match e {
      case Accept(fd) => AcceptKeepsTable(s, fd);
      case Insert => InsertKeepsTable(s);
      case Serve(n) => OpeningKeepsTable(s, e);
      case Refuse(n) => OpeningKeepsTable(s, e);
      case EraseEntry(n) => ClosingKeepsTable(s, e);
      case CloseFd(n) => ClosingKeepsTable(s, e);
    }
  }

  /** Opening and closing do not touch registrations and relays. */
  lemma ConnectionStepFrames(s: State, e: Event)
    requires Enabled(s, e) && OnConnections(e)
    ensures
      var s1 := Step(s, e);
      && s1.issued == s.issued && s1.records == s.records && s1.writers == s.writers && s1.readers == s.readers
      && s.accepted <= s1.accepted && s.served <= s1.served
  {
    hide NextId, WriterStep, ReaderStep;
  }

  lemma StepOnlyGrows(s: State, e: Event)
    requires RegistrationsOk(s) && Enabled(s, e) && OnConnections(e)
    ensures RegistrationsOk(Step(s, e))
  {
    hide IdOf, IntText, Enabled, Step;
    ConnectionStepFrames(s, e);
  }

  lemma WriterStepFrames(s: State, e: Event)
    requires Enabled(s, e) && OnWriters(e)
    ensures
      var s1 := WriterStep(s, e);
      s1.issued >= s.issued
      && s1 == s.(issued := s1.issued, records := s1.records, writers := s1.writers)
  {
    hide IntText, FieldsOf;
  }

  lemma ReaderStepFrames(s: State, e: Event)
    requires Enabled(s, e) && !OnConnections(e) && !OnWriters(e)
    ensures ReaderStep(s, e) == s.(readers := ReaderStep(s, e).readers)
  {
    hide FieldsOf, Value, Passes;
  }

  /** Registrations and relays do not touch the connections. */
  lemma StepFrames(s: State, e: Event)
    requires Enabled(s, e) && !OnConnections(e)
    ensures
      var s1 := Step(s, e);
      && s1.accepted == s.accepted && s1.id == s.id && s1.inserting == s.inserting && s1.open == s.open
      && s1.table == s.table && s1.owner == s.owner
      && s1.served == s.served && s1.refused == s.refused && s1.closing == s.closing
      && s.issued <= s1.issued
  {
    hide Enabled, WriterStep, ReaderStep;
    if OnWriters(e) {
      WriterStepFrames(s, e);
    } else {
      ReaderStepFrames(s, e);
    }
  }

  lemma WriterStepKeepsRegistrations(s: State, e: Event)
    requires ConnectionsOk(s) && RegistrationsOk(s) && Enabled(s, e) && OnWriters(e)
    ensures
      var s1 := WriterStep(s, e);
      && (forall n, g :: (n, g) in s1.issued ==> n in s1.served)
      && (forall t :: t in s1.writers ==> (s1.writers[t].conn, s1.writers[t].guid) in s1.issued)
      && (forall g :: g in s1.records ==> FdFieldOk(s1, s1.records[g].fd, g) && IdFieldOk(s1, s1.records[g].id, g))
  {
    hide IdOf, NextId, IntText, ReaderOk;
  }

  lemma WriterStepKeepsReaders(s: State, e: Event)
    requires RegistrationsOk(s) && Enabled(s, e) && OnWriters(e)
    ensures forall t :: t in WriterStep(s, e).readers ==> ReaderOk(WriterStep(s, e), WriterStep(s, e).readers[t])
  {
    hide IdOf, IntText, Enabled, WriterStep;
    WriterStepFrames(s, e);
  }

  lemma FieldsAreOk(s: State, guid: Guid)
    requires RegistrationsOk(s)
    ensures FdFieldOk(s, FieldsOf(s.records, guid).fd, guid) && IdFieldOk(s, FieldsOf(s.records, guid).id, guid)
  {
    hide IdOf, IntText, ReaderOk;
  }

  lemma ReadsAreOk(s: State, e: Event)
    requires RegistrationsOk(s) && Enabled(s, e) && !OnConnections(e) && !OnWriters(e)
    ensures forall t :: t in ReaderStep(s, e).readers ==> ReaderOk(s, ReaderStep(s, e).readers[t])
  {
    hide FdFieldOk, IdFieldOk, FieldsOf, Value, Passes;
    if e.HgetFd? {
      FieldsAreOk(s, e.guid);
    } else if e.HgetId? {
      FieldsAreOk(s, s.readers[e.t].guid);
    }
  }

  lemma ReaderStepKeepsRegistrations(s: State, e: Event)
    requires RegistrationsOk(s) && Enabled(s, e) && !OnConnections(e) && !OnWriters(e)
    ensures RegistrationsOk(ReaderStep(s, e))
  {
    hide IdOf, IntText, Enabled, ReaderStep;
    ReaderStepFrames(s, e);
    ReadsAreOk(s, e);
  }

  lemma StepKeepsRegistrations(s: State, e: Event)
    requires ConnectionsOk(s) && RegistrationsOk(s) && Enabled(s, e)
    ensures RegistrationsOk(Step(s, e))
  {
    hide ConnectionStep, WriterStep, ReaderStep, Enabled, ConnectionsOk, FdFieldOk, IdFieldOk, ReaderOk;
    if OnConnections(e) {
      StepOnlyGrows(s, e);
    } else if OnWriters(e) {
      WriterStepKeepsRegistrations(s, e);
      WriterStepKeepsReaders(s, e);
    } else {
      ReaderStepKeepsRegistrations(s, e);
    }
  }

  lemma StepKeepsInv(s: State, e: Event)
    requires Inv(s) && Enabled(s, e)
    ensures Inv(Step(s, e))
  {
    hide Enabled, Step, RegistrationsOk;
    StepKeepsRegistrations(s, e);
    if OnConnections(e) {
      hide ConnectionsOk, TableOk;
      StepKeepsConnections(s, e);
      StepKeepsTable(s, e);
    } else {
      StepFrames(s, e);
    }
  }

  lemma {:induction false} RunKeepsInv(s: State, es: seq<Event>)
    requires Inv(s) && Possible(s, es)
    ensures Inv(After(s, es))
    decreases |es|
  {
    hide Enabled, Step, Inv;
    if es != [] {
      StepKeepsInv(s, es[0]);
      RunKeepsInv(Step(s, es[0]), es[1..]);
    }
  }
}
