/** What a successful VerifyDeviceSfd means, and exactly when it can be wrong. */
module RelaySafety {
  import opened Decimal
  import opened Relay

  /** Fewer than 65537 connections were accepted from one of m and n to the other. */
  predicate Near(m: int, n: int) {
    m < n + CYCLE && n < m + CYCLE
  }

  lemma NearDiffer(m: int, n: int)
    ensures m % CYCLE == n % CYCLE && Near(m, n) <==> m == n
  {
  }

  /** Any two of the last 65537 connections are near each other. */
  lemma RecentAreNear(s: State, m: nat, n: nat)
    requires m < |s.accepted| <= m + CYCLE && n < |s.accepted| <= n + CYCLE
    ensures Near(m, n)
  {
  }

  lemma ReplyValue(s: State, f: Field, guid: Guid)
    ensures f.Nil? ==> Value(f) == 0
    ensures FdFieldOk(s, f, guid) && f.Field? ==> Value(f) == s.accepted[f.author].fd
    ensures IdFieldOk(s, f, guid) && f.Field? ==> Value(f) == IdOf(f.author)
  {
    hide IntText;
    if FdFieldOk(s, f, guid) && f.Field? {
      AtoiIntText(s.accepted[f.author].fd);
    }
    if IdFieldOk(s, f, guid) && f.Field? {
      AtoiIntText(IdOf(f.author));
    }
  }

  ghost predicate Checking(s: State, t: nat) {
    t in s.readers && s.readers[t].ReadBoth?
  }

  lemma IdsAgree(m: nat, n: nat)
    ensures IdOf(m) == IdOf(n) <==> m % CYCLE == n % CYCLE
  {
    IdOfLast(m);
    IdOfLast(n);
  }

  lemma IdOfLast(n: nat)
    ensures IdOf(n) == if n % CYCLE == CYCLE - 1 then 0 else n % CYCLE + 1
  {
    assert n == CYCLE * (n / CYCLE) + n % CYCLE;
    if n % CYCLE == CYCLE - 1 {
      assert n + 1 == CYCLE * (n / CYCLE + 1);
    } else {
      assert n + 1 == CYCLE * (n / CYCLE) + (n % CYCLE + 1);
    }
  }

  /**
   * In every run, the check passes exactly when the entry under the fd that was read belongs to a connection
   * congruent, modulo 65537, to the one whose id was read; a missing id field stands for every 65537th one.
   */
  lemma CheckIsModular(es: seq<Event>, t: nat)
    requires Possible(INIT, es) && Checking(After(INIT, es), t)
    ensures
      var s := After(INIT, es); var r := s.readers[t];
      Passes(s, r) <==>
        && Value(r.fd) in s.owner
        && s.owner[Value(r.fd)] % CYCLE == if r.id.Nil? then CYCLE - 1 else r.id.author % CYCLE
  {
    hide Value, Possible, After, IdOf;
    RunKeepsInv(INIT, es);
    var s := After(INIT, es);
    var r := s.readers[t];
    ReplyValue(s, r.id, r.guid);
    if Value(r.fd) in s.owner {
      var n := s.owner[Value(r.fd)];
      IdOfLast(n);
      if r.id.Field? {
        IdsAgree(n, r.id.author);
      }
    }
  }

  /**
   * Unless the entry's connection and the one whose id was read are 65537 or more apart, the check passes
   * exactly when they are the same, however the two reads and the writes interleaved.
   */
  lemma CheckIsExact(es: seq<Event>, t: nat)
    requires Possible(INIT, es) && Checking(After(INIT, es), t)
    requires
      var s := After(INIT, es); var r := s.readers[t];
      r.id.Field? && (Value(r.fd) in s.owner ==> Near(s.owner[Value(r.fd)], r.id.author))
    ensures
      var s := After(INIT, es); var r := s.readers[t];
      Passes(s, r) <==> Value(r.fd) in s.owner && s.owner[Value(r.fd)] == r.id.author
  {
    hide Value, IdOf, Possible, After, Near, Passes;
    CheckIsModular(es, t);
    var s := After(INIT, es);
    var r := s.readers[t];
    if Value(r.fd) in s.owner {
      NearDiffer(s.owner[Value(r.fd)], r.id.author);
    }
  }

  /** The connection whose id was read is the one now on the fd that was read. */
  predicate IsOn(s: State, r: Reader)
    requires r.ReadBoth? && r.id.Field?
  {
    Value(r.fd) in s.open && s.open[Value(r.fd)] == r.id.author
  }

  /**
   * What a passing check means in any run. If the entry's connection is near the one whose id was read, that one
   * is on the fd and issued DEVICE_ONLINE for the guid; and unless the entry is a refused connection's, only if.
   */
  lemma VerifySafe(es: seq<Event>, t: nat)
    requires Possible(INIT, es) && Checking(After(INIT, es), t)
    requires Passes(After(INIT, es), After(INIT, es).readers[t]) && After(INIT, es).readers[t].id.Field?
    ensures
      var s := After(INIT, es); var r := s.readers[t];
      && Value(r.fd) in s.owner && (r.id.author, r.guid) in s.issued
      && var m := s.owner[Value(r.fd)];
         && (Near(m, r.id.author) ==> IsOn(s, r))
         && (IsOn(s, r) ==> m == r.id.author || m in s.refused)
         && (m !in s.refused ==> (IsOn(s, r) <==> Near(m, r.id.author)))
  {
    hide Value, IdOf, Possible, After, Near, Passes;
    CheckIsModular(es, t);
    RunKeepsInv(INIT, es);
    var s := After(INIT, es);
    var r := s.readers[t];
    NearDiffer(s.owner[Value(r.fd)], r.id.author);
    AuthorIssued(s, t);
  }

  /** A whole field was written by a connection that issued DEVICE_ONLINE, and so was not refused. */
  lemma AuthorIssued(s: State, t: nat)
    requires Inv(s) && Checking(s, t)
    ensures
      var r := s.readers[t];
      && (r.fd.Field? ==>
            (r.fd.author, r.guid) in s.issued && r.fd.author in s.served - s.refused && r.fd.author < |s.accepted|)
      && (r.id.Field? ==>
            (r.id.author, r.guid) in s.issued && r.id.author in s.served - s.refused && r.id.author < |s.accepted|)
  {
    hide IdOf, IntText;
  }

  /** Until the counter wraps, no side condition is needed at all. */
  lemma VerifySafeBeforeWrap(es: seq<Event>, t: nat)
    requires Possible(INIT, es) && Checking(After(INIT, es), t)
    requires |After(INIT, es).accepted| < CYCLE
    requires Passes(After(INIT, es), After(INIT, es).readers[t])
    ensures
      var s := After(INIT, es); var r := s.readers[t];
      Value(r.fd) in s.open && (s.open[Value(r.fd)], r.guid) in s.issued
  {
    hide Value, IdOf, Possible, After, Passes;
    RunKeepsInv(INIT, es);
    var s := After(INIT, es);
    var r := s.readers[t];
    CheckIsModular(es, t);
    EntryIsKnown(s, Value(r.fd));
    SmallModulo(s.owner[Value(r.fd)]);
    if r.id.Field? {
      AuthorIssued(s, t);
      SmallModulo(r.id.author);
      VerifySafe(es, t);
    }
  }

  lemma SmallModulo(n: nat)
    requires n < CYCLE
    ensures n % CYCLE == n
  {
  }

  lemma EntryIsKnown(s: State, fd: int)
    requires Inv(s) && fd in s.owner
    ensures s.owner[fd] < |s.accepted|
  {
  }

  // ----- whether a registered device is found -----

  /** The last connection accepted on fd, or -1. */
  function LastOn(accepted: seq<Conn>, fd: int): (n: int)
    ensures -1 <= n < |accepted| && (n >= 0 ==> accepted[n].fd == fd)
    decreases |accepted|
  {
    if accepted == [] then -1
    else if accepted[|accepted| - 1].fd == fd then |accepted| - 1
    else LastOn(accepted[..|accepted| - 1], fd)
  }

  predicate LastRefused(refused: set<nat>, accepted: seq<Conn>, fd: int) {
    LastOn(accepted, fd) >= 0 && LastOn(accepted, fd) in refused
  }

  /** The connection accepted on n's fd before n was refused. */
  predicate PrevRefused(s: State, n: nat)
    requires n < |s.accepted|
  {
    LastRefused(s.refused, s.accepted[..n], s.accepted[n].fd)
  }

  /** n is open and in the table under its fd, or another entry keeps it out. */
  ghost predicate EntryOf(s: State, n: nat) {
    IsOpen(s, n) && n !in s.closing && !(s.inserting && n == |s.accepted| - 1) ==>
      s.accepted[n].fd in s.owner && (s.owner[s.accepted[n].fd] == n <==> !PrevRefused(s, n))
  }

  ghost predicate EntryToCome(s: State) {
    s.inserting && s.accepted != [] ==>
      var n := |s.accepted| - 1;
      var fd := s.accepted[n].fd;
      (fd in s.owner <==> PrevRefused(s, n)) && (fd in s.owner ==> s.owner[fd] != n)
  }

  ghost predicate EntryLeft(s: State, fd: int) {
    if fd in s.open then s.open[fd] == LastOn(s.accepted, fd)
    else fd in s.owner <==> LastRefused(s.refused, s.accepted, fd)
  }

  /** An entry is left behind exactly by a refused connection, and exactly then the next one gets none of its own. */
  ghost predicate EntriesExact(s: State) {
    && (forall n: nat :: EntryOf(s, n))
    && EntryToCome(s)
    && (forall fd: int :: EntryLeft(s, fd))
  }

  lemma LastOnNext(accepted: seq<Conn>, c: Conn, fd: int)
    ensures LastOn(accepted + [c], fd) == if c.fd == fd then |accepted| else LastOn(accepted, fd)
  {
    assert (accepted + [c])[..|accepted|] == accepted;
  }

  lemma AcceptKeepsEntries(s: State, fd: nat)
    requires ConnectionsOk(s) && TableOk(s) && EntriesExact(s) && Enabled(s, Accept(fd))
    ensures EntriesExact(Step(s, Accept(fd)))
  {
    hide IdOf, NextId, LastOn;
    var t := Step(s, Accept(fd));
    var c := Conn(fd, NextId(s.id));
    assert t.accepted == s.accepted + [c] && t.accepted[..|s.accepted|] == s.accepted;
    forall g: int
      ensures EntryLeft(t, g)
    {
      assert EntryLeft(s, g);
      LastOnNext(s.accepted, c, g);
    }
    forall n: nat
      ensures EntryOf(t, n)
    {
      assert EntryOf(s, n);
      assert n < |s.accepted| ==> t.accepted[..n] == s.accepted[..n];
    }
    assert EntryLeft(s, fd);
  }

  lemma OpenIsLast(s: State, n: nat, k: nat)
    requires ConnectionsOk(s) && EntriesExact(s) && IsOpen(s, n) && IsOpen(s, k)
    ensures s.accepted[n].fd == s.accepted[k].fd <==> n == k
    ensures !(k < |s.accepted| && LastOn(s.accepted[..k], s.accepted[k].fd) == n)
  {
    hide IdOf, LastOn;
    assert EntryLeft(s, s.accepted[n].fd) && EntryLeft(s, s.accepted[k].fd);
  }

  lemma InsertKeepsEntries(s: State)
    requires ConnectionsOk(s) && TableOk(s) && EntriesExact(s) && Enabled(s, Insert)
    ensures EntriesExact(Step(s, Insert))
  {
    hide IdOf, NextId, LastOn;
    var t := Step(s, Insert);
    var n := |s.accepted| - 1;
    forall k: nat
      ensures EntryOf(t, k)
    {
      assert EntryOf(s, k);
      if IsOpen(s, k) {
        OpenIsLast(s, n, k);
      }
    }
    forall fd: int
      ensures EntryLeft(t, fd)
    {
      assert EntryLeft(s, fd);
    }
  }

  /** A refused connection leaves its entry behind. */
  lemma RefuseKeepsEntries(s: State, n: nat)
    requires ConnectionsOk(s) && TableOk(s) && EntriesExact(s) && Enabled(s, Refuse(n))
    ensures EntriesExact(Step(s, Refuse(n)))
  {
    hide IdOf, NextId, LastOn;
    var t := Step(s, Refuse(n));
    forall k: nat
      ensures EntryOf(t, k)
    {
      assert EntryOf(s, k);
      if IsOpen(s, k) {
        OpenIsLast(s, n, k);
      }
    }
    forall fd: int
      ensures EntryLeft(t, fd)
    {
      assert EntryLeft(s, fd) && EntryOf(s, n);
    }
    if s.inserting {
      OpenIsLast(s, n, |s.accepted| - 1);
    }
  }

  /** Erasing removes the entry of a connection that is still open. */
  lemma EraseKeepsEntries(s: State, n: nat)
    requires ConnectionsOk(s) && TableOk(s) && EntriesExact(s) && Enabled(s, EraseEntry(n))
    ensures EntriesExact(Step(s, EraseEntry(n)))
  {
    hide IdOf, NextId, LastOn;
    var t := Step(s, EraseEntry(n));
    forall k: nat
      ensures EntryOf(t, k)
    {
      assert EntryOf(s, k);
      if IsOpen(s, k) {
        OpenIsLast(s, n, k);
      }
    }
    forall fd: int
      ensures EntryLeft(t, fd)
    {
      assert EntryLeft(s, fd) && EntryOf(s, n);
    }
    if s.inserting {
      OpenIsLast(s, n, |s.accepted| - 1);
    }
  }

  /** A connection closes when its entry is gone. */
  lemma CloseKeepsEntries(s: State, n: nat)
    requires ConnectionsOk(s) && TableOk(s) && EntriesExact(s) && Enabled(s, CloseFd(n))
    ensures EntriesExact(Step(s, CloseFd(n)))
  {
    hide IdOf, NextId, LastOn;
    var t := Step(s, CloseFd(n));
    forall k: nat
      ensures EntryOf(t, k)
    {
      assert EntryOf(s, k);
      if IsOpen(s, k) {
        OpenIsLast(s, n, k);
      }
    }
    forall fd: int
      ensures EntryLeft(t, fd)
    {
      assert EntryLeft(s, fd) && EntryOf(s, n);
    }
    if s.inserting {
      OpenIsLast(s, n, |s.accepted| - 1);
    }
  }

  lemma StepKeepsEntries(s: State, e: Event)
    requires Inv(s) && EntriesExact(s) && Enabled(s, e)
    ensures EntriesExact(Step(s, e))
  {
    hide ConnectionsOk, TableOk, RegistrationsOk, LastOn, LastRefused, Enabled;
    if OnConnections(e) {
      hide Step, EntriesExact;
      match e {
        case Accept(fd) => AcceptKeepsEntries(s, fd);
        case Insert => InsertKeepsEntries(s);
        case Serve(n) => ServeFrames(s, n); SameEntries(s, Step(s, e));
        case Refuse(n) => RefuseKeepsEntries(s, n);
        case EraseEntry(n) => EraseKeepsEntries(s, n);
        case CloseFd(n) => CloseKeepsEntries(s, n);
      }
    } else {
      StepFrames(s, e);
      SameEntries(s, Step(s, e));
    }
  }

  lemma ServeFrames(s: State, n: nat)
    requires Enabled(s, Serve(n))
    ensures Step(s, Serve(n)) == s.(served := s.served + {n})
  {
  }

  lemma SameEntries(s: State, t: State)
    requires EntriesExact(s) && t.accepted == s.accepted && t.inserting == s.inserting && t.open == s.open
    requires t.owner == s.owner && t.refused == s.refused && t.closing == s.closing
    ensures EntriesExact(t)
  {
    hide LastOn;
    forall n: nat
      ensures EntryOf(t, n)
    {
      assert EntryOf(s, n);
    }
    forall fd: int
      ensures EntryLeft(t, fd)
    {
      assert EntryLeft(s, fd);
    }
  }

  /**
   * Whose entry is under fd, if one is: that of the last connection there, unless the one before it there was
   * refused; then it got none of its own, and the entry is the one that was met then.
   */
  function EntryOwner(accepted: seq<Conn>, refused: set<nat>, fd: int): (n: int)
    ensures -1 <= n <= LastOn(accepted, fd) && (n >= 0 <==> LastOn(accepted, fd) >= 0)
    decreases |accepted|
  {
    var l := LastOn(accepted, fd);
    if l >= 0 && LastRefused(refused, accepted[..l], fd) then EntryOwner(accepted[..l], refused, fd) else l
  }

  ghost predicate OwnerExact(s: State, fd: int) {
    fd in s.owner ==> s.owner[fd] == EntryOwner(s.accepted, s.refused, fd)
  }

  ghost predicate OwnersExact(s: State) {
    forall fd: int :: OwnerExact(s, fd)
  }

  lemma EntryOwnerNext(accepted: seq<Conn>, refused: set<nat>, c: Conn, fd: int)
    ensures EntryOwner(accepted + [c], refused, fd) ==
      if c.fd == fd && !LastRefused(refused, accepted, fd) then |accepted| else EntryOwner(accepted, refused, fd)
  {
    hide LastOn;
    LastOnNext(accepted, c, fd);
    assert (accepted + [c])[..|accepted|] == accepted;
    var l := LastOn(accepted, fd);
    assert l >= 0 ==> (accepted + [c])[..l] == accepted[..l];
  }

  /** Refusing the last connection on an fd, or one on another fd, changes nothing yet. */
  lemma {:induction false} EntryOwnerRefused(accepted: seq<Conn>, refused: set<nat>, n: nat, fd: int)
    requires LastOn(accepted, fd) <= n || accepted[n].fd != fd
    ensures EntryOwner(accepted, refused + {n}, fd) == EntryOwner(accepted, refused, fd)
    decreases |accepted|
  {
    hide LastOn;
    var l := LastOn(accepted, fd);
    if l >= 0 {
      var k := LastOn(accepted[..l], fd);
      assert k >= 0 ==> accepted[..l][k].fd == fd && accepted[..l][k] == accepted[k];
      assert n < l ==> accepted[..l][n] == accepted[n];
      EntryOwnerRefused(accepted[..l], refused, n, fd);
    }
  }

  lemma AcceptKeepsOwners(s: State, fd: nat)
    requires EntriesExact(s) && OwnersExact(s) && Enabled(s, Accept(fd))
    ensures OwnersExact(Step(s, Accept(fd)))
  {
    hide NextId, LastOn, LastRefused, EntryOwner;
    var t := Step(s, Accept(fd));
    forall g: int
      ensures OwnerExact(t, g)
    {
      assert OwnerExact(s, g) && EntryLeft(s, g);
      EntryOwnerNext(s.accepted, s.refused, Conn(fd, NextId(s.id)), g);
    }
  }

  lemma InsertKeepsOwners(s: State)
    requires ConnectionsOk(s) && EntriesExact(s) && OwnersExact(s) && Enabled(s, Insert)
    ensures OwnersExact(Step(s, Insert))
  {
    hide IdOf, LastOn, LastRefused;
    var t := Step(s, Insert);
    var n := |s.accepted| - 1;
    assert EntryLeft(s, s.accepted[n].fd);
    forall g: int
      ensures OwnerExact(t, g)
    {
      assert OwnerExact(s, g);
    }
  }

  lemma RefuseKeepsOwners(s: State, n: nat)
    requires EntriesExact(s) && OwnersExact(s) && Enabled(s, Refuse(n))
    ensures OwnersExact(Step(s, Refuse(n)))
  {
    hide LastOn, LastRefused, EntryOwner;
    var t := Step(s, Refuse(n));
    assert EntryLeft(s, s.accepted[n].fd);
    forall g: int
      ensures OwnerExact(t, g)
    {
      assert OwnerExact(s, g);
      EntryOwnerRefused(s.accepted, s.refused, n, g);
    }
  }

  lemma StepKeepsOwners(s: State, e: Event)
    requires Inv(s) && EntriesExact(s) && OwnersExact(s) && Enabled(s, e)
    ensures OwnersExact(Step(s, e))
  {
    hide ConnectionsOk, TableOk, RegistrationsOk, EntriesExact, EntryOwner;
    if OnConnections(e) {
      match e {
        case Accept(fd) => AcceptKeepsOwners(s, fd);
        case Insert => InsertKeepsOwners(s);
        case Refuse(n) => RefuseKeepsOwners(s, n);
        case Serve(n) => FewerOwners(s, Step(s, e));
        case EraseEntry(n) => FewerOwners(s, Step(s, e));
        case CloseFd(n) => FewerOwners(s, Step(s, e));
      }
    } else {
      hide Enabled;
      StepFrames(s, e);
      FewerOwners(s, Step(s, e));
    }
  }

  lemma FewerOwners(s: State, t: State)
    requires OwnersExact(s) && t.accepted == s.accepted && t.refused == s.refused
    requires forall fd :: fd in t.owner ==> fd in s.owner && t.owner[fd] == s.owner[fd]
    ensures OwnersExact(t)
  {
    hide EntryOwner;
    forall g: int
      ensures OwnerExact(t, g)
    {
      assert OwnerExact(s, g);
    }
  }

  lemma {:induction false} RunKeepsEntries(s: State, es: seq<Event>)
    requires Inv(s) && EntriesExact(s) && OwnersExact(s) && Possible(s, es)
    ensures EntriesExact(After(s, es)) && OwnersExact(After(s, es))
    decreases |es|
  {
    hide Enabled, Step, Inv, EntriesExact, OwnersExact;
    if es != [] {
      StepKeepsInv(s, es[0]);
      StepKeepsEntries(s, es[0]);
      StepKeepsOwners(s, es[0]);
      RunKeepsEntries(Step(s, es[0]), es[1..]);
    }
  }

  /** t has read a whole record, both fields written by n, and n is still open. */
  ghost predicate WholeRecordRead(s: State, t: nat, n: nat) {
    && Checking(s, t) && s.readers[t].fd.Field? && s.readers[t].id.Field?
    && s.readers[t].fd.author == n == s.readers[t].id.author && IsOpen(s, n)
  }

  /** The entry under the fd of an open connection n, whose record t has read. */
  lemma EntryMet(es: seq<Event>, t: nat, n: nat)
    requires Possible(INIT, es) && WholeRecordRead(After(INIT, es), t, n)
    ensures
      var s := After(INIT, es); var r := s.readers[t]; var fd := s.accepted[n].fd;
      && Value(r.fd) == fd && LastOn(s.accepted, fd) == n
      && (n in s.closing ==> fd !in s.owner)
      && (n !in s.closing ==> fd in s.owner && s.owner[fd] == EntryOwner(s.accepted, s.refused, fd))
  {
    hide Value, IdOf, Possible, After, LastOn, LastRefused, EntryOwner;
    InitExact();
    RunKeepsInv(INIT, es);
    RunKeepsEntries(INIT, es);
    var s := After(INIT, es);
    ReplyValue(s, s.readers[t].fd, s.readers[t].guid);
    AuthorIssued(s, t);
    assert EntryOf(s, n) && EntryLeft(s, s.accepted[n].fd) && OwnerExact(s, s.accepted[n].fd);
  }

  /**
   * In every run, a registered device whose connection is open is found exactly if the connection is not closing
   * and the one whose entry it meets is congruent to it modulo 65537. That one is itself exactly if the connection
   * accepted on its fd just before was not refused.
   */
  lemma RegisteredDeviceFound(es: seq<Event>, t: nat, n: nat)
    requires Possible(INIT, es) && WholeRecordRead(After(INIT, es), t, n)
    ensures
      var s := After(INIT, es); var m := EntryOwner(s.accepted, s.refused, s.accepted[n].fd);
      && (Passes(s, s.readers[t]) <==> n !in s.closing && m % CYCLE == n % CYCLE)
      && (m == n <==> !PrevRefused(s, n))
  {
    hide Value, IdOf, Possible, After, LastOn, LastRefused, Passes;
    EntryMet(es, t, n);
    CheckIsModular(es, t);
  }

  /** So while the entry met is near, it is found exactly if the connection just before was not refused. */
  lemma NearEntriesDecide(es: seq<Event>, t: nat, n: nat)
    requires Possible(INIT, es) && WholeRecordRead(After(INIT, es), t, n)
    requires var s := After(INIT, es); Near(EntryOwner(s.accepted, s.refused, s.accepted[n].fd), n)
    ensures var s := After(INIT, es); Passes(s, s.readers[t]) <==> n !in s.closing && !PrevRefused(s, n)
  {
    hide Possible, After, EntryOwner, PrevRefused, Passes, Near;
    RegisteredDeviceFound(es, t, n);
    var s := After(INIT, es);
    NearDiffer(EntryOwner(s.accepted, s.refused, s.accepted[n].fd), n);
  }

  lemma InitExact()
    ensures Inv(INIT) && EntriesExact(INIT) && OwnersExact(INIT)
  {
  }

  ghost predicate NoRefusal(es: seq<Event>) {
    forall k :: 0 <= k < |es| ==> !es[k].Refuse?
  }

  lemma {:induction false} NobodyRefused(s: State, es: seq<Event>)
    requires Possible(s, es) && NoRefusal(es)
    ensures After(s, es).refused == s.refused
    decreases |es|
  {
    if es != [] {
      SameRefused(s, es[0]);
      hide Enabled, Step;
      NobodyRefused(Step(s, es[0]), es[1..]);
    }
  }

  lemma SameRefused(s: State, e: Event)
    requires Enabled(s, e) && !e.Refuse?
    ensures Step(s, e).refused == s.refused
  {
    hide NextId, WriterStep, ReaderStep;
    if !OnConnections(e) {
      StepFrames(s, e);
    }
  }

  /** So without refusals it is always found. */
  lemma RegisteredDeviceVerifies(es: seq<Event>, t: nat, n: nat)
    requires Possible(INIT, es) && NoRefusal(es) && WholeRecordRead(After(INIT, es), t, n)
    ensures Passes(After(INIT, es), After(INIT, es).readers[t]) <==> n !in After(INIT, es).closing
  {
    hide Possible, After, Passes, NoRefusal, LastOn;
    RegisteredDeviceFound(es, t, n);
    NobodyRefused(INIT, es);
  }

  // ----- after the check -----

  /** The connection that Send writes to. */
  function Recipient(s: State, sfd: int): (r: int) {
    if sfd in s.open then s.open[sfd] else -1
  }

  lemma StepKeepsRecipient(s: State, e: Event, n: nat)
    requires Inv(s) && Enabled(s, e) && n < |s.accepted| && n in s.served
    ensures Recipient(Step(s, e), s.accepted[n].fd) == n <==> Recipient(s, s.accepted[n].fd) == n && e != CloseFd(n)
    ensures n < |Step(s, e).accepted| && Step(s, e).accepted[n] == s.accepted[n] && n in Step(s, e).served
  {
    hide IdOf, NextId, WriterStep, ReaderStep, RegistrationsOk, TableOk;
    if !OnConnections(e) {
      StepFrames(s, e);
      hide Step, Enabled;
    }
  }

  /** A connection stays the one on its fd exactly until that is closed. */
  lemma {:induction false} StaysReachable(s: State, es: seq<Event>, n: nat)
    requires Inv(s) && Possible(s, es) && n < |s.accepted| && n in s.served
    requires Recipient(s, s.accepted[n].fd) == n
    ensures Recipient(After(s, es), s.accepted[n].fd) == n <==> CloseFd(n) !in es
    decreases |es|
  {
    hide Enabled, Step, Inv;
    if es != [] {
      var s1 := Step(s, es[0]);
      StepKeepsInv(s, es[0]);
      StepKeepsRecipient(s, es[0], n);
      if Recipient(s1, s.accepted[n].fd) == n {
        StaysReachable(s1, es[1..], n);
      } else {
        NeverReturns(s1, es[1..], n);
      }
    }
  }

  lemma {:induction false} NeverReturns(s: State, es: seq<Event>, n: nat)
    requires Inv(s) && Possible(s, es) && n < |s.accepted| && n in s.served
    requires Recipient(s, s.accepted[n].fd) != n
    ensures Recipient(After(s, es), s.accepted[n].fd) != n
    decreases |es|
  {
    hide Enabled, Step, Inv;
    if es != [] {
      StepKeepsInv(s, es[0]);
      StepKeepsRecipient(s, es[0], n);
      NeverReturns(Step(s, es[0]), es[1..], n);
    }
  }

  /** Only its send moves a verified relay. */
  lemma NotItsTurn(s: State, e: Event, t: nat)
    requires Enabled(s, e) && !OnConnections(e) && !OnWriters(e)
    requires e != Send(t) && t in s.readers && s.readers[t].Verified?
    ensures e.t != t
  {
  }

  lemma OtherReader(s: State, e: Event, t: nat)
    requires Enabled(s, e) && !OnConnections(e) && !OnWriters(e) && e.t != t && t in s.readers
    ensures t in ReaderStep(s, e).readers && ReaderStep(s, e).readers[t] == s.readers[t]
  {
    hide Value, FieldsOf, Passes, Enabled;
    match e
    case HgetFd(k, guid) =>
    case HgetId(k) =>
    case HgetFails(k) =>
    case Check(k) =>
    case Send(k) =>
  }

  lemma VerifiedStep(s: State, e: Event, t: nat)
    requires Enabled(s, e) && e != Send(t) && t in s.readers && s.readers[t].Verified?
    ensures t in Step(s, e).readers && Step(s, e).readers[t] == s.readers[t]
  {
    hide Enabled, ConnectionStep, WriterStep, ReaderStep;
    if OnConnections(e) {
      ConnectionStepFrames(s, e);
    } else if OnWriters(e) {
      WriterStepFrames(s, e);
    } else {
      NotItsTurn(s, e, t);
      OtherReader(s, e, t);
    }
  }

  lemma {:induction false} StaysVerified(s: State, es: seq<Event>, t: nat)
    requires Possible(s, es) && Send(t) !in es && t in s.readers && s.readers[t].Verified?
    ensures t in After(s, es).readers && After(s, es).readers[t] == s.readers[t]
    decreases |es|
  {
    hide Enabled, Step;
    if es != [] {
      VerifiedStep(s, es[0], t);
      StaysVerified(Step(s, es[0]), es[1..], t);
    }
  }

  lemma PassingCheck(s: State, t: nat)
    requires Checking(s, t) && Passes(s, s.readers[t])
    ensures
      && Enabled(s, Check(t))
      && Step(s, Check(t)) == s.(readers := s.readers[t := Verified(s.readers[t].guid, Value(s.readers[t].fd))])
  {
    hide Value, ConnectionStep, WriterStep;
  }

  /**
   * From a passing check of relay t to its send, whatever happens in between: t sends to the fd it read, and the
   * one it reaches is the connection whose id it read exactly if that has not closed its fd.
   */
  lemma SendReaches(es: seq<Event>, t: nat, fs: seq<Event>)
    requires Possible(INIT, es) && Checking(After(INIT, es), t)
    requires
      var s := After(INIT, es); var r := s.readers[t];
      Passes(s, r) && r.id.Field? && (Value(r.fd) in s.owner ==> Near(s.owner[Value(r.fd)], r.id.author))
    requires Enabled(After(INIT, es), Check(t)) && Possible(Step(After(INIT, es), Check(t)), fs) && Send(t) !in fs
    ensures
      var s := After(INIT, es); var r := s.readers[t]; var u := After(Step(s, Check(t)), fs);
      && t in u.readers && u.readers[t] == Verified(r.guid, Value(r.fd))
      && (Recipient(u, Value(r.fd)) == r.id.author <==> CloseFd(r.id.author) !in fs)
  {
    hide Possible, After, Passes, Value, Step, Enabled, Near;
    var s := After(INIT, es);
    var r := s.readers[t];
    VerifySafe(es, t);
    RunKeepsInv(INIT, es);
    AuthorIssued(s, t);
    PassingCheck(s, t);
    StepKeepsInv(s, Check(t));
    var s1 := Step(s, Check(t));
    StaysVerified(s1, fs, t);
    OpenFd(s, Value(r.fd));
    StaysReachable(s1, fs, r.id.author);
  }

  lemma OpenFd(s: State, fd: int)
    requires Inv(s) && fd in s.open
    ensures s.open[fd] < |s.accepted| && s.accepted[s.open[fd]].fd == fd
  {
  }
}
