/** What SUCCESS means for a request, and the runs in which it would mean less. */
module CorrelationSafety {
  import opened Correlation
  import opened Wrappers

  // ----- in every run -----

  lemma InitInv()
    ensures Inv(INIT)
  {
  }

  /** An arrival never waits for anybody. */
  lemma ArrivalsEnabled(es: seq<Event>, m: Message)
    requires Possible(INIT, es)
    ensures Enabled(After(INIT, es), Arrive(m))
  {
    hide Possible, After;
    InitInv();
    RunKeepsInv(INIT, es);
    var s := After(INIT, es);
    assert m.id in s.messages ==> EntryOk(s, m.id, s.messages[m.id]);
  }

  /** m arrived at the k-th step, while n was between insert and erase. */
  predicate ArrivedWhilePending(s: State, es: seq<Event>, k: nat, n: nat, m: Message) {
    && k < |es| && es[k] == Arrive(m) && Possible(s, es[..k])
    && Pending(After(s, es[..k]), n) && IdOf(n) == m.id
  }

  lemma {:induction false} HeardArrived(s: State, es: seq<Event>, n: nat, m: Message)
    requires Possible(s, es) && (n, m) in After(s, es).heard && (n, m) !in s.heard
    ensures exists k :: ArrivedWhilePending(s, es, k, n, m)
    decreases |es|
  {
    hide IdOf, Pending, Enabled;
    var t := Step(s, es[0]);
    if (n, m) in t.heard {
      assert es[..0] == [];
      assert ArrivedWhilePending(s, es, 0, n, m);
    } else {
      HeardArrived(t, es[1..], n, m);
      var k: nat :| ArrivedWhilePending(t, es[1..], k, n, m);
      assert es[..k + 1][0] == es[0] && es[..k + 1][1..] == es[1..][..k];
      assert ArrivedWhilePending(s, es, k + 1, n, m);
    }
  }

  predicate Succeeded(s: State, n: nat) {
    n < |s.requests| && s.requests[n].phase.Done? && s.requests[n].phase.ret.SUCCESS?
  }

  /**
   * However ids collide: a semaphore is posted at most once, and exactly once before SUCCESS; a response that is
   * returned carries the request's own id and arrived while it was pending; and nothing is left behind.
   */
  lemma EveryRun(es: seq<Event>, n: nat)
    requires Possible(INIT, es) && n < |After(INIT, es).requests|
    ensures
      var s := After(INIT, es); var r := s.requests[n];
      && r.posts <= 1
      && (Succeeded(s, n) ==> r.posts == 1)
      && (r.phase.Done? && r.phase.result.Some? ==>
            r.phase.result.value.id == IdOf(n) && exists k :: ArrivedWhilePending(INIT, es, k, n, r.phase.result.value))
      && (forall id :: id in s.messages ==> HasPending(s, id))
      && ((forall k: nat :: !Pending(s, k)) ==> s.messages == map[])
  {
    hide Possible, After, IdOf, ArrivedWhilePending;
    InitInv();
    RunKeepsInv(INIT, es);
    var s := After(INIT, es);
    assert RequestOk(s, n) && ReadsHeard(s, n);
    if s.requests[n].phase.Done? && s.requests[n].phase.result.Some? {
      HeardArrived(INIT, es, n, s.requests[n].phase.result.value);
    }
    NothingLeft(s);
  }

  lemma NothingLeft(s: State)
    requires Inv(s)
    ensures forall id :: id in s.messages ==> HasPending(s, id)
    ensures (forall k: nat :: !Pending(s, k)) ==> s.messages == map[]
  {
    hide IdOf, RequestOk, ReadsHeard;
    forall id | id in s.messages
      ensures HasPending(s, id)
    {
      assert EntryOk(s, id, s.messages[id]);
    }
    if forall k: nat :: !Pending(s, k) {
      assert forall id :: id in s.messages ==> !HasPending(s, id);
      assert forall id :: id !in s.messages;
    }
  }

  /** A response under an id that nobody waits for changes nothing. */
  lemma StrayResponseIgnored(es: seq<Event>, m: Message)
    requires Possible(INIT, es) && !HasPending(After(INIT, es), m.id)
    ensures Enabled(After(INIT, es), Arrive(m)) && Step(After(INIT, es), Arrive(m)) == After(INIT, es)
  {
    hide Possible, After, IdOf;
    InitInv();
    RunKeepsInv(INIT, es);
    var s := After(INIT, es);
    assert m.id in s.messages ==> EntryOk(s, m.id, s.messages[m.id]);
    assert Step(s, Arrive(m)).heard == s.heard;
  }

  // ----- whether SUCCESS comes with a response -----

  /** The state before the k-th step. */
  function StateAt(es: seq<Event>, k: nat): State
    requires k <= |es|
  {
    if Possible(INIT, es[..k]) then After(INIT, es[..k]) else INIT
  }

  lemma {:induction false} PrefixRuns(s: State, es: seq<Event>, k: nat)
    requires Possible(s, es) && k < |es|
    ensures Possible(s, es[..k]) && Enabled(After(s, es[..k]), es[k])
    ensures Possible(s, es[..k + 1]) && After(s, es[..k + 1]) == Step(After(s, es[..k]), es[k])
    decreases k
  {
    hide Enabled, Step;
    if k == 0 {
      assert es[..0] == [] && es[..1] == [es[0]] && es[..1][1..] == [];
    } else {
      PrefixRuns(Step(s, es[0]), es[1..], k - 1);
      assert es[..k][0] == es[0] && es[..k][1..] == es[1..][..k - 1];
      assert es[..k + 1][0] == es[0] && es[..k + 1][1..] == es[1..][..k];
    }
  }

  lemma StepAt(es: seq<Event>, k: nat)
    requires Possible(INIT, es) && k < |es|
    ensures Enabled(StateAt(es, k), es[k]) && StateAt(es, k + 1) == Step(StateAt(es, k), es[k]) && Inv(StateAt(es, k))
    ensures StateAt(es, 0) == INIT && StateAt(es, |es|) == After(INIT, es)
  {
    hide Possible, After, Enabled, Step, Inv;
    PrefixRuns(INIT, es, k);
    InitInv();
    RunKeepsInv(INIT, es[..k]);
    assert es[..0] == [] && es[..|es|] == es;
    StartAt();
  }

  lemma StartAt()
    ensures Possible(INIT, []) && After(INIT, []) == INIT
  {
  }

  /** The arrival that posts n's semaphore. */
  predicate PostedAt(es: seq<Event>, k: nat, n: nat) {
    k < |es| && es[k].Arrive? && EventUnder(StateAt(es, k).messages, es[k].m.id) == Some(n)
  }

  /** The step at which n reads what it returns. */
  predicate ReadAt(es: seq<Event>, k: nat, n: nat, result: Option<Message>) {
    k < |es| && es[k] == Find(n) && result == ResponseUnder(StateAt(es, k).messages, IdOf(n))
  }

  predicate IsPosted(s: State, n: nat) {
    n < |s.requests| && s.requests[n].posts > 0
  }

  lemma PostStep(s: State, e: Event, n: nat)
    requires Enabled(s, e) && IsPosted(Step(s, e), n)
    ensures IsPosted(s, n) || (e.Arrive? && EventUnder(s.messages, e.m.id) == Some(n))
  {
    hide IdOf, NextMessageId;
  }

  lemma {:induction false} WasPosted(es: seq<Event>, k: nat, n: nat)
    requires Possible(INIT, es) && k <= |es| && IsPosted(StateAt(es, k), n)
    ensures exists p: nat :: p < k && PostedAt(es, p, n)
    decreases k
  {
    hide StateAt, Step, Enabled, Inv;
    if k == 0 {
      AtStart(es);
    } else {
      StepAt(es, k - 1);
      PostStep(StateAt(es, k - 1), es[k - 1], n);
      if !PostedAt(es, k - 1, n) {
        WasPosted(es, k - 1, n);
      }
    }
  }

  lemma AtStart(es: seq<Event>)
    ensures StateAt(es, 0) == INIT
  {
    assert es[..0] == [];
  }

  predicate HasRead(s: State, n: nat, result: Option<Message>) {
    n < |s.requests| && (s.requests[n].phase == Answered(result) || s.requests[n].phase == Done(SUCCESS, result))
  }

  lemma ReadStep(s: State, e: Event, n: nat, result: Option<Message>)
    requires Inv(s) && Enabled(s, e) && HasRead(Step(s, e), n, result)
    ensures HasRead(s, n, result) || (e == Find(n) && result == ResponseUnder(s.messages, IdOf(n)))
  {
    hide IdOf, NextMessageId, EntryOk, ReadsHeard, EventUnder;
    assert n < |s.requests| ==> RequestOk(s, n);
  }

  lemma {:induction false} WasRead(es: seq<Event>, k: nat, n: nat, result: Option<Message>)
    requires Possible(INIT, es) && k <= |es| && HasRead(StateAt(es, k), n, result)
    ensures exists f: nat :: f < k && ReadAt(es, f, n, result)
    decreases k
  {
    hide StateAt, Step, Enabled, Inv, IdOf, ResponseUnder;
    if k == 0 {
      AtStart(es);
    } else {
      StepAt(es, k - 1);
      ReadStep(StateAt(es, k - 1), es[k - 1], n, result);
      if !ReadAt(es, k - 1, n, result) {
        WasRead(es, k - 1, n, result);
      }
    }
  }

  predicate Returned(s: State, n: nat) {
    n < |s.requests| && s.requests[n].phase.Done?
  }

  lemma ReturnStep(s: State, e: Event, n: nat)
    requires Enabled(s, e) && !Returned(Step(s, e), n)
    ensures !Returned(s, n) && e != Erase(n)
  {
    hide IdOf, NextMessageId, EventUnder;
  }

  /** A request that has not returned has not erased its entry. */
  lemma {:induction false} NotErasedBefore(es: seq<Event>, k: nat, n: nat)
    requires Possible(INIT, es) && k <= |es| && !Returned(StateAt(es, k), n)
    ensures forall i :: 0 <= i < k ==> es[i] != Erase(n)
    decreases k
  {
    hide StateAt, Step, Enabled, Inv, Returned;
    if k > 0 {
      StepAt(es, k - 1);
      ReturnStep(StateAt(es, k - 1), es[k - 1], n);
      NotErasedBefore(es, k - 1, n);
    }
  }

  /** Another request erases the entry under n's id. */
  predicate Clears(e: Event, n: nat) {
    e.Erase? && e.n != n && IdOf(e.n) == IdOf(n)
  }

  /** A response is stored under the id. */
  predicate Stores(s: State, e: Event, id: int) {
    e.Arrive? && e.m.id == id && id in s.messages
  }

  /** From one step up to another, some other request erases n's entry, and no response is stored there again. */
  predicate Overtaken(es: seq<Event>, from: nat, to: nat, n: nat)
    requires to <= |es|
  {
    exists j: nat :: from <= j < to && Clears(es[j], n) &&
      forall i: nat :: j < i < to ==> !Stores(StateAt(es, i), es[i], IdOf(n))
  }

  lemma StepHolds(s: State, e: Event, n: nat)
    requires Enabled(s, e) && e != Erase(n)
    ensures ResponseUnder(Step(s, e).messages, IdOf(n)).Some? <==>
      !Clears(e, n) && (Stores(s, e, IdOf(n)) || ResponseUnder(s.messages, IdOf(n)).Some?)
  {
    hide IdOf, NextMessageId, Posted;
  }

  lemma OvertakenStep(es: seq<Event>, from: nat, to: nat, n: nat)
    requires from <= to < |es|
    ensures Overtaken(es, from, to + 1, n) <==>
      Clears(es[to], n) || (!Stores(StateAt(es, to), es[to], IdOf(n)) && Overtaken(es, from, to, n))
  {
    hide StateAt, IdOf;
    if Clears(es[to], n) {
      assert !Stores(StateAt(es, to), es[to], IdOf(n));
    } else if !Stores(StateAt(es, to), es[to], IdOf(n)) && Overtaken(es, from, to, n) {
      var j: nat :| from <= j < to && Clears(es[j], n) &&
        forall i: nat :: j < i < to ==> !Stores(StateAt(es, i), es[i], IdOf(n));
      assert forall i: nat :: j < i < to + 1 ==> !Stores(StateAt(es, i), es[i], IdOf(n));
    }
  }

  lemma {:induction false} HoldsUnlessOvertaken(es: seq<Event>, p: nat, f: nat, n: nat)
    requires Possible(INIT, es) && p <= f <= |es| && ResponseUnder(StateAt(es, p).messages, IdOf(n)).Some?
    requires forall i :: p <= i < f ==> es[i] != Erase(n)
    ensures ResponseUnder(StateAt(es, f).messages, IdOf(n)).Some? <==> !Overtaken(es, p, f, n)
    decreases f
  {
    hide StateAt, IdOf, ResponseUnder, Step, Enabled, Clears, Stores, Inv;
    if p < f {
      HoldsUnlessOvertaken(es, p, f - 1, n);
      StepAt(es, f - 1);
      StepHolds(StateAt(es, f - 1), es[f - 1], n);
      OvertakenStep(es, p, f - 1, n);
    }
  }

  lemma PostStores(s: State, m: Message, n: nat)
    requires Inv(s) && Enabled(s, Arrive(m)) && EventUnder(s.messages, m.id) == Some(n)
    ensures m.id == IdOf(n) && ResponseUnder(Step(s, Arrive(m)).messages, IdOf(n)).Some?
  {
    hide IdOf, Posted;
    assert EntryOk(s, m.id, s.messages[m.id]);
  }

  /**
   * Whether a request that returns SUCCESS brings a response depends on nothing but its own id, between the
   * arrival that posted it and its read: it does exactly if it was not overtaken there.
   */
  lemma ResponseUnlessOvertaken(es: seq<Event>, n: nat)
    requires Possible(INIT, es) && Succeeded(After(INIT, es), n)
    ensures exists p: nat, f: nat ::
      && p < f && PostedAt(es, p, n) && ReadAt(es, f, n, After(INIT, es).requests[n].phase.result)
      && (After(INIT, es).requests[n].phase.result.Some? <==> !Overtaken(es, p + 1, f, n))
  {
    hide Possible, After, StateAt, IdOf, ResponseUnder, EventUnder, Step, Inv, Overtaken;
    var result := After(INIT, es).requests[n].phase.result;
    RunIsStates(es);
    WasRead(es, |es|, n, result);
    var f: nat :| f < |es| && ReadAt(es, f, n, result);
    StepAt(es, f);
    WokenIsPosted(StateAt(es, f), n);
    WasPosted(es, f, n);
    var p: nat :| p < f && PostedAt(es, p, n);
    StepAt(es, p);
    PostStores(StateAt(es, p), es[p].m, n);
    NotErasedBefore(es, f, n);
    HoldsUnlessOvertaken(es, p + 1, f, n);
  }

  // ----- which ids the pending map holds -----

  /** Some request inserts under n's id, which keeps an entry that is there. */
  predicate Enters(e: Event, n: nat) {
    e.Insert? && IdOf(e.n) == IdOf(n)
  }

  /** From one step up to another, some other request erases n's entry, and no request inserts there again. */
  predicate ErasedByAnother(es: seq<Event>, from: nat, to: nat, n: nat)
    requires to <= |es|
  {
    exists j: nat :: from <= j < to && Clears(es[j], n) && forall i: nat :: j < i < to ==> !Enters(es[i], n)
  }

  lemma StepHasEntry(s: State, e: Event, n: nat)
    requires Enabled(s, e) && e != Erase(n)
    ensures IdOf(n) in Step(s, e).messages <==> !Clears(e, n) && (Enters(e, n) || IdOf(n) in s.messages)
  {
    hide IdOf, NextMessageId, Posted, EventUnder;
  }

  lemma ErasedStep(es: seq<Event>, from: nat, to: nat, n: nat)
    requires from <= to < |es|
    ensures ErasedByAnother(es, from, to + 1, n) <==>
      Clears(es[to], n) || (!Enters(es[to], n) && ErasedByAnother(es, from, to, n))
  {
    hide IdOf;
    if Clears(es[to], n) {
      assert !Enters(es[to], n);
    } else if !Enters(es[to], n) && ErasedByAnother(es, from, to, n) {
      var j: nat :| from <= j < to && Clears(es[j], n) && forall i: nat :: j < i < to ==> !Enters(es[i], n);
      assert forall i: nat :: j < i < to + 1 ==> !Enters(es[i], n);
    }
  }

  lemma {:induction false} EntryUnlessErased(es: seq<Event>, p: nat, k: nat, n: nat)
    requires Possible(INIT, es) && p <= k <= |es| && IdOf(n) in StateAt(es, p).messages
    requires forall i :: p <= i < k ==> es[i] != Erase(n)
    ensures IdOf(n) in StateAt(es, k).messages <==> !ErasedByAnother(es, p, k, n)
    decreases k
  {
    hide StateAt, IdOf, Step, Enabled, Clears, Enters, Inv;
    if p < k {
      EntryUnlessErased(es, p, k - 1, n);
      StepAt(es, k - 1);
      StepHasEntry(StateAt(es, k - 1), es[k - 1], n);
      ErasedStep(es, p, k - 1, n);
    }
  }

  lemma PendingStep(s: State, e: Event, n: nat)
    requires Enabled(s, e) && Pending(Step(s, e), n)
    ensures Pending(s, n) || e == Insert(n)
  {
    hide IdOf, NextMessageId, EventUnder;
  }

  lemma {:induction false} WasInserted(es: seq<Event>, k: nat, n: nat)
    requires Possible(INIT, es) && k <= |es| && Pending(StateAt(es, k), n)
    ensures exists p: nat :: p < k && es[p] == Insert(n)
    decreases k
  {
    hide StateAt, Step, Enabled, Inv, Pending;
    if k == 0 {
      NobodyPending(n);
      AtStart(es);
    } else {
      StepAt(es, k - 1);
      PendingStep(StateAt(es, k - 1), es[k - 1], n);
      if es[k - 1] != Insert(n) {
        WasInserted(es, k - 1, n);
      }
    }
  }

  lemma NobodyPending(n: nat)
    ensures !Pending(INIT, n)
  {
  }

  /**
   * In every run, a request between insert and erase has an entry under its id exactly if, after it inserted, no
   * other request with that id has erased the entry without one inserting there again.
   */
  lemma PendingHasEntry(es: seq<Event>, n: nat)
    requires Possible(INIT, es) && Pending(After(INIT, es), n)
    ensures exists p: nat ::
      && p < |es| && es[p] == Insert(n)
      && (IdOf(n) in After(INIT, es).messages <==> !ErasedByAnother(es, p + 1, |es|, n))
  {
    hide Possible, After, StateAt, IdOf, Step, Enabled, Inv, ErasedByAnother, Clears;
    RunIsStates(es);
    WasInserted(es, |es|, n);
    var p: nat :| p < |es| && es[p] == Insert(n);
    StepAt(es, p);
    StepHasEntry(StateAt(es, p), es[p], n);
    NotMine(n);
    NotErasedBefore(es, |es|, n);
    EntryUnlessErased(es, p + 1, |es|, n);
  }

  lemma NotMine(n: nat)
    ensures !Clears(Insert(n), n)
  {
  }

  lemma RunIsStates(es: seq<Event>)
    requires Possible(INIT, es)
    ensures StateAt(es, |es|) == After(INIT, es)
  {
    assert es[..|es|] == es;
  }

  lemma WokenIsPosted(s: State, n: nat)
    requires Inv(s) && Enabled(s, Find(n))
    ensures IsPosted(s, n) && !Returned(s, n)
  {
    hide IdOf;
    assert RequestOk(s, n);
  }

  // ----- in the runs whose ids do not collide -----

  predicate Live(s: State, n: nat) {
    n < |s.requests| && !s.requests[n].phase.Done?
  }

  /** During the life of a request, fewer than 65535 further ids have been allocated. */
  ghost predicate Windowed(s: State) {
    forall n: nat :: Live(s, n) ==> |s.requests| <= n + CYCLE
  }

  ghost predicate WindowedRun(s: State, es: seq<Event>)
    requires Possible(s, es)
    decreases |es|
  {
    Windowed(s) && (es == [] || WindowedRun(Step(s, es[0]), es[1..]))
  }

  lemma LiveIdsDiffer(s: State, m: nat, n: nat)
    requires Windowed(s) && Live(s, m) && Live(s, n) && IdOf(m) == IdOf(n)
    ensures m == n
  {
  }

  /** While n is pending the entry under its id is its own, and it returns SUCCESS with a response. */
  ghost predicate OwnEntry(s: State, n: nat)
    requires n < |s.requests|
  {
    var r := s.requests[n];
    && (Pending(s, n) ==>
          && IdOf(n) in s.messages
          && var e := s.messages[IdOf(n)];
             if r.posts == 0 then e == NetMsg(Some(n), None) else e.event.None? && e.response.Some?)
    && (r.phase.Answered? ==> r.phase.response.Some?)
    && (Succeeded(s, n) ==> r.phase.result.Some?)
  }

  ghost predicate OwnEntries(s: State) {
    forall n :: 0 <= n < |s.requests| ==> OwnEntry(s, n)
  }

  lemma StepKeepsOwn(s: State, e: Event, n: nat)
    requires Inv(s) && OwnEntries(s) && Windowed(s) && Enabled(s, e) && n < |Step(s, e).requests|
    ensures OwnEntry(Step(s, e), n)
  {
    hide IdOf, NextMessageId, EntryOk;
    if n < |s.requests| {
      assert OwnEntry(s, n) && RequestOk(s, n);
      Alone(s, e, n);
    }
  }

  /** No step of another request touches the entry of n, and the insertion of n finds its id free. */
  lemma Alone(s: State, e: Event, n: nat)
    requires Inv(s) && Windowed(s) && Enabled(s, e) && n < |s.requests|
    ensures Pending(s, n) && (e.Insert? || e.Erase?) && e.n != n ==> IdOf(e.n) != IdOf(n)
    ensures e == Insert(n) ==> IdOf(n) !in s.messages
    ensures e.Arrive? && e.m.id in s.messages && s.messages[e.m.id].event.Some? ==>
      (s.messages[e.m.id].event.value == n <==> Pending(s, n) && IdOf(n) == e.m.id)
  {
    hide IdOf, NextMessageId, Step;
    if Pending(s, n) && (e.Insert? || e.Erase?) && IdOf(e.n) == IdOf(n) {
      LiveIdsDiffer(s, e.n, n);
    }
    if e == Insert(n) && IdOf(n) in s.messages {
      assert EntryOk(s, IdOf(n), s.messages[IdOf(n)]);
      var k :| 0 <= k < |s.requests| && Pending(s, k) && IdOf(k) == IdOf(n);
      LiveIdsDiffer(s, k, n);
      assert false;
    }
    if e.Arrive? && e.m.id in s.messages && s.messages[e.m.id].event.Some? {
      assert EntryOk(s, e.m.id, s.messages[e.m.id]);
      if Pending(s, n) && IdOf(n) == e.m.id {
        LiveIdsDiffer(s, s.messages[e.m.id].event.value, n);
      }
    }
  }

  lemma {:induction false} RunKeepsOwn(s: State, es: seq<Event>)
    requires Inv(s) && OwnEntries(s) && Possible(s, es) && WindowedRun(s, es)
    ensures OwnEntries(After(s, es))
    decreases |es|
  {
    hide Enabled, Step, Inv, OwnEntry, Windowed;
    if es != [] {
      var t := Step(s, es[0]);
      StepKeepsInv(s, es[0]);
      forall n | 0 <= n < |t.requests|
        ensures OwnEntry(t, n)
      {
        StepKeepsOwn(s, es[0], n);
      }
      RunKeepsOwn(t, es[1..]);
    }
  }

  // ----- what SUCCESS means -----

  /** A request that returns SUCCESS was posted once and returns a response that carries its own id. */
  lemma SuccessIsOwn(es: seq<Event>, n: nat)
    requires Possible(INIT, es) && WindowedRun(INIT, es) && Succeeded(After(INIT, es), n)
    ensures
      var r := After(INIT, es).requests[n];
      && r.posts == 1 && r.phase.result.Some? && r.phase.result.value.id == IdOf(n) && r.phase.result.value.text != ""
      && exists k :: ArrivedWhilePending(INIT, es, k, n, r.phase.result.value)
  {
    hide Possible, After, IdOf, ArrivedWhilePending;
    InitInv();
    RunKeepsOwn(INIT, es);
    EveryRun(es, n);
    assert OwnEntry(After(INIT, es), n);
  }

  /** When ids do not collide, the pending map holds exactly the ids between insert and erase. */
  lemma DomainIsPending(es: seq<Event>, id: int)
    requires Possible(INIT, es) && WindowedRun(INIT, es)
    ensures id in After(INIT, es).messages <==> HasPending(After(INIT, es), id)
  {
    hide Possible, After, IdOf;
    InitInv();
    RunKeepsInv(INIT, es);
    RunKeepsOwn(INIT, es);
    var s := After(INIT, es);
    if id in s.messages {
      assert EntryOk(s, id, s.messages[id]);
    }
    if HasPending(s, id) {
      var n :| 0 <= n < |s.requests| && Pending(s, n) && IdOf(n) == id;
      assert OwnEntry(s, n);
    }
  }

  /** The server answers a request it was sent, under that request's id. */
  predicate Answers(s: State, m: Message) {
    m.origin < |s.requests| && m.id == IdOf(m.origin)
  }

  lemma SameIdApart(m: nat, n: nat)
    requires IdOf(m) == IdOf(n)
    ensures m == n <==> m < n + CYCLE && n < m + CYCLE
  {
  }

  /**
   * In any run, the response a request returns answers this very request exactly if it was not 65535 or more
   * requests away; and, as long as the request itself was not that old, exactly if the reply was not.
   */
  lemma SuccessAnswersTheRequest(es: seq<Event>, n: nat)
    requires Possible(INIT, es) && Succeeded(After(INIT, es), n) && After(INIT, es).requests[n].phase.result.Some?
    ensures exists k :: ArrivedWhilePending(INIT, es, k, n, After(INIT, es).requests[n].phase.result.value)
    ensures
      var m := After(INIT, es).requests[n].phase.result.value;
      forall k: nat :: ArrivedWhilePending(INIT, es, k, n, m) && Answers(After(INIT, es[..k]), m) ==>
        && (m.origin == n <==> m.origin < n + CYCLE && n < m.origin + CYCLE)
        && var total := |After(INIT, es[..k]).requests|;
           total <= n + CYCLE ==> (m.origin == n <==> total <= m.origin + CYCLE)
  {
    hide Possible, After, IdOf;
    EveryRun(es, n);
    var m := After(INIT, es).requests[n].phase.result.value;
    forall k: nat | ArrivedWhilePending(INIT, es, k, n, m) && Answers(After(INIT, es[..k]), m)
      ensures m.origin == n <==> m.origin < n + CYCLE && n < m.origin + CYCLE
    {
      SameIdApart(m.origin, n);
    }
  }

  predicate TimelyRun(s: State, es: seq<Event>)
    requires Possible(s, es)
    decreases |es|
  {
    es == [] || (Timely(s, es[0]) && TimelyRun(Step(s, es[0]), es[1..]))
  }

  /** A reply arrives before 65535 further ids have been allocated. */
  predicate Timely(s: State, e: Event) {
    e.Arrive? ==> Answers(s, e.m) && |s.requests| <= e.m.origin + CYCLE
  }

  lemma {:induction false} TimelyAt(s: State, es: seq<Event>, k: nat)
    requires Possible(s, es) && TimelyRun(s, es) && WindowedRun(s, es) && k < |es| && Possible(s, es[..k])
    ensures Timely(After(s, es[..k]), es[k]) && Windowed(After(s, es[..k]))
    decreases k
  {
    hide Enabled, Step, Timely, Windowed;
    if k > 0 {
      assert es[..k][0] == es[0] && es[..k][1..] == es[1..][..k - 1];
      TimelyAt(Step(s, es[0]), es[1..], k - 1);
    }
  }

  /** So if no request and no reply is that late, every response answers the request that returns it. */
  lemma TimelyRunsAnswer(es: seq<Event>, n: nat)
    requires Possible(INIT, es) && WindowedRun(INIT, es) && TimelyRun(INIT, es) && Succeeded(After(INIT, es), n)
    ensures
      var r := After(INIT, es).requests[n].phase.result;
      r.Some? && r.value.origin == n
  {
    hide Possible, After, IdOf, WindowedRun, TimelyRun;
    SuccessIsOwn(es, n);
    SuccessAnswersTheRequest(es, n);
    var m := After(INIT, es).requests[n].phase.result.value;
    var k: nat :| ArrivedWhilePending(INIT, es, k, n, m);
    TimelyAt(INIT, es, k);
    assert Live(After(INIT, es[..k]), n);
  }
}
