/** No post is lost, every request can end, and it ends for the reason it returns. */
module CorrelationProgress {
  import opened Correlation
  import opened CorrelationSafety
  import opened Wrappers

  // ----- a semaphore keeps its post -----

  lemma PostedStays(s: State, e: Event, n: nat)
    requires Enabled(s, e) && IsPosted(s, n)
    ensures IsPosted(Step(s, e), n)
  {
    hide IdOf, NextMessageId;
  }

  lemma PostPosts(s: State, m: Message, n: nat)
    requires Enabled(s, Arrive(m)) && EventUnder(s.messages, m.id) == Some(n)
    ensures IsPosted(Step(s, Arrive(m)), n)
  {
    hide IdOf;
  }

  lemma {:induction false} StaysPosted(es: seq<Event>, p: nat, k: nat, n: nat)
    requires Possible(INIT, es) && p <= k <= |es| && IsPosted(StateAt(es, p), n)
    ensures IsPosted(StateAt(es, k), n)
    decreases k
  {
    hide Possible, StateAt, Step, Enabled, Inv, IsPosted;
    if p < k {
      StaysPosted(es, p, k - 1, n);
      StepAt(es, k - 1);
      PostedStays(StateAt(es, k - 1), es[k - 1], n);
    }
  }

  /**
   * In every run, a request that waits can take its semaphore exactly if some arrival has posted it, whatever the
   * request was doing at that time.
   */
  lemma WakesIfPosted(es: seq<Event>, n: nat)
    requires Possible(INIT, es) && n < |After(INIT, es).requests| && After(INIT, es).requests[n].phase.Waiting?
    ensures Enabled(After(INIT, es), Wake(n)) <==> exists p: nat :: p < |es| && PostedAt(es, p, n)
  {
    hide Possible, After, StateAt, Step, IdOf, EventUnder;
    var s := After(INIT, es);
    RunIsStates(es);
    InitInv();
    RunKeepsInv(INIT, es);
    assert RequestOk(s, n);
    if IsPosted(s, n) {
      WasPosted(es, |es|, n);
    }
    if p: nat :| p < |es| && PostedAt(es, p, n) {
      StepAt(es, p);
      PostPosts(StateAt(es, p), es[p].m, n);
      StaysPosted(es, p + 1, |es|, n);
    }
  }

  // ----- every request can return -----

  /** What is left to do for a posted request. */
  function Finishing(phase: Phase, n: nat): seq<Event> {
    match phase
    case Entered => [Sent(n)] + [Wake(n)] + [Find(n)] + [Erase(n)]
    case Waiting => [Wake(n)] + [Find(n)] + [Erase(n)]
    case Woken => [Find(n)] + [Erase(n)]
    case Answered(_) => [Erase(n)]
    case _ => []
  }

  ghost predicate Leads(s: State, es: seq<Event>, n: nat, phase: Phase) {
    Possible(s, es) && n < |After(s, es).requests| && After(s, es).requests[n].phase == phase
  }

  lemma Arrived(s: State, n: nat, phase: Phase)
    requires n < |s.requests| && s.requests[n].phase == phase
    ensures Leads(s, [], n, phase)
  {
  }

  lemma First(s: State, e: Event, es: seq<Event>, n: nat, phase: Phase)
    requires Enabled(s, e) && Leads(Step(s, e), es, n, phase)
    ensures Leads(s, [e] + es, n, phase)
  {
    hide Enabled, Step;
    assert ([e] + es)[1..] == es;
  }

  lemma EraseReturns(s: State, n: nat)
    requires n < |s.requests| && (s.requests[n].phase.Answered? || s.requests[n].phase.Failing?)
    ensures
      var p := s.requests[n].phase;
      Leads(s, [Erase(n)], n, if p.Answered? then Done(SUCCESS, p.response) else Done(p.ret, None))
  {
    hide IdOf;
    var p := s.requests[n].phase;
    var t := Step(s, Erase(n));
    Arrived(t, n, if p.Answered? then Done(SUCCESS, p.response) else Done(p.ret, None));
    First(s, Erase(n), [], n, t.requests[n].phase);
    assert [Erase(n)] + [] == [Erase(n)];
  }

  lemma FindReturns(s: State, n: nat)
    requires n < |s.requests| && s.requests[n].phase.Woken?
    ensures Leads(s, [Find(n)] + [Erase(n)], n, Done(SUCCESS, ResponseUnder(s.messages, IdOf(n))))
  {
    hide IdOf, ResponseUnder;
    var t := Step(s, Find(n));
    EraseReturns(t, n);
    First(s, Find(n), [Erase(n)], n, Done(SUCCESS, ResponseUnder(s.messages, IdOf(n))));
  }

  lemma WakeReturns(s: State, n: nat)
    requires n < |s.requests| && s.requests[n].phase.Waiting? && s.requests[n].sem > 0
    ensures Leads(s, [Wake(n)] + [Find(n)] + [Erase(n)], n, Done(SUCCESS, ResponseUnder(s.messages, IdOf(n))))
  {
    hide IdOf, ResponseUnder;
    var t := Step(s, Wake(n));
    FindReturns(t, n);
    First(s, Wake(n), [Find(n)] + [Erase(n)], n, Done(SUCCESS, ResponseUnder(s.messages, IdOf(n))));
    assert [Wake(n)] + ([Find(n)] + [Erase(n)]) == [Wake(n)] + [Find(n)] + [Erase(n)];
  }

  lemma SentReturns(s: State, n: nat)
    requires n < |s.requests| && s.requests[n].phase.Entered? && s.requests[n].sem > 0
    ensures
      Leads(s, [Sent(n)] + [Wake(n)] + [Find(n)] + [Erase(n)], n, Done(SUCCESS, ResponseUnder(s.messages, IdOf(n))))
  {
    hide IdOf, ResponseUnder;
    var t := Step(s, Sent(n));
    WakeReturns(t, n);
    First(s, Sent(n), [Wake(n)] + [Find(n)] + [Erase(n)], n, Done(SUCCESS, ResponseUnder(s.messages, IdOf(n))));
    assert [Sent(n)] + ([Wake(n)] + [Find(n)] + [Erase(n)]) == [Sent(n)] + [Wake(n)] + [Find(n)] + [Erase(n)];
  }

  /** Neither on its way out nor holding an answer already. */
  predicate Expecting(s: State, n: nat) {
    n < |s.requests| && (s.requests[n].phase.Entered? || s.requests[n].phase.Waiting? || s.requests[n].phase.Woken?)
  }

  lemma ArrivalKeepsPhase(s: State, m: Message, n: nat)
    requires Enabled(s, Arrive(m)) && n < |s.requests|
    ensures var t := Step(s, Arrive(m)); n < |t.requests| && t.requests[n].phase == s.requests[n].phase
    ensures m.id in s.messages ==> ResponseUnder(Step(s, Arrive(m)).messages, m.id) == Some(m)
  {
    hide IdOf;
  }

  /**
   * Without collisions of ids, no reply comes too early or is forgotten: if it arrives under the id of a request
   * that has not given up, whether that is still sending, waiting or just woken, the request can go on by itself
   * and returns SUCCESS with this reply.
   */
  lemma ReplyCanBeReturned(es: seq<Event>, m: Message, n: nat)
    requires Possible(INIT, es) && WindowedRun(INIT, es) && Expecting(After(INIT, es), n) && m.id == IdOf(n)
    ensures
      var s := After(INIT, es);
      && Enabled(s, Arrive(m))
      && Leads(Step(s, Arrive(m)), Finishing(s.requests[n].phase, n), n, Done(SUCCESS, Some(m)))
  {
    hide Possible, After, WindowedRun, IdOf, Leads, EventUnder, ResponseUnder, Step;
    var s := After(INIT, es);
    ArrivalsEnabled(es, m);
    InitInv();
    RunKeepsInv(INIT, es);
    RunKeepsOwn(INIT, es);
    StepKeepsInv(s, Arrive(m));
    var t := Step(s, Arrive(m));
    ArrivalKeepsPhase(s, m, n);
    ReplyPosts(s, m, n);
    assert RequestOk(t, n);
    match s.requests[n].phase
    case Entered => SentReturns(t, n);
    case Waiting => WakeReturns(t, n);
    case Woken => FindReturns(t, n);
    case _ =>
  }

  lemma ReplyPosts(s: State, m: Message, n: nat)
    requires OwnEntries(s) && Enabled(s, Arrive(m)) && Expecting(s, n) && m.id == IdOf(n)
    ensures IsPosted(Step(s, Arrive(m)), n) && IdOf(n) in s.messages
  {
    hide IdOf;
    assert OwnEntry(s, n);
    if s.requests[n].posts == 0 {
      PostPosts(s, m, n);
    } else {
      PostedStays(s, Arrive(m), n);
    }
  }

  /** A request can always return at once, whatever the others do: nothing it does waits for anybody for good. */
  lemma CanReturn(s: State, n: nat)
    requires Live(s, n)
    ensures exists fs: seq<Event>, ret: Ret, result: Option<Message> :: Leads(s, fs, n, Done(ret, result))
  {
    hide IdOf, Step, Enabled, Leads, ResponseUnder;
    match s.requests[n].phase
    case Allocated => FailsAtOnce(s, n);
    case Entered => SendFailureReturns(s, n);
    case Waiting => GiveUpReturns(s, n, REQ_RES_TIMEOUT);
    case Woken => FindReturns(s, n);
    case Answered(_) => EraseReturns(s, n);
    case Failing(_) => EraseReturns(s, n);
  }

  lemma FailsAtOnce(s: State, n: nat)
    requires n < |s.requests| && s.requests[n].phase.Allocated?
    ensures Leads(s, [InitFails(n)], n, Done(INIT_ERROR, None))
  {
    hide IdOf;
    Arrived(Step(s, InitFails(n)), n, Done(INIT_ERROR, None));
    First(s, InitFails(n), [], n, Done(INIT_ERROR, None));
    assert [InitFails(n)] + [] == [InitFails(n)];
  }

  lemma SendFailureReturns(s: State, n: nat)
    requires n < |s.requests| && s.requests[n].phase.Entered?
    ensures Leads(s, [SendFails(n)] + [Erase(n)], n, Done(SEND_ERROR, None))
  {
    hide IdOf;
    var t := Step(s, SendFails(n));
    EraseReturns(t, n);
    First(s, SendFails(n), [Erase(n)], n, Done(SEND_ERROR, None));
  }

  lemma GiveUpReturns(s: State, n: nat, ret: Ret)
    requires n < |s.requests| && s.requests[n].phase.Waiting? && (ret.REQ_RES_TIMEOUT? || ret.REQ_RES_OTHER_ERROR?)
    ensures Leads(s, [GiveUp(n, ret)] + [Erase(n)], n, Done(ret, None))
  {
    hide IdOf;
    var t := Step(s, GiveUp(n, ret));
    EraseReturns(t, n);
    First(s, GiveUp(n, ret), [Erase(n)], n, Done(ret, None));
  }

  // ----- why a request returns what it returns -----

  /** The step after which n can only return ret. */
  predicate Decides(e: Event, n: nat, ret: Ret) {
    match ret
    case SUCCESS => e == Wake(n)
    case INIT_ERROR => e == InitFails(n)
    case SEND_ERROR => e == SendFails(n)
    case REQ_RES_TIMEOUT => e == GiveUp(n, ret)
    case REQ_RES_OTHER_ERROR => e == GiveUp(n, ret)
  }

  /** n has returned ret, or is about to. */
  predicate Heads(s: State, n: nat, ret: Ret) {
    n < |s.requests| &&
    match s.requests[n].phase
    case Woken => ret.SUCCESS?
    case Answered(_) => ret.SUCCESS?
    case Failing(r) => ret == r
    case Done(r, _) => ret == r
    case _ => false
  }

  lemma HeadsStep(s: State, e: Event, n: nat, ret: Ret)
    requires Inv(s) && Enabled(s, e)
    ensures Heads(Step(s, e), n, ret) <==> Decides(e, n, ret) || Heads(s, n, ret)
  {
    hide IdOf, NextMessageId, EntryOk, ReadsHeard, EventUnder, ResponseUnder, Posted;
    PostedKeepsPhases(s.requests, if e.Arrive? then EventUnder(s.messages, e.m.id) else None);
  }

  lemma {:induction false} HeadsIfDecided(es: seq<Event>, k: nat, n: nat, ret: Ret)
    requires Possible(INIT, es) && k <= |es|
    ensures Heads(StateAt(es, k), n, ret) <==> exists j: nat :: j < k && Decides(es[j], n, ret)
    decreases k
  {
    hide Possible, StateAt, Step, Enabled, Inv, Decides;
    if k == 0 {
      AtStart(es);
    } else {
      hide Heads;
      HeadsIfDecided(es, k - 1, n, ret);
      StepAt(es, k - 1);
      HeadsStep(StateAt(es, k - 1), es[k - 1], n, ret);
    }
  }

  /**
   * In every run, a request that has returned returned ret exactly if the step for it occurred: the semaphore was
   * taken, or its set-up, the handing over or the waiting failed in this way. Only SUCCESS brings a response.
   */
  lemma ReturnsItsReason(es: seq<Event>, n: nat, ret: Ret)
    requires Possible(INIT, es) && Returned(After(INIT, es), n)
    ensures
      var p := After(INIT, es).requests[n].phase;
      && (p.ret == ret <==> exists j: nat :: j < |es| && Decides(es[j], n, ret))
      && (!p.ret.SUCCESS? ==> p.result.None?)
  {
    hide Possible, After, StateAt, Decides;
    RunIsStates(es);
    HeadsIfDecided(es, |es|, n, ret);
    FailuresAreEmpty(es, |es|, n);
  }

  predicate EmptyUnlessSuccess(s: State, n: nat) {
    n < |s.requests| && s.requests[n].phase.Done? && !s.requests[n].phase.ret.SUCCESS? ==>
      s.requests[n].phase.result.None?
  }

  lemma EmptyStep(s: State, e: Event, n: nat)
    requires Enabled(s, e) && EmptyUnlessSuccess(s, n)
    ensures EmptyUnlessSuccess(Step(s, e), n)
  {
    hide IdOf, NextMessageId, EventUnder, ResponseUnder, Posted;
    PostedKeepsPhases(s.requests, if e.Arrive? then EventUnder(s.messages, e.m.id) else None);
  }

  lemma {:induction false} FailuresAreEmpty(es: seq<Event>, k: nat, n: nat)
    requires Possible(INIT, es) && k <= |es|
    ensures EmptyUnlessSuccess(StateAt(es, k), n)
    decreases k
  {
    hide Possible, StateAt, Step, Enabled, Inv;
    if k == 0 {
      AtStart(es);
    } else {
      hide EmptyUnlessSuccess;
      FailuresAreEmpty(es, k - 1, n);
      StepAt(es, k - 1);
      EmptyStep(StateAt(es, k - 1), es[k - 1], n);
    }
  }
}
