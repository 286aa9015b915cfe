/** Runs that show why the side conditions of CorrelationSafety are there. */
module CorrelationLimits {
  import opened Correlation
  import opened CorrelationSafety
  import opened ThreadSafeMap
  import opened Wrappers

  ghost predicate Reaches(es: seq<Event>, t: State, windowed: bool) {
    Possible(INIT, es) && After(INIT, es) == t && (windowed ==> WindowedRun(INIT, es))
  }

  lemma {:induction false} Extends(s: State, es: seq<Event>, e: Event)
    requires Possible(s, es) && Enabled(After(s, es), e)
    ensures Possible(s, es + [e]) && After(s, es + [e]) == Step(After(s, es), e)
    ensures WindowedRun(s, es) && Windowed(Step(After(s, es), e)) ==> WindowedRun(s, es + [e])
    decreases |es|
  {
    hide Enabled, Step, Windowed;
    if es == [] {
      assert [] + [e] == [e] && [e][0] == e && [e][1..] == [];
      assert Possible(Step(s, e), []) && After(Step(s, e), []) == Step(s, e);
    } else {
      Extends(Step(s, es[0]), es[1..], e);
      assert (es + [e])[1..] == es[1..] + [e];
    }
  }

  lemma Then(es: seq<Event>, t: State, windowed: bool, e: Event)
    requires Reaches(es, t, windowed) && Enabled(t, e) && (windowed ==> Windowed(Step(t, e)))
    ensures Reaches(es + [e], Step(t, e), windowed)
  {
    hide Enabled, Step, Windowed;
    Extends(INIT, es, e);
  }

  predicate Idle(s: State) {
    forall n :: 0 <= n < |s.requests| ==> s.requests[n].phase.Done?
  }

  function Failed(): Request {
    Request(Done(INIT_ERROR, None), 0, 0)
  }

  /** One more id is used up by a request that ends at once. */
  lemma IdPasses(es: seq<Event>, t: State, windowed: bool)
    requires Reaches(es, t, windowed) && (windowed ==> Idle(t))
    ensures
      var n := |t.requests|;
      Reaches(es + [Allocate] + [InitFails(n)],
        t.(messageId := NextMessageId(t.messageId), requests := t.requests + [Failed()]), windowed)
  {
    hide Possible, After, NextMessageId;
    var n := |t.requests|;
    Then(es, t, windowed, Allocate);
    var u := Step(t, Allocate);
    Then(es + [Allocate], u, windowed, InitFails(n));
    assert Step(u, InitFails(n)).requests == t.requests + [Failed()];
  }

  lemma {:induction false} IdsPass(es: seq<Event>, t: State, windowed: bool, k: nat)
    requires Reaches(es, t, windowed) && (windowed ==> Idle(t))
    ensures exists fs, u ::
      && Reaches(fs, u, windowed) && |u.requests| == |t.requests| + k && t.requests <= u.requests
      && u.messages == t.messages && u.heard == t.heard && (windowed ==> Idle(u))
  {
    hide NextMessageId, Reaches;
    if k > 0 {
      IdsPass(es, t, windowed, k - 1);
      var fs, u :|
        && Reaches(fs, u, windowed) && |u.requests| == |t.requests| + (k - 1) && t.requests <= u.requests
        && u.messages == t.messages && u.heard == t.heard && (windowed ==> Idle(u));
      IdPasses(fs, u, windowed);
    }
  }

  /** The next request is allocated, inserted and sent. */
  function Submitted(t: State): State {
    var n := |t.requests|;
    t.(messageId := NextMessageId(t.messageId), requests := t.requests + [Request(Waiting, 0, 0)],
       messages := Inserted(t.messages, IdOf(n), NetMsg(Some(n), None)))
  }

  lemma Submits(es: seq<Event>, t: State, windowed: bool)
    requires Reaches(es, t, windowed) && (windowed ==> Idle(t))
    ensures Reaches(es + [Allocate] + [Insert(|t.requests|)] + [Sent(|t.requests|)], Submitted(t), windowed)
  {
    hide Possible, After, NextMessageId, IdOf;
    var n := |t.requests|;
    Then(es, t, windowed, Allocate);
    var u := Step(t, Allocate);
    Then(es + [Allocate], u, windowed, Insert(n));
    var v := Step(u, Insert(n));
    Then(es + [Allocate] + [Insert(n)], v, windowed, Sent(n));
    assert Step(v, Sent(n)).requests == t.requests + [Request(Waiting, 0, 0)];
  }

  /** One request at a time: a reply 65535 ids too late is returned, with SUCCESS, by another request. */
  lemma LateReplyIsTaken(text: Text)
    ensures exists es, s ::
      && Reaches(es, s, true) && |s.requests| == CYCLE + 1
      && s.requests[CYCLE].phase == Done(SUCCESS, Some(Message(IdOf(0), text, 0)))
  {
    hide Reaches, NextMessageId;
    FirstGivesUp();
    var es, t :|
      Reaches(es, t, true) && t.requests == [Request(Done(REQ_RES_TIMEOUT, None), 0, 0)] && t.messages == map[];
    IdsPass(es, t, true, CYCLE - 1);
    var fs, u :| Reaches(fs, u, true) && |u.requests| == CYCLE && u.messages == map[] && Idle(u);
    Submits(fs, u, true);
    var gs := fs + [Allocate] + [Insert(CYCLE)] + [Sent(CYCLE)];
    IsAnswered(gs, Submitted(u), CYCLE, Message(IdOf(0), text, 0));
  }

  lemma FirstGivesUp()
    ensures exists es, t ::
      Reaches(es, t, true) && t.requests == [Request(Done(REQ_RES_TIMEOUT, None), 0, 0)] && t.messages == map[]
  {
    hide Possible, After, NextMessageId;
    Begin();
    Submits([], INIT, true);
    var es, t := [] + [Allocate] + [Insert(0)] + [Sent(0)], Submitted(INIT);
    Then(es, t, true, GiveUp(0, REQ_RES_TIMEOUT));
    var u := Step(t, GiveUp(0, REQ_RES_TIMEOUT));
    Then(es + [GiveUp(0, REQ_RES_TIMEOUT)], u, true, Erase(0));
    assert Step(u, Erase(0)).messages == map[];
  }

  lemma Begin()
    ensures Reaches([], INIT, true) && Idle(INIT)
  {
  }

  /** A waiting request n, the only live one, is answered with m and returns. */
  lemma IsAnswered(es: seq<Event>, t: State, n: nat, m: Message)
    requires Reaches(es, t, true) && n + 1 == |t.requests| && t.requests[n] == Request(Waiting, 0, 0)
    requires forall k :: 0 <= k < n ==> t.requests[k].phase.Done?
    requires m.id == IdOf(n) && m.id in t.messages && t.messages[m.id] == NetMsg(Some(n), None)
    ensures exists fs, u ::
      Reaches(fs, u, true) && |u.requests| == |t.requests| && u.requests[n].phase == Done(SUCCESS, Some(m))
  {
    hide Possible, After, NextMessageId, IdOf, WindowedRun;
    Then(es, t, true, Arrive(m));
    var t1 := Step(t, Arrive(m));
    Then(es + [Arrive(m)], t1, true, Wake(n));
    var t2 := Step(t1, Wake(n));
    Then(es + [Arrive(m)] + [Wake(n)], t2, true, Find(n));
    var t3 := Step(t2, Find(n));
    Then(es + [Arrive(m)] + [Wake(n)] + [Find(n)], t3, true, Erase(n));
    assert Step(t3, Erase(n)).requests[n].phase == Done(SUCCESS, Some(m));
  }

  /** A request overtaken by 65535 further ids between its post and its read returns SUCCESS with no response. */
  lemma OvertakenReadsNothing(text: Text)
    ensures exists es, s ::
      && Reaches(es, s, false) && |s.requests| == CYCLE + 1 && s.requests[0].posts == 1
      && s.requests[0].phase == Done(SUCCESS, None)
  {
    hide Reaches, NextMessageId;
    FirstWakes(text);
    var es, t :| Reaches(es, t, false) && t.requests == [Request(Woken, 0, 1)];
    IdsPass(es, t, false, CYCLE - 1);
    var fs, u :| Reaches(fs, u, false) && |u.requests| == CYCLE && t.requests <= u.requests;
    Submits(fs, u, false);
    var gs := fs + [Allocate] + [Insert(CYCLE)] + [Sent(CYCLE)];
    assert u.requests[0] == Request(Woken, 0, 1);
    IsOvertaken(gs, Submitted(u));
  }

  /** The later request with id 1 gives up and erases the entry before the first one reads it. */
  lemma IsOvertaken(es: seq<Event>, t: State)
    requires Reaches(es, t, false) && |t.requests| == CYCLE + 1
    requires t.requests[0] == Request(Woken, 0, 1) && t.requests[CYCLE] == Request(Waiting, 0, 0)
    ensures exists fs, u ::
      Reaches(fs, u, false) && |u.requests| == CYCLE + 1 && u.requests[0] == Request(Done(SUCCESS, None), 0, 1)
  {
    hide Reaches;
    var e := GiveUp(CYCLE, REQ_RES_TIMEOUT);
    Then(es, t, false, e);
    var t1 := Step(t, e);
    Then(es + [e], t1, false, Erase(CYCLE));
    var t2 := Step(t1, Erase(CYCLE));
    assert IdOf(CYCLE) == IdOf(0) && IdOf(0) !in t2.messages;
    Then(es + [e] + [Erase(CYCLE)], t2, false, Find(0));
    var t3 := Step(t2, Find(0));
    Then(es + [e] + [Erase(CYCLE)] + [Find(0)], t3, false, Erase(0));
    assert Step(t3, Erase(0)).requests[0] == Request(Done(SUCCESS, None), 0, 1);
  }

  lemma FirstWakes(text: Text)
    ensures exists es, t :: Reaches(es, t, false) && t.requests == [Request(Woken, 0, 1)]
  {
    hide Possible, After, NextMessageId;
    Begin();
    Submits([], INIT, true);
    var es, t := [] + [Allocate] + [Insert(0)] + [Sent(0)], Submitted(INIT);
    var m := Message(IdOf(0), text, 0);
    Then(es, t, false, Arrive(m));
    Then(es + [Arrive(m)], Step(t, Arrive(m)), false, Wake(0));
  }
}
