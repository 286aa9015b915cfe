/**
 * Matching responses to blocked requests in the client SDK: any number of requesting threads, the thread that
 * receives, and timeouts, interleaved at every use of the pending map and of the semaphores.
 */
module Correlation {
  import opened ThreadSafeMap
  import opened Wrappers

  /** Message ids run from 1 to 65535 and start again at 1. */
  const CYCLE: nat := 65535

  function NextMessageId(messageId: int): int {
    if messageId >= 65535 then 1 else messageId + 1
  }

  function IdOf(n: nat): nat {
    n % CYCLE + 1
  }

  /** What an id was parsed from. */
  type Text = s: string | s != "" witness "{}"

  /** A response as parsed: its id, its text, and the request the server was answering (history). */
  datatype Message = Message(id: int, text: Text, origin: nat)

  /** NET_MSG. The event is the semaphore of the request with that serial number; no response is the empty text. */
  datatype NetMsg = NetMsg(event: Option<nat>, response: Option<Message>)

  datatype Ret = SUCCESS | INIT_ERROR | SEND_ERROR | REQ_RES_TIMEOUT | REQ_RES_OTHER_ERROR

  /** Where a requesting thread is in GetResponseByRequest. */
  datatype Phase =
    | Allocated
    | Entered
    | Waiting
    | Woken
    | Answered(response: Option<Message>)   // FindResponseByMessageId has returned
    | Failing(ret: Ret)                     // the error is known, the entry not erased yet
    | Done(ret: Ret, result: Option<Message>)

  /** sem is the value of the semaphore; posts counts every sem_post on it (history). */
  datatype Request = Request(phase: Phase, sem: nat, posts: nat)

  datatype State = State(
    messageId: int,
    requests: seq<Request>,             // by serial number
    messages: map<int, NetMsg>,         // map_message_
    heard: set<(nat, Message)>)         // messages that found an entry under the id of a pending request (history)

  const INIT := State(0, [], map[], {})

  datatype Event =
    | Allocate                          // GetMessageId
    | InitFails(n: nat)                 // sem_init
    | Insert(n: nat)
    | Sent(n: nat)                      // the request is handed over, or needs no connection
    | SendFails(n: nat)
    | Wake(n: nat)                      // sem_timedwait takes the semaphore
    | GiveUp(n: nat, ret: Ret)          // it times out, or is interrupted
    | Find(n: nat)                      // FindResponseByMessageId
    | Erase(n: nat)                     // ClearMapByMessageId and return
    | Arrive(m: Message)                // findAndSet, and sem_post if there is an event

  /** Between insert and erase. */
  predicate Pending(s: State, n: nat) {
    n < |s.requests| && !s.requests[n].phase.Allocated? && !s.requests[n].phase.Done?
  }

  /** The semaphore FindEventByMessageIdAndSetResponse returns: that of the entry, unless it was posted before. */
  function EventUnder(messages: map<int, NetMsg>, id: int): Option<nat> {
    if id in messages then messages[id].event else None
  }

  predicate Enabled(s: State, e: Event) {
    match e
    case Allocate => true
    case InitFails(n) => n < |s.requests| && s.requests[n].phase.Allocated?
    case Insert(n) => n < |s.requests| && s.requests[n].phase.Allocated?
    case Sent(n) => n < |s.requests| && s.requests[n].phase.Entered?
    case SendFails(n) => n < |s.requests| && s.requests[n].phase.Entered?
    case Wake(n) => n < |s.requests| && s.requests[n].phase.Waiting? && s.requests[n].sem > 0
    case GiveUp(n, ret) =>
      n < |s.requests| && s.requests[n].phase.Waiting? && (ret.REQ_RES_TIMEOUT? || ret.REQ_RES_OTHER_ERROR?)
    case Find(n) => n < |s.requests| && s.requests[n].phase.Woken?
    case Erase(n) => n < |s.requests| && (s.requests[n].phase.Answered? || s.requests[n].phase.Failing?)
    case Arrive(m) => EventUnder(s.messages, m.id).Some? ==> EventUnder(s.messages, m.id).value < |s.requests|
  }

  function InPhaseOf(s: State, n: nat, phase: Phase): State
    requires n < |s.requests|
  {
    s.(requests := s.requests[n := s.requests[n].(phase := phase)])
  }

  /** The text FindResponseByMessageId returns: that of the entry, or the empty one. */
  function ResponseUnder(messages: map<int, NetMsg>, id: int): Option<Message> {
    if id in messages then messages[id].response else None
  }

  function Posted(requests: seq<Request>, event: Option<nat>): seq<Request>
    requires event.Some? ==> event.value < |requests|
  {
    if event.None? then requests
    else
      var r := requests[event.value];
      requests[event.value := r.(sem := r.sem + 1, posts := r.posts + 1)]
  }

  function Step(s: State, e: Event): State
    requires Enabled(s, e)
  {
    match e
    case Allocate => s.(messageId := NextMessageId(s.messageId), requests := s.requests + [Request(Allocated, 0, 0)])
    case InitFails(n) => InPhaseOf(s, n, Done(INIT_ERROR, None))
    case Insert(n) => InPhaseOf(s, n, Entered).(messages := Inserted(s.messages, IdOf(n), NetMsg(Some(n), None)))
    case Sent(n) => InPhaseOf(s, n, Waiting)
    case SendFails(n) => InPhaseOf(s, n, Failing(SEND_ERROR))
    case Wake(n) => s.(requests := s.requests[n := s.requests[n].(phase := Woken, sem := s.requests[n].sem - 1)])
    case GiveUp(n, ret) => InPhaseOf(s, n, Failing(ret))
    case Find(n) => InPhaseOf(s, n, Answered(ResponseUnder(s.messages, IdOf(n))))
    case Erase(n) =>
      var p := s.requests[n].phase;
      var done := if p.Answered? then Done(SUCCESS, p.response) else Done(p.ret, None);
      InPhaseOf(s, n, done).(messages := s.messages - {IdOf(n)})
    case Arrive(m) =>
      s.(messages := Replaced(s.messages, m.id, NetMsg(None, Some(m))),
         requests := Posted(s.requests, EventUnder(s.messages, m.id)),
         heard := s.heard +
           set n | 0 <= n < |s.requests| && Pending(s, n) && IdOf(n) == m.id && m.id in s.messages :: (n, m))
  }

  predicate Possible(s: State, es: seq<Event>)
    decreases |es|
  {
    es == [] || (Enabled(s, es[0]) && Possible(Step(s, es[0]), es[1..]))
  }

  function After(s: State, es: seq<Event>): State
    requires Possible(s, es)
    decreases |es|
  {
    if es == [] then s else After(Step(s, es[0]), es[1..])
  }

  // ----- what holds in every run -----

  predicate HasPending(s: State, id: int) {
    exists n :: 0 <= n < |s.requests| && Pending(s, n) && IdOf(n) == id
  }

  ghost predicate EntryOk(s: State, id: int, m: NetMsg) {
    && HasPending(s, id)
    && (m.event.Some? ==> Pending(s, m.event.value) && IdOf(m.event.value) == id)
    && (m.event.Some? ==> s.requests[m.event.value].posts == 0 && m.response.None?)
    && (m.response.Some? ==> m.response.value.id == id)
  }

  /** What n has read, or would read now that it was posted, arrived while it was pending. */
  ghost predicate ReadsHeard(s: State, n: nat)
    requires n < |s.requests|
  {
    var r := s.requests[n];
    && (r.phase.Answered? && r.phase.response.Some? ==> (n, r.phase.response.value) in s.heard)
    && (r.phase.Done? && r.phase.result.Some? ==> (n, r.phase.result.value) in s.heard)
    && (Pending(s, n) && r.posts == 1 && ResponseUnder(s.messages, IdOf(n)).Some? ==>
          (n, ResponseUnder(s.messages, IdOf(n)).value) in s.heard)
  }

  /** sem_timedwait has taken the semaphore. */
  predicate Taken(phase: Phase) {
    phase.Woken? || phase.Answered? || (phase.Done? && phase.ret.SUCCESS?)
  }

  /** A semaphore keeps its post until sem_timedwait takes it. */
  ghost predicate RequestOk(s: State, n: nat)
    requires n < |s.requests|
  {
    var r := s.requests[n];
    && r.posts <= 1 && r.sem == (if Taken(r.phase) then 0 else r.posts)
    && (r.phase.Allocated? ==> r.posts == 0)
    && (Taken(r.phase) ==> r.posts == 1)
    && (r.phase.Failing? ==> !r.phase.ret.SUCCESS?)
  }

  ghost predicate Inv(s: State) {
    && s.messageId == (if s.requests == [] then 0 else IdOf(|s.requests| - 1))
    && (forall id :: id in s.messages ==> EntryOk(s, id, s.messages[id]))
    && (forall n :: 0 <= n < |s.requests| ==> RequestOk(s, n))
    && (forall n :: 0 <= n < |s.requests| ==> ReadsHeard(s, n))
    && (forall n, m :: (n, m) in s.heard ==> IdOf(n) == m.id)
  }

  lemma NextIdCycles(n: nat)
    ensures NextMessageId(IdOf(n)) == IdOf(n + 1)
  {
  }

  lemma StepKeepsId(s: State, e: Event)
    requires Inv(s) && Enabled(s, e)
    ensures
      var t := Step(s, e);
      t.messageId == if t.requests == [] then 0 else IdOf(|t.requests| - 1)
  {
    hide EntryOk, RequestOk, IdOf, NextMessageId;
    if s.requests != [] {
      NextIdCycles(|s.requests| - 1);
    } else {
      FirstId();
    }
  }

  lemma FirstId()
    ensures NextMessageId(0) == IdOf(0)
  {
  }

  lemma StepKeepsRequests(s: State, e: Event)
    requires Inv(s) && Enabled(s, e)
    ensures forall n :: 0 <= n < |Step(s, e).requests| ==> RequestOk(Step(s, e), n)
  {
    hide IdOf, NextMessageId;
    var t := Step(s, e);
    forall n | 0 <= n < |t.requests|
      ensures RequestOk(t, n)
    {
      assert n < |s.requests| ==> RequestOk(s, n);
    }
  }

  lemma StepKeepsHeard(s: State, e: Event)
    requires Inv(s) && Enabled(s, e)
    ensures forall n, m :: (n, m) in Step(s, e).heard ==> IdOf(n) == m.id
    ensures s.heard <= Step(s, e).heard
  {
    hide IdOf, NextMessageId, EntryOk, RequestOk, ReadsHeard;
  }

  /** An arrival is heard by every pending request with its id. */
  lemma ArrivalIsHeard(s: State, m: Message, n: nat)
    requires Enabled(s, Arrive(m)) && Pending(s, n) && IdOf(n) == m.id && m.id in s.messages
    ensures (n, m) in Step(s, Arrive(m)).heard
  {
    hide IdOf;
  }

  lemma StepKeepsReads(s: State, e: Event, n: nat)
    requires Inv(s) && Enabled(s, e) && n < |Step(s, e).requests|
    ensures ReadsHeard(Step(s, e), n)
  {
    hide IdOf, NextMessageId;
    StepKeepsHeard(s, e);
    if n < |s.requests| {
      assert ReadsHeard(s, n) && RequestOk(s, n);
      if e.Arrive? && Pending(s, n) && IdOf(n) == e.m.id && e.m.id in s.messages {
        ArrivalIsHeard(s, e.m, n);
      }
      if e.Arrive? && e.m.id in s.messages {
        assert EntryOk(s, e.m.id, s.messages[e.m.id]);
      }
    }
  }

  /** Whoever waits for an id either still does, or erases the entry as it stops. */
  lemma StillPending(s: State, e: Event, id: int)
    requires Inv(s) && Enabled(s, e) && id in Step(s, e).messages
    ensures HasPending(Step(s, e), id)
  {
    hide IdOf, NextMessageId, RequestOk, ReadsHeard, Posted;
    PostedKeepsPhases(s.requests, if e.Arrive? then EventUnder(s.messages, e.m.id) else None);
    var t := Step(s, e);
    if id in s.messages {
      assert EntryOk(s, id, s.messages[id]);
      var n :| 0 <= n < |s.requests| && Pending(s, n) && IdOf(n) == id;
      assert Pending(t, n);
    } else {
      assert e.Insert? && Pending(t, e.n);
    }
  }

  lemma PostedKeepsPhases(requests: seq<Request>, event: Option<nat>)
    requires event.Some? ==> event.value < |requests|
    ensures |Posted(requests, event)| == |requests|
    ensures forall n :: 0 <= n < |requests| ==> Posted(requests, event)[n].phase == requests[n].phase
    ensures forall n :: 0 <= n < |requests| && event != Some(n) ==> Posted(requests, event)[n] == requests[n]
  {
  }

  lemma StepKeepsEntry(s: State, e: Event, id: int)
    requires Inv(s) && Enabled(s, e) && id in Step(s, e).messages
    ensures EntryOk(Step(s, e), id, Step(s, e).messages[id])
  {
    hide IdOf, NextMessageId, HasPending, ReadsHeard;
    StillPending(s, e, id);
    if id in s.messages {
      assert EntryOk(s, id, s.messages[id]);
    } else {
      assert e.Insert? && RequestOk(s, e.n);
    }
    if e.Arrive? && e.m.id in s.messages {
      assert EntryOk(s, e.m.id, s.messages[e.m.id]);
    }
  }

  lemma StepKeepsInv(s: State, e: Event)
    requires Inv(s) && Enabled(s, e)
    ensures Inv(Step(s, e))
  {
    hide Step, Enabled, EntryOk, RequestOk, ReadsHeard;
    var t := Step(s, e);
    StepKeepsId(s, e);
    StepKeepsRequests(s, e);
    StepKeepsHeard(s, e);
    forall n | 0 <= n < |t.requests|
      ensures ReadsHeard(t, n)
    {
      StepKeepsReads(s, e, n);
    }
    forall id | id in t.messages
      ensures EntryOk(t, id, t.messages[id])
    {
      StepKeepsEntry(s, e, id);
    }
  }

  lemma {:induction false} RunKeepsInv(s: State, es: seq<Event>)
    requires Inv(s) && Possible(s, es)
    ensures Inv(After(s, es))
    decreases |es|
  {
    hide Enabled, Step, Inv;
    if es != [] {
      StepKeepsInv(s, es[0]);
      RunKeepsInv(Step(s, es[0]), es[1..]);
    }
  }
}
