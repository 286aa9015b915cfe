/** The pool of idle SQL connections, whose size is checked before the lock is taken. */
module SqlPool {
  import opened Wrappers

  type Connection = nat

  /** A connection is turned away when more than this many are idle. */
  const LIMIT: nat := 64

  function Added(queue: seq<Connection>, conn: Connection): seq<Connection> {
    if conn in queue then queue else queue + [conn]
  }

  class CSqlConnPool {
    var queue_conn_: seq<Connection>

    constructor (conns: seq<Connection>)
      ensures queue_conn_ == conns
    {
      queue_conn_ := conns;
    }

    /** The part of ReleaseConnection under the lock: a search, and push_back of what was not found. */
    method Push(conn: Option<Connection>)
      modifies this
      ensures queue_conn_ == if conn.Some? then Added(old(queue_conn_), conn.value) else old(queue_conn_)
    {
      if conn.Some? {
        var found := false;
        var pos := 0;
        while pos < |queue_conn_|
          invariant 0 <= pos <= |queue_conn_| && queue_conn_ == old(queue_conn_)
          invariant !found && conn.value !in queue_conn_[..pos]
        {
          if queue_conn_[pos] == conn.value {
            found := true;
            break;
          }
          pos := pos + 1;
        }
        if !found {
          queue_conn_ := queue_conn_ + [conn.value];
        }
      }
    }

    /**
     * An idle connection that is no longer valid is terminated, but the variable still points to it, so it is
     * what the caller gets; a new one is created only when no idle connection was found.
     */
    method GetConnection(valid: bool, created: Option<Connection>)
      returns (conn: Option<Connection>, terminated: set<Connection>)
      modifies this
      ensures queue_conn_ == if old(queue_conn_) == [] then [] else old(queue_conn_)[1..]
      ensures conn == if old(queue_conn_) == [] then created else Some(old(queue_conn_)[0])
      ensures conn.Some? && conn.value in terminated <==> old(queue_conn_) != [] && !valid
    {
      conn, terminated := None, {};
      if queue_conn_ != [] {
        conn := Some(queue_conn_[0]);
        queue_conn_ := queue_conn_[1..];
      }
      if conn.Some? {
        if !valid {
          terminated := {conn.value};
        }
      }
      if conn == None {
        conn := created;
      }
    }
  }

  // ----- k threads that release -----

  /** past holds the threads between the check and the lock, with what they release. */
  datatype State = State(queue: seq<Connection>, past: map<nat, Option<Connection>>)

  datatype Event =
    | Check(t: nat, conn: Option<Connection>)
    | Push(t: nat)
    | Take                                     // GetConnection

  predicate Enabled(s: State, e: Event, k: nat) {
    match e
    case Check(t, conn) => t < k && t !in s.past
    case Push(t) => t in s.past
    case Take => true
  }

  function Step(s: State, e: Event, k: nat): State
    requires Enabled(s, e, k)
  {
    match e
    case Check(t, conn) => if |s.queue| > LIMIT then s else s.(past := s.past[t := conn])
    case Push(t) =>
      State(if s.past[t].Some? then Added(s.queue, s.past[t].value) else s.queue, s.past - {t})
    case Take => if s.queue == [] then s else s.(queue := s.queue[1..])
  }

  predicate Possible(s: State, es: seq<Event>, k: nat)
    decreases |es|
  {
    es == [] || (Enabled(s, es[0], k) && Possible(Step(s, es[0], k), es[1..], k))
  }

  function After(s: State, es: seq<Event>, k: nat): State
    requires Possible(s, es, k)
    decreases |es|
  {
    if es == [] then s else After(Step(s, es[0], k), es[1..], k)
  }

  predicate NoDuplicates(queue: seq<Connection>) {
    forall i, j :: 0 <= i < j < |queue| ==> queue[i] != queue[j]
  }

  function Threads(k: nat): (r: set<nat>)
    ensures forall t :: t in r <==> 0 <= t < k
    ensures |r| == k
  {
    if k == 0 then {} else Threads(k - 1) + {k - 1}
  }

  /** A check passes below the limit, so every thread past it can still be accounted for. */
  ghost predicate Inv(s: State, k: nat) {
    |s.queue| + |s.past| <= LIMIT + k && s.past.Keys <= Threads(k) && NoDuplicates(s.queue)
  }

  lemma {:induction false} SubsetSize(a: set<nat>, b: set<nat>)
    requires a <= b
    ensures |a| <= |b|
    decreases |a|
  {
    if a != {} {
      var x :| x in a;
      SubsetSize(a - {x}, b - {x});
    }
  }

  lemma AddedKeepsNoDuplicates(queue: seq<Connection>, conn: Connection)
    requires NoDuplicates(queue)
    ensures NoDuplicates(Added(queue, conn)) && |Added(queue, conn)| <= |queue| + 1
  {
  }

  lemma StepKeepsInv(s: State, e: Event, k: nat)
    requires Inv(s, k) && Enabled(s, e, k)
    ensures Inv(Step(s, e, k), k)
  {
    hide Added, Threads;
    match e
    case Check(t, conn) =>
      if |s.queue| <= LIMIT {
        var past := s.past[t := conn];
        assert past.Keys == s.past.Keys + {t} && past.Keys <= Threads(k);
        SubsetSize(past.Keys, Threads(k));
      }
    case Push(t) =>
      assert (s.past - {t}).Keys == s.past.Keys - {t};
      if s.past[t].Some? {
        AddedKeepsNoDuplicates(s.queue, s.past[t].value);
      }
    case Take =>
  }

  /** From any queue within the bound, k releasing threads never push it beyond 64 + k, and nothing twice. */
  lemma {:induction false} NeverBeyond(s: State, es: seq<Event>, k: nat)
    requires Inv(s, k) && Possible(s, es, k)
    ensures |After(s, es, k).queue| <= 64 + k && NoDuplicates(After(s, es, k).queue)
    decreases |es|
  {
    hide Step, Enabled;
    if es != [] {
      StepKeepsInv(s, es[0], k);
      NeverBeyond(Step(s, es[0], k), es[1..], k);
    }
  }

  // ----- and the bound is reached -----

  function Idle(n: nat): seq<Connection> {
    seq(n, i => i)
  }

  function Releasing(from: nat, to: nat): map<nat, Option<Connection>> {
    map t | t in Threads(to) && from <= t :: Some(LIMIT + t)
  }

  lemma CheckOne(j: nat, k: nat)
    requires j < k
    ensures
      var s, e := State(Idle(LIMIT), Releasing(0, j)), Check(j, Some(LIMIT + j));
      Enabled(s, e, k) && Step(s, e, k) == State(Idle(LIMIT), Releasing(0, j + 1))
  {
    assert Releasing(0, j)[j := Some(LIMIT + j)] == Releasing(0, j + 1);
  }

  lemma PushOne(j: nat, k: nat)
    requires j < k
    ensures
      var s := State(Idle(LIMIT + j), Releasing(j, k));
      Enabled(s, Push(j), k) && Step(s, Push(j), k) == State(Idle(LIMIT + j + 1), Releasing(j + 1, k))
  {
    assert Releasing(j, k) - {j} == Releasing(j + 1, k);
    assert LIMIT + j !in Idle(LIMIT + j) && Idle(LIMIT + j) + [LIMIT + j] == Idle(LIMIT + j + 1);
  }

  predicate Reaches(es: seq<Event>, s: State, k: nat) {
    Possible(State(Idle(LIMIT), map[]), es, k) && After(State(Idle(LIMIT), map[]), es, k) == s
  }

  lemma {:induction false} AllCheck(j: nat, k: nat)
    requires j <= k
    ensures exists es, s :: Reaches(es, s, k) && s == State(Idle(LIMIT), Releasing(0, j))
  {
    if j == 0 {
      assert Releasing(0, 0) == map[];
      assert Reaches([], State(Idle(LIMIT), Releasing(0, 0)), k);
    } else {
      hide Step, Enabled, Idle, Releasing, Possible, After;
      AllCheck(j - 1, k);
      var es, s :| Reaches(es, s, k) && s == State(Idle(LIMIT), Releasing(0, j - 1));
      CheckOne(j - 1, k);
      var e := Check(j - 1, Some(LIMIT + (j - 1)));
      Extends(State(Idle(LIMIT), map[]), es, e, k);
      assert Reaches(es + [e], Step(s, e, k), k);
    }
  }

  lemma {:induction false} AllPush(j: nat, k: nat)
    requires j <= k
    ensures exists es, s :: Reaches(es, s, k) && s == State(Idle(LIMIT + j), Releasing(j, k))
  {
    hide Step, Enabled, Idle, Releasing, Possible, After;
    if j == 0 {
      AllCheck(k, k);
    } else {
      AllPush(j - 1, k);
      var es, s :| Reaches(es, s, k) && s == State(Idle(LIMIT + (j - 1)), Releasing(j - 1, k));
      PushOne(j - 1, k);
      Extends(State(Idle(LIMIT), map[]), es, Push(j - 1), k);
      assert Reaches(es + [Push(j - 1)], Step(s, Push(j - 1), k), k);
    }
  }

  lemma {:induction false} Extends(s: State, es: seq<Event>, e: Event, k: nat)
    requires Possible(s, es, k) && Enabled(After(s, es, k), e, k)
    ensures Possible(s, es + [e], k) && After(s, es + [e], k) == Step(After(s, es, k), e, k)
    decreases |es|
  {
    hide Enabled, Step;
    if es == [] {
      assert [] + [e] == [e] && [e][0] == e && [e][1..] == [];
      assert Possible(Step(s, e, k), [], k) && After(Step(s, e, k), [], k) == Step(s, e, k);
    } else {
      Extends(Step(s, es[0], k), es[1..], e, k);
      assert (es + [e])[1..] == es[1..] + [e];
    }
  }

  /** k threads that all check before any of them pushes fill the queue up to the bound. */
  lemma BoundIsReached(k: nat)
    ensures exists es, s :: Reaches(es, s, k) && |s.queue| == 64 + k
  {
    AllPush(k, k);
  }

  /** The check without the lock turns a connection away exactly when more than 64 are idle. */
  lemma CheckTurnsAway(s: State, t: nat, conn: Option<Connection>, k: nat)
    requires Enabled(s, Check(t, conn), k)
    ensures
      var u := Step(s, Check(t, conn), k);
      u.queue == s.queue && (t in u.past <==> |s.queue| <= 64) && (t in u.past ==> u.past[t] == conn)
  {
  }

  // ----- the order in which connections are handed out -----

  /** The connection a step takes from the queue, if it does. */
  function TakenBy(s: State, e: Event): seq<Connection> {
    if e.Take? && s.queue != [] then [s.queue[0]] else []
  }

  /** The connection a step puts into the queue: one that is not idle already. */
  function ReleasedBy(s: State, e: Event, k: nat): seq<Connection>
    requires Enabled(s, e, k)
  {
    if e.Push? && s.past[e.t].Some? && s.past[e.t].value !in s.queue then [s.past[e.t].value] else []
  }

  function Taken(s: State, es: seq<Event>, k: nat): seq<Connection>
    requires Possible(s, es, k)
    decreases |es|
  {
    if es == [] then [] else TakenBy(s, es[0]) + Taken(Step(s, es[0], k), es[1..], k)
  }

  function Released(s: State, es: seq<Event>, k: nat): seq<Connection>
    requires Possible(s, es, k)
    decreases |es|
  {
    if es == [] then [] else ReleasedBy(s, es[0], k) + Released(Step(s, es[0], k), es[1..], k)
  }

  lemma StepInOrder(s: State, e: Event, k: nat)
    requires Enabled(s, e, k)
    ensures s.queue + ReleasedBy(s, e, k) == TakenBy(s, e) + Step(s, e, k).queue
  {
  }

  lemma Interchange(q: seq<Connection>, a: seq<Connection>, t: seq<Connection>, q1: seq<Connection>,
        b: seq<Connection>, u: seq<Connection>, q2: seq<Connection>)
    requires q + a == t + q1 && q1 + b == u + q2
    ensures q + (a + b) == t + u + q2
  {
    assert q + (a + b) == q + a + b == t + (q1 + b);
  }

  /** Connections are handed out in the order of their release, those that were idle at the start first. */
  lemma {:induction false} InOrderOfRelease(s: State, es: seq<Event>, k: nat)
    requires Possible(s, es, k)
    ensures s.queue + Released(s, es, k) == Taken(s, es, k) + After(s, es, k).queue
    decreases |es|
  {
    hide Step, Enabled, TakenBy, ReleasedBy;
    if es != [] {
      var e, u := es[0], Step(s, es[0], k);
      StepInOrder(s, e, k);
      InOrderOfRelease(u, es[1..], k);
      Interchange(s.queue, ReleasedBy(s, e, k), TakenBy(s, e), u.queue,
        Released(u, es[1..], k), Taken(u, es[1..], k), After(u, es[1..], k).queue);
    }
  }
}
