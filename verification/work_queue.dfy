/** The bounded circular queue between the receiving thread and the consumer threads. */
module WorkQueue {
  import opened Wrappers

  const UINT32: nat := 0x1_0000_0000
  const INT_MAX: nat := 0x7fff_ffff

  /** The i-th of the slots that start at pos. */
  function Slot(pos: nat, i: nat, capacity: nat): nat
    requires capacity > 0
  {
    (pos + i) % capacity
  }

  /** One turn around the ring at most. */
  lemma SlotValue(pos: nat, i: nat, capacity: nat)
    requires pos < capacity && i <= capacity
    ensures Slot(pos, i, capacity) == if pos + i < capacity then pos + i else pos + i - capacity
  {
    if pos + i < capacity {
      UniqueRemainder(pos + i, 0, pos + i, capacity);
    } else {
      UniqueRemainder(pos + i, 1, pos + i - capacity, capacity);
    }
  }

  lemma UniqueRemainder(a: int, q: int, r: nat, m: nat)
    requires m > 0 && r < m && a == q * m + r
    ensures a % m == r
  {
    var d := a / m - q;
    assert a == (a / m) * m + a % m;
    assert d * m == (a / m) * m - q * m;
    assert d * m == r - a % m;
    assert d >= 1 ==> d * m >= m;
    assert d <= -1 ==> d * m <= 0 - m;
  }

  /** The index as the code computes it, in uint32_t. */
  function Index(pos: nat, i: nat, capacity: nat): nat
    requires capacity > 0
  {
    (pos + i) % UINT32 % capacity
  }

  /** With a capacity that came in as an int, the sum does not wrap around. */
  lemma IndexIsSlot(pos: nat, i: nat, capacity: nat)
    requires pos < capacity <= INT_MAX && i <= capacity
    ensures Index(pos, i, capacity) == Slot(pos, i, capacity) < capacity
  {
    assert pos + i < UINT32;
  }

  function Items(buf: seq<string>, pos: nat, length: nat): seq<string>
    requires |buf| > 0
  {
    seq(length, i requires 0 <= i => buf[Slot(pos, i, |buf|)])
  }

  lemma AddsLast(buf: seq<string>, pos: nat, length: nat, item: string)
    requires pos < |buf| && length < |buf|
    ensures Items(buf[Slot(pos, length, |buf|) := item], pos, length + 1) == Items(buf, pos, length) + [item]
  {
    hide Slot;
    SlotValue(pos, length, |buf|);
    forall i: nat | i < length
      ensures Slot(pos, i, |buf|) != Slot(pos, length, |buf|) && Slot(pos, i, |buf|) < |buf|
    {
      SlotValue(pos, i, |buf|);
    }
  }

  lemma RemovesFirst(buf: seq<string>, pos: nat, length: nat)
    requires pos < |buf| && 0 < length <= |buf|
    ensures [buf[pos]] + Items(buf[pos := ""], Slot(pos, 1, |buf|), length - 1) == Items(buf, pos, length)
  {
    hide Slot;
    SlotValue(pos, 0, |buf|);
    SlotValue(pos, 1, |buf|);
    forall i: nat | i < length - 1
      ensures Slot(Slot(pos, 1, |buf|), i, |buf|) == Slot(pos, i + 1, |buf|) != pos && Slot(pos, i + 1, |buf|) < |buf|
    {
      SlotValue(Slot(pos, 1, |buf|), i, |buf|);
      SlotValue(pos, i + 1, |buf|);
    }
  }

  // ----- what the two operations do to the contents, when they get the mutex -----

  datatype Op = Put(item: string) | Get

  predicate Ready(contents: seq<string>, capacity: nat, op: Op) {
    match op
    case Put(_) => |contents| < capacity
    case Get => contents != []
  }

  function Performed(contents: seq<string>, op: Op): seq<string>
    requires op.Get? ==> contents != []
  {
    match op
    case Put(item) => contents + [item]
    case Get => contents[1..]
  }

  class Consumers {
    const buf: array<string>
    const capacity: nat
    var pos: nat
    var length: nat

    ghost predicate Valid()
      reads this
    {
      0 < capacity <= INT_MAX && buf.Length == capacity && pos < capacity && length <= capacity
    }

    ghost function Contents(): seq<string>
      requires Valid()
      reads this, buf
    {
      Items(buf[..], pos, length)
    }

    constructor (queueCapacity: nat)
      requires 0 < queueCapacity <= INT_MAX
      ensures Valid() && capacity == queueCapacity && Contents() == [] && fresh(buf)
    {
      capacity := queueCapacity;
      pos, length := 0, 0;
      buf := new string[queueCapacity](_ => "");
    }

    /** putData from getting the mutex to releasing it, whether to wait or to return; the index is a uint32_t. */
    method PutData(item: string) returns (done: bool)
      requires Valid()
      modifies this, buf
      ensures Valid() && done == Ready(old(Contents()), capacity, Put(item))
      ensures Contents() == if done then Performed(old(Contents()), Put(item)) else old(Contents())
    {
      hide Slot, Index;
      done := length != capacity;
      if done {
        IndexIsSlot(pos, length, capacity);
        AddsLast(buf[..], pos, length, item);
        buf[Index(pos, length, capacity)] := item;
        assert buf[..] == old(buf[..])[Slot(pos, length, capacity) := item];
        length := length + 1;
      }
    }

    method GetData() returns (item: Option<string>)
      requires Valid()
      modifies this, buf
      ensures Valid() && (item.Some? <==> Ready(old(Contents()), capacity, Get))
      ensures item.Some? ==> old(Contents()) == [item.value] + Contents()
      ensures item.None? ==> Contents() == old(Contents())
    {
      hide Slot, Index;
      item := None;
      if length != 0 {
        RemovesFirst(buf[..], pos, length);
        item := Some(buf[pos]);
        buf[pos] := "";
        assert buf[..] == old(buf[..])[pos := ""];
        IndexIsSlot(pos, 1, capacity);
        pos := Index(pos, 1, capacity);
        length := length - 1;
      }
    }
  }

  // ----- any number of producers and consumers around it -----

  /** A thread inside putData or getData: about to take the mutex, or asleep on the condition variable. */
  datatype Thread = Awake(op: Op) | Asleep(op: Op)

  datatype State = State(
    capacity: nat,
    contents: seq<string>,
    threads: map<nat, Thread>,
    puts: seq<string>,        // every item ever put, and ever got (history)
    gets: seq<string>)

  function Init(capacity: nat): State {
    State(capacity, [], map[], [], [])
  }

  datatype Event =
    | Call(t: nat, op: Op)    // some thread calls putData or getData
    | Turn(t: nat)            // it gets the mutex, and releases it by waiting or by returning
    | Spurious(t: nat)        // pthread_cond_wait returns without a broadcast

  predicate Enabled(s: State, e: Event) {
    match e
    case Call(t, op) => t !in s.threads
    case Turn(t) => t in s.threads && s.threads[t].Awake?
    case Spurious(t) => t in s.threads && s.threads[t].Asleep?
  }

  /** pthread_cond_broadcast. */
  function Broadcast(threads: map<nat, Thread>): map<nat, Thread> {
    map t | t in threads :: Awake(threads[t].op)
  }

  function Step(s: State, e: Event): State
    requires Enabled(s, e)
  {
    match e
    case Call(t, op) => s.(threads := s.threads[t := Awake(op)])
    case Spurious(t) => s.(threads := s.threads[t := Awake(s.threads[t].op)])
    case Turn(t) =>
      var op := s.threads[t].op;
      if !Ready(s.contents, s.capacity, op) then s.(threads := s.threads[t := Asleep(op)])
      else
        State(s.capacity, Performed(s.contents, op), Broadcast(s.threads - {t}),
          if op.Put? then s.puts + [op.item] else s.puts,
          if op.Get? then s.gets + [s.contents[0]] else s.gets)
  }

  predicate Possible(s: State, es: seq<Event>)
    decreases |es|
  {
    es == [] || (Enabled(s, es[0]) && Possible(Step(s, es[0]), es[1..]))
  }

  function After(s: State, es: seq<Event>): State
    requires Possible(s, es)
    decreases |es|
  {
    if es == [] then s else After(Step(s, es[0]), es[1..])
  }

  /** Nobody sleeps who could go on. */
  ghost predicate SleepIsJustified(s: State) {
    forall t :: t in s.threads && s.threads[t].Asleep? ==> !Ready(s.contents, s.capacity, s.threads[t].op)
  }

  ghost predicate Inv(s: State) {
    |s.contents| <= s.capacity && s.puts == s.gets + s.contents && SleepIsJustified(s)
  }

  lemma StepKeepsInv(s: State, e: Event)
    requires Inv(s) && Enabled(s, e)
    ensures Inv(Step(s, e)) && Step(s, e).capacity == s.capacity
  {
    if e.Turn? && s.threads[e.t].op.Get? && s.contents != [] {
      assert s.gets + s.contents == s.gets + [s.contents[0]] + s.contents[1..];
    }
  }

  lemma {:induction false} RunKeepsInv(s: State, es: seq<Event>)
    requires Inv(s) && Possible(s, es)
    ensures Inv(After(s, es)) && After(s, es).capacity == s.capacity
    decreases |es|
  {
    hide Inv, Step, Enabled;
    if es != [] {
      StepKeepsInv(s, es[0]);
      RunKeepsInv(Step(s, es[0]), es[1..]);
    }
  }

  /** In every interleaving, what was put is what was got, in order, followed by what is still queued. */
  lemma Fifo(capacity: nat, es: seq<Event>)
    requires Possible(Init(capacity), es)
    ensures
      var s := After(Init(capacity), es);
      s.puts == s.gets + s.contents && |s.contents| <= capacity
  {
    RunKeepsInv(Init(capacity), es);
  }

  /** No wakeup is lost: a sleeping producer means full, a sleeping consumer means empty, so never both. */
  lemma NoLostWakeup(capacity: nat, es: seq<Event>, t: nat, u: nat)
    requires capacity > 0 && Possible(Init(capacity), es)
    requires t in After(Init(capacity), es).threads && u in After(Init(capacity), es).threads
    ensures
      var s := After(Init(capacity), es);
      && (s.threads[t].Asleep? ==>
            if s.threads[t].op.Put? then |s.contents| == capacity else s.contents == [])
      && (s.threads[t].Asleep? && s.threads[u].Asleep? ==> (s.threads[t].op.Put? <==> s.threads[u].op.Put?))
  {
    RunKeepsInv(Init(capacity), es);
  }

  /** Whatever the threads inside are waiting for, a call of the other kind gets through and wakes them all. */
  lemma NeverStuck(capacity: nat, es: seq<Event>, t: nat, u: nat, op: Op)
    requires capacity > 0 && Possible(Init(capacity), es)
    requires
      var s := After(Init(capacity), es);
      t in s.threads && s.threads[t].Asleep? && u !in s.threads && (op.Put? <==> s.threads[t].op.Get?)
    ensures
      var s := After(Init(capacity), es); var s' := Step(Step(s, Call(u, op)), Turn(u));
      t in s'.threads && s'.threads[t] == Awake(s.threads[t].op) && Ready(s'.contents, capacity, s.threads[t].op)
  {
    RunKeepsInv(Init(capacity), es);
  }

  /** A wakeup without a broadcast sends the thread back to sleep, and nothing else happens. */
  lemma SpuriousIsHarmless(capacity: nat, es: seq<Event>, t: nat)
    requires Possible(Init(capacity), es) && Enabled(After(Init(capacity), es), Spurious(t))
    ensures
      var s := After(Init(capacity), es); var u := Step(s, Spurious(t));
      Enabled(u, Turn(t)) && Step(u, Turn(t)) == s
  {
    hide Possible, After;
    RunKeepsInv(Init(capacity), es);
    var s := After(Init(capacity), es);
    var op := s.threads[t].op;
    assert s.threads[t := Awake(op)][t := Asleep(op)] == s.threads;
  }

  /** What a turn does for its thread: it sleeps if its call cannot go on, and otherwise takes effect and is over. */
  lemma TurnDecides(s: State, t: nat)
    requires Enabled(s, Turn(t))
    ensures
      var op := s.threads[t].op; var u := Step(s, Turn(t));
      if (if op.Put? then |s.contents| >= s.capacity else s.contents == []) then
        u == s.(threads := s.threads[t := Asleep(op)])
      else
        && t !in u.threads && (forall k :: k in u.threads ==> k in s.threads && u.threads[k] == Awake(s.threads[k].op))
        && (forall k :: k in s.threads && k != t ==> k in u.threads)
        && if op.Put? then u.contents == s.contents + [op.item] && u.puts == s.puts + [op.item] && u.gets == s.gets
           else s.contents == [s.contents[0]] + u.contents && u.gets == s.gets + [s.contents[0]] && u.puts == s.puts
  {
    hide Broadcast;
    Woken(s.threads - {t});
  }

  lemma Woken(threads: map<nat, Thread>)
    ensures Broadcast(threads).Keys == threads.Keys && |Broadcast(threads)| == |threads|
    ensures forall t :: t in threads ==> Broadcast(threads)[t] == Awake(threads[t].op)
  {
    assert Broadcast(threads).Keys == threads.Keys;
    assert |Broadcast(threads)| == |Broadcast(threads).Keys| == |threads.Keys| == |threads|;
  }

  function Calls(es: seq<Event>): nat {
    if es == [] then 0 else (if es[0].Call? then 1 else 0) + Calls(es[1..])
  }

  function Effects(s: State): nat {
    |s.puts| + |s.gets| + |s.threads|
  }

  lemma Replaced(threads: map<nat, Thread>, t: nat, x: Thread)
    ensures |threads[t := x]| == |threads| + if t in threads then 0 else 1
    ensures t in threads ==> |threads - {t}| == |threads| - 1
  {
    assert threads[t := x].Keys == threads.Keys + {t};
    assert (threads - {t}).Keys == threads.Keys - {t};
    assert |threads[t := x].Keys| == |threads[t := x]| && |(threads - {t}).Keys| == |threads - {t}|;
    assert |threads.Keys| == |threads|;
  }

  lemma StepCounts(s: State, e: Event)
    requires Enabled(s, e)
    ensures Effects(Step(s, e)) == Effects(s) + if e.Call? then 1 else 0
  {
    hide Broadcast;
    Replaced(s.threads, e.t, if e.t in s.threads then Asleep(s.threads[e.t].op) else Awake(Get));
    Woken(s.threads - {e.t});
    match e
    case Call(t, op) => Replaced(s.threads, t, Awake(op));
    case Spurious(t) => Replaced(s.threads, t, Awake(s.threads[t].op));
    case Turn(t) =>
  }

  lemma {:induction false} RunCounts(s: State, es: seq<Event>)
    requires Possible(s, es)
    ensures Effects(After(s, es)) == Effects(s) + Calls(es)
    decreases |es|
  {
    hide Enabled, Step, Effects;
    if es != [] {
      StepCounts(s, es[0]);
      RunCounts(Step(s, es[0]), es[1..]);
    }
  }

  /** Every call takes effect once, however often it is woken: calls are puts, gets and threads still inside. */
  lemma EachCallOnce(capacity: nat, es: seq<Event>)
    requires Possible(Init(capacity), es)
    ensures var s := After(Init(capacity), es); Calls(es) == |s.puts| + |s.gets| + |s.threads|
  {
    RunCounts(Init(capacity), es);
  }
}
