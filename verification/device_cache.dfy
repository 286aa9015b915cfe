/** The cached users of each device, beside the bindings in the database. */
module DeviceCache {
  type User = string
  type Guid = string

  /** Keeps a key alive when the set of users is empty; no user has this name. */
  const SENTINEL: string := ""

  /** db holds the bindings; a Redis set that loses its last member is a key that does not exist. */
  datatype State = State(db: map<Guid, set<User>>, cache: map<Guid, set<string>>)

  const INIT := State(map[], map[])

  function Bound(s: State, g: Guid): set<User> {
    if g in s.db then s.db[g] else {}
  }

  function SAdd(cache: map<Guid, set<string>>, g: Guid, members: set<string>): map<Guid, set<string>> {
    if members == {} then cache else if g in cache then cache[g := cache[g] + members] else cache[g := members]
  }

  function SRem(cache: map<Guid, set<string>>, g: Guid, u: string): map<Guid, set<string>> {
    if g !in cache then cache
    else if cache[g] <= {u} then cache - {g}
    else cache[g := cache[g] - {u}]
  }

  /**
   * ok says whether the SQL statement took effect; selected is what the query of a lookup returned, which is not
   * the bindings if the query failed, skipped a table, or ran before the statement of another handler.
   */
  datatype Event =
    | UserBind(u: User, g: Guid, ok: bool)
    | UserRemoveBind(u: User, g: Guid, ok: bool)
    | RemoveBind(g: Guid, ok: bool)                       // RemoveBindByDevice
    | RemoveBindHoldUser(g: Guid, hold: User, ok: bool)   // RemoveBindByDeviceHoldUser
    | GetUsers(g: Guid, selected: set<User>)              // GetDeviceUsers

  predicate ValidEvent(e: Event) {
    match e
    case UserBind(u, g, ok) => u != SENTINEL
    case UserRemoveBind(u, g, ok) => u != SENTINEL
    case GetUsers(g, selected) => SENTINEL !in selected
    case _ => true
  }

  function Step(s: State, e: Event): State {
    match e
    case UserBind(u, g, ok) =>
      State(if ok then s.db[g := Bound(s, g) + {u}] else s.db, if g in s.cache then SAdd(s.cache, g, {u}) else s.cache)
    case UserRemoveBind(u, g, ok) =>
      State(if ok then s.db[g := Bound(s, g) - {u}] else s.db, if g in s.cache then SRem(s.cache, g, u) else s.cache)
    case RemoveBind(g, ok) => State(if ok then s.db - {g} else s.db, s.cache - {g})
    case RemoveBindHoldUser(g, hold, ok) =>
      State(if ok then s.db[g := Bound(s, g) * {hold}] else s.db, s.cache - {g})
    case GetUsers(g, selected) =>
      if g in s.cache then s else s.(cache := SAdd(SAdd(s.cache, g, {SENTINEL}), g, selected))
  }

  function After(s: State, es: seq<Event>): State
    decreases |es|
  {
    if es == [] then s else After(Step(s, es[0]), es[1..])
  }

  /** What the handler answers to a lookup, after the sentinel is filtered out. */
  function Answer(s: State, g: Guid, selected: set<User>): set<User> {
    (if g in s.cache then s.cache[g] else selected) - {SENTINEL}
  }

  class LogicOperate {
    var db: map<Guid, set<User>>
    var cache: map<Guid, set<string>>

    ghost function Contents(): State
      reads this
    {
      State(db, cache)
    }

    method UserBindDevice(username: User, guid: Guid, ok: bool)
      modifies this
      ensures Contents() == Step(old(Contents()), UserBind(username, guid, ok))
    {
      if ok {
        db := db[guid := Bound(State(db, cache), guid) + {username}];
      }
      if guid in cache {
        cache := SAdd(cache, guid, {username});
      }
    }

    method UserRemoveBindDevice(username: User, guid: Guid, ok: bool)
      modifies this
      ensures Contents() == Step(old(Contents()), UserRemoveBind(username, guid, ok))
    {
      if ok {
        db := db[guid := Bound(State(db, cache), guid) - {username}];
      }
      if guid in cache {
        cache := SRem(cache, guid, username);
      }
    }

    /** The sets that SADD receives are never empty. */
    method GetDeviceUsers(guid: Guid, selected: set<User>) returns (users: set<User>)
      modifies this
      ensures Contents() == Step(old(Contents()), GetUsers(guid, selected))
      ensures users == Answer(old(Contents()), guid, selected)
    {
      users := {};
      if guid !in cache {
        users := selected;
        cache := SAdd(cache, guid, {SENTINEL});
        if users != {} {
          cache := SAdd(cache, guid, users);
        }
      } else {
        users := cache[guid];
      }
      users := users - {SENTINEL};
    }

    method RemoveBindByDevice(guid: Guid, ok: bool)
      modifies this
      ensures Contents() == Step(old(Contents()), RemoveBind(guid, ok))
    {
      if ok {
        db := db - {guid};
      }
      cache := cache - {guid};
    }

    method RemoveBindByDeviceHoldUser(guid: Guid, holdUser: User, ok: bool)
      modifies this
      ensures Contents() == Step(old(Contents()), RemoveBindHoldUser(guid, holdUser, ok))
    {
      if ok {
        db := db[guid := Bound(State(db, cache), guid) * {holdUser}];
      }
      cache := cache - {guid};
    }
  }

  // ----- coherence -----

  ghost predicate CoherentAt(s: State, g: Guid) {
    g in s.cache ==> SENTINEL in s.cache[g] && s.cache[g] - {SENTINEL} == Bound(s, g)
  }

  ghost predicate Coherent(s: State) {
    forall g: Guid :: CoherentAt(s, g)
  }

  /** A failed statement is harmless if the cache does not hold the device, or there was nothing to change. */
  predicate Harmless(s: State, e: Event) {
    match e
    case UserBind(u, g, ok) => ok || g !in s.cache || u in Bound(s, g)
    case UserRemoveBind(u, g, ok) => ok || g !in s.cache || u !in Bound(s, g)
    case RemoveBind(g, ok) => true
    case RemoveBindHoldUser(g, hold, ok) => true
    case GetUsers(g, selected) => g in s.cache || selected == Bound(s, g)
  }

  /** A step concerns one device only. */
  lemma OthersStay(s: State, e: Event, g: Guid)
    requires g != e.g
    ensures g in Step(s, e).cache <==> g in s.cache
    ensures g in s.cache ==> Step(s, e).cache[g] == s.cache[g]
    ensures Bound(Step(s, e), g) == Bound(s, g)
  {
  }

  lemma BindAt(s: State, u: User, g: Guid, ok: bool)
    requires CoherentAt(s, g) && u != SENTINEL && SENTINEL !in Bound(s, g)
    ensures CoherentAt(Step(s, UserBind(u, g, ok)), g) <==> Harmless(s, UserBind(u, g, ok))
  {
    var t := Step(s, UserBind(u, g, ok));
    if g in s.cache {
      assert t.cache[g] == s.cache[g] + {u};
      assert u in t.cache[g] - {SENTINEL};
    }
  }

  lemma RemoveBindAt(s: State, u: User, g: Guid, ok: bool)
    requires CoherentAt(s, g) && u != SENTINEL && SENTINEL !in Bound(s, g)
    ensures CoherentAt(Step(s, UserRemoveBind(u, g, ok)), g) <==> Harmless(s, UserRemoveBind(u, g, ok))
  {
    var t := Step(s, UserRemoveBind(u, g, ok));
    if g in s.cache {
      assert SENTINEL in s.cache[g] && !(s.cache[g] <= {u});
      assert t.cache[g] == s.cache[g] - {u};
      assert u !in t.cache[g] - {SENTINEL};
    }
  }

  lemma GetAt(s: State, g: Guid, selected: set<User>)
    requires CoherentAt(s, g) && SENTINEL !in selected && SENTINEL !in Bound(s, g)
    ensures CoherentAt(Step(s, GetUsers(g, selected)), g) <==> Harmless(s, GetUsers(g, selected))
  {
    var t := Step(s, GetUsers(g, selected));
    if g !in s.cache {
      assert t.cache[g] == {SENTINEL} + selected;
      assert t.cache[g] - {SENTINEL} == selected;
    }
  }

  lemma ResetAt(s: State, e: Event)
    requires e.RemoveBind? || e.RemoveBindHoldUser?
    ensures e.g !in Step(s, e).cache
  {
  }

  /** Exactly the harmless steps keep the cache coherent. */
  lemma StepKeepsCoherent(s: State, e: Event)
    requires Coherent(s) && ValidEvent(e) && SENTINEL !in Bound(s, e.g)
    ensures Coherent(Step(s, e)) <==> Harmless(s, e)
  {
    hide SAdd, SRem, Bound, Step;
    var t := Step(s, e);
    forall g | g != e.g
      ensures CoherentAt(t, g)
    {
      assert CoherentAt(s, g);
      OthersStay(s, e, g);
    }
    assert CoherentAt(s, e.g);
    match e
    case UserBind(u, g, ok) => BindAt(s, u, g, ok);
    case UserRemoveBind(u, g, ok) => RemoveBindAt(s, u, g, ok);
    case GetUsers(g, selected) => GetAt(s, g, selected);
    case RemoveBind(g, ok) => ResetAt(s, e);
    case RemoveBindHoldUser(g, hold, ok) => ResetAt(s, e);
  }

  ghost predicate Inv(s: State) {
    Coherent(s) && forall g :: g in s.db ==> SENTINEL !in s.db[g]
  }

  predicate HarmlessRun(s: State, es: seq<Event>)
    decreases |es|
  {
    es == [] || (ValidEvent(es[0]) && Harmless(s, es[0]) && HarmlessRun(Step(s, es[0]), es[1..]))
  }

  lemma StepKeepsInv(s: State, e: Event)
    requires Inv(s) && ValidEvent(e) && Harmless(s, e)
    ensures Inv(Step(s, e))
  {
    hide Harmless, SAdd, SRem, Coherent;
    StepKeepsCoherent(s, e);
  }

  lemma {:induction false} RunKeepsInv(s: State, es: seq<Event>)
    requires Inv(s) && HarmlessRun(s, es)
    ensures Inv(After(s, es))
    decreases |es|
  {
    hide Inv, ValidEvent, Harmless, Step;
    if es != [] {
      StepKeepsInv(s, es[0]);
      RunKeepsInv(Step(s, es[0]), es[1..]);
    }
  }

  /** After any binds, unbinds, resets and lookups, a lookup answers with the users that are bound. */
  lemma LookupTellsTheBound(es: seq<Event>, g: Guid, selected: set<User>)
    requires HarmlessRun(INIT, es) && SENTINEL !in selected && Harmless(After(INIT, es), GetUsers(g, selected))
    ensures Answer(After(INIT, es), g, selected) == Bound(After(INIT, es), g)
  {
    hide After;
    RunKeepsInv(INIT, es);
    assert CoherentAt(After(INIT, es), g);
  }

  /** Unbinding the last user leaves the key, so the database is not asked again for a device without users. */
  lemma EmptiedSetStays(es: seq<Event>, u: User, g: Guid)
    requires HarmlessRun(INIT, es) && g in After(INIT, es).cache && u != SENTINEL
    requires Bound(After(INIT, es), g) == {u}
    ensures
      var t := Step(After(INIT, es), UserRemoveBind(u, g, true));
      g in t.cache && t.cache[g] == {SENTINEL} && Answer(t, g, {}) == {}
  {
    hide After;
    RunKeepsInv(INIT, es);
    var s := After(INIT, es);
    assert CoherentAt(s, g);
    assert s.cache[g] == (s.cache[g] - {SENTINEL}) + {SENTINEL};
  }

  // ----- which bindings and which keys a run leaves behind -----

  predicate Binds(e: Event, u: User, g: Guid) {
    e.UserBind? && e.u == u && e.g == g && e.ok
  }

  /** Holding a user ends the bindings of all others. */
  predicate Unbinds(e: Event, u: User, g: Guid) {
    e.g == g &&
    match e
    case UserRemoveBind(v, _, ok) => ok && v == u
    case RemoveBind(_, ok) => ok
    case RemoveBindHoldUser(_, hold, ok) => ok && hold != u
    case _ => false
  }

  lemma BoundStep(s: State, e: Event, u: User, g: Guid)
    ensures u in Bound(Step(s, e), g) <==> Binds(e, u, g) || (u in Bound(s, g) && !Unbinds(e, u, g))
  {
    hide SAdd, SRem;
  }

  /** No later step ends what the k-th step did. */
  predicate BoundAt(es: seq<Event>, k: nat, u: User, g: Guid) {
    k < |es| && Binds(es[k], u, g) && forall j :: k < j < |es| ==> !Unbinds(es[j], u, g)
  }

  lemma {:induction false} BoundRun(s: State, es: seq<Event>, u: User, g: Guid)
    ensures u in Bound(After(s, es), g) <==>
      || (exists k :: 0 <= k < |es| && BoundAt(es, k, u, g))
      || (u in Bound(s, g) && forall j :: 0 <= j < |es| ==> !Unbinds(es[j], u, g))
    decreases |es|
  {
    hide Step, Binds, Unbinds;
    if es != [] {
      var fs := es[1..];
      BoundStep(s, es[0], u, g);
      BoundRun(Step(s, es[0]), fs, u, g);
      BoundTail(es, u, g);
    }
  }

  lemma BoundTail(es: seq<Event>, u: User, g: Guid)
    requires es != []
    ensures (forall j :: 0 < j < |es| ==> !Unbinds(es[j], u, g)) <==>
      forall j :: 0 <= j < |es[1..]| ==> !Unbinds(es[1..][j], u, g)
    ensures (exists k :: 0 <= k < |es| && BoundAt(es, k, u, g)) <==>
      BoundAt(es, 0, u, g) || exists k :: 0 <= k < |es[1..]| && BoundAt(es[1..], k, u, g)
  {
    hide Binds, Unbinds;
    var fs := es[1..];
    assert forall j :: 0 < j < |es| ==> es[j] == fs[j - 1];
    if k :| 0 <= k < |es| && BoundAt(es, k, u, g) {
      assert k > 0 ==> BoundAt(fs, k - 1, u, g);
    }
    if k :| 0 <= k < |fs| && BoundAt(fs, k, u, g) {
      assert BoundAt(es, k + 1, u, g);
    }
  }

  /** In every run, a user is bound to a device exactly if the last statement about it that took effect bound it. */
  lemma BoundByTheLast(es: seq<Event>, u: User, g: Guid)
    ensures u in Bound(After(INIT, es), g) <==> exists k :: 0 <= k < |es| && BoundAt(es, k, u, g)
  {
    hide After, BoundAt, Unbinds;
    BoundRun(INIT, es, u, g);
  }

  ghost predicate KeysHaveSentinel(s: State) {
    forall g :: g in s.cache ==> SENTINEL in s.cache[g]
  }

  predicate Resets(e: Event, g: Guid) {
    e.g == g && (e.RemoveBind? || e.RemoveBindHoldUser?)
  }

  lemma KeyStep(s: State, e: Event, g: Guid)
    requires KeysHaveSentinel(s) && ValidEvent(e)
    ensures KeysHaveSentinel(Step(s, e))
    ensures g in Step(s, e).cache <==> (e.GetUsers? && e.g == g) || (g in s.cache && !Resets(e, g))
  {
    hide Bound;
  }

  predicate LookedUpAt(es: seq<Event>, k: nat, g: Guid) {
    k < |es| && es[k].GetUsers? && es[k].g == g && forall j :: k < j < |es| ==> !Resets(es[j], g)
  }

  lemma {:induction false} KeyRun(s: State, es: seq<Event>, g: Guid)
    requires KeysHaveSentinel(s) && forall k :: 0 <= k < |es| ==> ValidEvent(es[k])
    ensures g in After(s, es).cache <==>
      || (exists k :: 0 <= k < |es| && LookedUpAt(es, k, g))
      || (g in s.cache && forall j :: 0 <= j < |es| ==> !Resets(es[j], g))
    decreases |es|
  {
    hide Step, ValidEvent, Resets, KeysHaveSentinel;
    if es != [] {
      var fs := es[1..];
      KeyStep(s, es[0], g);
      KeyRun(Step(s, es[0]), fs, g);
      KeyTail(es, g);
    }
  }

  lemma KeyTail(es: seq<Event>, g: Guid)
    requires es != []
    ensures (forall j :: 0 < j < |es| ==> !Resets(es[j], g)) <==>
      forall j :: 0 <= j < |es[1..]| ==> !Resets(es[1..][j], g)
    ensures (exists k :: 0 <= k < |es| && LookedUpAt(es, k, g)) <==>
      LookedUpAt(es, 0, g) || exists k :: 0 <= k < |es[1..]| && LookedUpAt(es[1..], k, g)
  {
    hide Resets;
    var fs := es[1..];
    assert forall j :: 0 < j < |es| ==> es[j] == fs[j - 1];
    if k :| 0 <= k < |es| && LookedUpAt(es, k, g) {
      assert k > 0 ==> LookedUpAt(fs, k - 1, g);
    }
    if k :| 0 <= k < |fs| && LookedUpAt(fs, k, g) {
      assert LookedUpAt(es, k + 1, g);
    }
  }

  /** A device has a key exactly if it was looked up and not reset since; binding neither makes nor removes one. */
  lemma KeyByTheLast(es: seq<Event>, g: Guid)
    requires forall k :: 0 <= k < |es| ==> ValidEvent(es[k])
    ensures g in After(INIT, es).cache <==> exists k :: 0 <= k < |es| && LookedUpAt(es, k, g)
  {
    hide After, LookedUpAt, Resets, ValidEvent;
    KeyRun(INIT, es, g);
  }

  /** SMEMBERS: a missing key is an empty set. */
  function Members(cache: map<Guid, set<string>>, g: Guid): set<string> {
    if g in cache then cache[g] else {}
  }

  /** SADD and SREM on sets of members; a key exists exactly while its set is not empty. */
  lemma RedisSets(cache: map<Guid, set<string>>, g: Guid, members: set<string>, u: string, h: Guid)
    requires forall k :: k in cache ==> cache[k] != {}
    ensures Members(SAdd(cache, g, members), h) == Members(cache, h) + if h == g then members else {}
    ensures Members(SRem(cache, g, u), h) == Members(cache, h) - if h == g then {u} else {}
    ensures forall k :: k in SAdd(cache, g, members) ==> SAdd(cache, g, members)[k] != {}
    ensures forall k :: k in SRem(cache, g, u) ==> SRem(cache, g, u)[k] != {}
  {
    var c := SRem(cache, g, u);
    assert g in cache && !(cache[g] <= {u}) ==> exists v :: v in cache[g] && v != u && v in c[g];
    var d := SAdd(cache, g, members);
    assert members != {} ==> exists v :: v in members && v in d[g];
  }
}
