/** Which user a phone id belongs to, as accountLogic keeps it in Redis for push messages. */
module PhoneOwner {
  import opened Wrappers

  type User = string
  type Phone = string

  const ALARM_ON := 0
  const ALARM_OFF := 1

  /** mobile is the phone id in each user's login hash, owner the user name under each phone id. */
  datatype State = State(mobile: map<User, Phone>, owner: map<Phone, User>)

  /**
   * Which of the writes of a report succeed; one that is not reached does not matter. got is the user the GET
   * named: nobody if it failed or found nothing, and an earlier owner if another handler wrote in between.
   */
  datatype Report = Report(
    got: Option<User>, hdel: bool, platform: bool, mobile: bool, language: bool, expire: bool, set_: bool)

  datatype Event =
    | ReportInfo(u: User, m: Phone, report: Report)
    | AlarmOn(u: User, m: Phone, done: bool)      // whether the first HSET succeeds
    | AlarmOff(u: User, done: bool)               // whether the HDEL is reached and succeeds
    | Expires(u: User)                            // a login hash lives for seven days

  /** What a GET of m answers now. */
  function Owner(s: State, m: Phone): Option<User> {
    if m in s.owner then Some(s.owner[m]) else None
  }

  function Reported(s: State, u: User, m: Phone, done: Report): State {
    var erased := done.got.Some? && done.got.value != u && done.hdel;
    var cleared := if erased then s.mobile - {done.got.value} else s.mobile;
    if !(done.platform && done.mobile) then s.(mobile := cleared)
    else if !(done.language && done.expire && done.set_) then s.(mobile := cleared[u := m])
    else State(cleared[u := m], s.owner[m := u])
  }

  function Step(s: State, e: Event): State {
    match e
    case ReportInfo(u, m, done) => Reported(s, u, m, done)
    case AlarmOn(u, m, done) => if done then s.(mobile := s.mobile[u := m]) else s
    case AlarmOff(u, done) => if done then s.(mobile := s.mobile - {u}) else s
    case Expires(u) => s.(mobile := s.mobile - {u})
  }

  function After(s: State, es: seq<Event>): State
    decreases |es|
  {
    if es == [] then s else After(Step(s, es[0]), es[1..])
  }

  class Cache {
    var mobile: map<User, Phone>
    var owner: map<Phone, User>
    var alarmFlag: map<User, int>

    ghost function Contents(): State
      reads this
    {
      State(mobile, owner)
    }

    method ReportClientInfoToCache(username: User, mobileId: Phone, done: Report) returns (ret: bool)
      modifies this
      ensures Contents() == Reported(old(Contents()), username, mobileId, done)
      ensures ret <==> done.platform && done.mobile && done.language && done.expire
      ensures alarmFlag == old(alarmFlag)
    {
      if done.got.Some? {
        var getUsername := done.got.value;
        if getUsername != username {
          if done.hdel {
            mobile := mobile - {getUsername};
          }
        }
      }
      ret := done.platform;
      if ret {
        ret := done.mobile;
        if ret {
          mobile := mobile[username := mobileId];
          ret := done.language && done.expire;
        }
      }
      if !ret {
        return;
      }
      if done.set_ {
        owner := owner[mobileId := username];
      }
    }

    /** first and second are the outcomes of the two Redis writes; any other flag is only logged. */
    method SetCurrentAlarmFlag(username: User, flag: int, mobileId: Phone, first: bool, second: bool)
      returns (success: bool)
      modifies this
      ensures flag == ALARM_ON ==>
        && Contents() == Step(old(Contents()), AlarmOn(username, mobileId, first)) && success == (first && second)
        && alarmFlag == if success then old(alarmFlag)[username := flag] else old(alarmFlag)
      ensures flag == ALARM_OFF ==>
        && Contents() == Step(old(Contents()), AlarmOff(username, first && second)) && success == (first && second)
        && alarmFlag == if first then old(alarmFlag)[username := flag] else old(alarmFlag)
      ensures flag != ALARM_ON && flag != ALARM_OFF ==>
        Contents() == old(Contents()) && alarmFlag == old(alarmFlag) && success
    {
      success := true;
      if flag == ALARM_ON {
        if !first {
          return false;
        }
        mobile := mobile[username := mobileId];
        if !second {
          return false;
        }
        alarmFlag := alarmFlag[username := flag];
      } else if flag == ALARM_OFF {
        if !first {
          return false;
        }
        alarmFlag := alarmFlag[username := flag];
        if !second {
          return false;
        }
        mobile := mobile - {username};
      }
    }
  }

  // ----- one owner for each phone id -----

  ghost predicate Inv(s: State) {
    forall u :: u in s.mobile ==> s.mobile[u] in s.owner && s.owner[s.mobile[u]] == u
  }

  predicate Owns(s: State, u: User, m: Phone) {
    m in s.owner && s.owner[m] == u
  }

  /** The steps that keep phone ids with their owners, by what is known before the step and which commands fail. */
  predicate Safe(s: State, e: Event) {
    match e
    case ReportInfo(u, m, done) =>
      var stored := done.platform && done.mobile;
      var claimed := stored && done.language && done.expire && done.set_;
      var other := m in s.owner && s.owner[m] != u && s.owner[m] in s.mobile && s.mobile[s.owner[m]] == m;
      && (stored && !claimed ==> Owns(s, u, m))
      && (claimed && other ==> done.got == Owner(s, m) && done.hdel)
    case AlarmOn(u, m, done) => done ==> Owns(s, u, m)
    case AlarmOff(u, done) => true
    case Expires(u) => true
  }

  /** Exactly the safe steps keep the invariant. */
  lemma StepKeepsInv(s: State, e: Event)
    requires Inv(s)
    ensures Inv(Step(s, e)) <==> Safe(s, e)
  {
    var t := Step(s, e);
    match e
    case ReportInfo(u, m, done) =>
      if !Safe(s, e) {
        var v := if done.language && done.expire && done.set_ then s.owner[m] else u;
        assert v in t.mobile && t.mobile[v] == m && !(m in t.owner && t.owner[m] == v);
      }
    case AlarmOn(u, m, done) =>
      if !Safe(s, e) {
        assert u in t.mobile && t.mobile[u] == m;
      }
    case AlarmOff(u, done) =>
    case Expires(u) =>
  }

  predicate SafeRun(s: State, es: seq<Event>)
    decreases |es|
  {
    es == [] || (Safe(s, es[0]) && SafeRun(Step(s, es[0]), es[1..]))
  }

  lemma {:induction false} RunKeepsInv(s: State, es: seq<Event>)
    requires Inv(s) && SafeRun(s, es)
    ensures Inv(After(s, es))
    decreases |es|
  {
    hide Inv, Safe, Step;
    if es != [] {
      StepKeepsInv(s, es[0]);
      RunKeepsInv(Step(s, es[0]), es[1..]);
    }
  }

  /** No two users ever hold the same phone id. */
  lemma OneHolder(es: seq<Event>, u: User, v: User)
    requires SafeRun(State(map[], map[]), es)
    requires var s := After(State(map[], map[]), es); u in s.mobile && v in s.mobile && s.mobile[u] == s.mobile[v]
    ensures u == v
  {
    RunKeepsInv(State(map[], map[]), es);
  }

  /** A report that reads the present owner and succeeds. */
  function Fresh(s: State, m: Phone): Report {
    Report(Owner(s, m), true, true, true, true, true, true)
  }

  /** With all commands succeeding, a report is always safe, whoever had the phone before. */
  lemma ReportsAreSafe(s: State, u: User, m: Phone)
    requires Inv(s)
    ensures Safe(s, ReportInfo(u, m, Fresh(s, m)))
    ensures var t := Reported(s, u, m, Fresh(s, m)); forall v :: v in t.mobile && t.mobile[v] == m <==> v == u
  {
    StepKeepsInv(s, ReportInfo(u, m, Fresh(s, m)));
  }

  /** The id that a report takes from another user is the one that user holds now, whatever it was when GET ran. */
  lemma StaleGetErases(s: State, u: User, m: Phone, v: User, k: Phone)
    requires Inv(s) && u != v && m != k && v in s.mobile && s.mobile[v] == k
    ensures
      var t := Reported(s, u, m, Fresh(s, m).(got := Some(v)));
      v !in t.mobile && k in t.owner && t.owner[k] == v
  {
    assert k in s.owner && s.owner[k] == v;
  }

  /** Turning the alarm on with a phone id that another user owns gives the id two holders. */
  lemma AlarmOnSteals(u: User, v: User, m: Phone)
    requires u != v
    ensures
      var s0 := State(map[], map[]);
      var s := After(s0, [ReportInfo(u, m, Fresh(s0, m)), AlarmOn(v, m, true)]);
      u in s.mobile && v in s.mobile && s.mobile[u] == s.mobile[v] == m
  {
    var s0 := State(map[], map[]);
    var e, f := ReportInfo(u, m, Fresh(s0, m)), AlarmOn(v, m, true);
    assert [e, f][1..] == [f] && [f][1..] == [];
    assert After(Step(Step(s0, e), f), []) == Step(Step(s0, e), f);
  }

  // ----- which phone id a user is left with -----

  /** e stores m in the login hash of u. */
  predicate Stores(e: Event, u: User, m: Phone) {
    match e
    case ReportInfo(v, k, done) => v == u && k == m && done.platform && done.mobile
    case AlarmOn(v, k, done) => v == u && k == m && done
    case _ => false
  }

  /** e takes the phone id out of the login hash of u: it turns the alarm off, expires, or reports over it. */
  predicate Clears(e: Event, u: User) {
    match e
    case ReportInfo(v, _, done) => v != u && done.got == Some(u) && done.hdel
    case AlarmOff(v, done) => v == u && done
    case Expires(v) => v == u
    case _ => false
  }

  /** e leaves what u holds as it is. */
  ghost predicate Spares(e: Event, u: User) {
    !Clears(e, u) && forall k :: !Stores(e, u, k)
  }

  lemma HolderStep(s: State, e: Event, u: User, m: Phone)
    ensures u in Step(s, e).mobile && Step(s, e).mobile[u] == m <==>
      || Stores(e, u, m)
      || (u in s.mobile && s.mobile[u] == m && Spares(e, u))
  {
    assert e.ReportInfo? || e.AlarmOn? ==> (Stores(e, u, e.m) <==> exists k :: Stores(e, u, k));
  }

  /** What the k-th step stored is neither replaced nor taken away later. */
  ghost predicate HoldsSince(es: seq<Event>, k: nat, u: User, m: Phone) {
    k < |es| && Stores(es[k], u, m) && forall j :: k < j < |es| ==> Spares(es[j], u)
  }

  lemma {:induction false} HolderRun(s: State, es: seq<Event>, u: User, m: Phone)
    ensures u in After(s, es).mobile && After(s, es).mobile[u] == m <==>
      || (exists k :: 0 <= k < |es| && HoldsSince(es, k, u, m))
      || (u in s.mobile && s.mobile[u] == m && forall j :: 0 <= j < |es| ==> Spares(es[j], u))
    decreases |es|
  {
    hide Step, Stores, Spares;
    if es != [] {
      var fs := es[1..];
      HolderStep(s, es[0], u, m);
      HolderRun(Step(s, es[0]), fs, u, m);
      HolderTail(es, u, m);
    }
  }

  lemma HolderTail(es: seq<Event>, u: User, m: Phone)
    requires es != []
    ensures (forall j :: 0 < j < |es| ==> Spares(es[j], u)) <==>
      forall j :: 0 <= j < |es[1..]| ==> Spares(es[1..][j], u)
    ensures (exists k :: 0 <= k < |es| && HoldsSince(es, k, u, m)) <==>
      HoldsSince(es, 0, u, m) || exists k :: 0 <= k < |es[1..]| && HoldsSince(es[1..], k, u, m)
  {
    hide Spares, Stores;
    var fs := es[1..];
    assert forall j :: 0 < j < |es| ==> es[j] == fs[j - 1];
    if k :| 0 <= k < |es| && HoldsSince(es, k, u, m) {
      assert k > 0 ==> HoldsSince(fs, k - 1, u, m);
    }
    if k :| 0 <= k < |fs| && HoldsSince(fs, k, u, m) {
      assert HoldsSince(es, k + 1, u, m);
    }
  }

  /**
   * In every run, a user's login hash holds a phone id exactly if a step stored it there and no later one took it
   * away or replaced it; turning the alarm off takes it away.
   */
  lemma HoldsTheLastStored(es: seq<Event>, u: User, m: Phone)
    ensures
      var s := After(State(map[], map[]), es);
      u in s.mobile && s.mobile[u] == m <==> exists k :: 0 <= k < |es| && HoldsSince(es, k, u, m)
  {
    hide After, HoldsSince, Spares;
    HolderRun(State(map[], map[]), es, u, m);
  }

  /** Only a report that succeeds throughout names a new owner, and only of the id it reports. */
  predicate Names(e: Event, m: Phone, u: User) {
    && e.ReportInfo? && e.m == m && e.u == u
    && e.report.platform && e.report.mobile && e.report.language && e.report.expire && e.report.set_
  }

  ghost predicate NamesNobody(e: Event, m: Phone) {
    forall v :: !Names(e, m, v)
  }

  ghost predicate NamedSince(es: seq<Event>, k: nat, m: Phone, u: User) {
    k < |es| && Names(es[k], m, u) && forall j :: k < j < |es| ==> NamesNobody(es[j], m)
  }

  lemma OwnerStep(s: State, e: Event, m: Phone, u: User)
    ensures Owns(Step(s, e), u, m) <==> Names(e, m, u) || (Owns(s, u, m) && NamesNobody(e, m))
  {
    assert e.ReportInfo? ==> (Names(e, m, e.u) <==> exists v :: Names(e, m, v));
  }

  lemma {:induction false} OwnerRun(s: State, es: seq<Event>, m: Phone, u: User)
    ensures Owns(After(s, es), u, m) <==>
      || (exists k :: 0 <= k < |es| && NamedSince(es, k, m, u))
      || (Owns(s, u, m) && forall j :: 0 <= j < |es| ==> NamesNobody(es[j], m))
    decreases |es|
  {
    hide Step, Names, NamesNobody, Owns;
    if es != [] {
      var fs := es[1..];
      OwnerStep(s, es[0], m, u);
      OwnerRun(Step(s, es[0]), fs, m, u);
      OwnerTail(es, m, u);
    }
  }

  lemma OwnerTail(es: seq<Event>, m: Phone, u: User)
    requires es != []
    ensures (forall j :: 0 < j < |es| ==> NamesNobody(es[j], m)) <==>
      forall j :: 0 <= j < |es[1..]| ==> NamesNobody(es[1..][j], m)
    ensures (exists k :: 0 <= k < |es| && NamedSince(es, k, m, u)) <==>
      NamedSince(es, 0, m, u) || exists k :: 0 <= k < |es[1..]| && NamedSince(es[1..], k, m, u)
  {
    hide Names, NamesNobody;
    var fs := es[1..];
    assert forall j :: 0 < j < |es| ==> es[j] == fs[j - 1];
    if k :| 0 <= k < |es| && NamedSince(es, k, m, u) {
      assert k > 0 ==> NamedSince(fs, k - 1, m, u);
    }
    if k :| 0 <= k < |fs| && NamedSince(fs, k, m, u) {
      assert NamedSince(es, k + 1, m, u);
    }
  }

  /** A phone id is owned by the user whose report named it last. */
  lemma OwnedByTheLastReport(es: seq<Event>, m: Phone, u: User)
    ensures Owns(After(State(map[], map[]), es), u, m) <==> exists k :: 0 <= k < |es| && NamedSince(es, k, m, u)
  {
    hide After, NamedSince;
    OwnerRun(State(map[], map[]), es, m, u);
  }
}
