/** Logins as an interleaved protocol.  A login first reads both counters, then awaits the database and
    the password check, and only then records a failure; between its two store steps any number of
    other logins may take theirs, and keys may expire. */
module LoginProtocol {
  import opened Redis
  import opened FailureCounters

  datatype Login = Login(ip: string, user: string)

  /** The two store steps of a login: reading the counters, and finishing with the outcome of the
      password check, an arbitrary boolean. */
  datatype Event =
    | Arrive(id: nat, login: Login, at: int)
    | Finish(id: nat, ok: bool, at: int)

  datatype Limits = Limits(ip: int, user: int, window: int)

  /** The counters, the logins past the check and unfinished, and the history of recorded failures. */
  datatype State = State(counters: Counters, inFlight: map<nat, Login>, recorded: seq<Failure>)

  const INITIAL: State := State(map[], map[], [])

  function Without(m: map<nat, Login>, id: nat): map<nat, Login> {
    map i | i in m && i != id :: m[i]
  }

  function Step(s: State, e: Event, lim: Limits): State {
    match e
    case Arrive(id, login, at) =>
      if id in s.inFlight || Check(s.counters, login.ip, login.user, at, lim.ip, lim.user) != NotStuffing then s
      else s.(inFlight := s.inFlight[id := login])
    case Finish(id, ok, at) =>
      if id !in s.inFlight then s
      else if ok then s.(inFlight := Without(s.inFlight, id))
      else
        var f := Failure(s.inFlight[id].ip, s.inFlight[id].user, at);
        State(Record(s.counters, f, lim.window), Without(s.inFlight, id), s.recorded + [f])
  }

  function RunFrom(s: State, events: seq<Event>, lim: Limits): State {
    if events == [] then s
    else Step(RunFrom(s, events[..|events| - 1], lim), events[|events| - 1], lim)
  }

  function Run(events: seq<Event>, lim: Limits): State {
    RunFrom(INITIAL, events, lim)
  }

  ghost predicate Ordered(events: seq<Event>) {
    forall i, j :: 0 <= i < j < |events| ==> events[i].at <= events[j].at
  }

  ghost predicate Uses(login: Login, key: string) {
    login.ip == key || login.user == key
  }

  /** The logins past the check that would increment `key`. */
  ghost function Touching(inFlight: map<nat, Login>, key: string): set<nat> {
    set id | id in inFlight && Uses(inFlight[id], key)
  }

  ghost function ByIp(inFlight: map<nat, Login>, key: string): set<nat> {
    set id | id in inFlight && inFlight[id].ip == key
  }

  ghost function ByUser(inFlight: map<nat, Login>, key: string): set<nat> {
    set id | id in inFlight && inFlight[id].user == key
  }

  /** The increments of `key` they would make: a login known to both axes by one string makes two. */
  ghost function Pending(inFlight: map<nat, Login>, key: string): nat {
    |ByIp(inFlight, key)| + |ByUser(inFlight, key)|
  }

  function Weight(login: Login, key: string): nat {
    (if login.ip == key then 1 else 0) + (if login.user == key then 1 else 0)
  }

  /** At every point of the run at most `k` logins that would increment `key` are past the check. */
  ghost predicate AtMost(events: seq<Event>, lim: Limits, key: string, k: nat) {
    |Touching(Run(events, lim).inFlight, key)| <= k && (events != [] ==> AtMost(events[..|events| - 1], lim, key, k))
  }

  /** At every point of the run at most `k` increments of `key` are pending. */
  ghost predicate AtMostPending(events: seq<Event>, lim: Limits, key: string, k: nat) {
    && Pending(Run(events, lim).inFlight, key) <= k
    && (events != [] ==> AtMostPending(events[..|events| - 1], lim, key, k))
  }

  /** `cap` is at least the threshold of every axis on which the login uses `key`. */
  ghost predicate Capped(login: Login, lim: Limits, key: string, cap: int) {
    && (login.ip == key ==> lim.ip <= cap)
    && (login.user == key ==> lim.user <= cap)
  }

  ghost predicate AllCapped(events: seq<Event>, lim: Limits, key: string, cap: int) {
    forall i :: 0 <= i < |events| && events[i].Arrive? ==> Capped(events[i].login, lim, key, cap)
  }

  /** The instant of the last event; any instant serves for a run without one. */
  function Now(events: seq<Event>, otherwise: int): int {
    if events == [] then otherwise else events[|events| - 1].at
  }

  // ---------------------------------------------------------------- bounded overshoot

  lemma ByIpAfterArrival(inFlight: map<nat, Login>, id: nat, login: Login, key: string)
    requires id !in inFlight
    ensures |ByIp(inFlight[id := login], key)| == |ByIp(inFlight, key)| + if login.ip == key then 1 else 0
  {
    assert ByIp(inFlight[id := login], key) == ByIp(inFlight, key) + if login.ip == key then {id} else {};
  }

  lemma ByUserAfterArrival(inFlight: map<nat, Login>, id: nat, login: Login, key: string)
    requires id !in inFlight
    ensures |ByUser(inFlight[id := login], key)| == |ByUser(inFlight, key)| + if login.user == key then 1 else 0
  {
    assert ByUser(inFlight[id := login], key) == ByUser(inFlight, key) + if login.user == key then {id} else {};
  }

  lemma PendingAfterArrival(inFlight: map<nat, Login>, id: nat, login: Login, key: string)
    requires id !in inFlight
    ensures Pending(inFlight[id := login], key) == Pending(inFlight, key) + Weight(login, key)
  {
    ByIpAfterArrival(inFlight, id, login, key);
    ByUserAfterArrival(inFlight, id, login, key);
  }

  lemma PendingAfterFinish(inFlight: map<nat, Login>, id: nat, key: string)
    requires id in inFlight
    ensures Pending(Without(inFlight, id), key) == Pending(inFlight, key) - Weight(inFlight[id], key)
  {
    PendingAfterArrival(Without(inFlight, id), id, inFlight[id], key);
    assert Without(inFlight, id)[id := inFlight[id]] == inFlight;
  }

  lemma TouchingAfterArrival(inFlight: map<nat, Login>, id: nat, login: Login, key: string)
    requires id !in inFlight
    ensures |Touching(inFlight[id := login], key)| == |Touching(inFlight, key)| + if Uses(login, key) then 1 else 0
  {
    assert Touching(inFlight[id := login], key) == Touching(inFlight, key) + if Uses(login, key) then {id} else {};
  }

  lemma TouchingAfterFinish(inFlight: map<nat, Login>, id: nat, key: string)
    requires id in inFlight
    ensures |Touching(Without(inFlight, id), key)|
         == |Touching(inFlight, key)| - if Uses(inFlight[id], key) then 1 else 0
  {
    assert Touching(Without(inFlight, id), key)
        == Touching(inFlight, key) - if Uses(inFlight[id], key) then {id} else {};
  }

  lemma RecordCount(m: Counters, f: Failure, key: string, window: int)
    ensures Count(Record(m, f, window), key, f.at) <= Count(m, key, f.at) + Weight(Login(f.ip, f.user), key)
  {
  }

  ghost predicate Bounded(s: State, key: string, cap: int, k: nat, now: int) {
    Count(s.counters, key, now) + Pending(s.inFlight, key) <= cap - 1 + k
  }

  lemma StepBounded(s: State, e: Event, lim: Limits, key: string, cap: int, k: nat, now: int)
    requires Bounded(s, key, cap, k, now) && now <= e.at && cap >= 1
    requires e.Arrive? ==> Capped(e.login, lim, key, cap)
    requires Pending(Step(s, e, lim).inFlight, key) <= k
    ensures Bounded(Step(s, e, lim), key, cap, k, e.at)
  {
    match e
    case Arrive(id, login, at) =>
      if id !in s.inFlight {
        PendingAfterArrival(s.inFlight, id, login, key);
      }
    case Finish(id, ok, at) =>
      if id in s.inFlight {
        PendingAfterFinish(s.inFlight, id, key);
        if !ok {
          RecordCount(s.counters, Failure(s.inFlight[id].ip, s.inFlight[id].user, at), key, lim.window);
        }
      }
  }

  /** In every interleaving with at most `k` pending increments of a key past the check, its counter never
      exceeds its threshold minus one plus `k`. */
  lemma {:induction false} BoundedOvershoot(events: seq<Event>, lim: Limits, key: string, cap: int, k: nat, t: int)
    requires Ordered(events) && AllCapped(events, lim, key, cap) && AtMostPending(events, lim, key, k) && cap >= 1
    requires Now(events, t) <= t
    ensures Count(Run(events, lim).counters, key, t) + Pending(Run(events, lim).inFlight, key) <= cap - 1 + k
  {
    if events == [] {
      assert ByIp(map[], key) == ByUser(map[], key) == {};
    } else {
      var n := |events| - 1;
      BoundedOvershoot(events[..n], lim, key, cap, k, events[n].at);
      StepBounded(Run(events[..n], lim), events[n], lim, key, cap, k, events[n].at);
    }
  }

  /** No login is known to both axes by one string. */
  ghost predicate DistinctNames(events: seq<Event>) {
    forall i :: 0 <= i < |events| && events[i].Arrive? ==> events[i].login.ip != events[i].login.user
  }

  lemma {:induction false} OnePerLogin(events: seq<Event>, lim: Limits, key: string)
    requires DistinctNames(events)
    ensures Pending(Run(events, lim).inFlight, key) == |Touching(Run(events, lim).inFlight, key)|
    ensures forall id :: id in Run(events, lim).inFlight ==>
              Run(events, lim).inFlight[id].ip != Run(events, lim).inFlight[id].user
  {
    if events == [] {
      assert ByIp(map[], key) == ByUser(map[], key) == Touching(map[], key) == {};
    } else {
      var s, e := Run(events[..|events| - 1], lim), events[|events| - 1];
      OnePerLogin(events[..|events| - 1], lim, key);
      if e.Arrive? && e.id !in s.inFlight {
        PendingAfterArrival(s.inFlight, e.id, e.login, key);
        TouchingAfterArrival(s.inFlight, e.id, e.login, key);
      } else if e.Finish? && e.id in s.inFlight {
        PendingAfterFinish(s.inFlight, e.id, key);
        TouchingAfterFinish(s.inFlight, e.id, key);
      }
    }
  }

  lemma {:induction false} PendingPerLogin(events: seq<Event>, lim: Limits, key: string, k: nat)
    requires DistinctNames(events) && AtMost(events, lim, key, k)
    ensures AtMostPending(events, lim, key, k)
  {
    OnePerLogin(events, lim, key);
    if events != [] {
      PendingPerLogin(events[..|events| - 1], lim, key, k);
    }
  }

  /** Where no IP is also the username, that is at most `k` logins of the key past the check. */
  lemma OvershootPerLogin(events: seq<Event>, lim: Limits, key: string, cap: int, k: nat, t: int)
    requires Ordered(events) && AllCapped(events, lim, key, cap) && AtMost(events, lim, key, k) && cap >= 1
    requires DistinctNames(events) && Now(events, t) <= t
    ensures Count(Run(events, lim).counters, key, t) <= cap - 1 + k
  {
    PendingPerLogin(events, lim, key, k);
    BoundedOvershoot(events, lim, key, cap, k, t);
  }

  // ---------------------------------------------------------------- lockout over windows

  /** The counters are those of the recorded failures, which are in order. */
  lemma {:induction false} CountersArePlayed(events: seq<Event>, lim: Limits)
    ensures Run(events, lim).counters == Play(Run(events, lim).recorded, lim.window)
  {
    if events != [] {
      var prefix, e := events[..|events| - 1], events[|events| - 1];
      CountersArePlayed(prefix, lim);
      var s, s' := Run(prefix, lim), Run(events, lim);
      if s'.recorded != s.recorded {
        assert s'.recorded[..|s'.recorded| - 1] == s.recorded;
      }
    }
  }

  lemma {:induction false} RecordedInOrder(events: seq<Event>, lim: Limits)
    requires Ordered(events)
    ensures InOrder(Run(events, lim).recorded)
    ensures forall f :: f in Run(events, lim).recorded ==> events != [] && f.at <= events[|events| - 1].at
  {
    if events != [] {
      RecordedInOrder(events[..|events| - 1], lim);
    }
  }

  /** The failures recorded on `key`, on either axis, in the half-open interval of length `span` from `a`. */
  function Failures(fs: seq<Failure>, key: string, a: int, span: int): nat {
    if fs == [] then 0
    else
      var f := fs[|fs| - 1];
      Failures(fs[..|fs| - 1], key, a, span)
      + (if (f.ip == key || f.user == key) && a <= f.at < a + span then 1 else 0)
  }

  lemma {:induction false} RecentAppend(ts: seq<int>, x: int, t: int, span: int)
    ensures Recent(ts + [x], t, span) == Recent(ts, t, span) + if t - x < span then 1 else 0
  {
    assert (ts + [x])[..|ts|] == ts;
  }

  lemma RecentOfFailure(fs: seq<Failure>, f: Failure, key: string, t: int, span: int)
    ensures Recent(Hits(fs + [f], key), t, span)
         >= Recent(Hits(fs, key), t, span) + if (f.ip == key || f.user == key) && t - f.at < span then 1 else 0
  {
    var ts := Hits(fs, key);
    assert (fs + [f])[..|fs|] == fs;
    RecentAppend(ts, f.at, t, span);
    if f.ip == key && f.user == key {
      RecentAppend(ts + [f.at], f.at, t, span);
      assert Hits(fs + [f], key) == ts + [f.at] + [f.at];
    } else if f.ip == key || f.user == key {
      assert Hits(fs + [f], key) == ts + [f.at];
    } else {
      assert Hits(fs + [f], key) == ts;
    }
  }

  lemma {:induction false} FailuresAreRecent(fs: seq<Failure>, key: string, a: int, t: int, span: int)
    requires t < a + span
    ensures Failures(fs, key, a, span) <= Recent(Hits(fs, key), t, span)
  {
    if fs != [] {
      var n := |fs| - 1;
      FailuresAreRecent(fs[..n], key, a, t, span);
      RecentOfFailure(fs[..n], fs[n], key, t, span);
      assert fs == fs[..n] + [fs[n]];
    }
  }

  /** At any instant inside the interval the counter is at least the failures recorded in it so far. */
  lemma FailuresAreCounted(events: seq<Event>, lim: Limits, key: string, a: int, t: int)
    requires Ordered(events) && Now(events, t) <= t && a <= t < a + MILLIS * lim.window
    ensures Failures(Run(events, lim).recorded, key, a, MILLIS * lim.window) <= Count(Run(events, lim).counters, key, t)
  {
    var fs, span := Run(events, lim).recorded, MILLIS * lim.window;
    FailuresAreRecent(fs, key, a, t, span);
    RecordedInOrder(events, lim);
    HitsInOrder(fs, key);
    NeverUndercounts(Hits(fs, key), t, span);
    CountersArePlayed(events, lim);
    CounterIsChain(fs, key, t, lim.window);
  }

  /** The failures of the window ending at `t`. */
  function InWindow(fs: seq<Failure>, key: string, t: int, span: int): nat {
    Failures(fs, key, t - span + 1, span)
  }

  lemma {:induction false} StartLater(fs: seq<Failure>, key: string, a: int, t: int, span: int)
    requires a >= t - span + 1 && forall f :: f in fs ==> f.at <= t
    ensures Failures(fs, key, a, span) <= InWindow(fs, key, t, span)
  {
    if fs != [] {
      StartLater(fs[..|fs| - 1], key, a, t, span);
    }
  }

  lemma FailuresSnoc(fs: seq<Failure>, f: Failure, key: string, a: int, span: int)
    ensures Failures(fs + [f], key, a, span)
         == Failures(fs, key, a, span) + if (f.ip == key || f.user == key) && a <= f.at < a + span then 1 else 0
  {
    assert (fs + [f])[..|fs|] == fs;
  }

  ghost predicate Sheltered(s: State, lim: Limits, key: string, cap: int, k: nat, now: int) {
    InWindow(s.recorded, key, now, MILLIS * lim.window) + |Touching(s.inFlight, key)| <= cap - 1 + k
  }

  lemma StepSheltered(events: seq<Event>, e: Event, lim: Limits, key: string, cap: int, k: nat)
    requires Ordered(events) && Now(events, e.at) <= e.at && cap >= 1
    requires Sheltered(Run(events, lim), lim, key, cap, k, e.at)
    requires e.Arrive? ==> Capped(e.login, lim, key, cap)
    requires |Touching(Step(Run(events, lim), e, lim).inFlight, key)| <= k
    ensures Sheltered(Step(Run(events, lim), e, lim), lim, key, cap, k, e.at)
  {
    var s, span := Run(events, lim), MILLIS * lim.window;
    match e
    case Arrive(id, login, at) =>
      if id !in s.inFlight {
        TouchingAfterArrival(s.inFlight, id, login, key);
        if span >= 1 {
          FailuresAreCounted(events, lim, key, at - span + 1, at);
        } else {
          NoWindow(s.recorded, key, at - span + 1, span);
        }
      }
    case Finish(id, ok, at) =>
      if id in s.inFlight {
        TouchingAfterFinish(s.inFlight, id, key);
        FailuresSnoc(s.recorded, Failure(s.inFlight[id].ip, s.inFlight[id].user, at), key, at - span + 1, span);
      }
  }

  lemma {:induction false} NoWindow(fs: seq<Failure>, key: string, a: int, span: int)
    requires span <= 0
    ensures Failures(fs, key, a, span) == 0
  {
    if fs != [] {
      NoWindow(fs[..|fs| - 1], key, a, span);
    }
  }

  lemma ShelteredLater(s: State, lim: Limits, key: string, cap: int, k: nat, at: int, t: int)
    requires Sheltered(s, lim, key, cap, k, at) && at <= t && forall f :: f in s.recorded ==> f.at <= at
    ensures Sheltered(s, lim, key, cap, k, t)
  {
    var span := MILLIS * lim.window;
    StartLater(s.recorded, key, t - span + 1, at, span);
  }

  lemma {:induction false} RunSheltered(events: seq<Event>, lim: Limits, key: string, cap: int, k: nat, t: int)
    requires Ordered(events) && AllCapped(events, lim, key, cap) && AtMost(events, lim, key, k) && cap >= 1
    requires Now(events, t) <= t
    ensures Sheltered(Run(events, lim), lim, key, cap, k, t)
  {
    if events == [] {
      assert Touching(INITIAL.inFlight, key) == {};
    } else {
      var n := |events| - 1;
      RunSheltered(events[..n], lim, key, cap, k, events[n].at);
      StepSheltered(events[..n], events[n], lim, key, cap, k);
      RecordedInOrder(events, lim);
      ShelteredLater(Run(events, lim), lim, key, cap, k, events[n].at, t);
    }
  }

  lemma RecordedOutside(s: State, e: Event, lim: Limits, key: string, a: int, span: int)
    requires !(a <= e.at < a + span)
    ensures Failures(Step(s, e, lim).recorded, key, a, span) == Failures(s.recorded, key, a, span)
  {
    if e.Finish? && e.id in s.inFlight {
      FailuresSnoc(s.recorded, Failure(s.inFlight[e.id].ip, s.inFlight[e.id].user, e.at), key, a, span);
    }
  }

  /** With at most `k` logins of a key past the check, every half-open interval of the length of the
      failure window holds at most threshold - 1 + k recorded failures of it. */
  lemma {:induction false} LockoutWindow(events: seq<Event>, lim: Limits, key: string, cap: int, k: nat, a: int)
    requires Ordered(events) && AllCapped(events, lim, key, cap) && AtMost(events, lim, key, k) && cap >= 1
    ensures Failures(Run(events, lim).recorded, key, a, MILLIS * lim.window) <= cap - 1 + k
  {
    if events != [] {
      var n := |events| - 1;
      var t, span := events[n].at, MILLIS * lim.window;
      if a <= t < a + span {
        RunSheltered(events, lim, key, cap, k, t);
        RecordedInOrder(events, lim);
        StartLater(Run(events, lim).recorded, key, a, t, span);
      } else {
        LockoutWindow(events[..n], lim, key, cap, k, a);
        RecordedOutside(Run(events[..n], lim), events[n], lim, key, a, span);
      }
    }
  }

  ghost predicate OneAtATime(events: seq<Event>, lim: Limits) {
    |Run(events, lim).inFlight| <= 1 && (events != [] ==> OneAtATime(events[..|events| - 1], lim))
  }

  lemma {:induction false} OneTouches(events: seq<Event>, lim: Limits, key: string)
    requires OneAtATime(events, lim)
    ensures AtMost(events, lim, key, 1)
  {
    var m := Run(events, lim).inFlight;
    assert m.Keys == Touching(m, key) + (m.Keys - Touching(m, key));
    if events != [] {
      OneTouches(events[..|events| - 1], lim, key);
    }
  }

  /** When logins run one at a time, no half-open interval of the window's length holds more recorded
      failures of a key than its threshold. */
  lemma LockoutSafety(events: seq<Event>, lim: Limits, key: string, cap: int, a: int)
    requires Ordered(events) && AllCapped(events, lim, key, cap) && OneAtATime(events, lim) && cap >= 1
    ensures Failures(Run(events, lim).recorded, key, a, MILLIS * lim.window) <= cap
  {
    OneTouches(events, lim, key);
    LockoutWindow(events, lim, key, cap, 1, a);
  }

  // ---------------------------------------------------------------- the bound is attained

  /** The i-th of a family of usernames, none of which is the given IP. */
  function User(ip: string, i: nat): (r: string)
    ensures |r| == |ip| + 1 + i
  {
    ip + seq(i + 1, _ => 'u')
  }

  function Entry(ip: string, i: nat): Event {
    Arrive(i, Login(ip, User(ip, i)), 0)
  }

  /** `n` failed logins of one IP, one after the other. */
  function OneByOne(ip: string, n: nat): seq<Event> {
    if n == 0 then [] else OneByOne(ip, n - 1) + [Entry(ip, n - 1)] + [Finish(n - 1, false, 0)]
  }

  /** After those, the logins up to `hi` all pass the check before any of them finishes. */
  function Entering(ip: string, n: nat, hi: nat): seq<Event> {
    if hi <= n then OneByOne(ip, n) else Entering(ip, n, hi - 1) + [Entry(ip, hi - 1)]
  }

  /** And then they fail, up to `done`. */
  function Stampede(ip: string, n: nat, hi: nat, done: nat): seq<Event> {
    if done <= n then Entering(ip, n, hi) else Stampede(ip, n, hi, done - 1) + [Finish(done - 1, false, 0)]
  }

  /** The counter of `ip` stands at `count`, logins `lo..hi` are past the check, later names are unknown. */
  ghost predicate Shape(s: State, lim: Limits, ip: string, count: nat, lo: nat, hi: nat) {
    && Count(s.counters, ip, 0) == count
    && (forall i :: i in s.inFlight <==> lo <= i < hi)
    && (forall i :: i in s.inFlight ==> s.inFlight[i] == Login(ip, User(ip, i)))
    && (forall i: nat :: i >= hi ==> User(ip, i) !in s.counters)
    && |Touching(s.inFlight, ip)| == hi - lo
  }

  /** What holds of every run built here. */
  ghost predicate Proper(es: seq<Event>, lim: Limits, ip: string, k: nat) {
    && Ordered(es) && AllCapped(es, lim, ip, lim.ip) && AtMost(es, lim, ip, k) && DistinctNames(es)
    && forall e :: e in es ==> e.at == 0
  }

  lemma Enter(es: seq<Event>, es': seq<Event>, lim: Limits, ip: string, k: nat, count: nat, lo: nat, hi: nat)
    requires Proper(es, lim, ip, k) && Shape(Run(es, lim), lim, ip, count, lo, hi) && lo <= hi
    requires count < lim.ip && lim.user >= 1 && hi - lo < k
    requires es' == es + [Entry(ip, hi)]
    ensures Proper(es', lim, ip, k) && Shape(Run(es', lim), lim, ip, count, lo, hi + 1)
  {
    assert es'[..|es|] == es;
    var s := Run(es, lim);
    assert Check(s.counters, ip, User(ip, hi), 0, lim.ip, lim.user) == NotStuffing;
    TouchingAfterArrival(s.inFlight, hi, Login(ip, User(ip, hi)), ip);
  }

  lemma Fail(es: seq<Event>, lim: Limits, ip: string, k: nat, count: nat, lo: nat, hi: nat)
    requires Proper(es, lim, ip, k) && Shape(Run(es, lim), lim, ip, count, lo, hi) && lo < hi && hi - lo <= k
    requires lim.window >= 1
    ensures Proper(es + [Finish(lo, false, 0)], lim, ip, k)
    ensures Shape(Run(es + [Finish(lo, false, 0)], lim), lim, ip, count + 1, lo + 1, hi)
  {
    var es' := es + [Finish(lo, false, 0)];
    assert es'[..|es|] == es;
    var s := Run(es, lim);
    assert s.inFlight[lo] == Login(ip, User(ip, lo));
    TouchingAfterFinish(s.inFlight, lo, ip);
    assert forall i: nat :: i >= hi ==> User(ip, i) != User(ip, lo) && User(ip, i) != ip;
  }

  lemma NothingYet(ip: string, lim: Limits, k: nat)
    ensures Proper([], lim, ip, k) && Shape(Run([], lim), lim, ip, 0, 0, 0)
  {
    assert Touching(INITIAL.inFlight, ip) == {};
  }

  lemma EnterNext(es: seq<Event>, es': seq<Event>, lim: Limits, ip: string, k: nat, n: nat, hi: nat)
    requires n < hi <= n + k && n < lim.ip && lim.user >= 1 && es' == es + [Entry(ip, hi - 1)]
    requires Proper(es, lim, ip, k) && Shape(Run(es, lim), lim, ip, n, n, hi - 1)
    ensures Proper(es', lim, ip, k)
    ensures Shape(Run(es', lim), lim, ip, n, n, hi)
  {
    Enter(es, es', lim, ip, k, n, n, hi - 1);
  }

  /** One more failed login on its own. */
  lemma EnterAndFail(es: seq<Event>, lim: Limits, ip: string, k: nat, n: nat)
    requires Proper(es, lim, ip, k) && Shape(Run(es, lim), lim, ip, n, n, n)
    requires lim.user >= 1 && lim.window >= 1 && k >= 1 && n < lim.ip
    ensures var es' := es + [Entry(ip, n)] + [Finish(n, false, 0)];
            Proper(es', lim, ip, k) && Shape(Run(es', lim), lim, ip, n + 1, n + 1, n + 1)
  {
    Enter(es, es + [Entry(ip, n)], lim, ip, k, n, n, n);
    Fail(es + [Entry(ip, n)], lim, ip, k, n, n, n + 1);
  }

  lemma {:induction false} OneByOneShape(ip: string, lim: Limits, k: nat, n: nat)
    requires lim.user >= 1 && lim.window >= 1 && k >= 1 && n < lim.ip
    ensures Proper(OneByOne(ip, n), lim, ip, k) && Shape(Run(OneByOne(ip, n), lim), lim, ip, n, n, n)
  {
    if n == 0 {
      NothingYet(ip, lim, k);
    } else {
      OneByOneShape(ip, lim, k, n - 1);
      EnterAndFail(OneByOne(ip, n - 1), lim, ip, k, n - 1);
    }
  }

  lemma {:induction false} EnteringShape(ip: string, lim: Limits, k: nat, n: nat, hi: nat)
    requires lim.user >= 1 && lim.window >= 1 && k >= 1 && n < lim.ip && n <= hi <= n + k
    ensures Proper(Entering(ip, n, hi), lim, ip, k)
    ensures Shape(Run(Entering(ip, n, hi), lim), lim, ip, n, n, hi)
  {
    if hi == n {
      OneByOneShape(ip, lim, k, n);
    } else {
      EnteringShape(ip, lim, k, n, hi - 1);
      EnterNext(Entering(ip, n, hi - 1), Entering(ip, n, hi), lim, ip, k, n, hi);
    }
  }

  lemma FailNext(es: seq<Event>, es': seq<Event>, lim: Limits, ip: string, k: nat, done: nat, hi: nat)
    requires lim.window >= 1 && done < hi && hi - done <= k && es' == es + [Finish(done, false, 0)]
    requires Proper(es, lim, ip, k) && Shape(Run(es, lim), lim, ip, done, done, hi)
    ensures Proper(es', lim, ip, k) && Shape(Run(es', lim), lim, ip, done + 1, done + 1, hi)
  {
    Fail(es, lim, ip, k, done, done, hi);
  }

  lemma {:induction false} StampedeShape(ip: string, lim: Limits, k: nat, n: nat, hi: nat, done: nat)
    requires lim.user >= 1 && lim.window >= 1 && k >= 1 && n < lim.ip && n <= done <= hi <= n + k
    ensures Proper(Stampede(ip, n, hi, done), lim, ip, k)
    ensures Shape(Run(Stampede(ip, n, hi, done), lim), lim, ip, done, done, hi)
  {
    if done == n {
      EnteringShape(ip, lim, k, n, hi);
    } else {
      StampedeShape(ip, lim, k, n, hi, done - 1);
      FailNext(Stampede(ip, n, hi, done - 1), Stampede(ip, n, hi, done), lim, ip, k, done - 1, hi);
    }
  }

  /** For every threshold and every `k` some interleaving drives the counter to threshold - 1 + k. */
  lemma OvershootAttained(ip: string, lim: Limits, k: nat)
    requires lim.ip >= 1 && lim.user >= 1 && lim.window >= 1 && k >= 1
    ensures exists es: seq<Event> ::
              && Ordered(es) && AllCapped(es, lim, ip, lim.ip) && AtMost(es, lim, ip, k) && DistinctNames(es)
              && (forall e :: e in es ==> e.at == 0)
              && Count(Run(es, lim).counters, ip, 0) == lim.ip - 1 + k
  {
    var n := lim.ip - 1;
    StampedeShape(ip, lim, k, n, n + k, n + k);
    assert Proper(Stampede(ip, n, n + k, n + k), lim, ip, k);
  }

  // ---------------------------------------------------------------- refused attempts extend nothing

  /** While a key is locked out, with no login past the check, its counter and its deadline are frozen
      whatever logins arrive, so the lockout ends exactly when the time to live of the last failure does. */
  lemma {:induction false} RefusalsExtendNothing(s: State, events: seq<Event>, lim: Limits, key: string)
    requires key in s.counters && Touching(s.inFlight, key) == {}
    requires forall i :: 0 <= i < |events| ==>
               && events[i].at < s.counters[key].deadline
               && (events[i].Arrive? ==> Capped(events[i].login, lim, key, s.counters[key].value))
    ensures var s' := RunFrom(s, events, lim);
            key in s'.counters && s'.counters[key] == s.counters[key] && Touching(s'.inFlight, key) == {}
    ensures forall t :: t >= s.counters[key].deadline ==> Count(RunFrom(s, events, lim).counters, key, t) == 0
  {
    if events != [] {
      var prefix, e := events[..|events| - 1], events[|events| - 1];
      RefusalsExtendNothing(s, prefix, lim, key);
      var m := RunFrom(s, prefix, lim);
      match e
      case Arrive(id, login, at) =>
        if id !in m.inFlight {
          if Uses(login, key) {
            assert Check(m.counters, login.ip, login.user, at, lim.ip, lim.user) != NotStuffing;
          } else {
            assert Touching(m.inFlight[id := login], key) == {};
          }
        }
      case Finish(id, ok, at) =>
        if id in m.inFlight {
          assert id !in Touching(m.inFlight, key);
          assert Touching(Without(m.inFlight, id), key) == {};
        }
    }
  }
}
