/** The failed-login counters: a counter whose time to live is refreshed by every failure, and the
    sliding window of failures it stands in for. */
module FailureCounters {
  import opened Redis

  type Counters = map<string, Cell<nat>>

  /** One recorded failure; the IP and the username share the key space `failed_auth:`. */
  datatype Failure = Failure(ip: string, user: string, at: int)

  /** A counter as MGET reads it: an absent key counts as zero. */
  function Count(m: Counters, key: string, t: int): nat {
    var c := Read(m, key, t);
    if c.Some? then c.value else 0
  }

  /** INCR and EXPIRE: an expired counter restarts at one, and every increment renews the time to live. */
  function Bump(m: Counters, key: string, t: int, window: int): Counters {
    m[key := Cell(Count(m, key, t) + 1, After(t, window))]
  }

  /** The pipeline of a recorded failure, one atomic step on both axes. */
  function Record(m: Counters, f: Failure, window: int): Counters {
    Bump(Bump(m, f.ip, f.at, window), f.user, f.at, window)
  }

  datatype Stuffing = NotStuffing | IpThreshold(count: nat) | UserThreshold(count: nat)

  function Check(m: Counters, ip: string, user: string, t: int, ipThreshold: int, userThreshold: int): Stuffing {
    if Count(m, ip, t) >= ipThreshold then IpThreshold(Count(m, ip, t))
    else if Count(m, user, t) >= userThreshold then UserThreshold(Count(m, user, t))
    else NotStuffing
  }

  // ---------------------------------------------------------------- runs of recorded failures

  function Play(fs: seq<Failure>, window: int): Counters {
    if fs == [] then map[]
    else Record(Play(fs[..|fs| - 1], window), fs[|fs| - 1], window)
  }

  ghost predicate InOrder(fs: seq<Failure>) {
    forall i, j :: 0 <= i < j < |fs| ==> fs[i].at <= fs[j].at
  }

  /** The instants at which a key was incremented; a failure whose IP is its username counts twice. */
  function Hits(fs: seq<Failure>, key: string): seq<int> {
    if fs == [] then []
    else
      var f := fs[|fs| - 1];
      Hits(fs[..|fs| - 1], key)
      + (if f.ip == key then [f.at] else [])
      + (if f.user == key then [f.at] else [])
  }

  /** The length of the longest suffix of `ts` whose gaps, up to `t` itself, are all below `span`. */
  function Chain(ts: seq<int>, t: int, span: int): nat {
    if ts == [] || t - ts[|ts| - 1] >= span then 0
    else Chain(ts[..|ts| - 1], ts[|ts| - 1], span) + 1
  }

  /** What one increment does to the link between a counter and the chain of its increments. */
  ghost predicate Tracks(m: Counters, key: string, ts: seq<int>, window: int) {
    && (key in m <==> ts != [])
    && (ts != [] ==>
         var last := ts[|ts| - 1];
         && m[key].deadline == After(last, window)
         && m[key].value == Chain(ts[..|ts| - 1], last, MILLIS * window) + 1)
  }

  lemma BumpTracks(m: Counters, key: string, bumped: string, ts: seq<int>, at: int, window: int)
    requires Tracks(m, key, ts, window)
    ensures Tracks(Bump(m, bumped, at, window), key, if bumped == key then ts + [at] else ts, window)
  {
    if bumped == key {
      assert (ts + [at])[..|ts|] == ts;
    }
  }

  lemma {:induction false} PlayTracks(fs: seq<Failure>, key: string, window: int)
    ensures Tracks(Play(fs, window), key, Hits(fs, key), window)
  {
    if fs != [] {
      var prefix, f := fs[..|fs| - 1], fs[|fs| - 1];
      PlayTracks(prefix, key, window);
      var m, ts := Play(prefix, window), Hits(prefix, key);
      BumpTracks(m, key, f.ip, ts, f.at, window);
      BumpTracks(Bump(m, f.ip, f.at, window), key, f.user, if f.ip == key then ts + [f.at] else ts, f.at, window);
      assert Hits(fs, key) == (if f.user == key then (if f.ip == key then ts + [f.at] else ts) + [f.at]
                               else if f.ip == key then ts + [f.at] else ts);
    }
  }

  /** The refreshed-TTL counter is, at every instant and for every key, the length of the current chain of failures. */
  lemma CounterIsChain(fs: seq<Failure>, key: string, t: int, window: int)
    ensures Count(Play(fs, window), key, t) == Chain(Hits(fs, key), t, MILLIS * window)
  {
    PlayTracks(fs, key, window);
  }

  /** When a login is refused, on which axis and with which count, after any run of failures: on the IP axis when
      its chain has reached the threshold, otherwise on the username axis when that one's has, otherwise not. */
  lemma CheckExactly(fs: seq<Failure>, ip: string, user: string, t: int, window: int, ipThreshold: int,
                     userThreshold: int)
    ensures var byIp, byUser := Chain(Hits(fs, ip), t, MILLIS * window), Chain(Hits(fs, user), t, MILLIS * window);
            var verdict := Check(Play(fs, window), ip, user, t, ipThreshold, userThreshold);
            && (verdict == NotStuffing <==> byIp < ipThreshold && byUser < userThreshold)
            && (verdict.IpThreshold? <==> byIp >= ipThreshold)
            && (verdict.IpThreshold? ==> verdict.count == byIp)
            && (verdict.UserThreshold? ==> verdict.count == byUser)
  {
    CounterIsChain(fs, ip, t, window);
    CounterIsChain(fs, user, t, window);
  }

  // ---------------------------------------------------------------- what the chain says about the window

  /** The i-th of the gaps between consecutive increments, the last one being up to `t`. */
  function Gap(ts: seq<int>, t: int, i: nat): int
    requires i < |ts|
  {
    (if i + 1 < |ts| then ts[i + 1] else t) - ts[i]
  }

  /** The chain is the maximal suffix with gaps below the span: all its gaps are below, the one before it is not. */
  lemma {:induction false} ChainIsMaximalSuffix(ts: seq<int>, t: int, span: int)
    ensures var n := Chain(ts, t, span);
            && n <= |ts|
            && (forall i: nat :: |ts| - n <= i < |ts| ==> Gap(ts, t, i) < span)
            && (n < |ts| ==> Gap(ts, t, |ts| - n - 1) >= span)
  {
    if ts != [] && t - ts[|ts| - 1] < span {
      var last := |ts| - 1;
      ChainIsMaximalSuffix(ts[..last], ts[last], span);
      var n := Chain(ts, t, span);
      forall i: nat | i < last ensures Gap(ts, t, i) == Gap(ts[..last], ts[last], i) {}
    }
  }

  ghost predicate Nondecreasing(ts: seq<int>) {
    forall i, j :: 0 <= i < j < |ts| ==> ts[i] <= ts[j]
  }

  /** How many increments lie in the window `(t - span, t]`. */
  function Recent(ts: seq<int>, t: int, span: int): nat {
    if ts == [] then 0
    else Recent(ts[..|ts| - 1], t, span) + (if t - ts[|ts| - 1] < span then 1 else 0)
  }

  lemma {:induction false} RecentNone(ts: seq<int>, t: int, span: int)
    requires forall i :: 0 <= i < |ts| ==> t - ts[i] >= span
    ensures Recent(ts, t, span) == 0
  {
    if ts != [] {
      RecentNone(ts[..|ts| - 1], t, span);
    }
  }

  lemma {:induction false} RecentLater(ts: seq<int>, t: int, later: int, span: int)
    requires t <= later
    ensures Recent(ts, later, span) <= Recent(ts, t, span)
  {
    if ts != [] {
      RecentLater(ts[..|ts| - 1], t, later, span);
    }
  }

  /** The counter never undercounts: it is at least the number of failures in the window. */
  lemma {:induction false} NeverUndercounts(ts: seq<int>, t: int, span: int)
    requires Nondecreasing(ts) && (ts != [] ==> ts[|ts| - 1] <= t)
    ensures Recent(ts, t, span) <= Chain(ts, t, span)
  {
    if ts != [] {
      var last := |ts| - 1;
      if t - ts[last] >= span {
        RecentNone(ts, t, span);
      } else {
        NeverUndercounts(ts[..last], ts[last], span);
        RecentLater(ts[..last], ts[last], t, span);
      }
    }
  }

  lemma {:induction false} RecentSuffix(ts: seq<int>, t: int, span: int, from: nat)
    requires Nondecreasing(ts) && from <= |ts|
    requires forall i :: 0 <= i < from ==> t - ts[i] >= span
    ensures Recent(ts, t, span) <= |ts| - from
    ensures Recent(ts, t, span) == |ts| - from <==> (from == |ts| || t - ts[from] < span)
  {
    if from == |ts| {
      RecentNone(ts, t, span);
    } else {
      var last := |ts| - 1;
      RecentSuffix(ts[..last], t, span, from);
    }
  }

  lemma {:induction false} HitsInOrder(fs: seq<Failure>, key: string)
    requires InOrder(fs)
    ensures Nondecreasing(Hits(fs, key))
    ensures forall i :: 0 <= i < |Hits(fs, key)| ==> fs != [] && Hits(fs, key)[i] <= fs[|fs| - 1].at
  {
    if fs != [] {
      HitsInOrder(fs[..|fs| - 1], key);
    }
  }

  /** An increment outside the window that every later one followed within the span, up to `t`. */
  ghost predicate Stale(ts: seq<int>, t: int, span: int, i: int) {
    0 <= i < |ts| && ts[i] <= t - span && forall k: nat :: i <= k < |ts| ==> Gap(ts, t, k) < span
  }

  ghost predicate HasStale(ts: seq<int>, t: int, span: int) {
    exists i :: Stale(ts, t, span, i)
  }

  /** The oldest increment of the chain is outside the window exactly when some such increment exists. */
  lemma StaleIff(ts: seq<int>, t: int, span: int, n: nat)
    requires Nondecreasing(ts) && n == Chain(ts, t, span)
    ensures n <= |ts| && (HasStale(ts, t, span) <==> n > 0 && t - ts[|ts| - n] >= span)
  {
    ChainIsMaximalSuffix(ts, t, span);
    if n > 0 && t - ts[|ts| - n] >= span {
      assert Stale(ts, t, span, |ts| - n);
    }
    if i :| Stale(ts, t, span, i) {
      assert !(i < |ts| - n);
    }
  }

  lemma ChainExactIff(ts: seq<int>, t: int, span: int)
    requires Nondecreasing(ts) && (ts != [] ==> ts[|ts| - 1] <= t)
    ensures Chain(ts, t, span) == Recent(ts, t, span) <==> !HasStale(ts, t, span)
  {
    var n := Chain(ts, t, span);
    ChainIsMaximalSuffix(ts, t, span);
    StaleIff(ts, t, span, n);
    forall i | 0 <= i < |ts| - n ensures t - ts[i] >= span {
      assert Gap(ts, t, |ts| - n - 1) >= span;
    }
    RecentSuffix(ts, t, span, |ts| - n);
  }

  /** The counter a reader finds at `t` is the number of failures in the window if and only if no increment at
      or before the window's start is linked to `t` by gaps that are all below the window. */
  lemma ExactIff(fs: seq<Failure>, key: string, t: int, window: int)
    requires InOrder(fs) && (fs != [] ==> fs[|fs| - 1].at <= t)
    ensures Count(Play(fs, window), key, t) == Recent(Hits(fs, key), t, MILLIS * window)
       <==> !HasStale(Hits(fs, key), t, MILLIS * window)
  {
    HitsInOrder(fs, key);
    CounterIsChain(fs, key, t, window);
    ChainExactIff(Hits(fs, key), t, MILLIS * window);
  }

  /** One failure just before the previous one leaves the window, again and again. */
  ghost function Drip(n: nat, ip: string, user: string, pause: nat): (fs: seq<Failure>)
    ensures |fs| == n && forall i :: 0 <= i < n ==> fs[i] == Failure(ip, user, i * pause)
  {
    seq(n, i requires 0 <= i < n => Failure(ip, user, i * pause))
  }

  ghost predicate Spaced(ts: seq<int>, pause: nat) {
    forall i :: 0 <= i < |ts| ==> ts[i] == i * pause
  }

  lemma {:induction false} DripHits(n: nat, ip: string, user: string, pause: nat)
    requires ip != user
    ensures |Hits(Drip(n, ip, user, pause), ip)| == n && Spaced(Hits(Drip(n, ip, user, pause), ip), pause)
  {
    if n > 0 {
      DripHits(n - 1, ip, user, pause);
      assert Drip(n, ip, user, pause)[..n - 1] == Drip(n - 1, ip, user, pause);
    }
  }

  lemma SpacedAtLeast(a: nat, b: nat, pause: nat)
    requires a <= b
    ensures a * pause <= b * pause && (b - a >= 2 ==> b * pause - a * pause >= 2 * pause)
  {
    assert (b - a) * pause == b * pause - a * pause;
  }

  lemma {:induction false} SpacedChain(ts: seq<int>, pause: nat, span: nat)
    requires ts != [] && Spaced(ts, pause) && pause < span
    ensures Chain(ts, ts[|ts| - 1], span) == |ts|
  {
    var n := |ts| - 1;
    if n > 0 {
      SpacedChain(ts[..n], pause, span);
      assert ts[n] - ts[n - 1] == pause by {
        assert n * pause == (n - 1) * pause + pause;
      }
      assert Chain(ts[..n], ts[n], span) == Chain(ts[..n], ts[n - 1], span);
    }
  }

  lemma SpacedRecent(ts: seq<int>, pause: nat, span: nat)
    requires ts != [] && Spaced(ts, pause) && 2 * pause >= span
    ensures Nondecreasing(ts) && Recent(ts, ts[|ts| - 1], span) <= 2
  {
    forall i, j | 0 <= i < j < |ts| ensures ts[i] <= ts[j] { SpacedAtLeast(i, j, pause); }
    var from := if |ts| < 2 then 0 else |ts| - 2;
    forall i | 0 <= i < from ensures ts[|ts| - 1] - ts[i] >= span { SpacedAtLeast(i, |ts| - 1, pause); }
    RecentSuffix(ts, ts[|ts| - 1], span, from);
  }

  /** How far it overcounts: for every `n` some run of failures, each a millisecond before the one before it
      leaves the window, makes the counter read `n` with at most two failures in the window. */
  lemma Overcounts(n: nat, ip: string, user: string, window: nat) returns (fs: seq<Failure>)
    requires n > 0 && ip != user && window >= 1
    ensures |fs| == n && InOrder(fs)
    ensures Count(Play(fs, window), ip, fs[n - 1].at) == n
    ensures Recent(Hits(fs, ip), fs[n - 1].at, MILLIS * window) <= 2
  {
    var pause := MILLIS * window - 1;
    fs := Drip(n, ip, user, pause);
    forall i, j | 0 <= i < j < n ensures fs[i].at <= fs[j].at { SpacedAtLeast(i, j, pause); }
    DripHits(n, ip, user, pause);
    var ts := Hits(fs, ip);
    SpacedChain(ts, pause, MILLIS * window);
    SpacedRecent(ts, pause, MILLIS * window);
    CounterIsChain(fs, ip, fs[n - 1].at, window);
  }
}
