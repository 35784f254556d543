/** Properties of every run of the gateway machine: its store is determined by its history, the shadow
    flag never influences it, and blocks caused by failed logins end in bounded time. */
module GatewayRuns {
  import opened Redis
  import opened SortedSet
  import opened FailureCounters
  import opened Timing
  import opened Graduated
  import opened Gateway

  // ---------------------------------------------------------------- the store is its history

  ghost predicate Played(cfg: Config, s: System) {
    && s.core.failedAuth == Play(s.history.failures, cfg.authWindow)
    && s.core.blockedIp == PlayBlocks(s.history.blocks)
  }

  ghost predicate Chronological(s: System, now: int) {
    && InOrder(s.history.failures) && (forall f :: f in s.history.failures ==> f.at <= now)
    && BlocksInOrder(s.history.blocks) && (forall b :: b in s.history.blocks ==> b.at <= now)
  }

  lemma ApplyPlayed(cfg: Config, s: System, e: BlockEvent)
    requires Played(cfg, s)
    ensures Played(cfg, Apply(s, e))
  {
    assert (s.history.blocks + [e])[..|s.history.blocks|] == s.history.blocks;
  }

  lemma FailurePlayed(cfg: Config, s: System, e: Event)
    requires Played(cfg, s) && e.action.LoginFailed?
    ensures Played(cfg, Step(cfg, s, e))
  {
    var f := Failure(e.action.ip, e.action.user, e.at);
    assert (s.history.failures + [f])[..|s.history.failures|] == s.history.failures;
  }

  /** Of the steps of a request only setting its block touches counters, blocks or their history. */
  lemma MoveKeeps(cfg: Config, s: System, id: string, t: int, stamp: nat)
    requires id in s.handlers
    ensures var s' := Move(cfg, s, id, t, stamp);
            && s'.core.failedAuth == s.core.failedAuth && s'.history.failures == s.history.failures
            && if s.handlers[id].phase.ApplyBlock?
               then var applied := Apply(s, Applied(s.handlers[id].req.ip, t));
                    s'.core.blockedIp == applied.core.blockedIp && s'.history.blocks == applied.history.blocks
               else s'.core.blockedIp == s.core.blockedIp && s'.history.blocks == s.history.blocks
  {
  }

  lemma StepPlayed(cfg: Config, s: System, e: Event)
    requires Played(cfg, s)
    ensures Played(cfg, Step(cfg, s, e))
  {
    match e.action
    case Advance(id, stamp) =>
      if id in s.handlers {
        MoveKeeps(cfg, s, id, e.at, stamp);
        ApplyPlayed(cfg, s, Applied(s.handlers[id].req.ip, e.at));
      }
    case LoginFailed(_, _) => FailurePlayed(cfg, s, e);
    case AdminBlock(ip) => ApplyPlayed(cfg, s, Applied(ip, e.at));
    case AdminLift(ip) => ApplyPlayed(cfg, s, Lifted(ip, e.at));
    case _ =>
  }

  /** The failure counters and the blocks of the store are those of the recorded failures and block events. */
  lemma {:induction false} CoreIsPlayed(cfg: Config, events: seq<Event>)
    ensures Played(cfg, Run(cfg, events))
  {
    if events != [] {
      CoreIsPlayed(cfg, events[..|events| - 1]);
      StepPlayed(cfg, Run(cfg, events[..|events| - 1]), events[|events| - 1]);
    }
  }

  lemma StepChronological(cfg: Config, s: System, e: Event, now: int)
    requires Chronological(s, now) && now <= e.at
    ensures Chronological(Step(cfg, s, e), e.at)
  {
    if e.action.Advance? && e.action.id in s.handlers {
      MoveKeeps(cfg, s, e.action.id, e.at, e.action.stamp);
    }
  }

  lemma {:induction false} RunChronological(cfg: Config, events: seq<Event>)
    requires Ordered(events)
    ensures Chronological(Run(cfg, events), if events == [] then 0 else events[|events| - 1].at)
  {
    if events != [] {
      var n := |events| - 1;
      RunChronological(cfg, events[..n]);
      StepChronological(cfg, Run(cfg, events[..n]), events[n], if n == 0 then events[n].at else events[n - 1].at);
    }
  }

  /** In every run of decisions, admin applications and removals, in any interleaving, an IP reads as
      blocked at `t` exactly when some application still runs at `t` and was not removed since. */
  lemma BlockHistoryOfRuns(cfg: Config, events: seq<Event>, ip: string, t: int)
    requires Ordered(events)
    ensures IsBlocked(Run(cfg, events).core.blockedIp, ip, t)
       <==> HasLiveApplication(Run(cfg, events).history.blocks, ip, t)
  {
    CoreIsPlayed(cfg, events);
    RunChronological(cfg, events);
    BlockHistory(Run(cfg, events).history.blocks, ip, t);
  }

  // ---------------------------------------------------------------- shadow non-interference

  predicate BeforeFlag(p: Phase) {
    !p.Inside? && !p.LogEvent? && !p.Done?
  }

  /** Both requests are at the same store operation with the same readings, or both are past the flag. */
  ghost predicate SameProgress(h1: Handler, h2: Handler) {
    && h1.req == h2.req && h1.since == h2.since
    && BeforeFlag(h1.phase) == BeforeFlag(h2.phase)
    && (BeforeFlag(h1.phase) ==> h1.phase == h2.phase)
  }

  /** Equal in everything but flag, log and what happens to requests past the flag. */
  ghost predicate Agree(s1: System, s2: System) {
    && s1.core == s2.core && s1.history == s2.history
    && s1.handlers.Keys == s2.handlers.Keys
    && forall id :: id in s1.handlers ==> SameProgress(s1.handlers[id], s2.handlers[id])
  }

  /** The same event, up to the value a flag is set to. */
  predicate SameButFlag(e1: Event, e2: Event) {
    e1 == e2 || (e1.at == e2.at && e1.action.SetFlag? && e2.action.SetFlag?)
  }

  lemma AtAgrees(s1: System, s2: System, id: string, h1: Handler, h2: Handler, p1: Phase, p2: Phase)
    requires Agree(s1, s2) && id in s1.handlers
    requires h1.req == h2.req && h1.since == h2.since
    requires p1 == p2 || (!BeforeFlag(p1) && !BeforeFlag(p2))
    ensures Agree(At(s1, id, h1, p1), At(s2, id, h2, p2))
  {
  }

  /** Before the flag is read both runs do the same. */
  lemma MoveBefore(c1: Config, c2: Config, s1: System, s2: System, id: string, t: int, stamp: nat)
    requires c2 == c1.(shadowDefault := c2.shadowDefault) && Agree(s1, s2) && id in s1.handlers
    requires BeforeFlag(s1.handlers[id].phase)
    ensures Agree(Move(c1, s1, id, t, stamp), Move(c2, s2, id, t, stamp))
  {
    assert SameProgress(s1.handlers[id], s2.handlers[id]);
    var h := s1.handlers[id];
    match h.phase
    case Gather =>
    case RecordTiming(i, u) =>
      var r := Recording(t, stamp);
      var times := StoreSample(s1.core.requestTimes, h.req.client, r, c1.maxSamples);
      var recs := s1.history.recordings + [(h.req.client, r)];
      AtAgrees(s1.(core := s1.core.(requestTimes := times), history := s1.history.(recordings := recs)),
               s2.(core := s2.core.(requestTimes := times), history := s2.history.(recordings := recs)),
               id, h, h, ReadTiming(i, u), ReadTiming(i, u));
    case ReadTiming(i, u) =>
      var p := Judge(i, u, TimingEntropy(LiveSamples(s1.core.requestTimes, h.req.client, t)));
      AtAgrees(s1, s2, id, h, h, p, p);
    case Judge(i, u, entropy) =>
      var (state, reason) := Assess(IsBlocked(s1.core.blockedIp, h.req.ip, t), i, u, entropy, c1.policy);
      var verdicts := s1.history.verdicts + [Verdict(id, h.req.ip, state, reason)];
      var p := if SetsBlock(reason) then ApplyBlock(reason) else ReadFlag(state, reason);
      AtAgrees(s1.(history := s1.history.(verdicts := verdicts)), s2.(history := s2.history.(verdicts := verdicts)),
               id, h, h, p, p);
    case ApplyBlock(reason) =>
      AtAgrees(Apply(s1, Applied(h.req.ip, t)), Apply(s2, Applied(h.req.ip, t)),
               id, h, h, ReadFlag(SoftBlock, reason), ReadFlag(SoftBlock, reason));
    case ReadFlag(state, reason) =>
      AtAgrees(s1, s2, id, h, h, Enforce(ShadowOn(s1.flag, c1), state), Enforce(ShadowOn(s2.flag, c2), state));
  }

  /** Past it neither run touches anything the other could see. */
  lemma MoveAfter(c1: Config, c2: Config, s1: System, s2: System, id: string, t: int, stamp: nat)
    requires c2 == c1.(shadowDefault := c2.shadowDefault) && Agree(s1, s2) && id in s1.handlers
    requires !BeforeFlag(s1.handlers[id].phase)
    ensures Agree(Move(c1, s1, id, t, stamp), Move(c2, s2, id, t, stamp))
  {
    assert SameProgress(s1.handlers[id], s2.handlers[id]);
  }

  lemma StepAgrees(c1: Config, c2: Config, s1: System, s2: System, e1: Event, e2: Event)
    requires c2 == c1.(shadowDefault := c2.shadowDefault) && Agree(s1, s2) && SameButFlag(e1, e2)
    ensures Agree(Step(c1, s1, e1), Step(c2, s2, e2))
  {
    match e1.action
    case Advance(id, stamp) =>
      if id in s1.handlers {
        if BeforeFlag(s1.handlers[id].phase) {
          MoveBefore(c1, c2, s1, s2, id, e1.at, stamp);
        } else {
          MoveAfter(c1, c2, s1, s2, id, e1.at, stamp);
        }
      }
    case _ =>
  }

  /** Two runs that differ only in the shadow flag, its default and every value it is set to, keep the
      same counters, samples and blocks and reach the same verdicts, in every interleaving. */
  lemma {:induction false} ShadowNonInterference(c1: Config, c2: Config, events1: seq<Event>, events2: seq<Event>)
    requires c2 == c1.(shadowDefault := c2.shadowDefault)
    requires |events1| == |events2|
    requires forall i :: 0 <= i < |events1| ==> SameButFlag(events1[i], events2[i])
    ensures Agree(Run(c1, events1), Run(c2, events2))
  {
    if events1 != [] {
      var n := |events1| - 1;
      ShadowNonInterference(c1, c2, events1[..n], events2[..n]);
      StepAgrees(c1, c2, Run(c1, events1[..n]), Run(c2, events2[..n]), events1[n], events2[n]);
    }
  }

  /** Nothing has been enforced against any request. */
  ghost predicate Unenforced(s: System) {
    forall id :: id in s.handlers ==>
      match s.handlers[id].phase
      case Inside(_, retry) => retry == None
      case Done(response, _, _) => response == Forwarded(None)
      case _ => true
  }

  /** While the flag is on, every request is passed on without a Retry-After, whatever its verdict. */
  lemma {:induction false} ShadowNeverEnforces(cfg: Config, events: seq<Event>)
    requires cfg.shadowDefault && forall e :: e in events ==> e.action != SetFlag(false)
    ensures Unenforced(Run(cfg, events)) && ShadowOn(Run(cfg, events).flag, cfg)
  {
    if events != [] {
      ShadowNeverEnforces(cfg, events[..|events| - 1]);
      assert events[|events| - 1].action != SetFlag(false);
    }
  }

  // ---------------------------------------------------------------- recovery

  /** A step that cannot prolong a block of `ip` beyond its login failures: no admin block, no failure on
      it after `last`, no verdict for it other than by IP failures, and a block set at most `delay`
      milliseconds after the counters were read. */
  ghost predicate Quiet(cfg: Config, s: System, e: Event, ip: string, last: int, delay: nat) {
    && e.action != AdminBlock(ip)
    && (e.action.LoginFailed? && (e.action.ip == ip || e.action.user == ip) ==> e.at <= last)
    && (e.action.Advance? && e.action.id in s.handlers && s.handlers[e.action.id].req.ip == ip ==>
         var h := s.handlers[e.action.id];
         match h.phase
         case Judge(i, u, entropy) =>
           var reason := Assess(IsBlocked(s.core.blockedIp, ip, e.at), i, u, entropy, cfg.policy).1;
           !reason.UserFailures? && !reason.VeryLowEntropy?
         case ApplyBlock(_) => e.at <= h.since + delay
         case _ => true)
  }

  ghost predicate QuietRun(cfg: Config, events: seq<Event>, ip: string, last: int, delay: nat) {
    events == []
    || (var prefix := events[..|events| - 1];
        QuietRun(cfg, prefix, ip, last, delay) && Quiet(cfg, Run(cfg, prefix), events[|events| - 1], ip, last, delay))
  }

  /** A request that may still block `ip` read the counters before the last failure's window closed. */
  ghost predicate HandlerTimely(cfg: Config, h: Handler, ip: string, last: int) {
    h.req.ip == ip ==>
      match h.phase
      case RecordTiming(i, _) => i >= cfg.policy.ipThreshold ==> h.since < After(last, cfg.authWindow)
      case ReadTiming(i, _) => i >= cfg.policy.ipThreshold ==> h.since < After(last, cfg.authWindow)
      case Judge(i, _, _) => i >= cfg.policy.ipThreshold ==> h.since < After(last, cfg.authWindow)
      case ApplyBlock(_) => h.since < After(last, cfg.authWindow)
      case _ => true
  }

  ghost predicate Timely(cfg: Config, s: System, ip: string, last: int, delay: nat) {
    && (forall id :: id in s.handlers ==> HandlerTimely(cfg, s.handlers[id], ip, last))
    && (forall f :: f in s.history.failures && (f.ip == ip || f.user == ip) ==> f.at <= last)
    && (ip in s.core.blockedIp ==>
         s.core.blockedIp[ip].deadline <= After(After(last, cfg.authWindow) + delay, SOFT_BLOCK_TTL))
  }

  lemma {:induction false} HitsUpTo(fs: seq<Failure>, key: string, last: int)
    requires forall f :: f in fs && (f.ip == key || f.user == key) ==> f.at <= last
    ensures forall i :: 0 <= i < |Hits(fs, key)| ==> Hits(fs, key)[i] <= last
  {
    if fs != [] {
      HitsUpTo(fs[..|fs| - 1], key, last);
    }
  }

  /** A counter that reads positive was incremented less than a window ago. */
  lemma PositiveCount(cfg: Config, s: System, ip: string, last: int, t: int)
    requires Played(cfg, s) && Count(s.core.failedAuth, ip, t) > 0
    requires forall f :: f in s.history.failures && (f.ip == ip || f.user == ip) ==> f.at <= last
    ensures t < After(last, cfg.authWindow)
  {
    PlayTracks(s.history.failures, ip, cfg.authWindow);
    HitsUpTo(s.history.failures, ip, last);
  }

  lemma MoveTimely(cfg: Config, s: System, id: string, t: int, stamp: nat, ip: string, last: int, delay: nat)
    requires Played(cfg, s) && Timely(cfg, s, ip, last, delay) && id in s.handlers && cfg.policy.ipThreshold >= 1
    requires Quiet(cfg, s, Timed(t, Advance(id, stamp)), ip, last, delay)
    ensures Timely(cfg, Move(cfg, s, id, t, stamp), ip, last, delay)
  {
    var h := s.handlers[id];
    assert HandlerTimely(cfg, h, ip, last);
    if h.req.ip == ip && h.phase.Gather? && Count(s.core.failedAuth, ip, t) > 0 {
      PositiveCount(cfg, s, ip, last, t);
    }
  }

  lemma {:induction false} RunTimely(cfg: Config, events: seq<Event>, ip: string, last: int, delay: nat)
    requires QuietRun(cfg, events, ip, last, delay) && cfg.policy.ipThreshold >= 1
    ensures Timely(cfg, Run(cfg, events), ip, last, delay)
  {
    if events != [] {
      var prefix, e := events[..|events| - 1], events[|events| - 1];
      RunTimely(cfg, prefix, ip, last, delay);
      CoreIsPlayed(cfg, prefix);
      var s := Run(cfg, prefix);
      if e.action.Advance? && e.action.id in s.handlers {
        MoveTimely(cfg, s, e.action.id, e.at, e.action.stamp, ip, last, delay);
      }
    }
  }

  /** Recovery: a block caused by IP failures is gone once the failure window, the delay of a request and
      the block's time to live have passed since the last recorded failure, however many requests arrive. */
  lemma Recovery(cfg: Config, events: seq<Event>, ip: string, last: int, delay: nat, t: int)
    requires QuietRun(cfg, events, ip, last, delay) && cfg.policy.ipThreshold >= 1
    requires t >= last + MILLIS * cfg.authWindow + delay + MILLIS * SOFT_BLOCK_TTL
    ensures !IsBlocked(Run(cfg, events).core.blockedIp, ip, t)
  {
    RunTimely(cfg, events, ip, last, delay);
  }

  /** One request with no failure recorded for anyone, up to the step that would set its block. */
  function Lone(ip: string, t: int): seq<Event> {
    [Timed(t, Arrive("r", Request(ip, "c")))] + [Timed(t, Advance("r", 0))] + [Timed(t, Advance("r", 0))]
    + [Timed(t, Advance("r", 0))] + [Timed(t, Advance("r", 0))] + [Timed(t, Advance("r", 0))]
  }

  lemma RunSnoc(cfg: Config, events: seq<Event>, e: Event, ip: string, last: int, delay: nat)
    requires QuietRun(cfg, events, ip, last, delay) && Quiet(cfg, Run(cfg, events), e, ip, last, delay)
    ensures Run(cfg, events + [e]) == Step(cfg, Run(cfg, events), e)
    ensures QuietRun(cfg, events + [e], ip, last, delay)
  {
    assert (events + [e])[..|events|] == events;
  }

  /** With an IP threshold of zero or less a request is blocked on no failures at all. */
  lemma LoneIsBlocked(cfg: Config, ip: string, last: int, delay: nat, t: int)
    requires cfg.policy.ipThreshold <= 0
    ensures QuietRun(cfg, Lone(ip, t), ip, last, delay)
    ensures IsBlocked(Run(cfg, Lone(ip, t)).core.blockedIp, ip, t)
  {
    var e := Timed(t, Advance("r", 0));
    var r1 := [Timed(t, Arrive("r", Request(ip, "c")))];
    var r2 := r1 + [e];
    var r3 := r2 + [e];
    var r4 := r3 + [e];
    var r5 := r4 + [e];
    assert r1 == [] + r1;
    RunSnoc(cfg, [], r1[0], ip, last, delay);
    RunSnoc(cfg, r1, e, ip, last, delay);
    assert Run(cfg, r2).handlers["r"] == Handler(Request(ip, "c"), Phase.RecordTiming(0, 0), t);
    RunSnoc(cfg, r2, e, ip, last, delay);
    assert Run(cfg, r3).handlers["r"] == Handler(Request(ip, "c"), ReadTiming(0, 0), t);
    RunSnoc(cfg, r3, e, ip, last, delay);
    assert Run(cfg, r4).handlers["r"].phase.Judge? && Run(cfg, r4).core.blockedIp == map[];
    RunSnoc(cfg, r4, e, ip, last, delay);
    assert Run(cfg, r5).handlers["r"] == Handler(Request(ip, "c"), ApplyBlock(IpFailures(0)), t);
    RunSnoc(cfg, r5, e, ip, last, delay);
  }

  /** From `bound` on, `ip` is not blocked. */
  ghost predicate RecoveredBy(s: System, ip: string, bound: int) {
    forall t :: t >= bound ==> !IsBlocked(s.core.blockedIp, ip, t)
  }

  /** Every quiet run recovers by the bound exactly when the IP threshold is positive. */
  lemma RecoveryIff(cfg: Config, ip: string, last: int, delay: nat)
    ensures var bound := last + MILLIS * cfg.authWindow + delay + MILLIS * SOFT_BLOCK_TTL;
            (forall events: seq<Event> | QuietRun(cfg, events, ip, last, delay) ::
               RecoveredBy(Run(cfg, events), ip, bound))
            <==> cfg.policy.ipThreshold >= 1
  {
    var bound := last + MILLIS * cfg.authWindow + delay + MILLIS * SOFT_BLOCK_TTL;
    if cfg.policy.ipThreshold >= 1 {
      forall events: seq<Event> | QuietRun(cfg, events, ip, last, delay)
        ensures RecoveredBy(Run(cfg, events), ip, bound)
      {
        RunTimely(cfg, events, ip, last, delay);
      }
    } else {
      LoneIsBlocked(cfg, ip, last, delay, bound);
      assert !RecoveredBy(Run(cfg, Lone(ip, bound)), ip, bound);
    }
  }

  // ---------------------------------------------------------------- detection latency

  /** The recordings of one client. */
  function RecordingsOf(recs: seq<(string, Recording)>, client: string): seq<Recording> {
    if recs == [] then []
    else
      var last := recs[|recs| - 1];
      RecordingsOf(recs[..|recs| - 1], client) + (if last.0 == client then [last.1] else [])
  }

  /** The key of a client, or its absence, is what its recordings leave. */
  ghost predicate Holds(m: map<string, Cell<Zset>>, client: string, c: Cell<Zset>) {
    if client in m then m[client] == c else c.value == []
  }

  ghost predicate SamplesPlayed(cfg: Config, s: System, client: string) {
    Holds(s.core.requestTimes, client, Samples(RecordingsOf(s.history.recordings, client), cfg.maxSamples))
  }

  lemma StoreHolds(m: map<string, Cell<Zset>>, client: string, recs: seq<Recording>, r: Recording, maxSamples: int)
    requires Holds(m, client, Samples(recs, maxSamples))
    ensures Holds(StoreSample(m, client, r, maxSamples), client, Samples(recs + [r], maxSamples))
  {
    assert (recs + [r])[..|recs|] == recs;
  }

  lemma RecordingsSnoc(recs: seq<(string, Recording)>, owner: string, r: Recording, client: string)
    ensures RecordingsOf(recs + [(owner, r)], client)
         == RecordingsOf(recs, client) + if owner == client then [r] else []
  {
    assert (recs + [(owner, r)])[..|recs|] == recs;
  }

  predicate Records(s: System, e: Event) {
    e.action.Advance? && e.action.id in s.handlers && s.handlers[e.action.id].phase.RecordTiming?
  }

  lemma OthersKeepSamples(cfg: Config, s: System, e: Event)
    requires !Records(s, e)
    ensures var s' := Step(cfg, s, e);
            s'.core.requestTimes == s.core.requestTimes && s'.history.recordings == s.history.recordings
  {
  }

  lemma RecordingStoresSample(cfg: Config, s: System, e: Event)
    requires Records(s, e)
    ensures var s', client, r := Step(cfg, s, e), s.handlers[e.action.id].req.client, Recording(e.at, e.action.stamp);
            && s'.core.requestTimes == StoreSample(s.core.requestTimes, client, r, cfg.maxSamples)
            && s'.history.recordings == s.history.recordings + [(client, r)]
  {
  }

  lemma StoreHoldsForAll(m: map<string, Cell<Zset>>, recs: seq<(string, Recording)>, owner: string, r: Recording,
                         client: string, maxSamples: int)
    requires Holds(m, client, Samples(RecordingsOf(recs, client), maxSamples))
    ensures Holds(StoreSample(m, owner, r, maxSamples), client,
                  Samples(RecordingsOf(recs + [(owner, r)], client), maxSamples))
  {
    RecordingsSnoc(recs, owner, r, client);
    if owner == client {
      StoreHolds(m, client, RecordingsOf(recs, client), r, maxSamples);
    } else {
      assert RecordingsOf(recs + [(owner, r)], client) == RecordingsOf(recs, client);
    }
  }

  lemma StepSamples(cfg: Config, s: System, e: Event, client: string)
    requires SamplesPlayed(cfg, s, client)
    ensures SamplesPlayed(cfg, Step(cfg, s, e), client)
  {
    if Records(s, e) {
      RecordingStoresSample(cfg, s, e);
      StoreHoldsForAll(s.core.requestTimes, s.history.recordings, s.handlers[e.action.id].req.client,
                       Recording(e.at, e.action.stamp), client, cfg.maxSamples);
    } else {
      OthersKeepSamples(cfg, s, e);
    }
  }

  /** The stored samples of every client are those of its recordings. */
  lemma {:induction false} SamplesArePlayed(cfg: Config, events: seq<Event>, client: string)
    ensures SamplesPlayed(cfg, Run(cfg, events), client)
  {
    if events != [] {
      SamplesArePlayed(cfg, events[..|events| - 1], client);
      StepSamples(cfg, Run(cfg, events[..|events| - 1]), events[|events| - 1], client);
    }
  }

  lemma ReadsLiveSamples(m: map<string, Cell<Zset>>, client: string, recs: seq<Recording>, maxSamples: int, t: int)
    requires recs != [] && Holds(m, client, Samples(recs, maxSamples))
    requires t < After(recs[|recs| - 1].clock, SAMPLE_SECONDS)
    ensures LiveSamples(m, client, t) == Samples(recs, maxSamples).value
  {
    SamplesDeadline(recs, maxSamples);
  }

  /** The client of a request, by its recordings, has turned periodic and long enough so, and its key is live. */
  ghost predicate TurnedPeriodic(recs: seq<Recording>, h: nat, period: nat, maxSamples: int, t: int) {
    && PeriodicFrom(recs, h, period) && |recs| - h >= 3
    && (FreshAt(recs, h) || |recs| - h >= maxSamples)
    && t < After(recs[|recs| - 1].clock, SAMPLE_SECONDS)
  }

  lemma ReadingJudges(cfg: Config, s: System, id: string, t: int, stamp: nat)
    requires id in s.handlers && s.handlers[id].phase.ReadTiming?
    ensures var h := s.handlers[id];
            Move(cfg, s, id, t, stamp).handlers[id].phase
            == Judge(h.phase.ipFails, h.phase.userFails,
                     TimingEntropy(LiveSamples(s.core.requestTimes, h.req.client, t)))
  {
  }

  ghost predicate AlwaysSoftBlocked(p: Phase, policy: Policy)
    requires p.Judge?
  {
    forall blocked :: Assess(blocked, p.ipFails, p.userFails, p.entropy, policy).0 == SoftBlock
  }

  lemma PeriodicJudgement(cfg: Config, recs: seq<Recording>, h: nat, period: nat, t: int, ipFails: nat, userFails: nat)
    requires TurnedPeriodic(recs, h, period, cfg.maxSamples, t)
    requires cfg.maxSamples >= 3 && cfg.policy.entropyThreshold.num > 0
    ensures AlwaysSoftBlocked(Judge(ipFails, userFails, TimingEntropy(Samples(recs, cfg.maxSamples).value)), cfg.policy)
  {
    forall blocked: bool
      ensures Assess(blocked, ipFails, userFails, TimingEntropy(Samples(recs, cfg.maxSamples).value), cfg.policy).0
           == SoftBlock
    {
      PeriodicIsBlocked(recs, h, period, cfg.maxSamples, blocked, ipFails, userFails, cfg.policy);
    }
  }

  lemma DetectionAt(cfg: Config, s: System, id: string, t: int, stamp: nat, recs: seq<Recording>, h: nat, period: nat)
    requires id in s.handlers && s.handlers[id].phase.ReadTiming?
    requires Holds(s.core.requestTimes, s.handlers[id].req.client, Samples(recs, cfg.maxSamples))
    requires TurnedPeriodic(recs, h, period, cfg.maxSamples, t)
    requires cfg.maxSamples >= 3 && cfg.policy.entropyThreshold.num > 0
    ensures var p := Move(cfg, s, id, t, stamp).handlers[id].phase; p.Judge? && AlwaysSoftBlocked(p, cfg.policy)
  {
    ReadingJudges(cfg, s, id, t, stamp);
    ReadsLiveSamples(s.core.requestTimes, s.handlers[id].req.client, recs, cfg.maxSamples, t);
    PeriodicJudgement(cfg, recs, h, period, t, s.handlers[id].phase.ipFails, s.handlers[id].phase.userFails);
  }

  /** Detection latency, in every interleaving: a request that reads the samples of a client which has turned
      periodic goes on to be judged SOFT_BLOCK whatever its counters and whether or not its IP is blocked:
      from the third periodic recording if nothing older is stored, from the `maxSamples`-th in any case. */
  lemma DetectionLatency(cfg: Config, events: seq<Event>, id: string, t: int, stamp: nat, h: nat, period: nat)
    requires id in Run(cfg, events).handlers && Run(cfg, events).handlers[id].phase.ReadTiming?
    requires TurnedPeriodic(RecordingsOf(Run(cfg, events).history.recordings, Run(cfg, events).handlers[id].req.client),
                            h, period, cfg.maxSamples, t)
    requires cfg.maxSamples >= 3 && cfg.policy.entropyThreshold.num > 0
    ensures var p := Move(cfg, Run(cfg, events), id, t, stamp).handlers[id].phase;
            p.Judge? && AlwaysSoftBlocked(p, cfg.policy)
  {
    var s := Run(cfg, events);
    var client := s.handlers[id].req.client;
    SamplesArePlayed(cfg, events, client);
    DetectionAt(cfg, s, id, t, stamp, RecordingsOf(s.history.recordings, client), h, period);
  }
}
