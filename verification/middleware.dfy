/** The two middlewares as code over the shared store, proved to do what the gateway machine does with
    the same request when no other one interleaves. */
module Middleware {
  import opened Redis
  import opened FailureCounters
  import opened Deviation
  import opened Timing
  import opened AbuseDetection
  import opened Graduated
  import opened Gateway
  import opened ShadowLog

  function Remaining(p: Phase): nat {
    match p
    case Gather => 8
    case RecordTiming(_, _) => 7
    case ReadTiming(_, _) => 6
    case Judge(_, _, _) => 5
    case ApplyBlock(_) => 4
    case ReadFlag(_, _) => 3
    case Inside(_, _) => 2
    case LogEvent(_) => 1
    case Done(_, _, _) => 0
  }

  /** All steps of one request in a row, at one instant. */
  ghost function Alone(cfg: Config, s: System, id: string, t: int, stamp: nat): (r: System)
    requires id in s.handlers
    ensures id in r.handlers && r.handlers[id].phase.Done?
    decreases Remaining(s.handlers[id].phase)
  {
    if s.handlers[id].phase.Done? then s else Alone(cfg, Move(cfg, s, id, t, stamp), id, t, stamp)
  }

  /** The store as a system in which one request is about to be handled. */
  ghost function Entering(redis: Store, id: string, req: Request): System
    reads redis
  {
    System(Core(redis.failedAuth, redis.requestTimes, redis.blockedIp), Parsed(redis.shadowFlag), redis.shadowLog,
           map[id := Handler(req, Gather, redis.clock)], History([], [], [], []))
  }

  ghost predicate Mirrors(redis: Store, s: System)
    reads redis
  {
    && s.core == Core(redis.failedAuth, redis.requestTimes, redis.blockedIp)
    && s.flag == Parsed(redis.shadowFlag) && s.log == redis.shadowLog
  }

  /** The steps of a request alone, from its arrival to the point where its signals are gathered. */
  lemma UpToJudgement(cfg: Config, s: System, id: string, t: int, stamp: nat) returns (r: System)
    requires id in s.handlers && s.handlers[id].phase.Gather?
    ensures id in r.handlers && r.handlers[id].req == s.handlers[id].req && r.flag == s.flag && r.log == s.log
    ensures var req := s.handlers[id].req;
            var times := StoreSample(s.core.requestTimes, req.client, Recording(t, stamp), cfg.maxSamples);
            && r.core == s.core.(requestTimes := times)
            && r.handlers[id].phase
            == Judge(Count(s.core.failedAuth, req.ip, t), Count(s.core.failedAuth, req.client, t),
                     TimingEntropy(LiveSamples(times, req.client, t)))
    ensures Alone(cfg, s, id, t, stamp) == Alone(cfg, r, id, t, stamp)
  {
    var s1 := Move(cfg, s, id, t, stamp);
    var s2 := Move(cfg, s1, id, t, stamp);
    r := Move(cfg, s2, id, t, stamp);
    assert Alone(cfg, s, id, t, stamp) == Alone(cfg, s1, id, t, stamp);
    assert Alone(cfg, s1, id, t, stamp) == Alone(cfg, s2, id, t, stamp);
  }

  /** Its decision, with the block if the decision sets one. */
  lemma UpToFlag(cfg: Config, s: System, id: string, t: int, stamp: nat) returns (r: System)
    requires id in s.handlers && s.handlers[id].phase.Judge?
    ensures id in r.handlers && r.handlers[id].req == s.handlers[id].req && r.flag == s.flag && r.log == s.log
    ensures var h := s.handlers[id];
            var (state, reason) := Assess(IsBlocked(s.core.blockedIp, h.req.ip, t), h.phase.ipFails, h.phase.userFails,
                                          h.phase.entropy, cfg.policy);
            && r.core == (if SetsBlock(reason)
                          then s.core.(blockedIp := PlayBlock(s.core.blockedIp, Applied(h.req.ip, t))) else s.core)
            && r.handlers[id].phase == ReadFlag(state, reason)
    ensures Alone(cfg, s, id, t, stamp) == Alone(cfg, r, id, t, stamp)
  {
    var s1 := Move(cfg, s, id, t, stamp);
    r := if s1.handlers[id].phase.ApplyBlock? then Move(cfg, s1, id, t, stamp) else s1;
    assert Alone(cfg, s, id, t, stamp) == Alone(cfg, s1, id, t, stamp);
  }

  /** And what follows from the flag. */
  lemma FromFlag(cfg: Config, s: System, id: string, t: int, stamp: nat)
    requires id in s.handlers && s.handlers[id].phase.ReadFlag?
    ensures var alone, state, shadow := Alone(cfg, s, id, t, stamp), s.handlers[id].phase.state, ShadowOn(s.flag, cfg);
            && alone.core == s.core && alone.flag == s.flag
            && alone.log == (if shadow && state != Allowed
                             then s.log[id := Cell(Raw.Event(Some(RuleName(state))), After(t, SHADOW_LOG_TTL))]
                             else s.log)
            && alone.handlers[id].phase.response
            == (if shadow && state != Allowed then Forwarded(None)
                else if state == SoftBlock then Blocked(SOFT_BLOCK_TTL)
                else if state == Throttled then Forwarded(Some(THROTTLE_DELAY_SECONDS))
                else Forwarded(None))
  {
    var s1 := Move(cfg, s, id, t, stamp);
    var s2 := Move(cfg, s1, id, t, stamp);
    var s3 := Move(cfg, s2, id, t, stamp);
    assert Alone(cfg, s, id, t, stamp) == Alone(cfg, s1, id, t, stamp);
    if s1.handlers[id].phase.Inside? {
      assert Alone(cfg, s1, id, t, stamp) == Alone(cfg, s2, id, t, stamp);
      if s2.handlers[id].phase.LogEvent? {
        assert Alone(cfg, s2, id, t, stamp) == Alone(cfg, s3, id, t, stamp);
      }
    }
  }

  /** A stored flag is on if it spells true, in whatever case; without one the configured default decides. */
  ghost predicate FlagOn(flag: Option<string>, fallback: bool) {
    if flag == None then fallback else SpellsTrue(flag.value)
  }

  ghost predicate SpellsTrue(s: string) {
    && |s| == 4
    && (s[0] == 't' || s[0] == 'T') && (s[1] == 'r' || s[1] == 'R')
    && (s[2] == 'u' || s[2] == 'U') && (s[3] == 'e' || s[3] == 'E')
  }

  function Lower(s: string): (r: string)
    ensures |r| == |s|
  {
    seq(|s|, i requires 0 <= i < |s| => if 'A' <= s[i] <= 'Z' then (s[i] as int + 32) as char else s[i])
  }

  /** The stored text as the value the gateway takes it for. */
  function Parsed(flag: Option<string>): Option<bool> {
    if flag == None then None else Some(Lower(flag.value) == "true")
  }

  lemma ParsedIsFlag(flag: Option<string>, cfg: Config)
    ensures ShadowOn(Parsed(flag), cfg) == FlagOn(flag, cfg.shadowDefault)
  {
    if flag.Some? {
      var low := Lower(flag.value);
      if SpellsTrue(flag.value) {
        assert low == "true";
      }
      assert low == "true" ==> low[0] == 't' && low[1] == 'r' && low[2] == 'u' && low[3] == 'e';
    }
  }

  /** The decision on what the store holds when the request comes, its own stamp included. */
  function Decision(core: Core, req: Request, now: nat, t: int, cfg: Config): (ClientState, Reason) {
    var samples := AddSample(LiveSamples(core.requestTimes, req.client, t), now, cfg.maxSamples);
    Assess(IsBlocked(core.blockedIp, req.ip, t), Count(core.failedAuth, req.ip, t),
           Count(core.failedAuth, req.client, t), TimingEntropy(samples), cfg.policy)
  }

  /** What the request leaves in the store: its stamp, and the block if the decision sets one. */
  function CoreAfter(core: Core, req: Request, now: nat, t: int, cfg: Config): Core {
    var times := StoreSample(core.requestTimes, req.client, Recording(t, now), cfg.maxSamples);
    var recorded := core.(requestTimes := times);
    if SetsBlock(Decision(core, req, now, t, cfg).1)
    then recorded.(blockedIp := PlayBlock(core.blockedIp, Applied(req.ip, t))) else recorded
  }

  /** The answer to a decision, with shadow mode on or off. */
  function Reply(verdict: ClientState, on: bool): Response {
    if on || verdict == Allowed then Forwarded(None)
    else if verdict == SoftBlock then Blocked(300) else Forwarded(Some(2))
  }

  function LogAfter(log: map<string, Cell<Raw>>, id: string, verdict: ClientState, on: bool, t: int)
    : map<string, Cell<Raw>>
  {
    if on && verdict != Allowed then log[id := Cell(Raw.Event(Some(RuleName(verdict))), t + 86_400_000)] else log
  }

  lemma AssessmentBacked(m: Blocks, ip: string, t: int, i: nat, u: nat, entropy: Option<Entropy>, policy: Policy)
    ensures var (state, reason) := Assess(IsBlocked(m, ip, t), i, u, entropy, policy);
            var after := if SetsBlock(reason) then PlayBlock(m, Applied(ip, t)) else m;
            && state != HardBlock
            && (state == SoftBlock ==> IsBlocked(after, ip, t))
            && (state != SoftBlock || IsBlocked(m, ip, t) ==> after == m)
  {
    SetsBlockExactly(IsBlocked(m, ip, t), i, u, entropy, policy);
  }

  /** A soft block reads as one at once, and no other decision touches the blocks. */
  lemma DecisionBacked(core: Core, req: Request, now: nat, t: int, cfg: Config)
    ensures var verdict, after := Decision(core, req, now, t, cfg).0, CoreAfter(core, req, now, t, cfg).blockedIp;
            && verdict != HardBlock
            && (verdict == SoftBlock ==> IsBlocked(after, req.ip, t))
            && (verdict != SoftBlock || IsBlocked(core.blockedIp, req.ip, t) ==> after == core.blockedIp)
  {
    var samples := AddSample(LiveSamples(core.requestTimes, req.client, t), now, cfg.maxSamples);
    AssessmentBacked(core.blockedIp, req.ip, t, Count(core.failedAuth, req.ip, t),
                     Count(core.failedAuth, req.client, t), TimingEntropy(samples), cfg.policy);
  }

  /** A request of the machine that runs alone leaves and answers just that. */
  lemma AloneExactly(cfg: Config, s: System, id: string, t: int, now: nat)
    requires id in s.handlers && s.handlers[id].phase.Gather?
    ensures var alone, req, on := Alone(cfg, s, id, t, now), s.handlers[id].req, ShadowOn(s.flag, cfg);
            var verdict := Decision(s.core, req, now, t, cfg).0;
            && alone.core == CoreAfter(s.core, req, now, t, cfg) && alone.flag == s.flag
            && alone.log == LogAfter(s.log, id, verdict, on, t)
            && alone.handlers[id].phase.response == Reply(verdict, on)
  {
    var req := s.handlers[id].req;
    StoredAtOnce(s.core.requestTimes, req.client, Recording(t, now), cfg.maxSamples);
    DecisionBacked(s.core, req, now, t, cfg);
    var judging := UpToJudgement(cfg, s, id, t, now);
    var judged := UpToFlag(cfg, judging, id, t, now);
    FromFlag(cfg, judged, id, t, now);
  }

  /** The part of `request.state` that passes a would-be enforcement on. */
  class RequestState {
    var shadowRule: Option<ClientState>
    var shadowReason: Reason

    constructor ()
      ensures shadowRule == None && shadowReason == NoReason
    {
      shadowRule, shadowReason := None, NoReason;
    }
  }

  class ShadowModeMiddleware {
    const redis: Store
    const cfg: Config

    constructor (redis: Store, cfg: Config)
      ensures this.redis == redis && this.cfg == cfg
    {
      this.redis, this.cfg := redis, cfg;
    }

    /** The innermost middleware: after the application has answered, it logs a noted enforcement. */
    method Dispatch(requestId: string, state: RequestState)
      modifies redis`shadowLog
      ensures redis.shadowLog
           == if FlagOn(redis.shadowFlag, cfg.shadowDefault) && state.shadowRule.Some?
              then old(redis.shadowLog)[requestId := Cell(Raw.Event(Some(RuleName(state.shadowRule.value))),
                                                          redis.clock + 86_400_000)]
              else old(redis.shadowLog)
    {
      ParsedIsFlag(redis.shadowFlag, cfg);
      if !ShadowOn(Parsed(redis.shadowFlag), cfg) {
        return;
      }
      if state.shadowRule.Some? {
        var logger := new ShadowLogger(redis);
        logger.LogShadowEvent(requestId, RuleName(state.shadowRule.value));
      }
    }
  }

  class AbuseDetectorMiddleware {
    const redis: Store
    const cfg: Config
    const detector: AbuseDetector
    const graduated: GraduatedResponseService
    const shadow: ShadowModeMiddleware

    constructor (redis: Store, cfg: Config)
      ensures this.redis == redis && this.cfg == cfg && detector.redis == redis && graduated.redis == redis
      ensures shadow.redis == redis && shadow.cfg == cfg
    {
      this.redis, this.cfg := redis, cfg;
      detector := new AbuseDetector(redis);
      graduated := new GraduatedResponseService(redis);
      shadow := new ShadowModeMiddleware(redis, cfg);
    }

    ghost predicate Wired() {
      detector.redis == redis && graduated.redis == redis && shadow.redis == redis && shadow.cfg == cfg
    }

    ghost function Present(): Core
      reads redis
    {
      Core(redis.failedAuth, redis.requestTimes, redis.blockedIp)
    }

    /** Gathers the signals, the request's own stamp among the samples. */
    method Gather(req: Request, now: nat) returns (ipFailCount: nat, userFailCount: nat, timingEntropy: Option<Entropy>)
      requires Wired()
      modifies redis`requestTimes
      ensures var t, times := redis.clock, old(redis.requestTimes);
              && ipFailCount == Count(redis.failedAuth, req.ip, t)
              && userFailCount == Count(redis.failedAuth, req.client, t)
              && redis.requestTimes == StoreSample(times, req.client, Recording(t, now), cfg.maxSamples)
              && timingEntropy == TimingEntropy(AddSample(LiveSamples(times, req.client, t), now, cfg.maxSamples))
    {
      ipFailCount := Count(redis.failedAuth, req.ip, redis.clock);
      userFailCount := Count(redis.failedAuth, req.client, redis.clock);
      detector.RecordRequestTiming(req.client, cfg.maxSamples, now);
      StoredAtOnce(old(redis.requestTimes), req.client, Recording(redis.clock, now), cfg.maxSamples);
      timingEntropy := detector.ComputeTimingEntropy(req.client);
    }

    /** The decision on them. */
    method Decide(req: Request, now: nat) returns (verdict: ClientState, reason: Reason)
      requires Wired()
      modifies redis`requestTimes, redis`blockedIp
      ensures (verdict, reason) == Decision(old(Present()), req, now, redis.clock, cfg)
      ensures Present() == CoreAfter(old(Present()), req, now, redis.clock, cfg)
    {
      var ipFailCount, userFailCount, timingEntropy := Gather(req, now);
      verdict, reason := graduated.ComputeAbuseScore(req.ip, ipFailCount, userFailCount, timingEntropy, cfg.policy);
    }

    /** Shadow or enforcement, once the decision is made. */
    method Respond(requestId: string, verdict: ClientState, reason: Reason, state: RequestState)
      returns (response: Response)
      requires Wired() && state.shadowRule == None && verdict != HardBlock
      modifies redis`shadowLog, state
      ensures var on := FlagOn(redis.shadowFlag, cfg.shadowDefault);
              && response == Reply(verdict, on)
              && redis.shadowLog == LogAfter(old(redis.shadowLog), requestId, verdict, on, redis.clock)
    {
      ParsedIsFlag(redis.shadowFlag, cfg);
      var shadowEnabled := ShadowOn(Parsed(redis.shadowFlag), cfg);
      if shadowEnabled && verdict != Allowed {
        state.shadowRule := Some(verdict);
        state.shadowReason := reason;
        shadow.Dispatch(requestId, state);
        return Forwarded(None);
      }
      if verdict == SoftBlock {
        return Blocked(SOFT_BLOCK_TTL);
      }
      if verdict == Throttled {
        shadow.Dispatch(requestId, state);
        return Forwarded(Some(THROTTLE_DELAY_SECONDS));
      }
      shadow.Dispatch(requestId, state);
      return Forwarded(None);
    }

    /** Signals, decision, then shadow or enforcement: what the machine does with a request that runs alone. */
    method Dispatch(requestId: string, req: Request, now: nat, state: RequestState) returns (response: Response)
      requires Wired() && state.shadowRule == None
      modifies redis`requestTimes, redis`blockedIp, redis`shadowLog, state
      ensures var alone := Alone(cfg, old(Entering(redis, requestId, req)), requestId, redis.clock, now);
              Mirrors(redis, alone) && alone.handlers[requestId].phase.response == response
      ensures var verdict := Decision(old(Present()), req, now, redis.clock, cfg).0;
              var on := FlagOn(redis.shadowFlag, cfg.shadowDefault);
              && Present() == CoreAfter(old(Present()), req, now, redis.clock, cfg)
              && (verdict == SoftBlock ==> IsBlocked(redis.blockedIp, req.ip, redis.clock))
              && (verdict != SoftBlock ==> redis.blockedIp == old(redis.blockedIp))
              && response == Reply(verdict, on)
              && redis.shadowLog == LogAfter(old(redis.shadowLog), requestId, verdict, on, redis.clock)
    {
      ParsedIsFlag(redis.shadowFlag, cfg);
      AloneExactly(cfg, Entering(redis, requestId, req), requestId, redis.clock, now);
      DecisionBacked(Present(), req, now, redis.clock, cfg);
      var verdict, reason := Decide(req, now);
      response := Respond(requestId, verdict, reason, state);
    }
  }
}
