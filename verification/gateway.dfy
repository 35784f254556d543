/** The abuse-detection middleware and the shadow-mode middleware behind it, as a machine whose steps are
    the store operations between two awaits.  Any number of requests interleave, with failed logins,
    admin blocks and toggles of the shadow flag in between. */
module Gateway {
  import opened Redis
  import opened SortedSet
  import opened FailureCounters
  import opened Deviation
  import opened Timing
  import opened Graduated
  import opened ShadowLog

  datatype Config = Config(policy: Policy, authWindow: int, maxSamples: int, shadowDefault: bool)

  datatype Request = Request(ip: string, client: string)

  /** 429 with Retry-After, or whatever the application answers, with Retry-After if throttled. */
  datatype Response = Blocked(retryAfter: int) | Forwarded(retryHint: Option<int>)

  /** Where a request stands: the store operation it takes next, and what it has read so far.  From
      `Inside` on, `rule` is the would-be enforcement noted in `request.state`. */
  datatype Phase =
    | Gather
    | RecordTiming(ipFails: nat, userFails: nat)
    | ReadTiming(ipFails: nat, userFails: nat)
    | Judge(ipFails: nat, userFails: nat, entropy: Option<Entropy>)
    | ApplyBlock(reason: Reason)
    | ReadFlag(state: ClientState, reason: Reason)
    | Inside(rule: Option<ClientState>, retryAfter: Option<int>)
    | LogEvent(loggedRule: ClientState)
    | Done(response: Response, flagged: Option<ClientState>, logged: Option<int>)

  /** A request with the instant at which it read the failure counters. */
  datatype Handler = Handler(req: Request, phase: Phase, since: int)

  /** The keys the decision depends on. */
  datatype Core = Core(failedAuth: Counters, requestTimes: map<string, Cell<Zset>>, blockedIp: Blocks)

  datatype Verdict = Verdict(id: string, ip: string, state: ClientState, reason: Reason)

  /** What has happened to the core: failures, recordings per client, block events and verdicts, in order. */
  datatype History = History(failures: seq<Failure>, recordings: seq<(string, Recording)>,
                             blocks: seq<BlockEvent>, verdicts: seq<Verdict>)

  datatype System = System(core: Core, flag: Option<bool>, log: map<string, Cell<Raw>>,
                           handlers: map<string, Handler>, history: History)

  datatype Action =
    | Arrive(id: string, req: Request)
    | Advance(id: string, stamp: nat)
    | LoginFailed(ip: string, user: string)
    | AdminBlock(blockIp: string)
    | AdminLift(liftIp: string)
    | SetFlag(on: bool)

  datatype Event = Timed(at: int, action: Action)

  const INITIAL: System :=
    System(Core(map[], map[], map[]), None, map[], map[], History([], [], [], []))

  function RuleName(state: ClientState): string {
    "abuse_detector:" + match state
                        case Allowed => "allowed"
                        case Throttled => "throttled"
                        case SoftBlock => "soft_block"
                        case HardBlock => "hard_block"
  }

  lemma RuleNames()
    ensures RuleName(Allowed) == "abuse_detector:allowed" && RuleName(Throttled) == "abuse_detector:throttled"
    ensures RuleName(SoftBlock) == "abuse_detector:soft_block" && RuleName(HardBlock) == "abuse_detector:hard_block"
  {
  }

  function ShadowOn(flag: Option<bool>, cfg: Config): bool {
    if flag.Some? then flag.value else cfg.shadowDefault
  }

  /** What a request does once the flag read tells whether to enforce. */
  function Enforce(shadow: bool, state: ClientState): Phase {
    if shadow && state != Allowed then Inside(Some(state), None)
    else match state
         case SoftBlock => Done(Blocked(SOFT_BLOCK_TTL), None, None)
         case Throttled => Inside(None, Some(THROTTLE_DELAY_SECONDS))
         case _ => Inside(None, None)
  }

  function At(s: System, id: string, h: Handler, phase: Phase): System {
    s.(handlers := s.handlers[id := h.(phase := phase)])
  }

  function Apply(s: System, e: BlockEvent): System {
    s.(core := s.core.(blockedIp := PlayBlock(s.core.blockedIp, e)),
       history := s.history.(blocks := s.history.blocks + [e]))
  }

  /** The next store operation of one request. */
  function Move(cfg: Config, s: System, id: string, t: int, stamp: nat): System
    requires id in s.handlers
  {
    var h := s.handlers[id];
    match h.phase
    case Gather =>
      var phase := RecordTiming(Count(s.core.failedAuth, h.req.ip, t), Count(s.core.failedAuth, h.req.client, t));
      s.(handlers := s.handlers[id := Handler(h.req, phase, t)])
    case RecordTiming(i, u) =>
      var r := Recording(t, stamp);
      At(s.(core := s.core.(requestTimes := StoreSample(s.core.requestTimes, h.req.client, r, cfg.maxSamples)),
            history := s.history.(recordings := s.history.recordings + [(h.req.client, r)])),
         id, h, ReadTiming(i, u))
    case ReadTiming(i, u) =>
      At(s, id, h, Judge(i, u, TimingEntropy(LiveSamples(s.core.requestTimes, h.req.client, t))))
    case Judge(i, u, entropy) =>
      var (state, reason) := Assess(IsBlocked(s.core.blockedIp, h.req.ip, t), i, u, entropy, cfg.policy);
      At(s.(history := s.history.(verdicts := s.history.verdicts + [Verdict(id, h.req.ip, state, reason)])),
         id, h, if SetsBlock(reason) then ApplyBlock(reason) else ReadFlag(state, reason))
    case ApplyBlock(reason) =>
      At(Apply(s, Applied(h.req.ip, t)), id, h, ReadFlag(SoftBlock, reason))
    case ReadFlag(state, reason) =>
      At(s, id, h, Enforce(ShadowOn(s.flag, cfg), state))
    case Inside(rule, retry) =>
      At(s, id, h,
         if ShadowOn(s.flag, cfg) && rule.Some? then LogEvent(rule.value) else Done(Forwarded(retry), rule, None))
    case LogEvent(rule) =>
      At(s.(log := s.log[id := Cell(Raw.Event(Some(RuleName(rule))), After(t, SHADOW_LOG_TTL))]),
         id, h, Done(Forwarded(None), Some(rule), Some(t)))
    case Done(_, _, _) => s
  }

  function Step(cfg: Config, s: System, e: Event): System {
    match e.action
    case Arrive(id, req) =>
      if id in s.handlers then s else s.(handlers := s.handlers[id := Handler(req, Gather, e.at)])
    case Advance(id, stamp) =>
      if id in s.handlers then Move(cfg, s, id, e.at, stamp) else s
    case LoginFailed(ip, user) =>
      var f := Failure(ip, user, e.at);
      s.(core := s.core.(failedAuth := Record(s.core.failedAuth, f, cfg.authWindow)),
         history := s.history.(failures := s.history.failures + [f]))
    case AdminBlock(ip) => Apply(s, Applied(ip, e.at))
    case AdminLift(ip) => Apply(s, Lifted(ip, e.at))
    case SetFlag(on) => s.(flag := Some(on))
  }

  function Run(cfg: Config, events: seq<Event>): System {
    if events == [] then INITIAL
    else Step(cfg, Run(cfg, events[..|events| - 1]), events[|events| - 1])
  }

  ghost predicate Ordered(events: seq<Event>) {
    forall i, j :: 0 <= i < j < |events| ==> events[i].at <= events[j].at
  }
}
