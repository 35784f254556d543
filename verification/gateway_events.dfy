/** What a run of the gateway machine comes to, read off its events: the flag, the failures, the block events and
    the recordings are those of the events, and every answer is explained by what the request had read. */
module GatewayEvents {
  import opened Redis
  import opened SortedSet
  import opened FailureCounters
  import opened Deviation
  import opened Timing
  import opened Graduated
  import opened Gateway
  import opened GatewayRuns

  // ---------------------------------------------------------------- histories of the events

  /** The value the shadow flag was last set to, or the configured default. */
  function LastSet(cfg: Config, events: seq<Event>): bool {
    if events == [] then cfg.shadowDefault
    else
      var e := events[|events| - 1];
      if e.action.SetFlag? then e.action.on else LastSet(cfg, events[..|events| - 1])
  }

  /** The request that first arrived under a name. */
  function ArrivedAs(events: seq<Event>, id: string): Option<Request> {
    if events == [] then None
    else
      var before, e := ArrivedAs(events[..|events| - 1], id), events[|events| - 1];
      if before == None && e.action.Arrive? && e.action.id == id then Some(e.action.req) else before
  }

  function FailuresIn(events: seq<Event>): seq<Failure> {
    if events == [] then []
    else
      var e := events[|events| - 1];
      FailuresIn(events[..|events| - 1])
      + if e.action.LoginFailed? then [Failure(e.action.ip, e.action.user, e.at)] else []
  }

  /** The request that takes its next step in an event, as it stands before it. */
  function Acting(cfg: Config, before: seq<Event>, e: Event): Option<Handler> {
    if e.action.Advance? && e.action.id in Run(cfg, before).handlers then Some(Run(cfg, before).handlers[e.action.id])
    else None
  }

  /** Admin blocks and removals, and the blocks that requests set on their verdict. */
  function BlocksIn(cfg: Config, events: seq<Event>): seq<BlockEvent> {
    if events == [] then []
    else
      var prefix, e := events[..|events| - 1], events[|events| - 1];
      var h := Acting(cfg, prefix, e);
      BlocksIn(cfg, prefix)
      + match e.action
        case AdminBlock(ip) => [Applied(ip, e.at)]
        case AdminLift(ip) => [Lifted(ip, e.at)]
        case _ => if h.Some? && h.value.phase.ApplyBlock? then [Applied(h.value.req.ip, e.at)] else []
  }

  /** What the requests of a client record: one stamp each. */
  function RecordingsIn(cfg: Config, events: seq<Event>, client: string): seq<Recording> {
    if events == [] then []
    else
      var prefix, e := events[..|events| - 1], events[|events| - 1];
      var h := Acting(cfg, prefix, e);
      RecordingsIn(cfg, prefix, client)
      + if h.Some? && h.value.phase.RecordTiming? && h.value.req.client == client
        then [Recording(e.at, e.action.stamp)] else []
  }

  /** The flag a request reads is the one last set. */
  lemma {:induction false} FlagIsLastSet(cfg: Config, events: seq<Event>)
    ensures ShadowOn(Run(cfg, events).flag, cfg) == LastSet(cfg, events)
  {
    if events != [] {
      FlagIsLastSet(cfg, events[..|events| - 1]);
    }
  }

  ghost predicate HistoryIs(cfg: Config, s: System, events: seq<Event>, client: string) {
    && s.history.failures == FailuresIn(events)
    && s.history.blocks == BlocksIn(cfg, events)
    && RecordingsOf(s.history.recordings, client) == RecordingsIn(cfg, events, client)
  }

  lemma MoveHistory(cfg: Config, s: System, id: string, t: int, stamp: nat, client: string)
    requires id in s.handlers
    ensures var h, s' := s.handlers[id], Move(cfg, s, id, t, stamp);
            && s'.history.failures == s.history.failures
            && s'.history.blocks == s.history.blocks + (if h.phase.ApplyBlock? then [Applied(h.req.ip, t)] else [])
            && RecordingsOf(s'.history.recordings, client)
            == RecordingsOf(s.history.recordings, client)
               + if h.phase.RecordTiming? && h.req.client == client then [Recording(t, stamp)] else []
  {
    var h := s.handlers[id];
    if h.phase.RecordTiming? {
      RecordingsSnoc(s.history.recordings, h.req.client, Recording(t, stamp), client);
    }
  }

  /** The machine's own history is that of the events. */
  lemma {:induction false} HistoryIsEvents(cfg: Config, events: seq<Event>, client: string)
    ensures HistoryIs(cfg, Run(cfg, events), events, client)
  {
    if events != [] {
      var prefix, e := events[..|events| - 1], events[|events| - 1];
      HistoryIsEvents(cfg, prefix, client);
      var s := Run(cfg, prefix);
      if e.action.Advance? && e.action.id in s.handlers {
        MoveHistory(cfg, s, e.action.id, e.at, e.action.stamp, client);
      }
    }
  }

  /** Counters and blocks in every interleaving are those of the failed logins and block events in the run, and
      the samples of every client those of its requests. */
  lemma CoreIsEvents(cfg: Config, events: seq<Event>, client: string)
    ensures var core := Run(cfg, events).core;
            && core.failedAuth == Play(FailuresIn(events), cfg.authWindow)
            && core.blockedIp == PlayBlocks(BlocksIn(cfg, events))
            && Holds(core.requestTimes, client, Samples(RecordingsIn(cfg, events, client), cfg.maxSamples))
  {
    HistoryIsEvents(cfg, events, client);
    CoreIsPlayed(cfg, events);
    SamplesArePlayed(cfg, events, client);
  }

  lemma StepKeepsRequest(cfg: Config, s: System, e: Event, id: string)
    ensures id in s.handlers ==>
              id in Step(cfg, s, e).handlers && Step(cfg, s, e).handlers[id].req == s.handlers[id].req
    ensures id !in s.handlers ==> (id in Step(cfg, s, e).handlers <==> e.action.Arrive? && e.action.id == id)
    ensures id !in s.handlers && e.action.Arrive? && e.action.id == id ==>
              Step(cfg, s, e).handlers[id].req == e.action.req
  {
  }

  /** A request is handled as the one that first arrived under its name. */
  lemma {:induction false} RequestsArrived(cfg: Config, events: seq<Event>, id: string)
    ensures ArrivedAs(events, id)
         == if id in Run(cfg, events).handlers then Some(Run(cfg, events).handlers[id].req) else None
  {
    if events != [] {
      RequestsArrived(cfg, events[..|events| - 1], id);
      StepKeepsRequest(cfg, Run(cfg, events[..|events| - 1]), events[|events| - 1], id);
    }
  }

  // ---------------------------------------------------------------- what a request has read

  /** The failures of a key that count at an instant. */
  function ChainOf(cfg: Config, events: seq<Event>, key: string, t: int): nat {
    Chain(Hits(FailuresIn(events), key), t, MILLIS * cfg.authWindow)
  }

  /** The samples a client's recordings leave to a reader. */
  function SamplesAt(cfg: Config, recs: seq<Recording>, t: int): Zset {
    if recs != [] && t < recs[|recs| - 1].clock + 3_600_000 then Samples(recs, cfg.maxSamples).value else []
  }

  /** The k-th event is a step of the request. */
  predicate IsStep(events: seq<Event>, k: int, id: string) {
    0 <= k < |events| && events[k].action.Advance? && events[k].action.id == id
  }

  /** What a request can have learnt or done by a step of its own: read how many failures count on its IP and its
      client's name, recorded its stamp, measured its client's samples, been judged, found or set the block of its
      IP, and read the flag. */
  datatype Reading =
    | Failing(i: nat, u: nat)
    | Stamping(i: nat, u: nat)
    | Measuring(i: nat, u: nat, entropy: Option<Entropy>)
    | Judging(state: ClientState, reason: Reason)
    | Blocking
    | Flagging(judged: ClientState, on: bool)

  /** Some step of the request in the run had that outcome, after what it rests on. */
  ghost predicate Reached(cfg: Config, events: seq<Event>, id: string, req: Request, r: Reading)
    decreases |events|, 1
  {
    exists k :: 0 <= k < |events| && ReachedAt(cfg, events, k, id, req, r)
  }

  ghost predicate ReachedAt(cfg: Config, events: seq<Event>, k: nat, id: string, req: Request, r: Reading)
    requires k < |events|
    decreases |events|, 0
  {
    var before, e := events[..k], events[k];
    && e.action.Advance? && e.action.id == id
    && match r
       case Failing(i, u) => i == ChainOf(cfg, before, req.ip, e.at) && u == ChainOf(cfg, before, req.client, e.at)
       case Stamping(i, u) =>
         && Reached(cfg, before, id, req, Failing(i, u))
         && RecordingsIn(cfg, before + [e], req.client)
         == RecordingsIn(cfg, before, req.client) + [Recording(e.at, e.action.stamp)]
       case Measuring(i, u, entropy) =>
         && Reached(cfg, before, id, req, Stamping(i, u))
         && entropy == TimingEntropy(SamplesAt(cfg, RecordingsIn(cfg, before, req.client), e.at))
       case Judging(state, reason) =>
         exists i, u, entropy ::
           && Reached(cfg, before, id, req, Measuring(i, u, entropy))
           && (state, reason) == Assess(Blocks(cfg, before, req.ip, e.at), i, u, entropy, cfg.policy)
       case Blocking => Blocks(cfg, before, req.ip, e.at) || SetsOwn(cfg, before, e, req.ip)
       case Flagging(state, on) =>
         && on == LastSet(cfg, before)
         && (state == SoftBlock ==> Reached(cfg, before, id, req, Blocking))
         && exists reason :: Reached(cfg, before, id, req, Judging(state, reason))
  }

  /** By the block events so far the IP is blocked. */
  ghost predicate Blocks(cfg: Config, events: seq<Event>, ip: string, t: int) {
    IsBlocked(PlayBlocks(BlocksIn(cfg, events)), ip, t)
  }

  /** The event itself is a block of the IP. */
  ghost predicate SetsOwn(cfg: Config, before: seq<Event>, e: Event, ip: string) {
    BlocksIn(cfg, before + [e]) == BlocksIn(cfg, before) + [Applied(ip, e.at)]
  }

  /** The answer to a verdict, with and without shadow mode. */
  function Answer(state: ClientState, on: bool): Response {
    if on then Forwarded(None)
    else match state
         case SoftBlock => Blocked(300)
         case Throttled => Forwarded(Some(2))
         case _ => Forwarded(None)
  }

  /** What is noted for the log. */
  function Noted(state: ClientState, on: bool): Option<ClientState> {
    if on && state != Allowed then Some(state) else None
  }

  /** The request read the flag after its verdict, and this is its answer and its note. */
  ghost predicate Settled(cfg: Config, events: seq<Event>, id: string, req: Request, response: Response,
                          note: Option<ClientState>) {
    exists state, on ::
      Reached(cfg, events, id, req, Flagging(state, on)) && response == Answer(state, on) && note == Noted(state, on)
  }

  ghost predicate Explained(cfg: Config, events: seq<Event>, id: string, h: Handler) {
    match h.phase
    case Gather => true
    case RecordTiming(i, u) => Reached(cfg, events, id, h.req, Failing(i, u))
    case ReadTiming(i, u) => Reached(cfg, events, id, h.req, Stamping(i, u))
    case Judge(i, u, entropy) => Reached(cfg, events, id, h.req, Measuring(i, u, entropy))
    case ApplyBlock(reason) => Reached(cfg, events, id, h.req, Judging(SoftBlock, reason))
    case ReadFlag(state, reason) =>
      && Reached(cfg, events, id, h.req, Judging(state, reason))
      && (state == SoftBlock ==> Reached(cfg, events, id, h.req, Blocking))
    case Inside(rule, retry) => Settled(cfg, events, id, h.req, Forwarded(retry), rule)
    case LogEvent(rule) => Settled(cfg, events, id, h.req, Forwarded(None), Some(rule))
    case Done(response, flagged, _) => Settled(cfg, events, id, h.req, response, flagged)
  }

  // ---------------------------------------------------------------- what was reached stays so

  lemma ReachedLater(cfg: Config, events: seq<Event>, e: Event, id: string, req: Request, r: Reading)
    requires Reached(cfg, events, id, req, r)
    ensures Reached(cfg, events + [e], id, req, r)
  {
    var k :| 0 <= k < |events| && ReachedAt(cfg, events, k, id, req, r);
    assert (events + [e])[..k] == events[..k] && (events + [e])[k] == events[k];
    assert ReachedAt(cfg, events + [e], k, id, req, r);
  }

  lemma SettledLater(cfg: Config, events: seq<Event>, e: Event, id: string, req: Request, response: Response,
                     note: Option<ClientState>)
    requires Settled(cfg, events, id, req, response, note)
    ensures Settled(cfg, events + [e], id, req, response, note)
  {
    var state, on :| && Reached(cfg, events, id, req, Flagging(state, on))
                     && response == Answer(state, on) && note == Noted(state, on);
    ReachedLater(cfg, events, e, id, req, Flagging(state, on));
  }

  lemma ExplainedLater(cfg: Config, events: seq<Event>, e: Event, id: string, h: Handler)
    requires Explained(cfg, events, id, h)
    ensures Explained(cfg, events + [e], id, h)
  {
    match h.phase
    case Gather =>
    case RecordTiming(i, u) => ReachedLater(cfg, events, e, id, h.req, Failing(i, u));
    case ReadTiming(i, u) => ReachedLater(cfg, events, e, id, h.req, Stamping(i, u));
    case Judge(i, u, entropy) => ReachedLater(cfg, events, e, id, h.req, Measuring(i, u, entropy));
    case ApplyBlock(reason) => ReachedLater(cfg, events, e, id, h.req, Judging(SoftBlock, reason));
    case ReadFlag(state, reason) =>
      ReachedLater(cfg, events, e, id, h.req, Judging(state, reason));
      if state == SoftBlock { ReachedLater(cfg, events, e, id, h.req, Blocking); }
    case Inside(rule, retry) => SettledLater(cfg, events, e, id, h.req, Forwarded(retry), rule);
    case LogEvent(rule) => SettledLater(cfg, events, e, id, h.req, Forwarded(None), Some(rule));
    case Done(response, flagged, _) => SettledLater(cfg, events, e, id, h.req, response, flagged);
  }

  // ---------------------------------------------------------------- each step of a request

  lemma CountsAre(cfg: Config, events: seq<Event>, key: string, t: int)
    ensures Count(Run(cfg, events).core.failedAuth, key, t) == ChainOf(cfg, events, key, t)
  {
    CoreIsEvents(cfg, events, "");
    CounterIsChain(FailuresIn(events), key, t, cfg.authWindow);
  }

  lemma HeldSamples(cfg: Config, m: map<string, Cell<Zset>>, client: string, recs: seq<Recording>, t: int)
    requires Holds(m, client, Samples(recs, cfg.maxSamples))
    ensures LiveSamples(m, client, t) == SamplesAt(cfg, recs, t)
  {
    if recs != [] {
      SamplesDeadline(recs, cfg.maxSamples);
    }
  }

  lemma SamplesAre(cfg: Config, events: seq<Event>, client: string, t: int)
    ensures LiveSamples(Run(cfg, events).core.requestTimes, client, t)
         == SamplesAt(cfg, RecordingsIn(cfg, events, client), t)
  {
    CoreIsEvents(cfg, events, client);
    HeldSamples(cfg, Run(cfg, events).core.requestTimes, client, RecordingsIn(cfg, events, client), t);
  }

  lemma BlocksAre(cfg: Config, events: seq<Event>, ip: string, t: int)
    ensures IsBlocked(Run(cfg, events).core.blockedIp, ip, t) == Blocks(cfg, events, ip, t)
  {
    CoreIsEvents(cfg, events, "");
  }

  /** The event is the request's next step. */
  ghost predicate Steps(events: seq<Event>, before: seq<Event>, e: Event, id: string) {
    events == before + [e] && events[..|before|] == before && e.action.Advance? && e.action.id == id
  }

  lemma ReadsFailures(cfg: Config, events: seq<Event>, before: seq<Event>, e: Event, id: string, req: Request)
    requires Steps(events, before, e, id)
    ensures Reached(cfg, events, id, req, Failing(Count(Run(cfg, before).core.failedAuth, req.ip, e.at),
                                                  Count(Run(cfg, before).core.failedAuth, req.client, e.at)))
  {
    CountsAre(cfg, before, req.ip, e.at);
    CountsAre(cfg, before, req.client, e.at);
    assert ReachedAt(cfg, events, |before|, id, req,
                     Failing(ChainOf(cfg, before, req.ip, e.at), ChainOf(cfg, before, req.client, e.at)));
  }

  lemma RecordsStamp(cfg: Config, events: seq<Event>, before: seq<Event>, e: Event, id: string, h: Handler,
                     i: nat, u: nat)
    requires Steps(events, before, e, id) && Acting(cfg, before, e) == Some(h)
    requires h.phase.RecordTiming? && Reached(cfg, before, id, h.req, Failing(i, u))
    ensures Reached(cfg, events, id, h.req, Stamping(i, u))
  {
    assert ReachedAt(cfg, events, |before|, id, h.req, Stamping(i, u));
  }

  lemma MeasuresSamples(cfg: Config, events: seq<Event>, before: seq<Event>, e: Event, id: string, req: Request,
                        i: nat, u: nat, entropy: Option<Entropy>)
    requires Steps(events, before, e, id) && Reached(cfg, before, id, req, Stamping(i, u))
    requires entropy == TimingEntropy(LiveSamples(Run(cfg, before).core.requestTimes, req.client, e.at))
    ensures Reached(cfg, events, id, req, Measuring(i, u, entropy))
  {
    SamplesAre(cfg, before, req.client, e.at);
    assert ReachedAt(cfg, events, |before|, id, req, Measuring(i, u, entropy));
  }

  lemma IsJudged(cfg: Config, events: seq<Event>, before: seq<Event>, e: Event, id: string, req: Request,
                 i: nat, u: nat, entropy: Option<Entropy>, state: ClientState, reason: Reason)
    requires Steps(events, before, e, id) && Reached(cfg, before, id, req, Measuring(i, u, entropy))
    requires (state, reason)
          == Assess(IsBlocked(Run(cfg, before).core.blockedIp, req.ip, e.at), i, u, entropy, cfg.policy)
    ensures Reached(cfg, events, id, req, Judging(state, reason))
  {
    BlocksAre(cfg, before, req.ip, e.at);
    assert ReachedAt(cfg, events, |before|, id, req, Judging(state, reason));
  }

  lemma FindsBlock(cfg: Config, events: seq<Event>, before: seq<Event>, e: Event, id: string, req: Request)
    requires Steps(events, before, e, id) && IsBlocked(Run(cfg, before).core.blockedIp, req.ip, e.at)
    ensures Reached(cfg, events, id, req, Blocking)
  {
    BlocksAre(cfg, before, req.ip, e.at);
    assert ReachedAt(cfg, events, |before|, id, req, Blocking);
  }

  lemma SetsItsBlock(cfg: Config, events: seq<Event>, before: seq<Event>, e: Event, id: string, h: Handler)
    requires Steps(events, before, e, id) && Acting(cfg, before, e) == Some(h) && h.phase.ApplyBlock?
    ensures Reached(cfg, events, id, h.req, Blocking)
  {
    assert ReachedAt(cfg, events, |before|, id, h.req, Blocking);
  }

  lemma ReadsFlag(cfg: Config, events: seq<Event>, before: seq<Event>, e: Event, id: string, req: Request,
                  state: ClientState, reason: Reason)
    requires Steps(events, before, e, id) && Reached(cfg, before, id, req, Judging(state, reason))
    requires state == SoftBlock ==> Reached(cfg, before, id, req, Blocking)
    ensures var on := ShadowOn(Run(cfg, before).flag, cfg);
            Settled(cfg, events, id, req, Answer(state, on), Noted(state, on))
  {
    FlagIsLastSet(cfg, before);
    assert ReachedAt(cfg, events, |before|, id, req, Flagging(state, LastSet(cfg, before)));
  }

  lemma EnforceIsAnswer(shadow: bool, state: ClientState)
    ensures var p := Enforce(shadow, state);
            && (p.Inside? ==> Answer(state, shadow) == Forwarded(p.retryAfter) && p.rule == Noted(state, shadow))
            && (p.Done? ==> Answer(state, shadow) == p.response && p.flagged == Noted(state, shadow))
            && (p.Inside? || p.Done?)
  {
  }

  lemma EarlyMoveExplained(cfg: Config, events: seq<Event>, before: seq<Event>, e: Event, id: string, h: Handler)
    requires Steps(events, before, e, id) && Acting(cfg, before, e) == Some(h) && Explained(cfg, before, id, h)
    requires h.phase.Gather? || h.phase.RecordTiming? || h.phase.ReadTiming?
    ensures Explained(cfg, events, id, Move(cfg, Run(cfg, before), id, e.at, e.action.stamp).handlers[id])
  {
    match h.phase
    case Gather => ReadsFailures(cfg, events, before, e, id, h.req);
    case RecordTiming(i, u) => RecordsStamp(cfg, events, before, e, id, h, i, u);
    case ReadTiming(i, u) =>
      var entropy := TimingEntropy(LiveSamples(Run(cfg, before).core.requestTimes, h.req.client, e.at));
      MeasuresSamples(cfg, events, before, e, id, h.req, i, u, entropy);
  }

  lemma VerdictMoveExplained(cfg: Config, events: seq<Event>, before: seq<Event>, e: Event, id: string, h: Handler)
    requires Steps(events, before, e, id) && Acting(cfg, before, e) == Some(h) && Explained(cfg, before, id, h)
    requires h.phase.Judge? || h.phase.ApplyBlock?
    ensures Explained(cfg, events, id, Move(cfg, Run(cfg, before), id, e.at, e.action.stamp).handlers[id])
  {
    match h.phase
    case Judge(i, u, entropy) =>
      var blocked := IsBlocked(Run(cfg, before).core.blockedIp, h.req.ip, e.at);
      var (state, reason) := Assess(blocked, i, u, entropy, cfg.policy);
      IsJudged(cfg, events, before, e, id, h.req, i, u, entropy, state, reason);
      SetsBlockExactly(blocked, i, u, entropy, cfg.policy);
      if blocked {
        FindsBlock(cfg, events, before, e, id, h.req);
      }
    case ApplyBlock(reason) =>
      ReachedLater(cfg, before, e, id, h.req, Judging(SoftBlock, reason));
      SetsItsBlock(cfg, events, before, e, id, h);
  }

  lemma LateMoveExplained(cfg: Config, events: seq<Event>, before: seq<Event>, e: Event, id: string, h: Handler)
    requires Steps(events, before, e, id) && Acting(cfg, before, e) == Some(h) && Explained(cfg, before, id, h)
    requires h.phase.ReadFlag? || h.phase.Inside? || h.phase.LogEvent? || h.phase.Done?
    ensures Explained(cfg, events, id, Move(cfg, Run(cfg, before), id, e.at, e.action.stamp).handlers[id])
  {
    match h.phase
    case ReadFlag(state, reason) =>
      ReadsFlag(cfg, events, before, e, id, h.req, state, reason);
      EnforceIsAnswer(ShadowOn(Run(cfg, before).flag, cfg), state);
    case Inside(rule, retry) => SettledLater(cfg, before, e, id, h.req, Forwarded(retry), rule);
    case LogEvent(rule) => SettledLater(cfg, before, e, id, h.req, Forwarded(None), Some(rule));
    case Done(response, flagged, _) => SettledLater(cfg, before, e, id, h.req, response, flagged);
  }

  /** Where a request stands, and its answer once it is done, is explained by its own earlier steps: the failures
      that counted when it read the counters, the stamp it then recorded, the samples it then found, whether its
      IP was blocked when it was judged on them, the block it then set, and the flag it then read. */
  lemma {:induction false} EveryAnswerExplained(cfg: Config, events: seq<Event>, id: string)
    requires id in Run(cfg, events).handlers
    ensures Explained(cfg, events, id, Run(cfg, events).handlers[id])
  {
    var before, e := events[..|events| - 1], events[|events| - 1];
    assert events == before + [e];
    var s := Run(cfg, before);
    if id in s.handlers {
      var h := s.handlers[id];
      EveryAnswerExplained(cfg, before, id);
      if !(e.action.Advance? && e.action.id == id) {
        ExplainedLater(cfg, before, e, id, h);
      } else if h.phase.Gather? || h.phase.RecordTiming? || h.phase.ReadTiming? {
        EarlyMoveExplained(cfg, events, before, e, id, h);
      } else if h.phase.Judge? || h.phase.ApplyBlock? {
        VerdictMoveExplained(cfg, events, before, e, id, h);
      } else {
        LateMoveExplained(cfg, events, before, e, id, h);
      }
    }
  }

  lemma ReachedPrefix(cfg: Config, events: seq<Event>, k: nat, id: string, req: Request, r: Reading)
    requires k <= |events| && Reached(cfg, events[..k], id, req, r)
    ensures Reached(cfg, events, id, req, r)
  {
    var n :| 0 <= n < k && ReachedAt(cfg, events[..k], n, id, req, r);
    assert events[..k][..n] == events[..n] && events[..k][n] == events[n];
    assert ReachedAt(cfg, events, n, id, req, r);
  }

  lemma FlaggedIsBacked(cfg: Config, events: seq<Event>, id: string, req: Request, on: bool)
    requires Reached(cfg, events, id, req, Flagging(SoftBlock, on))
    ensures Reached(cfg, events, id, req, Blocking)
  {
    var k :| 0 <= k < |events| && ReachedAt(cfg, events, k, id, req, Flagging(SoftBlock, on));
    ReachedPrefix(cfg, events, k, id, req, Blocking);
  }

  lemma SettledIsBacked(cfg: Config, events: seq<Event>, id: string, req: Request, response: Response,
                        note: Option<ClientState>)
    requires Settled(cfg, events, id, req, response, note) && (response.Blocked? || note == Some(SoftBlock))
    ensures Reached(cfg, events, id, req, Blocking)
  {
    var state, on :| && Reached(cfg, events, id, req, Flagging(state, on))
                     && response == Answer(state, on) && note == Noted(state, on);
    FlaggedIsBacked(cfg, events, id, req, on);
  }

  /** A request past its judgement with a soft block found its IP blocked when it was judged, or set the block by a
      step of its own, in every interleaving and whatever the flag. */
  lemma SoftBlockIsBacked(cfg: Config, events: seq<Event>, id: string)
    requires id in Run(cfg, events).handlers
    requires match Run(cfg, events).handlers[id].phase
             case ReadFlag(state, _) => state == SoftBlock
             case Inside(rule, _) => rule == Some(SoftBlock)
             case LogEvent(rule) => rule == SoftBlock
             case Done(response, flagged, _) => response.Blocked? || flagged == Some(SoftBlock)
             case _ => false
    ensures Reached(cfg, events, id, Run(cfg, events).handlers[id].req, Blocking)
  {
    EveryAnswerExplained(cfg, events, id);
    var h := Run(cfg, events).handlers[id];
    match h.phase
    case Inside(rule, retry) => SettledIsBacked(cfg, events, id, h.req, Forwarded(retry), rule);
    case LogEvent(rule) => SettledIsBacked(cfg, events, id, h.req, Forwarded(None), Some(rule));
    case Done(response, flagged, _) => SettledIsBacked(cfg, events, id, h.req, response, flagged);
    case _ =>
  }

  // ---------------------------------------------------------------- enforcement

  /** Where a request with that verdict can stand while the flag is off. */
  predicate Enforced(p: Phase, state: ClientState) {
    match p
    case ApplyBlock(_) => state == SoftBlock
    case ReadFlag(verdict, _) => verdict == state
    case Inside(rule, retry) => rule == None && Answer(state, false) == Forwarded(retry)
    case Done(response, flagged, logged) => response == Answer(state, false) && flagged == None && logged == None
    case _ => false
  }

  predicate PastJudgement(p: Phase) {
    p.ApplyBlock? || p.ReadFlag? || p.Inside? || p.LogEvent? || p.Done?
  }

  ghost predicate HasVerdict(s: System, id: string) {
    exists v :: v in s.history.verdicts && v.id == id
  }

  ghost predicate Enforcing(s: System) {
    && s.log == map[]
    && (forall v :: v in s.history.verdicts ==> v.id in s.handlers && Enforced(s.handlers[v.id].phase, v.state))
    && (forall id :: id in s.handlers && PastJudgement(s.handlers[id].phase) ==> HasVerdict(s, id))
  }

  lemma JudgeEnforces(cfg: Config, s: System, id: string, t: int, stamp: nat)
    requires Enforcing(s) && id in s.handlers && s.handlers[id].phase.Judge?
    ensures Enforcing(Move(cfg, s, id, t, stamp))
  {
    var s' := Move(cfg, s, id, t, stamp);
    var v := s'.history.verdicts[|s.history.verdicts|];
    assert s'.history.verdicts == s.history.verdicts + [v] && v.id == id;
    assert forall w :: w in s.history.verdicts ==> w.id != id;
    forall other | other in s'.handlers && PastJudgement(s'.handlers[other].phase) ensures HasVerdict(s', other) {
      if other != id {
        assert HasVerdict(s, other);
        var w :| w in s.history.verdicts && w.id == other;
        assert w in s'.history.verdicts;
      } else {
        assert v in s'.history.verdicts;
      }
    }
  }

  /** Any other step of a request keeps the verdicts and the other requests. */
  lemma OtherMoveKeeps(cfg: Config, s: System, id: string, t: int, stamp: nat)
    requires id in s.handlers && !s.handlers[id].phase.Judge?
    ensures var s' := Move(cfg, s, id, t, stamp);
            && s'.history.verdicts == s.history.verdicts
            && s'.handlers == s.handlers[id := s'.handlers[id]]
            && (PastJudgement(s'.handlers[id].phase) <==> PastJudgement(s.handlers[id].phase))
            && (!s.handlers[id].phase.LogEvent? ==> s'.log == s.log)
  {
  }

  /** And it leaves the request where its verdict lets it stand. */
  lemma MoveStaysEnforced(cfg: Config, s: System, id: string, t: int, stamp: nat, state: ClientState)
    requires id in s.handlers && !ShadowOn(s.flag, cfg) && Enforced(s.handlers[id].phase, state)
    ensures Enforced(Move(cfg, s, id, t, stamp).handlers[id].phase, state)
  {
  }

  lemma MoveEnforces(cfg: Config, s: System, id: string, t: int, stamp: nat)
    requires Enforcing(s) && id in s.handlers && !ShadowOn(s.flag, cfg) && !s.handlers[id].phase.Judge?
    ensures Enforcing(Move(cfg, s, id, t, stamp))
  {
    var s' := Move(cfg, s, id, t, stamp);
    OtherMoveKeeps(cfg, s, id, t, stamp);
    assert s.handlers[id].phase.LogEvent? ==> HasVerdict(s, id);
    forall v | v in s.history.verdicts ensures v.id in s'.handlers && Enforced(s'.handlers[v.id].phase, v.state) {
      if v.id == id {
        MoveStaysEnforced(cfg, s, id, t, stamp, v.state);
      }
    }
    forall other | other in s'.handlers && PastJudgement(s'.handlers[other].phase) ensures HasVerdict(s', other) {
      assert HasVerdict(s, other);
    }
  }

  /** With shadow mode off by default and never switched on, every verdict is enforced, in every interleaving: a
      finished request that was judged SOFT_BLOCK got 429 with Retry-After 300, a throttled one Retry-After 2, an
      allowed one neither, and nothing is logged. */
  lemma {:induction false} EnforcedWhenOff(cfg: Config, events: seq<Event>)
    requires !cfg.shadowDefault && forall e :: e in events ==> e.action != SetFlag(true)
    ensures Enforcing(Run(cfg, events)) && !ShadowOn(Run(cfg, events).flag, cfg)
  {
    if events != [] {
      var prefix, e := events[..|events| - 1], events[|events| - 1];
      EnforcedWhenOff(cfg, prefix);
      assert e in events;
      var s := Run(cfg, prefix);
      if e.action.Advance? && e.action.id in s.handlers {
        if s.handlers[e.action.id].phase.Judge? {
          JudgeEnforces(cfg, s, e.action.id, e.at, e.action.stamp);
        } else {
          MoveEnforces(cfg, s, e.action.id, e.at, e.action.stamp);
        }
      } else {
        forall id | id in Step(cfg, s, e).handlers && PastJudgement(Step(cfg, s, e).handlers[id].phase)
          ensures HasVerdict(Step(cfg, s, e), id)
        {
          assert HasVerdict(s, id);
        }
      }
    }
  }
}
