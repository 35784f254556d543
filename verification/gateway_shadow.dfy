/** Accounting of shadow events over every run of the gateway machine. */
module GatewayShadow {
  import opened Redis
  import opened Graduated
  import opened Gateway
  import opened ShadowLog

  /** The log holds exactly the events of the requests that finished logging, each under its rule. */
  ghost predicate LogMatches(s: System) {
    && (forall id :: id in s.log ==> id in s.handlers && HasLogged(s.handlers[id].phase))
    && (forall id :: id in s.handlers && HasLogged(s.handlers[id].phase) ==>
         var p := s.handlers[id].phase;
         && p.flagged.Some? && id in s.log
         && s.log[id] == Cell(Raw.Event(Some(RuleName(p.flagged.value))), After(p.logged.value, SHADOW_LOG_TTL)))
  }

  predicate HasLogged(p: Phase) {
    p.Done? && p.logged.Some?
  }

  lemma LogWritten(cfg: Config, s: System, id: string, t: int, stamp: nat)
    requires LogMatches(s) && id in s.handlers && s.handlers[id].phase.LogEvent?
    ensures LogMatches(Move(cfg, s, id, t, stamp))
  {
    var rule := s.handlers[id].phase.loggedRule;
    var log := s.log[id := Cell(Raw.Event(Some(RuleName(rule))), After(t, SHADOW_LOG_TTL))];
    var h := s.handlers[id].(phase := Done(Forwarded(None), Some(rule), Some(t)));
    assert Move(cfg, s, id, t, stamp) == s.(log := log, handlers := s.handlers[id := h]);
  }

  lemma LogUntouched(s: System, s': System, id: string, h: Handler)
    requires LogMatches(s) && id in s.handlers
    requires s'.log == s.log && s'.handlers == s.handlers[id := h]
    requires HasLogged(h.phase) || HasLogged(s.handlers[id].phase) ==> h == s.handlers[id]
    ensures LogMatches(s')
  {
  }

  lemma MoveLogMatches(cfg: Config, s: System, id: string, t: int, stamp: nat)
    requires LogMatches(s) && id in s.handlers
    ensures LogMatches(Move(cfg, s, id, t, stamp))
  {
    if s.handlers[id].phase.LogEvent? {
      LogWritten(cfg, s, id, t, stamp);
    } else {
      var s' := Move(cfg, s, id, t, stamp);
      LogUntouched(s, s', id, s'.handlers[id]);
    }
  }

  lemma {:induction false} RunLogMatches(cfg: Config, events: seq<Event>)
    ensures LogMatches(Run(cfg, events))
  {
    if events != [] {
      var s, e := Run(cfg, events[..|events| - 1]), events[|events| - 1];
      RunLogMatches(cfg, events[..|events| - 1]);
      if e.action.Advance? && e.action.id in s.handlers {
        MoveLogMatches(cfg, s, e.action.id, e.at, e.action.stamp);
      }
    }
  }

  // ---------------------------------------------------------------- when a flagged request is logged

  /** The k-th event is the second flag read of a flagged request, and finds the flag off. */
  ghost predicate ReadsOff(cfg: Config, events: seq<Event>, k: int, id: string) {
    && 0 <= k < |events|
    && var s := Run(cfg, events[..k]);
       && events[k].action.Advance? && events[k].action.id == id && id in s.handlers
       && s.handlers[id].phase.Inside? && s.handlers[id].phase.rule.Some? && !ShadowOn(s.flag, cfg)
  }

  ghost predicate SomeReadOff(cfg: Config, events: seq<Event>, id: string) {
    exists k :: ReadsOff(cfg, events, k, id)
  }

  /** A request that has finished flagged with a would-be enforcement, and without an event. */
  predicate Lost(s: System, id: string) {
    && id in s.handlers && s.handlers[id].phase.Done?
    && s.handlers[id].phase.flagged.Some? && s.handlers[id].phase.logged == None
  }

  lemma StepLoses(cfg: Config, s: System, e: Event, id: string)
    ensures Lost(Step(cfg, s, e), id)
       <==> Lost(s, id) || (&& e.action.Advance? && e.action.id == id && id in s.handlers
                            && s.handlers[id].phase.Inside? && s.handlers[id].phase.rule.Some?
                            && !ShadowOn(s.flag, cfg))
  {
    if e.action.Advance? && e.action.id in s.handlers && e.action.id != id {
      assert id in Step(cfg, s, e).handlers <==> id in s.handlers;
      assert id in s.handlers ==> Step(cfg, s, e).handlers[id] == s.handlers[id];
    }
  }

  /** In every interleaving a flagged request loses its event exactly when its second flag read finds the
      flag off, however often the flag was toggled before, between and after. */
  lemma {:induction false} LostIff(cfg: Config, events: seq<Event>, id: string)
    ensures Lost(Run(cfg, events), id) <==> SomeReadOff(cfg, events, id)
  {
    if events == [] {
      assert !Lost(INITIAL, id);
    } else {
      var n := |events| - 1;
      var prefix := events[..n];
      LostIff(cfg, prefix, id);
      StepLoses(cfg, Run(cfg, prefix), events[n], id);
      forall k | 0 <= k < n ensures ReadsOff(cfg, events, k, id) <==> ReadsOff(cfg, prefix, k, id) {
        assert events[..k] == prefix[..k];
      }
      if k :| ReadsOff(cfg, prefix, k, id) {
        assert ReadsOff(cfg, events, k, id);
      }
      if k :| ReadsOff(cfg, events, k, id) {
        assert k == n || ReadsOff(cfg, prefix, k, id);
      }
      assert ReadsOff(cfg, events, n, id) <==>
             (&& events[n].action.Advance? && events[n].action.id == id && id in Run(cfg, prefix).handlers
              && Run(cfg, prefix).handlers[id].phase.Inside? && Run(cfg, prefix).handlers[id].phase.rule.Some?
              && !ShadowOn(Run(cfg, prefix).flag, cfg));
    }
  }

  // ---------------------------------------------------------------- a run that loses an event

  lemma RunSnoc(cfg: Config, events: seq<Event>, e: Event)
    ensures Run(cfg, events + [e]) == Step(cfg, Run(cfg, events), e)
  {
    assert (events + [e])[..|events|] == events;
  }

  /** Flag on, an admin block of the request's IP, and the request arrives. */
  function Setup(id: string, req: Request): seq<Event> {
    [Timed(0, SetFlag(true))] + [Timed(0, AdminBlock(req.ip))] + [Timed(0, Arrive(id, req))]
  }

  /** What is known of the request of such a run before its verdict. */
  ghost predicate OnItsWay(s: System, id: string, req: Request) {
    && s.flag == Some(true) && IsBlocked(s.core.blockedIp, req.ip, 0)
    && id in s.handlers && s.handlers[id].req == req
  }

  lemma SetupRuns(cfg: Config, id: string, req: Request)
    ensures OnItsWay(Run(cfg, Setup(id, req)), id, req) && Run(cfg, Setup(id, req)).handlers[id].phase == Gather
  {
    assert [] + [Timed(0, SetFlag(true))] == [Timed(0, SetFlag(true))];
    RunSnoc(cfg, [], Timed(0, SetFlag(true)));
    RunSnoc(cfg, [Timed(0, SetFlag(true))], Timed(0, AdminBlock(req.ip)));
    RunSnoc(cfg, [Timed(0, SetFlag(true))] + [Timed(0, AdminBlock(req.ip))], Timed(0, Arrive(id, req)));
  }

  /** Up to its verdict the request only reads, and the verdict is the existing block. */
  lemma Proceeds(cfg: Config, s: System, id: string, req: Request)
    requires OnItsWay(s, id, req)
    ensures var p, s' := s.handlers[id].phase, Move(cfg, s, id, 0, 0);
            && (p == Gather ==> OnItsWay(s', id, req) && s'.handlers[id].phase.RecordTiming?)
            && (p.RecordTiming? ==> OnItsWay(s', id, req) && s'.handlers[id].phase.ReadTiming?)
            && (p.ReadTiming? ==> OnItsWay(s', id, req) && s'.handlers[id].phase.Judge?)
            && (p.Judge? ==> OnItsWay(s', id, req) && s'.handlers[id].phase == ReadFlag(SoftBlock, ExistingSoftBlock))
            && (p == ReadFlag(SoftBlock, ExistingSoftBlock) ==>
                 OnItsWay(s', id, req) && s'.handlers[id].phase == Inside(Some(SoftBlock), None))
  {
  }

  /** The request is flagged by its first flag read, and the flag is still on. */
  lemma Flagged(cfg: Config, id: string, req: Request) returns (events: seq<Event>)
    ensures OnItsWay(Run(cfg, events), id, req) && Run(cfg, events).handlers[id].phase == Inside(Some(SoftBlock), None)
    ensures forall e :: e in events ==> e.at == 0
  {
    SetupRuns(cfg, id, req);
    events := Setup(id, req);
    for i := 0 to 5
      invariant OnItsWay(Run(cfg, events), id, req)
      invariant var p := Run(cfg, events).handlers[id].phase;
                match i
                case 0 => p == Gather
                case 1 => p.RecordTiming?
                case 2 => p.ReadTiming?
                case 3 => p.Judge?
                case 4 => p == ReadFlag(SoftBlock, ExistingSoftBlock)
                case _ => p == Inside(Some(SoftBlock), None)
      invariant forall e :: e in events ==> e.at == 0
    {
      Proceeds(cfg, Run(cfg, events), id, req);
      RunSnoc(cfg, events, Timed(0, Advance(id, 0)));
      events := events + [Timed(0, Advance(id, 0))];
    }
  }

  /** A toggle between its two flag reads loses the event of every request that would have been blocked: it
      is passed on, neither enforced nor logged, on a run from the start. */
  lemma ToggleLosesEvent(cfg: Config, id: string, req: Request) returns (events: seq<Event>)
    ensures Ordered(events) && Lost(Run(cfg, events), id) && SomeReadOff(cfg, events, id)
    ensures Run(cfg, events).handlers[id].phase.response.Forwarded? && id !in Run(cfg, events).log
  {
    var before := Flagged(cfg, id, req);
    var off := before + [Timed(0, SetFlag(false))];
    RunSnoc(cfg, before, Timed(0, SetFlag(false)));
    events := off + [Timed(0, Advance(id, 0))];
    RunSnoc(cfg, off, Timed(0, Advance(id, 0)));
    LostIff(cfg, events, id);
    RunLogMatches(cfg, events);
  }

  lemma RuleNamesDiffer(a: ClientState, b: ClientState)
    ensures RuleName(a) == RuleName(b) <==> a == b
  {
    var n := |"abuse_detector:"|;
    assert RuleName(a)[n] == 'a' <==> a == Allowed;
    assert RuleName(a)[n] == 't' <==> a == Throttled;
    assert RuleName(a)[n] == 's' <==> a == SoftBlock;
    assert RuleName(b)[n] == 'a' <==> b == Allowed;
    assert RuleName(b)[n] == 't' <==> b == Throttled;
    assert RuleName(b)[n] == 's' <==> b == SoftBlock;
  }

  /** The finished requests flagged with a rule whose event was written less than a day before `t`. */
  ghost function Recent(s: System, rule: ClientState, t: int): set<string> {
    set id | id in s.handlers && IsRecent(s.handlers[id].phase, rule, t)
  }

  predicate IsRecent(p: Phase, rule: ClientState, t: int) {
    p.Done? && p.flagged == Some(rule) && p.logged.Some? && t < After(p.logged.value, SHADOW_LOG_TTL)
  }

  ghost predicate NoRepeats(keys: seq<string>) {
    forall i, j :: 0 <= i < j < |keys| ==> keys[i] != keys[j]
  }

  lemma CountedIsRecent(s: System, id: string, rule: ClientState, t: int)
    requires LogMatches(s)
    ensures var v := Read(s.log, id, t);
            (Counts(v) && RuleOf(v) == RuleName(rule)) <==> id in Recent(s, rule, t)
  {
    if id in s.log {
      RuleNamesDiffer(s.handlers[id].phase.flagged.value, rule);
    }
  }

  ghost function Listed(s: System, keys: seq<string>, rule: ClientState, t: int): set<string> {
    set id | id in Recent(s, rule, t) && id in keys
  }

  lemma ListedSnoc(s: System, keys: seq<string>, key: string, rule: ClientState, t: int)
    requires key !in keys
    ensures |Listed(s, keys + [key], rule, t)|
         == |Listed(s, keys, rule, t)| + if key in Recent(s, rule, t) then 1 else 0
  {
    assert key !in Listed(s, keys, rule, t);
    assert Listed(s, keys + [key], rule, t)
        == Listed(s, keys, rule, t) + if key in Recent(s, rule, t) then {key} else {};
  }

  lemma {:induction false} TallyCountsListed(s: System, keys: seq<string>, rule: ClientState, t: int)
    requires LogMatches(s) && NoRepeats(keys)
    ensures Tally(ReadAll(s.log, keys, t), RuleName(rule)) == |Listed(s, keys, rule, t)|
  {
    if keys != [] {
      var n := |keys| - 1;
      TallyCountsListed(s, keys[..n], rule, t);
      assert ReadAll(s.log, keys, t)[..n] == ReadAll(s.log, keys[..n], t);
      CountedIsRecent(s, keys[n], rule, t);
      ListedSnoc(s, keys[..n], keys[n], rule, t);
      assert keys == keys[..n] + [keys[n]];
    }
  }

  /** Shadow conservation: on every run a scan that lists each live key once gives every rule exactly the number
      of requests flagged with it whose event is at most a day old; and the finished flagged requests without
      an event, which no scan can count, are those whose second flag read found the flag off. */
  lemma ShadowConservation(cfg: Config, events: seq<Event>, keys: seq<string>, rule: ClientState, t: int)
    requires NoRepeats(keys)
    requires forall id :: Read(Run(cfg, events).log, id, t).Some? ==> id in keys
    ensures Tally(ReadAll(Run(cfg, events).log, keys, t), RuleName(rule)) == |Recent(Run(cfg, events), rule, t)|
    ensures forall id :: Lost(Run(cfg, events), id) <==> SomeReadOff(cfg, events, id)
  {
    var s := Run(cfg, events);
    RunLogMatches(cfg, events);
    TallyCountsListed(s, keys, rule, t);
    forall id | id in Recent(s, rule, t) ensures id in keys {
      CountedIsRecent(s, id, rule, t);
    }
    assert Recent(s, rule, t) == Listed(s, keys, rule, t);
    forall id: string ensures Lost(s, id) <==> SomeReadOff(cfg, events, id) {
      LostIff(cfg, events, id);
    }
  }
}
