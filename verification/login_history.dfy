/** What a run of logins records, read off its events alone: which logins are past the check, and which of the
    finished ones failed. */
module LoginHistory {
  import opened Redis
  import opened FailureCounters
  import opened LoginProtocol

  /** Neither axis has reached its threshold by the failures so far. */
  predicate Admissible(failures: seq<Failure>, login: Login, at: int, lim: Limits) {
    && Chain(Hits(failures, login.ip), at, MILLIS * lim.window) < lim.ip
    && Chain(Hits(failures, login.user), at, MILLIS * lim.window) < lim.user
  }

  /** The login of that name past the check: it arrived when it was admissible and has not finished since. */
  function Waiting(events: seq<Event>, lim: Limits, id: nat): Option<Login> {
    if events == [] then None
    else
      var prefix, e := events[..|events| - 1], events[|events| - 1];
      if e.id != id then Waiting(prefix, lim, id)
      else match e
           case Finish(_, _, _) => None
           case Arrive(_, login, at) =>
             if Waiting(prefix, lim, id) == None && Admissible(Failed(prefix, lim), login, at, lim) then Some(login)
             else Waiting(prefix, lim, id)
  }

  /** The failures of a run: those of the logins past the check that finished with a wrong password. */
  function Failed(events: seq<Event>, lim: Limits): seq<Failure> {
    if events == [] then []
    else
      var prefix, e := events[..|events| - 1], events[|events| - 1];
      var login := Waiting(prefix, lim, e.id);
      Failed(prefix, lim)
      + if e.Finish? && !e.ok && login.Some? then [Failure(login.value.ip, login.value.user, e.at)] else []
  }

  ghost predicate Matches(s: State, events: seq<Event>, lim: Limits) {
    && s.recorded == Failed(events, lim) && s.counters == Play(Failed(events, lim), lim.window)
    && forall id: nat :: Waiting(events, lim, id) == if id in s.inFlight then Some(s.inFlight[id]) else None
  }

  lemma ArrivalMatches(events: seq<Event>, e: Event, lim: Limits)
    requires Matches(Run(events, lim), events, lim) && e.Arrive?
    ensures Matches(Step(Run(events, lim), e, lim), events + [e], lim)
  {
    assert (events + [e])[..|events|] == events;
    CheckExactly(Failed(events, lim), e.login.ip, e.login.user, e.at, lim.window, lim.ip, lim.user);
  }

  lemma FinishMatches(events: seq<Event>, e: Event, lim: Limits)
    requires Matches(Run(events, lim), events, lim) && e.Finish?
    ensures Matches(Step(Run(events, lim), e, lim), events + [e], lim)
  {
    assert (events + [e])[..|events|] == events;
    var s, failed := Run(events, lim), Failed(events + [e], lim);
    if e.id in s.inFlight && !e.ok {
      assert failed[..|failed| - 1] == Failed(events, lim);
    }
  }

  /** In every interleaving the recorded failures, and with them the counters, are exactly those of the logins
      that finished with a wrong password after passing the check. */
  lemma {:induction false} RecordedExactly(events: seq<Event>, lim: Limits)
    ensures Matches(Run(events, lim), events, lim)
  {
    if events != [] {
      var prefix, e := events[..|events| - 1], events[|events| - 1];
      RecordedExactly(prefix, lim);
      assert events == prefix + [e];
      if e.Arrive? {
        ArrivalMatches(prefix, e, lim);
      } else {
        FinishMatches(prefix, e, lim);
      }
    }
  }

  lemma {:induction false} NothingFailed(events: seq<Event>, lim: Limits)
    requires forall e :: e in events && e.Finish? ==> e.ok
    ensures Failed(events, lim) == []
  {
    if events != [] {
      NothingFailed(events[..|events| - 1], lim);
    }
  }

  /** Logins with valid credentials leave no trace, in whatever interleaving. */
  lemma ValidLoginsLeaveNothing(events: seq<Event>, lim: Limits)
    requires forall e :: e in events && e.Finish? ==> e.ok
    ensures Run(events, lim).counters == map[] && Run(events, lim).recorded == []
  {
    RecordedExactly(events, lim);
    NothingFailed(events, lim);
  }
}
