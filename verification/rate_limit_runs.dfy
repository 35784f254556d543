/** The limiter over whole runs of one client: what the pruned and expiring sorted set decides is
    what a ledger that never forgets would decide, and what that implies for every window. */
module RateLimitRuns {
  import opened Redis
  import opened RateLimiting

  // ---------------------------------------------------------------- runs of the script

  ghost function StateAfter(calls: seq<Call>, window: int, limit: int): Cell<set<nat>> {
    if calls == [] then Cell({}, 0)
    else Script(StateAfter(calls[..|calls| - 1], window, limit), calls[|calls| - 1], window, limit).0
  }

  ghost function VerdictAt(calls: seq<Call>, i: nat, window: int, limit: int): Verdict
    requires i < |calls|
  {
    Script(StateAfter(calls[..i], window, limit), calls[i], window, limit).1
  }

  /** The stamps of the admitted calls. */
  ghost function Admitted(calls: seq<Call>, window: int, limit: int): set<nat> {
    if calls == [] then {}
    else
      var n := |calls| - 1;
      Admitted(calls[..n], window, limit) + (if VerdictAt(calls, n, window, limit).allowed then {calls[n].now} else {})
  }

  /** How far the Redis clock is ahead of the gateway's at a call. */
  ghost function Offset(c: Call): int {
    c.clock - c.now
  }

  /** Gateway stamps never decrease and the clock offset grows by at most a second between any two calls. */
  ghost predicate Steady(calls: seq<Call>) {
    forall i, j :: 0 <= i < j < |calls| ==>
      calls[i].now <= calls[j].now && Offset(calls[j]) - Offset(calls[i]) <= MILLIS
  }

  // ---------------------------------------------------------------- the ledger that never forgets

  ghost function Judge(ledger: set<nat>, now: nat, window: int, limit: int): Verdict {
    var used := |Kept(ledger, now, window)|;
    if used < limit then Verdict(true, limit - used - 1) else Verdict(false, 0)
  }

  ghost function Ledger(calls: seq<Call>, window: int, limit: int): set<nat> {
    if calls == [] then {}
    else
      var past := Ledger(calls[..|calls| - 1], window, limit);
      var now := calls[|calls| - 1].now;
      if Judge(past, now, window, limit).allowed then past + {now} else past
  }

  /** The call that last set the key's time to live. */
  ghost function LastAdmission(calls: seq<Call>, window: int, limit: int): Option<Call> {
    if calls == [] then None
    else
      var prefix, call := calls[..|calls| - 1], calls[|calls| - 1];
      if Judge(Ledger(prefix, window, limit), call.now, window, limit).allowed then Some(call)
      else LastAdmission(prefix, window, limit)
  }

  /** The stored stamps are part of the ledger, contain all of it that lies in the window ending at
      `now`, and the time to live dates from the last admission, which no ledger entry is later than. */
  ghost predicate Faithful(c: Cell<set<nat>>, ledger: set<nat>, last: Option<Call>, now: nat, window: int) {
    && c.value <= ledger
    && (forall x :: x in ledger && x !in c.value ==> x <= now - MILLIS * window)
    && (last == None ==> ledger == {})
    && (last.Some? ==> c.deadline == After(last.value.clock, window + 1))
    && (last.Some? ==> forall x :: x in ledger ==> x <= last.value.now)
  }

  /** What the script sees in the window is what the ledger holds there. */
  lemma LiveWindow(c: Cell<set<nat>>, ledger: set<nat>, last: Option<Call>, before: nat, call: Call, window: int)
    requires Faithful(c, ledger, last, before, window) && before <= call.now
    requires last.Some? ==> Offset(call) - Offset(last.value) <= MILLIS
    ensures var live := if call.clock < c.deadline then c.value else {};
            Kept(live, call.now, window) == Kept(ledger, call.now, window)
  {
  }

  lemma FaithfulStep(c: Cell<set<nat>>, ledger: set<nat>, last: Option<Call>, before: nat,
                     call: Call, window: int, limit: int)
    requires Faithful(c, ledger, last, before, window) && before <= call.now
    requires last.Some? ==> last.value.now <= call.now && Offset(call) - Offset(last.value) <= MILLIS
    ensures var (c', verdict) := Script(c, call, window, limit);
            && verdict == Judge(ledger, call.now, window, limit)
            && (if verdict.allowed then Faithful(c', ledger + {call.now}, Some(call), call.now, window)
                else Faithful(c', ledger, last, call.now, window))
  {
    LiveWindow(c, ledger, last, before, call, window);
  }

  lemma {:induction false} LastAdmissionIsACall(calls: seq<Call>, window: int, limit: int)
    ensures var last := LastAdmission(calls, window, limit); last.Some? ==> last.value in calls
  {
    if calls != [] {
      LastAdmissionIsACall(calls[..|calls| - 1], window, limit);
    }
  }

  lemma {:induction false} StateFaithful(calls: seq<Call>, window: int, limit: int)
    requires Steady(calls)
    ensures Faithful(StateAfter(calls, window, limit), Ledger(calls, window, limit),
                     LastAdmission(calls, window, limit),
                     if calls == [] then 0 else calls[|calls| - 1].now, window)
  {
    if calls != [] {
      var prefix, call := calls[..|calls| - 1], calls[|calls| - 1];
      StateFaithful(prefix, window, limit);
      LastAdmissionIsACall(prefix, window, limit);
      FaithfulStep(StateAfter(prefix, window, limit), Ledger(prefix, window, limit),
                   LastAdmission(prefix, window, limit),
                   if prefix == [] then 0 else prefix[|prefix| - 1].now, call, window, limit);
    }
  }

  /** Neither pruning nor EXPIRE is ever observable: every verdict and every `remaining` is the one
      of a ledger that never forgets. */
  lemma Refinement(calls: seq<Call>, i: nat, window: int, limit: int)
    requires Steady(calls) && i < |calls|
    ensures VerdictAt(calls, i, window, limit) == Judge(Ledger(calls[..i], window, limit), calls[i].now, window, limit)
  {
    var prefix := calls[..i];
    StateFaithful(prefix, window, limit);
    LastAdmissionIsACall(prefix, window, limit);
    FaithfulStep(StateAfter(prefix, window, limit), Ledger(prefix, window, limit), LastAdmission(prefix, window, limit),
                 if prefix == [] then 0 else prefix[|prefix| - 1].now, calls[i], window, limit);
  }

  lemma {:induction false} AdmittedIsLedger(calls: seq<Call>, window: int, limit: int)
    requires Steady(calls)
    ensures Admitted(calls, window, limit) == Ledger(calls, window, limit)
  {
    if calls != [] {
      AdmittedIsLedger(calls[..|calls| - 1], window, limit);
      Refinement(calls, |calls| - 1, window, limit);
    }
  }
}
