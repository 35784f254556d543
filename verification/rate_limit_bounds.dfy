/** What the limiter promises over whole runs of ordered stamps: greedy optimality, erasure of rejections,
    Retry-After, the request-level bound, and the exact places where drift or repeated stamps defeat them. */
module RateLimitBounds {
  import opened Redis
  import opened SortedSet
  import opened RateLimiting
  import opened RateLimitRuns
  import opened RateLimitWindows

  ghost function UpTo(s: set<nat>, hi: int): set<nat> {
    set x | x in s && x <= hi
  }

  // ---------------------------------------------------------------- a verdict in terms of what was admitted

  /** On every steady run a call is admitted exactly if fewer stamps than the limit have been admitted in the
      window that ends with it, and `remaining` is what is then left of the limit, zero on a rejection. */
  lemma VerdictExactly(calls: seq<Call>, i: nat, window: int, limit: int)
    requires Steady(calls) && i < |calls| && window >= 0
    ensures var now, verdict := calls[i].now, VerdictAt(calls, i, window, limit);
            var used := |Between(Admitted(calls[..i], window, limit), now - 1000 * window, now)|;
            && (verdict.allowed <==> used < limit)
            && verdict.remaining == if used < limit then limit - 1 - used else 0
  {
    var prefix, now := calls[..i], calls[i].now;
    assert Steady(prefix) by {
      assert forall j :: 0 <= j < i ==> prefix[j] == calls[j];
    }
    Refinement(calls, i, window, limit);
    AdmittedIsLedger(prefix, window, limit);
    var past := Ledger(prefix, window, limit);
    forall x | x in past ensures x <= now {
      LedgerUpTo(prefix, window, limit, x);
    }
    assert Kept(past, now, window) == Between(past, now - 1000 * window, now);
  }

  // ---------------------------------------------------------------- greedy optimality

  ghost function Arrivals(calls: seq<Call>): set<nat> {
    set i | 0 <= i < |calls| :: calls[i].now
  }

  /** A choice of stamps that keeps at most `limit` in every window. */
  ghost predicate Feasible(s: set<nat>, window: int, limit: int) {
    forall a: int :: |Within(s, a, MILLIS * window)| <= limit
  }

  lemma {:induction false} LedgerUpTo(calls: seq<Call>, window: int, limit: int, x: nat)
    requires Steady(calls) && x in Ledger(calls, window, limit)
    ensures x in Arrivals(calls) && x <= calls[|calls| - 1].now
  {
    var n := |calls| - 1;
    if x in Ledger(calls[..n], window, limit) {
      LedgerUpTo(calls[..n], window, limit, x);
      var i :| 0 <= i < n && calls[..n][i].now == x;
      assert calls[i].now == x;
    } else {
      assert calls[n].now == x;
    }
  }

  /** A stamp that was turned away had a full window behind it. */
  lemma {:induction false} TurnedAway(calls: seq<Call>, window: int, limit: int, t: nat)
    requires Steady(calls) && t in Arrivals(calls) && t !in Ledger(calls, window, limit)
    ensures |Between(Ledger(calls, window, limit), t - MILLIS * window, t)| >= limit
  {
    var n := |calls| - 1;
    var past := Ledger(calls[..n], window, limit);
    var lo := t - MILLIS * window;
    if calls[n].now == t {
      forall x | x in past ensures x <= t {
        LedgerUpTo(calls[..n], window, limit, x);
      }
      assert Between(past, lo, t) == Kept(past, t, window);
    } else {
      var i :| 0 <= i < |calls| && calls[i].now == t;
      assert calls[..n][i].now == t;
      TurnedAway(calls[..n], window, limit, t);
      SubsetCard(Between(past, lo, t), Between(Ledger(calls, window, limit), lo, t));
    }
  }

  /** How counting up to `t` relates to counting up to `t - 1` and up to the start of the window. */
  lemma CountAt(s: set<nat>, t: int, lo: int)
    requires lo <= t
    ensures |UpTo(s, t)| == |UpTo(s, t - 1)| + (if t in s then 1 else 0)
    ensures |UpTo(s, t)| == |UpTo(s, lo)| + |Between(s, lo, t)|
  {
    assert UpTo(s, t) == UpTo(s, t - 1) + (if t in s then {t as nat} else {});
    assert UpTo(s, t) == UpTo(s, lo) + Between(s, lo, t);
  }

  /** By every instant the limiter has admitted at least as many stamps as any feasible choice. */
  lemma {:induction false} GreedyDominates(calls: seq<Call>, window: int, limit: int, choice: set<nat>, t: int)
    requires Steady(calls) && window >= 1
    requires choice <= Arrivals(calls) && Feasible(choice, window, limit)
    ensures |UpTo(choice, t)| <= |UpTo(Ledger(calls, window, limit), t)|
    decreases if t < 0 then 0 else t + 1
  {
    var g := Ledger(calls, window, limit);
    var lo := t - MILLIS * window;
    CountAt(choice, t, lo);
    CountAt(g, t, lo);
    if t < 0 {
      assert UpTo(choice, t) == {};
    } else if t !in choice || t in g {
      GreedyDominates(calls, window, limit, choice, t - 1);
    } else {
      GreedyDominates(calls, window, limit, choice, lo);
      TurnedAway(calls, window, limit, t);
      assert |Within(choice, lo, MILLIS * window)| <= limit;
    }
  }

  /** The stamps of `s` up to its i-th are its first i+1. */
  lemma PrefixCount(s: seq<nat>, i: nat)
    requires Ascending(s) && i < |s|
    ensures |UpTo(Elements(s), s[i])| == i + 1
  {
    assert UpTo(Elements(s), s[i]) == Elements(s[..i + 1]);
    Cardinality(s[..i + 1]);
  }

  lemma IthNotLater(g: seq<nat>, t: nat, i: nat)
    requires Ascending(g) && i < |UpTo(Elements(g), t)|
    ensures i < |g| && g[i] <= t
  {
    Cardinality(g);
    SubsetCard(UpTo(Elements(g), t), Elements(g));
    if g[i] > t {
      Cardinality(g[..i]);
      SubsetCard(UpTo(Elements(g), t), Elements(g[..i]));
    }
  }

  lemma IthAdmission(calls: seq<Call>, window: int, limit: int, choice: seq<nat>, admitted: seq<nat>, i: nat)
    requires Steady(calls) && window >= 1 && i < |choice|
    requires Ascending(choice) && Elements(choice) <= Arrivals(calls) && Feasible(Elements(choice), window, limit)
    requires Ascending(admitted) && Elements(admitted) == Ledger(calls, window, limit)
    ensures i < |admitted| && admitted[i] <= choice[i]
  {
    GreedyDominates(calls, window, limit, Elements(choice), choice[i]);
    PrefixCount(choice, i);
    IthNotLater(admitted, choice[i], i);
  }

  /** Greedy optimality: no feasible choice among the arrivals is larger than what the limiter admits,
      and the limiter's i-th admission is never later than the i-th of any feasible choice. */
  lemma GreedyOptimality(calls: seq<Call>, window: int, limit: int, choice: seq<nat>, admitted: seq<nat>)
    requires Steady(calls) && window >= 1
    requires Ascending(choice) && Elements(choice) <= Arrivals(calls) && Feasible(Elements(choice), window, limit)
    requires Ascending(admitted) && Elements(admitted) == Admitted(calls, window, limit)
    ensures |choice| <= |admitted|
    ensures forall i :: 0 <= i < |choice| ==> admitted[i] <= choice[i]
  {
    AdmittedIsLedger(calls, window, limit);
    if choice != [] {
      IthAdmission(calls, window, limit, choice, admitted, |choice| - 1);
    }
    forall i | 0 <= i < |choice| ensures admitted[i] <= choice[i] {
      IthAdmission(calls, window, limit, choice, admitted, i);
    }
  }

  // ---------------------------------------------------------------- erasing rejections, waiting them out

  /** The calls marked in `keep`, in order. */
  ghost function Select(calls: seq<Call>, keep: seq<bool>): (r: seq<Call>)
    requires |keep| == |calls|
    ensures forall c :: c in r ==> c in calls
  {
    if calls == [] then []
    else
      var n := |calls| - 1;
      Select(calls[..n], keep[..n]) + (if keep[n] then [calls[n]] else [])
  }

  lemma {:induction false} SelectPrefix(calls: seq<Call>, keep: seq<bool>, i: nat)
    requires |keep| == |calls| && i < |calls| && keep[i]
    ensures var p := Select(calls[..i], keep[..i]);
            |p| < |Select(calls, keep)| && Select(calls, keep)[..|p|] == p && Select(calls, keep)[|p|] == calls[i]
  {
    var n := |calls| - 1;
    if i < n {
      SelectPrefix(calls[..n], keep[..n], i);
      assert calls[..n][..i] == calls[..i] && keep[..n][..i] == keep[..i];
    }
  }

  /** The store never holds more than the limit, on any run. */
  lemma {:induction false} StoredAtMost(calls: seq<Call>, window: int, limit: int)
    ensures |StateAfter(calls, window, limit).value| <= Cap(limit)
  {
    if calls != [] {
      var n := |calls| - 1;
      var c := StateAfter(calls[..n], window, limit);
      StoredAtMost(calls[..n], window, limit);
      PlusOne(Kept(Live(c, calls[n]), calls[n].now, window), calls[n].now);
      SubsetCard(Kept(Live(c, calls[n]), calls[n].now, window), c.value);
    }
  }

  /** A rejected call prunes nothing: the store it found was full and still is. */
  lemma RejectionKeepsState(c: Cell<set<nat>>, call: Call, window: int, limit: int)
    requires |c.value| <= Cap(limit) && !Script(c, call, window, limit).1.allowed
    ensures Script(c, call, window, limit).0 == c
  {
    SubsetCard(Kept(Live(c, call), call.now, window), c.value);
  }

  lemma {:induction false} ErasedState(calls: seq<Call>, keep: seq<bool>, window: int, limit: int)
    requires |keep| == |calls|
    requires forall i :: 0 <= i < |calls| && !keep[i] ==> !VerdictAt(calls, i, window, limit).allowed
    ensures StateAfter(Select(calls, keep), window, limit) == StateAfter(calls, window, limit)
  {
    if calls != [] {
      var n := |calls| - 1;
      forall i | 0 <= i < n && !keep[..n][i] ensures !VerdictAt(calls[..n], i, window, limit).allowed {
        assert calls[..n][..i] == calls[..i];
        assert !VerdictAt(calls, i, window, limit).allowed;
      }
      ErasedState(calls[..n], keep[..n], window, limit);
      if keep[n] {
        assert Select(calls, keep)[..|Select(calls, keep)| - 1] == Select(calls[..n], keep[..n]);
      } else {
        assert Select(calls, keep) == Select(calls[..n], keep[..n]);
        assert !VerdictAt(calls, n, window, limit).allowed;
        StoredAtMost(calls[..n], window, limit);
        RejectionKeepsState(StateAfter(calls[..n], window, limit), calls[n], window, limit);
      }
    }
  }

  /** Deleting any set of rejected calls from a run changes no other verdict and no `remaining`, whatever the
      order of the stamps and the drift of the clocks. */
  lemma RejectionErasure(calls: seq<Call>, keep: seq<bool>, window: int, limit: int, i: nat)
    requires |keep| == |calls| && i < |calls| && keep[i]
    requires forall j :: 0 <= j < |calls| && !keep[j] ==> !VerdictAt(calls, j, window, limit).allowed
    ensures var erased, p := Select(calls, keep), |Select(calls[..i], keep[..i])|;
            && p < |erased| && erased[p] == calls[i]
            && VerdictAt(erased, p, window, limit) == VerdictAt(calls, i, window, limit)
  {
    SelectPrefix(calls, keep, i);
    forall j | 0 <= j < i && !keep[..i][j] ensures !VerdictAt(calls[..i], j, window, limit).allowed {
      assert calls[..i][..j] == calls[..j];
      assert !VerdictAt(calls, j, window, limit).allowed;
    }
    ErasedState(calls[..i], keep[..i], window, limit);
  }

  lemma {:induction false} StoredArrived(calls: seq<Call>, window: int, limit: int)
    ensures StateAfter(calls, window, limit).value <= Arrivals(calls)
    ensures Admitted(calls, window, limit) <= Arrivals(calls)
  {
    if calls != [] {
      var n := |calls| - 1;
      StoredArrived(calls[..n], window, limit);
      forall x | x in Arrivals(calls[..n]) + {calls[n].now} ensures x in Arrivals(calls) {
        if x in Arrivals(calls[..n]) {
          var i :| 0 <= i < n && calls[..n][i].now == x;
          assert calls[i].now == x;
        } else {
          assert calls[n].now == x;
        }
      }
    }
  }

  /** A client that stays silent until every stamp it has sent is as old as the window the middleware
      advertises in Retry-After is admitted with its whole quota but one, on every run whatever. */
  lemma RetryAfter(calls: seq<Call>, later: Call, window: int, limit: int)
    requires limit >= 1 && forall i :: 0 <= i < |calls| ==> later.now >= calls[i].now + MILLIS * window
    ensures VerdictAt(calls + [later], |calls|, window, limit) == Verdict(true, limit - 1)
  {
    assert (calls + [later])[..|calls|] == calls;
    StoredArrived(calls, window, limit);
    var c := StateAfter(calls, window, limit);
    forall x | x in c.value ensures x <= later.now - MILLIS * window {
      var i :| 0 <= i < |calls| && calls[i].now == x;
    }
    assert Kept(Live(c, later), later.now, window) == {};
  }

  /** With stamps that go back by at most `d`, waiting the window and `d` since the last one is enough. */
  lemma RetryAfterLast(calls: seq<Call>, later: Call, window: int, limit: int, d: nat)
    requires calls != [] && limit >= 1 && later.now >= calls[|calls| - 1].now + d + MILLIS * window
    requires forall i :: 0 <= i < |calls| ==> calls[i].now <= calls[|calls| - 1].now + d
    ensures VerdictAt(calls + [later], |calls|, window, limit) == Verdict(true, limit - 1)
  {
    RetryAfter(calls, later, window, limit);
  }

  // ---------------------------------------------------------------- where the promises end

  /** Stamps never decrease and the clock offset grows by at most `drift` between any two calls. */
  ghost predicate Drifting(calls: seq<Call>, drift: int) {
    forall i, j :: 0 <= i < j < |calls| ==>
      calls[i].now <= calls[j].now && Offset(calls[j]) - Offset(calls[i]) <= drift
  }

  /** Every verdict and every `remaining` is the ledger's. */
  ghost predicate Refines(calls: seq<Call>, window: int, limit: int) {
    forall i: nat :: i < |calls| ==>
      VerdictAt(calls, i, window, limit) == Judge(Ledger(calls[..i], window, limit), calls[i].now, window, limit)
  }

  lemma FirstCall(calls: seq<Call>, window: int, limit: int)
    requires calls == [Call(0, 0)] && window >= 1 && limit >= 1
    ensures StateAfter(calls, window, limit) == Cell({0}, After(0, window + 1))
    ensures Ledger(calls, window, limit) == {0}
  {
    assert calls[..0] == [];
    assert Kept({}, 0, window) == {};
    assert {} + {0 as nat} == {0};
  }

  lemma FoundExpired(c: Cell<set<nat>>, call: Call, window: int, limit: int)
    requires limit >= 1 && call.clock >= c.deadline
    ensures Script(c, call, window, limit).1 == Verdict(true, limit - 1)
  {
    assert Kept({}, call.now, window) == {};
  }

  lemma LedgerHolds(past: set<nat>, now: nat, window: int, limit: int)
    requires past == {0} && now < MILLIS * window
    ensures Judge(past, now, window, limit) != Verdict(true, limit - 1)
  {
    assert Kept(past, now, window) == {0};
  }

  /** A call inside the window of the only entry, at the instant at which its key has just expired. */
  lemma DriftForgets(calls: seq<Call>, first: seq<Call>, call: Call, window: int, limit: int)
    requires window >= 1 && limit >= 1 && first == [Call(0, 0)]
    requires call == Call(MILLIS * window - 1, MILLIS * window + MILLIS)
    requires |calls| == 2 && calls[..1] == first && calls[1] == call
    ensures !Refines(calls, window, limit)
  {
    FirstCall(first, window, limit);
    FoundExpired(StateAfter(first, window, limit), call, window, limit);
    LedgerHolds(Ledger(first, window, limit), call.now, window, limit);
    assert VerdictAt(calls, 1, window, limit) != Judge(Ledger(calls[..1], window, limit), calls[1].now, window, limit);
  }

  lemma RefinesNone(calls: seq<Call>, window: int, limit: int)
    requires limit <= 0
    ensures Refines(calls, window, limit)
  {
  }

  lemma RefinesIf(calls: seq<Call>, window: int, limit: int, drift: int)
    requires Drifting(calls, drift) && drift <= MILLIS
    ensures Refines(calls, window, limit)
  {
    forall i: nat | i < |calls|
      ensures VerdictAt(calls, i, window, limit)
           == Judge(Ledger(calls[..i], window, limit), calls[i].now, window, limit)
    {
      Refinement(calls, i, window, limit);
    }
  }

  /** How much drift the time to live tolerates: every run of ordered stamps is decided as the ledger would
      if and only if the offset grows by at most a second, or nothing is ever admitted. */
  lemma DriftIff(window: int, limit: int, drift: int)
    requires window >= 1
    ensures (forall calls: seq<Call> | Drifting(calls, drift) :: Refines(calls, window, limit))
            <==> (drift <= MILLIS || limit <= 0)
  {
    if drift <= MILLIS {
      forall calls: seq<Call> | Drifting(calls, drift) ensures Refines(calls, window, limit) {
        RefinesIf(calls, window, limit, drift);
      }
    } else if limit <= 0 {
      forall calls: seq<Call> | Drifting(calls, drift) ensures Refines(calls, window, limit) {
        RefinesNone(calls, window, limit);
      }
    } else {
      var first, call := [Call(0, 0)], Call(MILLIS * window - 1, MILLIS * window + MILLIS);
      assert Drifting(first + [call], drift);
      DriftForgets(first + [call], first, call, window, limit);
    }
  }

  /** Under a limit of one whatever the ledger still counts has a stored stamp to answer for it. */
  lemma SingleStep(calls: seq<Call>, call: Call, c: Cell<set<nat>>, admitted: set<nat>, window: nat, d: nat)
    requires Lagged(calls + [call], d) && Retains(calls, c, admitted, window, 1)
    ensures Script(c, call, window, 1).1 == Judge(admitted, call.now, window, 1)
  {
    var kept, counted := Kept(Live(c, call), call.now, window), Kept(admitted, call.now, window);
    SubsetCard(kept, counted);
    if x :| x in counted {
      SubsetCard({x}, counted);
      var y := x;
      if x !in kept {
        y := LostInside(calls, call, c, admitted, window, 1, d, x);
      }
      SubsetCard({y}, kept);
    } else {
      assert counted == {};
    }
  }

  lemma {:induction false} SingleLedger(calls: seq<Call>, window: nat, d: nat)
    requires Lagged(calls, d)
    ensures Admitted(calls, window, 1) == Ledger(calls, window, 1)
  {
    if calls != [] {
      var prefix, call := calls[..|calls| - 1], calls[|calls| - 1];
      assert calls == prefix + [call];
      LaggedPrefix(calls, d);
      SingleLedger(prefix, window, d);
      RunRetains(prefix, window, 1, d);
      SingleStep(prefix, call, StateAfter(prefix, window, 1), Admitted(prefix, window, 1), window, d);
    }
  }

  lemma LaggedUpTo(calls: seq<Call>, d: nat, i: nat)
    requires Lagged(calls, d) && i <= |calls|
    ensures Lagged(calls[..i], d)
  {
    var prefix := calls[..i];
    forall f, l, j | 0 <= f <= l < j < |prefix|
      ensures (prefix[j].clock - prefix[l].clock) - (prefix[j].now - prefix[f].now) <= MILLIS
    {
      assert prefix[f] == calls[f] && prefix[l] == calls[l] && prefix[j] == calls[j];
    }
  }

  lemma SingleVerdict(calls: seq<Call>, prefix: seq<Call>, i: nat, window: nat, d: nat)
    requires Lagged(calls, d) && i < |calls| && prefix == calls[..i]
    ensures Script(StateAfter(prefix, window, 1), calls[i], window, 1).1
         == Judge(Ledger(prefix, window, 1), calls[i].now, window, 1)
  {
    LaggedUpTo(calls, d, i);
    LaggedUpTo(calls, d, i + 1);
    assert calls[..i + 1] == prefix + [calls[i]];
    SingleLedger(prefix, window, d);
    RunRetains(prefix, window, 1, d);
    SingleStep(prefix, calls[i], StateAfter(prefix, window, 1), Admitted(prefix, window, 1), window, d);
  }

  lemma SingleRefines(calls: seq<Call>, window: nat, d: nat)
    requires Lagged(calls, d)
    ensures Refines(calls, window, 1)
  {
    forall i: nat | i < |calls|
      ensures VerdictAt(calls, i, window, 1) == Judge(Ledger(calls[..i], window, 1), calls[i].now, window, 1)
    {
      SingleVerdict(calls, calls[..i], i, window, d);
    }
  }

  lemma SecondCall(calls: seq<Call>, first: seq<Call>, end: nat, window: nat, limit: int)
    requires window >= 1 && limit >= 1 && end == MILLIS * window && first == [Call(0, 0)]
    requires |calls| == 2 && calls[..1] == first && calls[1] == Call(end, end)
    ensures StateAfter(calls, window, limit) == Cell({end}, After(end, window + 1))
    ensures Ledger(calls, window, limit) == {0, end}
  {
    FirstCall(first, window, limit);
    assert Kept({0}, end, window) == {};
    assert {} + {end} == {end} && {0} + {end} == {0, end};
  }

  lemma CountsOne(c: Cell<set<nat>>, end: nat, window: nat, limit: int)
    requires window >= 1 && limit >= 2 && end == MILLIS * window && c == Cell({end}, After(end, window + 1))
    ensures Script(c, Call(end - 1, end), window, limit).1 == Verdict(true, limit - 2)
  {
    assert Kept({end}, end - 1, window) == {end};
  }

  lemma LedgerCountsTwo(past: set<nat>, end: nat, window: nat, limit: int)
    requires window >= 1 && end == MILLIS * window && past == {0, end}
    ensures Judge(past, end - 1, window, limit) != Verdict(true, limit - 2)
  {
    assert Kept(past, end - 1, window) == {0, end};
  }

  /** A call one millisecond after the window forgets an entry that the one it overtook still needed. */
  lemma OvertakenForgets(calls: seq<Call>, two: seq<Call>, end: nat, window: nat, limit: int)
    requires window >= 1 && limit >= 2 && end == MILLIS * window
    requires |two| == 2 && two[0] == Call(0, 0) && two[1] == Call(end, end)
    requires |calls| == 3 && calls[..2] == two && calls[2] == Call(end - 1, end)
    ensures !Refines(calls, window, limit)
  {
    assert two[..1] == [Call(0, 0)];
    SecondCall(two, [Call(0, 0)], end, window, limit);
    CountsOne(StateAfter(two, window, limit), end, window, limit);
    LedgerCountsTwo(Ledger(two, window, limit), end, window, limit);
    assert VerdictAt(calls, 2, window, limit) != Judge(Ledger(calls[..2], window, limit), calls[2].now, window, limit);
  }

  lemma ReceivedRefines(calls: seq<Call>, window: nat, limit: int, d: nat)
    requires Received(calls, d) && (d == 0 || limit <= 1)
    ensures Refines(calls, window, limit)
  {
    if limit <= 0 {
      RefinesNone(calls, window, limit);
    } else if limit == 1 {
      LaggedIf(calls, d);
      SingleRefines(calls, window, d);
    } else {
      RefinesIf(calls, window, limit, MILLIS);
    }
  }

  /** How much order the refinement needs: every run in the order of the Redis clock whose stamps go back by at
      most `d` is decided as the ledger would if and only if none goes back at all, or the limit is at most one. */
  lemma LedgerOrderIff(window: nat, limit: int, d: nat)
    requires window >= 1
    ensures (forall calls: seq<Call> | Received(calls, d) :: Refines(calls, window, limit)) <==> (d == 0 || limit <= 1)
  {
    if d == 0 || limit <= 1 {
      forall calls: seq<Call> | Received(calls, d) ensures Refines(calls, window, limit) {
        ReceivedRefines(calls, window, limit, d);
      }
    } else {
      var end: nat := MILLIS * window;
      var calls := [Call(0, 0), Call(end, end), Call(end - 1, end)];
      assert Received(calls, d);
      OvertakenForgets(calls, calls[..2], end, window, limit);
    }
  }

  /** Waiting one millisecond less than Retry-After can still be refused. */
  lemma RetryAfterIsTight(window: int)
    requires window >= 1
    ensures var calls := [Call(0, 0), Call(MILLIS * window - 1, MILLIS * window - 1)];
            Steady(calls) && VerdictAt(calls, 1, window, 1) == Verdict(false, 0)
  {
    var calls := [Call(0, 0), Call(MILLIS * window - 1, MILLIS * window - 1)];
    Refinement(calls, 1, window, 1);
    assert calls[..1] == [Call(0, 0)] && [Call(0, 0)][..0] == [];
    assert Kept({}, 0, window) == {} && Kept({0}, MILLIS * window - 1, window) == {0};
  }

  /** How many requests, not stamps, were admitted in `(lo, hi]`. */
  ghost function Requests(calls: seq<Call>, window: int, limit: int, lo: int, hi: int): nat {
    if calls == [] then 0
    else
      var n := |calls| - 1;
      Requests(calls[..n], window, limit, lo, hi)
      + (if VerdictAt(calls, n, window, limit).allowed && lo < calls[n].now <= hi then 1 else 0)
  }

  /** How many of them were admitted on a stamp the limiter had admitted before. */
  ghost function Repeats(calls: seq<Call>, window: int, limit: int, lo: int, hi: int): nat {
    if calls == [] then 0
    else
      var n := |calls| - 1;
      Repeats(calls[..n], window, limit, lo, hi)
      + (if && VerdictAt(calls, n, window, limit).allowed && lo < calls[n].now <= hi
            && calls[n].now in Admitted(calls[..n], window, limit) then 1 else 0)
  }

  /** The limiter accounts for every admitted request except the repeats, on every run whatever. */
  lemma {:induction false} Accounting(calls: seq<Call>, window: int, limit: int, lo: int, hi: int)
    ensures Requests(calls, window, limit, lo, hi)
         == |Between(Admitted(calls, window, limit), lo, hi)| + Repeats(calls, window, limit, lo, hi)
  {
    if calls == [] {
      assert Between(Admitted(calls, window, limit), lo, hi) == {};
    } else {
      var n := |calls| - 1;
      var now, past := calls[n].now, Admitted(calls[..n], window, limit);
      Accounting(calls[..n], window, limit, lo, hi);
      var inside := Between(Admitted(calls, window, limit), lo, hi);
      if VerdictAt(calls, n, window, limit).allowed && lo < now <= hi && now !in past {
        assert inside == Between(past, lo, hi) + {now};
      } else {
        assert inside == Between(past, lo, hi);
      }
    }
  }

  /** No two calls carry the same stamp. */
  ghost predicate DistinctStamps(calls: seq<Call>) {
    forall i, j :: 0 <= i < j < |calls| ==> calls[i].now != calls[j].now
  }

  /** With a stamp of its own for every request no request escapes the count, on any run. */
  lemma {:induction false} DistinctStampsNeverRepeat(calls: seq<Call>, window: int, limit: int, lo: int, hi: int)
    requires DistinctStamps(calls)
    ensures Repeats(calls, window, limit, lo, hi) == 0
  {
    if calls != [] {
      var n := |calls| - 1;
      DistinctStampsNeverRepeat(calls[..n], window, limit, lo, hi);
      StoredArrived(calls[..n], window, limit);
      assert forall i :: 0 <= i < n ==> calls[..n][i].now == calls[i].now != calls[n].now;
    }
  }

  ghost function RequestsWithin(calls: seq<Call>, window: int, limit: int, a: int, span: int): nat {
    Requests(calls, window, limit, a, a + span)
  }

  lemma RequestsAreStamps(calls: seq<Call>, window: int, limit: int, lo: int, hi: int)
    requires DistinctStamps(calls)
    ensures Requests(calls, window, limit, lo, hi) == |Between(Admitted(calls, window, limit), lo, hi)|
  {
    Accounting(calls, window, limit, lo, hi);
    DistinctStampsNeverRepeat(calls, window, limit, lo, hi);
  }

  /** Request-level safety for clients that never send twice in one millisecond, in whatever order their
      requests reach Redis. */
  lemma RequestSafety(calls: seq<Call>, window: nat, limit: int, d: nat, a: int, k: nat)
    requires (Reordered(calls, d) || Received(calls, d)) && DistinctStamps(calls)
    ensures RequestsWithin(calls, window, limit, a, k * (MILLIS * window - d)) <= k * Cap(limit)
  {
    WindowSafety(calls, window, limit, d, a, k);
    RequestsAreStamps(calls, window, limit, a, a + k * (MILLIS * window - d));
  }

  lemma OrderedWindow(calls: seq<Call>, window: nat, limit: int, a: int, span: int)
    requires Steady(calls) && span == MILLIS * window
    ensures |Between(Admitted(calls, window, limit), a, a + span)| <= Cap(limit)
  {
    assert Reordered(calls, 0);
    WindowSafety(calls, window, limit, 0, a, 1);
  }

  ghost predicate RequestsBounded(calls: seq<Call>, window: int, limit: int) {
    forall a: int :: RequestsWithin(calls, window, limit, a, MILLIS * window) <= limit
  }

  lemma {:induction false} LimitOneNeverRepeats(calls: seq<Call>, window: int, limit: int, lo: int, hi: int)
    requires Steady(calls) && window >= 1 && limit <= 1
    ensures Repeats(calls, window, limit, lo, hi) == 0
  {
    if calls != [] {
      var n := |calls| - 1;
      LimitOneNeverRepeats(calls[..n], window, limit, lo, hi);
      Refinement(calls, n, window, limit);
      AdmittedIsLedger(calls[..n], window, limit);
      var past, now := Ledger(calls[..n], window, limit), calls[n].now;
      if now in past {
        SubsetCard({now}, Kept(past, now, window));
      }
    }
  }

  /** `n` requests in the first millisecond. */
  ghost function Burst(n: nat): (calls: seq<Call>)
    ensures |calls| == n && forall i :: 0 <= i < n ==> calls[i] == Call(0, 0)
  {
    seq(n, _ => Call(0, 0))
  }

  lemma BurstSnoc(n: nat)
    requires n > 0
    ensures Burst(n) == Burst(n - 1) + [Call(0, 0)] && Steady(Burst(n))
  {
  }

  /** A call in the first millisecond is admitted if nothing but that millisecond has been. */
  lemma AdmittedAgain(calls: seq<Call>, window: int, limit: int)
    requires limit >= 2 && Steady(calls + [Call(0, 0)]) && Ledger(calls, window, limit) <= {0}
    ensures Ledger(calls + [Call(0, 0)], window, limit) <= {0}
    ensures Requests(calls + [Call(0, 0)], window, limit, -1, 0) == Requests(calls, window, limit, -1, 0) + 1
  {
    var more := calls + [Call(0, 0)];
    assert more[..|calls|] == calls;
    Refinement(more, |calls|, window, limit);
    SubsetCard(Kept(Ledger(calls, window, limit), 0, window), {0});
  }

  lemma {:induction false} BurstAllAdmitted(n: nat, window: int, limit: int)
    requires limit >= 2
    ensures Ledger(Burst(n), window, limit) <= {0}
    ensures Requests(Burst(n), window, limit, -1, 0) == n
  {
    if n > 0 {
      BurstAllAdmitted(n - 1, window, limit);
      BurstSnoc(n);
      AdmittedAgain(Burst(n - 1), window, limit);
    }
  }

  lemma {:induction false} WiderCountsMore(calls: seq<Call>, window: int, limit: int, lo: int, hi: int, wider: int)
    requires hi <= wider
    ensures Requests(calls, window, limit, lo, hi) <= Requests(calls, window, limit, lo, wider)
  {
    if calls != [] {
      WiderCountsMore(calls[..|calls| - 1], window, limit, lo, hi, wider);
    }
  }

  lemma LimitOneWithin(calls: seq<Call>, window: int, limit: int, a: int, span: int)
    requires Steady(calls) && window >= 1 && 0 <= limit <= 1 && span == MILLIS * window
    ensures RequestsWithin(calls, window, limit, a, span) <= limit
  {
    Accounting(calls, window, limit, a, a + span);
    LimitOneNeverRepeats(calls, window, limit, a, a + span);
    OrderedWindow(calls, window, limit, a, span);
  }

  lemma LimitOneBoundsRequests(calls: seq<Call>, window: int, limit: int)
    requires Steady(calls) && window >= 1 && 0 <= limit <= 1
    ensures RequestsBounded(calls, window, limit)
  {
    forall a: int ensures RequestsWithin(calls, window, limit, a, MILLIS * window) <= limit {
      LimitOneWithin(calls, window, limit, a, MILLIS * window);
    }
  }

  lemma TooManyAtOnce(calls: seq<Call>, window: int, limit: int)
    requires window >= 1 && Requests(calls, window, limit, -1, 0) > limit
    ensures !RequestsBounded(calls, window, limit)
  {
    WiderCountsMore(calls, window, limit, -1, 0, -1 + MILLIS * window);
    assert RequestsWithin(calls, window, limit, -1, MILLIS * window) > limit;
  }

  lemma BurstIsUnbounded(window: int, limit: int)
    requires window >= 1 && limit >= 2
    ensures Steady(Burst(limit + 1)) && !RequestsBounded(Burst(limit + 1), window, limit)
  {
    BurstSnoc(limit + 1);
    BurstAllAdmitted(limit + 1, window, limit);
    TooManyAtOnce(Burst(limit + 1), window, limit);
  }

  /** The limit bounds requests on every run exactly when it is at most one: from a limit of two on, a
      burst within one millisecond is admitted whole, because all of it is one member of the sorted set. */
  lemma RequestBoundIff(window: int, limit: int)
    requires window >= 1 && limit >= 0
    ensures (forall calls: seq<Call> | Steady(calls) :: RequestsBounded(calls, window, limit)) <==> limit <= 1
  {
    if limit <= 1 {
      forall calls: seq<Call> | Steady(calls) ensures RequestsBounded(calls, window, limit) {
        LimitOneBoundsRequests(calls, window, limit);
      }
    } else {
      BurstIsUnbounded(window, limit);
    }
  }
}
