/** Whole windows under reordering: how many admissions more than the limit a window can hold when stamps go
    back by at most `d`, exactly. */
module RateLimitExcess {
  import opened Redis
  import opened RateLimiting
  import opened RateLimitRuns
  import opened RateLimitWindows

  /** 1 + 2 + ... + n. */
  function Triangle(n: nat): (r: nat)
    ensures r >= n
  {
    if n == 0 then 0 else Triangle(n - 1) + n
  }

  /** The largest n whose triangle fits into `d`. */
  function Root(d: nat): (n: nat)
    ensures Triangle(n) <= d < Triangle(n + 1)
  {
    if d == 0 then 0
    else
      var n := Root(d - 1);
      if d < Triangle(n + 1) then n else n + 1
  }

  /** The first `f` of the summands n, n - 1, ... */
  function Reach(n: nat, f: nat): (r: nat)
    ensures f == 0 ==> r == 0
  {
    if f == 0 || n == 0 then 0 else n + Reach(n - 1, f - 1)
  }

  lemma {:induction false} ReachStep(n: nat, f: nat)
    ensures Reach(n, f + 1) == Reach(n, f) + if f < n then n - f else 0
  {
    if n > 0 && f > 0 {
      ReachStep(n - 1, f - 1);
    }
  }

  lemma {:induction false} ReachGain(n: nat, f: nat)
    ensures Reach(n, f) <= Triangle(n) - n + f
  {
    if n > 0 && f > 0 {
      ReachGain(n - 1, f - 1);
    }
  }

  lemma {:induction false} ReachMonotone(n: nat, f: nat, g: nat)
    requires f <= g
    ensures Reach(n, f) <= Reach(n, g)
  {
    if f < g {
      ReachMonotone(n, f, g - 1);
      ReachStep(n, g - 1);
    }
  }

  /** How many more than the limit a whole window can hold if stamps go back by at most `d`; from a whole
      window on, their order says nothing. */
  function Excess(limit: int, d: nat, window: nat): nat {
    if limit <= 1 then 0 else if d <= MILLIS * window then d - Root(d) else MILLIS * window
  }

  // ---------------------------------------------------------------- the bound

  /** The stored stamps after the interval. */
  ghost function Beyond(stored: set<nat>, edge: int): set<nat> {
    set x | x in stored && x > edge
  }

  ghost predicate Top(s: set<nat>, p: nat) {
    p in s && forall y :: y in s ==> y <= p
  }

  lemma {:induction false} HasTop(s: set<nat>) returns (p: nat)
    requires s != {}
    ensures Top(s, p)
  {
    var x :| x in s;
    p := x;
    if s != {x} {
      assert s - {x} != {};
      var q := HasTop(s - {x});
      p := if q < x then x else q;
      assert forall y :: y in s ==> y == x || y in s - {x};
    }
  }

  /** Before which stamp of the interval nothing can be admitted any more, once `p` has come. */
  function Closed(edge: int, p: nat, d: nat): int {
    if p - d - 1 < edge then p - d - 1 else edge
  }

  /** What the interval `(a, edge]` can hold at most once `p` has come: what it holds before that stamp, and
      all that is left of it after. */
  ghost function Capacity(admitted: set<nat>, a: int, edge: int, p: nat, d: nat): int {
    |Between(admitted, a, Closed(edge, p, d))| + (edge - Closed(edge, p, d))
  }

  lemma HoldsAtMost(admitted: set<nat>, a: int, edge: int, p: nat, d: nat)
    ensures |Between(admitted, a, edge)| <= Capacity(admitted, a, edge, p, d)
  {
    var lim := Closed(edge, p, d);
    assert Between(admitted, a, edge) <= Between(admitted, a, lim) + Between(admitted, lim, edge);
    SubsetCard(Between(admitted, a, edge), Between(admitted, a, lim) + Between(admitted, lim, edge));
    IntervalCard(Between(admitted, lim, edge), lim, edge - lim);
  }

  lemma CapacityShrinks(admitted: set<nat>, a: int, edge: int, p: nat, later: nat, d: nat)
    requires p <= later
    ensures Capacity(admitted, a, edge, later, d) <= Capacity(admitted, a, edge, p, d)
  {
    var lim, lim' := Closed(edge, p, d), Closed(edge, later, d);
    assert Between(admitted, a, lim') <= Between(admitted, a, lim) + Between(admitted, lim, lim');
    SubsetCard(Between(admitted, a, lim'), Between(admitted, a, lim) + Between(admitted, lim, lim'));
    IntervalCard(Between(admitted, lim, lim'), lim, lim' - lim);
  }

  /** Either the interval can no longer be overfilled, or the highest stamp after it is within reach of as
      many as are stored there. */
  ghost predicate Budgeted(stored: set<nat>, admitted: set<nat>, a: int, edge: int, cap: nat, d: nat) {
    forall p: nat :: Top(Beyond(stored, edge), p) ==>
      || Capacity(admitted, a, edge, p, d) <= cap + d - Root(d)
      || p - edge <= Reach(Root(d), |Beyond(stored, edge)|)
  }

  /** What is inside and what is stored after it, less what was lost, fit into the limit. */
  lemma LostMakesRoom(stored: set<nat>, inside: set<nat>, after: set<nat>, cap: nat)
    requires |stored| <= cap && after <= stored && after !! inside
    ensures |inside| + |after| <= cap + |inside - stored|
  {
    var seen := inside * stored;
    assert inside == seen + (inside - stored);
    SubsetCard(seen + after, stored);
  }

  /** Without a stored stamp after it an interval has lost nothing. */
  lemma NothingLost(calls: seq<Call>, c: Cell<set<nat>>, admitted: set<nat>, window: nat, limit: int, a: int)
    requires Retains(calls, c, admitted, window, limit) && Beyond(c.value, a + MILLIS * window) == {}
    ensures |Between(admitted, a, a + MILLIS * window)| <= Cap(limit)
  {
    var edge := a + MILLIS * window;
    assert forall y :: y in c.value && y > edge ==> y in Beyond(c.value, edge);
    assert forall x :: x in Between(admitted, a, edge) ==> x in c.value || Outlived(c.value, x, window);
    SubsetCard(Between(admitted, a, edge), c.value);
  }

  /** What an interval has lost is below the highest stamp after it less the window. */
  lemma LostBelow(calls: seq<Call>, c: Cell<set<nat>>, admitted: set<nat>, window: nat, limit: int, a: int, p: nat)
    requires Retains(calls, c, admitted, window, limit) && Top(Beyond(c.value, a + MILLIS * window), p)
    ensures |Between(admitted, a, a + MILLIS * window) - c.value| <= p - a - MILLIS * window
  {
    var lost := Between(admitted, a, a + MILLIS * window) - c.value;
    forall x | x in lost ensures a < x <= p - MILLIS * window {
      var y :| y in c.value && x + MILLIS * window <= y;
      assert y in Beyond(c.value, a + MILLIS * window);
    }
    IntervalCard(lost, a, p - MILLIS * window - a);
  }

  /** The count inside, by the highest stamp after it and how many are stored there. */
  lemma InsideAtMost(calls: seq<Call>, c: Cell<set<nat>>, admitted: set<nat>, window: nat, limit: int, a: int, p: nat)
    requires Retains(calls, c, admitted, window, limit) && Top(Beyond(c.value, a + MILLIS * window), p)
    ensures var edge := a + MILLIS * window;
            |Between(admitted, a, edge)| <= Cap(limit) + (p - edge) - |Beyond(c.value, edge)|
  {
    var edge := a + MILLIS * window;
    LostBelow(calls, c, admitted, window, limit, a, p);
    LostMakesRoom(c.value, Between(admitted, a, edge), Beyond(c.value, edge), Cap(limit));
  }

  lemma BudgetBounds(calls: seq<Call>, c: Cell<set<nat>>, admitted: set<nat>, window: nat, limit: int, d: nat,
                     a: int, edge: int)
    requires Retains(calls, c, admitted, window, limit) && edge == a + MILLIS * window
    requires Budgeted(c.value, admitted, a, edge, Cap(limit), d)
    ensures |Between(admitted, a, edge)| <= Cap(limit) + d - Root(d)
  {
    if Beyond(c.value, edge) == {} {
      NothingLost(calls, c, admitted, window, limit, a);
    } else {
      var p := HasTop(Beyond(c.value, edge));
      HoldsAtMost(admitted, a, edge, p, d);
      InsideAtMost(calls, c, admitted, window, limit, a, p);
      ReachGain(Root(d), |Beyond(c.value, edge)|);
    }
  }

  // ---------------------------------------------------------------- what every call keeps

  /** What an expired key held is pruned by the window as well. */
  lemma KeptIsPruned(calls: seq<Call>, call: Call, c: Cell<set<nat>>, admitted: set<nat>, window: nat,
                     limit: int, d: nat)
    requires Lagged(calls + [call], d) && Retains(calls, c, admitted, window, limit)
    ensures Kept(Live(c, call), call.now, window) == Kept(c.value, call.now, window)
  {
    if call.clock >= c.deadline {
      ExpiredIsOld(calls, call, c, admitted, window, limit, d);
    }
  }

  /** A call with a stamp of the interval, or before it, changes nothing that the budget counts. */
  lemma InsideCall(stored: set<nat>, admitted: set<nat>, now: nat, window: nat, a: int, edge: int, cap: nat, d: nat)
    requires Budgeted(stored, admitted, a, edge, cap, d) && edge == a + MILLIS * window && now <= edge
    requires forall y :: y in stored ==> y <= now + d
    ensures Budgeted(Kept(stored, now, window) + {now}, admitted + {now}, a, edge, cap, d)
  {
    assert Beyond(Kept(stored, now, window) + {now}, edge) == Beyond(stored, edge);
    forall p: nat | Top(Beyond(stored, edge), p)
      ensures Capacity(admitted + {now}, a, edge, p, d) == Capacity(admitted, a, edge, p, d)
    {
      var lim := Closed(edge, p, d);
      assert Between(admitted + {now}, a, lim) == Between(admitted, a, lim);
    }
  }

  /** The capacity in terms of what the interval holds now. */
  lemma CapacityAtMost(admitted: set<nat>, a: int, edge: int, p: nat, d: nat)
    ensures Capacity(admitted, a, edge, p, d)
         <= |Between(admitted, a, edge)| + if p - edge <= d then d + 1 - (p - edge) else 0
  {
    SubsetCard(Between(admitted, a, Closed(edge, p, d)), Between(admitted, a, edge));
  }

  /** The first stored stamp after the interval. */
  lemma FirstBeyond(admitted: set<nat>, a: int, edge: int, now: nat, cap: nat, d: nat)
    requires |Between(admitted, a, edge)| <= cap && now > edge
    ensures Capacity(admitted, a, edge, now, d) <= cap + d - Root(d) || now - edge <= Reach(Root(d), 1)
  {
    CapacityAtMost(admitted, a, edge, now, d);
    assert Reach(Root(d), 1) == Root(d);
  }

  /** A new highest one, with `f` stored before it: either it leaves too little room, or it is within reach. */
  lemma HigherBeyond(admitted: set<nat>, a: int, edge: int, p: nat, now: nat, f: nat, cap: nat, d: nat)
    requires |Between(admitted, a, edge)| <= cap + (p - edge) - f && |Between(admitted, a, edge)| <= cap + d - Root(d)
    requires p < now && p - edge <= Reach(Root(d), f)
    ensures Capacity(admitted, a, edge, now, d) <= cap + d - Root(d) || now - edge <= Reach(Root(d), f + 1)
  {
    CapacityAtMost(admitted, a, edge, now, d);
    ReachStep(Root(d), f);
  }

  /** What is stored after the interval once a call beyond it is admitted. */
  lemma BeyondGrows(stored: set<nat>, now: nat, window: nat, edge: int)
    requires now > edge
    ensures var more := Beyond(Kept(stored, now, window) + {now}, edge);
            && more <= Beyond(stored, edge) + {now} && now in more
            && (now <= edge + MILLIS * window ==> more == Beyond(stored, edge) + {now})
  {
  }

  /** A call beyond the interval, with nothing stored there yet. */
  lemma BeyondFirst(stored: set<nat>, admitted: set<nat>, now: nat, window: nat, a: int, edge: int, cap: nat, d: nat)
    requires now > edge && Beyond(stored, edge) == {} && |Between(admitted, a, edge)| <= cap
    ensures Budgeted(Kept(stored, now, window) + {now}, admitted, a, edge, cap, d)
  {
    BeyondGrows(stored, now, window, edge);
    assert Beyond(Kept(stored, now, window) + {now}, edge) == {now};
    FirstBeyond(admitted, a, edge, now, cap, d);
  }

  /** A call beyond the interval that is not the highest one. */
  lemma BeyondLower(stored: set<nat>, admitted: set<nat>, now: nat, p: nat, window: nat, a: int, edge: int,
                    cap: nat, d: nat)
    requires edge < now <= p && Top(Beyond(stored, edge), p) && d <= MILLIS * window
    requires Budgeted(stored, admitted, a, edge, cap, d) && |Between(admitted, a, edge)| <= cap + d - Root(d)
    ensures Budgeted(Kept(stored, now, window) + {now}, admitted, a, edge, cap, d)
  {
    var before, more := Beyond(stored, edge), Beyond(Kept(stored, now, window) + {now}, edge);
    BeyondGrows(stored, now, window, edge);
    assert Top(more, p);
    if now <= edge + MILLIS * window {
      SubsetCard(before, more);
      ReachMonotone(Root(d), |before|, |more|);
    } else {
      CapacityAtMost(admitted, a, edge, p, d);
    }
  }

  /** A call beyond the interval that is the highest one. */
  lemma BeyondHigher(stored: set<nat>, admitted: set<nat>, now: nat, p: nat, window: nat, a: int, edge: int,
                     cap: nat, d: nat)
    requires edge < p < now && Top(Beyond(stored, edge), p) && d <= MILLIS * window
    requires Budgeted(stored, admitted, a, edge, cap, d) && |Between(admitted, a, edge)| <= cap + d - Root(d)
    requires |Between(admitted, a, edge)| <= cap + (p - edge) - |Beyond(stored, edge)|
    ensures Budgeted(Kept(stored, now, window) + {now}, admitted, a, edge, cap, d)
  {
    var before, more := Beyond(stored, edge), Beyond(Kept(stored, now, window) + {now}, edge);
    BeyondGrows(stored, now, window, edge);
    assert Top(more, now);
    CapacityShrinks(admitted, a, edge, p, now, d);
    CapacityAtMost(admitted, a, edge, now, d);
    if now - edge <= d && p - edge <= Reach(Root(d), |before|) {
      PlusOne(before, now);
      assert more == before + {now};
      HigherBeyond(admitted, a, edge, p, now, |before|, cap, d);
    }
  }

  lemma AddsNothingInside(stored: set<nat>, admitted: set<nat>, now: nat, a: int, edge: int, cap: nat, d: nat)
    requires Budgeted(stored, admitted, a, edge, cap, d) && now > edge
    ensures Budgeted(stored, admitted + {now}, a, edge, cap, d)
  {
    forall p: nat ensures Capacity(admitted + {now}, a, edge, p, d) == Capacity(admitted, a, edge, p, d) {
      var lim := Closed(edge, p, d);
      assert Between(admitted + {now}, a, lim) == Between(admitted, a, lim);
    }
  }

  lemma BeyondCall(calls: seq<Call>, c: Cell<set<nat>>, admitted: set<nat>, now: nat, window: nat, limit: int,
                   d: nat, a: int, edge: int)
    requires Retains(calls, c, admitted, window, limit) && edge == a + MILLIS * window
    requires now > edge && d <= MILLIS * window && Budgeted(c.value, admitted, a, edge, Cap(limit), d)
    ensures Budgeted(Kept(c.value, now, window) + {now}, admitted + {now}, a, edge, Cap(limit), d)
  {
    var stored, more := c.value, Kept(c.value, now, window) + {now};
    if Beyond(stored, edge) == {} {
      NothingLost(calls, c, admitted, window, limit, a);
      BeyondFirst(stored, admitted, now, window, a, edge, Cap(limit), d);
    } else {
      var p := HasTop(Beyond(stored, edge));
      BudgetBounds(calls, c, admitted, window, limit, d, a, edge);
      if now <= p {
        BeyondLower(stored, admitted, now, p, window, a, edge, Cap(limit), d);
      } else {
        InsideAtMost(calls, c, admitted, window, limit, a, p);
        BeyondHigher(stored, admitted, now, p, window, a, edge, Cap(limit), d);
      }
    }
    AddsNothingInside(more, admitted, now, a, edge, Cap(limit), d);
  }

  /** No stored stamp is more than `d` ahead of a later call. */
  lemma StoredIsNear(calls: seq<Call>, call: Call, c: Cell<set<nat>>, admitted: set<nat>, window: nat,
                     limit: int, d: nat)
    requires Lagged(calls + [call], d) && Retains(calls, c, admitted, window, limit)
    ensures forall y :: y in c.value ==> y <= call.now + d
  {
    forall y | y in c.value ensures y <= call.now + d {
      var l :| SetToExpire(calls, l, c, admitted, window);
      assert Stamped(calls, l, y);
      var i :| 0 <= i <= l && calls[i].now == y;
      assert (calls + [call])[i].now == y && (calls + [call])[|calls|] == call;
    }
  }

  lemma StepBudget(calls: seq<Call>, call: Call, c: Cell<set<nat>>, c': Cell<set<nat>>, admitted: set<nat>,
                   grown: set<nat>, window: nat, limit: int, d: nat, a: int, edge: int)
    requires Lagged(calls + [call], d) && Retains(calls, c, admitted, window, limit)
    requires edge == a + MILLIS * window && d <= MILLIS * window && c' == Script(c, call, window, limit).0
    requires grown == admitted + if Script(c, call, window, limit).1.allowed then {call.now} else {}
    requires Budgeted(c.value, admitted, a, edge, Cap(limit), d)
    ensures Budgeted(c'.value, grown, a, edge, Cap(limit), d)
  {
    KeptIsPruned(calls, call, c, admitted, window, limit, d);
    if !Script(c, call, window, limit).1.allowed {
      RejectionLosesNothing(calls, call, c, admitted, window, limit);
      assert grown == admitted;
    } else if call.now <= edge {
      StoredIsNear(calls, call, c, admitted, window, limit, d);
      InsideCall(c.value, admitted, call.now, window, a, edge, Cap(limit), d);
    } else {
      BeyondCall(calls, c, admitted, call.now, window, limit, d, a, edge);
    }
  }

  lemma {:induction false} RunBudget(calls: seq<Call>, window: nat, limit: int, d: nat, a: int, edge: int)
    requires Lagged(calls, d) && d <= MILLIS * window && edge == a + MILLIS * window
    ensures Budgeted(StateAfter(calls, window, limit).value, Admitted(calls, window, limit), a, edge, Cap(limit), d)
  {
    if calls != [] {
      var prefix, call := calls[..|calls| - 1], calls[|calls| - 1];
      assert calls == prefix + [call];
      LaggedPrefix(calls, d);
      RunBudget(prefix, window, limit, d, a, edge);
      RunRetains(prefix, window, limit, d);
      Extend(prefix, call, window, limit);
      StepBudget(prefix, call, StateAfter(prefix, window, limit), StateAfter(calls, window, limit),
                 Admitted(prefix, window, limit), Admitted(calls, window, limit), window, limit, d, a, edge);
    }
  }

  lemma MultiWindow(calls: seq<Call>, window: nat, limit: int, d: nat, a: int, edge: int)
    requires Lagged(calls, d) && d <= MILLIS * window && edge == a + MILLIS * window
    ensures |Between(Admitted(calls, window, limit), a, edge)| <= Cap(limit) + d - Root(d)
  {
    RunBudget(calls, window, limit, d, a, edge);
    RunRetains(calls, window, limit, d);
    BudgetBounds(calls, StateAfter(calls, window, limit), Admitted(calls, window, limit), window, limit, d, a, edge);
  }

  lemma SpanAt(s: set<nat>, span: int, cap: int, a: int, edge: int)
    requires EverySpan(s, span, cap) && edge == a + span
    ensures |Between(s, a, edge)| <= cap
  {
    assert |Within(s, a, span)| <= cap;
  }

  lemma SingleWindow(calls: seq<Call>, window: nat, limit: int, d: nat, a: int, edge: int)
    requires Lagged(calls, d) && limit <= 1 && edge == a + MILLIS * window
    ensures |Between(Admitted(calls, window, limit), a, edge)| <= Cap(limit)
  {
    WindowShort(calls, window, limit, d, edge - a);
    SpanAt(Admitted(calls, window, limit), edge - a, Cap(limit), a, edge);
  }

  lemma AnyWindow(calls: seq<Call>, window: nat, limit: int, d: nat, a: int, edge: int)
    requires Lagged(calls, d) && edge == a + MILLIS * window
    ensures |Between(Admitted(calls, window, limit), a, edge)| <= Cap(limit) + Excess(limit, d, window)
  {
    if limit <= 1 {
      SingleWindow(calls, window, limit, d, a, edge);
    } else if d <= MILLIS * window {
      MultiWindow(calls, window, limit, d, a, edge);
    } else {
      IntervalCard(Between(Admitted(calls, window, limit), a, edge), a, edge - a);
    }
  }

  lemma WholeWindow(calls: seq<Call>, window: nat, limit: int, d: nat, a: int, span: int, edge: int)
    requires Lagged(calls, d) && span == MILLIS * window && edge == a + span
    ensures |Within(Admitted(calls, window, limit), a, span)| <= Cap(limit) + Excess(limit, d, window)
  {
    AnyWindow(calls, window, limit, d, a, edge);
  }

  /** Reordering by `d` costs a whole window at most `Excess` admissions more than the limit: `d` less the
      root of `d`, and none under a limit of one. */
  lemma WindowExcess(calls: seq<Call>, window: nat, limit: int, d: nat, a: int)
    requires Reordered(calls, d) || Received(calls, d)
    ensures |Within(Admitted(calls, window, limit), a, MILLIS * window)| <= Cap(limit) + Excess(limit, d, window)
  {
    LaggedIf(calls, d);
    WholeWindow(calls, window, limit, d, a, MILLIS * window, a + MILLIS * window);
  }

  // ---------------------------------------------------------------- runs that fill a window

  /** The stamps below `n`. */
  ghost predicate IsFirst(s: set<nat>, n: nat) {
    forall x: nat :: x in s <==> x < n
  }

  lemma {:induction false} FirstCard(s: set<nat>, n: nat)
    requires IsFirst(s, n)
    ensures |s| == n
  {
    if n == 0 {
      assert s == {};
    } else {
      FirstCard(s - {n - 1}, n - 1);
    }
  }

  /** One call more, known by its position only. */
  ghost predicate Continues(more: seq<Call>, calls: seq<Call>, call: Call) {
    |more| == |calls| + 1 && more[|calls|] == call && forall i :: 0 <= i < |calls| ==> more[i] == calls[i]
  }

  lemma Continue(calls: seq<Call>, call: Call, c: Cell<set<nat>>, window: int, limit: int) returns (more: seq<Call>)
    requires StateAfter(calls, window, limit) == c && Script(c, call, window, limit).1.allowed
    ensures Continues(more, calls, call)
    ensures StateAfter(more, window, limit) == Script(c, call, window, limit).0
    ensures Admitted(more, window, limit) == Admitted(calls, window, limit) + {call.now}
  {
    more := calls + [call];
    Extend(calls, call, window, limit);
  }

  lemma RampKept(c: Cell<set<nat>>, n: nat, window: nat)
    requires n < MILLIS * window && IsFirst(c.value, n) && (n > 0 ==> c.deadline == After(n - 1, window + 1))
    ensures Kept(Live(c, Call(n, n)), n, window) == c.value
  {
    if n == 0 {
      assert c.value == {};
    }
  }

  lemma RampStep(calls: seq<Call>, c: Cell<set<nat>>, n: nat, window: nat, limit: nat)
    returns (more: seq<Call>, stored: set<nat>)
    requires n < limit < MILLIS * window && StateAfter(calls, window, limit) == c
    requires IsFirst(c.value, n) && (n > 0 ==> c.deadline == After(n - 1, window + 1))
    ensures Continues(more, calls, Call(n, n)) && IsFirst(stored, n + 1) && stored == c.value + {n}
    ensures StateAfter(more, window, limit) == Cell(stored, After(n, window + 1))
    ensures Admitted(more, window, limit) == Admitted(calls, window, limit) + {n}
  {
    FirstCard(c.value, n);
    RampKept(c, n, window);
    more := Continue(calls, Call(n, n), c, window, limit);
    stored := c.value + {n};
  }

  /** One call per millisecond, from the first on, is admitted up to the limit. */
  lemma {:induction false} Ramp(n: nat, window: nat, limit: nat) returns (calls: seq<Call>, stored: set<nat>)
    requires 1 <= n <= limit < MILLIS * window
    ensures |calls| == n && (forall i :: 0 <= i < n ==> calls[i] == Call(i, i)) && IsFirst(stored, n)
    ensures StateAfter(calls, window, limit) == Cell(stored, After(n - 1, window + 1))
    ensures Admitted(calls, window, limit) == stored
  {
    if n == 1 {
      calls, stored := RampStep([], Cell({}, 0), 0, window, limit);
    } else {
      var before, first := Ramp(n - 1, window, limit);
      calls, stored := RampStep(before, Cell(first, After(n - 2, window + 1)), n - 1, window, limit);
    }
  }

  // ---------------------------------------------------------------- a run that attains the bound

  /** The stamps from `lo` on and below `hi`. */
  ghost function Stretch(lo: nat, hi: nat): (s: set<nat>)
    requires lo <= hi
    ensures |s| == hi - lo && forall x: nat :: x in s <==> lo <= x < hi
  {
    if lo == hi then {} else Stretch(lo, hi - 1) + {hi - 1}
  }

  /** A run under a limit of `d` that has filled the first `d` milliseconds of a window, has lost the first `j` of
      them to calls stamped after it, the peaks, and has admitted `g` of its last `goal` stamps instead. */
  datatype Stage = Stage(calls: seq<Call>, stored: set<nat>, peaks: set<nat>, j: nat, g: nat)

  ghost predicate Holds(s: Stage, d: nat, goal: nat, edge: nat) {
    && |s.stored| == d - s.j + |s.peaks| + s.g
    && forall x: nat :: x in s.stored <==> s.j <= x < d || x in s.peaks || edge - goal <= x < edge - goal + s.g
  }

  ghost predicate Fills(admitted: set<nat>, g: nat, d: nat, goal: nat, edge: nat) {
    forall x: nat :: x < d || edge - goal <= x < edge - goal + g ==> x in admitted
  }

  /** All calls so far leave room for one at the instant `edge`. */
  ghost predicate Paced(calls: seq<Call>, j: nat, d: nat, edge: nat) {
    && Received(calls, d)
    && forall i :: 0 <= i < |calls| ==>
         calls[i].clock <= edge && calls[i].now < edge + j && (Offset(calls[i]) >= 0 || Offset(calls[i]) >= 1 - j)
  }

  ghost predicate Shaped(s: Stage, d: nat, goal: nat, window: nat, edge: nat) {
    && edge == MILLIS * window >= 2 * d && goal <= d <= MILLIS
    && s.j <= d && s.g <= goal && forall x :: x in s.peaks ==> edge <= x < edge + s.j
  }

  ghost predicate Staged(s: Stage, d: nat, goal: nat, window: nat, edge: nat) {
    && Shaped(s, d, goal, window, edge) && Holds(s, d, goal, edge) && Paced(s.calls, s.j, d, edge)
    && StateAfter(s.calls, window, d).value == s.stored && StateAfter(s.calls, window, d).deadline > edge
    && Fills(Admitted(s.calls, window, d), s.g, d, goal, edge)
  }

  lemma PacedNext(calls: seq<Call>, more: seq<Call>, call: Call, j: nat, j': nat, d: nat, edge: nat)
    requires Paced(calls, j, d, edge) && j <= j' <= d <= MILLIS && Continues(more, calls, call) && call.clock == edge
    requires call.now < edge + j' && edge <= call.now + d && edge + j <= call.now + d + 1
    ensures Paced(more, j', d, edge)
  {
    assert Offset(call) >= 1 - j';
  }

  lemma Admit(calls: seq<Call>, call: Call, c: Cell<set<nat>>, kept: set<nat>, window: nat, limit: nat)
    returns (more: seq<Call>)
    requires StateAfter(calls, window, limit) == c && call.clock < c.deadline
    requires Kept(c.value, call.now, window) == kept && |kept| < limit
    ensures Continues(more, calls, call)
    ensures StateAfter(more, window, limit).value == kept + {call.now}
    ensures StateAfter(more, window, limit).deadline > call.clock
    ensures Admitted(more, window, limit) == Admitted(calls, window, limit) + {call.now}
  {
    more := Continue(calls, call, c, window, limit);
  }

  lemma Parts(all: set<nat>, part: set<nat>)
    requires part <= all
    ensures |all - part| == |all| - |part|
  {
    assert all == (all - part) + part;
  }

  /** What a peak leaves of the store. */
  lemma PeakKeeps(s: Stage, j': nat, d: nat, goal: nat, window: nat, edge: nat, now: nat) returns (kept: set<nat>)
    requires Shaped(s, d, goal, window, edge) && Holds(s, d, goal, edge) && s.j <= j' <= d && now == edge - 1 + j'
    ensures kept == Kept(s.stored, now, window) && Holds(s.(stored := kept, j := j'), d, goal, edge)
  {
    kept := Kept(s.stored, now, window);
    var lost := Stretch(s.j, j');
    Parts(s.stored, lost);
    assert kept == s.stored - lost;
  }

  lemma PeakHolds(s: Stage, s': Stage, now: nat, d: nat, goal: nat, edge: nat)
    requires Holds(s, d, goal, edge) && now !in s.stored
    requires s' == s.(stored := s.stored + {now}, peaks := s.peaks + {now}, calls := s'.calls)
    ensures Holds(s', d, goal, edge) && |s'.peaks| == |s.peaks| + 1
  {
    assert now !in s.peaks;
  }

  /** A call stamped after the window takes one place and gives up those of the stamps it prunes. */
  lemma PeakStep(s: Stage, j': nat, d: nat, goal: nat, window: nat, edge: nat) returns (s': Stage)
    requires Staged(s, d, goal, window, edge) && s.j < j' <= d && j' > |s.peaks| + s.g
    ensures Staged(s', d, goal, window, edge) && s'.j == j' && s'.g == s.g && |s'.peaks| == |s.peaks| + 1
  {
    var call := Call(edge - 1 + j', edge);
    var kept := PeakKeeps(s, j', d, goal, window, edge, call.now);
    var more := Admit(s.calls, call, StateAfter(s.calls, window, d), kept, window, d);
    PacedNext(s.calls, more, call, s.j, j', d, edge);
    s' := Stage(more, kept + {call.now}, s.peaks + {call.now}, j', s.g);
    PeakHolds(s.(stored := kept, j := j'), s', call.now, d, goal, edge);
  }

  lemma GainHolds(s: Stage, s': Stage, now: nat, d: nat, goal: nat, window: nat, edge: nat)
    requires Shaped(s, d, goal, window, edge) && Holds(s, d, goal, edge) && s.g < goal && now == edge - goal + s.g
    requires s' == s.(stored := s.stored + {now}, g := s.g + 1, calls := s'.calls)
    ensures Kept(s.stored, now, window) == s.stored && Holds(s', d, goal, edge)
  {
    assert now !in s.stored;
  }

  lemma FillsMore(admitted: set<nat>, grown: set<nat>, now: nat, g: nat, d: nat, goal: nat, edge: nat)
    requires Fills(admitted, g, d, goal, edge) && g < goal <= edge && now == edge - goal + g
    requires admitted + {now} <= grown
    ensures Fills(grown, g + 1, d, goal, edge)
  {
  }

  lemma GainPaced(s: Stage, more: seq<Call>, call: Call, d: nat, goal: nat, window: nat, edge: nat)
    requires Shaped(s, d, goal, window, edge) && Paced(s.calls, s.j, d, edge) && Continues(more, s.calls, call)
    requires s.g < goal && s.j <= d - goal + 1 + s.g && call == Call(edge - goal + s.g, edge)
    ensures Paced(more, s.j, d, edge)
  {
    PacedNext(s.calls, more, call, s.j, s.j, d, edge);
  }

  /** Every place given up admits one more of the last stamps of the window, as long as they are not too far back. */
  lemma GainStep(s: Stage, d: nat, goal: nat, window: nat, edge: nat) returns (s': Stage)
    requires Staged(s, d, goal, window, edge) && s.g < goal && |s.peaks| + s.g < s.j <= d - goal + 1 + s.g
    ensures Staged(s', d, goal, window, edge) && s'.j == s.j && s'.g == s.g + 1 && s'.peaks == s.peaks
  {
    var now: nat := edge - goal + s.g;
    GainHolds(s, Stage(s.calls, s.stored + {now}, s.peaks, s.j, s.g + 1), now, d, goal, window, edge);
    var more := Admit(s.calls, Call(now, edge), StateAfter(s.calls, window, d), s.stored, window, d);
    GainPaced(s, more, Call(now, edge), d, goal, window, edge);
    FillsMore(Admitted(s.calls, window, d), Admitted(more, window, d), now, s.g, d, goal, edge);
    s' := Stage(more, s.stored + {now}, s.peaks, s.j, s.g + 1);
  }

  /** Fills every place given up. */
  lemma {:induction false} Fill(s: Stage, d: nat, goal: nat, window: nat, edge: nat) returns (s': Stage)
    requires Staged(s, d, goal, window, edge) && |s.peaks| + s.g <= s.j <= d - goal + 1 + s.g && s.j - |s.peaks| <= goal
    ensures Staged(s', d, goal, window, edge) && s'.j == s.j && s'.peaks == s.peaks && s'.g == s.j - |s.peaks|
    decreases goal - s.g
  {
    s' := s;
    if |s.peaks| + s.g < s.j {
      s' := GainStep(s, d, goal, window, edge);
      s' := Fill(s', d, goal, window, edge);
    }
  }

  function Least(a: int, b: int): int {
    if a < b then a else b
  }

  lemma {:induction false} ReachFull(n: nat, f: nat)
    ensures f >= n ==> Reach(n, f) == Triangle(n)
  {
    if n > 0 && f > 0 {
      ReachFull(n - 1, f - 1);
    }
  }

  /** Where the next peak goes: as far as the places it gives up can still be filled. */
  lemma NextPeak(f: nat, g: nat, n: nat, goal: nat) returns (j: nat)
    requires g == Least(goal, Reach(n, f)) < goal <= Triangle(n)
    ensures f + g + 1 < j <= n + 1 + g && j <= n + goal && j - (f + 1) == Least(goal, Reach(n, f + 1))
  {
    ReachFull(n, f);
    ReachStep(n, f);
    j := Least(n + 1 + g, goal + f + 1);
  }

  /** From one full store to the next, with one more peak. */
  lemma Raise(s: Stage, j: nat, d: nat, goal: nat, window: nat, edge: nat) returns (full: Stage)
    requires Staged(s, d, goal, window, edge) && s.j == |s.peaks| + s.g
    requires s.j + 1 < j <= d - goal + 1 + s.g && j <= d && j - (|s.peaks| + 1) <= goal
    ensures Staged(full, d, goal, window, edge) && full.j == j
    ensures |full.peaks| == |s.peaks| + 1 && full.g == j - |full.peaks|
  {
    var raised := PeakStep(s, j, d, goal, window, edge);
    full := Fill(raised, d, goal, window, edge);
  }

  /** A full store after `f` peaks. */
  ghost predicate FullAt(s: Stage, f: nat, d: nat, n: nat, goal: nat, window: nat, edge: nat) {
    && d == n + goal && goal <= Triangle(n) && Staged(s, d, goal, window, edge)
    && f == |s.peaks| && s.j == f + s.g && s.g == Least(goal, Reach(n, f))
  }

  lemma RaiseFull(s: Stage, f: nat, d: nat, n: nat, goal: nat, window: nat, edge: nat) returns (full: Stage)
    requires FullAt(s, f, d, n, goal, window, edge) && s.g != goal
    ensures s.g < goal && FullAt(full, f + 1, d, n, goal, window, edge) && full.g > s.g
  {
    var j := NextPeak(f, s.g, n, goal);
    full := Raise(s, j, d, goal, window, edge);
  }

  lemma {:induction false} Climb(s: Stage, f: nat, d: nat, n: nat, goal: nat, window: nat, edge: nat)
    returns (s': Stage, f': nat)
    requires FullAt(s, f, d, n, goal, window, edge)
    ensures FullAt(s', f', d, n, goal, window, edge) && s'.g == goal
    decreases goal - s.g
  {
    if s.g == goal {
      s', f' := s, f;
    } else {
      var full := RaiseFull(s, f, d, n, goal, window, edge);
      s', f' := Climb(full, f + 1, d, n, goal, window, edge);
    }
  }

  lemma Start(d: nat, goal: nat, window: nat, edge: nat) returns (s: Stage)
    requires 1 <= d <= MILLIS && window >= 2 && goal <= d && edge == MILLIS * window
    ensures Staged(s, d, goal, window, edge) && s.j == 0 && s.peaks == {} && s.g == 0
  {
    var ramp, first := Ramp(d, window, d);
    FirstCard(first, d);
    s := Stage(ramp, first, {}, 0, 0);
  }

  lemma FillingRun(d: nat, goal: nat, window: nat, edge: nat) returns (calls: seq<Call>)
    requires 1 <= d <= MILLIS && window >= 2 && goal == d - Root(d) && edge == MILLIS * window
    ensures Received(calls, d) && Fills(Admitted(calls, window, d), goal, d, goal, edge)
  {
    var start := Start(d, goal, window, edge);
    var s, _ := Climb(start, 0, d, Root(d), goal, window, edge);
    calls := s.calls;
  }

  lemma Filled(admitted: set<nat>, d: nat, goal: nat, edge: nat)
    requires Fills(admitted, goal, d, goal, edge) && d + goal <= edge
    ensures |Within(admitted, -1, edge)| >= d + goal
  {
    var first, last := Stretch(0, d), Stretch(edge - goal, edge);
    assert first !! last;
    SubsetCard(first + last, Within(admitted, -1, edge));
  }

  /** For every `d` some run whose stamps go back by at most `d` fills a window with `d - Root(d)` admissions more
      than its limit. */
  lemma ExcessAttained(d: nat, window: nat) returns (calls: seq<Call>)
    requires 1 <= d <= MILLIS && window >= 2
    ensures Received(calls, d)
    ensures |Within(Admitted(calls, window, d), -1, MILLIS * window)| == d + (d - Root(d))
  {
    calls := FillingRun(d, d - Root(d), window, MILLIS * window);
    Filled(Admitted(calls, window, d), d, d - Root(d), MILLIS * window);
    WindowExcess(calls, window, d, d, -1);
  }

  lemma ExcessEverySpan(calls: seq<Call>, window: nat, limit: int, d: nat, span: nat, e: nat)
    requires Received(calls, d) && d <= span == MILLIS * window && e >= d - Root(d)
    ensures EverySpan(Admitted(calls, window, limit), span, Cap(limit) + e)
  {
    forall a: int ensures |Within(Admitted(calls, window, limit), a, span)| <= Cap(limit) + e {
      WindowExcess(calls, window, limit, d, a);
    }
  }

  /** How far back stamps can go at all in the order of the Redis clock with a second of drift. */
  function Furthest(d: nat): nat {
    if d <= MILLIS then d else MILLIS
  }

  lemma GoesBackAtMost(calls: seq<Call>, d: nat)
    ensures Received(calls, d) <==> Received(calls, Furthest(d))
  {
  }

  /** The most that any window can hold beyond its limit, exactly: `e` admissions more are never exceeded, on any
      run and under any limit, if and only if `e` is at least `d` less its root. */
  lemma ExcessIff(window: nat, d: nat, e: nat)
    requires window >= 2
    ensures (forall calls: seq<Call>, limit: int | Received(calls, d) ::
               EverySpan(Admitted(calls, window, limit), MILLIS * window, Cap(limit) + e))
            <==> e >= Furthest(d) - Root(Furthest(d))
  {
    var m := Furthest(d);
    if e >= m - Root(m) {
      forall calls: seq<Call>, limit: int | Received(calls, d)
        ensures EverySpan(Admitted(calls, window, limit), MILLIS * window, Cap(limit) + e)
      {
        GoesBackAtMost(calls, d);
        ExcessEverySpan(calls, window, limit, m, MILLIS * window, e);
      }
    } else {
      var calls := ExcessAttained(m, window);
      GoesBackAtMost(calls, d);
      assert |Within(Admitted(calls, window, m), -1, MILLIS * window)| > Cap(m) + e;
      assert !EverySpan(Admitted(calls, window, m), MILLIS * window, Cap(m) + e);
    }
  }

  // ---------------------------------------------------------------- when whole windows stay within the limit

  ghost predicate WindowsBounded(calls: seq<Call>, window: int, limit: int) {
    forall a: int :: |Within(Admitted(calls, window, limit), a, MILLIS * window)| <= Cap(limit)
  }

  /** The call just after the window forgets the first two stamps of a full one. */
  lemma ForgetTwo(calls: seq<Call>, first: set<nat>, end: nat, window: nat, limit: nat)
    returns (more: seq<Call>, c: Cell<set<nat>>)
    requires 2 <= limit < MILLIS * window && end == MILLIS * window + 1 && IsFirst(first, limit)
    requires StateAfter(calls, window, limit) == Cell(first, After(limit - 1, window + 1))
    ensures Continues(more, calls, Call(end, end))
    ensures StateAfter(more, window, limit) == c && c.deadline == After(end, window + 1) && |c.value| < limit
    ensures Admitted(more, window, limit) == Admitted(calls, window, limit) + {end}
  {
    var left := first - {0, 1};
    FirstCard(first, limit);
    assert first == left + {0, 1};
    assert Kept(first, end, window) == left;
    PlusOne(left, end);
    c := Cell(left + {end}, After(end, window + 1));
    more := Continue(calls, Call(end, end), Cell(first, After(limit - 1, window + 1)), window, limit);
  }

  lemma AdmitOvertaken(calls: seq<Call>, c: Cell<set<nat>>, end: nat, window: nat, limit: nat) returns (more: seq<Call>)
    requires end == MILLIS * window + 1 >= 2 && |c.value| < limit
    requires StateAfter(calls, window, limit) == c && c.deadline == After(end, window + 1)
    ensures Continues(more, calls, Call(end - 2, end))
    ensures Admitted(more, window, limit) == Admitted(calls, window, limit) + {end - 2}
  {
    assert Kept(Live(c, Call(end - 2, end)), end - 2, window) == c.value;
    more := Continue(calls, Call(end - 2, end), c, window, limit);
  }

  lemma OvertakenIsReceived(ramp: seq<Call>, two: seq<Call>, calls: seq<Call>, end: nat)
    requires 2 <= |ramp| < end && forall i :: 0 <= i < |ramp| ==> ramp[i] == Call(i, i)
    requires Continues(two, ramp, Call(end, end)) && Continues(calls, two, Call(end - 2, end))
    ensures Received(calls, 2)
  {
    assert forall i :: 0 <= i < |ramp| ==> calls[i] == two[i] == Call(i, i);
  }

  /** A full window, a call just after it that forgets its first two stamps, and one stamped two milliseconds
      earlier that arrives at the same instant. */
  lemma Overtaken(end: nat, window: nat, limit: nat) returns (calls: seq<Call>, first: set<nat>)
    requires 2 <= limit < MILLIS * window && end == MILLIS * window + 1
    ensures Received(calls, 2)
    ensures IsFirst(first, limit) && first + {end - 2} <= Admitted(calls, window, limit)
  {
    var ramp, two, c;
    ramp, first := Ramp(limit, window, limit);
    two, c := ForgetTwo(ramp, first, end, window, limit);
    calls := AdmitOvertaken(two, c, end, window, limit);
    OvertakenIsReceived(ramp, two, calls, end);
  }

  lemma TooManyWithin(s: set<nat>, first: set<nat>, limit: nat, last: nat)
    requires limit <= last && IsFirst(first, limit) && first + {last} <= s
    ensures |Within(s, -1, last + 1)| > limit
  {
    FirstCard(first, limit);
    PlusOne(first, last);
    SubsetCard(first + {last}, Within(s, -1, last + 1));
  }

  lemma OvertakenExceeds(window: nat, limit: nat) returns (calls: seq<Call>)
    requires 2 <= limit < MILLIS * window
    ensures Received(calls, 2) && !WindowsBounded(calls, window, limit)
  {
    var first;
    calls, first := Overtaken(MILLIS * window + 1, window, limit);
    TooManyWithin(Admitted(calls, window, limit), first, limit, MILLIS * window - 1);
  }

  lemma ReceivedLonger(calls: seq<Call>, d: nat, more: nat)
    requires Received(calls, d) && d <= more
    ensures Received(calls, more)
  {
  }

  lemma WindowsBoundedIf(calls: seq<Call>, window: nat, limit: int, d: nat)
    requires Received(calls, d) && (d <= 1 || limit <= 1 || limit >= MILLIS * window)
    ensures WindowsBounded(calls, window, limit)
  {
    forall a: int ensures |Within(Admitted(calls, window, limit), a, MILLIS * window)| <= Cap(limit) {
      WindowExcess(calls, window, limit, d, a);
      IntervalCard(Within(Admitted(calls, window, limit), a, MILLIS * window), a, MILLIS * window);
    }
  }

  /** How much order whole windows need: with stamps that go back by at most `d` every window of every run
      stays within the limit if and only if `d` is at most one millisecond, or the limit is at most one, or
      no window has room for more stamps than the limit anyway. */
  lemma OrderNeededIff(window: nat, limit: int, d: nat)
    requires window >= 1
    ensures (forall calls: seq<Call> | Received(calls, d) :: WindowsBounded(calls, window, limit))
            <==> (d <= 1 || limit <= 1 || limit >= MILLIS * window)
  {
    if d <= 1 || limit <= 1 || limit >= MILLIS * window {
      forall calls: seq<Call> | Received(calls, d) ensures WindowsBounded(calls, window, limit) {
        WindowsBoundedIf(calls, window, limit, d);
      }
    } else {
      var overtaken := OvertakenExceeds(window, limit);
      ReceivedLonger(overtaken, 2, d);
    }
  }
}
