/** The sliding-window bound for calls whose stamps reach Redis out of order: the gateway takes a stamp
    before it awaits the script, so concurrent calls of one client can overtake each other. */
module RateLimitWindows {
  import opened Redis
  import opened RateLimiting
  import opened RateLimitRuns

  ghost function Between(s: set<nat>, lo: int, hi: int): set<nat> {
    set x | x in s && lo < x <= hi
  }

  /** The part of `s` in the interval of length `span` after `a`. */
  ghost function Within(s: set<nat>, a: int, span: int): set<nat> {
    Between(s, a, a + span)
  }

  /** A limit below zero admits as little as a limit of zero. */
  function Cap(limit: int): nat {
    if limit < 0 then 0 else limit
  }

  lemma {:induction false} SubsetCard(s: set<nat>, r: set<nat>)
    requires s <= r
    ensures |s| <= |r|
    ensures |s| == |r| ==> s == r
  {
    assert r == s + (r - s);
  }

  lemma PlusOne(s: set<nat>, x: nat)
    ensures |s + {x}| == |s| + if x in s then 0 else 1
  {
    if x in s { assert s + {x} == s; }
  }

  lemma Split(s: set<nat>, lo: int, mid: int, hi: int)
    requires lo <= mid <= hi
    ensures |Between(s, lo, hi)| == |Between(s, lo, mid)| + |Between(s, mid, hi)|
  {
    assert Between(s, lo, hi) == Between(s, lo, mid) + Between(s, mid, hi);
  }

  /** No interval of the span holds more than `cap`. */
  ghost predicate EverySpan(s: set<nat>, span: int, cap: int) {
    forall b: int :: |Within(s, b, span)| <= cap
  }

  /** A bound on every interval of one span adds up over `k` of them. */
  lemma {:induction false} Stack(s: set<nat>, a: int, span: int, cap: nat, k: nat)
    requires EverySpan(s, span, cap)
    ensures |Within(s, a, k * span)| <= k * cap
  {
    if k == 0 || span < 0 {
      assert k * span <= 0 && k * cap >= 0;
      assert Within(s, a, k * span) == {};
    } else {
      var mid := a + (k - 1) * span;
      assert (k - 1) * span >= 0;
      assert k * span == (k - 1) * span + span;
      Stack(s, a, span, cap, k - 1);
      Split(s, a, mid, mid + span);
      assert |Within(s, mid, span)| <= cap;
      assert k * cap == (k - 1) * cap + cap;
    }
  }

  lemma {:induction false} IntervalCard(s: set<nat>, lo: int, n: nat)
    requires forall x :: x in s ==> lo < x <= lo + n
    ensures |s| <= n
  {
    if n == 0 {
      assert s == {};
    } else {
      var top := lo + n;
      var top' := if top >= 0 then {top as nat} else {};
      IntervalCard(s - top', lo, n - 1);
      SubsetCard(s, (s - top') + top');
    }
  }

  lemma Extend(calls: seq<Call>, call: Call, window: int, limit: int)
    ensures var (c, verdict) := Script(StateAfter(calls, window, limit), call, window, limit);
            && StateAfter(calls + [call], window, limit) == c
            && Admitted(calls + [call], window, limit)
            == Admitted(calls, window, limit) + if verdict.allowed then {call.now} else {}
  {
    assert (calls + [call])[..|calls|] == calls;
  }

  // ---------------------------------------------------------------- how far out of order

  /** Stamps go back by at most `d`, and the clock offset grows by at most what that leaves of a second. */
  ghost predicate Reordered(calls: seq<Call>, d: nat) {
    forall i, j :: 0 <= i < j < |calls| ==>
      calls[i].now <= calls[j].now + d && Offset(calls[j]) - Offset(calls[i]) <= MILLIS - d
  }

  /** The calls are in the order of the Redis clock, stamps go back by at most `d`, and the offset grows
      by at most a second. */
  ghost predicate Received(calls: seq<Call>, d: nat) {
    forall i, j :: 0 <= i < j < |calls| ==>
      && calls[i].clock <= calls[j].clock
      && calls[i].now <= calls[j].now + d && Offset(calls[j]) - Offset(calls[i]) <= MILLIS
  }

  /** What both mean for a key set to expire by one call, `l`, and found by a later one, `j`: since `l` the
      clock has gained at most a second on the time since any stamp the key can hold. */
  ghost predicate Lagged(calls: seq<Call>, d: nat) {
    && (forall i, j :: 0 <= i < j < |calls| ==> calls[i].now <= calls[j].now + d)
    && (forall i, l, j :: 0 <= i <= l < j < |calls| ==>
         (calls[j].clock - calls[l].clock) - (calls[j].now - calls[i].now) <= MILLIS)
  }

  lemma LaggedIf(calls: seq<Call>, d: nat)
    requires Reordered(calls, d) || Received(calls, d)
    ensures Lagged(calls, d)
  {
    forall i, l, j | 0 <= i <= l < j < |calls|
      ensures (calls[j].clock - calls[l].clock) - (calls[j].now - calls[i].now) <= MILLIS
    {
      assert Reordered(calls, d) ==> Offset(calls[j]) - Offset(calls[l]) <= MILLIS - d;
      assert Received(calls, d) ==> Offset(calls[j]) - Offset(calls[i]) <= MILLIS;
    }
  }

  // ---------------------------------------------------------------- what the store retains

  /** Some call up to the l-th carried the stamp. */
  ghost predicate Stamped(calls: seq<Call>, l: int, x: nat) {
    exists i :: 0 <= i <= l < |calls| && calls[i].now == x
  }

  /** The l-th call set the key's time to live, after every admission. */
  ghost predicate SetToExpire(calls: seq<Call>, l: int, c: Cell<set<nat>>, admitted: set<nat>, window: int) {
    && 0 <= l < |calls| && c.deadline == After(calls[l].clock, window + 1)
    && forall x :: x in admitted ==> Stamped(calls, l, x)
  }

  /** A stored stamp at least a window later than `x`. */
  ghost predicate Outlived(stored: set<nat>, x: nat, window: int) {
    exists y :: y in stored && x + MILLIS * window <= y
  }

  /** The store holds no more than the limit, and for every admitted stamp it lost one a window later. */
  ghost predicate Retains(calls: seq<Call>, c: Cell<set<nat>>, admitted: set<nat>, window: int, limit: int) {
    && c.value <= admitted && |c.value| <= Cap(limit)
    && (forall x :: x in admitted && x !in c.value ==> Outlived(c.value, x, window))
    && (admitted != {} ==> exists l :: SetToExpire(calls, l, c, admitted, window))
  }

  /** A key found expired held nothing of the caller's window. */
  lemma ExpiredIsOld(calls: seq<Call>, call: Call, c: Cell<set<nat>>, admitted: set<nat>, window: int,
                     limit: int, d: nat)
    requires Lagged(calls + [call], d) && Retains(calls, c, admitted, window, limit) && call.clock >= c.deadline
    ensures forall x :: x in admitted ==> x <= call.now - MILLIS * window
  {
    var more, j := calls + [call], |calls|;
    forall x | x in admitted ensures x <= call.now - MILLIS * window {
      var l :| SetToExpire(calls, l, c, admitted, window);
      assert Stamped(calls, l, x);
      var i :| 0 <= i <= l && calls[i].now == x;
      assert more[i] == calls[i] && more[l] == calls[l] && more[j] == call;
      assert (more[j].clock - more[l].clock) - (more[j].now - more[i].now) <= MILLIS;
    }
  }

  ghost function Live(c: Cell<set<nat>>, call: Call): set<nat> {
    if call.clock < c.deadline then c.value else {}
  }

  /** A stored stamp the script does not see is a window older than its call. */
  lemma UnseenIsOld(calls: seq<Call>, call: Call, c: Cell<set<nat>>, admitted: set<nat>, window: int,
                    limit: int, d: nat, x: nat)
    requires Lagged(calls + [call], d) && Retains(calls, c, admitted, window, limit)
    requires x in c.value && x !in Kept(Live(c, call), call.now, window)
    ensures x <= call.now - MILLIS * window
  {
    if call.clock >= c.deadline {
      ExpiredIsOld(calls, call, c, admitted, window, limit, d);
    }
  }

  /** Only an admitted call loses stamps, so the loser itself is stored in their place. */
  lemma RejectionLosesNothing(calls: seq<Call>, call: Call, c: Cell<set<nat>>, admitted: set<nat>, window: int,
                              limit: int)
    requires Retains(calls, c, admitted, window, limit) && !Script(c, call, window, limit).1.allowed
    ensures Kept(Live(c, call), call.now, window) == c.value
  {
    var kept := Kept(Live(c, call), call.now, window);
    SubsetCard(kept, c.value);
  }

  lemma LaterStamped(calls: seq<Call>, call: Call, l: int, later: int, x: nat)
    requires Stamped(calls, l, x) && l <= later <= |calls|
    ensures Stamped(calls + [call], later, x)
  {
    var i :| 0 <= i <= l < |calls| && calls[i].now == x;
    assert (calls + [call])[i] == calls[i];
  }

  lemma ExpiryKept(calls: seq<Call>, call: Call, c: Cell<set<nat>>, admitted: set<nat>, window: int)
    requires admitted != {} && exists l :: SetToExpire(calls, l, c, admitted, window)
    ensures exists l :: SetToExpire(calls + [call], l, c, admitted, window)
  {
    var l :| SetToExpire(calls, l, c, admitted, window);
    forall x | x in admitted ensures Stamped(calls + [call], l, x) { LaterStamped(calls, call, l, l, x); }
    assert SetToExpire(calls + [call], l, c, admitted, window);
  }

  lemma ExpiryRenewed(calls: seq<Call>, call: Call, c: Cell<set<nat>>, c': Cell<set<nat>>, admitted: set<nat>,
                      window: int)
    requires admitted != {} ==> exists l :: SetToExpire(calls, l, c, admitted, window)
    requires c'.deadline == After(call.clock, window + 1)
    ensures exists l :: SetToExpire(calls + [call], l, c', admitted + {call.now}, window)
  {
    var more, n := calls + [call], |calls|;
    forall x | x in admitted + {call.now} ensures Stamped(more, n, x) {
      if x in admitted {
        var l :| SetToExpire(calls, l, c, admitted, window);
        LaterStamped(calls, call, l, n, x);
      } else {
        assert more[n].now == x;
      }
    }
    assert SetToExpire(more, n, c', admitted + {call.now}, window);
  }

  lemma AdmissionOutlives(calls: seq<Call>, call: Call, c: Cell<set<nat>>, admitted: set<nat>, window: nat,
                          limit: int, d: nat, x: nat)
    requires Lagged(calls + [call], d) && Retains(calls, c, admitted, window, limit) && x in admitted
    requires x !in Kept(Live(c, call), call.now, window)
    ensures Outlived(Kept(Live(c, call), call.now, window) + {call.now}, x, window)
  {
    var kept := Kept(Live(c, call), call.now, window);
    if x in c.value {
      UnseenIsOld(calls, call, c, admitted, window, limit, d, x);
      assert call.now in kept + {call.now};
    } else {
      var y :| y in c.value && x + MILLIS * window <= y;
      if y !in kept {
        UnseenIsOld(calls, call, c, admitted, window, limit, d, y);
        assert call.now in kept + {call.now};
      }
    }
  }

  lemma AllOutlived(calls: seq<Call>, call: Call, c: Cell<set<nat>>, kept: set<nat>, admitted: set<nat>,
                    window: nat, limit: int, d: nat)
    requires Lagged(calls + [call], d) && Retains(calls, c, admitted, window, limit)
    requires kept == Kept(Live(c, call), call.now, window)
    ensures forall x :: x in admitted && x !in kept ==> Outlived(kept + {call.now}, x, window)
  {
    forall x | x in admitted && x !in kept ensures Outlived(kept + {call.now}, x, window) {
      AdmissionOutlives(calls, call, c, admitted, window, limit, d, x);
    }
  }

  lemma AdmissionRetains(calls: seq<Call>, call: Call, c: Cell<set<nat>>, kept: set<nat>, admitted: set<nat>,
                         window: nat, limit: int, d: nat)
    requires Lagged(calls + [call], d) && Retains(calls, c, admitted, window, limit)
    requires kept == Kept(Live(c, call), call.now, window) && |kept| < limit
    ensures Retains(calls + [call], Cell(kept + {call.now}, After(call.clock, window + 1)), admitted + {call.now},
                    window, limit)
  {
    PlusOne(kept, call.now);
    ExpiryRenewed(calls, call, c, Cell(kept + {call.now}, After(call.clock, window + 1)), admitted, window);
    AllOutlived(calls, call, c, kept, admitted, window, limit, d);
  }

  lemma RejectionRetains(calls: seq<Call>, call: Call, c: Cell<set<nat>>, admitted: set<nat>, window: nat, limit: int)
    requires Retains(calls, c, admitted, window, limit)
    ensures Retains(calls + [call], c, admitted, window, limit)
  {
    if admitted != {} {
      ExpiryKept(calls, call, c, admitted, window);
    }
  }

  lemma StepRetains(calls: seq<Call>, call: Call, c: Cell<set<nat>>, admitted: set<nat>, window: nat,
                    limit: int, d: nat)
    requires Lagged(calls + [call], d) && Retains(calls, c, admitted, window, limit)
    ensures var (c', verdict) := Script(c, call, window, limit);
            Retains(calls + [call], c', admitted + if verdict.allowed then {call.now} else {}, window, limit)
  {
    var kept := Kept(Live(c, call), call.now, window);
    if |kept| < limit {
      AdmissionRetains(calls, call, c, kept, admitted, window, limit, d);
    } else {
      RejectionLosesNothing(calls, call, c, admitted, window, limit);
      RejectionRetains(calls, call, c, admitted, window, limit);
      assert Script(c, call, window, limit) == (c, Verdict(false, 0)) && admitted + {} == admitted;
    }
  }

  lemma {:induction false} RunRetains(calls: seq<Call>, window: nat, limit: int, d: nat)
    requires Lagged(calls, d)
    ensures Retains(calls, StateAfter(calls, window, limit), Admitted(calls, window, limit), window, limit)
  {
    if calls != [] {
      var n := |calls| - 1;
      var prefix, call := calls[..n], calls[n];
      assert calls == prefix + [call];
      assert Lagged(prefix, d) by { LaggedPrefix(calls, d); }
      RunRetains(prefix, window, limit, d);
      StepRetains(prefix, call, StateAfter(prefix, window, limit), Admitted(prefix, window, limit), window, limit, d);
    }
  }

  lemma LaggedPrefix(calls: seq<Call>, d: nat)
    requires Lagged(calls, d) && calls != []
    ensures Lagged(calls[..|calls| - 1], d)
  {
    var prefix := calls[..|calls| - 1];
    forall i, l, j | 0 <= i <= l < j < |prefix|
      ensures (prefix[j].clock - prefix[l].clock) - (prefix[j].now - prefix[i].now) <= MILLIS
    {
      assert prefix[i] == calls[i] && prefix[l] == calls[l] && prefix[j] == calls[j];
    }
  }

  // ---------------------------------------------------------------- the window bounds

  /** A stamp that lies in the interval but that the script does not see has a stored one after the interval. */
  lemma LostInside(calls: seq<Call>, call: Call, c: Cell<set<nat>>, admitted: set<nat>, window: nat, limit: int,
                   d: nat, x: nat) returns (y: nat)
    requires Lagged(calls + [call], d) && Retains(calls, c, admitted, window, limit) && x in admitted
    requires x !in Kept(Live(c, call), call.now, window) && call.now - MILLIS * window < x
    ensures y in Kept(Live(c, call), call.now, window) && x + MILLIS * window <= y <= call.now + d
  {
    if x in c.value {
      UnseenIsOld(calls, call, c, admitted, window, limit, d, x);
    }
    y :| y in c.value && x + MILLIS * window <= y;
    if y !in Kept(Live(c, call), call.now, window) {
      UnseenIsOld(calls, call, c, admitted, window, limit, d, y);
    }
    var l :| SetToExpire(calls, l, c, admitted, window);
    assert Stamped(calls, l, y);
    var i :| 0 <= i <= l && calls[i].now == y;
    assert (calls + [call])[i].now == y && (calls + [call])[|calls|] == call;
  }

  /** The intervals that reordering cannot overfill: shorter than the window by `d`, or any under a limit of one. */
  ghost predicate Fits(window: nat, limit: int, d: nat, span: int) {
    span <= MILLIS * window - if limit <= 1 then 0 else d
  }

  lemma AdmissionShort(calls: seq<Call>, call: Call, c: Cell<set<nat>>, kept: set<nat>, admitted: set<nat>,
                       window: nat, limit: int, d: nat, a: int, span: int)
    requires Lagged(calls + [call], d) && Retains(calls, c, admitted, window, limit) && Fits(window, limit, d, span)
    requires kept == Kept(Live(c, call), call.now, window) && |kept| < limit && a < call.now <= a + span
    ensures |Within(admitted + {call.now}, a, span)| <= limit
  {
    var inside := Within(admitted + {call.now}, a, span);
    forall x | x in inside - {call.now} ensures x in kept {
      if x !in kept {
        var y := LostInside(calls, call, c, admitted, window, limit, d, x);
        SubsetCard({y}, kept);
      }
    }
    PlusOne(kept, call.now);
    SubsetCard(inside, kept + {call.now});
  }

  lemma StepShort(calls: seq<Call>, call: Call, c: Cell<set<nat>>, admitted: set<nat>, grown: set<nat>,
                  window: nat, limit: int, d: nat, a: int, span: int)
    requires Lagged(calls + [call], d) && Retains(calls, c, admitted, window, limit) && Fits(window, limit, d, span)
    requires grown == admitted + if Script(c, call, window, limit).1.allowed then {call.now} else {}
    requires |Within(admitted, a, span)| <= Cap(limit)
    ensures |Within(grown, a, span)| <= Cap(limit)
  {
    if Script(c, call, window, limit).1.allowed && a < call.now <= a + span {
      AdmissionShort(calls, call, c, Kept(Live(c, call), call.now, window), admitted, window, limit, d, a, span);
    } else {
      assert Within(grown, a, span) == Within(admitted, a, span);
    }
  }

  lemma StepEverySpan(calls: seq<Call>, call: Call, c: Cell<set<nat>>, admitted: set<nat>, grown: set<nat>,
                      window: nat, limit: int, d: nat, span: int)
    requires Lagged(calls + [call], d) && Retains(calls, c, admitted, window, limit) && Fits(window, limit, d, span)
    requires grown == admitted + if Script(c, call, window, limit).1.allowed then {call.now} else {}
    requires EverySpan(admitted, span, Cap(limit))
    ensures EverySpan(grown, span, Cap(limit))
  {
    forall a: int ensures |Within(grown, a, span)| <= Cap(limit) {
      assert |Within(admitted, a, span)| <= Cap(limit);
      StepShort(calls, call, c, admitted, grown, window, limit, d, a, span);
    }
  }

  lemma {:induction false} WindowShort(calls: seq<Call>, window: nat, limit: int, d: nat, span: int)
    requires Lagged(calls, d) && Fits(window, limit, d, span)
    ensures EverySpan(Admitted(calls, window, limit), span, Cap(limit))
  {
    if calls == [] {
      forall a: int ensures |Within(Admitted(calls, window, limit), a, span)| <= Cap(limit) {
        assert Within(Admitted(calls, window, limit), a, span) == {};
      }
    } else {
      var prefix, call := calls[..|calls| - 1], calls[|calls| - 1];
      assert calls == prefix + [call];
      LaggedPrefix(calls, d);
      WindowShort(prefix, window, limit, d, span);
      RunRetains(prefix, window, limit, d);
      Extend(prefix, call, window, limit);
      StepEverySpan(prefix, call, StateAfter(prefix, window, limit), Admitted(prefix, window, limit),
                    Admitted(calls, window, limit), window, limit, d, span);
    }
  }

  lemma StackShort(calls: seq<Call>, window: nat, limit: int, d: nat, span: int, a: int, k: nat)
    requires Lagged(calls, d) && Fits(window, limit, d, span)
    ensures |Within(Admitted(calls, window, limit), a, k * span)| <= k * Cap(limit)
  {
    WindowShort(calls, window, limit, d, span);
    Stack(Admitted(calls, window, limit), a, span, Cap(limit), k);
  }

  /** With stamps that go back by at most `d`, every `k` intervals of the window less `d`, wherever they start,
      hold at most `k * limit` admitted stamps.  With ordered stamps that is every `k` windows. */
  lemma WindowSafety(calls: seq<Call>, window: nat, limit: int, d: nat, a: int, k: nat)
    requires Reordered(calls, d) || Received(calls, d)
    ensures |Within(Admitted(calls, window, limit), a, k * (MILLIS * window - d))| <= k * Cap(limit)
  {
    LaggedIf(calls, d);
    StackShort(calls, window, limit, d, MILLIS * window - d, a, k);
  }

  /** With nothing known of the order of the stamps but what the clocks force, a second is all that is lost. */
  lemma ClocksAlone(calls: seq<Call>, window: nat, limit: int, a: int, k: nat)
    requires forall i, j :: 0 <= i < j < |calls| ==>
               calls[i].clock <= calls[j].clock && Offset(calls[j]) - Offset(calls[i]) <= MILLIS
    ensures |Within(Admitted(calls, window, limit), a, k * (MILLIS * window - MILLIS))| <= k * Cap(limit)
  {
    assert Received(calls, MILLIS);
    WindowSafety(calls, window, limit, MILLIS, a, k);
  }
}
