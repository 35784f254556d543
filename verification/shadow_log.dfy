/** The shadow log and its statistics. */
module ShadowLog {
  import opened Redis

  const SHADOW_LOG_TTL: int := 86400

  /** A value as the aggregation sees it: a key that expired after the scan reads as none. */
  type Values = seq<Option<Raw>>

  /** The values of the listed keys, read in one batch. */
  function ReadAll(log: map<string, Cell<Raw>>, keys: seq<string>, t: int): (values: Values)
    ensures |values| == |keys| && forall i :: 0 <= i < |keys| ==> values[i] == Read(log, keys[i], t)
  {
    seq(|keys|, i requires 0 <= i < |keys| => Read(log, keys[i], t))
  }

  predicate Counts(v: Option<Raw>) {
    v.Some? && v.value.Event?
  }

  /** The rule an event is counted under. */
  function RuleOf(v: Option<Raw>): string
    requires Counts(v)
  {
    if v.value.rule.Some? then v.value.rule.value else "unknown"
  }

  function Tally(values: Values, rule: string): nat {
    if values == [] then 0
    else
      var v := values[|values| - 1];
      Tally(values[..|values| - 1], rule) + (if Counts(v) && RuleOf(v) == rule then 1 else 0)
  }

  function EventCount(values: Values): nat {
    if values == [] then 0
    else EventCount(values[..|values| - 1]) + (if Counts(values[|values| - 1]) then 1 else 0)
  }

  /** The positions of the events of a rule: those that carry it, and those without any under "unknown". */
  ghost function Positions(values: Values, rule: string): set<nat> {
    set i: nat | i < |values| && OfRule(values[i], rule)
  }

  ghost predicate OfRule(v: Option<Raw>, rule: string) {
    v == Some(Raw.Event(Some(rule))) || (v == Some(Raw.Event(None)) && rule == "unknown")
  }

  /** A rule's tally is the number of the listed values that are events of it. */
  lemma {:induction false} TallyIsCount(values: Values, rule: string)
    ensures Tally(values, rule) == |Positions(values, rule)|
  {
    if values == [] {
      assert Positions(values, rule) == {};
    } else {
      var last: nat := |values| - 1;
      TallyIsCount(values[..last], rule);
      assert Positions(values, rule)
          == Positions(values[..last], rule) + if OfRule(values[last], rule) then {last} else {};
    }
  }

  /** And the number of events is that of the listed values that are neither expired nor garbled. */
  lemma {:induction false} EventsAreCount(values: Values)
    ensures EventCount(values) == |set i: nat | i < |values| && values[i].Some? && values[i].value.Event?|
  {
    if values == [] {
    } else {
      var last: nat := |values| - 1;
      EventsAreCount(values[..last]);
      assert (set i: nat | i < |values| && values[i].Some? && values[i].value.Event?)
          == (set i: nat | i < last && values[..last][i].Some? && values[..last][i].value.Event?)
             + if values[last].Some? && values[last].value.Event? then {last} else {};
    }
  }

  /** The sum of a dictionary's values. */
  ghost function Total(m: map<string, nat>): nat {
    if m == map[] then 0
    else
      var k :| k in m;
      m[k] + Total(m - {k})
  }

  /** The sum does not depend on the order in which the keys are taken. */
  lemma {:induction false} TotalWithout(m: map<string, nat>, k: string)
    requires k in m
    ensures Total(m) == m[k] + Total(m - {k})
  {
    var j :| j in m && Total(m) == m[j] + Total(m - {j});
    if j != k {
      TotalWithout(m - {j}, k);
      TotalWithout(m - {k}, j);
      assert m - {j} - {k} == m - {k} - {j};
    }
  }

  lemma TotalUpdate(m: map<string, nat>, k: string, v: nat)
    ensures Total(m[k := v]) == Total(m) + v - if k in m then m[k] else 0
  {
    TotalWithout(m[k := v], k);
    if k in m {
      TotalWithout(m, k);
      assert m[k := v] - {k} == m - {k};
    } else {
      assert m[k := v] - {k} == m;
    }
  }

  /** A rule's count in the dictionary, zero if it has none. */
  function Get(m: map<string, nat>, rule: string): nat {
    if rule in m then m[rule] else 0
  }

  /** The aggregation loop: `total` is the sum of the per-rule counts, and each of them is exactly the number
      of events. */
  method Aggregate(values: Values) returns (total: nat, byRule: map<string, nat>)
    ensures total == EventCount(values) == Total(byRule)
    ensures forall rule :: Get(byRule, rule) == Tally(values, rule)
    ensures forall rule :: rule in byRule ==> byRule[rule] >= 1
  {
    total, byRule := 0, map[];
    for i := 0 to |values|
      invariant total == EventCount(values[..i]) == Total(byRule)
      invariant forall rule :: Get(byRule, rule) == Tally(values[..i], rule)
      invariant forall rule :: rule in byRule ==> byRule[rule] >= 1
    {
      assert values[..i + 1][..i] == values[..i];
      if Counts(values[i]) {
        var rule := RuleOf(values[i]);
        TotalUpdate(byRule, rule, Get(byRule, rule) + 1);
        byRule := byRule[rule := Get(byRule, rule) + 1];
        total := total + 1;
      }
    }
    assert values[..|values|] == values;
  }

  class ShadowLogger {
    const redis: Store

    constructor (redis: Store)
      ensures this.redis == redis
    {
      this.redis := redis;
    }

    method LogShadowEvent(requestId: string, rule: string)
      modifies redis`shadowLog
      ensures redis.shadowLog
           == old(redis.shadowLog)[requestId := Cell(Raw.Event(Some(rule)), redis.clock + 86_400_000)]
    {
      redis.shadowLog := redis.shadowLog[requestId := Cell(Raw.Event(Some(rule)), After(redis.clock, SHADOW_LOG_TTL))];
    }

    /** Aggregates the keys a scan has listed. */
    method GetShadowStats(keys: seq<string>) returns (total: nat, byRule: map<string, nat>)
      ensures var values := ReadAll(redis.shadowLog, keys, redis.clock);
              && total == EventCount(values) == Total(byRule)
              && forall rule :: Get(byRule, rule) == Tally(values, rule)
    {
      if keys == [] {
        return 0, map[];
      }
      total, byRule := Aggregate(ReadAll(redis.shadowLog, keys, redis.clock));
    }
  }
}
