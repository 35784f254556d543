/** Redis sorted sets whose members are their own scores: strictly ascending sequences. */
module SortedSet {

  predicate Ascending(s: seq<nat>) {
    forall i, j :: 0 <= i < j < |s| ==> s[i] < s[j]
  }

  type Zset = s: seq<nat> | Ascending(s) witness []

  ghost function Elements(s: seq<nat>): set<nat> {
    set x | x in s
  }

  /** ZADD of a member equal to its score: a second ZADD of the same member changes nothing. */
  function Add(s: seq<nat>, v: nat): (r: seq<nat>)
    requires Ascending(s)
    ensures Ascending(r)
    ensures forall x :: x in r <==> x in s || x == v
    ensures if v in s then r == s else |r| == |s| + 1
  {
    if s == [] then [v]
    else
      var last := |s| - 1;
      if s[last] < v then s + [v]
      else if s[last] == v then s
      else
        var r := Add(s[..last], v);
        assert s == s[..last] + [s[last]];
        assert forall i :: 0 <= i < |r| ==> r[i] in r && r[i] < s[last];
        r + [s[last]]
  }

  /** ZREMRANGEBYSCORE: drops the scores in `[lo, hi]`. */
  function RemoveScores(s: seq<nat>, lo: int, hi: int): (r: seq<nat>)
    requires Ascending(s)
    ensures Ascending(r)
    ensures forall x :: x in r <==> x in s && !(lo <= x <= hi)
  {
    if s == [] then []
    else
      var last := |s| - 1;
      var r := RemoveScores(s[..last], lo, hi);
      assert s == s[..last] + [s[last]];
      assert forall i :: 0 <= i < |r| ==> r[i] in r;
      if lo <= s[last] <= hi then r else r + [s[last]]
  }

  /** ZREMRANGEBYRANK: drops ranks `start..stop`, a negative rank counting from the top. */
  function RemoveRanks(s: Zset, start: int, stop: int): Zset {
    var from := if start < 0 then |s| + start else start;
    var upto := if stop < 0 then |s| + stop else stop;
    var lo := if from < 0 then 0 else from;
    var hi := if upto >= |s| then |s| - 1 else upto;
    if lo > hi then s else s[..lo] + s[hi + 1..]
  }

  lemma {:induction false} Cardinality(s: seq<nat>)
    requires Ascending(s)
    ensures |Elements(s)| == |s|
  {
    if s == [] {
    } else {
      var last := |s| - 1;
      Cardinality(s[..last]);
      assert s == s[..last] + [s[last]];
      assert Elements(s) == Elements(s[..last]) + {s[last]};
    }
  }
}
