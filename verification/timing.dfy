/** The timing samples of a client: a sorted set of stamps trimmed to the newest ones, and the
    deviation of its gaps. */
module Timing {
  import opened Redis
  import opened SortedSet
  import opened Deviation

  const SAMPLE_SECONDS: int := 3600

  /** One recording: the gateway's stamp and the Redis clock of the pipeline that stores it. */
  datatype Recording = Recording(clock: int, stamp: nat)

  /** ZADD, then ZREMRANGEBYRANK from rank zero to -(max_samples + 1). */
  function AddSample(live: Zset, stamp: nat, maxSamples: int): Zset {
    RemoveRanks(Add(live, stamp), 0, -(maxSamples + 1))
  }

  /** The stored samples of a client as a reader at `t` finds them. */
  function LiveSamples(m: map<string, Cell<Zset>>, client: string, t: int): Zset {
    var s := Read(m, client, t);
    if s.Some? then s.value else []
  }

  /** ZADD, trim and EXPIRE; trimming everything away deletes the key. */
  function StoreSample(m: map<string, Cell<Zset>>, client: string, r: Recording, maxSamples: int)
    : map<string, Cell<Zset>>
  {
    var s := AddSample(LiveSamples(m, client, r.clock), r.stamp, maxSamples);
    if s == [] then map k | k in m && k != client :: m[k]
    else m[client := Cell(s, After(r.clock, SAMPLE_SECONDS))]
  }

  /** A reader at the instant of the recording finds the trimmed addition. */
  lemma StoredAtOnce(m: map<string, Cell<Zset>>, client: string, r: Recording, maxSamples: int)
    ensures LiveSamples(StoreSample(m, client, r, maxSamples), client, r.clock)
         == AddSample(LiveSamples(m, client, r.clock), r.stamp, maxSamples)
  {
  }

  /** The samples stored after a run of recordings; an expired key restarts empty. */
  function Samples(recs: seq<Recording>, maxSamples: int): Cell<Zset> {
    if recs == [] then Cell([], 0)
    else
      var before, r := Samples(recs[..|recs| - 1], maxSamples), recs[|recs| - 1];
      Cell(AddSample(if r.clock < before.deadline then before.value else [], r.stamp, maxSamples),
           After(r.clock, SAMPLE_SECONDS))
  }

  // ---------------------------------------------------------------- streaming top-k

  /** The stamps recorded since the key last expired: since the last pause of at least its time to live. */
  function Life(recs: seq<Recording>): seq<nat> {
    if recs == [] then []
    else
      var n := |recs| - 1;
      (if n > 0 && recs[n].clock < After(recs[n - 1].clock, SAMPLE_SECONDS) then Life(recs[..n]) else [])
      + [recs[n].stamp]
  }

  /** `kept` lists in order the `k` largest distinct members of `all`, or all of them if there are fewer. */
  ghost predicate IsTop(kept: seq<nat>, all: seq<nat>, k: nat) {
    && Ascending(kept) && |kept| <= k
    && (forall x :: x in kept ==> x in all)
    && (forall x :: x in all && x !in kept ==> |kept| == k)
    && (forall x, y :: x in all && x !in kept && y in kept ==> x < y)
  }

  lemma TrimIsTop(s: Zset, k: nat)
    requires |s| <= k + 1
    ensures RemoveRanks(s, 0, -(k + 1)) == if |s| <= k then s else s[1..]
  {
  }

  lemma WithoutLowest(s: seq<nat>)
    requires Ascending(s) && s != []
    ensures Ascending(s[1..])
    ensures forall x :: x in s[1..] <==> x in s && x != s[0]
    ensures forall x :: x in s[1..] ==> s[0] < x
  {
    assert s == [s[0]] + s[1..];
  }

  lemma AddSampleTrims(s: Zset, v: nat, grown: Zset, k: nat)
    requires grown == Add(s, v) && |grown| <= k + 1
    ensures AddSample(s, v, k) == if |grown| <= k then grown else grown[1..]
  {
    TrimIsTop(grown, k);
  }

  lemma AddSampleMembers(s: Zset, v: nat, k: nat)
    requires |s| <= k
    ensures var grown, r := Add(s, v), AddSample(s, v, k);
            if |grown| <= k then r == grown
            else |s| == k && v !in s && r == grown[1..]
  {
    AddSampleTrims(s, v, Add(s, v), k);
  }

  lemma IsTopStep(kept: seq<nat>, all: seq<nat>, v: nat, k: nat)
    requires IsTop(kept, all, k)
    ensures IsTop(AddSample(kept, v, k), all + [v], k)
  {
    AddSampleMembers(kept, v, k);
    var grown := Add(kept, v);
    if |grown| > k {
      WithoutLowest(grown);
      assert grown[0] in grown;
    }
  }

  /** The stored samples are exactly the `maxSamples` largest distinct stamps recorded since the key
      last expired, whatever the order of the stamps and however often they repeat. */
  lemma {:induction false} StreamingTopK(recs: seq<Recording>, maxSamples: nat)
    requires recs != []
    ensures IsTop(Samples(recs, maxSamples).value, Life(recs), maxSamples)
  {
    var n := |recs| - 1;
    if n > 0 && recs[n].clock < After(recs[n - 1].clock, SAMPLE_SECONDS) {
      StreamingTopK(recs[..n], maxSamples);
      IsTopStep(Samples(recs[..n], maxSamples).value, Life(recs[..n]), recs[n].stamp, maxSamples);
    } else {
      IsTopStep([], [], recs[n].stamp, maxSamples);
    }
  }

  lemma {:induction false} LifeIsRecorded(recs: seq<Recording>, x: nat)
    requires x in Life(recs)
    ensures exists i :: 0 <= i < |recs| && recs[i].stamp == x
  {
    var n := |recs| - 1;
    if x != recs[n].stamp {
      LifeIsRecorded(recs[..n], x);
      var i :| 0 <= i < n && recs[..n][i].stamp == x;
      assert recs[i].stamp == x;
    }
  }

  // ---------------------------------------------------------------- the deviation of the gaps

  function Gaps(s: seq<nat>): (g: seq<int>)
    requires s != []
    ensures |g| == |s| - 1 && forall i :: 0 <= i < |g| ==> g[i] == s[i + 1] as int - s[i] as int
  {
    seq(|s| - 1, i requires 0 <= i < |s| - 1 => s[i + 1] as int - s[i] as int)
  }

  /** The deviation of the gaps; none with fewer than three samples. */
  function TimingEntropy(s: seq<nat>): Option<Entropy> {
    if |s| < 3 then None else Some(Measure(Gaps(s)))
  }

  /** The differences of consecutive stamps, all of them and in order. */
  ghost predicate AreGaps(g: seq<int>, s: seq<nat>) {
    |g| + 1 == |s| && forall i :: 0 <= i < |g| ==> g[i] == s[i + 1] as int - s[i] as int
  }

  /** The measure of the samples is below a threshold exactly when the sample standard deviation of all their gaps
      is, and below the halved threshold exactly when that is below half of it. */
  lemma EntropyIsDeviation(s: seq<nat>, g: seq<int>, stdev: real, th: Threshold)
    requires AreGaps(g, s) && IsStdev(stdev, g) && th.den >= 1
    ensures var e := TimingEntropy(s);
            && e.Some?
            && (Below(e.value, th) <==> stdev < th.num as real / th.den as real)
            && (Below(e.value, Half(th)) <==> stdev < th.num as real / th.den as real * 0.5)
  {
    assert g == Gaps(s);
    BelowIsStdevBelow(g, stdev, th);
    HalfIsHalf(g, stdev, th);
  }

  /** The comparisons with a threshold are those of the deviation of all gaps of the samples. */
  ghost predicate Deviates(e: Entropy, s: seq<nat>, th: Threshold)
    requires th.den >= 1
  {
    forall g: seq<int>, stdev: real :: AreGaps(g, s) && IsStdev(stdev, g) ==>
      && (Below(e, th) <==> stdev < th.num as real / th.den as real)
      && (Below(e, Half(th)) <==> stdev < th.num as real / th.den as real * 0.5)
  }

  lemma EntropyDeviates(s: seq<nat>, th: Threshold)
    requires |s| >= 3 && th.den >= 1
    ensures Deviates(TimingEntropy(s).value, s, th)
  {
    forall g: seq<int>, stdev: real | AreGaps(g, s) && IsStdev(stdev, g)
      ensures Below(TimingEntropy(s).value, th) <==> stdev < th.num as real / th.den as real
      ensures Below(TimingEntropy(s).value, Half(th)) <==> stdev < th.num as real / th.den as real * 0.5
    {
      EntropyIsDeviation(s, g, stdev, th);
    }
  }

  // ---------------------------------------------------------------- periodic clients

  /** Nothing from before the h-th recording is left when it is stored. */
  ghost predicate FreshAt(recs: seq<Recording>, h: nat)
    requires h < |recs|
  {
    h == 0 || recs[h].clock >= After(recs[h - 1].clock, SAMPLE_SECONDS)
  }

  /** From its h-th recording on the client comes with a constant period, never letting the key expire,
      and every earlier stamp that may still be stored is smaller. */
  ghost predicate PeriodicFrom(recs: seq<Recording>, h: nat, period: nat) {
    && h < |recs| && period >= 1
    && (forall i, j :: h <= i < j < |recs| && j == i + 1 ==>
         && recs[j].stamp == recs[i].stamp + period
         && recs[j].clock < After(recs[i].clock, SAMPLE_SECONDS))
    && (FreshAt(recs, h) || forall i :: 0 <= i < h ==> recs[i].stamp < recs[h].stamp)
  }

  function Min(a: nat, b: nat): nat {
    if a < b then a else b
  }

  /** The samples end in the last `k` recorded stamps. */
  ghost predicate EndsIn(s: seq<nat>, recs: seq<Recording>, k: nat) {
    && k <= |s| && k <= |recs|
    && forall i :: |recs| - k <= i < |recs| ==> s[i - |recs| + |s|] == recs[i].stamp
  }

  lemma AddHighest(s: Zset, v: nat)
    requires forall i :: 0 <= i < |s| ==> s[i] < v
    ensures Add(s, v) == s + [v]
  {
  }

  lemma AddNewest(s: Zset, v: nat, k: nat)
    requires |s| <= k && k >= 1 && forall i :: 0 <= i < |s| ==> s[i] < v
    ensures AddSample(s, v, k) == if |s| < k then s + [v] else s[1..] + [v]
  {
    AddHighest(s, v);
    AddSampleTrims(s, v, s + [v], k);
    if |s| == k {
      assert (s + [v])[1..] == s[1..] + [v];
    }
  }

  /** Appending the newest recording, with or without dropping the oldest sample, keeps the end in step. */
  lemma EndsInStep(live: seq<nat>, s: seq<nat>, recs: seq<Recording>, k: nat, k': nat)
    requires recs != [] && EndsIn(live, recs[..|recs| - 1], k) && k' <= k + 1 && k' <= |s|
    requires s == live + [recs[|recs| - 1].stamp] || (live != [] && s == live[1..] + [recs[|recs| - 1].stamp])
    ensures EndsIn(s, recs, k')
  {
    forall i | |recs| - k' <= i < |recs| ensures s[i - |recs| + |s|] == recs[i].stamp {
      if i < |recs| - 1 {
        assert recs[..|recs| - 1][i] == recs[i];
      }
    }
  }

  /** One periodic recording: it is newer than everything stored. */
  lemma TailStep(live: Zset, recs: seq<Recording>, k: nat, maxSamples: nat)
    requires recs != [] && |live| <= maxSamples && maxSamples >= 1
    requires EndsIn(live, recs[..|recs| - 1], k) && k <= maxSamples
    requires forall i :: 0 <= i < |live| ==> live[i] < recs[|recs| - 1].stamp
    ensures var s := AddSample(live, recs[|recs| - 1].stamp, maxSamples);
            && |s| == Min(|live| + 1, maxSamples)
            && EndsIn(s, recs, Min(k + 1, maxSamples))
            && (forall i :: 0 <= i < |s| ==> s[i] <= recs[|recs| - 1].stamp)
  {
    AddNewest(live, recs[|recs| - 1].stamp, maxSamples);
    EndsInStep(live, AddSample(live, recs[|recs| - 1].stamp, maxSamples), recs, k, Min(k + 1, maxSamples));
  }

  lemma SamplesBeforeAreSmaller(recs: seq<Recording>, v: nat, maxSamples: nat)
    requires forall i :: 0 <= i < |recs| ==> recs[i].stamp < v
    ensures |Samples(recs, maxSamples).value| <= maxSamples
    ensures var s := Samples(recs, maxSamples).value; forall i :: 0 <= i < |s| ==> s[i] < v
  {
    if recs != [] {
      StreamingTopK(recs, maxSamples);
      var s := Samples(recs, maxSamples).value;
      forall i | 0 <= i < |s| ensures s[i] < v {
        assert s[i] in s;
        LifeIsRecorded(recs, s[i]);
      }
    }
  }

  lemma PeriodicPrefix(recs: seq<Recording>, h: nat, period: nat)
    requires PeriodicFrom(recs, h, period) && h < |recs| - 1
    ensures PeriodicFrom(recs[..|recs| - 1], h, period)
    ensures FreshAt(recs, h) ==> FreshAt(recs[..|recs| - 1], h)
  {
  }

  lemma SamplesDeadline(recs: seq<Recording>, maxSamples: int)
    requires recs != []
    ensures Samples(recs, maxSamples).deadline == After(recs[|recs| - 1].clock, SAMPLE_SECONDS)
  {
  }

  lemma SamplesNext(recs: seq<Recording>, maxSamples: int)
    requires |recs| >= 2 && recs[|recs| - 1].clock < After(recs[|recs| - 2].clock, SAMPLE_SECONDS)
    ensures var before := Samples(recs[..|recs| - 1], maxSamples).value;
            Samples(recs, maxSamples).value == AddSample(before, recs[|recs| - 1].stamp, maxSamples)
  {
    SamplesDeadline(recs[..|recs| - 1], maxSamples);
  }

  lemma SamplesFirst(recs: seq<Recording>, h: nat, maxSamples: nat)
    requires h == |recs| - 1
    ensures var before, r := Samples(recs[..h], maxSamples), recs[h];
            var live := if r.clock < before.deadline then before.value else [];
            && Samples(recs, maxSamples).value == AddSample(live, r.stamp, maxSamples)
            && (FreshAt(recs, h) ==> live == [])
  {
  }

  /** What is known of the samples `s` stored after a run that is periodic from its h-th recording on. */
  ghost predicate Tail(s: seq<nat>, recs: seq<Recording>, h: nat, maxSamples: nat)
    requires h < |recs|
  {
    var n := |recs| - h;
    && |s| <= maxSamples
    && EndsIn(s, recs, Min(n, maxSamples))
    && (FreshAt(recs, h) ==> |s| == Min(n, maxSamples))
    && (forall i :: 0 <= i < |s| ==> s[i] <= recs[|recs| - 1].stamp)
  }

  lemma TailStart(live: Zset, recs: seq<Recording>, maxSamples: nat)
    requires recs != [] && maxSamples >= 1 && |live| <= maxSamples
    requires FreshAt(recs, |recs| - 1) ==> live == []
    requires forall i :: 0 <= i < |live| ==> live[i] < recs[|recs| - 1].stamp
    ensures Tail(AddSample(live, recs[|recs| - 1].stamp, maxSamples), recs, |recs| - 1, maxSamples)
  {
    TailStep(live, recs, 0, maxSamples);
  }

  lemma PeriodicHead(recs: seq<Recording>, period: nat, maxSamples: nat)
    requires recs != [] && PeriodicFrom(recs, |recs| - 1, period) && maxSamples >= 1
    ensures Tail(Samples(recs, maxSamples).value, recs, |recs| - 1, maxSamples)
  {
    var h := |recs| - 1;
    var before := Samples(recs[..h], maxSamples);
    var live: Zset := if recs[h].clock < before.deadline then before.value else [];
    if !FreshAt(recs, h) {
      SamplesBeforeAreSmaller(recs[..h], recs[h].stamp, maxSamples);
    }
    SamplesFirst(recs, h, maxSamples);
    TailStart(live, recs, maxSamples);
  }

  lemma TailNext(s: Zset, recs: seq<Recording>, h: nat, maxSamples: nat)
    requires maxSamples >= 1 && h < |recs| - 1
    requires recs[|recs| - 2].stamp < recs[|recs| - 1].stamp
    requires FreshAt(recs, h) ==> FreshAt(recs[..|recs| - 1], h)
    requires Tail(s, recs[..|recs| - 1], h, maxSamples)
    ensures Tail(AddSample(s, recs[|recs| - 1].stamp, maxSamples), recs, h, maxSamples)
  {
    TailStep(s, recs, Min(|recs| - 1 - h, maxSamples), maxSamples);
  }

  lemma PeriodicNext(recs: seq<Recording>, h: nat, period: nat, maxSamples: nat)
    requires PeriodicFrom(recs, h, period) && maxSamples >= 1 && h < |recs| - 1
    requires Tail(Samples(recs[..|recs| - 1], maxSamples).value, recs[..|recs| - 1], h, maxSamples)
    ensures Tail(Samples(recs, maxSamples).value, recs, h, maxSamples)
  {
    PeriodicPrefix(recs, h, period);
    SamplesNext(recs, maxSamples);
    TailNext(Samples(recs[..|recs| - 1], maxSamples).value, recs, h, maxSamples);
  }

  lemma {:induction false} PeriodicTail(recs: seq<Recording>, h: nat, period: nat, maxSamples: nat)
    requires PeriodicFrom(recs, h, period) && maxSamples >= 1
    ensures Tail(Samples(recs, maxSamples).value, recs, h, maxSamples)
  {
    if |recs| - 1 == h {
      PeriodicHead(recs, period, maxSamples);
    } else {
      PeriodicPrefix(recs, h, period);
      PeriodicTail(recs[..|recs| - 1], h, period, maxSamples);
      PeriodicNext(recs, h, period, maxSamples);
    }
  }

  lemma EvenlySpaced(s: seq<nat>, recs: seq<Recording>, h: nat, period: nat)
    requires PeriodicFrom(recs, h, period) && EndsIn(s, recs, |s|) && 2 <= |s| <= |recs| - h
    ensures forall i :: 0 <= i < |s| - 1 ==> Gaps(s)[i] == period
  {
    forall i | 0 <= i < |s| - 1 ensures Gaps(s)[i] == period {
      var j := i + |recs| - |s|;
      assert s[j - |recs| + |s|] == recs[j].stamp;
      assert s[j + 1 - |recs| + |s|] == recs[j + 1].stamp;
    }
  }

  /** A client that has turned periodic shows perfectly even gaps: from its third periodic request on if
      nothing older is stored, and after any history from its `maxSamples`-th periodic request on. */
  lemma PeriodicIsEven(recs: seq<Recording>, h: nat, period: nat, maxSamples: nat)
    requires PeriodicFrom(recs, h, period) && maxSamples >= 3 && |recs| - h >= 3
    requires FreshAt(recs, h) || |recs| - h >= maxSamples
    ensures var s := Samples(recs, maxSamples).value;
            |s| >= 3 && Even(Gaps(s)) && (forall i :: 0 <= i < |s| - 1 ==> Gaps(s)[i] == period)
  {
    PeriodicTail(recs, h, period, maxSamples);
    EvenlySpaced(Samples(recs, maxSamples).value, recs, h, period);
  }
}
