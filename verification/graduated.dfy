/** The graduated decision over the abuse signals, and the soft blocks it leaves in the store. */
module Graduated {
  import opened Redis
  import opened SortedSet
  import opened Deviation
  import opened Timing

  const SOFT_BLOCK_TTL: int := 300
  const THROTTLE_DELAY_SECONDS: int := 2

  datatype ClientState = Allowed | Throttled | SoftBlock | HardBlock

  datatype Reason =
    | NoReason
    | ExistingSoftBlock
    | IpFailures(count: nat)
    | UserFailures(count: nat)
    | VeryLowEntropy(entropy: Entropy)
    | ApproachingAuthThreshold
    | LowEntropy(entropy: Entropy)

  datatype Policy = Policy(ipThreshold: int, userThreshold: int, entropyThreshold: Threshold)

  /** The ratio of a count to its threshold is at least 0.7; a zero threshold has ratio zero. */
  predicate Approaching(count: nat, threshold: int) {
    threshold > 0 && 10 * count >= 7 * threshold
  }

  lemma RatioOfReals(c: real, t: real)
    requires t > 0.0
    ensures c / t >= 0.7 <==> c >= 0.7 * t
  {
    var r := c / t;
    assert t * r == c;
    ScaleReal(r, 0.7, t);
  }

  /** The integer test is the comparison of the ratio. */
  lemma RatioTest(count: nat, threshold: int)
    requires threshold > 0
    ensures count as real / threshold as real >= 0.7 <==> Approaching(count, threshold)
  {
    RatioOfReals(count as real, threshold as real);
    assert (10 * count) as real == 10.0 * count as real;
    assert (7 * threshold) as real == 7.0 * threshold as real;
  }

  /** The decision, given whether the IP is blocked already. */
  function Assess(blocked: bool, ipFails: nat, userFails: nat, entropy: Option<Entropy>, policy: Policy)
    : (ClientState, Reason)
  {
    var low := entropy.Some? && Below(entropy.value, policy.entropyThreshold);
    if blocked then (SoftBlock, ExistingSoftBlock)
    else if ipFails >= policy.ipThreshold then (SoftBlock, IpFailures(ipFails))
    else if userFails >= policy.userThreshold then (SoftBlock, UserFailures(userFails))
    else if low && Below(entropy.value, Half(policy.entropyThreshold)) then (SoftBlock, VeryLowEntropy(entropy.value))
    else if Approaching(ipFails, policy.ipThreshold) || Approaching(userFails, policy.userThreshold)
    then (Throttled, ApproachingAuthThreshold)
    else if low then (Throttled, LowEntropy(entropy.value))
    else (Allowed, NoReason)
  }

  /** The three reasons for which the decision itself sets the block. */
  predicate SetsBlock(reason: Reason) {
    reason.IpFailures? || reason.UserFailures? || reason.VeryLowEntropy?
  }

  /** They are those of a soft block that does not stand already. */
  lemma SetsBlockExactly(blocked: bool, ipFails: nat, userFails: nat, entropy: Option<Entropy>, policy: Policy)
    ensures var (state, reason) := Assess(blocked, ipFails, userFails, entropy, policy);
            SetsBlock(reason) <==> state == SoftBlock && !blocked
  {
  }

  function Severity(state: ClientState): nat {
    match state
    case Allowed => 0
    case Throttled => 1
    case SoftBlock => 2
    case HardBlock => 3
  }

  /** The second client is at least as suspicious on every signal. */
  ghost predicate AsSuspicious(e1: Option<Entropy>, e2: Option<Entropy>) {
    e1 == None || (e2.Some? && AtMostAs(e2.value, e1.value))
  }

  /** Graduation is monotone: more failures on either axis, more regular timing or an existing block never
      make the response milder, and an existing block makes it the hardest this decision gives. */
  lemma SeverityMonotone(b1: bool, b2: bool, i1: nat, i2: nat, u1: nat, u2: nat,
                         e1: Option<Entropy>, e2: Option<Entropy>, policy: Policy)
    requires (b1 ==> b2) && i1 <= i2 && u1 <= u2 && AsSuspicious(e1, e2)
    ensures Severity(Assess(b1, i1, u1, e1, policy).0) <= Severity(Assess(b2, i2, u2, e2, policy).0)
         <= Severity(Assess(true, i2, u2, e2, policy).0)
  {
    if e1.Some? {
      if Below(e1.value, policy.entropyThreshold) {
        BelowMonotone(e1.value, e2.value, policy.entropyThreshold);
      }
      if Below(e1.value, Half(policy.entropyThreshold)) {
        BelowMonotone(e1.value, e2.value, Half(policy.entropyThreshold));
      }
    }
  }

  /** One signal at its threshold; for the deviation, below half of it. */
  ghost predicate Conclusive(i: nat, u: nat, e: Option<Entropy>, policy: Policy) {
    i >= policy.ipThreshold || u >= policy.userThreshold || (e.Some? && Below(e.value, Half(policy.entropyThreshold)))
  }

  /** One signal near its threshold. */
  ghost predicate Elevated(i: nat, u: nat, e: Option<Entropy>, policy: Policy) {
    || 10 * i >= 7 * policy.ipThreshold
    || 10 * u >= 7 * policy.userThreshold
    || (e.Some? && Below(e.value, policy.entropyThreshold))
  }

  /** Every measured deviation has a spread that is not negative. */
  lemma EntropyIsProper(s: Zset)
    ensures TimingEntropy(s).Some? ==> TimingEntropy(s).value.spread >= 0
  {
    if |s| >= 3 {
      SpreadGap(Gaps(s));
    }
  }

  /** The block is what any one conclusive signal, or an earlier block, is enough for and nothing else causes;
      short of that an elevated signal throttles, and nothing else does. */
  lemma DecisionExactly(blocked: bool, i: nat, u: nat, s: Zset, policy: Policy)
    ensures var e := TimingEntropy(s);
            var state := Assess(blocked, i, u, e, policy).0;
            && (state == SoftBlock <==> blocked || Conclusive(i, u, e, policy))
            && (state == Throttled <==> !blocked && !Conclusive(i, u, e, policy) && Elevated(i, u, e, policy))
            && state != HardBlock
  {
    EntropyIsProper(s);
    var e := TimingEntropy(s);
    if e.Some? && Below(e.value, Half(policy.entropyThreshold)) {
      HalfIsBelow(e.value, policy.entropyThreshold);
    }
  }

  /** Which signal the reason names, and with which number: the first conclusive one in the order of the IP's
      failures, the username's and the deviation, and short of those the failures before the deviation. */
  lemma ReasonExactly(blocked: bool, i: nat, u: nat, s: Zset, policy: Policy)
    ensures var e := TimingEntropy(s);
            var reason := Assess(blocked, i, u, e, policy).1;
            var very := e.Some? && Below(e.value, Half(policy.entropyThreshold));
            var low := e.Some? && Below(e.value, policy.entropyThreshold);
            && (reason == ExistingSoftBlock <==> blocked)
            && (reason.IpFailures? <==> !blocked && i >= policy.ipThreshold)
            && (reason.IpFailures? ==> reason.count == i)
            && (reason.UserFailures? <==> !blocked && i < policy.ipThreshold && u >= policy.userThreshold)
            && (reason.UserFailures? ==> reason.count == u)
            && (reason.VeryLowEntropy? <==> !blocked && i < policy.ipThreshold && u < policy.userThreshold && very)
            && (reason.VeryLowEntropy? ==> e == Some(reason.entropy))
            && (reason == ApproachingAuthThreshold <==>
                 && !blocked && !Conclusive(i, u, e, policy)
                 && (10 * i >= 7 * policy.ipThreshold || 10 * u >= 7 * policy.userThreshold))
            && (reason.LowEntropy? <==>
                 && !blocked && !Conclusive(i, u, e, policy) && low
                 && 10 * i < 7 * policy.ipThreshold && 10 * u < 7 * policy.userThreshold)
            && (reason.LowEntropy? ==> e == Some(reason.entropy))
            && (reason == NoReason <==> !blocked && !Conclusive(i, u, e, policy) && !Elevated(i, u, e, policy))
  {
    DecisionExactly(blocked, i, u, s, policy);
  }

  lemma EvenIsBlocked(s: Zset, blocked: bool, ipFails: nat, userFails: nat, policy: Policy)
    requires |s| >= 3 && Even(Gaps(s)) && policy.entropyThreshold.num > 0
    ensures Assess(blocked, ipFails, userFails, TimingEntropy(s), policy).0 == SoftBlock
  {
    EvenIsBelow(Gaps(s), Half(policy.entropyThreshold));
    DecisionExactly(blocked, ipFails, userFails, s, policy);
  }

  /** Whatever its counters and its block, a client that has turned periodic is judged SOFT_BLOCK: on its
      third periodic request if nothing older is stored, otherwise at the latest on its `maxSamples`-th. */
  lemma PeriodicIsBlocked(recs: seq<Recording>, h: nat, period: nat, maxSamples: nat,
                          blocked: bool, ipFails: nat, userFails: nat, policy: Policy)
    requires PeriodicFrom(recs, h, period) && maxSamples >= 3 && |recs| - h >= 3
    requires FreshAt(recs, h) || |recs| - h >= maxSamples
    requires policy.entropyThreshold.num > 0
    ensures Assess(blocked, ipFails, userFails, TimingEntropy(Samples(recs, maxSamples).value), policy).0 == SoftBlock
  {
    PeriodicIsEven(recs, h, period, maxSamples);
    EvenIsBlocked(Samples(recs, maxSamples).value, blocked, ipFails, userFails, policy);
  }

  // ---------------------------------------------------------------- soft blocks

  type Blocks = map<string, Cell<()>>

  datatype BlockEvent = Applied(ip: string, at: int) | Lifted(ip: string, at: int)

  function Delete(m: Blocks, ip: string): Blocks {
    map k | k in m && k != ip :: m[k]
  }

  function PlayBlock(m: Blocks, e: BlockEvent): Blocks {
    match e
    case Applied(ip, at) => m[ip := Cell((), After(at, SOFT_BLOCK_TTL))]
    case Lifted(ip, at) => Delete(m, ip)
  }

  function PlayBlocks(events: seq<BlockEvent>): Blocks {
    if events == [] then map[]
    else PlayBlock(PlayBlocks(events[..|events| - 1]), events[|events| - 1])
  }

  predicate IsBlocked(m: Blocks, ip: string, t: int) {
    Read(m, ip, t).Some?
  }

  ghost predicate BlocksInOrder(events: seq<BlockEvent>) {
    forall i, j :: 0 <= i < j < |events| ==> events[i].at <= events[j].at
  }

  /** Some application at `s` with `t < s + TTL` was not followed by a removal. */
  ghost predicate HasLiveApplication(events: seq<BlockEvent>, ip: string, t: int) {
    exists i :: LiveApplication(events, i, ip, t)
  }

  ghost predicate LiveApplication(events: seq<BlockEvent>, i: int, ip: string, t: int) {
    && 0 <= i < |events|
    && events[i].Applied? && events[i].ip == ip && t < After(events[i].at, SOFT_BLOCK_TTL)
    && forall j :: i < j < |events| ==> !(events[j].Lifted? && events[j].ip == ip)
  }

  lemma LiveSnoc(events: seq<BlockEvent>, e: BlockEvent, i: int, ip: string, t: int)
    requires 0 <= i < |events|
    ensures LiveApplication(events + [e], i, ip, t) <==> LiveApplication(events, i, ip, t) && !(e.Lifted? && e.ip == ip)
  {
    var more := events + [e];
    assert more[|events|] == e;
    assert forall j :: 0 <= j < |events| ==> more[j] == events[j];
  }

  /** A new application runs, or it has ended and so has every earlier one. */
  lemma HistoryApplied(prefix: seq<BlockEvent>, e: BlockEvent, ip: string, t: int)
    requires BlocksInOrder(prefix + [e]) && e.Applied? && e.ip == ip
    ensures HasLiveApplication(prefix + [e], ip, t) <==> t < After(e.at, SOFT_BLOCK_TTL)
  {
    var events, n := prefix + [e], |prefix|;
    assert events[n] == e;
    if t < After(e.at, SOFT_BLOCK_TTL) {
      assert LiveApplication(events, n, ip, t);
    }
    if i :| LiveApplication(events, i, ip, t) {
      assert i == n || events[i].at <= events[n].at;
    }
  }

  /** Any other event ends the applications it lifts and keeps the rest. */
  lemma HistoryOther(prefix: seq<BlockEvent>, e: BlockEvent, ip: string, t: int)
    requires e.Lifted? || e.ip != ip
    ensures HasLiveApplication(prefix + [e], ip, t)
       <==> HasLiveApplication(prefix, ip, t) && !(e.Lifted? && e.ip == ip)
  {
    var events, n := prefix + [e], |prefix|;
    assert !LiveApplication(events, n, ip, t) by { assert events[n] == e; }
    if i :| LiveApplication(prefix, i, ip, t) {
      LiveSnoc(prefix, e, i, ip, t);
    }
    if i :| LiveApplication(events, i, ip, t) {
      LiveSnoc(prefix, e, i, ip, t);
    }
  }

  /** An IP reads as blocked at `t` exactly when some application still runs at `t` and was not removed
      since, over every run of applications and removals. */
  lemma {:induction false} BlockHistory(events: seq<BlockEvent>, ip: string, t: int)
    requires BlocksInOrder(events)
    ensures IsBlocked(PlayBlocks(events), ip, t) <==> HasLiveApplication(events, ip, t)
  {
    if events != [] {
      var prefix, e := events[..|events| - 1], events[|events| - 1];
      BlockHistory(prefix, ip, t);
      assert events == prefix + [e];
      if e.Applied? && e.ip == ip {
        HistoryApplied(prefix, e, ip, t);
      } else {
        HistoryOther(prefix, e, ip, t);
      }
    }
  }

  class GraduatedResponseService {
    const redis: Store

    constructor (redis: Store)
      ensures this.redis == redis
    {
      this.redis := redis;
    }

    method GetClientState(ip: string) returns (state: ClientState)
      ensures state == if IsBlocked(redis.blockedIp, ip, redis.clock) then SoftBlock else Allowed
    {
      var isBlocked := Read(redis.blockedIp, ip, redis.clock);
      state := if isBlocked.Some? then SoftBlock else Allowed;
    }

    method ApplySoftBlock(ip: string, ttl: int := SOFT_BLOCK_TTL)
      modifies redis`blockedIp
      ensures redis.blockedIp == old(redis.blockedIp)[ip := Cell((), redis.clock + 1000 * ttl)]
    {
      redis.blockedIp := redis.blockedIp[ip := Cell((), After(redis.clock, ttl))];
    }

    method RemoveSoftBlock(ip: string)
      modifies redis`blockedIp
      ensures redis.blockedIp == PlayBlock(old(redis.blockedIp), Lifted(ip, redis.clock))
      ensures forall t :: !IsBlocked(redis.blockedIp, ip, t)
      ensures forall other, t :: other != ip ==>
                IsBlocked(redis.blockedIp, other, t) == IsBlocked(old(redis.blockedIp), other, t)
    {
      redis.blockedIp := Delete(redis.blockedIp, ip);
    }

    /** The decision on the signals; on its three hard branches it also blocks the IP. */
    method ComputeAbuseScore(ip: string, ipFailCount: nat, userFailCount: nat, timingEntropy: Option<Entropy>,
                             policy: Policy)
      returns (state: ClientState, reason: Reason)
      modifies redis`blockedIp
      ensures (state, reason)
           == Assess(IsBlocked(old(redis.blockedIp), ip, redis.clock), ipFailCount, userFailCount, timingEntropy,
                     policy)
      ensures redis.blockedIp
           == if SetsBlock(reason) then PlayBlock(old(redis.blockedIp), Applied(ip, redis.clock))
              else old(redis.blockedIp)
      ensures var was := IsBlocked(old(redis.blockedIp), ip, redis.clock);
              && (was || state != SoftBlock ==> redis.blockedIp == old(redis.blockedIp))
              && (!was && state == SoftBlock ==>
                   && (forall t :: redis.clock <= t < redis.clock + 300_000 ==> IsBlocked(redis.blockedIp, ip, t))
                   && !IsBlocked(redis.blockedIp, ip, redis.clock + 300_000)
                   && forall other, t :: other != ip ==>
                        IsBlocked(redis.blockedIp, other, t) == IsBlocked(old(redis.blockedIp), other, t))
    {
      var existing := GetClientState(ip);
      if existing == SoftBlock {
        return SoftBlock, ExistingSoftBlock;
      }
      var ipRatio := if policy.ipThreshold != 0 then ipFailCount as real / policy.ipThreshold as real else 0.0;
      var userRatio := if policy.userThreshold != 0 then userFailCount as real / policy.userThreshold as real else 0.0;
      var lowEntropy := timingEntropy.Some? && Below(timingEntropy.value, policy.entropyThreshold);
      if ipFailCount >= policy.ipThreshold {
        ApplySoftBlock(ip);
        return SoftBlock, IpFailures(ipFailCount);
      }
      if userFailCount >= policy.userThreshold {
        ApplySoftBlock(ip);
        return SoftBlock, UserFailures(userFailCount);
      }
      if lowEntropy && Below(timingEntropy.value, Half(policy.entropyThreshold)) {
        ApplySoftBlock(ip);
        return SoftBlock, VeryLowEntropy(timingEntropy.value);
      }
      RatioTest(ipFailCount, policy.ipThreshold);
      RatioTest(userFailCount, policy.userThreshold);
      if ipRatio >= 0.7 || userRatio >= 0.7 {
        return Throttled, ApproachingAuthThreshold;
      }
      if lowEntropy {
        return Throttled, LowEntropy(timingEntropy.value);
      }
      return Allowed, NoReason;
    }
  }
}
