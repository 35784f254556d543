/** The abuse detector service over the shared store. */
module AbuseDetection {
  import opened Redis
  import opened SortedSet
  import opened FailureCounters
  import opened Deviation
  import opened Timing

  datatype BotVerdict = InsufficientSamples | LowTimingEntropy(entropy: Entropy) | NotBot

  class AbuseDetector {
    const redis: Store

    constructor (redis: Store)
      ensures this.redis == redis
    {
      this.redis := redis;
    }

    method RecordAuthFailure(ip: string, username: string, windowSeconds: int)
      modifies redis`failedAuth
      ensures redis.failedAuth == Record(old(redis.failedAuth), Failure(ip, username, redis.clock), windowSeconds)
      ensures forall key :: key == ip || key == username ==>
                key in redis.failedAuth && redis.failedAuth[key].deadline == redis.clock + 1000 * windowSeconds
      ensures ip != username ==>
                && redis.failedAuth[ip].value == Count(old(redis.failedAuth), ip, redis.clock) + 1
                && redis.failedAuth[username].value == Count(old(redis.failedAuth), username, redis.clock) + 1
    {
      redis.failedAuth := Bump(redis.failedAuth, ip, redis.clock, windowSeconds);
      redis.failedAuth := Bump(redis.failedAuth, username, redis.clock, windowSeconds);
    }

    method IsCredentialStuffing(ip: string, username: string, ipThreshold: int, userThreshold: int)
      returns (verdict: Stuffing)
      ensures verdict == Check(redis.failedAuth, ip, username, redis.clock, ipThreshold, userThreshold)
    {
      var ipCount := Count(redis.failedAuth, ip, redis.clock);
      var userCount := Count(redis.failedAuth, username, redis.clock);
      if ipCount >= ipThreshold {
        return IpThreshold(ipCount);
      }
      if userCount >= userThreshold {
        return UserThreshold(userCount);
      }
      return NotStuffing;
    }

    method RecordRequestTiming(clientId: string, maxSamples: int, now: nat)
      modifies redis`requestTimes
      ensures redis.requestTimes
           == StoreSample(old(redis.requestTimes), clientId, Recording(redis.clock, now), maxSamples)
      ensures clientId in redis.requestTimes ==>
                && redis.requestTimes[clientId].deadline == redis.clock + 3_600_000
                && redis.requestTimes[clientId].value
                == AddSample(LiveSamples(old(redis.requestTimes), clientId, redis.clock), now, maxSamples)
      ensures forall other :: other != clientId ==>
                && (other in redis.requestTimes <==> other in old(redis.requestTimes))
                && (other in redis.requestTimes ==> redis.requestTimes[other] == old(redis.requestTimes)[other])
    {
      var zset: Zset := Add(LiveSamples(redis.requestTimes, clientId, redis.clock), now);
      zset := RemoveRanks(zset, 0, -(maxSamples + 1));
      if zset == [] {
        redis.requestTimes := map k | k in redis.requestTimes && k != clientId :: redis.requestTimes[k];
      } else {
        redis.requestTimes := redis.requestTimes[clientId := Cell(zset, After(redis.clock, SAMPLE_SECONDS))];
      }
    }

    method ComputeTimingEntropy(clientId: string) returns (entropy: Option<Entropy>)
      ensures entropy == TimingEntropy(LiveSamples(redis.requestTimes, clientId, redis.clock))
      ensures var s := LiveSamples(redis.requestTimes, clientId, redis.clock);
              && (entropy == None <==> |s| < 3)
              && (entropy.Some? ==> forall th: Threshold | th.den >= 1 :: Deviates(entropy.value, s, th))
    {
      var timestamps := LiveSamples(redis.requestTimes, clientId, redis.clock);
      if |timestamps| < 3 {
        return None;
      }
      var gaps := Gaps(timestamps);
      entropy := Some(Measure(gaps));
      forall th: Threshold | th.den >= 1 ensures Deviates(entropy.value, timestamps, th) {
        EntropyDeviates(timestamps, th);
      }
    }

    /** Records the request, then judges the regularity of all of them. */
    method IsBotBehavior(clientId: string, entropyThreshold: Threshold, maxSamples: int, now: nat)
      returns (verdict: BotVerdict)
      modifies redis`requestTimes
      ensures redis.requestTimes
           == StoreSample(old(redis.requestTimes), clientId, Recording(redis.clock, now), maxSamples)
      ensures var entropy := TimingEntropy(LiveSamples(redis.requestTimes, clientId, redis.clock));
              verdict == if entropy == None then InsufficientSamples
                         else if Below(entropy.value, entropyThreshold) then LowTimingEntropy(entropy.value)
                         else NotBot
      ensures var s := LiveSamples(redis.requestTimes, clientId, redis.clock);
              && (verdict == InsufficientSamples <==> |s| < 3)
              && (entropyThreshold.den >= 1 ==>
                   forall g: seq<int>, stdev: real | AreGaps(g, s) && IsStdev(stdev, g) ::
                     verdict.LowTimingEntropy? <==> stdev < entropyThreshold.num as real / entropyThreshold.den as real)
    {
      RecordRequestTiming(clientId, maxSamples, now);
      var entropy := ComputeTimingEntropy(clientId);
      if entropy == None {
        return InsufficientSamples;
      }
      if Below(entropy.value, entropyThreshold) {
        return LowTimingEntropy(entropy.value);
      }
      return NotBot;
    }
  }
}
