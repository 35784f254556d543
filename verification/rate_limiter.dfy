/** The sliding-window limiter: its Redis script as a step on one client's sorted set, the
    service that runs it, and the middleware in front of it.

    A member of the sorted set is the stamp followed by the client, so within one client's
    key a member is determined by its stamp, and two requests of one client in the same
    millisecond are one member. */
module RateLimiting {
  import opened Redis
  import opened SortedSet

  datatype Verdict = Verdict(allowed: bool, remaining: int)

  /** One call of the script: the gateway's stamp and the Redis clock at which it runs. */
  datatype Call = Call(now: nat, clock: int)

  /** The stamps that ZREMRANGEBYSCORE leaves: those later than `now` minus the window. */
  ghost function Kept(stamps: set<nat>, now: nat, window: int): set<nat> {
    set x | x in stamps && now - MILLIS * window < x
  }

  /** One atomic run of the script; an absent key is a cell without stamps. */
  ghost function Script(c: Cell<set<nat>>, call: Call, window: int, limit: int): (Cell<set<nat>>, Verdict) {
    var live := if call.clock < c.deadline then c.value else {};
    var kept := Kept(live, call.now, window);
    if |kept| < limit
    then (Cell(kept + {call.now}, After(call.clock, window + 1)), Verdict(true, limit - |kept| - 1))
    else (Cell(kept, c.deadline), Verdict(false, 0))
  }

  /** What the store holds for a client, as a set of stamps. */
  ghost function Window(m: map<string, Cell<Zset>>, client: string): Cell<set<nat>> {
    if client in m then Cell(Elements(m[client].value), m[client].deadline) else Cell({}, 0)
  }

  /** Two cells no reader can tell apart: an empty sorted set is a missing key. */
  ghost predicate Same(a: Cell<set<nat>>, b: Cell<set<nat>>) {
    a.value == b.value && (a.value == {} || a.deadline == b.deadline)
  }

  /** Only the given client's key changed. */
  ghost predicate OthersKept(before: map<string, Cell<Zset>>, after: map<string, Cell<Zset>>, client: string) {
    && (forall k :: k in after && k != client ==> k in before && after[k] == before[k])
    && (forall k :: k in before && k != client ==> k in after)
  }

  /** Stores a sorted set; Redis has no empty one, so an empty set deletes its key. */
  function Put(m: map<string, Cell<Zset>>, client: string, zset: Zset, deadline: int)
    : (r: map<string, Cell<Zset>>)
    ensures OthersKept(m, r, client)
    ensures Same(Window(r, client), Cell(Elements(zset), deadline))
  {
    if zset == [] then map k | k in m && k != client :: m[k] else m[client := Cell(zset, deadline)]
  }

  /** Pruning and adding on the stored sequence are what they are on the set of stamps. */
  lemma PruneAndAdd(zset: Zset, now: nat, window: int)
    ensures var pruned := RemoveScores(zset, 0, now - window * MILLIS);
            && Elements(pruned) == Kept(Elements(zset), now, window)
            && |pruned| == |Kept(Elements(zset), now, window)|
            && Elements(Add(pruned, now)) == Elements(pruned) + {now}
  {
    Cardinality(RemoveScores(zset, 0, now - window * MILLIS));
  }

  class RateLimiter {
    const redis: Store

    constructor (redis: Store)
      ensures this.redis == redis
    {
      this.redis := redis;
    }

    /** Runs the script for a client: prune, count, conditionally add and set the time to live. */
    method CheckRateLimit(clientId: string, limit: int, windowSeconds: int, now: nat)
      returns (allowed: bool, remaining: int)
      modifies redis`rateLimit
      ensures var (cell, verdict) :=
                Script(Window(old(redis.rateLimit), clientId), Call(now, redis.clock), windowSeconds, limit);
              Same(Window(redis.rateLimit, clientId), cell) && Verdict(allowed, remaining) == verdict
      ensures OthersKept(old(redis.rateLimit), redis.rateLimit, clientId)
    {
      var stamps := Read(redis.rateLimit, clientId, redis.clock);
      var zset: Zset := if stamps.Some? then stamps.value else [];
      assert Elements(zset)
          == var c := Window(redis.rateLimit, clientId); if redis.clock < c.deadline then c.value else {};
      PruneAndAdd(zset, now, windowSeconds);
      zset := RemoveScores(zset, 0, now - windowSeconds * MILLIS);
      var count := |zset|;
      if count < limit {
        zset := Add(zset, now);
        redis.rateLimit := Put(redis.rateLimit, clientId, zset, After(redis.clock, windowSeconds + 1));
        allowed, remaining := true, limit - count - 1;
      } else {
        var deadline := if clientId in redis.rateLimit then redis.rateLimit[clientId].deadline else 0;
        redis.rateLimit := Put(redis.rateLimit, clientId, zset, deadline);
        allowed, remaining := false, 0;
      }
    }
  }

  const EXCLUDED_PATHS: set<string> :=
    {"/health", "/metrics", "/docs", "/openapi.json", "/redoc", "/auth/register"}

  /** What a limited request gets: the inner answer with its remaining quota, or 429 with Retry-After. */
  datatype Answer = Inner(remaining: Option<int>) | TooMany(retryAfter: int)

  class RateLimitMiddleware {
    const limiter: RateLimiter
    const requests: int
    const windowSeconds: int

    constructor (limiter: RateLimiter, requests: int, windowSeconds: int)
      ensures this.limiter == limiter && this.requests == requests && this.windowSeconds == windowSeconds
    {
      this.limiter, this.requests, this.windowSeconds := limiter, requests, windowSeconds;
    }

    method Dispatch(path: string, clientId: string, now: nat) returns (answer: Answer)
      modifies limiter.redis`rateLimit
      ensures path in EXCLUDED_PATHS <==>
                || path == "/health" || path == "/metrics" || path == "/docs" || path == "/openapi.json"
                || path == "/redoc" || path == "/auth/register"
      ensures path in EXCLUDED_PATHS ==>
                answer == Inner(None) && limiter.redis.rateLimit == old(limiter.redis.rateLimit)
      ensures path !in EXCLUDED_PATHS ==>
                var (cell, verdict) := Script(Window(old(limiter.redis.rateLimit), clientId),
                                              Call(now, limiter.redis.clock), windowSeconds, requests);
                && Same(Window(limiter.redis.rateLimit, clientId), cell)
                && OthersKept(old(limiter.redis.rateLimit), limiter.redis.rateLimit, clientId)
                && answer == (if verdict.allowed then Inner(Some(verdict.remaining)) else TooMany(windowSeconds))
    {
      if path in EXCLUDED_PATHS {
        return Inner(None);
      }
      var allowed, remaining := limiter.CheckRateLimit(clientId, requests, windowSeconds, now);
      answer := if allowed then Inner(Some(remaining)) else TooMany(windowSeconds);
    }
  }
}
