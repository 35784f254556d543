/** The Redis store the gateway shares: typed key spaces whose keys expire.

    Every key prefix of the gateway is its own map, because the prefixes differ; the two
    axes of `failed_auth:` share one prefix and therefore share one map here.  Instants are
    milliseconds.  A key is readable strictly before its deadline, so an EXPIRE with a
    non-positive number of seconds makes the key unreadable at once. */
module Redis {
  import opened SortedSet

  datatype Option<+T> = None | Some(value: T)

  /** A stored value and the instant from which it can no longer be read. */
  datatype Cell<+V> = Cell(value: V, deadline: int)

  /** A value of `shadow_log:`: text that is not JSON, or an event with its optional rule field. */
  datatype Raw = Garbled | Event(rule: Option<string>)

  const MILLIS: int := 1000

  function Read<V>(m: map<string, Cell<V>>, key: string, t: int): Option<V> {
    if key in m && t < m[key].deadline then Some(m[key].value) else None
  }

  /** EXPIRE / SET EX: the deadline of a key whose time to live is set at `t`. */
  function After(t: int, seconds: int): int {
    t + MILLIS * seconds
  }

  class Store {
    var clock: int
    var rateLimit: map<string, Cell<Zset>>
    var failedAuth: map<string, Cell<nat>>
    var requestTimes: map<string, Cell<Zset>>
    var blockedIp: map<string, Cell<()>>
    var shadowFlag: Option<string>
    var shadowLog: map<string, Cell<Raw>>
    var knownBadIps: set<string>
    var abusiveAgents: set<string>

    constructor ()
      ensures rateLimit == map[] && failedAuth == map[] && requestTimes == map[] && blockedIp == map[]
      ensures shadowFlag == None && shadowLog == map[] && knownBadIps == {} && abusiveAgents == {}
    {
      clock := 0;
      rateLimit, failedAuth, requestTimes, blockedIp := map[], map[], map[], map[];
      shadowFlag, shadowLog, knownBadIps, abusiveAgents := None, map[], {}, {};
    }
  }
}
