/** The in-memory filters and their rebuild from the Redis sets.  A filter is a set of bits; the hash
    functions are one arbitrary function from an entry to its bits, the same for every service. */
module Bloom {
  import opened Redis

  type Bits = set<nat>
  type Hash = string -> Bits

  /** The bits of a filter to which exactly the given entries were added, in whatever order. */
  ghost function BitsOf(h: Hash, entries: set<string>): Bits {
    set x, b | x in entries && b in h(x) :: b
  }

  lemma BitsOfAdd(h: Hash, entries: set<string>, x: string)
    ensures BitsOf(h, entries + {x}) == BitsOf(h, entries) + h(x)
  {
  }

  /** The query of a filter. */
  predicate Contains(h: Hash, bits: Bits, x: string) {
    h(x) <= bits
  }

  /** Every bit of `x` is a bit of some entry. */
  ghost predicate Covered(h: Hash, entries: set<string>, x: string) {
    forall b :: b in h(x) ==> exists y :: y in entries && b in h(y)
  }

  /** The query of a filter with exactly the given entries: it answers true for them and for whatever shares all
      its bits with them, and false for everything else. */
  lemma ContainsIff(h: Hash, entries: set<string>, x: string)
    ensures Contains(h, BitsOf(h, entries), x) <==> Covered(h, entries, x)
    ensures x in entries ==> Contains(h, BitsOf(h, entries), x)
  {
  }

  /** Adding an entry makes it recognised, keeps what was, and changes the answer for another one only through a
      bit that is new. */
  lemma ContainsAfterAdd(h: Hash, bits: Bits, added: string, x: string)
    ensures Contains(h, bits + h(added), added)
    ensures Contains(h, bits, x) ==> Contains(h, bits + h(added), x)
    ensures Contains(h, bits + h(added), x) && !Contains(h, bits, x) ==>
              exists b :: b in h(x) && b in h(added) && b !in bits
    ensures Contains(h, bits + h(added), x) <==> forall b :: b in h(x) ==> b in bits || b in h(added)
  {
  }

  // ---------------------------------------------------------------- the service

  class BloomFilterService {
    const redis: Store
    const hash: Hash
    var ipFilter: Bits
    var agentFilter: Bits
    var loadedIpCount: nat
    var loadedAgentCount: nat

    constructor (redis: Store, hash: Hash)
      ensures this.redis == redis && this.hash == hash && ipFilter == {} && agentFilter == {}
    {
      this.redis, this.hash := redis, hash;
      ipFilter, agentFilter, loadedIpCount, loadedAgentCount := {}, {}, 0, 0;
    }

    method AddIp(ip: string)
      modifies this`ipFilter
      ensures ipFilter == old(ipFilter) + hash(ip)
    {
      ipFilter := ipFilter + hash(ip);
    }

    method AddAgent(userAgent: string)
      modifies this`agentFilter
      ensures agentFilter == old(agentFilter) + hash(userAgent)
    {
      agentFilter := agentFilter + hash(userAgent);
    }

    predicate MightContainIp(ip: string)
      reads this`ipFilter
    {
      Contains(hash, ipFilter, ip)
    }

    predicate MightContainAgent(userAgent: string)
      reads this`agentFilter
    {
      Contains(hash, agentFilter, userAgent)
    }

    /** Persists an IP and makes this service recognise it at once. */
    method AddIpToRedis(ip: string)
      modifies this`ipFilter, redis`knownBadIps
      ensures redis.knownBadIps == old(redis.knownBadIps) + {ip}
      ensures ipFilter == old(ipFilter) + hash(ip) && MightContainIp(ip)
      ensures forall x :: MightContainIp(x) <==> forall b :: b in hash(x) ==> b in old(ipFilter) || b in hash(ip)
      ensures forall x :: MightContainIp(x) != old(MightContainIp(x)) ==>
                exists b :: b in hash(x) && b in hash(ip) && b !in old(ipFilter)
    {
      redis.knownBadIps := redis.knownBadIps + {ip};
      AddIp(ip);
    }

    method AddAgentToRedis(userAgent: string)
      modifies this`agentFilter, redis`abusiveAgents
      ensures redis.abusiveAgents == old(redis.abusiveAgents) + {userAgent}
      ensures agentFilter == old(agentFilter) + hash(userAgent) && MightContainAgent(userAgent)
      ensures forall x :: MightContainAgent(x) <==>
                forall b :: b in hash(x) ==> b in old(agentFilter) || b in hash(userAgent)
      ensures forall x :: MightContainAgent(x) != old(MightContainAgent(x)) ==>
                exists b :: b in hash(x) && b in hash(userAgent) && b !in old(agentFilter)
    {
      redis.abusiveAgents := redis.abusiveAgents + {userAgent};
      AddAgent(userAgent);
    }

    /** Adds the entries to a new filter one by one, in an arbitrary order. */
    method Load(entries: set<string>) returns (bits: Bits)
      ensures bits == BitsOf(hash, entries)
    {
      bits := {};
      var rest := entries;
      while rest != {}
        invariant rest <= entries && bits == BitsOf(hash, entries - rest)
        decreases |rest|
      {
        var x :| x in rest;
        BitsOfAdd(hash, entries - rest, x);
        assert entries - (rest - {x}) == entries - rest + {x};
        bits := bits + hash(x);
        rest := rest - {x};
      }
      assert entries - rest == entries;
    }

    /** Rebuilds both filters from the Redis sets. */
    method SyncFromRedis() returns (count: nat)
      modifies this
      ensures ipFilter == BitsOf(hash, redis.knownBadIps) && agentFilter == BitsOf(hash, redis.abusiveAgents)
      ensures forall x :: MightContainIp(x) <==> Covered(hash, redis.knownBadIps, x)
      ensures forall x :: MightContainAgent(x) <==> Covered(hash, redis.abusiveAgents, x)
      ensures forall x :: x in redis.knownBadIps ==> MightContainIp(x)
      ensures forall x :: x in redis.abusiveAgents ==> MightContainAgent(x)
      ensures loadedIpCount == |redis.knownBadIps| && loadedAgentCount == |redis.abusiveAgents|
      ensures count == |redis.knownBadIps| + |redis.abusiveAgents|
    {
      var badIps, badAgents := redis.knownBadIps, redis.abusiveAgents;
      ipFilter := Load(badIps);
      agentFilter := Load(badAgents);
      loadedIpCount, loadedAgentCount := |badIps|, |badAgents|;
      count := loadedIpCount + loadedAgentCount;
      forall x: string ensures MightContainIp(x) <==> Covered(hash, badIps, x) { ContainsIff(hash, badIps, x); }
      forall x: string ensures MightContainAgent(x) <==> Covered(hash, badAgents, x) {
        ContainsIff(hash, badAgents, x);
      }
      forall x | x in badIps ensures MightContainIp(x) { ContainsIff(hash, badIps, x); }
      forall x | x in badAgents ensures MightContainAgent(x) { ContainsIff(hash, badAgents, x); }
    }
  }

  // ---------------------------------------------------------------- interleaved syncs and adds

  /** Between the awaits of a sync: nothing read, the IPs read, both sets read.  `begun` is how many
      entries had been added to Redis when it began. */
  datatype Sync =
    | Idle
    | HaveIps(ips: set<string>, begun: nat)
    | HaveBoth(ips: set<string>, agents: set<string>, begun: nat)

  /** Where a service stands with its sync, and when its last completed one began. */
  datatype Service = Service(sync: Sync, synced: Option<nat>)

  /** The Redis sets and the services' syncs; no hash function plays a part in them. */
  datatype Control = Control(ips: set<string>, agents: set<string>, epoch: nat, services: map<nat, Service>)

  datatype Filters = Filters(ipBits: Bits, agentBits: Bits)

  datatype State = State(control: Control, filters: map<nat, Filters>)

  /** SADD and the local add that follows it are separate steps; the rebuild after the two reads is one. */
  datatype Event =
    | Start(who: nat)
    | SaddIp(ip: string)
    | SaddAgent(agent: string)
    | LocalIp(who: nat, ip: string)
    | LocalAgent(who: nat, agent: string)
    | ReadIps(who: nat)
    | ReadAgents(who: nat)
    | Rebuild(who: nat)

  const INITIAL: State := State(Control({}, {}, 0, map[]), map[])

  function Serve(c: Control, e: Event, v: Service): Service {
    match e
    case ReadIps(_) => if v.sync.Idle? then v.(sync := HaveIps(c.ips, c.epoch)) else v
    case ReadAgents(_) => if v.sync.HaveIps? then v.(sync := HaveBoth(v.sync.ips, c.agents, v.sync.begun)) else v
    case Rebuild(_) => if v.sync.HaveBoth? then Service(Idle, Some(v.sync.begun)) else v
    case _ => v
  }

  function Track(c: Control, e: Event): Control {
    match e
    case Start(j) => if j in c.services then c else c.(services := c.services[j := Service(Idle, None)])
    case SaddIp(x) => c.(ips := c.ips + {x}, epoch := c.epoch + 1)
    case SaddAgent(x) => c.(agents := c.agents + {x}, epoch := c.epoch + 1)
    case _ => if e.who in c.services then c.(services := c.services[e.who := Serve(c, e, c.services[e.who])]) else c
  }

  /** What a step of a service, which stands at `v`, does to its filters. */
  ghost function Fill(h: Hash, c: Control, e: Event, v: Service, f: Filters): Filters {
    match e
    case LocalIp(_, x) => if x in c.ips then f.(ipBits := f.ipBits + h(x)) else f
    case LocalAgent(_, x) => if x in c.agents then f.(agentBits := f.agentBits + h(x)) else f
    case Rebuild(_) => if v.sync.HaveBoth? then Filters(BitsOf(h, v.sync.ips), BitsOf(h, v.sync.agents)) else f
    case _ => f
  }

  ghost function Step(h: Hash, s: State, e: Event): State {
    State(Track(s.control, e),
          match e
          case Start(j) => if j in s.filters then s.filters else s.filters[j := Filters({}, {})]
          case SaddIp(_) => s.filters
          case SaddAgent(_) => s.filters
          case _ =>
            if e.who in s.filters && e.who in s.control.services
            then s.filters[e.who := Fill(h, s.control, e, s.control.services[e.who], s.filters[e.who])]
            else s.filters)
  }

  ghost function Run(h: Hash, events: seq<Event>): State {
    if events == [] then INITIAL else Step(h, Run(h, events[..|events| - 1]), events[|events| - 1])
  }

  /** The Redis sets and syncs after a run, whatever the hash functions. */
  function Controlled(events: seq<Event>): Control {
    if events == [] then INITIAL.control else Track(Controlled(events[..|events| - 1]), events[|events| - 1])
  }

  /** The Redis sets are the entries that were added in the run, no more and no less. */
  lemma {:induction false} AddedExactly(events: seq<Event>)
    ensures forall x :: x in Controlled(events).ips <==> SaddIp(x) in events
    ensures forall x :: x in Controlled(events).agents <==> SaddAgent(x) in events
    ensures forall j: nat :: j in Controlled(events).services <==> Start(j) in events
  {
    if events != [] {
      var prefix, e := events[..|events| - 1], events[|events| - 1];
      AddedExactly(prefix);
      assert events == prefix + [e];
    }
  }

  // ---------------------------------------------------------------- what a service knows

  /** The entries a service knows: what the last rebuild had read, and what was added locally since. */
  datatype Knowledge = Knowledge(ips: set<string>, agents: set<string>)

  function Learn(c: Control, e: Event, v: Service, k: Knowledge): Knowledge {
    match e
    case LocalIp(_, x) => if x in c.ips then k.(ips := k.ips + {x}) else k
    case LocalAgent(_, x) => if x in c.agents then k.(agents := k.agents + {x}) else k
    case Rebuild(_) => if v.sync.HaveBoth? then Knowledge(v.sync.ips, v.sync.agents) else k
    case _ => k
  }

  function Known(events: seq<Event>, j: nat): Knowledge {
    if events == [] then Knowledge({}, {})
    else
      var prefix, e := events[..|events| - 1], events[|events| - 1];
      var c := Controlled(prefix);
      if e.SaddIp? || e.SaddAgent? || e.who != j || j !in c.services then Known(prefix, j)
      else Learn(c, e, c.services[j], Known(prefix, j))
  }

  lemma BitsOfMember(h: Hash, entries: set<string>, x: string)
    requires x in entries
    ensures h(x) <= BitsOf(h, entries)
  {
  }

  lemma FillLearns(h: Hash, c: Control, e: Event, v: Service, f: Filters, k: Knowledge)
    requires f == Filters(BitsOf(h, k.ips), BitsOf(h, k.agents))
    ensures var k' := Learn(c, e, v, k); Fill(h, c, e, v, f) == Filters(BitsOf(h, k'.ips), BitsOf(h, k'.agents))
  {
    match e
    case LocalIp(_, x) => BitsOfAdd(h, k.ips, x);
    case LocalAgent(_, x) => BitsOfAdd(h, k.agents, x);
    case _ =>
  }

  /** In every interleaving, whatever the hash functions, a filter is exactly the bits of the entries its service
      knows; which those are is decided by the order of the events alone. */
  lemma {:induction false} FiltersAreKnown(h: Hash, events: seq<Event>, j: nat)
    ensures Run(h, events).control == Controlled(events)
    ensures j in Run(h, events).filters <==> j in Controlled(events).services
    ensures j in Run(h, events).filters ==>
              Run(h, events).filters[j] == Filters(BitsOf(h, Known(events, j).ips), BitsOf(h, Known(events, j).agents))
    ensures j !in Run(h, events).filters ==> Known(events, j) == Knowledge({}, {})
  {
    if events != [] {
      var prefix, e := events[..|events| - 1], events[|events| - 1];
      FiltersAreKnown(h, prefix, j);
      var c := Controlled(prefix);
      if j in c.services && !e.SaddIp? && !e.SaddAgent? && e.who == j {
        FillLearns(h, c, e, c.services[j], Run(h, prefix).filters[j], Known(prefix, j));
      }
      assert BitsOf(h, {}) == {};
    }
  }

  /** No entry of the Redis sets is reported absent by the service's filters. */
  ghost predicate NoFalseNegative(h: Hash, s: State, j: nat)
    requires j in s.filters
  {
    && (forall x :: x in s.control.ips ==> Contains(h, s.filters[j].ipBits, x))
    && (forall x :: x in s.control.agents ==> Contains(h, s.filters[j].agentBits, x))
  }

  /** The hash functions that tell one entry from all others. */
  ghost function Only(x: string): Hash {
    y => if y == x then {0} else {}
  }

  lemma OnlyKnown(entries: set<string>, x: string)
    requires Contains(Only(x), BitsOf(Only(x), entries), x)
    ensures x in entries
  {
    assert 0 in Only(x)(x);
  }

  /** Every entry of the Redis sets was read by the service's last rebuild or added locally since. */
  ghost predicate KnowsAll(events: seq<Event>, j: nat) {
    Controlled(events).ips <= Known(events, j).ips && Controlled(events).agents <= Known(events, j).agents
  }

  ghost predicate Clean(h: Hash, events: seq<Event>, j: nat) {
    j in Run(h, events).filters && NoFalseNegative(h, Run(h, events), j)
  }

  lemma KnownSuffices(h: Hash, events: seq<Event>, j: nat)
    requires j in Controlled(events).services && KnowsAll(events, j)
    ensures Clean(h, events, j)
  {
    FiltersAreKnown(h, events, j);
    var s, k := Run(h, events), Known(events, j);
    forall x | x in s.control.ips ensures Contains(h, s.filters[j].ipBits, x) { BitsOfMember(h, k.ips, x); }
    forall x | x in s.control.agents ensures Contains(h, s.filters[j].agentBits, x) { BitsOfMember(h, k.agents, x); }
  }

  lemma KnownIsNeeded(events: seq<Event>, j: nat, x: string)
    requires Clean(Only(x), events, j)
    ensures x in Controlled(events).ips ==> x in Known(events, j).ips
    ensures x in Controlled(events).agents ==> x in Known(events, j).agents
  {
    FiltersAreKnown(Only(x), events, j);
    if x in Controlled(events).ips { OnlyKnown(Known(events, j).ips, x); }
    if x in Controlled(events).agents { OnlyKnown(Known(events, j).agents, x); }
  }

  lemma CleanKnowsAll(events: seq<Event>, j: nat)
    requires forall h: Hash :: Clean(h, events, j)
    ensures KnowsAll(events, j)
  {
    forall x | x in Controlled(events).ips ensures x in Known(events, j).ips { KnownIsNeeded(events, j, x); }
    forall x | x in Controlled(events).agents ensures x in Known(events, j).agents { KnownIsNeeded(events, j, x); }
  }

  /** In every interleaving, a service is free of false negatives for every choice of hash functions if and
      only if it knows every entry of the Redis sets. */
  lemma NoFalseNegativeIff(events: seq<Event>, j: nat)
    requires j in Controlled(events).services
    ensures (forall h: Hash :: Clean(h, events, j)) <==> KnowsAll(events, j)
  {
    if KnowsAll(events, j) {
      forall h: Hash ensures Clean(h, events, j) { KnownSuffices(h, events, j); }
    }
    if forall h: Hash :: Clean(h, events, j) {
      CleanKnowsAll(events, j);
    }
  }

  // ---------------------------------------------------------------- convergence

  /** The service's last sync began after the last entry was added. */
  ghost predicate UpToDate(c: Control, j: nat) {
    j in c.services && c.services[j].synced == Some(c.epoch)
  }

  /** A sync in progress has read what was there when it began, and everything if nothing was added since; a
      service knows only entries of the Redis sets, and all of them if its last sync is up to date. */
  ghost predicate Sound(c: Control, v: Service, k: Knowledge) {
    && k.ips <= c.ips && k.agents <= c.agents
    && (match v.sync
        case Idle => true
        case HaveIps(ips, begun) => ips <= c.ips && begun <= c.epoch && (begun == c.epoch ==> ips == c.ips)
        case HaveBoth(ips, agents, begun) =>
          && ips <= c.ips && agents <= c.agents && begun <= c.epoch
          && (begun == c.epoch ==> ips == c.ips && agents == c.agents))
    && (v.synced.Some? ==> v.synced.value <= c.epoch)
    && (v.synced == Some(c.epoch) ==> k.ips == c.ips && k.agents == c.agents)
  }

  lemma {:induction false} RunSound(events: seq<Event>, j: nat)
    requires j in Controlled(events).services
    ensures Sound(Controlled(events), Controlled(events).services[j], Known(events, j))
  {
    var prefix, e := events[..|events| - 1], events[|events| - 1];
    if j in Controlled(prefix).services {
      RunSound(prefix, j);
    } else {
      FiltersAreKnown(Only(""), prefix, j);
    }
  }

  /** A sync of the service is under way, or complete, that began after the last SADD. */
  ghost predicate Catching(c: Control, j: nat, read: bool, rebuilt: bool) {
    && j in c.services
    && var v := c.services[j];
       || (v.synced == Some(c.epoch) && (v.sync.Idle? || v.sync.begun == c.epoch))
       || (!rebuilt && v.sync.HaveBoth? && v.sync.begun == c.epoch)
       || (!rebuilt && !read && v.sync.HaveIps? && v.sync.begun == c.epoch)
  }

  ghost predicate NoSadd(events: seq<Event>) {
    forall e :: e in events ==> !e.SaddIp? && !e.SaddAgent?
  }

  lemma ControlledSnoc(events: seq<Event>, e: Event)
    ensures Controlled(events + [e]) == Track(Controlled(events), e)
  {
    assert (events + [e])[..|events|] == events;
  }

  lemma {:induction false} KeepsCatching(before: seq<Event>, more: seq<Event>, j: nat, read: bool, rebuilt: bool)
    requires Catching(Controlled(before), j, read, rebuilt) && NoSadd(more)
    ensures Catching(Controlled(before + more), j, read, rebuilt)
  {
    if more == [] {
      assert before + more == before;
    } else {
      var n := |more| - 1;
      KeepsCatching(before, more[..n], j, read, rebuilt);
      ControlledSnoc(before + more[..n], more[n]);
      assert before + more == before + more[..n] + [more[n]];
      assert more[n] in more;
    }
  }

  lemma FirstRead(before: seq<Event>, j: nat)
    requires j in Controlled(before).services && Controlled(before).services[j].sync.Idle?
    ensures Catching(Controlled(before + [ReadIps(j)]), j, false, false)
  {
    ControlledSnoc(before, ReadIps(j));
  }

  lemma SecondRead(before: seq<Event>, j: nat)
    requires Catching(Controlled(before), j, false, false)
    ensures Catching(Controlled(before + [ReadAgents(j)]), j, true, false)
  {
    ControlledSnoc(before, ReadAgents(j));
  }

  lemma Rebuilds(before: seq<Event>, j: nat)
    requires Catching(Controlled(before), j, true, false)
    ensures Catching(Controlled(before + [Rebuild(j)]), j, true, true)
  {
    ControlledSnoc(before, Rebuild(j));
  }

  /** Whatever happens in between, a service that reads both sets and rebuilds, beginning with no sync under way
      and with no SADD from then on, is up to date at the end. */
  lemma SyncCompletes(before: seq<Event>, a: seq<Event>, b: seq<Event>, c: seq<Event>, j: nat) returns (all: seq<Event>)
    requires j in Controlled(before).services && Controlled(before).services[j].sync.Idle?
    requires NoSadd(a) && NoSadd(b) && NoSadd(c)
    ensures all == before + [ReadIps(j)] + a + [ReadAgents(j)] + b + [Rebuild(j)] + c && UpToDate(Controlled(all), j)
  {
    FirstRead(before, j);
    all := before + [ReadIps(j)];
    KeepsCatching(all, a, j, false, false);
    SecondRead(all + a, j);
    all := all + a + [ReadAgents(j)];
    KeepsCatching(all, b, j, true, false);
    Rebuilds(all + b, j);
    all := all + b + [Rebuild(j)];
    KeepsCatching(all, c, j, true, true);
    all := all + c;
  }

  /** Convergence: in every interleaving of syncs and adds by any number of services, one whose last sync
      began after the last SADD has no false negative, and any two such services hold the same filters. */
  lemma Convergence(h: Hash, events: seq<Event>, i: nat, j: nat)
    requires UpToDate(Controlled(events), i) && UpToDate(Controlled(events), j)
    ensures var s := Run(h, events);
            && Clean(h, events, i) && Clean(h, events, j) && s.filters[i] == s.filters[j]
  {
    RunSound(events, i);
    RunSound(events, j);
    KnownSuffices(h, events, i);
    KnownSuffices(h, events, j);
    FiltersAreKnown(h, events, i);
    FiltersAreKnown(h, events, j);
  }

  lemma BitsOfSubset(h: Hash, some: set<string>, all: set<string>)
    requires some <= all
    ensures BitsOf(h, some) <= BitsOf(h, all)
  {
  }

  /** No filter ever claims more than the Redis sets explain: its bits are bits of their entries. */
  lemma NoForeignBits(h: Hash, events: seq<Event>, j: nat)
    requires j in Run(h, events).filters
    ensures var s := Run(h, events);
            s.filters[j].ipBits <= BitsOf(h, s.control.ips) && s.filters[j].agentBits <= BitsOf(h, s.control.agents)
  {
    FiltersAreKnown(h, events, j);
    RunSound(events, j);
    BitsOfSubset(h, Known(events, j).ips, Controlled(events).ips);
    BitsOfSubset(h, Known(events, j).agents, Controlled(events).agents);
  }

  lemma Snoc(h: Hash, events: seq<Event>, e: Event)
    ensures Run(h, events + [e]) == Step(h, Run(h, events), e)
  {
    assert (events + [e])[..|events|] == events;
  }

  /** An entry added, to Redis and to the filter, while a sync of the same service is between its reads and
      its rebuild is in Redis but no longer in the filter. */
  lemma AddDuringSyncIsLost(h: Hash, x: string) returns (events: seq<Event>)
    requires h(x) != {}
    ensures events == [Start(0)] + [ReadIps(0)] + [ReadAgents(0)] + [SaddIp(x)] + [LocalIp(0, x)] + [Rebuild(0)]
    ensures var s := Run(h, events);
            x in s.control.ips && 0 in s.filters && !Contains(h, s.filters[0].ipBits, x) && !Clean(h, events, 0)
  {
    var es2 := [Start(0)] + [ReadIps(0)];
    var es4 := es2 + [ReadAgents(0)] + [SaddIp(x)];
    assert [] + [Start(0)] == [Start(0)];
    Snoc(h, [], Start(0));
    Snoc(h, [Start(0)], ReadIps(0));
    Snoc(h, es2, ReadAgents(0));
    Snoc(h, es2 + [ReadAgents(0)], SaddIp(x));
    Snoc(h, es4, LocalIp(0, x));
    Snoc(h, es4 + [LocalIp(0, x)], Rebuild(0));
    events := es4 + [LocalIp(0, x)] + [Rebuild(0)];
    assert BitsOf(h, {}) == {};
  }
}
