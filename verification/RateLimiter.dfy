/** Per-address rate limiting: buckets in a map, least recently used first in a list, with idle and size eviction. */
module RateLimiter {
  import opened TokenBuckets

  /** Remote addresses; the empty string is never limited. */
  type Ip = nat
  const NO_IP: Ip := 0

  datatype Entry = Entry(bucket: Bucket, lastSeen: real)

  datatype Config = Config(rate: real, burst: real, idleTimeout: real, maxEntries: nat)

  datatype Table = Table(limits: map<Ip, Entry>, order: seq<Ip>)

  /** A call: who, when, and the wall clock a new bucket is stamped with. */
  datatype Call = Call(ip: Ip, now: real, clock: real)

  /** Forgets the first listed entry. */
  function DropFirst(t: Table): Table
    requires t.order != []
  {
    Table(t.limits - {t.order[0]}, t.order[1..])
  }

  predicate Idle(t: Table, ip: Ip, cutoff: real) {
    ip in t.limits && t.limits[ip].lastSeen < cutoff
  }

  /** Drops entries from the front of the list while they have been idle for longer than the timeout. */
  function EvictIdle(t: Table, cutoff: real): Table
    decreases |t.order|
  {
    if t.order == [] then t
    else if t.order[0] !in t.limits then EvictIdle(t.(order := t.order[1..]), cutoff)
    else if !Idle(t, t.order[0], cutoff) then t
    else EvictIdle(DropFirst(t), cutoff)
  }

  /** Drops entries from the front of the list until one more fits. */
  function EvictOldest(t: Table, maxEntries: nat): Table
    decreases |t.order|
  {
    if maxEntries == 0 || |t.limits| < maxEntries || t.order == [] then t else EvictOldest(DropFirst(t), maxEntries)
  }

  function Swept(t: Table, cfg: Config, now: real): Table {
    if cfg.idleTimeout <= 0.0 then t else EvictIdle(t, now - cfg.idleTimeout)
  }

  function Admit(t: Table, cfg: Config, c: Call): Table
    requires cfg.rate > 0.0
  {
    if c.ip in t.limits then t
    else
      var t' := EvictOldest(t, cfg.maxEntries);
      Table(t'.limits[c.ip := Entry(NewBucket(cfg.rate, cfg.burst, c.clock), c.now)], t'.order + [c.ip])
  }

  function Without(order: seq<Ip>, ip: Ip): seq<Ip> {
    if order == [] then []
    else if order[0] == ip then order[1..]
    else [order[0]] + Without(order[1..], ip)
  }

  /** Moves the entry to the back of the list and asks its bucket. */
  function Touch(t: Table, c: Call): (Table, bool)
    requires c.ip in t.limits
  {
    var (b, ok) := Allow(t.limits[c.ip].bucket, c.now);
    (Table(t.limits[c.ip := Entry(b, c.now)], Without(t.order, c.ip) + [c.ip]), ok)
  }

  function AllowCall(t: Table, cfg: Config, c: Call): (Table, bool)
    requires cfg.rate > 0.0
  {
    if c.ip == NO_IP then (t, true) else Touch(Admit(Swept(t, cfg, c.now), cfg, c), c)
  }

  // ---------- list and map agree ----------

  ghost predicate Distinct(order: seq<Ip>) {
    forall i, j :: 0 <= i < j < |order| ==> order[i] != order[j]
  }

  /** List and map hold the same addresses. */
  ghost predicate Agree(t: Table) {
    Distinct(t.order) && forall ip :: ip in t.order <==> ip in t.limits
  }

  ghost function Seen(t: Table, ip: Ip): real { if ip in t.limits then t.limits[ip].lastSeen else 0.0 }

  /** Entries are listed by when they were last seen, none later than `now`. */
  ghost predicate ByAge(t: Table, now: real) {
    && (forall ip :: ip in t.limits ==> Seen(t, ip) <= now)
    && (forall i, j :: 0 <= i < j < |t.order| ==> Seen(t, t.order[i]) <= Seen(t, t.order[j]))
  }

  /** What is left of a table once the first `k` listed entries are gone. */
  ghost predicate Rest(t: Table, t': Table, k: nat) {
    && k <= |t.order| && t'.order == t.order[k..]
    && Agree(t')
    && (forall ip :: ip in t'.limits ==> ip in t.limits && t'.limits[ip] == t.limits[ip])
  }

  lemma DropFirstRest(t: Table)
    requires Agree(t) && t.order != []
    ensures Rest(t, DropFirst(t), 1)
  {
    var t' := DropFirst(t);
    assert forall i :: 0 <= i < |t'.order| ==> t'.order[i] == t.order[i + 1];
    forall ip
      ensures ip in t'.order <==> ip in t'.limits
    {
      assert t.order == [t.order[0]] + t'.order;
    }
  }

  lemma RestNext(t: Table, t1: Table, t2: Table, k: nat)
    requires Rest(t, t1, 1) && Rest(t1, t2, k)
    ensures Rest(t, t2, k + 1)
  {
  }

  lemma RestAt(t: Table, t': Table, k: nat, i: nat)
    requires Rest(t, t', k) && k + i < |t.order|
    ensures t'.order[i] == t.order[k + i] && t.order[k + i] in t'.limits && Seen(t', t.order[k + i]) == Seen(t, t.order[k + i])
  {
    assert t'.order[i] in t'.order;
  }

  lemma RestByAge(t: Table, t': Table, k: nat, now: real)
    requires Agree(t) && ByAge(t, now) && Rest(t, t', k)
    ensures ByAge(t', now)
  {
    forall i | 0 <= i < |t'.order|
      ensures t'.order[i] == t.order[k + i] && Seen(t', t'.order[i]) == Seen(t, t.order[k + i])
    {
      RestAt(t, t', k, i);
    }
  }

  /** Idle eviction forgets entries from the front, up to one that is not idle. */
  lemma {:induction false} EvictIdleRest(t: Table, cutoff: real) returns (k: nat)
    requires Agree(t)
    ensures Rest(t, EvictIdle(t, cutoff), k)
    ensures EvictIdle(t, cutoff).order != [] ==> !Idle(EvictIdle(t, cutoff), EvictIdle(t, cutoff).order[0], cutoff)
    decreases |t.order|
  {
    k := 0;
    if t.order != [] {
      assert t.order[0] in t.order;
      if Idle(t, t.order[0], cutoff) {
        var t1 := DropFirst(t);
        DropFirstRest(t);
        var k1 := EvictIdleRest(t1, cutoff);
        RestNext(t, t1, EvictIdle(t1, cutoff), k1);
        k := k1 + 1;
      }
    }
  }

  /** Only idle entries are forgotten. */
  lemma {:induction false} EvictIdleOnly(t: Table, cutoff: real, ip: Ip)
    requires ip in t.limits && !Idle(t, ip, cutoff)
    ensures ip in EvictIdle(t, cutoff).limits
    decreases |t.order|
  {
    if t.order != [] {
      if t.order[0] !in t.limits {
        EvictIdleOnly(t.(order := t.order[1..]), cutoff, ip);
      } else if Idle(t, t.order[0], cutoff) {
        EvictIdleOnly(DropFirst(t), cutoff, ip);
      }
    }
  }

  /** Size eviction forgets some of the oldest entries, and none without a limit. */
  lemma {:induction false} EvictOldestRest(t: Table, maxEntries: nat) returns (k: nat)
    requires Agree(t)
    ensures Rest(t, EvictOldest(t, maxEntries), k)
    ensures maxEntries == 0 ==> EvictOldest(t, maxEntries) == t
    ensures maxEntries > 0 ==> |EvictOldest(t, maxEntries).limits| < maxEntries
    decreases |t.order|
  {
    if t.order == [] {
      assert t.limits == map[];
      k := 0;
    } else if maxEntries == 0 || |t.limits| < maxEntries {
      k := 0;
    } else {
      var t1 := DropFirst(t);
      DropFirstRest(t);
      k := EvictOldestRest(t1, maxEntries);
      RestNext(t, t1, EvictOldest(t1, maxEntries), k);
      k := k + 1;
    }
  }

  lemma {:induction false} WithoutResult(order: seq<Ip>, ip: Ip, p: nat)
    requires Distinct(order) && p < |order| && order[p] == ip
    ensures Without(order, ip) == order[..p] + order[p + 1..]
  {
    if p == 0 {
      assert order[..0] + order[1..] == order[1..];
    } else {
      WithoutResult(order[1..], ip, p - 1);
      assert order[..p] + order[p + 1..] == [order[0]] + (order[1..][..p - 1] + order[1..][p..]);
    }
  }

  lemma OldestFirst(t: Table, now: real, ip: Ip)
    requires Agree(t) && ByAge(t, now) && ip in t.limits
    ensures t.order != [] && Seen(t, t.order[0]) <= Seen(t, ip)
  {
    assert ip in t.order;
    var i :| 0 <= i < |t.order| && t.order[i] == ip;
  }

  lemma FirstDecides(t: Table, cutoff: real, now: real, ip: Ip)
    requires Agree(t) && ByAge(t, now) && ip in t.limits
    requires t.order != [] ==> !Idle(t, t.order[0], cutoff)
    ensures !Idle(t, ip, cutoff)
  {
    OldestFirst(t, now, ip);
    assert t.order[0] in t.order;
  }

  lemma EvictIdleAll(t: Table, cutoff: real, now: real, ip: Ip)
    requires Agree(t) && ByAge(t, now) && ip in t.limits && Idle(t, ip, cutoff)
    ensures ip !in EvictIdle(t, cutoff).limits
  {
    var k := EvictIdleRest(t, cutoff);
    RestByAge(t, EvictIdle(t, cutoff), k, now);
    if ip in EvictIdle(t, cutoff).limits {
      FirstDecides(EvictIdle(t, cutoff), cutoff, now, ip);
    }
  }

  /** A sweep forgets an address exactly when it has been idle for longer than the timeout. */
  lemma SweptExact(t: Table, cfg: Config, now: real, before: real, ip: Ip)
    requires Agree(t) && ByAge(t, before) && ip in t.limits
    ensures ip !in Swept(t, cfg, now).limits <==> cfg.idleTimeout > 0.0 && Idle(t, ip, now - cfg.idleTimeout)
  {
    if cfg.idleTimeout > 0.0 {
      if Idle(t, ip, now - cfg.idleTimeout) {
        EvictIdleAll(t, now - cfg.idleTimeout, before, ip);
      } else {
        EvictIdleOnly(t, now - cfg.idleTimeout, ip);
      }
    }
  }
}
