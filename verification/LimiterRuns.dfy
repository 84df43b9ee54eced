/** What every run of the per-address limiter keeps: list and map agree, listed by age, within the cap. */
module LimiterRuns {
  import opened TokenBuckets
  import opened RateLimiter

  lemma SweptRest(t: Table, cfg: Config, now: real) returns (k: nat)
    requires Agree(t)
    ensures Rest(t, Swept(t, cfg, now), k)
  {
    k := 0;
    if cfg.idleTimeout > 0.0 {
      k := EvictIdleRest(t, now - cfg.idleTimeout);
    }
  }

  lemma SweptKeeps(t: Table, cfg: Config, now: real, before: real) returns (k: nat)
    requires Agree(t) && ByAge(t, before)
    ensures Rest(t, Swept(t, cfg, now), k) && ByAge(Swept(t, cfg, now), before)
  {
    k := SweptRest(t, cfg, now);
    RestByAge(t, Swept(t, cfg, now), k, before);
  }

  function Pushed(t: Table, ip: Ip, e: Entry): Table {
    Table(t.limits[ip := e], t.order + [ip])
  }

  lemma PushedAgrees(t: Table, ip: Ip, e: Entry)
    requires Agree(t) && ip !in t.limits
    ensures Agree(Pushed(t, ip, e))
  {
    assert ip !in t.order;
    assert Pushed(t, ip, e).order[|t.order|] == ip;
  }

  lemma PushedByAge(t: Table, ip: Ip, e: Entry, before: real)
    requires Agree(t) && ByAge(t, before) && ip !in t.limits && before <= e.lastSeen
    ensures ByAge(Pushed(t, ip, e), e.lastSeen)
  {
    var t' := Pushed(t, ip, e);
    assert t'.order[|t.order|] == ip;
    forall i | 0 <= i < |t.order|
      ensures t'.order[i] == t.order[i] && Seen(t', t'.order[i]) == Seen(t, t.order[i]) <= e.lastSeen
    {
      assert t.order[i] in t.order;
    }
  }

  lemma AdmitAgrees(t: Table, cfg: Config, c: Call)
    requires cfg.rate > 0.0 && Agree(t)
    ensures Agree(Admit(t, cfg, c)) && c.ip in Admit(t, cfg, c).limits
  {
    if c.ip !in t.limits {
      var k := EvictOldestRest(t, cfg.maxEntries);
      PushedAgrees(EvictOldest(t, cfg.maxEntries), c.ip, Entry(NewBucket(cfg.rate, cfg.burst, c.clock), c.now));
    }
  }

  lemma AdmitByAge(t: Table, cfg: Config, c: Call, before: real)
    requires cfg.rate > 0.0 && Agree(t) && ByAge(t, before) && before <= c.now
    ensures ByAge(Admit(t, cfg, c), c.now)
  {
    if c.ip !in t.limits {
      var t' := EvictOldest(t, cfg.maxEntries);
      var k := EvictOldestRest(t, cfg.maxEntries);
      RestByAge(t, t', k, before);
      PushedByAge(t', c.ip, Entry(NewBucket(cfg.rate, cfg.burst, c.clock), c.now), before);
    }
  }

  lemma AdmitFits(t: Table, cfg: Config, c: Call)
    requires cfg.rate > 0.0 && Agree(t) && cfg.maxEntries > 0 && |t.limits| <= cfg.maxEntries
    ensures |Admit(t, cfg, c).limits| <= cfg.maxEntries
  {
    if c.ip !in t.limits {
      var k := EvictOldestRest(t, cfg.maxEntries);
    }
  }

  lemma MovedBack(order: seq<Ip>, ip: Ip, p: nat)
    requires Distinct(order) && p < |order| && order[p] == ip
    ensures var order' := Without(order, ip) + [ip];
            && |order'| == |order| && order'[|order| - 1] == ip
            && (forall i :: 0 <= i < |order| - 1 ==> order'[i] == order[if i < p then i else i + 1])
  {
    WithoutResult(order, ip, p);
  }

  lemma InBoth(a: seq<Ip>, b: seq<Ip>, ip: Ip, x: Ip)
    ensures x in a + b + [ip] <==> x in a + [ip] + b
  {
  }

  lemma MovedBackSame(order: seq<Ip>, ip: Ip, p: nat, x: Ip)
    requires Distinct(order) && p < |order| && order[p] == ip
    ensures x in Without(order, ip) + [ip] <==> x in order
  {
    WithoutResult(order, ip, p);
    InBoth(order[..p], order[p + 1..], ip, x);
    assert order == order[..p] + [ip] + order[p + 1..];
  }

  lemma TouchAgrees(t: Table, c: Call)
    requires c.ip in t.limits && Agree(t)
    ensures Agree(Touch(t, c).0)
  {
    var t' := Touch(t, c).0;
    assert c.ip in t.order;
    var p :| 0 <= p < |t.order| && t.order[p] == c.ip;
    MovedBack(t.order, c.ip, p);
    forall x
      ensures x in t'.order <==> x in t'.limits
    {
      MovedBackSame(t.order, c.ip, p, x);
    }
  }

  lemma MovedByAge(t: Table, t': Table, p: nat, now: real)
    requires ByAge(t, now) && p < |t.order| == |t'.order|
    requires forall x :: x in t'.limits ==> Seen(t', x) <= now
    requires forall i :: 0 <= i < |t.order| - 1 ==> Seen(t', t'.order[i]) == Seen(t, t.order[if i < p then i else i + 1]) <= now
    requires Seen(t', t'.order[|t.order| - 1]) == now
    ensures ByAge(t', now)
  {
  }

  lemma TouchByAge(t: Table, c: Call)
    requires c.ip in t.limits && Agree(t) && ByAge(t, c.now)
    ensures ByAge(Touch(t, c).0, c.now)
  {
    var t' := Touch(t, c).0;
    assert c.ip in t.order;
    var p :| 0 <= p < |t.order| && t.order[p] == c.ip;
    MovedBack(t.order, c.ip, p);
    forall i | 0 <= i < |t.order| - 1
      ensures Seen(t', t'.order[i]) == Seen(t, t.order[if i < p then i else i + 1]) <= c.now
    {
      OthersSeen(t, c, t.order[if i < p then i else i + 1]);
    }
    MovedByAge(t, t', p, c.now);
  }

  lemma OthersSeen(t: Table, c: Call, x: Ip)
    requires c.ip in t.limits && Agree(t) && ByAge(t, c.now) && x in t.order && x != c.ip
    ensures Seen(Touch(t, c).0, x) == Seen(t, x) <= c.now
  {
  }

  lemma CallAgrees(t: Table, cfg: Config, c: Call)
    requires cfg.rate > 0.0 && Agree(t)
    ensures Agree(AllowCall(t, cfg, c).0)
  {
    if c.ip != NO_IP {
      var k := SweptRest(t, cfg, c.now);
      AdmitAgrees(Swept(t, cfg, c.now), cfg, c);
      TouchAgrees(Admit(Swept(t, cfg, c.now), cfg, c), c);
    }
  }

  lemma CallByAge(t: Table, cfg: Config, c: Call, before: real)
    requires cfg.rate > 0.0 && Agree(t) && ByAge(t, before) && before <= c.now
    ensures ByAge(AllowCall(t, cfg, c).0, c.now)
  {
    if c.ip != NO_IP {
      var s := Swept(t, cfg, c.now);
      var k := SweptKeeps(t, cfg, c.now, before);
      AdmitAgrees(s, cfg, c);
      AdmitByAge(s, cfg, c, before);
      TouchByAge(Admit(s, cfg, c), c);
    }
  }

  lemma CallFits(t: Table, cfg: Config, c: Call)
    requires cfg.rate > 0.0 && Agree(t) && cfg.maxEntries > 0 && |t.limits| <= cfg.maxEntries
    ensures |AllowCall(t, cfg, c).0.limits| <= cfg.maxEntries
  {
    if c.ip != NO_IP {
      var s := Swept(t, cfg, c.now);
      var k := SweptRest(t, cfg, c.now);
      RestFits(t, s, k);
      AdmitFits(s, cfg, c);
      AdmitAgrees(s, cfg, c);
      TouchFits(Admit(s, cfg, c), c);
    }
  }

  lemma TouchFits(t: Table, c: Call)
    requires c.ip in t.limits
    ensures |Touch(t, c).0.limits| == |t.limits|
  {
    assert Touch(t, c).0.limits.Keys == t.limits.Keys;
    assert |t.limits.Keys| == |t.limits|;
  }

  lemma {:induction false} SubsetSize(a: set<Ip>, b: set<Ip>)
    requires a <= b
    ensures |a| <= |b|
  {
    if a != {} {
      var x :| x in a;
      SubsetSize(a - {x}, b - {x});
    }
  }

  lemma RestFits(t: Table, t': Table, k: nat)
    requires Rest(t, t', k)
    ensures |t'.limits| <= |t.limits|
  {
    SubsetSize(t'.limits.Keys, t.limits.Keys);
  }

  function Run(t: Table, cfg: Config, calls: seq<Call>): Table
    requires cfg.rate > 0.0
    decreases |calls|
  {
    if calls == [] then t else Run(AllowCall(t, cfg, calls[0]).0, cfg, calls[1..])
  }

  function Answers(t: Table, cfg: Config, calls: seq<Call>): seq<bool>
    requires cfg.rate > 0.0
    decreases |calls|
  {
    if calls == [] then []
    else [AllowCall(t, cfg, calls[0]).1] + Answers(AllowCall(t, cfg, calls[0]).0, cfg, calls[1..])
  }

  /** Call times never run backwards, starting no earlier than `from`. */
  ghost predicate InOrder(calls: seq<Call>, from: real)
    decreases |calls|
  {
    calls != [] ==> from <= calls[0].now && InOrder(calls[1..], calls[0].now)
  }

  function Latest(calls: seq<Call>, from: real): real {
    if calls == [] then from else calls[|calls| - 1].now
  }

  const EMPTY := Table(map[], [])

  /** In every run, whatever the clock does, list and map agree and the cap holds. */
  lemma {:induction false} RunKeeps(t: Table, cfg: Config, calls: seq<Call>)
    requires cfg.rate > 0.0 && Agree(t)
    ensures Agree(Run(t, cfg, calls))
    ensures cfg.maxEntries > 0 && |t.limits| <= cfg.maxEntries ==> |Run(t, cfg, calls).limits| <= cfg.maxEntries
    decreases |calls|
  {
    if calls != [] {
      CallAgrees(t, cfg, calls[0]);
      if cfg.maxEntries > 0 && |t.limits| <= cfg.maxEntries {
        CallFits(t, cfg, calls[0]);
      }
      RunKeeps(AllowCall(t, cfg, calls[0]).0, cfg, calls[1..]);
    }
  }

  /** When the clock never runs backwards, the list stays ordered by age. */
  lemma {:induction false} RunByAge(t: Table, cfg: Config, calls: seq<Call>, from: real)
    requires cfg.rate > 0.0 && Agree(t) && ByAge(t, from) && InOrder(calls, from)
    ensures ByAge(Run(t, cfg, calls), Latest(calls, from))
    decreases |calls|
  {
    if calls != [] {
      CallAgrees(t, cfg, calls[0]);
      CallByAge(t, cfg, calls[0], from);
      RunByAge(AllowCall(t, cfg, calls[0]).0, cfg, calls[1..], calls[0].now);
      assert Latest(calls[1..], calls[0].now) == Latest(calls, from);
    }
  }

  /** Making room forgets the least recently seen: no entry that stays was seen before one that goes. */
  lemma OldestGoFirst(t: Table, cfg: Config, now: real, gone: Ip, stays: Ip)
    requires Agree(t) && ByAge(t, now) && gone in t.limits && stays in t.limits
    requires gone !in EvictOldest(t, cfg.maxEntries).limits && stays in EvictOldest(t, cfg.maxEntries).limits
    ensures Seen(t, gone) <= Seen(t, stays)
  {
    var t' := EvictOldest(t, cfg.maxEntries);
    var k := EvictOldestRest(t, cfg.maxEntries);
    assert stays in t'.order && gone in t.order;
    var i :| 0 <= i < |t.order| && t.order[i] == gone;
    var j :| 0 <= j < |t'.order| && t'.order[j] == stays;
    forall n | k <= n < |t.order|
      ensures t.order[n] in t'.limits
    {
      RestAt(t, t', k, n - k);
    }
    RestAt(t, t', k, j);
  }
}
