/** When forgetting idle addresses is invisible: comparison with a limiter that never forgets one. */
module LimiterEviction {
  import opened TokenBuckets
  import opened RateLimiter
  import opened LimiterRuns

  // ---------- the limiter that never forgets ----------

  function BucketFor(m: map<Ip, Bucket>, cfg: Config, c: Call): Bucket
    requires cfg.rate > 0.0
  {
    if c.ip in m then m[c.ip] else NewBucket(cfg.rate, cfg.burst, c.clock)
  }

  function PlainCall(m: map<Ip, Bucket>, cfg: Config, c: Call): (map<Ip, Bucket>, bool)
    requires cfg.rate > 0.0
  {
    if c.ip == NO_IP then (m, true)
    else
      var (b, ok) := Allow(BucketFor(m, cfg, c), c.now);
      (m[c.ip := b], ok)
  }

  function PlainAnswers(m: map<Ip, Bucket>, cfg: Config, calls: seq<Call>): seq<bool>
    requires cfg.rate > 0.0
    decreases |calls|
  {
    if calls == [] then []
    else [PlainCall(m, cfg, calls[0]).1] + PlainAnswers(PlainCall(m, cfg, calls[0]).0, cfg, calls[1..])
  }

  // ---------- a bucket that has refilled is as good as new ----------

  /** Equal up to the time of the last sighting, which no answer depends on. */
  ghost predicate Same(x: Bucket, y: Bucket) {
    x.capacity == y.capacity && x.tokens == y.tokens && x.rate == y.rate && x.last == y.last
  }

  ghost predicate Of(cfg: Config, b: Bucket) {
    Valid(b) && b.rate == cfg.rate && b.capacity == Capacity(cfg.rate, cfg.burst)
  }

  /** By `now` the bucket is full again. */
  ghost predicate Full(b: Bucket, now: real) {
    b.last <= now && b.tokens + Flow(b.rate, now - b.last) >= b.capacity
  }

  lemma FullLater(b: Bucket, now: real, later: real)
    requires b.rate > 0.0 && Full(b, now) && now <= later
    ensures Full(b, later)
  {
    FlowMono(b.rate, now - b.last, later - b.last);
  }

  lemma FullIsNew(cfg: Config, b: Bucket, now: real, clock: real)
    requires cfg.rate > 0.0 && Of(cfg, b) && Full(b, now)
    ensures var x, y := Allow(b, now), Allow(NewBucket(cfg.rate, cfg.burst, clock), now);
            Same(x.0, y.0) && x.1 && y.1
  {
    FlowMono(b.rate, 0.0, now - b.last);
    if clock <= now {
      FlowMono(b.rate, 0.0, now - clock);
    }
  }

  // ---------- the two limiters side by side ----------

  /** The timeout is long enough for an empty bucket to refill. */
  predicate Enough(cfg: Config) {
    cfg.idleTimeout <= 0.0 || Flow(cfg.rate, cfg.idleTimeout) >= Capacity(cfg.rate, cfg.burst)
  }

  ghost predicate Match(t: Table, m: map<Ip, Bucket>, cfg: Config, now: real, ip: Ip) {
    && (ip in m ==> Of(cfg, m[ip]) && m[ip].last <= now && (ip in t.limits || Full(m[ip], now)))
    && (ip in t.limits ==> ip in m && Same(t.limits[ip].bucket, m[ip]) && t.limits[ip].lastSeen == m[ip].last)
  }

  ghost predicate Coupled(t: Table, m: map<Ip, Bucket>, cfg: Config, now: real) {
    Agree(t) && ByAge(t, now) && forall ip :: Match(t, m, cfg, now, ip)
  }

  lemma SweptMatch(t: Table, m: map<Ip, Bucket>, cfg: Config, before: real, now: real, ip: Ip)
    requires cfg.rate > 0.0 && Enough(cfg) && Agree(t) && ByAge(t, before) && before <= now
    requires Match(t, m, cfg, before, ip)
    ensures Match(Swept(t, cfg, now), m, cfg, now, ip)
  {
    var k := SweptKeeps(t, cfg, now, before);
    if ip in t.limits {
      SweptExact(t, cfg, now, before, ip);
      if ip !in Swept(t, cfg, now).limits {
        FlowMono(cfg.rate, cfg.idleTimeout, now - m[ip].last);
      }
    } else if ip in m {
      FullLater(m[ip], before, now);
    }
  }

  /** One call: same answer, and the tables still match. */
  lemma CallMatch(s: Table, m: map<Ip, Bucket>, cfg: Config, c: Call)
    requires cfg.rate > 0.0 && cfg.maxEntries == 0 && c.ip != NO_IP && Match(s, m, cfg, c.now, c.ip)
    ensures var x, y := Touch(Admit(s, cfg, c), c), PlainCall(m, cfg, c);
            x.1 == y.1 && Match(x.0, y.0, cfg, c.now, c.ip)
  {
    var b := BucketFor(m, cfg, c);
    AllowKeeps(b, c.now);
    if c.ip in m && c.ip !in s.limits {
      FullIsNew(cfg, b, c.now, c.clock);
    }
  }

  lemma CallSpares(s: Table, m: map<Ip, Bucket>, cfg: Config, c: Call, ip: Ip)
    requires cfg.rate > 0.0 && cfg.maxEntries == 0 && c.ip != NO_IP && ip != c.ip && Match(s, m, cfg, c.now, ip)
    ensures Match(Touch(Admit(s, cfg, c), c).0, PlainCall(m, cfg, c).0, cfg, c.now, ip)
  {
  }

  lemma CallCoupled(t: Table, m: map<Ip, Bucket>, cfg: Config, c: Call, before: real)
    requires cfg.rate > 0.0 && cfg.maxEntries == 0 && Enough(cfg) && Coupled(t, m, cfg, before) && before <= c.now
    ensures AllowCall(t, cfg, c).1 == PlainCall(m, cfg, c).1
    ensures Coupled(AllowCall(t, cfg, c).0, PlainCall(m, cfg, c).0, cfg, c.now)
  {
    CallAgrees(t, cfg, c);
    CallByAge(t, cfg, c, before);
    var s := Swept(t, cfg, c.now);
    forall ip
      ensures Match(AllowCall(t, cfg, c).0, PlainCall(m, cfg, c).0, cfg, c.now, ip)
    {
      assert Match(t, m, cfg, before, ip);
      SweptMatch(t, m, cfg, before, c.now, ip);
      if c.ip == NO_IP {
        if ip in m && ip !in t.limits { FullLater(m[ip], before, c.now); }
      } else if ip == c.ip {
        CallMatch(s, m, cfg, c);
      } else {
        CallSpares(s, m, cfg, c, ip);
      }
    }
    if c.ip != NO_IP {
      assert Match(t, m, cfg, before, c.ip);
      SweptMatch(t, m, cfg, before, c.now, c.ip);
      CallMatch(s, m, cfg, c);
    }
  }

  lemma {:induction false} CoupledAnswers(t: Table, m: map<Ip, Bucket>, cfg: Config, calls: seq<Call>, from: real)
    requires cfg.rate > 0.0 && cfg.maxEntries == 0 && Enough(cfg) && Coupled(t, m, cfg, from) && InOrder(calls, from)
    ensures Answers(t, cfg, calls) == PlainAnswers(m, cfg, calls)
    decreases |calls|
  {
    if calls != [] {
      CallCoupled(t, m, cfg, calls[0], from);
      CoupledAnswers(AllowCall(t, cfg, calls[0]).0, PlainCall(m, cfg, calls[0]).0, cfg, calls[1..], calls[0].now);
    }
  }
}
