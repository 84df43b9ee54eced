/** The limiter object: token buckets by address and the list of addresses, updated in place. */
module IpRateLimiter {
  import opened TokenBuckets
  import opened RateLimiter
  import opened LimiterRuns

  datatype Slot = Slot(bucket: TokenBucket, lastSeen: real)

  ghost function Moved(t: Table, c: Call): Table
    requires c.ip in t.limits
  {
    Table(t.limits[c.ip := t.limits[c.ip].(lastSeen := c.now)], Without(t.order, c.ip) + [c.ip])
  }

  ghost function Asked(t: Table, c: Call): (Table, bool)
    requires c.ip in t.limits
  {
    var (b, ok) := Allow(t.limits[c.ip].bucket, c.now);
    (t.(limits := t.limits[c.ip := t.limits[c.ip].(bucket := b)]), ok)
  }

  lemma MovedAsked(t: Table, c: Call)
    requires c.ip in t.limits
    ensures Asked(Moved(t, c), c) == Touch(t, c)
  {
    var e := t.limits[c.ip].(lastSeen := c.now);
    var b := Allow(e.bucket, c.now).0;
    assert t.limits[c.ip := e][c.ip := e.(bucket := b)] == t.limits[c.ip := Entry(b, c.now)];
  }

  class Limiter {
    const cfg: Config
    var limits: map<Ip, Slot>
    var order: seq<Ip>

    constructor (cfg: Config)
      requires cfg.rate > 0.0
      ensures Valid() && this.cfg == cfg && View() == Table(map[], []) && Buckets() == {}
    {
      this.cfg := cfg;
      limits, order := map[], [];
    }

    ghost function Buckets(): set<TokenBucket>
      reads this
    {
      set ip | ip in limits :: limits[ip].bucket
    }

    ghost function View(): Table
      reads this, Buckets()
    {
      Table(map ip | ip in limits :: Entry(limits[ip].bucket.View(), limits[ip].lastSeen), order)
    }

    /** No two addresses share a bucket. */
    ghost predicate Apart()
      reads this
    {
      cfg.rate > 0.0 && forall x, y :: x in limits && y in limits && x != y ==> limits[x].bucket != limits[y].bucket
    }

    ghost predicate Valid()
      reads this, Buckets()
    {
      Apart() && Agree(View())
    }

    method RemoveFirst()
      requires Apart() && order != []
      modifies this
      ensures Apart() && View() == DropFirst(old(View())) && Buckets() <= old(Buckets())
      ensures limits.Keys <= old(limits.Keys)
    {
      limits, order := limits - {order[0]}, order[1..];
    }

    method EvictIdleNow(now: real)
      requires Apart()
      modifies this
      ensures Apart() && View() == Swept(old(View()), cfg, now) && Buckets() <= old(Buckets())
    {
      if cfg.idleTimeout <= 0.0 { return; }
      var cutoff := now - cfg.idleTimeout;
      while order != []
        invariant Apart() && Buckets() <= old(Buckets())
        invariant EvictIdle(View(), cutoff) == Swept(old(View()), cfg, now)
        decreases |order|
      {
        if order[0] !in limits {
          ghost var t := View();
          order := order[1..];
          assert View() == t.(order := t.order[1..]);
        } else {
          if limits[order[0]].lastSeen >= cutoff { return; }
          RemoveFirst();
        }
      }
    }

    method EvictOldestNow()
      requires Apart()
      modifies this
      ensures Apart() && View() == EvictOldest(old(View()), cfg.maxEntries) && Buckets() <= old(Buckets())
      ensures limits.Keys <= old(limits.Keys)
    {
      if cfg.maxEntries == 0 { return; }
      while |limits| >= cfg.maxEntries
        invariant Apart() && Buckets() <= old(Buckets())
        invariant limits.Keys <= old(limits.Keys)
        invariant EvictOldest(View(), cfg.maxEntries) == EvictOldest(old(View()), cfg.maxEntries)
        decreases |order|
      {
        assert |View().limits| == |limits| by { assert View().limits.Keys == limits.Keys; }
        if order == [] { return; }
        RemoveFirst();
      }
      assert |View().limits| == |limits| by { assert View().limits.Keys == limits.Keys; }
    }

    method AddEntry(c: Call)
      requires Apart() && c.ip !in limits
      modifies this
      ensures Apart() && c.ip in limits && fresh(Buckets() - old(Buckets()))
      ensures View() == Pushed(old(View()), c.ip, Entry(NewBucket(cfg.rate, cfg.burst, c.clock), c.now))
    {
      var bucket := new TokenBucket(cfg.rate, cfg.burst, c.clock);
      limits, order := limits[c.ip := Slot(bucket, c.now)], order + [c.ip];
    }

    /** The entry's own bucket, and no other, answers. */
    method AskBucket(c: Call) returns (ok: bool)
      requires Apart() && c.ip in limits
      modifies limits[c.ip].bucket
      ensures (View(), ok) == Asked(old(View()), c)
    {
      ok := limits[c.ip].bucket.AllowNow(c.now);
      assert View().limits == Asked(old(View()), c).0.limits;
    }

    /** The entry moves to the back of the list. */
    method MoveBack(c: Call)
      requires Apart() && c.ip in limits
      modifies this
      ensures Apart() && Buckets() == old(Buckets()) && View() == Moved(old(View()), c)
      ensures c.ip in limits && limits[c.ip].bucket == old(limits[c.ip].bucket)
    {
      limits, order := limits[c.ip := limits[c.ip].(lastSeen := c.now)], Without(order, c.ip) + [c.ip];
      assert limits.Keys == old(limits.Keys);
      assert forall ip :: ip in limits ==> limits[ip].bucket == old(limits)[ip].bucket;
    }

    method TouchEntry(c: Call) returns (ok: bool)
      requires Apart() && c.ip in limits
      modifies this, limits[c.ip].bucket
      ensures Apart() && Buckets() == old(Buckets()) && (View(), ok) == Touch(old(View()), c)
    {
      MovedAsked(View(), c);
      MoveBack(c);
      ok := AskBucket(c);
    }

    method AdmitNow(c: Call)
      requires Apart()
      modifies this
      ensures Apart() && c.ip in limits && fresh(Buckets() - old(Buckets()))
      ensures View() == Admit(old(View()), cfg, c)
    {
      if c.ip !in limits {
        EvictOldestNow();
        AddEntry(c);
      }
    }

    method SweepAndAllow(c: Call) returns (ok: bool)
      requires Apart()
      modifies this, Buckets()
      ensures Apart() && fresh(Buckets() - old(Buckets()))
      ensures (View(), ok) == AllowCall(old(View()), cfg, c)
    {
      if c.ip == NO_IP { return true; }
      EvictIdleNow(c.now);
      AdmitNow(c);
      assert limits[c.ip].bucket in Buckets();
      ok := TouchEntry(c);
    }

    /** A call keeps the list and the map in agreement. */
    method AllowNow(c: Call) returns (ok: bool)
      requires Valid()
      modifies this, Buckets()
      ensures Valid() && fresh(Buckets() - old(Buckets()))
      ensures (View(), ok) == AllowCall(old(View()), cfg, c)
    {
      CallAgrees(View(), cfg, c);
      ok := SweepAndAllow(c);
    }
  }
}
