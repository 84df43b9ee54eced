/** The converse: with a shorter timeout some run of one address tells the two limiters apart. */
module LimiterWitness {
  import opened TokenBuckets
  import opened RateLimiter
  import opened LimiterRuns
  import opened LimiterEviction

  // ---------- one address ----------

  /** The bucket the limiter asks: a new one once the address has been idle for too long. */
  function Remembered(cfg: Config, b: Bucket, now: real): Bucket
    requires cfg.rate > 0.0
  {
    if b.last < now - cfg.idleTimeout then NewBucket(cfg.rate, cfg.burst, now) else b
  }

  function Forgetful(cfg: Config, b: Bucket, times: seq<real>): seq<bool>
    requires cfg.rate > 0.0
    decreases |times|
  {
    if times == [] then []
    else
      var (b', ok) := Allow(Remembered(cfg, b, times[0]), times[0]);
      [ok] + Forgetful(cfg, b', times[1..])
  }

  function Steady(b: Bucket, times: seq<real>): seq<bool>
    decreases |times|
  {
    if times == [] then [] else [Allow(b, times[0]).1] + Steady(Allow(b, times[0]).0, times[1..])
  }

  ghost predicate Rising(times: seq<real>, from: real)
    decreases |times|
  {
    times != [] ==> from <= times[0] && Rising(times[1..], times[0])
  }

  /** Calls at these times tell a forgetful limiter with bucket `p` from a steady one with bucket `q`. */
  ghost predicate Tells(cfg: Config, p: Bucket, q: Bucket, from: real, times: seq<real>)
    requires cfg.rate > 0.0
  {
    Rising(times, from) && Forgetful(cfg, p, times) != Steady(q, times)
  }

  lemma TellsNow(cfg: Config, p: Bucket, q: Bucket, from: real, now: real)
    requires cfg.rate > 0.0 && from <= now
    requires Allow(Remembered(cfg, p, now), now).1 != Allow(q, now).1
    ensures Tells(cfg, p, q, from, [now])
  {
    assert Forgetful(cfg, p, [now])[0] != Steady(q, [now])[0];
  }

  lemma TellsLater(cfg: Config, p: Bucket, q: Bucket, from: real, now: real, times: seq<real>)
    requires cfg.rate > 0.0 && from <= now
    requires Tells(cfg, Allow(Remembered(cfg, p, now), now).0, Allow(q, now).0, now, times)
    ensures Tells(cfg, p, q, from, [now] + times)
  {
    assert ([now] + times)[1..] == times;
    assert Forgetful(cfg, p, [now] + times)[1..] != Steady(q, [now] + times)[1..];
  }

  /** The call after which an empty bucket with a part token holds a whole one. */
  function Wait(rate: real, part: real): real
    requires rate > 0.0
  {
    (1.0 - part) / rate
  }

  lemma WaitFills(rate: real, part: real)
    requires rate > 0.0
    ensures Flow(rate, Wait(rate, part)) == 1.0 - part
    ensures part < 1.0 ==> Wait(rate, part) > 0.0
  {
  }

  lemma FlowStrict(rate: real, x: real, y: real)
    requires rate > 0.0 && x < y
    ensures Flow(rate, x) < Flow(rate, y)
  {
  }

  /** Left with less than the other, the steady bucket refuses where the forgetful one has just refilled a token. */
  lemma PartTells(cfg: Config, p: Bucket, q: Bucket) returns (times: seq<real>)
    requires cfg.rate > 0.0 && Of(cfg, p) && Of(cfg, q) && p.last == q.last
    requires p.tokens < 1.0 && q.tokens < p.tokens && Wait(cfg.rate, p.tokens) <= cfg.idleTimeout
    ensures Tells(cfg, p, q, p.last, times)
  {
    WaitFills(cfg.rate, p.tokens);
    var now := p.last + Wait(cfg.rate, p.tokens);
    times := [now];
    TellsNow(cfg, p, q, p.last, now);
  }

  /** Spending whole tokens in one burst brings that difference out. */
  lemma {:induction false} BurstTells(cfg: Config, p: Bucket, q: Bucket, k: nat, part: real) returns (times: seq<real>)
    requires cfg.rate > 0.0 && Of(cfg, p) && Of(cfg, q) && p.last == q.last && cfg.idleTimeout > 0.0
    requires 0.0 <= part < 1.0 && Wait(cfg.rate, part) <= cfg.idleTimeout
    requires p.tokens == k as real + part && q.tokens < p.tokens
    ensures Tells(cfg, p, q, p.last, times)
    ensures k > 0 ==> times != [] && times[0] == p.last
    decreases k
  {
    if k == 0 {
      times := PartTells(cfg, p, q);
    } else if q.tokens < 1.0 {
      times := [p.last];
      TellsNow(cfg, p, q, p.last, p.last);
    } else {
      var rest := BurstTells(cfg, Allow(p, p.last).0, Allow(q, p.last).0, k - 1, part);
      times := [p.last] + rest;
      TellsLater(cfg, p, q, p.last, p.last, rest);
    }
  }

  lemma Between(rate: real, low: real, bound: real) returns (mid: real)
    requires rate > 0.0 && Flow(rate, low) < bound
    ensures low < mid && Flow(rate, mid) < bound
  {
    var high := bound / rate;
    assert Flow(rate, high) == bound;
    if high <= low {
      FlowMono(rate, high, low);
    }
    mid := (low + high) / 2.0;
    FlowStrict(rate, mid, high);
  }

  /** From an empty bucket: just past the timeout one limiter has a full bucket and the other has not. */
  lemma EmptyTells(cfg: Config, b: Bucket, n: nat, part: real) returns (times: seq<real>)
    requires cfg.rate > 0.0 && Of(cfg, b) && b.tokens == 0.0 && cfg.idleTimeout > 0.0
    requires Flow(cfg.rate, cfg.idleTimeout) < b.capacity == n as real + part
    requires 0.0 <= part < 1.0 && Wait(cfg.rate, part) <= cfg.idleTimeout
    ensures Tells(cfg, b, b, b.last, times)
  {
    var d := Between(cfg.rate, cfg.idleTimeout, b.capacity);
    var now := b.last + d;
    FlowMono(cfg.rate, 0.0, d);
    var p, q := NewBucket(cfg.rate, cfg.burst, now), Refill(b, now);
    assert q.tokens == Flow(cfg.rate, d);
    times := BurstTells(cfg, p, q, n, part);
    assert Remembered(cfg, b, now) == p == Remembered(cfg, p, now);
    assert Refill(q, now) == q;
    assert Forgetful(cfg, b, times) == Forgetful(cfg, p, times);
    assert Steady(b, times) == Steady(q, times);
  }

  /** From a bucket with only a part token left. */
  lemma SpentTells(cfg: Config, b: Bucket, n: nat) returns (times: seq<real>)
    requires cfg.rate > 0.0 && Of(cfg, b) && b.tokens < 1.0 && cfg.idleTimeout > 0.0
    requires Flow(cfg.rate, cfg.idleTimeout) < b.capacity == n as real + b.tokens
    ensures Tells(cfg, b, b, b.last, times)
  {
    var part := b.tokens;
    WaitFills(cfg.rate, part);
    if Wait(cfg.rate, part) > cfg.idleTimeout {
      FlowStrict(cfg.rate, cfg.idleTimeout, Wait(cfg.rate, part));
      var d := Between(cfg.rate, cfg.idleTimeout, 1.0 - part);
      times := [b.last + d];
      TellsNow(cfg, b, b, b.last, b.last + d);
    } else {
      var now := b.last + Wait(cfg.rate, part);
      AllowKeeps(b, now);
      var rest := EmptyTells(cfg, Allow(b, now).0, n, part);
      times := [now] + rest;
      TellsLater(cfg, b, b, b.last, now, rest);
    }
  }

  lemma {:induction false} DrainTells(cfg: Config, b: Bucket, k: nat, n: nat, part: real) returns (times: seq<real>)
    requires cfg.rate > 0.0 && Of(cfg, b) && cfg.idleTimeout > 0.0 && 0.0 <= part < 1.0
    requires b.tokens == k as real + part && Flow(cfg.rate, cfg.idleTimeout) < b.capacity == n as real + part
    ensures Tells(cfg, b, b, b.last, times)
    ensures k > 0 ==> times != [] && times[0] == b.last
    decreases k
  {
    if k == 0 {
      times := SpentTells(cfg, b, n);
    } else {
      var rest := DrainTells(cfg, Allow(b, b.last).0, k - 1, n, part);
      times := [b.last] + rest;
      TellsLater(cfg, b, b, b.last, b.last, rest);
    }
  }

  // ---------- back to the tables ----------

  const ADDRESS: Ip := 1

  function CallsAt(times: seq<real>): seq<Call> {
    if times == [] then [] else [Call(ADDRESS, times[0], times[0])] + CallsAt(times[1..])
  }

  lemma {:induction false} CallsRise(times: seq<real>, from: real)
    requires Rising(times, from)
    ensures InOrder(CallsAt(times), from)
    decreases |times|
  {
    if times != [] {
      CallsRise(times[1..], times[0]);
      assert CallsAt(times)[1..] == CallsAt(times[1..]);
    }
  }

  function Lone(b: Bucket): Table { Table(map[ADDRESS := Entry(b, b.last)], [ADDRESS]) }

  lemma LoneCall(cfg: Config, b: Bucket, now: real)
    requires cfg.rate > 0.0 && cfg.maxEntries == 0 && cfg.idleTimeout > 0.0
    ensures var (b', ok) := Allow(Remembered(cfg, b, now), now);
            AllowCall(Lone(b), cfg, Call(ADDRESS, now, now)) == (Lone(b'), ok)
  {
    var c := Call(ADDRESS, now, now);
    var t := Lone(b);
    if b.last < now - cfg.idleTimeout {
      assert Idle(t, t.order[0], now - cfg.idleTimeout);
      assert DropFirst(t) == EMPTY;
      assert EvictIdle(DropFirst(t), now - cfg.idleTimeout) == EMPTY;
      assert Swept(t, cfg, now) == EMPTY;
    } else {
      assert Swept(t, cfg, now) == t;
    }
    LoneTouch(Admit(Swept(t, cfg, now), cfg, c).limits[ADDRESS], c);
  }

  lemma LoneTouch(e: Entry, c: Call)
    requires c.ip == ADDRESS
    ensures var (b', ok) := Allow(e.bucket, c.now);
            Touch(Table(map[ADDRESS := e], [ADDRESS]), c) == (Lone(b'), ok)
  {
    var b' := Allow(e.bucket, c.now).0;
    assert map[ADDRESS := e][ADDRESS := Entry(b', c.now)] == map[ADDRESS := Entry(b', c.now)];
    assert Without([ADDRESS], ADDRESS) + [ADDRESS] == [ADDRESS];
  }

  lemma FirstCall(cfg: Config, now: real)
    requires cfg.rate > 0.0 && cfg.maxEntries == 0
    ensures var (b', ok) := Allow(NewBucket(cfg.rate, cfg.burst, now), now);
            AllowCall(EMPTY, cfg, Call(ADDRESS, now, now)) == (Lone(b'), ok)
  {
    var e := Entry(NewBucket(cfg.rate, cfg.burst, now), now);
    assert EMPTY.order + [ADDRESS] == [ADDRESS];
    LoneTouch(e, Call(ADDRESS, now, now));
  }

  lemma {:induction false} LoneAnswers(cfg: Config, b: Bucket, times: seq<real>)
    requires cfg.rate > 0.0 && cfg.maxEntries == 0 && cfg.idleTimeout > 0.0
    ensures Answers(Lone(b), cfg, CallsAt(times)) == Forgetful(cfg, b, times)
    decreases |times|
  {
    if times != [] {
      LoneCall(cfg, b, times[0]);
      LoneAnswers(cfg, Allow(Remembered(cfg, b, times[0]), times[0]).0, times[1..]);
      assert CallsAt(times)[1..] == CallsAt(times[1..]);
    }
  }

  lemma {:induction false} LonePlain(cfg: Config, b: Bucket, times: seq<real>)
    requires cfg.rate > 0.0
    ensures PlainAnswers(map[ADDRESS := b], cfg, CallsAt(times)) == Steady(b, times)
    decreases |times|
  {
    if times != [] {
      var b' := Allow(b, times[0]).0;
      assert map[ADDRESS := b][ADDRESS := b'] == map[ADDRESS := b'];
      LonePlain(cfg, b', times[1..]);
      assert CallsAt(times)[1..] == CallsAt(times[1..]);
    }
  }

  /** Call times never run backwards. */
  ghost predicate Ordered(calls: seq<Call>) { calls == [] || InOrder(calls, calls[0].now) }

  /** Starting empty, both limiters give the same answers. */
  ghost predicate Alike(cfg: Config, calls: seq<Call>)
    requires cfg.rate > 0.0
  {
    Answers(EMPTY, cfg, calls) == PlainAnswers(map[], cfg, calls)
  }

  /** A timeout shorter than the refill time is visible to a single address. */
  lemma ShortTimeoutTells(cfg: Config) returns (calls: seq<Call>)
    requires cfg.rate > 0.0 && cfg.maxEntries == 0 && !Enough(cfg)
    ensures Ordered(calls) && !Alike(cfg, calls)
  {
    var b := NewBucket(cfg.rate, cfg.burst, 0.0);
    var n := b.capacity.Floor;
    var times := DrainTells(cfg, b, n, n, b.capacity - n as real);
    calls := CallsAt(times);
    CallsRise(times, 0.0);
    assert calls[1..] == CallsAt(times[1..]);
    FirstCall(cfg, 0.0);
    var b' := Allow(b, 0.0).0;
    LoneAnswers(cfg, b', times[1..]);
    assert map[][ADDRESS := b'] == map[ADDRESS := b'];
    LonePlain(cfg, b', times[1..]);
  }

  /**
   Without a size cap, the limiter answers every run of calls at non-decreasing times as one
   that never forgets an address, if and only if the idle timeout lets an empty bucket refill.
   */
  lemma EvictionInvisible(cfg: Config)
    requires cfg.rate > 0.0 && cfg.maxEntries == 0
    ensures Enough(cfg) <==>
            forall calls: seq<Call> :: Ordered(calls) ==> Alike(cfg, calls)
  {
    if Enough(cfg) {
      forall calls: seq<Call> | Ordered(calls)
        ensures Alike(cfg, calls)
      {
        if calls != [] {
          CoupledAnswers(EMPTY, map[], cfg, calls, calls[0].now);
        }
      }
    } else {
      var calls := ShortTimeoutTells(cfg);
    }
  }
}
