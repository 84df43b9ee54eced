/** Token buckets: how many calls they let through in any window. */
module TokenBuckets {

  /** Times are seconds; tokens refill at `rate` per second up to `capacity`. */
  datatype Bucket = Bucket(capacity: real, tokens: real, rate: real, last: real, lastSeen: real)

  function Capacity(rate: real, burst: real): real {
    var b := if burst < 1.0 then 1.0 else burst;
    if b < rate then rate else b
  }

  /** A new bucket is full. The source creates none for a rate that is not positive. */
  function NewBucket(rate: real, burst: real, now: real): Bucket
    requires rate > 0.0
  {
    Bucket(Capacity(rate, burst), Capacity(rate, burst), rate, now, now)
  }

  /** What flows in over a time span. */
  function Flow(rate: real, span: real): real { span * rate }

  function Min(x: real, y: real): real { if x <= y then x else y }

  function Refill(b: Bucket, now: real): Bucket {
    if now < b.last then b.(last := now)
    else if now - b.last <= 0.0 then b
    else b.(tokens := Min(b.capacity, b.tokens + Flow(b.rate, now - b.last)), last := now)
  }

  function Allow(b: Bucket, now: real): (Bucket, bool) {
    var b' := Refill(b, now);
    var seen := b'.(lastSeen := if now > b'.lastSeen then now else b'.lastSeen);
    if seen.tokens >= 1.0 then (seen.(tokens := seen.tokens - 1.0), true) else (seen, false)
  }

  lemma FlowMono(rate: real, x: real, y: real)
    requires rate > 0.0 && x <= y
    ensures Flow(rate, x) <= Flow(rate, y)
    ensures Flow(rate, 0.0) == 0.0
  {
  }

  lemma FlowAdd(rate: real, x: real, y: real)
    ensures Flow(rate, x) + Flow(rate, y) == Flow(rate, x + y)
  {
  }

  ghost predicate Valid(b: Bucket) {
    0.0 <= b.tokens <= b.capacity && b.rate > 0.0 && b.capacity >= 1.0
  }

  /** Tokens stay between zero and the capacity whatever the clock does, and rate and capacity stay fixed. */
  lemma AllowKeeps(b: Bucket, now: real)
    requires Valid(b)
    ensures var b' := Allow(b, now).0;
            Valid(b') && b'.rate == b.rate && b'.capacity == b.capacity && b'.last == now
  {
    if now > b.last {
      FlowMono(b.rate, 0.0, now - b.last);
    }
  }

  function Run(b: Bucket, times: seq<real>): Bucket
    decreases |times|
  {
    if times == [] then b else Run(Allow(b, times[0]).0, times[1..])
  }

  /** How many of the calls are let through. */
  function Allowed(b: Bucket, times: seq<real>): nat
    decreases |times|
  {
    if times == [] then 0
    else (if Allow(b, times[0]).1 then 1 else 0) + Allowed(Allow(b, times[0]).0, times[1..])
  }

  ghost predicate NonDecreasing(times: seq<real>) {
    forall i, j :: 0 <= i < j < |times| ==> times[i] <= times[j]
  }

  lemma {:induction false} RunKeeps(b: Bucket, times: seq<real>)
    requires Valid(b)
    ensures Valid(Run(b, times)) && Run(b, times).rate == b.rate && Run(b, times).capacity == b.capacity
    decreases |times|
  {
    if times != [] {
      AllowKeeps(b, times[0]);
      RunKeeps(Allow(b, times[0]).0, times[1..]);
    }
  }

  lemma RefillBound(b: Bucket, now: real)
    requires Valid(b) && b.last <= now
    ensures Refill(b, now).tokens <= b.tokens + Flow(b.rate, now - b.last)
  {
    FlowMono(b.rate, 0.0, now - b.last);
  }

  lemma RefillRange(b: Bucket, now: real)
    requires Valid(b)
    ensures 0.0 <= Refill(b, now).tokens <= b.capacity
  {
    if now > b.last {
      FlowMono(b.rate, 0.0, now - b.last);
    }
  }

  lemma BoundStep(n: nat, ok: bool, tokens: real, refilled: real, next: real, rate: real, x: real, y: real, z: real)
    requires (n as real) <= next + Flow(rate, z) && next <= tokens + Flow(rate, y) && x == y + z
    requires tokens == refilled - (if ok then 1.0 else 0.0)
    ensures ((n + if ok then 1 else 0) as real) <= refilled + Flow(rate, x)
  {
    FlowAdd(rate, y, z);
  }

  /** What is let through was in the bucket at the first call or has flowed in since. */
  lemma {:induction false} AllowedBound(b: Bucket, times: seq<real>)
    requires Valid(b) && NonDecreasing(times) && times != []
    ensures Allowed(b, times) as real <= Refill(b, times[0]).tokens + Flow(b.rate, times[|times| - 1] - times[0])
    decreases |times|
  {
    var (b', ok) := Allow(b, times[0]);
    AllowKeeps(b, times[0]);
    RefillRange(b, times[0]);
    var rest := times[1..];
    if rest == [] {
      FlowMono(b.rate, 0.0, times[|times| - 1] - times[0]);
      assert Allowed(b', rest) == 0;
    } else {
      AllowedBound(b', rest);
      RefillBound(b', rest[0]);
      BoundStep(Allowed(b', rest), ok, b'.tokens, Refill(b, times[0]).tokens, Refill(b', rest[0]).tokens,
                b.rate, times[|times| - 1] - times[0], rest[0] - times[0], rest[|rest| - 1] - rest[0]);
    }
  }

  /**
   In a run of calls at non-decreasing times, any window `[from, to]` lets through
   at most the capacity plus what flows in during the window.
   */
  lemma WindowBound(b: Bucket, before: seq<real>, within: seq<real>, from: real, to: real)
    requires Valid(b) && NonDecreasing(within) && from <= to
    requires forall i :: 0 <= i < |within| ==> from <= within[i] <= to
    ensures Allowed(Run(b, before), within) as real <= b.capacity + Flow(b.rate, to - from)
  {
    RunKeeps(b, before);
    var b' := Run(b, before);
    if within == [] {
      FlowMono(b.rate, 0.0, to - from);
    } else {
      AllowedBound(b', within);
      RefillRange(b', within[0]);
      FlowMono(b.rate, within[|within| - 1] - within[0], to - from);
    }
  }

  class TokenBucket {
    var capacity: real
    var tokens: real
    var rate: real
    var last: real
    var lastSeen: real

    constructor (rate: real, burst: real, now: real)
      requires rate > 0.0
      ensures View() == NewBucket(rate, burst, now)
    {
      var b := if burst < 1.0 then 1.0 else burst;
      if b < rate {
        b := rate;
      }
      capacity, tokens, this.rate, last, lastSeen := b, b, rate, now, now;
    }

    ghost function View(): Bucket
      reads this
    {
      Bucket(capacity, tokens, rate, last, lastSeen)
    }

    method RefillNow(now: real)
      modifies this
      ensures View() == Refill(old(View()), now)
    {
      if now < last {
        last := now;
        return;
      }
      var elapsed := now - last;
      if elapsed <= 0.0 { return; }
      tokens := Min(capacity, tokens + Flow(rate, elapsed));
      last := now;
    }

    method AllowNow(now: real) returns (ok: bool)
      modifies this
      ensures (View(), ok) == Allow(old(View()), now)
    {
      RefillNow(now);
      if now > lastSeen {
        lastSeen := now;
      }
      if tokens >= 1.0 {
        tokens := tokens - 1.0;
        return true;
      }
      return false;
    }
  }
}
