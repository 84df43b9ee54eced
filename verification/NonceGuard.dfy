/** The handshake nonce guard: which nonces it remembers, and what sweeping and the size cap forget. */
module NonceGuard {

  /** Fingerprints of a node and nonce; the empty string stands for a pair that has none. */
  type Key = nat
  const NO_KEY: Key := 0

  const DEFAULT_MAX_ENTRIES: nat := 100_000

  datatype Record = Record(seen: int, expiry: int)

  /** The newest key is first in `order`. */
  datatype Guard = Guard(entries: map<Key, Record>, order: seq<Key>, max: nat, ttl: nat)

  /** Forgets the oldest key. */
  function DropOldest(g: Guard): Guard
    requires g.order != []
  {
    var last := |g.order| - 1;
    g.(entries := g.entries - {g.order[last]}, order := g.order[..last])
  }

  function EvictOverflow(g: Guard): Guard
    decreases |g.order|
  {
    if g.max == 0 || |g.entries| <= g.max || g.order == [] then g else EvictOverflow(DropOldest(g))
  }

  /** A listed key without a record is dropped too. */
  predicate Expired(g: Guard, k: Key, now: int) {
    k in g.entries ==> g.entries[k].expiry <= now
  }

  function RemoveExpired(g: Guard, now: int): Guard
    decreases |g.order|
  {
    if g.order == [] || !Expired(g, g.order[|g.order| - 1], now) then g else RemoveExpired(DropOldest(g), now)
  }

  /** A nonce is accepted only once while it is remembered. */
  function Remember(g: Guard, k: Key, at: int): (Guard, bool) {
    if k == NO_KEY then (g, false)
    else if k in g.entries then (g.(entries := g.entries[k := g.entries[k].(seen := at)]), false)
    else (EvictOverflow(Pushed(g, k, at)), true)
  }

  function Pushed(g: Guard, k: Key, at: int): Guard {
    g.(entries := g.entries[k := Record(at, at + g.ttl)], order := [k] + g.order)
  }

  function Sweep(g: Guard, now: int): Guard { EvictOverflow(RemoveExpired(g, now)) }

  function SetMax(g: Guard, max: int): Guard {
    if max <= 0 then g else EvictOverflow(g.(max := max))
  }

  datatype Op = RememberOp(key: Key, at: int) | SweepOp(now: int) | SetMaxOp(max: int)

  function Step(g: Guard, op: Op): (Guard, bool) {
    match op
    case RememberOp(k, at) => Remember(g, k, at)
    case SweepOp(now) => (Sweep(g, now), false)
    case SetMaxOp(max) => (SetMax(g, max), false)
  }

  function Run(g: Guard, ops: seq<Op>): Guard
    decreases |ops|
  {
    if ops == [] then g else Run(Step(g, ops[0]).0, ops[1..])
  }

  // ---------- list and map agree ----------

  ghost predicate Distinct(order: seq<Key>) {
    forall i, j :: 0 <= i < j < |order| ==> order[i] != order[j]
  }

  ghost predicate Agree(g: Guard) {
    Distinct(g.order) && forall k :: k in g.order <==> k in g.entries
  }

  /** Within its cap, too. */
  ghost predicate Inv(g: Guard) { Agree(g) && 0 < g.max && |g.order| <= g.max }

  lemma {:induction false} ListedSize(order: seq<Key>, keys: set<Key>)
    requires Distinct(order) && forall k :: k in order <==> k in keys
    ensures |keys| == |order|
  {
    if order == [] {
      assert keys == {};
    } else {
      var k := order[0];
      assert order == [k] + order[1..];
      ListedSize(order[1..], keys - {k});
    }
  }

  lemma Size(g: Guard)
    requires Agree(g)
    ensures |g.entries| == |g.order|
  {
    ListedSize(g.order, g.entries.Keys);
    assert |g.entries| == |g.entries.Keys|;
  }

  /** What is left once only the newest `n` keys are kept. */
  ghost predicate Newest(g: Guard, g': Guard, n: nat) {
    && n <= |g.order| && g'.order == g.order[..n] && g'.max == g.max && g'.ttl == g.ttl
    && Agree(g')
    && (forall k :: k in g'.entries ==> k in g.entries && g'.entries[k] == g.entries[k])
  }

  lemma DropOldestNewest(g: Guard)
    requires Agree(g) && g.order != []
    ensures Newest(g, DropOldest(g), |g.order| - 1)
  {
    var g' := DropOldest(g);
    assert g.order == g'.order + [g.order[|g.order| - 1]];
  }

  lemma NewestNext(g: Guard, g1: Guard, g2: Guard, n: nat, m: nat)
    requires Newest(g, g1, n) && Newest(g1, g2, m)
    ensures Newest(g, g2, m)
  {
    assert g.order[..n][..m] == g.order[..m];
  }

  function Fitting(size: nat, max: nat): nat { if max == 0 || size <= max then size else max }

  lemma NewestSelf(g: Guard)
    requires Agree(g)
    ensures Newest(g, g, |g.order|)
  {
    assert g.order[..|g.order|] == g.order;
  }

  lemma {:induction false} OverflowNewest(g: Guard) returns (n: nat)
    requires Agree(g)
    ensures Newest(g, EvictOverflow(g), n)
    decreases |g.order|
  {
    n := |g.order|;
    if EvictOverflow(g) == g {
      NewestSelf(g);
    } else {
      var g1 := DropOldest(g);
      DropOldestNewest(g);
      var m := OverflowNewest(g1);
      NewestNext(g, g1, EvictOverflow(g1), n - 1, m);
      n := m;
    }
  }

  lemma {:induction false} OverflowSize(g: Guard)
    requires Agree(g)
    ensures |EvictOverflow(g).order| == Fitting(|g.order|, g.max)
    decreases |g.order|
  {
    Size(g);
    if 0 < g.max < |g.order| {
      DropOldestNewest(g);
      OverflowSize(DropOldest(g));
    }
  }

  /** The cap keeps exactly as many of the newest keys as fit. */
  lemma OverflowExact(g: Guard)
    requires Agree(g)
    ensures Newest(g, EvictOverflow(g), Fitting(|g.order|, g.max))
  {
    var n := OverflowNewest(g);
    OverflowSize(g);
  }

  /** Sweeping forgets keys from the oldest on. */
  lemma {:induction false} RemoveExpiredNewest(g: Guard, now: int) returns (n: nat)
    requires Agree(g)
    ensures Newest(g, RemoveExpired(g, now), n)
    decreases |g.order|
  {
    n := |g.order|;
    if g.order == [] || !Expired(g, g.order[|g.order| - 1], now) {
      NewestSelf(g);
    } else {
      var g1 := DropOldest(g);
      DropOldestNewest(g);
      var m := RemoveExpiredNewest(g1, now);
      NewestNext(g, g1, RemoveExpired(g1, now), n - 1, m);
      n := m;
    }
  }

  /** It stops at a key that has not expired. */
  lemma {:induction false} RemoveExpiredStops(g: Guard, now: int)
    ensures var g' := RemoveExpired(g, now); g'.order != [] ==> !Expired(g', g'.order[|g'.order| - 1], now)
    decreases |g.order|
  {
    if g.order != [] && Expired(g, g.order[|g.order| - 1], now) {
      RemoveExpiredStops(DropOldest(g), now);
    }
  }

  /** Only expired keys are swept. */
  lemma {:induction false} RemoveExpiredOnly(g: Guard, now: int, k: Key)
    requires k in g.entries && !Expired(g, k, now)
    ensures k in RemoveExpired(g, now).entries
    decreases |g.order|
  {
    if g.order != [] && Expired(g, g.order[|g.order| - 1], now) {
      RemoveExpiredOnly(DropOldest(g), now, k);
    }
  }
}
