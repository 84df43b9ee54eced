/** The nonce guard object, updated in place. */
module HandshakeGuard {
  import opened NonceGuard
  import opened NonceGuardRuns

  const DEFAULT_TTL: nat := 900_000_000_000

  class NonceTracker {
    var entries: map<Key, Record>
    var order: seq<Key>
    var maxEntries: nat
    const ttl: nat

    constructor (window: int)
      ensures Valid() && View() == Guard(map[], [], DEFAULT_MAX_ENTRIES, if window <= 0 then DEFAULT_TTL else window)
    {
      ttl := if window <= 0 then DEFAULT_TTL else window;
      entries, order, maxEntries := map[], [], DEFAULT_MAX_ENTRIES;
    }

    ghost function View(): Guard
      reads this
    {
      Guard(entries, order, maxEntries, ttl)
    }

    ghost predicate Valid()
      reads this
    {
      Inv(View())
    }

    method RemoveOldest()
      requires order != []
      modifies this
      ensures View() == DropOldest(old(View()))
    {
      var last := |order| - 1;
      entries, order := entries - {order[last]}, order[..last];
    }

    method EvictOverflowNow()
      modifies this
      ensures View() == EvictOverflow(old(View()))
    {
      if maxEntries == 0 { return; }
      while |entries| > maxEntries
        invariant maxEntries == old(maxEntries) && EvictOverflow(View()) == EvictOverflow(old(View()))
        decreases |order|
      {
        if order == [] { break; }
        RemoveOldest();
      }
    }

    method RemoveExpiredNow(now: int)
      modifies this
      ensures View() == RemoveExpired(old(View()), now)
    {
      while order != []
        invariant RemoveExpired(View(), now) == RemoveExpired(old(View()), now)
        decreases |order|
      {
        var oldest := order[|order| - 1];
        if oldest in entries && now < entries[oldest].expiry { break; }
        RemoveOldest();
      }
    }

    method RememberNow(key: Key, at: int) returns (ok: bool)
      requires Valid()
      modifies this
      ensures Valid() && (View(), ok) == Remember(old(View()), key, at)
    {
      StepKeeps(View(), RememberOp(key, at));
      if key == NO_KEY { return false; }
      if key in entries {
        entries := entries[key := entries[key].(seen := at)];
        return false;
      }
      order := [key] + order;
      entries := entries[key := Record(at, at + ttl)];
      EvictOverflowNow();
      return true;
    }

    method SweepNow(now: int)
      requires Valid()
      modifies this
      ensures Valid() && View() == Sweep(old(View()), now)
    {
      StepKeeps(View(), SweepOp(now));
      RemoveExpiredNow(now);
      EvictOverflowNow();
    }

    method SetMaxEntries(max: int)
      requires Valid()
      modifies this
      ensures Valid() && View() == SetMax(old(View()), max)
    {
      StepKeeps(View(), SetMaxOp(max));
      if max <= 0 { return; }
      maxEntries := max;
      EvictOverflowNow();
    }
  }
}
