/** How long the guard remembers a nonce, over every run. */
module NonceGuardRuns {
  import opened NonceGuard

  // ---------- what every operation keeps ----------

  lemma PushedAgrees(g: Guard, k: Key, at: int)
    requires Agree(g) && k !in g.entries
    ensures Agree(Pushed(g, k, at))
  {
    var g' := Pushed(g, k, at);
    assert k !in g.order;
    assert forall i :: 0 < i < |g'.order| ==> g'.order[i] == g.order[i - 1];
  }

  lemma OverflowKeeps(g: Guard)
    requires Agree(g) && 0 < g.max
    ensures Inv(EvictOverflow(g))
  {
    OverflowExact(g);
  }

  lemma StepKeeps(g: Guard, op: Op)
    requires Inv(g)
    ensures Inv(Step(g, op).0)
  {
    match op
    case RememberOp(k, at) =>
      if k != NO_KEY && k !in g.entries {
        PushedAgrees(g, k, at);
        OverflowKeeps(Pushed(g, k, at));
      }
    case SweepOp(now) =>
      var n := RemoveExpiredNewest(g, now);
      OverflowKeeps(RemoveExpired(g, now));
    case SetMaxOp(max) =>
      if max > 0 {
        OverflowKeeps(g.(max := max));
      }
  }

  /** In every run list and map agree and the guard stays within its cap. */
  lemma {:induction false} RunKeeps(g: Guard, ops: seq<Op>)
    requires Inv(g)
    ensures Inv(Run(g, ops)) && |Run(g, ops).entries| <= Run(g, ops).max
    decreases |ops|
  {
    if ops == [] {
      Size(g);
    } else {
      StepKeeps(g, ops[0]);
      RunKeeps(Step(g, ops[0]).0, ops[1..]);
    }
  }

  // ---------- one key ----------

  /** The key is the `p`-th newest and expires at `e`. */
  ghost predicate Holds(g: Guard, k: Key, p: nat, e: int) {
    p < |g.order| && g.order[p] == k && k in g.entries && g.entries[k].expiry == e
  }

  function Grows(g: Guard, op: Op): nat { if Step(g, op).1 then 1 else 0 }

  /** What a step must not do for a key to stay remembered. */
  predicate Spares(g: Guard, op: Op, p: nat, e: int) {
    match op
    case RememberOp(k, at) => p + Grows(g, op) < g.max
    case SweepOp(now) => now < e
    case SetMaxOp(max) => max <= 0 || p < max
  }

  lemma NewestHolds(g: Guard, g': Guard, n: nat, k: Key, p: nat, e: int)
    requires Agree(g) && Newest(g, g', n) && Holds(g, k, p, e)
    ensures k in g'.entries <==> p < n
    ensures p < n ==> Holds(g', k, p, e)
  {
    if p < n {
      assert g'.order[p] == k;
      assert k in g'.order;
    }
  }

  lemma RememberHolds(g: Guard, k: Key, p: nat, e: int, op: Op)
    requires Inv(g) && Holds(g, k, p, e) && op.RememberOp?
    ensures k in Step(g, op).0.entries <==> Spares(g, op, p, e)
    ensures Spares(g, op, p, e) ==> Holds(Step(g, op).0, k, p + Grows(g, op), e)
  {
    if op.key != NO_KEY && op.key !in g.entries {
      var g1 := Pushed(g, op.key, op.at);
      PushedAgrees(g, op.key, op.at);
      OverflowExact(g1);
      assert Holds(g1, k, p + 1, e);
      NewestHolds(g1, EvictOverflow(g1), Fitting(|g1.order|, g1.max), k, p + 1, e);
    }
  }

  lemma SetMaxHolds(g: Guard, k: Key, p: nat, e: int, op: Op)
    requires Inv(g) && Holds(g, k, p, e) && op.SetMaxOp?
    ensures k in Step(g, op).0.entries <==> Spares(g, op, p, e)
    ensures Spares(g, op, p, e) ==> Holds(Step(g, op).0, k, p, e)
  {
    if op.max > 0 {
      var g1 := g.(max := op.max);
      OverflowExact(g1);
      NewestHolds(g1, EvictOverflow(g1), Fitting(|g1.order|, g1.max), k, p, e);
    }
  }

  lemma SweepHolds(g: Guard, k: Key, p: nat, e: int, now: int)
    requires Inv(g) && Holds(g, k, p, e) && now < e
    ensures Holds(Sweep(g, now), k, p, e)
  {
    var g1 := RemoveExpired(g, now);
    var n := RemoveExpiredNewest(g, now);
    RemoveExpiredOnly(g, now, k);
    NewestHolds(g, g1, n, k, p, e);
    OverflowExact(g1);
    NewestHolds(g1, EvictOverflow(g1), Fitting(|g1.order|, g1.max), k, p, e);
  }

  lemma StepHolds(g: Guard, k: Key, p: nat, e: int, op: Op)
    requires Inv(g) && Holds(g, k, p, e) && Spares(g, op, p, e)
    ensures Holds(Step(g, op).0, k, p + Grows(g, op), e)
  {
    match op
    case RememberOp(_, _) => RememberHolds(g, k, p, e, op);
    case SweepOp(now) => SweepHolds(g, k, p, e, now);
    case SetMaxOp(_) => SetMaxHolds(g, k, p, e, op);
  }

  // ---------- replays are rejected ----------

  /** How many nonces the run accepts. */
  function Accepted(g: Guard, ops: seq<Op>): nat
    decreases |ops|
  {
    if ops == [] then 0 else Grows(g, ops[0]) + Accepted(Step(g, ops[0]).0, ops[1..])
  }

  /** Nothing is swept at or after `e`, and the cap is never set to `bound` or less. */
  ghost predicate Mild(ops: seq<Op>, e: int, bound: nat) {
    forall i :: 0 <= i < |ops| ==>
      && (ops[i].SweepOp? ==> ops[i].now < e)
      && (ops[i].SetMaxOp? ==> ops[i].max <= 0 || bound < ops[i].max)
  }

  lemma MildTail(ops: seq<Op>, e: int, bound: nat)
    requires ops != [] && Mild(ops, e, bound)
    ensures Mild(ops[1..], e, bound)
  {
    assert forall i :: 0 <= i < |ops[1..]| ==> ops[1..][i] == ops[i + 1];
  }

  lemma {:induction false} MildRun(g: Guard, k: Key, p: nat, e: int, ops: seq<Op>)
    requires Inv(g) && Holds(g, k, p, e)
    requires p + Accepted(g, ops) < g.max && Mild(ops, e, p + Accepted(g, ops))
    ensures Holds(Run(g, ops), k, p + Accepted(g, ops), e)
    decreases |ops|
  {
    if ops != [] {
      var g1 := Step(g, ops[0]).0;
      MildTail(ops, e, p + Accepted(g, ops));
      StepKeeps(g, ops[0]);
      StepHolds(g, k, p, e, ops[0]);
      StepMax(g, ops[0]);
      MildRun(g1, k, p + Grows(g, ops[0]), e, ops[1..]);
    }
  }

  lemma StepMax(g: Guard, op: Op)
    requires Inv(g)
    ensures Step(g, op).0.max == if op.SetMaxOp? && op.max > 0 then op.max else g.max
  {
    match op
    case RememberOp(k, at) =>
      if k != NO_KEY && k !in g.entries {
        PushedAgrees(g, k, at);
        OverflowExact(Pushed(g, k, at));
      }
    case SweepOp(now) =>
      var n := RemoveExpiredNewest(g, now);
      OverflowExact(RemoveExpired(g, now));
    case SetMaxOp(max) =>
      if max > 0 {
        OverflowExact(g.(max := max));
      }
  }

  lemma AcceptedFirst(g: Guard, k: Key, at: int)
    requires Inv(g) && Remember(g, k, at).1
    ensures Holds(Remember(g, k, at).0, k, 0, at + g.ttl)
  {
    var g0 := Pushed(g, k, at);
    PushedAgrees(g, k, at);
    OverflowExact(g0);
    assert Holds(g0, k, 0, at + g.ttl);
    NewestHolds(g0, EvictOverflow(g0), Fitting(|g0.order|, g0.max), k, 0, at + g.ttl);
  }

  /**
   An accepted nonce is rejected after every later run that sweeps nothing at or after its
   expiry and accepts fewer newer nonces than the cap in force.
   */
  lemma ReplayRejected(g: Guard, k: Key, at: int, ops: seq<Op>, again: int)
    requires Inv(g) && Remember(g, k, at).1
    requires var g1 := Remember(g, k, at).0; Accepted(g1, ops) < g.max && Mild(ops, at + g.ttl, Accepted(g1, ops))
    ensures !Remember(Run(Remember(g, k, at).0, ops), k, again).1
  {
    AcceptedFirst(g, k, at);
    StepKeeps(g, RememberOp(k, at));
    StepMax(g, RememberOp(k, at));
    MildRun(Step(g, RememberOp(k, at)).0, k, 0, at + g.ttl, ops);
  }

  // ---------- exactly when a nonce is forgotten ----------

  ghost function Expiry(g: Guard, k: Key): int { if k in g.entries then g.entries[k].expiry else 0 }

  /** Nonces were observed in the order they were accepted, none later than `at`. */
  ghost predicate Timely(g: Guard, at: int) {
    && (forall k :: k in g.entries ==> Expiry(g, k) <= at + g.ttl)
    && (forall i, j :: 0 <= i < j < |g.order| ==> Expiry(g, g.order[j]) <= Expiry(g, g.order[i]))
  }

  lemma NewestAt(g: Guard, g': Guard, n: nat, i: nat)
    requires Newest(g, g', n) && i < n
    ensures g'.order[i] == g.order[i] && Expiry(g', g'.order[i]) == Expiry(g, g.order[i])
  {
    assert g'.order[i] in g'.order;
  }

  lemma NewestTimely(g: Guard, g': Guard, n: nat, at: int)
    requires Newest(g, g', n) && Timely(g, at)
    ensures Timely(g', at)
  {
    forall i | 0 <= i < n
      ensures g'.order[i] == g.order[i] && Expiry(g', g'.order[i]) == Expiry(g, g.order[i])
    {
      NewestAt(g, g', n, i);
    }
  }

  lemma PushedTimely(g: Guard, k: Key, from: int, at: int)
    requires Agree(g) && Timely(g, from) && k !in g.entries && from <= at
    ensures Timely(Pushed(g, k, at), at)
  {
    var g' := Pushed(g, k, at);
    forall i | 0 < i < |g'.order|
      ensures g'.order[i] == g.order[i - 1] && Expiry(g', g'.order[i]) == Expiry(g, g.order[i - 1]) <= at + g.ttl
    {
      assert g.order[i - 1] in g.order;
    }
  }

  lemma OverflowTimely(g: Guard, at: int)
    requires Agree(g) && Timely(g, at)
    ensures Timely(EvictOverflow(g), at)
  {
    OverflowExact(g);
    NewestTimely(g, EvictOverflow(g), Fitting(|g.order|, g.max), at);
  }

  function After(op: Op, from: int): int { if op.RememberOp? then op.at else from }

  lemma StepTimely(g: Guard, op: Op, from: int)
    requires Inv(g) && Timely(g, from) && from <= After(op, from)
    ensures Timely(Step(g, op).0, After(op, from))
  {
    match op
    case RememberOp(k, at) =>
      if k != NO_KEY && k !in g.entries {
        PushedAgrees(g, k, at);
        PushedTimely(g, k, from, at);
        OverflowTimely(Pushed(g, k, at), at);
      } else {
        assert forall x :: Expiry(Step(g, op).0, x) == Expiry(g, x);
      }
    case SweepOp(now) =>
      var n := RemoveExpiredNewest(g, now);
      NewestTimely(g, RemoveExpired(g, now), n, from);
      OverflowTimely(RemoveExpired(g, now), from);
    case SetMaxOp(max) =>
      if max > 0 {
        OverflowTimely(g.(max := max), from);
      }
  }

  lemma OldestLast(g: Guard, at: int, k: Key)
    requires Agree(g) && Timely(g, at) && k in g.entries
    ensures g.order != [] && Expiry(g, g.order[|g.order| - 1]) <= Expiry(g, k)
  {
    assert k in g.order;
    var i :| 0 <= i < |g.order| && g.order[i] == k;
  }

  lemma LastDecides(g: Guard, at: int, now: int, k: Key)
    requires Agree(g) && Timely(g, at) && k in g.entries
    requires g.order != [] ==> !Expired(g, g.order[|g.order| - 1], now)
    ensures now < Expiry(g, k)
  {
    OldestLast(g, at, k);
  }

  lemma RemoveExpiredForgets(g: Guard, k: Key, now: int, at: int)
    requires Agree(g) && Timely(g, at) && k in g.entries && Expiry(g, k) <= now
    ensures k !in RemoveExpired(g, now).entries
  {
    var n := RemoveExpiredNewest(g, now);
    RemoveExpiredStops(g, now);
    Unexpired(g, RemoveExpired(g, now), n, k, now, at);
  }

  lemma Unexpired(g: Guard, g1: Guard, n: nat, k: Key, now: int, at: int)
    requires Timely(g, at) && Newest(g, g1, n) && k in g.entries && Expiry(g, k) <= now
    requires g1.order != [] ==> !Expired(g1, g1.order[|g1.order| - 1], now)
    ensures k !in g1.entries
  {
    NewestTimely(g, g1, n, at);
    if k in g1.entries {
      LastDecides(g1, at, now, k);
    }
  }

  /** A sweep at or after its expiry forgets the key. */
  lemma SweepForgets(g: Guard, k: Key, now: int, at: int)
    requires Agree(g) && Timely(g, at) && k in g.entries && Expiry(g, k) <= now
    ensures k !in Sweep(g, now).entries
  {
    RemoveExpiredForgets(g, k, now, at);
    var n := RemoveExpiredNewest(g, now);
    OverflowExact(RemoveExpired(g, now));
  }

  lemma StepExact(g: Guard, k: Key, p: nat, e: int, op: Op, at: int)
    requires Inv(g) && Timely(g, at) && Holds(g, k, p, e)
    ensures k in Step(g, op).0.entries <==> Spares(g, op, p, e)
  {
    match op
    case RememberOp(_, _) => RememberHolds(g, k, p, e, op);
    case SweepOp(now) =>
      if now < e {
        SweepHolds(g, k, p, e, now);
      } else {
        SweepForgets(g, k, now, at);
      }
    case SetMaxOp(_) => SetMaxHolds(g, k, p, e, op);
  }

  /** No step of the run reaches the key's expiry or pushes it past the cap. */
  predicate Survives(g: Guard, ops: seq<Op>, p: nat, e: int)
    decreases |ops|
  {
    ops != [] ==>
      && Spares(g, ops[0], p, e)
      && Survives(Step(g, ops[0]).0, ops[1..], p + Grows(g, ops[0]), e)
  }

  /** Observation times never run backwards. */
  ghost predicate Ordered(ops: seq<Op>, from: int)
    decreases |ops|
  {
    ops != [] ==> from <= After(ops[0], from) && Ordered(ops[1..], After(ops[0], from))
  }

  /** The key is remembered before, between and after the steps of the run. */
  ghost predicate AlwaysHeld(g: Guard, ops: seq<Op>, k: Key)
    decreases |ops|
  {
    k in g.entries && (ops != [] ==> AlwaysHeld(Step(g, ops[0]).0, ops[1..], k))
  }

  /**
   With observation times that never run backwards, a nonce is remembered without a break
   exactly until its expiry is swept or the cap pushes it out, however often it is offered again.
   */
  lemma {:induction false} RememberedExactly(g: Guard, k: Key, p: nat, e: int, ops: seq<Op>, from: int)
    requires Inv(g) && Timely(g, from) && Holds(g, k, p, e) && Ordered(ops, from)
    ensures AlwaysHeld(g, ops, k) <==> Survives(g, ops, p, e)
    decreases |ops|
  {
    if ops != [] {
      StepKeeps(g, ops[0]);
      StepTimely(g, ops[0], from);
      StepExact(g, k, p, e, ops[0], from);
      if Spares(g, ops[0], p, e) {
        StepHolds(g, k, p, e, ops[0]);
        RememberedExactly(Step(g, ops[0]).0, k, p + Grows(g, ops[0]), e, ops[1..], After(ops[0], from));
      }
    }
  }
}
