/** The stake tables, and what the loops of unbond and withdraw do to them. */
module StakeLockProofs {
  import opened Accounts
  import opened Sums
  import opened StakeLocks

  // ---------- the four views of a stake ----------

  ghost function Amounts(locks: Locks): map<LockId, int> {
    map id | id in locks :: locks[id].amount
  }

  ghost function ActiveWeight(id: LockId, lock: StakeLock, o: Address): int {
    if id.owner == o && lock.unbondAt == 0 then lock.amount else 0
  }

  ghost function ActiveWeights(locks: Locks, o: Address): map<LockId, int> {
    map id | id in locks :: ActiveWeight(id, locks[id], o)
  }

  ghost function Stored(locks: Locks): int { Total(Amounts(locks)) }

  ghost function Active(locks: Locks, o: Address): int { Total(ActiveWeights(locks, o)) }

  ghost predicate LocksOk(locks: Locks, next: map<Address, nat>) {
    forall id :: id in locks ==>
      && locks[id].owner == id.owner
      && locks[id].amount > 0
      && 0 < id.nonce < NextNonce(next, id.owner)
      && (locks[id].unbondAt != 0 ==> locks[id].withdrawAt == locks[id].unbondAt + UNBOND_SECONDS)
  }

  /** The entry names an unbonding lock, repeats its amount and sits in its day's bucket. */
  ghost predicate RefOk(locks: Locks, d: Day, r: WithdrawalRef) {
    && r.Id() in locks
    && locks[r.Id()].unbondAt != 0
    && locks[r.Id()].amount == r.amount
    && WithdrawDay(locks[r.Id()].withdrawAt) == d
  }

  ghost predicate HasRef(queue: Queue, id: LockId, lock: StakeLock) {
    var d := WithdrawDay(lock.withdrawAt);
    d in queue && WithdrawalRef(id.owner, id.nonce, lock.amount) in queue[d]
  }

  ghost predicate NoRepeats(refs: seq<WithdrawalRef>) {
    forall i, j :: 0 <= i < j < |refs| ==> refs[i].Id() != refs[j].Id()
  }

  /** Queue entries and unbonding locks correspond one to one. */
  ghost predicate QueueOk(locks: Locks, queue: Queue) {
    && (forall d, r :: d in queue && r in queue[d] ==> RefOk(locks, d, r))
    && (forall id :: id in locks && locks[id].unbondAt != 0 ==> HasRef(queue, id, locks[id]))
    && (forall d :: d in queue ==> NoRepeats(queue[d]))
  }

  ghost predicate Distinct(nonces: seq<nat>) {
    forall i, j :: 0 <= i < j < |nonces| ==> nonces[i] != nonces[j]
  }

  ghost predicate Listed(locks: Locks, owner: Address, nonces: seq<nat>) {
    Distinct(nonces) && forall n :: n in nonces ==> LockId(owner, n) in locks
  }

  ghost predicate IndexOk(locks: Locks, index: map<Address, seq<nat>>) {
    forall o :: o in index ==> Listed(locks, o, index[o])
  }

  ghost predicate BondedOk(locks: Locks, bonded: map<Address, int>) {
    forall o :: Lookup(bonded, o, 0) == Active(locks, o)
  }

  /** Locks, index and bonded totals agree. */
  ghost predicate Core(b: Book) {
    LocksOk(b.locks, b.nextNonce) && IndexOk(b.locks, b.index) && BondedOk(b.locks, b.bonded)
  }

  // ---------- one stored lock changes ----------

  lemma PutLockStored(locks: Locks, id: LockId, lock: StakeLock)
    ensures Stored(locks[id := lock]) == Stored(locks) + lock.amount - (if id in locks then locks[id].amount else 0)
  {
    assert Amounts(locks[id := lock]) == Amounts(locks)[id := lock.amount];
    TotalUpdate(Amounts(locks), id, lock.amount);
  }

  lemma PutLockActive(locks: Locks, id: LockId, lock: StakeLock, o: Address)
    ensures Active(locks[id := lock], o) == Active(locks, o) + ActiveWeight(id, lock, o)
                                            - (if id in locks then ActiveWeight(id, locks[id], o) else 0)
  {
    assert ActiveWeights(locks[id := lock], o) == ActiveWeights(locks, o)[id := ActiveWeight(id, lock, o)];
    TotalUpdate(ActiveWeights(locks, o), id, ActiveWeight(id, lock, o));
  }

  lemma DeleteLockTotals(locks: Locks, id: LockId, o: Address)
    requires id in locks
    ensures Stored(locks - {id}) == Stored(locks) - locks[id].amount
    ensures Active(locks - {id}, o) == Active(locks, o) - ActiveWeight(id, locks[id], o)
  {
    assert Amounts(locks - {id}) == Amounts(locks) - {id};
    TotalRemove(Amounts(locks), id);
    assert ActiveWeights(locks - {id}, o) == ActiveWeights(locks, o) - {id};
    TotalRemove(ActiveWeights(locks, o), id);
  }

  // ---------- unbonding ----------

  /** `w'` unbonds more of the owner's stake than `w`, by exactly the change in what is left to unbond. */
  ghost predicate Moved(w: Walk, w': Walk, owner: Address, o: Address) {
    && Stored(w'.locks) == Stored(w.locks)
    && w'.unbonded + w'.remaining == w.unbonded + w.remaining
    && w.unbonded <= w'.unbonded
    && Active(w'.locks, o) == Active(w.locks, o) - (if o == owner then w'.unbonded - w.unbonded else 0)
  }

  ghost predicate Takeable(w: Walk, id: LockId) {
    id in w.locks && w.locks[id].unbondAt == 0 && w.remaining > 0
  }

  lemma TakeWholeLocks(w: Walk, id: LockId, now: Timestamp)
    requires LocksOk(w.locks, w.nextNonce) && Takeable(w, id) && w.locks[id].amount <= w.remaining
    ensures LocksOk(TakeWhole(w, id, now).locks, TakeWhole(w, id, now).nextNonce)
  {
  }

  lemma TakeWholeMoves(w: Walk, id: LockId, now: Timestamp, o: Address)
    requires Takeable(w, id) && w.locks[id].amount <= w.remaining
    ensures Moved(w, TakeWhole(w, id, now), id.owner, o)
  {
    var lock := w.locks[id].(unbondAt := now, withdrawAt := now + UNBOND_SECONDS);
    PutLockStored(w.locks, id, lock);
    PutLockActive(w.locks, id, lock, o);
  }

  lemma TakePartLocks(w: Walk, id: LockId, now: Timestamp)
    requires LocksOk(w.locks, w.nextNonce) && Takeable(w, id) && w.locks[id].amount > w.remaining
    ensures LocksOk(TakePart(w, id, now).locks, TakePart(w, id, now).nextNonce)
  {
    assert LockId(id.owner, NextNonce(w.nextNonce, id.owner)) !in w.locks;
  }

  lemma SplitStored(locks: Locks, id: LockId, lock: StakeLock, split: LockId, rest: StakeLock)
    requires id in locks && split !in locks && lock.amount + rest.amount == locks[id].amount
    ensures Stored(locks[id := lock][split := rest]) == Stored(locks)
  {
    PutLockStored(locks, id, lock);
    PutLockStored(locks[id := lock], split, rest);
  }

  lemma SplitActive(locks: Locks, id: LockId, lock: StakeLock, split: LockId, rest: StakeLock, o: Address)
    requires id in locks && split !in locks && id.owner == split.owner
    requires locks[id].unbondAt == 0 == rest.unbondAt && lock.unbondAt != 0 && lock.amount + rest.amount == locks[id].amount
    ensures Active(locks[id := lock][split := rest], o) == Active(locks, o) - (if o == id.owner then lock.amount else 0)
  {
    PutLockActive(locks, id, lock, o);
    PutLockActive(locks[id := lock], split, rest, o);
  }

  lemma TakePartStored(w: Walk, id: LockId, now: Timestamp)
    requires LocksOk(w.locks, w.nextNonce) && Takeable(w, id) && w.locks[id].amount > w.remaining
    ensures Stored(TakePart(w, id, now).locks) == Stored(w.locks)
  {
    var lock := w.locks[id].(amount := w.remaining, unbondAt := now, withdrawAt := now + UNBOND_SECONDS);
    var rest := StakeLock(id.owner, w.locks[id].amount - w.remaining, lock.createdAt, 0, 0);
    SplitStored(w.locks, id, lock, LockId(id.owner, NextNonce(w.nextNonce, id.owner)), rest);
  }

  lemma TakePartActive(w: Walk, id: LockId, now: Timestamp, o: Address)
    requires LocksOk(w.locks, w.nextNonce) && Takeable(w, id) && w.locks[id].amount > w.remaining
    ensures Active(TakePart(w, id, now).locks, o) == Active(w.locks, o) - (if o == id.owner then w.remaining else 0)
  {
    var lock := w.locks[id].(amount := w.remaining, unbondAt := now, withdrawAt := now + UNBOND_SECONDS);
    var rest := StakeLock(id.owner, w.locks[id].amount - w.remaining, lock.createdAt, 0, 0);
    SplitActive(w.locks, id, lock, LockId(id.owner, NextNonce(w.nextNonce, id.owner)), rest, o);
  }

  lemma TakePartMoves(w: Walk, id: LockId, now: Timestamp, o: Address)
    requires LocksOk(w.locks, w.nextNonce) && Takeable(w, id) && w.locks[id].amount > w.remaining
    ensures Moved(w, TakePart(w, id, now), id.owner, o)
  {
    TakePartStored(w, id, now);
    TakePartActive(w, id, now, o);
  }

  lemma VisitKeeps(w: Walk, owner: Address, nonce: nat, now: Timestamp, o: Address)
    requires LocksOk(w.locks, w.nextNonce)
    ensures var w' := Visit(w, owner, nonce, now); LocksOk(w'.locks, w'.nextNonce) && Moved(w, w', owner, o)
  {
    var id := LockId(owner, nonce);
    if Takeable(w, id) {
      if w.locks[id].amount > w.remaining {
        TakePartLocks(w, id, now);
        TakePartMoves(w, id, now, o);
      } else {
        TakeWholeLocks(w, id, now);
        TakeWholeMoves(w, id, now, o);
      }
    }
  }

  /** The lock ids the loop may write: the listed ones and, for the split, the next free one. */
  ghost predicate Untouched(w: Walk, w': Walk, owner: Address, nonces: seq<nat>) {
    var split := LockId(owner, NextNonce(w.nextNonce, owner));
    && (forall id :: id in w.locks && (id.owner != owner || id.nonce !in nonces || w.locks[id].unbondAt != 0) ==>
          id in w'.locks && w'.locks[id] == w.locks[id])
    && (forall id :: id in w.locks ==> id in w'.locks)
    && (forall id :: id in w'.locks && id !in w.locks ==> id == split)
    && (w'.nextNonce != w.nextNonce ==>
          w'.nextNonce == w.nextNonce[owner := split.nonce + 1] && w'.remaining == 0 && split in w'.locks)
    && (w'.nextNonce == w.nextNonce ==> split !in w'.locks)
  }

  /**
   The consuming loop keeps the lock table well formed, preserves the stored total
   and moves what it reports from the owner's active stake and nobody else's.
   */
  lemma {:induction false} ConsumeKeeps(w: Walk, owner: Address, nonces: seq<nat>, now: Timestamp, o: Address)
    requires LocksOk(w.locks, w.nextNonce)
    ensures var w' := Consume(w, owner, nonces, now); LocksOk(w'.locks, w'.nextNonce) && Moved(w, w', owner, o)
    decreases |nonces|
  {
    if nonces != [] {
      VisitKeeps(w, owner, nonces[0], now, o);
      ConsumeKeeps(Visit(w, owner, nonces[0], now), owner, nonces[1..], now, o);
    }
  }

  lemma VisitTouches(w: Walk, owner: Address, nonce: nat, now: Timestamp)
    requires LocksOk(w.locks, w.nextNonce)
    ensures Untouched(w, Visit(w, owner, nonce, now), owner, [nonce])
  {
    var id := LockId(owner, nonce);
    assert LockId(owner, NextNonce(w.nextNonce, owner)) !in w.locks;
    if Takeable(w, id) && w.locks[id].amount > w.remaining {
      TakePartTouches(w, id, now);
    }
  }

  lemma TakePartTouches(w: Walk, id: LockId, now: Timestamp)
    requires LocksOk(w.locks, w.nextNonce) && Takeable(w, id) && w.locks[id].amount > w.remaining
    ensures Untouched(w, TakePart(w, id, now), id.owner, [id.nonce])
  {
    assert LockId(id.owner, NextNonce(w.nextNonce, id.owner)) !in w.locks;
  }

  lemma TouchesCompose(w: Walk, w1: Walk, w2: Walk, owner: Address, nonces: seq<nat>)
    requires nonces != []
    requires Untouched(w, w1, owner, [nonces[0]]) && Untouched(w1, w2, owner, nonces[1..])
    requires w1.nextNonce == w.nextNonce
    ensures Untouched(w, w2, owner, nonces)
  {
    forall id | id in w.locks && (id.owner != owner || id.nonce !in nonces || w.locks[id].unbondAt != 0)
      ensures id in w2.locks && w2.locks[id] == w.locks[id]
    {
      assert nonces[0] in nonces && forall n :: n in nonces[1..] ==> n in nonces;
      assert w1.locks[id] == w.locks[id];
    }
  }

  /** The loop splits at most one lock and leaves locks that were already unbonding alone. */
  lemma {:induction false} ConsumeTouches(w: Walk, owner: Address, nonces: seq<nat>, now: Timestamp)
    requires LocksOk(w.locks, w.nextNonce) && w.remaining > 0
    ensures Untouched(w, Consume(w, owner, nonces, now), owner, nonces)
    decreases |nonces|
  {
    if nonces == [] {
      assert LockId(owner, NextNonce(w.nextNonce, owner)) !in w.locks;
    } else {
      var w1 := Visit(w, owner, nonces[0], now);
      VisitTouches(w, owner, nonces[0], now);
      if w1.remaining > 0 {
        VisitKeeps(w, owner, nonces[0], now, owner);
        ConsumeTouches(w1, owner, nonces[1..], now);
        TouchesCompose(w, w1, Consume(w1, owner, nonces[1..], now), owner, nonces);
      }
    }
  }

  ghost predicate SameAt(locks: Locks, locks': Locks, owner: Address, nonces: seq<nat>) {
    forall n :: n in nonces ==>
      (LockId(owner, n) in locks <==> LockId(owner, n) in locks')
      && (LockId(owner, n) in locks ==> locks'[LockId(owner, n)] == locks[LockId(owner, n)])
  }

  lemma {:induction false} AvailableSame(locks: Locks, locks': Locks, owner: Address, nonces: seq<nat>)
    requires SameAt(locks, locks', owner, nonces)
    ensures Available(locks', owner, nonces) == Available(locks, owner, nonces)
  {
    if nonces != [] {
      AvailableSame(locks, locks', owner, nonces[1..]);
    }
  }

  lemma {:induction false} AvailableConcat(locks: Locks, owner: Address, a: seq<nat>, b: seq<nat>)
    ensures Available(locks, owner, a + b) == Available(locks, owner, a) + Available(locks, owner, b)
  {
    if a == [] {
      assert a + b == b;
    } else {
      assert (a + b)[1..] == a[1..] + b;
      AvailableConcat(locks, owner, a[1..], b);
    }
  }

  ghost function Bonded(locks: Locks, id: LockId): nat {
    if id in locks && locks[id].unbondAt == 0 then locks[id].amount else 0
  }

  /** How many listed nonces the loop visits before the request is met. */
  ghost function Reach(locks: Locks, owner: Address, nonces: seq<nat>, amount: nat): (k: nat)
    ensures k <= |nonces|
  {
    if nonces == [] then 0
    else
      var here := Bonded(locks, LockId(owner, nonces[0]));
      if here >= amount then 1 else 1 + Reach(locks, owner, nonces[1..], amount - here)
  }

  lemma {:induction false} ReachSame(locks: Locks, locks': Locks, owner: Address, nonces: seq<nat>, amount: nat)
    requires SameAt(locks, locks', owner, nonces)
    ensures Reach(locks', owner, nonces, amount) == Reach(locks, owner, nonces, amount)
  {
    if nonces != [] {
      var here := Bonded(locks, LockId(owner, nonces[0]));
      if here < amount {
        ReachSame(locks, locks', owner, nonces[1..], amount - here);
      }
    }
  }

  /** `Reach` is the shortest prefix whose bonded locks cover the request. */
  lemma {:induction false} ReachIsShortest(locks: Locks, owner: Address, nonces: seq<nat>, amount: nat)
    requires 0 < amount <= Available(locks, owner, nonces)
    ensures var k := Reach(locks, owner, nonces, amount);
            && 0 < k
            && amount <= Available(locks, owner, nonces[..k])
            && (forall j :: 0 <= j < k ==> Available(locks, owner, nonces[..j]) < amount)
  {
    var here := Bonded(locks, LockId(owner, nonces[0]));
    var k := Reach(locks, owner, nonces, amount);
    assert nonces[..k][1..] == nonces[1..][..k - 1];
    if here < amount {
      ReachIsShortest(locks, owner, nonces[1..], amount - here);
    }
    forall j | 0 <= j < k
      ensures Available(locks, owner, nonces[..j]) < amount
    {
      if j > 0 {
        assert nonces[..j][1..] == nonces[1..][..j - 1];
      }
    }
  }

  ghost function SplitNonce(w: Walk, w': Walk, owner: Address): seq<nat> {
    if w'.nextNonce == w.nextNonce then [] else [NextNonce(w.nextNonce, owner)]
  }

  /** Where the loop stands after a nonce that did not yet meet the request. */
  lemma VisitUnmet(w: Walk, owner: Address, nonces: seq<nat>, now: Timestamp)
    requires LocksOk(w.locks, w.nextNonce) && Listed(w.locks, owner, nonces) && nonces != []
    requires w.remaining > Bonded(w.locks, LockId(owner, nonces[0]))
    ensures var w' := Visit(w, owner, nonces[0], now);
            && w'.remaining == w.remaining - Bonded(w.locks, LockId(owner, nonces[0])) > 0
            && w'.nextNonce == w.nextNonce
            && w'.kept == w.kept + [nonces[0]]
            && SameAt(w.locks, w'.locks, owner, nonces[1..])
            && Listed(w'.locks, owner, nonces[1..])
            && LocksOk(w'.locks, w'.nextNonce)
            && Consume(w, owner, nonces, now) == Consume(w', owner, nonces[1..], now)
  {
    assert forall n :: n in nonces[1..] ==> n in nonces && n != nonces[0];
    assert nonces[0] in nonces;
  }

  /** The nonce that meets the request ends the loop. */
  lemma VisitMet(w: Walk, owner: Address, nonces: seq<nat>, now: Timestamp)
    requires LocksOk(w.locks, w.nextNonce) && nonces != []
    requires 0 < w.remaining <= Bonded(w.locks, LockId(owner, nonces[0]))
    ensures var w' := Consume(w, owner, nonces, now);
            && w'.remaining == 0
            && w'.kept == w.kept + [nonces[0]] + SplitNonce(w, w', owner)
  {
    var id := LockId(owner, nonces[0]);
    if w.locks[id].amount > w.remaining {
      assert NextNonce(TakePart(w, id, now).nextNonce, owner) != NextNonce(w.nextNonce, owner);
    }
  }

  /** A request the pre-scan found coverable is met exactly. */
  lemma {:induction false} ConsumeMeets(w: Walk, owner: Address, nonces: seq<nat>, now: Timestamp)
    requires LocksOk(w.locks, w.nextNonce) && Listed(w.locks, owner, nonces)
    requires 0 < w.remaining <= Available(w.locks, owner, nonces)
    ensures Consume(w, owner, nonces, now).remaining == 0
    decreases |nonces|
  {
    if w.remaining <= Bonded(w.locks, LockId(owner, nonces[0])) {
      VisitMet(w, owner, nonces, now);
    } else {
      var w1 := Visit(w, owner, nonces[0], now);
      VisitUnmet(w, owner, nonces, now);
      AvailableSame(w.locks, w1.locks, owner, nonces[1..]);
      ConsumeMeets(w1, owner, nonces[1..], now);
    }
  }

  lemma PrefixGrows(kept: seq<nat>, nonces: seq<nat>, k: nat)
    requires k < |nonces|
    ensures kept + [nonces[0]] + nonces[1..][..k] == kept + nonces[..k + 1]
  {
  }

  /**
   The index the loop leaves behind: the shortest prefix that covers the request,
   plus the nonce of the split. Whatever was listed after that prefix is dropped.
   */
  lemma {:induction false} ConsumeKept(w: Walk, owner: Address, nonces: seq<nat>, now: Timestamp)
    requires LocksOk(w.locks, w.nextNonce) && Listed(w.locks, owner, nonces) && 0 < w.remaining
    ensures var w' := Consume(w, owner, nonces, now);
            w'.kept == w.kept + nonces[..Reach(w.locks, owner, nonces, w.remaining)] + SplitNonce(w, w', owner)
    decreases |nonces|
  {
    if nonces != [] {
      if w.remaining <= Bonded(w.locks, LockId(owner, nonces[0])) {
        VisitMet(w, owner, nonces, now);
        assert nonces[..1] == [nonces[0]];
      } else {
        var w1 := Visit(w, owner, nonces[0], now);
        VisitUnmet(w, owner, nonces, now);
        ReachSame(w.locks, w1.locks, owner, nonces[1..], w1.remaining);
        ConsumeKept(w1, owner, nonces[1..], now);
        PrefixGrows(w.kept, nonces, Reach(w1.locks, owner, nonces[1..], w1.remaining));
      }
    }
  }

  // ---------- withdrawing ----------

  ghost predicate IsMatured(locks: Locks, id: LockId, now: Timestamp) {
    id in locks && locks[id].unbondAt != 0 && locks[id].withdrawAt <= now
  }

  ghost function DueAt(locks: Locks, id: LockId, now: Timestamp): seq<Payout> {
    if IsMatured(locks, id, now) then [Payout(id.nonce, locks[id].amount)] else []
  }

  ghost function NotDueAt(locks: Locks, id: LockId, now: Timestamp): seq<nat> {
    if IsMatured(locks, id, now) then [] else [id.nonce]
  }

  /** The payouts due: one for each listed lock whose cooldown is over, in listed order. */
  ghost function Due(locks: Locks, owner: Address, nonces: seq<nat>, now: Timestamp): seq<Payout> {
    if nonces == [] then []
    else DueAt(locks, LockId(owner, nonces[0]), now) + Due(locks, owner, nonces[1..], now)
  }

  /** The listed nonces that stay listed. */
  ghost function NotDue(locks: Locks, owner: Address, nonces: seq<nat>, now: Timestamp): (r: seq<nat>)
    ensures forall n :: n in r <==> n in nonces && !IsMatured(locks, LockId(owner, n), now)
    ensures Distinct(nonces) ==> Distinct(r)
  {
    if nonces == [] then []
    else NotDueAt(locks, LockId(owner, nonces[0]), now) + NotDue(locks, owner, nonces[1..], now)
  }

  ghost function PayoutTotal(ps: seq<Payout>): nat {
    if ps == [] then 0 else ps[0].amount + PayoutTotal(ps[1..])
  }

  lemma {:induction false} PayoutTotalConcat(a: seq<Payout>, b: seq<Payout>)
    ensures PayoutTotal(a + b) == PayoutTotal(a) + PayoutTotal(b)
  {
    if a == [] {
      assert a + b == b;
    } else {
      assert (a + b)[1..] == a[1..] + b;
      PayoutTotalConcat(a[1..], b);
    }
  }

  lemma {:induction false} DueSame(locks: Locks, locks': Locks, owner: Address, nonces: seq<nat>, now: Timestamp)
    requires SameAt(locks, locks', owner, nonces)
    ensures Due(locks', owner, nonces, now) == Due(locks, owner, nonces, now)
    ensures NotDue(locks', owner, nonces, now) == NotDue(locks, owner, nonces, now)
  {
    if nonces != [] {
      DueSame(locks, locks', owner, nonces[1..], now);
    }
  }

  /** Releasing one listed lock moves its amount from the stored total to the payout if deletes take effect. */
  lemma SweepLockTotals(w: Sweep, owner: Address, nonce: nat, now: Timestamp, erasing: bool, o: Address)
    ensures var w' := SweepLock(w, owner, nonce, now, erasing);
            && Stored(w'.locks) + (if erasing then w'.total else 0) == Stored(w.locks) + (if erasing then w.total else 0)
            && Active(w'.locks, o) == Active(w.locks, o)
  {
    var id := LockId(owner, nonce);
    if IsMatured(w.locks, id, now) {
      DeleteLockTotals(w.locks, id, o);
    }
  }

  lemma {:induction false} SweepTotals(w: Sweep, owner: Address, nonces: seq<nat>, now: Timestamp, erasing: bool, o: Address)
    ensures var w' := SweepAll(w, owner, nonces, now, erasing);
            && Stored(w'.locks) + (if erasing then w'.total else 0) == Stored(w.locks) + (if erasing then w.total else 0)
            && Active(w'.locks, o) == Active(w.locks, o)
    decreases |nonces|
  {
    if nonces != [] {
      SweepLockTotals(w, owner, nonces[0], now, erasing, o);
      SweepTotals(SweepLock(w, owner, nonces[0], now, erasing), owner, nonces[1..], now, erasing, o);
    }
  }

  /** The locks a sweep leaves: with effective deletes, everything except the listed locks that were due. */
  ghost function Kept(locks: Locks, owner: Address, nonces: seq<nat>, now: Timestamp, erasing: bool): Locks {
    map id | id in locks && !(erasing && id.owner == owner && id.nonce in nonces && IsMatured(locks, id, now)) :: locks[id]
  }

  ghost predicate Positive(locks: Locks) { forall id :: id in locks ==> locks[id].amount > 0 }

  lemma SweepLockResult(w: Sweep, owner: Address, nonce: nat, now: Timestamp, erasing: bool)
    requires Positive(w.locks) && LockId(owner, nonce) in w.locks
    ensures var id := LockId(owner, nonce);
            var w' := SweepLock(w, owner, nonce, now, erasing);
            && w'.locks == (if erasing && IsMatured(w.locks, id, now) then w.locks - {id} else w.locks)
            && w'.payouts == w.payouts + DueAt(w.locks, id, now)
            && w'.kept == w.kept + NotDueAt(w.locks, id, now)
  {
  }

  lemma SweepRest(w: Sweep, owner: Address, nonces: seq<nat>, now: Timestamp, erasing: bool)
    requires Positive(w.locks) && nonces != [] && Listed(w.locks, owner, nonces)
    ensures var w' := SweepLock(w, owner, nonces[0], now, erasing);
            && Positive(w'.locks)
            && Listed(w'.locks, owner, nonces[1..])
            && SameAt(w.locks, w'.locks, owner, nonces[1..])
  {
    SweepLockResult(w, owner, nonces[0], now, erasing);
    assert nonces[0] in nonces && forall n :: n in nonces[1..] ==> n in nonces && n != nonces[0];
  }

  lemma Assoc<T>(a: seq<T>, b: seq<T>, c: seq<T>, ab: seq<T>, bc: seq<T>)
    requires ab == a + b && bc == b + c
    ensures ab + c == a + bc
  {
  }

  /** A sweep pays exactly the due locks, whether or not deletes take effect. */
  lemma {:induction false} SweepPays(w: Sweep, owner: Address, nonces: seq<nat>, now: Timestamp, erasing: bool)
    requires Positive(w.locks) && Listed(w.locks, owner, nonces)
    ensures SweepAll(w, owner, nonces, now, erasing).payouts == w.payouts + Due(w.locks, owner, nonces, now)
    decreases |nonces|
  {
    if nonces != [] {
      var w' := SweepLock(w, owner, nonces[0], now, erasing);
      SweepLockResult(w, owner, nonces[0], now, erasing);
      SweepRest(w, owner, nonces, now, erasing);
      DueSame(w.locks, w'.locks, owner, nonces[1..], now);
      SweepPays(w', owner, nonces[1..], now, erasing);
      Assoc(w.payouts, DueAt(w.locks, LockId(owner, nonces[0]), now), Due(w.locks, owner, nonces[1..], now),
            w'.payouts, Due(w.locks, owner, nonces, now));
    }
  }

  /** A sweep keeps exactly the other nonces listed. */
  lemma {:induction false} SweepLists(w: Sweep, owner: Address, nonces: seq<nat>, now: Timestamp, erasing: bool)
    requires Positive(w.locks) && Listed(w.locks, owner, nonces)
    ensures SweepAll(w, owner, nonces, now, erasing).kept == w.kept + NotDue(w.locks, owner, nonces, now)
    decreases |nonces|
  {
    if nonces != [] {
      var w' := SweepLock(w, owner, nonces[0], now, erasing);
      SweepLockResult(w, owner, nonces[0], now, erasing);
      SweepRest(w, owner, nonces, now, erasing);
      DueSame(w.locks, w'.locks, owner, nonces[1..], now);
      SweepLists(w', owner, nonces[1..], now, erasing);
      Assoc(w.kept, NotDueAt(w.locks, LockId(owner, nonces[0]), now), NotDue(w.locks, owner, nonces[1..], now),
            w'.kept, NotDue(w.locks, owner, nonces, now));
    }
  }

  lemma KeptTwice(locks: Locks, owner: Address, nonces: seq<nat>, now: Timestamp, erasing: bool)
    requires nonces != [] && Distinct(nonces)
    ensures var id := LockId(owner, nonces[0]);
            var locks' := if erasing && IsMatured(locks, id, now) then locks - {id} else locks;
            Kept(locks', owner, nonces[1..], now, erasing) == Kept(locks, owner, nonces, now, erasing)
  {
    assert nonces == [nonces[0]] + nonces[1..];
  }

  /** A sweep deletes exactly the due locks if deletes take effect, and none otherwise. */
  lemma {:induction false} SweepLocks(w: Sweep, owner: Address, nonces: seq<nat>, now: Timestamp, erasing: bool)
    requires Positive(w.locks) && Listed(w.locks, owner, nonces)
    ensures SweepAll(w, owner, nonces, now, erasing).locks == Kept(w.locks, owner, nonces, now, erasing)
    decreases |nonces|
  {
    if nonces == [] {
      assert Kept(w.locks, owner, nonces, now, erasing) == w.locks;
    } else {
      SweepLockResult(w, owner, nonces[0], now, erasing);
      SweepRest(w, owner, nonces, now, erasing);
      SweepLocks(SweepLock(w, owner, nonces[0], now, erasing), owner, nonces[1..], now, erasing);
      KeptTwice(w.locks, owner, nonces, now, erasing);
    }
  }

  lemma {:induction false} SweepTotal(w: Sweep, owner: Address, nonces: seq<nat>, now: Timestamp, erasing: bool)
    requires w.total == PayoutTotal(w.payouts)
    ensures var w' := SweepAll(w, owner, nonces, now, erasing);
            w'.total == PayoutTotal(w'.payouts)
    decreases |nonces|
  {
    if nonces != [] {
      var id := LockId(owner, nonces[0]);
      if id in w.locks {
        PayoutTotalConcat(w.payouts, [Payout(nonces[0], w.locks[id].amount)]);
      }
      SweepTotal(SweepLock(w, owner, nonces[0], now, erasing), owner, nonces[1..], now, erasing);
    }
  }
}
