/** The stake-lock ledger as the node runs it: stored fields updated step by step. */
module StakeVault {
  import opened Accounts
  import Spec = StakeLocks
  import opened StakeLocks

  class Vault {
    const vault: Address
    const erasing: bool
    var balances: Balances
    var locks: Locks
    var index: map<Address, seq<nat>>
    var nextNonce: map<Address, nat>
    var bonded: map<Address, int>
    var authNonce: map<Address, nat>
    var queue: Queue

    constructor (vault: Address, erasing: bool, balances: Balances)
      ensures View() == State(vault, erasing, balances, Book(map[], map[], map[], map[], map[]), map[])
    {
      this.vault, this.erasing, this.balances := vault, erasing, balances;
      locks, index, nextNonce, bonded, authNonce, queue := map[], map[], map[], map[], map[], map[];
    }

    ghost function View(): State
      reads this
    {
      State(vault, erasing, balances, Tables(), authNonce)
    }

    ghost function Tables(): Book
      reads this
    {
      Book(locks, index, nextNonce, bonded, queue)
    }

    method AllocateNonce(owner: Address) returns (nonce: nat)
      modifies this`nextNonce
      ensures nonce == NextNonce(old(nextNonce), owner)
      ensures nextNonce == old(nextNonce)[owner := nonce + 1]
    {
      nonce := if owner in nextNonce then nextNonce[owner] else 0;
      if nonce == 0 {
        nonce := 1;
      }
      nextNonce := nextNonce[owner := nonce + 1];
    }

    /** Adds the entry to the day's bucket unless its lock is already there. */
    method EnqueueWithdrawal(day: Day, entry: WithdrawalRef)
      modifies this`queue
      ensures queue == QueueAppend(old(queue), day, entry)
    {
      var entries := Lookup(queue, day, []);
      var found := false;
      for i := 0 to |entries|
        invariant found <==> Queued(entries[..i], entry.Id())
        invariant !found ==> forall j :: 0 <= j < i ==> entries[j].Id() != entry.Id()
      {
        if entries[i].nonce == entry.nonce && entries[i].owner == entry.owner {
          found := true;
          assert entries[..i + 1][i].Id() == entry.Id();
          break;
        }
        assert entries[..i + 1] == entries[..i] + [entries[i]];
      }
      if !found {
        entries := entries + [entry];
      }
      queue := queue[day := entries];
    }

    /** Filters the lock's entries out of the day's bucket. */
    method DequeueWithdrawal(day: Day, owner: Address, nonce: nat)
      modifies this`queue
      ensures queue == QueueRemove(old(queue), day, LockId(owner, nonce), erasing)
    {
      var entries := Lookup(queue, day, []);
      var filtered := [];
      for i := 0 to |entries|
        invariant filtered + Without(entries[i..], LockId(owner, nonce)) == Without(entries, LockId(owner, nonce))
        invariant |filtered| <= i
      {
        assert entries[i..][1..] == entries[i + 1..];
        if !(entries[i].nonce == nonce && entries[i].owner == owner) {
          filtered := filtered + [entries[i]];
        }
      }
      assert filtered == Without(entries, LockId(owner, nonce));
      if |filtered| != |entries| {
        if filtered != [] {
          queue := queue[day := filtered];
        } else if erasing {
          queue := queue - {day};
        }
      }
    }

    /** Stores a new lock under a new nonce, lists it and adds it to the bonded total. */
    method RecordLock(owner: Address, amount: nat, now: Timestamp) returns (nonce: nat)
      modifies this`locks, this`index, this`nextNonce, this`bonded
      ensures Tables() == Booked(old(Tables()), owner, amount, now) && nonce == NextNonce(old(nextNonce), owner)
    {
      nonce := AllocateNonce(owner);
      locks := locks[LockId(owner, nonce) := StakeLock(owner, amount, now, 0, 0)];
      index := index[owner := Lookup(index, owner, []) + [nonce]];
      bonded := bonded[owner := Lookup(bonded, owner, 0) + amount];
    }

    method LockStake(owner: Address, amount: int, auth: nat, paused: bool, now: Timestamp) returns (r: Reply)
      modifies this
      ensures (View(), r) == Spec.LockStake(old(View()), owner, amount, auth, paused, now)
    {
      if amount <= 0 { return Failed(AmountNotPositive); }
      if auth == 0 { return Failed(ZeroAuthNonce); }
      if paused { return Failed(ModulePaused); }
      if auth <= Lookup(authNonce, owner, 0) { return Failed(StaleAuthNonce); }
      var ownerBalance := BalanceOf(balances, owner);
      if ownerBalance < amount { return Failed(InsufficientBalance); }
      var vaultBalance := BalanceOf(balances, vault);
      balances := balances[owner := ownerBalance - amount];
      balances := balances[vault := vaultBalance + amount];
      var nonce := RecordLock(owner, amount, now);
      authNonce := authNonce[owner := auth];
      return Locked(nonce);
    }

    /** The pre-scan over the listed locks. */
    method SumActive(owner: Address, nonces: seq<nat>) returns (available: nat)
      ensures available == Available(locks, owner, nonces)
    {
      available := 0;
      for i := 0 to |nonces|
        invariant available + Available(locks, owner, nonces[i..]) == Available(locks, owner, nonces)
      {
        assert nonces[i..][1..] == nonces[i + 1..];
        var id := LockId(owner, nonces[i]);
        if id in locks && locks[id].unbondAt == 0 {
          available := available + locks[id].amount;
        }
      }
    }

    /** Marks the lock as unbonding, or splits it when it holds more than is still missing. */
    method StartUnbonding(id: LockId, remaining: nat, now: Timestamp) returns (added: seq<nat>, take: nat)
      requires id in locks
      modifies this`locks, this`queue, this`nextNonce
      ensures var w := Walk(old(locks), old(queue), old(nextNonce), [], remaining, 0);
              var w' := if old(locks)[id].amount > remaining then TakePart(w, id, now) else TakeWhole(w, id, now);
              locks == w'.locks && queue == w'.queue && nextNonce == w'.nextNonce
              && take == w'.unbonded == remaining - w'.remaining
      ensures added == if old(locks)[id].amount > remaining then [NextNonce(old(nextNonce), id.owner)] else []
    {
      added := [];
      var lock := locks[id];
      var withdrawAt := now + UNBOND_SECONDS;
      if lock.amount > remaining {
        take := remaining;
        var leftover := lock.amount - remaining;
        lock := lock.(amount := remaining, unbondAt := now, withdrawAt := withdrawAt);
        locks := locks[id := lock];
        var newNonce := AllocateNonce(id.owner);
        locks := locks[LockId(id.owner, newNonce) := StakeLock(id.owner, leftover, lock.createdAt, 0, 0)];
        added := [newNonce];
      } else {
        take := lock.amount;
        lock := lock.(unbondAt := now, withdrawAt := withdrawAt);
        locks := locks[id := lock];
      }
      EnqueueWithdrawal(WithdrawDay(withdrawAt), WithdrawalRef(id.owner, id.nonce, take));
    }

    method ConsumeLocks(owner: Address, nonces: seq<nat>, amount: nat, now: Timestamp)
      returns (newNonces: seq<nat>, unbonded: nat)
      requires amount > 0
      modifies this`locks, this`queue, this`nextNonce
      ensures var w := Consume(Walk(old(locks), old(queue), old(nextNonce), [], amount, 0), owner, nonces, now);
              locks == w.locks && queue == w.queue && nextNonce == w.nextNonce
              && newNonces == w.kept && unbonded == w.unbonded
    {
      newNonces, unbonded := [], 0;
      var remaining := amount;
      ghost var start := Walk(locks, queue, nextNonce, [], amount, 0);
      var i := 0;
      while i < |nonces|
        invariant 0 <= i <= |nonces| && remaining > 0
        invariant Consume(Walk(locks, queue, nextNonce, newNonces, remaining, unbonded), owner, nonces[i..], now)
                  == Consume(start, owner, nonces, now)
      {
        ghost var w := Walk(locks, queue, nextNonce, newNonces, remaining, unbonded);
        ghost var rest := nonces[i..];
        assert rest[0] == nonces[i] && rest[1..] == nonces[i + 1..];
        var id := LockId(owner, nonces[i]);
        i := i + 1;
        if id !in locks { continue; }
        newNonces := newNonces + [id.nonce];
        if remaining == 0 || locks[id].amount == 0 || locks[id].unbondAt != 0 { continue; }
        var added, take := StartUnbonding(id, remaining, now);
        newNonces := newNonces + added;
        unbonded := unbonded + take;
        remaining := remaining - take;
        assert Walk(locks, queue, nextNonce, newNonces, remaining, unbonded) == Visit(w, owner, rest[0], now);
        if remaining == 0 { break; }
      }
    }

    /** Consumes locks for the amount and writes the index and the bonded total back. */
    method UnbondLocks(owner: Address, nonces: seq<nat>, amount: nat, now: Timestamp) returns (unbonded: nat)
      requires amount > 0 && nonces == Lookup(index, owner, [])
      modifies this`locks, this`queue, this`nextNonce, this`index, this`bonded
      ensures var w := Walked(old(Tables()), owner, amount, now);
              Tables() == ApplyWalk(old(Tables()), owner, w, erasing) && unbonded == w.unbonded
    {
      var newNonces;
      newNonces, unbonded := ConsumeLocks(owner, nonces, amount, now);
      index := PutNonces(index, owner, newNonces, erasing);
      bonded := bonded[owner := Lookup(bonded, owner, 0) - unbonded];
    }

    method Unbond(owner: Address, amount: int, auth: nat, paused: bool, now: Timestamp) returns (r: Reply)
      modifies this
      ensures (View(), r) == Spec.Unbond(old(View()), owner, amount, auth, paused, now)
    {
      if amount <= 0 { return Failed(AmountNotPositive); }
      if auth == 0 { return Failed(ZeroAuthNonce); }
      if paused { return Failed(ModulePaused); }
      if auth <= Lookup(authNonce, owner, 0) { return Failed(StaleAuthNonce); }
      if Lookup(bonded, owner, 0) < amount { return Failed(InsufficientBonded); }
      var nonces := Lookup(index, owner, []);
      if nonces == [] { return Failed(NoActiveLocks); }
      var available := SumActive(owner, nonces);
      if available < amount { return Failed(InsufficientBonded); }
      var unbonded := UnbondLocks(owner, nonces, amount, now);
      authNonce := authNonce[owner := auth];
      return Unbonded(unbonded, now + UNBOND_SECONDS);
    }

    /** The withdrawing loop: pays matured locks, deletes them and takes them off the queue. */
    method SweepMatured(owner: Address, nonces: seq<nat>, now: Timestamp)
      returns (keepNonces: seq<nat>, withdrawn: seq<Payout>, total: nat, pending: bool)
      modifies this`locks, this`queue
      ensures SweepAll(Sweep(old(locks), old(queue), [], [], 0, false), owner, nonces, now, erasing)
              == Sweep(locks, queue, keepNonces, withdrawn, total, pending)
    {
      keepNonces, withdrawn, total, pending := [], [], 0, false;
      ghost var start := Sweep(locks, queue, [], [], 0, false);
      for i := 0 to |nonces|
        invariant SweepAll(Sweep(locks, queue, keepNonces, withdrawn, total, pending), owner, nonces[i..], now, erasing)
                  == SweepAll(start, owner, nonces, now, erasing)
      {
        assert nonces[i..][0] == nonces[i] && nonces[i..][1..] == nonces[i + 1..];
        var id := LockId(owner, nonces[i]);
        if id !in locks { continue; }
        var lock := locks[id];
        if lock.unbondAt == 0 {
          keepNonces := keepNonces + [nonces[i]];
          continue;
        }
        if lock.withdrawAt > now {
          keepNonces := keepNonces + [nonces[i]];
          if lock.amount > 0 { pending := true; }
          continue;
        }
        if lock.amount > 0 {
          withdrawn := withdrawn + [Payout(nonces[i], lock.amount)];
          total := total + lock.amount;
        }
        locks := DeleteLock(locks, id, erasing);
        DequeueWithdrawal(WithdrawDay(lock.withdrawAt), owner, nonces[i]);
      }
    }

    /** Sweeps the owner's locks and writes the index back. */
    method SweepLocks(owner: Address, nonces: seq<nat>, now: Timestamp)
      returns (withdrawn: seq<Payout>, total: nat, pending: bool)
      requires nonces == Lookup(index, owner, [])
      modifies this`locks, this`queue, this`index
      ensures var w := Swept(old(Tables()), owner, now, erasing);
              && Tables() == ApplySweep(old(Tables()), owner, w, erasing)
              && withdrawn == w.payouts && total == w.total && pending == w.pending
    {
      var keepNonces;
      keepNonces, withdrawn, total, pending := SweepMatured(owner, nonces, now);
      index := PutNonces(index, owner, keepNonces, erasing);
    }

    method Withdraw(owner: Address, auth: nat, paused: bool, now: Timestamp) returns (r: Reply)
      modifies this
      ensures (View(), r) == Spec.Withdraw(old(View()), owner, auth, paused, now)
    {
      if auth == 0 { return Failed(ZeroAuthNonce); }
      if paused { return Failed(ModulePaused); }
      if auth <= Lookup(authNonce, owner, 0) { return Failed(StaleAuthNonce); }
      var nonces := Lookup(index, owner, []);
      if nonces == [] {
        authNonce := authNonce[owner := auth];
        return Withdrawn([]);
      }
      var withdrawn, total, pending := SweepLocks(owner, nonces, now);
      if total == 0 {
        if pending { return Failed(NotYetWithdrawable); }
        authNonce := authNonce[owner := auth];
        return Withdrawn([]);
      }
      var ownerBalance := BalanceOf(balances, owner);
      var vaultBalance := BalanceOf(balances, vault);
      if vaultBalance < total { return Failed(VaultUnderfunded); }
      balances := balances[owner := ownerBalance + total];
      balances := balances[vault := vaultBalance - total];
      authNonce := authNonce[owner := auth];
      return Withdrawn(withdrawn);
    }
  }
}
