/** What every run of lock, unbond and withdraw keeps, whether or not deletes take effect. */
module StakeLockRuns {
  import opened Accounts
  import opened Sums
  import opened StakeLocks
  import opened StakeLockProofs

  // ---------- lock ----------

  lemma NewLockOk(locks: Locks, next: map<Address, nat>, owner: Address, lock: StakeLock)
    requires LocksOk(locks, next) && lock.owner == owner && lock.amount > 0 && lock.unbondAt == 0
    ensures var nonce := NextNonce(next, owner);
            && LockId(owner, nonce) !in locks
            && LocksOk(locks[LockId(owner, nonce) := lock], next[owner := nonce + 1])
  {
  }

  lemma NewLockListed(locks: Locks, index: map<Address, seq<nat>>, id: LockId, lock: StakeLock)
    requires IndexOk(locks, index) && id !in locks
    ensures IndexOk(locks[id := lock], index[id.owner := Lookup(index, id.owner, []) + [id.nonce]])
  {
    assert id.nonce !in Lookup(index, id.owner, []);
    forall o | o in index
      ensures Listed(locks[id := lock], o, index[o])
    {
      assert Listed(locks, o, index[o]);
    }
  }

  lemma NewLockBonded(locks: Locks, bonded: map<Address, int>, id: LockId, lock: StakeLock)
    requires BondedOk(locks, bonded) && id !in locks && lock.unbondAt == 0
    ensures BondedOk(locks[id := lock], bonded[id.owner := Lookup(bonded, id.owner, 0) + lock.amount])
  {
    var bonded' := bonded[id.owner := Lookup(bonded, id.owner, 0) + lock.amount];
    forall o
      ensures Lookup(bonded', o, 0) == Active(locks[id := lock], o)
    {
      PutLockActive(locks, id, lock, o);
      assert Lookup(bonded, o, 0) == Active(locks, o);
    }
  }

  lemma BookedLocks(b: Book, owner: Address, amount: nat, now: Timestamp)
    requires LocksOk(b.locks, b.nextNonce) && amount > 0
    ensures LockId(owner, NextNonce(b.nextNonce, owner)) !in b.locks
    ensures var b' := Booked(b, owner, amount, now); LocksOk(b'.locks, b'.nextNonce)
  {
    NewLockOk(b.locks, b.nextNonce, owner, StakeLock(owner, amount, now, 0, 0));
  }

  lemma BookedStored(b: Book, owner: Address, amount: nat, now: Timestamp)
    requires LocksOk(b.locks, b.nextNonce) && amount > 0
    ensures Stored(Booked(b, owner, amount, now).locks) == Stored(b.locks) + amount
  {
    BookedLocks(b, owner, amount, now);
    PutLockStored(b.locks, LockId(owner, NextNonce(b.nextNonce, owner)), StakeLock(owner, amount, now, 0, 0));
  }

  lemma BookedIndex(b: Book, owner: Address, amount: nat, now: Timestamp)
    requires LocksOk(b.locks, b.nextNonce) && IndexOk(b.locks, b.index) && amount > 0
    ensures var b' := Booked(b, owner, amount, now); IndexOk(b'.locks, b'.index)
  {
    BookedLocks(b, owner, amount, now);
    NewLockListed(b.locks, b.index, LockId(owner, NextNonce(b.nextNonce, owner)), StakeLock(owner, amount, now, 0, 0));
  }

  lemma BookedBonded(b: Book, owner: Address, amount: nat, now: Timestamp)
    requires LocksOk(b.locks, b.nextNonce) && BondedOk(b.locks, b.bonded) && amount > 0
    ensures var b' := Booked(b, owner, amount, now); BondedOk(b'.locks, b'.bonded)
  {
    assert LockId(owner, NextNonce(b.nextNonce, owner)) !in b.locks by { BookedLocks(b, owner, amount, now); }
    NewLockBonded(b.locks, b.bonded, LockId(owner, NextNonce(b.nextNonce, owner)), StakeLock(owner, amount, now, 0, 0));
  }

  lemma BookedCore(b: Book, owner: Address, amount: nat, now: Timestamp)
    requires Core(b) && amount > 0
    ensures Core(Booked(b, owner, amount, now))
  {
    BookedLocks(b, owner, amount, now);
    BookedIndex(b, owner, amount, now);
    BookedBonded(b, owner, amount, now);
  }

  // ---------- unbond ----------

  lemma WalkListed(w: Walk, owner: Address, nonces: seq<nat>, now: Timestamp)
    requires LocksOk(w.locks, w.nextNonce) && Listed(w.locks, owner, nonces) && w.remaining > 0 && w.kept == []
    ensures var w' := Consume(w, owner, nonces, now);
            Listed(w'.locks, owner, w'.kept)
  {
    ConsumeKept(w, owner, nonces, now);
    ConsumeTouches(w, owner, nonces, now);
    var w' := Consume(w, owner, nonces, now);
    forall n | n in nonces
      ensures LockId(owner, n) in w'.locks && n != NextNonce(w.nextNonce, owner)
    {
      assert LockId(owner, n) in w.locks;
    }
    assert w'.kept == nonces[..Reach(w.locks, owner, nonces, w.remaining)] + SplitNonce(w, w', owner);
  }

  lemma IndexFollows(locks: Locks, locks': Locks, index: map<Address, seq<nat>>, owner: Address, nonces: seq<nat>, erasing: bool)
    requires IndexOk(locks, index) && Listed(locks', owner, nonces)
    requires forall id :: id in locks && (id.owner != owner || !erasing) ==> id in locks'
    ensures IndexOk(locks', PutNonces(index, owner, nonces, erasing))
  {
    forall o | o in index && (o != owner || !erasing)
      ensures Listed(locks', o, index[o])
    {
      assert Listed(locks, o, index[o]);
    }
  }

  lemma BondedFollows(locks: Locks, locks': Locks, bonded: map<Address, int>, owner: Address, moved: int)
    requires BondedOk(locks, bonded)
    requires forall o :: Active(locks', o) == Active(locks, o) - (if o == owner then moved else 0)
    ensures BondedOk(locks', bonded[owner := Lookup(bonded, owner, 0) - moved])
    ensures moved == 0 ==> BondedOk(locks', bonded)
  {
    var bonded' := bonded[owner := Lookup(bonded, owner, 0) - moved];
    forall o
      ensures Lookup(bonded', o, 0) == Active(locks', o) && (moved == 0 ==> Lookup(bonded, o, 0) == Active(locks', o))
    {
      assert Lookup(bonded, o, 0) == Active(locks, o);
    }
  }

  /** The stored total is preserved and what the loop reports leaves the owner's active stake. */
  lemma WalkTotals(b: Book, owner: Address, amount: nat, now: Timestamp)
    requires Core(b)
    ensures var w := Walked(b, owner, amount, now);
            && LocksOk(w.locks, w.nextNonce)
            && Stored(w.locks) == Stored(b.locks)
            && w.unbonded == amount - w.remaining
            && (forall o :: Active(w.locks, o) == Active(b.locks, o) - (if o == owner then w.unbonded else 0))
  {
    var w0 := StartWalk(b, amount);
    ConsumeKeeps(w0, owner, Nonces(b, owner), now, owner);
    forall o
      ensures Active(Walked(b, owner, amount, now).locks, o)
              == Active(b.locks, o) - (if o == owner then Walked(b, owner, amount, now).unbonded else 0)
    {
      ConsumeKeeps(w0, owner, Nonces(b, owner), now, o);
    }
  }

  /** A coverable request is unbonded in full. */
  lemma WalkMeets(b: Book, owner: Address, amount: nat, now: Timestamp)
    requires Core(b) && 0 < amount <= Available(b.locks, owner, Nonces(b, owner))
    ensures Walked(b, owner, amount, now).unbonded == amount
  {
    ConsumeMeets(StartWalk(b, amount), owner, Nonces(b, owner), now);
    WalkTotals(b, owner, amount, now);
  }

  lemma WalkIndex(b: Book, owner: Address, amount: nat, now: Timestamp, erasing: bool)
    requires Core(b) && 0 < amount
    ensures var w := Walked(b, owner, amount, now); IndexOk(w.locks, PutNonces(b.index, owner, w.kept, erasing))
  {
    var w0 := StartWalk(b, amount);
    var nonces := Nonces(b, owner);
    WalkListed(w0, owner, nonces, now);
    ConsumeTouches(w0, owner, nonces, now);
    IndexFollows(b.locks, Walked(b, owner, amount, now).locks, b.index, owner, Walked(b, owner, amount, now).kept, erasing);
  }

  lemma WalkCore(b: Book, owner: Address, amount: nat, now: Timestamp, erasing: bool)
    requires Core(b) && 0 < amount
    ensures Core(ApplyWalk(b, owner, Walked(b, owner, amount, now), erasing))
  {
    var w := Walked(b, owner, amount, now);
    WalkTotals(b, owner, amount, now);
    WalkIndex(b, owner, amount, now, erasing);
    BondedFollows(b.locks, w.locks, b.bonded, owner, w.unbonded);
  }

  // ---------- withdraw ----------

  /** What is due to the owner now, and what stays listed. */
  ghost function DueNow(b: Book, owner: Address, now: Timestamp): seq<Payout> { Due(b.locks, owner, Nonces(b, owner), now) }

  ghost function NotDueNow(b: Book, owner: Address, now: Timestamp): seq<nat> {
    NotDue(b.locks, owner, Nonces(b, owner), now)
  }

  lemma OwnListed(b: Book, owner: Address)
    requires Core(b)
    ensures Positive(b.locks) && Listed(b.locks, owner, Nonces(b, owner))
  {
  }

  /** What a withdrawal's loop reports, whether or not deletes take effect. */
  lemma SweptExact(b: Book, owner: Address, now: Timestamp, erasing: bool)
    requires Core(b)
    ensures var w := Swept(b, owner, now, erasing);
            && w.payouts == DueNow(b, owner, now)
            && w.total == PayoutTotal(DueNow(b, owner, now))
            && w.kept == NotDueNow(b, owner, now)
            && w.locks == Kept(b.locks, owner, Nonces(b, owner), now, erasing)
  {
    var w0, nonces := StartSweep(b), Nonces(b, owner);
    OwnListed(b, owner);
    SweepPays(w0, owner, nonces, now, erasing);
    SweepLists(w0, owner, nonces, now, erasing);
    SweepLocks(w0, owner, nonces, now, erasing);
    SweepTotal(w0, owner, nonces, now, erasing);
    assert w0.payouts + DueNow(b, owner, now) == DueNow(b, owner, now);
    assert w0.kept + NotDueNow(b, owner, now) == NotDueNow(b, owner, now);
  }

  lemma SweptStored(b: Book, owner: Address, now: Timestamp, erasing: bool)
    requires Core(b)
    ensures var w := Swept(b, owner, now, erasing);
            Stored(w.locks) == Stored(b.locks) - (if erasing then PayoutTotal(DueNow(b, owner, now)) else 0)
  {
    SweepTotals(StartSweep(b), owner, Nonces(b, owner), now, erasing, owner);
    SweptExact(b, owner, now, erasing);
  }

  lemma SweptIndex(b: Book, owner: Address, now: Timestamp, erasing: bool)
    requires Core(b)
    ensures var w := Swept(b, owner, now, erasing); IndexOk(w.locks, PutNonces(b.index, owner, w.kept, erasing))
  {
    SweptExact(b, owner, now, erasing);
    OwnListed(b, owner);
    var w := Swept(b, owner, now, erasing);
    KeptListed(b.locks, owner, Nonces(b, owner), now, erasing);
    IndexFollows(b.locks, w.locks, b.index, owner, w.kept, erasing);
  }

  lemma KeptListed(locks: Locks, owner: Address, nonces: seq<nat>, now: Timestamp, erasing: bool)
    requires Listed(locks, owner, nonces)
    ensures Listed(Kept(locks, owner, nonces, now, erasing), owner, NotDue(locks, owner, nonces, now))
  {
  }

  lemma SweptBonded(b: Book, owner: Address, now: Timestamp, erasing: bool)
    requires Core(b)
    ensures BondedOk(Swept(b, owner, now, erasing).locks, b.bonded)
  {
    var w := Swept(b, owner, now, erasing);
    forall o
      ensures Active(w.locks, o) == Active(b.locks, o) - (if o == owner then 0 else 0)
    {
      SweepTotals(StartSweep(b), owner, Nonces(b, owner), now, erasing, o);
    }
    BondedFollows(b.locks, w.locks, b.bonded, owner, 0);
  }

  lemma SweepCore(b: Book, owner: Address, now: Timestamp, erasing: bool)
    requires Core(b)
    ensures Core(ApplySweep(b, owner, Swept(b, owner, now, erasing), erasing))
  {
    SweptIndex(b, owner, now, erasing);
    SweptBonded(b, owner, now, erasing);
    SweptExact(b, owner, now, erasing);
  }

  lemma FinishBook(s: State, owner: Address, auth: nat, w: Sweep)
    ensures FinishWithdraw(s, owner, auth, w).0.book == s.book
  {
  }

  lemma FinishFixed(s: State, owner: Address, auth: nat, w: Sweep)
    ensures var s' := FinishWithdraw(s, owner, auth, w).0; s'.vault == s.vault && s'.erasing == s.erasing
  {
  }

  // ---------- every step ----------

  lemma StepFixed(s: State, op: Op)
    ensures Step(s, op).0.vault == s.vault && Step(s, op).0.erasing == s.erasing
  {
    if op.WithdrawOp? {
      var w := Swept(s.book, op.owner, op.now, s.erasing);
      FinishFixed(s.(book := ApplySweep(s.book, op.owner, w, s.erasing)), op.owner, op.auth, w);
    }
  }

  /** The tables after a withdrawal. */
  lemma WithdrawBook(s: State, owner: Address, auth: nat, paused: bool, now: Timestamp)
    ensures Withdraw(s, owner, auth, paused, now).0.book
            == if Reaches(s, owner, auth, paused) then ApplySweep(s.book, owner, Swept(s.book, owner, now, s.erasing), s.erasing)
               else s.book
  {
    var w := Swept(s.book, owner, now, s.erasing);
    FinishBook(s.(book := ApplySweep(s.book, owner, w, s.erasing)), owner, auth, w);
  }

  /** The tables after a lock. */
  lemma LockBook(s: State, owner: Address, amount: int, auth: nat, paused: bool, now: Timestamp)
    ensures var b := LockStake(s, owner, amount, auth, paused, now).0.book;
            b == s.book || (amount > 0 && b == Booked(s.book, owner, amount, now))
  {
  }

  /** The tables after an unbond. */
  lemma UnbondBook(s: State, owner: Address, amount: int, auth: nat, paused: bool, now: Timestamp)
    ensures var b := Unbond(s, owner, amount, auth, paused, now).0.book;
            b == s.book || (amount > 0 && b == ApplyWalk(s.book, owner, Walked(s.book, owner, amount, now), s.erasing))
  {
  }

  /** Every step of every owner keeps locks, index and bonded totals in agreement. */
  lemma StepCore(s: State, op: Op)
    requires Core(s.book)
    ensures Core(Step(s, op).0.book)
  {
    match op
    case LockOp(o, amount, auth, paused, now) =>
      LockBook(s, o, amount, auth, paused, now);
      if amount > 0 {
        BookedCore(s.book, o, amount, now);
      }
    case UnbondOp(o, amount, auth, paused, now) =>
      UnbondBook(s, o, amount, auth, paused, now);
      if amount > 0 {
        WalkCore(s.book, o, amount, now, s.erasing);
      }
    case WithdrawOp(o, auth, paused, now) =>
      WithdrawBook(s, o, auth, paused, now);
      SweepCore(s.book, o, now, s.erasing);
  }

  /** In every run over all owners locks, index and bonded totals agree. */
  lemma {:induction false} RunCore(s: State, ops: seq<Op>)
    requires Core(s.book)
    ensures Core(Run(s, ops).book) && Run(s, ops).vault == s.vault && Run(s, ops).erasing == s.erasing
    decreases |ops|
  {
    if ops != [] {
      StepCore(s, ops[0]);
      StepFixed(s, ops[0]);
      RunCore(Step(s, ops[0]).0, ops[1..]);
    }
  }

  // ---------- who is paid what, and when ----------

  lemma {:induction false} DuePositive(locks: Locks, owner: Address, nonces: seq<nat>, now: Timestamp)
    requires Positive(locks)
    ensures PayoutTotal(Due(locks, owner, nonces, now)) == 0 <==> Due(locks, owner, nonces, now) == []
  {
    if nonces != [] {
      DuePositive(locks, owner, nonces[1..], now);
      PayoutTotalConcat(DueAt(locks, LockId(owner, nonces[0]), now), Due(locks, owner, nonces[1..], now));
    }
  }

  ghost function DueTotal(s: State, owner: Address, now: Timestamp): nat { PayoutTotal(DueNow(s.book, owner, now)) }

  lemma FinishReply(s: State, owner: Address, auth: nat, w: Sweep)
    ensures FinishWithdraw(s, owner, auth, w).1
            == if w.total == 0 then if w.pending then Failed(NotYetWithdrawable) else Withdrawn([])
               else if Balance(s, s.vault) < w.total then Failed(VaultUnderfunded) else Withdrawn(w.payouts)
  {
  }

  /** A withdrawal that finds something due pays all of it or is refused for an underfunded vault. */
  lemma WithdrawReply(s: State, owner: Address, auth: nat, paused: bool, now: Timestamp)
    requires Core(s.book) && Reaches(s, owner, auth, paused)
    ensures var r := Withdraw(s, owner, auth, paused, now).1;
            if DueNow(s.book, owner, now) == [] then r == Withdrawn([]) || r == Failed(NotYetWithdrawable)
            else if DueTotal(s, owner, now) <= Balance(s, s.vault) then r == Withdrawn(DueNow(s.book, owner, now))
            else r == Failed(VaultUnderfunded)
  {
    var w := Swept(s.book, owner, now, s.erasing);
    SweptExact(s.book, owner, now, s.erasing);
    DuePositive(s.book.locks, owner, Nonces(s.book, owner), now);
    FinishReply(s.(book := ApplySweep(s.book, owner, w, s.erasing)), owner, auth, w);
  }

  /** A withdrawal pays exactly the listed locks that have been unbonding for the whole cooldown. */
  lemma WithdrawPays(s: State, owner: Address, auth: nat, paused: bool, now: Timestamp)
    requires Core(s.book) && Withdraw(s, owner, auth, paused, now).1.Withdrawn?
    ensures Withdraw(s, owner, auth, paused, now).1.payouts == DueNow(s.book, owner, now)
    ensures forall id :: IsMatured(s.book.locks, id, now) <==>
              id in s.book.locks && s.book.locks[id].unbondAt != 0 && s.book.locks[id].unbondAt + UNBOND_SECONDS <= now
  {
    if Reaches(s, owner, auth, paused) {
      WithdrawReply(s, owner, auth, paused, now);
    }
  }

  // ---------- the vault's surplus ----------

  /** What the vault holds beyond the stored locks. */
  ghost function Surplus(s: State): int { Balance(s, s.vault) - Stored(s.book.locks) }

  lemma FinishVault(s: State, owner: Address, auth: nat, w: Sweep)
    ensures Balance(FinishWithdraw(s, owner, auth, w).0, s.vault)
            == Balance(s, s.vault) - if w.total <= Balance(s, s.vault) then w.total else 0
  {
  }

  /** The vault's balance after a withdrawal. */
  lemma WithdrawVault(s: State, owner: Address, auth: nat, paused: bool, now: Timestamp)
    requires Core(s.book) && Reaches(s, owner, auth, paused)
    ensures Balance(Withdraw(s, owner, auth, paused, now).0, s.vault)
            == Balance(s, s.vault) - if DueTotal(s, owner, now) <= Balance(s, s.vault) then DueTotal(s, owner, now) else 0
  {
    var w := Swept(s.book, owner, now, s.erasing);
    SweptExact(s.book, owner, now, s.erasing);
    FinishVault(s.(book := ApplySweep(s.book, owner, w, s.erasing)), owner, auth, w);
  }

  /**
   A withdrawal changes the surplus by what it deletes less what it pays. So it keeps the surplus
   exactly when nothing is due, or the vault can pay and deletes take effect, or neither.
   */
  lemma WithdrawDrift(s: State, owner: Address, auth: nat, paused: bool, now: Timestamp)
    requires Core(s.book) && Reaches(s, owner, auth, paused)
    ensures var s' := Withdraw(s, owner, auth, paused, now).0;
            var due := DueTotal(s, owner, now);
            && Surplus(s') == Surplus(s) + (if s.erasing then due else 0) - (if due <= Balance(s, s.vault) then due else 0)
            && (Surplus(s') == Surplus(s) <==>
                DueNow(s.book, owner, now) == [] || (s.erasing <==> due <= Balance(s, s.vault)))
  {
    WithdrawVault(s, owner, auth, paused, now);
    WithdrawBook(s, owner, auth, paused, now);
    SweptStored(s.book, owner, now, s.erasing);
    DuePositive(s.book.locks, owner, Nonces(s.book, owner), now);
    StepFixed(s, WithdrawOp(owner, auth, paused, now));
  }

  lemma LockSurplus(s: State, owner: Address, amount: int, auth: nat, paused: bool, now: Timestamp)
    requires Core(s.book)
    ensures Surplus(LockStake(s, owner, amount, auth, paused, now).0) == Surplus(s)
  {
    if amount > 0 {
      BookedStored(s.book, owner, amount, now);
    }
  }

  lemma UnbondSurplus(s: State, owner: Address, amount: int, auth: nat, paused: bool, now: Timestamp)
    requires Core(s.book)
    ensures Surplus(Unbond(s, owner, amount, auth, paused, now).0) == Surplus(s)
  {
    if amount > 0 {
      WalkTotals(s.book, owner, amount, now);
    }
  }

  /** What a step pays out. */
  ghost function PaidBy(r: Reply): nat { if r.Withdrawn? then PayoutTotal(r.payouts) else 0 }

  ghost function PaidOver(s: State, ops: seq<Op>): nat
    decreases |ops|
  {
    if ops == [] then 0 else PaidBy(Step(s, ops[0]).1) + PaidOver(Step(s, ops[0]).0, ops[1..])
  }

  lemma DueStored(s: State, owner: Address, now: Timestamp)
    requires Core(s.book)
    ensures DueTotal(s, owner, now) <= Stored(s.book.locks)
  {
    SweptStored(s.book, owner, now, true);
    SweptExact(s.book, owner, now, true);
    TotalNonNegative(Amounts(Swept(s.book, owner, now, true).locks));
  }

  lemma WithdrawSurplus(s: State, owner: Address, auth: nat, paused: bool, now: Timestamp)
    requires Core(s.book) && (s.erasing ==> Surplus(s) >= 0)
    ensures var (s', r) := Withdraw(s, owner, auth, paused, now);
            Surplus(s') == Surplus(s) - if s.erasing then 0 else PaidBy(r)
  {
    if Reaches(s, owner, auth, paused) {
      WithdrawDrift(s, owner, auth, paused, now);
      WithdrawReply(s, owner, auth, paused, now);
      DueStored(s, owner, now);
    }
  }

  /** With effective deletes the surplus stays; with deletes that miss it falls by what is paid. */
  lemma StepSurplus(s: State, op: Op)
    requires Core(s.book) && (s.erasing ==> Surplus(s) >= 0)
    ensures Surplus(Step(s, op).0) == Surplus(s) - if s.erasing then 0 else PaidBy(Step(s, op).1)
  {
    match op
    case LockOp(o, amount, auth, paused, now) => LockSurplus(s, o, amount, auth, paused, now);
    case UnbondOp(o, amount, auth, paused, now) => UnbondSurplus(s, o, amount, auth, paused, now);
    case WithdrawOp(o, auth, paused, now) => WithdrawSurplus(s, o, auth, paused, now);
  }

  /** Over every run the surplus stays with effective deletes, and otherwise falls by exactly what the run paid out. */
  lemma {:induction false} RunSurplus(s: State, ops: seq<Op>)
    requires Core(s.book) && (s.erasing ==> Surplus(s) >= 0)
    ensures Surplus(Run(s, ops)) == Surplus(s) - if s.erasing then 0 else PaidOver(s, ops)
    decreases |ops|
  {
    if ops != [] {
      StepCore(s, ops[0]);
      StepFixed(s, ops[0]);
      StepSurplus(s, ops[0]);
      RunSurplus(Step(s, ops[0]).0, ops[1..]);
    }
  }

  /** A ledger nobody has locked anything in yet. */
  ghost predicate Unused(s: State) { s.book == Book(map[], map[], map[], map[], map[]) }

  lemma UnusedIsSound(s: State)
    requires Unused(s)
    ensures Core(s.book) && QueueOk(s.book.locks, s.book.queue) && Surplus(s) == Balance(s, s.vault)
  {
    forall o
      ensures Active(s.book.locks, o) == 0
    {
      assert ActiveWeights(s.book.locks, o) == map[];
    }
    assert Amounts(s.book.locks) == map[];
  }
}
