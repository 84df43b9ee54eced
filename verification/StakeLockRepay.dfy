/** Deletes that miss: exactly when a lock is paid again. */
module StakeLockRepay {
  import opened Accounts
  import opened StakeLocks
  import opened StakeLockProofs
  import opened StakeLockRuns
  import opened StakeLockSupply
  import opened StakeLockIndex

  // ---------- which locks a withdrawal pays ----------

  ghost predicate HasPayout(ps: seq<Payout>, n: nat) { exists i :: 0 <= i < |ps| && ps[i].nonce == n }

  lemma HasPayoutConcat(a: seq<Payout>, b: seq<Payout>, n: nat)
    ensures HasPayout(a + b, n) <==> HasPayout(a, n) || HasPayout(b, n)
  {
    if HasPayout(a, n) {
      var i :| 0 <= i < |a| && a[i].nonce == n;
      assert (a + b)[i].nonce == n;
    }
    if HasPayout(b, n) {
      var i :| 0 <= i < |b| && b[i].nonce == n;
      assert (a + b)[|a| + i].nonce == n;
    }
  }

  lemma {:induction false} DueHas(locks: Locks, owner: Address, nonces: seq<nat>, now: Timestamp, n: nat)
    ensures HasPayout(Due(locks, owner, nonces, now), n) <==> n in nonces && IsMatured(locks, LockId(owner, n), now)
  {
    if nonces != [] {
      var first := DueAt(locks, LockId(owner, nonces[0]), now);
      DueHas(locks, owner, nonces[1..], now, n);
      HasPayoutConcat(first, Due(locks, owner, nonces[1..], now), n);
      assert HasPayout(first, n) <==> n == nonces[0] && IsMatured(locks, LockId(owner, n), now) by {
        if n == nonces[0] && IsMatured(locks, LockId(owner, n), now) { assert first[0].nonce == n; }
      }
    }
  }

  /** The lock is listed and its cooldown is over. */
  ghost predicate IsDue(b: Book, id: LockId, now: Timestamp) {
    id.nonce in Nonces(b, id.owner) && IsMatured(b.locks, id, now)
  }

  /** The step pays the lock. */
  ghost predicate Pays(s: State, op: Op, id: LockId) {
    op.WithdrawOp? && op.owner == id.owner && Step(s, op).1.Withdrawn? && HasPayout(Step(s, op).1.payouts, id.nonce)
  }

  lemma PaysDue(s: State, op: Op, id: LockId)
    requires Core(s.book) && Pays(s, op, id)
    ensures IsDue(s.book, id, op.now) && Reaches(s, op.owner, op.auth, op.paused)
  {
    WithdrawPays(s, op.owner, op.auth, op.paused, op.now);
    DueHas(s.book.locks, op.owner, Nonces(s.book, op.owner), op.now, id.nonce);
  }

  lemma DuePays(s: State, op: Op, id: LockId)
    requires Core(s.book) && op.WithdrawOp? && op.owner == id.owner && Reaches(s, op.owner, op.auth, op.paused)
    requires IsDue(s.book, id, op.now)
    ensures Pays(s, op, id) <==> DueTotal(s, op.owner, op.now) <= Balance(s, s.vault)
  {
    DueHas(s.book.locks, op.owner, Nonces(s.book, op.owner), op.now, id.nonce);
    WithdrawReply(s, op.owner, op.auth, op.paused, op.now);
  }

  // ---------- whether a paid lock stays listed ----------

  lemma SweptNonces(b: Book, owner: Address, now: Timestamp, erasing: bool)
    requires Core(b)
    ensures Nonces(ApplySweep(b, owner, Swept(b, owner, now, erasing), erasing), owner)
            == if NotDueNow(b, owner, now) == [] && !erasing then Nonces(b, owner) else NotDueNow(b, owner, now)
  {
    SweptExact(b, owner, now, erasing);
  }

  /** A due lock is still listed after the withdrawal exactly when deletes miss and everything listed was due. */
  lemma StillListed(s: State, owner: Address, auth: nat, paused: bool, now: Timestamp, id: LockId)
    requires Core(s.book) && Reaches(s, owner, auth, paused) && id.owner == owner && IsDue(s.book, id, now)
    ensures id.nonce in Nonces(Withdraw(s, owner, auth, paused, now).0.book, owner)
            <==> !s.erasing && NotDueNow(s.book, owner, now) == []
  {
    WithdrawBook(s, owner, auth, paused, now);
    SweptNonces(s.book, owner, now, s.erasing);
  }

  // ---------- not listed, never paid ----------

  /** The nonce was handed out and is not listed any more. */
  ghost predicate Spent(b: Book, id: LockId) {
    id.nonce !in Nonces(b, id.owner) && id.nonce < NextNonce(b.nextNonce, id.owner)
  }

  lemma WalkNext(b: Book, owner: Address, amount: nat, now: Timestamp, o: Address)
    requires Core(b) && amount > 0
    ensures NextNonce(b.nextNonce, o) <= NextNonce(Walked(b, owner, amount, now).nextNonce, o)
  {
    ConsumeTouches(StartWalk(b, amount), owner, Nonces(b, owner), now);
  }

  lemma WalkUnlisted(b: Book, owner: Address, amount: nat, now: Timestamp, n: nat)
    requires Core(b) && amount > 0 && n !in Nonces(b, owner) && n < NextNonce(b.nextNonce, owner)
    ensures n !in Walked(b, owner, amount, now).kept
  {
    OwnListed(b, owner);
    ConsumeKept(StartWalk(b, amount), owner, Nonces(b, owner), now);
  }

  lemma WalkSpent(b: Book, owner: Address, amount: nat, now: Timestamp, erasing: bool, id: LockId)
    requires Core(b) && amount > 0 && Spent(b, id)
    ensures Spent(ApplyWalk(b, owner, Walked(b, owner, amount, now), erasing), id)
  {
    WalkNext(b, owner, amount, now, id.owner);
    if id.owner == owner {
      WalkUnlisted(b, owner, amount, now, id.nonce);
    }
  }

  lemma SweepSpent(b: Book, owner: Address, now: Timestamp, erasing: bool, id: LockId)
    requires Core(b) && Spent(b, id)
    ensures Spent(ApplySweep(b, owner, Swept(b, owner, now, erasing), erasing), id)
  {
    SweptNonces(b, owner, now, erasing);
  }

  lemma StepSpent(s: State, op: Op, id: LockId)
    requires Core(s.book) && Spent(s.book, id)
    ensures Spent(Step(s, op).0.book, id)
  {
    match op
    case LockOp(o, amount, auth, paused, now) => LockBook(s, o, amount, auth, paused, now);
    case UnbondOp(o, amount, auth, paused, now) =>
      UnbondBook(s, o, amount, auth, paused, now);
      if amount > 0 {
        WalkSpent(s.book, o, amount, now, s.erasing, id);
      }
    case WithdrawOp(o, auth, paused, now) =>
      WithdrawBook(s, o, auth, paused, now);
      SweepSpent(s.book, o, now, s.erasing, id);
  }

  lemma {:induction false} RunSpent(s: State, ops: seq<Op>, id: LockId)
    requires Core(s.book) && Spent(s.book, id)
    ensures Core(Run(s, ops).book) && Spent(Run(s, ops).book, id)
    decreases |ops|
  {
    if ops != [] {
      StepCore(s, ops[0]);
      StepSpent(s, ops[0], id);
      RunSpent(Step(s, ops[0]).0, ops[1..], id);
    }
  }

  /** A lock that was paid while something else stayed listed, or with effective deletes, is never paid again. */
  lemma PaidOnce(s: State, first: Op, between: seq<Op>, again: Op, id: LockId)
    requires Core(s.book) && Pays(s, first, id)
    requires s.erasing || NotDueNow(s.book, first.owner, first.now) != []
    ensures !Pays(Run(Step(s, first).0, between), again, id)
  {
    var s1 := Step(s, first).0;
    PaysDue(s, first, id);
    StillListed(s, first.owner, first.auth, first.paused, first.now, id);
    WithdrawBook(s, first.owner, first.auth, first.paused, first.now);
    StepCore(s, first);
    assert Spent(s1.book, id);
    RunSpent(s1, between, id);
    if Pays(Run(s1, between), again, id) {
      PaysDue(Run(s1, between), again, id);
    }
  }

  /** A lock that is not listed is never paid. */
  lemma StrandedUnpaid(s: State, ops: seq<Op>, last: Op, id: LockId, lock: StakeLock)
    requires Core(s.book) && Stranded(s.book, id, lock)
    ensures !Pays(Run(s, ops), last, id)
  {
    StrandedForever(s, ops, id, lock);
    RunCore(s, ops);
    if Pays(Run(s, ops), last, id) {
      PaysDue(Run(s, ops), last, id);
    }
  }

  // ---------- everything due, paid again ----------

  lemma {:induction false} DueLater(locks: Locks, owner: Address, nonces: seq<nat>, now: Timestamp, later: Timestamp)
    requires NotDue(locks, owner, nonces, now) == [] && now <= later
    ensures Due(locks, owner, nonces, later) == Due(locks, owner, nonces, now)
  {
    if nonces != [] {
      DueLater(locks, owner, nonces[1..], now, later);
    }
  }

  lemma UnerasedBook(b: Book, owner: Address, now: Timestamp)
    requires Core(b)
    ensures ApplySweep(b, owner, Swept(b, owner, now, false), false).locks == b.locks
  {
    SweptExact(b, owner, now, false);
    assert Kept(b.locks, owner, Nonces(b, owner), now, false) == b.locks;
  }

  /** With deletes that miss, a withdrawal of everything listed leaves the same things due. */
  lemma DueAgain(s: State, owner: Address, auth: nat, paused: bool, now: Timestamp, later: Timestamp)
    requires Core(s.book) && !s.erasing && Reaches(s, owner, auth, paused) && now <= later
    requires NotDueNow(s.book, owner, now) == []
    ensures var b := Withdraw(s, owner, auth, paused, now).0.book;
            b.locks == s.book.locks && Nonces(b, owner) == Nonces(s.book, owner)
            && DueNow(b, owner, later) == DueNow(s.book, owner, now)
  {
    WithdrawBook(s, owner, auth, paused, now);
    UnerasedBook(s.book, owner, now);
    SweptNonces(s.book, owner, now, false);
    DueLater(s.book.locks, owner, Nonces(s.book, owner), now, later);
  }

  /**
   With deletes that miss, repeating a withdrawal that paid a lock pays the lock again
   exactly when everything listed was due and the vault held the amount twice.
   */
  lemma RepeatPays(s: State, owner: Address, auth: nat, now: Timestamp, auth': nat, later: Timestamp, id: LockId)
    requires Core(s.book) && !s.erasing && Pays(s, WithdrawOp(owner, auth, false, now), id)
    requires auth < auth' && now <= later
    ensures Pays(Step(s, WithdrawOp(owner, auth, false, now)).0, WithdrawOp(owner, auth', false, later), id)
            <==> NotDueNow(s.book, owner, now) == [] && 2 * DueTotal(s, owner, now) <= Balance(s, s.vault)
  {
    var first, again := WithdrawOp(owner, auth, false, now), WithdrawOp(owner, auth', false, later);
    var s1 := Step(s, first).0;
    PaysDue(s, first, id);
    if NotDueNow(s.book, owner, now) != [] {
      PaidOnce(s, first, [], again, id);
    } else {
      DueAgain(s, owner, auth, false, now, later);
      WithdrawVault(s, owner, auth, false, now);
      StepAuth(s, first, owner);
      StepCore(s, first);
      StepFixed(s, first);
      DuePays(s, first, id);
      assert IsDue(s1.book, id, later);
      DuePays(s1, again, id);
    }
  }
}
