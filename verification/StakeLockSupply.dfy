/** Coins and requests: what locking and withdrawing do to the supply, and that no request counts twice. */
module StakeLockSupply {
  import opened Accounts
  import opened StakeLocks
  import opened StakeLockProofs
  import opened StakeLockRuns

  // ---------- coins ----------

  lemma Transferred(m: Balances, a: Address, x: nat, b: Address, y: nat)
    ensures Coins(m[a := x][b := y]) == Coins(m) + y - BalanceOf(m, b) + (if a == b then 0 else x - BalanceOf(m, a))
  {
    CoinsWritten(m, a, x);
    CoinsWritten(m[a := x], b, y);
  }

  /**
   A lock conserves the coin supply exactly when the owner is not the vault
   itself: a self-lock reads the balance twice and keeps only the credit.
   */
  lemma LockSupply(s: State, owner: Address, amount: int, auth: nat, paused: bool, now: Timestamp)
    ensures var (s', r) := LockStake(s, owner, amount, auth, paused, now);
            && Coins(s'.balances) == Coins(s.balances) + (if r.Locked? && owner == s.vault then amount else 0)
            && (r.Locked? ==> (Coins(s'.balances) == Coins(s.balances) <==> owner != s.vault))
  {
    if 0 < amount <= Balance(s, owner) {
      Transferred(s.balances, owner, Balance(s, owner) - amount, s.vault, Balance(s, s.vault) + amount);
    }
  }

  lemma FinishSupply(s: State, owner: Address, auth: nat, w: Sweep)
    ensures Coins(FinishWithdraw(s, owner, auth, w).0.balances)
            == Coins(s.balances) - if w.total <= Balance(s, s.vault) && owner == s.vault then w.total else 0
  {
    if w.total <= Balance(s, s.vault) {
      Transferred(s.balances, owner, Balance(s, owner) + w.total, s.vault, Balance(s, s.vault) - w.total);
    }
  }

  /**
   A withdrawal conserves the coin supply unless the vault itself is paid: the
   second write keeps only the debit, and the payout is lost.
   */
  lemma WithdrawSupply(s: State, owner: Address, auth: nat, paused: bool, now: Timestamp)
    requires Core(s.book) && Reaches(s, owner, auth, paused)
    ensures var s' := Withdraw(s, owner, auth, paused, now).0;
            var due := DueTotal(s, owner, now);
            && Coins(s'.balances) == Coins(s.balances) - (if owner == s.vault && due <= Balance(s, s.vault) then due else 0)
            && (Coins(s'.balances) == Coins(s.balances) <==>
                owner != s.vault || DueNow(s.book, owner, now) == [] || due > Balance(s, s.vault))
  {
    var w := Swept(s.book, owner, now, s.erasing);
    SweptExact(s.book, owner, now, s.erasing);
    DuePositive(s.book.locks, owner, Nonces(s.book, owner), now);
    FinishSupply(s.(book := ApplySweep(s.book, owner, w, s.erasing)), owner, auth, w);
  }

  lemma StepSupply(s: State, op: Op)
    requires op.owner != s.vault
    ensures Coins(Step(s, op).0.balances) == Coins(s.balances)
  {
    match op
    case LockOp(o, amount, auth, paused, now) => LockSupply(s, o, amount, auth, paused, now);
    case UnbondOp(o, amount, auth, paused, now) =>
    case WithdrawOp(o, auth, paused, now) =>
      var w := Swept(s.book, o, now, s.erasing);
      FinishSupply(s.(book := ApplySweep(s.book, o, w, s.erasing)), o, auth, w);
  }

  /** Runs in which the vault does not stake for itself neither mint nor burn. */
  lemma {:induction false} RunSupply(s: State, ops: seq<Op>)
    requires forall i :: 0 <= i < |ops| ==> ops[i].owner != s.vault
    ensures Coins(Run(s, ops).balances) == Coins(s.balances)
    decreases |ops|
  {
    if ops != [] {
      StepSupply(s, ops[0]);
      StepFixed(s, ops[0]);
      RunSupply(Step(s, ops[0]).0, ops[1..]);
    }
  }

  // ---------- requests are used once ----------

  ghost predicate Accepted(r: Reply) { !r.Failed? }

  lemma FinishAuth(s: State, owner: Address, auth: nat, w: Sweep, o: Address)
    ensures var (s', r) := FinishWithdraw(s, owner, auth, w);
            AuthNonce(s', o) == if o == owner && Accepted(r) then auth else AuthNonce(s, o)
  {
  }

  /** What a step does to the last auth nonce of an owner. */
  ghost predicate AuthMoves(s: State, op: Op, o: Address) {
    var (s', r) := Step(s, op);
    && (Accepted(r) ==> AuthNonce(s, op.owner) < op.auth)
    && AuthNonce(s', o) == if o == op.owner && Accepted(r) then op.auth else AuthNonce(s, o)
  }

  lemma WithdrawAuth(s: State, op: Op, o: Address)
    requires op.WithdrawOp?
    ensures AuthMoves(s, op, o)
  {
    if Reaches(s, op.owner, op.auth, op.paused) {
      var w := Swept(s.book, op.owner, op.now, s.erasing);
      FinishAuth(s.(book := ApplySweep(s.book, op.owner, w, s.erasing)), op.owner, op.auth, w, o);
    }
  }

  lemma UnbondAuth(s: State, op: Op, o: Address)
    requires op.UnbondOp?
    ensures AuthMoves(s, op, o)
  {
  }

  lemma LockAuth(s: State, op: Op, o: Address)
    requires op.LockOp?
    ensures AuthMoves(s, op, o)
  {
  }

  lemma StepAuth(s: State, op: Op, o: Address)
    ensures AuthMoves(s, op, o)
  {
    if op.LockOp? {
      LockAuth(s, op, o);
    } else if op.UnbondOp? {
      UnbondAuth(s, op, o);
    } else {
      WithdrawAuth(s, op, o);
    }
  }

  lemma {:induction false} RunAuth(s: State, ops: seq<Op>, o: Address)
    ensures AuthNonce(Run(s, ops), o) >= AuthNonce(s, o)
    decreases |ops|
  {
    if ops != [] {
      StepAuth(s, ops[0], o);
      StepAuth(s, ops[0], ops[0].owner);
      RunAuth(Step(s, ops[0]).0, ops[1..], o);
    }
  }

  /** Once a request was accepted, no later request of that owner with the same or a lower nonce is. */
  lemma NoReplay(s: State, first: Op, between: seq<Op>, again: Op)
    requires Accepted(Step(s, first).1)
    requires again.owner == first.owner && again.auth <= first.auth
    ensures !Accepted(Step(Run(Step(s, first).0, between), again).1)
  {
    StepAuth(s, first, first.owner);
    RunAuth(Step(s, first).0, between, first.owner);
    StepAuth(Run(Step(s, first).0, between), again, first.owner);
  }
}
