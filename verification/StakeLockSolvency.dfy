/** When the vault can always pay. */
module StakeLockSolvency {
  import opened Accounts
  import opened Sums
  import opened StakeLocks
  import opened StakeLockProofs
  import opened StakeLockRuns
  import opened StakeLockSupply
  import opened StakeLockIndex
  import opened StakeLockRepay

  // ---------- locks nobody can be paid for ----------

  /** What is stored for an unbonding lock that is no longer listed. */
  ghost function DeadWeight(b: Book, id: LockId): nat
    requires id in b.locks
  {
    if b.locks[id].unbondAt != 0 && id.nonce !in Nonces(b, id.owner) then b.locks[id].amount else 0
  }

  ghost function DeadWeights(b: Book): map<LockId, int> { map id | id in b.locks :: DeadWeight(b, id) }

  ghost function Dead(b: Book): int { Total(DeadWeights(b)) }

  lemma DeadGrows(b: Book, b': Book)
    requires forall id :: id in b.locks ==> id in b'.locks
    requires forall id :: id in b.locks && Stranded(b, id, b.locks[id]) ==> Stranded(b', id, b.locks[id])
    ensures Dead(b) <= Dead(b')
  {
    forall id | id in b.locks
      ensures DeadWeight(b, id) <= DeadWeight(b', id)
    {
      if DeadWeight(b, id) > 0 {
        assert Stranded(b, id, b.locks[id]);
      }
    }
    TotalGrows(DeadWeights(b), DeadWeights(b'));
  }

  lemma BookedDead(b: Book, owner: Address, amount: nat, now: Timestamp)
    requires Core(b)
    ensures Dead(b) <= Dead(Booked(b, owner, amount, now))
  {
    forall id | id in b.locks && Stranded(b, id, b.locks[id])
      ensures Stranded(Booked(b, owner, amount, now), id, b.locks[id])
    {
      BookedStrands(b, owner, amount, now, id, b.locks[id]);
    }
    DeadGrows(b, Booked(b, owner, amount, now));
  }

  lemma WalkDead(b: Book, owner: Address, amount: nat, now: Timestamp, erasing: bool)
    requires Core(b) && amount > 0
    ensures Dead(b) <= Dead(ApplyWalk(b, owner, Walked(b, owner, amount, now), erasing))
  {
    var b' := ApplyWalk(b, owner, Walked(b, owner, amount, now), erasing);
    forall id | id in b.locks && Stranded(b, id, b.locks[id])
      ensures Stranded(b', id, b.locks[id])
    {
      WalkStrands(b, owner, amount, now, erasing, id, b.locks[id]);
    }
    assert forall id :: id in b.locks ==> id in b'.locks by {
      ConsumeTouches(StartWalk(b, amount), owner, Nonces(b, owner), now);
    }
    DeadGrows(b, b');
  }

  // ---------- adding payouts to a table of weights ----------

  ghost function Bury(m: map<LockId, int>, owner: Address, ps: seq<Payout>): map<LockId, int>
    decreases |ps|
  {
    if ps == [] then m else Bury(m[LockId(owner, ps[0].nonce) := ps[0].amount], owner, ps[1..])
  }

  ghost predicate Once(ps: seq<Payout>) { forall i, j :: 0 <= i < j < |ps| ==> ps[i].nonce != ps[j].nonce }

  lemma {:induction false} BuryTotal(m: map<LockId, int>, owner: Address, ps: seq<Payout>)
    requires Once(ps)
    requires forall i :: 0 <= i < |ps| ==> LockId(owner, ps[i].nonce) in m && m[LockId(owner, ps[i].nonce)] == 0
    ensures Total(Bury(m, owner, ps)) == Total(m) + PayoutTotal(ps)
    decreases |ps|
  {
    if ps != [] {
      var id := LockId(owner, ps[0].nonce);
      TotalUpdate(m, id, ps[0].amount);
      BuryTotal(m[id := ps[0].amount], owner, ps[1..]);
    }
  }

  lemma {:induction false} BuryBelow(m: map<LockId, int>, owner: Address, ps: seq<Payout>, m': map<LockId, int>)
    requires forall id :: id in m ==> id in m' && m[id] <= m'[id]
    requires forall i :: 0 <= i < |ps| ==> LockId(owner, ps[i].nonce) in m' && ps[i].amount <= m'[LockId(owner, ps[i].nonce)]
    ensures forall id :: id in Bury(m, owner, ps) ==> id in m' && Bury(m, owner, ps)[id] <= m'[id]
    decreases |ps|
  {
    if ps != [] {
      BuryBelow(m[LockId(owner, ps[0].nonce) := ps[0].amount], owner, ps[1..], m');
    }
  }

  /** Weights that leave room for the payouts add up to at least the payouts more. */
  lemma Room(m: map<LockId, int>, owner: Address, ps: seq<Payout>, m': map<LockId, int>)
    requires Once(ps)
    requires forall id :: id in m ==> id in m' && m[id] <= m'[id]
    requires forall id :: id in m' ==> m'[id] >= 0
    requires forall i :: 0 <= i < |ps| ==> LockId(owner, ps[i].nonce) in m && m[LockId(owner, ps[i].nonce)] == 0
    requires forall i :: 0 <= i < |ps| ==> LockId(owner, ps[i].nonce) in m' && ps[i].amount <= m'[LockId(owner, ps[i].nonce)]
    ensures Total(m) + PayoutTotal(ps) <= Total(m')
  {
    BuryTotal(m, owner, ps);
    BuryBelow(m, owner, ps, m');
    TotalGrows(Bury(m, owner, ps), m');
  }

  /** Each due lock once, with its amount. */
  lemma {:induction false} DueOk(locks: Locks, owner: Address, nonces: seq<nat>, now: Timestamp)
    requires Distinct(nonces)
    ensures var ps := Due(locks, owner, nonces, now);
            && Once(ps)
            && (forall i :: 0 <= i < |ps| ==>
                  ps[i].nonce in nonces && IsMatured(locks, LockId(owner, ps[i].nonce), now)
                  && ps[i].amount == locks[LockId(owner, ps[i].nonce)].amount)
  {
    if nonces != [] {
      DueOk(locks, owner, nonces[1..], now);
      var first, rest := DueAt(locks, LockId(owner, nonces[0]), now), Due(locks, owner, nonces[1..], now);
      var all: seq<Payout> := first + rest;
      forall i | 0 <= i < |all|
        ensures var p: Payout := all[i];
                p.nonce in nonces && IsMatured(locks, LockId(owner, p.nonce), now)
                && p.amount == locks[LockId(owner, p.nonce)].amount
                && (i < |first| ==> p.nonce == nonces[0]) && (i >= |first| ==> p == rest[i - |first|] && p.nonce != nonces[0])
      {
        if i >= |first| {
          assert rest[i - |first|].nonce in nonces[1..];
        }
      }
    }
  }

  /** Dead locks and due locks are different stored locks. */
  lemma DueBesideDead(s: State, owner: Address, now: Timestamp)
    requires Core(s.book)
    ensures Dead(s.book) + DueTotal(s, owner, now) <= Stored(s.book.locks)
  {
    OwnListed(s.book, owner);
    DueOk(s.book.locks, owner, Nonces(s.book, owner), now);
    Room(DeadWeights(s.book), owner, DueNow(s.book, owner, now), Amounts(s.book.locks));
  }

  /** A withdrawal that rewrites the index leaves what it paid for dead. */
  lemma SweepDead(b: Book, owner: Address, now: Timestamp)
    requires Core(b) && (DueNow(b, owner, now) != [] ==> NotDueNow(b, owner, now) != [])
    ensures Dead(ApplySweep(b, owner, Swept(b, owner, now, false), false))
            >= Dead(b) + PayoutTotal(DueNow(b, owner, now))
  {
    var b' := ApplySweep(b, owner, Swept(b, owner, now, false), false);
    var ps := DueNow(b, owner, now);
    UnerasedBook(b, owner, now);
    SweptNonces(b, owner, now, false);
    OwnListed(b, owner);
    DueOk(b.locks, owner, Nonces(b, owner), now);
    forall id | id in b.locks
      ensures DeadWeight(b, id) <= DeadWeight(b', id)
    {
      if DeadWeight(b, id) > 0 {
        SweepStrands(b, owner, now, false, id, b.locks[id]);
      }
    }
    forall i | 0 <= i < |ps|
      ensures var id := LockId(owner, ps[i].nonce);
              id in b.locks && DeadWeight(b, id) == 0 && ps[i].amount <= DeadWeight(b', id)
    {
    }
    Room(DeadWeights(b), owner, ps, DeadWeights(b'));
  }

  // ---------- runs ----------

  /** A withdrawal that has something to pay leaves something listed. */
  ghost predicate Careful(s: State, op: Op) {
    op.WithdrawOp? && Reaches(s, op.owner, op.auth, op.paused) && DueNow(s.book, op.owner, op.now) != [] ==>
      NotDueNow(s.book, op.owner, op.now) != []
  }

  ghost predicate CarefulRun(s: State, ops: seq<Op>)
    decreases |ops|
  {
    ops != [] ==> Careful(s, ops[0]) && CarefulRun(Step(s, ops[0]).0, ops[1..])
  }

  /** What the vault holds beyond the locks somebody can still be paid for. */
  ghost function Slack(s: State): int { Surplus(s) + Dead(s.book) }

  lemma WithdrawSlack(s: State, owner: Address, auth: nat, paused: bool, now: Timestamp)
    requires Core(s.book) && !s.erasing && Careful(s, WithdrawOp(owner, auth, paused, now))
    ensures Slack(Withdraw(s, owner, auth, paused, now).0) >= Slack(s)
  {
    WithdrawBook(s, owner, auth, paused, now);
    if Reaches(s, owner, auth, paused) {
      WithdrawDrift(s, owner, auth, paused, now);
      SweepDead(s.book, owner, now);
    }
  }

  lemma StepSlack(s: State, op: Op)
    requires Core(s.book) && !s.erasing && Careful(s, op)
    ensures Slack(Step(s, op).0) >= Slack(s)
  {
    match op
    case LockOp(o, amount, auth, paused, now) =>
      LockSurplus(s, o, amount, auth, paused, now);
      LockBook(s, o, amount, auth, paused, now);
      if amount > 0 {
        BookedDead(s.book, o, amount, now);
      }
    case UnbondOp(o, amount, auth, paused, now) =>
      UnbondSurplus(s, o, amount, auth, paused, now);
      UnbondBook(s, o, amount, auth, paused, now);
      if amount > 0 {
        WalkDead(s.book, o, amount, now, s.erasing);
      }
    case WithdrawOp(o, auth, paused, now) => WithdrawSlack(s, o, auth, paused, now);
  }

  lemma {:induction false} RunSlack(s: State, ops: seq<Op>)
    requires Core(s.book) && !s.erasing && CarefulRun(s, ops)
    ensures Slack(Run(s, ops)) >= Slack(s)
    decreases |ops|
  {
    if ops != [] {
      StepSlack(s, ops[0]);
      StepCore(s, ops[0]);
      StepFixed(s, ops[0]);
      RunSlack(Step(s, ops[0]).0, ops[1..]);
    }
  }

  lemma Funded(s: State, op: Op)
    requires Core(s.book)
    requires op.WithdrawOp? ==> DueTotal(s, op.owner, op.now) <= Balance(s, s.vault)
    ensures Step(s, op).1 != Failed(VaultUnderfunded)
  {
    if op.WithdrawOp? && Reaches(s, op.owner, op.auth, op.paused) {
      WithdrawReply(s, op.owner, op.auth, op.paused, op.now);
    }
  }

  /**
   Starting from an unused ledger, no operation is refused for an underfunded vault, if deletes
   take effect or every paying withdrawal so far left something of its owner listed.
   */
  lemma NeverUnderfunded(s: State, ops: seq<Op>, last: Op)
    requires Unused(s) && (s.erasing || CarefulRun(s, ops))
    ensures Step(Run(s, ops), last).1 != Failed(VaultUnderfunded)
  {
    var s' := Run(s, ops);
    UnusedIsSound(s);
    RunCore(s, ops);
    if s.erasing {
      RunSurplus(s, ops);
      if last.WithdrawOp? {
        DueStored(s', last.owner, last.now);
      }
    } else {
      assert DeadWeights(s.book) == map[];
      RunSlack(s, ops);
      if last.WithdrawOp? {
        DueBesideDead(s', last.owner, last.now);
      }
    }
    Funded(s', last);
  }

  // ---------- otherwise ----------

  /** One more withdrawal of everything listed: the same is due, and the vault holds that much less. */
  lemma DrainStep(s: State, owner: Address, auth: nat, now: Timestamp)
    requires Core(s.book) && !s.erasing && Reaches(s, owner, auth, false) && NotDueNow(s.book, owner, now) == []
    requires DueTotal(s, owner, now) <= Balance(s, s.vault) && DueNow(s.book, owner, now) != []
    ensures var s' := Step(s, WithdrawOp(owner, auth, false, now)).0;
            && Core(s'.book) && !s'.erasing && s'.vault == s.vault && Reaches(s', owner, auth + 1, false)
            && NotDueNow(s'.book, owner, now) == [] && DueNow(s'.book, owner, now) == DueNow(s.book, owner, now)
            && Balance(s', s.vault) == Balance(s, s.vault) - DueTotal(s, owner, now)
  {
    var op := WithdrawOp(owner, auth, false, now);
    StepCore(s, op);
    StepFixed(s, op);
    StepAuth(s, op, owner);
    WithdrawReply(s, owner, auth, false, now);
    WithdrawVault(s, owner, auth, false, now);
    DueAgain(s, owner, auth, false, now, now);
  }

  /** With deletes that miss, an owner who is due everything listed can withdraw until the vault is underfunded. */
  lemma {:induction false} CarelessUnderfunds(s: State, owner: Address, auth: nat, now: Timestamp)
    returns (ops: seq<Op>, last: Op)
    requires Core(s.book) && !s.erasing && Reaches(s, owner, auth, false)
    requires NotDueNow(s.book, owner, now) == [] && DueNow(s.book, owner, now) != []
    ensures Step(Run(s, ops), last).1 == Failed(VaultUnderfunded)
    decreases Balance(s, s.vault)
  {
    var op := WithdrawOp(owner, auth, false, now);
    if Balance(s, s.vault) < DueTotal(s, owner, now) {
      WithdrawReply(s, owner, auth, false, now);
      ops, last := [], op;
    } else {
      DrainStep(s, owner, auth, now);
      DuePositive(s.book.locks, owner, Nonces(s.book, owner), now);
      var rest;
      rest, last := CarelessUnderfunds(Step(s, op).0, owner, auth + 1, now);
      RunCons(s, op, rest);
      ops := [op] + rest;
    }
  }

  const MATURED: Timestamp := 1 + UNBOND_SECONDS

  /** One lock of 5, unbonded at once. */
  const LOCK_AND_UNBOND: seq<Op> := [LockOp(1, 5, 1, false, 1), UnbondOp(1, 5, 2, false, 1)]

  ghost predicate OneUnbonded(s: State) {
    && !s.erasing && s.vault == 0 && Nonces(s.book, 1) == [1]
    && s.book.locks == map[LockId(1, 1) := StakeLock(1, 5, 1, 1, MATURED)]
  }

  lemma LockOne(balances: Balances)
    requires BalanceOf(balances, 1) == 5
    ensures var s := Step(Fresh(false, balances), LOCK_AND_UNBOND[0]).0;
            && !s.erasing && s.vault == 0 && Nonces(s.book, 1) == [1] && BondedTotal(s.book, 1) == 5 && AuthNonce(s, 1) == 1
            && s.book.locks == map[LockId(1, 1) := StakeLock(1, 5, 1, 0, 0)] && Balance(s, 0) == BalanceOf(balances, 0) + 5
  {
  }

  lemma UnbondOne(s: State)
    requires !s.erasing && s.vault == 0 && Nonces(s.book, 1) == [1] && BondedTotal(s.book, 1) == 5 && AuthNonce(s, 1) == 1
    requires s.book.locks == map[LockId(1, 1) := StakeLock(1, 5, 1, 0, 0)]
    ensures var s' := Step(s, LOCK_AND_UNBOND[1]).0;
            OneUnbonded(s') && Balance(s', 0) == Balance(s, 0) && AuthNonce(s', 1) == 2
  {
    assert Available(s.book.locks, 1, [1]) == 5;
    WalkOne(s.book);
  }

  lemma WalkOne(b: Book)
    requires Nonces(b, 1) == [1] && b.locks == map[LockId(1, 1) := StakeLock(1, 5, 1, 0, 0)]
    ensures var w := Walked(b, 1, 5, 1);
            w.kept == [1] && w.locks == map[LockId(1, 1) := StakeLock(1, 5, 1, 1, MATURED)]
  {
    var w := Visit(StartWalk(b, 5), 1, 1, 1);
    assert Consume(StartWalk(b, 5), 1, [1], 1) == w;
  }

  lemma LockAndUnbond(balances: Balances)
    requires BalanceOf(balances, 1) == 5
    ensures var s := Run(Fresh(false, balances), LOCK_AND_UNBOND);
            OneUnbonded(s) && Balance(s, 0) == BalanceOf(balances, 0) + 5 && AuthNonce(s, 1) == 2
  {
    var s0 := Fresh(false, balances);
    var ops := LOCK_AND_UNBOND;
    LockOne(balances);
    UnbondOne(Step(s0, ops[0]).0);
    assert Run(s0, ops) == Run(Step(s0, ops[0]).0, ops[1..]) == Run(Step(Step(s0, ops[0]).0, ops[1]).0, ops[1..][1..]);
  }

  lemma WithdrawOne(s: State, auth: nat)
    requires OneUnbonded(s) && auth > AuthNonce(s, 1)
    ensures var (s', r) := Withdraw(s, 1, auth, false, MATURED);
            if Balance(s, 0) < 5 then r == Failed(VaultUnderfunded)
            else r == Withdrawn([Payout(1, 5)]) && OneUnbonded(s') && Balance(s', 0) == Balance(s, 0) - 5 && AuthNonce(s', 1) == auth
  {
    var w := SweepLock(StartSweep(s.book), 1, 1, MATURED, false);
    assert [1][1..] == [];
    assert Swept(s.book, 1, MATURED, false) == SweepAll(w, 1, [], MATURED, false) == w;
    assert w.total == 5 && w.payouts == [Payout(1, 5)] && w.kept == [] && w.locks == s.book.locks;
  }

  /** With deletes that miss, one lock of 5 is paid by two withdrawals in a row when the vault holds another 5. */
  lemma UnerasedPaysTwice()
    ensures var s := Run(Fresh(false, map[0 := 5, 1 := 5]), LOCK_AND_UNBOND);
            var (s', r) := Withdraw(s, 1, 3, false, MATURED);
            r == Withdraw(s', 1, 4, false, MATURED).1 == Withdrawn([Payout(1, 5)])
  {
    LockAndUnbond(map[0 := 5, 1 := 5]);
    var s := Run(Fresh(false, map[0 := 5, 1 := 5]), LOCK_AND_UNBOND);
    WithdrawOne(s, 3);
    WithdrawOne(Withdraw(s, 1, 3, false, MATURED).0, 4);
  }

  /** When it does not, the second withdrawal is refused for an underfunded vault. */
  lemma UnerasedUnderfunds()
    ensures var s := Run(Fresh(false, map[1 := 5]), LOCK_AND_UNBOND);
            Withdraw(Withdraw(s, 1, 3, false, MATURED).0, 1, 4, false, MATURED).1 == Failed(VaultUnderfunded)
  {
    LockAndUnbond(map[1 := 5]);
    var s := Run(Fresh(false, map[1 := 5]), LOCK_AND_UNBOND);
    WithdrawOne(s, 3);
    WithdrawOne(Withdraw(s, 1, 3, false, MATURED).0, 4);
  }
}
