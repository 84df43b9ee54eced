/** What every run of delegate, undelegate and claim keeps. */
module DelegationRuns {
  import opened Accounts
  import opened Delegation

  // ---------- validator stake ----------

  lemma StepExcess(s: State, op: Op, v: Address)
    requires LockedIsDelegated(s)
    ensures Excess(Step(s, op).0, v) == Excess(s, v)
  {
    match op
    case DelegateOp(d, validator, amount, paused, index) =>
      var target := if validator == NO_ADDRESS then d else validator;
      if Delegate(s, d, validator, amount, paused, index).1.Delegated? {
        BondedExcess(s, d, target, amount, index, v);
      }
    case UndelegateOp(d, amount, paused, index, now) =>
      if Undelegate(s, d, amount, paused, index, now).1.Undelegated? {
        UnbondedExcess(s, d, amount, index, now, v);
      }
    case ClaimOp(d, id, paused, index, now) =>
      if Claim(s, d, id, paused, index, now).1.Claimed? {
        PaidOutExcess(s, d, Find(Get(s, d).unbonds, id), index, v);
      }
  }

  /** A locked account stays delegated. */
  ghost predicate StaysDelegated(s: State, op: Op, a: Address) {
    var acc, acc' := Get(s, a), Get(Step(s, op).0, a);
    (acc.locked > 0 ==> acc.validator != NO_ADDRESS) ==> (acc'.locked > 0 ==> acc'.validator != NO_ADDRESS)
  }

  lemma DelegateLocked(s: State, op: Op, a: Address)
    requires op.DelegateOp?
    ensures StaysDelegated(s, op, a)
  {
  }

  lemma UndelegateLocked(s: State, op: Op, a: Address)
    requires op.UndelegateOp?
    ensures StaysDelegated(s, op, a)
  {
  }

  lemma ClaimLocked(s: State, op: Op, a: Address)
    requires op.ClaimOp?
    ensures StaysDelegated(s, op, a)
  {
  }

  lemma StepLocked(s: State, op: Op)
    requires LockedIsDelegated(s)
    ensures LockedIsDelegated(Step(s, op).0)
  {
    forall a
      ensures StaysDelegated(s, op, a)
    {
      if op.DelegateOp? {
        DelegateLocked(s, op, a);
      } else if op.UndelegateOp? {
        UndelegateLocked(s, op, a);
      } else {
        ClaimLocked(s, op, a);
      }
    }
    forall a
      ensures Get(Step(s, op).0, a).locked > 0 ==> Get(Step(s, op).0, a).validator != NO_ADDRESS
    {
      assert StaysDelegated(s, op, a) && (Get(s, a).locked > 0 ==> Get(s, a).validator != NO_ADDRESS);
    }
  }

  /** For every validator, stake minus delegated lock is the same after every run. */
  lemma {:induction false} RunExcess(s: State, ops: seq<Op>, v: Address)
    requires LockedIsDelegated(s)
    ensures LockedIsDelegated(Run(s, ops)) && Excess(Run(s, ops), v) == Excess(s, v)
    decreases |ops|
  {
    if ops != [] {
      StepLocked(s, ops[0]);
      StepExcess(s, ops[0], v);
      RunExcess(Step(s, ops[0]).0, ops[1..], v);
    }
  }

  /** Hence no run ever ends in a validator stake underflow. */
  lemma NeverUnderflows(s: State, ops: seq<Op>, last: Op)
    requires LockedIsDelegated(s) && forall v :: Excess(s, v) >= 0
    ensures Step(Run(s, ops), last).1 != Failed(StakeUnderflow)
  {
    var s' := Run(s, ops);
    var v := Get(s', last.delegator).validator;
    RunExcess(s, ops, v);
    BackedBy(s', last.delegator);
    assert Excess(s, v) >= 0;
  }

  // ---------- what a step does to one account ----------

  datatype Change = Kept | Gained(entry: Unbonding) | Lost(i: nat)

  ghost predicate Changed(acc: Account, acc': Account, c: Change) {
    match c
    case Kept =>
      acc'.unbonds == acc.unbonds && acc'.nextId == acc.nextId && acc'.balance + acc'.locked == acc.balance + acc.locked
    case Gained(entry) =>
      && entry.id == NextId(acc) && acc'.nextId == NextId(acc) + 1 && acc'.unbonds == acc.unbonds + [entry]
      && acc'.balance + acc'.locked + entry.amount == acc.balance + acc.locked
    case Lost(i) =>
      && i < |acc.unbonds| && acc'.nextId == acc.nextId && acc'.unbonds == acc.unbonds[..i] + acc.unbonds[i + 1..]
      && acc'.balance + acc'.locked == acc.balance + acc.locked + acc.unbonds[i].amount
  }

  lemma BondedChange(s: State, delegator: Address, target: Address, amount: nat, index: nat, a: Address)
    requires amount <= Get(s, delegator).balance
    ensures Changed(Get(s, a), Get(Bonded(s, delegator, target, amount, index), a), Kept)
  {
  }

  lemma UnbondedChange(s: State, delegator: Address, amount: nat, index: nat, now: nat, a: Address)
    requires amount <= Get(s, delegator).locked && amount <= Get(s, Get(s, delegator).validator).stake
    ensures Changed(Get(s, a), Get(Unbonded(s, delegator, amount, index, now), a),
                    if a == delegator then Gained(NewEntry(Get(s, a), amount, now)) else Kept)
  {
  }

  lemma PaidOutChange(s: State, delegator: Address, i: nat, index: nat, a: Address)
    requires i < |Get(s, delegator).unbonds|
    ensures Changed(Get(s, a), Get(PaidOut(s, delegator, i, index), a), if a == delegator then Lost(i) else Kept)
  {
  }

  lemma DelegateChange(s: State, op: Op, a: Address)
    requires op.DelegateOp?
    ensures Changed(Get(s, a), Get(Step(s, op).0, a), Kept)
  {
    if 0 < op.amount <= Get(s, op.delegator).balance {
      BondedChange(s, op.delegator, if op.to == NO_ADDRESS then op.delegator else op.to, op.amount, op.index, a);
    }
  }

  lemma UndelegateChange(s: State, op: Op, a: Address) returns (c: Change)
    requires op.UndelegateOp?
    ensures Changed(Get(s, a), Get(Step(s, op).0, a), c)
  {
    c := Kept;
    if Undelegate(s, op.delegator, op.amount, op.paused, op.index, op.now).1.Undelegated? {
      UnbondedChange(s, op.delegator, op.amount, op.index, op.now, a);
      c := if a == op.delegator then Gained(NewEntry(Get(s, a), op.amount, op.now)) else Kept;
    }
  }

  lemma ClaimChange(s: State, op: Op, a: Address) returns (c: Change)
    requires op.ClaimOp?
    ensures Changed(Get(s, a), Get(Step(s, op).0, a), c)
  {
    c := Kept;
    if Claim(s, op.delegator, op.id, op.paused, op.index, op.now).1.Claimed? {
      var i := Find(Get(s, op.delegator).unbonds, op.id);
      PaidOutChange(s, op.delegator, i, op.index, a);
      c := if a == op.delegator then Lost(i) else Kept;
    }
  }

  lemma StepChange(s: State, op: Op, a: Address) returns (c: Change)
    ensures Changed(Get(s, a), Get(Step(s, op).0, a), c)
  {
    if op.DelegateOp? {
      DelegateChange(s, op, a);
      c := Kept;
    } else if op.UndelegateOp? {
      c := UndelegateChange(s, op, a);
    } else {
      c := ClaimChange(s, op, a);
    }
  }

  // ---------- every account keeps its coins ----------

  ghost function Pending(unbonds: seq<Unbonding>): nat {
    if unbonds == [] then 0 else unbonds[0].amount + Pending(unbonds[1..])
  }

  lemma {:induction false} PendingConcat(a: seq<Unbonding>, b: seq<Unbonding>)
    ensures Pending(a + b) == Pending(a) + Pending(b)
  {
    if a == [] {
      assert a + b == b;
    } else {
      assert (a + b)[1..] == a[1..] + b;
      PendingConcat(a[1..], b);
    }
  }

  lemma PendingRemove(u: seq<Unbonding>, i: nat)
    requires i < |u|
    ensures Pending(u) == u[i].amount + Pending(u[..i] + u[i + 1..])
  {
    assert u == u[..i] + u[i..];
    PendingConcat(u[..i], u[i..]);
    assert u[i..][1..] == u[i + 1..];
    PendingConcat(u[..i], u[i + 1..]);
  }

  /** Spendable, locked and unbonding coins of an account. */
  ghost function Worth(acc: Account): nat { acc.balance + acc.locked + Pending(acc.unbonds) }

  lemma ChangeWorth(acc: Account, acc': Account, c: Change)
    requires Changed(acc, acc', c)
    ensures Worth(acc') == Worth(acc)
  {
    match c
    case Kept =>
    case Gained(entry) => PendingConcat(acc.unbonds, [entry]);
    case Lost(i) => PendingRemove(acc.unbonds, i);
  }

  lemma StepWorth(s: State, op: Op, a: Address)
    ensures Worth(Get(Step(s, op).0, a)) == Worth(Get(s, a))
  {
    var c := StepChange(s, op, a);
    ChangeWorth(Get(s, a), Get(Step(s, op).0, a), c);
  }

  /** No run moves a coin between accounts, creates one or destroys one. */
  lemma {:induction false} RunWorth(s: State, ops: seq<Op>, a: Address)
    ensures Worth(Get(Run(s, ops), a)) == Worth(Get(s, a))
    decreases |ops|
  {
    if ops != [] {
      StepWorth(s, ops[0], a);
      RunWorth(Step(s, ops[0]).0, ops[1..], a);
    }
  }

  // ---------- unbonding entries ----------

  ghost predicate IdsOk(acc: Account) {
    && (forall i :: 0 <= i < |acc.unbonds| ==> 0 < acc.unbonds[i].id < NextId(acc))
    && (forall i, j :: 0 <= i < j < |acc.unbonds| ==> acc.unbonds[i].id != acc.unbonds[j].id)
  }

  ghost predicate AllIdsOk(s: State) { forall a :: IdsOk(Get(s, a)) }

  lemma GainedIds(acc: Account, acc': Account, entry: Unbonding)
    requires IdsOk(acc) && Changed(acc, acc', Gained(entry))
    ensures IdsOk(acc')
  {
    assert acc'.unbonds[|acc.unbonds|] == entry;
    assert forall i :: 0 <= i < |acc.unbonds| ==> acc'.unbonds[i] == acc.unbonds[i];
  }

  lemma LostIds(acc: Account, acc': Account, k: nat)
    requires IdsOk(acc) && Changed(acc, acc', Lost(k))
    ensures IdsOk(acc')
  {
    assert forall i :: 0 <= i < |acc'.unbonds| ==> acc'.unbonds[i] == acc.unbonds[if i < k then i else i + 1];
  }

  lemma ChangeIds(acc: Account, acc': Account, c: Change)
    requires IdsOk(acc) && Changed(acc, acc', c)
    ensures IdsOk(acc')
  {
    match c
    case Kept =>
    case Gained(entry) => GainedIds(acc, acc', entry);
    case Lost(k) => LostIds(acc, acc', k);
  }

  lemma StepIds(s: State, op: Op)
    requires AllIdsOk(s)
    ensures AllIdsOk(Step(s, op).0)
  {
    forall a
      ensures IdsOk(Get(Step(s, op).0, a))
    {
      var c := StepChange(s, op, a);
      ChangeIds(Get(s, a), Get(Step(s, op).0, a), c);
    }
  }

  /** Pending identifiers stay distinct and below the next one. */
  lemma {:induction false} RunIds(s: State, ops: seq<Op>)
    requires AllIdsOk(s)
    ensures AllIdsOk(Run(s, ops))
    decreases |ops|
  {
    if ops != [] {
      StepIds(s, ops[0]);
      RunIds(Step(s, ops[0]).0, ops[1..]);
    }
  }

  /** The identifier was issued, and whatever is pending under it is the entry it was issued for. */
  ghost predicate Issued(acc: Account, entry: Unbonding) {
    && 0 < entry.id < NextId(acc)
    && forall i :: 0 <= i < |acc.unbonds| && acc.unbonds[i].id == entry.id ==> acc.unbonds[i] == entry
  }

  ghost predicate Spent(acc: Account, id: nat) {
    && 0 < id < NextId(acc)
    && forall i :: 0 <= i < |acc.unbonds| ==> acc.unbonds[i].id != id
  }

  lemma ChangeIssued(acc: Account, acc': Account, c: Change, entry: Unbonding)
    requires Issued(acc, entry) && Changed(acc, acc', c)
    ensures Issued(acc', entry)
  {
  }

  lemma ChangeSpent(acc: Account, acc': Account, c: Change, id: nat)
    requires Spent(acc, id) && Changed(acc, acc', c)
    ensures Spent(acc', id)
  {
  }

  lemma {:induction false} RunIssued(s: State, ops: seq<Op>, a: Address, entry: Unbonding)
    requires Issued(Get(s, a), entry)
    ensures Issued(Get(Run(s, ops), a), entry)
    decreases |ops|
  {
    if ops != [] {
      var c := StepChange(s, ops[0], a);
      ChangeIssued(Get(s, a), Get(Step(s, ops[0]).0, a), c, entry);
      RunIssued(Step(s, ops[0]).0, ops[1..], a, entry);
    }
  }

  lemma {:induction false} RunSpent(s: State, ops: seq<Op>, a: Address, id: nat)
    requires Spent(Get(s, a), id)
    ensures Spent(Get(Run(s, ops), a), id)
    decreases |ops|
  {
    if ops != [] {
      var c := StepChange(s, ops[0], a);
      ChangeSpent(Get(s, a), Get(Step(s, ops[0]).0, a), c, id);
      RunSpent(Step(s, ops[0]).0, ops[1..], a, id);
    }
  }

  /**
   A claim under the identifier an undelegation issued pays, in any later run,
   the amount undelegated, and not before the unbonding period has passed.
   */
  lemma PaidAsIssued(s: State, undelegate: Op, between: seq<Op>, claim: Op)
    requires AllIdsOk(s)
    requires undelegate.UndelegateOp? && Step(s, undelegate).1.Undelegated?
    requires claim.ClaimOp? && claim.delegator == undelegate.delegator && claim.id == Step(s, undelegate).1.entry.id
    ensures var r := Step(Run(Step(s, undelegate).0, between), claim).1;
            r.Claimed? ==> r.entry == Step(s, undelegate).1.entry && r.entry.amount == undelegate.amount
                           && claim.now >= undelegate.now + UNBONDING_SECONDS
  {
    var a := undelegate.delegator;
    var entry := Step(s, undelegate).1.entry;
    var s1 := Step(s, undelegate).0;
    assert IdsOk(Get(s, a));
    assert Get(s1, a).unbonds == Get(s, a).unbonds + [entry];
    assert Issued(Get(s1, a), entry);
    RunIssued(s1, between, a, entry);
  }

  lemma ClaimSpends(s: State, op: Op)
    requires AllIdsOk(s) && op.ClaimOp? && Step(s, op).1.Claimed?
    ensures Spent(Get(Step(s, op).0, op.delegator), op.id)
  {
    assert IdsOk(Get(s, op.delegator));
  }

  /** An entry that was claimed is never claimed again. */
  lemma ClaimedOnce(s: State, claim: Op, between: seq<Op>, again: Op)
    requires AllIdsOk(s)
    requires claim.ClaimOp? && Step(s, claim).1.Claimed?
    requires again.ClaimOp? && again.delegator == claim.delegator && again.id == claim.id
    ensures !Step(Run(Step(s, claim).0, between), again).1.Claimed?
  {
    ClaimSpends(s, claim);
    RunSpent(Step(s, claim).0, between, claim.delegator, claim.id);
  }

  lemma FindsEntry(unbonds: seq<Unbonding>, i: nat)
    requires i < |unbonds| && forall j, k :: 0 <= j < k < |unbonds| ==> unbonds[j].id != unbonds[k].id
    ensures Find(unbonds, unbonds[i].id) == i
  {
    var f := Find(unbonds, unbonds[i].id);
    assert f <= i;
  }

  /** A pending entry past its release time can be claimed, and pays its amount to its owner. */
  lemma Claimable(s: State, a: Address, i: nat, index: nat, now: nat)
    requires AllIdsOk(s) && a != NO_ADDRESS && i < |Get(s, a).unbonds| && now >= Get(s, a).unbonds[i].releaseTime
    ensures var entry := Get(s, a).unbonds[i];
            var (s', r) := Claim(s, a, entry.id, false, index, now);
            r == Claimed(entry) && Get(s', a).balance == Get(s, a).balance + entry.amount
  {
    assert IdsOk(Get(s, a));
    FindsEntry(Get(s, a).unbonds, i);
  }

  // ---------- when an entry is paid ----------

  /** The operation pays the account's entry with this identifier. */
  predicate Pays(s: State, op: Op, a: Address, id: nat) {
    op.ClaimOp? && op.delegator == a && op.id == id && Step(s, op).1.Claimed?
  }

  predicate PaidIn(s: State, ops: seq<Op>, a: Address, id: nat)
    decreases |ops|
  {
    ops != [] && (Pays(s, ops[0], a, id) || PaidIn(Step(s, ops[0]).0, ops[1..], a, id))
  }

  /** Losing one entry leaves every entry with another identifier. */
  lemma LostOther(acc: Account, acc': Account, k: nat, entry: Unbonding)
    requires Changed(acc, acc', Lost(k)) && entry in acc.unbonds && acc.unbonds[k].id != entry.id
    ensures entry in acc'.unbonds
  {
    var i: nat :| i < |acc.unbonds| && acc.unbonds[i] == entry;
    assert acc'.unbonds[if i < k then i else i - 1] == entry;
  }

  lemma ClaimPending(s: State, op: Op, a: Address, entry: Unbonding)
    requires AllIdsOk(s) && entry in Get(s, a).unbonds && op.ClaimOp? && Step(s, op).1.Claimed?
    ensures entry in Get(Step(s, op).0, a).unbonds <==> !(op.delegator == a && op.id == entry.id)
  {
    var k := Find(Get(s, op.delegator).unbonds, op.id);
    PaidOutChange(s, op.delegator, k, op.index, a);
    if op.delegator == a && op.id != entry.id {
      LostOther(Get(s, a), Get(Step(s, op).0, a), k, entry);
    } else if op.delegator == a {
      ClaimSpends(s, op);
    }
  }

  /** Only a paid claim of its owner, under its identifier, takes an entry away. */
  lemma StepPending(s: State, op: Op, a: Address, entry: Unbonding)
    requires AllIdsOk(s) && entry in Get(s, a).unbonds
    ensures entry in Get(Step(s, op).0, a).unbonds <==> !Pays(s, op, a, entry.id)
  {
    match op
    case DelegateOp(_, _, _, _, _) => DelegateChange(s, op, a);
    case UndelegateOp(_, _, _, _, _) =>
      var c := UndelegateChange(s, op, a);
    case ClaimOp(_, _, _, _, _) =>
      if Step(s, op).1.Claimed? {
        ClaimPending(s, op, a, entry);
      }
  }

  /** Over every run an entry is pending exactly until it is paid. */
  lemma {:induction false} RunPending(s: State, ops: seq<Op>, a: Address, entry: Unbonding)
    requires AllIdsOk(s) && entry in Get(s, a).unbonds
    ensures entry in Get(Run(s, ops), a).unbonds <==> !PaidIn(s, ops, a, entry.id)
    decreases |ops|
  {
    if ops != [] {
      var s1 := Step(s, ops[0]).0;
      StepPending(s, ops[0], a, entry);
      StepIds(s, ops[0]);
      if Pays(s, ops[0], a, entry.id) {
        ClaimSpends(s, ops[0]);
        RunSpent(s1, ops[1..], a, entry.id);
      } else {
        RunPending(s1, ops[1..], a, entry);
      }
    }
  }

  /** A claim of an entry that was pending pays it exactly when it is not paused, past the release time and not yet paid. */
  lemma ClaimExact(s: State, ops: seq<Op>, entry: Unbonding, claim: Op)
    requires AllIdsOk(s) && claim.ClaimOp? && claim.delegator != NO_ADDRESS && claim.id == entry.id
    requires entry in Get(s, claim.delegator).unbonds
    ensures Step(Run(s, ops), claim).1.Claimed?
       <==> !claim.paused && claim.now >= entry.releaseTime && !PaidIn(s, ops, claim.delegator, entry.id)
  {
    var a, s' := claim.delegator, Run(s, ops);
    assert IdsOk(Get(s, a));
    RunIds(s, ops);
    RunPending(s, ops, a, entry);
    RunIssued(s, ops, a, entry);
    if entry in Get(s', a).unbonds {
      var i: nat :| i < |Get(s', a).unbonds| && Get(s', a).unbonds[i] == entry;
      assert IdsOk(Get(s', a));
      FindsEntry(Get(s', a).unbonds, i);
    }
  }

  /**
   After an undelegation and any run, an unpaused claim under the identifier
   that was issued pays if and only if the unbonding period has passed and the
   run did not already pay it.
   */
  lemma PaidExactly(s: State, undelegate: Op, between: seq<Op>, claim: Op)
    requires AllIdsOk(s)
    requires undelegate.UndelegateOp? && Step(s, undelegate).1.Undelegated?
    requires claim.ClaimOp? && claim.delegator == undelegate.delegator && claim.id == Step(s, undelegate).1.entry.id
    ensures Step(Run(Step(s, undelegate).0, between), claim).1.Claimed?
       <==> !claim.paused && claim.now >= undelegate.now + UNBONDING_SECONDS
            && !PaidIn(Step(s, undelegate).0, between, claim.delegator, claim.id)
  {
    var entry, s1 := Step(s, undelegate).1.entry, Step(s, undelegate).0;
    StepIds(s, undelegate);
    assert Get(s1, claim.delegator).unbonds == Get(s, claim.delegator).unbonds + [entry];
    ClaimExact(s1, between, entry, claim);
  }
}
