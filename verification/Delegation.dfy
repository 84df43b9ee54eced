/**
 Delegated staking: locking ZNHB behind a validator, undelegating it into
 time-locked entries and claiming those entries.
 */
module Delegation {
  import opened Accounts
  import opened Sums

  const INDEX_UNIT: nat := 1_000_000_000_000_000_000
  const UNBONDING_SECONDS: nat := 72 * 60 * 60

  datatype Unbonding = Unbonding(id: nat, validator: Address, amount: nat, releaseTime: nat)

  /** The staking part of an account; `validator` is `NO_ADDRESS` without a delegation. */
  datatype Account = Account(balance: nat, locked: nat, stake: nat, shares: nat, lastIndex: nat,
                             validator: Address, unbonds: seq<Unbonding>, nextId: nat, nonce: nat)

  type State = map<Address, Account>

  /** What an address without a stored account reads as. */
  const BLANK: Account := Account(0, 0, 0, 0, 0, NO_ADDRESS, [], 0, 0)

  function Get(s: State, a: Address): Account { Lookup(s, a, BLANK) }

  datatype Failure =
    | DelegatorRequired | AmountNotPositive | Paused | BadValidator | InsufficientBalance | MustUndelegateFirst
    | InsufficientLocked | NoDelegation | StakeUnderflow | BadUnbondingId | UnbondingNotFound | NotYetClaimable

  datatype Reply =
    | Delegated
    | Undelegated(entry: Unbonding)
    | Claimed(entry: Unbonding)
    | Failed(why: Failure)

  // ---------- accrual ----------

  function Reward(stake: nat, delta: int): nat
    requires delta > 0
  {
    stake * delta / INDEX_UNIT
  }

  /** Brings an account up to the global index: shares grow with the stake it held so far. */
  function Accrue(acc: Account, index: nat): Account {
    if acc.stake == 0 || acc.lastIndex == 0 || index <= acc.lastIndex then acc.(lastIndex := index)
    else acc.(shares := acc.shares + Reward(acc.stake, index - acc.lastIndex), lastIndex := index)
  }

  // ---------- operations ----------

  function Delegate(s: State, delegator: Address, validator: Address, amount: int, paused: bool, index: nat): (State, Reply) {
    if delegator == NO_ADDRESS then (s, Failed(DelegatorRequired))
    else if amount <= 0 then (s, Failed(AmountNotPositive))
    else if paused then (s, Failed(Paused))
    else
      var target := if validator == NO_ADDRESS then delegator else validator;
      if !IsAccount(target) then (s, Failed(BadValidator))
      else
        var d := Get(s, delegator);
        if d.balance < amount then (s, Failed(InsufficientBalance))
        else if d.validator != NO_ADDRESS && d.validator != target && d.locked > 0 then (s, Failed(MustUndelegateFirst))
        else (Bonded(s, delegator, target, amount, index), Delegated)
  }

  function Bonded(s: State, delegator: Address, target: Address, amount: nat, index: nat): State
    requires amount <= Get(s, delegator).balance
  {
    var d := Accrue(Get(s, delegator), index);
    var d' := d.(balance := d.balance - amount, locked := d.locked + amount, validator := target, nonce := d.nonce + 1);
    if target == delegator then s[delegator := d'.(stake := d.stake + amount)]
    else
      var v := Accrue(Get(s, target), index);
      s[target := v.(stake := v.stake + amount)][delegator := d']
  }

  function NextId(acc: Account): nat { if acc.nextId == 0 then 1 else acc.nextId }

  function NewEntry(d: Account, amount: nat, now: nat): Unbonding {
    Unbonding(NextId(d), d.validator, amount, now + UNBONDING_SECONDS)
  }

  function Undelegate(s: State, delegator: Address, amount: int, paused: bool, index: nat, now: nat): (State, Reply) {
    if delegator == NO_ADDRESS then (s, Failed(DelegatorRequired))
    else if amount <= 0 then (s, Failed(AmountNotPositive))
    else if paused then (s, Failed(Paused))
    else
      var d := Get(s, delegator);
      if d.locked < amount then (s, Failed(InsufficientLocked))
      else if d.validator == NO_ADDRESS then (s, Failed(NoDelegation))
      else if Get(s, d.validator).stake < amount then (s, Failed(StakeUnderflow))
      else (Unbonded(s, delegator, amount, index, now), Undelegated(NewEntry(d, amount, now)))
  }

  function Unbonded(s: State, delegator: Address, amount: nat, index: nat, now: nat): State
    requires amount <= Get(s, delegator).locked && amount <= Get(s, Get(s, delegator).validator).stake
  {
    var validator := Get(s, delegator).validator;
    var d := Accrue(Get(s, delegator), index);
    var d' := d.(locked := d.locked - amount, unbonds := d.unbonds + [NewEntry(d, amount, now)], nextId := NextId(d) + 1,
                 validator := if d.locked == amount then NO_ADDRESS else d.validator, nonce := d.nonce + 1);
    if validator == delegator then s[delegator := d'.(stake := d.stake - amount)]
    else
      var v := Accrue(Get(s, validator), index);
      s[validator := v.(stake := v.stake - amount)][delegator := d']
  }

  /** Where the entry with the identifier first occurs, or the length if nowhere. */
  function Find(unbonds: seq<Unbonding>, id: nat): (i: nat)
    ensures i <= |unbonds|
    ensures i < |unbonds| ==> unbonds[i].id == id
    ensures forall j :: 0 <= j < i ==> unbonds[j].id != id
  {
    if unbonds == [] || unbonds[0].id == id then 0 else 1 + Find(unbonds[1..], id)
  }

  function Claim(s: State, delegator: Address, id: nat, paused: bool, index: nat, now: nat): (State, Reply) {
    if delegator == NO_ADDRESS then (s, Failed(DelegatorRequired))
    else if id == 0 then (s, Failed(BadUnbondingId))
    else if paused then (s, Failed(Paused))
    else
      var d := Get(s, delegator);
      var i := Find(d.unbonds, id);
      if i == |d.unbonds| then (s, Failed(UnbondingNotFound))
      else if now < d.unbonds[i].releaseTime then (s, Failed(NotYetClaimable))
      else (PaidOut(s, delegator, i, index), Claimed(d.unbonds[i]))
  }

  function PaidOut(s: State, delegator: Address, i: nat, index: nat): State
    requires i < |Get(s, delegator).unbonds|
  {
    var d := Accrue(Get(s, delegator), index);
    s[delegator := d.(unbonds := d.unbonds[..i] + d.unbonds[i + 1..], balance := d.balance + d.unbonds[i].amount,
                      nonce := d.nonce + 1)]
  }

  datatype Op =
    | DelegateOp(delegator: Address, to: Address, amount: int, paused: bool, index: nat)
    | UndelegateOp(delegator: Address, amount: int, paused: bool, index: nat, now: nat)
    | ClaimOp(delegator: Address, id: nat, paused: bool, index: nat, now: nat)

  function Step(s: State, op: Op): (State, Reply) {
    match op
    case DelegateOp(d, v, amount, paused, index) => Delegate(s, d, v, amount, paused, index)
    case UndelegateOp(d, amount, paused, index, now) => Undelegate(s, d, amount, paused, index, now)
    case ClaimOp(d, id, paused, index, now) => Claim(s, d, id, paused, index, now)
  }

  function Run(s: State, ops: seq<Op>): State
    decreases |ops|
  {
    if ops == [] then s else Run(Step(s, ops[0]).0, ops[1..])
  }

  // ---------- a validator's stake against the delegations behind it ----------

  ghost function Behind(acc: Account, v: Address): int { if acc.validator == v then acc.locked else 0 }

  ghost function Backing(s: State, v: Address): map<Address, int> { map a | a in s :: Behind(s[a], v) }

  /** All that is locked behind the validator. */
  ghost function DelegatedTo(s: State, v: Address): int { Total<Address>(Backing(s, v)) }

  ghost function Excess(s: State, v: Address): int { Get(s, v).stake - DelegatedTo(s, v) }

  /** A locked amount always has a validator. */
  ghost predicate LockedIsDelegated(s: State) {
    forall a :: Get(s, a).locked > 0 ==> Get(s, a).validator != NO_ADDRESS
  }

  lemma WriteBacking(s: State, a: Address, acc: Account, v: Address)
    ensures DelegatedTo(s[a := acc], v) == DelegatedTo(s, v) + Behind(acc, v) - Behind(Get(s, a), v)
  {
    assert Backing(s[a := acc], v) == Backing(s, v)[a := Behind(acc, v)];
    TotalUpdate<Address>(Backing(s, v), a, Behind(acc, v));
  }

  lemma BackedBy(s: State, a: Address)
    ensures Get(s, a).locked <= DelegatedTo(s, Get(s, a).validator)
  {
    var b := Backing(s, Get(s, a).validator);
    if a in s {
      TotalRemove<Address>(b, a);
      TotalNonNegative<Address>(b - {a});
    } else {
      TotalNonNegative<Address>(b);
    }
  }

  /** Writing a validator's stake and a delegator's lock moves the excess by the difference of the two changes. */
  lemma TwoWrites(s: State, validator: Address, t: Account, delegator: Address, d: Account, v: Address)
    requires validator != delegator
    requires t.validator == Get(s, validator).validator && t.locked == Get(s, validator).locked
    requires d.stake == Get(s, delegator).stake
    ensures Excess(s[validator := t][delegator := d], v)
            == Excess(s, v) + (if v == validator then t.stake - Get(s, v).stake else 0)
               - (Behind(d, v) - Behind(Get(s, delegator), v))
  {
    var s1: State := s[validator := t];
    WriteBacking(s, validator, t, v);
    WriteBacking(s1, delegator, d, v);
  }

  lemma OneWrite(s: State, delegator: Address, d: Account, v: Address)
    ensures Excess(s[delegator := d], v)
            == Excess(s, v) + (if v == delegator then d.stake - Get(s, v).stake else 0)
               - (Behind(d, v) - Behind(Get(s, delegator), v))
  {
    WriteBacking(s, delegator, d, v);
  }

  lemma BondedExcess(s: State, delegator: Address, target: Address, amount: nat, index: nat, v: Address)
    requires amount <= Get(s, delegator).balance
    requires Get(s, delegator).validator == target || Get(s, delegator).locked == 0
    ensures Excess(Bonded(s, delegator, target, amount, index), v) == Excess(s, v)
  {
    var s' := Bonded(s, delegator, target, amount, index);
    if target == delegator {
      OneWrite(s, delegator, s'[delegator], v);
    } else {
      TwoWrites(s, target, s'[target], delegator, s'[delegator], v);
    }
  }

  lemma UnbondedExcess(s: State, delegator: Address, amount: nat, index: nat, now: nat, v: Address)
    requires amount <= Get(s, delegator).locked && amount <= Get(s, Get(s, delegator).validator).stake
    ensures Excess(Unbonded(s, delegator, amount, index, now), v) == Excess(s, v)
  {
    var s' := Unbonded(s, delegator, amount, index, now);
    var validator := Get(s, delegator).validator;
    if validator == delegator {
      OneWrite(s, delegator, s'[delegator], v);
    } else {
      TwoWrites(s, validator, s'[validator], delegator, s'[delegator], v);
    }
  }

  lemma PaidOutExcess(s: State, delegator: Address, i: nat, index: nat, v: Address)
    requires i < |Get(s, delegator).unbonds|
    ensures Excess(PaidOut(s, delegator, i, index), v) == Excess(s, v)
  {
    OneWrite(s, delegator, PaidOut(s, delegator, i, index)[delegator], v);
  }
}
