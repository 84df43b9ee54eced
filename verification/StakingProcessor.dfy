/** Delegated staking as the state processor runs it: accounts are loaded, changed field by field and written back. */
module StakingProcessor {
  import opened Accounts
  import Spec = Delegation
  import opened Delegation

  class Processor {
    var accounts: State

    constructor (accounts: State)
      ensures this.accounts == accounts
    {
      this.accounts := accounts;
    }

    method AccrueAccount(loaded: Account, index: nat) returns (acc: Account)
      ensures acc == Accrue(loaded, index)
    {
      acc := loaded;
      if acc.stake == 0 {
        acc := acc.(lastIndex := index);
        return;
      }
      if acc.lastIndex == 0 {
        acc := acc.(lastIndex := index);
        return;
      }
      var delta := index - acc.lastIndex;
      if delta <= 0 {
        acc := acc.(lastIndex := index);
        return;
      }
      var reward := Reward(acc.stake, delta);
      if reward > 0 {
        acc := acc.(shares := acc.shares + reward);
      }
      acc := acc.(lastIndex := index);
    }

    method Delegate(delegator: Address, validator: Address, amount: int, paused: bool, index: nat) returns (r: Reply)
      modifies this
      ensures (accounts, r) == Spec.Delegate(old(accounts), delegator, validator, amount, paused, index)
    {
      if delegator == NO_ADDRESS { return Failed(DelegatorRequired); }
      if amount <= 0 { return Failed(AmountNotPositive); }
      if paused { return Failed(Paused); }
      var target := if validator == NO_ADDRESS then delegator else validator;
      if !IsAccount(target) { return Failed(BadValidator); }
      var loaded := Get(accounts, delegator);
      if loaded.balance < amount { return Failed(InsufficientBalance); }
      if loaded.validator != NO_ADDRESS && loaded.validator != target && loaded.locked > 0 {
        return Failed(MustUndelegateFirst);
      }
      var sameValidator := target == delegator;
      var d := AccrueAccount(loaded, index);
      d := d.(balance := d.balance - amount);
      d := d.(locked := d.locked + amount);
      d := d.(validator := target);
      if sameValidator {
        d := d.(stake := d.stake + amount);
      }
      d := d.(nonce := d.nonce + 1);
      if !sameValidator {
        var v := AccrueAccount(Get(accounts, target), index);
        v := v.(stake := v.stake + amount);
        accounts := accounts[target := v];
      }
      accounts := accounts[delegator := d];
      return Delegated;
    }

    method Undelegate(delegator: Address, amount: int, paused: bool, index: nat, now: nat) returns (r: Reply)
      modifies this
      ensures (accounts, r) == Spec.Undelegate(old(accounts), delegator, amount, paused, index, now)
    {
      if delegator == NO_ADDRESS { return Failed(DelegatorRequired); }
      if amount <= 0 { return Failed(AmountNotPositive); }
      if paused { return Failed(Paused); }
      var loaded := Get(accounts, delegator);
      if loaded.locked < amount { return Failed(InsufficientLocked); }
      if loaded.validator == NO_ADDRESS { return Failed(NoDelegation); }
      var validator := loaded.validator;
      var sameValidator := validator == delegator;
      var d := AccrueAccount(loaded, index);
      if sameValidator {
        if d.stake < amount { return Failed(StakeUnderflow); }
        d := d.(stake := d.stake - amount);
      }
      d := d.(locked := d.locked - amount);
      var nextId := d.nextId;
      if nextId == 0 { nextId := 1; }
      var entry := Unbonding(nextId, validator, amount, now + UNBONDING_SECONDS);
      d := d.(unbonds := d.unbonds + [entry]);
      d := d.(nextId := nextId + 1);
      if d.locked == 0 {
        d := d.(validator := NO_ADDRESS);
      }
      d := d.(nonce := d.nonce + 1);
      if !sameValidator {
        var v := AccrueAccount(Get(accounts, validator), index);
        if v.stake < amount { return Failed(StakeUnderflow); }
        v := v.(stake := v.stake - amount);
        accounts := accounts[validator := v];
      }
      accounts := accounts[delegator := d];
      return Undelegated(entry);
    }

    method Claim(delegator: Address, id: nat, paused: bool, index: nat, now: nat) returns (r: Reply)
      modifies this
      ensures (accounts, r) == Spec.Claim(old(accounts), delegator, id, paused, index, now)
    {
      if delegator == NO_ADDRESS { return Failed(DelegatorRequired); }
      if id == 0 { return Failed(BadUnbondingId); }
      if paused { return Failed(Paused); }
      var d := AccrueAccount(Get(accounts, delegator), index);
      var position := SearchUnbonding(d.unbonds, id);
      if position == -1 { return Failed(UnbondingNotFound); }
      var entry := d.unbonds[position];
      if now < entry.releaseTime { return Failed(NotYetClaimable); }
      d := d.(unbonds := d.unbonds[..position] + d.unbonds[position + 1..]);
      d := d.(balance := d.balance + entry.amount);
      d := d.(nonce := d.nonce + 1);
      accounts := accounts[delegator := d];
      return Claimed(entry);
    }
  }

  method SearchUnbonding(unbonds: seq<Unbonding>, id: nat) returns (position: int)
    ensures position == if Find(unbonds, id) == |unbonds| then -1 else Find(unbonds, id)
  {
    position := -1;
    for i := 0 to |unbonds|
      invariant forall j :: 0 <= j < i ==> unbonds[j].id != id
    {
      if unbonds[i].id == id {
        return i;
      }
    }
  }
}
