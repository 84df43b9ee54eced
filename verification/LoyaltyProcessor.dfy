/** The loyalty settlement as the state processor runs it at the end of a block. */
module LoyaltyProcessor {
  import opened Accounts
  import opened Loyalty

  class Processor {
    var balances: Balances
    var pending: seq<Pending>
    var paidToday: map<Day, nat>
    var proposedToday: map<Day, nat>

    constructor (balances: Balances)
      ensures View() == State(balances, [], map[], map[])
    {
      this.balances, pending, paidToday, proposedToday := balances, [], map[], map[];
    }

    ghost function View(): State
      reads this
    {
      State(balances, pending, paidToday, proposedToday)
    }

    method AddPending(reward: Pending)
      modifies this`pending
      ensures pending == Enqueue(old(pending), reward)
    {
      if reward.amount <= 0 { return; }
      pending := pending + [reward];
    }

    method SumPending() returns (total: int)
      ensures total == Demand(pending)
    {
      total := 0;
      for i := 0 to |pending|
        invariant total + Demand(pending[i..]) == Demand(pending)
      {
        assert pending[i..][1..] == pending[i + 1..];
        total := total + pending[i].amount;
      }
    }

    /** The paying loop. */
    method PayPending(treasuryBalance: nat, budget: int, q: Ratio) returns (t: Till)
      requires q.den > 0
      ensures t == PayAll(Till(treasuryBalance, budget, 0, map[]), balances, pending, q)
    {
      t := Till(treasuryBalance, budget, 0, map[]);
      ghost var start := t;
      var i := 0;
      while i < |pending|
        invariant 0 <= i <= |pending|
        invariant PayAll(t, balances, pending[i..], q) == PayAll(start, balances, pending, q)
      {
        assert pending[i..][0] == pending[i] && pending[i..][1..] == pending[i + 1..];
        var reward := pending[i];
        i := i + 1;
        if reward.amount <= 0 { continue; }
        if q.num == 0 { break; }
        var payout := Scaled(reward.amount, q);
        if payout <= 0 { continue; }
        if t.budget > 0 && t.budget < payout {
          payout := t.budget;
        }
        if payout <= 0 { continue; }
        if t.treasury < payout {
          payout := t.treasury;
        }
        if payout <= 0 { continue; }
        var account := if reward.recipient in t.updates then t.updates[reward.recipient]
                       else BalanceOf(balances, reward.recipient);
        t := Till(t.treasury - payout, t.budget - payout, t.paid + payout, t.updates[reward.recipient := account + payout]);
        if t.budget <= 0 { break; }
      }
    }

    /** Pays the queue and writes the accounts and the day's total back. */
    method PayAndStore(treasury: Address, demand: int, cap: int, day: Day)
      requires demand == Demand(pending)
      modifies this
      ensures View() == Store(old(View()), treasury, day, Result(old(View()), treasury, Remaining(cap, Lookup(old(paidToday), day, 0))))
    {
      var budget := Remaining(cap, Lookup(paidToday, day, 0));
      var t := PayPending(BalanceOf(balances, treasury), budget, RatioFor(budget, demand));
      if t.paid > 0 {
        balances := balances[treasury := t.treasury];
        balances := balances + t.updates;
        paidToday := paidToday[day := Lookup(paidToday, day, 0) + t.paid];
      }
      pending := [];
    }

    method EndBlockRewards(treasury: Address, cap: int, day: Day)
      modifies this
      ensures View() == Settle(old(View()), treasury, cap, day)
    {
      if |pending| == 0 { return; }
      var demand := SumPending();
      if demand <= 0 {
        pending := [];
        return;
      }
      proposedToday := proposedToday[day := Lookup(proposedToday, day, 0) + demand];
      if !IsAccount(treasury) {
        pending := [];
        return;
      }
      PayAndStore(treasury, demand, cap, day);
    }
  }
}
