/** End-of-block settlement of queued loyalty rewards from the treasury, pro-rated to the day's budget. */
module Loyalty {
  import opened Accounts
  import opened Arithmetic

  datatype Pending = Pending(recipient: Address, amount: int)

  /** A payout is the reward times `num / den`, rounded down. */
  datatype Ratio = Ratio(num: nat, den: nat)

  type Day = nat

  /** Balances, the queue, and what was paid and proposed on each day. */
  datatype State = State(balances: Balances, pending: seq<Pending>, paidToday: map<Day, nat>, proposedToday: map<Day, nat>)

  function Demand(ps: seq<Pending>): int {
    if ps == [] then 0 else ps[0].amount + Demand(ps[1..])
  }

  /** Queueing drops rewards that are not positive. */
  function Enqueue(ps: seq<Pending>, p: Pending): seq<Pending> {
    if p.amount <= 0 then ps else ps + [p]
  }

  predicate AllPositive(ps: seq<Pending>) {
    forall i :: 0 <= i < |ps| ==> ps[i].amount > 0
  }

  function RatioFor(budget: int, demand: int): Ratio {
    if demand > 0 && budget < demand then (if budget <= 0 then Ratio(0, 1) else Ratio(budget, demand))
    else Ratio(1, 1)
  }

  function Scaled(amount: int, q: Ratio): int
    requires q.den > 0
  {
    amount * q.num / q.den
  }

  /** The variables of the paying loop: what treasury and budget have left, and the recipients' new balances. */
  datatype Till = Till(treasury: nat, budget: int, paid: nat, updates: Balances)

  function Give(t: Till, stored: Balances, recipient: Address, payout: nat): Till
    requires payout <= t.treasury
  {
    Till(t.treasury - payout, t.budget - payout, t.paid + payout,
         t.updates[recipient := BalanceOf(stored + t.updates, recipient) + payout])
  }

  /** The clamps: first to the budget left, then to the treasury left. */
  function Clamped(t: Till, payout: int): (r: int)
    ensures r <= t.treasury || r <= 0
  {
    var p := if t.budget > 0 && t.budget < payout then t.budget else payout;
    if p <= 0 then p else if t.treasury < p then t.treasury else p
  }

  /** The paying loop with its skips and both of its early exits. */
  function PayAll(t: Till, stored: Balances, ps: seq<Pending>, q: Ratio): Till
    requires q.den > 0
    decreases |ps|
  {
    if ps == [] then t
    else if ps[0].amount <= 0 then PayAll(t, stored, ps[1..], q)
    else if q.num == 0 then t
    else
      var payout := Scaled(ps[0].amount, q);
      if payout <= 0 || Clamped(t, payout) <= 0 then PayAll(t, stored, ps[1..], q)
      else
        var t' := Give(t, stored, ps[0].recipient, Clamped(t, payout));
        if t'.budget <= 0 then t' else PayAll(t', stored, ps[1..], q)
  }

  /** Remaining budget of the day. */
  function Remaining(cap: int, paid: nat): nat { if cap <= paid then 0 else cap - paid }

  function Start(s: State, treasury: Address, budget: int): Till { Till(BalanceOf(s.balances, treasury), budget, 0, map[]) }

  function Store(s: State, treasury: Address, day: Day, t: Till): State {
    if t.paid > 0 then s.(balances := s.balances[treasury := t.treasury] + t.updates, pending := [],
                          paidToday := s.paidToday[day := Lookup(s.paidToday, day, 0) + t.paid])
    else s.(pending := [])
  }

  function Propose(s: State, day: Day, demand: nat): State {
    s.(proposedToday := s.proposedToday[day := Lookup(s.proposedToday, day, 0) + demand])
  }

  /** The loop's result when a queue is settled. */
  function Result(s: State, treasury: Address, budget: nat): Till {
    PayAll(Start(s, treasury, budget), s.balances, s.pending, RatioFor(budget, Demand(s.pending)))
  }

  /** Settles the queue; without demand or a valid treasury it is only cleared. */
  function Settle(s: State, treasury: Address, cap: int, day: Day): State {
    if s.pending == [] then s
    else if Demand(s.pending) <= 0 then s.(pending := [])
    else
      var proposed := Propose(s, day, Demand(s.pending));
      if !IsAccount(treasury) then proposed.(pending := [])
      else Store(proposed, treasury, day, Result(s, treasury, Remaining(cap, Lookup(s.paidToday, day, 0))))
  }

  // ---------- the plain payout rule ----------

  /** Every reward scaled down, limited only by what the treasury has left: no budget clamp, no early exit. */
  function PlainAll(t: Till, stored: Balances, ps: seq<Pending>, q: Ratio): Till
    requires q.den > 0
    decreases |ps|
  {
    if ps == [] then t
    else
      var payout := Scaled(ps[0].amount, q);
      var p := if t.treasury < payout then t.treasury else payout;
      PlainAll(if p <= 0 then t else Give(t, stored, ps[0].recipient, p), stored, ps[1..], q)
  }

  ghost function ScaledSum(ps: seq<Pending>, q: Ratio): int
    requires q.den > 0
  {
    if ps == [] then 0 else Scaled(ps[0].amount, q) + ScaledSum(ps[1..], q)
  }

  lemma ScaledBounds(amount: int, q: Ratio)
    requires amount > 0 && q.den > 0
    ensures var x := Scaled(amount, q);
            0 <= x && x * q.den <= amount * q.num <= x * q.den + (q.den - 1)
  {
    assert amount * q.num >= 0;
  }

  /** The scaled rewards fit the scaled demand and miss it by less than one unit per reward. */
  lemma {:induction false} ScaledSumBounds(ps: seq<Pending>, q: Ratio)
    requires AllPositive(ps) && q.den > 0
    ensures ScaledSum(ps, q) >= 0
    ensures ScaledSum(ps, q) * q.den <= Demand(ps) * q.num <= ScaledSum(ps, q) * q.den + |ps| * (q.den - 1)
  {
    if ps != [] {
      ScaledSumBounds(ps[1..], q);
      ScaledBounds(ps[0].amount, q);
      Distribute(Scaled(ps[0].amount, q), ScaledSum(ps[1..], q), q.den);
      Distribute(ps[0].amount, Demand(ps[1..]), q.num);
      Distribute(1, |ps| - 1, q.den - 1);
    }
  }

  lemma {:induction false} ScaledSumNonNegative(ps: seq<Pending>, q: Ratio)
    requires AllPositive(ps) && q.den > 0
    ensures ScaledSum(ps, q) >= 0
  {
    ScaledSumBounds(ps, q);
  }

  lemma {:induction false} PlainIdle(t: Till, stored: Balances, ps: seq<Pending>, q: Ratio)
    requires AllPositive(ps) && q.den > 0 && ScaledSum(ps, q) <= 0
    ensures PlainAll(t, stored, ps, q) == t
    decreases |ps|
  {
    if ps != [] {
      ScaledBounds(ps[0].amount, q);
      ScaledSumNonNegative(ps[1..], q);
      PlainIdle(t, stored, ps[1..], q);
    }
  }

  /**
   While the budget covers the scaled rewards still to come, the budget clamp
   never binds and the early exits skip nothing: the loop pays by the plain rule.
   */
  lemma {:induction false} LoopIsPlain(t: Till, stored: Balances, ps: seq<Pending>, q: Ratio)
    requires AllPositive(ps) && q.den > 0 && t.budget >= ScaledSum(ps, q)
    ensures PayAll(t, stored, ps, q) == PlainAll(t, stored, ps, q)
    decreases |ps|
  {
    if ps != [] {
      var payout := Scaled(ps[0].amount, q);
      ScaledBounds(ps[0].amount, q);
      ScaledSumNonNegative(ps[1..], q);
      if q.num == 0 {
        ScaledSumBounds(ps, q);
        Mono(1, ScaledSum(ps, q), q.den);
        PlainIdle(t, stored, ps, q);
      } else if payout <= 0 || Clamped(t, payout) <= 0 {
        LoopIsPlain(t, stored, ps[1..], q);
      } else {
        var t' := Give(t, stored, ps[0].recipient, Clamped(t, payout));
        if t'.budget <= 0 {
          PlainIdle(t', stored, ps[1..], q);
        } else {
          LoopIsPlain(t', stored, ps[1..], q);
        }
      }
    }
  }

  /** The ratio chosen for a budget keeps the scaled rewards within it. */
  lemma RatioFits(ps: seq<Pending>, budget: nat)
    requires AllPositive(ps) && Demand(ps) > 0
    ensures var q := RatioFor(budget, Demand(ps));
            && q.den > 0
            && ScaledSum(ps, q) <= budget
            && (0 < budget < Demand(ps) ==> budget < ScaledSum(ps, q) + |ps|)
  {
    var d := Demand(ps);
    var q := RatioFor(budget, d);
    ScaledSumBounds(ps, q);
    if 0 < budget < d {
      Cancel(ScaledSum(ps, q), budget, d);
      RoundedGap(ScaledSum(ps, q), |ps|, budget, d);
    }
  }
}
