/** What a loyalty settlement pays at most, what it does to the coin supply, and the daily cap over runs. */
module LoyaltyRuns {
  import opened Accounts
  import opened Loyalty

  lemma GiveCoins(t: Till, stored: Balances, recipient: Address, payout: nat)
    requires payout <= t.treasury
    ensures Coins(stored + Give(t, stored, recipient, payout).updates) == Coins(stored + t.updates) + payout
  {
    var merged: Balances := stored + t.updates;
    var after := BalanceOf(merged, recipient) + payout;
    assert stored + t.updates[recipient := after] == merged[recipient := after];
    CoinsWritten(merged, recipient, after);
  }

  /** Whatever leaves the treasury is credited to recipients and counted against budget and total. */
  ghost predicate Balanced(t: Till, t': Till, stored: Balances) {
    && t.paid <= t'.paid
    && t'.treasury + t'.paid == t.treasury + t.paid
    && t'.budget + t'.paid == t.budget + t.paid
    && Coins(stored + t'.updates) - t'.paid == Coins(stored + t.updates) - t.paid
  }

  lemma {:induction false} LoopBalanced(t: Till, stored: Balances, ps: seq<Pending>, q: Ratio)
    requires q.den > 0
    ensures Balanced(t, PayAll(t, stored, ps, q), stored)
    decreases |ps|
  {
    if ps != [] {
      if ps[0].amount <= 0 {
        LoopBalanced(t, stored, ps[1..], q);
      } else if q.num > 0 {
        var payout := Scaled(ps[0].amount, q);
        if payout <= 0 || Clamped(t, payout) <= 0 {
          LoopBalanced(t, stored, ps[1..], q);
        } else {
          GiveCoins(t, stored, ps[0].recipient, Clamped(t, payout));
          LoopBalanced(Give(t, stored, ps[0].recipient, Clamped(t, payout)), stored, ps[1..], q);
        }
      }
    }
  }

  /** The plain rule pays the scaled rewards, as far as the treasury goes. */
  lemma {:induction false} PlainPays(t: Till, stored: Balances, ps: seq<Pending>, q: Ratio)
    requires AllPositive(ps) && q.den > 0
    ensures PlainAll(t, stored, ps, q).paid == t.paid + Least(ScaledSum(ps, q), t.treasury)
    decreases |ps|
  {
    if ps != [] {
      var payout := Scaled(ps[0].amount, q);
      ScaledBounds(ps[0].amount, q);
      ScaledSumNonNegative(ps[1..], q);
      var p := if t.treasury < payout then t.treasury else payout;
      PlainPays(if p <= 0 then t else Give(t, stored, ps[0].recipient, p), stored, ps[1..], q);
    }
  }

  function Least(x: int, y: int): int { if x <= y then x else y }

  /** The `i`-th reward names the account, pays something, and comes before the rewards before it have used up the funds. */
  ghost predicate PaidAt(ps: seq<Pending>, q: Ratio, a: Address, funds: nat, i: nat)
    requires q.den > 0
  {
    i < |ps| && ps[i].recipient == a && Scaled(ps[i].amount, q) > 0 && ScaledSum(ps[..i], q) < funds
  }

  ghost predicate IsPaid(ps: seq<Pending>, q: Ratio, a: Address, funds: nat)
    requires q.den > 0
  {
    exists i: nat :: PaidAt(ps, q, a, funds, i)
  }

  lemma PaidLater(ps: seq<Pending>, q: Ratio, a: Address, funds: nat, i: nat)
    requires AllPositive(ps) && q.den > 0 && 0 < i < |ps|
    ensures var payout := Scaled(ps[0].amount, q);
            PaidAt(ps, q, a, funds, i) <==> payout <= funds && PaidAt(ps[1..], q, a, funds - payout, i - 1)
  {
    assert ps[..i][1..] == ps[1..][..i - 1] && ps[1..][i - 1] == ps[i];
    ScaledBounds(ps[0].amount, q);
    ScaledSumNonNegative(ps[1..][..i - 1], q);
  }

  lemma PaidSplit(ps: seq<Pending>, q: Ratio, a: Address, funds: nat)
    requires AllPositive(ps) && q.den > 0 && ps != []
    ensures var payout := Scaled(ps[0].amount, q);
            IsPaid(ps, q, a, funds) <==>
              PaidAt(ps, q, a, funds, 0) || (payout <= funds && IsPaid(ps[1..], q, a, funds - payout))
  {
    var payout := Scaled(ps[0].amount, q);
    if i: nat :| PaidAt(ps, q, a, funds, i) && i > 0 {
      PaidLater(ps, q, a, funds, i);
    }
    if payout <= funds && IsPaid(ps[1..], q, a, funds - payout) {
      var i: nat :| PaidAt(ps[1..], q, a, funds - payout, i);
      PaidLater(ps, q, a, funds, i + 1);
      assert PaidAt(ps, q, a, funds, i + 1);
    }
  }

  lemma {:induction false} NothingPaid(t: Till, stored: Balances, ps: seq<Pending>, q: Ratio)
    requires AllPositive(ps) && q.den > 0 && t.treasury == 0
    ensures PlainAll(t, stored, ps, q) == t
    decreases |ps|
  {
    if ps != [] {
      NothingPaid(t, stored, ps[1..], q);
    }
  }

  /** The accounts rewritten are exactly those paid. */
  lemma {:induction false} PlainTouches(t: Till, stored: Balances, ps: seq<Pending>, q: Ratio, a: Address)
    requires AllPositive(ps) && q.den > 0
    ensures a in PlainAll(t, stored, ps, q).updates <==> a in t.updates || IsPaid(ps, q, a, t.treasury)
    decreases |ps|
  {
    if ps != [] {
      var payout := Scaled(ps[0].amount, q);
      ScaledBounds(ps[0].amount, q);
      PaidSplit(ps, q, a, t.treasury);
      if payout <= t.treasury {
        PlainTouches(if payout == 0 then t else Give(t, stored, ps[0].recipient, payout), stored, ps[1..], q, a);
      } else {
        var t' := if t.treasury == 0 then t else Give(t, stored, ps[0].recipient, t.treasury);
        NothingPaid(t', stored, ps[1..], q);
      }
      assert ScaledSum(ps[..0], q) == 0;
    }
  }

  // ---------- one settlement ----------

  /** The loop pays the scaled rewards as far as the treasury goes, and rewrites just the accounts paid. */
  lemma ResultExact(s: State, treasury: Address, budget: nat)
    requires AllPositive(s.pending) && Demand(s.pending) > 0
    ensures var q := RatioFor(budget, Demand(s.pending));
            var funds := BalanceOf(s.balances, treasury);
            && Result(s, treasury, budget).paid == Least(ScaledSum(s.pending, q), funds)
            && (forall a :: a in Result(s, treasury, budget).updates <==> IsPaid(s.pending, q, a, funds))
  {
    var q := RatioFor(budget, Demand(s.pending));
    var t := Start(s, treasury, budget);
    RatioFits(s.pending, budget);
    LoopIsPlain(t, s.balances, s.pending, q);
    PlainPays(t, s.balances, s.pending, q);
    forall a
      ensures a in Result(s, treasury, budget).updates <==> IsPaid(s.pending, q, a, t.treasury)
    {
      PlainTouches(t, s.balances, s.pending, q, a);
    }
  }

  /**
   A settlement pays at most the budget and at most what the treasury holds. When
   it pro-rates from a sufficient treasury, it leaves less of the budget than
   there are rewards; when budget and treasury cover the demand, it pays all of it.
   */
  lemma SettlementBounds(s: State, treasury: Address, budget: nat)
    requires AllPositive(s.pending) && Demand(s.pending) > 0
    ensures var paid := Result(s, treasury, budget).paid;
            var demand := Demand(s.pending);
            var funds := BalanceOf(s.balances, treasury);
            && paid <= budget && paid <= funds
            && (0 < budget < demand && funds >= budget ==> budget - paid < |s.pending|)
            && (budget >= demand && funds >= demand ==> paid == demand)
  {
    RatioFits(s.pending, budget);
    ResultExact(s, treasury, budget);
    if budget >= Demand(s.pending) {
      FullSum(s.pending);
    }
  }

  lemma {:induction false} FullSum(ps: seq<Pending>)
    ensures ScaledSum(ps, Ratio(1, 1)) == Demand(ps)
  {
    if ps != [] {
      FullSum(ps[1..]);
    }
  }

  lemma StoreCoins(s: State, treasury: Address, day: Day, t: Till)
    requires t.paid > 0 && t.treasury + t.paid == BalanceOf(s.balances, treasury)
    requires Coins(s.balances + t.updates) == Coins(s.balances) + t.paid
    ensures Coins(Store(s, treasury, day, t).balances) == Coins(s.balances) + (if treasury in t.updates then t.paid else 0)
  {
    var merged: Balances := s.balances + t.updates;
    var after := Store(s, treasury, day, t).balances;
    if treasury in t.updates {
      assert after == merged;
    } else {
      assert after == merged[treasury := t.treasury];
      CoinsWritten(merged, treasury, t.treasury);
    }
  }

  lemma ResultCoins(s: State, treasury: Address, budget: nat)
    ensures var t := Result(s, treasury, budget);
            && t.treasury + t.paid == BalanceOf(s.balances, treasury)
            && Coins(s.balances + t.updates) == Coins(s.balances) + t.paid
  {
    var start := Start(s, treasury, budget);
    LoopBalanced(start, s.balances, s.pending, RatioFor(budget, Demand(s.pending)));
    assert s.balances + start.updates == s.balances;
  }

  /** The ratio a block end uses. */
  function RatioAt(s: State, cap: int, day: Day): (q: Ratio)
    ensures q.den > 0
  {
    RatioFor(Remaining(cap, Lookup(s.paidToday, day, 0)), Demand(s.pending))
  }

  lemma {:induction false} PositiveDemand(ps: seq<Pending>)
    requires AllPositive(ps)
    ensures ps != [] ==> Demand(ps) > 0
  {
    if ps != [] {
      PositiveDemand(ps[1..]);
    }
  }

  /** A reward to the treasury is paid: its credit overwrites the treasury's debit. */
  ghost predicate PaysTreasury(s: State, treasury: Address, cap: int, day: Day) {
    IsAccount(treasury) && IsPaid(s.pending, RatioAt(s, cap, day), treasury, BalanceOf(s.balances, treasury))
  }

  lemma {:induction false} PaidSum(ps: seq<Pending>, q: Ratio, a: Address, funds: nat, i: nat)
    requires AllPositive(ps) && q.den > 0 && PaidAt(ps, q, a, funds, i)
    ensures Least(ScaledSum(ps, q), funds) > 0
    decreases |ps|
  {
    ScaledBounds(ps[0].amount, q);
    ScaledSumNonNegative(ps[1..], q);
    ScaledSumNonNegative(ps[..i], q);
    if i > 0 {
      PaidLater(ps, q, a, funds, i);
      PaidSum(ps[1..], q, a, funds - Scaled(ps[0].amount, q), i - 1);
    }
  }

  /**
   A settlement conserves coins exactly when no reward that is paid names the treasury;
   otherwise everything it pays is new.
   */
  lemma ConservedWhen(s: State, treasury: Address, cap: int, day: Day)
    requires AllPositive(s.pending)
    ensures var gained := Coins(Settle(s, treasury, cap, day).balances) - Coins(s.balances);
            && gained == (if PaysTreasury(s, treasury, cap, day)
                          then Least(ScaledSum(s.pending, RatioAt(s, cap, day)), BalanceOf(s.balances, treasury)) else 0)
            && (gained == 0 <==> !PaysTreasury(s, treasury, cap, day))
  {
    var funds := BalanceOf(s.balances, treasury);
    PositiveDemand(s.pending);
    if PaysTreasury(s, treasury, cap, day) {
      var i: nat :| PaidAt(s.pending, RatioAt(s, cap, day), treasury, funds, i);
      PaidSum(s.pending, RatioAt(s, cap, day), treasury, funds, i);
    }
    if s.pending != [] && IsAccount(treasury) {
      var budget := Remaining(cap, Lookup(s.paidToday, day, 0));
      ResultExact(s, treasury, budget);
      ResultCoins(s, treasury, budget);
      if Result(s, treasury, budget).paid > 0 {
        StoreCoins(Propose(s, day, Demand(s.pending)), treasury, day, Result(s, treasury, budget));
      }
    }
  }

  /** In particular when no reward names the treasury. */
  lemma ConservedWithoutTreasury(s: State, treasury: Address, cap: int, day: Day)
    requires AllPositive(s.pending) && forall i :: 0 <= i < |s.pending| ==> s.pending[i].recipient != treasury
    ensures Coins(Settle(s, treasury, cap, day).balances) == Coins(s.balances)
  {
    ConservedWhen(s, treasury, cap, day);
  }

  /** A reward of 5 to a treasury that holds 10 leaves it with 15. */
  lemma TreasuryMints()
    ensures var s := State(map[FIRST_ACCOUNT := 10], [Pending(FIRST_ACCOUNT, 5)], map[], map[]);
            BalanceOf(Settle(s, FIRST_ACCOUNT, 100, 0).balances, FIRST_ACCOUNT) == 15
  {
    var s := State(map[FIRST_ACCOUNT := 10], [Pending(FIRST_ACCOUNT, 5)], map[], map[]);
    assert Demand(s.pending) == 5;
    var start := Start(s, FIRST_ACCOUNT, 100);
    var t := Give(start, s.balances, FIRST_ACCOUNT, 5);
    assert s.pending[1..] == [] && RatioFor(100, 5) == Ratio(1, 1) && Clamped(start, 5) == 5;
    assert PayAll(start, s.balances, s.pending, Ratio(1, 1)) == PayAll(t, s.balances, [], Ratio(1, 1)) == t;
    assert Result(s, FIRST_ACCOUNT, 100) == t;
  }

  // ---------- the daily cap over runs ----------

  datatype Event = Queue(reward: Pending) | EndBlock(treasury: Address, cap: int, day: Day)

  function Step(s: State, e: Event): State {
    match e
    case Queue(p) => s.(pending := Enqueue(s.pending, p))
    case EndBlock(treasury, cap, day) => Settle(s, treasury, cap, day)
  }

  function Run(s: State, es: seq<Event>): State
    decreases |es|
  {
    if es == [] then s else Run(Step(s, es[0]), es[1..])
  }

  lemma StepCapped(s: State, e: Event, day: Day, limit: nat)
    requires AllPositive(s.pending) && Lookup(s.paidToday, day, 0) <= limit
    requires e.EndBlock? && e.day == day ==> e.cap <= limit
    ensures AllPositive(Step(s, e).pending) && Lookup(Step(s, e).paidToday, day, 0) <= limit
  {
    if e.EndBlock? && s.pending != [] && Demand(s.pending) > 0 && IsAccount(e.treasury) {
      SettlementBounds(s, e.treasury, Remaining(e.cap, Lookup(s.paidToday, e.day, 0)));
    }
  }

  /** However rewards are queued and blocks end, a day never pays more than the largest budget it was given. */
  lemma {:induction false} RunCapped(s: State, es: seq<Event>, day: Day, limit: nat)
    requires AllPositive(s.pending) && Lookup(s.paidToday, day, 0) <= limit
    requires forall i :: 0 <= i < |es| && es[i].EndBlock? && es[i].day == day ==> es[i].cap <= limit
    ensures AllPositive(Run(s, es).pending) && Lookup(Run(s, es).paidToday, day, 0) <= limit
    decreases |es|
  {
    if es != [] {
      StepCapped(s, es[0], day, limit);
      RunCapped(Step(s, es[0]), es[1..], day, limit);
    }
  }

  lemma StepWithinProposed(s: State, e: Event, day: Day)
    requires AllPositive(s.pending) && Lookup(s.paidToday, day, 0) <= Lookup(s.proposedToday, day, 0)
    ensures AllPositive(Step(s, e).pending)
    ensures Lookup(Step(s, e).paidToday, day, 0) <= Lookup(Step(s, e).proposedToday, day, 0)
  {
    if e.EndBlock? && s.pending != [] && Demand(s.pending) > 0 && IsAccount(e.treasury) {
      PaidWithinDemand(s, e.treasury, Remaining(e.cap, Lookup(s.paidToday, e.day, 0)));
    }
  }

  lemma PaidWithinDemand(s: State, treasury: Address, budget: nat)
    requires AllPositive(s.pending) && Demand(s.pending) > 0
    ensures Result(s, treasury, budget).paid <= Demand(s.pending)
  {
    SettlementBounds(s, treasury, budget);
    if budget >= Demand(s.pending) {
      ResultExact(s, treasury, budget);
      FullSum(s.pending);
    }
  }

  /** Nor more than was proposed for the day. */
  lemma {:induction false} RunWithinProposed(s: State, es: seq<Event>, day: Day)
    requires AllPositive(s.pending) && Lookup(s.paidToday, day, 0) <= Lookup(s.proposedToday, day, 0)
    ensures Lookup(Run(s, es).paidToday, day, 0) <= Lookup(Run(s, es).proposedToday, day, 0)
    decreases |es|
  {
    if es != [] {
      StepWithinProposed(s, es[0], day);
      RunWithinProposed(Step(s, es[0]), es[1..], day);
    }
  }
}
