/** Closing epochs one after another: the ledger the reward settlements leave behind. */
module RewardSettlement {
  import opened Accounts
  import opened Options
  import opened ProRata
  import opened ProRataFairness
  import opened EpochRewards

  datatype Ledger = Ledger(balances: Balances, history: seq<Settlement>, accrual: Option<Accrual>)

  /** A finalized epoch with the plan and block count the configuration gives it. */
  datatype Closing = Closing(snap: Snapshot, configured: Plan, length: nat)

  predicate Settled(history: seq<Settlement>, epoch: nat) {
    exists i :: 0 <= i < |history| && history[i].epoch == epoch
  }

  predicate Accrued(accrual: Option<Accrual>, epoch: nat) {
    accrual.Some? && accrual.value.epoch == epoch
  }

  function PlanOf(accrual: Option<Accrual>, c: Closing): Plan {
    if Accrued(accrual, c.snap.epoch) then accrual.value.plan else c.configured
  }

  function BlocksOf(accrual: Option<Accrual>, c: Closing): nat {
    if Accrued(accrual, c.snap.epoch) && accrual.value.blocksProcessed > 0 then accrual.value.blocksProcessed else c.length
  }

  /** Keeps the newest `limit` settlements; zero means all of them. */
  function Prune(history: seq<Settlement>, limit: nat): seq<Settlement> {
    if limit == 0 || |history| <= limit then history else history[|history| - limit..]
  }

  function SettlementOf(accrual: Option<Accrual>, c: Closing): Settlement {
    var plan := PlanOf(accrual, c);
    var m := RewardsOf(plan, c.snap);
    Settlement(c.snap.epoch, c.snap.height, c.snap.finalizedAt, BlocksOf(accrual, c),
               plan.Sum(), PaidBy(plan, c.snap).Sum(), plan, PaidBy(plan, c.snap),
               PayoutsFor(m, Ascending(m.Keys)))
  }

  function Settle(l: Ledger, c: Closing, limit: nat): Ledger {
    if c.snap.epoch == 0 then l
    else if Settled(l.history, c.snap.epoch) then l.(accrual := None)
    else
      var m := RewardsOf(PlanOf(l.accrual, c), c.snap);
      Ledger(CreditAll(l.balances, m, Ascending(m.Keys)),
             Prune(l.history + [SettlementOf(l.accrual, c)], limit), None)
  }

  function Run(l: Ledger, cs: seq<Closing>, limit: nat): Ledger
    decreases |cs|
  {
    if cs == [] then l else Run(Settle(l, cs[0], limit), cs[1..], limit)
  }

  // ---------- one settlement ----------

  /**
   The books of a fresh settlement: the payouts add up to the recorded total,
   which is what the balances gained, and no pool pays more than its plan.
   */
  lemma SettlementBooks(l: Ledger, c: Closing, limit: nat)
    requires c.snap.epoch != 0 && !Settled(l.history, c.snap.epoch)
    ensures var s := SettlementOf(l.accrual, c);
            && s.paidTotal == PayoutSum(s.payouts) == Coins(Settle(l, c, limit).balances) - Coins(l.balances)
            && s.paidTotal <= s.plannedTotal
            && s.paid.validators <= s.planned.validators && s.paid.stakers <= s.planned.stakers
            && s.paid.engagement <= s.planned.engagement
  {
    var plan := PlanOf(l.accrual, c);
    var m := RewardsOf(plan, c.snap);
    RewardsTotal(plan, c.snap);
    PoolsExact(plan, c.snap);
    PayoutsComplete(m, Ascending(m.Keys));
    CreditMints(l.balances, m, Ascending(m.Keys));
  }

  /** Every account's balance grows by its reward from the three pools and by nothing else. */
  lemma SettlementCredits(l: Ledger, c: Closing, limit: nat, a: Address)
    requires c.snap.epoch != 0 && !Settled(l.history, c.snap.epoch)
    ensures var plan := PlanOf(l.accrual, c);
            BalanceOf(Settle(l, c, limit).balances, a) == BalanceOf(l.balances, a)
              + Credit(ValidatorAwards(plan.validators, c.snap.selected), a)
              + Credit(Awards(plan.stakers, StakeClaims(c.snap.weights)), a)
              + Credit(Awards(plan.engagement, EngagementClaims(c.snap.weights)), a)
  {
    var plan := PlanOf(l.accrual, c);
    var m := RewardsOf(plan, c.snap);
    RewardsSplit(plan, c.snap, a);
    CreditEach(l.balances, m, Ascending(m.Keys), a);
  }

  lemma {:induction false} PayoutsListed(m: RewardMap, keys: seq<Address>, p: Payout)
    requires forall a :: a in keys ==> a in m
    ensures p in PayoutsFor(m, keys) <==> p.account in keys && m[p.account] == p.reward && p.reward.total > 0
  {
    if keys != [] {
      PayoutsListed(m, keys[1..], p);
      assert keys == [keys[0]] + keys[1..];
    }
  }

  lemma {:induction false} PayoutsOrdered(m: RewardMap, keys: seq<Address>)
    requires Ascends(keys) && forall a :: a in keys ==> a in m
    ensures var ps := PayoutsFor(m, keys); forall i, j :: 0 <= i < j < |ps| ==> ps[i].account < ps[j].account
  {
    if keys != [] {
      var rest := PayoutsFor(m, keys[1..]);
      PayoutsOrdered(m, keys[1..]);
      forall i | 0 <= i < |rest|
        ensures keys[0] < rest[i].account
      {
        PayoutsListed(m, keys[1..], rest[i]);
      }
    }
  }

  /** The recorded payouts: one per rewarded account, in address order, each the sum of its three parts. */
  lemma PayoutsSound(accrual: Option<Accrual>, c: Closing)
    ensures var ps := SettlementOf(accrual, c).payouts;
            && (forall i :: 0 <= i < |ps| ==>
                  ps[i].reward.total == ps[i].reward.validators + ps[i].reward.stakers + ps[i].reward.engagement > 0)
            && (forall i, j :: 0 <= i < j < |ps| ==> ps[i].account < ps[j].account)
  {
    var plan := PlanOf(accrual, c);
    var m := RewardsOf(plan, c.snap);
    var ps := SettlementOf(accrual, c).payouts;
    PayoutsOrdered(m, Ascending(m.Keys));
    forall i | 0 <= i < |ps|
      ensures ps[i].reward.total == ps[i].reward.validators + ps[i].reward.stakers + ps[i].reward.engagement > 0
    {
      PayoutsListed(m, Ascending(m.Keys), ps[i]);
      RewardsSplit(plan, c.snap, ps[i].account);
    }
  }

  // ---------- the retained history ----------

  /** The closing is recorded, and therefore paid. */
  predicate Records(l: Ledger, c: Closing) { c.snap.epoch != 0 && !Settled(l.history, c.snap.epoch) }

  predicate IsNew(history: seq<Settlement>, s: Settlement) { s.epoch != 0 && !Settled(history, s.epoch) }

  /** The history once a settlement has been offered to it. */
  function Noted(history: seq<Settlement>, s: Settlement, limit: nat): seq<Settlement> {
    if IsNew(history, s) then Prune(history + [s], limit) else history
  }

  function NotedAll(history: seq<Settlement>, ns: seq<Settlement>, limit: nat): seq<Settlement>
    decreases |ns|
  {
    if ns == [] then history else NotedAll(Noted(history, ns[0], limit), ns[1..], limit)
  }

  /** The settlement each closing of a run offers. */
  ghost function Notes(l: Ledger, cs: seq<Closing>, limit: nat): seq<Settlement>
    decreases |cs|
  {
    if cs == [] then [] else [SettlementOf(l.accrual, cs[0])] + Notes(Settle(l, cs[0], limit), cs[1..], limit)
  }

  lemma StepNoted(l: Ledger, c: Closing, limit: nat)
    ensures Settle(l, c, limit).history == Noted(l.history, SettlementOf(l.accrual, c), limit)
    ensures SettlementOf(l.accrual, c).epoch == c.snap.epoch
  {
  }

  lemma {:induction false} RunNoted(l: Ledger, cs: seq<Closing>, limit: nat)
    ensures Run(l, cs, limit).history == NotedAll(l.history, Notes(l, cs, limit), limit)
    ensures |Notes(l, cs, limit)| == |cs|
    ensures forall i :: 0 <= i < |cs| ==> Notes(l, cs, limit)[i].epoch == cs[i].snap.epoch
    decreases |cs|
  {
    if cs != [] {
      StepNoted(l, cs[0], limit);
      RunNoted(Settle(l, cs[0], limit), cs[1..], limit);
    }
  }

  ghost predicate OncePerEpoch(history: seq<Settlement>) {
    forall i, j :: 0 <= i < j < |history| ==> history[i].epoch != history[j].epoch
  }

  lemma NotedOnce(history: seq<Settlement>, s: Settlement, limit: nat)
    requires OncePerEpoch(history)
    ensures OncePerEpoch(Noted(history, s, limit))
  {
    if IsNew(history, s) {
      assert OncePerEpoch(history + [s]);
    }
  }

  // ---------- what runs mint ----------

  /** What the recorded closings of a run pay. */
  ghost function RunPaid(l: Ledger, cs: seq<Closing>, limit: nat): nat
    decreases |cs|
  {
    if cs == [] then 0
    else (if Records(l, cs[0]) then SettlementOf(l.accrual, cs[0]).paidTotal else 0) + RunPaid(Settle(l, cs[0], limit), cs[1..], limit)
  }

  ghost function HistoryPaid(history: seq<Settlement>): int {
    if history == [] then 0 else history[0].paidTotal + HistoryPaid(history[1..])
  }

  lemma {:induction false} HistoryPaidAppend(history: seq<Settlement>, s: Settlement)
    ensures HistoryPaid(history + [s]) == HistoryPaid(history) + s.paidTotal
  {
    if history == [] {
      assert history + [s] == [s];
    } else {
      assert (history + [s])[1..] == history[1..] + [s];
      HistoryPaidAppend(history[1..], s);
    }
  }

  /** A closing mints what it records. */
  lemma StepMints(l: Ledger, c: Closing, limit: nat)
    ensures Coins(Settle(l, c, limit).balances)
            == Coins(l.balances) + if Records(l, c) then SettlementOf(l.accrual, c).paidTotal else 0
  {
    if Records(l, c) {
      SettlementBooks(l, c, limit);
    }
  }

  /** Every run mints exactly what its recorded closings pay; with the full history kept, the history records all of it. */
  lemma {:induction false} RunConserves(l: Ledger, cs: seq<Closing>, limit: nat)
    ensures Coins(Run(l, cs, limit).balances) == Coins(l.balances) + RunPaid(l, cs, limit)
    ensures limit == 0 ==> HistoryPaid(Run(l, cs, limit).history) == HistoryPaid(l.history) + RunPaid(l, cs, limit)
    decreases |cs|
  {
    if cs != [] {
      StepMints(l, cs[0], limit);
      HistoryPaidAppend(l.history, SettlementOf(l.accrual, cs[0]));
      RunConserves(Settle(l, cs[0], limit), cs[1..], limit);
    }
  }

  // ---------- closing an epoch again ----------

  /** How many of the offered settlements are recorded. */
  ghost function NewCount(history: seq<Settlement>, ns: seq<Settlement>, limit: nat): nat
    decreases |ns|
  {
    if ns == [] then 0 else (if IsNew(history, ns[0]) then 1 else 0) + NewCount(Noted(history, ns[0], limit), ns[1..], limit)
  }

  /** How many closings of the run are recorded. */
  ghost function Recorded(l: Ledger, cs: seq<Closing>, limit: nat): nat { NewCount(l.history, Notes(l, cs, limit), limit) }

  /** The epoch is the `d`-th newest of the history, which is within its limit. */
  ghost predicate HeldAt(history: seq<Settlement>, epoch: nat, d: nat, limit: nat) {
    && OncePerEpoch(history) && (limit > 0 ==> |history| <= limit)
    && d < |history| && history[|history| - 1 - d].epoch == epoch
  }

  lemma HeldSettled(history: seq<Settlement>, epoch: nat, d: nat, limit: nat)
    requires HeldAt(history, epoch, d, limit)
    ensures Settled(history, epoch) && (limit > 0 ==> d < limit)
  {
    assert history[|history| - 1 - d].epoch == epoch;
  }

  lemma NotedHolds(history: seq<Settlement>, s: Settlement, limit: nat, epoch: nat, d: nat)
    requires HeldAt(history, epoch, d, limit) && IsNew(history, s)
    ensures var history' := Noted(history, s, limit);
            if limit == 0 || d + 1 < limit then HeldAt(history', epoch, d + 1, limit) else !Settled(history', epoch)
  {
    NotedOnce(history, s, limit);
    HeldSettled(history, epoch, d, limit);
    var history' := Noted(history, s, limit);
    if limit == 0 || d + 1 < limit {
      assert history'[|history'| - 1 - (d + 1)].epoch == epoch;
    } else {
      assert history' == history[1..] + [s];
    }
  }

  lemma NotedStaysOut(history: seq<Settlement>, s: Settlement, limit: nat, epoch: nat)
    requires !Settled(history, epoch) && s.epoch != epoch
    ensures !Settled(Noted(history, s, limit), epoch)
  {
    var all := history + [s];
    assert forall i :: 0 <= i < |all| ==> all[i].epoch != epoch;
  }

  /** The epoch is in the history before, between and after the offered settlements. */
  ghost predicate AlwaysSettled(history: seq<Settlement>, ns: seq<Settlement>, limit: nat, epoch: nat)
    decreases |ns|
  {
    Settled(history, epoch) && (ns != [] ==> AlwaysSettled(Noted(history, ns[0], limit), ns[1..], limit, epoch))
  }

  /** A recorded epoch stays in the history exactly until the limit's worth of newer ones is recorded. */
  lemma {:induction false} HeldExactly(history: seq<Settlement>, ns: seq<Settlement>, limit: nat, epoch: nat, d: nat)
    requires HeldAt(history, epoch, d, limit)
    ensures AlwaysSettled(history, ns, limit, epoch) <==> limit == 0 || d + NewCount(history, ns, limit) < limit
    decreases |ns|
  {
    HeldSettled(history, epoch, d, limit);
    if ns != [] {
      var history' := Noted(history, ns[0], limit);
      if !IsNew(history, ns[0]) {
        HeldExactly(history', ns[1..], limit, epoch, d);
      } else {
        NotedHolds(history, ns[0], limit, epoch, d);
        if limit == 0 || d + 1 < limit {
          HeldExactly(history', ns[1..], limit, epoch, d + 1);
        }
      }
    }
  }

  /** The epochs recorded among the offered settlements, in order. */
  ghost function NewEpochs(history: seq<Settlement>, ns: seq<Settlement>, limit: nat): seq<nat>
    decreases |ns|
  {
    if ns == [] then []
    else if IsNew(history, ns[0]) then [ns[0].epoch] + NewEpochs(Noted(history, ns[0], limit), ns[1..], limit)
    else NewEpochs(history, ns[1..], limit)
  }

  /** The epochs a run records, in order. */
  ghost function Recordings(l: Ledger, cs: seq<Closing>, limit: nat): seq<nat> {
    NewEpochs(l.history, Notes(l, cs, limit), limit)
  }

  lemma {:induction false} StaysOut(history: seq<Settlement>, ns: seq<Settlement>, limit: nat, epoch: nat)
    requires epoch != 0 && !Settled(history, epoch) && epoch !in NewEpochs(history, ns, limit)
    ensures !Settled(NotedAll(history, ns, limit), epoch)
    decreases |ns|
  {
    if ns != [] {
      assert IsNew(history, ns[0]) ==> ns[0].epoch in NewEpochs(history, ns, limit);
      NotedStaysOut(history, ns[0], limit, epoch);
      StaysOut(Noted(history, ns[0], limit), ns[1..], limit, epoch);
    }
  }

  /** An epoch that is not recorded again is in the history at the end exactly when it never left it. */
  lemma {:induction false} NeverBack(history: seq<Settlement>, ns: seq<Settlement>, limit: nat, epoch: nat)
    requires epoch != 0 && epoch !in NewEpochs(history, ns, limit)
    ensures AlwaysSettled(history, ns, limit, epoch) <==> Settled(history, epoch) && Settled(NotedAll(history, ns, limit), epoch)
    decreases |ns|
  {
    if ns != [] {
      var history' := Noted(history, ns[0], limit);
      NeverBack(history', ns[1..], limit, epoch);
      if !Settled(history', epoch) {
        StaysOut(history', ns[1..], limit, epoch);
      }
    }
  }

  lemma RecordedHeld(l: Ledger, c: Closing, limit: nat)
    requires OncePerEpoch(l.history) && Records(l, c)
    ensures HeldAt(Settle(l, c, limit).history, c.snap.epoch, 0, limit)
  {
    StepNoted(l, c, limit);
    NotedHeld(l.history, SettlementOf(l.accrual, c), limit);
  }

  lemma NotedHeld(history: seq<Settlement>, s: Settlement, limit: nat)
    requires OncePerEpoch(history) && IsNew(history, s)
    ensures HeldAt(Noted(history, s, limit), s.epoch, 0, limit)
  {
    NotedOnce(history, s, limit);
  }

  /**
   Closing an epoch again, when no closing since the last recorded one was recorded for it,
   is recorded and paid again exactly when the history is limited and that many others were.
   */
  lemma RepeatExactly(l: Ledger, c: Closing, between: seq<Closing>, again: Closing, limit: nat)
    requires OncePerEpoch(l.history) && Records(l, c) && again.snap.epoch == c.snap.epoch
    requires c.snap.epoch !in Recordings(Settle(l, c, limit), between, limit)
    ensures var l1 := Settle(l, c, limit);
            var l2 := Run(l1, between, limit);
            var repeats := limit > 0 && Recorded(l1, between, limit) >= limit;
            && (Records(l2, again) <==> repeats)
            && Coins(Settle(l2, again, limit).balances) - Coins(l2.balances)
               == if repeats then PaidBy(PlanOf(l2.accrual, again), again.snap).Sum() else 0
  {
    var l1 := Settle(l, c, limit);
    RecordedHeld(l, c, limit);
    HeldSettled(l1.history, c.snap.epoch, 0, limit);
    NeverBack(l1.history, Notes(l1, between, limit), limit, c.snap.epoch);
    HeldExactly(l1.history, Notes(l1, between, limit), limit, c.snap.epoch, 0);
    RunNoted(l1, between, limit);
    StepMints(Run(l1, between, limit), again, limit);
  }

  ghost predicate Distinct(epochs: seq<nat>) { forall i, j :: 0 <= i < j < |epochs| ==> epochs[i] != epochs[j] }

  lemma FullHistoryKeeps(history: seq<Settlement>, s: Settlement, epoch: nat)
    requires Settled(history, epoch) || (IsNew(history, s) && s.epoch == epoch)
    ensures Settled(Noted(history, s, 0), epoch)
  {
    var history' := Noted(history, s, 0);
    if Settled(history, epoch) {
      var i :| 0 <= i < |history| && history[i].epoch == epoch;
      assert history'[i].epoch == epoch;
    } else {
      assert history'[|history|].epoch == epoch;
    }
  }

  lemma {:induction false} FullHistoryOnce(history: seq<Settlement>, ns: seq<Settlement>)
    ensures Distinct(NewEpochs(history, ns, 0)) && forall e :: e in NewEpochs(history, ns, 0) ==> !Settled(history, e)
    decreases |ns|
  {
    if ns != [] {
      var history' := Noted(history, ns[0], 0);
      FullHistoryOnce(history', ns[1..]);
      forall e | e in NewEpochs(history', ns[1..], 0)
        ensures !Settled(history, e) && (IsNew(history, ns[0]) ==> e != ns[0].epoch)
      {
        if Settled(history, e) || (IsNew(history, ns[0]) && e == ns[0].epoch) {
          FullHistoryKeeps(history, ns[0], e);
        }
      }
    }
  }

  ghost predicate Rises(ns: seq<Settlement>) { forall i, j :: 0 <= i < j < |ns| ==> ns[i].epoch < ns[j].epoch }

  lemma {:induction false} RisingOnce(history: seq<Settlement>, ns: seq<Settlement>, limit: nat, floor: int)
    requires Rises(ns) && (ns != [] ==> floor < ns[0].epoch)
    ensures Distinct(NewEpochs(history, ns, limit)) && forall e :: e in NewEpochs(history, ns, limit) ==> floor < e
    decreases |ns|
  {
    if ns != [] {
      var rest := NewEpochs(Noted(history, ns[0], limit), ns[1..], limit);
      RisingOnce(Noted(history, ns[0], limit), ns[1..], limit, ns[0].epoch);
      assert forall i :: 0 <= i < |rest| ==> rest[i] in rest;
    }
  }

  ghost predicate Rising(cs: seq<Closing>) { forall i, j :: 0 <= i < j < |cs| ==> cs[i].snap.epoch < cs[j].snap.epoch }

  /** No epoch is recorded twice by a run that keeps the full history, or whose epochs rise. */
  lemma RecordedOnce(l: Ledger, cs: seq<Closing>, limit: nat)
    requires limit == 0 || Rising(cs)
    ensures Distinct(Recordings(l, cs, limit))
  {
    if limit == 0 {
      FullHistoryOnce(l.history, Notes(l, cs, limit));
    } else {
      RunNoted(l, cs, limit);
      RisingOnce(l.history, Notes(l, cs, limit), limit, -1);
    }
  }

  /** A closing of an epoch that pays 5 to one validator. */
  function FiveTo(epoch: nat, a: Address): Closing {
    Closing(Snapshot(epoch, epoch, 0, [], [a]), Plan(5, 0, 0), 1)
  }

  /** From a ledger with room for one settlement, one more epoch pays 5 and replaces the one before. */
  ghost predicate PaysFive(l: Ledger, l': Ledger, epoch: nat) {
    && Coins(l'.balances) == Coins(l.balances) + 5
    && l'.accrual == None && |l'.history| == 1 && l'.history[0].epoch == epoch
  }

  lemma FivePaid(l: Ledger, epoch: nat)
    requires epoch != 0 && l.accrual == None && |l.history| <= 1 && !Settled(l.history, epoch)
    ensures PaysFive(l, Settle(l, FiveTo(epoch, 1), 1), epoch)
  {
    FiveTotal(epoch);
    StepMints(l, FiveTo(epoch, 1), 1);
  }

  lemma FiveTotal(epoch: nat)
    ensures SettlementOf(None, FiveTo(epoch, 1)).paidTotal == 5
  {
    var c := FiveTo(epoch, 1);
    PoolsExact(c.configured, c.snap);
    assert 1 in Recipients([1]) by { assert [1][0] == 1; }
    assert StakeClaims([]) == [] && EngagementClaims([]) == [];
  }

  lemma FivePaidAfter(l0: Ledger, l: Ledger, before: nat, epoch: nat)
    requires epoch != 0 && PaysFive(l0, l, before) && before != epoch
    ensures PaysFive(l, Settle(l, FiveTo(epoch, 1), 1), epoch)
  {
    FivePaid(l, epoch);
  }

  /** With room for one settlement, closing epochs 1, 2 and 1 pays epoch 1 twice. */
  lemma PrunedPaysTwice(l0: Ledger, l1: Ledger, l2: Ledger, l3: Ledger)
    requires l0 == Ledger(map[], [], None)
    requires l1 == Settle(l0, FiveTo(1, 1), 1) && l2 == Settle(l1, FiveTo(2, 1), 1) && l3 == Settle(l2, FiveTo(1, 1), 1)
    ensures Coins(l3.balances) == 15
  {
    FivePaid(l0, 1);
    FivePaidAfter(l0, l1, 1, 2);
    FivePaidAfter(l1, l2, 2, 1);
    assert Coins(l0.balances) == 0;
  }
}
