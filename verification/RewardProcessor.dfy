/** The settlement as the state processor runs it: accumulators, a reward map and balances updated in loops. */
module RewardProcessor {
  import opened Accounts
  import opened Arithmetic
  import opened Options
  import opened ProRata
  import opened ProRataFairness
  import opened EpochRewards
  import Spec = RewardSettlement
  import opened RewardSettlement

  lemma CollectCons(m: RewardMap, pool: Pool, w: Award, ws: seq<Award>)
    ensures Collect(m, pool, [w] + ws) == Collect(Add(m, pool, w.addr, w.amount), pool, ws)
    ensures AwardTotal([w] + ws) == w.amount + AwardTotal(ws)
  {
    assert ([w] + ws)[1..] == ws;
  }

  lemma {:induction false} CollectConcat(m: RewardMap, pool: Pool, x: seq<Award>, y: seq<Award>)
    ensures Collect(m, pool, x + y) == Collect(Collect(m, pool, x), pool, y)
    decreases |x|
  {
    if x == [] {
      assert x + y == y;
    } else {
      assert (x + y)[1..] == x[1..] + y;
      CollectConcat(Add(m, pool, x[0].addr, x[0].amount), pool, x[1..], y);
    }
  }

  method UniqueRecipients(selected: seq<Address>) returns (unique: set<Address>)
    ensures unique == Recipients(selected)
  {
    unique := {};
    for i := 0 to |selected|
      invariant unique == Recipients(selected[..i])
    {
      assert selected[..i + 1] == selected[..i] + [selected[i]];
      if selected[i] != NO_ADDRESS {
        unique := unique + {selected[i]};
      }
    }
    assert selected[..|selected|] == selected;
  }

  method PayEvenly(keys: seq<Address>, base: nat, odd: nat, m0: RewardMap) returns (distributed: nat, m: RewardMap)
    ensures distributed == AwardTotal(EvenAwards(keys, base, odd))
    ensures m == Collect(m0, ValidatorPool, EvenAwards(keys, base, odd))
  {
    distributed, m := 0, m0;
    var remainder := odd;
    for i := 0 to |keys|
      invariant distributed + AwardTotal(EvenAwards(keys[i..], base, remainder)) == AwardTotal(EvenAwards(keys, base, odd))
      invariant Collect(m, ValidatorPool, EvenAwards(keys[i..], base, remainder))
                == Collect(m0, ValidatorPool, EvenAwards(keys, base, odd))
    {
      assert keys[i..][0] == keys[i] && keys[i..][1..] == keys[i + 1..];
      var amount := base;
      if remainder > 0 {
        amount := amount + 1;
        remainder := remainder - 1;
      }
      ghost var rest := EvenAwards(keys[i + 1..], base, remainder);
      if amount == 0 { continue; }
      CollectCons(m, ValidatorPool, Award(keys[i], amount), rest);
      m := Add(m, ValidatorPool, keys[i], amount);
      distributed := distributed + amount;
    }
  }

  method DistributeValidators(total: nat, selected: seq<Address>, m0: RewardMap) returns (distributed: nat, m: RewardMap)
    ensures distributed == AwardTotal(ValidatorAwards(total, selected))
    ensures m == Collect(m0, ValidatorPool, ValidatorAwards(total, selected))
  {
    distributed, m := 0, m0;
    if total == 0 { return; }
    var unique := UniqueRecipients(selected);
    if |unique| == 0 { return; }
    var keys := Ascending(unique);
    distributed, m := PayEvenly(keys, Base(total, |keys|), Odd(total, |keys|), m0);
  }

  /** Collects the claims that take part and their common denominator. */
  method GatherClaims(claims: seq<Claim>) returns (entries: seq<Claim>, denominator: int)
    ensures entries == Positive(claims) && denominator == Denominator(entries)
  {
    entries, denominator := [], 0;
    for i := 0 to |claims|
      invariant entries + Positive(claims[i..]) == Positive(claims)
      invariant denominator == Denominator(entries)
    {
      assert claims[i..][0] == claims[i] && claims[i..][1..] == claims[i + 1..];
      if claims[i].value > 0 {
        DenominatorConcat(entries, [claims[i]]);
        entries := entries + [claims[i]];
        denominator := denominator + claims[i].value;
      }
    }
  }

  /** The first pass: floors are paid and remainders noted. */
  method PayFloors(total: nat, entries: seq<Claim>, d: int, pool: Pool, m0: RewardMap)
    returns (distributed: nat, m: RewardMap, remainders: seq<Remainder>)
    requires Valued(entries) && d > 0
    ensures distributed == AwardTotal(Floors(total, entries, d))
    ensures m == Collect(m0, pool, Floors(total, entries, d))
    ensures remainders == Remainders(total, entries, d)
  {
    distributed, m, remainders := 0, m0, [];
    for i := 0 to |entries|
      invariant distributed + AwardTotal(Floors(total, entries[i..], d)) == AwardTotal(Floors(total, entries, d))
      invariant Collect(m, pool, Floors(total, entries[i..], d)) == Collect(m0, pool, Floors(total, entries, d))
      invariant remainders == Remainders(total, entries, d)[..i]
    {
      assert entries[i..][0] == entries[i] && entries[i..][1..] == entries[i + 1..];
      var share, remainder := Share(total, entries[i].value, d), Rest(total, entries[i].value, d);
      ghost var rest := Floors(total, entries[i + 1..], d);
      if share > 0 {
        CollectCons(m, pool, Award(entries[i].addr, share), rest);
        m := Add(m, pool, entries[i].addr, share);
        distributed := distributed + share;
      }
      remainders := remainders + [Remainder(entries[i].addr, remainder)];
    }
  }

  /** The second pass, one unit at a time; `units` says how many could not be placed. */
  method PayBonus(sorted: seq<Remainder>, leftover: nat, pool: Pool, m0: RewardMap)
    returns (distributed: nat, m: RewardMap, units: nat)
    requires leftover <= NonZero(sorted)
    ensures distributed == AwardTotal(Bonus(sorted, leftover))
    ensures m == Collect(m0, pool, Bonus(sorted, leftover))
    ensures units == 0
  {
    distributed, m, units := 0, m0, leftover;
    var j := 0;
    while j < |sorted|
      invariant 0 <= j <= |sorted| && units <= NonZero(sorted[j..])
      invariant distributed + AwardTotal(Bonus(sorted[j..], units)) == AwardTotal(Bonus(sorted, leftover))
      invariant Collect(m, pool, Bonus(sorted[j..], units)) == Collect(m0, pool, Bonus(sorted, leftover))
    {
      assert sorted[j..][0] == sorted[j] && sorted[j..][1..] == sorted[j + 1..];
      if units == 0 { break; }
      j := j + 1;
      if sorted[j - 1].remainder == 0 { continue; }
      CollectCons(m, pool, Award(sorted[j - 1].addr, 1), Bonus(sorted[j..], units - 1));
      m := Add(m, pool, sorted[j - 1].addr, 1);
      distributed := distributed + 1;
      units := units - 1;
    }
  }

  /**
   The apportionment of one pool. The leftover fits the 64-bit counter it is
   converted to, and the fallback pass for units the second pass could not place
   is never entered.
   */
  method DistributeProRata(total: nat, claims: seq<Claim>, pool: Pool, m0: RewardMap) returns (distributed: nat, m: RewardMap)
    requires |claims| < UINT64
    ensures distributed == AwardTotal(Awards(total, claims))
    ensures m == Collect(m0, pool, Awards(total, claims))
  {
    distributed, m := 0, m0;
    if total == 0 { return; }
    var entries, d := GatherClaims(claims);
    if d == 0 || entries == [] {
      DenominatorPositive(entries);
      return;
    }
    LeftoverBound(total, entries);
    var remainders;
    distributed, m, remainders := PayFloors(total, entries, d, pool, m0);
    ghost var floors := Floors(total, entries, d);
    assert floors + [] == floors;
    var leftover := total - distributed;
    if leftover > 0 {
      NonZeroBound(remainders);
      NonZeroSort(remainders);
      var sorted := Sort(remainders);
      var leftoverUnits := leftover % UINT64;
      assert leftoverUnits == leftover;
      AwardTotalConcat(floors, Bonus(sorted, leftover));
      CollectConcat(m0, pool, floors, Bonus(sorted, leftover));
      var extra;
      extra, m, leftoverUnits := PayBonus(sorted, leftoverUnits, pool, m);
      distributed := distributed + extra;
      if leftoverUnits > 0 {
        assert false;
      }
    }
  }

  lemma {:induction false} NonZeroBound(rs: seq<Remainder>)
    ensures NonZero(rs) <= |rs|
  {
    if rs != [] {
      NonZeroBound(rs[1..]);
    }
  }

  class Processor {
    const historyLength: nat
    const epochLength: nat
    var balances: Balances
    var history: seq<Settlement>
    var accrual: Option<Accrual>

    constructor (historyLength: nat, epochLength: nat, balances: Balances)
      ensures View() == Ledger(balances, [], None) && fresh(this)
      ensures this.historyLength == historyLength && this.epochLength == epochLength
    {
      this.historyLength, this.epochLength, this.balances := historyLength, epochLength, balances;
      history, accrual := [], None;
    }

    ghost function View(): Ledger
      reads this
    {
      Ledger(balances, history, accrual)
    }

    /** Credits the rewarded accounts in the given order and lists the payouts. */
    method CreditKeys(m: RewardMap, keys: seq<Address>) returns (payouts: seq<Payout>)
      requires forall a :: a in keys ==> a in m
      modifies this`balances
      ensures balances == CreditAll(old(balances), m, keys)
      ensures payouts == PayoutsFor(m, keys)
    {
      payouts := [];
      for i := 0 to |keys|
        invariant CreditAll(balances, m, keys[i..]) == CreditAll(old(balances), m, keys)
        invariant payouts + PayoutsFor(m, keys[i..]) == PayoutsFor(m, keys)
      {
        assert keys[i..][0] == keys[i] && keys[i..][1..] == keys[i + 1..];
        var reward := m[keys[i]];
        if reward.total == 0 { continue; }
        balances := balances[keys[i] := BalanceOf(balances, keys[i]) + reward.total];
        payouts := payouts + [Payout(keys[i], reward)];
      }
    }

    method ApplyRewards(m: RewardMap) returns (payouts: seq<Payout>)
      modifies this`balances
      ensures balances == CreditAll(old(balances), m, Ascending(m.Keys))
      ensures payouts == PayoutsFor(m, Ascending(m.Keys))
    {
      payouts := CreditKeys(m, Ascending(m.Keys));
    }

    method PruneHistory()
      modifies this`history
      ensures history == Prune(old(history), historyLength)
    {
      if historyLength == 0 { return; }
      if |history| <= historyLength { return; }
      history := history[|history| - historyLength..];
    }

    method FindSettlement(epoch: nat) returns (found: bool)
      ensures found == Settled(history, epoch)
    {
      found := false;
      for i := 0 to |history|
        invariant forall j :: 0 <= j < i ==> history[j].epoch != epoch
      {
        if history[i].epoch == epoch { return true; }
      }
    }

    method Settle(snap: Snapshot, configured: Plan)
      requires |snap.weights| < UINT64
      modifies this
      ensures View() == Spec.Settle(old(View()), Closing(snap, configured, epochLength), historyLength)
    {
      if snap.epoch == 0 { return; }
      var done := FindSettlement(snap.epoch);
      if done {
        accrual := None;
        return;
      }
      var plan, blocks := configured, epochLength;
      if accrual.Some? && accrual.value.epoch == snap.epoch {
        plan := accrual.value.plan;
        if accrual.value.blocksProcessed > 0 { blocks := accrual.value.blocksProcessed; }
      }
      var validatorPaid, v := DistributeValidators(plan.validators, snap.selected, map[]);
      var stakerPaid, s := DistributeProRata(plan.stakers, StakeClaims(snap.weights), StakerPool, v);
      var engagementPaid, m := DistributeProRata(plan.engagement, EngagementClaims(snap.weights), EngagementPool, s);
      var payouts := ApplyRewards(m);
      var paid := Plan(validatorPaid, stakerPaid, engagementPaid);
      history := history + [Settlement(snap.epoch, snap.height, snap.finalizedAt, blocks,
                                       plan.Sum(), paid.Sum(), plan, paid, payouts)];
      PruneHistory();
      accrual := None;
    }
  }
}
