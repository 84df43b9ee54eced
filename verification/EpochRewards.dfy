/**
 Settlement of an epoch: the three reward pools are apportioned, collected per
 account and credited, and the settlement is recorded.
 */
module EpochRewards {
  import opened Accounts
  import opened Arithmetic
  import opened Sums
  import opened ProRata
  import opened ProRataFairness

  const SPLIT_DENOMINATOR: nat := 10_000

  datatype Weight = Weight(addr: Address, stake: int, engagement: nat)

  datatype Snapshot = Snapshot(epoch: nat, height: nat, finalizedAt: int, weights: seq<Weight>, selected: seq<Address>)

  datatype AccountReward = AccountReward(total: nat, validators: nat, stakers: nat, engagement: nat)

  type RewardMap = map<Address, AccountReward>

  datatype Pool = ValidatorPool | StakerPool | EngagementPool

  datatype Plan = Plan(validators: nat, stakers: nat, engagement: nat) {
    function Sum(): nat { validators + stakers + engagement }
  }

  datatype Payout = Payout(account: Address, reward: AccountReward)

  datatype Settlement = Settlement(
    epoch: nat, height: nat, closedAt: int, blocks: nat,
    plannedTotal: nat, paidTotal: nat, planned: Plan, paid: Plan, payouts: seq<Payout>)

  /** The plan fixed when the epoch's first block was accrued. */
  datatype Accrual = Accrual(epoch: nat, blocksProcessed: nat, plan: Plan)

  /** Basis points of the emission for each pool. */
  datatype Split = Split(validators: nat, stakers: nat, engagement: nat)

  // ---------- planning ----------

  function Portion(total: nat, bps: nat): nat { total * bps / SPLIT_DENOMINATOR }

  /** Splits the emission; rounding dust goes to the engagement pool. */
  function SplitEmission(total: nat, split: Split): Plan {
    var v, s, e := Portion(total, split.validators), Portion(total, split.stakers), Portion(total, split.engagement);
    if v + s + e < total then Plan(v, s, total - v - s) else Plan(v, s, e)
  }

  /** As long as the basis points do not exceed the whole, the plan is exactly the emission. */
  lemma SplitConserves(total: nat, split: Split)
    requires split.validators + split.stakers + split.engagement <= SPLIT_DENOMINATOR
    ensures SplitEmission(total, split).Sum() == total
  {
    var a, b, c := split.validators, split.stakers, split.engagement;
    var d := SPLIT_DENOMINATOR;
    assert total * a + total * b + total * c == total * (a + b + c);
    Mono(a + b + c, d, if total == 0 then 1 else total);
    assert Portion(total, a) * d <= total * a && Portion(total, b) * d <= total * b && Portion(total, c) * d <= total * c;
  }

  // ---------- the validator pool ----------

  predicate IsLeast(m: Address, s: set<Address>) {
    m in s && forall b :: b in s ==> m <= b
  }

  lemma {:induction false} LeastExists(s: set<Address>)
    requires s != {}
    ensures exists m :: IsLeast(m, s)
    decreases |s|
  {
    var x :| x in s;
    if s == {x} {
      assert IsLeast(x, s);
    } else {
      LeastExists(s - {x});
      var m :| IsLeast(m, s - {x});
      assert forall b :: b in s ==> b == x || b in s - {x};
      assert IsLeast(if m <= x then m else x, s);
    }
  }

  function Least(s: set<Address>): (m: Address)
    requires s != {}
    ensures IsLeast(m, s)
  {
    LeastExists(s);
    var m :| IsLeast(m, s);
    m
  }

  ghost predicate Ascends(keys: seq<Address>) {
    forall i, j :: 0 <= i < j < |keys| ==> keys[i] < keys[j]
  }

  /** The keys of a map in the order the code sorts them. */
  function Ascending(s: set<Address>): (keys: seq<Address>)
    ensures forall a :: a in keys <==> a in s
    ensures Ascends(keys)
    ensures |keys| == |s|
    decreases |s|
  {
    if s == {} then []
    else
      var m := Least(s);
      var rest := Ascending(s - {m});
      AscendingCons(s, m, rest);
      [m] + rest
  }

  lemma AscendingCons(s: set<Address>, m: Address, rest: seq<Address>)
    requires IsLeast(m, s) && Ascends(rest) && forall a :: a in rest <==> a in s - {m}
    ensures Ascends([m] + rest) && forall a :: a in [m] + rest <==> a in s
  {
    forall i | 0 <= i < |rest|
      ensures m < rest[i]
    {
      assert rest[i] in rest;
    }
  }

  function Recipients(selected: seq<Address>): set<Address> {
    set a | a in selected && a != NO_ADDRESS
  }

  /** Equal shares in key order; the first `extra` keys get one unit more. */
  function EvenAwards(keys: seq<Address>, base: nat, extra: nat): seq<Award> {
    if keys == [] then []
    else
      var amount := if extra > 0 then base + 1 else base;
      var rest := EvenAwards(keys[1..], base, if extra > 0 then extra - 1 else 0);
      if amount > 0 then [Award(keys[0], amount)] + rest else rest
  }

  function Base(total: nat, count: nat): nat
    requires count > 0
  {
    total / count
  }

  function Odd(total: nat, count: nat): (r: nat)
    requires count > 0
    ensures r < count && Base(total, count) * count + r == total
  {
    total % count
  }

  function ValidatorAwards(total: nat, selected: seq<Address>): seq<Award> {
    var keys := Ascending(Recipients(selected));
    if total == 0 || keys == [] then [] else EvenAwards(keys, Base(total, |keys|), Odd(total, |keys|))
  }

  lemma {:induction false} EvenTotal(keys: seq<Address>, base: nat, extra: nat)
    requires extra <= |keys|
    ensures AwardTotal(EvenAwards(keys, base, extra)) == base * |keys| + extra
  {
    if keys != [] {
      var extra' := if extra > 0 then extra - 1 else 0;
      EvenTotal(keys[1..], base, extra');
      assert base * |keys| == base + base * (|keys| - 1);
      if extra > 0 || base > 0 {
        assert EvenAwards(keys, base, extra)[1..] == EvenAwards(keys[1..], base, extra');
      }
    }
  }

  lemma EvenExact(keys: seq<Address>, total: nat)
    requires keys != []
    ensures AwardTotal(EvenAwards(keys, Base(total, |keys|), Odd(total, |keys|))) == total
  {
    EvenTotal(keys, Base(total, |keys|), Odd(total, |keys|));
  }

  /** The validator pool is paid out exactly when somebody was selected. */
  lemma ValidatorsExact(total: nat, selected: seq<Address>)
    ensures AwardTotal(ValidatorAwards(total, selected)) == if Recipients(selected) == {} then 0 else total
  {
    var keys := Ascending(Recipients(selected));
    if keys != [] {
      EvenExact(keys, total);
      assert keys[0] in Recipients(selected);
    }
  }

  lemma EvenCredit(keys: seq<Address>, base: nat, extra: nat, a: Address)
    requires keys != []
    ensures Credit(EvenAwards(keys, base, extra), a)
            == (if keys[0] == a then (if extra > 0 then base + 1 else base) else 0)
               + Credit(EvenAwards(keys[1..], base, if extra > 0 then extra - 1 else 0), a)
  {
    if extra > 0 || base > 0 {
      assert EvenAwards(keys, base, extra)[1..] == EvenAwards(keys[1..], base, if extra > 0 then extra - 1 else 0);
    }
  }

  lemma {:induction false} EvenAbsent(keys: seq<Address>, base: nat, extra: nat, a: Address)
    requires a !in keys
    ensures Credit(EvenAwards(keys, base, extra), a) == 0
  {
    if keys != [] {
      EvenCredit(keys, base, extra, a);
      EvenAbsent(keys[1..], base, if extra > 0 then extra - 1 else 0, a);
    }
  }

  lemma {:induction false} EvenShare(keys: seq<Address>, base: nat, extra: nat, i: nat)
    requires Ascends(keys) && i < |keys|
    ensures Credit(EvenAwards(keys, base, extra), keys[i]) == if i < extra then base + 1 else base
  {
    var extra' := if extra > 0 then extra - 1 else 0;
    EvenCredit(keys, base, extra, keys[i]);
    if i == 0 {
      EvenAbsent(keys[1..], base, extra', keys[0]);
    } else {
      EvenShare(keys[1..], base, extra', i - 1);
    }
  }

  /** Each selected validator gets an equal share; those with the smallest addresses get the odd units. */
  lemma ValidatorsEven(total: nat, selected: seq<Address>, i: nat)
    requires total > 0 && i < |Ascending(Recipients(selected))|
    ensures var keys := Ascending(Recipients(selected));
            Credit(ValidatorAwards(total, selected), keys[i])
            == Base(total, |keys|) + (if i < Odd(total, |keys|) then 1 else 0)
  {
    var keys := Ascending(Recipients(selected));
    EvenShare(keys, Base(total, |keys|), Odd(total, |keys|), i);
  }

  // ---------- collecting rewards per account ----------

  const NOTHING: AccountReward := AccountReward(0, 0, 0, 0)

  function Add(m: RewardMap, pool: Pool, a: Address, amount: nat): RewardMap {
    if amount == 0 then m
    else
      var r := Lookup(m, a, NOTHING);
      m[a := match pool
             case ValidatorPool => r.(validators := r.validators + amount, total := r.total + amount)
             case StakerPool => r.(stakers := r.stakers + amount, total := r.total + amount)
             case EngagementPool => r.(engagement := r.engagement + amount, total := r.total + amount)]
  }

  function Collect(m: RewardMap, pool: Pool, ws: seq<Award>): RewardMap
    decreases |ws|
  {
    if ws == [] then m else Collect(Add(m, pool, ws[0].addr, ws[0].amount), pool, ws[1..])
  }

  function StakeClaims(ws: seq<Weight>): (cs: seq<Claim>)
    ensures |cs| == |ws|
  {
    seq(|ws|, i requires 0 <= i < |ws| => Claim(ws[i].addr, ws[i].stake))
  }

  function EngagementClaims(ws: seq<Weight>): (cs: seq<Claim>)
    ensures |cs| == |ws|
  {
    seq(|ws|, i requires 0 <= i < |ws| => Claim(ws[i].addr, ws[i].engagement))
  }

  function RewardsOf(plan: Plan, snap: Snapshot): RewardMap {
    var v := Collect(map[], ValidatorPool, ValidatorAwards(plan.validators, snap.selected));
    var s := Collect(v, StakerPool, Awards(plan.stakers, StakeClaims(snap.weights)));
    Collect(s, EngagementPool, Awards(plan.engagement, EngagementClaims(snap.weights)))
  }

  function PaidBy(plan: Plan, snap: Snapshot): Plan {
    Plan(AwardTotal(ValidatorAwards(plan.validators, snap.selected)),
         AwardTotal(Awards(plan.stakers, StakeClaims(snap.weights))),
         AwardTotal(Awards(plan.engagement, EngagementClaims(snap.weights))))
  }

  function Part(r: AccountReward, pool: Pool): nat {
    match pool
    case ValidatorPool => r.validators
    case StakerPool => r.stakers
    case EngagementPool => r.engagement
  }

  ghost predicate Balanced(m: RewardMap) {
    forall a :: a in m ==> m[a].total == m[a].validators + m[a].stakers + m[a].engagement
  }

  ghost function RewardTotals(m: RewardMap): map<Address, int> { map a | a in m :: m[a].total }

  ghost function RewardTotal(m: RewardMap): int { Total<Address>(RewardTotals(m)) }

  /** A pool's calls reach the accounts they name, in that pool's column only, and keep the columns adding up. */
  lemma {:induction false} CollectParts(m: RewardMap, pool: Pool, ws: seq<Award>, a: Address, q: Pool)
    ensures Part(Lookup(Collect(m, pool, ws), a, NOTHING), q)
            == Part(Lookup(m, a, NOTHING), q) + (if q == pool then Credit(ws, a) else 0)
    ensures Balanced(m) ==> Balanced(Collect(m, pool, ws))
    decreases |ws|
  {
    if ws != [] {
      CollectParts(Add(m, pool, ws[0].addr, ws[0].amount), pool, ws[1..], a, q);
    }
  }

  lemma AddTotal(m: RewardMap, pool: Pool, a: Address, amount: nat)
    ensures RewardTotal(Add(m, pool, a, amount)) == RewardTotal(m) + amount
  {
    if amount > 0 {
      var m' := Add(m, pool, a, amount);
      assert RewardTotals(m') == RewardTotals(m)[a := m'[a].total];
      TotalUpdate<Address>(RewardTotals(m), a, m'[a].total);
    }
  }

  lemma {:induction false} CollectTotal(m: RewardMap, pool: Pool, ws: seq<Award>)
    ensures RewardTotal(Collect(m, pool, ws)) == RewardTotal(m) + AwardTotal(ws)
    decreases |ws|
  {
    if ws != [] {
      AddTotal(m, pool, ws[0].addr, ws[0].amount);
      CollectTotal(Add(m, pool, ws[0].addr, ws[0].amount), pool, ws[1..]);
    }
  }

  /** Every account's reward is what the three apportionments give it, split by pool. */
  lemma RewardsSplit(plan: Plan, snap: Snapshot, a: Address)
    ensures var r := Lookup(RewardsOf(plan, snap), a, NOTHING);
            && r.validators == Credit(ValidatorAwards(plan.validators, snap.selected), a)
            && r.stakers == Credit(Awards(plan.stakers, StakeClaims(snap.weights)), a)
            && r.engagement == Credit(Awards(plan.engagement, EngagementClaims(snap.weights)), a)
            && r.total == r.validators + r.stakers + r.engagement
  {
    var va := ValidatorAwards(plan.validators, snap.selected);
    var sa := Awards(plan.stakers, StakeClaims(snap.weights));
    var ea := Awards(plan.engagement, EngagementClaims(snap.weights));
    var v := Collect(map[], ValidatorPool, va);
    var s := Collect(v, StakerPool, sa);
    forall q: Pool
      ensures Part(Lookup(Collect(s, EngagementPool, ea), a, NOTHING), q)
              == if q == ValidatorPool then Credit(va, a) else if q == StakerPool then Credit(sa, a) else Credit(ea, a)
      ensures Balanced(Collect(s, EngagementPool, ea))
    {
      CollectParts(map[], ValidatorPool, va, a, q);
      CollectParts(v, StakerPool, sa, a, q);
      CollectParts(s, EngagementPool, ea, a, q);
    }
    var r := Lookup(RewardsOf(plan, snap), a, NOTHING);
    assert r.validators == Part(r, ValidatorPool) && r.stakers == Part(r, StakerPool)
           && r.engagement == Part(r, EngagementPool);
  }

  /** The collected rewards add up to what the three pools paid. */
  lemma RewardsTotal(plan: Plan, snap: Snapshot)
    ensures RewardTotal(RewardsOf(plan, snap)) == PaidBy(plan, snap).Sum()
  {
    var va := ValidatorAwards(plan.validators, snap.selected);
    var sa := Awards(plan.stakers, StakeClaims(snap.weights));
    var ea := Awards(plan.engagement, EngagementClaims(snap.weights));
    var v := Collect(map[], ValidatorPool, va);
    CollectTotal(map[], ValidatorPool, va);
    CollectTotal(v, StakerPool, sa);
    CollectTotal(Collect(v, StakerPool, sa), EngagementPool, ea);
    assert RewardTotals(map[]) == map[];
  }

  /** Each pool pays its plan exactly when it has a recipient, and nothing otherwise. */
  lemma PoolsExact(plan: Plan, snap: Snapshot)
    ensures var paid := PaidBy(plan, snap);
            && paid.validators == (if Recipients(snap.selected) == {} then 0 else plan.validators)
            && paid.stakers == (if Positive(StakeClaims(snap.weights)) == [] then 0 else plan.stakers)
            && paid.engagement == (if Positive(EngagementClaims(snap.weights)) == [] then 0 else plan.engagement)
  {
    ValidatorsExact(plan.validators, snap.selected);
    PaysExactly(plan.stakers, StakeClaims(snap.weights));
    PaysExactly(plan.engagement, EngagementClaims(snap.weights));
  }

  // ---------- crediting accounts ----------

  function PayoutsFor(m: RewardMap, keys: seq<Address>): seq<Payout>
    requires forall a :: a in keys ==> a in m
  {
    if keys == [] then []
    else if m[keys[0]].total == 0 then PayoutsFor(m, keys[1..])
    else [Payout(keys[0], m[keys[0]])] + PayoutsFor(m, keys[1..])
  }

  function CreditAll(b: Balances, m: RewardMap, keys: seq<Address>): Balances
    requires forall a :: a in keys ==> a in m
    decreases |keys|
  {
    if keys == [] then b
    else
      CreditAll(if m[keys[0]].total == 0 then b else b[keys[0] := BalanceOf(b, keys[0]) + m[keys[0]].total],
                m, keys[1..])
  }

  ghost function PayoutSum(ps: seq<Payout>): nat {
    if ps == [] then 0 else ps[0].reward.total + PayoutSum(ps[1..])
  }

  lemma PayoutStep(m: RewardMap, keys: seq<Address>)
    requires keys != [] && forall a :: a in keys ==> a in m
    ensures PayoutSum(PayoutsFor(m, keys)) == m[keys[0]].total + PayoutSum(PayoutsFor(m, keys[1..]))
  {
    if m[keys[0]].total > 0 {
      assert PayoutsFor(m, keys)[1..] == PayoutsFor(m, keys[1..]);
    }
  }

  lemma {:induction false} PayoutsFrame(m: RewardMap, m': RewardMap, keys: seq<Address>)
    requires forall a :: a in keys ==> a in m && a in m' && m[a] == m'[a]
    ensures PayoutsFor(m, keys) == PayoutsFor(m', keys)
  {
    if keys != [] {
      PayoutsFrame(m, m', keys[1..]);
    }
  }

  lemma RewardTotalRemove(m: RewardMap, a: Address)
    requires a in m
    ensures RewardTotal(m) == m[a].total + RewardTotal(m - {a})
  {
    assert RewardTotals(m - {a}) == RewardTotals(m) - {a};
    TotalRemove<Address>(RewardTotals(m), a);
  }

  /** The recorded payouts add up to the collected rewards. */
  lemma {:induction false} PayoutsComplete(m: RewardMap, keys: seq<Address>)
    requires Ascends(keys) && forall a :: a in keys <==> a in m
    ensures PayoutSum(PayoutsFor(m, keys)) == RewardTotal(m)
    decreases |keys|
  {
    if keys == [] {
      assert RewardTotals(m).Keys == {};
    } else {
      var m' := m - {keys[0]};
      PayoutStep(m, keys);
      PayoutsFrame(m, m', keys[1..]);
      PayoutsComplete(m', keys[1..]);
      RewardTotalRemove(m, keys[0]);
    }
  }

  /** Crediting mints exactly the recorded payouts. */
  lemma {:induction false} CreditMints(b: Balances, m: RewardMap, keys: seq<Address>)
    requires forall a :: a in keys ==> a in m
    ensures Coins(CreditAll(b, m, keys)) == Coins(b) + PayoutSum(PayoutsFor(m, keys))
    decreases |keys|
  {
    if keys != [] {
      PayoutStep(m, keys);
      CoinsWritten(b, keys[0], BalanceOf(b, keys[0]) + m[keys[0]].total);
      CreditMints(if m[keys[0]].total == 0 then b else b[keys[0] := BalanceOf(b, keys[0]) + m[keys[0]].total], m, keys[1..]);
    }
  }

  /** Each account is credited its own reward, once. */
  lemma {:induction false} CreditEach(b: Balances, m: RewardMap, keys: seq<Address>, a: Address)
    requires Ascends(keys) && forall k :: k in keys ==> k in m
    ensures BalanceOf(CreditAll(b, m, keys), a) == BalanceOf(b, a) + (if a in keys then m[a].total else 0)
    decreases |keys|
  {
    if keys != [] {
      CreditEach(if m[keys[0]].total == 0 then b else b[keys[0] := BalanceOf(b, keys[0]) + m[keys[0]].total], m, keys[1..], a);
    }
  }
}
