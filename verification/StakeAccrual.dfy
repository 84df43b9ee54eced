/** Index accrual: many small roundings against one, for accounts and for the index itself. */
module StakeAccrual {
  import opened Accounts
  import opened Arithmetic
  import opened Delegation

  // ---------- rounding a product down in several steps ----------

  function Floor(m: nat, x: nat, unit: nat): nat
    requires unit > 0
  {
    m * x / unit
  }

  lemma FloorAdd(m: nat, x: nat, y: nat, unit: nat)
    requires unit > 0
    ensures Floor(m, x, unit) + Floor(m, y, unit) <= Floor(m, x + y, unit) <= Floor(m, x, unit) + Floor(m, y, unit) + 1
  {
    assert m * (x + y) == m * x + m * y;
    DivAdd(m * x, m * y, unit);
  }

  predicate NonDecreasing(from: nat, xs: seq<nat>) {
    && (xs != [] ==> from <= xs[0])
    && forall i, j :: 0 <= i < j < |xs| ==> xs[i] <= xs[j]
  }

  /** The amounts credited at successive checkpoints, each rounded down on its own. */
  ghost function Credited(m: nat, from: nat, checkpoints: seq<nat>, unit: nat): nat
    requires unit > 0 && NonDecreasing(from, checkpoints)
    decreases |checkpoints|
  {
    if checkpoints == [] then 0
    else Floor(m, checkpoints[0] - from, unit) + Credited(m, checkpoints[0], checkpoints[1..], unit)
  }

  ghost function Last(from: nat, xs: seq<nat>): nat { if xs == [] then from else xs[|xs| - 1] }

  /** `k` checkpoints never credit more than one, and lose at most `k - 1` units against it. */
  lemma {:induction false} CheckpointsLose(m: nat, from: nat, checkpoints: seq<nat>, unit: nat)
    requires unit > 0 && NonDecreasing(from, checkpoints) && checkpoints != []
    ensures var once := Floor(m, Last(from, checkpoints) - from, unit);
            Credited(m, from, checkpoints, unit) <= once <= Credited(m, from, checkpoints, unit) + |checkpoints| - 1
    decreases |checkpoints|
  {
    if |checkpoints| > 1 {
      CheckpointsLose(m, checkpoints[0], checkpoints[1..], unit);
      FloorAdd(m, checkpoints[0] - from, Last(from, checkpoints) - checkpoints[0], unit);
    } else {
      assert checkpoints[1..] == [];
    }
  }

  // ---------- an account with constant stake ----------

  function AccrueAll(acc: Account, indices: seq<nat>): Account
    decreases |indices|
  {
    if indices == [] then acc else AccrueAll(Accrue(acc, indices[0]), indices[1..])
  }

  lemma AccruedOnce(acc: Account, index: nat)
    requires 0 < acc.lastIndex <= index
    ensures Accrue(acc, index).shares == acc.shares + Floor(acc.stake, index - acc.lastIndex, INDEX_UNIT)
  {
  }

  lemma {:induction false} LastRises(from: nat, indices: seq<nat>)
    requires NonDecreasing(from, indices)
    ensures from <= Last(from, indices)
    decreases |indices|
  {
    if indices != [] {
      LastRises(indices[0], indices[1..]);
    }
  }

  lemma {:induction false} AccruedShares(acc: Account, indices: seq<nat>)
    requires acc.lastIndex > 0 && NonDecreasing(acc.lastIndex, indices)
    ensures AccrueAll(acc, indices).shares == acc.shares + Credited(acc.stake, acc.lastIndex, indices, INDEX_UNIT)
    decreases |indices|
  {
    if indices != [] {
      AccruedShares(Accrue(acc, indices[0]), indices[1..]);
      AccruedOnce(acc, indices[0]);
    }
  }

  /**
   With constant stake and a non-decreasing positive index, accruing at `k`
   checkpoints credits at most what one accrual at the end would, and falls short
   of it by at most `k - 1` units.
   */
  lemma AccrueInSteps(acc: Account, indices: seq<nat>)
    requires acc.lastIndex > 0 && indices != [] && NonDecreasing(acc.lastIndex, indices)
    ensures var steps := AccrueAll(acc, indices).shares;
            var once := Accrue(acc, indices[|indices| - 1]).shares;
            steps <= once <= steps + |indices| - 1
  {
    AccruedShares(acc, indices);
    CheckpointsLose(acc.stake, acc.lastIndex, indices, INDEX_UNIT);
    LastRises(acc.lastIndex, indices);
    AccruedOnce(acc, indices[|indices| - 1]);
  }

  /** Whenever a step changes an account's stake, the old stake was accrued up to the step's index first. */
  lemma StakeChangeAccrues(s: State, op: Op, a: Address)
    ensures var acc, acc' := Get(s, a), Get(Step(s, op).0, a);
            acc'.stake != acc.stake ==>
              acc'.shares == Accrue(acc, op.index).shares && acc'.lastIndex == op.index
  {
  }

  // ---------- the global index ----------

  const SECONDS_PER_YEAR: nat := 365 * 24 * 60 * 60
  const BASIS_POINTS: nat := 10_000
  const ACCRUAL_UNIT: nat := SECONDS_PER_YEAR * BASIS_POINTS

  datatype Engine = Engine(index: nat, lastUpdate: nat)

  function Update(e: Engine, ts: nat, apr: nat): Engine {
    if e.lastUpdate == 0 || ts <= e.lastUpdate then e.(lastUpdate := ts)
    else Engine(e.index + Floor(apr * INDEX_UNIT, ts - e.lastUpdate, ACCRUAL_UNIT), ts)
  }

  function UpdateAll(e: Engine, times: seq<nat>, apr: nat): Engine
    decreases |times|
  {
    if times == [] then e else UpdateAll(Update(e, times[0], apr), times[1..], apr)
  }

  /** The index never falls, whatever timestamps arrive. */
  lemma {:induction false} IndexMonotone(e: Engine, times: seq<nat>, apr: nat)
    ensures UpdateAll(e, times, apr).index >= e.index
    decreases |times|
  {
    if times != [] {
      IndexMonotone(Update(e, times[0], apr), times[1..], apr);
    }
  }

  lemma {:induction false} IndexGrowth(e: Engine, times: seq<nat>, apr: nat)
    requires e.lastUpdate > 0 && NonDecreasing(e.lastUpdate, times)
    ensures UpdateAll(e, times, apr).index == e.index + Credited(apr * INDEX_UNIT, e.lastUpdate, times, ACCRUAL_UNIT)
    decreases |times|
  {
    if times != [] {
      IndexGrowth(Update(e, times[0], apr), times[1..], apr);
    }
  }

  /** Updating in every block instead of once loses at most one index unit per extra update. */
  lemma IndexInSteps(e: Engine, times: seq<nat>, apr: nat)
    requires e.lastUpdate > 0 && times != [] && NonDecreasing(e.lastUpdate, times)
    ensures var steps := UpdateAll(e, times, apr).index;
            var once := Update(e, times[|times| - 1], apr).index;
            steps <= once <= steps + |times| - 1
  {
    IndexGrowth(e, times, apr);
    CheckpointsLose(apr * INDEX_UNIT, e.lastUpdate, times, ACCRUAL_UNIT);
  }
}
