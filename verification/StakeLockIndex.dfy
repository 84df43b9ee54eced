/** What the early exit of the consuming loop does to the index. */
module StakeLockIndex {
  import opened Accounts
  import opened StakeLocks
  import opened StakeLockProofs
  import opened StakeLockRuns

  // ---------- listed nonces ----------

  /** The request has to reach into the last listed lock. */
  lemma ReachesLast(locks: Locks, owner: Address, nonces: seq<nat>, amount: nat)
    requires nonces != [] && 0 < amount <= Available(locks, owner, nonces)
    ensures Reach(locks, owner, nonces, amount) == |nonces|
            <==> amount > Available(locks, owner, nonces[..|nonces| - 1])
  {
    ReachIsShortest(locks, owner, nonces, amount);
    AvailableGrows(locks, owner, nonces, Reach(locks, owner, nonces, amount), |nonces| - 1);
  }

  lemma AvailableGrows(locks: Locks, owner: Address, nonces: seq<nat>, i: nat, j: nat)
    requires i <= |nonces| && j <= |nonces|
    ensures i <= j ==> Available(locks, owner, nonces[..i]) <= Available(locks, owner, nonces[..j])
  {
    if i <= j {
      assert nonces[..j] == nonces[..i] + nonces[i..j];
      AvailableConcat(locks, owner, nonces[..i], nonces[i..j]);
    }
  }

  ghost function Left(b: Book, owner: Address, amount: nat, now: Timestamp, erasing: bool): seq<nat> {
    Nonces(ApplyWalk(b, owner, Walked(b, owner, amount, now), erasing), owner)
  }

  /** What an unbond leaves listed. */
  lemma LeftExact(b: Book, owner: Address, amount: nat, now: Timestamp, erasing: bool)
    requires Core(b) && 0 < amount <= Available(b.locks, owner, Nonces(b, owner))
    ensures var nonces := Nonces(b, owner);
            Left(b, owner, amount, now, erasing)
            == nonces[..Reach(b.locks, owner, nonces, amount)]
               + SplitNonce(StartWalk(b, amount), Walked(b, owner, amount, now), owner)
  {
    OwnListed(b, owner);
    ConsumeKept(StartWalk(b, amount), owner, Nonces(b, owner), now);
    ReachIsShortest(b.locks, owner, Nonces(b, owner), amount);
  }

  ghost predicate AllIn(some: seq<nat>, all: seq<nat>) { forall n :: n in some ==> n in all }

  lemma PrefixIn(nonces: seq<nat>, k: nat, added: seq<nat>)
    requires Distinct(nonces) && k <= |nonces| && forall n :: n in added ==> n !in nonces
    ensures AllIn(nonces, nonces[..k] + added) <==> k == |nonces|
  {
    if k < |nonces| {
      assert nonces[k] in nonces && nonces[k] !in nonces[..k] && nonces[k] !in added;
    } else {
      assert nonces[..k] == nonces;
    }
  }

  lemma SplitUnlisted(b: Book, owner: Address)
    requires Core(b)
    ensures NextNonce(b.nextNonce, owner) !in Nonces(b, owner)
  {
    OwnListed(b, owner);
  }

  /** An unbond keeps every listed nonce listed exactly when the request exceeds the bonded stake listed before the last one. */
  lemma UnbondKeepsListed(s: State, owner: Address, amount: int, auth: nat, paused: bool, now: Timestamp)
    requires Core(s.book) && Unbond(s, owner, amount, auth, paused, now).1.Unbonded?
    ensures var nonces := Nonces(s.book, owner);
            AllIn(nonces, Nonces(Unbond(s, owner, amount, auth, paused, now).0.book, owner))
            <==> amount > Available(s.book.locks, owner, nonces[..|nonces| - 1])
  {
    var nonces := Nonces(s.book, owner);
    LeftExact(s.book, owner, amount, now, s.erasing);
    ReachesLast(s.book.locks, owner, nonces, amount);
    SplitUnlisted(s.book, owner);
    OwnListed(s.book, owner);
    PrefixIn(nonces, Reach(s.book.locks, owner, nonces, amount),
             SplitNonce(StartWalk(s.book, amount), Walked(s.book, owner, amount, now), owner));
  }

  // ---------- bonded locks ----------

  /** Every bonded lock of the owner is listed in its index. */
  ghost predicate Covered(b: Book, o: Address) {
    forall id :: id in b.locks && id.owner == o && b.locks[id].unbondAt == 0 ==> id.nonce in Nonces(b, o)
  }

  /** Where the last bonded lock is listed, or the end. */
  ghost function LastBonded(locks: Locks, owner: Address, nonces: seq<nat>): (m: nat)
    ensures m <= |nonces|
    ensures m < |nonces| ==> Bonded(locks, LockId(owner, nonces[m])) > 0
    ensures forall i :: m < i < |nonces| ==> Bonded(locks, LockId(owner, nonces[i])) == 0
    ensures m == |nonces| ==> forall i :: 0 <= i < |nonces| ==> Bonded(locks, LockId(owner, nonces[i])) == 0
  {
    var last := |nonces| - 1;
    if nonces == [] then 0
    else if Bonded(locks, LockId(owner, nonces[last])) > 0 then last
    else if LastBonded(locks, owner, nonces[..last]) == last then |nonces|
    else LastBonded(locks, owner, nonces[..last])
  }

  lemma {:induction false} AvailableZero(locks: Locks, owner: Address, nonces: seq<nat>)
    ensures Available(locks, owner, nonces) == 0 <==> forall i :: 0 <= i < |nonces| ==> Bonded(locks, LockId(owner, nonces[i])) == 0
  {
    if nonces != [] {
      AvailableZero(locks, owner, nonces[1..]);
      if forall i :: 0 <= i < |nonces[1..]| ==> Bonded(locks, LockId(owner, nonces[1..][i])) == 0 {
        assert forall i :: 1 <= i < |nonces| ==> nonces[i] == nonces[1..][i - 1];
      }
    }
  }

  /** The request has to reach the last bonded lock. */
  lemma ReachesBonded(locks: Locks, owner: Address, nonces: seq<nat>, amount: nat)
    requires 0 < amount <= Available(locks, owner, nonces)
    ensures var m := LastBonded(locks, owner, nonces);
            m < |nonces| && (m < Reach(locks, owner, nonces, amount) <==> amount > Available(locks, owner, nonces[..m]))
  {
    AvailableZero(locks, owner, nonces);
    ReachIsShortest(locks, owner, nonces, amount);
    AvailableGrows(locks, owner, nonces, Reach(locks, owner, nonces, amount), LastBonded(locks, owner, nonces));
  }

  /** The loop never looks past the prefix that covers the request. */
  lemma {:induction false} ConsumePrefix(w: Walk, owner: Address, nonces: seq<nat>, now: Timestamp)
    requires LocksOk(w.locks, w.nextNonce) && Listed(w.locks, owner, nonces) && 0 < w.remaining
    ensures var k := Reach(w.locks, owner, nonces, w.remaining);
            Consume(w, owner, nonces, now) == Consume(w, owner, nonces[..k], now)
    decreases |nonces|
  {
    if nonces != [] {
      var k := Reach(w.locks, owner, nonces, w.remaining);
      var w1 := Visit(w, owner, nonces[0], now);
      assert nonces[..k][1..] == nonces[1..][..k - 1];
      if w.remaining > Bonded(w.locks, LockId(owner, nonces[0])) {
        VisitUnmet(w, owner, nonces, now);
        ReachSame(w.locks, w1.locks, owner, nonces[1..], w1.remaining);
        ConsumePrefix(w1, owner, nonces[1..], now);
      } else {
        VisitMeets(w, owner, nonces[0], now);
      }
    }
  }

  lemma VisitMeets(w: Walk, owner: Address, nonce: nat, now: Timestamp)
    requires 0 < w.remaining <= Bonded(w.locks, LockId(owner, nonce))
    ensures Visit(w, owner, nonce, now).remaining == 0
  {
  }

  /** A lock listed behind the prefix stays as it was. */
  lemma BehindSame(b: Book, owner: Address, amount: nat, now: Timestamp, i: nat)
    requires Core(b) && amount > 0 && i < |Nonces(b, owner)|
    requires Reach(b.locks, owner, Nonces(b, owner), amount) <= i
    ensures var id := LockId(owner, Nonces(b, owner)[i]);
            var w := Walked(b, owner, amount, now);
            id in b.locks && id in w.locks && w.locks[id] == b.locks[id]
  {
    var nonces := Nonces(b, owner);
    var k := Reach(b.locks, owner, nonces, amount);
    OwnListed(b, owner);
    ConsumePrefix(StartWalk(b, amount), owner, nonces, now);
    ConsumeTouches(StartWalk(b, amount), owner, nonces[..k], now);
    assert nonces[i] in nonces && nonces[i] !in nonces[..k];
  }

  lemma CoveredAfter(b: Book, owner: Address, amount: nat, now: Timestamp, erasing: bool)
    requires Core(b) && Covered(b, owner) && 0 < amount <= Available(b.locks, owner, Nonces(b, owner))
    requires LastBonded(b.locks, owner, Nonces(b, owner)) < Reach(b.locks, owner, Nonces(b, owner), amount)
    ensures Covered(ApplyWalk(b, owner, Walked(b, owner, amount, now), erasing), owner)
  {
    var nonces := Nonces(b, owner);
    var k := Reach(b.locks, owner, nonces, amount);
    var w := Walked(b, owner, amount, now);
    LeftExact(b, owner, amount, now, erasing);
    OwnListed(b, owner);
    ConsumeTouches(StartWalk(b, amount), owner, nonces, now);
    forall id | id in w.locks && id.owner == owner && w.locks[id].unbondAt == 0
      ensures id.nonce in Left(b, owner, amount, now, erasing)
    {
      if id in b.locks {
        assert b.locks[id].unbondAt == 0;
        var i :| 0 <= i < |nonces| && nonces[i] == id.nonce;
        assert Bonded(b.locks, LockId(owner, nonces[i])) > 0;
        assert nonces[..k][i] == id.nonce;
      }
    }
  }

  lemma UncoveredAfter(b: Book, owner: Address, amount: nat, now: Timestamp, erasing: bool)
    requires Core(b) && 0 < amount <= Available(b.locks, owner, Nonces(b, owner))
    requires Reach(b.locks, owner, Nonces(b, owner), amount) <= LastBonded(b.locks, owner, Nonces(b, owner))
    ensures !Covered(ApplyWalk(b, owner, Walked(b, owner, amount, now), erasing), owner)
  {
    var nonces := Nonces(b, owner);
    var m := LastBonded(b.locks, owner, nonces);
    ReachesBonded(b.locks, owner, nonces, amount);
    BehindSame(b, owner, amount, now, m);
    LeftExact(b, owner, amount, now, erasing);
    OwnListed(b, owner);
    SplitUnlisted(b, owner);
    var id := LockId(owner, nonces[m]);
    assert nonces[m] in nonces && nonces[m] !in nonces[..Reach(b.locks, owner, nonces, amount)];
    assert id in Walked(b, owner, amount, now).locks;
  }

  /**
   An unbond keeps every bonded lock of the owner listed exactly when the request exceeds
   the bonded stake listed before the last bonded lock. A smaller request leaves the loop
   early and drops the bonded locks behind the exit from the index.
   */
  lemma UnbondCoverage(s: State, owner: Address, amount: int, auth: nat, paused: bool, now: Timestamp)
    requires Core(s.book) && Covered(s.book, owner)
    requires Unbond(s, owner, amount, auth, paused, now).1.Unbonded?
    ensures var nonces := Nonces(s.book, owner);
            Covered(Unbond(s, owner, amount, auth, paused, now).0.book, owner)
            <==> amount > Available(s.book.locks, owner, nonces[..LastBonded(s.book.locks, owner, nonces)])
  {
    var nonces := Nonces(s.book, owner);
    ReachesBonded(s.book.locks, owner, nonces, amount);
    if LastBonded(s.book.locks, owner, nonces) < Reach(s.book.locks, owner, nonces, amount) {
      CoveredAfter(s.book, owner, amount, now, s.erasing);
    } else {
      UncoveredAfter(s.book, owner, amount, now, s.erasing);
    }
  }

  // ---------- a lock that is no longer listed ----------

  ghost predicate Stranded(b: Book, id: LockId, lock: StakeLock) {
    id in b.locks && b.locks[id] == lock && id.nonce !in Nonces(b, id.owner)
  }

  lemma BookedStrands(b: Book, owner: Address, amount: nat, now: Timestamp, id: LockId, lock: StakeLock)
    requires Core(b) && Stranded(b, id, lock)
    ensures Stranded(Booked(b, owner, amount, now), id, lock)
  {
  }

  lemma WalkStrands(b: Book, owner: Address, amount: nat, now: Timestamp, erasing: bool, id: LockId, lock: StakeLock)
    requires Core(b) && amount > 0 && Stranded(b, id, lock)
    ensures Stranded(ApplyWalk(b, owner, Walked(b, owner, amount, now), erasing), id, lock)
  {
    var w := Walked(b, owner, amount, now);
    OwnListed(b, owner);
    assert id in w.locks && w.locks[id] == lock by {
      ConsumeTouches(StartWalk(b, amount), owner, Nonces(b, owner), now);
    }
    assert id.owner == owner ==> id.nonce !in w.kept by {
      ConsumeKept(StartWalk(b, amount), owner, Nonces(b, owner), now);
    }
  }

  lemma SweepStrands(b: Book, owner: Address, now: Timestamp, erasing: bool, id: LockId, lock: StakeLock)
    requires Core(b) && Stranded(b, id, lock)
    ensures Stranded(ApplySweep(b, owner, Swept(b, owner, now, erasing), erasing), id, lock)
  {
    SweptExact(b, owner, now, erasing);
  }

  lemma StepStrands(s: State, op: Op, id: LockId, lock: StakeLock)
    requires Core(s.book) && Stranded(s.book, id, lock)
    ensures Stranded(Step(s, op).0.book, id, lock)
  {
    match op
    case LockOp(o, amount, auth, paused, now) =>
      LockBook(s, o, amount, auth, paused, now);
      if amount > 0 {
        BookedStrands(s.book, o, amount, now, id, lock);
      }
    case UnbondOp(o, amount, auth, paused, now) =>
      UnbondBook(s, o, amount, auth, paused, now);
      if amount > 0 {
        WalkStrands(s.book, o, amount, now, s.erasing, id, lock);
      }
    case WithdrawOp(o, auth, paused, now) =>
      WithdrawBook(s, o, auth, paused, now);
      SweepStrands(s.book, o, now, s.erasing, id, lock);
  }

  /** A lock that fell out of the index stays stored, unchanged and unlisted in every further run. */
  lemma {:induction false} StrandedForever(s: State, ops: seq<Op>, id: LockId, lock: StakeLock)
    requires Core(s.book) && Stranded(s.book, id, lock)
    ensures Stranded(Run(s, ops).book, id, lock)
    decreases |ops|
  {
    if ops != [] {
      StepCore(s, ops[0]);
      StepStrands(s, ops[0], id, lock);
      StrandedForever(Step(s, ops[0]).0, ops[1..], id, lock);
    }
  }

  // ---------- an example ----------

  function Fresh(erasing: bool, balances: Balances): State {
    State(0, erasing, balances, Book(map[], map[], map[], map[], map[]), map[])
  }

  const FIVE: StakeLock := StakeLock(1, 5, 1, 0, 0)

  /** Owner 1 has locked 5 once. */
  ghost predicate LockedOnce(s: State) {
    && s.book.locks == map[LockId(1, 1) := FIVE] && Nonces(s.book, 1) == [1] && NextNonce(s.book.nextNonce, 1) == 2
    && BondedTotal(s.book, 1) == 5 && AuthNonce(s, 1) == 1 && s.vault == 0 && Balance(s, 1) == 5
  }

  ghost predicate LockedTwice(s: State) {
    && s.book.locks == map[LockId(1, 1) := FIVE, LockId(1, 2) := FIVE] && Nonces(s.book, 1) == [1, 2]
    && BondedTotal(s.book, 1) == 10 && AuthNonce(s, 1) == 2
  }

  lemma LockOnce(erasing: bool)
    ensures LockedOnce(Step(Fresh(erasing, map[1 := 10]), LockOp(1, 5, 1, false, 1)).0)
  {
  }

  lemma LockTwice(s: State)
    requires LockedOnce(s)
    ensures LockedTwice(Step(s, LockOp(1, 5, 2, false, 1)).0)
  {
  }

  lemma UnbondFirst(s: State)
    requires LockedTwice(s)
    ensures Stranded(Step(s, UnbondOp(1, 5, 3, false, 1)).0.book, LockId(1, 2), FIVE)
  {
    assert [1, 2][1..] == [2];
    assert Available(s.book.locks, 1, [2]) == 5;
    var w := Consume(StartWalk(s.book, 5), 1, [1, 2], 1);
    assert w == Visit(StartWalk(s.book, 5), 1, 1, 1);
    assert w.kept == [1];
  }

  lemma RunCons(s: State, op: Op, ops: seq<Op>)
    ensures Run(s, [op] + ops) == Run(Step(s, op).0, ops)
  {
    assert ([op] + ops)[1..] == ops;
  }

  /** Two locks of 5, then an unbond of 5: the second lock is no longer listed. */
  lemma ShortUnbondStrands(erasing: bool)
    ensures Stranded(Run(Fresh(erasing, map[1 := 10]),
                         [LockOp(1, 5, 1, false, 1), LockOp(1, 5, 2, false, 1), UnbondOp(1, 5, 3, false, 1)]).book,
                     LockId(1, 2), FIVE)
  {
    var a, b, c := LockOp(1, 5, 1, false, 1), LockOp(1, 5, 2, false, 1), UnbondOp(1, 5, 3, false, 1);
    var s0 := Fresh(erasing, map[1 := 10]);
    var s1 := Step(s0, a).0;
    var s2 := Step(s1, b).0;
    LockOnce(erasing);
    LockTwice(s1);
    UnbondFirst(s2);
    RunCons(s0, a, [b, c]);
    RunCons(s1, b, [c]);
    RunCons(s2, c, []);
    assert [a, b, c] == [a] + [b, c] && [b, c] == [b] + [c] && [c] == [c] + [];
  }
}
