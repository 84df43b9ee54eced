/** The withdrawal queue: exactly when its entries keep matching the unbonding locks. */
module StakeLockQueue {
  import opened Accounts
  import opened StakeLocks
  import opened StakeLockProofs
  import opened StakeLockRuns

  // ---------- one entry ----------

  /** Marking a bonded lock (or the kept part of it) as unbonding and queueing it keeps the correspondence. */
  lemma QueueGainsRef(locks: Locks, queue: Queue, id: LockId, lock: StakeLock)
    requires QueueOk(locks, queue)
    requires id in locks && locks[id].unbondAt == 0 && lock.unbondAt != 0
    ensures QueueOk(locks[id := lock],
                    QueueAppend(queue, WithdrawDay(lock.withdrawAt), WithdrawalRef(id.owner, id.nonce, lock.amount)))
  {
    var d := WithdrawDay(lock.withdrawAt);
    var ref := WithdrawalRef(id.owner, id.nonce, lock.amount);
    var refs := Lookup(queue, d, []);
    var queue' := QueueAppend(queue, d, ref);
    assert ref.Id() == id;
    forall i | 0 <= i < |refs|
      ensures refs[i].Id() != id
    {
      assert refs[i] in queue[d];
    }
    assert queue'[d] == refs + [ref];
    forall e, r | e in queue' && r in queue'[e]
      ensures RefOk(locks[id := lock], e, r)
    {
      if r != ref || e != d {
        assert e in queue && r in queue[e];
        assert RefOk(locks, e, r);
      }
    }
    var locks' := locks[id := lock];
    forall k | k in locks' && locks'[k].unbondAt != 0
      ensures HasRef(queue', k, locks'[k])
    {
      if k != id {
        assert HasRef(queue, k, locks[k]);
      }
    }
    assert NoRepeats(refs + [ref]);
  }

  lemma {:induction false} WithoutContents(refs: seq<WithdrawalRef>, id: LockId)
    ensures forall r :: r in Without(refs, id) <==> r in refs && r.Id() != id
    ensures NoRepeats(refs) ==> NoRepeats(Without(refs, id))
    ensures |Without(refs, id)| <= |refs|
    ensures |Without(refs, id)| == |refs| <==> !Queued(refs, id)
  {
    if refs != [] {
      WithoutContents(refs[1..], id);
      if refs[0].Id() == id {
        assert Queued(refs, id);
      } else if Queued(refs[1..], id) {
        var i :| 0 <= i < |refs[1..]| && refs[1..][i].Id() == id;
        assert refs[i + 1].Id() == id;
      } else {
        assert forall i :: 1 <= i < |refs| ==> refs[i] == refs[1..][i - 1];
      }
    }
  }

  /** Paying out a matured lock and dropping its queue entry keeps the correspondence. */
  lemma QueueLosesRef(locks: Locks, queue: Queue, id: LockId)
    requires QueueOk(locks, queue) && id in locks && locks[id].unbondAt != 0
    ensures QueueOk(locks - {id}, QueueRemove(queue, WithdrawDay(locks[id].withdrawAt), id, true))
  {
    var d := WithdrawDay(locks[id].withdrawAt);
    assert HasRef(queue, id, locks[id]);
    var refs := queue[d];
    var queue' := QueueRemove(queue, d, id, true);
    WithoutContents(refs, id);
    var own := WithdrawalRef(id.owner, id.nonce, locks[id].amount);
    var i :| 0 <= i < |refs| && refs[i] == own;
    assert refs[i].Id() == id;
    forall e, r | e in queue' && r in queue'[e]
      ensures RefOk(locks - {id}, e, r)
    {
      assert e in queue && r in queue[e];
      assert RefOk(locks, e, r);
    }
    forall k | k in locks && k != id && locks[k].unbondAt != 0
      ensures HasRef(queue', k, locks[k])
    {
      assert HasRef(queue, k, locks[k]);
      assert WithdrawalRef(k.owner, k.nonce, locks[k].amount).Id() == k;
    }
  }

  /** Splitting off the rest of a lock under an unused nonce adds a bonded lock and nothing else. */
  lemma QueueIgnoresBonded(locks: Locks, queue: Queue, id: LockId, lock: StakeLock)
    requires QueueOk(locks, queue) && id !in locks && lock.unbondAt == 0
    ensures QueueOk(locks[id := lock], queue)
  {
    var locks' := locks[id := lock];
    forall d, r | d in queue && r in queue[d]
      ensures RefOk(locks', d, r)
    {
      assert RefOk(locks, d, r);
    }
    forall k | k in locks' && locks'[k].unbondAt != 0
      ensures HasRef(queue, k, locks'[k])
    {
      assert HasRef(queue, k, locks[k]);
    }
  }

  // ---------- unbonding ----------

  lemma TakeWholeQueue(w: Walk, id: LockId, now: Timestamp)
    requires QueueOk(w.locks, w.queue) && Takeable(w, id) && w.locks[id].amount <= w.remaining
    ensures var w' := TakeWhole(w, id, now); QueueOk(w'.locks, w'.queue)
  {
    QueueGainsRef(w.locks, w.queue, id, w.locks[id].(unbondAt := now, withdrawAt := now + UNBOND_SECONDS));
  }

  lemma TakePartQueue(w: Walk, id: LockId, now: Timestamp)
    requires LocksOk(w.locks, w.nextNonce) && QueueOk(w.locks, w.queue)
    requires Takeable(w, id) && w.locks[id].amount > w.remaining
    ensures var w' := TakePart(w, id, now); QueueOk(w'.locks, w'.queue)
  {
    var lock := w.locks[id].(amount := w.remaining, unbondAt := now, withdrawAt := now + UNBOND_SECONDS);
    var split := LockId(id.owner, NextNonce(w.nextNonce, id.owner));
    var rest := StakeLock(id.owner, w.locks[id].amount - w.remaining, lock.createdAt, 0, 0);
    assert split !in w.locks;
    QueueGainsRef(w.locks, w.queue, id, lock);
    QueueIgnoresBonded(w.locks[id := lock], TakePart(w, id, now).queue, split, rest);
  }

  lemma VisitQueue(w: Walk, owner: Address, nonce: nat, now: Timestamp)
    requires LocksOk(w.locks, w.nextNonce) && QueueOk(w.locks, w.queue)
    ensures var w' := Visit(w, owner, nonce, now); QueueOk(w'.locks, w'.queue)
  {
    var id := LockId(owner, nonce);
    if Takeable(w, id) {
      if w.locks[id].amount > w.remaining {
        TakePartQueue(w, id, now);
      } else {
        TakeWholeQueue(w, id, now);
      }
    }
  }

  /** The consuming loop keeps queue entries and unbonding locks one to one. */
  lemma {:induction false} ConsumeQueue(w: Walk, owner: Address, nonces: seq<nat>, now: Timestamp)
    requires LocksOk(w.locks, w.nextNonce) && QueueOk(w.locks, w.queue)
    ensures var w' := Consume(w, owner, nonces, now); QueueOk(w'.locks, w'.queue)
    decreases |nonces|
  {
    if nonces != [] {
      VisitQueue(w, owner, nonces[0], now);
      VisitKeeps(w, owner, nonces[0], now, owner);
      ConsumeQueue(Visit(w, owner, nonces[0], now), owner, nonces[1..], now);
    }
  }

  // ---------- withdrawing ----------

  ghost function Bucket(locks: Locks, queue: Queue, id: LockId): seq<WithdrawalRef>
    requires id in locks
  {
    Lookup(queue, WithdrawDay(locks[id].withdrawAt), [])
  }

  lemma OneLeft(refs: seq<WithdrawalRef>, id: LockId)
    requires NoRepeats(refs) && Queued(refs, id)
    ensures Without(refs, id) == [] <==> |refs| == 1
  {
    WithoutContents(refs, id);
    if |refs| > 1 {
      var other := if refs[0].Id() != id then refs[0] else refs[1];
      assert other in refs && other.Id() != id;
    }
  }

  lemma BucketHas(locks: Locks, queue: Queue, id: LockId)
    requires QueueOk(locks, queue) && id in locks && locks[id].unbondAt != 0
    ensures Queued(Bucket(locks, queue, id), id) && NoRepeats(Bucket(locks, queue, id))
  {
    assert HasRef(queue, id, locks[id]);
    var refs := Bucket(locks, queue, id);
    var i :| 0 <= i < |refs| && refs[i] == WithdrawalRef(id.owner, id.nonce, locks[id].amount);
    assert refs[i].Id() == id;
  }

  /** The lock is unbonding and has no queue entry. */
  ghost predicate Lost(locks: Locks, queue: Queue, id: LockId) {
    id in locks && locks[id].unbondAt != 0 && !HasRef(queue, id, locks[id])
  }

  /**
   With deletes that miss, taking a paid lock off the queue keeps entries and locks one to one
   exactly when its day holds no other entry: then nothing changes; otherwise the entry goes and the lock stays.
   */
  lemma RemovalExact(locks: Locks, queue: Queue, id: LockId)
    requires QueueOk(locks, queue) && id in locks && locks[id].unbondAt != 0
    ensures var queue' := QueueRemove(queue, WithdrawDay(locks[id].withdrawAt), id, false);
            && (QueueOk(locks, queue') <==> |Bucket(locks, queue, id)| == 1)
            && (if |Bucket(locks, queue, id)| == 1 then queue' == queue else Lost(locks, queue', id))
  {
    var refs := Bucket(locks, queue, id);
    BucketHas(locks, queue, id);
    OneLeft(refs, id);
    WithoutContents(refs, id);
    if |refs| != 1 {
      var queue' := QueueRemove(queue, WithdrawDay(locks[id].withdrawAt), id, false);
      assert WithdrawalRef(id.owner, id.nonce, locks[id].amount).Id() == id;
      assert Lost(locks, queue', id);
      assert !QueueOk(locks, queue');
    }
  }

  /** Every listed lock that is due has its day in the queue to itself. */
  ghost predicate LoneDue(locks: Locks, queue: Queue, owner: Address, nonces: seq<nat>, now: Timestamp) {
    forall n :: n in nonces && IsMatured(locks, LockId(owner, n), now) ==> |Bucket(locks, queue, LockId(owner, n))| == 1
  }

  lemma RemoveLost(locks: Locks, queue: Queue, day: Day, other: LockId, id: LockId)
    requires Lost(locks, queue, id)
    ensures Lost(locks, QueueRemove(queue, day, other, false), id)
  {
    WithoutContents(Lookup(queue, day, []), other);
  }

  lemma {:induction false} SweepLost(w: Sweep, owner: Address, nonces: seq<nat>, now: Timestamp, id: LockId)
    requires Lost(w.locks, w.queue, id)
    ensures var w' := SweepAll(w, owner, nonces, now, false); Lost(w'.locks, w'.queue, id)
    decreases |nonces|
  {
    if nonces != [] {
      var k := LockId(owner, nonces[0]);
      if IsMatured(w.locks, k, now) {
        RemoveLost(w.locks, w.queue, WithdrawDay(w.locks[k].withdrawAt), k, id);
      }
      SweepLost(SweepLock(w, owner, nonces[0], now, false), owner, nonces[1..], now, id);
    }
  }

  lemma {:induction false} SweepQueueExact(w: Sweep, owner: Address, nonces: seq<nat>, now: Timestamp)
    requires QueueOk(w.locks, w.queue)
    ensures var w' := SweepAll(w, owner, nonces, now, false);
            && (LoneDue(w.locks, w.queue, owner, nonces, now) ==> QueueOk(w'.locks, w'.queue))
            && (!LoneDue(w.locks, w.queue, owner, nonces, now) ==> exists id :: Lost(w'.locks, w'.queue, id))
    decreases |nonces|
  {
    if nonces != [] {
      var id := LockId(owner, nonces[0]);
      var w1 := SweepLock(w, owner, nonces[0], now, false);
      assert nonces == [nonces[0]] + nonces[1..];
      if !IsMatured(w.locks, id, now) {
        SweepQueueExact(w1, owner, nonces[1..], now);
      } else {
        RemovalExact(w.locks, w.queue, id);
        if |Bucket(w.locks, w.queue, id)| == 1 {
          SweepQueueExact(w1, owner, nonces[1..], now);
        } else {
          SweepLost(w1, owner, nonces[1..], now, id);
        }
      }
    }
  }

  lemma {:induction false} SweepQueueErased(w: Sweep, owner: Address, nonces: seq<nat>, now: Timestamp)
    requires QueueOk(w.locks, w.queue)
    ensures var w' := SweepAll(w, owner, nonces, now, true); QueueOk(w'.locks, w'.queue)
    decreases |nonces|
  {
    if nonces != [] {
      var id := LockId(owner, nonces[0]);
      if IsMatured(w.locks, id, now) {
        QueueLosesRef(w.locks, w.queue, id);
      }
      SweepQueueErased(SweepLock(w, owner, nonces[0], now, true), owner, nonces[1..], now);
    }
  }

  // ---------- steps and runs ----------

  ghost predicate BookQueueOk(b: Book) { QueueOk(b.locks, b.queue) }

  /** The step takes no entry off a day that holds others. */
  ghost predicate Lone(s: State, op: Op) {
    op.WithdrawOp? && Reaches(s, op.owner, op.auth, op.paused) ==>
      LoneDue(s.book.locks, s.book.queue, op.owner, Nonces(s.book, op.owner), op.now)
  }

  lemma BookedQueue(b: Book, owner: Address, amount: nat, now: Timestamp)
    requires Core(b) && amount > 0 && BookQueueOk(b)
    ensures BookQueueOk(Booked(b, owner, amount, now))
  {
    BookedLocks(b, owner, amount, now);
    QueueIgnoresBonded(b.locks, b.queue, LockId(owner, NextNonce(b.nextNonce, owner)), StakeLock(owner, amount, now, 0, 0));
  }

  /** Locking and unbonding keep the queue in step, and so does a withdrawal that finds its entries alone or can delete. */
  lemma StepQueue(s: State, op: Op)
    requires Core(s.book) && BookQueueOk(s.book) && (s.erasing || Lone(s, op))
    ensures BookQueueOk(Step(s, op).0.book)
  {
    match op
    case LockOp(o, amount, auth, paused, now) =>
      LockBook(s, o, amount, auth, paused, now);
      if amount > 0 {
        BookedQueue(s.book, o, amount, now);
      }
    case UnbondOp(o, amount, auth, paused, now) =>
      UnbondBook(s, o, amount, auth, paused, now);
      if amount > 0 {
        ConsumeQueue(StartWalk(s.book, amount), o, Nonces(s.book, o), now);
      }
    case WithdrawOp(o, auth, paused, now) =>
      WithdrawBook(s, o, auth, paused, now);
      if s.erasing {
        SweepQueueErased(StartSweep(s.book), o, Nonces(s.book, o), now);
      } else if Reaches(s, o, auth, paused) {
        SweepQueueExact(StartSweep(s.book), o, Nonces(s.book, o), now);
      }
  }

  ghost predicate SomeLost(b: Book) { exists id :: Lost(b.locks, b.queue, id) }

  lemma StepLoses(s: State, op: Op)
    requires Core(s.book) && BookQueueOk(s.book) && !s.erasing && !Lone(s, op)
    ensures SomeLost(Step(s, op).0.book)
  {
    WithdrawBook(s, op.owner, op.auth, op.paused, op.now);
    SweepQueueExact(StartSweep(s.book), op.owner, Nonces(s.book, op.owner), op.now);
    var w := Swept(s.book, op.owner, op.now, false);
    var id :| Lost(w.locks, w.queue, id);
    assert Lost(Step(s, op).0.book.locks, Step(s, op).0.book.queue, id);
  }

  lemma AppendLost(queue: Queue, day: Day, ref: WithdrawalRef, id: LockId, lock: StakeLock)
    requires !HasRef(queue, id, lock) && ref.Id() != id
    ensures !HasRef(QueueAppend(queue, day, ref), id, lock)
  {
  }

  lemma VisitLost(w: Walk, owner: Address, nonce: nat, now: Timestamp, id: LockId)
    requires LocksOk(w.locks, w.nextNonce) && Lost(w.locks, w.queue, id)
    ensures var w' := Visit(w, owner, nonce, now); Lost(w'.locks, w'.queue, id)
  {
    var k := LockId(owner, nonce);
    if Takeable(w, k) {
      var amount := if w.locks[k].amount > w.remaining then w.remaining else w.locks[k].amount;
      AppendLost(w.queue, WithdrawDay(now + UNBOND_SECONDS), WithdrawalRef(owner, nonce, amount), id, w.locks[id]);
      VisitTouches(w, owner, nonce, now);
    }
  }

  lemma {:induction false} ConsumeLost(w: Walk, owner: Address, nonces: seq<nat>, now: Timestamp, id: LockId)
    requires LocksOk(w.locks, w.nextNonce) && Lost(w.locks, w.queue, id)
    ensures var w' := Consume(w, owner, nonces, now); Lost(w'.locks, w'.queue, id)
    decreases |nonces|
  {
    if nonces != [] {
      VisitLost(w, owner, nonces[0], now, id);
      VisitKeeps(w, owner, nonces[0], now, owner);
      ConsumeLost(Visit(w, owner, nonces[0], now), owner, nonces[1..], now, id);
    }
  }

  lemma StepStaysLost(s: State, op: Op, id: LockId)
    requires Core(s.book) && !s.erasing && Lost(s.book.locks, s.book.queue, id)
    ensures Lost(Step(s, op).0.book.locks, Step(s, op).0.book.queue, id)
  {
    match op
    case LockOp(o, amount, auth, paused, now) => LockBook(s, o, amount, auth, paused, now);
    case UnbondOp(o, amount, auth, paused, now) =>
      UnbondBook(s, o, amount, auth, paused, now);
      if amount > 0 {
        ConsumeLost(StartWalk(s.book, amount), o, Nonces(s.book, o), now, id);
      }
    case WithdrawOp(o, auth, paused, now) =>
      WithdrawBook(s, o, auth, paused, now);
      SweepLost(StartSweep(s.book), o, Nonces(s.book, o), now, id);
  }

  lemma {:induction false} RunStaysLost(s: State, ops: seq<Op>, id: LockId)
    requires Core(s.book) && !s.erasing && Lost(s.book.locks, s.book.queue, id)
    ensures Lost(Run(s, ops).book.locks, Run(s, ops).book.queue, id)
    decreases |ops|
  {
    if ops != [] {
      StepCore(s, ops[0]);
      StepFixed(s, ops[0]);
      StepStaysLost(s, ops[0], id);
      RunStaysLost(Step(s, ops[0]).0, ops[1..], id);
    }
  }

  ghost predicate LoneRun(s: State, ops: seq<Op>)
    decreases |ops|
  {
    ops != [] ==> Lone(s, ops[0]) && LoneRun(Step(s, ops[0]).0, ops[1..])
  }

  /**
   Over every run queue entries and unbonding locks stay one to one, exactly when deletes take
   effect or no withdrawal takes an entry off a day that holds others.
   */
  lemma {:induction false} RunQueue(s: State, ops: seq<Op>)
    requires Core(s.book) && BookQueueOk(s.book)
    ensures BookQueueOk(Run(s, ops).book) <==> s.erasing || LoneRun(s, ops)
    decreases |ops|
  {
    if ops != [] {
      var s1 := Step(s, ops[0]).0;
      StepCore(s, ops[0]);
      StepFixed(s, ops[0]);
      if s.erasing || Lone(s, ops[0]) {
        StepQueue(s, ops[0]);
        RunQueue(s1, ops[1..]);
      } else {
        StepLoses(s, ops[0]);
        var id :| Lost(s1.book.locks, s1.book.queue, id);
        RunStaysLost(s1, ops[1..], id);
        assert Lost(Run(s, ops).book.locks, Run(s, ops).book.queue, id);
      }
    }
  }
}
