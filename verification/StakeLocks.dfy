/**
 The POTSO stake-lock ledger: locking ZNHB into the shared vault, unbonding it
 after a cooldown and withdrawing matured locks.

 `State` gathers what the state manager stores under separate keys. Each
 operation is given twice: as a function on `State`, which the run theorems are
 about, and as a method of `StakeVault`, which updates the fields in loops and is
 proved to compute that function.
 */
module StakeLocks {
  import opened Accounts

  const UNBOND_SECONDS: nat := 7 * 24 * 60 * 60
  const SECONDS_PER_DAY: nat := 24 * 60 * 60

  /** Clock readings, in Unix seconds. An `unbondAt` of zero means "still bonded". */
  type Timestamp = t: nat | t > 0 witness 1

  datatype LockId = LockId(owner: Address, nonce: nat)

  datatype StakeLock = StakeLock(owner: Address, amount: nat, createdAt: nat, unbondAt: nat, withdrawAt: nat)

  datatype WithdrawalRef = WithdrawalRef(owner: Address, nonce: nat, amount: nat) {
    function Id(): LockId { LockId(owner, nonce) }
  }

  datatype Payout = Payout(nonce: nat, amount: nat)

  /** A queue bucket: one UTC day, or the unnamed bucket of timestamp zero. */
  datatype Day = NoDay | Day(number: nat)

  type Locks = map<LockId, StakeLock>
  type Queue = map<Day, seq<WithdrawalRef>>

  datatype Failure =
    | AmountNotPositive | ZeroAuthNonce | ModulePaused | StaleAuthNonce | InsufficientBalance
    | InsufficientBonded | NoActiveLocks | NotYetWithdrawable | VaultUnderfunded

  datatype Reply =
    | Locked(nonce: nat)
    | Unbonded(amount: nat, withdrawAt: nat)
    | Withdrawn(payouts: seq<Payout>)
    | Failed(why: Failure)

  /** The stake tables: the locks and the four tables kept beside them. */
  datatype Book = Book(
    locks: Locks,
    index: map<Address, seq<nat>>,
    nextNonce: map<Address, nat>,
    bonded: map<Address, int>,
    queue: Queue)

  /**
   `erasing` tells whether a delete reaches the stored entry. The manager writes
   entries under a key hashed once more than the key its deletes address, so the
   shipped store has `erasing == false`; its interface promises `true`.
   */
  datatype State = State(vault: Address, erasing: bool, balances: Balances, book: Book, authNonce: map<Address, nat>)

  // ---------- the manager's accessors ----------

  function Balance(s: State, a: Address): nat { BalanceOf(s.balances, a) }

  function Nonces(b: Book, a: Address): seq<nat> { Lookup(b.index, a, []) }

  function BondedTotal(b: Book, a: Address): int { Lookup(b.bonded, a, 0) }

  function AuthNonce(s: State, a: Address): nat { Lookup(s.authNonce, a, 0) }

  /** The nonce the allocator hands out next: numbering starts at one. */
  function NextNonce(next: map<Address, nat>, a: Address): nat {
    if Lookup(next, a, 0) == 0 then 1 else next[a]
  }

  function WithdrawDay(ts: nat): Day {
    if ts == 0 then NoDay else Day(ts / SECONDS_PER_DAY)
  }

  function PutNonces(index: map<Address, seq<nat>>, a: Address, nonces: seq<nat>, erasing: bool): map<Address, seq<nat>> {
    if nonces != [] then index[a := nonces] else if erasing then index - {a} else index
  }

  predicate Queued(refs: seq<WithdrawalRef>, id: LockId) {
    exists i :: 0 <= i < |refs| && refs[i].Id() == id
  }

  function QueueAppend(queue: Queue, day: Day, ref: WithdrawalRef): Queue {
    var refs := Lookup(queue, day, []);
    queue[day := if Queued(refs, ref.Id()) then refs else refs + [ref]]
  }

  function Without(refs: seq<WithdrawalRef>, id: LockId): seq<WithdrawalRef> {
    if refs == [] then []
    else if refs[0].Id() == id then Without(refs[1..], id)
    else [refs[0]] + Without(refs[1..], id)
  }

  function QueueRemove(queue: Queue, day: Day, id: LockId, erasing: bool): Queue {
    var refs := Lookup(queue, day, []);
    var rest := Without(refs, id);
    if |rest| == |refs| then queue
    else if rest != [] then queue[day := rest]
    else if erasing then queue - {day} else queue
  }

  function DeleteLock(locks: Locks, id: LockId, erasing: bool): Locks {
    if erasing then locks - {id} else locks
  }

  // ---------- lock ----------

  /** Records a new lock. */
  function Booked(b: Book, owner: Address, amount: nat, now: Timestamp): Book {
    var nonce := NextNonce(b.nextNonce, owner);
    Book(b.locks[LockId(owner, nonce) := StakeLock(owner, amount, now, 0, 0)],
         b.index[owner := Nonces(b, owner) + [nonce]],
         b.nextNonce[owner := nonce + 1],
         b.bonded[owner := BondedTotal(b, owner) + amount],
         b.queue)
  }

  /** Moves the amount from owner to vault. Both accounts are read before either is written. */
  function Bond(s: State, owner: Address, amount: nat, auth: nat, now: Timestamp): State
    requires amount <= Balance(s, owner)
  {
    s.(balances := s.balances[owner := Balance(s, owner) - amount][s.vault := Balance(s, s.vault) + amount],
       book := Booked(s.book, owner, amount, now),
       authNonce := s.authNonce[owner := auth])
  }

  function LockStake(s: State, owner: Address, amount: int, auth: nat, paused: bool, now: Timestamp): (State, Reply) {
    if amount <= 0 then (s, Failed(AmountNotPositive))
    else if auth == 0 then (s, Failed(ZeroAuthNonce))
    else if paused then (s, Failed(ModulePaused))
    else if auth <= AuthNonce(s, owner) then (s, Failed(StaleAuthNonce))
    else if Balance(s, owner) < amount then (s, Failed(InsufficientBalance))
    else (Bond(s, owner, amount, auth, now), Locked(NextNonce(s.book.nextNonce, owner)))
  }

  // ---------- unbond ----------

  /** What the pre-scan adds up: the still bonded locks among the listed nonces. */
  function Available(locks: Locks, owner: Address, nonces: seq<nat>): nat {
    if nonces == [] then 0
    else
      var id := LockId(owner, nonces[0]);
      (if id in locks && locks[id].unbondAt == 0 then locks[id].amount else 0)
      + Available(locks, owner, nonces[1..])
  }

  /** The variables of the consuming loop. */
  datatype Walk = Walk(locks: Locks, queue: Queue, nextNonce: map<Address, nat>,
                       kept: seq<nat>, remaining: nat, unbonded: nat)

  /** Move a whole lock to unbonding. */
  function TakeWhole(w: Walk, id: LockId, now: Timestamp): Walk
    requires id in w.locks && w.locks[id].amount <= w.remaining
  {
    var lock := w.locks[id].(unbondAt := now, withdrawAt := now + UNBOND_SECONDS);
    Walk(w.locks[id := lock],
         QueueAppend(w.queue, WithdrawDay(lock.withdrawAt), WithdrawalRef(id.owner, id.nonce, lock.amount)),
         w.nextNonce, w.kept + [id.nonce], w.remaining - lock.amount, w.unbonded + lock.amount)
  }

  /** Move what is still missing to unbonding and put the rest of the lock under a new nonce. */
  function TakePart(w: Walk, id: LockId, now: Timestamp): Walk
    requires id in w.locks && w.locks[id].amount > w.remaining
  {
    var lock := w.locks[id].(amount := w.remaining, unbondAt := now, withdrawAt := now + UNBOND_SECONDS);
    var newNonce := NextNonce(w.nextNonce, id.owner);
    var rest := StakeLock(id.owner, w.locks[id].amount - w.remaining, lock.createdAt, 0, 0);
    Walk(w.locks[id := lock][LockId(id.owner, newNonce) := rest],
         QueueAppend(w.queue, WithdrawDay(lock.withdrawAt), WithdrawalRef(id.owner, id.nonce, lock.amount)),
         w.nextNonce[id.owner := newNonce + 1], w.kept + [id.nonce] + [newNonce], 0, w.unbonded + lock.amount)
  }

  /** One iteration: keep a live nonce and, if its lock is bonded, consume it. */
  function Visit(w: Walk, owner: Address, nonce: nat, now: Timestamp): Walk {
    var id := LockId(owner, nonce);
    if id !in w.locks then w
    else if w.remaining == 0 || w.locks[id].amount == 0 || w.locks[id].unbondAt != 0 then w.(kept := w.kept + [nonce])
    else if w.locks[id].amount > w.remaining then TakePart(w, id, now)
    else TakeWhole(w, id, now)
  }

  /** The consuming loop, including its early exit once the request is met. */
  function Consume(w: Walk, owner: Address, nonces: seq<nat>, now: Timestamp): Walk
    decreases |nonces|
  {
    if nonces == [] then w
    else
      var w' := Visit(w, owner, nonces[0], now);
      if w.remaining > 0 && w'.remaining == 0 then w' else Consume(w', owner, nonces[1..], now)
  }

  function StartWalk(b: Book, amount: nat): Walk {
    Walk(b.locks, b.queue, b.nextNonce, [], amount, 0)
  }

  function Walked(b: Book, owner: Address, amount: nat, now: Timestamp): Walk {
    Consume(StartWalk(b, amount), owner, Nonces(b, owner), now)
  }

  function ApplyWalk(b: Book, owner: Address, w: Walk, erasing: bool): Book {
    Book(w.locks,
         PutNonces(b.index, owner, w.kept, erasing),
         w.nextNonce,
         b.bonded[owner := BondedTotal(b, owner) - w.unbonded],
         w.queue)
  }

  function Unbond(s: State, owner: Address, amount: int, auth: nat, paused: bool, now: Timestamp): (State, Reply) {
    if amount <= 0 then (s, Failed(AmountNotPositive))
    else if auth == 0 then (s, Failed(ZeroAuthNonce))
    else if paused then (s, Failed(ModulePaused))
    else if auth <= AuthNonce(s, owner) then (s, Failed(StaleAuthNonce))
    else if BondedTotal(s.book, owner) < amount then (s, Failed(InsufficientBonded))
    else if Nonces(s.book, owner) == [] then (s, Failed(NoActiveLocks))
    else if Available(s.book.locks, owner, Nonces(s.book, owner)) < amount then (s, Failed(InsufficientBonded))
    else
      var w := Walked(s.book, owner, amount, now);
      (s.(book := ApplyWalk(s.book, owner, w, s.erasing), authNonce := s.authNonce[owner := auth]),
       Unbonded(w.unbonded, now + UNBOND_SECONDS))
  }

  // ---------- withdraw ----------

  /** The variables of the withdrawing loop. */
  datatype Sweep = Sweep(locks: Locks, queue: Queue, kept: seq<nat>, payouts: seq<Payout>, total: nat, pending: bool)

  function SweepLock(w: Sweep, owner: Address, nonce: nat, now: Timestamp, erasing: bool): Sweep {
    var id := LockId(owner, nonce);
    if id !in w.locks then w
    else
      var lock := w.locks[id];
      if lock.unbondAt == 0 then w.(kept := w.kept + [nonce])
      else if lock.withdrawAt > now then
        w.(kept := w.kept + [nonce], pending := w.pending || lock.amount > 0)
      else
        w.(payouts := if lock.amount > 0 then w.payouts + [Payout(nonce, lock.amount)] else w.payouts,
           total := w.total + lock.amount,
           locks := DeleteLock(w.locks, id, erasing),
           queue := QueueRemove(w.queue, WithdrawDay(lock.withdrawAt), id, erasing))
  }

  function SweepAll(w: Sweep, owner: Address, nonces: seq<nat>, now: Timestamp, erasing: bool): Sweep
    decreases |nonces|
  {
    if nonces == [] then w
    else SweepAll(SweepLock(w, owner, nonces[0], now, erasing), owner, nonces[1..], now, erasing)
  }

  function StartSweep(b: Book): Sweep { Sweep(b.locks, b.queue, [], [], 0, false) }

  function Swept(b: Book, owner: Address, now: Timestamp, erasing: bool): Sweep {
    SweepAll(StartSweep(b), owner, Nonces(b, owner), now, erasing)
  }

  function ApplySweep(b: Book, owner: Address, w: Sweep, erasing: bool): Book {
    b.(locks := w.locks, queue := w.queue, index := PutNonces(b.index, owner, w.kept, erasing))
  }

  /** Moves matured stake from the vault back to its owner. Both accounts are read before either is written. */
  function Release(s: State, owner: Address, total: nat): State
    requires total <= Balance(s, s.vault)
  {
    s.(balances := s.balances[owner := Balance(s, owner) + total][s.vault := Balance(s, s.vault) - total])
  }

  function UseAuth(s: State, owner: Address, auth: nat): State {
    s.(authNonce := s.authNonce[owner := auth])
  }

  /** A withdrawal that fails after its loop keeps what the loop has already written. */
  function FinishWithdraw(s: State, owner: Address, auth: nat, w: Sweep): (State, Reply) {
    if w.total == 0 then
      if w.pending then (s, Failed(NotYetWithdrawable)) else (UseAuth(s, owner, auth), Withdrawn([]))
    else if Balance(s, s.vault) < w.total then (s, Failed(VaultUnderfunded))
    else (UseAuth(Release(s, owner, w.total), owner, auth), Withdrawn(w.payouts))
  }

  /** Whether a withdrawal gets as far as its loop. */
  predicate Reaches(s: State, owner: Address, auth: nat, paused: bool) {
    auth != 0 && !paused && auth > AuthNonce(s, owner) && Nonces(s.book, owner) != []
  }

  function Withdraw(s: State, owner: Address, auth: nat, paused: bool, now: Timestamp): (State, Reply) {
    if auth == 0 then (s, Failed(ZeroAuthNonce))
    else if paused then (s, Failed(ModulePaused))
    else if auth <= AuthNonce(s, owner) then (s, Failed(StaleAuthNonce))
    else if Nonces(s.book, owner) == [] then (UseAuth(s, owner, auth), Withdrawn([]))
    else
      var w := Swept(s.book, owner, now, s.erasing);
      FinishWithdraw(s.(book := ApplySweep(s.book, owner, w, s.erasing)), owner, auth, w)
  }

  // ---------- runs ----------

  datatype Op =
    | LockOp(owner: Address, amount: int, auth: nat, paused: bool, now: Timestamp)
    | UnbondOp(owner: Address, amount: int, auth: nat, paused: bool, now: Timestamp)
    | WithdrawOp(owner: Address, auth: nat, paused: bool, now: Timestamp)

  function Step(s: State, op: Op): (State, Reply) {
    match op
    case LockOp(o, amount, auth, paused, now) => LockStake(s, o, amount, auth, paused, now)
    case UnbondOp(o, amount, auth, paused, now) => Unbond(s, o, amount, auth, paused, now)
    case WithdrawOp(o, auth, paused, now) => Withdraw(s, o, auth, paused, now)
  }

  function Run(s: State, ops: seq<Op>): State
    decreases |ops|
  {
    if ops == [] then s else Run(Step(s, ops[0]).0, ops[1..])
  }
}
