/** The node's mempool: admission, hand-out to the proposer, requeueing and removal of committed transactions. */
module Mempool {
  import opened Accounts
  import opened Options
  import opened PosLanes

  const MAX_SENDER_TXS: nat := 32
  const MAX_SENDER_BYTES: nat := 256 * 1024

  /** The key a transaction is tracked by: its hash, and its sender unless it is a mint. */
  datatype Key = MintKey(hash: nat) | SignedKey(hash: nat, sender: Address)

  /** Fixed limits; zero or less switches a limit off. */
  datatype Config = Config(limit: int, maxBytes: int, maxTxs: int, posBps: nat)

  datatype State = State(pool: seq<Tx>, proposed: set<Key>)

  datatype Failure = Invalid | InvoiceUsed | PoolFull | ByteLimit | SenderLimit | NotAdmitted

  datatype Reply = Added | Handed(txs: seq<Tx>) | Done | Failed(why: Failure)

  function KeyOf(tx: Tx): Option<Key> {
    if tx.kind == Mint then Some(MintKey(tx.hash))
    else if tx.sender.Some? then Some(SignedKey(tx.hash, tx.sender.value))
    else None
  }

  function KeysOf(txs: seq<Tx>): set<Key> {
    set i | 0 <= i < |txs| && KeyOf(txs[i]).Some? :: KeyOf(txs[i]).value
  }

  // ---------- measures of the pool ----------

  function Bytes(pool: seq<Tx>): nat {
    if pool == [] then 0 else pool[0].size + Bytes(pool[1..])
  }

  predicate SentBy(tx: Tx, a: Address) { tx.kind != Mint && tx.sender == Some(a) }

  function SenderCount(pool: seq<Tx>, a: Address): nat {
    if pool == [] then 0 else (if SentBy(pool[0], a) then 1 else 0) + SenderCount(pool[1..], a)
  }

  function SenderBytes(pool: seq<Tx>, a: Address): nat {
    if pool == [] then 0 else (if SentBy(pool[0], a) then pool[0].size else 0) + SenderBytes(pool[1..], a)
  }

  predicate HoldsInvoice(pool: seq<Tx>, invoice: nat) {
    exists i :: 0 <= i < |pool| && pool[i].kind == Mint && pool[i].voucher.Some? && pool[i].voucher.value.invoice == invoice
  }

  // ---------- admission ----------

  /**
   `valid` stands for signature, chain and simulation checks, `admitted` for the
   sender's nonce register and quota.
   */
  function Add(s: State, cfg: Config, tx: Tx, valid: bool, admitted: bool): (State, Reply) {
    if !valid || (tx.kind != Mint && tx.sender.None?) then (s, Failed(Invalid))
    else if tx.kind == Mint && tx.voucher.None? then (s, Failed(Invalid))
    else if tx.kind == Mint && HoldsInvoice(s.pool, tx.voucher.value.invoice) then (s, Failed(InvoiceUsed))
    else if cfg.limit > 0 && |s.pool| >= cfg.limit then (s, Failed(PoolFull))
    else if cfg.maxBytes > 0 && Bytes(s.pool) + tx.size > cfg.maxBytes then (s, Failed(ByteLimit))
    else if tx.kind != Mint && (SenderCount(s.pool, tx.sender.value) >= MAX_SENDER_TXS
                                || SenderBytes(s.pool, tx.sender.value) + tx.size > MAX_SENDER_BYTES)
    then (s, Failed(SenderLimit))
    else if tx.kind != Mint && !admitted then (s, Failed(NotAdmitted))
    else (s.(pool := s.pool + [tx]), Added)
  }

  // ---------- hand-out ----------

  predicate Expired(tx: Tx, now: int) {
    tx.kind == Mint && (tx.voucher.None? || tx.voucher.value.expiry <= now)
  }

  function Unexpired(pool: seq<Tx>, now: int): seq<Tx> {
    if pool == [] then []
    else if Expired(pool[0], now) then Unexpired(pool[1..], now)
    else [pool[0]] + Unexpired(pool[1..], now)
  }

  function ExpiredKeys(pool: seq<Tx>, now: int): set<Key> {
    set i | 0 <= i < |pool| && Expired(pool[i], now) && KeyOf(pool[i]).Some? :: KeyOf(pool[i]).value
  }

  /** The transactions handed out: in order, those whose key is not yet proposed, each key once. */
  function Pick(ordered: seq<Tx>, proposed: set<Key>): seq<Tx>
    decreases |ordered|
  {
    if ordered == [] then []
    else
      var key := KeyOf(ordered[0]);
      if key.None? || key.value in proposed then Pick(ordered[1..], proposed)
      else [ordered[0]] + Pick(ordered[1..], proposed + {key.value})
  }

  function BlockLimit(cfg: Config, pool: seq<Tx>): int { if cfg.maxTxs <= 0 then |pool| else cfg.maxTxs }

  function Order(cfg: Config, pool: seq<Tx>): seq<Tx> {
    Scheduled(Lanes(Filter(pool, true), Filter(pool, false)), BlockLimit(cfg, pool), cfg.posBps)
  }

  function Get(s: State, cfg: Config, now: int): (State, Reply) {
    var pool := Unexpired(s.pool, now);
    var proposed := s.proposed - ExpiredKeys(s.pool, now);
    if pool == [] then (State(pool, proposed), Handed([]))
    else
      var txs := Pick(Order(cfg, pool), proposed);
      (State(pool, proposed + KeysOf(txs)), Handed(txs))
  }

  // ---------- requeue and commit ----------

  function Requeue(s: State, txs: seq<Tx>): State { s.(proposed := s.proposed - KeysOf(txs)) }

  function Uncommitted(pool: seq<Tx>, committed: set<Key>): seq<Tx> {
    if pool == [] then []
    else if KeyOf(pool[0]).Some? && KeyOf(pool[0]).value in committed then Uncommitted(pool[1..], committed)
    else [pool[0]] + Uncommitted(pool[1..], committed)
  }

  function Commit(s: State, txs: seq<Tx>): State {
    State(Uncommitted(s.pool, KeysOf(txs)), s.proposed - KeysOf(txs))
  }

  // ---------- runs ----------

  datatype Op =
    | AddOp(tx: Tx, valid: bool, admitted: bool)
    | GetOp(now: int)
    | RequeueOp(txs: seq<Tx>)
    | CommitOp(txs: seq<Tx>)

  function Step(s: State, cfg: Config, op: Op): (State, Reply) {
    match op
    case AddOp(tx, valid, admitted) => Add(s, cfg, tx, valid, admitted)
    case GetOp(now) => Get(s, cfg, now)
    case RequeueOp(txs) => (Requeue(s, txs), Done)
    case CommitOp(txs) => (Commit(s, txs), Done)
  }

  function Run(s: State, cfg: Config, ops: seq<Op>): State
    decreases |ops|
  {
    if ops == [] then s else Run(Step(s, cfg, ops[0]).0, cfg, ops[1..])
  }

  // ---------- every key is handed out once ----------

  /** Every transaction has a key, none of them in `proposed`. */
  ghost predicate NewKeys(txs: seq<Tx>, proposed: set<Key>) {
    forall i :: 0 <= i < |txs| ==> KeyOf(txs[i]).Some? && KeyOf(txs[i]).value !in proposed
  }

  ghost predicate DistinctKeys(txs: seq<Tx>) {
    forall i, j :: 0 <= i < j < |txs| ==> KeyOf(txs[i]) != KeyOf(txs[j])
  }

  /** Nothing already proposed is picked, and nothing is picked twice. */
  lemma {:induction false} PickDistinct(ordered: seq<Tx>, proposed: set<Key>)
    ensures NewKeys(Pick(ordered, proposed), proposed) && DistinctKeys(Pick(ordered, proposed))
    decreases |ordered|
  {
    if ordered != [] {
      var key := KeyOf(ordered[0]);
      if key.None? || key.value in proposed {
        PickDistinct(ordered[1..], proposed);
      } else {
        var rest := Pick(ordered[1..], proposed + {key.value});
        PickDistinct(ordered[1..], proposed + {key.value});
        var txs := [ordered[0]] + rest;
        assert forall i :: 1 <= i < |txs| ==> txs[i] == rest[i - 1];
        assert NewKeys(txs, proposed) && DistinctKeys(txs);
      }
    }
  }

  /** The operation gives the key back: requeued, committed, or its mint voucher expired. */
  ghost predicate Releases(s: State, op: Op, k: Key) {
    match op
    case AddOp(_, _, _) => false
    case GetOp(now) => k in ExpiredKeys(s.pool, now)
    case RequeueOp(txs) => k in KeysOf(txs)
    case CommitOp(txs) => k in KeysOf(txs)
  }

  ghost predicate HandsOut(r: Reply, k: Key) { r.Handed? && k in KeysOf(r.txs) }

  ghost predicate NeverReleased(s: State, cfg: Config, ops: seq<Op>, k: Key)
    decreases |ops|
  {
    ops == [] || (!Releases(s, ops[0], k) && NeverReleased(Step(s, cfg, ops[0]).0, cfg, ops[1..], k))
  }

  lemma StepHeld(s: State, cfg: Config, op: Op, k: Key)
    requires k in s.proposed && !Releases(s, op, k)
    ensures k in Step(s, cfg, op).0.proposed && !HandsOut(Step(s, cfg, op).1, k)
  {
    if op.GetOp? && Unexpired(s.pool, op.now) != [] {
      PickDistinct(Order(cfg, Unexpired(s.pool, op.now)), s.proposed - ExpiredKeys(s.pool, op.now));
    }
  }

  /** While a proposed key is not released, it stays proposed. */
  lemma {:induction false} RunHeld(s: State, cfg: Config, ops: seq<Op>, k: Key)
    requires k in s.proposed && NeverReleased(s, cfg, ops, k)
    ensures k in Run(s, cfg, ops).proposed
    decreases |ops|
  {
    if ops != [] {
      StepHeld(s, cfg, ops[0], k);
      RunHeld(Step(s, cfg, ops[0]).0, cfg, ops[1..], k);
    }
  }

  /**
   A key handed out once is handed out again neither by the same call nor by any
   later one, until it is requeued, committed or expired.
   */
  lemma HandedOnce(s: State, cfg: Config, first: Op, between: seq<Op>, again: Op, k: Key)
    requires first.GetOp? && HandsOut(Step(s, cfg, first).1, k)
    requires NeverReleased(Step(s, cfg, first).0, cfg, between, k)
    requires !Releases(Run(Step(s, cfg, first).0, cfg, between), again, k)
    ensures !HandsOut(Step(Run(Step(s, cfg, first).0, cfg, between), cfg, again).1, k)
    ensures DistinctKeys(Step(s, cfg, first).1.txs)
  {
    var pool := Unexpired(s.pool, first.now);
    PickDistinct(Order(cfg, pool), s.proposed - ExpiredKeys(s.pool, first.now));
    RunHeld(Step(s, cfg, first).0, cfg, between, k);
    StepHeld(Run(Step(s, cfg, first).0, cfg, between), cfg, again, k);
  }
}
