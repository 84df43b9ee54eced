/** The mempool's limits, which every run keeps, and where handed-out transactions come from. */
module MempoolBounds {
  import opened Accounts
  import opened Options
  import opened PosLanes
  import opened Mempool

  ghost predicate SendersOk(pool: seq<Tx>) {
    forall a :: SenderCount(pool, a) <= MAX_SENDER_TXS && SenderBytes(pool, a) <= MAX_SENDER_BYTES
  }

  ghost predicate Decoded(pool: seq<Tx>) {
    forall i :: 0 <= i < |pool| ==> KeyOf(pool[i]).Some? && (pool[i].kind == Mint ==> pool[i].voucher.Some?)
  }

  ghost predicate SameInvoice(x: Tx, y: Tx) {
    x.kind == Mint && y.kind == Mint && x.voucher.Some? && y.voucher.Some? && x.voucher.value.invoice == y.voucher.value.invoice
  }

  /** No two pooled mints share an invoice. */
  ghost predicate InvoicesOnce(pool: seq<Tx>) {
    forall i, j :: 0 <= i < j < |pool| ==> !SameInvoice(pool[i], pool[j])
  }

  ghost predicate Inv(s: State, cfg: Config) {
    && (cfg.limit > 0 ==> |s.pool| <= cfg.limit)
    && (cfg.maxBytes > 0 ==> Bytes(s.pool) <= cfg.maxBytes)
    && SendersOk(s.pool) && Decoded(s.pool) && InvoicesOnce(s.pool)
  }

  // ---------- dropping entries ----------

  /** `xs` is `ys` with some entries left out. */
  ghost predicate Thinned(xs: seq<Tx>, ys: seq<Tx>)
    decreases |ys|
  {
    if ys == [] then xs == []
    else Thinned(xs, ys[1..]) || (xs != [] && xs[0] == ys[0] && Thinned(xs[1..], ys[1..]))
  }

  lemma {:induction false} ThinnedSizes(xs: seq<Tx>, ys: seq<Tx>, a: Address)
    requires Thinned(xs, ys)
    ensures |xs| <= |ys| && Bytes(xs) <= Bytes(ys)
    ensures SenderCount(xs, a) <= SenderCount(ys, a) && SenderBytes(xs, a) <= SenderBytes(ys, a)
    decreases |ys|
  {
    if ys != [] {
      if Thinned(xs, ys[1..]) {
        ThinnedSizes(xs, ys[1..], a);
      } else {
        ThinnedSizes(xs[1..], ys[1..], a);
      }
    }
  }

  lemma {:induction false} ThinnedMembers(xs: seq<Tx>, ys: seq<Tx>)
    requires Thinned(xs, ys)
    ensures forall x :: x in xs ==> x in ys
    ensures InvoicesOnce(ys) ==> InvoicesOnce(xs)
    decreases |ys|
  {
    if ys != [] {
      if Thinned(xs, ys[1..]) {
        ThinnedMembers(xs, ys[1..]);
      } else {
        ThinnedMembers(xs[1..], ys[1..]);
        assert xs == [xs[0]] + xs[1..];
        if InvoicesOnce(ys) {
          forall j | 1 <= j < |xs|
            ensures !SameInvoice(xs[0], xs[j])
          {
            assert xs[1..][j - 1] in ys[1..];
          }
        }
      }
    }
  }

  lemma {:induction false} UnexpiredThins(pool: seq<Tx>, now: int)
    ensures Thinned(Unexpired(pool, now), pool)
  {
    if pool != [] {
      UnexpiredThins(pool[1..], now);
      if !Expired(pool[0], now) {
        assert Unexpired(pool, now)[1..] == Unexpired(pool[1..], now);
      }
    }
  }

  lemma {:induction false} UncommittedThins(pool: seq<Tx>, committed: set<Key>)
    ensures Thinned(Uncommitted(pool, committed), pool)
    ensures forall tx :: tx in Uncommitted(pool, committed) ==> KeyOf(tx).None? || KeyOf(tx).value !in committed
  {
    if pool != [] {
      UncommittedThins(pool[1..], committed);
      if !(KeyOf(pool[0]).Some? && KeyOf(pool[0]).value in committed) {
        assert Uncommitted(pool, committed)[1..] == Uncommitted(pool[1..], committed);
      }
    }
  }

  lemma ThinnedKeeps(s: State, s': State, cfg: Config)
    requires Inv(s, cfg) && Thinned(s'.pool, s.pool)
    ensures Inv(s', cfg)
  {
    ThinnedMembers(s'.pool, s.pool);
    ThinnedSizes(s'.pool, s.pool, NO_ADDRESS);
    forall a
      ensures SenderCount(s'.pool, a) <= MAX_SENDER_TXS && SenderBytes(s'.pool, a) <= MAX_SENDER_BYTES
    {
      ThinnedSizes(s'.pool, s.pool, a);
      assert SenderCount(s.pool, a) <= MAX_SENDER_TXS;
    }
    forall i | 0 <= i < |s'.pool|
      ensures KeyOf(s'.pool[i]).Some? && (s'.pool[i].kind == Mint ==> s'.pool[i].voucher.Some?)
    {
      assert s'.pool[i] in s.pool;
    }
  }

  // ---------- adding an entry ----------

  lemma {:induction false} AppendSizes(pool: seq<Tx>, tx: Tx, a: Address)
    ensures Bytes(pool + [tx]) == Bytes(pool) + tx.size
    ensures SenderCount(pool + [tx], a) == SenderCount(pool, a) + (if SentBy(tx, a) then 1 else 0)
    ensures SenderBytes(pool + [tx], a) == SenderBytes(pool, a) + (if SentBy(tx, a) then tx.size else 0)
  {
    if pool == [] {
      assert pool + [tx] == [tx];
    } else {
      assert (pool + [tx])[1..] == pool[1..] + [tx];
      AppendSizes(pool[1..], tx, a);
    }
  }

  lemma AddKeeps(s: State, cfg: Config, tx: Tx, valid: bool, admitted: bool)
    requires Inv(s, cfg)
    ensures Inv(Add(s, cfg, tx, valid, admitted).0, cfg)
  {
    if Add(s, cfg, tx, valid, admitted).1.Added? {
      var pool := s.pool + [tx];
      AppendSizes(s.pool, tx, NO_ADDRESS);
      forall a
        ensures SenderCount(pool, a) <= MAX_SENDER_TXS && SenderBytes(pool, a) <= MAX_SENDER_BYTES
      {
        AppendSizes(s.pool, tx, a);
        assert SenderCount(s.pool, a) <= MAX_SENDER_TXS;
      }
    }
  }

  lemma StepKeeps(s: State, cfg: Config, op: Op)
    requires Inv(s, cfg)
    ensures Inv(Step(s, cfg, op).0, cfg)
  {
    match op
    case AddOp(tx, valid, admitted) => AddKeeps(s, cfg, tx, valid, admitted);
    case GetOp(now) =>
      UnexpiredThins(s.pool, now);
      ThinnedKeeps(s, Step(s, cfg, op).0, cfg);
    case RequeueOp(txs) =>
    case CommitOp(txs) =>
      UncommittedThins(s.pool, KeysOf(txs));
      ThinnedKeeps(s, Step(s, cfg, op).0, cfg);
  }

  /** Under a fixed configuration every run keeps count, byte and sender limits and one mint per invoice. */
  lemma {:induction false} RunKeeps(s: State, cfg: Config, ops: seq<Op>)
    requires Inv(s, cfg)
    ensures Inv(Run(s, cfg, ops), cfg)
    decreases |ops|
  {
    if ops != [] {
      StepKeeps(s, cfg, ops[0]);
      RunKeeps(Step(s, cfg, ops[0]).0, cfg, ops[1..]);
    }
  }

  /** After a commit neither the pool nor the proposed set knows a committed key. */
  lemma CommitClears(s: State, txs: seq<Tx>, k: Key)
    requires k in KeysOf(txs)
    ensures k !in KeysOf(Commit(s, txs).pool) && k !in Commit(s, txs).proposed
  {
    UncommittedThins(s.pool, KeysOf(txs));
    var pool := Commit(s, txs).pool;
    forall i | 0 <= i < |pool|
      ensures KeyOf(pool[i]) != Some(k)
    {
      assert pool[i] in pool;
    }
  }

  // ---------- where handed-out transactions come from ----------

  lemma {:induction false} LanesCover(pool: seq<Tx>)
    ensures multiset(Filter(pool, true)) + multiset(Filter(pool, false)) == multiset(pool)
  {
    if pool != [] {
      LanesCover(pool[1..]);
      assert pool == [pool[0]] + pool[1..];
    }
  }

  lemma {:induction false} PickMembers(ordered: seq<Tx>, proposed: set<Key>)
    ensures forall tx :: tx in Pick(ordered, proposed) ==> tx in ordered
    decreases |ordered|
  {
    if ordered != [] {
      var key := KeyOf(ordered[0]);
      if key.None? || key.value in proposed {
        PickMembers(ordered[1..], proposed);
      } else {
        PickMembers(ordered[1..], proposed + {key.value});
      }
    }
  }

  lemma {:induction false} UnexpiredLive(pool: seq<Tx>, now: int)
    ensures forall tx :: tx in Unexpired(pool, now) ==> tx in pool && !Expired(tx, now)
  {
    if pool != [] {
      UnexpiredLive(pool[1..], now);
    }
  }

  /** Only pooled transactions are handed out, and no expired mint. */
  lemma HandedFromPool(s: State, cfg: Config, now: int, tx: Tx)
    requires Get(s, cfg, now).1.Handed? && tx in Get(s, cfg, now).1.txs
    ensures tx in s.pool && !Expired(tx, now)
  {
    var pool := Unexpired(s.pool, now);
    var lanes := Lanes(Filter(pool, true), Filter(pool, false));
    FilterKind(pool, true);
    FilterKind(pool, false);
    ScheduleKeepsLanes(lanes, BlockLimit(cfg, pool), cfg.posBps);
    LanesCover(pool);
    PickMembers(Order(cfg, pool), s.proposed - ExpiredKeys(s.pool, now));
    assert tx in multiset(Order(cfg, pool));
    assert tx in multiset(pool);
    UnexpiredLive(s.pool, now);
  }
}
