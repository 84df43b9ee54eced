/** The mempool as the node runs it: a slice and a set updated in loops. */
module MempoolNode {
  import opened Accounts
  import opened Options
  import opened PosLanes
  import opened Mempool

  class Node {
    const cfg: Config
    var pool: seq<Tx>
    var proposed: set<Key>

    constructor (cfg: Config)
      ensures this.cfg == cfg && View() == State([], {})
    {
      this.cfg, pool, proposed := cfg, [], {};
    }

    ghost function View(): State
      reads this
    {
      State(pool, proposed)
    }

    method FindInvoice(invoice: nat) returns (used: bool)
      ensures used == HoldsInvoice(pool, invoice)
    {
      for i := 0 to |pool|
        invariant forall j :: 0 <= j < i ==>
                    !(pool[j].kind == Mint && pool[j].voucher.Some? && pool[j].voucher.value.invoice == invoice)
      {
        if pool[i].kind != Mint { continue; }
        if pool[i].voucher.None? { continue; }
        if pool[i].voucher.value.invoice == invoice { return true; }
      }
      return false;
    }

    /** Totals of the pool and of one sender's part of it. */
    method Measure(sender: Option<Address>) returns (bytes: nat, senderCount: nat, senderBytes: nat)
      ensures bytes == Bytes(pool)
      ensures sender.Some? ==> senderCount == SenderCount(pool, sender.value) && senderBytes == SenderBytes(pool, sender.value)
    {
      bytes, senderCount, senderBytes := 0, 0, 0;
      for i := 0 to |pool|
        invariant bytes + Bytes(pool[i..]) == Bytes(pool)
        invariant sender.Some? ==> senderCount + SenderCount(pool[i..], sender.value) == SenderCount(pool, sender.value)
        invariant sender.Some? ==> senderBytes + SenderBytes(pool[i..], sender.value) == SenderBytes(pool, sender.value)
      {
        assert pool[i..][0] == pool[i] && pool[i..][1..] == pool[i + 1..];
        bytes := bytes + pool[i].size;
        if sender.Some? && SentBy(pool[i], sender.value) {
          senderCount := senderCount + 1;
          senderBytes := senderBytes + pool[i].size;
        }
      }
    }

    method AddTransaction(tx: Tx, valid: bool, admitted: bool) returns (r: Reply)
      modifies this
      ensures (View(), r) == Add(old(View()), cfg, tx, valid, admitted)
    {
      if !valid || (tx.kind != Mint && tx.sender.None?) { return Failed(Invalid); }
      if tx.kind == Mint {
        if tx.voucher.None? { return Failed(Invalid); }
        var used := FindInvoice(tx.voucher.value.invoice);
        if used { return Failed(InvoiceUsed); }
      }
      if cfg.limit > 0 && |pool| >= cfg.limit { return Failed(PoolFull); }
      var sender := if tx.kind == Mint then None else tx.sender;
      var bytes, senderCount, senderBytes := Measure(sender);
      if cfg.maxBytes > 0 && bytes + tx.size > cfg.maxBytes { return Failed(ByteLimit); }
      if sender.Some? {
        if senderCount >= MAX_SENDER_TXS || senderBytes + tx.size > MAX_SENDER_BYTES { return Failed(SenderLimit); }
        if !admitted { return Failed(NotAdmitted); }
      }
      pool := pool + [tx];
      return Added;
    }

    /** Drops expired mints and forgets that they were proposed. */
    method DropExpired(now: int)
      modifies this
      ensures pool == Unexpired(old(pool), now) && proposed == old(proposed) - ExpiredKeys(old(pool), now)
    {
      var original, filtered := pool, [];
      for i := 0 to |original|
        invariant filtered + Unexpired(original[i..], now) == Unexpired(original, now)
        invariant proposed == old(proposed) - ExpiredKeys(original[..i], now)
        invariant pool == original
      {
        assert original[i..][0] == original[i] && original[i..][1..] == original[i + 1..];
        assert ExpiredKeys(original[..i + 1], now) == ExpiredKeys(original[..i], now)
          + (if Expired(original[i], now) && KeyOf(original[i]).Some? then {KeyOf(original[i]).value} else {}) by {
          var next := original[..i + 1];
          assert next == original[..i] + [original[i]];
          assert next[i] == original[i];
          assert forall j :: 0 <= j < i ==> next[j] == original[..i][j];
        }
        var tx := original[i];
        if Expired(tx, now) {
          var key := KeyOf(tx);
          if key.Some? {
            proposed := proposed - {key.value};
          }
          continue;
        }
        filtered := filtered + [tx];
      }
      assert original[..|original|] == original;
      pool := filtered;
    }

    /** Hands out, in order, what is not proposed yet, and marks it proposed. */
    method HandOut(ordered: seq<Tx>) returns (txs: seq<Tx>)
      modifies this`proposed
      ensures txs == Pick(ordered, old(proposed)) && proposed == old(proposed) + KeysOf(txs)
    {
      txs := [];
      for i := 0 to |ordered|
        invariant txs + Pick(ordered[i..], proposed) == Pick(ordered, old(proposed))
        invariant proposed == old(proposed) + KeysOf(txs)
      {
        assert ordered[i..][0] == ordered[i] && ordered[i..][1..] == ordered[i + 1..];
        var key := KeyOf(ordered[i]);
        if key.None? { continue; }
        if key.value in proposed { continue; }
        ghost var before := txs;
        proposed := proposed + {key.value};
        txs := txs + [ordered[i]];
        KeysAppend(before, ordered[i]);
      }
    }

    method GetMempool(now: int) returns (txs: seq<Tx>)
      modifies this
      ensures (View(), Handed(txs)) == Get(old(View()), cfg, now)
    {
      DropExpired(now);
      if |pool| == 0 { return []; }
      var present := SomeAll(pool);
      var lanes := Classify(present);
      PresentAll(pool);
      var ordered, usage := Schedule(lanes, if cfg.maxTxs <= 0 then |pool| else cfg.maxTxs, cfg.posBps);
      txs := HandOut(ordered);
    }

    method RequeueTransactions(txs: seq<Tx>)
      modifies this`proposed
      ensures View() == Requeue(old(View()), txs)
    {
      if |txs| == 0 || |proposed| == 0 { return; }
      for i := 0 to |txs|
        invariant proposed == old(proposed) - KeysOf(txs[..i])
      {
        assert txs[..i + 1] == txs[..i] + [txs[i]];
        KeysAppend(txs[..i], txs[i]);
        var key := KeyOf(txs[i]);
        if key.None? { continue; }
        proposed := proposed - {key.value};
      }
      assert txs[..|txs|] == txs;
    }

    /** Collects the committed keys and takes them off the proposed set. */
    method ReleaseKeys(txs: seq<Tx>) returns (committed: set<Key>)
      modifies this`proposed
      ensures committed == KeysOf(txs) && proposed == old(proposed) - committed
    {
      committed := {};
      for i := 0 to |txs|
        invariant committed == KeysOf(txs[..i]) && proposed == old(proposed) - committed
      {
        assert txs[..i + 1] == txs[..i] + [txs[i]];
        KeysAppend(txs[..i], txs[i]);
        var key := KeyOf(txs[i]);
        if key.None? { continue; }
        committed := committed + {key.value};
        proposed := proposed - {key.value};
      }
      assert txs[..|txs|] == txs;
    }

    method DropCommitted(committed: set<Key>)
      modifies this`pool
      ensures pool == Uncommitted(old(pool), committed)
    {
      var filtered := [];
      for i := 0 to |pool|
        invariant filtered + Uncommitted(pool[i..], committed) == Uncommitted(pool, committed)
        invariant pool == old(pool)
      {
        assert pool[i..][0] == pool[i] && pool[i..][1..] == pool[i + 1..];
        var key := KeyOf(pool[i]);
        if key.None? {
          filtered := filtered + [pool[i]];
          continue;
        }
        if key.value in committed { continue; }
        filtered := filtered + [pool[i]];
      }
      pool := filtered;
    }

    method MarkCommitted(txs: seq<Tx>)
      modifies this
      ensures View() == Commit(old(View()), txs)
    {
      NothingCommitted(pool);
      assert |txs| == 0 ==> KeysOf(txs) == {};
      if |txs| == 0 { return; }
      if |pool| == 0 && |proposed| == 0 {
        assert proposed - KeysOf(txs) == proposed;
        return;
      }
      var committed := ReleaseKeys(txs);
      if |committed| == 0 || |pool| == 0 { return; }
      DropCommitted(committed);
    }
  }

  lemma KeysAppend(txs: seq<Tx>, tx: Tx)
    ensures KeysOf(txs + [tx]) == KeysOf(txs) + (if KeyOf(tx).Some? then {KeyOf(tx).value} else {})
  {
    var next := txs + [tx];
    assert next[|txs|] == tx && forall j :: 0 <= j < |txs| ==> next[j] == txs[j];
  }

  lemma {:induction false} NothingCommitted(pool: seq<Tx>)
    ensures Uncommitted(pool, {}) == pool
  {
    if pool != [] {
      NothingCommitted(pool[1..]);
    }
  }

  function SomeAll(txs: seq<Tx>): seq<Option<Tx>> {
    if txs == [] then [] else [Some(txs[0])] + SomeAll(txs[1..])
  }

  lemma {:induction false} PresentAll(txs: seq<Tx>)
    ensures Present(SomeAll(txs)) == txs
  {
    if txs != [] {
      PresentAll(txs[1..]);
      assert SomeAll(txs)[1..] == SomeAll(txs[1..]);
    }
  }
}
