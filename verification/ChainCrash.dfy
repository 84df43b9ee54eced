/** What reopening yields when adding a block stopped part-way. */
module ChainCrash {
  import opened ChainKeys
  import opened ChainIndex
  import opened ChainRuns

  /** What the store reopens to after the first `k` writes of a block. */
  function Recovered(c: Chain, b: Block, h: Hash, k: nat): LoadResult {
    if k <= 1 then Reloaded(c)
    else if k == 2 then Reloaded(c.(tip := h))
    else if k == 3 then ErrIndexMissing(b.header.height)
    else if k < WRITES then Reloaded(Extended(c, b, h).(lastTimestamp := c.lastTimestamp))
    else Reloaded(Extended(c, b, h))
  }

  lemma EarlyCrash(n: Node, o: Offer, d: Digests, k: nat)
    requires Synced(n) && Accepts(n, o, d) && k <= 2
    ensures var h := d.hashOf(o.block.header); Load(Wrote(n.db, o.block, h, k)) == Recovered(n.chain, o.block, h, k)
  {
    AcceptedHeight(n, o, d);
    var c, b, h := n.chain, o.block, d.hashOf(o.block.header);
    WroteIndex(n.db, b, h, k);
    WrotePointers(n.db, b, h, k);
    LoadExact(Wrote(n.db, b, h, k), if k <= 1 then c.tip else h, c.height, c.heights, c.lastTimestamp);
  }

  lemma LateCrash(n: Node, o: Offer, d: Digests, k: nat)
    requires Synced(n) && Accepts(n, o, d) && 4 <= k <= WRITES
    ensures var h := d.hashOf(o.block.header); Load(Wrote(n.db, o.block, h, k)) == Recovered(n.chain, o.block, h, k)
  {
    AcceptedHeight(n, o, d);
    var c, b, h := n.chain, o.block, d.hashOf(o.block.header);
    WroteIndex(n.db, b, h, k);
    WrotePointers(n.db, b, h, k);
    LoadExact(Wrote(n.db, b, h, k), h, b.header.height, Extended(c, b, h).heights,
              if k < WRITES then c.lastTimestamp else b.header.timestamp);
  }

  lemma HeightOnlyCrash(n: Node, o: Offer, d: Digests)
    requires Synced(n) && Accepts(n, o, d)
    ensures Load(Wrote(n.db, o.block, d.hashOf(o.block.header), 3)) == ErrIndexMissing(o.block.header.height)
  {
    AcceptedHeight(n, o, d);
    var c, b, h := n.chain, o.block, d.hashOf(o.block.header);
    WroteIndex(n.db, b, h, 3);
    WrotePointers(n.db, b, h, 3);
    LoadMissing(Wrote(n.db, b, h, 3), h, b.header.height, c.heights);
  }

  /**
   A store in which adding a block stopped after `k` writes reopens as the chain before or after
   the block if and only if none or one of its writes, or all of them, were made, or only writes
   were missing that change nothing.
   */
  lemma CrashExact(n: Node, o: Offer, d: Digests, k: nat)
    requires Synced(n) && Accepts(n, o, d) && k <= WRITES
    ensures var b, h := o.block, d.hashOf(o.block.header);
            var r := Load(Wrote(n.db, b, h, k));
            && r == Recovered(n.chain, b, h, k)
            && (r == Reloaded(n.chain) || r == Reloaded(Extended(n.chain, b, h)) <==>
                k <= 1 || k == WRITES
                || (k == 2 && h == n.chain.tip) || (k >= 4 && b.header.timestamp == n.chain.lastTimestamp))
  {
    AcceptedHeight(n, o, d);
    if k <= 2 {
      EarlyCrash(n, o, d, k);
    } else if k == 3 {
      HeightOnlyCrash(n, o, d);
    } else {
      LateCrash(n, o, d, k);
    }
  }

  // ---------- founding ----------

  /** No chain has been stored yet. */
  ghost predicate Vacant(db: Store) {
    && Genesis !in db && Tip !in db && Height !in db && LastTimestamp !in db
    && (forall i: nat :: AtHeight(i) !in db)
  }

  lemma GenesisAt(db: Store, b: Block, h: Hash, k: nat, i: nat)
    requires k <= GENESIS_WRITES && i < GENESIS_WRITES
    ensures i < k ==> Has(GenesisWrote(db, b, h, k), GenesisWrites(b, h)[i].0, GenesisWrites(b, h)[i].1)
    ensures k <= i ==> SameAt(db, GenesisWrote(db, b, h, k), GenesisWrites(b, h)[i].0)
  {
    var ws := GenesisWrites(b, h);
    assert forall x, y :: 0 <= x < y < GENESIS_WRITES ==> ws[x].0 != ws[y].0;
    if i < k {
      PutAt(db, ws[..k], i);
    } else {
      PutElse(db, ws[..k], ws[i].0);
    }
  }

  lemma GenesisPointers(db: Store, b: Block, h: Hash, k: nat)
    requires Vacant(db) && k <= GENESIS_WRITES
    ensures var s := GenesisWrote(db, b, h, k);
            && (k > 0 ==> Has(s, Stored(h), Json(b)))
            && (if k > 1 then Has(s, Genesis, Digest(h)) else Genesis !in s)
            && (if k > 2 then Has(s, Tip, Digest(h)) else Tip !in s)
  {
    GenesisAt(db, b, h, k, 0);
    GenesisAt(db, b, h, k, 1);
    GenesisAt(db, b, h, k, 2);
  }

  lemma GenesisHeights(db: Store, b: Block, h: Hash, k: nat)
    requires Vacant(db) && k <= GENESIS_WRITES
    ensures var s := GenesisWrote(db, b, h, k);
            && (if k > 3 then Has(s, Height, Word(EncodeUint64(0))) else Height !in s)
            && (if k > 4 then Has(s, AtHeight(0), Digest(h)) else AtHeight(0) !in s)
            && (if k > 6 then Has(s, LastTimestamp, Word(EncodeInt64(b.header.timestamp))) else LastTimestamp !in s)
  {
    GenesisAt(db, b, h, k, 3);
    GenesisAt(db, b, h, k, 4);
    GenesisAt(db, b, h, k, 6);
  }

  /**
   A store in which founding a chain stopped after `k` writes opens as the new chain if and only if
   none or one, or at least five of its seven writes were made; in between it never opens.
   */
  lemma FoundingCrashExact(db: Store, b: Block, d: Digests, k: nat)
    requires Vacant(db) && k <= GENESIS_WRITES
    ensures var h := d.hashOf(b.header);
            var r := Opened(GenesisWrote(db, b, h, k), b, d).1;
            && r == (if k == 2 then ErrTipMissing
                     else if k == 3 then ErrHeightMissing
                     else if k == 4 then ErrIndexMissing(0)
                     else Reloaded(Founded(db, b, d).chain))
            && (r == Reloaded(Founded(db, b, d).chain) <==> k <= 1 || k >= 5)
  {
    var h := d.hashOf(b.header);
    var s := GenesisWrote(db, b, h, k);
    GenesisPointers(db, b, h, k);
    GenesisHeights(db, b, h, k);
    if k == 4 {
      LoadMissing(s, h, 0, map[]);
    } else if k == 7 {
      LoadExact(s, h, 0, map[0 := h], b.header.timestamp);
    } else if k > 4 {
      LoadUntimed(s, b, h);
    }
  }
}
