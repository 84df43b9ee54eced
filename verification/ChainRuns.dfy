/** What the store keeps, what reopening it yields, and what a failed write leaves behind. */
module ChainRuns {
  import opened ChainKeys
  import opened ChainIndex

  // ---------- the height index ----------

  /** Every height up to the current one is indexed in memory and in the store, and only the next one may be stored besides. */
  ghost predicate IndexOk(n: Node) {
    && (forall i: nat :: i in n.chain.heights <==> i <= n.chain.height)
    && (forall i: nat :: i in n.chain.heights ==> AtHeight(i) in n.db && n.db[AtHeight(i)] == Digest(n.chain.heights[i]))
    && (forall i: nat :: AtHeight(i) in n.db ==> i <= n.chain.height + 1)
  }

  ghost predicate EndsOk(c: Chain) {
    && 0 in c.heights && c.heights[0] == c.genesis && c.chainId == ChainIdOf(c.genesis)
    && c.height as nat in c.heights && c.heights[c.height as nat] == c.tip
  }

  ghost predicate Indexed(n: Node) { IndexOk(n) && EndsOk(n.chain) && HasHash(n.db, Genesis) }

  /** The pointers of the store are those of memory. */
  ghost predicate PointersOk(n: Node) {
    && Tip in n.db && n.db[Tip] == Digest(n.chain.tip)
    && Height in n.db && n.db[Height] == Word(EncodeUint64(n.chain.height))
    && LastTimestamp in n.db && n.db[LastTimestamp] == Word(EncodeInt64(n.chain.lastTimestamp))
  }

  ghost predicate Synced(n: Node) {
    Indexed(n) && PointersOk(n) && AtHeight(n.chain.height + 1) !in n.db
  }

  lemma {:induction false} ReadIndexExact(db: Store, heights: map<nat, Hash>, n: nat)
    requires forall i: nat :: i < n ==> i in heights && AtHeight(i) in db && db[AtHeight(i)] == Digest(heights[i])
    ensures ReadIndex(db, n).Index?
    ensures forall i: nat :: i in ReadIndex(db, n).heights <==> i < n
    ensures forall i: nat :: i < n ==> ReadIndex(db, n).heights[i] == heights[i]
  {
    if n > 0 {
      ReadIndexExact(db, heights, n - 1);
    }
  }

  ghost predicate Has(db: Store, k: Key, v: Value) { k in db && db[k] == v }

  /** What reopening yields, from what the store holds. */
  lemma LoadExact(db: Store, tip: Hash, height: Uint64, heights: map<nat, Hash>, timestamp: Int64)
    requires Has(db, Tip, Digest(tip)) && Has(db, Height, Word(EncodeUint64(height)))
    requires Has(db, LastTimestamp, Word(EncodeInt64(timestamp)))
    requires forall i: nat :: i in heights <==> i <= height
    requires forall i: nat :: i in heights ==> Has(db, AtHeight(i), Digest(heights[i]))
    ensures Load(db) == Loaded(tip, height, heights, heights[0], ChainIdOf(heights[0]), timestamp)
  {
    Uint64RoundTrip(height);
    Int64RoundTrip(timestamp);
    ReadIndexExact(db, heights, height + 1);
    assert ReadIndex(db, height + 1).heights == heights;
  }

  lemma LoadUntimed(db: Store, b: Block, h: Hash)
    requires Has(db, Tip, Digest(h)) && Has(db, Height, Word(EncodeUint64(0))) && Has(db, AtHeight(0), Digest(h))
    requires LastTimestamp !in db && Has(db, Stored(h), Json(b))
    ensures Load(db) == Loaded(h, 0, map[0 := h], h, ChainIdOf(h), b.header.timestamp)
  {
    Uint64RoundTrip(0);
    ReadIndexExact(db, map[0 := h], 1);
    assert ReadIndex(db, 1).heights == map[0 := h];
  }

  lemma LoadMissing(db: Store, tip: Hash, height: Uint64, heights: map<nat, Hash>)
    requires Has(db, Tip, Digest(tip)) && Has(db, Height, Word(EncodeUint64(height))) && AtHeight(height) !in db
    requires forall i: nat :: i < height ==> i in heights && Has(db, AtHeight(i), Digest(heights[i]))
    ensures Load(db) == ErrIndexMissing(height)
  {
    Uint64RoundTrip(height);
    ReadIndexExact(db, heights, height);
  }

  /** Reopening a synced store rebuilds the chain held in memory. */
  lemma ReopenSame(n: Node)
    requires Synced(n)
    ensures Load(n.db) == Reloaded(n.chain)
  {
    LoadExact(n.db, n.chain.tip, n.chain.height, n.chain.heights, n.chain.lastTimestamp);
  }

  // ---------- a prefix of the writes ----------

  ghost predicate SameAt(db: Store, db': Store, k: Key) {
    (k in db' <==> k in db) && (k in db ==> db'[k] == db[k])
  }

  lemma {:induction false} PutElse(db: Store, ws: seq<(Key, Value)>, k: Key)
    requires forall i :: 0 <= i < |ws| ==> ws[i].0 != k
    ensures SameAt(db, PutAll(db, ws), k)
    decreases |ws|
  {
    if ws != [] {
      PutElse(db[ws[0].0 := ws[0].1], ws[1..], k);
    }
  }

  lemma {:induction false} PutAt(db: Store, ws: seq<(Key, Value)>, i: nat)
    requires i < |ws| && forall j :: i < j < |ws| ==> ws[j].0 != ws[i].0
    ensures Has(PutAll(db, ws), ws[i].0, ws[i].1)
    decreases |ws|
  {
    var db1 := db[ws[0].0 := ws[0].1];
    if i == 0 {
      PutElse(db1, ws[1..], ws[0].0);
    } else {
      PutAt(db1, ws[1..], i - 1);
    }
  }

  /** The store after the first `k` writes of a genesis block. */
  ghost function GenesisWrote(db: Store, b: Block, h: Hash, k: nat): Store
    requires k <= GENESIS_WRITES
  {
    PutAll(db, GenesisWrites(b, h)[..k])
  }

  /** The store after the first `k` writes of a block. */
  ghost function Wrote(db: Store, b: Block, h: Hash, k: nat): Store
    requires k <= WRITES
  {
    PutAll(db, Writes(b, h)[..k])
  }

  /** The `i`-th write lands on its key once it has been made, and not before. */
  lemma WroteAt(db: Store, b: Block, h: Hash, k: nat, i: nat)
    requires k <= WRITES && i < WRITES
    ensures i < k ==> Has(Wrote(db, b, h, k), Writes(b, h)[i].0, Writes(b, h)[i].1)
    ensures k <= i ==> SameAt(db, Wrote(db, b, h, k), Writes(b, h)[i].0)
  {
    var ws := Writes(b, h);
    assert forall x, y :: 0 <= x < y < WRITES ==> ws[x].0 != ws[y].0;
    if i < k {
      PutAt(db, ws[..k], i);
    } else {
      PutElse(db, ws[..k], ws[i].0);
    }
  }

  lemma WroteElse(db: Store, b: Block, h: Hash, k: nat, key: Key)
    requires k <= WRITES && forall i :: 0 <= i < WRITES ==> Writes(b, h)[i].0 != key
    ensures SameAt(db, Wrote(db, b, h, k), key)
  {
    PutElse(db, Writes(b, h)[..k], key);
  }

  lemma WrotePointers(db: Store, b: Block, h: Hash, k: nat)
    requires k <= WRITES
    ensures var db' := Wrote(db, b, h, k);
            && (if k > 1 then Has(db', Tip, Digest(h)) else SameAt(db, db', Tip))
            && (if k > 2 then Has(db', Height, Word(EncodeUint64(b.header.height))) else SameAt(db, db', Height))
            && (if k > 5 then Has(db', LastTimestamp, Word(EncodeInt64(b.header.timestamp)))
                else SameAt(db, db', LastTimestamp))
            && SameAt(db, db', Genesis)
  {
    WroteAt(db, b, h, k, 1);
    WroteAt(db, b, h, k, 2);
    WroteAt(db, b, h, k, 5);
    WroteElse(db, b, h, k, Genesis);
  }

  lemma WroteIndex(db: Store, b: Block, h: Hash, k: nat)
    requires k <= WRITES
    ensures var db' := Wrote(db, b, h, k);
            && (forall i: nat :: i != b.header.height as nat ==> SameAt(db, db', AtHeight(i)))
            && (if k > 3 then Has(db', AtHeight(b.header.height), Digest(h))
                else SameAt(db, db', AtHeight(b.header.height)))
  {
    WroteAt(db, b, h, k, 3);
    forall i: nat | i != b.header.height as nat
      ensures SameAt(db, Wrote(db, b, h, k), AtHeight(i))
    {
      WroteElse(db, b, h, k, AtHeight(i));
    }
  }

  // ---------- adding ----------

  /** The block an accepted offer holds. */
  ghost predicate Accepts(n: Node, o: Offer, d: Digests) { Checked(n.chain, o, d) == Added }

  lemma AcceptedHeight(n: Node, o: Offer, d: Digests)
    requires Accepts(n, o, d)
    ensures o.Offered? && o.block.header.height as nat == n.chain.height as nat + 1 && o.block.header.prev == To(n.chain.tip)
  {
  }

  /** A failed write leaves the index of the blocks in memory intact. */
  lemma FailedKeepsIndex(n: Node, o: Offer, d: Digests, k: nat)
    requires Indexed(n) && Accepts(n, o, d) && k < WRITES
    ensures Indexed(AddBlock(n, o, d, k).0)
  {
    AcceptedHeight(n, o, d);
    var h := d.hashOf(o.block.header);
    WroteIndex(n.db, o.block, h, k);
    WrotePointers(n.db, o.block, h, k);
  }

  /** A block that is added brings store and memory in step, also after failed writes. */
  lemma AddSyncs(n: Node, o: Offer, d: Digests, k: nat)
    requires Indexed(n) && Accepts(n, o, d) && k >= WRITES
    ensures Synced(AddBlock(n, o, d, k).0)
  {
    AcceptedHeight(n, o, d);
    var b := o.block;
    var h := d.hashOf(b.header);
    assert Writes(b, h)[..WRITES] == Writes(b, h);
    WroteIndex(n.db, b, h, WRITES);
    WrotePointers(n.db, b, h, WRITES);
  }
}
