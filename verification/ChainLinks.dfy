/** Every run of the chain store: blocks stay linked and reopening yields what memory holds. */
module ChainLinks {
  import opened ChainKeys
  import opened ChainIndex
  import opened ChainRuns

  datatype Fetched = Fetched(block: Block) | NotFound

  function GetBlockByHash(n: Node, h: Hash): Fetched {
    if Stored(h) in n.db && n.db[Stored(h)].Json? then Fetched(n.db[Stored(h)].block) else NotFound
  }

  function GetBlockByHeight(n: Node, i: nat): Fetched {
    if i in n.chain.heights then GetBlockByHash(n, n.chain.heights[i]) else NotFound
  }

  /** The block found at height `i` belongs there and names its predecessor. */
  ghost predicate LinkedAt(n: Node, d: Digests, i: nat) {
    var f := GetBlockByHeight(n, i);
    && f.Fetched? && i in n.chain.heights
    && d.hashOf(f.block.header) == n.chain.heights[i] && f.block.header.height as nat == i
    && (i > 0 ==> i - 1 in n.chain.heights && f.block.header.prev == To(n.chain.heights[i - 1])
                  && d.rootOf(f.block.txs) == Root(f.block.header.txRoot))
  }

  ghost predicate Linked(n: Node, d: Digests) {
    forall i: nat :: i <= n.chain.height ==> LinkedAt(n, d, i)
  }

  /** No block of the chain has this hash. */
  ghost predicate Unused(n: Node, h: Hash) {
    forall i: nat :: i in n.chain.heights ==> n.chain.heights[i] != h
  }

  lemma WroteStored(db: Store, b: Block, h: Hash, k: nat, x: Hash)
    requires k <= WRITES
    ensures x != h ==> SameAt(db, Wrote(db, b, h, k), Stored(x))
    ensures k > 0 ==> Has(Wrote(db, b, h, k), Stored(h), Json(b))
  {
    WroteAt(db, b, h, k, 0);
    if x != h {
      WroteElse(db, b, h, k, Stored(x));
    }
  }

  lemma FailedLinks(n: Node, o: Offer, d: Digests, k: nat)
    requires Indexed(n) && Linked(n, d) && Accepts(n, o, d) && k < WRITES && Unused(n, d.hashOf(o.block.header))
    ensures Linked(AddBlock(n, o, d, k).0, d)
  {
    var h := d.hashOf(o.block.header);
    forall i: nat | i <= n.chain.height
      ensures LinkedAt(AddBlock(n, o, d, k).0, d, i)
    {
      assert LinkedAt(n, d, i);
      WroteStored(n.db, o.block, h, k, n.chain.heights[i]);
    }
  }

  /** Adding a block keeps every block linked if and only if its hash is not that of an earlier block. */
  lemma AddLinks(n: Node, o: Offer, d: Digests, k: nat)
    requires Indexed(n) && Linked(n, d) && Accepts(n, o, d) && k >= WRITES
    ensures Linked(AddBlock(n, o, d, k).0, d) <==> Unused(n, d.hashOf(o.block.header))
  {
    AcceptedHeight(n, o, d);
    var b := o.block;
    var h := d.hashOf(b.header);
    var n' := AddBlock(n, o, d, k).0;
    assert Writes(b, h)[..WRITES] == Writes(b, h);
    WroteStored(n.db, b, h, WRITES, h);
    if Unused(n, h) {
      forall i: nat | i <= n'.chain.height
        ensures LinkedAt(n', d, i)
      {
        if i <= n.chain.height {
          assert LinkedAt(n, d, i);
          WroteStored(n.db, b, h, WRITES, n.chain.heights[i]);
        }
      }
    } else {
      var i: nat :| i in n.chain.heights && n.chain.heights[i] == h;
      assert !LinkedAt(n', d, i);
    }
  }

  // ---------- runs ----------

  /** Others may store data in the same database under hashes of their own. */
  datatype Op = Add(offer: Offer, written: nat) | Foreign(hash: Hash, value: Value)

  function Step(n: Node, d: Digests, op: Op): Node {
    match op
    case Add(o, written) => AddBlock(n, o, d, written).0
    case Foreign(h, v) => n.(db := n.db[Stored(h) := v])
  }

  function Run(n: Node, d: Digests, ops: seq<Op>): Node
    decreases |ops|
  {
    if ops == [] then n else Run(Step(n, d, ops[0]), d, ops[1..])
  }

  /** The store takes every write. */
  ghost predicate Reliable(ops: seq<Op>) {
    forall i :: 0 <= i < |ops| && ops[i].Add? ==> ops[i].written >= WRITES
  }

  /** A block that is accepted has a hash no block of the chain has. */
  ghost predicate HasNewHash(n: Node, d: Digests, op: Op) {
    op.Add? && Accepts(n, op.offer, d) ==> Unused(n, d.hashOf(op.offer.block.header))
  }

  ghost predicate AllNew(n: Node, d: Digests, ops: seq<Op>)
    decreases |ops|
  {
    ops != [] ==> HasNewHash(n, d, ops[0]) && AllNew(Step(n, d, ops[0]), d, ops[1..])
  }

  /** Others store nothing under the hash of a block of the chain. */
  ghost predicate KeepsOff(n: Node, op: Op) { op.Foreign? ==> Unused(n, op.hash) }

  ghost predicate AllKeepOff(n: Node, d: Digests, ops: seq<Op>)
    decreases |ops|
  {
    ops != [] ==> KeepsOff(n, ops[0]) && AllKeepOff(Step(n, d, ops[0]), d, ops[1..])
  }

  lemma StepIndexed(n: Node, d: Digests, op: Op)
    requires Indexed(n)
    ensures Indexed(Step(n, d, op))
  {
    if op.Add? && Accepts(n, op.offer, d) {
      if op.written < WRITES {
        FailedKeepsIndex(n, op.offer, d, op.written);
      } else {
        AddSyncs(n, op.offer, d, op.written);
      }
    }
  }

  lemma ForeignSynced(n: Node, h: Hash, v: Value)
    requires Synced(n)
    ensures Synced(n.(db := n.db[Stored(h) := v]))
  {
  }

  lemma StepSynced(n: Node, d: Digests, op: Op)
    requires Synced(n) && (op.Add? ==> op.written >= WRITES)
    ensures Synced(Step(n, d, op))
  {
    match op
    case Add(o, written) =>
      if Accepts(n, o, d) {
        AddSyncs(n, o, d, written);
      }
    case Foreign(h, v) => ForeignSynced(n, h, v);
  }

  lemma StepLinked(n: Node, d: Digests, op: Op)
    requires Indexed(n) && Linked(n, d) && HasNewHash(n, d, op) && KeepsOff(n, op)
    ensures Linked(Step(n, d, op), d)
  {
    match op
    case Add(o, written) =>
      if Accepts(n, o, d) {
        if written < WRITES {
          FailedLinks(n, o, d, written);
        } else {
          AddLinks(n, o, d, written);
        }
      }
    case Foreign(h, v) =>
      forall i: nat | i <= n.chain.height
        ensures LinkedAt(Step(n, d, op), d, i)
      {
        assert LinkedAt(n, d, i);
      }
  }

  /** In every run, failed writes included, the heights in memory are those of the store. */
  lemma {:induction false} RunIndexed(n: Node, d: Digests, ops: seq<Op>)
    requires Indexed(n)
    ensures Indexed(Run(n, d, ops))
    decreases |ops|
  {
    if ops != [] {
      StepIndexed(n, d, ops[0]);
      RunIndexed(Step(n, d, ops[0]), d, ops[1..]);
    }
  }

  /** In every run that reuses no block hash and in which others keep off the blocks, each block names its predecessor. */
  lemma {:induction false} RunLinked(n: Node, d: Digests, ops: seq<Op>)
    requires Indexed(n) && Linked(n, d) && AllNew(n, d, ops) && AllKeepOff(n, d, ops)
    ensures Linked(Run(n, d, ops), d)
    decreases |ops|
  {
    if ops != [] {
      StepIndexed(n, d, ops[0]);
      StepLinked(n, d, ops[0]);
      RunLinked(Step(n, d, ops[0]), d, ops[1..]);
    }
  }

  lemma {:induction false} RunSynced(n: Node, d: Digests, ops: seq<Op>)
    requires Synced(n) && Reliable(ops)
    ensures Synced(Run(n, d, ops))
    decreases |ops|
  {
    if ops != [] {
      StepSynced(n, d, ops[0]);
      assert Reliable(ops[1..]) by {
        assert forall i :: 0 <= i < |ops[1..]| ==> ops[1..][i] == ops[i + 1];
      }
      RunSynced(Step(n, d, ops[0]), d, ops[1..]);
    }
  }

  lemma FoundedHas(db: Store, b: Block, d: Digests, i: nat)
    requires i < GENESIS_WRITES
    ensures var w := GenesisWrites(b, d.hashOf(b.header))[i]; Has(Founded(db, b, d).db, w.0, w.1)
  {
    PutAt(db, GenesisWrites(b, d.hashOf(b.header)), i);
  }

  lemma FoundedIndex(db: Store, b: Block, d: Digests)
    requires forall i: nat :: AtHeight(i) !in db
    ensures IndexOk(Founded(db, b, d)) && AtHeight(1) !in Founded(db, b, d).db
  {
    assert Has(Founded(db, b, d).db, AtHeight(0), Digest(d.hashOf(b.header))) by { FoundedHas(db, b, d, 4); }
    forall i: nat | i > 0
      ensures AtHeight(i) !in Founded(db, b, d).db
    {
      FoundedHasNot(db, b, d, i);
    }
    IndexOne(Founded(db, b, d), d.hashOf(b.header));
  }

  lemma IndexOne(n: Node, h: Hash)
    requires n.chain.height == 0 && n.chain.heights == map[0 := h] && Has(n.db, AtHeight(0), Digest(h))
    requires forall i: nat :: i > 0 ==> AtHeight(i) !in n.db
    ensures IndexOk(n)
  {
  }

  lemma FoundedHasNot(db: Store, b: Block, d: Digests, i: nat)
    requires AtHeight(i) !in db && i > 0
    ensures AtHeight(i) !in Founded(db, b, d).db
  {
    PutElse(db, GenesisWrites(b, d.hashOf(b.header)), AtHeight(i));
  }

  lemma FoundedPointers(db: Store, b: Block, d: Digests)
    ensures PointersOk(Founded(db, b, d)) && HasHash(Founded(db, b, d).db, Genesis)
  {
    FoundedHas(db, b, d, 1);
    FoundedHas(db, b, d, 2);
    FoundedHas(db, b, d, 3);
    FoundedHas(db, b, d, 6);
  }

  /** A new chain is in step with its store and linked. */
  lemma FoundedSynced(db: Store, b: Block, d: Digests)
    requires (forall i: nat :: AtHeight(i) !in db) && b.header.height == 0
    ensures Synced(Founded(db, b, d)) && Linked(Founded(db, b, d), d)
  {
    FoundedIndex(db, b, d);
    FoundedPointers(db, b, d);
    FoundedHas(db, b, d, 0);
  }

  // ---------- reopening after every run ----------

  /** Whether a block stopped after its first write, with no block added since. */
  ghost function Torn(n: Node, d: Digests, ops: seq<Op>, torn: bool): bool
    decreases |ops|
  {
    if ops == [] then torn
    else Torn(Step(n, d, ops[0]), d, ops[1..], TornBy(n, d, ops[0], torn))
  }

  ghost function TornBy(n: Node, d: Digests, op: Op, torn: bool): bool {
    if op.Add? && Accepts(n, op.offer, d) && op.written >= WRITES then false
    else torn || (op.Add? && Accepts(n, op.offer, d) && op.written > 1)
  }

  /** The stored tip is not the one in memory. */
  ghost predicate TipLost(n: Node) { HasHash(n.db, Tip) && n.db[Tip].hash != n.chain.tip }

  lemma EarlySynced(n: Node, o: Offer, d: Digests, k: nat)
    requires Synced(n) && Accepts(n, o, d) && k <= 1
    ensures Synced(AddBlock(n, o, d, k).0)
  {
    AcceptedHeight(n, o, d);
    var h := d.hashOf(o.block.header);
    WroteIndex(n.db, o.block, h, k);
    WrotePointers(n.db, o.block, h, k);
  }

  lemma FailedTip(n: Node, o: Offer, d: Digests, k: nat)
    requires Indexed(n) && Accepts(n, o, d) && k < WRITES && Unused(n, d.hashOf(o.block.header))
    ensures k > 1 || TipLost(n) ==> TipLost(AddBlock(n, o, d, k).0)
  {
    WrotePointers(n.db, o.block, d.hashOf(o.block.header), k);
  }

  /** In step with memory, unless a block stopped part-way: then the stored tip is another one. */
  ghost predicate InStep(n: Node, torn: bool) {
    Indexed(n) && (!torn ==> Synced(n)) && (torn ==> TipLost(n))
  }

  lemma StepInStep(n: Node, d: Digests, op: Op, torn: bool)
    requires InStep(n, torn) && HasNewHash(n, d, op)
    ensures InStep(Step(n, d, op), TornBy(n, d, op, torn))
  {
    StepIndexed(n, d, op);
    match op
    case Add(o, written) =>
      if Accepts(n, o, d) {
        if written >= WRITES {
          AddSyncs(n, o, d, written);
        } else {
          FailedTip(n, o, d, written);
          if written <= 1 && !torn {
            EarlySynced(n, o, d, written);
          }
        }
      }
    case Foreign(h, v) =>
      if !torn {
        ForeignSynced(n, h, v);
      }
  }

  lemma {:induction false} RunInStep(n: Node, d: Digests, ops: seq<Op>, torn: bool)
    requires InStep(n, torn) && AllNew(n, d, ops)
    ensures InStep(Run(n, d, ops), Torn(n, d, ops, torn))
    decreases |ops|
  {
    if ops != [] {
      StepInStep(n, d, ops[0], torn);
      RunInStep(Step(n, d, ops[0]), d, ops[1..], TornBy(n, d, ops[0], torn));
    }
  }

  /**
   After every run that reuses no block hash, reopening the store rebuilds the chain held in memory
   if and only if no block stopped after its first write since the last one that was added.
   */
  lemma ReopensExactly(n: Node, d: Digests, ops: seq<Op>)
    requires Synced(n) && AllNew(n, d, ops)
    ensures Load(Run(n, d, ops).db) == Reloaded(Run(n, d, ops).chain) <==> !Torn(n, d, ops, false)
  {
    RunInStep(n, d, ops, false);
    if !Torn(n, d, ops, false) {
      ReopenSame(Run(n, d, ops));
    }
  }

  /** When no write fails, reopening rebuilds the chain held in memory after every run from a new chain, whatever the hashes. */
  lemma RunReopens(db: Store, b: Block, d: Digests, ops: seq<Op>)
    requires (forall i: nat :: AtHeight(i) !in db) && b.header.height == 0 && Reliable(ops)
    ensures var n := Run(Founded(db, b, d), d, ops); Load(n.db) == Reloaded(n.chain)
  {
    FoundedSynced(db, b, d);
    RunSynced(Founded(db, b, d), d, ops);
    ReopenSame(Run(Founded(db, b, d), d, ops));
  }

  /** Whatever writes failed before it, a block that is added makes reopening exact again. */
  lemma AddRestores(db: Store, b: Block, d: Digests, ops: seq<Op>, o: Offer)
    requires (forall i: nat :: AtHeight(i) !in db) && b.header.height == 0
    requires Accepts(Run(Founded(db, b, d), d, ops), o, d)
    ensures var n := AddBlock(Run(Founded(db, b, d), d, ops), o, d, WRITES).0; Load(n.db) == Reloaded(n.chain)
  {
    FoundedSynced(db, b, d);
    var n := Run(Founded(db, b, d), d, ops);
    RunIndexed(Founded(db, b, d), d, ops);
    AddSyncs(n, o, d, WRITES);
    ReopenSame(AddBlock(n, o, d, WRITES).0);
  }

  // ---------- hashes without collisions ----------

  /** No two of the headers hash alike. */
  ghost predicate CollisionFree(d: Digests, headers: set<Header>) {
    forall x, y :: x in headers && y in headers && d.hashOf(x) == d.hashOf(y) ==> x == y
  }

  /** Every block offered has one of the headers. */
  ghost predicate OffersOnly(ops: seq<Op>, headers: set<Header>) {
    forall i :: 0 <= i < |ops| && ops[i].Add? && ops[i].offer.Offered? ==> ops[i].offer.block.header in headers
  }

  ghost predicate NamedAt(d: Digests, headers: set<Header>, h: Hash, i: nat) {
    exists x :: x in headers && d.hashOf(x) == h && x.height as nat == i
  }

  /** Memory holds, for each height, the hash of one of the headers with that height. */
  ghost predicate Named(n: Node, d: Digests, headers: set<Header>) {
    forall i: nat :: i in n.chain.heights ==> NamedAt(d, headers, n.chain.heights[i], i)
  }

  lemma AcceptedIsNew(n: Node, o: Offer, d: Digests, headers: set<Header>)
    requires Indexed(n) && Named(n, d, headers) && CollisionFree(d, headers)
    requires Accepts(n, o, d) && o.block.header in headers
    ensures Unused(n, d.hashOf(o.block.header))
  {
    AcceptedHeight(n, o, d);
    forall i: nat | i in n.chain.heights
      ensures n.chain.heights[i] != d.hashOf(o.block.header)
    {
      assert NamedAt(d, headers, n.chain.heights[i], i);
    }
  }

  lemma StepNamed(n: Node, d: Digests, op: Op, headers: set<Header>)
    requires Named(n, d, headers) && (op.Add? && op.offer.Offered? ==> op.offer.block.header in headers)
    ensures Named(Step(n, d, op), d, headers)
  {
    if op.Add? && Accepts(n, op.offer, d) && op.written >= WRITES {
      var x := op.offer.block.header;
      assert NamedAt(d, headers, d.hashOf(x), x.height as nat);
    }
  }

  /** Without collisions no run reuses a block hash, because an accepted block has a height of its own. */
  lemma {:induction false} RunIsNew(n: Node, d: Digests, ops: seq<Op>, headers: set<Header>)
    requires Indexed(n) && Named(n, d, headers) && CollisionFree(d, headers) && OffersOnly(ops, headers)
    ensures AllNew(n, d, ops)
    decreases |ops|
  {
    if ops != [] {
      if ops[0].Add? && Accepts(n, ops[0].offer, d) {
        AcceptedIsNew(n, ops[0].offer, d, headers);
      }
      StepIndexed(n, d, ops[0]);
      StepNamed(n, d, ops[0], headers);
      assert OffersOnly(ops[1..], headers) by {
        assert forall i :: 0 <= i < |ops[1..]| ==> ops[1..][i] == ops[i + 1];
      }
      RunIsNew(Step(n, d, ops[0]), d, ops[1..], headers);
    }
  }

  lemma FoundedRunIsNew(db: Store, b: Block, d: Digests, ops: seq<Op>, headers: set<Header>)
    requires (forall i: nat :: AtHeight(i) !in db) && b.header.height == 0
    requires b.header in headers && CollisionFree(d, headers) && OffersOnly(ops, headers)
    ensures AllNew(Founded(db, b, d), d, ops)
  {
    FoundedSynced(db, b, d);
    assert NamedAt(d, headers, d.hashOf(b.header), 0);
    RunIsNew(Founded(db, b, d), d, ops, headers);
  }

  /**
   From a new chain, when no two of the headers offered hash alike: every run reopens exactly unless a block
   stopped part-way, and keeps its blocks linked if others keep off them.
   */
  lemma CollisionFreeRuns(db: Store, b: Block, d: Digests, ops: seq<Op>, headers: set<Header>)
    requires (forall i: nat :: AtHeight(i) !in db) && b.header.height == 0
    requires b.header in headers && CollisionFree(d, headers) && OffersOnly(ops, headers)
    ensures var n, n' := Founded(db, b, d), Run(Founded(db, b, d), d, ops);
            && (Load(n'.db) == Reloaded(n'.chain) <==> !Torn(n, d, ops, false))
            && (AllKeepOff(n, d, ops) ==> Linked(n', d))
  {
    FoundedSynced(db, b, d);
    FoundedRunIsNew(db, b, d, ops, headers);
    ReopensExactly(Founded(db, b, d), d, ops);
    if AllKeepOff(Founded(db, b, d), d, ops) {
      RunLinked(Founded(db, b, d), d, ops);
    }
  }
}
