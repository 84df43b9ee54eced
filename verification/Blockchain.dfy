/** The blockchain object, its writes one after the other, and the loop that reloads the height index. */
module Blockchain {
  import opened Arithmetic
  import opened ChainKeys
  import opened ChainIndex
  import opened ChainRuns
  import opened ChainLinks

  lemma {:induction false} ReadIndexStops(db: Store, i: nat, n: nat)
    requires i <= n && ReadIndex(db, i).Missing?
    ensures ReadIndex(db, n) == ReadIndex(db, i)
  {
    if i < n {
      ReadIndexStops(db, i, n - 1);
    }
  }

  /** The words read have eight bytes, and the loop over the heights ends: its counter passes the height or one is missing. */
  ghost predicate Readable(db: Store) {
    && (HasHash(db, Tip) && HasWord(db, Height) ==>
          && |db[Height].bytes| >= 8
          && (DecodeUint64(db[Height].bytes) == UINT64 - 1 ==> ReadIndex(db, UINT64).Missing?))
    && (Load(db).Loaded? && HasWord(db, LastTimestamp) ==> |db[LastTimestamp].bytes| >= 8)
  }

  /** The loop over the heights, with a counter that wraps at 64 bits. */
  method LoadHeights(db: Store, height: Uint64) returns (index: Index)
    requires height == UINT64 - 1 ==> ReadIndex(db, UINT64).Missing?
    ensures index == ReadIndex(db, height + 1)
  {
    var heights: map<nat, Hash> := map[];
    var i: Uint64 := 0;
    ghost var turns: nat := 0;
    while i <= height
      invariant turns <= height + 1 && i == turns % UINT64 && ReadIndex(db, turns) == Index(heights)
      decreases height + 1 - turns
    {
      assert turns < UINT64;
      if !HasHash(db, AtHeight(i)) {
        ReadIndexStops(db, i + 1, height + 1);
        return Missing(i);
      }
      heights := heights[i := db[AtHeight(i)].hash];
      i := (i + 1) % UINT64;
      turns := turns + 1;
    }
    return Index(heights);
  }

  lemma {:induction false} ReadIndexKeys(db: Store, n: nat)
    ensures ReadIndex(db, n).Index? ==> forall i: nat :: i in ReadIndex(db, n).heights <==> i < n
  {
    if n > 0 {
      ReadIndexKeys(db, n - 1);
    }
  }

  /** The reload path of opening a store. */
  method Open(db: Store) returns (r: LoadResult)
    requires Readable(db)
    ensures r == Load(db)
  {
    if !HasHash(db, Tip) { return ErrTipMissing; }
    if !HasWord(db, Height) { return ErrHeightMissing; }
    WordFits(db[Height].bytes);
    var height := DecodeUint64(db[Height].bytes);
    var index := LoadHeights(db, height);
    if index.Missing? { return ErrIndexMissing(index.at); }
    ReadIndexKeys(db, height + 1);
    var genesis := index.heights[0];
    var timestamp := 0;
    if HasWord(db, LastTimestamp) {
      timestamp := DecodeInt64(db[LastTimestamp].bytes);
    } else if Stored(db[Tip].hash) in db && db[Stored(db[Tip].hash)].Json? {
      timestamp := db[Stored(db[Tip].hash)].block.header.timestamp;
    }
    return Loaded(db[Tip].hash, height, index.heights, genesis, ChainIdOf(genesis), timestamp);
  }

  lemma {:induction false} PutAllSnoc(db: Store, ws: seq<(Key, Value)>, k: Key, v: Value)
    ensures PutAll(db, ws + [(k, v)]) == PutAll(db, ws)[k := v]
    decreases |ws|
  {
    if ws == [] {
      assert ws + [(k, v)] == [(k, v)];
    } else {
      assert (ws + [(k, v)])[1..] == ws[1..] + [(k, v)];
      PutAllSnoc(db[ws[0].0 := ws[0].1], ws[1..], k, v);
    }
  }

  lemma PutNext(db: Store, ws: seq<(Key, Value)>, i: nat)
    requires i < |ws|
    ensures PutAll(db, ws[..i + 1]) == PutAll(db, ws[..i])[ws[i].0 := ws[i].1]
  {
    assert ws[..i + 1] == ws[..i] + [(ws[i].0, ws[i].1)];
    PutAllSnoc(db, ws[..i], ws[i].0, ws[i].1);
  }

  lemma WroteNone(db: Store, b: Block, h: Hash)
    ensures Wrote(db, b, h, 0) == db
  {
  }

  lemma WroteNext(db: Store, b: Block, h: Hash, i: nat)
    requires i < WRITES
    ensures Wrote(db, b, h, i + 1) == Wrote(db, b, h, i)[Writes(b, h)[i].0 := Writes(b, h)[i].1]
  {
    PutNext(db, Writes(b, h), i);
  }

  lemma GenesisNone(db: Store, b: Block, h: Hash)
    ensures GenesisWrote(db, b, h, 0) == db
  {
  }

  lemma GenesisNext(db: Store, b: Block, h: Hash, i: nat)
    requires i < GENESIS_WRITES
    ensures GenesisWrote(db, b, h, i + 1) == GenesisWrote(db, b, h, i)[GenesisWrites(b, h)[i].0 := GenesisWrites(b, h)[i].1]
  {
    PutNext(db, GenesisWrites(b, h), i);
  }

  /** The seven writes of a genesis block, stopping at the first that fails. */
  method PutGenesis(db: Store, b: Block, h: Hash, written: nat) returns (s: Store, ok: bool)
    ensures ok == (written >= GENESIS_WRITES)
    ensures s == GenesisWrote(db, b, h, if ok then GENESIS_WRITES else written)
  {
    GenesisNone(db, b, h);
    s, ok := db, false;
    if written == 0 { return; }
    s := s[Stored(h) := Json(b)];
    GenesisNext(db, b, h, 0);
    if written == 1 { return; }
    s := s[Genesis := Digest(h)];
    GenesisNext(db, b, h, 1);
    if written == 2 { return; }
    s := s[Tip := Digest(h)];
    GenesisNext(db, b, h, 2);
    if written == 3 { return; }
    s := s[Height := Word(EncodeUint64(0))];
    GenesisNext(db, b, h, 3);
    if written == 4 { return; }
    s := s[AtHeight(0) := Digest(h)];
    GenesisNext(db, b, h, 4);
    if written == 5 { return; }
    s := s[OfHash(h) := Word(EncodeUint64(0))];
    GenesisNext(db, b, h, 5);
    if written == 6 { return; }
    s := s[LastTimestamp := Word(EncodeInt64(b.header.timestamp))];
    GenesisNext(db, b, h, 6);
    ok := true;
  }

  /** Founding a chain: all the writes and a ledger in step with them, or what was written and no ledger. */
  method Found(db: Store, b: Block, d: Digests, written: nat) returns (s: Store, ledger: Ledger?)
    ensures written < GENESIS_WRITES ==> ledger == null && s == GenesisWrote(db, b, d.hashOf(b.header), written)
    ensures written >= GENESIS_WRITES ==> ledger != null && fresh(ledger) && ledger.View() == Founded(db, b, d) && s == ledger.db
  {
    var h := d.hashOf(b.header);
    var ok;
    s, ok := PutGenesis(db, b, h, written);
    assert GenesisWrites(b, h)[..GENESIS_WRITES] == GenesisWrites(b, h);
    if !ok { return s, null; }
    ledger := new Ledger(s, h, b.header.timestamp);
  }

  class Ledger {
    var db: Store
    var tip: Hash
    var height: Uint64
    var heights: map<nat, Hash>
    const genesis: Hash
    const chainId: nat
    var lastTimestamp: Int64

    /** The memory of a chain that has just been founded. */
    constructor (db: Store, h: Hash, timestamp: Int64)
      ensures View() == Node(db, Chain(h, 0, map[0 := h], h, ChainIdOf(h), timestamp))
    {
      this.db := db;
      tip, height, heights, genesis := h, 0, map[0 := h], h;
      chainId, lastTimestamp := ChainIdOf(h), timestamp;
    }

    ghost function View(): Node
      reads this
    {
      Node(db, Chain(tip, height, heights, genesis, chainId, lastTimestamp))
    }

    /** The six writes of a block, stopping at the first that fails. */
    method PutBlock(b: Block, h: Hash, written: nat) returns (ok: bool)
      modifies this`db
      ensures ok == (written >= WRITES)
      ensures db == Wrote(old(db), b, h, if ok then WRITES else written)
    {
      WroteNone(db, b, h);
      if written == 0 { return false; }
      db := db[Stored(h) := Json(b)];
      WroteNext(old(db), b, h, 0);
      if written == 1 { return false; }
      db := db[Tip := Digest(h)];
      WroteNext(old(db), b, h, 1);
      if written == 2 { return false; }
      db := db[Height := Word(EncodeUint64(b.header.height))];
      WroteNext(old(db), b, h, 2);
      if written == 3 { return false; }
      db := db[AtHeight(b.header.height) := Digest(h)];
      WroteNext(old(db), b, h, 3);
      if written == 4 { return false; }
      db := db[OfHash(h) := Word(EncodeUint64(b.header.height))];
      WroteNext(old(db), b, h, 4);
      if written == 5 { return false; }
      db := db[LastTimestamp := Word(EncodeInt64(b.header.timestamp))];
      WroteNext(old(db), b, h, 5);
      return true;
    }

    method Add(o: Offer, d: Digests, written: nat) returns (r: Outcome)
      modifies this
      ensures (View(), r) == AddBlock(old(View()), o, d, written)
    {
      if o.NilBlock? { return ErrNilBlock; }
      if o.NoHeader? { return ErrNoHeader; }
      var b := o.block;
      if b.header.height == 0 { return ErrZeroHeight; }
      var expected := (height + 1) % UINT64;
      if b.header.height != expected { return ErrHeight; }
      if b.header.prev != To(tip) { return ErrPrevHash; }
      var root := d.rootOf(b.txs);
      if root.NoRoot? { return ErrNoTxRoot; }
      if root.root != b.header.txRoot { return ErrTxRoot; }
      var h := d.hashOf(b.header);
      var ok := PutBlock(b, h, written);
      assert Writes(b, h)[..WRITES] == Writes(b, h);
      if !ok { return ErrStore; }
      tip, height, heights, lastTimestamp := h, expected, heights[expected := h], b.header.timestamp;
      return Added;
    }

    method BlockByHeight(i: nat) returns (f: Fetched)
      ensures f == GetBlockByHeight(View(), i)
    {
      if i !in heights { return NotFound; }
      var k := Stored(heights[i]);
      if k !in db || !db[k].Json? { return NotFound; }
      return Fetched(db[k].block);
    }
  }
}
