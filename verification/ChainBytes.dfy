/** The chain store as it is: one table of byte strings, in which keys could clash. */
module ChainBytes {
  import opened Arithmetic
  import opened ChainKeys
  import opened ChainIndex
  import opened ChainRuns
  import opened ChainLinks

  type RawStore = map<Bytes, Value>

  datatype RawNode = RawNode(raw: RawStore, chain: Chain)

  function RawPutAll(raw: RawStore, ws: seq<(Key, Value)>): RawStore
    decreases |ws|
  {
    if ws == [] then raw else RawPutAll(raw[KeyBytes(ws[0].0) := ws[0].1], ws[1..])
  }

  function RawAddBlock(n: RawNode, o: Offer, d: Digests, written: nat): RawNode {
    if Checked(n.chain, o, d) != Added then n
    else
      var h := d.hashOf(o.block.header);
      var ws := Writes(o.block, h);
      if written < WRITES then n.(raw := RawPutAll(n.raw, ws[..written]))
      else RawNode(RawPutAll(n.raw, ws), Extended(n.chain, o.block, h))
  }

  function RawFounded(raw: RawStore, b: Block, d: Digests): RawNode {
    var h := d.hashOf(b.header);
    RawNode(RawPutAll(raw, GenesisWrites(b, h)), Chain(h, 0, map[0 := h], h, ChainIdOf(h), b.header.timestamp))
  }

  // ---------- reading ----------

  predicate RawHash(raw: RawStore, k: Key) { KeyBytes(k) in raw && raw[KeyBytes(k)].Digest? }

  function RawHashAt(raw: RawStore, k: Key): Hash
    requires RawHash(raw, k)
  {
    raw[KeyBytes(k)].hash
  }

  predicate RawWord(raw: RawStore, k: Key) { KeyBytes(k) in raw && raw[KeyBytes(k)].Word? }

  function RawIndex(raw: RawStore, n: nat): Index {
    if n == 0 then Index(map[])
    else
      var rest := RawIndex(raw, n - 1);
      if rest.Missing? then rest
      else if RawHash(raw, AtHeight(n - 1)) then Index(rest.heights[n - 1 := RawHashAt(raw, AtHeight(n - 1))])
      else Missing(n - 1)
  }

  function RawTimestamp(raw: RawStore, tip: Hash): int {
    var k := KeyBytes(Stored(tip));
    if RawWord(raw, LastTimestamp) then DecodeInt64(raw[KeyBytes(LastTimestamp)].bytes)
    else if k in raw && raw[k].Json? then raw[k].block.header.timestamp
    else 0
  }

  function RawLoad(raw: RawStore): LoadResult {
    if !RawHash(raw, Tip) then ErrTipMissing
    else if !RawWord(raw, Height) then ErrHeightMissing
    else
      var tip := RawHashAt(raw, Tip);
      var height := DecodeUint64(raw[KeyBytes(Height)].bytes);
      var index := RawIndex(raw, height + 1);
      if index.Missing? then ErrIndexMissing(index.at)
      else if 0 !in index.heights then ErrIndexMissing(0)
      else
        var genesis := index.heights[0];
        Loaded(tip, height, index.heights, genesis, ChainIdOf(genesis), RawTimestamp(raw, tip))
  }

  lemma ReadSame(raw: RawStore, db: Store, k: Key)
    requires Represents(raw, db) && Proper(k)
    ensures (KeyBytes(k) in raw <==> k in db) && (k in db ==> raw[KeyBytes(k)] == db[k])
  {
  }

  lemma HashSame(raw: RawStore, db: Store, k: Key)
    requires Represents(raw, db) && Proper(k)
    ensures SameHash(raw, db, k)
  {
    ReadSame(raw, db, k);
  }

  ghost predicate SameHash(raw: RawStore, db: Store, k: Key) {
    (RawHash(raw, k) <==> HasHash(db, k)) && (HasHash(db, k) ==> RawHashAt(raw, k) == db[k].hash)
  }

  lemma {:induction false} IndexFollows(raw: RawStore, db: Store, n: nat)
    requires forall i: nat :: i < n ==> SameHash(raw, db, AtHeight(i))
    ensures RawIndex(raw, n) == ReadIndex(db, n)
  {
    if n > 0 {
      IndexFollows(raw, db, n - 1);
      assert SameHash(raw, db, AtHeight(n - 1));
    }
  }

  lemma IndexSame(raw: RawStore, db: Store, n: nat)
    requires Represents(raw, db) && n <= UINT64
    ensures RawIndex(raw, n) == ReadIndex(db, n)
  {
    forall i: nat | i < n
      ensures SameHash(raw, db, AtHeight(i))
    {
      HashSame(raw, db, AtHeight(i));
    }
    IndexFollows(raw, db, n);
  }

  /** What the chain stores as tip fits its key. */
  ghost predicate Fits(db: Store) { HasHash(db, Tip) ==> IsHash(db[Tip].hash) }

  /** Reading the bytes yields what reading the keys does. */
  lemma LoadSame(raw: RawStore, db: Store)
    requires Represents(raw, db) && Fits(db)
    ensures RawLoad(raw) == Load(db)
  {
    ReadSame(raw, db, Tip);
    ReadSame(raw, db, Height);
    ReadSame(raw, db, LastTimestamp);
    if HasHash(db, Tip) {
      ReadSame(raw, db, Stored(db[Tip].hash));
      if HasWord(db, Height) {
        WordFits(db[Height].bytes);
        IndexSame(raw, db, DecodeUint64(db[Height].bytes) + 1);
      }
    }
  }

  // ---------- writing ----------

  ghost predicate AllProper(ws: seq<(Key, Value)>) { forall i :: 0 <= i < |ws| ==> Proper(ws[i].0) }

  lemma {:induction false} PutAllRepresents(raw: RawStore, db: Store, ws: seq<(Key, Value)>)
    requires Represents(raw, db) && AllProper(ws)
    ensures Represents(RawPutAll(raw, ws), PutAll(db, ws))
    decreases |ws|
  {
    if ws != [] {
      PutRepresents(raw, db, ws[0].0, ws[0].1);
      PutAllRepresents(raw[KeyBytes(ws[0].0) := ws[0].1], db[ws[0].0 := ws[0].1], ws[1..]);
    }
  }

  /** Header hashes are 32 bytes long. */
  ghost predicate Sized(d: Digests) { forall h :: IsHash(d.hashOf(h)) }

  /** The table holds what the keyed store does, and memory is the same. */
  ghost predicate Shows(n: RawNode, m: Node) { Represents(n.raw, m.db) && n.chain == m.chain }

  lemma AddShows(n: RawNode, m: Node, o: Offer, d: Digests, written: nat)
    requires Shows(n, m) && Sized(d)
    ensures Shows(RawAddBlock(n, o, d, written), AddBlock(m, o, d, written).0)
  {
    if Checked(n.chain, o, d) == Added {
      var ws := Writes(o.block, d.hashOf(o.block.header));
      PutAllRepresents(n.raw, m.db, if written < WRITES then ws[..written] else ws);
    }
  }

  lemma FoundedShows(raw: RawStore, db: Store, b: Block, d: Digests)
    requires Represents(raw, db) && Sized(d)
    ensures Shows(RawFounded(raw, b, d), Founded(db, b, d))
  {
    PutAllRepresents(raw, db, GenesisWrites(b, d.hashOf(b.header)));
  }

  // ---------- other data in the same table ----------

  /** Not a name of the chain's own pointers and indexes; 32 bytes may be the name of stored data. */
  ghost predicate Outside(bytes: Bytes) {
    forall k :: Proper(k) && !k.Stored? ==> KeyBytes(k) != bytes
  }

  datatype RawOp = RawAdd(offer: Offer, written: nat) | RawForeign(name: Bytes, value: Value)

  function RawStep(n: RawNode, d: Digests, op: RawOp): RawNode {
    match op
    case RawAdd(o, written) => RawAddBlock(n, o, d, written)
    case RawForeign(name, v) => n.(raw := n.raw[name := v])
  }

  function RawRun(n: RawNode, d: Digests, ops: seq<RawOp>): RawNode
    decreases |ops|
  {
    if ops == [] then n else RawRun(RawStep(n, d, ops[0]), d, ops[1..])
  }

  ghost predicate Polite(ops: seq<RawOp>) {
    forall i :: 0 <= i < |ops| && ops[i].RawForeign? ==> Outside(ops[i].name)
  }

  /** The run by keys: other data under 32 bytes is data under a hash, any other name is none of the chain's. */
  ghost function Keyed(ops: seq<RawOp>): seq<Op> {
    if ops == [] then []
    else
      var rest := Keyed(ops[1..]);
      match ops[0]
      case RawAdd(o, written) => [Add(o, written)] + rest
      case RawForeign(name, v) => if |name| == 32 then [Foreign(Decode(name), v)] + rest else rest
  }

  lemma OutsideRepresents(raw: RawStore, db: Store, name: Bytes, v: Value)
    requires Represents(raw, db) && Outside(name) && |name| != 32
    ensures Represents(raw[name := v], db)
  {
    var raw' := raw[name := v];
    forall k | Proper(k)
      ensures (KeyBytes(k) in raw' <==> k in db) && (k in db ==> raw'[KeyBytes(k)] == db[k])
    {
      assert KeyBytes(k) != name;
      ReadSame(raw, db, k);
    }
  }

  lemma StoredRepresents(raw: RawStore, db: Store, name: Bytes, v: Value)
    requires Represents(raw, db) && |name| == 32
    ensures Represents(raw[name := v], db[Stored(Decode(name)) := v])
  {
    assert KeyBytes(Stored(Decode(name))) == name && Proper(Stored(Decode(name))) by { EncodeDecode(name); }
    PutRepresents(raw, db, Stored(Decode(name)), v);
  }

  lemma ForeignShows(n: RawNode, m: Node, name: Bytes, v: Value)
    requires Shows(n, m) && Outside(name)
    ensures Shows(n.(raw := n.raw[name := v]), if |name| == 32 then m.(db := m.db[Stored(Decode(name)) := v]) else m)
  {
    if |name| == 32 {
      StoredRepresents(n.raw, m.db, name, v);
    } else {
      OutsideRepresents(n.raw, m.db, name, v);
    }
  }

  /** Over every run, failed writes included, the table of bytes holds what the keyed store does. */
  lemma {:induction false} RunShows(n: RawNode, m: Node, d: Digests, ops: seq<RawOp>)
    requires Shows(n, m) && Sized(d) && Polite(ops)
    ensures Shows(RawRun(n, d, ops), Run(m, d, Keyed(ops)))
    decreases |ops|
  {
    if ops != [] {
      var rest := ops[1..];
      assert Polite(rest) by {
        assert forall i :: 0 <= i < |rest| ==> rest[i] == ops[i + 1];
      }
      match ops[0]
      case RawAdd(o, written) =>
        AddShows(n, m, o, d, written);
        RunShows(RawStep(n, d, ops[0]), AddBlock(m, o, d, written).0, d, rest);
        RunCons(m, d, Add(o, written), Keyed(rest));
      case RawForeign(name, v) =>
        ForeignShows(n, m, name, v);
        if |name| == 32 {
          RunShows(RawStep(n, d, ops[0]), m.(db := m.db[Stored(Decode(name)) := v]), d, rest);
          RunCons(m, d, Foreign(Decode(name), v), Keyed(rest));
        } else {
          RunShows(RawStep(n, d, ops[0]), m, d, rest);
        }
    }
  }

  lemma RunCons(m: Node, d: Digests, op: Op, ops: seq<Op>)
    ensures Run(m, d, [op] + ops) == Run(Step(m, d, op), d, ops)
  {
    assert ([op] + ops)[1..] == ops;
  }

  // ---------- reopening ----------

  ghost predicate HashesFit(n: Node) { IsHash(n.chain.tip) && Fits(n.db) }

  lemma AddFits(n: Node, o: Offer, d: Digests, written: nat)
    requires HashesFit(n) && Sized(d)
    ensures HashesFit(AddBlock(n, o, d, written).0)
  {
    if Accepts(n, o, d) {
      var h := d.hashOf(o.block.header);
      var k := if written < WRITES then written else WRITES;
      assert Writes(o.block, h)[..WRITES] == Writes(o.block, h);
      WrotePointers(n.db, o.block, h, k);
    }
  }

  lemma {:induction false} RunFits(n: Node, d: Digests, ops: seq<Op>)
    requires HashesFit(n) && Sized(d)
    ensures HashesFit(Run(n, d, ops))
    decreases |ops|
  {
    if ops != [] {
      if ops[0].Add? {
        AddFits(n, ops[0].offer, d, ops[0].written);
      }
      RunFits(Step(n, d, ops[0]), d, ops[1..]);
    }
  }

  lemma FoundedFits(db: Store, b: Block, d: Digests)
    requires Sized(d)
    ensures HashesFit(Founded(db, b, d))
  {
    FoundedPointers(db, b, d);
  }

  /**
   On the table of bytes: after every run from a new chain that reuses no block hash and leaves the chain's own
   names alone, reopening rebuilds the chain held in memory if and only if no block stopped after its
   first write since the last one that was added.
   */
  lemma RawReopensExactly(raw: RawStore, db: Store, b: Block, d: Digests, ops: seq<RawOp>)
    requires Represents(raw, db) && (forall i: nat :: AtHeight(i) !in db) && b.header.height == 0
    requires Sized(d) && Polite(ops) && AllNew(Founded(db, b, d), d, Keyed(ops))
    ensures var n := RawRun(RawFounded(raw, b, d), d, ops);
            RawLoad(n.raw) == Reloaded(n.chain) <==> !Torn(Founded(db, b, d), d, Keyed(ops), false)
  {
    var m := Founded(db, b, d);
    FoundedShows(raw, db, b, d);
    RunShows(RawFounded(raw, b, d), m, d, ops);
    FoundedFits(db, b, d);
    RunFits(m, d, Keyed(ops));
    LoadSame(RawRun(RawFounded(raw, b, d), d, ops).raw, Run(m, d, Keyed(ops)).db);
    FoundedSynced(db, b, d);
    ReopensExactly(m, d, Keyed(ops));
  }
}
