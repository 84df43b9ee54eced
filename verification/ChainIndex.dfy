/** The chain store: adding blocks write by write, and rebuilding the chain from the store. */
module ChainIndex {
  import opened Arithmetic
  import opened ChainKeys

  type Uint64 = v: nat | v < UINT64
  type Int64 = v: int | IsInt64(v)

  /** A parent hash field holds a hash or some other byte string, such as the empty one of the genesis block. */
  datatype Link = NoHash | To(hash: Hash)

  datatype Header =
    Header(height: Uint64, timestamp: Int64, prev: Link, stateRoot: nat, txRoot: nat, validator: nat)

  datatype Block = Block(header: Header, txs: seq<nat>)

  /** What a caller may pass as a block. */
  datatype Offer = NilBlock | NoHeader | Offered(block: Block)

  /** Header hashing and the transaction root, which may fail. */
  datatype RootResult = NoRoot | Root(root: nat)
  datatype Digests = Digests(hashOf: Header -> Hash, rootOf: seq<nat> -> RootResult)

  datatype Value = Digest(hash: Hash) | Word(bytes: Bytes) | Json(block: Block)
  type Store = map<Key, Value>

  datatype Chain =
    Chain(tip: Hash, height: Uint64, heights: map<nat, Hash>, genesis: Hash, chainId: nat, lastTimestamp: Int64)

  datatype Node = Node(db: Store, chain: Chain)

  datatype Outcome =
    | Added
    | ErrNilBlock
    | ErrNoHeader
    | ErrZeroHeight
    | ErrHeight
    | ErrPrevHash
    | ErrNoTxRoot
    | ErrTxRoot
    | ErrStore

  // ---------- adding a block ----------

  function Checked(c: Chain, o: Offer, d: Digests): Outcome {
    match o
    case NilBlock => ErrNilBlock
    case NoHeader => ErrNoHeader
    case Offered(b) =>
      if b.header.height == 0 then ErrZeroHeight
      else if b.header.height != (c.height + 1) % UINT64 then ErrHeight
      else if b.header.prev != To(c.tip) then ErrPrevHash
      else if d.rootOf(b.txs) == NoRoot then ErrNoTxRoot
      else if d.rootOf(b.txs) != Root(b.header.txRoot) then ErrTxRoot
      else Added
  }

  const WRITES: nat := 6

  /** The writes of one block, in order. */
  function Writes(b: Block, h: Hash): (ws: seq<(Key, Value)>)
    ensures |ws| == WRITES
  {
    [ (Stored(h), Json(b)),
      (Tip, Digest(h)),
      (Height, Word(EncodeUint64(b.header.height))),
      (AtHeight(b.header.height), Digest(h)),
      (OfHash(h), Word(EncodeUint64(b.header.height))),
      (LastTimestamp, Word(EncodeInt64(b.header.timestamp))) ]
  }

  function PutAll(db: Store, ws: seq<(Key, Value)>): Store
    decreases |ws|
  {
    if ws == [] then db else PutAll(db[ws[0].0 := ws[0].1], ws[1..])
  }

  function Extended(c: Chain, b: Block, h: Hash): Chain {
    Chain(h, b.header.height, c.heights[b.header.height := h], c.genesis, c.chainId, b.header.timestamp)
  }

  /** The store takes `written` writes; with fewer than all of them memory stays as it was. */
  function AddBlock(n: Node, o: Offer, d: Digests, written: nat): (Node, Outcome) {
    var r := Checked(n.chain, o, d);
    if r != Added then (n, r)
    else
      var h := d.hashOf(o.block.header);
      var ws := Writes(o.block, h);
      if written < WRITES then (n.(db := PutAll(n.db, ws[..written])), ErrStore)
      else (Node(PutAll(n.db, ws), Extended(n.chain, o.block, h)), Added)
  }

  // ---------- opening ----------

  const GENESIS_WRITES: nat := 7

  function GenesisWrites(b: Block, h: Hash): (ws: seq<(Key, Value)>)
    ensures |ws| == GENESIS_WRITES
  {
    [ (Stored(h), Json(b)),
      (Genesis, Digest(h)),
      (Tip, Digest(h)),
      (Height, Word(EncodeUint64(0))),
      (AtHeight(0), Digest(h)),
      (OfHash(h), Word(EncodeUint64(0))),
      (LastTimestamp, Word(EncodeInt64(b.header.timestamp))) ]
  }

  function Founded(db: Store, b: Block, d: Digests): Node {
    var h := d.hashOf(b.header);
    Node(PutAll(db, GenesisWrites(b, h)), Chain(h, 0, map[0 := h], h, ChainIdOf(h), b.header.timestamp))
  }

  datatype Index = Index(heights: map<nat, Hash>) | Missing(at: nat)

  predicate HasHash(db: Store, k: Key) { k in db && db[k].Digest? }

  predicate HasWord(db: Store, k: Key) { k in db && db[k].Word? }

  /** The hashes stored for heights below `n`. */
  function ReadIndex(db: Store, n: nat): Index {
    if n == 0 then Index(map[])
    else
      var rest := ReadIndex(db, n - 1);
      if rest.Missing? then rest
      else if HasHash(db, AtHeight(n - 1)) then Index(rest.heights[n - 1 := db[AtHeight(n - 1)].hash])
      else Missing(n - 1)
  }

  /** The recorded time, else that of the block at the tip. */
  function LoadTimestamp(db: Store, tip: Hash): int {
    if HasWord(db, LastTimestamp) then DecodeInt64(db[LastTimestamp].bytes)
    else if Stored(tip) in db && db[Stored(tip)].Json? then db[Stored(tip)].block.header.timestamp
    else 0
  }

  datatype LoadResult =
    | Loaded(tip: Hash, height: nat, heights: map<nat, Hash>, genesis: Hash, chainId: nat, lastTimestamp: int)
    | ErrTipMissing
    | ErrHeightMissing
    | ErrIndexMissing(at: nat)

  /** Rebuilds the chain from a store that has a genesis block. */
  function Load(db: Store): LoadResult {
    if !HasHash(db, Tip) then ErrTipMissing
    else if !HasWord(db, Height) then ErrHeightMissing
    else
      var height := DecodeUint64(db[Height].bytes);
      var index := ReadIndex(db, height + 1);
      if index.Missing? then ErrIndexMissing(index.at)
      else if 0 !in index.heights then ErrIndexMissing(0)
      else
        var genesis := index.heights[0];
        Loaded(db[Tip].hash, height, index.heights, genesis, ChainIdOf(genesis), LoadTimestamp(db, db[Tip].hash))
  }

  function Reloaded(c: Chain): LoadResult {
    Loaded(c.tip, c.height, c.heights, c.genesis, c.chainId, c.lastTimestamp)
  }

  /** Opening a store: without a recorded genesis block the chain is founded, otherwise it is rebuilt. */
  function Opened(db: Store, b: Block, d: Digests): (Store, LoadResult) {
    if HasHash(db, Genesis) then (db, Load(db))
    else (Founded(db, b, d).db, Reloaded(Founded(db, b, d).chain))
  }
}
