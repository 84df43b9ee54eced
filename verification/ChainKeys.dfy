/** Database keys and integer encodings of the chain store. */
module ChainKeys {
  import opened Arithmetic

  type Byte = x: nat | x < 256
  type Bytes = seq<Byte>

  function Pow256(k: nat): nat { if k == 0 then 1 else 256 * Pow256(k - 1) }

  /** Big-endian, `k` bytes, keeping the low ones of a number that does not fit. */
  function Encode(n: nat, k: nat): (s: Bytes)
    ensures |s| == k
    decreases k
  {
    if k == 0 then [] else Encode(n / 256, k - 1) + [n % 256]
  }

  function Decode(s: Bytes): nat {
    if s == [] then 0 else Decode(s[..|s| - 1]) * 256 + s[|s| - 1]
  }

  lemma {:induction false} DecodeEncode(n: nat, k: nat)
    requires n < Pow256(k)
    ensures Decode(Encode(n, k)) == n
    decreases k
  {
    if k > 0 {
      DecodeEncode(n / 256, k - 1);
      var s := Encode(n, k);
      assert s[..k - 1] == Encode(n / 256, k - 1) && s[k - 1] == n % 256;
    }
  }

  lemma {:induction false} EncodeDecode(s: Bytes)
    ensures Decode(s) < Pow256(|s|) && Encode(Decode(s), |s|) == s
    decreases |s|
  {
    if s != [] {
      var front := s[..|s| - 1];
      EncodeDecode(front);
      assert Decode(s) / 256 == Decode(front) && Decode(s) % 256 == s[|s| - 1];
      assert s == front + [s[|s| - 1]];
    }
  }

  lemma Pow8()
    ensures Pow256(8) == UINT64
  {
    assert Pow256(4) == 0x1_0000_0000;
  }

  type Hash = nat

  ghost predicate IsHash(h: Hash) { h < Pow256(32) }

  function EncodeUint64(v: nat): Bytes { Encode(v, 8) }

  function EncodeInt64(v: int): Bytes { Encode(v % UINT64, 8) }

  /** A stored word is its first eight bytes. */
  function DecodeUint64(b: Bytes): nat { Decode(if |b| <= 8 then b else b[..8]) }

  function DecodeInt64(b: Bytes): int {
    if DecodeUint64(b) < UINT64 / 2 then DecodeUint64(b) else DecodeUint64(b) - UINT64
  }

  lemma {:induction false} PowGrows(k: nat, n: nat)
    requires k <= n
    ensures Pow256(k) <= Pow256(n)
  {
    if k < n {
      PowGrows(k, n - 1);
    }
  }

  lemma WordFits(b: Bytes)
    ensures DecodeUint64(b) < UINT64
  {
    var w := if |b| <= 8 then b else b[..8];
    EncodeDecode(w);
    PowGrows(|w|, 8);
    Pow8();
  }

  predicate IsInt64(v: int) { -(UINT64 / 2) <= v < UINT64 / 2 }

  lemma Uint64RoundTrip(v: nat)
    requires v < UINT64
    ensures DecodeUint64(EncodeUint64(v)) == v
  {
    Pow8();
    DecodeEncode(v, 8);
  }

  lemma Int64RoundTrip(v: int)
    requires IsInt64(v)
    ensures DecodeInt64(EncodeInt64(v)) == v
  {
    Pow8();
    Wrapped(v);
    DecodeEncode(v % UINT64, 8);
  }

  lemma Wrapped(v: int)
    requires IsInt64(v)
    ensures v % UINT64 == if v >= 0 then v else v + UINT64
  {
    if v < 0 {
      assert (v + UINT64) % UINT64 == v + UINT64;
    }
  }

  /** The chain id is the first eight bytes of the genesis hash. */
  function ChainIdOf(genesis: Hash): nat { Decode(Encode(genesis, 32)[..8]) }

  // ---------- keys ----------

  /** What the chain stores, by the key it stores it under. */
  datatype Key =
    | Tip
    | Genesis
    | Height
    | LastTimestamp
    | AtHeight(height: nat)
    | OfHash(hash: Hash)
    | Stored(hash: Hash)

  const TIP: Bytes := [116, 105, 112]
  const GENESIS: Bytes := [103, 101, 110, 101, 115, 105, 115]
  const HEIGHT: Bytes := [104, 101, 105, 103, 104, 116]
  const HEIGHT_PREFIX: Bytes := [104, 101, 105, 103, 104, 116, 58]
  const HASH_PREFIX: Bytes := [104, 97, 115, 104, 58]
  const LAST_TIMESTAMP: Bytes := [108, 97, 115, 116, 84, 105, 109, 101, 115, 116, 97, 109, 112]

  function KeyBytes(k: Key): Bytes {
    match k
    case Tip => TIP
    case Genesis => GENESIS
    case Height => HEIGHT
    case LastTimestamp => LAST_TIMESTAMP
    case AtHeight(h) => HEIGHT_PREFIX + EncodeUint64(h)
    case OfHash(h) => HASH_PREFIX + Encode(h, 32)
    case Stored(h) => Encode(h, 32)
  }

  ghost predicate Proper(k: Key) {
    && (k.AtHeight? ==> k.height < UINT64)
    && (k.OfHash? ==> IsHash(k.hash))
    && (k.Stored? ==> IsHash(k.hash))
  }

  lemma EncodeInjective(m: nat, n: nat, k: nat)
    requires m < Pow256(k) && n < Pow256(k) && Encode(m, k) == Encode(n, k)
    ensures m == n
  {
    DecodeEncode(m, k);
    DecodeEncode(n, k);
  }

  lemma SuffixEqual(p: Bytes, a: Bytes, b: Bytes)
    requires p + a == p + b
    ensures a == b
  {
    assert a == (p + a)[|p|..] && b == (p + b)[|p|..];
  }

  /** No two keys share their bytes. */
  lemma KeysApart(a: Key, b: Key)
    requires Proper(a) && Proper(b) && KeyBytes(a) == KeyBytes(b)
    ensures a == b
  {
    Pow8();
    assert |KeyBytes(a)| == |KeyBytes(b)|;
    if a.AtHeight? && b.AtHeight? {
      SuffixEqual(HEIGHT_PREFIX, EncodeUint64(a.height), EncodeUint64(b.height));
      EncodeInjective(a.height, b.height, 8);
    } else if a.OfHash? && b.OfHash? {
      SuffixEqual(HASH_PREFIX, Encode(a.hash, 32), Encode(b.hash, 32));
      EncodeInjective(a.hash, b.hash, 32);
    } else if a.Stored? && b.Stored? {
      EncodeInjective(a.hash, b.hash, 32);
    }
  }

  /** A store indexed by bytes holds what a store indexed by keys does. */
  ghost predicate Represents<V>(raw: map<Bytes, V>, db: map<Key, V>) {
    forall k :: Proper(k) ==>
      (KeyBytes(k) in raw <==> k in db) && (k in db ==> raw[KeyBytes(k)] == db[k])
  }

  /** Writing under a key's bytes changes what is stored under that key and under no other. */
  lemma PutRepresents<V>(raw: map<Bytes, V>, db: map<Key, V>, k: Key, v: V)
    requires Represents(raw, db) && Proper(k)
    ensures Represents(raw[KeyBytes(k) := v], db[k := v])
  {
    var raw', db' := raw[KeyBytes(k) := v], db[k := v];
    forall x | Proper(x)
      ensures (KeyBytes(x) in raw' <==> x in db') && (x in db' ==> raw'[KeyBytes(x)] == db'[x])
    {
      if KeyBytes(x) == KeyBytes(k) {
        KeysApart(x, k);
      }
    }
  }
}
