/** Scheduling of pending transactions: the POS lane's reserved share of a block, and the order it produces. */
module PosLanes {
  import opened Accounts
  import opened Options
  import opened Arithmetic

  datatype TxType = Transfer | TransferZNHB | Mint | OtherType

  datatype Voucher = Voucher(invoice: nat, expiry: int)

  /** What the mempool reads from a transaction; `sender` and `voucher` are what decoding yields, if anything. */
  datatype Tx = Tx(kind: TxType, hash: nat, size: nat, sender: Option<Address>, hasIntent: bool, voucher: Option<Voucher>)

  datatype Lanes = Lanes(pos: seq<Tx>, normal: seq<Tx>)

  datatype Asset = NHB | ZNHB | OtherAsset

  datatype Usage = Usage(target: nat, used: nat, totalPos: nat, posByAsset: map<Asset, nat>)

  const BPS_DENOMINATOR: nat := 10_000

  predicate Eligible(tx: Tx) {
    tx.hasIntent && (tx.kind == Transfer || tx.kind == TransferZNHB)
  }

  function AssetOf(tx: Tx): Asset {
    match tx.kind
    case Transfer => NHB
    case TransferZNHB => ZNHB
    case _ => OtherAsset
  }

  // ---------- reserved slots ----------

  function Normalized(bps: nat): nat { if bps > BPS_DENOMINATOR then BPS_DENOMINATOR else bps }

  function ReservedSlots(bps: nat, maxTxs: int): nat {
    if maxTxs <= 0 || Normalized(bps) == 0 then 0
    else
      var product := Normalized(bps) * maxTxs;
      var slots := product / BPS_DENOMINATOR + (if product % BPS_DENOMINATOR != 0 then 1 else 0);
      if slots > maxTxs then maxTxs else slots
  }

  /** The reservation is the share of the block rounded up, never more than the block. */
  lemma ReservedIsCeiling(bps: nat, maxTxs: nat)
    ensures var r := ReservedSlots(bps, maxTxs);
            && r <= maxTxs
            && r * BPS_DENOMINATOR >= Normalized(bps) * maxTxs
            && (r > 0 ==> (r - 1) * BPS_DENOMINATOR < Normalized(bps) * maxTxs)
  {
    var product := Normalized(bps) * maxTxs;
    assert product <= BPS_DENOMINATOR * maxTxs by {
      if maxTxs > 0 {
        Mono(Normalized(bps), BPS_DENOMINATOR, maxTxs);
      }
    }
  }

  // ---------- classification ----------

  function Filter(txs: seq<Tx>, pos: bool): seq<Tx> {
    if txs == [] then []
    else if Eligible(txs[0]) == pos then [txs[0]] + Filter(txs[1..], pos)
    else Filter(txs[1..], pos)
  }

  function Present(txs: seq<Option<Tx>>): seq<Tx> {
    if txs == [] then []
    else if txs[0].Some? then [txs[0].value] + Present(txs[1..])
    else Present(txs[1..])
  }

  /** Splits the transactions that are there into the two lanes, each in arrival order. */
  method Classify(txs: seq<Option<Tx>>) returns (lanes: Lanes)
    ensures lanes == Lanes(Filter(Present(txs), true), Filter(Present(txs), false))
  {
    lanes := Lanes([], []);
    for i := 0 to |txs|
      invariant lanes.pos + Filter(Present(txs[i..]), true) == Filter(Present(txs), true)
      invariant lanes.normal + Filter(Present(txs[i..]), false) == Filter(Present(txs), false)
    {
      assert txs[i..][0] == txs[i] && txs[i..][1..] == txs[i + 1..];
      if txs[i].None? { continue; }
      var tx := txs[i].value;
      ghost var rest := Present(txs[i + 1..]);
      assert Present(txs[i..])[0] == tx && Present(txs[i..])[1..] == rest;
      if Eligible(tx) {
        lanes := lanes.(pos := lanes.pos + [tx]);
        continue;
      }
      lanes := lanes.(normal := lanes.normal + [tx]);
    }
  }

  // ---------- scheduling ----------

  /** The window the reservation applies to: the block, or everything if the block is larger or unbounded. */
  function Window(lanes: Lanes, maxTxs: int): nat {
    var total := |lanes.pos| + |lanes.normal|;
    if maxTxs <= 0 || maxTxs > total then total else maxTxs
  }

  /** POS transactions in the window: the reservation, or more when the normal lane cannot fill the rest. */
  function PosTake(lanes: Lanes, maxTxs: int, bps: nat): nat {
    var m := Window(lanes, maxTxs);
    Least(|lanes.pos|, Most(ReservedSlots(bps, m), m - |lanes.normal|))
  }

  function Least(x: int, y: int): int { if x <= y then x else y }

  function Most(x: int, y: int): int { if x >= y then x else y }

  lemma TakesFit(lanes: Lanes, maxTxs: int, bps: nat)
    ensures PosTake(lanes, maxTxs, bps) <= Window(lanes, maxTxs)
    ensures Window(lanes, maxTxs) - PosTake(lanes, maxTxs, bps) <= |lanes.normal|
  {
    ReservedIsCeiling(bps, Window(lanes, maxTxs));
  }

  function Scheduled(lanes: Lanes, maxTxs: int, bps: nat): seq<Tx> {
    TakesFit(lanes, maxTxs, bps);
    var p := PosTake(lanes, maxTxs, bps);
    Interleaved(lanes, p, Window(lanes, maxTxs) - p)
  }

  /** The heads of both lanes, then their tails. */
  function Interleaved(lanes: Lanes, p: nat, n: nat): seq<Tx>
    requires p <= |lanes.pos| && n <= |lanes.normal|
  {
    lanes.pos[..p] + lanes.normal[..n] + lanes.pos[p..] + lanes.normal[n..]
  }

  function CountAsset(txs: seq<Tx>, asset: Asset): nat {
    if txs == [] then 0 else (if AssetOf(txs[0]) == asset then 1 else 0) + CountAsset(txs[1..], asset)
  }

  method CountAssets(txs: seq<Tx>) returns (breakdown: map<Asset, nat>)
    ensures forall a :: Lookup(breakdown, a, 0) == CountAsset(txs, a)
  {
    breakdown := map[];
    for i := 0 to |txs|
      invariant forall a :: Lookup(breakdown, a, 0) + CountAsset(txs[i..], a) == CountAsset(txs, a)
    {
      assert txs[i..][0] == txs[i] && txs[i..][1..] == txs[i + 1..];
      var asset := AssetOf(txs[i]);
      breakdown := breakdown[asset := Lookup(breakdown, asset, 0) + 1];
    }
  }

  /** How much of each lane the window takes; the branch that would hand spare slots back to the normal lane is never entered. */
  method Takes(pos: nat, normal: nat, m: nat, bps: nat) returns (target: nat, posTake: nat, normalTake: nat)
    requires m <= pos + normal
    ensures target == ReservedSlots(bps, m)
    ensures posTake == Least(pos, Most(target, m - normal)) && normalTake == m - posTake
  {
    ReservedIsCeiling(bps, m);
    target := ReservedSlots(bps, m);
    if target > m {
      target := m;
    }
    posTake := if target <= pos then target else pos;
    normalTake := m - posTake;
    if normalTake > normal {
      normalTake := normal;
    }
    var remaining := m - (posTake + normalTake);
    if remaining > 0 {
      var extraPos := pos - posTake;
      if extraPos > 0 {
        var take := if remaining > extraPos then extraPos else remaining;
        posTake := posTake + take;
        remaining := remaining - take;
      }
      if remaining > 0 {
        assert false;
      }
    }
  }

  /** The scheduler as written. */
  method Schedule(lanes: Lanes, maxTxs: int, bps: nat) returns (ordered: seq<Tx>, usage: Usage)
    ensures ordered == Scheduled(lanes, maxTxs, bps)
    ensures usage.target == ReservedSlots(bps, Window(lanes, maxTxs)) && usage.used == PosTake(lanes, maxTxs, bps)
    ensures usage.totalPos == |lanes.pos| && forall a :: Lookup(usage.posByAsset, a, 0) == CountAsset(lanes.pos, a)
  {
    var total := |lanes.pos| + |lanes.normal|;
    if total == 0 {
      return [], Usage(0, 0, 0, map[]);
    }
    var m := if maxTxs <= 0 || maxTxs > total then total else maxTxs;
    var target, posTake, normalTake := Takes(|lanes.pos|, |lanes.normal|, m, bps);
    TakesFit(lanes, maxTxs, bps);
    ordered := lanes.pos[..posTake];
    ordered := ordered + lanes.normal[..normalTake];
    ordered := ordered + lanes.pos[posTake..];
    ordered := ordered + lanes.normal[normalTake..];
    assert ordered == Interleaved(lanes, posTake, normalTake);
    var breakdown := CountAssets(lanes.pos);
    usage := Usage(target, posTake, |lanes.pos|, breakdown);
  }

  // ---------- what the order guarantees ----------

  predicate Sorted(lanes: Lanes) {
    && (forall i :: 0 <= i < |lanes.pos| ==> Eligible(lanes.pos[i]))
    && (forall i :: 0 <= i < |lanes.normal| ==> !Eligible(lanes.normal[i]))
  }

  lemma {:induction false} FilterConcat(a: seq<Tx>, b: seq<Tx>, pos: bool)
    ensures Filter(a + b, pos) == Filter(a, pos) + Filter(b, pos)
  {
    if a == [] {
      assert a + b == b;
    } else {
      assert (a + b)[1..] == a[1..] + b;
      FilterConcat(a[1..], b, pos);
    }
  }

  lemma {:induction false} FilterAll(txs: seq<Tx>, pos: bool)
    requires forall i :: 0 <= i < |txs| ==> Eligible(txs[i]) == pos
    ensures Filter(txs, pos) == txs && Filter(txs, !pos) == []
  {
    if txs != [] {
      FilterAll(txs[1..], pos);
    }
  }

  lemma {:induction false} FilterKind(txs: seq<Tx>, pos: bool)
    ensures forall i :: 0 <= i < |Filter(txs, pos)| ==> Eligible(Filter(txs, pos)[i]) == pos
  {
    if txs != [] {
      FilterKind(txs[1..], pos);
    }
  }

  lemma FourParts(a: seq<Tx>, b: seq<Tx>, c: seq<Tx>, d: seq<Tx>, pos: bool)
    ensures Filter(a + b + c + d, pos) == Filter(a, pos) + Filter(b, pos) + Filter(c, pos) + Filter(d, pos)
  {
    FilterConcat(a + b + c, d, pos);
    FilterConcat(a + b, c, pos);
    FilterConcat(a, b, pos);
  }

  lemma Rejoined(s: seq<Tx>, k: nat)
    requires k <= |s|
    ensures s[..k] + [] + s[k..] + [] == s && [] + s[..k] + [] + s[k..] == s
  {
    assert s[..k] + [] == s[..k] && [] + s[..k] == s[..k];
    assert s[..k] + s[k..] == s;
    assert s + [] == s;
  }

  lemma InterleavedFilter(lanes: Lanes, p: nat, n: nat, pos: bool)
    requires Sorted(lanes) && p <= |lanes.pos| && n <= |lanes.normal|
    ensures Filter(Interleaved(lanes, p, n), pos) == if pos then lanes.pos else lanes.normal
  {
    FourParts(lanes.pos[..p], lanes.normal[..n], lanes.pos[p..], lanes.normal[n..], pos);
    FilterAll(lanes.pos[..p], true);
    FilterAll(lanes.normal[..n], false);
    FilterAll(lanes.pos[p..], true);
    FilterAll(lanes.normal[n..], false);
    if pos {
      Rejoined(lanes.pos, p);
    } else {
      Rejoined(lanes.normal, n);
    }
  }

  lemma InterleavedPermutes(lanes: Lanes, p: nat, n: nat)
    requires p <= |lanes.pos| && n <= |lanes.normal|
    ensures multiset(Interleaved(lanes, p, n)) == multiset(lanes.pos) + multiset(lanes.normal)
  {
    assert lanes.pos == lanes.pos[..p] + lanes.pos[p..] && lanes.normal == lanes.normal[..n] + lanes.normal[n..];
  }

  /** Scheduling only interleaves: each lane comes out complete and in its own order, and nothing else does. */
  lemma ScheduleKeepsLanes(lanes: Lanes, maxTxs: int, bps: nat)
    requires Sorted(lanes)
    ensures var ordered := Scheduled(lanes, maxTxs, bps);
            && Filter(ordered, true) == lanes.pos && Filter(ordered, false) == lanes.normal
            && multiset(ordered) == multiset(lanes.pos) + multiset(lanes.normal)
  {
    TakesFit(lanes, maxTxs, bps);
    var p := PosTake(lanes, maxTxs, bps);
    var n := Window(lanes, maxTxs) - p;
    InterleavedFilter(lanes, p, n, true);
    InterleavedFilter(lanes, p, n, false);
    InterleavedPermutes(lanes, p, n);
  }

  /**
   The first `Window` slots are all filled. They hold at least the reserved share
   of POS transactions, or all there are, and more than that only when every
   normal transaction is in the window too.
   */
  lemma WindowGuarantee(lanes: Lanes, maxTxs: int, bps: nat)
    requires Sorted(lanes)
    ensures var m := Window(lanes, maxTxs);
            var ordered := Scheduled(lanes, maxTxs, bps);
            && m <= |ordered|
            && (var inWindow := |Filter(ordered[..m], true)|;
                var reserved := ReservedSlots(bps, m);
                && inWindow >= (if reserved <= |lanes.pos| then reserved else |lanes.pos|)
                && (inWindow > reserved ==> |Filter(ordered[..m], false)| == |lanes.normal|))
  {
    TakesFit(lanes, maxTxs, bps);
    var p := PosTake(lanes, maxTxs, bps);
    var m := Window(lanes, maxTxs);
    var ordered := Scheduled(lanes, maxTxs, bps);
    assert ordered[..m] == lanes.pos[..p] + lanes.normal[..m - p];
    FilterConcat(lanes.pos[..p], lanes.normal[..m - p], true);
    FilterConcat(lanes.pos[..p], lanes.normal[..m - p], false);
    FilterAll(lanes.pos[..p], true);
    FilterAll(lanes.normal[..m - p], false);
  }
}
