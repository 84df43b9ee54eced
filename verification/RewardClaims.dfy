/** Claiming staking rewards under the yearly emission cap, and the preview of such a claim. */
module RewardClaims {
  import opened Accounts
  import opened Arithmetic
  import opened Sums

  datatype Holder = Holder(balance: nat, shares: nat, lastIndex: nat, lastPayout: nat)

  /** Accounts, and what was emitted in each calendar year so far. */
  datatype State = State(holders: map<Address, Holder>, emitted: map<nat, nat>)

  datatype Failure = AddressRequired | Paused | InvalidPeriod | WindowNotElapsed

  datatype Reply = Paid(minted: nat) | Failed(why: Failure)

  /** What a claim reads from clock, parameters and the global index. */
  datatype Context = Context(paused: bool, period: nat, now: nat, year: nat, globalIndex: nat, cap: nat)

  function HolderOf(s: State, a: Address): Holder { Lookup(s.holders, a, Holder(0, 0, 0, 0)) }

  function Emitted(s: State, year: nat): nat { Lookup(s.emitted, year, 0) }

  /** The part of an index gain that whole payout periods account for. */
  function Eligible(delta: nat, elapsed: nat, period: nat): nat
    requires 0 < period <= elapsed
  {
    delta * (elapsed / period * period) / elapsed
  }

  /** The index gain the yearly cap still allows; a cap of zero allows everything. */
  function Allowed(eligible: nat, shares: nat, cap: nat, emitted: nat): nat
    requires shares > 0
  {
    if cap == 0 then eligible
    else if cap <= emitted then 0
    else
      var deltaCap := (cap - emitted) / shares;
      if deltaCap < eligible then deltaCap else eligible
  }

  function Claim(s: State, a: Address, c: Context): (State, Reply) {
    var h := HolderOf(s, a);
    if a == NO_ADDRESS then (s, Failed(AddressRequired))
    else if c.paused then (s, Failed(Paused))
    else if c.period == 0 then (s, Failed(InvalidPeriod))
    else if c.now <= h.lastPayout || c.now - h.lastPayout < c.period then (s, Failed(WindowNotElapsed))
    else if c.globalIndex <= h.lastIndex || h.shares == 0 then
      var h' := h.(lastPayout := c.now,
                   lastIndex := if c.globalIndex < h.lastIndex then c.globalIndex else h.lastIndex);
      (s.(holders := s.holders[a := h']), Paid(0))
    else
      var eligible := Eligible(c.globalIndex - h.lastIndex, c.now - h.lastPayout, c.period);
      if eligible == 0 then (s.(holders := s.holders[a := h.(lastPayout := c.now)]), Paid(0))
      else
        var applied := Allowed(eligible, h.shares, c.cap, Emitted(s, c.year));
        (Minted(s, a, c, applied), Paid(applied * h.shares))
  }

  function Minted(s: State, a: Address, c: Context, applied: nat): State {
    var h := HolderOf(s, a);
    State(s.holders[a := h.(balance := h.balance + applied * h.shares, lastIndex := h.lastIndex + applied, lastPayout := c.now)],
          s.emitted[c.year := Emitted(s, c.year) + applied * h.shares])
  }

  /** The amount the query endpoint reports as payable. */
  function Preview(h: Holder, period: nat, now: nat, globalIndex: nat): nat {
    if period == 0 || h.shares == 0 || now <= h.lastPayout || now - h.lastPayout < period || globalIndex <= h.lastIndex then 0
    else Eligible(globalIndex - h.lastIndex, now - h.lastPayout, period) * h.shares
  }

  // ---------- one claim ----------

  lemma DivLe(n: nat, d: nat)
    requires d > 0
    ensures n / d * d <= n
  {
  }

  lemma DivAtMost(n: nat, m: nat, d: nat)
    requires d > 0 && n <= m * d
    ensures n / d <= m
  {
    DivLe(n, d);
    Mono(m, n / d, d);
  }

  lemma EligibleBound(delta: nat, elapsed: nat, period: nat)
    requires 0 < period <= elapsed
    ensures Eligible(delta, elapsed, period) <= delta
  {
    var whole := elapsed / period * period;
    DivLe(elapsed, period);
    Mono(whole, elapsed, if delta == 0 then 1 else delta);
    assert delta * whole <= delta * elapsed;
    DivAtMost(delta * whole, delta, elapsed);
  }

  /** The cap lets a gain through in full exactly when minting it stays within the cap. */
  lemma AllowedFits(eligible: nat, shares: nat, cap: nat, emitted: nat)
    requires shares > 0
    ensures var applied := Allowed(eligible, shares, cap, emitted);
            && applied <= eligible
            && (cap > 0 && applied > 0 ==> emitted + applied * shares <= cap)
            && (applied == eligible <==> eligible == 0 || cap == 0 || emitted + eligible * shares <= cap)
  {
    if cap > emitted {
      var room := cap - emitted;
      var q := room / shares;
      DivLe(room, shares);
      assert room == q * shares + room % shares;
      Mono(q + 1, eligible, shares);
      Mono(eligible, q, shares);
      assert (q + 1) * shares == q * shares + shares;
    } else if cap > 0 && eligible > 0 {
      assert eligible * shares > 0;
    }
  }

  /**
   A successful claim mints what the preview reports exactly when nothing is
   payable, there is no cap, or the payable amount still fits under it; otherwise
   it mints less. The claimer's index never passes the global index.
   */
  lemma ClaimMatchesPreview(s: State, a: Address, c: Context)
    requires Claim(s, a, c).1.Paid?
    ensures var payable := Preview(HolderOf(s, a), c.period, c.now, c.globalIndex);
            var minted := Claim(s, a, c).1.minted;
            && minted <= payable
            && (minted == payable <==> payable == 0 || c.cap == 0 || Emitted(s, c.year) + payable <= c.cap)
            && HolderOf(Claim(s, a, c).0, a).lastIndex <= c.globalIndex
  {
    var h := HolderOf(s, a);
    if c.globalIndex > h.lastIndex && h.shares > 0 {
      var delta := c.globalIndex - h.lastIndex;
      var eligible := Eligible(delta, c.now - h.lastPayout, c.period);
      var applied := Allowed(eligible, h.shares, c.cap, Emitted(s, c.year));
      EligibleBound(delta, c.now - h.lastPayout, c.period);
      AllowedFits(eligible, h.shares, c.cap, Emitted(s, c.year));
      Mono(applied, eligible, h.shares);
      Mono(0, eligible, h.shares);
    }
  }

  // ---------- runs ----------

  function Run(s: State, claims: seq<(Address, Context)>): State
    decreases |claims|
  {
    if claims == [] then s else Run(Claim(s, claims[0].0, claims[0].1).0, claims[1..])
  }

  ghost function HolderBalances(s: State): map<Address, int> { map a | a in s.holders :: s.holders[a].balance }

  ghost function Supply(s: State): int { Total<Address>(HolderBalances(s)) }

  ghost function EmittedTotal(s: State): int { Total<nat>(s.emitted) }

  lemma WriteHolder(s: State, a: Address, h: Holder)
    ensures Supply(s.(holders := s.holders[a := h])) == Supply(s) + h.balance - HolderOf(s, a).balance
  {
    var s' := s.(holders := s.holders[a := h]);
    assert HolderBalances(s') == HolderBalances(s)[a := h.balance];
    TotalUpdate<Address>(HolderBalances(s), a, h.balance);
  }

  ghost function MintedBy(r: Reply): nat { if r.Paid? then r.minted else 0 }

  lemma ClaimSupply(s: State, a: Address, c: Context)
    ensures var (s', r) := Claim(s, a, c); Supply(s') == Supply(s) + MintedBy(r)
  {
    if Claim(s, a, c).1.Paid? {
      WriteHolder(s, a, HolderOf(Claim(s, a, c).0, a));
    }
  }

  lemma ClaimYears(s: State, a: Address, c: Context, y: nat)
    ensures var (s', r) := Claim(s, a, c); Emitted(s', y) == Emitted(s, y) + (if y == c.year then MintedBy(r) else 0)
  {
  }

  lemma ClaimEmitted(s: State, a: Address, c: Context)
    ensures var (s', r) := Claim(s, a, c); EmittedTotal(s') == EmittedTotal(s) + MintedBy(r)
  {
    if Claim(s, a, c).1.Paid? {
      ClaimYears(s, a, c, c.year);
      TotalUpdate<nat>(s.emitted, c.year, Emitted(Claim(s, a, c).0, c.year));
    }
  }

  /** A claim mints what it reports, books it to its own year and to no other. */
  lemma ClaimBooks(s: State, a: Address, c: Context)
    ensures var (s', r) := Claim(s, a, c);
            && Supply(s') == Supply(s) + MintedBy(r)
            && EmittedTotal(s') == EmittedTotal(s) + MintedBy(r)
            && (forall y :: Emitted(s', y) == Emitted(s, y) + (if y == c.year then MintedBy(r) else 0))
  {
    ClaimSupply(s, a, c);
    ClaimEmitted(s, a, c);
    forall y
      ensures Emitted(Claim(s, a, c).0, y) == Emitted(s, y) + (if y == c.year then MintedBy(Claim(s, a, c).1) else 0)
    {
      ClaimYears(s, a, c, y);
    }
  }

  /** Over every run the coins minted are exactly the emissions booked. */
  lemma {:induction false} RunBooks(s: State, claims: seq<(Address, Context)>)
    ensures Supply(Run(s, claims)) - EmittedTotal(Run(s, claims)) == Supply(s) - EmittedTotal(s)
    decreases |claims|
  {
    if claims != [] {
      ClaimBooks(s, claims[0].0, claims[0].1);
      RunBooks(Claim(s, claims[0].0, claims[0].1).0, claims[1..]);
    }
  }

  lemma ClaimCapped(s: State, a: Address, c: Context, y: nat)
    requires c.year == y ==> c.cap > 0
    ensures var (s', r) := Claim(s, a, c);
            Emitted(s', y) <= if c.year == y && c.cap > Emitted(s, y) then c.cap else Emitted(s, y)
  {
    var h := HolderOf(s, a);
    ClaimBooks(s, a, c);
    if Claim(s, a, c).1.Paid? && c.globalIndex > h.lastIndex && h.shares > 0 {
      AllowedFits(Eligible(c.globalIndex - h.lastIndex, c.now - h.lastPayout, c.period), h.shares, c.cap, Emitted(s, c.year));
    }
  }

  /** No year's emission exceeds the larger of where it started and the largest cap claimed under in that year, if all are positive. */
  lemma {:induction false} RunCapped(s: State, claims: seq<(Address, Context)>, limit: nat, y: nat)
    requires forall i :: 0 <= i < |claims| && claims[i].1.year == y ==> 0 < claims[i].1.cap <= limit
    ensures Emitted(Run(s, claims), y) <= if Emitted(s, y) > limit then Emitted(s, y) else limit
    decreases |claims|
  {
    if claims != [] {
      ClaimCapped(s, claims[0].0, claims[0].1, y);
      RunCapped(Claim(s, claims[0].0, claims[0].1).0, claims[1..], limit, y);
    }
  }

  // ---------- the claim as the state processor runs it ----------

  class Claims {
    var holders: map<Address, Holder>
    var emitted: map<nat, nat>

    constructor (holders: map<Address, Holder>, emitted: map<nat, nat>)
      ensures View() == State(holders, emitted)
    {
      this.holders, this.emitted := holders, emitted;
    }

    ghost function View(): State
      reads this
    {
      State(holders, emitted)
    }

    method ClaimRewards(addr: Address, c: Context) returns (r: Reply)
      modifies this
      ensures (View(), r) == Claim(old(View()), addr, c)
    {
      if addr == NO_ADDRESS { return Failed(AddressRequired); }
      if c.paused { return Failed(Paused); }
      var account := Lookup(holders, addr, Holder(0, 0, 0, 0));
      if c.period == 0 { return Failed(InvalidPeriod); }
      if c.now <= account.lastPayout { return Failed(WindowNotElapsed); }
      var elapsed := c.now - account.lastPayout;
      if elapsed < c.period { return Failed(WindowNotElapsed); }
      var deltaIndex := c.globalIndex - account.lastIndex;
      if deltaIndex <= 0 || account.shares == 0 {
        account := account.(lastPayout := c.now);
        if deltaIndex < 0 {
          account := account.(lastIndex := c.globalIndex);
        }
        holders := holders[addr := account];
        return Paid(0);
      }
      var eligible := Eligible(deltaIndex, elapsed, c.period);
      if eligible == 0 {
        holders := holders[addr := account.(lastPayout := c.now)];
        return Paid(0);
      }
      var total := Lookup(emitted, c.year, 0);
      var applied, minted := CapMint(eligible, account.shares, c.cap, total);
      if minted > 0 {
        account := account.(balance := account.balance + minted);
      }
      if applied > 0 {
        account := account.(lastIndex := account.lastIndex + applied);
      }
      account := account.(lastPayout := c.now);
      emitted := emitted[c.year := total + minted];
      holders := holders[addr := account];
      return Paid(minted);
    }
  }

  /** Limits the index gain to the headroom left under the cap. */
  method CapMint(eligible: nat, shares: nat, cap: nat, emissionTotal: nat) returns (applied: nat, minted: nat)
    requires shares > 0
    ensures applied == Allowed(eligible, shares, cap, emissionTotal) && minted == applied * shares
  {
    applied, minted := eligible, eligible * shares;
    if cap > 0 {
      var headroom := cap - emissionTotal;
      if headroom <= 0 {
        applied, minted := 0, 0;
      } else {
        var deltaCap := headroom / shares;
        if deltaCap == 0 {
          applied, minted := 0, 0;
        } else if deltaCap < applied {
          applied := deltaCap;
          minted := applied * shares;
        }
      }
    }
  }
}
