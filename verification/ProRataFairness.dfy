/** Who gets what from a pool: bounds, independence of input order, monotonicity. */
module ProRataFairness {
  import opened Accounts
  import opened Arithmetic
  import opened ProRata

  /** What an address receives over all payout calls. */
  ghost function Credit(ws: seq<Award>, a: Address): nat {
    if ws == [] then 0 else (if ws[0].addr == a then ws[0].amount else 0) + Credit(ws[1..], a)
  }

  lemma {:induction false} CreditConcat(x: seq<Award>, y: seq<Award>, a: Address)
    ensures Credit(x + y, a) == Credit(x, a) + Credit(y, a)
  {
    if x == [] {
      assert x + y == y;
    } else {
      assert (x + y)[1..] == x[1..] + y;
      CreditConcat(x[1..], y, a);
    }
  }

  // ---------- independence of the input order ----------

  ghost function RemoveAt<T>(s: seq<T>, i: nat): seq<T>
    requires i < |s|
  {
    s[..i] + s[i + 1..]
  }

  lemma MatchFirst<T>(xs: seq<T>, ys: seq<T>) returns (i: nat)
    requires xs != [] && multiset(xs) == multiset(ys)
    ensures i < |ys| && ys[i] == xs[0] && multiset(xs[1..]) == multiset(RemoveAt(ys, i))
  {
    assert xs[0] in multiset(ys);
    i :| 0 <= i < |ys| && ys[i] == xs[0];
    assert xs == [xs[0]] + xs[1..];
    assert ys == ys[..i] + [ys[i]] + ys[i + 1..];
    assert multiset(xs) == multiset{xs[0]} + multiset(xs[1..]);
    assert multiset(ys) == multiset{ys[i]} + multiset(RemoveAt(ys, i));
    assert multiset(xs[1..]) == multiset(xs) - multiset{xs[0]};
  }

  lemma {:induction false} PositiveCount(cs: seq<Claim>, c: Claim)
    ensures multiset(Positive(cs))[c] == if c.value > 0 then multiset(cs)[c] else 0
  {
    if cs != [] {
      PositiveCount(cs[1..], c);
      assert cs == [cs[0]] + cs[1..];
    }
  }

  lemma PositivePermutes(cs: seq<Claim>, cs': seq<Claim>)
    requires multiset(cs) == multiset(cs')
    ensures multiset(Positive(cs)) == multiset(Positive(cs'))
  {
    forall c
      ensures multiset(Positive(cs))[c] == multiset(Positive(cs'))[c]
    {
      PositiveCount(cs, c);
      PositiveCount(cs', c);
    }
  }

  lemma {:induction false} DenominatorConcat(x: seq<Claim>, y: seq<Claim>)
    ensures Denominator(x + y) == Denominator(x) + Denominator(y)
  {
    if x == [] {
      assert x + y == y;
    } else {
      assert (x + y)[1..] == x[1..] + y;
      DenominatorConcat(x[1..], y);
    }
  }

  lemma FloorsCredit(total: nat, es: seq<Claim>, d: int, a: Address)
    requires Valued(es) && d > 0 && es != []
    ensures Credit(Floors(total, es, d), a)
            == (if es[0].addr == a then Share(total, es[0].value, d) else 0) + Credit(Floors(total, es[1..], d), a)
  {
    var share := Share(total, es[0].value, d);
    if share > 0 {
      assert Floors(total, es, d)[1..] == Floors(total, es[1..], d);
    }
  }

  lemma RemoveLater<T>(s: seq<T>, i: nat)
    requires 0 < i < |s|
    ensures RemoveAt(s, i) != [] && RemoveAt(s, i)[0] == s[0] && RemoveAt(s, i)[1..] == RemoveAt(s[1..], i - 1)
  {
  }

  /** Any one claim can be taken out of the sums. */
  lemma {:induction false} TakeOut(total: nat, es: seq<Claim>, d: int, i: nat, a: Address)
    requires Valued(es) && d > 0 && i < |es|
    ensures Valued(RemoveAt(es, i))
    ensures Denominator(es) == es[i].value + Denominator(RemoveAt(es, i))
    ensures AwardTotal(Floors(total, es, d))
            == Share(total, es[i].value, d) + AwardTotal(Floors(total, RemoveAt(es, i), d))
    ensures Credit(Floors(total, es, d), a)
            == (if es[i].addr == a then Share(total, es[i].value, d) else 0) + Credit(Floors(total, RemoveAt(es, i), d), a)
  {
    FloorsTotal(total, es, d);
    FloorsCredit(total, es, d, a);
    if i == 0 {
      assert RemoveAt(es, 0) == es[1..];
    } else {
      RemoveLater(es, i);
      TakeOut(total, es[1..], d, i - 1, a);
      FloorsTotal(total, RemoveAt(es, i), d);
      FloorsCredit(total, RemoveAt(es, i), d, a);
    }
  }

  lemma {:induction false} SumsPermute(total: nat, es: seq<Claim>, es': seq<Claim>, d: int, a: Address)
    requires Valued(es) && Valued(es') && d > 0 && multiset(es) == multiset(es')
    ensures Denominator(es) == Denominator(es')
    ensures AwardTotal(Floors(total, es, d)) == AwardTotal(Floors(total, es', d))
    ensures Credit(Floors(total, es, d), a) == Credit(Floors(total, es', d), a)
  {
    assert |multiset(es)| == |es| && |multiset(es')| == |es'|;
    if es != [] {
      var i := MatchFirst(es, es');
      TakeOut(total, es', d, i, a);
      SumsPermute(total, es[1..], RemoveAt(es', i), d, a);
      FloorsTotal(total, es, d);
      FloorsCredit(total, es, d, a);
    }
  }

  lemma RemaindersTakeOut(total: nat, es: seq<Claim>, d: int, i: nat)
    requires Valued(es) && d > 0 && i < |es|
    ensures Valued(RemoveAt(es, i))
    ensures multiset(Remainders(total, es, d))
            == multiset{Remainders(total, es, d)[i]} + multiset(Remainders(total, RemoveAt(es, i), d))
  {
    var rs := Remainders(total, es, d);
    assert rs == rs[..i] + [rs[i]] + rs[i + 1..];
    assert Remainders(total, RemoveAt(es, i), d) == rs[..i] + rs[i + 1..];
  }

  lemma {:induction false} RemaindersPermute(total: nat, es: seq<Claim>, es': seq<Claim>, d: int)
    requires Valued(es) && Valued(es') && d > 0 && multiset(es) == multiset(es')
    ensures multiset(Remainders(total, es, d)) == multiset(Remainders(total, es', d))
  {
    assert |multiset(es)| == |es| && |multiset(es')| == |es'|;
    if es == [] {
      assert Remainders(total, es, d) == Remainders(total, es', d);
    } else {
      var i := MatchFirst(es, es');
      RemaindersTakeOut(total, es', d, i);
      RemaindersTakeOut(total, es, d, 0);
      assert RemoveAt(es, 0) == es[1..];
      RemaindersPermute(total, es[1..], RemoveAt(es', i), d);
    }
  }

  /** Sorting may insert any element last. */
  lemma {:induction false} SortTakeOut(rs: seq<Remainder>, i: nat)
    requires i < |rs|
    ensures Sort(rs) == Insert(rs[i], Sort(RemoveAt(rs, i)))
  {
    if i == 0 {
      assert RemoveAt(rs, 0) == rs[1..];
    } else {
      RemoveLater(rs, i);
      SortTakeOut(rs[1..], i - 1);
      InsertCommutes(rs[0], rs[i], Sort(RemoveAt(rs[1..], i - 1)));
    }
  }

  lemma {:induction false} SortIgnoresOrder(rs: seq<Remainder>, rs': seq<Remainder>)
    requires multiset(rs) == multiset(rs')
    ensures Sort(rs) == Sort(rs')
  {
    if rs == [] {
      assert |multiset(rs')| == |rs'|;
    } else {
      var i := MatchFirst(rs, rs');
      SortTakeOut(rs', i);
      SortIgnoresOrder(rs[1..], RemoveAt(rs', i));
    }
  }

  /** Whatever a sorting routine returns in the required order is the list the second pass walks. */
  lemma OrderedIsSort(rs: seq<Remainder>, ordered: seq<Remainder>)
    requires Sorted(ordered) && multiset(ordered) == multiset(rs)
    ensures ordered == Sort(rs)
  {
    SortKeepsOrdered(ordered);
    SortIgnoresOrder(ordered, rs);
  }

  lemma SortedSame(total: nat, es: seq<Claim>, es': seq<Claim>, d: int)
    requires Valued(es) && Valued(es') && d > 0 && multiset(es) == multiset(es')
    ensures Sort(Remainders(total, es, d)) == Sort(Remainders(total, es', d))
  {
    RemaindersPermute(total, es, es', d);
    SortIgnoresOrder(Remainders(total, es, d), Remainders(total, es', d));
  }

  ghost function BonusOf(total: nat, es: seq<Claim>, d: int): seq<Award>
    requires Valued(es) && d > 0
  {
    var left := Leftover(total, es, d);
    if left > 0 then Bonus(Sort(Remainders(total, es, d)), left) else []
  }

  lemma PassesSame(total: nat, es: seq<Claim>, es': seq<Claim>, d: int, a: Address)
    requires Valued(es) && Valued(es') && d > 0 && multiset(es) == multiset(es')
    ensures Credit(Floors(total, es, d), a) == Credit(Floors(total, es', d), a)
    ensures BonusOf(total, es, d) == BonusOf(total, es', d)
  {
    assert Credit(Floors(total, es, d), a) == Credit(Floors(total, es', d), a) by { SumsPermute(total, es, es', d, a); }
    assert Leftover(total, es, d) == Leftover(total, es', d) by { SumsPermute(total, es, es', d, a); }
    assert Sort(Remainders(total, es, d)) == Sort(Remainders(total, es', d)) by { SortedSame(total, es, es', d); }
  }

  lemma CreditSplit(total: nat, claims: seq<Claim>, a: Address)
    requires total > 0 && Denominator(Positive(claims)) > 0
    ensures var es := Positive(claims);
            var d := Denominator(es);
            Credit(Awards(total, claims), a) == Credit(Floors(total, es, d), a) + Credit(BonusOf(total, es, d), a)
  {
    var es := Positive(claims);
    var d := Denominator(es);
    CreditConcat(Floors(total, es, d), BonusOf(total, es, d), a);
  }

  /** Reordering the weights changes nobody's payout. */
  lemma OrderIndependent(total: nat, claims: seq<Claim>, claims': seq<Claim>, a: Address)
    requires multiset(claims) == multiset(claims')
    ensures Credit(Awards(total, claims), a) == Credit(Awards(total, claims'), a)
  {
    var es, es' := Positive(claims), Positive(claims');
    PositivePermutes(claims, claims');
    SumsPermute(total, es, es', 1, a);
    var d := Denominator(es);
    if total > 0 && d > 0 {
      CreditSplit(total, claims, a);
      CreditSplit(total, claims', a);
      PassesSame(total, es, es', d, a);
    }
  }

  // ---------- bounds ----------

  ghost predicate DistinctAddrs(cs: seq<Claim>) {
    forall i, j :: 0 <= i < j < |cs| ==> cs[i].addr != cs[j].addr
  }

  /** How many nonzero remainders an address holds. */
  ghost function Chances(rs: seq<Remainder>, a: Address): nat {
    if rs == [] then 0 else (if rs[0].addr == a && rs[0].remainder > 0 then 1 else 0) + Chances(rs[1..], a)
  }

  lemma {:induction false} BonusCredit(rs: seq<Remainder>, units: nat, a: Address)
    ensures Credit(Bonus(rs, units), a) <= Chances(rs, a)
  {
    if rs != [] && units > 0 {
      if rs[0].remainder == 0 {
        BonusCredit(rs[1..], units, a);
      } else {
        BonusCredit(rs[1..], units - 1, a);
      }
    }
  }

  lemma {:induction false} ChancesInsert(x: Remainder, rs: seq<Remainder>, a: Address)
    ensures Chances(Insert(x, rs), a) == Chances([x], a) + Chances(rs, a)
  {
    if rs != [] && !Precedes(x, rs[0]) {
      ChancesInsert(x, rs[1..], a);
    }
  }

  lemma {:induction false} ChancesSort(rs: seq<Remainder>, a: Address)
    ensures Chances(Sort(rs), a) == Chances(rs, a)
  {
    if rs != [] {
      ChancesSort(rs[1..], a);
      ChancesInsert(rs[0], Sort(rs[1..]), a);
    }
  }

  /** Every address gets its floors and at most one unit more for each of its nonzero remainders. */
  lemma CreditBounds(total: nat, claims: seq<Claim>, a: Address)
    requires total > 0 && Positive(claims) != []
    ensures var es := Positive(claims);
            var d := Denominator(es);
            && d > 0
            && Credit(Floors(total, es, d), a) <= Credit(Awards(total, claims), a)
               <= Credit(Floors(total, es, d), a) + Chances(Remainders(total, es, d), a)
  {
    var es := Positive(claims);
    DenominatorPositive(es);
    var d := Denominator(es);
    CreditSplit(total, claims, a);
    if Leftover(total, es, d) > 0 {
      BonusCredit(Sort(Remainders(total, es, d)), Leftover(total, es, d), a);
      ChancesSort(Remainders(total, es, d), a);
    }
  }

  // ---------- one claim per address ----------

  ghost predicate DistinctHolders(rs: seq<Remainder>) {
    forall i, j :: 0 <= i < j < |rs| ==> rs[i].addr != rs[j].addr
  }

  ghost predicate Holds(rs: seq<Remainder>, a: Address) {
    exists i :: 0 <= i < |rs| && rs[i].addr == a
  }

  lemma {:induction false} InsertDistinct(x: Remainder, rs: seq<Remainder>)
    requires DistinctHolders(rs) && !Holds(rs, x.addr)
    ensures DistinctHolders(Insert(x, rs))
    ensures forall a :: Holds(Insert(x, rs), a) <==> a == x.addr || Holds(rs, a)
  {
    var t := Insert(x, rs);
    if rs == [] || Precedes(x, rs[0]) {
      assert t == [x] + rs;
      assert forall i :: 1 <= i < |t| ==> t[i] == rs[i - 1];
      assert t[0] == x;
      forall a | Holds(rs, a)
        ensures Holds(t, a)
      {
        var i :| 0 <= i < |rs| && rs[i].addr == a;
        assert t[i + 1].addr == a;
      }
    } else {
      var s := Insert(x, rs[1..]);
      assert forall i :: 0 <= i < |rs[1..]| ==> rs[1..][i] == rs[i + 1];
      InsertDistinct(x, rs[1..]);
      assert t == [rs[0]] + s;
      assert forall i :: 1 <= i < |t| ==> t[i] == s[i - 1];
      assert !Holds(s, rs[0].addr);
      forall a
        ensures Holds(t, a) <==> a == x.addr || Holds(rs, a)
      {
        assert Holds(t, a) <==> a == rs[0].addr || Holds(s, a) by { HoldsCons(rs[0], s, a); }
        assert Holds(rs, a) <==> a == rs[0].addr || Holds(rs[1..], a) by {
          HoldsCons(rs[0], rs[1..], a);
          assert rs == [rs[0]] + rs[1..];
        }
      }
    }
  }

  lemma HoldsCons(x: Remainder, rs: seq<Remainder>, a: Address)
    ensures Holds([x] + rs, a) <==> a == x.addr || Holds(rs, a)
  {
    var t := [x] + rs;
    assert t[0] == x;
    if Holds(rs, a) {
      var i :| 0 <= i < |rs| && rs[i].addr == a;
      assert t[i + 1].addr == a;
    }
  }

  lemma {:induction false} SortDistinct(rs: seq<Remainder>)
    requires DistinctHolders(rs)
    ensures DistinctHolders(Sort(rs))
    ensures forall a :: Holds(Sort(rs), a) <==> Holds(rs, a)
  {
    if rs != [] {
      SortDistinct(rs[1..]);
      assert !Holds(rs[1..], rs[0].addr);
      InsertDistinct(rs[0], Sort(rs[1..]));
      forall a
        ensures Holds(rs, a) <==> a == rs[0].addr || Holds(rs[1..], a)
      {
        HoldsCons(rs[0], rs[1..], a);
        assert rs == [rs[0]] + rs[1..];
      }
    }
  }

  lemma {:induction false} SortedZero(rs: seq<Remainder>)
    requires Sorted(rs) && rs != [] && rs[0].remainder == 0
    ensures NonZero(rs) == 0
  {
    if |rs| > 1 {
      assert Precedes(rs[0], rs[1]);
      SortedZero(rs[1..]);
    }
  }

  lemma {:induction false} BonusAbsent(rs: seq<Remainder>, units: nat, a: Address)
    requires forall i :: 0 <= i < |rs| ==> rs[i].addr != a
    ensures Credit(Bonus(rs, units), a) == 0
  {
    if rs != [] && units > 0 {
      BonusAbsent(rs[1..], units, a);
      BonusAbsent(rs[1..], units - 1, a);
    }
  }

  /** On distinct holders the second pass gives one unit to each of the first `units` places. */
  lemma {:induction false} BonusByPlace(rs: seq<Remainder>, units: nat, j: nat)
    requires Sorted(rs) && DistinctHolders(rs) && units <= NonZero(rs) && j < |rs|
    ensures Credit(Bonus(rs, units), rs[j].addr) == if j < units then 1 else 0
  {
    if units > 0 {
      if rs[0].remainder == 0 {
        SortedZero(rs);
      }
      if j == 0 {
        BonusAbsent(rs[1..], units - 1, rs[0].addr);
      } else {
        BonusByPlace(rs[1..], units - 1, j - 1);
      }
    }
  }

  lemma {:induction false} FloorAbsent(total: nat, es: seq<Claim>, d: int, a: Address)
    requires Valued(es) && d > 0 && forall i :: 0 <= i < |es| ==> es[i].addr != a
    ensures Credit(Floors(total, es, d), a) == 0
  {
    if es != [] {
      FloorsCredit(total, es, d, a);
      FloorAbsent(total, es[1..], d, a);
    }
  }

  lemma {:induction false} FloorOf(total: nat, es: seq<Claim>, d: int, i: nat)
    requires Valued(es) && d > 0 && DistinctAddrs(es) && i < |es|
    ensures Credit(Floors(total, es, d), es[i].addr) == Share(total, es[i].value, d)
  {
    FloorsCredit(total, es, d, es[i].addr);
    if i == 0 {
      FloorAbsent(total, es[1..], d, es[0].addr);
    } else {
      FloorOf(total, es[1..], d, i - 1);
    }
  }

  lemma {:induction false} PositiveDistinct(cs: seq<Claim>)
    requires DistinctAddrs(cs)
    ensures DistinctAddrs(Positive(cs))
    ensures forall c :: c in Positive(cs) <==> c in cs && c.value > 0
  {
    if cs != [] {
      PositiveDistinct(cs[1..]);
      assert cs == [cs[0]] + cs[1..];
      forall c | c in Positive(cs[1..])
        ensures c.addr != cs[0].addr
      {
        assert c in cs[1..];
      }
    }
  }

  /** The place of a claim's remainder in the second pass. */
  ghost predicate Place(total: nat, claims: seq<Claim>, c: Claim, p: nat) {
    var es := Positive(claims);
    var d := Denominator(es);
    && c.value > 0 && d > 0
    && p < |Sort(Remainders(total, es, d))|
    && Sort(Remainders(total, es, d))[p] == Remainder(c.addr, Rest(total, c.value, d))
  }

  lemma HasPlace(total: nat, claims: seq<Claim>, c: Claim) returns (p: nat)
    requires DistinctAddrs(claims) && c in claims && c.value > 0
    ensures Place(total, claims, c, p)
  {
    var es := Positive(claims);
    PositiveDistinct(claims);
    DenominatorPositive(es);
    var rs := Remainders(total, es, Denominator(es));
    var i :| 0 <= i < |es| && es[i] == c;
    SortSorts(rs);
    assert rs[i] in multiset(rs) && rs[i] in multiset(Sort(rs));
    p :| 0 <= p < |Sort(rs)| && Sort(rs)[p] == rs[i];
  }

  /** With one claim per address: the floor of the proportional share, plus one for the first `Leftover` places. */
  lemma CreditExact(total: nat, claims: seq<Claim>, c: Claim, p: nat)
    requires total > 0 && DistinctAddrs(claims) && c in claims && Place(total, claims, c, p)
    ensures var es := Positive(claims);
            var d := Denominator(es);
            Credit(Awards(total, claims), c.addr)
            == Share(total, c.value, d) + (if p < Leftover(total, es, d) then 1 else 0)
  {
    var es := Positive(claims);
    var d := Denominator(es);
    PositiveDistinct(claims);
    var i :| 0 <= i < |es| && es[i] == c;
    CreditSplit(total, claims, c.addr);
    FloorOf(total, es, d, i);
    LeftoverBound(total, es);
    var rs := Remainders(total, es, d);
    if Leftover(total, es, d) > 0 {
      SortSorts(rs);
      SortDistinct(rs);
      NonZeroSort(rs);
      BonusByPlace(Sort(rs), Leftover(total, es, d), p);
    }
  }

  /** With one claim per address, each claim gets the floor of its share or one unit more, the latter only over a remainder. */
  lemma FloorOrNext(total: nat, claims: seq<Claim>, c: Claim)
    requires total > 0 && DistinctAddrs(claims) && c in claims && c.value > 0
    ensures var d := Denominator(Positive(claims));
            && d > 0
            && Share(total, c.value, d) <= Credit(Awards(total, claims), c.addr) <= Share(total, c.value, d) + 1
            && (Rest(total, c.value, d) == 0 ==> Credit(Awards(total, claims), c.addr) == Share(total, c.value, d))
  {
    var es := Positive(claims);
    var d := Denominator(es);
    var p := HasPlace(total, claims, c);
    CreditExact(total, claims, c, p);
    if Rest(total, c.value, d) == 0 {
      PositiveDistinct(claims);
      LeftoverBound(total, es);
      var rs := Remainders(total, es, d);
      SortSorts(rs);
      NonZeroSort(rs);
      NonZeroBefore(Sort(rs), p);
    }
  }

  lemma {:induction false} NonZeroBefore(rs: seq<Remainder>, p: nat)
    requires Sorted(rs) && p < |rs| && rs[p].remainder == 0
    ensures NonZero(rs) <= p
  {
    if p == 0 {
      SortedZero(rs);
    } else {
      NonZeroBefore(rs[1..], p - 1);
    }
  }

  lemma {:induction false} UnpaidAbsent(total: nat, claims: seq<Claim>, c: Claim)
    requires DistinctAddrs(claims) && c in claims && c.value <= 0
    ensures Credit(Awards(total, claims), c.addr) == 0
  {
    var es := Positive(claims);
    PositiveDistinct(claims);
    if total > 0 && Denominator(es) > 0 {
      var d := Denominator(es);
      forall i | 0 <= i < |es|
        ensures es[i].addr != c.addr
      {
        assert es[i] in es;
      }
      CreditSplit(total, claims, c.addr);
      FloorAbsent(total, es, d, c.addr);
      var rs := Remainders(total, es, d);
      SortDistinct(rs);
      assert !Holds(rs, c.addr);
      if Leftover(total, es, d) > 0 {
        assert !Holds(Sort(rs), c.addr);
        BonusAbsent(Sort(rs), Leftover(total, es, d), c.addr);
      }
    }
  }

  /** Equal floors order the remainders like the values. */
  lemma SharesOrdered(total: nat, v: int, v': int, d: int)
    requires total > 0 && v > v' > 0 && d > 0
    ensures Share(total, v, d) > Share(total, v', d)
            || (Share(total, v, d) == Share(total, v', d) && Rest(total, v, d) > Rest(total, v', d))
  {
    ShareAndRest(total, v, d);
    ShareAndRest(total, v', d);
    Mono(v', v, total);
    QuotientsOrdered(Share(total, v, d), Rest(total, v, d), Share(total, v', d), Rest(total, v', d), d);
  }

  /**
   With one claim per address, a strictly larger value never receives less, and
   equal positive values differ by at most one unit.
   */
  lemma Monotone(total: nat, claims: seq<Claim>, c: Claim, c': Claim)
    requires DistinctAddrs(claims) && c in claims && c' in claims
    ensures c.value > c'.value ==> Credit(Awards(total, claims), c.addr) >= Credit(Awards(total, claims), c'.addr)
    ensures c.value == c'.value ==> Credit(Awards(total, claims), c.addr) <= Credit(Awards(total, claims), c'.addr) + 1
  {
    if total > 0 && c.value > 0 {
      if c'.value <= 0 {
        UnpaidAbsent(total, claims, c');
      } else if c.value == c'.value {
        FloorOrNext(total, claims, c);
        FloorOrNext(total, claims, c');
      } else if c.value > c'.value {
        var es := Positive(claims);
        var d := Denominator(es);
        var p := HasPlace(total, claims, c);
        var p' := HasPlace(total, claims, c');
        CreditExact(total, claims, c, p);
        CreditExact(total, claims, c', p');
        SharesOrdered(total, c.value, c'.value, d);
        SortSorts(Remainders(total, es, d));
      }
    } else {
      if total > 0 {
        UnpaidAbsent(total, claims, c);
        if c'.value <= 0 {
          UnpaidAbsent(total, claims, c');
        }
      }
    }
  }
}
