/**
 Largest-remainder apportionment of one reward pool: every claim gets the floor of
 its proportional share, and the units left over go to the largest remainders,
 ties broken by address.
 */
module ProRata {
  import opened Accounts
  import opened Arithmetic

  /** A weight with the value the pool reads from it; non-positive values do not take part. */
  datatype Claim = Claim(addr: Address, value: int)

  /** One call of the payout callback. */
  datatype Award = Award(addr: Address, amount: nat)

  datatype Remainder = Remainder(addr: Address, remainder: nat)

  function Positive(claims: seq<Claim>): (es: seq<Claim>)
    ensures |es| <= |claims|
    ensures forall i :: 0 <= i < |es| ==> es[i].value > 0
  {
    if claims == [] then []
    else if claims[0].value > 0 then [claims[0]] + Positive(claims[1..])
    else Positive(claims[1..])
  }

  function Denominator(es: seq<Claim>): int {
    if es == [] then 0 else es[0].value + Denominator(es[1..])
  }

  function Share(total: nat, value: int, d: int): nat
    requires value > 0 && d > 0
  {
    total * value / d
  }

  function Rest(total: nat, value: int, d: int): (r: nat)
    requires value > 0 && d > 0
    ensures r < d
  {
    total * value % d
  }

  predicate Valued(es: seq<Claim>) {
    forall i :: 0 <= i < |es| ==> es[i].value > 0
  }

  /** The first pass: the positive floors. */
  function Floors(total: nat, es: seq<Claim>, d: int): seq<Award>
    requires Valued(es) && d > 0
  {
    if es == [] then []
    else
      var share := Share(total, es[0].value, d);
      if share > 0 then [Award(es[0].addr, share)] + Floors(total, es[1..], d) else Floors(total, es[1..], d)
  }

  function Remainders(total: nat, es: seq<Claim>, d: int): (rs: seq<Remainder>)
    requires Valued(es) && d > 0
    ensures |rs| == |es|
    ensures forall i :: 0 <= i < |es| ==> rs[i] == Remainder(es[i].addr, Rest(total, es[i].value, d))
  {
    seq(|es|, i requires 0 <= i < |es| => Remainder(es[i].addr, Rest(total, es[i].value, d)))
  }

  // ---------- the order of the second pass ----------

  /** Larger remainders first, then smaller addresses. */
  predicate Precedes(x: Remainder, y: Remainder) {
    x.remainder > y.remainder || (x.remainder == y.remainder && x.addr <= y.addr)
  }

  ghost predicate Sorted(rs: seq<Remainder>) {
    forall i, j :: 0 <= i < j < |rs| ==> Precedes(rs[i], rs[j])
  }

  function Insert(x: Remainder, rs: seq<Remainder>): seq<Remainder> {
    if rs == [] || Precedes(x, rs[0]) then [x] + rs else [rs[0]] + Insert(x, rs[1..])
  }

  function Sort(rs: seq<Remainder>): seq<Remainder> {
    if rs == [] then [] else Insert(rs[0], Sort(rs[1..]))
  }

  lemma {:induction false} InsertPermutes(x: Remainder, rs: seq<Remainder>)
    ensures multiset(Insert(x, rs)) == multiset(rs) + multiset{x}
  {
    if rs != [] && !Precedes(x, rs[0]) {
      InsertPermutes(x, rs[1..]);
      assert rs == [rs[0]] + rs[1..];
    }
  }

  lemma {:induction false} InsertSorts(x: Remainder, rs: seq<Remainder>)
    requires Sorted(rs)
    ensures Sorted(Insert(x, rs))
  {
    if rs != [] && !Precedes(x, rs[0]) {
      var t := Insert(x, rs[1..]);
      InsertSorts(x, rs[1..]);
      InsertPermutes(x, rs[1..]);
      forall j | 0 <= j < |t|
        ensures Precedes(rs[0], t[j])
      {
        assert t[j] in multiset(t);
      }
    }
  }

  lemma {:induction false} SortSorts(rs: seq<Remainder>)
    ensures Sorted(Sort(rs)) && multiset(Sort(rs)) == multiset(rs)
  {
    if rs != [] {
      SortSorts(rs[1..]);
      InsertSorts(rs[0], Sort(rs[1..]));
      InsertPermutes(rs[0], Sort(rs[1..]));
      assert rs == [rs[0]] + rs[1..];
    }
  }

  lemma {:induction false} InsertCommutes(x: Remainder, y: Remainder, rs: seq<Remainder>)
    ensures Insert(x, Insert(y, rs)) == Insert(y, Insert(x, rs))
  {
    if rs != [] && !Precedes(x, rs[0]) && !Precedes(y, rs[0]) {
      InsertCommutes(x, y, rs[1..]);
    }
  }

  /** A list in the required order is left as it is. */
  lemma {:induction false} SortKeepsOrdered(rs: seq<Remainder>)
    requires Sorted(rs)
    ensures Sort(rs) == rs
  {
    if rs != [] {
      SortKeepsOrdered(rs[1..]);
    }
  }

  /** The second pass: one unit per nonzero remainder until the units run out. */
  function Bonus(rs: seq<Remainder>, units: nat): seq<Award> {
    if rs == [] || units == 0 then []
    else if rs[0].remainder == 0 then Bonus(rs[1..], units)
    else [Award(rs[0].addr, 1)] + Bonus(rs[1..], units - 1)
  }

  function AwardTotal(ws: seq<Award>): nat {
    if ws == [] then 0 else ws[0].amount + AwardTotal(ws[1..])
  }

  function Leftover(total: nat, es: seq<Claim>, d: int): int
    requires Valued(es) && d > 0
  {
    total - AwardTotal(Floors(total, es, d))
  }

  /** All payout calls, in order; nothing is paid when there is nothing to pay or nobody to pay. */
  function Awards(total: nat, claims: seq<Claim>): seq<Award> {
    var es := Positive(claims);
    var d := Denominator(es);
    if total == 0 || d <= 0 then []
    else
      var left := Leftover(total, es, d);
      Floors(total, es, d) + (if left > 0 then Bonus(Sort(Remainders(total, es, d)), left) else [])
  }

  // ---------- conservation ----------

  ghost function NonZero(rs: seq<Remainder>): nat {
    if rs == [] then 0 else (if rs[0].remainder > 0 then 1 else 0) + NonZero(rs[1..])
  }

  ghost function RestSum(total: nat, es: seq<Claim>, d: int): nat
    requires Valued(es) && d > 0
  {
    if es == [] then 0 else Rest(total, es[0].value, d) + RestSum(total, es[1..], d)
  }

  lemma {:induction false} DenominatorPositive(es: seq<Claim>)
    requires Valued(es)
    ensures Denominator(es) >= |es|
  {
    if es != [] {
      DenominatorPositive(es[1..]);
    }
  }

  lemma {:induction false} AwardTotalConcat(a: seq<Award>, b: seq<Award>)
    ensures AwardTotal(a + b) == AwardTotal(a) + AwardTotal(b)
  {
    if a == [] {
      assert a + b == b;
    } else {
      assert (a + b)[1..] == a[1..] + b;
      AwardTotalConcat(a[1..], b);
    }
  }

  lemma ShareAndRest(total: nat, value: int, d: int)
    requires value > 0 && d > 0
    ensures Share(total, value, d) * d + Rest(total, value, d) == total * value
  {
  }

  lemma Scaled(a: int, b: int, d: int, r: int, s: int, t: int, v: int, w: int)
    requires a * d + r == t * v && b * d + s == t * w
    ensures (a + b) * d + (r + s) == t * (v + w)
  {
  }

  lemma FloorsTotal(total: nat, es: seq<Claim>, d: int)
    requires Valued(es) && d > 0 && es != []
    ensures AwardTotal(Floors(total, es, d)) == Share(total, es[0].value, d) + AwardTotal(Floors(total, es[1..], d))
  {
    var share := Share(total, es[0].value, d);
    if share > 0 {
      assert Floors(total, es, d)[1..] == Floors(total, es[1..], d);
    }
  }

  /** Floors and remainders together account for the whole pool, scaled by the denominator. */
  lemma {:induction false} FloorsAndRests(total: nat, es: seq<Claim>, d: int)
    requires Valued(es) && d > 0
    ensures AwardTotal(Floors(total, es, d)) * d + RestSum(total, es, d) == total * Denominator(es)
  {
    if es != [] {
      FloorsAndRests(total, es[1..], d);
      ShareAndRest(total, es[0].value, d);
      FloorsTotal(total, es, d);
      Scaled(Share(total, es[0].value, d), AwardTotal(Floors(total, es[1..], d)), d,
             Rest(total, es[0].value, d), RestSum(total, es[1..], d),
             total, es[0].value, Denominator(es[1..]));
    }
  }

  lemma {:induction false} RestSumBound(total: nat, es: seq<Claim>, d: int)
    requires Valued(es) && d > 0
    ensures RestSum(total, es, d) <= NonZero(Remainders(total, es, d)) * (d - 1)
  {
    if es != [] {
      RestSumBound(total, es[1..], d);
      assert Remainders(total, es, d)[1..] == Remainders(total, es[1..], d);
      var n := NonZero(Remainders(total, es[1..], d));
      assert (n + 1) * (d - 1) == n * (d - 1) + (d - 1);
    }
  }

  lemma Bounded(total: nat, floors: nat, rests: nat, n: nat, d: int)
    requires d > 0 && floors * d + rests == total * d && rests <= n * (d - 1)
    ensures var left := total - floors;
            0 <= left <= n && (left > 0 ==> left < n)
  {
    var left := total - floors;
    assert left * d == rests && n * (d - 1) == n * d - n;
    Mono(left, 0, d);
    Mono(0, left, d);
    Mono(n, left, d);
  }

  /** The leftover is not negative and, when there is one, below the number of nonzero remainders. */
  lemma LeftoverBound(total: nat, es: seq<Claim>)
    requires Valued(es) && es != []
    ensures var d := Denominator(es);
            && d > 0
            && 0 <= Leftover(total, es, d)
            && (Leftover(total, es, d) > 0 ==> Leftover(total, es, d) < NonZero(Remainders(total, es, d)))
  {
    DenominatorPositive(es);
    var d := Denominator(es);
    FloorsAndRests(total, es, d);
    RestSumBound(total, es, d);
    Bounded(total, AwardTotal(Floors(total, es, d)), RestSum(total, es, d), NonZero(Remainders(total, es, d)), d);
  }

  lemma {:induction false} BonusSpendsAll(rs: seq<Remainder>, units: nat)
    requires units <= NonZero(rs)
    ensures AwardTotal(Bonus(rs, units)) == units
  {
    if rs != [] && units > 0 {
      if rs[0].remainder == 0 {
        BonusSpendsAll(rs[1..], units);
      } else {
        BonusSpendsAll(rs[1..], units - 1);
      }
    }
  }

  lemma {:induction false} NonZeroConcat(a: seq<Remainder>, b: seq<Remainder>)
    ensures NonZero(a + b) == NonZero(a) + NonZero(b)
  {
    if a == [] {
      assert a + b == b;
    } else {
      assert (a + b)[1..] == a[1..] + b;
      NonZeroConcat(a[1..], b);
    }
  }

  lemma {:induction false} NonZeroInsert(x: Remainder, rs: seq<Remainder>)
    ensures NonZero(Insert(x, rs)) == NonZero([x]) + NonZero(rs)
  {
    if rs == [] || Precedes(x, rs[0]) {
      NonZeroConcat([x], rs);
    } else {
      NonZeroInsert(x, rs[1..]);
      NonZeroConcat([rs[0]], Insert(x, rs[1..]));
    }
  }

  lemma {:induction false} NonZeroSort(rs: seq<Remainder>)
    ensures NonZero(Sort(rs)) == NonZero(rs)
  {
    if rs != [] {
      NonZeroSort(rs[1..]);
      NonZeroInsert(rs[0], Sort(rs[1..]));
    }
  }

  /** The pool is paid out exactly whenever somebody has a positive value, and not at all otherwise. */
  lemma PaysExactly(total: nat, claims: seq<Claim>)
    ensures AwardTotal(Awards(total, claims)) == if Positive(claims) == [] then 0 else total
  {
    var es := Positive(claims);
    if es != [] && total > 0 {
      LeftoverBound(total, es);
      var d := Denominator(es);
      var left := Leftover(total, es, d);
      var rs := Remainders(total, es, d);
      if left > 0 {
        NonZeroSort(rs);
        BonusSpendsAll(Sort(rs), left);
        AwardTotalConcat(Floors(total, es, d), Bonus(Sort(rs), left));
      } else {
        assert Awards(total, claims) == Floors(total, es, d);
      }
    }
  }
}
