/** The few facts about products and quotients the other modules share. */
module Arithmetic {

  /** One more than the largest 64-bit number. */
  const UINT64: nat := 0x1_0000_0000_0000_0000

  lemma Mono(x: int, y: int, d: int)
    requires d > 0
    ensures x <= y ==> x * d <= y * d
    ensures x < y ==> x * d < y * d
  {
  }

  lemma QuotientsOrdered(q: int, r: int, q': int, r': int, d: int)
    requires q * d + r > q' * d + r' && 0 <= r < d && 0 <= r' < d
    ensures q > q' || (q == q' && r > r')
  {
    Mono(q + 1, q', d);
    assert (q + 1) * d == q * d + d;
  }

  lemma QuotientUnique(n: nat, q: int, r: int, d: int)
    requires d > 0 && n == q * d + r && 0 <= r < d
    ensures n / d == q && n % d == r
  {
    var q', r' := n / d, n % d;
    assert n == q' * d + r';
    Mono(q + 1, q', d);
    Mono(q' + 1, q, d);
    assert (q + 1) * d == q * d + d && (q' + 1) * d == q' * d + d;
  }

  /** Rounding two parts down separately loses at most one unit. */
  lemma DivAdd(a: nat, b: nat, d: nat)
    requires d > 0
    ensures a / d + b / d <= (a + b) / d <= a / d + b / d + 1
  {
    var q, r := a / d + b / d, a % d + b % d;
    assert a == a / d * d + a % d && b == b / d * d + b % d;
    assert a + b == q * d + r;
    if r < d {
      QuotientUnique(a + b, q, r, d);
    } else {
      assert (q + 1) * d == q * d + d;
      QuotientUnique(a + b, q + 1, r - d, d);
    }
  }

  lemma Distribute(x: int, y: int, z: int)
    ensures (x + y) * z == x * z + y * z
  {
  }

  lemma Cancel(x: int, y: int, d: int)
    requires d > 0
    ensures x * d <= y * d ==> x <= y
    ensures x * d < y * d ==> x < y
  {
    Mono(y, x, d);
  }

  /** Losing less than one unit in each of `n` roundings loses less than `n` units. */
  lemma RoundedGap(x: int, n: nat, b: int, d: int)
    requires d > 0 && n > 0 && b * d <= x * d + n * (d - 1)
    ensures b < x + n
  {
    Distribute(x, n, d);
    Distribute(d - 1, 1, n);
    Cancel(b, x + n, d);
  }
}
