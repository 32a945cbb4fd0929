/** Powers of two, and facts of division with remainder. */
module Arithmetic {

  function Min(a: int, b: int): int {
    if a < b then a else b
  }

  function Max(a: int, b: int): int {
    if a > b then a else b
  }

  function Pow2(n: nat): (p: int)
    ensures p >= 1
  {
    if n == 0 then 1 else 2 * Pow2(n - 1)
  }

  lemma {:induction false} Pow2Sum(a: nat, b: nat)
    ensures Pow2(a + b) == Pow2(a) * Pow2(b)
  {
    if a > 0 {
      Pow2Sum(a - 1, b);
      assert 2 * (Pow2(a - 1) * Pow2(b)) == (2 * Pow2(a - 1)) * Pow2(b);
    }
  }

  lemma MultipleIsZero(k: int, m: int)
    requires m > 0
    ensures (k * m) % m == 0
  {
    EuclidUnique(k, 0, m);
  }

  lemma SmallMultiple(k: int, m: int)
    requires -m < k * m < m
    ensures k == 0
  {
  }

  lemma EuclidUnique(d: int, r: int, m: int)
    requires 0 <= r < m
    ensures (d * m + r) % m == r && (d * m + r) / m == d
  {
    var x := d * m + r;
    var d', r' := x / m, x % m;
    assert x == d' * m + r';
    assert (d - d') * m == d * m - d' * m;
    SmallMultiple(d - d', m);
  }

  lemma HalfQuotient(x: int, m: int)
    requires m > 0
    ensures x / (2 * m) == (x / m) / 2
  {
    var q, r := x / m, x % m;
    assert x == q * m + r;
    HalfQuotientOf(q, r, m);
  }

  lemma HalfQuotientOf(q: int, r: int, m: int)
    requires 0 <= r < m
    ensures (q * m + r) / (2 * m) == q / 2
  {
    var h, b := q / 2, q % 2;
    assert q * m == h * (2 * m) + b * m by {
      assert q == 2 * h + b;
    }
    assert b == 0 || b == 1;
    EuclidUnique(h, b * m + r, 2 * m);
  }

  lemma CongruentAndClose(x: int, y: int, m: int)
    requires m > 0 && x % m == y % m && -m < x - y < m
    ensures x == y
  {
    var p, q := x / m, y / m;
    assert x == p * m + x % m && y == q * m + y % m;
    assert (p - q) * m == p * m - q * m;
    SmallMultiple(p - q, m);
  }
}
