/** Powers of two and rearrangements of products. */
module Arithmetic {

  function Pow2(k: nat): (r: nat)
    ensures r >= 1 && r > k
  {
    if k == 0 then 1 else 2 * Pow2(k - 1)
  }

  lemma {:induction false} Pow2Mono(a: nat, b: nat)
    requires a <= b
    ensures Pow2(a) <= Pow2(b)
    decreases b - a
  {
    if a < b {
      Pow2Mono(a, b - 1);
    }
  }

  lemma {:induction false} Pow2Add(a: nat, b: nat)
    ensures Pow2(a + b) == Pow2(a) * Pow2(b)
  {
    if a > 0 {
      Pow2Add(a - 1, b);
      Associate(2, Pow2(a - 1), Pow2(b));
    }
  }

  lemma Associate(a: int, b: int, c: int)
    ensures a * b * c == a * (b * c)
  {
  }

  lemma Distribute(a: int, b: int, p: int)
    ensures (a + b) * p == a * p + b * p
  {
  }

  lemma Distributes(n: int, a: int, b: int)
    ensures n * (a - b) == n * a - n * b
    ensures n * (a + b) == n * a + n * b
  {
  }

  lemma TimesLow(d: nat, k: nat)
    ensures k == 0 ==> d * k == 0
    ensures k >= 1 ==> d * k >= d
  {
    if k >= 1 {
      assert d * k == d * (k - 1) + d;
    }
  }

  lemma SameQuotient(n: nat, q: int, s: nat, m: int, r: nat)
    requires s < n && r < n && n * q + s == n * m + r
    ensures q == m && s == r
  {
    Distributes(n, q, m);
    if q > m {
      TimesLow(n, q - m);
    } else if m > q {
      Distributes(n, m, q);
      TimesLow(n, m - q);
    }
  }

  lemma DivUnique(x: nat, b: nat, q: nat, r: nat)
    requires r < b && x == q * b + r
    ensures x / b == q && x % b == r
  {
    assert b * (x / b) + x % b == x == b * q + r;
    SameQuotient(b, x / b, x % b, q, r);
  }
}
