/** Quotients and remainders of symbolic divisors, which the solver does not do well on its own. */
module Arithmetic {

  lemma Multiple(n: int, c: int)
    requires n >= 1 && c >= 0
    ensures n * c >= c
  {
  }

  lemma Division(i: int, c: int)
    requires c > 0
    ensures i == (i / c) * c + i % c && 0 <= i % c < c
  {
  }

  lemma SameQuotient(q: int, r: int, a: int, c: int)
    requires c > 0 && q * c + a - c < r * c + a < q * c + a + c
    ensures q == r
  {
    assert (q - r) * c < c && (r - q) * c < c;
    if q > r { Multiple(q - r, c); }
    if q < r { Multiple(r - q, c); }
  }

  lemma SameDivision(q: int, r: int, a: int, b: int, c: int)
    requires q * c + a == r * c + b
    requires 0 <= a < c && 0 <= b < c
    ensures q == r && a == b
  {
    assert (q - r) * c == b - a && (r - q) * c == a - b;
    if q > r { Multiple(q - r, c); }
    if q < r { Multiple(r - q, c); }
  }

  function Pow2(n: nat): (r: nat)
    ensures r >= 1
  {
    if n == 0 then 1 else 2 * Pow2(n - 1)
  }

  lemma {:induction false} Pow2Sum(m: nat, n: nat)
    ensures Pow2(m + n) == Pow2(m) * Pow2(n)
  {
    if m > 0 {
      Pow2Sum(m - 1, n);
      TwiceProduct(Pow2(m - 1), Pow2(n));
    }
  }

  lemma TwiceProduct(x: nat, y: nat)
    ensures 2 * (x * y) == (2 * x) * y
  {
  }

  lemma {:induction false} Pow2Order(m: nat, n: nat)
    requires m < n
    ensures 2 * Pow2(m) <= Pow2(n)
  {
    if m + 1 < n { Pow2Order(m, n - 1); }
  }
}
