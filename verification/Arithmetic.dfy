/**
 Powers of two, and division by unknown divisors. Products and quotients of two unknowns are beyond
 what the solver decides by itself, so the few laws that the other modules use are stated here once:
 exponents add, a quotient and a remainder are unique, dividing twice is dividing by the product, and
 adding a multiple of the divisor leaves the remainder alone. The divisor is positive throughout, and
 numbers are naturals, as all uses of these laws are about offsets, widths and counts.
 */
module Arithmetic {

  function Log2(n: nat): (e: nat)
    requires n > 0
  {
    if n == 1 then 0 else 1 + Log2(n / 2)
  }

  function Pow2(e: nat): (r: nat)
    ensures r > 0
  {
    if e == 0 then 1 else 2 * Pow2(e - 1)
  }

  lemma {:induction false} Log2Bounds(n: nat)
    requires n > 0
    ensures Pow2(Log2(n)) <= n < 2 * Pow2(Log2(n))
  {
    if n > 1 { Log2Bounds(n / 2); }
  }

  lemma {:induction false} Pow2Add(a: nat, b: nat)
    ensures Pow2(a + b) == Pow2(a) * Pow2(b)
  {
    if a == 0 {
    } else {
      Pow2Add(a - 1, b);
      assert 2 * (Pow2(a - 1) * Pow2(b)) == (2 * Pow2(a - 1)) * Pow2(b);
    }
  }

  lemma {:induction false} Pow2Mono(a: nat, b: nat)
    requires a <= b
    ensures Pow2(a) <= Pow2(b)
  {
    if a < b { Pow2Mono(a, b - 1); }
  }

  lemma {:induction false} MulLess(m: nat, a: nat, b: nat)
    requires a < b
    ensures m * a + m <= m * b
    decreases b
  {
    if a < b - 1 { MulLess(m, a, b - 1); }
  }

  lemma QuotientUnique(m: nat, q: nat, r: nat, q2: nat, r2: nat)
    requires r < m && r2 < m && m * q + r == m * q2 + r2
    ensures q == q2 && r == r2
  {
    if q < q2 {
      MulLess(m, q, q2);
    } else if q2 < q {
      MulLess(m, q2, q);
    }
  }

  lemma ModUnique(v: nat, m: nat, q: nat, r: nat)
    requires r < m && v == m * q + r
    ensures v % m == r && v / m == q
  {
    assert v == m * (v / m) + v % m;
    QuotientUnique(m, q, r, v / m, v % m);
  }

  lemma DivMod(v: nat, m: nat)
    requires m >= 1
    ensures v == m * (v / m) + v % m && v % m < m
  {
  }

  /** Adding a multiple of the divisor changes the quotient by the factor, and leaves the remainder. */
  lemma AddMultiple(a: nat, k: nat, m: nat)
    requires m >= 1
    ensures (a + m * k) / m == a / m + k && (a + m * k) % m == a % m
  {
    DivMod(a, m);
    Distribute(m, a / m, k);
    ModUnique(a + m * k, m, a / m + k, a % m);
  }

  lemma Distribute(m: nat, a: nat, b: nat)
    ensures m * (a + b) == m * a + m * b
  {
  }

  lemma Regroup(a: nat, b: nat, c: nat)
    ensures a * (b * c) == (a * b) * c
  {
  }

  /** Dividing twice is dividing by the product. */
  lemma DivDiv(v: nat, a: nat, b: nat)
    requires a >= 1 && b >= 1
    ensures a * b >= 1 && v / a / b == v / (a * b)
    ensures v % (a * b) == v % a + a * (v / a % b)
  {
    var q, r := v / a, v % a;
    DivMod(v, a);
    DivMod(q, b);
    Distribute(a, b * (q / b), q % b);
    Regroup(a, b, q / b);
    MulLess(a, q % b, b);
    ModUnique(v, a * b, q / b, r + a * (q % b));
  }

  /** One more low bit. */
  lemma LowBit(v: nat, n: nat)
    ensures v % Pow2(n + 1) == v % Pow2(n) + Pow2(n) * (v / Pow2(n) % 2)
  {
    DivDiv(v, Pow2(n), 2);
    assert Pow2(n + 1) == Pow2(n) * 2;
  }

  // ---------- rounding down ----------

  lemma MulCancel(x: int, y: int, n: nat)
    requires n >= 1 && x * n < y * n
    ensures x < y
  {
    assert (y - x) * n == y * n - x * n;
  }

  lemma QuotientBounds(a: nat, n: nat)
    requires n >= 1
    ensures (a / n) * n <= a < (a / n + 1) * n
  {
    assert a == n * (a / n) + a % n;
    assert (a / n + 1) * n == (a / n) * n + n;
  }

  lemma DivMono(a: nat, b: nat, n: nat)
    requires a <= b && n >= 1
    ensures a / n <= b / n
  {
    QuotientBounds(a, n);
    QuotientBounds(b, n);
    MulCancel(a / n, b / n + 1, n);
  }

  lemma DivMul(a: nat, n: nat)
    requires n >= 1
    ensures a * n / n == a
  {
    var q := a * n / n;
    QuotientBounds(a * n, n);
    MulCancel(a, q + 1, n);
    assert (a + 1) * n == a * n + n;
    MulCancel(q, a + 1, n);
  }

  lemma MulAscends(a: nat, b: nat, n: nat)
    requires a <= b
    ensures n * a <= n * b
  {
  }

  /** Bit `k` of a number. */
  function Bit(v: nat, k: nat): nat {
    v / Pow2(k) % 2
  }

  lemma BitStep(v: nat, k: nat)
    ensures Bit(v, 0) == v % 2 && Bit(v, k + 1) == Bit(v / 2, k)
  {
    DivDiv(v, 2, Pow2(k));
    assert Pow2(k + 1) == 2 * Pow2(k) && Pow2(0) == 1;
  }
}
