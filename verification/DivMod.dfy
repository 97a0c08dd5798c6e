/** Facts about products, quotients and remainders of naturals that the index arithmetic
    of the other modules rests on. */
module DivMod {
  lemma MulMono(a: nat, b: nat, k: nat)
    requires a <= b
    ensures a * k <= b * k
  {
    assert b * k - a * k == (b - a) * k;
  }

  lemma MulStep(a: nat, b: nat, k: nat)
    ensures a < b ==> a * k + k <= b * k
  {
    if a < b {
      MulMono(a + 1, b, k);
      assert (a + 1) * k == a * k + k;
    }
  }

  /** A quotient and a remainder in range are the quotient and the remainder. */
  lemma Unique(q: nat, r: nat, d: nat)
    requires r < d
    ensures (q * d + r) / d == q && (q * d + r) % d == r
  {
    var n := q * d + r;
    var q', r' := n / d, n % d;
    assert n == q' * d + r';
    assert (q + 1) * d == q * d + d && (q' + 1) * d == q' * d + d;
    if q < q' { MulMono(q + 1, q', d); }
    if q' < q { MulMono(q' + 1, q, d); }
  }

  /** Rounding up covers: ceil(n / d) blocks of d hold n. */
  lemma CeilCovers(n: nat, d: nat)
    requires d > 0
    ensures (n + d - 1) / d * d >= n
  {
    var q, r := (n + d - 1) / d, (n + d - 1) % d;
    assert q * d + r == n + d - 1;
  }

  // Quotient and remainder by repeated subtraction.  They are `/` and `%` (QuotRem), but
  // facts stated with them stay linear.

  function Quot(n: nat, d: nat): nat
    requires d > 0
  {
    if n < d then 0 else Quot(n - d, d) + 1
  }

  function Rem(n: nat, d: nat): (r: nat)
    requires d > 0
    ensures r < d && r <= n
  {
    if n < d then n else Rem(n - d, d)
  }

  lemma {:induction false} QuotRem(n: nat, d: nat)
    requires d > 0
    ensures Quot(n, d) == n / d && Rem(n, d) == n % d && n == Quot(n, d) * d + Rem(n, d)
  {
    if n < d {
      Unique(0, n, d);
    } else {
      QuotRem(n - d, d);
      var q := Quot(n - d, d);
      assert (q + 1) * d == q * d + d;
      Unique(q + 1, Rem(n, d), d);
    }
  }

  /** The same without `/` and `%`. */
  lemma {:induction false} QuotIs(n: nat, d: nat)
    requires d > 0
    ensures n == Quot(n, d) * d + Rem(n, d)
  {
    if n >= d {
      QuotIs(n - d, d);
      var q := Quot(n - d, d);
      assert (q + 1) * d == q * d + d;
    }
  }

  lemma {:induction false} QuotRemOf(q: nat, r: nat, d: nat)
    requires r < d
    ensures Quot(q * d + r, d) == q && Rem(q * d + r, d) == r
  {
    if q > 0 {
      QuotRemOf(q - 1, r, d);
      assert q * d == (q - 1) * d + d;
      MulMono(1, q, d);
    }
  }

  lemma {:induction false} NextQuotRem(n: nat, d: nat)
    requires d > 0
    ensures Rem(n, d) + 1 == d ==> Rem(n + 1, d) == 0 && Quot(n + 1, d) == Quot(n, d) + 1
    ensures Rem(n, d) + 1 < d ==> Rem(n + 1, d) == Rem(n, d) + 1 && Quot(n + 1, d) == Quot(n, d)
  {
    if n >= d { NextQuotRem(n - d, d); }
  }
}
