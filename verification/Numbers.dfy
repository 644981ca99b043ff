/** The larger of two numbers; multiplication, division and powers of natural numbers. */
module Numbers {

  function Max(a: int, b: int): int { if a < b then b else a }

  lemma MulMono(a: int, b: int, d: nat)
    requires a <= b
    ensures a * d <= b * d
  {
    assert (b - a) * d >= 0;
  }

  /** Quotient and remainder are the only pair that adds up. */
  lemma DivModUnique(n: nat, d: nat, q: nat, r: nat)
    requires d > 0 && r < d && n == q * d + r
    ensures n / d == q && n % d == r
  {
    var x := n / d;
    assert x * d + n % d == n;
    if x < q {
      MulMono(x + 1, q, d);
    }
    if q < x {
      MulMono(q + 1, x, d);
    }
  }

  /** The quotient goes up exactly when the remainder wraps. */
  lemma DivStep(m: nat, d: nat)
    requires d > 0
    ensures (m + 1) / d == m / d + if m % d == d - 1 then 1 else 0
    ensures m == m / d * d + m % d
  {
    var q, r := m / d, m % d;
    if r == d - 1 {
      DivModUnique(m + 1, d, q + 1, 0);
    } else {
      DivModUnique(m + 1, d, q, r + 1);
    }
  }

  // ----- powers -----

  function Pow(b: nat, n: nat): nat { if n == 0 then 1 else b * Pow(b, n - 1) }

  lemma PowZero(b: nat)
    ensures Pow(b, 0) == 1
  {
  }

  lemma {:induction false} PowPositive(b: nat, n: nat)
    requires b > 0
    ensures Pow(b, n) > 0
  {
    if n > 0 {
      PowPositive(b, n - 1);
      MulMono(1, b, Pow(b, n - 1));
    }
  }

  lemma {:induction false} PowAdd(b: nat, m: nat, n: nat)
    ensures Pow(b, m + n) == Pow(b, m) * Pow(b, n)
  {
    if m > 0 {
      PowAdd(b, m - 1, n);
      MulAssoc(b, Pow(b, m - 1), Pow(b, n));
    }
  }

  lemma MulAssoc(a: int, b: int, c: int)
    ensures a * (b * c) == (a * b) * c
  {
  }

  lemma Distribute(a: int, b: int, c: int)
    ensures (a + b) * c == a * c + b * c
    ensures (a - b) * c == a * c - b * c
    ensures c * (a + b) == a * c + b * c
  {
  }

  lemma PowMonotone(b: nat, m: nat, n: nat)
    requires b > 0 && m <= n
    ensures Pow(b, m) <= Pow(b, n)
  {
    hide Pow;
    PowAdd(b, m, n - m);
    PowPositive(b, n - m);
    PowPositive(b, m);
    MulMono(1, Pow(b, n - m), Pow(b, m));
  }

  lemma {:induction false} PowPow(b: nat, m: nat, n: nat)
    ensures Pow(Pow(b, m), n) == Pow(b, m * n)
  {
    if n > 0 {
      PowPow(b, m, n - 1);
      PowAdd(b, m, m * (n - 1));
      assert m + m * (n - 1) == m * n;
    }
  }

  /** Division by a product is two divisions. */
  lemma DivDiv(n: nat, c: nat, d: nat)
    requires c > 0 && d > 0
    ensures c * d > 0 && n / (c * d) == n / c / d
  {
    var q, r := n / c, n % c;
    var q', r' := q / d, q % d;
    assert n == q * c + r && q == q' * d + r';
    MulMono(r' + 1, d, c);
    Distribute(q' * d, r', c);
    assert q' * d * c == q' * (c * d);
    Distribute(r', 1, c);
    MulMono(1, c, d);
    DivModUnique(n, c * d, q', r' * c + r);
  }

  lemma DivOfMultiple(q: nat, d: nat, r: nat)
    requires d > 0 && r < d
    ensures (q * d + r) / d == q && (q * d + r) % d == r
  {
    DivModUnique(q * d + r, d, q, r);
  }

  /** Multiples of the modulus do not matter. */
  lemma ModDrop(a: int, k: int, m: nat)
    requires m > 0
    ensures (a + k * m) % m == a % m
  {
    var q, r := a / m, a % m;
    assert a == q * m + r;
    Distribute(q, k, m);
    ModUnique(a + k * m, m, q + k, r);
  }

  lemma ModUnique(n: int, d: nat, q: int, r: nat)
    requires d > 0 && r < d && n == q * d + r
    ensures n % d == r && n / d == q
  {
    var x := n / d;
    assert x * d + n % d == n;
    if x < q {
      MulMono(x + 1, q, d);
      Distribute(x, 1, d);
    }
    if q < x {
      MulMono(q + 1, x, d);
      Distribute(q, 1, d);
    }
  }

  lemma PowersOfTwo()
    ensures Pow(2, 1) == 2 && Pow(2, 8) == 0x100 && Pow(2, 16) == 0x1_0000
    ensures Pow(2, 23) == 0x80_0000 && Pow(2, 24) == 0x100_0000 && Pow(2, 32) == 0x1_0000_0000
  {
    assert Pow(2, 1) == 2;
    assert Pow(2, 2) == 4;
    hide Pow;
    PowAdd(2, 2, 2);
    PowAdd(2, 4, 4);
    PowAdd(2, 8, 8);
    PowAdd(2, 16, 16);
    PowAdd(2, 16, 8);
    PowAdd(2, 23, 1);
  }
}
