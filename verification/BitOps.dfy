/** Bitwise or on natural numbers. */
module BitOps {
  import opened Numbers

  /** Bitwise or of two numbers. */
  function BitOr(x: nat, y: nat): nat
    decreases x
  {
    if x == 0 then y
    else 2 * BitOr(x / 2, y / 2) + if x % 2 == 1 || y % 2 == 1 then 1 else 0
  }

  lemma HalfOfMultiple(y: nat, h: nat)
    requires h > 0 && y % (2 * h) == 0
    ensures y % 2 == 0 && y / 2 % h == 0
  {
    var q := y / (2 * h);
    assert y == q * (2 * h);
    assert y == 2 * (q * h);
    DivOfMultiple(q, h, 0);
  }

  /** A number below a power of two and a multiple of it share no bit. */
  lemma {:induction false} OrDisjoint(x: nat, y: nat, s: nat)
    requires x < Pow(2, s) && y % Pow(2, s) == 0
    ensures BitOr(x, y) == x + y
    decreases s
  {
    if x > 0 {
      assert s > 0 && Pow(2, s) == 2 * Pow(2, s - 1);
      PowPositive(2, s - 1);
      hide Pow;
      HalfOfMultiple(y, Pow(2, s - 1));
      OrDisjoint(x / 2, y / 2, s - 1);
    }
  }

  lemma {:induction false} OrCommutes(x: nat, y: nat)
    ensures BitOr(x, y) == BitOr(y, x)
    decreases x
  {
    if x > 0 && y > 0 {
      OrCommutes(x / 2, y / 2);
    } else if y > 0 {
      OrZero(y);
    } else {
      OrZero(x);
    }
  }

  lemma {:induction false} OrZero(x: nat)
    ensures BitOr(x, 0) == x
  {
    if x > 0 {
      OrZero(x / 2);
    }
  }

  lemma OrUnfold(x: nat, y: nat)
    ensures BitOr(x, y) == 2 * BitOr(x / 2, y / 2) + if x % 2 == 1 || y % 2 == 1 then 1 else 0
  {
  }

  /** Bits below and above a line do not mix. */
  lemma {:induction false} OrSplit(a: nat, b: nat, c: nat, d: nat, k: nat)
    requires a < Pow(2, k) && c < Pow(2, k)
    ensures BitOr(a + Pow(2, k) * b, c + Pow(2, k) * d) == BitOr(a, c) + Pow(2, k) * BitOr(b, d)
    decreases k
  {
    hide BitOr;
    if k == 0 {
      assert BitOr(0, 0) == 0 by { OrZero(0); }
    } else {
      var h := Pow(2, k - 1);
      OrSplit(a / 2, b, c / 2, d, k - 1);
      var x, y := a + 2 * h * b, c + 2 * h * d;
      HalfOfSum(a, h, b);
      HalfOfSum(c, h, d);
      OrUnfold(x, y);
      OrUnfold(a, c);
      MulAssoc(2, h, BitOr(b, d));
    }
  }

  lemma HalfOfSum(a: nat, h: nat, b: nat)
    ensures (a + 2 * h * b) / 2 == a / 2 + h * b && (a + 2 * h * b) % 2 == a % 2
  {
    assert 2 * h * b == 2 * (h * b);
  }
}
