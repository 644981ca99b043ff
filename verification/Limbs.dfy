/**
 Big numbers as 32-bit limbs, the lowest first: what the limbs are worth, and what carrying,
 comparing and shifting limb by limb does to that.
 */
module Limbs {
  import opened BitOps
  import opened Numbers

  const BASE: nat := 0x1_0000_0000

  type Limb = x: int | 0 <= x < BASE

  /** The weight of limb `n`. */
  function Weight(n: nat): nat { Pow(BASE, n) }

  function Value(s: seq<Limb>): nat {
    if s == [] then 0 else Value(s[..|s| - 1]) + s[|s| - 1] * Weight(|s| - 1)
  }

  lemma WeightPositive(n: nat)
    ensures Weight(n) > 0
  {
    PowPositive(BASE, n);
  }

  lemma WeightStep(n: nat)
    ensures Weight(n + 1) == BASE * Weight(n)
  {
  }

  lemma WeightIs(n: nat)
    ensures Weight(n) == Pow(2, 32 * n)
  {
    PowersOfTwo();
    PowPow(2, 32, n);
  }

  lemma ValueStep(s: seq<Limb>, n: nat)
    requires n < |s|
    ensures Value(s[..n + 1]) == Value(s[..n]) + s[n] * Weight(n)
  {
    assert s[..n + 1][..n] == s[..n];
  }

  lemma {:induction false} ValueBound(s: seq<Limb>)
    ensures Value(s) < Weight(|s|)
  {
    hide Weight;
    if s == [] {
      WeightPositive(0);
    } else {
      var n := |s| - 1;
      ValueBound(s[..n]);
      WeightStep(n);
      var top: int := s[n];
      MulMono(top + 1, BASE, Weight(n));
      Distribute(top, 1, Weight(n));
    }
  }

  lemma {:induction false} ValueUpdate(s: seq<Limb>, i: nat, v: Limb)
    requires i < |s|
    ensures Value(s[i := v]) == Value(s) + (v - s[i]) * Weight(i)
  {
    hide Weight;
    var n := |s| - 1;
    if i == n {
      assert s[i := v][..n] == s[..n];
      var x: int, y: int := v, s[i];
      Distribute(x, y, Weight(i));
    } else {
      ValueUpdate(s[..n], i, v);
      assert s[i := v][..n] == s[..n][i := v];
    }
  }

  lemma {:induction false} ValueConcat(s: seq<Limb>, t: seq<Limb>)
    ensures Value(s + t) == Value(s) + Weight(|s|) * Value(t)
  {
    hide Weight;
    if t == [] {
      assert s + t == s;
    } else {
      var n := |t| - 1;
      ValueConcat(s, t[..n]);
      assert (s + t)[..|s + t| - 1] == s + t[..n];
      WeightAdd(|s|, n);
      var top: int := t[n];
      Distribute(Value(t[..n]), top * Weight(n), Weight(|s|));
      MulAssoc(top, Weight(|s|), Weight(n));
      MulAssoc(top, Weight(n), Weight(|s|));
    }
  }

  lemma ValueCut(s: seq<Limb>, l: nat)
    requires l <= |s|
    ensures Value(s) == Value(s[..l]) + Weight(l) * Value(s[l..])
  {
    hide Weight, Value;
    assert s == s[..l] + s[l..] && |s[..l]| == l;
    ValueConcat(s[..l], s[l..]);
  }

  lemma WeightAdd(m: nat, n: nat)
    ensures Weight(m + n) == Weight(m) * Weight(n)
  {
    PowAdd(BASE, m, n);
  }

  lemma {:induction false} ValueZero(s: seq<Limb>)
    requires forall i | 0 <= i < |s| :: s[i] == 0
    ensures Value(s) == 0
  {
    if s != [] {
      ValueZero(s[..|s| - 1]);
    }
  }

  /** The highest limb that differs decides. */
  lemma ValueOrder(s: seq<Limb>, t: seq<Limb>, i: nat)
    requires |s| == |t| && i < |s| && s[i] < t[i] && s[i + 1..] == t[i + 1..]
    ensures Value(s) < Value(t)
  {
    hide Value, Weight;
    ValueSplit(s, i);
    ValueSplit(t, i);
    ValueBound(s[..i]);
    var x: int, y: int := s[i], t[i];
    MulMono(x + 1, y, Weight(i));
    Distribute(x, 1, Weight(i));
  }

  lemma ValueSplit(s: seq<Limb>, i: nat)
    requires i < |s|
    ensures Value(s) == Value(s[..i]) + s[i] * Weight(i) + Weight(i + 1) * Value(s[i + 1..])
  {
    hide Weight;
    assert s == s[..i + 1] + s[i + 1..];
    ValueConcat(s[..i + 1], s[i + 1..]);
    ValueStep(s, i);
  }

  /** Equal values have equal limbs. */
  lemma {:induction false} ValueInjective(s: seq<Limb>, t: seq<Limb>)
    requires |s| == |t| && Value(s) == Value(t)
    ensures s == t
  {
    hide Weight;
    if s != [] {
      var n := |s| - 1;
      ValueBound(s[..n]);
      ValueBound(t[..n]);
      DivOfMultiple(s[n], Weight(n), Value(s[..n]));
      DivOfMultiple(t[n], Weight(n), Value(t[..n]));
      ValueInjective(s[..n], t[..n]);
    }
  }

  // ----- bits of a limb -----

  predicate HasBit(x: nat, b: nat) {
    PowPositive(2, b);
    x / Pow(2, b) % 2 == 1
  }

  /** What stays in a 32-bit limb shifted left, and what is pushed out of it. */
  function Low(x: Limb, s: nat): (r: Limb)
    requires s < 32
  {
    x * Pow(2, s) % BASE
  }

  function High(x: Limb, s: nat): (r: nat)
    requires s < 32
  {
    PowPositive(2, 32 - s);
    if s == 0 then 0 else x / Pow(2, 32 - s)
  }

  lemma SplitBase(s: nat)
    requires s <= 32
    ensures Pow(2, s) * Pow(2, 32 - s) == BASE && Pow(2, s) > 0 && Pow(2, 32 - s) > 0
  {
    hide Pow;
    PowAdd(2, s, 32 - s);
    PowersOfTwo();
    PowPositive(2, s);
    PowPositive(2, 32 - s);
  }

  /** Nothing of a shifted limb is lost between the two parts, and they share no bit. */
  lemma LowHigh(x: Limb, s: nat)
    requires s < 32
    ensures x * Pow(2, s) == Low(x, s) + BASE * High(x, s)
    ensures High(x, s) < Pow(2, s)
    ensures Low(x, s) % Pow(2, s) == 0 && Low(x, s) + Pow(2, s) <= BASE
  {
    SplitBase(s);
    LowHighParts(x, Pow(2, s), Pow(2, 32 - s));
    if s == 0 {
      assert Pow(2, 0) == 1;
    }
  }

  lemma LowHighParts(x: Limb, f: nat, g: nat)
    requires f > 0 && g > 0 && f * g == BASE
    ensures x * f == x * f % BASE + BASE * (x / g) && x / g < f
    ensures x * f % BASE % f == 0 && x * f % BASE + f <= BASE
  {
    var h, l := x / g, x % g;
    var n: int := x;
    assert n == h * g + l;
    Distribute(h * g, l, f);
    assert h * g * f == h * BASE;
    MulMono(l + 1, g, f);
    Distribute(l, 1, f);
    ModUnique(n * f, BASE, h, l * f);
    ModUnique(l * f, f, l, 0);
    if h >= f {
      MulMono(f, h, g);
    }
  }

  // ----- shifting left -----

  /** Limb `j` of the number shifted left by `k` limbs and `s` bits. */
  function ShlLimb(a: seq<Limb>, k: nat, s: nat, j: nat): nat
    requires s < 32
  {
    (if 0 <= j - k < |a| then Low(a[j - k], s) else 0) + if 0 <= j - k - 1 < |a| then High(a[j - k - 1], s) else 0
  }

  lemma ShlLimbFits(a: seq<Limb>, k: nat, s: nat, j: nat)
    requires s < 32
    ensures ShlLimb(a, k, s, j) < BASE
  {
    hide Low, High;
    SplitBase(s);
    if 0 <= j - k < |a| {
      LowHigh(a[j - k], s);
    }
    if 0 <= j - k - 1 < |a| {
      LowHigh(a[j - k - 1], s);
      MulMono(1, Pow(2, 32 - s), Pow(2, s));
    }
  }

  function ShlDigit(a: seq<Limb>, k: nat, s: nat, j: nat): Limb
    requires s < 32
  {
    ShlLimbFits(a, k, s, j);
    ShlLimb(a, k, s, j)
  }

  function Shl(a: seq<Limb>, k: nat, s: nat): (r: seq<Limb>)
    requires s < 32
    ensures |r| == |a|
  {
    seq(|a|, j requires 0 <= j < |a| => ShlDigit(a, k, s, j))
  }

  /** The lowest `n` limbs of the shifted number, and what is pushed out of them. */
  lemma {:induction false} ShlPrefix(a: seq<Limb>, k: nat, s: nat, n: nat)
    requires s < 32 && n <= |a|
    ensures n <= k ==> Value(Shl(a, k, s)[..n]) == 0
    ensures n > k ==> Value(Shl(a, k, s)[..n]) + High(a[n - k - 1], s) * Weight(n)
                      == Value(a[..n - k]) * Pow(2, s) * Weight(k)
  {
    hide Weight, Low, High, Value, Pow;
    if n == 0 {
      assert Shl(a, k, s)[..0] == [];
      ValueZero([]);
    } else {
      var m := n - 1;
      ShlPrefix(a, k, s, m);
      ValueStep(Shl(a, k, s), m);
      assert Shl(a, k, s)[m] == ShlLimb(a, k, s, m);
      if m >= k {
        var i := m - k;
        LowHigh(a[i], s);
        ValueStep(a, i);
        WeightAdd(i, k);
        WeightStep(m);
        var below := if i == 0 then 0 else High(a[i - 1], s);
        if i == 0 {
          assert a[..0] == [];
          ValueZero(a[..0]);
        }
        ShlStep(Value(Shl(a, k, s)[..m]), below, Low(a[i], s), High(a[i], s), a[i],
                Value(a[..i]), Weight(i), Weight(k), Weight(m), Pow(2, s));
      }
    }
  }

  lemma ShlStep(v: nat, below: nat, lo: nat, hi: nat, x: nat, va: nat, wi: nat, wk: nat, wm: nat, f: nat)
    requires v + below * wm == va * f * wk && x * f == lo + BASE * hi && wm == wi * wk
    ensures v + (lo + below) * wm + hi * (BASE * wm) == (va + x * wi) * f * wk
  {
    Distribute(lo, below, wm);
    Distribute(va, x * wi, f);
    Distribute(va * f, x * wi * f, wk);
    assert x * wi * f * wk == x * f * wm;
    Distribute(lo, BASE * hi, wm);
    assert BASE * hi * wm == hi * (BASE * wm);
  }

  lemma ShlNear(a: seq<Limb>, k: nat, s: nat)
    requires k < |a| && s < 32
    ensures Weight(|a|) > 0
    ensures Value(a) * Pow(2, s) * Weight(k) % Weight(|a|) == Value(Shl(a, k, s))
  {
    hide Weight, High, Value, Pow, Shl;
    var n := |a|;
    WeightPositive(n);
    ShlPrefix(a, k, s, n);
    ValueBound(Shl(a, k, s));
    assert Shl(a, k, s)[..n] == Shl(a, k, s);
    ValueCut(a, n - k);
    WeightAdd(n - k, k);
    ShlWhole(Value(Shl(a, k, s)), High(a[n - k - 1], s), Value(a[..n - k]), Value(a[n - k..]),
             Weight(n - k), Weight(k), Weight(n), Pow(2, s));
  }

  lemma ShlFar(a: seq<Limb>, k: nat, s: nat)
    requires k >= |a| && s < 32
    ensures Weight(|a|) > 0
    ensures Value(a) * Pow(2, s) * Weight(k) % Weight(|a|) == Value(Shl(a, k, s))
  {
    hide Weight, High, Value, Pow, Shl;
    var n := |a|;
    WeightPositive(n);
    ShlPrefix(a, k, s, n);
    assert Shl(a, k, s)[..n] == Shl(a, k, s);
    WeightAdd(n, k - n);
    ShiftedOut(Value(a) * Pow(2, s), Weight(n), Weight(k - n));
  }

  /** Shifting left multiplies, modulo the width. */
  lemma ShlValue(a: seq<Limb>, k: nat, s: nat)
    requires s < 32
    ensures Weight(|a|) > 0
    ensures Value(Shl(a, k, s)) == Value(a) * Pow(2, 32 * k + s) % Weight(|a|)
  {
    hide Weight, Value, Pow, Shl;
    PowAdd(2, 32 * k, s);
    WeightIs(k);
    Regroup(Value(a), Weight(k), Pow(2, s));
    if k >= |a| {
      ShlFar(a, k, s);
    } else {
      ShlNear(a, k, s);
    }
  }

  lemma Regroup(v: nat, w: nat, f: nat)
    ensures v * (w * f) == v * f * w
  {
  }

  lemma ShiftedOut(v: nat, w: nat, u: nat)
    requires w > 0
    ensures v * (w * u) % w == 0
  {
    assert v * (w * u) == v * u * w;
    ModUnique(v * (w * u), w, v * u, 0);
  }

  lemma ShlWhole(v: nat, hi: nat, low: nat, high: nat, wl: nat, wk: nat, wn: nat, f: nat)
    requires v + hi * wn == low * f * wk && wn == wl * wk && v < wn
    ensures (low + wl * high) * f * wk % wn == v
  {
    Distribute(low, wl * high, f);
    Distribute(low * f, wl * high * f, wk);
    assert wl * high * f * wk == (high * f) * wn;
    Distribute(hi, high * f, wn);
    ModUnique((low + wl * high) * f * wk, wn, hi + high * f, v);
  }

  // ----- shifting right -----

  function Right(x: Limb, s: nat): nat {
    PowPositive(2, s);
    x / Pow(2, s)
  }

  /** Limb `j` of the number shifted right by `k` limbs and `s` bits. */
  function ShrLimb(a: seq<Limb>, k: nat, s: nat, j: nat): nat
    requires s < 32
  {
    (if j + k < |a| then Right(a[j + k], s) else 0) +
    if s != 0 && j + k + 1 < |a| then Low(a[j + k + 1], 32 - s) else 0
  }

  /** What the lowest bits of a limb are worth when they move to the top of the one below. */
  lemma LowOfRight(x: Limb, s: nat)
    requires 0 < s < 32
    ensures Pow(2, s) > 0 && Pow(2, 32 - s) > 0
    ensures Low(x, 32 - s) == x % Pow(2, s) * Pow(2, 32 - s)
    ensures Low(x, 32 - s) % Pow(2, 32 - s) == 0 && x / Pow(2, s) < Pow(2, 32 - s)
    ensures Low(x, 32 - s) + Pow(2, 32 - s) <= BASE
  {
    hide Pow;
    SplitBase(s);
    var f, g := Pow(2, s), Pow(2, 32 - s);
    LowHigh(x, 32 - s);
    LowHighParts(x, g, f);
    var n: int := x;
    assert n == n / f * f + n % f;
    Distribute(n / f * f, n % f, g);
    assert n / f * f * g == n / f * BASE;
  }

  lemma ShrLimbFits(a: seq<Limb>, k: nat, s: nat, j: nat)
    requires s < 32
    ensures ShrLimb(a, k, s, j) < BASE
  {
    hide Low;
    SplitBase(s);
    if s == 0 {
      assert Pow(2, 0) == 1;
    } else {
      hide Pow;
      if j + k < |a| {
        LowOfRight(a[j + k], s);
      }
      if j + k + 1 < |a| {
        LowOfRight(a[j + k + 1], s);
      }
      MulMono(1, Pow(2, s), Pow(2, 32 - s));
    }
  }

  function ShrDigit(a: seq<Limb>, k: nat, s: nat, j: nat): Limb
    requires s < 32
  {
    ShrLimbFits(a, k, s, j);
    ShrLimb(a, k, s, j)
  }

  function Shr(a: seq<Limb>, k: nat, s: nat): (r: seq<Limb>)
    requires s < 32
    ensures |r| == |a|
  {
    seq(|a|, j requires 0 <= j < |a| => ShrDigit(a, k, s, j))
  }

  /** The bits of limb `j` below bit `s`. */
  function Rest(a: seq<Limb>, s: nat, j: nat): nat {
    PowPositive(2, s);
    if j < |a| then a[j] % Pow(2, s) else 0
  }

  /** One limb of the result, shifted back, is a limb of the source less its rest, plus the next rest. */
  lemma ShrLimbBack(a: seq<Limb>, k: nat, s: nat, j: nat)
    requires s < 32 && j + k < |a|
    ensures ShrLimb(a, k, s, j) * Pow(2, s) == a[j + k] - Rest(a, s, j + k) + BASE * Rest(a, s, j + k + 1)
  {
    SplitBase(s);
    assert s == 0 ==> Pow(2, s) == 1;
    hide Pow, Low;
    var f, g := Pow(2, s), Pow(2, 32 - s);
    if s != 0 && j + k + 1 < |a| {
      LowOfRight(a[j + k + 1], s);
      BackParts(a[j + k], a[j + k + 1], f, g);
    } else {
      BackParts(a[j + k], 0, f, g);
    }
  }

  lemma BackParts(x: nat, y: nat, f: nat, g: nat)
    requires f > 0 && f * g == BASE
    ensures (x / f + y % f * g) * f == x - x % f + BASE * (y % f)
    ensures 0 % f == 0 && (f == 1 ==> x % f == y % f == 0)
  {
    assert x == x / f * f + x % f;
    Distribute(x / f, y % f * g, f);
    assert y % f * g * f == y % f * BASE;
  }

  lemma {:induction false} ShrPrefix(a: seq<Limb>, k: nat, s: nat, n: nat)
    requires s < 32 && n + k <= |a|
    ensures Value(Shr(a, k, s)[..n]) * Pow(2, s) + Rest(a, s, k)
            == Value(a[k..k + n]) + Rest(a, s, k + n) * Weight(n)
  {
    hide Weight, Value, Pow, Rest, ShrLimb;
    if n == 0 {
      assert Shr(a, k, s)[..0] == [] && a[k..k] == [];
      ValueZero([]);
      assert Weight(0) == 1 by { WeightZero(); }
    } else {
      var m := n - 1;
      ShrPrefix(a, k, s, m);
      ValueStep(Shr(a, k, s), m);
      ValueStep(a[k..], m);
      assert a[k..][..m] == a[k..k + m] && a[k..][..n] == a[k..k + n];
      assert Shr(a, k, s)[m] == ShrLimb(a, k, s, m);
      ShrLimbBack(a, k, s, m);
      WeightStep(m);
      ShrStep(Value(Shr(a, k, s)[..m]), ShrLimb(a, k, s, m), Pow(2, s), Value(a[k..k + m]), a[k + m],
              Rest(a, s, k), Rest(a, s, k + m), Rest(a, s, k + n), Weight(m));
    }
  }

  lemma WeightZero()
    ensures Weight(0) == 1
  {
  }

  lemma ShrStep(v: nat, d: nat, f: nat, va: nat, x: nat, r0: nat, rm: nat, rn: nat, w: nat)
    requires v * f + r0 == va + rm * w && d * f == x - rm + BASE * rn
    ensures (v + d * w) * f + r0 == va + x * w + rn * (BASE * w)
  {
    Distribute(v, d * w, f);
    assert d * w * f == d * f * w;
    Distribute(x - rm, BASE * rn, w);
    Distribute(x, rm, w);
    assert BASE * rn * w == rn * (BASE * w);
  }

  /** Shifting right divides. */
  lemma ShrValue(a: seq<Limb>, k: nat, s: nat)
    requires s < 32
    ensures Pow(2, 32 * k + s) > 0
    ensures Value(Shr(a, k, s)) == Value(a) / Pow(2, 32 * k + s)
  {
    hide Weight, Value, Pow, Shr;
    PowPositive(2, 32 * k + s);
    PowPositive(2, s);
    PowAdd(2, 32 * k, s);
    WeightIs(k);
    WeightPositive(k);
    DivDiv(Value(a), Weight(k), Pow(2, s));
    if k >= |a| {
      ShrFar(a, k, s);
    } else {
      ShrNear(a, k, s);
    }
  }

  lemma ShrFar(a: seq<Limb>, k: nat, s: nat)
    requires k >= |a| && s < 32
    ensures Weight(k) > 0 && Pow(2, s) > 0
    ensures Value(Shr(a, k, s)) == Value(a) / Weight(k) / Pow(2, s)
  {
    hide Weight, Value, Pow;
    PowPositive(2, s);
    WeightPositive(k);
    ValueBound(a);
    WeightMonotone(|a|, k);
    assert Value(a) / Weight(k) == 0 by { DivModUnique(Value(a), Weight(k), 0, Value(a)); }
    ValueZero(Shr(a, k, s));
  }

  lemma WeightMonotone(m: nat, n: nat)
    requires m <= n
    ensures Weight(m) <= Weight(n)
  {
    PowMonotone(BASE, m, n);
  }

  lemma ShrNear(a: seq<Limb>, k: nat, s: nat)
    requires k < |a| && s < 32
    ensures Weight(k) > 0 && Pow(2, s) > 0
    ensures Value(Shr(a, k, s)) == Value(a) / Weight(k) / Pow(2, s)
  {
    hide Weight, Value, Pow, ShrLimb;
    PowPositive(2, s);
    WeightPositive(k);
    var n := |a| - k;
    ShrPrefix(a, k, s, n);
    ShrTop(a, k, s);
    assert a[k..k + n] == a[k..];
    ValueCut(a, k);
    ValueBound(a[..k]);
    DivModUnique(Value(a), Weight(k), Value(a[k..]), Value(a[..k]));
    DivModUnique(Value(a[k..]), Pow(2, s), Value(Shr(a, k, s)), Rest(a, s, k));
  }

  /** The limbs that nothing is shifted into are zero. */
  lemma ShrTop(a: seq<Limb>, k: nat, s: nat)
    requires k < |a| && s < 32
    ensures Value(Shr(a, k, s)[..|a| - k]) == Value(Shr(a, k, s))
  {
    hide Value, Weight;
    var n := |a| - k;
    assert Shr(a, k, s) == Shr(a, k, s)[..n] + Shr(a, k, s)[n..];
    ValueConcat(Shr(a, k, s)[..n], Shr(a, k, s)[n..]);
    ValueZero(Shr(a, k, s)[n..]);
  }

  // ----- shifting in place -----

  /** Limb `j` once the first `i` limbs of the source have been shifted left into place. */
  function ShlSoFar(a: seq<Limb>, k: nat, s: nat, i: nat, j: nat): nat
    requires s < 32 && i <= |a|
  {
    if j < i + k then ShlLimb(a, k, s, j)
    else if j == i + k && i > 0 then High(a[i - 1], s)
    else 0
  }

  lemma ShlAdvance(a: seq<Limb>, k: nat, s: nat, i: nat)
    requires s < 32 && i < |a|
    ensures s != 0 ==>
              && Pow(2, 32 - s) > 0
              && BitOr(ShlSoFar(a, k, s, i, i + k + 1), a[i] / Pow(2, 32 - s)) == High(a[i], s)
    ensures BitOr(ShlSoFar(a, k, s, i, i + k), Low(a[i], s)) == ShlLimb(a, k, s, i + k)
    ensures High(a[i], s) < BASE && ShlLimb(a, k, s, i + k) < BASE
    ensures ShlSoFar(a, k, s, i, i + k + 1) == 0 && (s == 0 ==> High(a[i], s) == 0)
    ensures forall j: nat ::
              ShlSoFar(a, k, s, i + 1, j) == (if j == i + k then ShlLimb(a, k, s, j)
                                              else if j == i + k + 1 then High(a[i], s)
                                              else ShlSoFar(a, k, s, i, j))
  {
    SplitBase(s);
    assert s == 0 ==> High(a[i], s) == 0;
    assert s != 0 ==> High(a[i], s) == a[i] / Pow(2, 32 - s);
    LowHigh(a[i], s);
    hide Low, High, Pow;
    MulMono(1, Pow(2, 32 - s), Pow(2, s));
    ShlLimbFits(a, k, s, i + k);
    if i > 0 {
      LowHigh(a[i - 1], s);
      OrDisjoint(High(a[i - 1], s), Low(a[i], s), s);
    }
  }

  lemma ShlDone(a: seq<Limb>, k: nat, s: nat, t: seq<Limb>)
    requires s < 32 && |t| == |a| && forall j: nat | j < |a| :: t[j] == ShlSoFar(a, k, s, |a|, j)
    ensures t == Shl(a, k, s)
  {
    hide Low, High;
    forall j: nat | j < |a| ensures t[j] == Shl(a, k, s)[j] {
      assert t[j] == ShlSoFar(a, k, s, |a|, j);
    }
  }

  /** Limb `j` once the first `i` limbs of the source have been shifted right into place. */
  function ShrSoFar(a: seq<Limb>, k: nat, s: nat, i: nat, j: nat): nat
    requires s < 32 && i <= |a|
  {
    if j + k + 1 < i then ShrLimb(a, k, s, j)
    else if j + k + 1 == i then Right(a[i - 1], s)
    else 0
  }

  lemma ShrCarry(a: seq<Limb>, k: nat, s: nat, i: nat)
    requires s < 32 && k < i < |a|
    ensures var x := ShrSoFar(a, k, s, i, i - k - 1);
            (if s != 0 then BitOr(x, Low(a[i], 32 - s)) else x) == ShrLimb(a, k, s, i - k - 1) < BASE
  {
    SplitBase(s);
    hide Low, Pow, BitOr;
    ShrLimbFits(a, k, s, i - k - 1);
    if s != 0 {
      LowOfRight(a[i - 1], s);
      LowOfRight(a[i], s);
      OrDisjoint(Right(a[i - 1], s), Low(a[i], 32 - s), 32 - s);
    }
  }

  lemma ShrAdvance(a: seq<Limb>, k: nat, s: nat, i: nat)
    requires s < 32 && i < |a|
    ensures Right(a[i], s) < BASE
    ensures i >= k ==> BitOr(ShrSoFar(a, k, s, i, i - k), Right(a[i], s)) == Right(a[i], s)
    ensures forall j: nat ::
              ShrSoFar(a, k, s, i + 1, j) == (if j + k + 1 == i then ShrLimb(a, k, s, j)
                                              else if j + k == i then Right(a[i], s)
                                              else ShrSoFar(a, k, s, i, j))
  {
    RightFits(a[i], s);
    hide Low, Right, ShrLimb;
  }

  lemma RightFits(x: Limb, s: nat)
    ensures Right(x, s) < BASE
  {
    PowPositive(2, s);
    DivShrinks(x, Pow(2, s));
  }

  lemma DivShrinks(x: nat, d: nat)
    requires d > 0
    ensures x / d <= x
  {
    MulMono(1, d, x / d);
  }

  lemma ShrDone(a: seq<Limb>, k: nat, s: nat, t: seq<Limb>)
    requires s < 32 && |t| == |a| && forall j: nat | j < |a| :: t[j] == ShrSoFar(a, k, s, |a|, j)
    ensures t == Shr(a, k, s)
  {
    hide Low, Pow;
    forall j: nat | j < |a| ensures t[j] == Shr(a, k, s)[j] {
      assert t[j] == ShrSoFar(a, k, s, |a|, j);
    }
  }
}
