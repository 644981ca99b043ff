/**
 Errors far apart in a CashAddr sequence. Two wrong symbols go unnoticed exactly if they are wrong
 by the same amount and a multiple of 1025 symbols apart: that is the order of x modulo the
 generator, up to a factor from GF(32).
 */
module CashAddrErrors {
  import opened Numbers
  import opened Digits
  import opened CashAddr

  // ----- multiplying by an element of GF(32) -----

  function Double(c: bv40): bv40 { (c & 0x7b_def7_bdef) << 1 }
  function Tops(c: bv40): bv40 { (c >> 4) & 0x08_4210_8421 }
  function Shl3(t: bv40): bv40 { t << 3 }
  function Nine(t: bv40): bv40 { Xor(t, Shl3(t)) }

  /** Every symbol times a, the generator of GF(32), modulo a^5 + a^3 + 1. */
  function Alpha(c: bv40): bv40 { Xor(Double(c), Nine(Tops(c))) }

  lemma DoubleLinear(a: bv40, b: bv40)
    ensures Double(Xor(a, b)) == Xor(Double(a), Double(b))
  {
  }

  lemma TopsLinear(a: bv40, b: bv40)
    ensures Tops(Xor(a, b)) == Xor(Tops(a), Tops(b))
  {
  }

  lemma Shl3Linear(a: bv40, b: bv40)
    ensures Shl3(Xor(a, b)) == Xor(Shl3(a), Shl3(b))
  {
  }

  lemma NineLinear(a: bv40, b: bv40)
    ensures Nine(Xor(a, b)) == Xor(Nine(a), Nine(b))
  {
    hide Xor, Shl3;
    Shl3Linear(a, b);
    Pairs(a, b, Shl3(a), Shl3(b));
  }

  lemma AlphaLinear(a: bv40, b: bv40)
    ensures Alpha(Xor(a, b)) == Xor(Alpha(a), Alpha(b))
  {
    hide Xor, Double, Tops, Nine;
    DoubleLinear(a, b);
    TopsLinear(a, b);
    NineLinear(Tops(a), Tops(b));
    Pairs(Double(a), Double(b), Nine(Tops(a)), Nine(Tops(b)));
  }

  lemma AlphaSmall(c: bv40)
    ensures Alpha(c) < 32 <==> c < 32
    ensures Alpha(c) == 0 <==> c == 0
  {
  }

  predicate Commutes(c: bv40) { Alpha(Times(c)) == Times(Alpha(c)) }

  lemma CommutesSum(a: bv40, b: bv40)
    requires Commutes(a) && Commutes(b)
    ensures Commutes(Xor(a, b))
  {
    hide Xor, Times, Alpha;
    TimesLinear(a, b);
    AlphaLinear(a, b);
    AlphaLinear(Times(a), Times(b));
    TimesLinear(Alpha(a), Alpha(b));
  }

  function Low(c: bv40): bv40 { c & 0x07_ffff_ffff }

  const B1: bv40 := 0x08_0000_0000
  const B2: bv40 := 0x10_0000_0000
  const B4: bv40 := 0x20_0000_0000
  const B8: bv40 := 0x40_0000_0000
  const B16: bv40 := 0x80_0000_0000

  function LeadPart(c: bv40): bv40 {
    Xor(Xor(Xor(Pick(c, 1, B1), Pick(c, 2, B2)), Xor(Pick(c, 4, B4), Pick(c, 8, B8))), Pick(c, 16, B16))
  }

  function Mask(c: bv40, m: bv40): bv40 { c & m }

  lemma MaskSum(c: bv40, m: bv40, n: bv40)
    requires m & n == 0
    ensures Xor(Mask(c, m), Mask(c, n)) == Mask(c, m | n)
  {
  }

  lemma PickIsMask(c: bv40)
    ensures Pick(c, 1, B1) == Mask(c, B1) && Pick(c, 2, B2) == Mask(c, B2) && Pick(c, 4, B4) == Mask(c, B4)
    ensures Pick(c, 8, B8) == Mask(c, B8) && Pick(c, 16, B16) == Mask(c, B16)
  {
  }

  lemma LowIsMask(c: bv40)
    ensures Low(c) == Mask(c, 0x07_ffff_ffff) < TOP && Mask(c, 0xff_ffff_ffff) == c
  {
  }

  lemma LeadAndLow(c: bv40)
    ensures c == Xor(Low(c), LeadPart(c)) && Low(c) < TOP
  {
    hide Xor, Mask, Pick, Low;
    PickIsMask(c);
    MaskSum(c, B1, B2);
    MaskSum(c, B4, B8);
    MaskSum(c, 0x18_0000_0000, 0x60_0000_0000);
    MaskSum(c, 0x78_0000_0000, B16);
    LowIsMask(c);
    MaskSum(c, 0x07_ffff_ffff, 0xf8_0000_0000);
  }

  lemma ShiftSum(a: bv40, b: bv40)
    ensures Shl5(Xor(a, b)) == Xor(Shl5(a), Shl5(b))
  {
  }

  lemma DoubleShift(c: bv40)
    requires c < TOP
    ensures Double(Shl5(c)) == Shl5(Double(c)) && Tops(Shl5(c)) == Shl5(Tops(c))
  {
  }

  lemma ShiftsRaw(t: bv40)
    ensures (t << 5) << 3 == t << 8 && (t << 3) << 5 == t << 8
  {
  }

  lemma FiveThenThree(t: bv40)
    ensures Shl5(t) << 3 == t << 8
  {
    ShiftsRaw(t);
  }

  lemma ThreeThenFive(t: bv40)
    ensures Shl3(t) << 5 == t << 8
  {
    ShiftsRaw(t);
  }

  function Shl8(t: bv40): bv40 { t << 8 }

  lemma Outer3(t: bv40)
    ensures Shl3(Shl5(t)) == Shl8(t)
  {
    FiveThenThree(t);
    hide Shl5;
  }

  lemma Outer5(t: bv40)
    ensures Shl5(Shl3(t)) == Shl8(t)
  {
    ThreeThenFive(t);
    hide Shl3;
  }

  lemma Shl3Shift(t: bv40)
    ensures Shl3(Shl5(t)) == Shl5(Shl3(t))
  {
    hide Shl3, Shl5, Shl8;
    Outer3(t);
    Outer5(t);
  }

  lemma AlphaBelow(c: bv40)
    requires c < TOP
    ensures Alpha(c) < TOP
  {
  }

  lemma AlphaShift(c: bv40)
    requires c < TOP
    ensures Alpha(c) < TOP && Alpha(Shl5(c)) == Shl5(Alpha(c))
  {
    AlphaBelow(c);
    hide Xor, Shl5, Shl3, Double, Tops;
    DoubleShift(c);
    var t := Tops(c);
    Shl3Shift(t);
    ShiftSum(t, Shl3(t));
    ShiftSum(Double(c), Nine(t));
  }

  lemma LowCommutes(c: bv40)
    requires c < TOP
    ensures Commutes(c)
  {
    hide Times, Alpha, Shl5;
    AlphaShift(c);
    TimesSmall(c);
    TimesSmall(Alpha(c));
  }

  lemma LeadCommutes()
    ensures Commutes(0) && Commutes(B1) && Commutes(B2) && Commutes(B4) && Commutes(B8) && Commutes(B16)
  {
  }

  /** Multiplying by an element of GF(32) and by x may be swapped. */
  lemma AlphaTimes(c: bv40)
    ensures Commutes(c)
  {
    LeadAndLow(c);
    LeadCommutes();
    hide Xor, Times, Alpha, Lead, Low, Commutes;
    var p1, p2, p4, p8, p16 := Pick(c, 1, B1), Pick(c, 2, B2), Pick(c, 4, B4), Pick(c, 8, B8), Pick(c, 16, B16);
    CommutesSum(p1, p2);
    CommutesSum(p4, p8);
    CommutesSum(Xor(p1, p2), Xor(p4, p8));
    CommutesSum(Xor(Xor(p1, p2), Xor(p4, p8)), p16);
    LowCommutes(Low(c));
    CommutesSum(Low(c), LeadPart(c));
  }

  // ----- powers of x -----

  /** c(x) times x to the power `n`, modulo g(x). */
  function Iter(n: nat, c: bv40): bv40 { if n == 0 then c else Times(Iter(n - 1, c)) }

  lemma {:induction false} IterAdd(m: nat, n: nat, c: bv40)
    ensures Iter(m + n, c) == Iter(m, Iter(n, c))
  {
    hide Times;
    if m > 0 {
      IterAdd(m - 1, n, c);
    }
  }

  lemma {:induction false} IterLinear(n: nat, a: bv40, b: bv40)
    ensures Iter(n, Xor(a, b)) == Xor(Iter(n, a), Iter(n, b))
  {
    hide Times, Xor;
    if n > 0 {
      IterLinear(n - 1, a, b);
      TimesLinear(Iter(n - 1, a), Iter(n - 1, b));
    }
  }

  lemma {:induction false} IterAlpha(n: nat, c: bv40)
    ensures Iter(n, Alpha(c)) == Alpha(Iter(n, c))
  {
    hide Times, Alpha;
    if n > 0 {
      IterAlpha(n - 1, c);
      AlphaTimes(Iter(n - 1, c));
    }
  }

  lemma {:induction false} IterNonzero(n: nat, c: bv40)
    requires c != 0
    ensures Iter(n, c) != 0
  {
    hide Times;
    if n > 0 {
      IterNonzero(n - 1, c);
      if Iter(n, c) == 0 {
        TimesInjective(Iter(n - 1, c));
      }
    }
  }

  /** The powers of a. */
  function Scale(i: nat, c: bv40): bv40 { if i == 0 then c else Alpha(Scale(i - 1, c)) }

  lemma {:induction false} IterScale(n: nat, i: nat, c: bv40)
    ensures Iter(n, Scale(i, c)) == Scale(i, Iter(n, c))
  {
    hide Alpha, Iter;
    if i > 0 {
      IterScale(n, i - 1, c);
      IterAlpha(n, Scale(i - 1, c));
    }
  }

  lemma {:induction false} ScaleSmall(i: nat, c: bv40)
    ensures Scale(i, c) < 32 <==> c < 32
  {
    hide Alpha;
    if i > 0 {
      ScaleSmall(i - 1, c);
      AlphaSmall(Scale(i - 1, c));
    }
  }

  ghost predicate Reached(e: bv40) { exists i: nat :: Scale(i, 1) == e }

  lemma Next(e: bv40)
    requires Reached(e)
    ensures Reached(Alpha(e))
  {
    hide Alpha;
    var i: nat :| Scale(i, 1) == e;
    assert Scale(i + 1, 1) == Alpha(e);
  }

  lemma AlphaTable()
    ensures Alpha(1) == 2 && Alpha(2) == 4 && Alpha(4) == 8 && Alpha(8) == 16 && Alpha(16) == 9
    ensures Alpha(9) == 18 && Alpha(18) == 13 && Alpha(13) == 26 && Alpha(26) == 29 && Alpha(29) == 19
    ensures Alpha(19) == 15 && Alpha(15) == 30 && Alpha(30) == 21 && Alpha(21) == 3 && Alpha(3) == 6
    ensures Alpha(6) == 12 && Alpha(12) == 24 && Alpha(24) == 25 && Alpha(25) == 27 && Alpha(27) == 31
    ensures Alpha(31) == 23 && Alpha(23) == 7 && Alpha(7) == 14 && Alpha(14) == 28 && Alpha(28) == 17
    ensures Alpha(17) == 11 && Alpha(11) == 22 && Alpha(22) == 5 && Alpha(5) == 10 && Alpha(10) == 20
  {
  }

  /** The powers of a are all the constants but zero. */
  lemma AllReached(e: bv40)
    requires 0 < e < 32
    ensures Reached(e)
  {
    AlphaTable();
    hide Alpha, Reached;
    assert Reached(1) by { FirstReached(); }
    Next(1); Next(2); Next(4); Next(8); Next(16); Next(9); Next(18); Next(13); Next(26); Next(29);
    Next(19); Next(15); Next(30); Next(21); Next(3); Next(6); Next(12); Next(24); Next(25); Next(27);
    Next(31); Next(23); Next(7); Next(14); Next(28); Next(17); Next(11); Next(22); Next(5); Next(10);
  }

  lemma FirstReached()
    ensures Reached(1)
  {
    assert Scale(0, 1) == 1;
  }

  // ----- which powers of x are constants -----

  predicate IsSymbol(c: bv40) { c < 32 }

  predicate IsConstant(n: nat) { IsSymbol(Iter(n, 1)) }

  /** A constant times a power of x is a constant exactly if the power is. */
  lemma ConstantTimes(n: nat, e: bv40)
    requires e != 0 && IsSymbol(e)
    ensures IsSymbol(Iter(n, e)) <==> IsConstant(n)
  {
    assert e > 0;
    AllReached(e);
    hide Scale, Iter;
    var i: nat :| Scale(i, 1) == e;
    IterScale(n, i, 1);
    ScaleSmall(i, Iter(n, 1));
  }

  lemma ConstantAdd(m: nat, n: nat)
    requires IsConstant(n)
    ensures IsConstant(m + n) <==> IsConstant(m)
  {
    hide Iter, IsSymbol;
    IterAdd(m, n, 1);
    IterNonzero(n, 1);
    ConstantTimes(m, Iter(n, 1));
  }

  // ----- computing powers of x -----

  function Times5(c: bv40): bv40 { Times(Times(Times(Times(Times(c))))) }
  function Times25(c: bv40): bv40 { Times5(Times5(Times5(Times5(Times5(c))))) }
  function Times100(c: bv40): bv40 { Times25(Times25(Times25(Times25(c)))) }
  function Times105(c: bv40): bv40 { Times5(Times100(c)) }

  lemma Times5Is(c: bv40)
    ensures Times5(c) == Iter(5, c)
  {
    hide Times;
    assert Iter(1, c) == Times(Iter(0, c));
    assert Iter(2, c) == Times(Iter(1, c));
    assert Iter(3, c) == Times(Iter(2, c));
    assert Iter(4, c) == Times(Iter(3, c));
  }

  lemma Times25Is(c: bv40)
    ensures Times25(c) == Iter(25, c)
  {
    hide Times5, Iter;
    Times5Is(c);
    Times5Is(Iter(5, c));
    IterAdd(5, 5, c);
    Times5Is(Iter(10, c));
    IterAdd(5, 10, c);
    Times5Is(Iter(15, c));
    IterAdd(5, 15, c);
    Times5Is(Iter(20, c));
    IterAdd(5, 20, c);
  }

  lemma Times100Is(c: bv40)
    ensures Times100(c) == Iter(100, c)
  {
    hide Times25, Iter;
    Times25Is(c);
    Times25Is(Iter(25, c));
    IterAdd(25, 25, c);
    Times25Is(Iter(50, c));
    IterAdd(25, 50, c);
    Times25Is(Iter(75, c));
    IterAdd(25, 75, c);
  }

  lemma Times105Is(c: bv40)
    ensures Times105(c) == Iter(105, c)
  {
    hide Times5, Times100, Iter;
    Times100Is(c);
    Times5Is(Iter(100, c));
    IterAdd(5, 100, c);
  }

  lemma Power25()
    ensures Times25(1) == 0x6f_21fd_01d0
  {
  }

  lemma Power105()
    ensures Times105(0x1) == 0x9f_a32e_8a61
  {
  }

  lemma Power205()
    ensures Times100(0x9f_a32e_8a61) == 0x1e_fbd0_56fe
  {
  }

  lemma Power310()
    ensures Times105(0x1e_fbd0_56fe) == 0x82_2d89_838d
  {
  }

  lemma Power410()
    ensures Times100(0x82_2d89_838d) == 0x37_bea2_ebba
  {
  }

  lemma Power515()
    ensures Times105(0x37_bea2_ebba) == 0xbd_aa00_dd44
  {
  }

  lemma Power615()
    ensures Times100(0xbd_aa00_dd44) == 0x3a_7357_6b23
  {
  }

  lemma Power720()
    ensures Times105(0x3a_7357_6b23) == 0x5e_6708_4846
  {
  }

  lemma Power820()
    ensures Times100(0x5e_6708_4846) == 0x31_d1b2_2e37
  {
  }

  lemma Power925()
    ensures Times105(0x31_d1b2_2e37) == 0x8_3b66_369e
  {
  }

  lemma Power1025()
    ensures Times100(0x8_3b66_369e) == 0x1
  {
  }

  /** The powers 25 and 205 of x are no constants, but the power 1025 is one. */
  lemma PowersOfX()
    ensures !IsConstant(25) && !IsConstant(205) && Iter(1025, 1) == 1
    ensures Iter(25, 1) == 0x6f_21fd_01d0
    ensures Iter(205, 1) == 0x1e_fbd0_56fe && Iter(410, 1) == 0x37_bea2_ebba
    ensures Iter(615, 1) == 0x3a_7357_6b23 && Iter(820, 1) == 0x31_d1b2_2e37
  {
    hide Times25, Times100, Times105, Iter;
    Power25();
    Times25Is(1);
    Power105();
    Times105Is(0x1);
    Power205();
    Times100Is(0x9f_a32e_8a61);
    IterAdd(100, 105, 1);
    Power310();
    Times105Is(0x1e_fbd0_56fe);
    IterAdd(105, 205, 1);
    Power410();
    Times100Is(0x82_2d89_838d);
    IterAdd(100, 310, 1);
    Power515();
    Times105Is(0x37_bea2_ebba);
    IterAdd(105, 410, 1);
    Power615();
    Times100Is(0xbd_aa00_dd44);
    IterAdd(100, 515, 1);
    Power720();
    Times105Is(0x3a_7357_6b23);
    IterAdd(105, 615, 1);
    Power820();
    Times100Is(0x5e_6708_4846);
    IterAdd(100, 720, 1);
    Power925();
    Times105Is(0x31_d1b2_2e37);
    IterAdd(105, 820, 1);
    Power1025();
    Times100Is(0x8_3b66_369e);
    IterAdd(100, 925, 1);
  }

  // ----- the order of x -----

  lemma FiveDivides(d: nat, k: nat)
    requires d * k % 5 == 0 && k % 5 != 0
    ensures d % 5 == 0
  {
    var a, r, b, t := d / 5, d % 5, k / 5, k % 5;
    Distribute(5 * a, r, k);
    MulAssoc(5, a, k);
    Distribute(5 * b, t, r);
    MulAssoc(5, b, r);
    assert d * k == r * t + (a * k + b * r) * 5;
    ModDrop(r * t, a * k + b * r, 5);
    SmallProduct(r, t);
  }

  lemma SmallProduct(r: nat, t: nat)
    requires r < 5 && 0 < t < 5 && r * t % 5 == 0
    ensures r == 0
  {
    if t == 1 {
    } else if t == 2 {
    } else if t == 3 {
    } else {
      assert t == 4;
    }
  }

  lemma FortyOneIsPrime(d: nat, k: nat)
    requires d * k == 41 && k != 1
    ensures k == 41
  {
    assert k != 0 && k != 2 && k != 3 && k != 4 && k != 5 && k != 6;
    MulMono(7, k, d);
    assert d == 0 || d == 1 || d == 2 || d == 3 || d == 4 || d == 5;
  }

  /** Every divisor of 1025 but itself divides 25 or 205. */
  lemma Divisors(d: nat)
    requires 0 < d < 1025 && 1025 % d == 0
    ensures 205 % d == 0 || 25 % d == 0
  {
    var k := 1025 / d;
    assert d * k == 1025;
    if k % 5 == 0 {
      var m := k / 5;
      assert d * m == 205;
      MultipleMod(d, m);
    } else {
      FiveDivides(d, k);
      var d1 := d / 5;
      assert d1 * k == 205;
      FiveDivides(d1, k);
      var d2 := d1 / 5;
      assert d2 * k == 41;
      FortyOneIsPrime(d2, k);
    }
  }

  lemma MultipleMod(d: nat, m: nat)
    requires d > 0
    ensures d * m % d == 0
  {
    ModDrop(0, m, d);
  }

  /** Adding `n`, if it is one of these exponents, makes no difference. */
  predicate AddsNothing(p: nat -> bool, m: nat, n: nat) { p(n) ==> (p(m + n) <==> p(m)) }

  ghost predicate ArePeriods(p: nat -> bool) { forall m: nat, n: nat :: AddsNothing(p, m, n) }

  lemma {:induction false} PeriodMod(p: nat -> bool, n: nat, d: nat)
    requires ArePeriods(p) && d > 0 && p(d)
    ensures p(n % d) <==> p(n)
  {
    if n >= d {
      PeriodMod(p, n - d, d);
      assert AddsNothing(p, n - d, d);
      ModDrop(n - d, 1, d);
    }
  }

  /** The least positive one that is not above `n`. */
  lemma {:induction false} LeastPeriod(p: nat -> bool, n: nat) returns (d: nat)
    requires n > 0 && p(n)
    ensures 0 < d <= n && p(d) && forall k | 0 < k < d :: !p(k)
  {
    if k: nat :| 0 < k < n && p(k) {
      d := LeastPeriod(p, k);
    } else {
      d := n;
    }
  }

  /** If 1025 is a period and neither 25 nor 205 is one, its multiples are all periods. */
  lemma PeriodIs1025(p: nat -> bool, n: nat)
    requires ArePeriods(p) && p(1025) && !p(25) && !p(205)
    ensures p(n) <==> n % 1025 == 0
  {
    PeriodMod(p, 1025, 1025);
    PeriodMod(p, n, 1025);
    if n % 1025 != 0 && p(n) {
      var d := LeastPeriod(p, n % 1025);
      PeriodMod(p, 1025, d);
      assert 1025 % d == 0;
      Divisors(d);
      PeriodMod(p, 205, d);
      PeriodMod(p, 25, d);
    }
  }

  lemma SomeConstants()
    ensures IsConstant(1025) && !IsConstant(25) && !IsConstant(205)
  {
    hide Iter;
    PowersOfX();
  }

  /** A power of x is a constant exactly if the exponent is a multiple of 1025. */
  lemma ConstantIff(n: nat)
    ensures IsConstant(n) <==> n % 1025 == 0
  {
    hide IsConstant;
    SomeConstants();
    var p := (k: nat) => IsConstant(k);
    forall m: nat, k: nat ensures AddsNothing(p, m, k) {
      if IsConstant(k) {
        ConstantAdd(m, k);
      }
    }
    PeriodIs1025(p, n);
  }

  // ----- two errors -----

  lemma IterOne(n: nat, e: bv40)
    requires n % 1025 == 0 && e < 32
    ensures Iter(n, e) == e
    decreases n
  {
    assert Iter(0, e) == e;
    hide Times, Iter;
    if n > 0 {
      IterOne(n - 1025, e);
      Back1025(e);
      IterAdd(1025, n - 1025, e);
    }
  }

  lemma Back1025(e: bv40)
    requires e < 32
    ensures Iter(1025, e) == e
  {
    hide Iter, Scale;
    PowersOfX();
    if e == 0 {
      IterLinear(1025, 1, 1);
      XorLaws(1, 1);
      XorLaws(Iter(1025, 1), 0);
    } else {
      AllReached(e);
      var i: nat :| Scale(i, 1) == e;
      IterScale(1025, i, 1);
    }
  }

  /** What a difference becomes behind symbols that agree. */
  lemma {:induction false} FoldDifference(x: bv40, y: bv40, v: Digits)
    requires Below(256, v)
    ensures Xor(Fold(x, v), Fold(y, v)) == Iter(|v|, Xor(x, y))
  {
    hide Xor, Times, Bits;
    if v != [] {
      var n := |v| - 1;
      FoldDifference(x, y, v[..n]);
      var a, b, d := Fold(x, v[..n]), Fold(y, v[..n]), Bits(v[n]);
      TimesLinear(a, b);
      Pairs(Times(a), d, Times(b), d);
      XorLaws(d, d);
      XorLaws(Xor(Times(a), Times(b)), 0);
    }
  }

  lemma StepDifference(x: bv40, y: bv40, d: nat, e: nat)
    requires d < 256 && e < 256
    ensures Xor(Step(x, d), Step(y, e)) == Xor(Times(Xor(x, y)), Xor(Bits(d), Bits(e)))
  {
    hide Xor, Times, Bits;
    TimesLinear(x, y);
    Pairs(Times(x), Bits(d), Times(y), Bits(e));
  }

  lemma XorZero(a: bv40, b: bv40)
    ensures Xor(a, b) == 0 <==> a == b
  {
  }

  lemma XorSmall(a: bv40, b: bv40)
    requires a < 32 && b < 32
    ensures Xor(a, b) < 32
  {
  }

  /** The checksum states of two sequences that differ in two symbols. */
  lemma TwoDifferences(c: bv40, a: nat, a': nat, mid: Digits, b: nat, b': nat)
    requires a < 32 && a' < 32 && b < 32 && b' < 32 && Below(256, mid)
    ensures Below(256, [a] + mid + [b]) && Below(256, [a'] + mid + [b'])
    ensures Fold(c, [a] + mid + [b]) == Fold(c, [a'] + mid + [b']) <==>
            Iter(|mid| + 1, Xor(Bits(a), Bits(a'))) == Xor(Bits(b), Bits(b'))
  {
    hide Xor, Times, Bits, Step;
    var x, y := Step(c, a), Step(c, a');
    OneSymbol(c, a);
    OneSymbol(c, a');
    FoldConcat(c, [a], mid);
    FoldConcat(c, [a'], mid);
    StepDifference(c, c, a, a');
    XorLaws(c, c);
    ZeroTimes();
    var e, f := Xor(Bits(a), Bits(a')), Xor(Bits(b), Bits(b'));
    XorLaws(e, 0);
    FoldDifference(x, y, mid);
    var s, t := Fold(x, mid), Fold(y, mid);
    LastSymbol(c, [a] + mid, b);
    LastSymbol(c, [a'] + mid, b');
    StepDifference(s, t, b, b');
    assert Times(Iter(|mid|, e)) == Iter(|mid| + 1, e);
    XorZero(Step(s, b), Step(t, b'));
    XorZero(Iter(|mid| + 1, e), f);
  }

  lemma ZeroTimes()
    ensures Times(0) == 0
  {
  }

  lemma LastSymbol(c: bv40, v: Digits, b: nat)
    requires Below(256, v) && b < 256
    ensures Fold(c, v + [b]) == Step(Fold(c, v), b)
  {
    assert (v + [b])[..|v|] == v;
  }

  /**
   Two wrong symbols in an accepted sequence go unnoticed exactly if they are wrong by the same
   amount and a multiple of 1025 symbols apart.
   */
  lemma TwoErrors(prefix: string, front: Digits, a: nat, a': nat, mid: Digits, b: nat, b': nat, back: Digits)
    requires Below(256, front) && Below(256, mid) && Below(256, back)
    requires a < 32 && a' < 32 && b < 32 && b' < 32 && a != a'
    requires Below(256, front + ([a] + mid + [b]) + back) && Below(256, front + ([a'] + mid + [b']) + back)
    requires Verifies(prefix, front + ([a] + mid + [b]) + back)
    ensures Verifies(prefix, front + ([a'] + mid + [b']) + back) <==>
            (|mid| + 1) % 1025 == 0 && Xor(Bits(a), Bits(a')) == Xor(Bits(b), Bits(b'))
  {
    hide Xor, Fold, Iter, Bits;
    var c := Fold(1, Expand(prefix) + front);
    AfterBurst(prefix, front, [a] + mid + [b], back);
    AfterBurst(prefix, front, [a'] + mid + [b'], back);
    TwoDifferences(c, a, a', mid, b, b');
    var x, y := Fold(c, [a] + mid + [b]), Fold(c, [a'] + mid + [b']);
    if x != y {
      FoldApart(x, y, back);
    }
    var e, f, n := Xor(Bits(a), Bits(a')), Xor(Bits(b), Bits(b')), |mid| + 1;
    SmallBits(a);
    SmallBits(a');
    SmallBits(b);
    SmallBits(b');
    XorSmall(Bits(a), Bits(a'));
    XorSmall(Bits(b), Bits(b'));
    XorZero(Bits(a), Bits(a'));
    if Bits(a) == Bits(a') {
      BitsApart(a, a');
    }
    ConstantTimes(n, e);
    ConstantIff(n);
    if n % 1025 == 0 {
      IterOne(n, e);
    }
  }
}
