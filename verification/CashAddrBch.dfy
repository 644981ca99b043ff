/**
 Up to four wrong symbols within 1025, anywhere in a CashAddr sequence, are always noticed.

 The generator is the product of two quartics f and h. The multiples of h modulo g are a field, in
 which multiplication by x has order 1025, and six powers of x are roots of g there: those with the
 exponents -32, -1, 30 and -30, 1, 32, two runs of three at the same distance. Errors that cancel in
 the checksum therefore cancel in six more sums, from which they can be eliminated one by one.
 */
module CashAddrBch {
  import opened Numbers
  import opened Digits
  import opened CashAddr
  import opened CashAddrErrors

  // ----- polynomials in a power of x -----

  lemma {:induction false} ScaleLinear(i: nat, a: bv40, b: bv40)
    ensures Scale(i, Xor(a, b)) == Xor(Scale(i, a), Scale(i, b))
  {
    hide Xor, Alpha;
    if i > 0 {
      ScaleLinear(i - 1, a, b);
      AlphaLinear(Scale(i - 1, a), Scale(i - 1, b));
    }
  }

  lemma {:induction false} ScaleZero(i: nat, c: bv40)
    ensures Scale(i, c) == 0 <==> c == 0
  {
    hide Alpha;
    if i > 0 {
      ScaleZero(i - 1, c);
      AlphaSmall(Scale(i - 1, c));
    }
  }

  lemma {:induction false} ScaleAdd(i: nat, j: nat, c: bv40)
    ensures Scale(i, Scale(j, c)) == Scale(i + j, c)
  {
    hide Alpha;
    if i > 0 {
      ScaleAdd(i - 1, j, c);
    }
  }

  lemma ScaleSwap(i: nat, j: nat, c: bv40)
    ensures Scale(i, Scale(j, c)) == Scale(j, Scale(i, c))
  {
    hide Scale;
    ScaleAdd(i, j, c);
    ScaleAdd(j, i, c);
  }

  lemma IterSwap(m: nat, n: nat, c: bv40)
    ensures Iter(m, Iter(n, c)) == Iter(n, Iter(m, c))
  {
    hide Iter;
    IterAdd(m, n, c);
    IterAdd(n, m, c);
  }

  /** The power i of a times the power n of x. */
  function Term(n: nat, i: nat, c: bv40): bv40 { Scale(i, Iter(n, c)) }

  lemma TermLaws(n: nat, i: nat, a: bv40, b: bv40, m: nat, k: nat)
    ensures Term(n, i, Xor(a, b)) == Xor(Term(n, i, a), Term(n, i, b))
    ensures Term(n, i, Iter(m, a)) == Iter(m, Term(n, i, a))
    ensures Term(n, i, Scale(k, a)) == Scale(k, Term(n, i, a))
  {
    hide Iter, Scale, Xor;
    IterLinear(n, a, b);
    ScaleLinear(i, Iter(n, a), Iter(n, b));
    IterSwap(n, m, a);
    IterScale(m, i, Iter(n, a));
    IterScale(n, k, a);
    ScaleSwap(i, k, Iter(n, a));
  }

  function Sum5(a: bv40, b: bv40, c: bv40, d: bv40, e: bv40): bv40 { Xor(Xor(Xor(a, b), Xor(c, d)), e) }

  /** The polynomial X^4 + a^i X^3 + a^j X^2 + a^i X + 1 at the power d of x. */
  function Quartic(d: nat, i: nat, j: nat, c: bv40): bv40 {
    Sum5(Term(4 * d, 0, c), Term(3 * d, i, c), Term(2 * d, j, c), Term(d, i, c), c)
  }

  lemma Sum5Linear(a: bv40, b: bv40, c: bv40, d: bv40, e: bv40, a': bv40, b': bv40, c': bv40, d': bv40, e': bv40)
    ensures Sum5(Xor(a, a'), Xor(b, b'), Xor(c, c'), Xor(d, d'), Xor(e, e'))
         == Xor(Sum5(a, b, c, d, e), Sum5(a', b', c', d', e'))
  {
    hide Xor;
    Pairs(a, a', b, b');
    Pairs(c, c', d, d');
    Pairs(Xor(a, b), Xor(a', b'), Xor(c, d), Xor(c', d'));
    Pairs(Xor(Xor(a, b), Xor(c, d)), Xor(Xor(a', b'), Xor(c', d')), e, e');
  }

  lemma Sum5Iter(n: nat, a: bv40, b: bv40, c: bv40, d: bv40, e: bv40)
    ensures Iter(n, Sum5(a, b, c, d, e)) == Sum5(Iter(n, a), Iter(n, b), Iter(n, c), Iter(n, d), Iter(n, e))
  {
    hide Xor, Iter;
    IterLinear(n, a, b);
    IterLinear(n, c, d);
    IterLinear(n, Xor(a, b), Xor(c, d));
    IterLinear(n, Xor(Xor(a, b), Xor(c, d)), e);
  }

  lemma Sum5Scale(k: nat, a: bv40, b: bv40, c: bv40, d: bv40, e: bv40)
    ensures Scale(k, Sum5(a, b, c, d, e)) == Sum5(Scale(k, a), Scale(k, b), Scale(k, c), Scale(k, d), Scale(k, e))
  {
    hide Xor, Scale;
    ScaleLinear(k, a, b);
    ScaleLinear(k, c, d);
    ScaleLinear(k, Xor(a, b), Xor(c, d));
    ScaleLinear(k, Xor(Xor(a, b), Xor(c, d)), e);
  }

  /** Such a polynomial is linear and commutes with multiplications. */
  lemma QuarticLaws(d: nat, i: nat, j: nat, a: bv40, b: bv40, m: nat, k: nat)
    ensures Quartic(d, i, j, Xor(a, b)) == Xor(Quartic(d, i, j, a), Quartic(d, i, j, b))
    ensures Quartic(d, i, j, Iter(m, a)) == Iter(m, Quartic(d, i, j, a))
    ensures Quartic(d, i, j, Scale(k, a)) == Scale(k, Quartic(d, i, j, a))
  {
    hide Xor, Iter, Scale, Term, Sum5;
    TermLaws(4 * d, 0, a, b, m, k);
    TermLaws(3 * d, i, a, b, m, k);
    TermLaws(2 * d, j, a, b, m, k);
    TermLaws(d, i, a, b, m, k);
    var a4, a3, a2, a1 := Term(4 * d, 0, a), Term(3 * d, i, a), Term(2 * d, j, a), Term(d, i, a);
    var b4, b3, b2, b1 := Term(4 * d, 0, b), Term(3 * d, i, b), Term(2 * d, j, b), Term(d, i, b);
    Sum5Linear(a4, a3, a2, a1, a, b4, b3, b2, b1, b);
    Sum5Iter(m, a4, a3, a2, a1, a);
    Sum5Scale(k, a4, a3, a2, a1, a);
  }

  lemma QuarticTerm(d: nat, i: nat, j: nat, n: nat, k: nat, c: bv40)
    ensures Quartic(d, i, j, Term(n, k, c)) == Term(n, k, Quartic(d, i, j, c))
  {
    hide Quartic, Iter, Scale;
    QuarticLaws(d, i, j, c, c, n, k);
    QuarticLaws(d, i, j, Iter(n, c), c, n, k);
  }

  lemma QuarticSum5(d: nat, i: nat, j: nat, a: bv40, b: bv40, c: bv40, e: bv40, f: bv40)
    ensures Quartic(d, i, j, Sum5(a, b, c, e, f))
         == Sum5(Quartic(d, i, j, a), Quartic(d, i, j, b), Quartic(d, i, j, c), Quartic(d, i, j, e),
                 Quartic(d, i, j, f))
  {
    hide Quartic, Xor;
    QuarticLaws(d, i, j, a, b, 0, 0);
    QuarticLaws(d, i, j, c, e, 0, 0);
    QuarticLaws(d, i, j, Xor(a, b), Xor(c, e), 0, 0);
    QuarticLaws(d, i, j, Xor(Xor(a, b), Xor(c, e)), f, 0, 0);
  }

  lemma QuarticSwap(d: nat, i: nat, j: nat, d': nat, i': nat, j': nat, c: bv40)
    ensures Quartic(d, i, j, Quartic(d', i', j', c)) == Quartic(d', i', j', Quartic(d, i, j, c))
  {
    var t4, t3, t2, t1 := Term(4 * d', 0, c), Term(3 * d', i', c), Term(2 * d', j', c), Term(d', i', c);
    assert Quartic(d', i', j', c) == Sum5(t4, t3, t2, t1, c);
    var q := Quartic(d, i, j, c);
    assert Quartic(d', i', j', q)
        == Sum5(Term(4 * d', 0, q), Term(3 * d', i', q), Term(2 * d', j', q), Term(d', i', q), q);
    hide Quartic, Term, Sum5;
    QuarticSum5(d, i, j, t4, t3, t2, t1, c);
    QuarticTerm(d, i, j, 4 * d', 0, c);
    QuarticTerm(d, i, j, 3 * d', i', c);
    QuarticTerm(d, i, j, 2 * d', j', c);
    QuarticTerm(d, i, j, d', i', c);
  }

  // ----- the field -----

  /** A symbol times h(x). */
  function Seed(e: bv40): bv40 { Quartic(1, 20, 0, e) }

  function Alpha4(c: bv40): bv40 { Alpha(Alpha(Alpha(Alpha(c)))) }
  function Alpha5(c: bv40): bv40 { Alpha(Alpha4(c)) }
  function Alpha10(c: bv40): bv40 { Alpha5(Alpha5(c)) }

  lemma Alpha4Is(c: bv40)
    ensures Alpha4(c) == Scale(4, c)
  {
    hide Alpha;
    assert Scale(1, c) == Alpha(Scale(0, c));
    assert Scale(2, c) == Alpha(Scale(1, c));
    assert Scale(3, c) == Alpha(Scale(2, c));
  }

  lemma Alpha5Is(c: bv40)
    ensures Alpha5(c) == Scale(5, c)
  {
    hide Alpha, Alpha4;
    Alpha4Is(c);
  }

  lemma Alpha10Is(c: bv40)
    ensures Alpha10(c) == Scale(10, c)
  {
    hide Alpha5, Scale;
    Alpha5Is(c);
    Alpha5Is(Scale(5, c));
    ScaleAdd(5, 5, c);
  }

  lemma ScalesAre(c: bv40)
    ensures Scale(14, c) == Alpha10(Alpha4(c))
    ensures Scale(19, c) == Alpha10(Alpha5(Alpha4(c)))
    ensures Scale(20, c) == Alpha10(Alpha10(c))
  {
    hide Alpha4, Alpha5, Alpha10, Scale;
    Alpha4Is(c);
    Alpha10Is(Scale(4, c));
    ScaleAdd(10, 4, c);
    Alpha5Is(Scale(4, c));
    ScaleAdd(5, 4, c);
    Alpha10Is(Scale(9, c));
    ScaleAdd(10, 9, c);
    Alpha10Is(c);
    Alpha10Is(Scale(10, c));
    ScaleAdd(10, 10, c);
  }

  function Times2(c: bv40): bv40 { Times(Times(c)) }

  function SeedOf(c: bv40): bv40 {
    Sum5(Times2(Times2(c)), Alpha10(Alpha10(Times(Times2(c)))), Times2(c), Alpha10(Alpha10(Times(c))), c)
  }

  lemma SeedIs(c: bv40)
    ensures Seed(c) == SeedOf(c)
  {
    hide Times, Alpha10, Sum5, Alpha;
    FirstPowers(c);
    ScalesAre(Iter(3, c));
    ScalesAre(Iter(1, c));
    assert Scale(0, Iter(4, c)) == Iter(4, c) && Scale(0, Iter(2, c)) == Iter(2, c);
    hide Scale, Iter;
  }

  lemma FirstPowers(c: bv40)
    ensures Iter(1, c) == Times(c) && Iter(2, c) == Times2(c)
    ensures Iter(3, c) == Times(Times2(c)) && Iter(4, c) == Times2(Times2(c))
  {
    hide Times;
    assert Iter(1, c) == Times(c);
    assert Iter(2, c) == Times(Iter(1, c));
    assert Iter(3, c) == Times(Iter(2, c));
    assert Iter(4, c) == Times(Iter(3, c));
  }

  const H: bv40 := 0x1f_87e1
  const H19: bv40 := 0x13a_4e93
  const H3: bv40 := 0x34_0d03
  const H25: bv40 := 0x196_e5b9
  const H11: bv40 := 0xb3_2ccb

  lemma SeedOf1()
    ensures SeedOf(1) == H
  {
  }

  lemma SeedOf19()
    ensures SeedOf(19) == H19
  {
  }

  lemma SeedOf3()
    ensures SeedOf(3) == H3
  {
  }

  lemma SeedOf25()
    ensures SeedOf(25) == H25
  {
  }

  lemma SeedOf11()
    ensures SeedOf(11) == H11
  {
  }

  lemma SeedTable()
    ensures Seed(1) == H && Seed(19) == H19 && Seed(3) == H3 && Seed(25) == H25 && Seed(11) == H11
  {
    hide Seed, SeedOf;
    SeedIs(1);
    SeedOf1();
    SeedIs(19);
    SeedOf19();
    SeedIs(3);
    SeedOf3();
    SeedIs(25);
    SeedOf25();
    SeedIs(11);
    SeedOf11();
  }

  /** What the multiples of h(x) have in common: the powers 205 and 25 of x are roots of these. */
  predicate InField(c: bv40) { Quartic(205, 0, 0, c) == 0 && Quartic(25, 14, 19, c) == 0 }

  lemma Seed205()
    ensures SeedOf(0x22_e797_f851) == 0
  {
  }

  lemma Seed25()
    ensures SeedOf(0x28_3cd1_13fe) == 0
  {
  }

  lemma Power50()
    ensures Times25(0x6f_21fd_01d0) == 0xd9_a158_fee5
  {
  }

  lemma Power75()
    ensures Times25(0xd9_a158_fee5) == 0xda_395f_4118
  {
  }

  lemma Power100()
    ensures Times25(0xda_395f_4118) == 0xdf_491d_9d0b
  {
  }

  lemma ScaledPowers()
    ensures Alpha10(Alpha4(0xda_395f_4118)) == 0x26_1b65_e701
    ensures Alpha10(Alpha5(Alpha4(0xd9_a158_fee5))) == 0x6a_1c2a_ebac
    ensures Alpha10(Alpha4(0x6f_21fd_01d0)) == 0xbb_7283_8259
  {
  }

  lemma Quartic205()
    ensures Quartic(205, 0, 0, 1) == 0x22_e797_f851
  {
    PowersOfX();
    hide Iter;
    assert Term(820, 0, 1) == 0x31_d1b2_2e37 && Term(615, 0, 1) == 0x3a_7357_6b23;
    assert Term(410, 0, 1) == 0x37_bea2_ebba && Term(205, 0, 1) == 0x1e_fbd0_56fe;
    hide Term;
  }

  lemma Quartic25()
    ensures Quartic(25, 14, 19, 1) == 0x28_3cd1_13fe
  {
    QuarticTerms();
    hide Term;
  }

  lemma PowersTo100()
    ensures Iter(25, 1) == 0x6f_21fd_01d0 && Iter(50, 1) == 0xd9_a158_fee5
    ensures Iter(75, 1) == 0xda_395f_4118 && Iter(100, 1) == 0xdf_491d_9d0b
  {
    hide Iter, Times25, IsConstant;
    PowersOfX();
    Power50();
    Power75();
    Power100();
    Times25Is(0x6f_21fd_01d0);
    IterAdd(25, 25, 1);
    Times25Is(0xd9_a158_fee5);
    IterAdd(25, 50, 1);
    Times25Is(0xda_395f_4118);
    IterAdd(25, 75, 1);
  }

  lemma TermIs(n: nat, i: nat, c: bv40, d: bv40)
    requires Iter(n, c) == d
    ensures Term(n, i, c) == Scale(i, d)
  {
  }

  lemma QuarticTerms()
    ensures Term(100, 0, 1) == 0xdf_491d_9d0b && Term(75, 14, 1) == 0x26_1b65_e701
    ensures Term(50, 19, 1) == 0x6a_1c2a_ebac && Term(25, 14, 1) == 0xbb_7283_8259
  {
    assert Scale(0, 0xdf_491d_9d0b) == 0xdf_491d_9d0b;
    hide Iter, Scale, Term, Alpha4, Alpha5, Alpha10;
    PowersTo100();
    ScaledPowers();
    ScalesAre(0xda_395f_4118);
    ScalesAre(0xd9_a158_fee5);
    ScalesAre(0x6f_21fd_01d0);
    TermIs(100, 0, 1, 0xdf_491d_9d0b);
    TermIs(75, 14, 1, 0xda_395f_4118);
    TermIs(50, 19, 1, 0xd9_a158_fee5);
    TermIs(25, 14, 1, 0x6f_21fd_01d0);
  }

  lemma FieldOne()
    ensures InField(Seed(1))
  {
    hide Quartic, SeedOf;
    QuarticSwap(205, 0, 0, 1, 20, 0, 1);
    Quartic205();
    SeedIs(0x22_e797_f851);
    Seed205();
    QuarticSwap(25, 14, 19, 1, 20, 0, 1);
    Quartic25();
    SeedIs(0x28_3cd1_13fe);
    Seed25();
  }

  lemma QuarticZero(d: nat, i: nat, j: nat)
    ensures Quartic(d, i, j, 0) == 0
  {
    hide Quartic, Xor;
    XorLaws(0, 0);
    QuarticLaws(d, i, j, 0, 0, 0, 0);
    XorLaws(Quartic(d, i, j, 0), Quartic(d, i, j, 0));
  }

  lemma IterZero(n: nat)
    ensures Iter(n, 0) == 0
  {
    hide Iter, Xor;
    XorLaws(0, 0);
    IterLinear(n, 0, 0);
    XorLaws(Iter(n, 0), Iter(n, 0));
  }

  /** The field is closed under sums and multiplications. */
  lemma FieldLaws(a: bv40, b: bv40, n: nat, k: nat)
    requires InField(a) && InField(b)
    ensures InField(Xor(a, b)) && InField(Iter(n, a)) && InField(Scale(k, a))
  {
    hide Quartic, Xor, Iter, Scale;
    QuarticLaws(205, 0, 0, a, b, n, k);
    QuarticLaws(25, 14, 19, a, b, n, k);
    XorLaws(0, 0);
    IterZero(n);
    ScaleZero(k, 0);
  }

  lemma SeedInField(e: bv40)
    requires e < 32
    ensures InField(Seed(e)) && (Seed(e) == 0 <==> e == 0)
  {
    hide Quartic, Scale;
    if e == 0 {
      QuarticZero(1, 20, 0);
      QuarticZero(205, 0, 0);
      QuarticZero(25, 14, 19);
    } else {
      AllReached(e);
      var k: nat :| Scale(k, 1) == e;
      FieldOne();
      SeedTable();
      QuarticLaws(1, 20, 0, 1, 1, 0, k);
      FieldLaws(Seed(1), Seed(1), 0, k);
      ScaleZero(k, Seed(1));
    }
  }

  // ----- the order of x in the field -----

  lemma {:induction false} FullTurnShort(c: bv40, k: nat)
    requires k <= 7 && c < Limit(k)
    ensures Iter(1025, c) == c
  {
    if k == 0 {
      IterZero(1025);
    } else {
      ShrBelow(c, k);
      assert Limit(k - 1) <= TOP;
      hide Iter, Limit;
      FullTurnShort(Shr5(c), k - 1);
      FullTurnStep(c);
    }
  }

  lemma FullTurnStep(c: bv40)
    requires Shr5(c) < TOP && Iter(1025, Shr5(c)) == Shr5(c)
    ensures Iter(1025, c) == c
  {
    LowSymbol(c);
    hide Iter, Xor, Times, Shl5, Shr5, Low5;
    Rejoin(c);
    TimesSmall(Shr5(c));
    FirstPowers(Shr5(c));
    IterLinear(1025, Times(Shr5(c)), Low5(c));
    IterSwap(1025, 1, Shr5(c));
    Back1025(Low5(c));
  }

  lemma LowSymbol(c: bv40)
    ensures Low5(c) < 32
  {
  }

  lemma ShiftedDown(c: bv40)
    ensures Shr5(c) < TOP == Limit(7)
  {
  }

  /** Multiplying 1025 times by x changes nothing. */
  lemma FullTurn(c: bv40)
    ensures Iter(1025, c) == c
  {
    hide Iter, Shr5, Limit;
    ShiftedDown(c);
    FullTurnShort(Shr5(c), 7);
    FullTurnStep(c);
  }

  lemma Middle(v: bv40, s: bv40, t: bv40)
    ensures Sum5(v, s, t, s, v) == t
  {
    hide Xor;
    XorLaws(t, s);
    Pairs(v, s, s, t);
    XorLaws(v, s);
    XorLaws(s, v);
    XorAssoc(v, s, Xor(s, t));
    XorLaws(s, t);
    XorLaws(v, t);
    XorAssoc(t, v, v);
    XorLaws(v, v);
    XorLaws(t, 0);
  }

  lemma FixedAgain(d: nat, n: nat, c: bv40)
    requires Iter(d, c) == c && Iter(n, c) == c
    ensures Iter(d + n, c) == c
  {
    hide Iter;
    IterAdd(d, n, c);
  }

  lemma TermZero(n: nat, c: bv40)
    ensures Term(n, 0, c) == Iter(n, c)
  {
  }

  /** If a power of x is a root of such a polynomial but 1 is not, it changes everything but zero. */
  lemma NothingFixed(d: nat, i: nat, j: nat, c: bv40)
    requires Iter(d, c) == c && Quartic(d, i, j, c) == 0
    ensures c == 0
  {
    hide Iter, Scale, Sum5, Term;
    var n2, n3, n4 := 2 * d, 3 * d, 4 * d;
    FixedAgain(d, d, c);
    FixedAgain(d, n2, c);
    FixedAgain(d, n3, c);
    TermZero(n4, c);
    TermIs(n3, i, c, c);
    TermIs(n2, j, c, c);
    TermIs(d, i, c, c);
    Middle(c, Scale(i, c), Scale(j, c));
    ScaleZero(j, c);
  }

  /** In the field, multiplying by a power of x changes everything, unless the power is 1. */
  lemma FieldOrder(c: bv40, n: nat)
    requires InField(c) && Iter(n, c) == c && c != 0
    ensures n % 1025 == 0
  {
    hide Iter, Quartic;
    var p := (k: nat) => Iter(k, c) == c;
    forall m: nat, k: nat ensures AddsNothing(p, m, k) {
      IterAdd(m, k, c);
    }
    FullTurn(c);
    if p(25) {
      NothingFixed(25, 14, 19, c);
    }
    if p(205) {
      NothingFixed(205, 0, 0, c);
    }
    PeriodIs1025(p, n);
  }

  // ----- evaluating a polynomial at a power of x -----

  /** The value, times h(x), of the last `k` coefficients at the power m of x. */
  function Eval(m: nat, c: bv40, k: nat): bv40
    decreases k
  {
    if k == 0 then 0 else Xor(Seed(Low5(c)), Iter(m, Eval(m, Shr5(c), k - 1)))
  }

  lemma SymbolsLinear(a: bv40, b: bv40)
    ensures Low5(Xor(a, b)) == Xor(Low5(a), Low5(b)) && Shr5(Xor(a, b)) == Xor(Shr5(a), Shr5(b))
  {
  }

  lemma {:induction false} EvalLinear(m: nat, a: bv40, b: bv40, k: nat)
    ensures Eval(m, Xor(a, b), k) == Xor(Eval(m, a, k), Eval(m, b, k))
    decreases k
  {
    hide Xor, Low5, Shr5, Quartic, Iter;
    if k == 0 {
      XorLaws(0, 0);
    } else {
      SymbolsLinear(a, b);
      EvalLinear(m, Shr5(a), Shr5(b), k - 1);
      var u, v := Eval(m, Shr5(a), k - 1), Eval(m, Shr5(b), k - 1);
      IterLinear(m, u, v);
      QuarticLaws(1, 20, 0, Low5(a), Low5(b), 0, 0);
      Pairs(Seed(Low5(a)), Seed(Low5(b)), Iter(m, u), Iter(m, v));
    }
  }

  lemma SymbolsAlpha(c: bv40)
    ensures Low5(Alpha(c)) == Alpha(Low5(c)) && Shr5(Alpha(c)) == Alpha(Shr5(c))
  {
  }

  lemma SeedAlpha(e: bv40)
    ensures Seed(Alpha(e)) == Alpha(Seed(e))
  {
    hide Quartic, Alpha;
    assert Scale(1, e) == Alpha(e) && Scale(1, Seed(e)) == Alpha(Seed(e));
    QuarticLaws(1, 20, 0, e, e, 0, 1);
  }

  lemma {:induction false} EvalAlpha(m: nat, c: bv40, k: nat)
    ensures Eval(m, Alpha(c), k) == Alpha(Eval(m, c, k))
    decreases k
  {
    hide Xor, Low5, Shr5, Seed, Iter, Alpha;
    if k == 0 {
      AlphaSmall(0);
    } else {
      SymbolsAlpha(c);
      EvalAlpha(m, Shr5(c), k - 1);
      SeedAlpha(Low5(c));
      IterAlpha(m, Eval(m, Shr5(c), k - 1));
      AlphaLinear(Seed(Low5(c)), Iter(m, Eval(m, Shr5(c), k - 1)));
    }
  }

  lemma {:induction false} EvalShort(m: nat, c: bv40, k: nat)
    requires k <= 7 && c < Limit(k)
    ensures Eval(m, c, k + 1) == Eval(m, c, k)
    decreases k
  {
    hide Xor, Low5, Shr5, Seed, Iter, Limit;
    if k == 0 {
      ZeroLimit(c);
      EvalZero(m, 1);
    } else {
      ShrBelow(c, k);
      EvalShort(m, Shr5(c), k - 1);
    }
  }

  lemma ZeroLimit(c: bv40)
    requires c < Limit(0)
    ensures c == 0
  {
  }

  lemma EvalZero(m: nat, k: nat)
    ensures Eval(m, 0, k) == 0
  {
    hide Eval, Xor;
    XorLaws(0, 0);
    EvalLinear(m, 0, 0, k);
    XorLaws(Eval(m, 0, k), Eval(m, 0, k));
  }

  lemma Append(c: bv40, e: bv40)
    requires c < TOP && e < 32
    ensures Low5(Xor(Shl5(c), e)) == e && Shr5(Xor(Shl5(c), e)) == c && TOP == Limit(7)
  {
  }

  /** One more coefficient. */
  lemma EvalAppend(m: nat, c: bv40, e: bv40)
    requires c < TOP && e < 32
    ensures Eval(m, Xor(Shl5(c), e), 8) == Xor(Seed(e), Iter(m, Eval(m, c, 8)))
  {
    hide Xor, Low5, Shr5, Shl5, Seed, Iter, Limit;
    Append(c, e);
    EvalShort(m, c, 7);
  }

  lemma EvalSymbol(m: nat, e: bv40)
    requires e < 32
    ensures Eval(m, e, 8) == Seed(e)
  {
    hide Eval, Xor, Shl5, Seed, Iter;
    EvalAppend(m, 0, e);
    ShiftZero();
    XorLaws(e, 0);
    EvalZero(m, 8);
    IterZero(m);
    XorLaws(Seed(e), 0);
  }

  lemma ShiftZero()
    ensures Shl5(0) == 0
  {
  }

  /** Evaluating turns multiplication by x into multiplication by its power m. */
  predicate Steps(m: nat, c: bv40) { Eval(m, Times(c), 8) == Iter(m, Eval(m, c, 8)) }

  lemma StepsSmall(m: nat, c: bv40)
    requires c < TOP
    ensures Steps(m, c)
  {
    hide Times, Eval, Shl5, Xor, Quartic, Iter;
    TimesSmall(c);
    EvalAppend(m, c, 0);
    XorLaws(Shl5(c), 0);
    QuarticZero(1, 20, 0);
    XorLaws(0, Iter(m, Eval(m, c, 8)));
    XorLaws(Iter(m, Eval(m, c, 8)), 0);
  }

  lemma StepsSum(m: nat, a: bv40, b: bv40)
    requires Steps(m, a) && Steps(m, b)
    ensures Steps(m, Xor(a, b))
  {
    hide Times, Eval, Xor, Iter;
    TimesLinear(a, b);
    EvalLinear(m, a, b, 8);
    EvalLinear(m, Times(a), Times(b), 8);
    IterLinear(m, Eval(m, a, 8), Eval(m, b, 8));
  }

  lemma StepsAlpha(m: nat, c: bv40)
    requires Steps(m, c)
    ensures Steps(m, Alpha(c))
  {
    hide Times, Eval, Alpha, Iter;
    AlphaTimes(c);
    EvalAlpha(m, c, 8);
    EvalAlpha(m, Times(c), 8);
    IterAlpha(m, Eval(m, c, 8));
  }

  /** All coefficients of g(x) but the last. */
  const G: bv40 := 0xc_c795_e473

  lemma GTimes()
    ensures Times(G) == 1 && Low(G) < TOP && Xor(G, Low(G)) == B1
  {
  }

  lemma LeadAlpha()
    ensures Alpha(B1) == B2 && Alpha(B2) == B4 && Alpha(B4) == B8 && Alpha(B8) == B16
  {
  }

  /** It is enough to look at g(x). */
  lemma AllSteps(m: nat, c: bv40)
    requires Steps(m, G)
    ensures Steps(m, c)
  {
    GTimes();
    LeadAlpha();
    LeadAndLow(c);
    hide Steps, Xor, Alpha, Low, Lead;
    StepsSmall(m, Low(G));
    StepsSum(m, G, Low(G));
    StepsAlpha(m, B1);
    StepsAlpha(m, B2);
    StepsAlpha(m, B4);
    StepsAlpha(m, B8);
    StepsSmall(m, 0);
    var p1, p2, p4, p8, p16 := Pick(c, 1, B1), Pick(c, 2, B2), Pick(c, 4, B4), Pick(c, 8, B8), Pick(c, 16, B16);
    StepsSum(m, p1, p2);
    StepsSum(m, p4, p8);
    StepsSum(m, Xor(p1, p2), Xor(p4, p8));
    StepsSum(m, Xor(Xor(p1, p2), Xor(p4, p8)), p16);
    StepsSmall(m, Low(c));
    StepsSum(m, Low(c), LeadPart(c));
  }

  /** Multiplies q times by the power m of x. */
  function Turn(m: nat, q: nat, c: bv40): bv40 { Iter(m * q, c) }

  lemma TurnNone(m: nat, c: bv40)
    ensures Turn(m, 0, c) == c
  {
  }

  lemma TurnStep(m: nat, q: nat, c: bv40)
    ensures Turn(m, q + 1, c) == Iter(m, Turn(m, q, c))
  {
    hide Iter;
    Distribute(q, 1, m);
    assert m * (q + 1) == m + m * q;
    IterAdd(m, m * q, c);
  }

  /** A symbol somewhere in the sequence. */
  lemma {:induction false} EvalPower(m: nat, q: nat, e: bv40)
    requires Steps(m, G) && e < 32
    ensures Eval(m, Iter(q, e), 8) == Turn(m, q, Seed(e))
  {
    hide Steps, Eval, Seed, Times, Iter, Turn;
    if q == 0 {
      EvalSymbol(m, e);
      IterNone(e);
      TurnNone(m, Seed(e));
    } else {
      var p := q - 1;
      EvalPower(m, p, e);
      AllSteps(m, Iter(p, e));
      StepsMeans(m, Iter(p, e));
      TurnStep(m, p, Seed(e));
      FirstPowers(Iter(p, e));
      IterAdd(1, p, e);
    }
  }

  lemma IterNone(c: bv40)
    ensures Iter(0, c) == c
  {
  }

  lemma StepsMeans(m: nat, c: bv40)
    requires Steps(m, c)
    ensures Eval(m, Times(c), 8) == Iter(m, Eval(m, c, 8))
  {
  }

  // ----- the roots of g(x) -----

  /** Horner's rule for g(x), with `x` for the values multiplied by the power m of x. */
  ghost predicate IsTable(m: nat, x: seq<bv40>) {
    && |x| == 8 && x[7] == H
    && Iter(m, H) == x[0] && Iter(m, Xor(x[0], H19)) == x[1] && Iter(m, Xor(x[1], H3)) == x[2]
    && Iter(m, Xor(x[2], H25)) == x[3] && Iter(m, Xor(x[3], H11)) == x[4] && Iter(m, Xor(x[4], H25)) == x[5]
    && Iter(m, Xor(x[5], H3)) == x[6] && Iter(m, Xor(x[6], H19)) == x[7]
  }

  lemma Coefficients()
    ensures Xor(Shl5(1), 19) == 0x33 < TOP && Xor(Shl5(0x33), 3) == 0x663 < TOP
    ensures Xor(Shl5(0x663), 25) == 0xcc79 < TOP && Xor(Shl5(0xcc79), 11) == 0x19_8f2b < TOP
    ensures Xor(Shl5(0x19_8f2b), 25) == 0x331_e579 < TOP && Xor(Shl5(0x331_e579), 3) == 0x663c_af23 < TOP
    ensures Xor(Shl5(0x663c_af23), 19) == G
  {
  }

  lemma HornerStep(m: nat, c: bv40, e: bv40, h: bv40, y: bv40, x: bv40)
    requires c < TOP && e < 32 && Seed(e) == h && Eval(m, c, 8) == y && Iter(m, y) == x
    ensures Eval(m, Xor(Shl5(c), e), 8) == Xor(x, h)
  {
    hide Eval, Xor, Shl5, Seed, Iter;
    EvalAppend(m, c, e);
    XorLaws(x, h);
  }

  lemma TableMeansRoot(m: nat, x: seq<bv40>)
    requires IsTable(m, x)
    ensures Steps(m, G)
  {
    hide Eval, Xor, Shl5, Seed, Iter, Times;
    SeedTable();
    Coefficients();
    EvalSymbol(m, 1);
    HornerStep(m, 1, 19, H19, H, x[0]);
    HornerStep(m, 0x33, 3, H3, Xor(x[0], H19), x[1]);
    HornerStep(m, 0x663, 25, H25, Xor(x[1], H3), x[2]);
    HornerStep(m, 0xcc79, 11, H11, Xor(x[2], H25), x[3]);
    HornerStep(m, 0x19_8f2b, 25, H25, Xor(x[3], H11), x[4]);
    HornerStep(m, 0x331_e579, 3, H3, Xor(x[4], H25), x[5]);
    HornerStep(m, 0x663c_af23, 19, H19, Xor(x[5], H3), x[6]);
    GTimes();
  }

  lemma Inverse(m: nat, y: bv40, x: bv40)
    requires m <= 1025 && Iter(m, y) == x
    ensures Iter(1025 - m, x) == y
  {
    hide Iter;
    IterAdd(1025 - m, m, y);
    FullTurn(y);
  }

  lemma XorBack(a: bv40, b: bv40)
    ensures Xor(Xor(a, b), b) == a
  {
  }

  /** The table for the inverse of a root. */
  function Reverse(x: seq<bv40>): seq<bv40>
    requires |x| == 8
  {
    [Xor(x[6], H19), Xor(x[5], H3), Xor(x[4], H25), Xor(x[3], H11), Xor(x[2], H25), Xor(x[1], H3), Xor(x[0], H19), H]
  }

  /** g(x) reads the same backwards, so the inverse of a root is a root. */
  lemma Backwards(m: nat, x: seq<bv40>)
    requires m <= 1025 && IsTable(m, x)
    ensures IsTable(1025 - m, Reverse(x))
  {
    hide Xor, Iter;
    XorBack(x[6], H19);
    XorBack(x[5], H3);
    XorBack(x[4], H25);
    XorBack(x[3], H11);
    XorBack(x[2], H25);
    XorBack(x[1], H3);
    XorBack(x[0], H19);
    Inverse(m, Xor(x[6], H19), H);
    Inverse(m, Xor(x[5], H3), x[6]);
    Inverse(m, Xor(x[4], H25), x[5]);
    Inverse(m, Xor(x[3], H11), x[4]);
    Inverse(m, Xor(x[2], H25), x[3]);
    Inverse(m, Xor(x[1], H3), x[2]);
    Inverse(m, Xor(x[0], H19), x[1]);
    Inverse(m, H, x[0]);
  }

  function Times30(c: bv40): bv40 { Times5(Times25(c)) }
  function Times32(c: bv40): bv40 { Times2(Times30(c)) }

  lemma Times30Is(c: bv40)
    ensures Times30(c) == Iter(30, c)
  {
    hide Times5, Times25, Iter;
    Times25Is(c);
    Times5Is(Iter(25, c));
    IterAdd(5, 25, c);
  }

  lemma Times32Is(c: bv40)
    ensures Times32(c) == Iter(32, c)
  {
    hide Times2, Times30, Iter;
    Times30Is(c);
    FirstPowers(Iter(30, c));
    IterAdd(2, 30, c);
  }

  const X1: seq<bv40> := [0x3f0_fc20, 0x5956_5660, 0xb_2c4b_6c60, 0xfd_490d_b541,
                           0xb_2db5_93df, 0xfd_76d2_42a1, 0xc_c6af_56df, 0x1f_87e1]

  lemma Low1()
    ensures Times(0x1f_87e1) == 0x3f0_fc20
    ensures Times(0x2ca_b2b3) == 0x5956_5660
    ensures Times(0x5962_5b63) == 0xb_2c4b_6c60
    ensures Times(0xb_2ddd_89d9) == 0xfd_490d_b541
  {
  }

  lemma High1()
    ensures Times(0xfd_49be_998a) == 0xb_2db5_93df
    ensures Times(0xb_2c23_7666) == 0xfd_76d2_42a1
    ensures Times(0xfd_76e6_4fa2) == 0xc_c6af_56df
    ensures Times(0xc_c795_184c) == 0x1f_87e1
  {
  }

  lemma Table1()
    ensures IsTable(1, X1)
  {
    Sums1();
    hide Xor, Iter, Times;
    Low1();
    High1();
    FirstPowers(0x1f_87e1);
    FirstPowers(0x2ca_b2b3);
    FirstPowers(0x5962_5b63);
    FirstPowers(0xb_2ddd_89d9);
    FirstPowers(0xfd_49be_998a);
    FirstPowers(0xb_2c23_7666);
    FirstPowers(0xfd_76e6_4fa2);
    FirstPowers(0xc_c795_184c);
  }

  lemma Sums1()
    ensures Xor(X1[0], H19) == 0x2ca_b2b3
    ensures Xor(X1[1], H3) == 0x5962_5b63
    ensures Xor(X1[2], H25) == 0xb_2ddd_89d9
    ensures Xor(X1[3], H11) == 0xfd_49be_998a
    ensures Xor(X1[4], H25) == 0xb_2c23_7666
    ensures Xor(X1[5], H3) == 0xfd_76e6_4fa2
    ensures Xor(X1[6], H19) == 0xc_c795_184c
  {
  }

  const X30: seq<bv40> := [0x2a_4939_2e8d, 0x8_fce2_c634, 0xeb_4aec_9170, 0x71_5e3d_75dc,
                           0xcc_da8f_14b7, 0xf5_d298_2d4a, 0xaa_9be5_6824, 0x1f_87e1]

  lemma First30()
    ensures Times30(0x1f_87e1) == 0x2a_4939_2e8d
    ensures Times30(0x2a_4803_601e) == 0x8_fce2_c634
  {
  }

  lemma Second30()
    ensures Times30(0x8_fcd6_cb37) == 0xeb_4aec_9170
    ensures Times30(0xeb_4b7a_74c9) == 0x71_5e3d_75dc
  {
  }

  lemma Third30()
    ensures Times30(0x71_5e8e_5917) == 0xcc_da8f_14b7
    ensures Times30(0xcc_db19_f10e) == 0xf5_d298_2d4a
  {
  }

  lemma Fourth30()
    ensures Times30(0xf5_d2ac_2049) == 0xaa_9be5_6824
    ensures Times30(0xaa_9adf_26b7) == 0x1f_87e1
  {
  }

  lemma Table30()
    ensures IsTable(30, X30)
  {
    Sums30();
    hide Xor, Iter, Times30;
    First30();
    Second30();
    Third30();
    Fourth30();
    Times30Is(0x1f_87e1);
    Times30Is(0x2a_4803_601e);
    Times30Is(0x8_fcd6_cb37);
    Times30Is(0xeb_4b7a_74c9);
    Times30Is(0x71_5e8e_5917);
    Times30Is(0xcc_db19_f10e);
    Times30Is(0xf5_d2ac_2049);
    Times30Is(0xaa_9adf_26b7);
  }

  lemma Sums30()
    ensures Xor(X30[0], H19) == 0x2a_4803_601e
    ensures Xor(X30[1], H3) == 0x8_fcd6_cb37
    ensures Xor(X30[2], H25) == 0xeb_4b7a_74c9
    ensures Xor(X30[3], H11) == 0x71_5e8e_5917
    ensures Xor(X30[4], H25) == 0xcc_db19_f10e
    ensures Xor(X30[5], H3) == 0xf5_d2ac_2049
    ensures Xor(X30[6], H19) == 0xaa_9adf_26b7
  {
  }

  const X32: seq<bv40> := [0xae_4682_3364, 0xbc_e8dc_79f6, 0xac_6eeb_28ef, 0x62_9723_6c59,
                           0xac_6f15_d750, 0x41_c7c0_cb1e, 0xa2_8319_28b7, 0x1f_87e1]

  lemma First32()
    ensures Times32(0x1f_87e1) == 0xae_4682_3364
    ensures Times32(0xae_47b8_7df7) == 0xbc_e8dc_79f6
  {
  }

  lemma Second32()
    ensures Times32(0xbc_e8e8_74f5) == 0xac_6eeb_28ef
    ensures Times32(0xac_6f7d_cd56) == 0x62_9723_6c59
  {
  }

  lemma Third32()
    ensures Times32(0x62_9790_4092) == 0xac_6f15_d750
    ensures Times32(0xac_6e83_32e9) == 0x41_c7c0_cb1e
  {
  }

  lemma Fourth32()
    ensures Times32(0x41_c7f4_c61d) == 0xa2_8319_28b7
    ensures Times32(0xa2_8223_6624) == 0x1f_87e1
  {
  }

  lemma Table32()
    ensures IsTable(32, X32)
  {
    Sums32();
    hide Xor, Iter, Times32;
    First32();
    Second32();
    Third32();
    Fourth32();
    Times32Is(0x1f_87e1);
    Times32Is(0xae_47b8_7df7);
    Times32Is(0xbc_e8e8_74f5);
    Times32Is(0xac_6f7d_cd56);
    Times32Is(0x62_9790_4092);
    Times32Is(0xac_6e83_32e9);
    Times32Is(0x41_c7f4_c61d);
    Times32Is(0xa2_8223_6624);
  }

  lemma Sums32()
    ensures Xor(X32[0], H19) == 0xae_47b8_7df7
    ensures Xor(X32[1], H3) == 0xbc_e8e8_74f5
    ensures Xor(X32[2], H25) == 0xac_6f7d_cd56
    ensures Xor(X32[3], H11) == 0x62_9790_4092
    ensures Xor(X32[4], H25) == 0xac_6e83_32e9
    ensures Xor(X32[5], H3) == 0x41_c7f4_c61d
    ensures Xor(X32[6], H19) == 0xa2_8223_6624
  {
  }

  predicate IsRoot(m: nat) { m in {1, 30, 32, 993, 995, 1024} }

  lemma RootOf(m: nat, k: nat, x: seq<bv40>)
    requires k <= 1025 && IsTable(k, x) && (m == k || m == 1025 - k)
    ensures Steps(m, G)
  {
    hide Steps, IsTable;
    if m == k {
      TableMeansRoot(m, x);
    } else {
      IsLong(k, x);
      Backwards(k, x);
      TableMeansRoot(m, Reverse(x));
    }
  }

  lemma IsLong(m: nat, x: seq<bv40>)
    requires IsTable(m, x)
    ensures |x| == 8
  {
    hide Iter, Xor;
  }

  /** Six powers of x are roots of g(x). */
  lemma SixRoots(m: nat)
    requires IsRoot(m)
    ensures Steps(m, G)
  {
    hide Steps, IsTable;
    if m == 1 || m == 1024 {
      Table1();
      RootOf(m, 1, X1);
    } else if m == 30 || m == 995 {
      Table30();
      RootOf(m, 30, X30);
    } else {
      Table32();
      RootOf(m, 32, X32);
    }
  }

  // ----- four errors -----

  /** Four errors, or what has become of them, and how far from the end they are. */
  datatype Four = Four(a: bv40, b: bv40, c: bv40, d: bv40)
  datatype Places = Places(a: nat, b: nat, c: nat, d: nat)

  function Total(v: Four): bv40 { Xor(Xor(v.a, v.b), Xor(v.c, v.d)) }

  function Plus(v: Four, w: Four): Four { Four(Xor(v.a, w.a), Xor(v.b, w.b), Xor(v.c, w.c), Xor(v.d, w.d)) }

  /** Each by as many turns as its place says. */
  function Turned(m: nat, q: Places, v: Four): Four {
    Four(Turn(m, q.a, v.a), Turn(m, q.b, v.b), Turn(m, q.c, v.c), Turn(m, q.d, v.d))
  }

  function All(r: nat): Places { Places(r, r, r, r) }

  lemma TotalPlus(v: Four, w: Four)
    ensures Total(Plus(v, w)) == Xor(Total(v), Total(w))
  {
    hide Xor;
    Pairs(v.a, w.a, v.b, w.b);
    Pairs(v.c, w.c, v.d, w.d);
    Pairs(Xor(v.a, v.b), Xor(w.a, w.b), Xor(v.c, v.d), Xor(w.c, w.d));
  }

  lemma TurnLaws(m: nat, n: nat, q: nat, r: nat, a: bv40, b: bv40)
    ensures Turn(m, q, Xor(a, b)) == Xor(Turn(m, q, a), Turn(m, q, b))
    ensures Turn(m, q, Turn(n, r, a)) == Turn(n, r, Turn(m, q, a))
    ensures Turn(m, q, Turn(n, q, a)) == Turn(m + n, q, a)
  {
    hide Xor, Iter;
    IterLinear(m * q, a, b);
    IterSwap(m * q, n * r, a);
    Distribute(m, n, q);
    IterAdd(m * q, n * q, a);
  }

  lemma TurnZero(m: nat, q: nat)
    ensures Turn(m, q, 0) == 0
  {
    hide Iter;
    IterZero(m * q);
  }

  lemma {:induction false} TurnPeriod(m: nat, q: nat, a: bv40)
    ensures Turn(m + 1025, q, a) == Turn(m, q, a)
  {
    hide Turn, Iter;
    if q == 0 {
      TurnNone(m + 1025, a);
      TurnNone(m, a);
    } else {
      TurnPeriod(m, q - 1, a);
      TurnStep(m + 1025, q - 1, a);
      TurnStep(m, q - 1, a);
      var x := Turn(m, q - 1, a);
      IterAdd(m, 1025, x);
      FullTurn(x);
    }
  }

  lemma TurnTotal(m: nat, r: nat, v: Four)
    ensures Total(Turned(m, All(r), v)) == Turn(m, r, Total(v))
  {
    hide Xor, Turn;
    TurnLaws(m, m, r, r, v.a, v.b);
    TurnLaws(m, m, r, r, v.c, v.d);
    TurnLaws(m, m, r, r, Xor(v.a, v.b), Xor(v.c, v.d));
  }

  /** How far the turns by places differ from equal turns; an error at place `r` drops out. */
  function Apart(m: nat, q: Places, r: nat, v: Four): Four { Plus(Turned(m, q, v), Turned(m, All(r), v)) }

  lemma Eliminate(m: nat, q: Places, r: nat, v: Four)
    requires Total(v) == 0 && Total(Turned(m, q, v)) == 0
    ensures Total(Apart(m, q, r, v)) == 0
  {
    hide Xor, Turn, Total, Plus, Turned;
    TotalPlus(Turned(m, q, v), Turned(m, All(r), v));
    TurnTotal(m, r, v);
    TurnZero(m, r);
    XorLaws(0, 0);
  }

  lemma TurnedTwice(m: nat, n: nat, q: Places, v: Four)
    ensures Turned(m, q, Turned(n, q, v)) == Turned(m + n, q, v)
  {
    hide Turn;
    TurnLaws(m, n, q.a, q.a, v.a, v.a);
    TurnLaws(m, n, q.b, q.b, v.b, v.b);
    TurnLaws(m, n, q.c, q.c, v.c, v.c);
    TurnLaws(m, n, q.d, q.d, v.d, v.d);
  }

  lemma TurnedPeriod(m: nat, q: Places, v: Four)
    ensures Turned(m + 1025, q, v) == Turned(m, q, v)
  {
    hide Turn;
    TurnPeriod(m, q.a, v.a);
    TurnPeriod(m, q.b, v.b);
    TurnPeriod(m, q.c, v.c);
    TurnPeriod(m, q.d, v.d);
  }

  function OneApart(m: nat, q: nat, r: nat, v: bv40): bv40 { Xor(Turn(m, q, v), Turn(m, r, v)) }

  lemma OneApartTurned(n: nat, m: nat, q: nat, r: nat, v: bv40)
    ensures Turn(n, q, OneApart(m, q, r, v)) == OneApart(m, q, r, Turn(n, q, v))
  {
    hide Xor, Turn;
    TurnLaws(n, m, q, q, Turn(m, q, v), Turn(m, r, v));
    TurnLaws(n, m, q, q, v, v);
    TurnLaws(n, m, q, r, v, v);
  }

  lemma ApartTurned(n: nat, m: nat, q: Places, r: nat, v: Four)
    ensures Turned(n, q, Apart(m, q, r, v)) == Apart(m, q, r, Turned(n, q, v))
  {
    hide Xor, Turn;
    OneApartTurned(n, m, q.a, r, v.a);
    OneApartTurned(n, m, q.b, r, v.b);
    OneApartTurned(n, m, q.c, r, v.c);
    OneApartTurned(n, m, q.d, r, v.d);
  }

  /** One elimination in a run of sums. */
  lemma EliminateTurned(n: nat, m: nat, q: Places, r: nat, v: Four)
    requires Total(Turned(n, q, v)) == 0 && Total(Turned(m + n, q, v)) == 0
    ensures Total(Turned(n, q, Apart(m, q, r, v))) == 0
  {
    hide Total, Turned, Apart;
    TurnedTwice(m, n, q, v);
    ApartTurned(n, m, q, r, v);
    Eliminate(m, q, r, Turned(n, q, v));
  }

  function Seeds(e: Four): Four { Four(Seed(e.a), Seed(e.b), Seed(e.c), Seed(e.d)) }

  /** What four errors do to the checksum. */
  function Effect(q: Places, e: Four): Four { Four(Iter(q.a, e.a), Iter(q.b, e.b), Iter(q.c, e.c), Iter(q.d, e.d)) }

  predicate AreSymbols(e: Four) { e.a < 32 && e.b < 32 && e.c < 32 && e.d < 32 }

  lemma EvalTotal(m: nat, v: Four, k: nat)
    ensures Eval(m, Total(v), k) == Total(Four(Eval(m, v.a, k), Eval(m, v.b, k), Eval(m, v.c, k), Eval(m, v.d, k)))
  {
    hide Eval, Xor;
    EvalLinear(m, v.a, v.b, k);
    EvalLinear(m, v.c, v.d, k);
    EvalLinear(m, Xor(v.a, v.b), Xor(v.c, v.d), k);
  }

  /** Errors that cancel in the checksum cancel at every root. */
  lemma CancelAtRoot(m: nat, q: Places, e: Four)
    requires IsRoot(m) && AreSymbols(e) && Total(Effect(q, e)) == 0
    ensures Total(Turned(m, q, Seeds(e))) == 0
  {
    hide Eval, Steps, Turn, Seed, Iter, Total, IsRoot;
    SixRoots(m);
    EvalTotal(m, Effect(q, e), 8);
    EvalZero(m, 8);
    EvalPower(m, q.a, e.a);
    EvalPower(m, q.b, e.b);
    EvalPower(m, q.c, e.c);
    EvalPower(m, q.d, e.d);
  }

  /** The sums over the six roots, relative to the lowest one. */
  ghost predicate SumsVanish(q: Places, y: Four) {
    Total(y) == 0 && forall m: nat | m in {31, 62, 2, 33, 64} :: Total(Turned(m, q, y)) == 0
  }

  lemma RelativeSum(m: nat, a: nat, n: nat, q: Places, e: Four)
    requires IsRoot(n) && AreSymbols(e) && Total(Effect(q, e)) == 0 && (m + a == n || m + a == n + 1025)
    ensures Total(Turned(m, q, Turned(a, q, Seeds(e)))) == 0
  {
    hide Total, Effect, Turned, Seeds, AreSymbols, IsRoot;
    CancelAtRoot(n, q, e);
    TurnedTwice(m, a, q, Seeds(e));
    TurnedPeriod(n, q, Seeds(e));
  }

  lemma SixSums(a: nat, q: Places, e: Four)
    requires a == 993 && AreSymbols(e) && Total(Effect(q, e)) == 0
    ensures SumsVanish(q, Turned(a, q, Seeds(e)))
  {
    hide Total, Effect, Turned, Seeds, AreSymbols;
    CancelAtRoot(a, q, e);
    forall m: nat | m in {31, 62, 2, 33, 64} ensures Total(Turned(m, q, Turned(a, q, Seeds(e)))) == 0 {
      RelativeSum(m, a, if m + a < 1025 then m + a else m + a - 1025, q, e);
    }
  }

  /** 2 and 31 have no factor in common with 1025. */
  lemma Coprime(m: nat, d: nat)
    requires (m == 2 || m == 31) && m * d % 1025 == 0
    ensures d % 1025 == 0
  {
    var k := m * d / 1025;
    if m == 2 {
      assert d == 1025 * (513 * k - d);
      MultipleMod(1025, 513 * k - d);
    } else {
      assert d == 1025 * (496 * k - 15 * d);
      MultipleMod(1025, 496 * k - 15 * d);
    }
  }

  lemma TurnApart(m: nat, q: nat, d: nat, v: bv40)
    requires InField(v) && v != 0 && (m == 2 || m == 31) && Turn(m, q + d, v) == Turn(m, q, v)
    ensures d % 1025 == 0
  {
    hide Iter, Xor, InField;
    Distribute(q, d, m);
    assert m * (q + d) == m * q + m * d;
    IterAdd(m * q, m * d, v);
    var w := Iter(m * d, v);
    IterLinear(m * q, w, v);
    XorZero(Iter(m * q, w), Iter(m * q, v));
    if Xor(w, v) != 0 {
      IterNonzero(m * q, Xor(w, v));
    }
    XorZero(w, v);
    FieldOrder(v, m * d);
    Coprime(m, d);
  }

  /** Places apart do not drop out. */
  lemma StaysApart(m: nat, q: nat, r: nat, v: bv40)
    requires InField(v) && (m == 2 || m == 31) && (q - r) % 1025 != 0 && OneApart(m, q, r, v) == 0
    ensures v == 0
  {
    hide InField, Xor, Turn;
    XorZero(Turn(m, q, v), Turn(m, r, v));
    if v != 0 {
      if q >= r {
        TurnApart(m, r, q - r, v);
      } else {
        TurnApart(m, q, r - q, v);
      }
    }
  }

  lemma ApartInField(m: nat, q: nat, r: nat, v: bv40)
    requires InField(v)
    ensures InField(OneApart(m, q, r, v))
  {
    hide InField, Xor, Iter;
    FieldLaws(v, v, m * q, 0);
    FieldLaws(v, v, m * r, 0);
    FieldLaws(Turn(m, q, v), Turn(m, r, v), 0, 0);
  }

  lemma OneApartZero(m: nat, q: nat, r: nat, v: bv40)
    requires q == r || v == 0
    ensures OneApart(m, q, r, v) == 0
  {
    hide Xor, Turn;
    TurnZero(m, q);
    TurnZero(m, r);
    XorLaws(Turn(m, q, v), Turn(m, q, v));
  }

  lemma OnlyOne(v: Four)
    requires Total(v) == 0 && v.b == 0 && v.c == 0 && v.d == 0
    ensures v.a == 0
  {
    hide Xor;
    XorLaws(0, 0);
    XorLaws(v.a, 0);
  }

  lemma ApartIs(m: nat, q: Places, r: nat, v: Four)
    ensures Apart(m, q, r, v) == Four(OneApart(m, q.a, r, v.a), OneApart(m, q.b, r, v.b), OneApart(m, q.c, r, v.c),
                                      OneApart(m, q.d, r, v.d))
  {
    hide Xor, Turn;
  }

  lemma OneSum(m: nat, q: Places, y: Four)
    requires SumsVanish(q, y) && m in {31, 62, 2, 33, 64}
    ensures Total(y) == 0 && Total(Turned(m, q, y)) == 0
  {
    hide Total, Turned;
  }

  /** The other three errors, eliminated one by one, leave nothing to cancel the first. */
  lemma FirstDropsOut(q: Places, y: Four)
    requires SumsVanish(q, y)
    ensures OneApart(31, q.a, q.b, OneApart(31, q.a, q.c, OneApart(2, q.a, q.d, y.a))) == 0
  {
    hide Total, Turned, Apart, OneApart, SumsVanish;
    var z := Apart(2, q, q.d, y);
    OneSum(2, q, y);
    Eliminate(2, q, q.d, y);
    OneSum(31, q, y);
    OneSum(33, q, y);
    EliminateTurned(31, 2, q, q.d, y);
    OneSum(62, q, y);
    OneSum(64, q, y);
    EliminateTurned(62, 2, q, q.d, y);
    ApartIs(2, q, q.d, y);
    OneApartZero(2, q.d, q.d, y.d);
    TwoMoreDropOut(q, z);
  }

  lemma TwoMoreDropOut(q: Places, z: Four)
    requires z.d == 0 && Total(z) == 0 && Total(Turned(31, q, z)) == 0 && Total(Turned(62, q, z)) == 0
    ensures OneApart(31, q.a, q.b, OneApart(31, q.a, q.c, z.a)) == 0
  {
    hide Total, Turned, Apart, OneApart;
    var w := Apart(31, q, q.c, z);
    Eliminate(31, q, q.c, z);
    EliminateTurned(31, 31, q, q.c, z);
    ApartIs(31, q, q.c, z);
    OneApartZero(31, q.d, q.c, z.d);
    OneApartZero(31, q.c, q.c, z.c);
    var u := Apart(31, q, q.b, w);
    Eliminate(31, q, q.b, w);
    ApartIs(31, q, q.b, w);
    OneApartZero(31, q.d, q.b, w.d);
    OneApartZero(31, q.c, q.b, w.c);
    OneApartZero(31, q.b, q.b, w.b);
    OnlyOne(u);
  }

  lemma TurnInField(m: nat, q: nat, v: bv40)
    requires InField(v)
    ensures InField(Turn(m, q, v)) && (Turn(m, q, v) == 0 ==> v == 0)
  {
    hide InField, Iter;
    FieldLaws(v, v, m * q, 0);
    if v != 0 {
      IterNonzero(m * q, v);
    }
  }

  lemma FirstTurned(m: nat, q: Places, e: Four)
    ensures Turned(m, q, Seeds(e)).a == Turn(m, q.a, Seed(e.a))
  {
    hide Turn, Seed;
  }

  /** Of four errors that cancel, one that is apart from the others is none. */
  lemma FirstIsNone(q: Places, e: Four)
    requires AreSymbols(e) && Total(Effect(q, e)) == 0
    requires (q.a - q.b) % 1025 != 0 && (q.a - q.c) % 1025 != 0 && (q.a - q.d) % 1025 != 0
    ensures e.a == 0
  {
    hide Total, Turned, Turn, OneApart, InField, Effect, Seeds, Seed, SumsVanish;
    var m: nat := 993;
    var y := Turned(m, q, Seeds(e));
    SixSums(m, q, e);
    FirstDropsOut(q, y);
    FirstTurned(m, q, e);
    SeedInField(e.a);
    TurnInField(m, q.a, Seed(e.a));
    var z := OneApart(2, q.a, q.d, y.a);
    ApartInField(2, q.a, q.d, y.a);
    var w := OneApart(31, q.a, q.c, z);
    ApartInField(31, q.a, q.c, z);
    StaysApart(31, q.a, q.b, w);
    StaysApart(31, q.a, q.c, z);
    StaysApart(2, q.a, q.d, y.a);
  }

  // ----- wrong symbols in a sequence -----

  /** One symbol as in `w`, if there is one at `p`. */
  function Repaired(v: Digits, w: Digits, p: nat): (r: Digits)
    requires |v| == |w|
    ensures |r| == |v|
  {
    if p < |v| then v[p := w[p]] else v
  }

  function WrongBy(v: Digits, w: Digits, p: nat): bv40
    requires |v| == |w| && Below(32, v) && Below(32, w)
  {
    if p < |v| then Xor(Bits(v[p]), Bits(w[p])) else 0
  }

  /** The number of symbols behind `p`, or `other` if there is no symbol at `p`. */
  function BehindPlace(v: Digits, p: nat, other: nat): nat { if p < |v| then |v| - 1 - p else other }

  lemma WrongIsSymbol(v: Digits, w: Digits, p: nat)
    requires |v| == |w| && Below(32, v) && Below(32, w)
    ensures WrongBy(v, w, p) < 32
    ensures p < |v| && WrongBy(v, w, p) == 0 ==> v[p] == w[p]
  {
    hide Xor, Bits;
    if p < |v| {
      SmallBits(v[p]);
      SmallBits(w[p]);
      XorSmall(Bits(v[p]), Bits(w[p]));
      XorZero(Bits(v[p]), Bits(w[p]));
      if Bits(v[p]) == Bits(w[p]) {
        BitsApart(v[p], w[p]);
      }
    }
  }

  lemma OneWrong(c: bv40, front: Digits, a: nat, b: nat, back: Digits)
    requires Below(256, front) && Below(256, back) && a < 256 && b < 256
    ensures Below(256, front + [a] + back) && Below(256, front + [b] + back)
    ensures Xor(Fold(c, front + [a] + back), Fold(c, front + [b] + back)) == Iter(|back|, Xor(Bits(a), Bits(b)))
  {
    hide Xor, Bits, Iter, Step, Fold, Times;
    FoldConcat(c, front + [a], back);
    FoldConcat(c, front + [b], back);
    LastSymbol(c, front, a);
    LastSymbol(c, front, b);
    var s := Fold(c, front);
    FoldDifference(Step(s, a), Step(s, b), back);
    StepDifference(s, s, a, b);
    XorLaws(s, s);
    ZeroTimes();
    XorLaws(0, Xor(Bits(a), Bits(b)));
    XorLaws(Xor(Bits(a), Bits(b)), 0);
  }

  lemma AllRepaired(v: Digits, w: Digits, p: Places)
    requires |v| == |w|
    requires forall k | 0 <= k < |v| && v[k] != w[k] :: k == p.a || k == p.b || k == p.c || k == p.d
    ensures Repaired(Repaired(Repaired(Repaired(v, w, p.a), w, p.b), w, p.c), w, p.d) == w
  {
  }

  /** What repairing one symbol changes. */
  lemma RepairChanges(c: bv40, v: Digits, w: Digits, p: nat, other: nat)
    requires |v| == |w| && Below(32, v) && Below(32, w)
    ensures Below(32, Repaired(v, w, p))
    ensures Xor(Fold(c, v), Fold(c, Repaired(v, w, p))) == Iter(BehindPlace(v, p, other), WrongBy(v, w, p))
  {
    hide Xor, Bits, Iter, Fold;
    if p < |v| {
      var front, back := v[..p], v[p + 1..];
      assert v == front + [v[p]] + back;
      assert Repaired(v, w, p) == front + [w[p]] + back;
      OneWrong(c, front, v[p], w[p], back);
    } else {
      XorLaws(Fold(c, v), Fold(c, v));
      IterZero(other);
    }
  }

  lemma Telescope(a: bv40, b: bv40, c: bv40, d: bv40, e: bv40)
    ensures Total(Four(Xor(a, b), Xor(b, c), Xor(c, d), Xor(d, e))) == Xor(a, e)
  {
    hide Xor;
    Join(a, b, c);
    Join(c, d, e);
    Join(a, c, e);
  }

  lemma Join(a: bv40, b: bv40, c: bv40)
    ensures Xor(Xor(a, b), Xor(b, c)) == Xor(a, c)
  {
    hide Xor;
    XorAssoc(a, b, Xor(b, c));
    XorLaws(b, c);
  }

  /** How far from the end four places are; those that are none count as next to the first. */
  function BehindPlaces(v: Digits, p: Places): Places
    requires p.a < |v|
  {
    var o := |v| - p.a;
    Places(BehindPlace(v, p.a, o), BehindPlace(v, p.b, o), BehindPlace(v, p.c, o), BehindPlace(v, p.d, o))
  }

  /** The errors at four places, repaired one after the other. */
  lemma ErrorsCancel(c: bv40, v: Digits, w: Digits, p: Places) returns (e: Four)
    requires |v| == |w| && Below(32, v) && Below(32, w) && Fold(c, v) == Fold(c, w) && p.a < |v|
    requires forall k | 0 <= k < |v| && v[k] != w[k] :: k == p.a || k == p.b || k == p.c || k == p.d
    ensures AreSymbols(e) && e.a == WrongBy(v, w, p.a) && Total(Effect(BehindPlaces(v, p), e)) == 0
  {
    hide Fold, Xor, Iter, Total, WrongBy, Repaired;
    var o := |v| - p.a;
    var v1 := Repaired(v, w, p.a);
    RepairChanges(c, v, w, p.a, o);
    var v2 := Repaired(v1, w, p.b);
    RepairChanges(c, v1, w, p.b, o);
    var v3 := Repaired(v2, w, p.c);
    RepairChanges(c, v2, w, p.c, o);
    var v4 := Repaired(v3, w, p.d);
    RepairChanges(c, v3, w, p.d, o);
    AllRepaired(v, w, p);
    Telescope(Fold(c, v), Fold(c, v1), Fold(c, v2), Fold(c, v3), Fold(c, v4));
    XorLaws(Fold(c, v), Fold(c, v));
    e := Four(WrongBy(v, w, p.a), WrongBy(v1, w, p.b), WrongBy(v2, w, p.c), WrongBy(v3, w, p.d));
    WrongIsSymbol(v, w, p.a);
    WrongIsSymbol(v1, w, p.b);
    WrongIsSymbol(v2, w, p.c);
    WrongIsSymbol(v3, w, p.d);
  }

  /** If all wrong symbols are at four places, the first of which is apart from the others, it is right. */
  lemma FirstIsRight(c: bv40, v: Digits, w: Digits, p: Places)
    requires |v| == |w| && Below(32, v) && Below(32, w) && Fold(c, v) == Fold(c, w)
    requires forall k | 0 <= k < |v| && v[k] != w[k] :: k == p.a || k == p.b || k == p.c || k == p.d
    requires p.a < |v| && Clear(v, p.a, p.b) && Clear(v, p.a, p.c) && Clear(v, p.a, p.d)
    ensures v[p.a] == w[p.a]
  {
    hide Fold, Effect, Total, WrongBy, BehindPlaces;
    var e := ErrorsCancel(c, v, w, p);
    WrongIsSymbol(v, w, p.a);
    StayClear(v, p);
    FirstIsNone(BehindPlaces(v, p), e);
  }

  lemma StayClear(v: Digits, p: Places)
    requires p.a < |v| && Clear(v, p.a, p.b) && Clear(v, p.a, p.c) && Clear(v, p.a, p.d)
    ensures var q := BehindPlaces(v, p);
            (q.a - q.b) % 1025 != 0 && (q.a - q.c) % 1025 != 0 && (q.a - q.d) % 1025 != 0
  {
    ClearOnce(v, p.a, p.b);
    ClearOnce(v, p.a, p.c);
    ClearOnce(v, p.a, p.d);
  }

  lemma ClearOnce(v: Digits, p: nat, r: nat)
    requires p < |v| && Clear(v, p, r)
    ensures (BehindPlace(v, p, |v| - p) - BehindPlace(v, r, |v| - p)) % 1025 != 0
  {
  }

  /** No place, or not a multiple of 1025 symbols away. */
  predicate Clear(v: Digits, p: nat, r: nat) { r >= |v| || (p - r) % 1025 != 0 }

  ghost function Wrong(v: Digits, w: Digits): set<nat>
    requires |v| == |w|
  {
    set k: nat | k < |v| && v[k] != w[k]
  }

  /** Lists up to three places, filled up with `none`. */
  lemma UpToThree(s: set<nat>, none: nat) returns (a: nat, b: nat, c: nat)
    requires |s| <= 3
    ensures forall p | p in s :: p == a || p == b || p == c
    ensures (a in s || a == none) && (b in s || b == none) && (c in s || c == none)
  {
    a, b, c := none, none, none;
    if s != {} {
      a :| a in s;
      var t := s - {a};
      if t != {} {
        b :| b in t;
        var u := t - {b};
        if u != {} {
          c :| c in u;
          assert |u - {c}| == 0;
          assert u == {c};
        }
        assert t == u + {b};
      }
      assert s == t + {a};
    }
  }

  lemma FourErrorsFound(c: bv40, v: Digits, w: Digits)
    requires |v| == |w| && Below(32, v) && Below(32, w) && Fold(c, v) == Fold(c, w)
    requires |Wrong(v, w)| <= 4 && forall p, r | p in Wrong(v, w) && r in Wrong(v, w) :: p - r < 1025
    ensures v == w
  {
    hide Fold;
    if k :| 0 <= k < |v| && v[k] != w[k] {
      assert k in Wrong(v, w);
      var b, d, e := UpToThree(Wrong(v, w) - {k}, |v|);
      forall i | 0 <= i < |v| && v[i] != w[i] ensures i == k || i == b || i == d || i == e {
        assert i == k || i in Wrong(v, w) - {k};
      }
      FirstIsRight(c, v, w, Places(k, b, d, e));
    }
  }

  /** Up to four wrong symbols within 1025 in a row never go unnoticed. */
  lemma FourErrorsDetected(prefix: string, v: Digits, w: Digits)
    requires |v| == |w| && Below(32, v) && Below(32, w) && v != w
    requires |Wrong(v, w)| <= 4 && forall p, r | p in Wrong(v, w) && r in Wrong(v, w) :: p - r < 1025
    ensures !(Verifies(prefix, v) && Verifies(prefix, w))
  {
    hide Fold, Wrong;
    FoldConcat(1, Expand(prefix), v);
    FoldConcat(1, Expand(prefix), w);
    if Verifies(prefix, v) && Verifies(prefix, w) {
      FourErrorsFound(Fold(1, Expand(prefix)), v, w);
    }
  }
}
