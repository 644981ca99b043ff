/**
 The CashAddr code: a checksum over GF(32) packed into 40 bits, and the strings that carry it. The
 checksum step is linear, which gives the round trips and the detection of bursts of errors.
 */
module CashAddr {
  import opened Digits

  // ----- the checksum step -----

  // Later proofs hide these functions and use only their laws.
  function Xor(a: bv40, b: bv40): bv40 { a ^ b }

  function Up(c: bv40): bv40 { (c & 0x07ff_ffff_ff) << 5 }

  /** Whether bit `m` of the leading coefficient is set. */
  predicate Lead(c: bv40, m: bv40) { (c >> 35) & m != 0 }

  function Pick(c: bv40, m: bv40, k: bv40): bv40 { if Lead(c, m) then k else 0 }

  lemma XorLaws(a: bv40, b: bv40)
    ensures Xor(a, b) == Xor(b, a) && Xor(a, 0) == a && Xor(a, a) == 0
    ensures Xor(a, Xor(a, b)) == b
  {
  }

  lemma XorAssoc(a: bv40, b: bv40, c: bv40)
    ensures Xor(a, Xor(b, c)) == Xor(Xor(a, b), c)
  {
  }

  lemma Pairs(a: bv40, b: bv40, c: bv40, d: bv40)
    ensures Xor(Xor(a, b), Xor(c, d)) == Xor(Xor(a, c), Xor(b, d))
  {
    hide Xor;
    XorAssoc(a, b, Xor(c, d));
    XorAssoc(b, c, d);
    XorLaws(b, c);
    XorAssoc(c, b, d);
    XorAssoc(a, c, Xor(b, d));
  }

  lemma UpLinear(a: bv40, b: bv40)
    ensures Up(Xor(a, b)) == Xor(Up(a), Up(b))
  {
  }

  predicate IsBit(m: bv40) { m == 1 || m == 2 || m == 4 || m == 8 || m == 16 }

  lemma LeadRaw(a: bv40, b: bv40, m: bv40)
    requires IsBit(m)
    ensures Lead(a ^ b, m) <==> Lead(a, m) != Lead(b, m)
  {
  }

  lemma LeadLinear(a: bv40, b: bv40, m: bv40)
    requires IsBit(m)
    ensures Lead(Xor(a, b), m) <==> Lead(a, m) != Lead(b, m)
  {
    hide Lead, IsBit;
    LeadRaw(a, b, m);
  }

  lemma PickLinear(a: bv40, b: bv40, m: bv40, k: bv40)
    requires IsBit(m)
    ensures Pick(Xor(a, b), m, k) == Xor(Pick(a, m, k), Pick(b, m, k))
  {
    hide Lead, Xor, IsBit;
    LeadLinear(a, b, m);
    XorLaws(k, 0);
    XorLaws(0, 0);
  }

  const K1: bv40 := 0x98f2_bc8e_61
  const K2: bv40 := 0x79b7_6d99_e2
  const K4: bv40 := 0xf33e_5fb3_c4
  const K8: bv40 := 0xae2e_abe2_a8
  const K16: bv40 := 0x1e4f_43e4_70

  /** The multiples of k(x) that the leading coefficient calls for. */
  function Reduce(c: bv40): bv40 {
    Xor(Xor(Xor(Pick(c, 1, K1), Pick(c, 2, K2)), Xor(Pick(c, 4, K4), Pick(c, 8, K8))), Pick(c, 16, K16))
  }

  /** c(x) times x modulo g(x). */
  function Times(c: bv40): bv40 { Xor(Up(c), Reduce(c)) }

  lemma ReduceLinear(a: bv40, b: bv40)
    ensures Reduce(Xor(a, b)) == Xor(Reduce(a), Reduce(b))
  {
    hide Xor, Pick;
    PickLinear(a, b, 1, K1);
    PickLinear(a, b, 2, K2);
    PickLinear(a, b, 4, K4);
    PickLinear(a, b, 8, K8);
    PickLinear(a, b, 16, K16);
    Pairs(Pick(a, 1, K1), Pick(b, 1, K1), Pick(a, 2, K2), Pick(b, 2, K2));
    Pairs(Pick(a, 4, K4), Pick(b, 4, K4), Pick(a, 8, K8), Pick(b, 8, K8));
    var a1, b1 := Xor(Pick(a, 1, K1), Pick(a, 2, K2)), Xor(Pick(b, 1, K1), Pick(b, 2, K2));
    var a2, b2 := Xor(Pick(a, 4, K4), Pick(a, 8, K8)), Xor(Pick(b, 4, K4), Pick(b, 8, K8));
    Pairs(a1, b1, a2, b2);
    Pairs(Xor(a1, a2), Xor(b1, b2), Pick(a, 16, K16), Pick(b, 16, K16));
  }

  lemma TimesLinear(a: bv40, b: bv40)
    ensures Times(Xor(a, b)) == Xor(Times(a), Times(b))
  {
    hide Xor, Up, Reduce;
    UpLinear(a, b);
    ReduceLinear(a, b);
    Pairs(Up(a), Up(b), Reduce(a), Reduce(b));
  }

  /** Five bits further up, as long as nothing falls off the end. */
  function Shl5(x: bv40): bv40 { x << 5 }

  const TOP: bv40 := 0x0800_0000_00

  lemma TimesSmall(x: bv40)
    requires x < TOP
    ensures Times(x) == Shl5(x)
  {
  }

  /** The lowest coefficient of the product is the leading one of the factor, so nothing is lost. */
  lemma TimesInjective(x: bv40)
    requires Times(x) == 0
    ensures x == 0
  {
  }

  // ----- the checksum of a sequence -----

  /** A byte as a polynomial of degree zero. */
  function Bits(d: nat): bv40
    requires d < 256
  {
    (d as bv8) as bv40
  }

  function Step(c: bv40, d: nat): bv40
    requires d < 256
  {
    Xor(Times(c), Bits(d))
  }

  function Fold(c: bv40, v: Digits): bv40
    requires Below(256, v)
  {
    if v == [] then c else Step(Fold(c, v[..|v| - 1]), v[|v| - 1])
  }

  lemma OneSymbol(c: bv40, a: nat)
    requires a < 256
    ensures Fold(c, [a]) == Step(c, a)
  {
    assert [a][..0] == [];
  }

  lemma {:induction false} FoldConcat(c: bv40, v: Digits, w: Digits)
    requires Below(256, v) && Below(256, w)
    ensures Fold(c, v + w) == Fold(Fold(c, v), w)
  {
    hide Step;
    if w == [] {
      assert v + w == v;
    } else {
      var n := |w| - 1;
      FoldConcat(c, v, w[..n]);
      assert (v + w)[..|v + w| - 1] == v + w[..n];
    }
  }

  /** The body of the PolyMod loop. */
  method PolyStep(c: bv40, d: bv40) returns (r: bv40)
    ensures r == Xor(Times(c), d)
  {
    hide Up, Lead, Xor, Times;
    StepSums(c, d);
    r := Xor(Up(c), d);
    if Lead(c, 0x01) { r := Xor(r, K1); }
    if Lead(c, 0x02) { r := Xor(r, K2); }
    if Lead(c, 0x04) { r := Xor(r, K4); }
    if Lead(c, 0x08) { r := Xor(r, K8); }
    if Lead(c, 0x10) { r := Xor(r, K16); }
  }

  method PolyMod(v: Digits) returns (c: bv40)
    requires Below(256, v)
    ensures c == Fold(1, v)
  {
    hide Xor, Bits, Times;
    c := 1;
    for i := 0 to |v|
      invariant c == Fold(1, v[..i])
    {
      assert v[..i + 1][..i] == v[..i];
      c := PolyStep(c, Bits(v[i]));
    }
    assert v[..|v|] == v;
  }

  function When(on: bool, k: bv40, c: bv40): bv40 { if on then Xor(c, k) else c }

  /** Adding the multiples of k(x) one by one comes to the same. */
  lemma StepSums(c: bv40, d: bv40)
    ensures When(Lead(c, 16), K16, When(Lead(c, 8), K8, When(Lead(c, 4), K4,
              When(Lead(c, 2), K2, When(Lead(c, 1), K1, Xor(Up(c), d)))))) == Xor(Times(c), d)
  {
    hide Xor, Lead, Up;
    var u := Xor(Up(c), d);
    forall x: bv40 ensures Xor(x, 0) == x { XorLaws(x, 0); }
    var p1, p2, p4, p8, p16 := Pick(c, 1, K1), Pick(c, 2, K2), Pick(c, 4, K4), Pick(c, 8, K8), Pick(c, 16, K16);
    hide Pick, When;
    assert When(Lead(c, 1), K1, u) == Xor(u, p1) by { WhenIs(c, 1, K1, u); }
    var u1 := Xor(u, p1);
    assert When(Lead(c, 2), K2, u1) == Xor(u1, p2) by { WhenIs(c, 2, K2, u1); }
    var u2 := Xor(u1, p2);
    assert When(Lead(c, 4), K4, u2) == Xor(u2, p4) by { WhenIs(c, 4, K4, u2); }
    var u4 := Xor(u2, p4);
    assert When(Lead(c, 8), K8, u4) == Xor(u4, p8) by { WhenIs(c, 8, K8, u4); }
    var u8 := Xor(u4, p8);
    assert When(Lead(c, 16), K16, u8) == Xor(u8, p16) by { WhenIs(c, 16, K16, u8); }
    XorAssoc(u, p1, p2);
    XorAssoc(u2, p4, p8);
    XorAssoc(u, Xor(p1, p2), Xor(p4, p8));
    XorAssoc(u, Xor(Xor(p1, p2), Xor(p4, p8)), p16);
    var r := Reduce(c);
    XorAssoc(Up(c), d, r);
    XorLaws(d, r);
    XorAssoc(Up(c), r, d);
  }

  lemma WhenIs(c: bv40, m: bv40, k: bv40, x: bv40)
    ensures When(Lead(c, m), k, x) == Xor(x, Pick(c, m, k))
  {
    hide Xor, Lead;
    XorLaws(x, 0);
  }

  // ----- the last eight symbols -----

  /** Up to eight symbols side by side. */
  function Pack(w: Digits): bv40
    requires Below(256, w)
  {
    if w == [] then 0 else Xor(Shl5(Pack(w[..|w| - 1])), Bits(w[|w| - 1]))
  }

  /** 32 to the power `n`. */
  function Limit(n: nat): bv40
    requires n <= 7
  {
    if n == 0 then 1 else if n == 1 then 0x20 else if n == 2 then 0x400 else if n == 3 then 0x8000
    else if n == 4 then 0x10_0000 else if n == 5 then 0x200_0000 else if n == 6 then 0x4000_0000 else TOP
  }

  lemma LimitStep(x: bv40, d: bv40, n: nat)
    requires n < 7 && x < Limit(n) && d < 32
    ensures Xor(Shl5(x), d) < Limit(n + 1)
  {
  }

  lemma SmallBits(d: nat)
    requires d < 32
    ensures Bits(d) < 32
  {
  }

  lemma {:induction false} PackSmall(w: Digits)
    requires |w| <= 7 && Below(32, w)
    ensures Pack(w) < Limit(|w|) <= TOP
  {
    hide Xor, Shl5, Bits;
    assert Limit(|w|) <= TOP;
    if w != [] {
      var n := |w| - 1;
      PackSmall(w[..n]);
      SmallBits(w[n]);
      hide Limit;
      LimitStep(Pack(w[..n]), Bits(w[n]), n);
    }
  }

  /** The checksum is linear in the last eight symbols. */
  lemma {:induction false} FoldSplit(c: bv40, w: Digits)
    requires |w| <= 8 && Below(32, w)
    ensures Fold(c, w) == Xor(Fold(c, Zeros(|w|)), Pack(w))
  {
    hide Xor, Times, Bits, Shl5;
    if w == [] {
      XorLaws(c, 0);
    } else {
      var n := |w| - 1;
      var v, d := w[..n], Bits(w[n]);
      FoldSplit(c, v);
      PackSmall(v);
      TimesSmall(Pack(v));
      var z := Fold(c, Zeros(n));
      assert Zeros(|w|)[..n] == Zeros(n);
      ZeroBits();
      XorLaws(Times(z), 0);
      TimesLinear(z, Pack(v));
      XorAssoc(Times(z), Shl5(Pack(v)), d);
    }
  }

  lemma ZeroBits()
    ensures Bits(0) == 0
  {
  }

  lemma ShiftApart(x: bv40, y: bv40, d: bv40, e: bv40)
    requires x < TOP && y < TOP && d < 32 && e < 32 && Xor(Shl5(x), d) == Xor(Shl5(y), e)
    ensures x == y && d == e
  {
  }

  lemma BitsApart(d: nat, e: nat)
    requires d < 32 && e < 32 && Bits(d) == Bits(e)
    ensures d == e
  {
    ByteBack(d);
    ByteBack(e);
    Widen(d as bv8, e as bv8);
  }

  lemma Widen(x: bv8, y: bv8)
    requires x as bv40 == y as bv40
    ensures x == y
  {
  }

  lemma ByteBack(d: nat)
    requires d < 32
    ensures (d as bv8) as nat == d
  {
  }

  lemma {:induction false} PackInjective(v: Digits, w: Digits)
    requires |v| == |w| <= 8 && Below(32, v) && Below(32, w) && Pack(v) == Pack(w)
    ensures v == w
  {
    hide Xor, Shl5, Bits, Limit;
    if v != [] {
      var n := |v| - 1;
      PackSmall(v[..n]);
      PackSmall(w[..n]);
      SmallBits(v[n]);
      SmallBits(w[n]);
      ShiftApart(Pack(v[..n]), Pack(w[..n]), Bits(v[n]), Bits(w[n]));
      BitsApart(v[n], w[n]);
      PackInjective(v[..n], w[..n]);
    }
  }

  function Shr5(x: bv40): bv40 { x >> 5 }

  function ShrBy(x: bv40, a: bv40): bv40
    requires a <= 40
  {
    x >> a
  }

  lemma ShrTwiceRaw(x: bv40, a: bv40)
    requires a <= 35
    ensures (x >> a) >> 5 == x >> (a + 5)
  {
  }

  lemma ShrTwiceHalf(x: bv40, a: bv40)
    requires a <= 35
    ensures ShrBy(x, a) >> 5 == ShrBy(x, a + 5)
  {
    ShrTwiceRaw(x, a);
  }

  lemma ShrTwice(x: bv40, a: bv40)
    requires a <= 35
    ensures Shr5(ShrBy(x, a)) == ShrBy(x, a + 5)
  {
    ShrTwiceHalf(x, a);
    hide ShrBy;
  }

  /** The number of bits behind the leading `k` symbols. */
  function Behind(k: nat): (a: bv40)
    requires k <= 8
    ensures a <= 40
  {
    if k == 0 then 40 else if k == 1 then 35 else if k == 2 then 30 else if k == 3 then 25 else if k == 4 then 20
    else if k == 5 then 15 else if k == 6 then 10 else if k == 7 then 5 else 0
  }

  lemma BehindStep(k: nat)
    requires k < 8
    ensures Behind(k + 1) <= 35 && Behind(k) == Behind(k + 1) + 5
  {
  }

  /** The leading `k` symbols of a packed word. */
  function Leading(x: bv40, k: nat): bv40
    requires k <= 8
  {
    ShrBy(x, Behind(k))
  }

  lemma LeadingEnds(x: bv40)
    ensures Leading(x, 0) == 0 && Leading(x, 8) == x
  {
  }

  function Low5(x: bv40): bv40 { x & 0x1f }

  lemma LeadingStep(x: bv40, k: nat)
    requires k < 8
    ensures Leading(x, k + 1) == Xor(Shl5(Leading(x, k)), Low5(Leading(x, k + 1)))
  {
    LeadingDown(x, k);
    Rejoin(Leading(x, k + 1));
    hide Leading, Xor, Shl5, Low5;
  }

  lemma LeadingDown(x: bv40, k: nat)
    requires k < 8
    ensures Leading(x, k) == Shr5(Leading(x, k + 1))
  {
    BehindStep(k);
    ShrTwice(x, Behind(k + 1));
    hide Shr5, ShrBy, Behind;
  }

  lemma Rejoin(x: bv40)
    ensures Xor(Shl5(Shr5(x)), Low5(x)) == x
  {
  }

  /** Symbol `i` of a packed word. */
  function Group(x: bv40, i: nat): nat
    requires i < 8
  {
    Low5(Leading(x, i + 1)) as nat
  }

  lemma GroupBits(x: bv40, i: nat)
    requires i < 8
    ensures Group(x, i) < 32 && Bits(Group(x, i)) == Low5(Leading(x, i + 1))
  {
    Low5Back(Leading(x, i + 1));
  }

  lemma Low5Back(x: bv40)
    ensures Low5(x) as nat < 32 && Bits(Low5(x) as nat) == Low5(x)
  {
  }

  function Groups(x: bv40): (w: Digits)
    ensures |w| == 8
  {
    seq(8, i requires 0 <= i < 8 => Group(x, i))
  }

  lemma GroupsBelow(x: bv40)
    ensures Below(32, Groups(x))
  {
    hide Group;
    forall i | 0 <= i < 8 ensures Groups(x)[i] < 32 { GroupBits(x, i); }
  }

  lemma {:induction false} PackGroups(x: bv40, k: nat)
    requires k <= 8
    ensures Below(32, Groups(x)) && Pack(Groups(x)[..k]) == Leading(x, k)
  {
    LeadingEnds(x);
    hide Xor, Shl5, Bits, Group, Leading, Low5;
    GroupsBelow(x);
    if k > 0 {
      PackGroups(x, k - 1);
      assert Groups(x)[..k][..k - 1] == Groups(x)[..k - 1];
      GroupBits(x, k - 1);
      LeadingStep(x, k - 1);
    }
  }

  lemma ShrBelow(x: bv40, k: nat)
    requires 0 < k <= 7 && x < Limit(k)
    ensures Shr5(x) < Limit(k - 1)
  {
  }

  /** Every number below the limit is a word of that many symbols. */
  lemma {:induction false} PackOnto(x: bv40, k: nat) returns (w: Digits)
    requires k <= 7 && x < Limit(k)
    ensures |w| == k && Below(32, w) && Pack(w) == x
  {
    if k == 0 {
      w := [];
    } else {
      ShrBelow(x, k);
      hide Xor, Shl5, Bits, Limit, Low5, Shr5;
      var v := PackOnto(Shr5(x), k - 1);
      Low5Back(x);
      Rejoin(x);
      w := v + [Low5(x) as nat];
      assert w[..k - 1] == v;
    }
  }

  // ----- creating and verifying -----

  function Expand(prefix: string): (v: Digits)
    ensures |v| == |prefix| + 1 && Below(32, v)
  {
    seq(|prefix|, i requires 0 <= i < |prefix| => (prefix[i] as nat) % 32) + [0]
  }

  /** The checksum state after the prefix and the payload. */
  function After(prefix: string, values: Digits): bv40
    requires Below(256, values)
  {
    Fold(1, Expand(prefix) + values)
  }

  predicate Verifies(prefix: string, values: Digits)
    requires Below(256, values)
  {
    After(prefix, values) == 1
  }

  function Checksum(prefix: string, values: Digits): Digits
    requires Below(256, values)
  {
    Groups(Xor(Fold(1, Expand(prefix) + values + Zeros(8)), 1))
  }

  /** What the eight appended symbols turn the checksum into. */
  lemma AfterAppend(prefix: string, values: Digits, w: Digits)
    requires Below(256, values) && |w| <= 8 && Below(32, w)
    ensures Below(256, values + w)
    ensures After(prefix, values + w) == Xor(Fold(1, Expand(prefix) + values + Zeros(|w|)), Pack(w))
  {
    hide Xor, Fold, Pack;
    var v := Expand(prefix) + values;
    assert Expand(prefix) + (values + w) == v + w;
    FoldConcat(1, v, w);
    FoldConcat(1, v, Zeros(|w|));
    FoldSplit(Fold(1, v), w);
  }

  lemma GroupsPack(x: bv40)
    ensures |Groups(x)| == 8 && Below(32, Groups(x)) && Pack(Groups(x)) == x
  {
    hide Group, Leading, Pack;
    PackGroups(x, 8);
    LeadingEnds(x);
    assert Groups(x)[..8] == Groups(x);
  }

  /** Every payload with its checksum is accepted. */
  lemma ChecksumAccepted(prefix: string, values: Digits)
    requires Below(256, values)
    ensures |Checksum(prefix, values)| == 8 && Below(32, Checksum(prefix, values))
    ensures Below(256, values + Checksum(prefix, values)) && Verifies(prefix, values + Checksum(prefix, values))
  {
    hide Xor, Fold, Groups, Pack;
    var z := Fold(1, Expand(prefix) + values + Zeros(8));
    GroupsPack(Xor(z, 1));
    AfterAppend(prefix, values, Checksum(prefix, values));
    XorLaws(z, 1);
  }

  /** Nothing else is: the last eight symbols of an accepted sequence are the checksum of the rest. */
  lemma ChecksumUnique(prefix: string, values: Digits)
    requires |values| >= 8 && Below(32, values) && Verifies(prefix, values)
    ensures values[|values| - 8..] == Checksum(prefix, values[..|values| - 8])
  {
    hide Xor, Fold, Groups, Pack;
    var n := |values| - 8;
    var v, w := values[..n], values[n..];
    assert values == v + w;
    var z := Fold(1, Expand(prefix) + v + Zeros(8));
    AfterAppend(prefix, v, w);
    XorLaws(z, Pack(w));
    GroupsPack(Xor(z, 1));
    PackInjective(w, Checksum(prefix, v));
  }

  // ----- fewer symbols than a checksum -----

  /** Whether the prefix alone lets `k` symbols pass as a checksum. */
  predicate ShortFits(prefix: string, k: nat)
    requires k <= 7
  {
    Xor(Fold(1, Expand(prefix) + Zeros(k)), 1) < Limit(k)
  }

  lemma ShortIs(prefix: string, w: Digits)
    requires |w| <= 7 && Below(32, w)
    ensures Verifies(prefix, w) <==> Pack(w) == Xor(Fold(1, Expand(prefix) + Zeros(|w|)), 1)
  {
    hide Xor, Fold, Pack;
    AfterAppend(prefix, [], w);
    assert [] + w == w && Expand(prefix) + [] == Expand(prefix);
    var z := Fold(1, Expand(prefix) + Zeros(|w|));
    XorLaws(z, Pack(w));
    XorLaws(z, 1);
  }

  lemma ShortExists(prefix: string, k: nat) returns (w: Digits)
    requires k <= 7 && ShortFits(prefix, k)
    ensures |w| == k && Below(32, w) && Verifies(prefix, w)
  {
    hide Xor, Fold, Pack, Verifies, Limit;
    w := PackOnto(Xor(Fold(1, Expand(prefix) + Zeros(k)), 1), k);
    ShortIs(prefix, w);
  }

  lemma ShortMeans(prefix: string, w: Digits)
    requires |w| <= 7 && Below(32, w) && Verifies(prefix, w)
    ensures ShortFits(prefix, |w|)
  {
    hide Xor, Fold, Pack, Verifies, Limit;
    ShortIs(prefix, w);
    PackSmall(w);
  }

  /** A short sequence that verifies exists exactly if the prefix lets it. */
  lemma ShortVerifiesIff(prefix: string, k: nat)
    requires k <= 7
    ensures (exists w: Digits :: |w| == k && Below(32, w) && Verifies(prefix, w)) <==> ShortFits(prefix, k)
  {
    hide Verifies, ShortFits;
    if ShortFits(prefix, k) {
      var w := ShortExists(prefix, k);
    }
    forall w: Digits | |w| == k && Below(32, w) && Verifies(prefix, w) ensures ShortFits(prefix, k) {
      ShortMeans(prefix, w);
    }
  }

  /** And then it is the only one. */
  lemma ShortUnique(prefix: string, v: Digits, w: Digits)
    requires |v| == |w| <= 7 && Below(32, v) && Below(32, w) && Verifies(prefix, v) && Verifies(prefix, w)
    ensures v == w
  {
    hide Xor, Fold, Pack, Verifies;
    ShortIs(prefix, v);
    ShortIs(prefix, w);
    PackInjective(v, w);
  }

  // ----- errors -----

  lemma {:induction false} FoldApart(x: bv40, y: bv40, v: Digits)
    requires Below(256, v) && x != y
    ensures Fold(x, v) != Fold(y, v)
  {
    hide Xor, Times, Bits;
    if v != [] {
      var n := |v| - 1;
      FoldApart(x, y, v[..n]);
      var a, b, d := Fold(x, v[..n]), Fold(y, v[..n]), Bits(v[n]);
      if Fold(x, v) == Fold(y, v) {
        XorLaws(d, Times(a));
        XorLaws(d, Times(b));
        XorLaws(Times(a), d);
        XorLaws(Times(b), d);
        TimesLinear(a, b);
        XorLaws(Times(a), Times(b));
        TimesInjective(Xor(a, b));
        XorLaws(a, b);
        XorLaws(a, 0);
      }
    }
  }

  /** A burst of errors, confined to eight symbols in a row, never goes unnoticed. */
  lemma BurstDetected(prefix: string, front: Digits, w: Digits, w': Digits, back: Digits)
    requires Below(256, front) && Below(256, back) && |w| == |w'| <= 8 && Below(32, w) && Below(32, w') && w != w'
    ensures Below(256, front + w + back) && Below(256, front + w' + back)
    ensures !(Verifies(prefix, front + w + back) && Verifies(prefix, front + w' + back))
  {
    hide Xor, Fold, Pack;
    var v := Expand(prefix) + front;
    var c := Fold(1, v);
    AfterBurst(prefix, front, w, back);
    AfterBurst(prefix, front, w', back);
    FoldSplit(c, w);
    FoldSplit(c, w');
    var z := Fold(c, Zeros(|w|));
    if Fold(c, w) == Fold(c, w') {
      XorLaws(z, Pack(w));
      XorLaws(z, Pack(w'));
      PackInjective(w, w');
    }
    FoldApart(Fold(c, w), Fold(c, w'), back);
  }

  lemma AfterBurst(prefix: string, front: Digits, w: Digits, back: Digits)
    requires Below(256, front) && Below(256, w) && Below(256, back)
    ensures Below(256, front + w + back)
    ensures After(prefix, front + w + back) == Fold(Fold(Fold(1, Expand(prefix) + front), w), back)
  {
    hide Fold;
    var v := Expand(prefix) + front;
    assert Expand(prefix) + (front + w + back) == v + w + back;
    FoldConcat(1, v + w, back);
    FoldConcat(1, v, w);
  }
}
