/** Unsigned 256-bit numbers: eight limbs updated in place. */
module ArithUint256 {
  import opened BitOps
  import opened Numbers
  import opened Limbs

  const WIDTH: nat := 8

  /** The modulus of the arithmetic, 2^256. */
  ghost function Modulus(): (m: nat)
    ensures m > 0
  {
    WeightPositive(WIDTH);
    Weight(WIDTH)
  }

  class Uint256 {
    const pn: array<Limb>

    ghost predicate Valid() { pn.Length == WIDTH }

    ghost function Num(): nat
      reads pn
    {
      Value(pn[..])
    }

    /** The limbs of a 64-bit number. */
    constructor (b: nat)
      requires b < BASE * BASE
      ensures Valid() && fresh(pn) && Num() == b
    {
      pn := new Limb[WIDTH](_ => 0);
      new;
      Assign(b);
    }

    constructor Copy(b: Uint256)
      requires b.Valid()
      ensures Valid() && fresh(pn) && pn[..] == b.pn[..]
    {
      pn := new Limb[WIDTH](_ => 0);
      new;
      for i := 0 to WIDTH
        invariant pn[..i] == b.pn[..i]
      {
        pn[i] := b.pn[i];
      }
    }

    method Assign(b: nat)
      requires Valid() && b < BASE * BASE
      modifies pn
      ensures Num() == b
    {
      pn[0] := b % BASE;
      DivSmall(b);
      pn[1] := b / BASE;
      for i := 2 to WIDTH
        invariant pn[0] == b % BASE && pn[1] == b / BASE && forall j | 2 <= j < i :: pn[j] == 0
      {
        pn[i] := 0;
      }
      TwoLimbs(pn[..]);
    }

    method ShiftLeft(shift: nat)
      requires Valid()
      modifies pn
      ensures Num() == old(Num()) * Pow(2, shift) % Modulus()
    {
      hide Value, Pow, Low, High, ShlLimb, BitOr, Shl;
      var a := pn[..];
      for i := 0 to WIDTH
        invariant forall j | 0 <= j < i :: pn[j] == 0
      {
        pn[i] := 0;
      }
      var k, s := shift / 32, shift % 32;
      hide ShlSoFar;
      assert forall j: nat :: ShlSoFar(a, k, s, 0, j) == 0 by { ShlStart(a, k, s); }
      for i := 0 to WIDTH
        invariant forall j: nat | j < WIDTH :: pn[j] == ShlSoFar(a, k, s, i, j)
      {
        ShlAdvance(a, k, s, i);
        if i + k + 1 < WIDTH && s != 0 {
          pn[i + k + 1] := BitOr(pn[i + k + 1], a[i] / Pow(2, 32 - s));
        }
        if i + k < WIDTH {
          pn[i + k] := BitOr(pn[i + k], Low(a[i], s));
        }
      }
      ShlDone(a, k, s, pn[..]);
      hide Modulus;
      ShlResult(a, shift);
    }

    method ShiftRight(shift: nat)
      requires Valid()
      modifies pn
      ensures Pow(2, shift) > 0 && Num() == old(Num()) / Pow(2, shift)
    {
      hide Value, Pow, Low, Right, ShrLimb, BitOr, Shr;
      PowPositive(2, shift);
      var a := pn[..];
      for i := 0 to WIDTH
        invariant forall j | 0 <= j < i :: pn[j] == 0
      {
        pn[i] := 0;
      }
      var k, s := shift / 32, shift % 32;
      hide ShrSoFar;
      assert forall j: nat :: ShrSoFar(a, k, s, 0, j) == 0 by { ShrStart(a, k, s); }
      for i := 0 to WIDTH
        invariant forall j: nat | j < WIDTH :: pn[j] == ShrSoFar(a, k, s, i, j)
      {
        ShrAdvance(a, k, s, i);
        if i > k {
          ShrCarry(a, k, s, i);
        }
        if i - k - 1 >= 0 && s != 0 {
          pn[i - k - 1] := BitOr(pn[i - k - 1], Low(a[i], 32 - s));
        }
        if i - k >= 0 {
          pn[i - k] := BitOr(pn[i - k], Right(a[i], s));
        }
      }
      ShrDone(a, k, s, pn[..]);
      ShrValue(a, k, s);
    }

    /** Right also when a number is added to itself. */
    method Add(b: Uint256)
      requires Valid() && b.Valid()
      modifies pn
      ensures Num() == (old(Num()) + old(b.Num())) % Modulus()
    {
      hide Value, Weight;
      ghost var x, y := pn[..], b.pn[..];
      var carry: nat := 0;
      assert Value([]) == 0 by { ValueZero([]); }
      assert pn[..0] == x[..0] == y[..0] == [];
      for i := 0 to WIDTH
        invariant carry <= 1 && Value(pn[..i]) + carry * Weight(i) == Value(x[..i]) + Value(y[..i])
        invariant forall j | i <= j < WIDTH :: pn[j] == x[j] && b.pn[j] == y[j]
      {
        var n: nat := carry + pn[i] + b.pn[i];
        ghost var v, w := Value(pn[..i]), Weight(i);
        ghost var low := pn[..i];
        CarryStep(v, n, w);
        WeightStep(i);
        SumStep(v, carry, x[i], y[i], w);
        ValueStep(x, i);
        ValueStep(y, i);
        pn[i] := n % BASE;
        carry := n / BASE;
        assert pn[..i] == low;
        ValueStep(pn[..], i);
        assert pn[..][..i] == pn[..i] && pn[..][..i + 1] == pn[..i + 1];
      }
      assert pn[..WIDTH] == pn[..] && x[..WIDTH] == x && y[..WIDTH] == y;
      ValueBound(pn[..]);
      ModUnique(Value(x) + Value(y), Modulus(), carry, Value(pn[..]));
    }

    /** Carries past every limb that wraps to zero. */
    method Increment()
      requires Valid()
      modifies pn
      ensures Num() == (old(Num()) + 1) % Modulus()
    {
      hide Value, Weight;
      ghost var x := pn[..];
      var i := 0;
      IncrementLimb(x, 0);
      WeightZero();
      pn[0] := (pn[0] + 1) % BASE;
      assert pn[..] == x[0 := pn[0]];
      while pn[i] == 0 && i < WIDTH - 1
        invariant 0 <= i < WIDTH
        invariant Value(pn[..]) + (if pn[i] == 0 then Weight(i + 1) else 0) == Value(x) + 1
      {
        ghost var s := pn[..];
        i := i + 1;
        IncrementLimb(s, i);
        pn[i] := (pn[i] + 1) % BASE;
        assert pn[..] == s[i := pn[i]];
      }
      ValueBound(pn[..]);
      ModUnique(Value(x) + 1, Modulus(), if pn[i] == 0 then 1 else 0, Value(pn[..])) by {
        if pn[i] != 0 {
          ValueBelow(pn[..]);
        }
      }
    }

    /** Borrows past every limb that wraps to all ones. */
    method Decrement()
      requires Valid()
      modifies pn
      ensures Num() == (old(Num()) - 1) % Modulus()
    {
      hide Value, Weight;
      ghost var x := pn[..];
      ghost var vx: int := Value(x);
      var i := 0;
      DecrementLimb(x, 0);
      WeightZero();
      pn[0] := (pn[0] + BASE - 1) % BASE;
      assert pn[..] == x[0 := pn[0]];
      while pn[i] == BASE - 1 && i < WIDTH - 1
        invariant 0 <= i < WIDTH
        invariant Value(pn[..]) == vx - 1 + if pn[i] == BASE - 1 then Weight(i + 1) else 0
      {
        ghost var s := pn[..];
        i := i + 1;
        DecrementLimb(s, i);
        pn[i] := (pn[i] + BASE - 1) % BASE;
        assert pn[..] == s[i := pn[i]];
      }
      ValueBound(pn[..]);
      ModUnique(vx - 1, Modulus(), if pn[i] == BASE - 1 then -1 else 0, Value(pn[..]));
    }

    method Negate() returns (ret: Uint256)
      requires Valid()
      ensures ret.Valid() && fresh(ret) && fresh(ret.pn) && ret.Num() == (0 - Num()) % Modulus()
    {
      hide Value, Weight;
      ret := new Uint256(0);
      for i := 0 to WIDTH
        invariant forall j | 0 <= j < i :: ret.pn[j] == BASE - 1 - pn[j]
      {
        ret.pn[i] := BASE - 1 - pn[i];
      }
      ComplementValue(pn[..], ret.pn[..]);
      ghost var m: int, x: int := Modulus(), Num();
      ret.Increment();
      ModDrop(0 - x, 1, m);
    }

    /** Right also when a number is subtracted from itself. */
    method Subtract(b: Uint256)
      requires Valid() && b.Valid()
      modifies pn
      ensures Num() == (old(Num()) - old(b.Num())) % Modulus()
    {
      hide Value, Weight;
      var minus := b.Negate();
      ghost var x: int, y: int, m := Num(), b.Num(), Modulus();
      Add(minus);
      MinusMod(x, y, m);
    }

    method MultiplySmall(b32: Limb)
      requires Valid()
      modifies pn
      ensures Num() == old(Num()) * b32 % Modulus()
    {
      hide Value, Weight;
      ghost var x := pn[..];
      var carry: nat := 0;
      assert Value([]) == 0 by { ValueZero([]); }
      assert pn[..0] == x[..0] == [];
      for i := 0 to WIDTH
        invariant carry < BASE && Value(pn[..i]) + carry * Weight(i) == Value(x[..i]) * b32
        invariant forall j | i <= j < WIDTH :: pn[j] == x[j]
      {
        NoOverflow(carry, 0, b32, pn[i]);
        var n: nat := carry + b32 * pn[i];
        ghost var low, w := pn[..i], Weight(i);
        CarryStep(Value(low), n, w);
        WeightStep(i);
        ProductStep(Value(low), carry, Value(x[..i]), x[i], b32, w);
        ValueStep(x, i);
        pn[i] := n % BASE;
        carry := n / BASE;
        assert pn[..i] == low;
        ValueStep(pn[..], i);
        assert pn[..][..i] == pn[..i] && pn[..][..i + 1] == pn[..i + 1];
      }
      assert pn[..WIDTH] == pn[..] && x[..WIDTH] == x;
      ValueBound(pn[..]);
      ModUnique(Value(x) * b32, Modulus(), carry, Value(pn[..]));
    }

    /**
     Adds `aj` times `b`, shifted up by `j` limbs, without what does not fit. When the two numbers
     are one and the same, it starts from zero and stays there.
     */
    method AddRow(aj: Limb, j: nat, b: Uint256)
      requires Valid() && b.Valid() && j < WIDTH
      modifies pn
      ensures pn != b.pn ==> Num() == (old(Num()) + RowSum(aj, j, b.Num())) % Modulus()
      ensures pn == b.pn && old(AllZero(pn[..])) ==> AllZero(pn[..])
    {
      hide Value, Weight, RowSum;
      ghost var x, y := pn[..], b.pn[..];
      var carry: nat := 0;
      RowStart(aj, j, y);
      for i := 0 to WIDTH - j
        invariant carry < BASE
        invariant pn != b.pn ==>
                    && b.pn[..] == y
                    && Value(pn[..]) + carry * Weight(i + j) == Value(x) + RowSum(aj, j, Value(y[..i]))
        invariant pn == b.pn && AllZero(x) ==> carry == 0 && AllZero(pn[..])
      {
        NoOverflow(carry, pn[i + j], aj, b.pn[i]);
        var n: nat := carry + pn[i + j] + aj * b.pn[i];
        ghost var s := pn[..];
        if pn != b.pn {
          RowStep(x, s, y, i, j, aj, carry, n);
        }
        pn[i + j] := n % BASE;
        carry := n / BASE;
        assert pn[..] == s[i + j := pn[i + j]];
      }
      if pn != b.pn {
        ValueBound(pn[..]);
        RowFits(Value(pn[..]), carry, Value(x), aj, j, y);
      }
    }

    /**
     The product, provided the two operands are different objects. A number multiplied in place by
     itself is cleared before its limbs are read as the other operand, and comes out as zero.
     */
    method Multiply(b: Uint256)
      requires Valid() && b.Valid()
      modifies pn
      ensures pn != b.pn ==> Num() == old(Num()) * old(b.Num()) % Modulus()
      ensures pn == b.pn ==> Num() == 0
      ensures Num() == old(Num()) * old(b.Num()) % Modulus() <==> pn != b.pn || old(LowHalfZero(pn[..]))
    {
      hide Value, Weight;
      var a := pn[..];
      ghost var y, m := b.Num(), Modulus();
      for i := 0 to WIDTH
        invariant (forall j | 0 <= j < i :: pn[j] == 0) && (pn != b.pn ==> b.Num() == y)
      {
        pn[i] := 0;
      }
      ValueZero(pn[..]);
      assert Value(a[..0]) == 0 by { assert a[..0] == []; ValueZero(a[..0]); }
      for j := 0 to WIDTH
        invariant pn != b.pn ==> b.Num() == y && Num() == Value(a[..j]) * y % m
        invariant pn == b.pn ==> AllZero(pn[..])
      {
        AddRow(a[j], j, b);
        ValueStep(a, j);
        RowsStep(Value(a[..j]), y, a[j], Weight(j), m);
      }
      assert a[..WIDTH] == a;
      SquareVanishes(a);
      if pn == b.pn {
        ValueZero(pn[..]);
      }
    }

    method CompareTo(b: Uint256) returns (order: int)
      requires Valid() && b.Valid()
      ensures order == if Num() < b.Num() then -1 else if Num() > b.Num() then 1 else 0
    {
      hide Value;
      for i := WIDTH downto 0
        invariant pn[i..] == b.pn[i..]
      {
        if pn[i] < b.pn[i] {
          ValueOrder(pn[..], b.pn[..], i);
          return -1;
        }
        if pn[i] > b.pn[i] {
          ValueOrder(b.pn[..], pn[..], i);
          return 1;
        }
        assert pn[i..] == [pn[i]] + pn[i + 1..] && b.pn[i..] == [b.pn[i]] + b.pn[i + 1..];
      }
      assert pn[..] == b.pn[..];
      return 0;
    }

    /** The position of the highest bit plus one, or zero. */
    method Bits() returns (n: nat)
      requires Valid()
      ensures n == 0 <==> Num() == 0
      ensures n > 0 ==> Pow(2, n - 1) <= Num() < Pow(2, n)
      ensures n <= 256
    {
      hide Value, Pow, HasBit;
      for pos := WIDTH downto 0
        invariant forall j | pos <= j < WIDTH :: pn[j] == 0
      {
        if pn[pos] != 0 {
          PowersOfTwo();
          for bits := 32 downto 1
            invariant pn[pos] < Pow(2, bits)
          {
            TopBit(pn[pos], bits);
            if HasBit(pn[pos], bits) {
              TopLimb(pn[..], pos, bits);
              return 32 * pos + bits + 1;
            }
          }
          PowZero(2);
          TopLimb(pn[..], pos, 0);
          return 32 * pos + 1;
        }
      }
      ValueZero(pn[..]);
      return 0;
    }

    /** Sets bit `e` of a number whose bits up to `e` are clear. */
    method SetBit(e: nat)
      requires Valid() && e < 256 && LowClear(pn[..], e + 1)
      modifies pn
      ensures Num() == old(Num()) + Pow(2, e) && LowClear(pn[..], e)
    {
      hide Value, Pow, LowClear, BitOr;
      SetBitValue(pn[..], e);
      ghost var s := pn[..];
      pn[e / 32] := BitOr(pn[e / 32], Pow(2, e % 32));
      assert pn[..] == s[e / 32 := pn[e / 32]];
    }

    /** One bit of the quotient: subtract the divisor if it fits, then halve it. */
    method DivideStep(num: Uint256, div: Uint256, shift: nat, ghost n: nat, ghost d: nat)
      requires Valid() && num.Valid() && div.Valid() && pn != num.pn && pn != div.pn && num.pn != div.pn
      requires shift < 256 && LowClear(pn[..], shift + 1) && div.Num() == d * Pow(2, shift)
      requires Num() * d + num.Num() == n && num.Num() < d * Pow(2, shift + 1)
      modifies pn, num.pn, div.pn
      ensures LowClear(pn[..], shift) && (shift > 0 ==> div.Num() == d * Pow(2, shift - 1))
      ensures Num() * d + num.Num() == n && num.Num() < d * Pow(2, shift)
    {
      hide Value, Pow, LowClear, Weight;
      PowStep(shift);
      DoubleStep(d, Pow(2, shift));
      var order := num.CompareTo(div);
      if order >= 0 {
        ghost var q, r := Num(), num.Num();
        NoBorrow(num, div);
        QuotientStep(q, d, r, Pow(2, shift), n);
        num.Subtract(div);
        SetBit(shift);
      } else {
        ClearWeaken(pn[..], shift);
      }
      ShiftBack(d, shift);
      div.ShiftRight(1);
    }

    /**
     Bitwise long division. The quotient replaces the number and `remainder` is what is left of it;
     division by zero is reported and leaves zero behind.
     */
    method Divide(b: Uint256) returns (ok: bool, ghost remainder: nat)
      requires Valid() && b.Valid()
      modifies pn
      ensures ok <==> old(b.Num()) != 0
      ensures ok ==> Num() == old(Num()) / old(b.Num()) && remainder == old(Num()) % old(b.Num())
      ensures !ok ==> Num() == 0
    {
      hide Value, Pow, LowClear, Weight;
      ghost var n, d := Num(), b.Num();
      var div := new Uint256.Copy(b);
      var num := new Uint256.Copy(this);
      Assign(0);
      var numBits := num.Bits();
      var divBits := div.Bits();
      if divBits == 0 {
        return false, 0;
      }
      if divBits > numBits {
        FewerBits(n, d, numBits, divBits);
        return true, n;
      }
      var shift := numBits - divBits;
      AlignedFits(n, d, numBits, divBits);
      div.ShiftLeft(shift);
      ZeroLimbs(pn[..]);
      ClearStart(pn[..], shift + 1);
      while shift >= 0
        invariant -1 <= shift < 256 && LowClear(pn[..], shift + 1)
        invariant shift >= 0 ==> div.Num() == d * Pow(2, shift)
        invariant Num() * d + num.Num() == n && num.Num() < d * Pow(2, shift + 1)
        decreases shift + 1
      {
        DivideStep(num, div, shift, n, d);
        shift := shift - 1;
      }
      PowZero(2);
      DivModUnique(n, d, Num(), num.Num());
      return true, num.Num();
    }

    method GetLow64() returns (low: nat)
      requires Valid()
      ensures low == Num() % (BASE * BASE) < BASE * BASE
    {
      hide Value, BitOr;
      LowTwo(pn[..]);
      low := BitOr(pn[0], pn[1] * BASE);
    }

    /**
     Reads the compact format: a size byte, a sign bit and 23 bits of mantissa. Overflow is flagged
     exactly when the number encoded does not fit into 256 bits.
     */
    method SetCompact(nCompact: nat) returns (negative: bool, overflow: bool)
      requires Valid() && nCompact < 0x1_0000_0000
      modifies pn
      ensures Num() == Encoded(nCompact) % Modulus()
      ensures overflow <==> Encoded(nCompact) >= Modulus()
      ensures negative <==> Encoded(nCompact) != 0 && SignBit(nCompact)
    {
      hide Value, Pow, Weight;
      var nSize, nWord := nCompact / 0x100_0000, nCompact % 0x80_0000;
      if nSize <= 3 {
        PowPositive(2, 8 * (3 - nSize));
        nWord := nWord / Pow(2, 8 * (3 - nSize));
        DivShrinks(nCompact % 0x80_0000, Pow(2, 8 * (3 - nSize)));
        Assign(nWord);
      } else {
        Assign(nWord);
        ShiftLeft(8 * (nSize - 3));
      }
      EncodedSize(nCompact);
      negative := nWord != 0 && nCompact / 0x80_0000 % 2 == 1;
      overflow := nWord != 0 && (nSize > 34 || (nWord > 0xff && nSize > 33) || (nWord > 0xffff && nSize > 32));
    }

    /** The three leading bytes, as a 32-bit word. */
    method LeadingBytes(nSize: nat) returns (word: nat)
      requires Valid() && Mantissa(Num(), nSize) < 0x100_0000
      ensures word == Mantissa(Num(), nSize)
    {
      hide Value, Pow, Weight, Mantissa, BitOr;
      if nSize <= 3 {
        var low := GetLow64();
        SmallCompact(Num(), nSize, low);
        word := low * Pow(2, 8 * (3 - nSize)) % (BASE * BASE) % BASE;
      } else {
        var bn := new Uint256.Copy(this);
        bn.ShiftRight(8 * (nSize - 3));
        var low := bn.GetLow64();
        LargeCompact(Num(), nSize, bn.Num());
        word := low % BASE;
      }
    }

    /**
     Writes the compact format with the shortest size byte that leaves the sign bit free. The number
     encoded is this one without its low bytes.
     */
    method GetCompact(fNegative: bool) returns (nCompact: nat)
      requires Valid()
      ensures nCompact < 0x1_0000_0000
      ensures Num() == 0 ==> nCompact == 0
      ensures Num() > 0 ==> IsCompact(nCompact, Num(), fNegative)
    {
      hide Value, Pow, Weight, Mantissa, BitOr, IsCompact;
      var n := Bits();
      var nSize := (n + 7) / 8;
      MantissaOf(Num(), n, nSize);
      nCompact := LeadingBytes(nSize);
      if nCompact / 0x80_0000 % 2 == 1 {
        MantissaNext(Num(), nSize);
        nCompact := nCompact / 0x100;
        nSize := nSize + 1;
      }
      assert nCompact < 0x80_0000;
      CompactParts(Num(), n, nSize, nCompact, fNegative);
      assert nSize < 256;
      nCompact := BitOr(nCompact, nSize * 0x100_0000);
      nCompact := BitOr(nCompact, if fNegative && nCompact % 0x80_0000 != 0 then 0x80_0000 else 0);
    }
  }

  /** The smallest square that is lost: one times itself, in place. */
  method SquareOfOne() returns (x: Uint256, ghost before: nat)
    ensures x.Valid() && before == 1 && x.Num() == 0 && x.Num() != before * before % Modulus()
  {
    hide Value, Weight;
    x := new Uint256(1);
    before := x.Num();
    WeightStep(WIDTH - 1);
    WeightPositive(WIDTH - 1);
    DivModUnique(1, Modulus(), 0, 1);
    x.Multiply(x);
  }

  lemma ShlResult(a: seq<Limb>, shift: nat)
    requires |a| == WIDTH
    ensures Value(Shl(a, shift / 32, shift % 32)) == Value(a) * Pow(2, shift) % Modulus()
  {
    hide Value, Pow, Shl, Weight;
    ShlValue(a, shift / 32, shift % 32);
  }

  /** The low 128 bits are all clear. */
  predicate LowHalfZero(s: seq<Limb>)
    requires |s| == WIDTH
  {
    forall i | 0 <= i < WIDTH / 2 :: s[i] == 0
  }

  lemma {:induction false} RootOfMultiple(x: nat, n: nat)
    requires Pow(2, 2 * n) > 0 && x * x % Pow(2, 2 * n) == 0
    ensures Pow(2, n) > 0 && x % Pow(2, n) == 0
  {
    PowPositive(2, n);
    if n == 0 {
      PowZero(2);
    } else {
      var p, h := Pow(2, 2 * (n - 1)), Pow(2, n - 1);
      PowPositive(2, 2 * (n - 1));
      PowPositive(2, n - 1);
      PowStep(2 * (n - 1));
      PowStep(2 * n - 1);
      PowStep(n - 1);
      hide Pow;
      assert Pow(2, 2 * n) == 4 * p && Pow(2, n) == 2 * h;
      HalfRoot(x, p);
      RootOfMultiple(x / 2, n - 1);
      DoubleOfMultiple(x, h);
    }
  }

  lemma DoubleOfMultiple(x: nat, h: nat)
    requires h > 0 && x % 2 == 0 && x / 2 % h == 0
    ensures x % (2 * h) == 0
  {
    var r := x / 2 / h;
    assert x / 2 == r * h;
    assert x == r * (2 * h);
    DivOfMultiple(r, 2 * h, 0);
  }

  lemma HalfRoot(x: nat, p: nat)
    requires p > 0 && x * x % (4 * p) == 0
    ensures x % 2 == 0 && x / 2 * (x / 2) % p == 0
  {
    var q, y, r := x * x / (4 * p), x / 2, x % 2;
    assert x * x == q * (4 * p) == 4 * (q * p);
    assert x == 2 * y + r;
    assert x * x == 4 * (y * y) + 4 * (y * r) + r * r;
    assert r == 0;
    assert y * y == q * p;
    DivOfMultiple(q, p, 0);
  }

  lemma SquareOfMultiple(x: nat, w: nat)
    requires w > 0
    ensures x % w == 0 ==> w * w > 0 && x * x % (w * w) == 0
  {
    if x % w == 0 {
      var q := x / w;
      assert x == q * w;
      MulMono(1, w, w);
      assert x * x == q * q * (w * w);
      DivOfMultiple(q * q, w * w, 0);
    }
  }

  lemma LowHalfIs(s: seq<Limb>)
    requires |s| == WIDTH
    ensures Weight(4) > 0 && (Value(s) % Weight(4) == 0 <==> LowHalfZero(s))
  {
    hide Weight, Value;
    WeightPositive(4);
    ValueCut(s, 4);
    var low, z := s[..4], seq(4, _ => 0);
    ValueBound(low);
    ModUnique(Value(s), Weight(4), Value(s[4..]), Value(low));
    ValueZero(z);
    if Value(low) == 0 {
      ValueInjective(low, z);
      assert forall i | 0 <= i < 4 :: s[i] == low[i];
    }
    if LowHalfZero(s) {
      ValueZero(low);
    }
  }

  /** A square is zero modulo 2^256 exactly if the low half of the number is zero. */
  lemma SquareVanishes(s: seq<Limb>)
    requires |s| == WIDTH
    ensures Value(s) * Value(s) % Modulus() == 0 <==> LowHalfZero(s)
  {
    var x := Value(s);
    WeightAdd(4, 4);
    WeightIs(4);
    WeightIs(8);
    hide Value, LowHalfZero, Pow, Weight;
    LowHalfIs(s);
    SquareOfMultiple(x, Weight(4));
    if x * x % Modulus() == 0 {
      RootOfMultiple(x, 128);
    }
  }

  /** Keeping the low half of a sum and carrying the high half keeps what it is worth. */
  lemma CarryStep(v: nat, n: nat, w: nat)
    ensures v + n % BASE * w + n / BASE * (BASE * w) == v + n * w
  {
    assert n == n / BASE * BASE + n % BASE;
    Distribute(n / BASE * BASE, n % BASE, w);
    MulAssoc(n / BASE, BASE, w);
  }

  lemma SumStep(v: nat, c: nat, x: nat, y: nat, w: nat)
    ensures v + (c + x + y) * w == v + c * w + x * w + y * w
  {
    Distribute(c + x, y, w);
    Distribute(c, x, w);
  }

  lemma DecrementLimb(s: seq<Limb>, i: nat)
    requires i < |s|
    ensures var x := (s[i] + BASE - 1) % BASE;
            Value(s[i := x]) == Value(s) - Weight(i) + if x == BASE - 1 then Weight(i + 1) else 0
  {
    hide Value, Weight;
    var x := (s[i] + BASE - 1) % BASE;
    ValueUpdate(s, i, x);
    WeightStep(i);
    var w := Weight(i);
    if s[i] == 0 {
      Distribute(BASE, 1, w);
    } else {
      assert x - s[i] == -1;
    }
  }

  lemma IncrementLimb(s: seq<Limb>, i: nat)
    requires i < |s|
    ensures var x := (s[i] + 1) % BASE;
            Value(s[i := x]) + (if x == 0 then Weight(i + 1) else 0) == Value(s) + Weight(i)
  {
    hide Value, Weight;
    var x := (s[i] + 1) % BASE;
    ValueUpdate(s, i, x);
    WeightStep(i);
    var w := Weight(i);
    if s[i] == BASE - 1 {
      Distribute(1, BASE, w);
    } else {
      assert x - s[i] == 1;
    }
  }

  /** The 64-bit intermediate of a multiplication step cannot wrap, and the carry stays a limb. */
  lemma NoOverflow(carry: nat, p: Limb, x: Limb, y: Limb)
    requires carry < BASE
    ensures carry + p + x * y < BASE * BASE && (carry + p + x * y) / BASE < BASE
  {
    var a: int, b: int := x, y;
    MulMono(a, BASE - 1, b);
    MulMono(b, BASE - 1, BASE - 1);
  }

  lemma ProductStep(v: nat, c: nat, vx: nat, x: nat, f: nat, w: nat)
    requires v + c * w == vx * f
    ensures v + (c + f * x) * w == (vx + x * w) * f
  {
    Distribute(c, f * x, w);
    Distribute(vx, x * w, f);
    assert f * x * w == x * w * f;
  }

  predicate AllZero(s: seq<Limb>) { forall i | 0 <= i < |s| :: s[i] == 0 }

  /** What a row of `a` times a number worth `v` adds. */
  function RowSum(a: nat, j: nat, v: nat): nat { a * Weight(j) * v }

  lemma RowStart(a: Limb, j: nat, y: seq<Limb>)
    ensures RowSum(a, j, Value(y[..0])) == 0
  {
    ValueZero(y[..0]);
  }

  /** One limb of a row: limbs and carry together grow by that limb's product. */
  lemma RowStep(x: seq<Limb>, s: seq<Limb>, y: seq<Limb>, i: nat, j: nat, a: Limb, c: nat, n: nat)
    requires i + j < |s| && i < |y| && n == c + s[i + j] + a * y[i]
    requires Value(s) + c * Weight(i + j) == Value(x) + RowSum(a, j, Value(y[..i]))
    ensures Value(s[i + j := n % BASE]) + n / BASE * Weight(i + j + 1) == Value(x) + RowSum(a, j, Value(y[..i + 1]))
  {
    hide Value, Weight;
    var w, wi, wj := Weight(i + j), Weight(i), Weight(j);
    ValueUpdate(s, i + j, n % BASE);
    WeightStep(i + j);
    WeightAdd(i, j);
    ValueStep(y, i);
    RowSums(Value(s), n, s[i + j], c, a, y[i], Value(y[..i]), wj, wi, w);
  }

  lemma RowSums(v: nat, n: nat, p: nat, c: nat, a: nat, y: nat, vy: nat, wj: nat, wi: nat, w: nat)
    requires n == c + p + a * y && w == wi * wj
    ensures v + (n % BASE - p) * w + n / BASE * (BASE * w) == v + c * w + a * y * w
    ensures a * wj * (vy + y * wi) == a * wj * vy + a * y * w
  {
    CarryStep(v, n, w);
    Distribute(n % BASE, p, w);
    Distribute(c + p, a * y, w);
    Distribute(c, p, w);
    Distribute(vy, y * wi, a * wj);
    assert y * wi * (a * wj) == a * y * (wi * wj);
  }

  /** What does not fit above the highest limb is a multiple of the modulus. */
  lemma RowFits(v: nat, c: nat, x: nat, a: nat, j: nat, y: seq<Limb>)
    requires j <= |y| && v < Weight(|y|)
    requires v + c * Weight(|y|) == x + RowSum(a, j, Value(y[..|y| - j]))
    ensures Weight(|y|) > 0 && v == (x + RowSum(a, j, Value(y))) % Weight(|y|)
  {
    hide Value, Weight, RowSum;
    var l := |y| - j;
    var low, high := Value(y[..l]), Value(y[l..]);
    assert Value(y) == Joined(low, high, l) by { ValueCut(y, l); }
    hide Joined;
    RowJoined(v, c, x, a, j, low, high, l, |y|);
  }

  function Joined(low: nat, high: nat, l: nat): nat { low + Weight(l) * high }

  lemma RowJoined(v: nat, c: nat, x: nat, a: nat, j: nat, low: nat, high: nat, l: nat, n: nat)
    requires n == l + j && v < Weight(n) && v + c * Weight(n) == x + RowSum(a, j, low)
    ensures Weight(n) > 0 && v == (x + RowSum(a, j, Joined(low, high, l))) % Weight(n)
  {
    hide Weight;
    WeightAdd(l, j);
    RowWhole(v, c, x, a, Weight(j), Joined(low, high, l), low, high, Weight(l), Weight(n));
  }

  lemma RowWhole(v: nat, c: nat, x: nat, a: nat, wj: nat, y: nat, low: nat, high: nat, wl: nat, m: nat)
    requires v + c * m == x + a * wj * low && m == wl * wj && v < m && y == low + wl * high
    ensures v == (x + a * wj * y) % m
  {
    Distribute(low, wl * high, a * wj);
    assert wl * high * (a * wj) == (a * high) * m;
    Distribute(c, a * high, m);
    ModUnique(x + a * wj * (low + wl * high), m, c + a * high, v);
  }

  lemma RowsStep(va: nat, y: nat, x: nat, w: nat, m: nat)
    requires m > 0
    ensures (va * y % m + x * w * y) % m == (va + x * w) * y % m
  {
    Distribute(va, x * w, y);
    assert va * y == va * y / m * m + va * y % m;
    ModDrop(va * y % m + x * w * y, va * y / m, m);
  }

  lemma MinusMod(x: int, y: int, m: nat)
    requires m > 0
    ensures (x + (0 - y) % m) % m == (x - y) % m
  {
    var q := (0 - y) / m;
    assert 0 - y == q * m + (0 - y) % m;
    ModDrop(x - y, -q, m);
  }

  lemma ValueBelow(s: seq<Limb>)
    requires |s| == WIDTH
    ensures Value(s) < Modulus()
  {
    ValueBound(s);
  }

  lemma {:induction false} ComplementValue(s: seq<Limb>, t: seq<Limb>)
    requires |s| == |t| && forall j | 0 <= j < |s| :: t[j] == BASE - 1 - s[j]
    ensures Value(t) == Weight(|s|) - 1 - Value(s)
  {
    hide Weight;
    if s == [] {
      WeightZero();
    } else {
      var n := |s| - 1;
      ComplementValue(s[..n], t[..n]);
      WeightStep(n);
      var x: int := s[n];
      Distribute(BASE - 1, x, Weight(n));
      Distribute(BASE, 1, Weight(n));
    }
  }

  lemma ShrStart(a: seq<Limb>, k: nat, s: nat)
    requires s < 32
    ensures forall j: nat :: ShrSoFar(a, k, s, 0, j) == 0
  {
    hide Low, Pow;
  }

  lemma DivSmall(b: nat)
    requires b < BASE * BASE
    ensures b / BASE < BASE
  {
  }

  lemma TwoLimbs(s: seq<Limb>)
    requires |s| >= 2 && forall j | 2 <= j < |s| :: s[j] == 0
    ensures Value(s) == s[0] + BASE * s[1]
  {
    assert s == s[..2] + s[2..];
    ValueConcat(s[..2], s[2..]);
    ValueZero(s[2..]);
    ValueStep(s, 0);
    ValueStep(s, 1);
    WeightZero();
    WeightStep(0);
  }

  lemma ShlStart(a: seq<Limb>, k: nat, s: nat)
    requires s < 32
    ensures forall j: nat :: ShlSoFar(a, k, s, 0, j) == 0
  {
    hide Low, High;
  }

  // ----- bits -----

  lemma PowStep(e: nat)
    ensures Pow(2, e + 1) == 2 * Pow(2, e) && Pow(2, e) > 0
  {
    PowPositive(2, e);
  }

  lemma TopBit(x: nat, e: nat)
    requires x < Pow(2, e + 1)
    ensures HasBit(x, e) <==> x >= Pow(2, e)
  {
    PowStep(e);
    var f := Pow(2, e);
    hide Pow;
    if x >= f {
      DivModUnique(x, f, 1, x - f);
    } else {
      DivModUnique(x, f, 0, x);
    }
  }

  /** The highest limb that is not zero places the number between two powers of two. */
  lemma TopLimb(s: seq<Limb>, pos: nat, e: nat)
    requires pos < |s| && forall j | pos < j < |s| :: s[j] == 0
    requires Pow(2, e) <= s[pos] < Pow(2, e + 1)
    ensures 0 < Pow(2, 32 * pos + e) <= Value(s) < Pow(2, 32 * pos + e + 1)
  {
    hide Value, Pow, Weight;
    PowPositive(2, 32 * pos + e);
    ValueSplit(s, pos);
    ValueZero(s[pos + 1..]);
    ValueBound(s[..pos]);
    WeightIs(pos);
    PowAdd(2, 32 * pos, e);
    PowAdd(2, 32 * pos, e + 1);
    var w, top: int := Weight(pos), s[pos];
    MulMono(Pow(2, e), top, w);
    MulMono(top + 1, Pow(2, e + 1), w);
    Distribute(top, 1, w);
  }

  /** The lowest `e` bits are zero. */
  ghost predicate LowClear(s: seq<Limb>, e: nat) {
    && (forall j | 0 <= j < e / 32 && j < |s| :: s[j] == 0)
    && (e / 32 < |s| ==> Pow(2, e % 32) > 0 && s[e / 32] % Pow(2, e % 32) == 0)
  }

  lemma ZeroLimbs(s: seq<Limb>)
    requires Value(s) == 0
    ensures AllZero(s)
  {
    var zeros: seq<Limb> := seq(|s|, _ => 0);
    ValueZero(zeros);
    ValueInjective(s, zeros);
  }

  lemma ClearStart(s: seq<Limb>, e: nat)
    requires AllZero(s)
    ensures LowClear(s, e)
  {
    PowPositive(2, e % 32);
  }

  lemma MultipleOfDouble(x: nat, f: nat)
    requires f > 0 && x % (2 * f) == 0
    ensures x % f == 0 && (x + f) % f == 0
  {
    var q := x / (2 * f);
    assert x == q * (2 * f) == (2 * q) * f;
    DivOfMultiple(2 * q, f, 0);
    Distribute(2 * q, 1, f);
    DivOfMultiple(2 * q + 1, f, 0);
  }

  /** The limb of bit `e` is a multiple of twice that bit. */
  lemma ClearLimb(s: seq<Limb>, e: nat)
    requires LowClear(s, e + 1) && e / 32 < |s|
    ensures Pow(2, e % 32) > 0 && s[e / 32] % (2 * Pow(2, e % 32)) == 0
    ensures forall j | 0 <= j < e / 32 :: s[j] == 0
  {
    var r := e % 32;
    PowStep(r);
    if r == 31 {
      assert s[e / 32] == 0;
    } else {
      assert (e + 1) / 32 == e / 32 && (e + 1) % 32 == r + 1;
    }
  }

  lemma ClearWeaken(s: seq<Limb>, e: nat)
    requires LowClear(s, e + 1)
    ensures LowClear(s, e)
  {
    hide Pow;
    if e / 32 < |s| {
      ClearLimb(s, e);
      MultipleOfDouble(s[e / 32], Pow(2, e % 32));
    }
  }

  lemma SetBitValue(s: seq<Limb>, e: nat)
    requires LowClear(s, e + 1) && e / 32 < |s|
    ensures BitOr(s[e / 32], Pow(2, e % 32)) < BASE
    ensures var t := s[e / 32 := BitOr(s[e / 32], Pow(2, e % 32))];
            Value(t) == Value(s) + Pow(2, e) && LowClear(t, e)
  {
    hide Value, Pow, Weight, BitOr;
    var l, r := e / 32, e % 32;
    var f, x: int := Pow(2, r), s[l];
    ClearLimb(s, e);
    MultipleOfDouble(x, f);
    PowStep(r);
    OrDisjoint(f, x, r + 1);
    OrCommutes(f, x);
    SplitBase(r + 1);
    RoomForBit(x, f, Pow(2, 32 - (r + 1)));
    ValueUpdate(s, l, BitOr(x, f));
    WeightIs(l);
    PowAdd(2, 32 * l, r);
  }

  lemma RoomForBit(x: nat, f: nat, g: nat)
    requires f > 0 && x % (2 * f) == 0 && 2 * f * g == BASE && x < BASE
    ensures x + f < BASE
  {
    var q := x / (2 * f);
    assert x == q * (2 * f);
    if q >= g {
      MulMono(g, q, 2 * f);
    }
    MulMono(q + 1, g, 2 * f);
    Distribute(q, 1, 2 * f);
  }

  // ----- long division -----

  lemma FewerBits(n: nat, d: nat, nb: nat, db: nat)
    requires nb < db && (nb == 0 ==> n == 0) && (nb > 0 ==> n < Pow(2, nb)) && Pow(2, db - 1) <= d
    ensures d > 0 && n / d == 0 && n % d == n
  {
    PowPositive(2, db - 1);
    PowMonotone(2, nb, db - 1);
    DivModUnique(n, d, 0, n);
  }

  /** Shifting the divisor up to the dividend's length loses nothing. */
  lemma AlignedFits(n: nat, d: nat, nb: nat, db: nat)
    requires 0 < db <= nb <= 256 && n < Pow(2, nb) && Pow(2, db - 1) <= d < Pow(2, db)
    ensures d * Pow(2, nb - db) % Modulus() == d * Pow(2, nb - db)
    ensures n < d * Pow(2, nb - db + 1)
  {
    hide Pow, Weight;
    var e := nb - db;
    PowPositive(2, e);
    PowAdd(2, db, e);
    MulMono(d + 1, Pow(2, db), Pow(2, e));
    Distribute(d, 1, Pow(2, e));
    PowMonotone(2, nb, 256);
    WeightIs(WIDTH);
    DivModUnique(d * Pow(2, e), Modulus(), 0, d * Pow(2, e));
    PowAdd(2, db - 1, e + 1);
    MulMono(Pow(2, db - 1), d, Pow(2, e + 1));
  }

  lemma DoubleStep(d: nat, f: nat)
    ensures d * (2 * f) == 2 * (d * f)
  {
  }

  lemma NoBorrow(x: Uint256, y: Uint256)
    requires x.Valid() && x.Num() >= y.Num()
    ensures (x.Num() - y.Num()) % Modulus() == x.Num() - y.Num()
  {
    hide Value, Weight;
    ValueBound(x.pn[..]);
    DivModUnique(x.Num() - y.Num(), Modulus(), 0, x.Num() - y.Num());
  }

  lemma QuotientStep(q: nat, d: nat, r: nat, f: nat, n: nat)
    requires q * d + r == n && r >= d * f
    ensures (q + f) * d + (r - d * f) == n
  {
    Distribute(q, f, d);
  }

  lemma ShiftBack(d: nat, e: nat)
    ensures Pow(2, 1) == 2 && (e > 0 ==> d * Pow(2, e) / 2 == d * Pow(2, e - 1))
  {
    if e > 0 {
      var f := Pow(2, e - 1);
      assert d * Pow(2, e) == 2 * (d * f);
    }
  }

  // ----- the compact format -----

  /** The number that a compact value stands for, without its sign. */
  function Encoded(c: nat): nat {
    var size, word := c / 0x100_0000, c % 0x80_0000;
    PowPositive(2, 8 * (if size <= 3 then 3 - size else 0));
    if size <= 3 then word / Pow(2, 8 * (3 - size)) else word * Pow(2, 8 * (size - 3))
  }

  predicate SignBit(c: nat) { c / 0x80_0000 % 2 == 1 }

  /** `x` moved so that its lowest `size` bytes end up as three. */
  function Mantissa(x: nat, size: nat): nat {
    PowPositive(2, 8 * (if size <= 3 then 0 else size - 3));
    if size <= 3 then x * Pow(2, 8 * (3 - size)) else x / Pow(2, 8 * (size - 3))
  }

  /** The number of low bytes that do not fit. */
  function Dropped(size: nat): nat { if size <= 3 then 0 else size - 3 }

  /** `c` stands for `x` without its low bytes, in the shortest form that leaves the sign bit free. */
  ghost predicate IsCompact(c: nat, x: nat, negative: bool) {
    var size := c / 0x100_0000;
    && IsSize(x, size)
    && Pow(2, 8 * Dropped(size)) > 0 && Encoded(c) == x - x % Pow(2, 8 * Dropped(size))
    && (SignBit(c) <==> negative)
  }

  lemma LowTwo(s: seq<Limb>)
    requires |s| >= 2
    ensures BitOr(s[0], s[1] * BASE) == Value(s) % (BASE * BASE) < BASE * BASE
  {
    hide Value, Pow, Weight, BitOr;
    PowersOfTwo();
    DivOfMultiple(s[1], BASE, 0);
    OrDisjoint(s[0], s[1] * BASE, 32);
    TwoLimbs(s[..2]);
    ValueCut(s, 2);
    WeightZero();
    WeightStep(0);
    WeightStep(1);
    ModUnique(Value(s), BASE * BASE, Value(s[2..]), s[0] + BASE * s[1]);
  }

  /** A multiple of a power of two reaches 2^256 exactly if the factor reaches the rest of it. */
  lemma ReachesModulus(word: nat, e: nat)
    requires e <= 256
    ensures word * Pow(2, e) >= Modulus() <==> word >= Pow(2, 256 - e)
  {
    hide Pow, Weight;
    WeightIs(WIDTH);
    PowAdd(2, 256 - e, e);
    PowPositive(2, e);
    if word >= Pow(2, 256 - e) {
      MulMono(Pow(2, 256 - e), word, Pow(2, e));
    } else {
      MulMono(word + 1, Pow(2, 256 - e), Pow(2, e));
      Distribute(word, 1, Pow(2, e));
    }
  }

  /** The three conditions of the overflow flag are the three sizes at which 2^256 can be reached. */
  lemma EncodedSize(c: nat)
    requires c < 0x1_0000_0000
    ensures var size := c / 0x100_0000;
            var word := if size <= 3 then Encoded(c) else c % 0x80_0000;
            && (Encoded(c) != 0 <==> word != 0)
            && (Encoded(c) >= Modulus() <==>
                word != 0 && (size > 34 || (word > 0xff && size > 33) || (word > 0xffff && size > 32)))
            && (Encoded(c) < Modulus() ==> Encoded(c) % Modulus() == Encoded(c))
  {
    hide Pow, Weight;
    var size, word := c / 0x100_0000, c % 0x80_0000;
    WeightIs(WIDTH);
    PowersOfTwo();
    PowMonotone(2, 24, 256);
    if Encoded(c) < Modulus() {
      DivModUnique(Encoded(c), Modulus(), 0, Encoded(c));
    }
    if size <= 3 {
      PowPositive(2, 8 * (3 - size));
      DivShrinks(word, Pow(2, 8 * (3 - size)));
    } else {
      var e := 8 * (size - 3);
      PowPositive(2, e);
      MulMono(1, Pow(2, e), word);
      PowZero(2);
      if e > 256 {
        PowMonotone(2, 256, e);
        if word > 0 {
          MulMono(1, word, Pow(2, e));
        }
      } else {
        ReachesModulus(word, e);
        if e < 240 {
          PowMonotone(2, 23, 256 - e);
        }
      }
    }
  }

  lemma DivBelow(x: nat, d: nat, q: nat)
    requires d > 0
    ensures x / d < q <==> x < q * d
  {
    assert x == x / d * d + x % d;
    if x / d < q {
      MulMono(x / d + 1, q, d);
      Distribute(x / d, 1, d);
    } else {
      MulMono(q, x / d, d);
    }
  }

  lemma MantissaBelow(x: nat, size: nat, t: nat)
    requires t <= 24 <= 8 * size + t
    ensures Mantissa(x, size) < Pow(2, t) <==> x < Pow(2, 8 * size + t - 24)
  {
    hide Pow;
    if size <= 3 {
      var k := 8 * (3 - size);
      PowAdd(2, t - k, k);
      PowPositive(2, k);
      if x < Pow(2, t - k) {
        MulMono(x + 1, Pow(2, t - k), Pow(2, k));
        Distribute(x, 1, Pow(2, k));
      } else {
        MulMono(Pow(2, t - k), x, Pow(2, k));
      }
    } else {
      var k := 8 * (size - 3);
      PowAdd(2, t, k);
      PowPositive(2, k);
      DivBelow(x, Pow(2, k), Pow(2, t));
    }
  }

  /** Three bytes hold the mantissa; its sign bit is in the way exactly when the top byte is full. */
  lemma MantissaOf(x: nat, n: nat, size: nat)
    requires size == (n + 7) / 8 && (n == 0 ==> x == 0) && (n > 0 ==> Pow(2, n - 1) <= x < Pow(2, n))
    ensures Mantissa(x, size) < 0x100_0000
    ensures n > 0 ==> (Mantissa(x, size) >= 0x80_0000 <==> n == 8 * size)
    ensures n == 0 ==> Mantissa(x, size) == 0
  {
    hide Pow;
    PowersOfTwo();
    if n > 0 {
      hide Mantissa;
      MantissaBelow(x, size, 24);
      MantissaBelow(x, size, 23);
      PowMonotone(2, n, 8 * size);
      if n < 8 * size {
        PowMonotone(2, n, 8 * size - 1);
      }
    }
  }

  lemma SmallCompact(x: nat, size: nat, low: nat)
    requires size <= 3 && low == x % (BASE * BASE) && Mantissa(x, size) < 0x100_0000
    ensures low * Pow(2, 8 * (3 - size)) % (BASE * BASE) % BASE == Mantissa(x, size)
  {
    hide Pow;
    var f := Pow(2, 8 * (3 - size));
    PowPositive(2, 8 * (3 - size));
    MulMono(1, f, x);
    DivModUnique(x, BASE * BASE, 0, x);
    DivModUnique(x * f, BASE * BASE, 0, x * f);
    DivModUnique(x * f, BASE, 0, x * f);
  }

  lemma LargeCompact(x: nat, size: nat, v: nat)
    requires size > 3 && Pow(2, 8 * (size - 3)) > 0 && v == x / Pow(2, 8 * (size - 3)) && Mantissa(x, size) < 0x100_0000
    ensures v % (BASE * BASE) % BASE == Mantissa(x, size)
  {
    hide Pow;
    DivModUnique(v, BASE * BASE, 0, v);
    DivModUnique(v, BASE, 0, v);
  }

  /** One more byte of size is one byte less of mantissa. */
  lemma MantissaNext(x: nat, size: nat)
    ensures Mantissa(x, size + 1) == Mantissa(x, size) / 0x100
  {
    PowersOfTwo();
    PowZero(2);
    hide Pow;
    if size < 3 {
      var k := 8 * (2 - size);
      PowAdd(2, k, 8);
      MulAssoc(x, Pow(2, k), 0x100);
      DivOfMultiple(x * Pow(2, k), 0x100, 0);
    } else {
      var k := 8 * (size - 3);
      PowPositive(2, k);
      PowAdd(2, k, 8);
      DivDiv(x, Pow(2, k), 0x100);
    }
  }

  /** What the mantissa stands for again. */
  lemma EncodedMantissa(c: nat, x: nat, size: nat)
    requires c / 0x100_0000 == size && c % 0x80_0000 == Mantissa(x, size)
    ensures Pow(2, 8 * Dropped(size)) > 0 && Encoded(c) == x - x % Pow(2, 8 * Dropped(size))
  {
    PowZero(2);
    hide Pow;
    PowPositive(2, 8 * Dropped(size));
    var d := Pow(2, 8 * Dropped(size));
    assert x == x / d * d + x % d;
    if size <= 3 {
      PowPositive(2, 8 * (3 - size));
      DivOfMultiple(x, Pow(2, 8 * (3 - size)), 0);
    }
  }

  lemma OrParts(m: nat, size: nat, sign: bool)
    requires m < 0x80_0000
    ensures BitOr(m, size * 0x100_0000) == m + size * 0x100_0000
    ensures BitOr(m + size * 0x100_0000, if sign then 0x80_0000 else 0)
            == m + size * 0x100_0000 + if sign then 0x80_0000 else 0
  {
    PowersOfTwo();
    hide Pow, BitOr;
    OrDisjoint(m, size * 0x100_0000, 24);
    OrZero(m + size * 0x100_0000);
    OrZero(m);
    OrSplit(m, 2 * size, 0, 1, 23);
    OrDisjoint(1, 2 * size, 1);
    OrCommutes(1, 2 * size);
  }

  lemma CompactParts(x: nat, n: nat, size: nat, m: nat, negative: bool)
    requires n <= 256 && m == Mantissa(x, size) && m < 0x80_0000
    requires if n == 0 then x == 0 && size == 0 else Pow(2, n - 1) <= x < Pow(2, n) && size == n / 8 + 1
    ensures size < 256 && BitOr(m, size * 0x100_0000) == m + size * 0x100_0000
    ensures var c1 := m + size * 0x100_0000;
            var c := BitOr(c1, if negative && c1 % 0x80_0000 != 0 then 0x80_0000 else 0);
            && c < 0x1_0000_0000
            && (x == 0 ==> c == 0) && (x > 0 ==> IsCompact(c, x, negative))
  {
    hide BitOr, Pow, IsCompact, Mantissa;
    var sign := negative && m != 0;
    assert (m + size * 0x100_0000) % 0x80_0000 == m;
    OrParts(m, size, sign);
    CompactMeans(x, n, size, m, negative);
  }

  /** What the three parts put side by side encode. */
  lemma CompactMeans(x: nat, n: nat, size: nat, m: nat, negative: bool)
    requires n <= 256 && m == Mantissa(x, size) && m < 0x80_0000
    requires if n == 0 then x == 0 && size == 0 else Pow(2, n - 1) <= x < Pow(2, n) && size == n / 8 + 1
    ensures var c := m + size * 0x100_0000 + if negative && m != 0 then 0x80_0000 else 0;
            c < 0x1_0000_0000 && (x == 0 ==> c == 0) && (x > 0 ==> IsCompact(c, x, negative))
  {
    hide Pow, Encoded, IsSize, Mantissa, SignBit;
    var c := m + size * 0x100_0000 + if negative && m != 0 then 0x80_0000 else 0;
    SideBySide(m, size, negative && m != 0);
    if n > 0 {
      EncodedMantissa(c, x, size);
      SizeOf(x, n, size);
      MantissaPositive(x, n, size);
    } else {
      NoMantissa();
    }
  }

  lemma SideBySide(m: nat, size: nat, sign: bool)
    requires m < 0x80_0000 && size < 256
    ensures var c := m + size * 0x100_0000 + if sign then 0x80_0000 else 0;
            && c / 0x100_0000 == size && c % 0x80_0000 == m && c < 0x1_0000_0000
            && (SignBit(c) <==> sign)
  {
  }

  lemma NoMantissa()
    ensures Mantissa(0, 0) == 0
  {
  }

  lemma SizeOf(x: nat, n: nat, size: nat)
    requires n > 0 && Pow(2, n - 1) <= x < Pow(2, n) && size == n / 8 + 1
    ensures x > 0 && IsSize(x, size)
  {
    PowStep(n - 1);
    PowStep(n);
    hide Pow;
    PowMonotone(2, 8 * (size - 1), n);
    PowMonotone(2, n + 1, 8 * size);
  }

  lemma MantissaPositive(x: nat, n: nat, size: nat)
    requires n > 0 && Pow(2, n - 1) <= x && size == n / 8 + 1
    ensures Mantissa(x, size) > 0
  {
    hide Pow;
    PowPositive(2, n - 1);
    if size <= 3 {
      PowPositive(2, 8 * (3 - size));
      MulMono(1, x, Pow(2, 8 * (3 - size)));
    } else {
      PowMonotone(2, 8 * (size - 3), n - 1);
      PowPositive(2, 8 * (size - 3));
      DivBelow(x, Pow(2, 8 * (size - 3)), 1);
    }
  }

  /** Writing a number in the compact format and reading it back drops its low bytes and nothing else. */
  method CompactRoundTrip(x: Uint256, fNegative: bool) returns (y: Uint256, negative: bool, overflow: bool)
    requires x.Valid()
    ensures y.Valid() && !overflow && (negative <==> fNegative && x.Num() > 0)
    ensures x.Num() == 0 ==> y.Num() == 0
    ensures x.Num() > 0 ==>
              exists size: nat :: IsSize(x.Num(), size) && Pow(2, 8 * Dropped(size)) > 0
                                  && y.Num() == x.Num() - x.Num() % Pow(2, 8 * Dropped(size))
  {
    hide Value, Pow, Weight, Encoded;
    var c := x.GetCompact(fNegative);
    y := new Uint256(0);
    negative, overflow := y.SetCompact(c);
    EncodedSize(c);
    ValueBound(x.pn[..]);
    if x.Num() > 0 {
      TruncatedPositive(x.Num(), c / 0x100_0000);
    } else {
      EncodedZero();
    }
  }

  /** The number of bytes of `x` with a sign bit in front. */
  ghost predicate IsSize(x: nat, size: nat) { size > 0 && Pow(2, 8 * (size - 1)) <= 2 * x < Pow(2, 8 * size) }

  lemma EncodedZero()
    ensures Encoded(0) == 0
  {
    PowPositive(2, 24);
    hide Pow;
    DivModUnique(0, Pow(2, 24), 0, 0);
  }

  lemma TruncatedPositive(x: nat, size: nat)
    requires IsSize(x, size) && x > 0
    ensures Pow(2, 8 * Dropped(size)) > 0 && 0 < x - x % Pow(2, 8 * Dropped(size)) <= x
  {
    PowZero(2);
    hide Pow;
    var d := Pow(2, 8 * Dropped(size));
    PowPositive(2, 8 * Dropped(size));
    if size > 3 {
      PowersOfTwo();
      PowAdd(2, 8 * (size - 3), 16);
      assert x >= d;
      DivBelow(x, d, 1);
      assert x == x / d * d + x % d;
      MulMono(1, x / d, d);
    }
  }
}
