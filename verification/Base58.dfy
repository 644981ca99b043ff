/**
 Base 58: byte strings as numbers written with 58 characters, leading zeros kept apart. The
 conversions run in place in buffers whose sizes are rational estimates of logarithms.
 */
module Base58 {
  import opened Numbers
  import opened Digits
  import opened Sequences

  // ----- shortest digits -----

  /** The digits of a number, without leading zeros. */
  function Rep(b: nat, v: nat): Digits
    requires b >= 2
    decreases v
  {
    if v == 0 then [] else Rep(b, v / b) + [v % b]
  }

  lemma Quotient(v: nat, b: nat)
    requires b >= 2 && v > 0
    ensures v / b < v && v == v / b * b + v % b && v % b < b && (v / b == 0 ==> v % b != 0)
  {
    assert v == v / b * b + v % b;
    MulMono(2, b, v / b);
  }

  lemma {:induction false} RepIs(b: nat, v: nat)
    requires b >= 2
    ensures Val(b, Rep(b, v)) == v && Below(b, Rep(b, v))
    ensures Rep(b, v) != [] ==> Rep(b, v)[0] != 0
    decreases v
  {
    if v > 0 {
      var q, r := v / b, v % b;
      assert Rep(b, v) == Rep(b, q) + [r];
      hide Val, Rep;
      Quotient(v, b);
      RepIs(b, q);
      ValAppend(b, Rep(b, q), r);
      ValZeros(b, []);
    }
  }

  lemma {:induction false} RepUnique(b: nat, s: Digits)
    requires b >= 2 && Below(b, s) && (s != [] ==> s[0] != 0)
    ensures Rep(b, Val(b, s)) == s
    ensures s != [] ==> Val(b, s) > 0
  {
    if s != [] {
      var n := |s| - 1;
      RepUnique(b, s[..n]);
      var v := Val(b, s[..n]);
      DivOfMultiple(v, b, s[n]);
      if n > 0 {
        MulMono(1, v, b);
      }
    }
  }

  // ----- recoding -----

  /** The number of leading zeros. */
  function Lead(s: Digits): nat { if s == [] || s[0] != 0 then 0 else 1 + Lead(s[1..]) }

  lemma {:induction false} LeadIs(s: Digits)
    ensures Lead(s) <= |s| && (forall i | 0 <= i < Lead(s) :: s[i] == 0)
    ensures Lead(s) < |s| ==> s[Lead(s)] != 0
  {
    if s != [] && s[0] == 0 {
      LeadIs(s[1..]);
    }
  }

  lemma {:induction false} LeadUnique(s: Digits, z: nat)
    requires z <= |s| && (forall i | 0 <= i < z :: s[i] == 0) && (z < |s| ==> s[z] != 0)
    ensures Lead(s) == z
  {
    if z > 0 {
      LeadUnique(s[1..], z - 1);
    }
  }

  /** The same number in another base, behind the same number of leading zeros. */
  function Recode(b: nat, c: nat, s: Digits): Digits
    requires c >= 2
  {
    Zeros(Lead(s)) + Rep(c, Val(b, s))
  }

  lemma RecodeBelow(b: nat, c: nat, s: Digits)
    requires c >= 2
    ensures Below(c, Recode(b, c, s)) && Lead(Recode(b, c, s)) == Lead(s) && Val(c, Recode(b, c, s)) == Val(b, s)
  {
    var z, r := Zeros(Lead(s)), Rep(c, Val(b, s));
    RepIs(c, Val(b, s));
    LeadUnique(z + r, Lead(s));
    ValConcat(c, z, r);
    ValZeros(c, z);
  }

  /** Leading zeros do not count. */
  lemma ValStrip(b: nat, s: Digits)
    ensures Lead(s) <= |s| && Val(b, s) == Val(b, s[Lead(s)..])
  {
    LeadIs(s);
    var z := Lead(s);
    assert s == s[..z] + s[z..];
    ValConcat(b, s[..z], s[z..]);
    ValZeros(b, s[..z]);
  }

  /** Recoding back and forth is the identity. */
  lemma RecodeRecode(b: nat, c: nat, s: Digits)
    requires b >= 2 && c >= 2 && Below(b, s)
    ensures Recode(c, b, Recode(b, c, s)) == s
  {
    RecodeBelow(b, c, s);
    ValStrip(b, s);
    LeadIs(s);
    RepUnique(b, s[Lead(s)..]);
  }

  // ----- the buffers are large enough -----

  lemma {:induction false} PowStrict(a: nat, b: nat, n: nat)
    requires a < b && n > 0
    ensures Pow(a, n) < Pow(b, n)
  {
    if n > 1 {
      PowStrict(a, b, n - 1);
      MulMono(a, b, Pow(a, n - 1));
      MulMono(Pow(a, n - 1) + 1, Pow(b, n - 1), b);
      Distribute(Pow(a, n - 1), 1, b);
    } else {
      assert Pow(a, 1) == a && Pow(b, 1) == b;
    }
  }

  lemma {:induction false} PowBases(a: nat, b: nat, n: nat)
    requires a <= b
    ensures Pow(a, n) <= Pow(b, n)
  {
    if n > 0 {
      PowBases(a, b, n - 1);
      MulMono(a, b, Pow(a, n - 1));
      MulMono(Pow(a, n - 1), Pow(b, n - 1), b);
    }
  }

  /** If a^p <= b^q then m digits of base a fit into n digits of base b whenever n / m is at least q / p. */
  lemma DigitsFit(a: nat, b: nat, p: nat, q: nat, m: nat, n: nat)
    requires a > 0 && b > 0 && p > 0 && Pow(a, p) <= Pow(b, q) && q * m <= p * n
    ensures Pow(a, m) <= Pow(b, n)
  {
    hide Pow;
    PowSwap(a, m, p);
    PowBases(Pow(a, p), Pow(b, q), m);
    Stretch(b, q, m, p, n);
    PowSwap(b, n, p);
    if Pow(b, n) < Pow(a, m) {
      PowStrict(Pow(b, n), Pow(a, m), p);
    }
  }

  lemma Stretch(b: nat, q: nat, m: nat, p: nat, n: nat)
    requires b > 0 && q * m <= p * n
    ensures Pow(Pow(b, q), m) <= Pow(Pow(b, p), n)
  {
    hide Pow;
    PowPow(b, q, m);
    PowPow(b, p, n);
    PowMonotone(b, q * m, p * n);
  }

  lemma PowSwap(b: nat, m: nat, n: nat)
    ensures Pow(Pow(b, m), n) == Pow(Pow(b, n), m)
  {
    hide Pow;
    PowPow(b, m, n);
    PowPow(b, n, m);
    assert m * n == n * m;
  }

  lemma EncodeFact()
    ensures Pow(256, 8) <= Pow(58, 11)
  {
    assert Pow(256, 1) == 256;
    assert Pow(58, 1) == 58;
    hide Pow;
    PowAdd(256, 1, 1);
    PowAdd(256, 2, 2);
    PowAdd(256, 4, 4);
    PowAdd(58, 1, 1);
    PowAdd(58, 2, 2);
    PowAdd(58, 4, 4);
    PowAdd(58, 8, 2);
    PowAdd(58, 10, 1);
  }

  lemma Power58()
    ensures Pow(58, 1) == 58 && Pow(58, 2) == 3364 && Pow(58, 4) == 11316496
    ensures Pow(58, 8) == 128063081718016 && Pow(58, 16) == 16400_152899115243_850138976256
  {
    assert Pow(58, 1) == 58;
    hide Pow;
    PowAdd(58, 1, 1);
    PowAdd(58, 2, 2);
    PowAdd(58, 4, 4);
    PowAdd(58, 8, 8);
  }

  const E60: nat := 1_000000000000_000000000000_000000000000_000000000000_000000000000
  const X32: nat := 268965015_114358137726_910587140455_987105619365_599731777536
  const X64: nat :=
    72342_179355466901_471258927612_150153907721_848234316445 * E60 +
    933056526044_582001260898_145151856420_451025374266_490194231296
  const X71: nat :=
    159730_386663078066_345306447337_161584696769_904898410078_913243029577 * E60 +
    507397293846_405390982563_136983769384_625594118558_891106107392

  lemma Power58High()
    ensures Pow(58, 32) == X32 && Pow(58, 64) == X64
  {
    Power58();
    hide Pow;
    PowAdd(58, 16, 16);
    PowAdd(58, 32, 32);
  }

  lemma Power58Top()
    ensures Pow(58, 71) == X71
  {
    Power58();
    Power58High();
    hide Pow;
    PowAdd(58, 64, 4);
    PowAdd(58, 2, 1);
    PowAdd(58, 68, 3);
  }

  const Y16: nat := 340_282366920938_463463374607_431768211456
  const Y52: nat :=
    169230_328010303641_331690318856_389386196071_598838855992_136870091590 * E60 +
    247882556495_704531248437_872567112920_983350278405_979725889536

  lemma Power256()
    ensures Pow(256, 4) == 0x1_0000_0000 && Pow(256, 16) == Y16
  {
    assert Pow(256, 1) == 256;
    hide Pow;
    PowAdd(256, 1, 1);
    PowAdd(256, 2, 2);
    PowAdd(256, 4, 4);
    PowAdd(256, 8, 8);
  }

  lemma Power256Top()
    ensures Pow(256, 52) == Y52
  {
    Power256();
    hide Pow;
    PowAdd(256, 16, 16);
    PowAdd(256, 32, 16);
    PowAdd(256, 48, 4);
  }

  lemma DecodeFact()
    ensures Pow(58, 71) <= Pow(256, 52)
  {
    hide Pow;
    Power58Top();
    Power256Top();
  }

  /** 138/100 of the bytes, rounded up, is room enough for the digits. */
  lemma EncodeRoom(m: nat)
    ensures Pow(256, m) <= Pow(58, m * 138 / 100 + 1)
  {
    EncodeFact();
    DigitsFit(256, 58, 8, 11, m, m * 138 / 100 + 1);
  }

  /** 733/1000 of the digits, rounded up, is room enough for the bytes. */
  lemma DecodeRoom(m: nat)
    ensures Pow(58, m) <= Pow(256, m * 733 / 1000 + 1)
  {
    DecodeFact();
    DigitsFit(58, 256, 71, 52, m, m * 733 / 1000 + 1);
  }

  // ----- characters -----

  /** The alphabet: no zero, no capital I and O, no small l. */
  function CharOf(d: nat): char
    requires d < 58
  {
    match d
    case 0 => '1' case 1 => '2' case 2 => '3' case 3 => '4' case 4 => '5' case 5 => '6' case 6 => '7' case 7 => '8'
    case 8 => '9' case 9 => 'A' case 10 => 'B' case 11 => 'C'
    case 12 => 'D' case 13 => 'E' case 14 => 'F' case 15 => 'G'
    case 16 => 'H' case 17 => 'J' case 18 => 'K' case 19 => 'L'
    case 20 => 'M' case 21 => 'N' case 22 => 'P' case 23 => 'Q'
    case 24 => 'R' case 25 => 'S' case 26 => 'T' case 27 => 'U'
    case 28 => 'V' case 29 => 'W' case 30 => 'X' case 31 => 'Y'
    case 32 => 'Z' case 33 => 'a' case 34 => 'b' case 35 => 'c'
    case 36 => 'd' case 37 => 'e' case 38 => 'f' case 39 => 'g'
    case 40 => 'h' case 41 => 'i' case 42 => 'j' case 43 => 'k'
    case 44 => 'm' case 45 => 'n' case 46 => 'o' case 47 => 'p'
    case 48 => 'q' case 49 => 'r' case 50 => 's' case 51 => 't'
    case 52 => 'u' case 53 => 'v' case 54 => 'w' case 55 => 'x'
    case 56 => 'y' case _ => 'z'
  }

  function DigitOf(c: char): int {
    match c
    case '1' => 0 case '2' => 1 case '3' => 2 case '4' => 3 case '5' => 4 case '6' => 5 case '7' => 6 case '8' => 7
    case '9' => 8 case 'A' => 9 case 'B' => 10 case 'C' => 11
    case 'D' => 12 case 'E' => 13 case 'F' => 14 case 'G' => 15
    case 'H' => 16 case 'J' => 17 case 'K' => 18 case 'L' => 19
    case 'M' => 20 case 'N' => 21 case 'P' => 22 case 'Q' => 23
    case 'R' => 24 case 'S' => 25 case 'T' => 26 case 'U' => 27
    case 'V' => 28 case 'W' => 29 case 'X' => 30 case 'Y' => 31
    case 'Z' => 32 case 'a' => 33 case 'b' => 34 case 'c' => 35
    case 'd' => 36 case 'e' => 37 case 'f' => 38 case 'g' => 39
    case 'h' => 40 case 'i' => 41 case 'j' => 42 case 'k' => 43
    case 'm' => 44 case 'n' => 45 case 'o' => 46 case 'p' => 47
    case 'q' => 48 case 'r' => 49 case 's' => 50 case 't' => 51
    case 'u' => 52 case 'v' => 53 case 'w' => 54 case 'x' => 55
    case 'y' => 56 case 'z' => 57 case _ => -1
  }

  lemma DigitChar(d: nat)
    requires d < 58
    ensures DigitOf(CharOf(d)) == d && !IsSpace(CharOf(d)) && CharOf(d) != '\0'
  {
  }

  lemma CharDigit(c: char)
    requires DigitOf(c) != -1
    ensures 0 <= DigitOf(c) < 58 && CharOf(DigitOf(c)) == c && !IsSpace(c) && c != '\0'
  {
  }

  /** White space of the C locale. */
  predicate IsSpace(c: char) { c == ' ' || 9 as char <= c <= 13 as char }

  // ----- encoding -----

  function Text(d: Digits): string
    requires Below(58, d)
  {
    seq(|d|, i requires 0 <= i < |d| => CharOf(d[i]))
  }

  function Encoded(bytes: Digits): string {
    RecodeBelow(256, 58, bytes);
    Text(Recode(256, 58, bytes))
  }

  /** Multiplies a number by `mult` and adds `add`, digit by digit from the lowest. */
  method MulAdd(a: array<nat>, mult: nat, base: nat, add: nat) returns (carry: nat)
    requires base >= 2 && Below(base, a[..])
    modifies a
    ensures Below(base, a[..])
    ensures Val(base, a[..]) + carry * Pow(base, a.Length) == mult * Val(base, old(a[..])) + add
  {
    hide Val, Pow;
    ghost var s := a[..];
    var n := a.Length;
    carry := add;
    ValZeros(base, []);
    assert a[n..] == s[n..] == [];
    assert Pow(base, 0) == 1 by { PowZero(base); }
    for i := n downto 0
      invariant a[..i] == s[..i] && Below(base, a[i..])
      invariant Val(base, a[i..]) + carry * Pow(base, n - i) == mult * Val(base, s[i..]) + add
    {
      ghost var low := a[i + 1..];
      CarryStep(base, low, s[i + 1..], n - i - 1, s[i], carry, mult, add);
      assert s[i..] == [s[i]] + s[i + 1..];
      carry := carry + mult * a[i];
      a[i] := carry % base;
      carry := carry / base;
      assert a[i..] == [a[i]] + low;
    }
    assert a[0..] == a[..] && s[0..] == s;
  }

  lemma ValFront(b: nat, d: nat, s: Digits, l: nat)
    requires |s| == l
    ensures Val(b, [d] + s) == d * Pow(b, l) + Val(b, s)
  {
    ValConcat(b, [d], s);
    assert [d][..0] == [];
  }

  lemma CarryStep(base: nat, low: Digits, rest: Digits, l: nat, d: nat, c: nat, mult: nat, add: nat)
    requires base >= 2 && |low| == |rest| == l
    requires Val(base, low) + c * Pow(base, l) == mult * Val(base, rest) + add
    ensures var x := c + mult * d;
            Val(base, [x % base] + low) + x / base * Pow(base, l + 1) == mult * Val(base, [d] + rest) + add
  {
    var x := c + mult * d;
    assert Pow(base, l + 1) == base * Pow(base, l);
    hide Val, Pow;
    ValFront(base, d, rest, l);
    ValFront(base, x % base, low, l);
    CarrySums(base, Pow(base, l), Val(base, low), Val(base, rest), d, c, mult, add);
  }

  lemma CarrySums(base: nat, w: nat, v: nat, y: nat, d: nat, c: nat, mult: nat, add: nat)
    requires base > 0 && v + c * w == mult * y + add
    ensures var x := c + mult * d;
            x % base * w + v + x / base * (base * w) == mult * (d * w + y) + add
  {
    var x := c + mult * d;
    assert x == x / base * base + x % base;
    Distribute(x / base * base, x % base, w);
    MulAssoc(x / base, base, w);
    Distribute(c, mult * d, w);
    Distribute(d * w, y, mult);
    assert mult * d * w == d * w * mult;
  }

  /** Nothing is carried out of a buffer that has room for the result. */
  lemma NoCarry(v: nat, c: nat, p: nat, total: nat)
    requires v + c * p == total < p
    ensures c == 0 && v == total
  {
    if c > 0 {
      MulMono(1, c, p);
    }
  }

  lemma PrefixBound(b: nat, s: Digits, n: nat, room: nat)
    requires b > 0 && Below(b, s) && n <= |s| && Pow(b, |s|) <= room
    ensures Val(b, s[..n]) < room
  {
    ValBound(b, s[..n]);
    PowMonotone(b, n, |s|);
  }

  /** Converts digits of base `b` into a buffer of base `c`; the carry out is always zero. */
  method Convert(b: nat, c: nat, s: Digits, size: nat) returns (buffer: array<nat>)
    requires b >= 2 && c >= 2 && Below(b, s) && Pow(b, |s|) <= Pow(c, size)
    ensures fresh(buffer) && Below(c, buffer[..]) && Val(c, buffer[..]) == Val(b, s)
  {
    hide Val, Pow;
    buffer := new nat[size](_ => 0);
    ValZeros(c, buffer[..]);
    ValZeros(b, []);
    assert s[..0] == [];
    for i := 0 to |s|
      invariant Below(c, buffer[..]) && Val(c, buffer[..]) == Val(b, s[..i])
      invariant fresh(buffer)
    {
      ghost var v := Val(c, buffer[..]);
      var carry := MulAdd(buffer, b, c, s[i]);
      ValAppend(b, s[..i], s[i]);
      assert s[..i] + [s[i]] == s[..i + 1];
      PrefixBound(b, s, i + 1, Pow(c, size));
      NoCarry(Val(c, buffer[..]), carry, Pow(c, size), Val(b, s[..i + 1]));
      assert carry == 0;
    }
    assert s[..|s|] == s;
  }

  method CountZeros(s: Digits) returns (z: nat)
    ensures z == Lead(s)
  {
    z := 0;
    while z < |s| && s[z] == 0
      invariant z <= |s| && forall i | 0 <= i < z :: s[i] == 0
    {
      z := z + 1;
    }
    LeadUnique(s, z);
  }

  method EncodeBase58(vch: Digits) returns (str: string)
    requires Below(256, vch)
    ensures str == Encoded(vch)
  {
    hide Val, Pow, Rep, CharOf, Lead;
    var zeroes := CountZeros(vch);
    LeadIs(vch);
    var rest := vch[zeroes..];
    EncodeRoom(|rest|);
    var b58 := Convert(256, 58, rest, |rest| * 138 / 100 + 1);
    var it := CountZeros(b58[..]);
    LeadIs(b58[..]);
    ValStrip(256, vch);
    ValStrip(58, b58[..]);
    RepUnique(58, b58[..][it..]);
    RecodeBelow(256, 58, vch);
    ghost var d := Recode(256, 58, vch);
    assert d == Zeros(zeroes) + b58[..][it..];
    str := seq(zeroes, _ => '1');
    FirstChar();
    assert str == Text(d)[..zeroes];
    for i := it to b58.Length
      invariant str == Text(d)[..zeroes + i - it]
    {
      str := str + [CharOf(b58[i])];
    }
    assert Text(d)[..|d|] == Text(d);
  }

  lemma FirstChar()
    ensures CharOf(0) == '1'
  {
  }

  // ----- decoding -----

  datatype Option<T> = None | Some(value: T)

  /** What a C string shows of a string that may hold a zero character. */
  function CString(s: string): string {
    FindIs(s, '\0');
    s[..Find(s, '\0')]
  }

  /** The first index from `i` on whose character is a space, or is none. */
  function Skip(t: string, i: nat, spaces: bool): nat
    requires i <= |t|
    decreases |t| - i
  {
    if i < |t| && IsSpace(t[i]) == spaces then Skip(t, i + 1, spaces) else i
  }

  lemma {:induction false} SkipIs(t: string, i: nat, spaces: bool)
    requires i <= |t|
    ensures i <= Skip(t, i, spaces) <= |t|
    ensures forall j | i <= j < Skip(t, i, spaces) :: IsSpace(t[j]) == spaces
    ensures Skip(t, i, spaces) < |t| ==> IsSpace(t[Skip(t, i, spaces)]) != spaces
    decreases |t| - i
  {
    if i < |t| && IsSpace(t[i]) == spaces {
      SkipIs(t, i + 1, spaces);
    }
  }

  predicate InAlphabet(t: string) { forall i | 0 <= i < |t| :: DigitOf(t[i]) != -1 }

  function DigitsIn(t: string): (d: Digits)
    requires InAlphabet(t)
    ensures |d| == |t| && Below(58, d)
  {
    seq(|t|, i requires 0 <= i < |t| => CharDigit(t[i]); DigitOf(t[i]))
  }

  /** The run of other characters behind the leading spaces. */
  function Core(t: string): string {
    SkipIs(t, 0, true);
    var a := Skip(t, 0, true);
    SkipIs(t, a, false);
    t[a..Skip(t, a, false)]
  }

  /** Nothing but spaces around the core. */
  predicate OnlyCore(t: string) {
    SkipIs(t, 0, true);
    var a := Skip(t, 0, true);
    SkipIs(t, a, false);
    Skip(t, Skip(t, a, false), true) == |t|
  }

  function Decoded(s: string): Option<Digits> {
    var t := CString(s);
    if OnlyCore(t) && InAlphabet(Core(t)) then Some(Recode(58, 256, DigitsIn(Core(t)))) else None
  }

  lemma {:induction false} SkipTo(t: string, i: nat, j: nat, spaces: bool)
    requires i <= j <= |t| && (forall k | i <= k < j :: IsSpace(t[k]) == spaces)
    requires j < |t| ==> IsSpace(t[j]) != spaces
    ensures Skip(t, i, spaces) == j
    decreases j - i
  {
    if i < j {
      SkipTo(t, i + 1, j, spaces);
    }
  }

  /** A string over the alphabet is all core. */
  lemma AlphabetIsCore(t: string)
    requires InAlphabet(t)
    ensures CString(t) == t && OnlyCore(t) && Core(t) == t
  {
    hide DigitOf, IsSpace;
    forall i | 0 <= i < |t| ensures !IsSpace(t[i]) && t[i] != '\0' { CharDigit(t[i]); }
    FindUnique(t, '\0', |t|);
    SkipTo(t, 0, 0, true);
    SkipTo(t, 0, |t|, false);
    SkipTo(t, |t|, |t|, true);
  }

  lemma TextDigits(d: Digits)
    requires Below(58, d)
    ensures InAlphabet(Text(d)) && DigitsIn(Text(d)) == d
  {
    hide DigitOf, CharOf;
    forall i | 0 <= i < |d| ensures DigitOf(Text(d)[i]) == d[i] { DigitChar(d[i]); }
  }

  lemma DigitsText(t: string)
    requires InAlphabet(t)
    ensures Text(DigitsIn(t)) == t
  {
    hide DigitOf, CharOf;
    forall i | 0 <= i < |t| ensures Text(DigitsIn(t))[i] == t[i] { CharDigit(t[i]); }
  }

  /** Decoding undoes encoding on every byte string. */
  lemma DecodeEncode(bytes: Digits)
    requires Below(256, bytes)
    ensures Decoded(Encoded(bytes)) == Some(bytes)
  {
    hide Recode, Text, DigitsIn, InAlphabet, OnlyCore, Core, CString;
    RecodeBelow(256, 58, bytes);
    var d := Recode(256, 58, bytes);
    TextDigits(d);
    AlphabetIsCore(Text(d));
    RecodeRecode(256, 58, bytes);
  }

  /** Whatever decodes is, without the spaces around it, the encoding of the result. */
  lemma EncodeDecode(s: string)
    requires Decoded(s).Some?
    ensures Below(256, Decoded(s).value) && Encoded(Decoded(s).value) == Core(CString(s))
  {
    hide Recode, Text, InAlphabet, OnlyCore, Core, CString;
    var d := DigitsIn(Core(CString(s)));
    RecodeBelow(58, 256, d);
    RecodeRecode(58, 256, d);
    DigitsText(Core(CString(s)));
  }

  /** Every string over the alphabet decodes, and encodes back to itself. */
  lemma AlphabetRoundTrip(s: string)
    requires InAlphabet(s)
    ensures Decoded(s).Some? && Encoded(Decoded(s).value) == s
  {
    hide Recode, DigitsIn, Text, InAlphabet, OnlyCore, Core, CString;
    AlphabetIsCore(s);
    EncodeDecode(s);
  }

  method SkipWhile(t: string, i: nat, spaces: bool) returns (j: nat)
    requires i <= |t|
    ensures j == Skip(t, i, spaces) && i <= j <= |t|
  {
    j := i;
    while j < |t| && IsSpace(t[j]) == spaces
      invariant i <= j <= |t| && forall k | i <= k < j :: IsSpace(t[k]) == spaces
    {
      j := j + 1;
    }
    SkipTo(t, i, j, spaces);
  }

  lemma FirstDigit()
    ensures DigitOf('1') == 0 && !IsSpace('1')
  {
  }

  method CountOnes(t: string, from: nat) returns (z: nat)
    requires from <= |t|
    ensures from + z <= |t| && (forall j | from <= j < from + z :: t[j] == '1')
    ensures from + z < |t| ==> t[from + z] != '1'
  {
    z := 0;
    while from + z < |t| && t[from + z] == '1'
      invariant from + z <= |t| && forall j | from <= j < from + z :: t[j] == '1'
    {
      z := z + 1;
    }
  }

  lemma DigitsBound(d: Digits, m: nat, n: nat)
    requires Below(58, d) && |d| <= m && Pow(58, m) <= Pow(256, n)
    ensures Val(58, d) < Pow(256, n)
  {
    hide Pow, Val;
    ValBound(58, d);
    PowMonotone(58, |d|, m);
  }

  /** Reads characters up to a space or the end into a buffer; the carry out is always zero. */
  method ReadDigits(t: string, from: nat) returns (ok: bool, psz: nat, b256: array<nat>)
    requires from <= |t|
    ensures from <= Skip(t, from, false) <= |t|
    ensures ok <==> InAlphabet(t[from..Skip(t, from, false)])
    ensures ok ==> psz == Skip(t, from, false) && Below(256, b256[..])
    ensures ok ==> Val(256, b256[..]) == Val(58, DigitsIn(t[from..Skip(t, from, false)]))
  {
    hide Val, Pow, DigitOf, IsSpace, Skip;
    SkipIs(t, from, false);
    ghost var run := t[from..Skip(t, from, false)];
    psz := from;
    var m := |t| - from;
    DecodeRoom(m);
    b256 := new nat[m * 733 / 1000 + 1](_ => 0);
    ValZeros(256, b256[..]);
    ValZeros(58, []);
    ghost var digits: Digits := [];
    while psz < |t| && !IsSpace(t[psz])
      invariant from <= psz <= from + |run| && |digits| == psz - from && Below(58, digits)
      invariant forall j | 0 <= j < |digits| :: digits[j] == DigitOf(run[j]) != -1
      invariant Below(256, b256[..]) && Val(256, b256[..]) == Val(58, digits)
    {
      var ch := DigitOf(t[psz]);
      assert t[psz] == run[psz - from];
      if ch == -1 {
        return false, psz, b256;
      }
      CharDigit(t[psz]);
      ValAppend(58, digits, ch);
      digits := digits + [ch];
      DigitsBound(digits, m, b256.Length);
      var carry := MulAdd(b256, 58, 256, ch);
      NoCarry(Val(256, b256[..]), carry, Pow(256, b256.Length), Val(58, digits));
      assert carry == 0;
      psz := psz + 1;
    }
    assert psz == from + |run|;
    assert digits == DigitsIn(run);
    ok := true;
  }

  /** The core is the leading ones and what follows them. */
  lemma CoreSplits(t: string, a: nat, z: nat)
    requires a + z <= |t| && forall j | a <= j < a + z :: t[j] == '1'
    ensures var e := Skip(t, a, false);
            && e == Skip(t, a + z, false) && a + z <= e <= |t|
            && (InAlphabet(t[a..e]) <==> InAlphabet(t[a + z..e]))
            && (InAlphabet(t[a..e]) ==> DigitsIn(t[a..e]) == Zeros(z) + DigitsIn(t[a + z..e]))
  {
    FirstDigit();
    hide DigitOf, IsSpace;
    SkipIs(t, a + z, false);
    var e := Skip(t, a + z, false);
    SkipTo(t, a, e, false);
    var core, run := t[a..e], t[a + z..e];
    assert forall j | 0 <= j < |run| :: run[j] == core[z + j];
    assert forall j | z <= j < |core| :: core[j] == run[j - z];
  }

  lemma FinishDecode(digits: Digits, z: nat, buffer: Digits)
    requires Below(58, digits) && (digits != [] ==> digits[0] != 0)
    requires Below(256, buffer) && Val(256, buffer) == Val(58, digits)
    ensures Lead(buffer) <= |buffer| && Zeros(z) + buffer[Lead(buffer)..] == Recode(58, 256, Zeros(z) + digits)
  {
    hide Val, Rep;
    var d := Zeros(z) + digits;
    LeadUnique(d, z);
    ValStrip(58, d);
    assert d[z..] == digits;
    LeadIs(buffer);
    ValStrip(256, buffer);
    RepUnique(256, buffer[Lead(buffer)..]);
  }

  lemma NotOne(c: char)
    requires DigitOf(c) != -1 && c != '1'
    ensures DigitOf(c) != 0
  {
    CharDigit(c);
    FirstChar();
  }

  method DecodeBase58(s: string) returns (ok: bool, vch: Digits)
    ensures ok <==> Decoded(s).Some?
    ensures ok ==> vch == Decoded(s).value
  {
    hide Val, Pow, Rep, DigitOf, Lead, IsSpace, Find, Skip, InAlphabet, Recode;
    var t := CString(s);
    var a := SkipWhile(t, 0, true);
    var zeroes := CountOnes(t, a);
    CoreSplits(t, a, zeroes);
    var readable, psz, b256 := ReadDigits(t, a + zeroes);
    if !readable {
      return false, [];
    }
    ghost var digits := DigitsIn(t[a + zeroes..psz]);
    psz := SkipWhile(t, psz, true);
    if psz != |t| {
      return false, [];
    }
    if digits != [] {
      assert InAlphabet(t[a + zeroes..Skip(t, a, false)]);
      FirstOf(t[a + zeroes..Skip(t, a, false)]);
    }
    FinishDecode(digits, zeroes, b256[..]);
    var it := CountZeros(b256[..]);
    vch := Zeros(zeroes) + b256[..][it..];
    ok := true;
  }

  lemma FirstOf(t: string)
    requires InAlphabet(t) && t != "" && t[0] != '1'
    ensures DigitsIn(t)[0] != 0
  {
    hide DigitOf;
    NotOne(t[0]);
  }
}
