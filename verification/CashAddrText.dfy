/** CashAddr strings: printing a payload with its checksum, and reading it back. */
module CashAddrText {
  import opened Digits
  import opened Sequences
  import opened CashAddr

  const MAX_CASHADDR_SIZE := 112

  // ----- characters -----

  predicate IsLower(c: char) { 'a' <= c <= 'z' }
  predicate IsUpper(c: char) { 'A' <= c <= 'Z' }
  predicate IsDigit(c: char) { '0' <= c <= '9' }

  /** Lower case for letters; anything else stays. */
  function Lower(c: char): char { if IsUpper(c) then (c as int + 32) as char else c }

  /** Sets the bit that tells lower from upper case. */
  function LowerCase(c: char): char
    requires c as int < 128
  {
    if c as int / 32 % 2 == 1 then c else (c as int + 32) as char
  }

  lemma LowerCaseIsLower(c: char)
    requires IsLower(c) || IsUpper(c)
    ensures c as int < 128 && LowerCase(c) == Lower(c)
  {
  }

  function LowerAll(s: string): string { seq(|s|, i requires 0 <= i < |s| => Lower(s[i])) }

  /** The character set, by value. */
  function CharOf(v: nat): char
    requires v < 32
  {
    match v
    case 0 => 'q' case 1 => 'p' case 2 => 'z' case 3 => 'r' case 4 => 'y' case 5 => '9' case 6 => 'x' case 7 => '8'
    case 8 => 'g' case 9 => 'f' case 10 => '2' case 11 => 't'
    case 12 => 'v' case 13 => 'd' case 14 => 'w' case 15 => '0'
    case 16 => 's' case 17 => '3' case 18 => 'j' case 19 => 'n'
    case 20 => '5' case 21 => '4' case 22 => 'k' case 23 => 'h'
    case 24 => 'c' case 25 => 'e' case 26 => '6' case 27 => 'm'
    case 28 => 'u' case 29 => 'a' case 30 => '7' case _ => 'l'
  }

  /** The value of a character in either case, or -1. */
  function Rev(c: char): int {
    match c
    case 'q' | 'Q' => 0 case 'p' | 'P' => 1 case 'z' | 'Z' => 2 case 'r' | 'R' => 3 case 'y' | 'Y' => 4
    case '9' => 5 case 'x' | 'X' => 6 case '8' => 7 case 'g' | 'G' => 8 case 'f' | 'F' => 9
    case '2' => 10 case 't' | 'T' => 11 case 'v' | 'V' => 12 case 'd' | 'D' => 13 case 'w' | 'W' => 14
    case '0' => 15 case 's' | 'S' => 16 case '3' => 17 case 'j' | 'J' => 18 case 'n' | 'N' => 19
    case '5' => 20 case '4' => 21 case 'k' | 'K' => 22 case 'h' | 'H' => 23 case 'c' | 'C' => 24
    case 'e' | 'E' => 25 case '6' => 26 case 'm' | 'M' => 27 case 'u' | 'U' => 28 case 'a' | 'A' => 29
    case '7' => 30 case 'l' | 'L' => 31 case _ => -1
  }

  lemma RevChar(v: nat)
    requires v < 32
    ensures Rev(CharOf(v)) == v && (IsLower(CharOf(v)) || IsDigit(CharOf(v)))
  {
  }

  lemma CharRev(c: char)
    requires Rev(c) != -1
    ensures 0 <= Rev(c) < 32 && CharOf(Rev(c)) == Lower(c)
  {
  }

  // ----- printing -----

  function Chars(v: Digits): string
    requires Below(32, v)
  {
    seq(|v|, i requires 0 <= i < |v| => CharOf(v[i]))
  }

  /** The prefix, a colon, the payload and its checksum. */
  function Encode(prefix: string, values: Digits): string
    requires Below(32, values)
  {
    ChecksumAccepted(prefix, values);
    prefix + ":" + Chars(values + Checksum(prefix, values))
  }

  // ----- reading -----

  datatype Decoded =
    | Rejected
    | Accepted(prefix: string, payload: Digits)
    | Undefined // fewer than eight symbols that verify: taking the checksum off is undefined

  predicate Allowed(c: char) { IsLower(c) || IsUpper(c) || IsDigit(c) || c == ':' }

  /** A separator is not first, and neither digits nor another separator come before it. */
  predicate FineColon(str: string, i: nat)
    requires i < |str|
  {
    str[i] == ':' ==> i > 0 && forall j | 0 <= j < i :: !IsDigit(str[j]) && str[j] != ':'
  }

  predicate HasLower(s: string) { exists i :: 0 <= i < |s| && IsLower(s[i]) }
  predicate HasUpper(s: string) { exists i :: 0 <= i < |s| && IsUpper(s[i]) }

  predicate WellFormed(str: string) {
    && (forall i | 0 <= i < |str| :: Allowed(str[i]))
    && (forall i | 0 <= i < |str| :: FineColon(str, i))
    && !(HasLower(str) && HasUpper(str))
  }

  /** Where the separator is, or zero. */
  function Colon(str: string): nat { if Find(str, ':') < |str| then Find(str, ':') else 0 }

  function PrefixOf(str: string, defaultPrefix: string): string {
    FindIs(str, ':');
    if Colon(str) == 0 then defaultPrefix else LowerAll(str[..Colon(str)])
  }

  /** What comes after the separator, or the whole string. */
  function DataOf(str: string): string {
    FindIs(str, ':');
    if Colon(str) == 0 then str else str[Colon(str) + 1..]
  }

  predicate Readable(s: string) { forall i | 0 <= i < |s| :: Rev(s[i]) != -1 }

  function Values(s: string): (v: Digits)
    requires Readable(s)
    ensures |v| == |s| && Below(32, v)
  {
    seq(|s|, i requires 0 <= i < |s| => CharRev(s[i]); Rev(s[i]))
  }

  function Decode(str: string, defaultPrefix: string): Decoded {
    if |str| > MAX_CASHADDR_SIZE + |defaultPrefix| + 1 || !WellFormed(str) || !Readable(DataOf(str)) then Rejected
    else
      var prefix, values := PrefixOf(str, defaultPrefix), Values(DataOf(str));
      if !Verifies(prefix, values) then Rejected
      else if |values| < 8 then Undefined
      else Accepted(prefix, values[..|values| - 8])
  }

  // ----- round trips -----

  predicate IsPrefix(prefix: string) { prefix != "" && forall i | 0 <= i < |prefix| :: IsLower(prefix[i]) }

  lemma CharsReadable(v: Digits)
    requires Below(32, v)
    ensures Readable(Chars(v)) && Values(Chars(v)) == v
    ensures forall i | 0 <= i < |v| :: IsLower(Chars(v)[i]) || IsDigit(Chars(v)[i])
  {
    hide CharOf, Rev;
    forall i | 0 <= i < |v| ensures Rev(Chars(v)[i]) == v[i] && (IsLower(Chars(v)[i]) || IsDigit(Chars(v)[i])) {
      RevChar(v[i]);
    }
  }

  lemma ColonOfEncoded(prefix: string, tail: string)
    requires IsPrefix(prefix)
    requires forall i | 0 <= i < |tail| :: IsLower(tail[i]) || IsDigit(tail[i])
    ensures var str := prefix + ":" + tail;
            && Colon(str) == |prefix| && WellFormed(str)
            && DataOf(str) == tail && forall d: string :: PrefixOf(str, d) == prefix
  {
    var str := prefix + ":" + tail;
    FindUnique(str, ':', |prefix|);
    assert str[..|prefix|] == prefix;
    assert LowerAll(prefix) == prefix;
  }

  /** Decoding undoes encoding for every lower-case prefix and every payload, exactly up to the size limit. */
  lemma DecodeEncode(prefix: string, values: Digits, defaultPrefix: string)
    requires IsPrefix(prefix) && Below(32, values)
    ensures Decode(Encode(prefix, values), defaultPrefix) ==
            if |prefix| + |values| + 8 <= MAX_CASHADDR_SIZE + |defaultPrefix| then Accepted(prefix, values)
            else Rejected
  {
    hide Checksum, Verifies, Rev, CharOf, WellFormed, PrefixOf, DataOf, Values, Chars;
    ChecksumAccepted(prefix, values);
    var w := values + Checksum(prefix, values);
    CharsReadable(w);
    assert |Chars(w)| == |w| by { CharsLength(w); }
    ColonOfEncoded(prefix, Chars(w));
    assert w[..|w| - 8] == values;
  }

  lemma CharsLength(v: Digits)
    requires Below(32, v)
    ensures |Chars(v)| == |v|
  {
  }

  lemma CharsOfValues(s: string)
    requires Readable(s)
    ensures Chars(Values(s)) == LowerAll(s)
  {
    hide CharOf, Rev;
    forall i | 0 <= i < |s| ensures Chars(Values(s))[i] == LowerAll(s)[i] {
      CharRev(s[i]);
    }
  }

  /**
   Conversely, an accepted string is, up to upper case and a missing prefix, the encoding of what
   it decodes to: there is one string per payload.
   */
  lemma EncodeDecode(str: string, defaultPrefix: string)
    requires Decode(str, defaultPrefix).Accepted?
    ensures var d := Decode(str, defaultPrefix);
            && Below(32, d.payload)
            && Encode(d.prefix, d.payload)
            == if Colon(str) == 0 then defaultPrefix + ":" + LowerAll(str) else LowerAll(str)
  {
    hide Checksum, Verifies, Rev, CharOf, WellFormed, Values, Chars, PrefixOf, DataOf, LowerAll, Colon;
    var d := Decode(str, defaultPrefix);
    var values := Values(DataOf(str));
    var n := |values| - 8;
    ChecksumUnique(PrefixOf(str, defaultPrefix), values);
    assert values == values[..n] + values[n..];
    CharsOfValues(DataOf(str));
    InLowerCase(str, defaultPrefix);
  }

  lemma InLowerCase(str: string, defaultPrefix: string)
    ensures PrefixOf(str, defaultPrefix) + ":" + LowerAll(DataOf(str))
         == if Colon(str) == 0 then defaultPrefix + ":" + LowerAll(str) else LowerAll(str)
  {
    FindIs(str, ':');
    if Colon(str) != 0 {
      assert str == str[..Colon(str)] + ":" + str[Colon(str) + 1..];
      assert LowerAll(str) == LowerAll(str[..Colon(str)]) + ":" + LowerAll(DataOf(str));
    }
  }

  // ----- strings too short for a checksum -----

  /** With eight data characters or more, the result is always defined. */
  lemma LongIsDefined(str: string, defaultPrefix: string)
    requires |DataOf(str)| >= 8
    ensures !Decode(str, defaultPrefix).Undefined?
  {
  }

  /**
   A string of a lower-case prefix and `k` data characters whose result is undefined exists exactly
   if the prefix lets `k` symbols pass as a checksum.
   */
  lemma UndefinedIff(prefix: string, k: nat, defaultPrefix: string)
    requires IsPrefix(prefix) && k <= 7 && |prefix| + k <= MAX_CASHADDR_SIZE + |defaultPrefix|
    ensures (exists w: Digits :: |w| == k && Below(32, w) && Decode(prefix + ":" + Chars(w), defaultPrefix).Undefined?)
            <==> ShortFits(prefix, k)
  {
    hide Verifies, ShortFits, Decode, Chars;
    ShortVerifiesIff(prefix, k);
    forall w: Digits | |w| == k && Below(32, w)
      ensures Decode(prefix + ":" + Chars(w), defaultPrefix).Undefined? <==> Verifies(prefix, w)
    {
      ShortDecoded(prefix, w, defaultPrefix);
    }
  }

  lemma ShortDecoded(prefix: string, w: Digits, defaultPrefix: string)
    requires IsPrefix(prefix) && Below(32, w) && |w| <= 7 && |prefix| + |w| <= MAX_CASHADDR_SIZE + |defaultPrefix|
    ensures Decode(prefix + ":" + Chars(w), defaultPrefix) == if Verifies(prefix, w) then Undefined else Rejected
  {
    hide Verifies, Rev, CharOf, WellFormed, PrefixOf, DataOf, Values, Chars;
    CharsReadable(w);
    CharsLength(w);
    ColonOfEncoded(prefix, Chars(w));
  }

  /**
   Without a prefix in the string, the default one decides: a string of `k` characters whose result
   is undefined exists exactly if it lets that many symbols pass as a checksum.
   */
  lemma UndefinedDefault(k: nat, defaultPrefix: string)
    ensures (exists str: string :: |str| == k && Colon(str) == 0 && Decode(str, defaultPrefix).Undefined?)
            <==> k <= 7 && ShortFits(defaultPrefix, k)
  {
    hide Verifies, ShortFits, Decode, Colon, Chars;
    forall str: string | |str| == k && Colon(str) == 0 && Decode(str, defaultPrefix).Undefined?
      ensures k <= 7 && ShortFits(defaultPrefix, k)
    {
      DefaultFits(str, defaultPrefix);
    }
    if k <= 7 && ShortFits(defaultPrefix, k) {
      var w := ShortExists(defaultPrefix, k);
      CharsLength(w);
      DefaultDecoded(w, defaultPrefix);
    }
  }

  lemma DefaultFits(str: string, defaultPrefix: string)
    requires Colon(str) == 0 && Decode(str, defaultPrefix).Undefined?
    ensures |str| <= 7 && ShortFits(defaultPrefix, |str|)
  {
    hide Verifies, ShortFits, Rev, WellFormed;
    ShortMeans(defaultPrefix, Values(DataOf(str)));
  }

  lemma DefaultDecoded(w: Digits, defaultPrefix: string)
    requires Below(32, w) && |w| <= 7 && Verifies(defaultPrefix, w)
    ensures Colon(Chars(w)) == 0 && Decode(Chars(w), defaultPrefix).Undefined?
  {
    hide Verifies, Rev, CharOf, Values;
    CharsReadable(w);
    CharsLength(w);
    hide Chars;
    FindIs(Chars(w), ':');
  }

  lemma FoldThree(c: bv40, a: nat, b: nat, d: nat)
    requires a < 32 && b < 32 && d < 32
    ensures Fold(c, [a, b, d]) == Step(Step(Step(c, a), b), d)
  {
    hide Step, Fold;
    OneSymbol(c, a);
    FoldConcat(c, [a], [b]);
    OneSymbol(Fold(c, [a]), b);
    assert [a] + [b] == [a, b] && [a, b] + [d] == [a, b, d];
    FoldConcat(c, [a, b], [d]);
    OneSymbol(Fold(c, [a, b]), d);
  }

  lemma StepsOfC()
    ensures Step(Step(Step(1, 3), 0), 0) == 0x8c00
    ensures Step(Step(Step(0x8c00, 12), 13), 4) == 0x4600_31a4
    ensures Step(Step(Step(0x4600_31a4, 10), 2), 17) == 1
  {
  }

  /** Such a prefix exists: seven symbols after the letter c verify. */
  lemma ShortWitness()
    ensures Verifies("c", [0, 12, 13, 4, 10, 2, 17])
  {
    StepsOfC();
    hide Step, Fold;
    FoldThree(1, 3, 0, 0);
    FoldThree(0x8c00, 12, 13, 4);
    FoldThree(0x4600_31a4, 10, 2, 17);
    FoldConcat(1, [3, 0, 0], [12, 13, 4]);
    FoldConcat(1, [3, 0, 0] + [12, 13, 4], [10, 2, 17]);
    assert Expand("c") + [0, 12, 13, 4, 10, 2, 17] == [3, 0, 0] + [12, 13, 4] + [10, 2, 17];
  }

  lemma ShortText()
    ensures "c" + ":" + Chars([0, 12, 13, 4, 10, 2, 17]) == "c:qvdy2z3"
  {
  }

  /** A string for which the result is undefined, whatever the default prefix. */
  lemma UndefinedExample(defaultPrefix: string)
    ensures Decode("c:qvdy2z3", defaultPrefix).Undefined?
  {
    hide Verifies, Decode, Chars;
    ShortWitness();
    ShortDecoded("c", [0, 12, 13, 4, 10, 2, 17], defaultPrefix);
    ShortText();
  }

  // ----- the node's own prefixes -----

  /** One more zero is one more power of x. */
  lemma FoldZero(c: bv40, k: nat)
    ensures Fold(c, Zeros(k + 1)) == Times(Fold(c, Zeros(k)))
  {
    hide Times, Xor, Bits;
    assert Zeros(k + 1)[..k] == Zeros(k);
    ZeroBits();
    XorLaws(Times(Fold(c, Zeros(k))), 0);
  }

  predicate Apart(c: bv40, k: nat)
    requires k <= 7
  {
    Xor(c, 1) >= Limit(k)
  }

  lemma ApartIs(prefix: string, k: nat)
    requires k <= 7
    ensures ShortFits(prefix, k) <==> !Apart(Fold(Fold(1, Expand(prefix)), Zeros(k)), k)
  {
    hide Fold, Xor, Limit;
    FoldConcat(1, Expand(prefix), Zeros(k));
  }

  /** No word of up to seven symbols after this state passes as a checksum. */
  predicate NoShort(c: bv40) {
    var c1 := Times(c);
    var c2 := Times(c1);
    var c3 := Times(c2);
    var c4 := Times(c3);
    var c5 := Times(c4);
    var c6 := Times(c5);
    && Apart(c, 0) && Apart(c1, 1) && Apart(c2, 2) && Apart(c3, 3)
    && Apart(c4, 4) && Apart(c5, 5) && Apart(c6, 6) && Apart(Times(c6), 7)
  }

  lemma NoShortAfter(c: bv40, k: nat)
    requires NoShort(c) && k <= 7
    ensures Apart(Fold(c, Zeros(k)), k)
  {
    hide Times, Apart, Step;
    assert Fold(c, Zeros(0)) == c;
    hide Fold;
    FoldZero(c, 0);
    FoldZero(c, 1);
    FoldZero(c, 2);
    FoldZero(c, 3);
    FoldZero(c, 4);
    FoldZero(c, 5);
    FoldZero(c, 6);
  }

  lemma NoShortMeans(prefix: string, k: nat)
    requires NoShort(Fold(1, Expand(prefix))) && k <= 7
    ensures !ShortFits(prefix, k)
  {
    hide NoShort, ShortFits, Apart;
    NoShortAfter(Fold(1, Expand(prefix)), k);
    ApartIs(prefix, k);
  }

  lemma StepsOfMain()
    ensures Step(Step(Step(0x1, 2), 9), 20) == 0x8934
    ensures Step(Step(Step(0x8934, 3), 15), 9) == 0x449a_0de9
    ensures Step(Step(Step(0x449a_0de9, 14), 3), 1) == 0xd5_ec9a_1e50
    ensures Step(Step(Step(0xd5_ec9a_1e50, 19), 8), 0) == 0xf6_69cd_6d15
  {
  }

  lemma AfterMain()
    ensures Fold(1, Expand("bitcoincash")) == 0xf6_69cd_6d15
  {
    StepsOfMain();
    hide Step, Fold;
    FoldThree(0x1, 2, 9, 20);
    FoldThree(0x8934, 3, 15, 9);
    FoldConcat(1, [2, 9, 20], [3, 15, 9]);
    FoldThree(0x449a_0de9, 14, 3, 1);
    FoldConcat(1, [2, 9, 20] + [3, 15, 9], [14, 3, 1]);
    FoldThree(0xd5_ec9a_1e50, 19, 8, 0);
    FoldConcat(1, [2, 9, 20] + [3, 15, 9] + [14, 3, 1], [19, 8, 0]);
    assert Expand("bitcoincash") == [2, 9, 20] + [3, 15, 9] + [14, 3, 1] + [19, 8, 0];
  }

  lemma StepsOfTest()
    ensures Step(Step(Step(0x1, 2), 3), 8) == 0x8868
    ensures Step(Step(Step(0x8868, 20), 5), 19) == 0x4434_50b3
    ensures Step(0x4434_50b3, 20) == 0x8_868a_1674
    ensures Step(0x8_868a_1674, 0) == 0x88_23fe_40e1
  {
  }

  lemma AfterTest()
    ensures Fold(1, Expand("bchtest")) == 0x88_23fe_40e1
  {
    StepsOfTest();
    hide Step, Fold;
    FoldThree(0x1, 2, 3, 8);
    FoldThree(0x8868, 20, 5, 19);
    FoldConcat(1, [2, 3, 8], [20, 5, 19]);
    OneSymbol(0x4434_50b3, 20);
    FoldConcat(1, [2, 3, 8] + [20, 5, 19], [20]);
    OneSymbol(0x8_868a_1674, 0);
    FoldConcat(1, [2, 3, 8] + [20, 5, 19] + [20], [0]);
    assert Expand("bchtest") == [2, 3, 8] + [20, 5, 19] + [20] + [0];
  }

  lemma StepsOfReg()
    ensures Step(Step(Step(0x1, 2), 3), 8) == 0x8868
    ensures Step(Step(Step(0x8868, 18), 5), 7) == 0x4434_48a7
    ensures Step(0x4434_48a7, 0) == 0x8_8689_14e0
  {
  }

  lemma AfterReg()
    ensures Fold(1, Expand("bchreg")) == 0x8_8689_14e0
  {
    StepsOfReg();
    hide Step, Fold;
    FoldThree(0x1, 2, 3, 8);
    FoldThree(0x8868, 18, 5, 7);
    FoldConcat(1, [2, 3, 8], [18, 5, 7]);
    OneSymbol(0x4434_48a7, 0);
    FoldConcat(1, [2, 3, 8] + [18, 5, 7], [0]);
    assert Expand("bchreg") == [2, 3, 8] + [18, 5, 7] + [0];
  }

  lemma StepsOfNol()
    ensures Step(Step(Step(0x1, 2), 3), 8) == 0x8868
    ensures Step(Step(Step(0x8868, 14), 15), 12) == 0x4434_39ec
    ensures Step(0x4434_39ec, 0) == 0x8_8687_3d80
  {
  }

  lemma AfterNol()
    ensures Fold(1, Expand("bchnol")) == 0x8_8687_3d80
  {
    StepsOfNol();
    hide Step, Fold;
    FoldThree(0x1, 2, 3, 8);
    FoldThree(0x8868, 14, 15, 12);
    FoldConcat(1, [2, 3, 8], [14, 15, 12]);
    OneSymbol(0x4434_39ec, 0);
    FoldConcat(1, [2, 3, 8] + [14, 15, 12], [0]);
    assert Expand("bchnol") == [2, 3, 8] + [14, 15, 12] + [0];
  }

  lemma NoShortMain()
    ensures NoShort(0xf6_69cd_6d15)
  {
  }

  lemma NoShortTest()
    ensures NoShort(0x88_23fe_40e1)
  {
  }

  lemma NoShortReg()
    ensures NoShort(0x8_8689_14e0)
  {
  }

  lemma NoShortNol()
    ensures NoShort(0x8_8687_3d80)
  {
  }

  predicate IsNetworkPrefix(prefix: string) {
    prefix == "bitcoincash" || prefix == "bchtest" || prefix == "bchreg" || prefix == "bchnol"
  }

  /** A string with one of the node's own prefixes, written or not, always has a defined result. */
  lemma NetworkIsDefined(str: string, defaultPrefix: string)
    requires IsNetworkPrefix(PrefixOf(str, defaultPrefix))
    ensures !Decode(str, defaultPrefix).Undefined?
  {
    hide Verifies, ShortFits, NoShort, Fold, Rev, WellFormed;
    NoShortMain();
    NoShortTest();
    NoShortReg();
    NoShortNol();
    AfterMain();
    AfterTest();
    AfterReg();
    AfterNol();
    var prefix := PrefixOf(str, defaultPrefix);
    forall k: nat | k <= 7 ensures !ShortFits(prefix, k) {
      NoShortMeans(prefix, k);
    }
    if Decode(str, defaultPrefix).Undefined? {
      ShortMeans(prefix, Values(DataOf(str)));
    }
  }

  // ----- the loops -----

  method ExpandPrefix(prefix: string) returns (ret: Digits)
    ensures ret == Expand(prefix)
  {
    ret := Zeros(|prefix| + 1);
    for i := 0 to |prefix|
      invariant |ret| == |prefix| + 1 && ret[|prefix|] == 0
      invariant forall j | 0 <= j < i :: ret[j] == (prefix[j] as nat) % 32
    {
      ret := ret[i := (prefix[i] as nat) % 32];
    }
  }

  method VerifyChecksum(prefix: string, values: Digits) returns (ok: bool)
    requires Below(256, values)
    ensures ok <==> Verifies(prefix, values)
  {
    var expanded := ExpandPrefix(prefix);
    var c := PolyMod(expanded + values);
    ok := c == 1;
  }

  method CreateChecksum(prefix: string, values: Digits) returns (ret: Digits)
    requires Below(256, values)
    ensures ret == Checksum(prefix, values)
  {
    hide Group, Xor, Fold;
    var expanded := ExpandPrefix(prefix);
    var mod := PolyMod(expanded + values + Zeros(8));
    mod := Xor(mod, 1);
    ret := Zeros(8);
    for i := 0 to 8
      invariant |ret| == 8 && forall j | 0 <= j < i :: ret[j] == Group(mod, j)
    {
      ret := ret[i := Group(mod, i)];
    }
    assert ret == Groups(mod);
  }

  method EncodeString(prefix: string, values: Digits) returns (ret: string)
    requires Below(32, values)
    ensures ret == Encode(prefix, values)
  {
    hide Checksum, CharOf;
    ChecksumAccepted(prefix, values);
    var checksum := CreateChecksum(prefix, values);
    var combined := values + checksum;
    ret := prefix + ":";
    for i := 0 to |combined|
      invariant ret == prefix + ":" + Chars(combined)[..i]
    {
      ret := ret + [CharOf(combined[i])];
    }
    assert Chars(combined)[..|combined|] == Chars(combined);
  }

  /** The sanity checks of the decoder, one character at a time. */
  method Scan(str: string) returns (ok: bool, prefixSize: nat)
    ensures ok <==> WellFormed(str)
    ensures ok ==> prefixSize == Colon(str)
  {
    hide Find;
    var lower, upper, hasNumber := false, false, false;
    prefixSize := 0;
    for i := 0 to |str|
      invariant lower <==> exists j :: 0 <= j < i && IsLower(str[j])
      invariant upper <==> exists j :: 0 <= j < i && IsUpper(str[j])
      invariant hasNumber <==> exists j :: 0 <= j < i && IsDigit(str[j])
      invariant forall j | 0 <= j < i :: Allowed(str[j]) && FineColon(str, j)
      invariant prefixSize == 0 ==> forall j | 0 <= j < i :: str[j] != ':'
      invariant prefixSize > 0 ==> prefixSize < i && str[prefixSize] == ':'
    {
      var c := str[i];
      if IsLower(c) {
        lower := true;
      } else if IsUpper(c) {
        upper := true;
      } else if IsDigit(c) {
        hasNumber := true;
      } else if c == ':' {
        if hasNumber || i == 0 || prefixSize != 0 {
          assert !FineColon(str, i);
          return false, 0;
        }
        prefixSize := i;
      } else {
        assert !Allowed(str[i]);
        return false, 0;
      }
    }
    ok := !(upper && lower);
    FindIs(str, ':');
    if prefixSize > 0 {
      assert FineColon(str, prefixSize);
      FindUnique(str, ':', prefixSize);
    }
  }

  /** The values of the characters, up to the first that has none. */
  method ReadValues(s: string) returns (ok: bool, values: Digits)
    ensures ok <==> Readable(s)
    ensures ok ==> values == Values(s)
  {
    hide Rev;
    values := [];
    for i := 0 to |s|
      invariant |values| == i && forall j | 0 <= j < i :: Rev(s[j]) != -1 && values[j] == Rev(s[j])
    {
      if Rev(s[i]) == -1 {
        return false, [];
      }
      CharRev(s[i]);
      values := values + [Rev(s[i])];
    }
    ok := true;
  }

  method LowerPrefix(s: string) returns (prefix: string)
    requires forall i | 0 <= i < |s| :: IsLower(s[i]) || IsUpper(s[i])
    ensures prefix == LowerAll(s)
  {
    prefix := "";
    for i := 0 to |s|
      invariant prefix == LowerAll(s)[..i]
    {
      LowerCaseIsLower(s[i]);
      prefix := prefix + [LowerCase(s[i])];
    }
  }

  method DecodeString(str: string, defaultPrefix: string) returns (r: Decoded)
    ensures r == Decode(str, defaultPrefix)
  {
    hide Verifies, Find, HasLower, HasUpper, Values, Rev, LowerAll;
    if |str| > MAX_CASHADDR_SIZE + |defaultPrefix| + 1 {
      return Rejected;
    }
    var ok, prefixSize := Scan(str);
    if !ok {
      return Rejected;
    }
    FindIs(str, ':');
    var prefix := defaultPrefix;
    if prefixSize != 0 {
      assert FineColon(str, prefixSize);
      prefix := LowerPrefix(str[..prefixSize]);
      prefixSize := prefixSize + 1;
    }
    var readable, values := ReadValues(str[prefixSize..]);
    assert str[prefixSize..] == DataOf(str);
    if !readable {
      return Rejected;
    }
    assert Below(32, values);
    var verified := VerifyChecksum(prefix, values);
    if !verified {
      return Rejected;
    }
    if |values| < 8 {
      return Undefined;
    }
    return Accepted(prefix, values[..|values| - 8]);
  }
}
