/** CashAddr contents: regrouping bits, the version byte, and addresses as a whole. */
module CashAddrContent {
  import opened BitOps
  import opened Numbers
  import opened Digits
  import opened CashAddr
  import opened CashAddrText

  // ----- regrouping bits -----

  /** The lowest `n` digits of a number. */
  function DigitsOf(b: nat, n: nat, v: nat): (s: Digits)
    requires b > 0
    ensures |s| == n
  {
    if n == 0 then [] else DigitsOf(b, n - 1, v / b) + [v % b]
  }

  lemma {:induction false} DigitsOfVal(b: nat, n: nat, v: nat)
    requires b > 0 && v < Pow(b, n)
    ensures Below(b, DigitsOf(b, n, v)) && Val(b, DigitsOf(b, n, v)) == v
  {
    if n > 0 {
      assert Pow(b, n) == b * Pow(b, n - 1);
      hide Pow, Val;
      QuotientBelow(v, b, Pow(b, n - 1));
      DigitsOfVal(b, n - 1, v / b);
      ValAppend(b, DigitsOf(b, n - 1, v / b), v % b);
    }
  }

  lemma QuotientBelow(v: nat, b: nat, p: nat)
    requires b > 0 && v < b * p
    ensures v / b < p && v == v / b * b + v % b
  {
    if v / b >= p {
      MulMono(p, v / b, b);
    }
  }

  /** Any digits with that value are those digits. */
  lemma DigitsOfUnique(b: nat, s: Digits)
    requires b > 0 && Below(b, s)
    ensures DigitsOf(b, |s|, Val(b, s)) == s
  {
    ValBound(b, s);
    DigitsOfVal(b, |s|, Val(b, s));
    ValInjective(b, s, DigitsOf(b, |s|, Val(b, s)));
  }

  /** The number of groups of `to` bits that `total` bits fill, the last one padded or dropped. */
  function GroupCount(total: nat, to: nat, pad: bool): nat
    requires to > 0
  {
    if pad && total % to != 0 then total / to + 1 else total / to
  }

  /** The bits of the input in groups of another size: padded with zeros, or cut off. */
  function Convert(from: nat, to: nat, pad: bool, input: Digits): (r: Digits)
    requires from > 0 && to > 0
    ensures |r| == GroupCount(|input| * from, to, pad)
  {
    PowPositive(2, to);
    var total := |input| * from;
    var n := GroupCount(total, to, pad);
    var v := Val(Pow(2, from), input);
    var rest := total % to;
    PowPositive(2, rest);
    DigitsOf(Pow(2, to), n, if pad && rest != 0 then v * Pow(2, to - rest) else v / Pow(2, rest))
  }

  lemma ModSplit(x: nat, p: nat, t: nat)
    requires p > 0 && t > 0
    ensures p * t > 0 && x % (p * t) == x / p % t * p + x % p
  {
    DivDiv(x, p, t);
    var q, m := x / p, p * t;
    var q' := q / t;
    assert x == q * p + x % p;
    assert q == q' * t + q % t;
    assert x == x / m * m + x % m;
    Distribute(q' * t, q % t, p);
    assert q' * t * p == q' * m;
  }

  lemma ModScale(x: nat, k: nat, m: nat)
    requires k > 0 && m > 0
    ensures m * k > 0 && x * k % (m * k) == x % m * k
  {
    var q, r := x / m, x % m;
    assert x == q * m + r;
    Distribute(q * m, r, k);
    assert q * m * k == q * (m * k);
    MulMono(r + 1, m, k);
    Distribute(r, 1, k);
    MulMono(1, m, k);
    DivModUnique(x * k, m * k, q, r * k);
  }

  lemma ModMod(x: nat, m: nat, k: nat)
    requires m > 0 && k > 0
    ensures m * k > 0 && x % (m * k) % m == x % m
  {
    ModSplit(x, m, k);
    DivModUnique(x % (m * k), m, x / m % k, x % m);
  }

  /** One more symbol in the accumulator: only the bits not yet written matter. */
  lemma Accumulate(acc: nat, x: nat, bits: nat, from: nat, to: nat)
    requires x < Pow(2, from) && bits < to
    ensures Pow(2, from + to - 1) > 0 && Pow(2, bits) > 0 && Pow(2, bits + from) > 0
    ensures BitOr(acc * Pow(2, from), x) == acc * Pow(2, from) + x
    ensures (acc * Pow(2, from) + x) % Pow(2, from + to - 1) % Pow(2, bits + from)
         == acc % Pow(2, bits) * Pow(2, from) + x
  {
    hide Pow, BitOr;
    var f, p := Pow(2, from), Pow(2, bits);
    PowPositive(2, from);
    PowPositive(2, bits);
    PowPositive(2, to - 1 - bits);
    PowAdd(2, bits, from);
    PowAdd(2, bits + from, to - 1 - bits);
    DivOfMultiple(acc, f, 0);
    OrDisjoint(x, acc * f, from);
    OrCommutes(x, acc * f);
    DivOfMultiple(acc, f, x);
    ModMod(acc * f + x, p * f, Pow(2, to - 1 - bits));
    ModSplit(acc * f + x, f, p);
  }

  /** What has been written and what is still in the accumulator make up what has been read. */
  ghost predicate Carries(from: nat, to: nat, read: Digits, out: Digits, acc: nat, bits: nat) {
    && Pow(2, bits) > 0 && |read| * from == |out| * to + bits && Below(Pow(2, to), out)
    && Val(Pow(2, from), read) == Val(Pow(2, to), out) * Pow(2, bits) + acc % Pow(2, bits)
  }

  lemma CarriesRead(from: nat, to: nat, read: Digits, out: Digits, acc: nat, bits: nat, x: nat)
    requires Carries(from, to, read, out, acc, bits) && bits < to && x < Pow(2, from)
    ensures Pow(2, from + to - 1) > 0
    ensures Carries(from, to, read + [x], out, BitOr(acc * Pow(2, from), x) % Pow(2, from + to - 1), bits + from)
  {
    hide Pow, BitOr, Val;
    Accumulate(acc, x, bits, from, to);
    ValAppend(Pow(2, from), read, x);
    PowAdd(2, bits, from);
    var v, f, p := Val(Pow(2, to), out), Pow(2, from), Pow(2, bits);
    Distribute(v * p, acc % p, f);
    MulAssoc(v, p, f);
    Distribute(|read|, 1, from);
  }

  lemma CarriesWrite(from: nat, to: nat, read: Digits, out: Digits, acc: nat, bits: nat)
    requires Carries(from, to, read, out, acc, bits) && bits >= to
    ensures Pow(2, bits - to) > 0 && Pow(2, to) > 0
    ensures Carries(from, to, read, out + [acc / Pow(2, bits - to) % Pow(2, to)], acc, bits - to)
  {
    hide Pow, Val;
    var p, t := Pow(2, bits - to), Pow(2, to);
    PowPositive(2, bits - to);
    PowPositive(2, to);
    PowAdd(2, bits - to, to);
    ModSplit(acc, p, t);
    ValAppend(t, out, acc / p % t);
    var v := Val(t, out);
    Distribute(v * t, acc / p % t, p);
    assert v * t * p == v * (p * t);
    Distribute(|out|, 1, to);
  }

  lemma CarriesStart(from: nat, to: nat)
    ensures Carries(from, to, [], [], 0, 0)
  {
  }

  /** Without padding, the whole groups are what is written. */
  lemma CarriesCut(from: nat, to: nat, input: Digits, out: Digits, acc: nat, bits: nat)
    requires from > 0 && bits < to && Carries(from, to, input, out, acc, bits)
    ensures out == Convert(from, to, false, input)
    ensures bits == |input| * from % to
    ensures bits == 0 ==> out == Convert(from, to, true, input)
  {
    hide Pow, Val;
    DivModUnique(|input| * from, to, |out|, bits);
    var v, p := Val(Pow(2, to), out), Pow(2, bits);
    PowPositive(2, to);
    DivModUnique(Val(Pow(2, from), input), p, v, acc % p);
    DigitsOfUnique(Pow(2, to), out);
  }

  /** With padding, the bits left over fill the top of one more group. */
  lemma CarriesPad(from: nat, to: nat, input: Digits, out: Digits, acc: nat, bits: nat)
    requires from > 0 && 0 < bits < to && Carries(from, to, input, out, acc, bits)
    ensures Pow(2, to) > 0
    ensures out + [acc * Pow(2, to - bits) % Pow(2, to)] == Convert(from, to, true, input)
  {
    hide Pow, Val, DigitsOf;
    DivModUnique(|input| * from, to, |out|, bits);
    var t, p, k := Pow(2, to), Pow(2, bits), Pow(2, to - bits);
    PowPositive(2, to);
    PowPositive(2, to - bits);
    PowAdd(2, bits, to - bits);
    ModScale(acc, k, p);
    var d := acc * k % t;
    ValAppend(t, out, d);
    var v := Val(t, out);
    Distribute(v * p, acc % p, k);
    MulAssoc(v, p, k);
    assert Below(t, out + [d]);
    DigitsOfUnique(t, out + [d]);
  }

  /** ConvertBits; `ok` is false exactly if bits are left over and not padded. */
  method ConvertBits(from: nat, to: nat, pad: bool, input: Digits) returns (ok: bool, out: Digits)
    requires from > 0 && to > 0 && Below(Pow(2, from), input)
    ensures out == Convert(from, to, pad, input)
    ensures ok <==> pad || |input| * from % to == 0
  {
    hide Pow, BitOr, Carries, Convert;
    PowPositive(2, to);
    var acc: nat, bits: nat := 0, 0;
    out := [];
    CarriesStart(from, to);
    for i := 0 to |input|
      invariant bits < to && Carries(from, to, input[..i], out, acc, bits)
    {
      CarriesRead(from, to, input[..i], out, acc, bits, input[i]);
      assert input[..i] + [input[i]] == input[..i + 1];
      acc := BitOr(acc * Pow(2, from), input[i]) % Pow(2, from + to - 1);
      bits := bits + from;
      while bits >= to
        invariant Carries(from, to, input[..i + 1], out, acc, bits)
      {
        CarriesWrite(from, to, input[..i + 1], out, acc, bits);
        bits := bits - to;
        out := out + [acc / Pow(2, bits) % Pow(2, to)];
      }
    }
    assert input[..|input|] == input;
    CarriesCut(from, to, input, out, acc, bits);
    if pad && bits != 0 {
      CarriesPad(from, to, input, out, acc, bits);
      out := out + [acc * Pow(2, to - bits) % Pow(2, to)];
    }
    ok := pad || bits == 0;
  }

  // ----- the version byte -----

  /** The size code of a hash length, or -1. */
  function SizeCode(size: nat): int {
    match size
    case 20 => 0 case 24 => 1 case 28 => 2 case 32 => 3
    case 40 => 4 case 48 => 5 case 56 => 6 case 64 => 7
    case _ => -1
  }

  /** The hash length that the low bits of a version byte ask for. */
  function HashSize(version: nat): nat {
    var size := 20 + 4 * (version % 4);
    if version / 4 % 2 == 1 then 2 * size else size
  }

  lemma SizeCodes(size: nat, version: nat)
    ensures SizeCode(size) != -1 ==>
              0 <= SizeCode(size) < 8 && (version % 8 == SizeCode(size) ==> HashSize(version) == size)
    ensures SizeCode(HashSize(version)) == version % 8
  {
    assert version % 8 == version / 4 % 2 * 4 + version % 4;
  }

  datatype Content =
    | NoContent
    | Content(kind: nat, hash: Digits)
    | Unspecified // the underlying string has fewer symbols than a checksum

  /** Kind and size code in one byte; kinds from 32 on lose their high bits. */
  function Version(kind: nat, size: nat): nat
    requires SizeCode(size) != -1
  {
    SizeCodes(size, 0);
    BitOr(kind * 8 % 256, SizeCode(size))
  }

  lemma VersionIs(kind: nat, size: nat)
    requires SizeCode(size) != -1
    ensures Version(kind, size) == kind * 8 % 256 + SizeCode(size) < 256
  {
    SizeCodes(size, 0);
    var x, c := kind * 8 % 256, SizeCode(size);
    hide SizeCode, BitOr;
    assert x % 8 == 0 && x + 8 <= 256;
    assert Pow(2, 3) == 8 by { Powers32(); }
    hide Pow;
    OrDisjoint(c, x, 3);
    OrCommutes(c, x);
  }

  /** PackAddrData: the version byte and the hash in groups of five bits. */
  function PackContent(kind: nat, hash: Digits): Digits
    requires SizeCode(|hash|) != -1
  {
    Convert(8, 5, true, [Version(kind, |hash|)] + hash)
  }

  /** Padding to five-bit groups multiplies by a power of two. */
  lemma ConvertPadded(data: Digits)
    requires Below(256, data)
    ensures var p := Convert(8, 5, true, data);
            && Below(32, p) && |p| * 5 >= |data| * 8 && |p| * 5 - |data| * 8 < 5
            && Val(32, p) == Val(256, data) * Pow(2, |p| * 5 - |data| * 8)
  {
    Powers32();
    hide Pow, Val, DigitsOf;
    var total := |data| * 8;
    var n, rest := GroupCount(total, 5, true), total % 5;
    var pad := n * 5 - total;
    assert pad == if rest == 0 then 0 else 5 - rest;
    assert Pow(2, 0) == 1 by { PowZero(2); }
    ValBound(256, data);
    PowPow(2, 8, |data|);
    PowPow(2, 5, n);
    PowAdd(2, total, pad);
    PowPositive(2, pad);
    var v := Val(256, data);
    MulMono(v + 1, Pow(2, total), Pow(2, pad));
    Distribute(v, 1, Pow(2, pad));
    DigitsOfVal(32, n, v * Pow(2, pad));
    assert v / 1 == v;
  }

  lemma Powers32()
    ensures Pow(2, 3) == 8 && Pow(2, 5) == 32 && Pow(2, 8) == 256
  {
    PowersOfTwo();
    assert Pow(2, 2) == 4;
    assert Pow(2, 3) == 8;
    hide Pow;
    PowAdd(2, 2, 3);
  }

  /** Cutting into bytes divides by a power of two. */
  lemma ConvertCut(payload: Digits)
    requires Below(32, payload)
    ensures var d := Convert(5, 8, false, payload);
            && Below(256, d) && |d| == |payload| * 5 / 8
            && Pow(2, |payload| * 5 % 8) > 0
            && Val(256, d) == Val(32, payload) / Pow(2, |payload| * 5 % 8)
  {
    Powers32();
    hide Pow, Val, DigitsOf;
    var total := |payload| * 5;
    var n, rest := total / 8, total % 8;
    var v := Val(32, payload);
    ValBound(32, payload);
    PowPow(2, 5, |payload|);
    PowPow(2, 8, n);
    PowAdd(2, 8 * n, rest);
    PowPositive(2, rest);
    assert 5 * |payload| == 8 * n + rest;
    QuotientBelow(v, Pow(2, rest), Pow(2, 8 * n));
    DigitsOfVal(256, n, v / Pow(2, rest));
  }

  /** Bytes to five-bit groups and back. */
  lemma UnpackPack(data: Digits)
    requires Below(256, data)
    ensures Convert(5, 8, false, Convert(8, 5, true, data)) == data
  {
    hide Pow, Val, Convert;
    var p := Convert(8, 5, true, data);
    ConvertPadded(data);
    ConvertCut(p);
    var pad := |p| * 5 - |data| * 8;
    assert |p| * 5 / 8 == |data| && |p| * 5 % 8 == pad;
    PowPositive(2, pad);
    DivOfMultiple(Val(256, data), Pow(2, pad), 0);
    ValInjective(256, data, Convert(5, 8, false, p));
  }

  /** Five-bit groups to bytes and back, when what is cut off is less than a group and all zeros. */
  lemma PackUnpack(payload: Digits)
    requires Below(32, payload) && |payload| * 5 % 8 < 5
    requires Pow(2, |payload| * 5 % 8) > 0 && Val(32, payload) % Pow(2, |payload| * 5 % 8) == 0
    ensures Convert(8, 5, true, Convert(5, 8, false, payload)) == payload
  {
    hide Pow, Val, Convert;
    var d := Convert(5, 8, false, payload);
    ConvertCut(payload);
    ConvertPadded(d);
    var q := Convert(8, 5, true, d);
    assert |q| == |payload|;
    var rest := Pow(2, |payload| * 5 % 8);
    assert Val(32, payload) == Val(32, payload) / rest * rest;
    ValInjective(32, payload, q);
  }

  // ----- addresses -----

  /** EncodeCashAddr of a content; a hash of another length is an error. */
  function EncodeContent(prefix: string, kind: nat, hash: Digits): string
    requires SizeCode(|hash|) != -1 && Below(256, hash)
  {
    PackedBelow(kind, hash);
    Encode(prefix, PackContent(kind, hash))
  }

  lemma PackedBelow(kind: nat, hash: Digits)
    requires SizeCode(|hash|) != -1 && Below(256, hash)
    ensures Below(256, [Version(kind, |hash|)] + hash) && Below(32, PackContent(kind, hash))
    ensures |PackContent(kind, hash)| <= 104
  {
    hide Pow, Val, Convert, Version;
    VersionIs(kind, |hash|);
    var data := [Version(kind, |hash|)] + hash;
    ConvertPadded(data);
    assert |hash| <= 64;
  }

  /** Reads the payload: zero padding, version byte, and as many bytes as the version says. */
  function ReadPayload(payload: Digits): Content
    requires Below(32, payload)
  {
    var extra := |payload| * 5 % 8;
    PowPositive(2, extra);
    if payload == [] || extra >= 5 || payload[|payload| - 1] % Pow(2, extra) != 0 then NoContent
    else
      var data := Convert(5, 8, false, payload);
      var version := data[0];
      if version / 128 % 2 == 1 || |data| != HashSize(version) + 1 then NoContent
      else Content(version / 8 % 32, data[1..])
  }

  function DecodeContent(addr: string, prefix: string): Content {
    match Decode(addr, prefix)
    case Rejected => NoContent
    case Undefined => Unspecified
    case Accepted(p, payload) =>
      AcceptedBelow(addr, prefix);
      if p != prefix then NoContent else ReadPayload(payload)
  }

  /** The content is left open exactly where the string is; never with eight data characters or more. */
  lemma UnspecifiedIff(addr: string, prefix: string)
    ensures DecodeContent(addr, prefix).Unspecified? <==> Decode(addr, prefix).Undefined?
    ensures |DataOf(addr)| >= 8 ==> !DecodeContent(addr, prefix).Unspecified?
  {
    hide Decode, ReadPayload, DataOf;
    if |DataOf(addr)| >= 8 {
      LongIsDefined(addr, prefix);
    }
    if Decode(addr, prefix).Accepted? {
      AcceptedBelow(addr, prefix);
      PayloadIsSpecified(Decode(addr, prefix).payload);
    }
  }

  lemma PayloadIsSpecified(payload: Digits)
    requires Below(32, payload)
    ensures !ReadPayload(payload).Unspecified?
  {
  }

  /** An address whose content is left open, whatever the prefix asked for. */
  lemma UnspecifiedExample(prefix: string)
    ensures DecodeContent("c:qvdy2z3", prefix).Unspecified?
  {
    hide Decode;
    UndefinedExample(prefix);
  }

  lemma AcceptedBelow(addr: string, prefix: string)
    requires Decode(addr, prefix).Accepted?
    ensures Below(32, Decode(addr, prefix).payload)
  {
    hide Verifies, WellFormed, Rev;
  }

  /** The lowest bits of a number are those of its last digit. */
  lemma LastDigit(payload: Digits, extra: nat)
    requires payload != [] && Below(32, payload) && extra < 5
    ensures Pow(2, extra) > 0 && Val(32, payload) % Pow(2, extra) == payload[|payload| - 1] % Pow(2, extra)
  {
    Powers32();
    hide Pow;
    PowPositive(2, extra);
    PowAdd(2, 5 - extra, extra);
    var n, p, k := |payload| - 1, Pow(2, extra), Pow(2, 5 - extra);
    var v, d := Val(32, payload[..n]), payload[n];
    MulAssoc(v, k, p);
    ModDrop(d, v * k, p);
  }

  /** A payload that was packed is read as what it was packed from, if the kind fits into four bits. */
  lemma ReadPacked(kind: nat, hash: Digits)
    requires SizeCode(|hash|) != -1 && Below(256, hash)
    ensures Below(32, PackContent(kind, hash))
    ensures ReadPayload(PackContent(kind, hash)) == if kind % 32 < 16 then Content(kind % 32, hash) else NoContent
  {
    hide Pow, Val, Convert, Version, SizeCode, HashSize, ReadPayload;
    VersionIs(kind, |hash|);
    PackedBelow(kind, hash);
    var version := Version(kind, |hash|);
    var data := [version] + hash;
    UnpackPack(data);
    PaddedWithZeros(data);
    SizeCodes(|hash|, version);
    ReadVersion(kind, SizeCode(|hash|), version);
    assert data[1..] == hash;
    ReadData(PackContent(kind, hash), data);
  }

  /** What a payload that unpacks to some bytes is read as. */
  lemma ReadData(payload: Digits, data: Digits)
    requires Below(32, payload) && payload != [] && Convert(5, 8, false, payload) == data && data != []
    requires |payload| * 5 % 8 < 5 && Pow(2, |payload| * 5 % 8) > 0
    requires payload[|payload| - 1] % Pow(2, |payload| * 5 % 8) == 0
    ensures ReadPayload(payload) ==
            if data[0] / 128 % 2 == 1 || |data| != HashSize(data[0]) + 1 then NoContent
            else Content(data[0] / 8 % 32, data[1..])
  {
    hide Pow, Val, Convert, HashSize;
  }

  lemma PaddedWithZeros(data: Digits)
    requires Below(256, data) && data != []
    ensures var p := Convert(8, 5, true, data);
            var extra := |p| * 5 % 8;
            p != [] && extra < 5 && Pow(2, extra) > 0 && p[|p| - 1] % Pow(2, extra) == 0
  {
    hide Pow, Val, Convert;
    ConvertPadded(data);
    var p := Convert(8, 5, true, data);
    var extra := |p| * 5 % 8;
    assert extra == |p| * 5 - |data| * 8;
    LastDigit(p, extra);
    PowPositive(2, extra);
    DivOfMultiple(Val(256, data), Pow(2, extra), 0);
  }

  lemma ReadVersion(kind: nat, code: nat, version: nat)
    requires code < 8 && version == kind * 8 % 256 + code
    ensures version % 8 == code && version / 8 == kind % 32
    ensures version / 128 % 2 == 1 <==> kind % 32 >= 16
  {
    assert kind * 8 % 256 == kind % 32 * 8;
  }

  /**
   Decoding undoes encoding exactly for the kinds of four bits: larger kinds run into the reserved
   bit of the version byte or out of the byte.
   */
  lemma ContentRoundTrip(prefix: string, kind: nat, hash: Digits)
    requires IsPrefix(prefix) && kind < 256 && SizeCode(|hash|) != -1 && Below(256, hash)
    ensures DecodeContent(EncodeContent(prefix, kind, hash), prefix) == Content(kind, hash) <==> kind < 16
    ensures kind == 16 ==> DecodeContent(EncodeContent(prefix, kind, hash), prefix) == NoContent
  {
    hide PackContent, Decode, Encode, ReadPayload, SizeCode, IsPrefix;
    PackedBelow(kind, hash);
    DecodeEncode(prefix, PackContent(kind, hash), prefix);
    ReadPacked(kind, hash);
  }

  /** Reading a payload loses nothing: packing the content again gives the payload. */
  lemma PackRead(payload: Digits)
    requires Below(32, payload) && ReadPayload(payload).Content?
    ensures var c := ReadPayload(payload);
            && c.kind < 16 && SizeCode(|c.hash|) != -1 && Below(256, c.hash)
            && PackContent(c.kind, c.hash) == payload
  {
    hide Pow, Val, Convert, Version, SizeCode, HashSize;
    var extra := |payload| * 5 % 8;
    ConvertCut(payload);
    LastDigit(payload, extra);
    PackUnpack(payload);
    var data := Convert(5, 8, false, payload);
    var c, version := ReadPayload(payload), data[0];
    assert c == Content(version / 8 % 32, data[1..]);
    assert |c.hash| == HashSize(version);
    VersionBack(version);
    assert [version] + data[1..] == data;
  }

  lemma VersionBack(version: nat)
    requires version < 256 && version / 128 % 2 != 1
    ensures version / 8 % 32 < 16 && SizeCode(HashSize(version)) != -1
    ensures Version(version / 8 % 32, HashSize(version)) == version
  {
    SizeCodes(0, version);
    hide SizeCode, HashSize, Version;
    LowVersion(version);
    VersionIs(version / 8 % 32, HashSize(version));
  }

  lemma LowVersion(version: nat)
    requires version < 256 && version / 128 % 2 != 1
    ensures version / 8 % 32 < 16 && version / 8 % 32 * 8 % 256 + version % 8 == version
  {
    assert version < 128;
    var k := version / 8;
    assert k < 16 && version == 8 * k + version % 8;
  }

  /** An address that decodes is, up to upper case and a missing prefix, the encoding of its content. */
  lemma ContentCanonical(addr: string, prefix: string)
    requires DecodeContent(addr, prefix).Content?
    ensures var c := DecodeContent(addr, prefix);
            && c.kind < 16 && SizeCode(|c.hash|) != -1 && Below(256, c.hash)
            && EncodeContent(prefix, c.kind, c.hash)
               == if Colon(addr) == 0 then prefix + ":" + LowerAll(addr) else LowerAll(addr)
  {
    hide PackContent, Decode, Encode, ReadPayload, SizeCode, Colon, LowerAll;
    AcceptedBelow(addr, prefix);
    EncodeDecode(addr, prefix);
    PackRead(Decode(addr, prefix).payload);
  }

  // ----- the methods -----

  method PackAddrData(kind: nat, hash: Digits) returns (ok: bool, converted: Digits)
    requires kind < 256 && Below(256, hash)
    ensures ok <==> SizeCode(|hash|) != -1
    ensures ok ==> converted == PackContent(kind, hash)
  {
    hide Convert, BitOr, Pow;
    var code := SizeCode(|hash|);
    if code == -1 {
      return false, [];
    }
    VersionIs(kind, |hash|);
    Powers32();
    SizeCodes(|hash|, 0);
    var version := BitOr(kind * 8 % 256, code);
    var whole;
    whole, converted := ConvertBits(8, 5, true, [version] + hash);
    ok := true;
  }

  method DecodeAddrContent(addr: string, prefix: string) returns (c: Content)
    ensures c == DecodeContent(addr, prefix)
  {
    hide Convert, Decode, Pow, HashSize;
    var d := DecodeString(addr, prefix);
    match d
    case Rejected => return NoContent;
    case Undefined => return Unspecified;
    case Accepted(p, payload) =>
      AcceptedBelow(addr, prefix);
      if p != prefix || payload == [] {
        return NoContent;
      }
      var extra := |payload| * 5 % 8;
      if extra >= 5 {
        return NoContent;
      }
      PowPositive(2, extra);
      if payload[|payload| - 1] % Pow(2, extra) != 0 {
        return NoContent;
      }
      Powers32();
      var ok, data := ConvertBits(5, 8, false, payload);
      var version := data[0];
      if version / 128 % 2 == 1 || |data| != HashSize(version) + 1 {
        return NoContent;
      }
      return Content(version / 8 % 32, data[1..]);
  }

  // ----- destinations -----

  datatype Destination = NoDestination | KeyId(hash: Digits) | ScriptId(hash: Digits)

  const PUBKEY_TYPE: nat := 0
  const SCRIPT_TYPE: nat := 1
  const TOKEN_PUBKEY_TYPE: nat := 2
  const TOKEN_SCRIPT_TYPE: nat := 3

  function EncodeDestination(prefix: string, dst: Destination, token: bool): string
    requires dst.NoDestination? || (SizeCode(|dst.hash|) != -1 && Below(256, dst.hash))
  {
    match dst
    case NoDestination => ""
    case KeyId(h) => EncodeContent(prefix, if token then TOKEN_PUBKEY_TYPE else PUBKEY_TYPE, h)
    case ScriptId(h) => EncodeContent(prefix, if token then TOKEN_SCRIPT_TYPE else SCRIPT_TYPE, h)
  }

  function DestinationOf(c: Content): Destination {
    if !c.Content? || (|c.hash| != 20 && |c.hash| != 32) then NoDestination
    else if c.kind == PUBKEY_TYPE || c.kind == TOKEN_PUBKEY_TYPE then
      if |c.hash| == 20 then KeyId(c.hash) else NoDestination
    else if c.kind == SCRIPT_TYPE || c.kind == TOKEN_SCRIPT_TYPE then ScriptId(c.hash)
    else NoDestination
  }

  /** Key hashes of 20 bytes, and script hashes of 20 or 32, survive the trip with their token flag. */
  lemma DestinationRoundTrip(prefix: string, dst: Destination, token: bool)
    requires IsPrefix(prefix) && !dst.NoDestination? && Below(256, dst.hash)
    requires |dst.hash| == 20 || (dst.ScriptId? && |dst.hash| == 32)
    ensures var c := DecodeContent(EncodeDestination(prefix, dst, token), prefix);
            && DestinationOf(c) == dst && c.Content?
            && (token <==> c.kind == TOKEN_PUBKEY_TYPE || c.kind == TOKEN_SCRIPT_TYPE)
  {
    hide EncodeContent, DecodeContent;
    if dst.KeyId? {
      ContentRoundTrip(prefix, if token then TOKEN_PUBKEY_TYPE else PUBKEY_TYPE, dst.hash);
    } else {
      ContentRoundTrip(prefix, if token then TOKEN_SCRIPT_TYPE else SCRIPT_TYPE, dst.hash);
    }
  }
}
