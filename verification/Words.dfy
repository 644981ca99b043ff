/**
 Machine words under exclusive or. Each width is wrapped in a datatype of its own, so that keys
 and bytes can sit in maps and sequences as plain values; the laws are proved on the bits once.
 */
module Words {

  datatype Word64 = Word64(bits: bv64)
  datatype Word32 = Word32(bits: bv32)
  datatype Byte = Byte(bits: bv8)

  const ZERO64 := Word64(0)
  const ZERO32 := Word32(0)
  const ZERO8 := Byte(0)

  function X64(a: bv64, b: bv64): bv64 { a ^ b }
  function X32(a: bv32, b: bv32): bv32 { a ^ b }
  function A32(a: bv32, b: bv32): bv32 { a & b }
  function X8(a: bv8, b: bv8): bv8 { a ^ b }

  function Xor64(a: Word64, b: Word64): Word64 { Word64(X64(a.bits, b.bits)) }
  function Xor32(a: Word32, b: Word32): Word32 { Word32(X32(a.bits, b.bits)) }
  function And32(a: Word32, b: Word32): Word32 { Word32(A32(a.bits, b.bits)) }
  function Xor8(a: Byte, b: Byte): Byte { Byte(X8(a.bits, b.bits)) }

  lemma Assoc64(a: bv64, b: bv64, c: bv64)
    ensures X64(a, X64(b, c)) == X64(X64(a, b), c)
  {
  }

  lemma Comm64(a: bv64, b: bv64)
    ensures X64(a, b) == X64(b, a)
    ensures X64(a, 0) == a
  {
  }

  lemma Cancel64(a: bv64, b: bv64)
    ensures X64(a, X64(a, b)) == b
  {
  }

  lemma Assoc32(a: bv32, b: bv32, c: bv32)
    ensures X32(a, X32(b, c)) == X32(X32(a, b), c)
  {
  }

  lemma Comm32(a: bv32, b: bv32)
    ensures X32(a, b) == X32(b, a)
    ensures X32(a, 0) == a
  {
  }

  lemma Cancel32(a: bv32, b: bv32)
    ensures X32(a, X32(a, b)) == b
  {
  }

  lemma Assoc8(a: bv8, b: bv8, c: bv8)
    ensures X8(a, X8(b, c)) == X8(X8(a, b), c)
  {
  }

  lemma Comm8(a: bv8, b: bv8)
    ensures X8(a, b) == X8(b, a)
    ensures X8(a, 0) == a
  {
  }

  lemma Cancel8(a: bv8, b: bv8)
    ensures X8(a, X8(a, b)) == b
  {
  }

  lemma MaskXor(x: bv32, y: bv32, m: bv32)
    ensures A32(X32(x, y), m) == X32(A32(x, m), A32(y, m))
  {
  }

  lemma MaskTwice(x: bv32, m: bv32)
    ensures A32(A32(x, m), m) == A32(x, m)
    ensures A32(0, m) == 0
  {
  }

  lemma Xor64Laws(a: Word64, b: Word64, c: Word64)
    ensures Xor64(a, b) == Xor64(b, a)
    ensures Xor64(a, Xor64(b, c)) == Xor64(Xor64(a, b), c)
    ensures Xor64(a, Xor64(b, c)) == Xor64(b, Xor64(a, c))
    ensures Xor64(a, Xor64(a, b)) == b
    ensures Xor64(a, ZERO64) == a
  {
    hide X64;
    Comm64(a.bits, b.bits);
    Assoc64(a.bits, b.bits, c.bits);
    Assoc64(b.bits, a.bits, c.bits);
    Cancel64(a.bits, b.bits);
  }

  lemma Xor32Laws(a: Word32, b: Word32, c: Word32)
    ensures Xor32(a, b) == Xor32(b, a)
    ensures Xor32(a, Xor32(b, c)) == Xor32(Xor32(a, b), c)
    ensures Xor32(a, Xor32(b, c)) == Xor32(b, Xor32(a, c))
    ensures Xor32(a, Xor32(a, b)) == b
    ensures Xor32(a, ZERO32) == a
  {
    hide X32;
    Comm32(a.bits, b.bits);
    Assoc32(a.bits, b.bits, c.bits);
    Assoc32(b.bits, a.bits, c.bits);
    Cancel32(a.bits, b.bits);
  }

  lemma Xor8Laws(a: Byte, b: Byte, c: Byte)
    ensures Xor8(a, b) == Xor8(b, a)
    ensures Xor8(a, Xor8(b, c)) == Xor8(Xor8(a, b), c)
    ensures Xor8(a, Xor8(b, c)) == Xor8(b, Xor8(a, c))
    ensures Xor8(a, Xor8(a, b)) == b
    ensures Xor8(a, ZERO8) == a
  {
    hide X8;
    Comm8(a.bits, b.bits);
    Assoc8(a.bits, b.bits, c.bits);
    Assoc8(b.bits, a.bits, c.bits);
    Cancel8(a.bits, b.bits);
  }

  /** Masking commutes with exclusive or. */
  lemma MaskLaws(x: Word32, y: Word32, m: Word32)
    ensures And32(Xor32(x, y), m) == Xor32(And32(x, m), And32(y, m))
    ensures And32(And32(x, m), m) == And32(x, m)
    ensures And32(ZERO32, m) == ZERO32
  {
    hide X32, A32;
    MaskXor(x.bits, y.bits, m.bits);
    MaskTwice(x.bits, m.bits);
  }
}
