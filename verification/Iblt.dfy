/**
 Invertible bloom lookup tables: what a table of cells holds, how insertion, subtraction and
 peeling act on it, and when peeling lists exactly the difference of two sets.
 */
module Iblt {
  import opened Numbers
  import opened Words

  type Key = Word64
  type Value = seq<Byte>

  datatype Cell = Cell(count: int, keySum: Key, keyCheck: Word32, valueSum: Value)

  const EMPTY_CELL := Cell(0, ZERO64, ZERO32, [])

  /** The number of hash functions, the number of cells, the checksum mask and the hashes. */
  datatype Shape = Shape(nHash: nat, size: nat, mask: Word32, hash: (nat, Key) -> nat, check: Key -> Word32) {
    function BucketsPerHash(): nat { if nHash == 0 then 0 else size / nHash }
  }

  predicate IsEmpty(c: Cell) { c.count == 0 && c.keySum == ZERO64 && c.keyCheck == ZERO32 }

  predicate IsPure(p: Shape, c: Cell) {
    (c.count == 1 || c.count == -1) && c.keyCheck == And32(p.check(c.keySum), p.mask)
  }

  function Zeros(n: nat): Value { seq(n, _ => ZERO8) }

  function ByteAt(a: Value, i: nat): Byte { if i < |a| then a[i] else ZERO8 }

  /** Byte-wise sum, the shorter one padded with zeros. */
  function XorBytes(a: Value, v: Value): Value {
    var n := if |a| < |v| then |v| else |a|;
    seq(n, i requires 0 <= i < n => Xor8(ByteAt(a, i), ByteAt(v, i)))
  }

  /** BaseHashTableEntry::addValue. */
  method AddValue(valueSum: Value, v: Value) returns (sum: Value)
    ensures sum == XorBytes(valueSum, v)
  {
    sum := valueSum;
    if v != [] {
      if |sum| < |v| {
        sum := sum + Zeros(|v| - |sum|);
      }
      ghost var was := sum;
      for i := 0 to |v|
        invariant |sum| == |was|
        invariant forall k | 0 <= k < |was| :: sum[k] == if k < i then Xor8(was[k], v[k]) else was[k]
      {
        sum := sum[i := Xor8(sum[i], v[i])];
      }
    }
  }

  /** Whether key `k` has cell `j` as its cell for the hash function `j` belongs to. */
  predicate Hits(p: Shape, k: Key, j: nat) {
    var bph := p.BucketsPerHash();
    bph > 0 && j / bph < p.nHash && j % bph == p.hash(j / bph, k) % bph
  }

  /** The three sums of a cell after one more key. */
  function Touch(p: Shape, c: Cell, sign: int, k: Key): Cell {
    Cell(c.count + sign, Xor64(c.keySum, k), And32(Xor32(c.keyCheck, p.check(k)), p.mask), c.valueSum)
  }

  function UpdateCell(p: Shape, c: Cell, sign: int, k: Key, v: Value): Cell {
    var c1 := Touch(p, c, sign, k);
    c1.(valueSum := if IsEmpty(c1) then [] else XorBytes(c1.valueSum, v))
  }

  type Table = seq<Cell>

  function Insert(p: Shape, t: Table, sign: int, k: Key, v: Value): Table {
    seq(|t|, j requires 0 <= j < |t| => if Hits(p, k, j) then UpdateCell(p, t[j], sign, k, v) else t[j])
  }

  lemma CellIndex(p: Shape, i: nat, k: Key)
    requires i < p.nHash && p.BucketsPerHash() > 0
    ensures var bph := p.BucketsPerHash();
            var j := i * bph + p.hash(i, k) % bph;
            j < p.size && j / bph == i && Hits(p, k, j)
  {
    var bph := p.BucketsPerHash();
    var h := p.hash(i, k) % bph;
    var j := i * bph + h;
    DivModUnique(j, bph, i, h);
    MulMono(i + 1, p.nHash, bph);
  }

  lemma HitIsIndex(p: Shape, k: Key, j: nat, i: nat)
    requires Hits(p, k, j) && j / p.BucketsPerHash() == i
    ensures j == i * p.BucketsPerHash() + p.hash(i, k) % p.BucketsPerHash()
  {
  }

  /** The table once the first `i` hash functions have had their turn. */
  function InsertBelow(p: Shape, t: Table, sign: int, k: Key, v: Value, i: nat): Table
    requires p.BucketsPerHash() > 0
  {
    seq(|t|, j requires 0 <= j < |t| =>
      if j / p.BucketsPerHash() < i && Hits(p, k, j) then UpdateCell(p, t[j], sign, k, v) else t[j])
  }

  lemma InsertStep(p: Shape, t: Table, sign: int, k: Key, v: Value, i: nat)
    requires p.BucketsPerHash() > 0 && |t| == p.size && i < p.nHash
    ensures var at := i * p.BucketsPerHash() + p.hash(i, k) % p.BucketsPerHash();
            && at < |t| && InsertBelow(p, t, sign, k, v, i)[at] == t[at]
            && InsertBelow(p, t, sign, k, v, i + 1) ==
               InsertBelow(p, t, sign, k, v, i)[at := UpdateCell(p, t[at], sign, k, v)]
  {
    hide UpdateCell;
    CellIndex(p, i, k);
    forall j | 0 <= j < |t| && j / p.BucketsPerHash() == i && Hits(p, k, j)
      ensures j == i * p.BucketsPerHash() + p.hash(i, k) % p.BucketsPerHash()
    {
      HitIsIndex(p, k, j, i);
    }
  }

  lemma InsertEnds(p: Shape, t: Table, sign: int, k: Key, v: Value)
    requires p.BucketsPerHash() > 0
    ensures InsertBelow(p, t, sign, k, v, 0) == t
    ensures InsertBelow(p, t, sign, k, v, p.nHash) == Insert(p, t, sign, k, v)
  {
    hide UpdateCell;
  }

  method UpdateEntry(p: Shape, c: Cell, sign: int, k: Key, v: Value) returns (entry: Cell)
    ensures entry == UpdateCell(p, c, sign, k, v)
  {
    hide Touch, IsEmpty, XorBytes;
    entry := Touch(p, c, sign, k);
    if IsEmpty(entry) {
      entry := entry.(valueSum := []);
    } else {
      var sum := AddValue(entry.valueSum, v);
      entry := entry.(valueSum := sum);
    }
  }

  // ----- what a cell sums up -----

  datatype Vec = Vec(count: int, key: Key, check: Word32, bytes: Value)

  function ZeroVec(len: nat): Vec { Vec(0, ZERO64, ZERO32, Zeros(len)) }

  function AddVec(a: Vec, b: Vec): Vec {
    Vec(a.count + b.count, Xor64(a.key, b.key), Xor32(a.check, b.check), XorBytes(a.bytes, b.bytes))
  }

  lemma XorBytesAt(a: Value, b: Value, i: nat)
    ensures |XorBytes(a, b)| == if |a| < |b| then |b| else |a|
    ensures ByteAt(XorBytes(a, b), i) == Xor8(ByteAt(a, i), ByteAt(b, i))
  {
    Xor8Laws(ZERO8, ZERO8, ZERO8);
  }

  /** Values are equal when they are equally long and agree at every place. */
  lemma SameBytes(a: Value, b: Value)
    requires |a| == |b| && forall i | 0 <= i < |a| :: ByteAt(a, i) == ByteAt(b, i)
    ensures a == b
  {
    forall i | 0 <= i < |a| ensures a[i] == b[i] {
      assert ByteAt(a, i) == ByteAt(b, i);
    }
  }

  lemma XorBytesCommutes(a: Value, b: Value)
    ensures XorBytes(a, b) == XorBytes(b, a)
  {
    XorBytesAt(a, b, 0);
    XorBytesAt(b, a, 0);
    forall i | 0 <= i < |XorBytes(a, b)| ensures ByteAt(XorBytes(a, b), i) == ByteAt(XorBytes(b, a), i) {
      XorBytesAt(a, b, i);
      XorBytesAt(b, a, i);
      Xor8Laws(ByteAt(a, i), ByteAt(b, i), ZERO8);
    }
    SameBytes(XorBytes(a, b), XorBytes(b, a));
  }

  lemma XorBytesAssociates(a: Value, b: Value, c: Value)
    ensures XorBytes(a, XorBytes(b, c)) == XorBytes(XorBytes(a, b), c)
  {
    hide XorBytes, Xor8;
    var l, r := XorBytes(a, XorBytes(b, c)), XorBytes(XorBytes(a, b), c);
    forall i: nat ensures |l| == |r| && ByteAt(l, i) == ByteAt(r, i) {
      XorBytesAt(b, c, i);
      XorBytesAt(a, XorBytes(b, c), i);
      XorBytesAt(a, b, i);
      XorBytesAt(XorBytes(a, b), c, i);
      Xor8Laws(ByteAt(a, i), ByteAt(b, i), ByteAt(c, i));
    }
    assert ByteAt(l, 0) == ByteAt(r, 0);
    SameBytes(l, r);
  }

  lemma XorBytesCancels(a: Value, b: Value)
    requires |a| <= |b|
    ensures XorBytes(a, XorBytes(a, b)) == b
  {
    hide XorBytes, Xor8;
    var l := XorBytes(a, XorBytes(a, b));
    forall i: nat ensures |l| == |b| && ByteAt(l, i) == ByteAt(b, i) {
      XorBytesAt(a, b, i);
      XorBytesAt(a, XorBytes(a, b), i);
      Xor8Laws(ByteAt(a, i), ByteAt(b, i), ZERO8);
    }
    assert ByteAt(l, 0) == ByteAt(b, 0);
    SameBytes(l, b);
  }

  lemma XorBytesZero(a: Value)
    ensures XorBytes(a, Zeros(|a|)) == a && XorBytes(a, []) == a && XorBytes([], a) == a
  {
    forall i | 0 <= i < |a| ensures XorBytes(a, Zeros(|a|))[i] == XorBytes(a, [])[i] == XorBytes([], a)[i] == a[i] {
      Xor8Laws(a[i], ZERO8, ZERO8);
    }
  }

  lemma AddVecLaws(a: Vec, b: Vec, c: Vec)
    ensures AddVec(a, b) == AddVec(b, a)
    ensures AddVec(a, AddVec(b, c)) == AddVec(AddVec(a, b), c)
    ensures AddVec(a, AddVec(b, c)) == AddVec(b, AddVec(a, c))
  {
    hide XorBytes, Xor64, Xor32;
    Xor64Laws(a.key, b.key, c.key);
    Xor32Laws(a.check, b.check, c.check);
    XorBytesCommutes(a.bytes, b.bytes);
    XorBytesAssociates(a.bytes, b.bytes, c.bytes);
    XorBytesAssociates(b.bytes, a.bytes, c.bytes);
  }

  // ----- sets of signed entries -----

  /** An entry counts once for (sign 1) or once against (sign -1). */
  datatype Entry = Entry(sign: int, value: Value)

  type Dataset = map<Key, Entry>

  predicate WellSized(D: Dataset, len: nat) {
    forall k | k in D :: |D[k].value| == len && (D[k].sign == 1 || D[k].sign == -1)
  }

  function VecOf(p: Shape, k: Key, e: Entry): Vec { Vec(e.sign, k, And32(p.check(k), p.mask), e.value) }

  ghost function Fold(p: Shape, len: nat, D: Dataset): Vec
    decreases |D|
  {
    if D == map[] then ZeroVec(len)
    else
      var k :| k in D;
      AddVec(VecOf(p, k, D[k]), Fold(p, len, D - {k}))
  }

  lemma {:induction false} FoldRemove(p: Shape, len: nat, D: Dataset, k: Key)
    requires k in D
    ensures Fold(p, len, D) == AddVec(VecOf(p, k, D[k]), Fold(p, len, D - {k}))
    decreases |D|
  {
    hide AddVec, VecOf;
    var j :| j in D && Fold(p, len, D) == AddVec(VecOf(p, j, D[j]), Fold(p, len, D - {j}));
    if j != k {
      FoldRemove(p, len, D - {j}, k);
      FoldRemove(p, len, D - {k}, j);
      assert D - {j} - {k} == D - {k} - {j};
      AddVecLaws(VecOf(p, j, D[j]), VecOf(p, k, D[k]), Fold(p, len, D - {k} - {j}));
    }
  }

  lemma FoldPut(p: Shape, len: nat, D: Dataset, k: Key, e: Entry)
    requires k !in D
    ensures Fold(p, len, D[k := e]) == AddVec(VecOf(p, k, e), Fold(p, len, D))
  {
    hide AddVec, VecOf, Fold;
    FoldRemove(p, len, D[k := e], k);
    assert D[k := e] - {k} == D;
  }

  lemma {:induction false} FoldShape(p: Shape, len: nat, D: Dataset)
    requires WellSized(D, len)
    ensures |Fold(p, len, D).bytes| == len
    ensures And32(Fold(p, len, D).check, p.mask) == Fold(p, len, D).check
    decreases |D|
  {
    hide XorBytes, Xor64, Xor32, And32;
    if D == map[] {
      MaskLaws(ZERO32, ZERO32, p.mask);
    } else {
      var k :| k in D;
      FoldRemove(p, len, D, k);
      FoldShape(p, len, D - {k});
      var rest := Fold(p, len, D - {k});
      MaskLaws(And32(p.check(k), p.mask), rest.check, p.mask);
      MaskLaws(p.check(k), rest.check, p.mask);
      XorBytesAt(D[k].value, rest.bytes, 0);
    }
  }

  // ----- cells that hold a dataset -----

  predicate IsEmptyVec(f: Vec) { f.count == 0 && f.key == ZERO64 && f.check == ZERO32 }

  predicate IsPureVec(p: Shape, f: Vec) {
    (f.count == 1 || f.count == -1) && f.check == And32(p.check(f.key), p.mask)
  }

  /** The cell's three sums are those of the entries, and so are the values unless there are none. */
  ghost predicate CellHolds(p: Shape, c: Cell, D: Dataset, len: nat) {
    var f := Fold(p, len, D);
    && c.count == f.count && c.keySum == f.key && c.keyCheck == f.check
    && c.valueSum == if D == map[] then [] else f.bytes
  }

  lemma CellRemove(p: Shape, c: Cell, D: Dataset, k: Key, len: nat)
    requires CellHolds(p, c, D, len) && WellSized(D, len) && k in D
    requires IsEmptyVec(Fold(p, len, D - {k})) ==> D - {k} == map[]
    ensures CellHolds(p, UpdateCell(p, c, -D[k].sign, k, D[k].value), D - {k}, len)
  {
    hide XorBytes, Xor64, Xor32, And32, Fold;
    assert D - {k} == map[] ==> Fold(p, len, D - {k}) == ZeroVec(len) by { FoldEmpty(p, len); }
    var rest, e := Fold(p, len, D - {k}), D[k];
    FoldRemove(p, len, D, k);
    FoldShape(p, len, D - {k});
    Xor64Laws(k, rest.key, rest.key);
    Xor64Laws(Xor64(k, rest.key), k, k);
    CheckCancels(p.check(k), rest.check, p.mask);
    XorBytesCommutes(XorBytes(e.value, rest.bytes), e.value);
    XorBytesCancels(e.value, rest.bytes);
  }

  lemma FoldEmpty(p: Shape, len: nat)
    ensures Fold(p, len, map[]) == ZeroVec(len)
  {
  }

  lemma CheckCancels(x: Word32, y: Word32, m: Word32)
    requires And32(y, m) == y
    ensures And32(Xor32(Xor32(And32(x, m), y), x), m) == y
    ensures And32(Xor32(y, x), m) == Xor32(And32(x, m), y)
  {
    hide Xor32, And32;
    MaskLaws(Xor32(And32(x, m), y), x, m);
    MaskLaws(And32(x, m), y, m);
    MaskLaws(x, y, m);
    MaskLaws(y, x, m);
    Xor32Laws(And32(x, m), y, And32(x, m));
    Xor32Laws(And32(x, m), y, y);
  }

  lemma CellPut(p: Shape, c: Cell, D: Dataset, k: Key, e: Entry, len: nat)
    requires CellHolds(p, c, D, len) && WellSized(D, len) && k !in D && |e.value| == len
    requires !IsEmptyVec(Fold(p, len, D[k := e]))
    ensures CellHolds(p, UpdateCell(p, c, e.sign, k, e.value), D[k := e], len)
  {
    hide XorBytes, Xor64, Xor32, And32, Fold;
    var f := Fold(p, len, D);
    FoldEmpty(p, len);
    FoldPut(p, len, D, k, e);
    FoldShape(p, len, D);
    Xor64Laws(f.key, k, k);
    CheckCancels(p.check(k), f.check, p.mask);
    XorBytesCommutes(e.value, f.bytes);
    XorBytesZero(e.value);
  }

  // ----- tables that hold a dataset -----

  /** The entries that have cell `j`. */
  function At(p: Shape, D: Dataset, j: nat): Dataset { map k | k in D && Hits(p, k, j) :: D[k] }

  ghost predicate Encodes(p: Shape, t: Table, D: Dataset, len: nat) {
    && |t| == p.size && WellSized(D, len)
    && forall j | 0 <= j < |t| :: CellHolds(p, t[j], At(p, D, j), len)
  }

  predicate IsPart(D: Dataset, E: Dataset) { forall k | k in D :: k in E && D[k] == E[k] }

  /**
   No group of entries sharing a cell sums up to an empty cell, and none but a single entry to a
   pure one. The checksums make this likely; nothing makes it certain.
   */
  ghost predicate Sound(p: Shape, D: Dataset, len: nat) {
    forall j: nat, E: Dataset | j < p.size && IsPart(E, At(p, D, j)) ::
      && (IsEmptyVec(Fold(p, len, E)) ==> E == map[])
      && (IsPureVec(p, Fold(p, len, E)) ==> |E| == 1)
  }

  lemma SoundPart(p: Shape, D: Dataset, E: Dataset, len: nat)
    requires Sound(p, E, len) && IsPart(D, E)
    ensures Sound(p, D, len)
  {
    hide Hits;
    forall j: nat, F: Dataset | j < p.size && IsPart(F, At(p, D, j))
      ensures IsEmptyVec(Fold(p, len, F)) ==> F == map[]
      ensures IsPureVec(p, Fold(p, len, F)) ==> |F| == 1
    {
      assert IsPart(F, At(p, E, j));
    }
  }

  lemma SoundAt(p: Shape, D: Dataset, len: nat, j: nat)
    requires Sound(p, D, len) && j < p.size
    ensures IsEmptyVec(Fold(p, len, At(p, D, j))) ==> At(p, D, j) == map[]
    ensures IsPureVec(p, Fold(p, len, At(p, D, j))) ==> |At(p, D, j)| == 1
  {
    assert IsPart(At(p, D, j), At(p, D, j));
  }

  lemma AtMinus(p: Shape, D: Dataset, k: Key, j: nat)
    ensures At(p, D - {k}, j) == if Hits(p, k, j) then At(p, D, j) - {k} else At(p, D, j)
  {
    hide Hits;
  }

  lemma AtPlus(p: Shape, D: Dataset, k: Key, e: Entry, j: nat)
    requires k !in D
    ensures At(p, D[k := e], j) == if Hits(p, k, j) then At(p, D, j)[k := e] else At(p, D, j)
  {
    hide Hits;
  }

  /** Taking an entry out again, with its own value, is inserting it with the opposite sign. */
  lemma RemoveEncodes(p: Shape, t: Table, D: Dataset, k: Key, len: nat)
    requires Encodes(p, t, D, len) && Sound(p, D, len) && k in D
    ensures Encodes(p, Insert(p, t, -D[k].sign, k, D[k].value), D - {k}, len)
  {
    hide Hits, CellHolds, Sound, UpdateCell;
    SoundPart(p, D - {k}, D, len);
    var t' := Insert(p, t, -D[k].sign, k, D[k].value);
    forall j | 0 <= j < |t'| ensures CellHolds(p, t'[j], At(p, D - {k}, j), len) {
      AtMinus(p, D, k, j);
      SoundAt(p, D - {k}, len, j);
      assert CellHolds(p, t[j], At(p, D, j), len);
      if Hits(p, k, j) {
        CellRemove(p, t[j], At(p, D, j), k, len);
      }
    }
  }

  lemma InsertEncodes(p: Shape, t: Table, D: Dataset, k: Key, e: Entry, len: nat)
    requires Encodes(p, t, D, len) && k !in D && Sound(p, D[k := e], len)
    requires |e.value| == len && (e.sign == 1 || e.sign == -1)
    ensures Encodes(p, Insert(p, t, e.sign, k, e.value), D[k := e], len)
  {
    hide Hits, CellHolds, Sound, UpdateCell;
    var t' := Insert(p, t, e.sign, k, e.value);
    forall j | 0 <= j < |t'| ensures CellHolds(p, t'[j], At(p, D[k := e], j), len) {
      AtPlus(p, D, k, e, j);
      SoundAt(p, D[k := e], len, j);
      assert CellHolds(p, t[j], At(p, D, j), len);
      if Hits(p, k, j) {
        assert At(p, D[k := e], j) == At(p, D, j)[k := e];
        assert k in At(p, D[k := e], j);
        CellPut(p, t[j], At(p, D, j), k, e, len);
      }
    }
  }

  function EmptyTable(p: Shape): Table { seq(p.size, _ => EMPTY_CELL) }

  lemma EmptyEncodes(p: Shape, len: nat)
    ensures Encodes(p, EmptyTable(p), map[], len)
  {
    hide Hits;
    forall j: nat | j < p.size ensures CellHolds(p, EMPTY_CELL, At(p, map[], j), len) {
      assert At(p, map[], j) == map[];
      FoldEmpty(p, len);
    }
  }

  /** All entries counted for. */
  function Positive(A: map<Key, Value>): Dataset { map k | k in A :: Entry(1, A[k]) }

  ghost predicate SameLength(A: map<Key, Value>, len: nat) { forall k | k in A :: |A[k]| == len }

  function Inserted(A: map<Key, Value>, todo: set<Key>): Dataset { map k | k in A && k !in todo :: Entry(1, A[k]) }

  lemma InsertedStep(A: map<Key, Value>, todo: set<Key>, k: Key)
    requires k in todo && k in A
    ensures k !in Inserted(A, todo)
    ensures Inserted(A, todo - {k}) == Inserted(A, todo)[k := Entry(1, A[k])]
    ensures IsPart(Inserted(A, todo - {k}), Positive(A))
  {
  }

  lemma {:induction false} PositiveCount(p: Shape, len: nat, E: Dataset)
    requires forall k | k in E :: E[k].sign == 1
    ensures Fold(p, len, E).count == |E|
    decreases |E|
  {
    hide Xor64, Xor32, And32, XorBytes;
    if E != map[] {
      assert E.Keys != {};
      var k :| k in E;
      FoldRemove(p, len, E, k);
      assert (E - {k}).Keys == E.Keys - {k};
      PositiveCount(p, len, E - {k});
    } else {
      FoldEmpty(p, len);
    }
  }

  /** A table built by insertions alone cannot look empty or pure by accident: its counts only grow. */
  lemma PositiveSound(p: Shape, A: map<Key, Value>, len: nat)
    ensures Sound(p, Positive(A), len)
  {
    hide Hits, Fold;
    forall j: nat, E: Dataset | j < p.size && IsPart(E, At(p, Positive(A), j))
      ensures IsEmptyVec(Fold(p, len, E)) ==> E == map[]
      ensures IsPureVec(p, Fold(p, len, E)) ==> |E| == 1
    {
      PositiveCount(p, len, E);
      assert |E| == 0 ==> E == map[];
    }
  }

  lemma EncodesSize(p: Shape, t: Table, D: Dataset, len: nat)
    requires Encodes(p, t, D, len)
    ensures |t| == p.size
  {
  }

  // ----- subtraction -----

  function SubTouch(p: Shape, c1: Cell, c2: Cell): Cell {
    Cell(c1.count - c2.count, Xor64(c1.keySum, c2.keySum), And32(Xor32(c1.keyCheck, c2.keyCheck), p.mask), c1.valueSum)
  }

  function SubCell(p: Shape, c1: Cell, c2: Cell): Cell {
    var c := SubTouch(p, c1, c2);
    c.(valueSum := if IsEmpty(c) then [] else XorBytes(c.valueSum, c2.valueSum))
  }

  method SubtractEntry(p: Shape, c1: Cell, c2: Cell) returns (entry: Cell)
    ensures entry == SubCell(p, c1, c2)
  {
    hide SubTouch, IsEmpty, XorBytes;
    entry := SubTouch(p, c1, c2);
    if IsEmpty(entry) {
      entry := entry.(valueSum := []);
    } else {
      var sum := AddValue(entry.valueSum, c2.valueSum);
      entry := entry.(valueSum := sum);
    }
  }

  function SubTable(p: Shape, a: Table, b: Table): Table
    requires |a| == |b|
  {
    seq(|a|, j requires 0 <= j < |a| => SubCell(p, a[j], b[j]))
  }

  /** What one dataset has over another, and against it. */
  function Difference(A: Dataset, B: Dataset): Dataset {
    map k | k in A.Keys + B.Keys && (k in A) != (k in B) ::
      if k in A then A[k] else B[k].(sign := -B[k].sign)
  }

  /** Whatever key both have, they have with the same value. */
  predicate Agree(A: Dataset, B: Dataset) { forall k | k in A && k in B :: A[k] == B[k] }

  function SubVec(a: Vec, b: Vec): Vec {
    Vec(a.count - b.count, Xor64(a.key, b.key), Xor32(a.check, b.check), XorBytes(a.bytes, b.bytes))
  }

  function NegVec(a: Vec): Vec { a.(count := -a.count) }

  lemma XorPairs64(x: Key, a: Key, b: Key)
    ensures Xor64(Xor64(x, a), Xor64(x, b)) == Xor64(a, b)
    ensures Xor64(Xor64(x, a), b) == Xor64(x, Xor64(a, b))
    ensures Xor64(a, Xor64(x, b)) == Xor64(x, Xor64(a, b))
  {
    hide Xor64;
    Xor64Laws(x, a, Xor64(x, b));
    Xor64Laws(a, x, Xor64(x, b));
    Xor64Laws(x, b, b);
    Xor64Laws(x, a, b);
    Xor64Laws(a, x, b);
    Xor64Laws(x, Xor64(a, b), b);
  }

  lemma XorPairs32(x: Word32, a: Word32, b: Word32)
    ensures Xor32(Xor32(x, a), Xor32(x, b)) == Xor32(a, b)
    ensures Xor32(Xor32(x, a), b) == Xor32(x, Xor32(a, b))
    ensures Xor32(a, Xor32(x, b)) == Xor32(x, Xor32(a, b))
  {
    hide Xor32;
    Xor32Laws(x, a, Xor32(x, b));
    Xor32Laws(a, x, Xor32(x, b));
    Xor32Laws(x, b, b);
    Xor32Laws(x, a, b);
    Xor32Laws(a, x, b);
    Xor32Laws(x, Xor32(a, b), b);
  }

  lemma XorPairsBytes(x: Value, a: Value, b: Value)
    requires |x| == |a| == |b|
    ensures XorBytes(XorBytes(x, a), XorBytes(x, b)) == XorBytes(a, b)
    ensures XorBytes(XorBytes(x, a), b) == XorBytes(x, XorBytes(a, b))
    ensures XorBytes(a, XorBytes(x, b)) == XorBytes(x, XorBytes(a, b))
  {
    hide XorBytes;
    XorBytesAt(a, b, 0);
    XorBytesAssociates(x, a, b);
    XorBytesAssociates(a, x, b);
    XorBytesCommutes(a, x);
    XorBytesAssociates(x, a, XorBytes(x, b));
    XorBytesCancels(x, XorBytes(a, b));
  }

  lemma SubVecLaws(x: Vec, a: Vec, b: Vec)
    requires |x.bytes| == |a.bytes| == |b.bytes|
    ensures SubVec(AddVec(x, a), AddVec(x, b)) == SubVec(a, b)
    ensures SubVec(AddVec(x, a), b) == AddVec(x, SubVec(a, b))
    ensures SubVec(a, AddVec(x, b)) == AddVec(NegVec(x), SubVec(a, b))
  {
    hide Xor64, Xor32, XorBytes;
    XorPairs64(x.key, a.key, b.key);
    XorPairs32(x.check, a.check, b.check);
    XorPairsBytes(x.bytes, a.bytes, b.bytes);
  }

  lemma DifferenceSteps(A: Dataset, B: Dataset, k: Key)
    ensures k in A && k in B ==> Difference(A - {k}, B - {k}) == Difference(A, B)
    ensures k in A && k !in B ==> Difference(A - {k}, B) == Difference(A, B) - {k}
    ensures k !in A && k in B ==> Difference(A, B - {k}) == Difference(A, B) - {k}
  {
  }

  /** Subtracting sums is summing the difference. */
  lemma {:induction false} FoldDifference(p: Shape, len: nat, A: Dataset, B: Dataset)
    requires WellSized(A, len) && WellSized(B, len) && Agree(A, B)
    ensures Fold(p, len, Difference(A, B)) == SubVec(Fold(p, len, A), Fold(p, len, B))
    decreases |A| + |B|
  {
    hide Fold, AddVec, SubVec, NegVec, Xor64, Xor32, And32, XorBytes;
    if A == map[] && B == map[] {
      assert Difference(A, B) == map[];
      FoldEmpty(p, len);
      SubZero(len);
    } else if A != map[] {
      var k :| k in A;
      DifferenceSteps(A, B, k);
      FoldRemove(p, len, A, k);
      FoldShape(p, len, A - {k});
      if k in B {
        FoldDifference(p, len, A - {k}, B - {k});
        FoldRemove(p, len, B, k);
        FoldShape(p, len, B - {k});
        SubVecLaws(VecOf(p, k, A[k]), Fold(p, len, A - {k}), Fold(p, len, B - {k}));
      } else {
        FoldDifference(p, len, A - {k}, B);
        FoldRemove(p, len, Difference(A, B), k);
        FoldShape(p, len, B);
        SubVecLaws(VecOf(p, k, A[k]), Fold(p, len, A - {k}), Fold(p, len, B));
      }
    } else {
      var k :| k in B;
      DifferenceSteps(A, B, k);
      FoldRemove(p, len, B, k);
      FoldShape(p, len, B - {k});
      FoldShape(p, len, A);
      FoldDifference(p, len, A, B - {k});
      FoldRemove(p, len, Difference(A, B), k);
      SubVecLaws(VecOf(p, k, B[k]), Fold(p, len, A), Fold(p, len, B - {k}));
      VecOfNeg(p, k, B[k]);
    }
  }

  lemma SubZero(len: nat)
    ensures SubVec(ZeroVec(len), ZeroVec(len)) == ZeroVec(len)
  {
    Xor64Laws(ZERO64, ZERO64, ZERO64);
    Xor32Laws(ZERO32, ZERO32, ZERO32);
    XorBytesZero(Zeros(len));
  }

  lemma VecOfNeg(p: Shape, k: Key, e: Entry)
    ensures VecOf(p, k, e.(sign := -e.sign)) == NegVec(VecOf(p, k, e))
  {
    hide And32;
  }

  lemma SubCellHolds(p: Shape, c1: Cell, c2: Cell, A: Dataset, B: Dataset, len: nat)
    requires CellHolds(p, c1, A, len) && CellHolds(p, c2, B, len)
    requires WellSized(A, len) && WellSized(B, len) && Agree(A, B)
    requires IsEmptyVec(Fold(p, len, Difference(A, B))) ==> Difference(A, B) == map[]
    ensures CellHolds(p, SubCell(p, c1, c2), Difference(A, B), len)
  {
    hide Fold, XorBytes, Xor64, Xor32, And32;
    FoldDifference(p, len, A, B);
    FoldShape(p, len, A);
    FoldShape(p, len, B);
    FoldEmpty(p, len);
    var f, g := Fold(p, len, A), Fold(p, len, B);
    MaskLaws(f.check, g.check, p.mask);
    XorBytesZero(f.bytes);
    XorBytesZero(g.bytes);
    XorBytesCommutes(Zeros(len), g.bytes);
    if Difference(A, B) != map[] {
      assert A != map[] || B != map[];
    }
  }

  lemma AtDifference(p: Shape, A: Dataset, B: Dataset, j: nat)
    ensures At(p, Difference(A, B), j) == Difference(At(p, A, j), At(p, B, j))
  {
    hide Hits;
  }

  /** The difference of two tables holds the difference of their datasets. */
  lemma SubtractEncodes(p: Shape, a: Table, b: Table, A: Dataset, B: Dataset, len: nat)
    requires Encodes(p, a, A, len) && Encodes(p, b, B, len) && Agree(A, B)
    requires Sound(p, Difference(A, B), len)
    ensures Encodes(p, SubTable(p, a, b), Difference(A, B), len)
  {
    hide Hits, CellHolds, Sound, SubCell;
    var t := SubTable(p, a, b);
    forall j | 0 <= j < |t| ensures CellHolds(p, t[j], At(p, Difference(A, B), j), len) {
      AtDifference(p, A, B, j);
      SoundAt(p, Difference(A, B), len, j);
      assert CellHolds(p, a[j], At(p, A, j), len) && CellHolds(p, b[j], At(p, B, j), len);
      SubCellHolds(p, a[j], b[j], At(p, A, j), At(p, B, j), len);
    }
  }

  // ----- peeling -----

  /** An entry taken off a table, in the order of the log. */
  datatype Peeled = Peeled(sign: int, key: Key, value: Value)

  function LogCount(p: Shape, log: seq<Peeled>, j: nat): int {
    if log == [] then 0
    else
      var x := log[|log| - 1];
      LogCount(p, log[..|log| - 1], j) + if Hits(p, x.key, j) then x.sign else 0
  }

  function LogKey(p: Shape, log: seq<Peeled>, j: nat): Key {
    if log == [] then ZERO64
    else
      var x := log[|log| - 1];
      Xor64(LogKey(p, log[..|log| - 1], j), if Hits(p, x.key, j) then x.key else ZERO64)
  }

  function LogCheck(p: Shape, log: seq<Peeled>, j: nat): Word32 {
    if log == [] then ZERO32
    else
      var x := log[|log| - 1];
      Xor32(LogCheck(p, log[..|log| - 1], j), if Hits(p, x.key, j) then And32(p.check(x.key), p.mask) else ZERO32)
  }

  ghost predicate CellBalanced(p: Shape, c: Cell, now: Cell, log: seq<Peeled>, j: nat) {
    && c.count == now.count + LogCount(p, log, j)
    && c.keySum == Xor64(now.keySum, LogKey(p, log, j))
    && And32(c.keyCheck, p.mask) == Xor32(And32(now.keyCheck, p.mask), LogCheck(p, log, j))
  }

  /** What is left in the table and what was taken off it add up to the table at the start. */
  ghost predicate Balanced(p: Shape, t: Table, now: Table, log: seq<Peeled>) {
    |now| == |t| && forall j | 0 <= j < |t| :: CellBalanced(p, t[j], now[j], log, j)
  }

  lemma PeelCell(p: Shape, c: Cell, now: Cell, log: seq<Peeled>, j: nat, sign: int, k: Key, v: Value)
    requires CellBalanced(p, c, now, log, j)
    ensures CellBalanced(p, c, if Hits(p, k, j) then UpdateCell(p, now, -sign, k, v) else now,
                         log + [Peeled(sign, k, v)], j)
  {
    hide Hits, Xor64, Xor32, And32, XorBytes;
    var log' := log + [Peeled(sign, k, v)];
    assert log'[..|log'| - 1] == log;
    var lk, lc, chk := LogKey(p, log, j), LogCheck(p, log, j), And32(p.check(k), p.mask);
    Xor64Laws(lk, ZERO64, ZERO64);
    Xor32Laws(lc, ZERO32, ZERO32);
    if Hits(p, k, j) {
      XorPairs64(k, now.keySum, lk);
      Xor64Laws(now.keySum, k, k);
      Xor64Laws(lk, k, k);
      MaskLaws(now.keyCheck, p.check(k), p.mask);
      MaskLaws(Xor32(now.keyCheck, p.check(k)), ZERO32, p.mask);
      XorPairs32(chk, And32(now.keyCheck, p.mask), lc);
      Xor32Laws(And32(now.keyCheck, p.mask), chk, chk);
      Xor32Laws(lc, chk, chk);
    }
  }

  /** Every peeling step keeps the balance, whatever the cell held. */
  lemma PeelKeepsBalance(p: Shape, t: Table, now: Table, log: seq<Peeled>, sign: int, k: Key, v: Value)
    requires Balanced(p, t, now, log)
    ensures Balanced(p, t, Insert(p, now, -sign, k, v), log + [Peeled(sign, k, v)])
  {
    hide CellBalanced, Hits, UpdateCell;
    var now', log' := Insert(p, now, -sign, k, v), log + [Peeled(sign, k, v)];
    forall j | 0 <= j < |t| ensures CellBalanced(p, t[j], now'[j], log', j) {
      assert CellBalanced(p, t[j], now[j], log, j);
      PeelCell(p, t[j], now[j], log, j, sign, k, v);
    }
  }

  lemma StartBalanced(p: Shape, t: Table)
    ensures Balanced(p, t, t, [])
  {
    hide Xor64, Xor32, And32;
    forall j | 0 <= j < |t| ensures CellBalanced(p, t[j], t[j], [], j) {
      Xor64Laws(t[j].keySum, ZERO64, ZERO64);
      Xor32Laws(And32(t[j].keyCheck, p.mask), ZERO32, ZERO32);
    }
  }

  lemma OneKey(D: Dataset, k: Key)
    requires |D| == 1 && k in D
    ensures D == map[k := D[k]]
  {
    assert D.Keys == {k} by {
      assert |D.Keys - {k}| == 0;
    }
  }

  /** A pure cell names its only entry. */
  lemma PureIsEntry(p: Shape, t: Table, D: Dataset, len: nat, i: nat)
    requires Encodes(p, t, D, len) && Sound(p, D, len) && i < |t| && IsPure(p, t[i])
    ensures t[i].keySum in D
    ensures D[t[i].keySum] == Entry(t[i].count, t[i].valueSum)
    ensures Hits(p, t[i].keySum, i) && forall k | k in D && Hits(p, k, i) :: k == t[i].keySum
  {
    hide Hits, Xor64, Xor32, And32, XorBytes, Fold, Sound;
    var E := At(p, D, i);
    assert CellHolds(p, t[i], E, len);
    SoundAt(p, D, len, i);
    assert |E| == 1;
    assert E.Keys != {};
    var k :| k in E;
    OneKey(E, k);
    FoldRemove(p, len, E, k);
    assert E - {k} == map[];
    FoldEmpty(p, len);
    Xor64Laws(k, ZERO64, ZERO64);
    XorBytesZero(E[k].value);
    assert forall x | x in D && Hits(p, x, i) :: x in E;
  }

  function PeeledWith(log: seq<Peeled>, sign: int): set<(Key, Value)> {
    set i | 0 <= i < |log| && log[i].sign == sign :: (log[i].key, log[i].value)
  }

  /** The entries of one sign, as listed. */
  function Listed(D: Dataset, sign: int): set<(Key, Value)> {
    set k | k in D && D[k].sign == sign :: (k, D[k].value)
  }

  /** The log lists exactly what `D` has and `now` no longer has. */
  ghost predicate LogIs(log: seq<Peeled>, D: Dataset, now: Dataset) {
    && IsPart(now, D)
    && (forall i | 0 <= i < |log| ::
          log[i].key in D && log[i].key !in now && D[log[i].key] == Entry(log[i].sign, log[i].value))
    && (forall k | k in D && k !in now :: Peeled(D[k].sign, k, D[k].value) in log)
  }

  lemma PeelEntry(p: Shape, t: Table, D: Dataset, now: Dataset, log: seq<Peeled>, len: nat, i: nat)
    requires Encodes(p, t, now, len) && Sound(p, D, len) && LogIs(log, D, now)
    requires i < |t| && IsPure(p, t[i])
    ensures var c := t[i];
            var now' := now - {c.keySum};
            && c.keySum in now && now[c.keySum] == Entry(c.count, c.valueSum) && |now'| == |now| - 1
            && Hits(p, c.keySum, i) && (forall k | k in now && Hits(p, k, i) :: k == c.keySum)
            && Encodes(p, Insert(p, t, -c.count, c.keySum, c.valueSum), now', len)
            && LogIs(log + [Peeled(c.count, c.keySum, c.valueSum)], D, now')
  {
    hide Hits, Sound, Encodes, Insert;
    SoundPart(p, now, D, len);
    PureIsEntry(p, t, now, len, i);
    RemoveEncodes(p, t, now, t[i].keySum, len);
    var c := t[i];
    var log', now' := log + [Peeled(c.count, c.keySum, c.valueSum)], now - {c.keySum};
    assert now' + map[c.keySum := now[c.keySum]] == now;
    assert |now'.Keys| == |now.Keys| - 1 by { assert now'.Keys == now.Keys - {c.keySum}; }
    forall k | k in D && k !in now' ensures Peeled(D[k].sign, k, D[k].value) in log' {
      if k == c.keySum {
        assert log'[|log|] == Peeled(D[k].sign, k, D[k].value);
      } else {
        assert Peeled(D[k].sign, k, D[k].value) in log;
      }
    }
  }

  /** An all-empty first segment means that nothing is left: every key has a cell in it. */
  lemma NothingLeft(p: Shape, t: Table, now: Dataset, len: nat)
    requires Encodes(p, t, now, len) && Sound(p, now, len) && p.BucketsPerHash() > 0
    requires forall j | 0 <= j < p.BucketsPerHash() :: j < |t| && IsEmpty(t[j])
    ensures now == map[]
  {
    forall k | k in now ensures false {
      CellIndex(p, 0, k);
      var j := p.hash(0, k) % p.BucketsPerHash();
      hide Hits;
      assert k in At(p, now, j);
      assert CellHolds(p, t[j], At(p, now, j), len);
      SoundAt(p, now, len, j);
    }
  }

  lemma LogListsAll(log: seq<Peeled>, D: Dataset)
    requires LogIs(log, D, map[])
    ensures PeeledWith(log, 1) == Listed(D, 1) && PeeledWith(log, -1) == Listed(D, -1)
  {
    forall s: int, x: (Key, Value) ensures x in PeeledWith(log, s) <==> x in Listed(D, s) {
      if x in Listed(D, s) {
        var y := Peeled(s, x.0, x.1);
        assert y in log;
        var i :| 0 <= i < |log| && log[i] == y;
      }
    }
  }

  /** No cell holds a single entry, so peeling cannot go on. */
  ghost predicate Stuck(p: Shape, left: Dataset) {
    forall j: nat | j < p.size :: |At(p, left, j)| != 1
  }

  /** Some of the entries block each other: no cell holds exactly one of them. */
  ghost predicate HasCore(p: Shape, D: Dataset) {
    exists C: Dataset :: IsPart(C, D) && C != map[] && Stuck(p, C)
  }

  /** Entries that block each other in `D` are all still in `now`. */
  ghost predicate CoreStays(p: Shape, D: Dataset, now: Dataset) {
    forall C: Dataset | IsPart(C, D) && Stuck(p, C) :: IsPart(C, now)
  }

  /** The only entry of a cell blocks nothing. */
  lemma CoreStep(p: Shape, D: Dataset, now: Dataset, k: Key, i: nat)
    requires CoreStays(p, D, now) && i < p.size
    requires Hits(p, k, i) && forall x | x in now && Hits(p, x, i) :: x == k
    ensures CoreStays(p, D, now - {k})
  {
    hide Hits;
    forall C: Dataset | IsPart(C, D) && Stuck(p, C) ensures IsPart(C, now - {k}) {
      assert IsPart(C, now);
      assert k in C ==> At(p, C, i).Keys == {k};
      assert |At(p, C, i).Keys| == |At(p, C, i)|;
    }
  }

  /** A table part way through peeling: it holds what is left, and the log lists what is gone. */
  ghost predicate Follows(p: Shape, t: Table, D: Dataset, now: Dataset, log: seq<Peeled>, len: nat) {
    && Encodes(p, t, now, len) && Sound(p, D, len) && LogIs(log, D, now)
    && CoreStays(p, D, now) && |log| + |now| == |D|
  }

  lemma FollowsLog(p: Shape, t: Table, D: Dataset, now: Dataset, log: seq<Peeled>, len: nat)
    requires Follows(p, t, D, now, log, len)
    ensures LogIs(log, D, now) && |log| <= |D|
  {
    hide Encodes, Sound;
  }

  predicate AllEmpty(t: Table, n: nat) { n <= |t| && forall j | 0 <= j < n :: IsEmpty(t[j]) }

  lemma PureCount(p: Shape, c: Cell)
    requires IsPure(p, c)
    ensures c.count == 1 || c.count == -1
  {
  }

  lemma PeelLists(log: seq<Peeled>, c: Cell)
    ensures forall s: int ::
      PeeledWith(log + [Peeled(c.count, c.keySum, c.valueSum)], s)
      == PeeledWith(log, s) + if c.count == s then {(c.keySum, c.valueSum)} else {}
  {
    var log' := log + [Peeled(c.count, c.keySum, c.valueSum)];
    forall s: int
      ensures PeeledWith(log', s) == PeeledWith(log, s) + if c.count == s then {(c.keySum, c.valueSum)} else {}
    {
      var new' := if c.count == s then {(c.keySum, c.valueSum)} else {};
      forall x: (Key, Value) ensures x in PeeledWith(log', s) <==> x in PeeledWith(log, s) + new' {
        if x in PeeledWith(log, s) {
          var i :| 0 <= i < |log| && log[i].sign == s && x == (log[i].key, log[i].value);
          assert log'[i] == log[i];
        } else if x in new' {
          assert log'[|log|].sign == s && x == (log'[|log|].key, log'[|log|].value);
        }
      }
    }
  }

  lemma StartLists()
    ensures forall s: int :: PeeledWith([], s) == {}
  {
  }

  lemma StartFollows(p: Shape, t: Table, D: Dataset, len: nat)
    requires Encodes(p, t, D, len) && Sound(p, D, len)
    ensures Follows(p, t, D, D, [], len)
  {
    hide Encodes, Sound;
  }

  lemma PeelFollows(p: Shape, t: Table, D: Dataset, now: Dataset, log: seq<Peeled>, len: nat, i: nat)
    requires Follows(p, t, D, now, log, len) && i < |t| && IsPure(p, t[i])
    ensures var c := t[i];
            Follows(p, Insert(p, t, -c.count, c.keySum, c.valueSum), D, now - {c.keySum},
                    log + [Peeled(c.count, c.keySum, c.valueSum)], len)
  {
    EncodesSize(p, t, now, len);
    hide Encodes, Sound, Insert, LogIs, IsPure, CoreStays, Hits;
    PeelEntry(p, t, D, now, log, len, i);
    CoreStep(p, D, now, t[i].keySum, i);
  }

  lemma SegmentFits(p: Shape)
    requires p.BucketsPerHash() > 0
    ensures p.BucketsPerHash() <= p.size
  {
    MulMono(1, p.nHash, p.BucketsPerHash());
  }

  lemma EmptyMeansListed(p: Shape, t: Table, D: Dataset, now: Dataset, log: seq<Peeled>, len: nat)
    requires Follows(p, t, D, now, log, len) && p.BucketsPerHash() > 0 && AllEmpty(t, p.BucketsPerHash())
    ensures PeeledWith(log, 1) == Listed(D, 1) && PeeledWith(log, -1) == Listed(D, -1)
  {
    hide Encodes, Sound, PeeledWith, Listed;
    SoundPart(p, now, D, len);
    NothingLeft(p, t, now, len);
    LogListsAll(log, D);
  }

  /** Whatever has been listed is right, even when peeling gets stuck. */
  lemma ListedIsRight(log: seq<Peeled>, D: Dataset, now: Dataset)
    requires LogIs(log, D, now)
    ensures PeeledWith(log, 1) <= Listed(D, 1) && PeeledWith(log, -1) <= Listed(D, -1)
  {
  }

  /** The entries of `A` whose key `B` does not have. */
  function Only(A: map<Key, Value>, B: map<Key, Value>): set<(Key, Value)> {
    set k | k in A && k !in B :: (k, A[k])
  }

  lemma ListedDifference(A: map<Key, Value>, B: map<Key, Value>)
    ensures Listed(Difference(Positive(A), Positive(B)), 1) == Only(A, B)
    ensures Listed(Difference(Positive(A), Positive(B)), -1) == Only(B, A)
  {
    var D := Difference(Positive(A), Positive(B));
    forall x: (Key, Value) ensures x in Listed(D, 1) <==> x in Only(A, B) {
      assert x in Only(A, B) ==> x.0 in D && D[x.0] == Entry(1, x.1);
    }
    forall x: (Key, Value) ensures x in Listed(D, -1) <==> x in Only(B, A) {
      assert x in Only(B, A) ==> x.0 in D && D[x.0] == Entry(-1, x.1);
    }
  }

  // ----- lookup -----

  /** A cell with a single entry is pure. */
  lemma SingleIsPure(p: Shape, t: Table, D: Dataset, len: nat, j: nat)
    requires Encodes(p, t, D, len) && j < |t| && |At(p, D, j)| == 1
    ensures IsPure(p, t[j])
  {
    hide Hits, Xor64, Xor32, And32, XorBytes, Fold;
    var E := At(p, D, j);
    assert CellHolds(p, t[j], E, len);
    assert E.Keys != {};
    var k :| k in E;
    OneKey(E, k);
    FoldRemove(p, len, E, k);
    assert E - {k} == map[];
    FoldEmpty(p, len);
    Xor64Laws(k, ZERO64, ZERO64);
    Xor32Laws(And32(p.check(k), p.mask), ZERO32, ZERO32);
  }

  /** An empty cell of `k` means that `k` is not there. */
  lemma EmptyCellExcludes(p: Shape, t: Table, D: Dataset, len: nat, j: nat, k: Key)
    requires Encodes(p, t, D, len) && Sound(p, D, len) && j < |t| && IsEmpty(t[j]) && Hits(p, k, j)
    ensures k !in D
  {
    hide Hits;
    assert CellHolds(p, t[j], At(p, D, j), len);
    SoundAt(p, D, len, j);
    assert k in D ==> k in At(p, D, j);
  }

  /** The cell of hash function `i` shows whether `k` is there, being empty or pure. */
  predicate Decides(p: Shape, t: Table, i: nat, k: Key)
    requires p.BucketsPerHash() > 0
  {
    var j := i * p.BucketsPerHash() + p.hash(i, k) % p.BucketsPerHash();
    j < |t| && (IsEmpty(t[j]) || IsPure(p, t[j]))
  }

  /** What the cell of hash function `i` tells about `k`, if it decides. */
  lemma DecidesRight(p: Shape, t: Table, D: Dataset, len: nat, i: nat, k: Key)
    requires Encodes(p, t, D, len) && Sound(p, D, len) && p.BucketsPerHash() > 0 && i < p.nHash
    ensures var j := i * p.BucketsPerHash() + p.hash(i, k) % p.BucketsPerHash();
            && j < |t| && (Decides(p, t, i, k) <==> IsEmpty(t[j]) || IsPure(p, t[j]))
            && (IsEmpty(t[j]) ==> k !in D)
            && (IsPure(p, t[j]) ==>
                  (k in D <==> t[j].keySum == k) && (t[j].keySum == k ==> D[k].value == t[j].valueSum))
            && (!Decides(p, t, i, k) ==> D != map[])
  {
    CellIndex(p, i, k);
    EncodesSize(p, t, D, len);
    var j := i * p.BucketsPerHash() + p.hash(i, k) % p.BucketsPerHash();
    hide IsPure, IsEmpty, Encodes, Sound, Hits;
    if IsEmpty(t[j]) {
      EmptyCellExcludes(p, t, D, len, j, k);
    }
    if IsPure(p, t[j]) {
      PureIsEntry(p, t, D, len, j);
    }
    if D == map[] {
      NothingEncoded(p, t, len, p.size);
    }
  }

  predicate NonePure(p: Shape, t: Table) { forall j | 0 <= j < |t| :: !IsPure(p, t[j]) }

  lemma NoPureIsStuck(p: Shape, t: Table, D: Dataset, len: nat)
    requires Encodes(p, t, D, len) && NonePure(p, t)
    ensures Stuck(p, D)
  {
    hide Hits, CellHolds, IsPure;
    forall j: nat | j < p.size ensures |At(p, D, j)| != 1 {
      if |At(p, D, j)| == 1 {
        SingleIsPure(p, t, D, len, j);
      }
    }
  }

  lemma NothingEncoded(p: Shape, t: Table, len: nat, n: nat)
    requires Encodes(p, t, map[], len) && n <= p.size
    ensures AllEmpty(t, n)
  {
    FoldEmpty(p, len);
    forall j | 0 <= j < n ensures IsEmpty(t[j]) {
      assert At(p, map[], j) == map[];
      assert CellHolds(p, t[j], At(p, map[], j), len);
    }
  }

  /** Peeling ends with an empty segment exactly if no entries of the set block each other. */
  lemma PeelingEnds(p: Shape, t: Table, D: Dataset, now: Dataset, log: seq<Peeled>, len: nat)
    requires Follows(p, t, D, now, log, len) && NonePure(p, t) && p.BucketsPerHash() > 0
    ensures AllEmpty(t, p.BucketsPerHash()) <==> !HasCore(p, D)
  {
    hide Encodes, Sound, IsPure, Stuck, IsEmpty;
    SegmentFits(p);
    NoPureIsStuck(p, t, now, len);
    if AllEmpty(t, p.BucketsPerHash()) {
      SoundPart(p, now, D, len);
      NothingLeft(p, t, now, len);
    } else if now == map[] {
      NothingEncoded(p, t, len, p.BucketsPerHash());
    }
  }
}
