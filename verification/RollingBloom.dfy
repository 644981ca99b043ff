/**
 The rolling bloom filter: three generations of keys share one array of two-bit labels. The labels
 are tied to the whole history of insertions, which says exactly what the filter answers.
 */
module RollingBloom {
  import opened Numbers
  import opened Words

  type Key = seq<Byte>

  /** Keys per generation, pairs of words, hash functions, and the tweaked hashes. */
  datatype Params = Params(perGen: nat, pairs: nat, hashes: nat, hash: (nat, Key) -> Word32)

  /** A position: a pair of words and a bit in both of them. */
  datatype Spot = Spot(pair: nat, bit: bv64)

  type Data = seq<Word64>

  // ----- one bit of a word -----

  predicate HasBit(w: bv64, b: bv64)
    requires b < 64
  {
    (w >> b) & 1 == 1
  }

  // Later proofs hide these functions and use only their laws.
  function And(v: bv64, w: bv64): bv64 { v & w }
  function Or(v: bv64, w: bv64): bv64 { v | w }
  function Xor(v: bv64, w: bv64): bv64 { v ^ w }
  function Not(v: bv64): bv64 { !v }

  /** `on` as bit `b`. */
  function At(on: bool, b: bv64): bv64
    requires b < 64
  {
    (if on then 1 else 0) << b
  }

  lemma OrBitRaw(v: bv64, w: bv64, b: bv64)
    requires b < 64
    ensures HasBit(v | w, b) <==> HasBit(v, b) || HasBit(w, b)
  {
  }

  lemma OrBit(v: bv64, w: bv64, b: bv64)
    requires b < 64
    ensures HasBit(Or(v, w), b) <==> HasBit(v, b) || HasBit(w, b)
  {
    hide HasBit;
    OrBitRaw(v, w, b);
  }

  lemma XorBitRaw(v: bv64, w: bv64, b: bv64)
    requires b < 64
    ensures HasBit(v ^ w, b) <==> HasBit(v, b) != HasBit(w, b)
  {
  }

  lemma XorBit(v: bv64, w: bv64, b: bv64)
    requires b < 64
    ensures HasBit(Xor(v, w), b) <==> HasBit(v, b) != HasBit(w, b)
  {
    hide HasBit;
    XorBitRaw(v, w, b);
  }

  lemma AndBitRaw(v: bv64, w: bv64, b: bv64)
    requires b < 64
    ensures HasBit(v & w, b) <==> HasBit(v, b) && HasBit(w, b)
  {
  }

  lemma AndBit(v: bv64, w: bv64, b: bv64)
    requires b < 64
    ensures HasBit(And(v, w), b) <==> HasBit(v, b) && HasBit(w, b)
  {
    hide HasBit;
    AndBitRaw(v, w, b);
  }

  lemma NotBit(v: bv64, b: bv64)
    requires b < 64
    ensures HasBit(Not(v), b) <==> !HasBit(v, b)
  {
  }

  lemma AtBit(on: bool, b: bv64, c: bv64)
    requires b < 64 && c < 64
    ensures HasBit(At(on, b), c) <==> on && b == c
  {
  }

  /** Clears bit `b` and sets it again to `on`. */
  function WithBit(w: bv64, b: bv64, on: bool): bv64
    requires b < 64
  {
    Or(And(w, Not(At(true, b))), At(on, b))
  }

  lemma WithBitIs(w: bv64, b: bv64, on: bool, c: bv64)
    requires b < 64 && c < 64
    ensures HasBit(WithBit(w, b, on), c) <==> if b == c then on else HasBit(w, c)
  {
    hide HasBit, And, Or, Not, At;
    AtBit(true, b, c);
    AtBit(on, b, c);
    NotBit(At(true, b), c);
    AndBit(w, Not(At(true, b)), c);
    OrBit(And(w, Not(At(true, b))), At(on, b), c);
  }

  /** A flag as a word of equal bits. */
  function Spread(on: bool): bv64 { if on then 0xFFFF_FFFF_FFFF_FFFF else 0 }

  lemma SpreadBit(on: bool, b: bv64)
    requires b < 64
    ensures HasBit(Spread(on), b) <==> on
  {
  }

  /** Ones where a pair of words does not carry the given pattern. */
  function WipeMask(v: bv64, w: bv64, low: bool, high: bool): bv64 { Or(Xor(v, Spread(low)), Xor(w, Spread(high))) }

  lemma WipeIs(v: bv64, w: bv64, low: bool, high: bool, b: bv64)
    requires b < 64
    ensures var gone := HasBit(v, b) == low && HasBit(w, b) == high;
            && (HasBit(And(v, WipeMask(v, w, low, high)), b) <==> HasBit(v, b) && !gone)
            && (HasBit(And(w, WipeMask(v, w, low, high)), b) <==> HasBit(w, b) && !gone)
  {
    hide HasBit, Spread, And, Or, Xor;
    SpreadBit(low, b);
    SpreadBit(high, b);
    XorBit(v, Spread(low), b);
    XorBit(w, Spread(high), b);
    OrBit(Xor(v, Spread(low)), Xor(w, Spread(high)), b);
    AndBit(v, WipeMask(v, w, low, high), b);
    AndBit(w, WipeMask(v, w, low, high), b);
  }

  // ----- labels -----

  predicate InRange(p: Params, s: Spot) { s.pair < p.pairs && s.bit < 64 }

  predicate Sized(p: Params, d: Data) { p.pairs > 0 && |d| == 2 * p.pairs }

  /** The two-bit label of a position. */
  function Label(p: Params, d: Data, s: Spot): nat
    requires Sized(p, d) && InRange(p, s)
  {
    (if HasBit(d[2 * s.pair].bits, s.bit) then 1 else 0) + if HasBit(d[2 * s.pair + 1].bits, s.bit) then 2 else 0
  }

  /** Where hash function `n` sends a key; the lowest bit of the word index is dropped. */
  function SpotOf(p: Params, n: nat, k: Key): Spot
    requires p.pairs > 0
  {
    var h := p.hash(n, k).bits;
    Spot((h >> 6) as nat % (2 * p.pairs) / 2, (h & 0x3F) as bv64)
  }

  lemma SpotInRange(p: Params, n: nat, k: Key)
    requires p.pairs > 0
    ensures InRange(p, SpotOf(p, n, k))
  {
    LowBits(p.hash(n, k).bits);
  }

  lemma LowBits(h: bv32)
    ensures (h & 0x3F) as bv64 < 64
  {
  }

  /** Gives a position the label `gen`. */
  function Write(p: Params, d: Data, s: Spot, gen: nat): (d': Data)
    requires Sized(p, d) && InRange(p, s)
    ensures Sized(p, d')
  {
    var d1 := d[2 * s.pair := Word64(WithBit(d[2 * s.pair].bits, s.bit, gen % 2 == 1))];
    d1[2 * s.pair + 1 := Word64(WithBit(d1[2 * s.pair + 1].bits, s.bit, gen / 2 == 1))]
  }

  lemma WriteLabels(p: Params, d: Data, s: Spot, gen: nat, t: Spot)
    requires Sized(p, d) && InRange(p, s) && InRange(p, t) && gen <= 3
    ensures Label(p, Write(p, d, s, gen), t) == if s == t then gen else Label(p, d, t)
  {
    hide HasBit, WithBit;
    if s.pair == t.pair {
      WithBitIs(d[2 * s.pair].bits, s.bit, gen % 2 == 1, t.bit);
      WithBitIs(d[2 * s.pair + 1].bits, s.bit, gen / 2 == 1, t.bit);
    }
  }

  function WritePositions(p: Params, d: Data, k: Key, gen: nat, n: nat): (d': Data)
    requires Sized(p, d)
    ensures Sized(p, d')
  {
    if n == 0 then d
    else
      SpotInRange(p, n - 1, k);
      Write(p, WritePositions(p, d, k, gen, n - 1), SpotOf(p, n - 1, k), gen)
  }

  /** One of the first `n` hash functions sends `k` to `s`. */
  predicate TouchesBelow(p: Params, k: Key, s: Spot, n: nat)
    requires p.pairs > 0
  {
    exists i: nat :: i < n && SpotOf(p, i, k) == s
  }

  predicate Touches(p: Params, k: Key, s: Spot)
    requires p.pairs > 0
  {
    TouchesBelow(p, k, s, p.hashes)
  }

  lemma {:induction false} WritePositionsLabels(p: Params, d: Data, k: Key, gen: nat, n: nat, t: Spot)
    requires Sized(p, d) && InRange(p, t) && gen <= 3
    ensures Label(p, WritePositions(p, d, k, gen, n), t) == if TouchesBelow(p, k, t, n) then gen else Label(p, d, t)
  {
    hide Label, SpotOf, Write;
    if n > 0 {
      WritePositionsLabels(p, d, k, gen, n - 1, t);
      SpotInRange(p, n - 1, k);
      WriteLabels(p, WritePositions(p, d, k, gen, n - 1), SpotOf(p, n - 1, k), gen, t);
      assert TouchesBelow(p, k, t, n) <==> TouchesBelow(p, k, t, n - 1) || SpotOf(p, n - 1, k) == t;
    }
  }

  function Wiped(p: Params, d: Data, gen: nat, i: nat): Word64
    requires Sized(p, d) && i < 2 * p.pairs
  {
    Word64(And(d[i].bits, WipeMask(d[i / 2 * 2].bits, d[i / 2 * 2 + 1].bits, gen % 2 == 1, gen / 2 == 1)))
  }

  /** Every position with label `gen` loses it. */
  function Wipe(p: Params, d: Data, gen: nat): (d': Data)
    requires Sized(p, d)
    ensures Sized(p, d')
  {
    seq(2 * p.pairs, i requires 0 <= i < 2 * p.pairs => Wiped(p, d, gen, i))
  }

  lemma WipeLabels(p: Params, d: Data, gen: nat, t: Spot)
    requires Sized(p, d) && InRange(p, t) && 1 <= gen <= 3
    ensures Label(p, Wipe(p, d, gen), t) == if Label(p, d, t) == gen then 0 else Label(p, d, t)
  {
    hide HasBit, WipeMask, And;
    var i := 2 * t.pair;
    assert i / 2 * 2 == i && (i + 1) / 2 * 2 == i;
    WipeIs(d[i].bits, d[i + 1].bits, gen % 2 == 1, gen / 2 == 1, t.bit);
  }

  // ----- the history -----

  /** The generation after `n` insertions, counted from 1; the n-th key belongs to it. */
  function Gen(p: Params, n: nat): nat
    requires p.perGen > 0
  {
    if n == 0 then 1 else (n - 1) / p.perGen + 1
  }

  /** The generation of the key at an index. */
  function KeyGen(p: Params, i: nat): nat
    requires p.perGen > 0
  {
    Gen(p, i + 1)
  }

  /** The label that a generation shares with every third one. */
  function Tag(g: nat): nat
    requires g > 0
  {
    (g - 1) % 3 + 1
  }

  /** The generation of the last key that touched a position, or 0. */
  function LastGen(p: Params, keys: seq<Key>, s: Spot): nat
    requires p.perGen > 0 && p.pairs > 0
  {
    if keys == [] then 0
    else if Touches(p, keys[|keys| - 1], s) then Gen(p, |keys|)
    else LastGen(p, keys[..|keys| - 1], s)
  }

  /** The label a position should carry when generation `cur` is under way. */
  function Expected(last: nat, cur: nat): nat { if last == 0 || last + 2 < cur then 0 else Tag(last) }

  datatype Filter = Filter(data: Data, entries: nat, generation: nat)

  ghost predicate Labelled(p: Params, d: Data, keys: seq<Key>, cur: nat)
    requires Sized(p, d) && p.perGen > 0
  {
    forall s: Spot | InRange(p, s) :: Label(p, d, s) == Expected(LastGen(p, keys, s), cur)
  }

  /** The filter after the given insertions. */
  ghost predicate Holds(p: Params, f: Filter, keys: seq<Key>) {
    && p.perGen > 0 && Sized(p, f.data)
    && f.generation == Tag(Gen(p, |keys|))
    && f.entries == |keys| - (Gen(p, |keys|) - 1) * p.perGen
    && Labelled(p, f.data, keys, Gen(p, |keys|))
  }

  function NextTag(g: nat): nat { if g + 1 == 4 then 1 else g + 1 }

  function Rolled(p: Params, f: Filter): (f': Filter)
    requires Sized(p, f.data)
    ensures Sized(p, f'.data)
  {
    if f.entries == p.perGen then Filter(Wipe(p, f.data, NextTag(f.generation)), 0, NextTag(f.generation)) else f
  }

  function Insert(p: Params, f: Filter, k: Key): (f': Filter)
    requires Sized(p, f.data)
    ensures Sized(p, f'.data)
  {
    var r := Rolled(p, f);
    Filter(WritePositions(p, r.data, k, r.generation, p.hashes), r.entries + 1, r.generation)
  }

  lemma GenStep(p: Params, n: nat)
    requires p.perGen > 0
    ensures var full := n - (Gen(p, n) - 1) * p.perGen == p.perGen;
            Gen(p, n + 1) == Gen(p, n) + if full then 1 else 0
    ensures 0 <= n - (Gen(p, n) - 1) * p.perGen <= p.perGen
  {
    if n > 0 {
      DivStep(n - 1, p.perGen);
    }
  }

  lemma {:induction false} LastGenBound(p: Params, keys: seq<Key>, s: Spot)
    requires p.perGen > 0 && p.pairs > 0
    ensures LastGen(p, keys, s) <= Gen(p, |keys|)
  {
    hide Touches;
    if keys != [] {
      LastGenBound(p, keys[..|keys| - 1], s);
      GenStep(p, |keys| - 1);
    }
  }

  lemma TagStep(g: nat)
    requires g > 0
    ensures Tag(g + 1) == NextTag(Tag(g)) && 1 <= Tag(g) <= 3
  {
  }

  /** Of three generations in a row, only the oldest shares its tag with the next one. */
  lemma WipeForgetsOldest(last: nat, cur: nat)
    requires last <= cur && cur > 0
    ensures Expected(last, cur + 1) == if Expected(last, cur) == Tag(cur + 1) then 0 else Expected(last, cur)
  {
  }

  lemma RolledHolds(p: Params, f: Filter, keys: seq<Key>)
    requires Holds(p, f, keys)
    ensures var f', cur := Rolled(p, f), Gen(p, |keys| + 1);
            && f'.generation == Tag(cur)
            && f'.entries == |keys| - (cur - 1) * p.perGen
            && Labelled(p, f'.data, keys, cur)
  {
    hide Label, Wipe, LastGen;
    var n := |keys|;
    GenStep(p, n);
    if f.entries == p.perGen {
      TagStep(Gen(p, n));
      var f' := Rolled(p, f);
      forall s: Spot | InRange(p, s) ensures Label(p, f'.data, s) == Expected(LastGen(p, keys, s), Gen(p, n) + 1) {
        WipeLabels(p, f.data, NextTag(f.generation), s);
        LastGenBound(p, keys, s);
        WipeForgetsOldest(LastGen(p, keys, s), Gen(p, n));
      }
    }
  }

  /** Every insertion keeps the labels in step with the history. */
  lemma InsertHolds(p: Params, f: Filter, keys: seq<Key>, k: Key)
    requires Holds(p, f, keys)
    ensures Holds(p, Insert(p, f, k), keys + [k])
  {
    hide Label, Wipe, LastGen, WritePositions, Rolled, Touches;
    RolledHolds(p, f, keys);
    var r, cur := Rolled(p, f), Gen(p, |keys| + 1);
    var f' := Insert(p, f, k);
    TagStep(cur);
    forall s: Spot | InRange(p, s) ensures Label(p, f'.data, s) == Expected(LastGen(p, keys + [k], s), cur) {
      WriteAllLabels(p, r.data, k, r.generation, s);
      LastGenStep(p, keys, k, s);
    }
  }

  lemma WriteAllLabels(p: Params, d: Data, k: Key, gen: nat, t: Spot)
    requires Sized(p, d) && InRange(p, t) && gen <= 3
    ensures Label(p, WritePositions(p, d, k, gen, p.hashes), t) == if Touches(p, k, t) then gen else Label(p, d, t)
  {
    WritePositionsLabels(p, d, k, gen, p.hashes, t);
  }

  lemma LastGenStep(p: Params, keys: seq<Key>, k: Key, s: Spot)
    requires p.perGen > 0 && p.pairs > 0
    ensures LastGen(p, keys + [k], s) == if Touches(p, k, s) then Gen(p, |keys| + 1) else LastGen(p, keys, s)
  {
    hide Touches;
    assert (keys + [k])[..|keys|] == keys;
  }

  // ----- what the filter answers -----

  /** Where the window of remembered keys begins: the current generation and the two before it. */
  function WindowStart(p: Params, n: nat): nat
    requires p.perGen > 0
  {
    if Gen(p, n) <= 3 then 0 else (Gen(p, n) - 3) * p.perGen
  }

  lemma WindowIs(p: Params, n: nat, i: nat)
    requires p.perGen > 0 && i < n
    ensures i >= WindowStart(p, n) <==> KeyGen(p, i) + 2 >= Gen(p, n)
    ensures KeyGen(p, i) > 0
  {
    var g := p.perGen;
    assert i == i / g * g + i % g;
    if Gen(p, n) > 3 {
      var c := Gen(p, n) - 3;
      if i / g < c {
        MulMono(i / g + 1, c, g);
      } else {
        MulMono(c, i / g, g);
      }
    }
  }

  lemma GenMonotone(p: Params, m: nat, n: nat)
    requires p.perGen > 0 && m <= n
    ensures Gen(p, m) <= Gen(p, n)
    decreases n - m
  {
    if m < n {
      GenMonotone(p, m, n - 1);
      GenStep(p, n - 1);
    }
  }

  /** Some key from index `from` on touched the position. */
  ghost predicate Touched(p: Params, keys: seq<Key>, from: nat, s: Spot)
    requires p.pairs > 0
  {
    exists i: nat :: from <= i < |keys| && Touches(p, keys[i], s)
  }

  lemma {:induction false} LastGenIs(p: Params, keys: seq<Key>, s: Spot)
    requires p.perGen > 0 && p.pairs > 0
    ensures LastGen(p, keys, s) > 0 ==>
              exists i: nat :: i < |keys| && Touches(p, keys[i], s) && LastGen(p, keys, s) == KeyGen(p, i)
    ensures forall i: nat | i < |keys| && Touches(p, keys[i], s) :: LastGen(p, keys, s) >= KeyGen(p, i)
  {
    hide Touches;
    if keys != [] {
      var n := |keys| - 1;
      if Touches(p, keys[n], s) {
        forall i: nat | i < |keys| ensures Gen(p, |keys|) >= KeyGen(p, i) {
          GenMonotone(p, i + 1, |keys|);
        }
        assert LastGen(p, keys, s) == KeyGen(p, n);
      } else {
        LastGenIs(p, keys[..n], s);
        if LastGen(p, keys, s) > 0 {
          var i: nat :| i < n && Touches(p, keys[..n][i], s) && LastGen(p, keys, s) == KeyGen(p, i);
          assert keys[i] == keys[..n][i];
        }
        forall i: nat | i < |keys| && Touches(p, keys[i], s) ensures LastGen(p, keys, s) >= KeyGen(p, i) {
          assert i < n && keys[..n][i] == keys[i];
        }
      }
    }
  }

  /** A position is marked exactly if a key of the window touched it. */
  lemma MarkedIff(p: Params, f: Filter, keys: seq<Key>, s: Spot)
    requires Holds(p, f, keys) && InRange(p, s)
    ensures Label(p, f.data, s) != 0 <==> Touched(p, keys, WindowStart(p, |keys|), s)
  {
    hide Label, Touches, LastGen, Gen, KeyGen, WindowStart;
    LastGenIs(p, keys, s);
    forall i: nat | i < |keys|
      ensures KeyGen(p, i) > 0 && (i >= WindowStart(p, |keys|) <==> KeyGen(p, i) + 2 >= Gen(p, |keys|))
    {
      WindowIs(p, |keys|, i);
    }
  }

  predicate Contains(p: Params, f: Filter, k: Key)
    requires Sized(p, f.data)
  {
    forall n: nat | n < p.hashes :: Marked(p, f.data, n, k)
  }

  /** The position that hash function `n` gives a key carries a label. */
  predicate Marked(p: Params, d: Data, n: nat, k: Key)
    requires Sized(p, d)
  {
    SpotInRange(p, n, k);
    Label(p, d, SpotOf(p, n, k)) != 0
  }

  /**
   The filter answers yes exactly if every position of the key was touched by a key of the window:
   it is the plain bloom filter of the window.
   */
  lemma ContainsIff(p: Params, f: Filter, keys: seq<Key>, k: Key)
    requires Holds(p, f, keys)
    ensures Contains(p, f, k) <==>
            forall n: nat | n < p.hashes :: Touched(p, keys, WindowStart(p, |keys|), SpotOf(p, n, k))
  {
    hide Label, Touched, SpotOf, Touches;
    forall n: nat | n < p.hashes
      ensures Marked(p, f.data, n, k) <==> Touched(p, keys, WindowStart(p, |keys|), SpotOf(p, n, k))
    {
      SpotInRange(p, n, k);
      MarkedIff(p, f, keys, SpotOf(p, n, k));
    }
  }

  /** The window holds the last two full generations and what there is of the current one. */
  lemma WindowSize(p: Params, n: nat)
    requires p.perGen > 0
    ensures WindowStart(p, n) <= n
    ensures n >= 2 * p.perGen && n > 0 ==> n - WindowStart(p, n) >= 2 * p.perGen
    ensures n < 2 * p.perGen ==> WindowStart(p, n) == 0
    ensures n - WindowStart(p, n) <= 3 * p.perGen
  {
    var g := p.perGen;
    if n > 0 {
      var q := (n - 1) / g;
      assert n - 1 == q * g + (n - 1) % g;
      if q >= 3 {
        MulMono(3, q, g);
        assert (q - 2) * g == q * g - 2 * g;
      } else {
        MulMono(q, 2, g);
      }
    }
  }

  /** Each of the last `nElements` keys, and more, is still found. */
  lemma RecentKeyFound(p: Params, f: Filter, keys: seq<Key>, nElements: nat, i: nat)
    requires Holds(p, f, keys) && p.perGen == (nElements + 1) / 2
    requires i < |keys| && i + nElements >= |keys|
    ensures Contains(p, f, keys[i])
  {
    hide Label, SpotOf, Holds, WindowStart;
    WindowSize(p, |keys|);
    assert i >= WindowStart(p, |keys|);
    WindowKeyFound(p, f, keys, i);
  }

  lemma WindowKeyFound(p: Params, f: Filter, keys: seq<Key>, i: nat)
    requires Holds(p, f, keys) && i < |keys| && i >= WindowStart(p, |keys|)
    ensures Contains(p, f, keys[i])
  {
    hide Label, SpotOf, Contains, WindowStart;
    forall n: nat | n < p.hashes ensures Touched(p, keys, WindowStart(p, |keys|), SpotOf(p, n, keys[i])) {
      assert TouchesBelow(p, keys[i], SpotOf(p, n, keys[i]), p.hashes);
    }
    ContainsIff(p, f, keys, keys[i]);
  }

  function Empty(p: Params): Filter { Filter(seq(2 * p.pairs, _ => ZERO64), 0, 1) }

  lemma EmptyHolds(p: Params)
    requires p.perGen > 0 && p.pairs > 0
    ensures Holds(p, Empty(p), [])
  {
    forall s: Spot | InRange(p, s) ensures Label(p, Empty(p).data, s) == 0 {
      NoBits(s.bit);
    }
  }

  lemma NoBits(b: bv64)
    requires b < 64
    ensures !HasBit(0, b)
  {
  }

  function InsertAll(p: Params, keys: seq<Key>): (f: Filter)
    requires p.pairs > 0
    ensures Sized(p, f.data)
  {
    if keys == [] then Empty(p) else Insert(p, InsertAll(p, keys[..|keys| - 1]), keys[|keys| - 1])
  }

  /** In every run of insertions since a reset, the filter is the plain filter of its window. */
  lemma {:induction false} RunHolds(p: Params, keys: seq<Key>)
    requires p.perGen > 0 && p.pairs > 0
    ensures Holds(p, InsertAll(p, keys), keys)
  {
    hide Insert, Holds, Empty;
    if keys == [] {
      EmptyHolds(p);
    } else {
      var n := |keys| - 1;
      RunHolds(p, keys[..n]);
      InsertHolds(p, InsertAll(p, keys[..n]), keys[..n], keys[n]);
      assert keys[..n] + [keys[n]] == keys;
    }
  }

  // ----- the filter as an object -----

  class RollingFilter {
    var p: Params
    var data: Data
    var entries: nat
    var generation: nat
    ghost var keys: seq<Key>

    ghost function State(): Filter
      reads this
    {
      Filter(data, entries, generation)
    }

    ghost predicate Valid()
      reads this
    {
      Holds(p, State(), keys)
    }

    /** Sizes come from the constructor's floating-point formulas; at least one pair of words is needed. */
    constructor (nElements: nat, pairs: nat, hashes: nat, hash: (nat, Key) -> Word32)
      requires nElements > 0 && pairs > 0
      ensures p == Params((nElements + 1) / 2, pairs, hashes, hash)
      ensures Valid() && keys == [] && State() == Empty(p)
    {
      p := Params((nElements + 1) / 2, pairs, hashes, hash);
      data := seq(2 * pairs, _ => ZERO64);
      entries, generation := 0, 1;
      keys := [];
      new;
      EmptyHolds(p);
    }

    /** Forgets everything and takes the hashes of a fresh tweak. */
    method Reset(hash: (nat, Key) -> Word32)
      requires Valid()
      modifies this
      ensures Valid() && keys == [] && p == old(p).(hash := hash) && State() == Empty(p)
    {
      p := p.(hash := hash);
      entries, generation := 0, 1;
      ghost var n := |data|;
      for i := 0 to |data|
        modifies this`data
        invariant |data| == n && forall j | 0 <= j < i :: data[j] == ZERO64
      {
        data := data[i := ZERO64];
      }
      keys := [];
      assert State() == Empty(p);
      EmptyHolds(p);
    }

    /** The masked wipe, pair by pair. */
    method WipeGeneration(gen: nat)
      requires Sized(p, data)
      modifies this`data
      ensures Sized(p, data) && data == Wipe(p, old(data), gen)
    {
      hide And, WipeMask, WipedBelow, Wipe;
      ghost var was := data;
      WipedEnds(p, was, gen);
      for i := 0 to p.pairs
        invariant Sized(p, data) && data == WipedBelow(p, was, gen, i)
      {
        WipedStep(p, was, gen, i);
        var p1, p2 := data[2 * i].bits, data[2 * i + 1].bits;
        var mask := WipeMask(p1, p2, gen % 2 == 1, gen / 2 == 1);
        data := data[2 * i := Word64(And(p1, mask))][2 * i + 1 := Word64(And(p2, mask))];
      }
    }

    /** Starts the next generation once the current one is full. */
    method Roll()
      requires Sized(p, data)
      modifies this`data, this`entries, this`generation
      ensures State() == Rolled(p, old(State()))
    {
      hide Wipe;
      if entries == p.perGen {
        entries := 0;
        generation := generation + 1;
        if generation == 4 {
          generation := 1;
        }
        WipeGeneration(generation);
      }
    }

    method InsertKey(k: Key)
      requires Valid()
      modifies this
      ensures Valid() && keys == old(keys) + [k] && p == old(p)
      ensures State() == Insert(p, old(State()), k)
    {
      hide Rolled, Write, SpotOf, Labelled;
      InsertHolds(p, State(), keys, k);
      Roll();
      entries := entries + 1;
      ghost var start := data;
      for n := 0 to p.hashes
        modifies this`data
        invariant Sized(p, data) && data == WritePositions(p, start, k, generation, n)
      {
        SpotInRange(p, n, k);
        data := Write(p, data, SpotOf(p, n, k), generation);
      }
      keys := keys + [k];
    }

    /** Yes for every remembered key; no as soon as one position is unmarked. */
    method Query(k: Key) returns (found: bool)
      requires Valid()
      ensures found <==> Contains(p, State(), k)
      ensures found <==> forall n: nat | n < p.hashes :: Touched(p, keys, WindowStart(p, |keys|), SpotOf(p, n, k))
    {
      hide Touched, SpotOf, WindowStart, Label, HasBit, Or, Labelled;
      ContainsIff(p, State(), keys, k);
      for n := 0 to p.hashes
        invariant forall m: nat | m < n :: Marked(p, data, m, k)
      {
        SpotInRange(p, n, k);
        var s := SpotOf(p, n, k);
        var either := Or(data[2 * s.pair].bits, data[2 * s.pair + 1].bits);
        LabelledIff(p, data, s);
        if !HasBit(either, s.bit) {
          assert !Marked(p, data, n, k);
          return false;
        }
      }
      return true;
    }
  }

  /** The words once the first `n` pairs have been wiped. */
  function WipedBelow(p: Params, d: Data, gen: nat, n: nat): Data
    requires Sized(p, d)
  {
    seq(2 * p.pairs, i requires 0 <= i < 2 * p.pairs => if i < 2 * n then Wiped(p, d, gen, i) else d[i])
  }

  lemma WipedEnds(p: Params, d: Data, gen: nat)
    requires Sized(p, d)
    ensures WipedBelow(p, d, gen, 0) == d && WipedBelow(p, d, gen, p.pairs) == Wipe(p, d, gen)
  {
    hide And, WipeMask;
  }

  lemma WipedStep(p: Params, d: Data, gen: nat, n: nat)
    requires Sized(p, d) && n < p.pairs
    ensures var e := WipedBelow(p, d, gen, n);
            && |e| == |d| && e[2 * n] == d[2 * n] && e[2 * n + 1] == d[2 * n + 1]
            && var mask := WipeMask(d[2 * n].bits, d[2 * n + 1].bits, gen % 2 == 1, gen / 2 == 1);
               WipedBelow(p, d, gen, n + 1) ==
               e[2 * n := Word64(And(d[2 * n].bits, mask))][2 * n + 1 := Word64(And(d[2 * n + 1].bits, mask))]
  {
    hide And, WipeMask;
    assert 2 * n / 2 * 2 == 2 * n && (2 * n + 1) / 2 * 2 == 2 * n;
  }

  lemma LabelledIff(p: Params, d: Data, s: Spot)
    requires Sized(p, d) && InRange(p, s)
    ensures Label(p, d, s) != 0 <==> HasBit(Or(d[2 * s.pair].bits, d[2 * s.pair + 1].bits), s.bit)
  {
    hide HasBit, Or;
    OrBit(d[2 * s.pair].bits, d[2 * s.pair + 1].bits, s.bit);
  }
}
