/**
 The cuckoo cache as a value: where elements may lie, how an insertion shifts them around, and how
 epochs age. `table[i]` is the element in slot `i`, `dead[i]` says that the slot may be reused and
 `recent[i]` that its element belongs to the current epoch.
 */
module CuckooCache {
  import opened Numbers
  import opened Sequences

  const HASHES := 8
  const TWO32 := 0x1_0000_0000
  const INVALID: nat := 0xFFFF_FFFF

  /** Sizes fixed by setup, the default element and the eight hash functions. */
  datatype Params<!E(==)> = Params(size: nat, epochSize: nat, depthLimit: nat, blank: E, hash: (nat, E) -> nat)

  datatype Cache<E> = Cache(table: seq<E>, dead: seq<bool>, recent: seq<bool>, counter: nat)

  /** Scales a 32-bit hash down to a slot. */
  function Slot<E>(p: Params<E>, h: nat, e: E): nat { p.hash(h, e) % TWO32 * p.size / TWO32 }

  function Locs<E>(p: Params<E>, e: E): seq<nat> { seq(HASHES, h requires 0 <= h < HASHES => Slot(p, h, e)) }

  lemma LocsInRange<E>(p: Params<E>, e: E)
    requires p.size > 0
    ensures |Locs(p, e)| == HASHES && forall h | 0 <= h < HASHES :: Locs(p, e)[h] < p.size
  {
    forall h | 0 <= h < HASHES ensures Locs(p, e)[h] < p.size {
      ScaledDown(p.hash(h, e) % TWO32, p.size, TWO32);
    }
  }

  lemma ScaledDown(x: nat, n: nat, m: nat)
    requires x < m && n > 0
    ensures x * n / m < n
  {
    MulMono(x + 1, m, n);
    if x * n / m >= n {
      MulMono(n, x * n / m, m);
    }
  }

  predicate Shaped<E>(p: Params<E>, c: Cache<E>) {
    p.size > 0 && |c.table| == |c.dead| == |c.recent| == p.size
  }

  /** A slot that is alive, or that ever held anything, is one of its element's eight locations. */
  ghost predicate Placed<E>(p: Params<E>, c: Cache<E>)
    requires Shaped(p, c)
  {
    forall i | 0 <= i < p.size :: (c.dead[i] && c.table[i] == p.blank) || i in Locs(p, c.table[i])
  }

  /** No element other than the blank one lies in two slots. */
  ghost predicate Distinct<E>(p: Params<E>, c: Cache<E>)
    requires Shaped(p, c)
  {
    forall i, j | 0 <= i < j < p.size :: c.table[i] == c.table[j] ==> c.table[i] == p.blank
  }

  ghost predicate Tidy<E>(p: Params<E>, c: Cache<E>) { Shaped(p, c) && Placed(p, c) && Distinct(p, c) }

  /** The elements that may not be discarded. */
  function Live<E>(c: Cache<E>): set<E>
    requires |c.dead| == |c.table|
  {
    set i | 0 <= i < |c.table| && !c.dead[i] :: c.table[i]
  }

  // ----- counting -----

  function Count(flags: seq<bool>): nat {
    if flags == [] then 0 else Count(flags[..|flags| - 1]) + if flags[|flags| - 1] then 1 else 0
  }

  function Bit(b: bool): nat { if b then 1 else 0 }

  lemma {:induction false} CountUpdate(flags: seq<bool>, i: nat, b: bool)
    requires i < |flags|
    ensures Count(flags[i := b]) + Bit(flags[i]) == Count(flags) + Bit(b)
  {
    var n := |flags| - 1;
    if i == n {
      assert flags[i := b][..n] == flags[..n];
    } else {
      CountUpdate(flags[..n], i, b);
      assert flags[i := b][..n] == flags[..n][i := b];
    }
  }

  lemma {:induction false} CountNone(flags: seq<bool>)
    requires forall i | 0 <= i < |flags| :: !flags[i]
    ensures Count(flags) == 0
  {
    if flags != [] {
      CountNone(flags[..|flags| - 1]);
    }
  }

  /** Slots alive whose element belongs to the current epoch (`now`) or to the one before. */
  function Alive<E>(c: Cache<E>, now: bool): seq<bool>
    requires |c.dead| == |c.recent|
  {
    seq(|c.dead|, i requires 0 <= i < |c.dead| => !c.dead[i] && c.recent[i] == now)
  }

  function Recent<E>(c: Cache<E>): nat
    requires |c.dead| == |c.recent|
  {
    Count(Alive(c, true))
  }

  function Old<E>(c: Cache<E>): nat
    requires |c.dead| == |c.recent|
  {
    Count(Alive(c, false))
  }

  /** What an epoch may grow to between two scans. */
  function Cap(epochSize: nat): nat { epochSize + Max(1, epochSize / 16) }

  /** The epoch cannot outgrow its cap before the counter runs out and the next scan happens. */
  predicate Bounded<E>(p: Params<E>, c: Cache<E>)
    requires Shaped(p, c)
  {
    Recent(c) + c.counter <= Cap(p.epochSize) && Old(c) <= Cap(p.epochSize)
  }

  ghost predicate Inv<E>(p: Params<E>, c: Cache<E>) { p.epochSize > 0 && Tidy(p, c) && Bounded(p, c) }

  // ----- one slot changes -----

  /** Slot `i` becomes alive and holds `e` with the given epoch flag. */
  function Put<E>(c: Cache<E>, i: nat, e: E, now: bool): Cache<E>
    requires i < |c.table| == |c.dead| == |c.recent|
  {
    c.(table := c.table[i := e], dead := c.dead[i := false], recent := c.recent[i := now])
  }

  lemma PutCounts<E>(c: Cache<E>, i: nat, e: E, now: bool)
    requires i < |c.table| == |c.dead| == |c.recent|
    ensures Recent(Put(c, i, e, now)) + Bit(!c.dead[i] && c.recent[i]) == Recent(c) + Bit(now)
    ensures Old(Put(c, i, e, now)) + Bit(!c.dead[i] && !c.recent[i]) == Old(c) + Bit(!now)
  {
    forall b: bool ensures Alive(Put(c, i, e, now), b) == Alive(c, b)[i := now == b] {
    }
    CountUpdate(Alive(c, true), i, now);
    CountUpdate(Alive(c, false), i, !now);
  }

  /** Not in the table, unless it is the blank element. */
  predicate Absent<E>(p: Params<E>, c: Cache<E>, e: E) { e == p.blank || e !in c.table }

  lemma PutTidy<E>(p: Params<E>, c: Cache<E>, i: nat, e: E, now: bool)
    requires Tidy(p, c) && i in Locs(p, e) && i < p.size && Absent(p, c, e)
    ensures Tidy(p, Put(c, i, e, now))
  {
    hide Locs;
    var c' := Put(c, i, e, now);
    forall j | 0 <= j < p.size ensures (c'.dead[j] && c'.table[j] == p.blank) || j in Locs(p, c'.table[j]) {
    }
    forall j, k | 0 <= j < k < p.size && c'.table[j] == c'.table[k] ensures c'.table[j] == p.blank {
      if j != i && k != i {
        assert c.table[j] == c.table[k];
      }
    }
  }

  /** What the slot held is gone from the table afterwards. */
  lemma PutEvicts<E>(p: Params<E>, c: Cache<E>, i: nat, e: E, now: bool)
    requires Tidy(p, c) && i < p.size && Absent(p, c, e) && !c.dead[i]
    ensures Absent(p, Put(c, i, e, now), c.table[i])
    ensures Live(Put(c, i, e, now)) + {c.table[i]} == Live(c) + {e}
  {
    hide Locs;
    var c', x := Put(c, i, e, now), c.table[i];
    if x != p.blank {
      forall j | 0 <= j < p.size ensures c'.table[j] != x {
        assert j < i ==> c.table[j] != c.table[i];
        assert i < j ==> c.table[i] != c.table[j];
      }
    }
    PutLive(c, i, e, now);
  }

  lemma PutLive<E>(c: Cache<E>, i: nat, e: E, now: bool)
    requires i < |c.table| == |c.dead| == |c.recent|
    ensures Live(Put(c, i, e, now)) + {c.table[i]} == Live(c) + {c.table[i], e}
    ensures c.dead[i] ==> Live(Put(c, i, e, now)) == Live(c) + {e}
  {
    var c' := Put(c, i, e, now);
    forall x | x in Live(c) && x != c.table[i] ensures x in Live(c') {
      var j :| 0 <= j < |c.table| && !c.dead[j] && c.table[j] == x;
      assert !c'.dead[j] && c'.table[j] == x;
    }
    if c.dead[i] {
      forall x | x in Live(c) ensures x in Live(c') {
        var j :| 0 <= j < |c.table| && !c.dead[j] && c.table[j] == x;
        assert !c'.dead[j] && c'.table[j] == x;
      }
    }
    assert !c'.dead[i] && c'.table[i] == e;
    forall x | x in Live(c') ensures x in Live(c) + {e} {
      var j :| 0 <= j < |c.table| && !c'.dead[j] && c'.table[j] == x;
      assert j != i ==> !c.dead[j] && c.table[j] == x;
    }
  }

  // ----- epochs -----

  /** The old epoch dies and the current one becomes old. */
  function Aged<E>(p: Params<E>, c: Cache<E>): Cache<E>
    requires Shaped(p, c)
  {
    c.(dead := seq(p.size, i requires 0 <= i < p.size => c.dead[i] || !c.recent[i]),
       recent := seq(p.size, _ => false), counter := p.epochSize)
  }

  function EpochCheck<E>(p: Params<E>, c: Cache<E>): Cache<E>
    requires Shaped(p, c)
  {
    if c.counter != 0 then c.(counter := c.counter - 1)
    else if Recent(c) >= p.epochSize then Aged(p, c)
    else c.(counter := Max(1, Max(p.epochSize / 16, p.epochSize - Recent(c))))
  }

  /** After a check there is room for one more insertion under the bound. */
  lemma EpochCheckMakesRoom<E>(p: Params<E>, c: Cache<E>)
    requires Inv(p, c)
    ensures var c' := EpochCheck(p, c);
            Tidy(p, c') && Recent(c') + 1 + c'.counter <= Cap(p.epochSize) && Old(c') <= Cap(p.epochSize)
  {
    hide Locs;
    var c' := EpochCheck(p, c);
    if c.counter == 0 && Recent(c) >= p.epochSize {
      CountNone(Alive(c', true));
      assert Alive(c', false) == Alive(c, true);
    } else {
      forall b: bool ensures Alive(c', b) == Alive(c, b) {
      }
    }
  }

  /** Only a full scan that finds the epoch full ends anything, and it ends exactly the old epoch. */
  lemma EpochCheckLive<E>(p: Params<E>, c: Cache<E>)
    requires Inv(p, c)
    ensures var c' := EpochCheck(p, c);
            && c'.table == c.table
            && Live(c') == if c.counter == 0 && Recent(c) >= p.epochSize
                           then set i | 0 <= i < p.size && !c.dead[i] && c.recent[i] :: c.table[i]
                           else Live(c)
  {
  }

  // ----- insertion -----

  /** The elements and the deadness at the eight locations, in the order they are tried. */
  function Held<E>(p: Params<E>, c: Cache<E>, e: E): seq<E>
    requires Shaped(p, c)
  {
    LocsInRange(p, e);
    seq(HASHES, h requires 0 <= h < HASHES => c.table[Locs(p, e)[h]])
  }

  function Free<E>(p: Params<E>, c: Cache<E>, e: E): seq<bool>
    requires Shaped(p, c)
  {
    LocsInRange(p, e);
    seq(HASHES, h requires 0 <= h < HASHES => c.dead[Locs(p, e)[h]])
  }

  /** The location after the last one used, in the new element's own order. */
  function NextLoc(locs: seq<nat>, last: nat): nat
    requires |locs| == HASHES
  {
    locs[(1 + Find(locs, last)) % HASHES]
  }

  /**
   The first swap of an insertion goes to the second location. A later one goes to the location
   after the one just filled, which is another slot unless two of the hashes collide.
   */
  lemma NextLocIs<E>(p: Params<E>, e: E, last: nat)
    requires 0 < p.size < INVALID
    ensures NextLoc(Locs(p, e), INVALID) == Locs(p, e)[1]
    ensures last in Locs(p, e) ==>
              var h := Find(Locs(p, e), last);
              h < HASHES && Locs(p, e)[h] == last && NextLoc(Locs(p, e), last) == Locs(p, e)[(h + 1) % HASHES]
  {
    LocsInRange(p, e);
    hide Locs;
    FindIs(Locs(p, e), INVALID);
    FindIs(Locs(p, e), last);
  }

  /**
   Puts `e`, which comes with epoch flag `now`, into a free location, or swaps it with the element
   at the next location and goes on with that one; after `depth` swaps the element in hand is lost.
   */
  function Evict<E>(p: Params<E>, c: Cache<E>, e: E, last: nat, now: bool, depth: nat): (r: (Cache<E>, set<E>))
    requires Shaped(p, c)
    ensures Shaped(p, r.0) && r.0.counter == c.counter
    decreases depth
  {
    if depth == 0 then (c, {e})
    else
      LocsInRange(p, e);
      var locs := Locs(p, e);
      var free := Find(Free(p, c, e), true);
      FindIs(Free(p, c, e), true);
      if free < HASHES then (Put(c, locs[free], e, now), {})
      else
        var at := NextLoc(locs, last);
        Evict(p, c.(table := c.table[at := e], recent := c.recent[at := now]), c.table[at], at, c.recent[at], depth - 1)
  }

  /** A full set of locations is alive throughout, so the swap is a Put. */
  lemma SwapIsPut<E>(p: Params<E>, c: Cache<E>, e: E, at: nat, now: bool)
    requires Shaped(p, c) && at < p.size && at in Locs(p, e) && Find(Free(p, c, e), true) == HASHES
    ensures !c.dead[at] && c.(table := c.table[at := e], recent := c.recent[at := now]) == Put(c, at, e, now)
  {
    LocsInRange(p, e);
    FindIs(Free(p, c, e), true);
    var h :| 0 <= h < HASHES && Locs(p, e)[h] == at;
    assert !Free(p, c, e)[h];
    assert c.dead[at := false] == c.dead;
  }

  /** Nothing is lost but at most the last element in hand, and nothing is doubled. */
  lemma {:induction false} EvictKeeps<E>(p: Params<E>, c: Cache<E>, e: E, last: nat, now: bool, depth: nat)
    requires Tidy(p, c) && Absent(p, c, e)
    ensures var r := Evict(p, c, e, last, now, depth);
            && Tidy(p, r.0) && |r.1| <= 1 && Live(r.0) + r.1 == Live(c) + {e}
            && forall x | x in r.1 :: Absent(p, r.0, x)
    decreases depth
  {
    hide Locs, Placed, Distinct, Live;
    if depth > 0 {
      LocsInRange(p, e);
      var locs := Locs(p, e);
      var free := Find(Free(p, c, e), true);
      FindIs(Free(p, c, e), true);
      if free < HASHES {
        PutTidy(p, c, locs[free], e, now);
        PutLive(c, locs[free], e, now);
      } else {
        var at := NextLoc(locs, last);
        SwapIsPut(p, c, e, at, now);
        PutTidy(p, c, at, e, now);
        PutEvicts(p, c, at, e, now);
        EvictKeeps(p, Put(c, at, e, now), c.table[at], at, c.recent[at], depth - 1);
      }
    }
  }

  /** Relocated elements keep their epoch flags, so each epoch's count only moves by the element in hand. */
  lemma {:induction false} EvictCounts<E>(p: Params<E>, c: Cache<E>, e: E, last: nat, now: bool, depth: nat)
    requires Shaped(p, c)
    ensures var c' := Evict(p, c, e, last, now, depth).0;
            Recent(c') <= Recent(c) + Bit(now) && Old(c') <= Old(c) + Bit(!now)
    decreases depth
  {
    hide Locs, Recent, Old;
    if depth > 0 {
      LocsInRange(p, e);
      var locs := Locs(p, e);
      var free := Find(Free(p, c, e), true);
      FindIs(Free(p, c, e), true);
      if free < HASHES {
        PutCounts(c, locs[free], e, now);
      } else {
        var at := NextLoc(locs, last);
        SwapIsPut(p, c, e, at, now);
        PutCounts(c, at, e, now);
        EvictCounts(p, Put(c, at, e, now), c.table[at], at, c.recent[at], depth - 1);
      }
    }
  }

  /** Places `e` into the table as it is after the epoch check; the second result is what got lost. */
  function Place<E>(p: Params<E>, c: Cache<E>, e: E): (r: (Cache<E>, set<E>))
    requires Shaped(p, c)
  {
    LocsInRange(p, e);
    var here := Find(Held(p, c, e), e);
    FindIs(Held(p, c, e), e);
    if here < HASHES then (Put(c, Locs(p, e)[here], e, true), {})
    else Evict(p, c, e, INVALID, true, p.depthLimit)
  }

  /** An element of the table lies in one of its own locations, so eight looks are enough. */
  lemma HeldIffInTable<E>(p: Params<E>, c: Cache<E>, e: E)
    requires Tidy(p, c) && e != p.blank
    ensures e in Held(p, c, e) <==> e in c.table
  {
    LocsInRange(p, e);
    if e in c.table {
      var i :| 0 <= i < |c.table| && c.table[i] == e;
      assert i in Locs(p, e);
      var h :| 0 <= h < HASHES && Locs(p, e)[h] == i;
      assert Held(p, c, e)[h] == e;
    }
  }

  /** Putting an element where it already is changes no slot but that one's flags. */
  lemma KeepTidy<E>(p: Params<E>, c: Cache<E>, i: nat, e: E)
    requires Tidy(p, c) && i < p.size && c.table[i] == e && i in Locs(p, e)
    ensures Tidy(p, Put(c, i, e, true)) && Live(Put(c, i, e, true)) == Live(c) + {e}
  {
    hide Locs;
    var c' := Put(c, i, e, true);
    assert c'.table == c.table;
    PutLive(c, i, e, true);
    assert e in Live(c') by { assert !c'.dead[i] && c'.table[i] == e; }
    assert forall j, k | 0 <= j < k < p.size ::
      c'.table[j] == c'.table[k] ==> c.table[j] == c.table[k];
  }

  /**
   Relative to the table just after the epoch check, an insertion keeps every live element and the
   new one live, except at most one, which is then nowhere in the table.
   */
  lemma PlaceKeeps<E>(p: Params<E>, c: Cache<E>, e: E)
    requires Tidy(p, c)
    ensures var r := Place(p, c, e);
            && Tidy(p, r.0) && |r.1| <= 1 && Live(r.0) + r.1 == Live(c) + {e}
            && forall x | x in r.1 :: Absent(p, r.0, x)
  {
    hide Locs, Placed, Distinct, Live, Evict, Held;
    LocsInRange(p, e);
    FindIs(Held(p, c, e), e);
    var here := Find(Held(p, c, e), e);
    HeldAt(p, c, e, here);
    if here < HASHES {
      KeepTidy(p, c, Locs(p, e)[here], e);
    } else {
      if e != p.blank {
        HeldIffInTable(p, c, e);
      }
      EvictKeeps(p, c, e, INVALID, true, p.depthLimit);
    }
  }

  lemma HeldAt<E>(p: Params<E>, c: Cache<E>, e: E, h: nat)
    requires Shaped(p, c)
    ensures |Held(p, c, e)| == |Locs(p, e)| == HASHES
    ensures h < HASHES ==> Locs(p, e)[h] < p.size && Held(p, c, e)[h] == c.table[Locs(p, e)[h]]
  {
    LocsInRange(p, e);
  }

  lemma PlaceCounts<E>(p: Params<E>, c: Cache<E>, e: E)
    requires Shaped(p, c)
    ensures var c' := Place(p, c, e).0;
            Shaped(p, c') && c'.counter == c.counter && Recent(c') <= Recent(c) + 1 && Old(c') <= Old(c)
  {
    hide Locs, Recent, Old, Evict, Held;
    LocsInRange(p, e);
    FindIs(Held(p, c, e), e);
    var here := Find(Held(p, c, e), e);
    HeldAt(p, c, e, here);
    if here < HASHES {
      PutCounts(c, Locs(p, e)[here], e, true);
    } else {
      EvictCounts(p, c, e, INVALID, true, p.depthLimit);
    }
  }

  /** A free location, or the element itself, means that nothing is lost. */
  lemma PlaceLosesNothingIf<E>(p: Params<E>, c: Cache<E>, e: E)
    requires Shaped(p, c) && p.depthLimit > 0 && (e in Held(p, c, e) || true in Free(p, c, e))
    ensures Place(p, c, e).1 == {}
  {
    hide Locs, Held;
    LocsInRange(p, e);
    FindIs(Held(p, c, e), e);
    HeldAt(p, c, e, 0);
    FindIs(Free(p, c, e), true);
  }

  // ----- runs -----

  /** What contains does to the flags when it is told to erase what it finds. */
  function Erase<E>(p: Params<E>, c: Cache<E>, e: E): (r: Cache<E>)
    requires Shaped(p, c)
    ensures Shaped(p, r) && r.table == c.table
  {
    LocsInRange(p, e);
    var here := Find(Held(p, c, e), e);
    FindIs(Held(p, c, e), e);
    if here < HASHES then c.(dead := c.dead[Locs(p, e)[here] := true]) else c
  }

  lemma EraseKeepsInv<E>(p: Params<E>, c: Cache<E>, e: E)
    requires Inv(p, c)
    ensures Inv(p, Erase(p, c, e)) && Erase(p, c, e).table == c.table
    ensures e != p.blank ==> Live(Erase(p, c, e)) == Live(c) - {e}
  {
    hide Locs, Held;
    LocsInRange(p, e);
    FindIs(Held(p, c, e), e);
    var here := Find(Held(p, c, e), e);
    HeldAt(p, c, e, here);
    var c' := Erase(p, c, e);
    if here < HASHES {
      var i := Locs(p, e)[here];
      assert i in Locs(p, e);
      forall b: bool ensures Alive(c', b) == Alive(c, b)[i := false] {
      }
      CountUpdate(Alive(c, true), i, false);
      CountUpdate(Alive(c, false), i, false);
    }
    if e != p.blank {
      HeldIffInTable(p, c, e);
      EraseLive(p, c, e);
    }
  }

  lemma OnlySlot<E>(p: Params<E>, c: Cache<E>, i: nat, j: nat)
    requires Tidy(p, c) && i < p.size && j < p.size && c.table[i] == c.table[j] != p.blank
    ensures i == j
  {
    hide Locs;
  }

  lemma EraseLive<E>(p: Params<E>, c: Cache<E>, e: E)
    requires Tidy(p, c) && e != p.blank && (e in Held(p, c, e) <==> e in c.table)
    ensures Live(Erase(p, c, e)) == Live(c) - {e}
  {
    hide Locs, Held, Placed, Distinct;
    FindIs(Held(p, c, e), e);
    var here := Find(Held(p, c, e), e);
    HeldAt(p, c, e, here);
    var c' := Erase(p, c, e);
    forall j | 0 <= j < p.size ensures c'.dead[j] == (c.dead[j] || c.table[j] == e) {
      if here < HASHES && c.table[j] == e {
        OnlySlot(p, c, Locs(p, e)[here], j);
      }
    }
    LiveMinus(c, c', e);
  }

  lemma LiveMinus<E>(c: Cache<E>, c': Cache<E>, e: E)
    requires |c.dead| == |c.table| == |c'.dead| && c'.table == c.table
    requires forall j | 0 <= j < |c.dead| :: c'.dead[j] == (c.dead[j] || c.table[j] == e)
    ensures Live(c') == Live(c) - {e}
  {
    forall x | x in Live(c) && x != e ensures x in Live(c') {
      var j :| 0 <= j < |c.table| && !c.dead[j] && c.table[j] == x;
      assert !c'.dead[j] && c'.table[j] == x;
    }
  }

  function Setup<E>(p: Params<E>): Cache<E> {
    Cache(seq(p.size, _ => p.blank), seq(p.size, _ => true), seq(p.size, _ => false), p.epochSize)
  }

  datatype Op<E> = Insert(e: E) | Contains(e: E, erase: bool)

  function Step<E>(p: Params<E>, c: Cache<E>, op: Op<E>): Cache<E>
    requires Shaped(p, c)
  {
    match op
    case Insert(e) => Place(p, EpochCheck(p, c), e).0
    case Contains(e, erase) => if erase then Erase(p, c, e) else c
  }

  lemma StepKeepsInv<E>(p: Params<E>, c: Cache<E>, op: Op<E>)
    requires Inv(p, c)
    ensures Inv(p, Step(p, c, op))
  {
    hide Placed, Distinct, Recent, Old, Place, EpochCheck, Erase;
    match op
    case Insert(e) =>
      EpochCheckMakesRoom(p, c);
      PlaceKeeps(p, EpochCheck(p, c), e);
      PlaceCounts(p, EpochCheck(p, c), e);
    case Contains(e, erase) =>
      EraseKeepsInv(p, c, e);
  }

  /** A run of operations from a table that has just been set up. */
  ghost predicate IsRun<E>(p: Params<E>, ops: seq<Op<E>>, cs: seq<Cache<E>>) {
    && |cs| == |ops| + 1 && cs[0] == Setup(p)
    && forall i | 0 <= i < |ops| :: Shaped(p, cs[i]) && cs[i + 1] == Step(p, cs[i], ops[i])
  }

  lemma SetupInv<E>(p: Params<E>)
    requires p.size > 0 && p.epochSize > 0
    ensures Inv(p, Setup(p))
  {
    CountNone(Alive(Setup(p), true));
    CountNone(Alive(Setup(p), false));
  }

  /** Placement, distinctness and the epoch bound hold in every reachable state. */
  lemma {:induction false} RunKeepsInv<E>(p: Params<E>, ops: seq<Op<E>>, cs: seq<Cache<E>>, n: nat)
    requires p.size > 0 && p.epochSize > 0 && IsRun(p, ops, cs) && n < |cs|
    ensures Inv(p, cs[n])
  {
    hide Inv, Step;
    if n == 0 {
      SetupInv(p);
    } else {
      RunKeepsInv(p, ops, cs, n - 1);
      StepKeepsInv(p, cs[n - 1], ops[n - 1]);
    }
  }

  function LiveBelow<E>(c: Cache<E>, n: nat): set<E>
    requires n <= |c.table| == |c.dead|
  {
    set i | 0 <= i < n && !c.dead[i] :: c.table[i]
  }

  lemma LiveBelowStep<E>(c: Cache<E>, n: nat)
    requires 0 < n <= |c.table| == |c.dead|
    ensures LiveBelow(c, n) == LiveBelow(c, n - 1) + if c.dead[n - 1] then {} else {c.table[n - 1]}
  {
  }

  lemma CountStep(flags: seq<bool>, n: nat)
    requires 0 < n <= |flags|
    ensures Count(flags[..n]) == Count(flags[..n - 1]) + Bit(flags[n - 1])
  {
    assert flags[..n][..n - 1] == flags[..n - 1];
  }

  lemma {:induction false} LiveSize<E>(c: Cache<E>, n: nat)
    requires n <= |c.table| == |c.dead| == |c.recent|
    ensures |LiveBelow(c, n)| <= Count(Alive(c, true)[..n]) + Count(Alive(c, false)[..n])
  {
    hide Count, LiveBelow;
    if n == 0 {
      assert LiveBelow(c, 0) == {} by { NoneBelow(c); }
    } else {
      LiveSize(c, n - 1);
      LiveBelowStep(c, n);
      CountStep(Alive(c, true), n);
      CountStep(Alive(c, false), n);
    }
  }

  lemma NoneBelow<E>(c: Cache<E>)
    requires |c.table| == |c.dead|
    ensures LiveBelow(c, 0) == {}
  {
  }

  /** Two epochs share the table, so the number of live elements is bounded in every reachable state. */
  lemma RunBoundsLive<E>(p: Params<E>, ops: seq<Op<E>>, cs: seq<Cache<E>>, n: nat)
    requires p.size > 0 && p.epochSize > 0 && IsRun(p, ops, cs) && n < |cs|
    ensures Shaped(p, cs[n]) && |Live(cs[n])| + cs[n].counter <= 2 * Cap(p.epochSize)
  {
    hide IsRun, Placed, Distinct;
    RunKeepsInv(p, ops, cs, n);
    LiveSize(cs[n], p.size);
    assert LiveBelow(cs[n], p.size) == Live(cs[n]);
    assert Alive(cs[n], true)[..p.size] == Alive(cs[n], true);
    assert Alive(cs[n], false)[..p.size] == Alive(cs[n], false);
  }
}
