/** The cuckoo cache as an object, with its bit-packed collection flags. */
module CuckooTable {
  import opened Numbers
  import opened Sequences
  import opened Words
  import opened CuckooCache

  // ----- bit-packed flags -----

  function Mask(k: nat): bv8
    requires k < 8
  {
    if k == 0 then 1 else if k == 1 then 2 else if k == 2 then 4 else if k == 3 then 8
    else if k == 4 then 16 else if k == 5 then 32 else if k == 6 then 64 else 128
  }

  predicate HasBit(w: bv8, k: nat)
    requires k < 8
  {
    Mask(k) & w != 0
  }

  lemma SetBit(w: bv8, k: nat, j: nat)
    requires k < 8 && j < 8
    ensures HasBit(w | Mask(k), j) <==> j == k || HasBit(w, j)
  {
  }

  lemma UnsetBit(w: bv8, k: nat, j: nat)
    requires k < 8 && j < 8
    ensures HasBit(w & !Mask(k), j) <==> j != k && HasBit(w, j)
  {
  }

  predicate BitAt(mem: seq<Byte>, s: nat)
    requires s < 8 * |mem|
  {
    HasBit(mem[s / 8].bits, s % 8)
  }

  /** The first `n` flags, unpacked. */
  function Unpacked(mem: seq<Byte>, n: nat): seq<bool>
    requires n <= 8 * |mem|
  {
    seq(n, s requires 0 <= s < n => BitAt(mem, s))
  }

  class PackedFlags {
    var mem: seq<Byte>

    constructor (n: nat)
      ensures n <= 8 * |mem| && Unpacked(mem, n) == seq(n, _ => true)
    {
      mem := seq((n + 7) / 8, _ => Byte(0xFF));
    }

    method Set(s: nat)
      requires s < 8 * |mem|
      modifies this
      ensures |mem| == old(|mem|)
      ensures forall n: nat | s < n <= 8 * |mem| :: Unpacked(mem, n) == Unpacked(old(mem), n)[s := true]
    {
      hide HasBit, BitAt;
      var w := mem[s / 8].bits;
      mem := mem[s / 8 := Byte(w | Mask(s % 8))];
      SetAt(old(mem), s);
    }

    method Unset(s: nat)
      requires s < 8 * |mem|
      modifies this
      ensures |mem| == old(|mem|)
      ensures forall n: nat | s < n <= 8 * |mem| :: Unpacked(mem, n) == Unpacked(old(mem), n)[s := false]
    {
      hide HasBit, BitAt;
      var w := mem[s / 8].bits;
      mem := mem[s / 8 := Byte(w & !Mask(s % 8))];
      UnsetAt(old(mem), s);
    }

    predicate IsSet(s: nat)
      requires s < 8 * |mem|
      reads this
    {
      BitAt(mem, s)
    }
  }

  lemma SetAt(mem: seq<Byte>, s: nat)
    requires s < 8 * |mem|
    ensures var mem' := mem[s / 8 := Byte(mem[s / 8].bits | Mask(s % 8))];
            forall t: nat | t < 8 * |mem| :: BitAt(mem', t) == (t == s || BitAt(mem, t))
  {
    hide HasBit;
    var mem' := mem[s / 8 := Byte(mem[s / 8].bits | Mask(s % 8))];
    forall t: nat | t < 8 * |mem| ensures BitAt(mem', t) == (t == s || BitAt(mem, t)) {
      SetBit(mem[s / 8].bits, s % 8, t % 8);
      assert t == s <==> t / 8 == s / 8 && t % 8 == s % 8;
    }
  }

  lemma UnsetAt(mem: seq<Byte>, s: nat)
    requires s < 8 * |mem|
    ensures var mem' := mem[s / 8 := Byte(mem[s / 8].bits & !Mask(s % 8))];
            forall t: nat | t < 8 * |mem| :: BitAt(mem', t) == (t != s && BitAt(mem, t))
  {
    hide HasBit;
    var mem' := mem[s / 8 := Byte(mem[s / 8].bits & !Mask(s % 8))];
    forall t: nat | t < 8 * |mem| ensures BitAt(mem', t) == (t != s && BitAt(mem, t)) {
      UnsetBit(mem[s / 8].bits, s % 8, t % 8);
      assert t == s <==> t / 8 == s / 8 && t % 8 == s % 8;
    }
  }

  // ----- the cache -----

  class CuckooSet<E(==)> {
    const p: Params<E>
    var vTable: seq<E>
    const flags: PackedFlags
    var epochFlags: seq<bool>
    var counter: nat

    ghost predicate Sized()
      reads this, flags
    {
      p.size > 0 && |vTable| == |epochFlags| == p.size && p.size <= 8 * |flags.mem|
    }

    ghost function State(): (c: Cache<E>)
      requires Sized()
      reads this, flags
      ensures Shaped(p, c)
    {
      Cache(vTable, Unpacked(flags.mem, p.size), epochFlags, counter)
    }

    ghost predicate Valid()
      reads this, flags
    {
      Sized() && Inv(p, State())
    }

    /** A table of 2^depthLimit blank slots, all free, whose epoch is 45% of it in 32-bit arithmetic. */
    constructor (depthLimit: nat, blank: E, hash: (nat, E) -> nat)
      requires 1 <= depthLimit <= 31
      ensures p == Params(Pow(2, depthLimit), Max(1, 45 * Pow(2, depthLimit) % TWO32 / 100), depthLimit, blank, hash)
      ensures Valid() && State() == Setup(p) && fresh(flags)
    {
      var nSize := Pow(2, depthLimit);
      PowPositive(2, depthLimit);
      p := Params(nSize, Max(1, 45 * nSize % TWO32 / 100), depthLimit, blank, hash);
      vTable := seq(nSize, _ => blank);
      flags := new PackedFlags(nSize);
      epochFlags := seq(nSize, _ => false);
      counter := Max(1, 45 * nSize % TWO32 / 100);
      new;
      SetupInv(p);
      assert State() == Setup(p);
    }

    method Keep(i: nat, e: E, now: bool)
      requires Sized() && i < p.size
      modifies this, flags
      ensures Sized() && State() == Put(old(State()), i, e, now)
    {
      hide Mask, HasBit, BitAt, Unpacked;
      vTable := vTable[i := e];
      flags.Unset(i);
      epochFlags := epochFlags[i := now];
    }

    /** Counts the live slots of the current epoch. */
    method ScanEpoch() returns (n: nat)
      requires Sized()
      ensures n == Recent(State())
    {
      hide Mask, HasBit;
      n := 0;
      ghost var alive := Alive(State(), true);
      for i := 0 to p.size
        invariant n == Count(alive[..i])
      {
        CountStep(alive, i + 1);
        if epochFlags[i] && !flags.IsSet(i) {
          n := n + 1;
        }
      }
      assert alive[..p.size] == alive;
    }

    method AgeEpochs()
      requires Sized()
      modifies this, flags
      ensures Sized() && State() == Aged(p, old(State()))
    {
      hide Mask, HasBit, BitAt;
      ghost var was := State();
      for i := 0 to p.size
        invariant Sized() && vTable == was.table && counter == was.counter
        invariant forall j | 0 <= j < p.size :: State().dead[j] == (was.dead[j] || (j < i && !was.recent[j]))
        invariant forall j | 0 <= j < p.size :: epochFlags[j] == (i <= j && was.recent[j])
      {
        if epochFlags[i] {
          epochFlags := epochFlags[i := false];
        } else {
          flags.Set(i);
        }
      }
      counter := p.epochSize;
      assert State() == Aged(p, was);
    }

    method CheckEpoch()
      requires Valid()
      modifies this, flags
      ensures Sized() && State() == EpochCheck(p, old(State()))
    {
      hide Unpacked, Inv, Recent, Aged;
      if counter != 0 {
        counter := counter - 1;
        return;
      }
      var n := ScanEpoch();
      if n >= p.epochSize {
        AgeEpochs();
      } else {
        counter := Max(1, Max(p.epochSize / 16, p.epochSize - n));
      }
    }

    /** The first of the eight locations that holds `e`, or eight. */
    method Locate(e: E) returns (here: nat)
      requires Sized()
      ensures here == Find(Held(p, State(), e), e) && here <= HASHES
    {
      hide Unpacked, Locs;
      LocsInRange(p, e);
      var locs := Locs(p, e);
      ghost var held := Held(p, State(), e);
      here := 0;
      while here < HASHES && vTable[locs[here]] != e
        invariant here <= HASHES && forall k | 0 <= k < here :: held[k] != e
      {
        here := here + 1;
      }
      FindUnique(held, e, here);
    }

    /** The first of the eight locations that is free, or eight. */
    method LocateFree(e: E) returns (free: nat)
      requires Sized()
      ensures free == Find(Free(p, State(), e), true) && free <= HASHES
    {
      hide Locs, BitAt;
      LocsInRange(p, e);
      var locs := Locs(p, e);
      ghost var dead := Free(p, State(), e);
      free := 0;
      while free < HASHES && !flags.IsSet(locs[free])
        invariant free <= HASHES && forall k | 0 <= k < free :: dead[k] != true
      {
        free := free + 1;
      }
      FindUnique(dead, true, free);
    }

    /** cache::contains: true exactly for the elements of the table, whether or not they may be discarded. */
    method Contains(e: E, erase: bool) returns (found: bool)
      requires Valid()
      modifies flags
      ensures Valid() && State() == if erase then Erase(p, old(State()), e) else old(State())
      ensures e != p.blank ==> (found <==> e in vTable)
    {
      hide Unpacked, Inv, Find, Held, Locs;
      var here := Locate(e);
      LocsInRange(p, e);
      FindIs(Held(p, State(), e), e);
      found := here < HASHES;
      if e != p.blank {
        assert Tidy(p, State()) by { InvTidy(p, State()); }
        HeldIffInTable(p, State(), e);
        HeldAt(p, State(), e, 0);
      }
      if erase {
        EraseKeepsInv(p, State(), e);
        HeldAt(p, State(), e, 0);
        if found {
          flags.Set(Locs(p, e)[here]);
        }
      }
    }

    /** cache::insert; `lost` is the element that found no place in the end, if any. */
    method Insert(e: E) returns (ghost lost: set<E>)
      requires Valid()
      modifies this, flags
      ensures Valid() && (State(), lost) == Place(p, EpochCheck(p, old(State())), e)
    {
      hide Unpacked, Inv, Find, Held, Free, Locs, Evict, EpochCheck;
      StepKeepsInv(p, State(), Op.Insert(e));
      CheckEpoch();
      ghost var start := State();
      var here := Locate(e);
      LocsInRange(p, e);
      HeldAt(p, State(), e, here);
      if here < HASHES {
        FindIs(Held(p, State(), e), e);
        Keep(Locs(p, e)[here], e, true);
        return {};
      }
      var x, last, now := e, INVALID, true;
      for depth := 0 to p.depthLimit
        invariant Sized() && Evict(p, State(), x, last, now, p.depthLimit - depth) == Place(p, start, e)
      {
        EvictStep(p, State(), x, last, now, p.depthLimit - depth);
        LocsInRange(p, x);
        var locs := Locs(p, x);
        var free := LocateFree(x);
        if free < HASHES {
          Keep(locs[free], x, now);
          return {};
        }
        last := Next(locs, last);
        var y, epoch := vTable[last], epochFlags[last];
        vTable := vTable[last := x];
        epochFlags := epochFlags[last := now];
        x, now := y, epoch;
      }
      EvictStep(p, State(), x, last, now, 0);
      return {x};
    }
  }

  /** The find-and-advance expression of the swap. */
  method Next(locs: seq<nat>, last: nat) returns (at: nat)
    requires |locs| == HASHES
    ensures at == NextLoc(locs, last) && at in locs
  {
    var k := 0;
    while k < HASHES && locs[k] != last
      invariant k <= HASHES && forall j | 0 <= j < k :: locs[j] != last
    {
      k := k + 1;
    }
    FindUnique(locs, last, k);
    at := locs[(1 + k) % HASHES];
  }

  lemma InvTidy<E>(p: Params<E>, c: Cache<E>)
    requires Inv(p, c)
    ensures Tidy(p, c)
  {
  }

  /** Unfolds one level of the eviction chain. */
  lemma EvictStep<E>(p: Params<E>, c: Cache<E>, e: E, last: nat, now: bool, depth: nat)
    requires Shaped(p, c)
    ensures |Locs(p, e)| == HASHES && forall h | 0 <= h < HASHES :: Locs(p, e)[h] < p.size
    ensures depth == 0 ==> Evict(p, c, e, last, now, depth) == (c, {e})
    ensures var free := Find(Free(p, c, e), true);
            depth > 0 && free < HASHES ==> Evict(p, c, e, last, now, depth) == (Put(c, Locs(p, e)[free], e, now), {})
    ensures var at := NextLoc(Locs(p, e), last);
            depth > 0 && Find(Free(p, c, e), true) >= HASHES ==>
              && at < p.size
              && Evict(p, c, e, last, now, depth) ==
                 Evict(p, c.(table := c.table[at := e], recent := c.recent[at := now]), c.table[at], at, c.recent[at],
                       depth - 1)
  {
    hide Locs, Free;
    LocsInRange(p, e);
    FindIs(Locs(p, e), last);
  }
}
