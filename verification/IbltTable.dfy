/**
 The invertible table as an object: insertion, erasure and subtraction update its cells in place,
 and `Get` and `ListEntries` peel a copy of it.
 */
module IbltTable {
  import opened Sequences
  import opened Iblt

  class InvertibleTable {
    const p: Shape
    var hashTable: Table

    ghost predicate Valid()
      reads this
    {
      |hashTable| == p.size
    }

    constructor (p: Shape)
      ensures this.p == p && hashTable == EmptyTable(p) && Valid()
    {
      this.p := p;
      hashTable := EmptyTable(p);
    }

    constructor Copy(other: InvertibleTable)
      ensures p == other.p && hashTable == other.hashTable
    {
      p := other.p;
      hashTable := other.hashTable;
    }

    /** One signed entry goes into its cell of every hash function. */
    method Update(sign: int, k: Key, v: Value)
      requires Valid()
      modifies this
      ensures Valid() && hashTable == Insert(p, old(hashTable), sign, k, v)
    {
      hide UpdateCell;
      var bph := p.BucketsPerHash();
      ghost var was := hashTable;
      if bph == 0 {
        assert hashTable == Insert(p, was, sign, k, v);
        return;
      }
      InsertEnds(p, was, sign, k, v);
      for i := 0 to p.nHash
        invariant Valid() && hashTable == InsertBelow(p, was, sign, k, v, i)
      {
        InsertStep(p, was, sign, k, v, i);
        var at := i * bph + p.hash(i, k) % bph;
        var entry := UpdateEntry(p, hashTable[at], sign, k, v);
        hashTable := hashTable[at := entry];
      }
    }

    method Minus(other: InvertibleTable) returns (r: InvertibleTable)
      requires Valid() && |hashTable| == |other.hashTable|
      ensures fresh(r) && r.p == p && r.Valid() && r.hashTable == SubTable(p, hashTable, other.hashTable)
    {
      hide SubCell;
      r := new InvertibleTable.Copy(this);
      for i := 0 to |hashTable|
        invariant |r.hashTable| == |hashTable|
        invariant forall j | 0 <= j < i :: r.hashTable[j] == SubCell(p, hashTable[j], other.hashTable[j])
        invariant forall j | i <= j < |hashTable| :: r.hashTable[j] == hashTable[j]
      {
        var entry := SubtractEntry(p, r.hashTable[i], other.hashTable[i]);
        r.hashTable := r.hashTable[i := entry];
      }
    }

    /** One pass over the cells, peeling the pure ones off as they are met. */
    method PeelPass(ghost start: Table, ghost D: Dataset, ghost first: Dataset, ghost len: nat,
                    positive: set<(Key, Value)>, negative: set<(Key, Value)>, ghost log: seq<Peeled>)
      returns (nErased: nat, positive': set<(Key, Value)>, negative': set<(Key, Value)>,
               ghost log': seq<Peeled>, ghost now: Dataset)
      requires Valid() && Balanced(p, start, hashTable, log)
      requires positive == PeeledWith(log, 1) && negative == PeeledWith(log, -1)
      modifies this
      ensures Valid() && Balanced(p, start, hashTable, log') && |log'| == |log| + nErased
      ensures positive' == PeeledWith(log', 1) && negative' == PeeledWith(log', -1)
      ensures Follows(p, old(hashTable), D, first, log, len) ==> Follows(p, hashTable, D, now, log', len)
      ensures nErased == 0 ==> NonePure(p, hashTable)
    {
      hide Balanced, Follows, Insert, IsPure, PeeledWith;
      nErased, positive', negative', log', now := 0, positive, negative, log, first;
      ghost var was := hashTable;
      var i := 0;
      while i < |hashTable|
        invariant Valid() && Balanced(p, start, hashTable, log') && |log'| == |log| + nErased
        invariant positive' == PeeledWith(log', 1) && negative' == PeeledWith(log', -1)
        invariant Follows(p, was, D, first, log, len) ==> Follows(p, hashTable, D, now, log', len)
        invariant 0 <= i <= |hashTable| && (nErased == 0 ==> forall j | 0 <= j < i :: !IsPure(p, hashTable[j]))
        decreases |hashTable| - i
      {
        var entry := hashTable[i];
        if IsPure(p, entry) {
          PureCount(p, entry);
          PeelLists(log', entry);
          if Follows(p, was, D, first, log, len) {
            PeelFollows(p, hashTable, D, now, log', len, i);
          }
          PeelKeepsBalance(p, start, hashTable, log', entry.count, entry.keySum, entry.valueSum);
          if entry.count == 1 {
            positive' := positive' + {(entry.keySum, entry.valueSum)};
          } else {
            negative' := negative' + {(entry.keySum, entry.valueSum)};
          }
          log' := log' + [Peeled(entry.count, entry.keySum, entry.valueSum)];
          now := now - {entry.keySum};
          Update(-entry.count, entry.keySum, entry.valueSum);
          nErased := nErased + 1;
        }
        i := i + 1;
      }
    }

    /** CIblt::listEntries, with the size-dependent cap on the number of peeled entries as an argument. */
    method ListEntries(cap: nat, ghost D: Dataset, ghost len: nat)
      returns (ok: bool, positive: set<(Key, Value)>, negative: set<(Key, Value)>,
               ghost log: seq<Peeled>, ghost rest: Table)
      requires Valid()
      ensures Balanced(p, hashTable, rest, log)
      ensures positive == PeeledWith(log, 1) && negative == PeeledWith(log, -1)
      ensures ok <==> p.BucketsPerHash() > 0 && AllEmpty(rest, p.BucketsPerHash())
      ensures Encodes(p, hashTable, D, len) && Sound(p, D, len) ==>
                positive <= Listed(D, 1) && negative <= Listed(D, -1)
      ensures Encodes(p, hashTable, D, len) && Sound(p, D, len) && ok ==>
                positive == Listed(D, 1) && negative == Listed(D, -1)
      ensures |log| >= cap || NonePure(p, rest)
      ensures Encodes(p, hashTable, D, len) && Sound(p, D, len) && p.BucketsPerHash() > 0 && |D| < cap ==>
                (ok <==> !HasCore(p, D))
    {
      hide Balanced, Follows, Insert, IsPure, PeeledWith, Encodes, Sound, Listed, HasCore, NonePure;
      var peeled := new InvertibleTable.Copy(this);
      positive, negative, log := {}, {}, [];
      ghost var now := D;
      ghost var fine := Encodes(p, hashTable, D, len) && Sound(p, D, len);
      StartBalanced(p, hashTable);
      StartLists();
      if fine {
        StartFollows(p, hashTable, D, len);
      }
      var nErased, nTotalErased := 0, 0;
      var more := true;
      while more
        invariant peeled.p == p && peeled.Valid() && Balanced(p, hashTable, peeled.hashTable, log)
        invariant positive == PeeledWith(log, 1) && negative == PeeledWith(log, -1)
        invariant fine ==> Follows(p, peeled.hashTable, D, now, log, len)
        invariant |log| == nTotalErased && (!more ==> |log| >= cap || NonePure(p, peeled.hashTable))
        decreases if more then 1 else 0, cap - nTotalErased
      {
        nErased, positive, negative, log, now :=
          peeled.PeelPass(hashTable, D, now, len, positive, negative, log);
        nTotalErased := nTotalErased + nErased;
        more := nErased > 0 && nTotalErased < cap;
      }
      rest := peeled.hashTable;
      if fine {
        assert LogIs(log, D, now) && |log| <= |D| by { FollowsLog(p, rest, D, now, log, len); }
        ListedIsRight(log, D, now);
      }
      var bph := p.BucketsPerHash();
      if bph == 0 {
        return false, positive, negative, log, rest;
      }
      SegmentFits(p);
      if fine && |D| < cap {
        PeelingEnds(p, rest, D, now, log, len);
      }
      for i := 0 to bph
        invariant AllEmpty(rest, i)
      {
        if !IsEmpty(peeled.hashTable[i]) {
          return false, positive, negative, log, rest;
        }
      }
      ok := true;
      if fine {
        EmptyMeansListed(p, rest, D, now, log, len);
      }
    }

    /** Looks at the cells of `k` only: an empty or a pure one decides. */
    method Probe(k: Key, ghost D: Dataset, ghost len: nat) returns (decided: bool, result: Value)
      requires Valid() && p.BucketsPerHash() > 0
      ensures Encodes(p, hashTable, D, len) && Sound(p, D, len) ==>
                if decided then result == (if k in D then D[k].value else []) else D != map[]
      ensures decided <==> exists i | 0 <= i < p.nHash :: Decides(p, hashTable, i, k)
    {
      hide IsPure, IsEmpty, Encodes, Sound;
      var bph := p.BucketsPerHash();
      ghost var fine := Encodes(p, hashTable, D, len) && Sound(p, D, len);
      for i := 0 to p.nHash
        invariant forall h | 0 <= h < i :: !Decides(p, hashTable, h, k)
        invariant fine && i > 0 ==> D != map[]
      {
        CellIndex(p, i, k);
        if fine {
          DecidesRight(p, hashTable, D, len, i, k);
        }
        var at := i * bph + p.hash(i, k) % bph;
        var entry := hashTable[at];
        assert Decides(p, hashTable, i, k) <==> IsEmpty(entry) || IsPure(p, entry);
        if IsEmpty(entry) {
          return true, [];
        } else if IsPure(p, entry) {
          return true, if entry.keySum == k then entry.valueSum else [];
        }
      }
      return false, [];
    }

    /** One peeling pass of a lookup, which ends early when it meets `k` itself. */
    method PeelFor(k: Key, ghost D: Dataset, ghost len: nat)
      returns (found: bool, result: Value, nErased: nat, ghost now: Dataset)
      requires Valid() && Keeps(p, hashTable, D, D, k, len)
      modifies this
      ensures found ==> k in D && result == D[k].value
      ensures !found ==> Valid() && Keeps(p, hashTable, D, now, k, len) && |now| + nErased == |D|
      ensures !found && nErased == 0 ==> NonePure(p, hashTable)
    {
      hide Insert, IsPure, Keeps;
      nErased, now := 0, D;
      var i := 0;
      while i < |hashTable|
        invariant Valid() && 0 <= i <= |hashTable|
        invariant Keeps(p, hashTable, D, now, k, len) && |now| + nErased == |D|
        invariant nErased == 0 ==> forall j | 0 <= j < i :: !IsPure(p, hashTable[j])
        decreases |hashTable| - i
      {
        var entry := hashTable[i];
        if IsPure(p, entry) {
          KeepsStep(p, hashTable, D, now, k, len, i);
          if entry.keySum == k {
            return true, entry.valueSum, nErased, now;
          }
          now := now - {entry.keySum};
          Update(-entry.count, entry.keySum, entry.valueSum);
          nErased := nErased + 1;
        }
        i := i + 1;
      }
      return false, [], nErased, now;
    }

    /** CIblt::get, on a table that holds `D`; `left` is what peeling could not take off. */
    method Get(k: Key, ghost D: Dataset, ghost len: nat) returns (ok: bool, result: Value, ghost left: Dataset)
      requires Valid() && Encodes(p, hashTable, D, len) && Sound(p, D, len)
      ensures ok ==> result == if k in D then D[k].value else []
      ensures !ok && p.BucketsPerHash() > 0 ==>
                left != map[] && IsPart(left, D) && (k in D ==> k in left) && Stuck(p, left)
      decreases |D|
    {
      hide IsPure, Encodes, Sound, Keeps, Stuck;
      if p.BucketsPerHash() == 0 {
        return false, [], D;
      }
      var decided, value := Probe(k, D, len);
      if decided {
        return true, value, D;
      }
      KeepsStart(p, hashTable, D, k, len);
      var peeled := new InvertibleTable.Copy(this);
      var found, v, nErased, now := peeled.PeelFor(k, D, len);
      if found {
        return true, v, D;
      }
      KeepsMeans(p, peeled.hashTable, D, now, k, len);
      if nErased > 0 {
        ok, result, left := peeled.Get(k, now, len);
      } else {
        NoPureIsStuck(p, peeled.hashTable, D, len);
        return false, [], D;
      }
    }
  }

  /** The table holds a part of `D`, with nothing about `k` lost. */
  ghost predicate Keeps(p: Shape, t: Table, D: Dataset, now: Dataset, k: Key, len: nat) {
    Encodes(p, t, now, len) && Sound(p, D, len) && IsPart(now, D) && (k in D ==> k in now)
  }

  lemma KeepsStart(p: Shape, t: Table, D: Dataset, k: Key, len: nat)
    requires Encodes(p, t, D, len) && Sound(p, D, len)
    ensures IsPart(D, D) && Keeps(p, t, D, D, k, len)
  {
    hide Encodes, Sound;
  }

  lemma KeepsMeans(p: Shape, t: Table, D: Dataset, now: Dataset, k: Key, len: nat)
    requires Keeps(p, t, D, now, k, len)
    ensures Encodes(p, t, now, len) && Sound(p, now, len) && IsPart(now, D) && (k in D ==> k in now)
    ensures |now| == |D| ==> now == D
  {
    hide Encodes, Sound;
    SoundPart(p, now, D, len);
    if |now| == |D| {
      SameSize(now.Keys, D.Keys);
    }
  }

  lemma SameSize<T>(s: set<T>, t: set<T>)
    requires s <= t && |s| == |t|
    ensures s == t
  {
    assert |t - s| == 0;
  }

  lemma KeepsStep(p: Shape, t: Table, D: Dataset, now: Dataset, k: Key, len: nat, i: nat)
    requires Keeps(p, t, D, now, k, len) && i < |t| && IsPure(p, t[i])
    ensures var c := t[i];
            && (c.keySum == k ==> k in D && D[k].value == c.valueSum)
            && (c.keySum != k ==> Keeps(p, Insert(p, t, -c.count, c.keySum, c.valueSum), D, now - {c.keySum}, k, len))
            && |now - {c.keySum}| == |now| - 1
  {
    hide Encodes, Sound, Insert, Hits, IsPure;
    SoundPart(p, now, D, len);
    PureIsEntry(p, t, now, len, i);
    RemoveEncodes(p, t, now, t[i].keySum, len);
    assert (now - {t[i].keySum}).Keys == now.Keys - {t[i].keySum};
  }

  /** Inserts the entries of a set one by one, in any order. */
  method Build(p: Shape, A: map<Key, Value>, ghost len: nat) returns (t: InvertibleTable)
    requires SameLength(A, len)
    ensures fresh(t) && t.p == p && t.Valid() && Encodes(p, t.hashTable, Positive(A), len)
  {
    hide Encodes, Sound, Insert, EmptyTable;
    t := new InvertibleTable(p);
    EmptyEncodes(p, len);
    PositiveSound(p, A, len);
    var todo := A.Keys;
    assert Inserted(A, todo) == map[];
    while todo != {}
      invariant t.p == p && t.Valid() && todo <= A.Keys && Encodes(p, t.hashTable, Inserted(A, todo), len)
      decreases todo
    {
      var k :| k in todo;
      InsertedStep(A, todo, k);
      SoundPart(p, Inserted(A, todo - {k}), Positive(A), len);
      InsertEncodes(p, t.hashTable, Inserted(A, todo), k, Entry(1, A[k]), len);
      t.Update(1, k, A[k]);
      todo := todo - {k};
    }
    assert Inserted(A, {}) == Positive(A);
  }

  lemma DifferenceSize(A: map<Key, Value>, B: map<Key, Value>)
    ensures |Difference(Positive(A), Positive(B))| <= |A| + |B|
  {
    var d := Difference(Positive(A), Positive(B));
    assert d.Keys <= A.Keys + B.Keys;
    SubsetSize(d.Keys, A.Keys + B.Keys);
  }

  /**
   Two parties' tables, subtracted and peeled: a full listing is exactly the two differences, and
   the listing is full exactly if no differing entries block each other.
   */
  method Reconcile(p: Shape, A: map<Key, Value>, B: map<Key, Value>, cap: nat, ghost len: nat)
    returns (ok: bool, positive: set<(Key, Value)>, negative: set<(Key, Value)>)
    requires SameLength(A, len) && SameLength(B, len) && forall k | k in A && k in B :: A[k] == B[k]
    requires Sound(p, Difference(Positive(A), Positive(B)), len)
    ensures positive <= Only(A, B) && negative <= Only(B, A)
    ensures ok ==> positive == Only(A, B) && negative == Only(B, A)
    ensures p.BucketsPerHash() > 0 && |A| + |B| < cap ==> (ok <==> !HasCore(p, Difference(Positive(A), Positive(B))))
  {
    hide Encodes, Sound, SubTable, Balanced, PeeledWith, Listed, Only, Difference, HasCore;
    var a := Build(p, A, len);
    var b := Build(p, B, len);
    var d := a.Minus(b);
    SubtractEncodes(p, a.hashTable, b.hashTable, Positive(A), Positive(B), len);
    ListedDifference(A, B);
    DifferenceSize(A, B);
    ghost var log, rest;
    ok, positive, negative, log, rest := d.ListEntries(cap, Difference(Positive(A), Positive(B)), len);
  }
}
