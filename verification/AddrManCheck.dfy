/** Check_, the executable consistency check, and why it never fails on a reachable manager. */
module AddrManCheck {
  import opened AddrMan
  import opened Sequences

  ghost predicate Passed(b: int, p: int, n: int, i: int) { b < n || (b == n && p < i) }

  // ----- first loop: the entries -----

  function RefCounts(m: Infos): map<int, int> { map id | id in m && !m[id].fInTried :: m[id].nRefCount }

  /** What looking an address up with the subscript operator gives: 0 if it is not there. */
  function AddrEntry(mapAddr: map<NetAddr, int>, a: NetAddr): int { if a in mapAddr then mapAddr[a] else 0 }

  /** And what it leaves behind. */
  function Touched(mapAddr: map<NetAddr, int>, a: NetAddr): map<NetAddr, int> {
    if a in mapAddr then mapAddr else mapAddr[a := 0]
  }

  /** The index by address after a check without an error: a missing entry for id 0 is filled in. */
  function Filled(s: State): map<NetAddr, int> {
    if 0 in s.mapInfo then Touched(s.mapAddr, s.mapInfo[0].service.addr) else s.mapAddr
  }

  /** What is wrong with one entry, or 0. */
  function EntryError(s: State, id: int): int
    requires id in s.mapInfo
  {
    var info := s.mapInfo[id];
    if info.fInTried && info.nLastSuccess == 0 then -1
    else if info.fInTried && info.nRefCount != 0 then -2
    else if !info.fInTried && (info.nRefCount < 0 || info.nRefCount > NEW_BUCKETS_PER_ADDRESS) then -3
    else if !info.fInTried && info.nRefCount == 0 then -4
    else if AddrEntry(s.mapAddr, info.service.addr) != id then -5
    else if info.nRandomPos < 0 || info.nRandomPos >= |s.vRandom| || s.vRandom[info.nRandomPos] != id then -14
    else if info.nLastTry < 0 then -6
    else if info.nLastSuccess < 0 then -8
    else 0
  }

  lemma EntryIsFine(e: Env, s: State, id: int)
    requires Inv(e, s) && id in s.mapInfo
    ensures EntryError(s, id) == 0
  {
    assert Referenced(e, s.vvNew, id, s.mapInfo[id], false) && Seated(e, s.vvTried, id, s.mapInfo[id], false);
    assert HasPlace(s.mapInfo[id].nRandomPos, s.vRandom, id);
  }

  /** `now` has nothing that `was` lacks but zeros. */
  ghost predicate OnlyZeros(was: map<NetAddr, int>, now: map<NetAddr, int>) {
    (forall a | a in was :: a in now && now[a] == was[a]) && (forall a | a in now && a !in was :: now[a] == 0)
  }

  lemma SameEntryError(s: State, now: map<NetAddr, int>, id: int)
    requires OnlyZeros(s.mapAddr, now) && id in s.mapInfo
    ensures EntryError(s.(mapAddr := now), id) == EntryError(s, id)
  {
  }

  /** The first loop, in id order; looking an address up may enter it. */
  method CheckEntries(s: State)
    returns (err: int, setTried: set<int>, mapNew: map<int, int>, mapAddr: map<NetAddr, int>)
    ensures err == 0 <==> forall id | id in s.mapInfo :: EntryError(s, id) == 0
    ensures err == 0 ==> setTried == TriedIds(s.mapInfo) && mapNew == RefCounts(s.mapInfo) && mapAddr == Filled(s)
    ensures OnlyZeros(s.mapAddr, mapAddr)
  {
    hide EntryError;
    err, setTried, mapNew, mapAddr := 0, {}, map[], s.mapAddr;
    var todo := s.mapInfo.Keys;
    ghost var done: Infos := map[];
    while todo != {}
      invariant todo <= s.mapInfo.Keys && done == map id | id in s.mapInfo && id !in todo :: s.mapInfo[id]
      invariant forall id | id in done :: EntryError(s, id) == 0
      invariant setTried == TriedIds(done) && mapNew == RefCounts(done)
      invariant OnlyZeros(s.mapAddr, mapAddr)
      invariant mapAddr == if 0 in done then Touched(s.mapAddr, s.mapInfo[0].service.addr) else s.mapAddr
      decreases todo
    {
      var id := Smallest(todo);
      var info := s.mapInfo[id];
      err := EntryError(s.(mapAddr := mapAddr), id);
      SameEntryError(s, mapAddr, id);
      if err == 0 || err <= -5 {
        mapAddr := Touched(mapAddr, info.service.addr);
      }
      if err != 0 {
        return;
      }
      FineEntry(s, id);
      if info.fInTried {
        setTried := setTried + {id};
      } else {
        mapNew := mapNew[id := info.nRefCount];
      }
      todo, done := todo - {id}, done[id := info];
    }
    assert done == s.mapInfo;
  }

  /** An entry without an error is in the index, unless it is the one with id 0. */
  lemma FineEntry(s: State, id: int)
    requires id in s.mapInfo && EntryError(s, id) == 0
    ensures s.mapInfo[id].service.addr in s.mapAddr || id == 0
  {
  }

  // ----- second loop: the tried slots -----

  ghost predicate TriedFits(e: Env, s: State, tried: set<int>, b: int, p: int)
    requires Tables(s) && (forall id | id in tried :: id in s.mapInfo)
    requires 0 <= b < TRIED_BUCKET_COUNT && 0 <= p < BUCKET_SIZE
  {
    var id := s.vvTried[b][p];
    id == -1 ||
    (id in tried && b == TriedBucket(e, s.mapInfo[id].service) && p == TriedPos(e, s.mapInfo[id].service))
  }

  ghost predicate HasTriedSlot(e: Env, s: State, id: int)
    requires Tables(s) && id in s.mapInfo
  {
    id != -1 && TriedSlot(e, s.vvTried, s.mapInfo[id].service) == id
  }

  /** The ids that the loop has not met when it comes to slot `i` of bucket `n`. */
  ghost function Unmet(e: Env, s: State, tried: set<int>, n: int, i: int): set<int>
    requires Tables(s) && (forall id | id in tried :: id in s.mapInfo)
  {
    set id | id in tried &&
      !(&& Passed(TriedBucket(e, s.mapInfo[id].service), TriedPos(e, s.mapInfo[id].service), n, i)
        && HasTriedSlot(e, s, id))
  }

  lemma TriedStep(e: Env, s: State, tried: set<int>, n: nat, i: nat)
    requires Tables(s) && (forall id | id in tried :: id in s.mapInfo) && n < TRIED_BUCKET_COUNT && i < BUCKET_SIZE
    ensures var id := s.vvTried[n][i];
            && (id != -1 && TriedFits(e, s, tried, n, i) ==> id in Unmet(e, s, tried, n, i))
            && (TriedFits(e, s, tried, n, i) ==>
                  Unmet(e, s, tried, n, i + 1) == Unmet(e, s, tried, n, i) - if id == -1 then {} else {id})
  {
  }

  lemma TriedEnds(e: Env, s: State, tried: set<int>, n: nat)
    requires Tables(s) && (forall id | id in tried :: id in s.mapInfo)
    ensures Unmet(e, s, tried, 0, 0) == tried
    ensures Unmet(e, s, tried, n, BUCKET_SIZE) == Unmet(e, s, tried, n + 1, 0)
    ensures Unmet(e, s, tried, TRIED_BUCKET_COUNT, 0) == {} <==> forall id | id in tried :: HasTriedSlot(e, s, id)
  {
    var left := Unmet(e, s, tried, TRIED_BUCKET_COUNT, 0);
    assert forall id | id in tried :: id in left <==> !HasTriedSlot(e, s, id);
    if left == {} {
      assert forall id | id in tried :: id !in left;
    }
  }

  /** The tried table and the set of tried ids say the same. */
  ghost predicate TriedTableFits(e: Env, s: State, tried: set<int>)
    requires Tables(s) && (forall id | id in tried :: id in s.mapInfo)
  {
    && (forall b, p | 0 <= b < TRIED_BUCKET_COUNT && 0 <= p < BUCKET_SIZE :: TriedFits(e, s, tried, b, p))
    && (forall id | id in tried :: HasTriedSlot(e, s, id))
  }

  method CheckTried(e: Env, s: State, tried: set<int>) returns (err: int, setTried: set<int>)
    requires Tables(s) && forall id | id in tried :: id in s.mapInfo
    ensures err == 0 && setTried == {} <==> TriedTableFits(e, s, tried)
  {
    hide Unmet, HasTriedSlot;
    err, setTried := 0, tried;
    TriedEnds(e, s, tried, 0);
    for n := 0 to TRIED_BUCKET_COUNT
      invariant setTried <= tried && err == 0 && setTried == Unmet(e, s, tried, n, 0)
      invariant forall b, p | 0 <= b < n && 0 <= p < BUCKET_SIZE :: TriedFits(e, s, tried, b, p)
    {
      TriedEnds(e, s, tried, n);
      for i := 0 to BUCKET_SIZE
        invariant setTried <= tried && err == 0 && setTried == Unmet(e, s, tried, n, i)
        invariant forall p | 0 <= p < i :: TriedFits(e, s, tried, n, p)
      {
        TriedStep(e, s, tried, n, i);
        var id := s.vvTried[n][i];
        if id != -1 {
          if id !in setTried {
            assert !TriedFits(e, s, tried, n, i);
            return -11, setTried;
          }
          if TriedBucket(e, s.mapInfo[id].service) != n {
            assert !TriedFits(e, s, tried, n, i);
            return -17, setTried;
          }
          if e.triedPosHash(s.mapInfo[id].service, n) % BUCKET_SIZE != i {
            assert !TriedFits(e, s, tried, n, i);
            return -18, setTried;
          }
          setTried := setTried - {id};
        }
      }
    }
    TriedEnds(e, s, tried, TRIED_BUCKET_COUNT);
  }

  // ----- third loop: the new slots -----

  ghost predicate NewFits(e: Env, s: State, counts: map<int, int>, b: int, p: int)
    requires Tables(s) && (forall id | id in counts :: id in s.mapInfo)
    requires 0 <= b < NEW_BUCKET_COUNT && 0 <= p < BUCKET_SIZE
  {
    var id := s.vvNew[b][p];
    id == -1 || (id in counts && p == NewPos(e, s.mapInfo[id].service, b))
  }

  /** The buckets in which the loop has met an id. */
  ghost function Met(e: Env, s: State, id: int, n: int, i: int): set<int>
    requires Tables(s) && id in s.mapInfo
  {
    if id == -1 then {}
    else set b | b in Held(e, s.vvNew, s.mapInfo[id].service, id)
                 && Passed(b, NewPos(e, s.mapInfo[id].service, b), n, i)
  }

  /** What is left of the counts. */
  ghost predicate IsLeft(e: Env, s: State, counts: map<int, int>, left: map<int, int>, n: int, i: int)
    requires Tables(s) && (forall id | id in counts :: id in s.mapInfo)
  {
    && left.Keys <= counts.Keys
    && forall id | id in counts :: LeftOf(counts[id] - |Met(e, s, id, n, i)|, left, id)
  }

  ghost predicate LeftOf(k: int, left: map<int, int>, id: int) {
    k >= 0 && if k == 0 then id !in left else id in left && left[id] == k
  }

  lemma MetStep(e: Env, s: State, id: int, n: nat, i: nat)
    requires Tables(s) && id in s.mapInfo && n < NEW_BUCKET_COUNT && i < BUCKET_SIZE
    ensures var here := id != -1 && s.vvNew[n][i] == id && i == NewPos(e, s.mapInfo[id].service, n);
            && (here ==> n !in Met(e, s, id, n, i))
            && Met(e, s, id, n, i + 1) == Met(e, s, id, n, i) + (if here then {n} else {})
            && (here ==> n in Held(e, s.vvNew, s.mapInfo[id].service, id))
  {
    hide NewPos;
  }

  lemma LeftStep(e: Env, s: State, counts: map<int, int>, left: map<int, int>, n: nat, i: nat, k: int)
    requires Tables(s) && (forall id | id in counts :: id in s.mapInfo) && n < NEW_BUCKET_COUNT && i < BUCKET_SIZE
    requires IsLeft(e, s, counts, left, n, i) && NewFits(e, s, counts, n, i) && k in counts
    requires s.vvNew[n][i] == -1 || s.vvNew[n][i] in left
    ensures LeftOf(counts[k] - |Met(e, s, k, n, i + 1)|,
                   if s.vvNew[n][i] == -1 then left else Decremented(left, s.vvNew[n][i]), k)
  {
    hide Held, Met, NewPos;
    MetStep(e, s, k, n, i);
    assert LeftOf(counts[k] - |Met(e, s, k, n, i)|, left, k);
  }

  /** A slot that fits takes one off its entry's count; one beyond the count is one too many. */
  lemma NewStep(e: Env, s: State, counts: map<int, int>, left: map<int, int>, n: nat, i: nat)
    requires Tables(s) && (forall id | id in counts :: id in s.mapInfo) && n < NEW_BUCKET_COUNT && i < BUCKET_SIZE
    requires IsLeft(e, s, counts, left, n, i) && NewFits(e, s, counts, n, i)
    ensures var id := s.vvNew[n][i];
            if id == -1 then IsLeft(e, s, counts, left, n, i + 1)
            else if id !in left then |Held(e, s.vvNew, s.mapInfo[id].service, id)| > counts[id]
            else IsLeft(e, s, counts, Decremented(left, id), n, i + 1)
  {
    var id: int := s.vvNew[n][i];
    hide Held, Met, NewPos;
    if id == -1 || id in left {
      var next := if id == -1 then left else Decremented(left, id);
      DecrementedKeys(left, id);
      hide Decremented;
      forall k: int | k in counts ensures LeftOf(counts[k] - |Met(e, s, k, n, i + 1)|, next, k) {
        LeftStep(e, s, counts, left, n, i, k);
      }
    } else {
      assert LeftOf(counts[id] - |Met(e, s, id, n, i)|, left, id);
      OneTooMany(e, s, id, n, i);
    }
  }

  lemma OneTooMany(e: Env, s: State, id: int, n: nat, i: nat)
    requires Tables(s) && id in s.mapInfo && id != -1 && n < NEW_BUCKET_COUNT && i < BUCKET_SIZE
    requires s.vvNew[n][i] == id && i == NewPos(e, s.mapInfo[id].service, n)
    ensures |Held(e, s.vvNew, s.mapInfo[id].service, id)| > |Met(e, s, id, n, i)|
  {
    MetStep(e, s, id, n, i);
    SubsetSize(Met(e, s, id, n, i + 1), Held(e, s.vvNew, s.mapInfo[id].service, id));
  }

  function Decremented<K>(m: map<K, int>, id: K): map<K, int>
    requires id in m
  {
    if m[id] == 1 then m - {id} else m[id := m[id] - 1]
  }

  lemma DecrementedKeys<K>(m: map<K, int>, id: K)
    ensures id in m ==> Decremented(m, id).Keys <= m.Keys
  {
  }

  /** The new table holds every new entry as often as its reference count says. */
  ghost predicate NewTableFits(e: Env, s: State, counts: map<int, int>)
    requires Tables(s) && (forall id | id in counts :: id in s.mapInfo)
  {
    && (forall b, p | 0 <= b < NEW_BUCKET_COUNT && 0 <= p < BUCKET_SIZE :: NewFits(e, s, counts, b, p))
    && (forall id | id in counts :: id != -1 && |Held(e, s.vvNew, s.mapInfo[id].service, id)| == counts[id])
  }

  lemma NewStarts(e: Env, s: State, counts: map<int, int>)
    requires Tables(s) && (forall id | id in counts :: id in s.mapInfo && counts[id] > 0)
    ensures IsLeft(e, s, counts, counts, 0, 0)
  {
    forall id | id in counts ensures LeftOf(counts[id] - |Met(e, s, id, 0, 0)|, counts, id) {
      assert Met(e, s, id, 0, 0) == {};
    }
  }

  lemma NewNextBucket(e: Env, s: State, counts: map<int, int>, left: map<int, int>, n: nat)
    requires Tables(s) && (forall id | id in counts :: id in s.mapInfo) && IsLeft(e, s, counts, left, n, BUCKET_SIZE)
    ensures IsLeft(e, s, counts, left, n + 1, 0)
  {
    forall id | id in counts ensures LeftOf(counts[id] - |Met(e, s, id, n + 1, 0)|, left, id) {
      assert Met(e, s, id, n + 1, 0) == Met(e, s, id, n, BUCKET_SIZE);
      assert LeftOf(counts[id] - |Met(e, s, id, n, BUCKET_SIZE)|, left, id);
    }
  }

  lemma NewEnds(e: Env, s: State, counts: map<int, int>, left: map<int, int>)
    requires Tables(s) && (forall id | id in counts :: id in s.mapInfo && counts[id] > 0)
    requires IsLeft(e, s, counts, left, NEW_BUCKET_COUNT, 0)
    ensures left == map[] <==>
            forall id | id in counts :: id != -1 && |Held(e, s.vvNew, s.mapInfo[id].service, id)| == counts[id]
  {
    forall id | id in counts
      ensures id !in left <==> id != -1 && |Held(e, s.vvNew, s.mapInfo[id].service, id)| == counts[id]
    {
      assert LeftOf(counts[id] - |Met(e, s, id, NEW_BUCKET_COUNT, 0)|, left, id);
      if id != -1 {
        assert Met(e, s, id, NEW_BUCKET_COUNT, 0) == Held(e, s.vvNew, s.mapInfo[id].service, id);
      }
    }
    NoKeys(left, counts);
  }

  lemma NoKeys<K, V>(left: map<K, V>, counts: map<K, V>)
    requires left.Keys <= counts.Keys
    ensures left == map[] <==> forall k | k in counts :: k !in left
  {
    if forall k | k in counts :: k !in left {
      assert left.Keys == {};
    }
  }

  method CheckNew(e: Env, s: State, counts: map<int, int>) returns (err: int, mapNew: map<int, int>)
    requires Tables(s) && forall id | id in counts :: id in s.mapInfo && counts[id] > 0
    ensures err == 0 && mapNew == map[] <==> NewTableFits(e, s, counts)
  {
    hide IsLeft, Held, NewPos;
    err, mapNew := 0, counts;
    NewStarts(e, s, counts);
    for n := 0 to NEW_BUCKET_COUNT
      invariant mapNew.Keys <= counts.Keys && err == 0 && IsLeft(e, s, counts, mapNew, n, 0)
      invariant forall b, p | 0 <= b < n && 0 <= p < BUCKET_SIZE :: NewFits(e, s, counts, b, p)
    {
      for i := 0 to BUCKET_SIZE
        invariant mapNew.Keys <= counts.Keys && err == 0 && IsLeft(e, s, counts, mapNew, n, i)
        invariant forall p | 0 <= p < i :: NewFits(e, s, counts, n, p)
      {
        if NewFits(e, s, counts, n, i) {
          NewStep(e, s, counts, mapNew, n, i);
        }
        var id: int := s.vvNew[n][i];
        if id != -1 {
          if id !in mapNew {
            return -12, mapNew;
          }
          if NewPos(e, s.mapInfo[id].service, n) != i {
            return -19, mapNew;
          }
          DecrementedKeys(mapNew, id);
          mapNew := Decremented(mapNew, id);
        }
      }
      NewNextBucket(e, s, counts, mapNew, n);
    }
    NewEnds(e, s, counts, mapNew);
  }

  // ----- the whole check -----

  /** What Check_ asks for. */
  ghost predicate Consistent(e: Env, s: State)
    requires Tables(s)
  {
    && |s.vRandom| == s.nTried + s.nNew
    && (forall id | id in s.mapInfo :: EntryError(s, id) == 0)
    && Counted(s.mapInfo, s.nTried, s.nNew)
    && TriedTableFits(e, s, TriedIds(s.mapInfo))
    && NewTableFits(e, s, RefCounts(s.mapInfo))
  }

  /**
   Check_ returns zero exactly on a consistent manager whose secret key is not null. It leaves the
   manager as it is, except that the address of entry 0 is indexed if it was not.
   */
  method Check(e: Env, s: State, keyIsNull: bool) returns (err: int, mapAddr: map<NetAddr, int>)
    requires Tables(s)
    ensures err == 0 <==> Consistent(e, s) && !keyIsNull
    ensures OnlyZeros(s.mapAddr, mapAddr) && (err == 0 ==> mapAddr == Filled(s))
  {
    hide TriedTableFits, NewTableFits;
    assert RefCounts(s.mapInfo).Keys == NewIds(s.mapInfo);
    mapAddr := s.mapAddr;
    if |s.vRandom| != s.nTried + s.nNew {
      return -7, mapAddr;
    }
    var setTried, mapNew;
    err, setTried, mapNew, mapAddr := CheckEntries(s);
    if err != 0 {
      return;
    }
    if |setTried| != s.nTried {
      return -9, mapAddr;
    }
    if |mapNew| != s.nNew {
      return -10, mapAddr;
    }
    err, setTried := CheckTried(e, s, setTried);
    if err != 0 {
      return;
    }
    err, mapNew := CheckNew(e, s, mapNew);
    if err != 0 {
      return;
    }
    err := if |setTried| > 0 then -13 else if |mapNew| > 0 then -15 else if keyIsNull then -16 else 0;
  }

  /** The invariant is stronger than the check, which then changes nothing. */
  lemma InvConsistent(e: Env, s: State)
    requires Inv(e, s)
    ensures Tables(s) && Consistent(e, s) && Filled(s) == s.mapAddr
  {
    SizeIsSum(e, s);
    forall id | id in s.mapInfo ensures EntryError(s, id) == 0 { EntryIsFine(e, s, id); }
    InvTried(e, s);
    InvNew(e, s);
    hide TriedTableFits, NewTableFits, Indexed, Addressed, NewSlots, TriedSlots, AllReferenced, AllSeated;
  }

  lemma InvTried(e: Env, s: State)
    requires Inv(e, s)
    ensures TriedTableFits(e, s, TriedIds(s.mapInfo))
  {
    hide Indexed, Addressed, NewSlots, AllReferenced;
    var tried := TriedIds(s.mapInfo);
    forall b, p | 0 <= b < TRIED_BUCKET_COUNT && 0 <= p < BUCKET_SIZE ensures TriedFits(e, s, tried, b, p) {
      assert TriedSlotOk(e, s.mapInfo, b, p, s.vvTried[b][p]);
    }
    forall id | id in tried ensures HasTriedSlot(e, s, id) {
      assert Seated(e, s.vvTried, id, s.mapInfo[id], false);
    }
  }

  lemma InvNew(e: Env, s: State)
    requires Inv(e, s)
    ensures NewTableFits(e, s, RefCounts(s.mapInfo))
  {
    hide Indexed, Addressed, TriedSlots, AllSeated, Held;
    var counts := RefCounts(s.mapInfo);
    forall b, p | 0 <= b < NEW_BUCKET_COUNT && 0 <= p < BUCKET_SIZE ensures NewFits(e, s, counts, b, p) {
      assert NewSlotOk(e, s.mapInfo, b, p, s.vvNew[b][p]);
    }
    forall id | id in counts ensures id != -1 && |Held(e, s.vvNew, s.mapInfo[id].service, id)| == counts[id] {
      assert Referenced(e, s.vvNew, id, s.mapInfo[id], false);
    }
  }

  /** No run from a new manager ever makes Check_ report an error. */
  lemma RunPassesCheck(e: Env, ss: seq<State>, ops: seq<Op>, n: nat)
    requires IsRun(e, ss, ops) && n < |ss|
    ensures Tables(ss[n]) && Consistent(e, ss[n])
    ensures forall id | id in ss[n].collisions && id in ss[n].mapInfo ::
              TriedSlot(e, ss[n].vvTried, ss[n].mapInfo[id].service) in ss[n].mapInfo
    ensures |ss[n].collisions| <= SET_TRIED_COLLISION_SIZE
  {
    RunKeepsInv(e, ss, ops, n);
    hide InvExcept, IsRun, Consistent;
    var s := ss[n];
    InvConsistent(e, s);
    InvHas(e, s, {});
    forall id | id in s.collisions && id in s.mapInfo
      ensures TriedSlot(e, s.vvTried, s.mapInfo[id].service) in s.mapInfo
    {
      var a := s.mapInfo[id].service;
      TriedOccupant(e, s, TriedBucket(e, a), TriedPos(e, a), {});
    }
  }
}
