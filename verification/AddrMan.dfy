/**
 The stochastic address manager as a value: two bucket tables, two maps, the random-order vector,
 the counters and the set of pending tried collisions, with one function per operation.
 Hashes and address classes are arbitrary functions of the address (the key is fixed), random
 draws and times are arguments.
 */
module AddrMan {
  import opened Numbers
  import opened Sequences

  const TRIED_BUCKET_COUNT := 256
  const NEW_BUCKET_COUNT := 1024
  const BUCKET_SIZE := 64
  const NEW_BUCKETS_PER_ADDRESS := 8
  const HORIZON_DAYS := 30
  const RETRIES := 3
  const MAX_FAILURES := 10
  const MIN_FAIL_DAYS := 7
  const REPLACEMENT_HOURS := 4
  const GETADDR_MAX_PCT := 23
  const GETADDR_MAX := 2500
  const SET_TRIED_COLLISION_SIZE := 10

  /** CNetAddr: an address without port; CService adds the port. */
  datatype NetAddr = NetAddr(ip: nat)
  datatype Service = Service(addr: NetAddr, port: nat)
  datatype Address = Address(service: Service, nTime: int, nServices: bv64)

  /** What the outside decides: the hashes under the secret key, and the classes of addresses. */
  datatype Env = Env(
    triedHash: Service -> nat,
    newHash: (Service, NetAddr) -> nat,
    newPosHash: (Service, int) -> nat,
    triedPosHash: (Service, int) -> nat,
    isRoutable: NetAddr -> bool,
    isValid: NetAddr -> bool)

  datatype Info = Info(
    service: Service,
    nTime: int,
    nServices: bv64,
    source: NetAddr,
    nLastTry: int,
    nLastCountAttempt: int,
    nLastSuccess: int,
    nAttempts: int,
    nRefCount: int,
    fInTried: bool,
    nRandomPos: int)
  {
    predicate IsTerrible(now: int) {
      if nLastTry != 0 && nLastTry >= now - 60 then false
      else
        || nTime > now + 10 * 60
        || nTime == 0
        || now - nTime > HORIZON_DAYS * 24 * 60 * 60
        || (nLastSuccess == 0 && nAttempts >= RETRIES)
        || (now - nLastSuccess > MIN_FAIL_DAYS * 24 * 60 * 60 && nAttempts >= MAX_FAILURES)
    }
  }

  function TriedBucket(e: Env, a: Service): nat { e.triedHash(a) % TRIED_BUCKET_COUNT }
  function NewBucket(e: Env, a: Service, source: NetAddr): nat { e.newHash(a, source) % NEW_BUCKET_COUNT }
  function NewPos(e: Env, a: Service, bucket: int): nat { e.newPosHash(a, bucket) % BUCKET_SIZE }
  function TriedPos(e: Env, a: Service): nat { e.triedPosHash(a, TriedBucket(e, a)) % BUCKET_SIZE }

  type Table = seq<seq<int>>

  predicate IsTable(t: Table, buckets: nat) {
    |t| == buckets && forall b | 0 <= b < buckets :: |t[b]| == BUCKET_SIZE
  }

  function SetSlot(t: Table, b: nat, p: nat, id: int): Table
    requires b < |t| && p < |t[b]|
  {
    t[b := t[b][p := id]]
  }

  datatype State = State(
    nIdCount: int,
    mapInfo: map<int, Info>,
    mapAddr: map<NetAddr, int>,
    vRandom: seq<int>,
    nTried: int,
    vvTried: Table,
    nNew: int,
    vvNew: Table,
    nLastGood: int,
    collisions: set<int>)

  function EmptyTable(buckets: nat): Table { seq(buckets, _ => seq(BUCKET_SIZE, _ => -1)) }

  function Init(): State {
    State(0, map[], map[], [], 0, EmptyTable(TRIED_BUCKET_COUNT), 0, EmptyTable(NEW_BUCKET_COUNT), 1, {})
  }

  // ----- the invariant -----

  /** The new buckets in which an address holds its slot. */
  function Held(e: Env, vvNew: Table, a: Service, id: int): set<int>
    requires IsTable(vvNew, NEW_BUCKET_COUNT)
  {
    set b | 0 <= b < NEW_BUCKET_COUNT && vvNew[b][NewPos(e, a, b)] == id
  }

  lemma HeldIff(e: Env, vvNew: Table, a: Service, id: int, b: int)
    requires IsTable(vvNew, NEW_BUCKET_COUNT) && 0 <= b < NEW_BUCKET_COUNT
    ensures b in Held(e, vvNew, a, id) <==> vvNew[b][NewPos(e, a, b)] == id
  {
  }

  predicate Tables(s: State) {
    IsTable(s.vvTried, TRIED_BUCKET_COUNT) && IsTable(s.vvNew, NEW_BUCKET_COUNT)
  }

  type Infos = map<int, Info>

  predicate HasPlace(pos: int, vRandom: seq<int>, id: int) { 0 <= pos < |vRandom| && vRandom[pos] == id }

  /** vRandom lists every id once, and each entry knows its place in it. */
  ghost predicate Indexed(m: Infos, vRandom: seq<int>) {
    && (forall id | id in m :: HasPlace(m[id].nRandomPos, vRandom, id))
    && (forall i | 0 <= i < |vRandom| :: vRandom[i] in m && m[vRandom[i]].nRandomPos == i)
  }

  /** mapAddr finds every entry by its address, and nothing else. */
  ghost predicate Addressed(e: Env, m: Infos, mapAddr: map<NetAddr, int>) {
    && (forall id | id in m ::
          && m[id].service.addr in mapAddr
          && mapAddr[m[id].service.addr] == id
          && e.isRoutable(m[id].service.addr))
    && (forall a | a in mapAddr :: mapAddr[a] in m && m[mapAddr[a]].service.addr == a)
  }

  /** A slot of the new table holds nothing, or an entry not yet tried, at its own position. */
  ghost predicate NewSlotOk(e: Env, m: Infos, b: int, p: int, id: int) {
    id == -1 || (id in m && !m[id].fInTried && p == NewPos(e, m[id].service, b))
  }

  ghost predicate TriedSlotOk(e: Env, m: Infos, b: int, p: int, id: int) {
    id == -1 ||
    (id in m && m[id].fInTried && b == TriedBucket(e, m[id].service) && p == TriedPos(e, m[id].service))
  }

  ghost predicate NewSlots(e: Env, m: Infos, vvNew: Table)
    requires IsTable(vvNew, NEW_BUCKET_COUNT)
  {
    forall b, p | 0 <= b < NEW_BUCKET_COUNT && 0 <= p < BUCKET_SIZE :: NewSlotOk(e, m, b, p, vvNew[b][p])
  }

  ghost predicate TriedSlots(e: Env, m: Infos, vvTried: Table)
    requires IsTable(vvTried, TRIED_BUCKET_COUNT)
  {
    forall b, p | 0 <= b < TRIED_BUCKET_COUNT && 0 <= p < BUCKET_SIZE :: TriedSlotOk(e, m, b, p, vvTried[b][p])
  }

  function TriedSlot(e: Env, vvTried: Table, a: Service): int
    requires IsTable(vvTried, TRIED_BUCKET_COUNT)
  {
    vvTried[TriedBucket(e, a)][TriedPos(e, a)]
  }

  /** The reference count is the number of new slots held; a loose entry holds none. */
  ghost predicate Referenced(e: Env, vvNew: Table, id: int, info: Info, loose: bool)
    requires IsTable(vvNew, NEW_BUCKET_COUNT)
  {
    && info.nRefCount == |Held(e, vvNew, info.service, id)|
    && (if info.fInTried || loose then info.nRefCount == 0
        else 1 <= info.nRefCount <= NEW_BUCKETS_PER_ADDRESS)
  }

  /** A tried entry sits in its own tried slot and was reached once. */
  ghost predicate Seated(e: Env, vvTried: Table, id: int, info: Info, loose: bool)
    requires IsTable(vvTried, TRIED_BUCKET_COUNT)
  {
    && info.nLastTry >= 0 && info.nLastSuccess >= 0
    && (info.fInTried ==> !loose && info.nLastSuccess > 0 && TriedSlot(e, vvTried, info.service) == id)
  }

  ghost predicate AllReferenced(e: Env, m: Infos, vvNew: Table, loose: set<int>)
    requires IsTable(vvNew, NEW_BUCKET_COUNT)
  {
    forall id | id in m :: Referenced(e, vvNew, id, m[id], id in loose)
  }

  ghost predicate AllSeated(e: Env, m: Infos, vvTried: Table, loose: set<int>)
    requires IsTable(vvTried, TRIED_BUCKET_COUNT)
  {
    forall id | id in m :: Seated(e, vvTried, id, m[id], id in loose)
  }

  ghost function TriedIds(m: Infos): set<int> { set id | id in m && m[id].fInTried }
  ghost function NewIds(m: Infos): set<int> { set id | id in m && !m[id].fInTried }

  ghost predicate Counted(m: Infos, nTried: int, nNew: int) {
    nTried == |TriedIds(m)| && nNew == |NewIds(m)|
  }

  ghost predicate IdsBelow(m: Infos, nIdCount: int) { 0 <= nIdCount && forall id | id in m :: 0 <= id < nIdCount }

  /** Everything Check_ tests, except that the `loose` ids hold no slot at the moment. */
  ghost predicate InvExcept(e: Env, s: State, loose: set<int>) {
    && Tables(s)
    && Indexed(s.mapInfo, s.vRandom)
    && Addressed(e, s.mapInfo, s.mapAddr)
    && NewSlots(e, s.mapInfo, s.vvNew)
    && TriedSlots(e, s.mapInfo, s.vvTried)
    && AllReferenced(e, s.mapInfo, s.vvNew, loose)
    && AllSeated(e, s.mapInfo, s.vvTried, loose)
    && Counted(s.mapInfo, s.nTried, s.nNew)
    && IdsBelow(s.mapInfo, s.nIdCount)
    && loose <= s.mapInfo.Keys
  }

  /** A pending collision that still exists points at an occupied tried slot. */
  ghost predicate Collided(e: Env, s: State)
    requires Tables(s)
  {
    && |s.collisions| <= SET_TRIED_COLLISION_SIZE
    && forall id | id in s.collisions ::
         && 0 <= id < s.nIdCount
         && (id in s.mapInfo ==> TriedSlot(e, s.vvTried, s.mapInfo[id].service) != -1)
  }

  ghost predicate Inv(e: Env, s: State) { InvExcept(e, s, {}) && Collided(e, s) }

  lemma InvHas(e: Env, s: State, loose: set<int>)
    requires InvExcept(e, s, loose)
    ensures Tables(s) && Indexed(s.mapInfo, s.vRandom) && Addressed(e, s.mapInfo, s.mapAddr)
    ensures loose <= s.mapInfo.Keys && -1 !in s.mapInfo
    ensures forall id | id in loose :: !s.mapInfo[id].fInTried && s.mapInfo[id].nRefCount == 0
  {
    forall id | id in loose ensures !s.mapInfo[id].fInTried && s.mapInfo[id].nRefCount == 0 {
      assert Referenced(e, s.vvNew, id, s.mapInfo[id], true) && Seated(e, s.vvTried, id, s.mapInfo[id], true);
    }
  }

  // ----- changing one entry's bookkeeping -----

  /** The two agree on everything the tables and the counters look at. */
  predicate SameSeat(i: Info, j: Info) {
    i.service == j.service && i.fInTried == j.fInTried && i.nRefCount == j.nRefCount
  }

  lemma SlotsCarry(e: Env, m: Infos, m': Infos, vvNew: Table, vvTried: Table)
    requires IsTable(vvNew, NEW_BUCKET_COUNT) && IsTable(vvTried, TRIED_BUCKET_COUNT)
    requires NewSlots(e, m, vvNew) && TriedSlots(e, m, vvTried)
    requires forall id | id in m :: id in m' && SameSeat(m[id], m'[id])
    ensures NewSlots(e, m', vvNew) && TriedSlots(e, m', vvTried)
  {
    forall b, p | 0 <= b < NEW_BUCKET_COUNT && 0 <= p < BUCKET_SIZE
      ensures NewSlotOk(e, m', b, p, vvNew[b][p])
    {
      assert NewSlotOk(e, m, b, p, vvNew[b][p]);
    }
    forall b, p | 0 <= b < TRIED_BUCKET_COUNT && 0 <= p < BUCKET_SIZE
      ensures TriedSlotOk(e, m', b, p, vvTried[b][p])
    {
      assert TriedSlotOk(e, m, b, p, vvTried[b][p]);
    }
  }

  lemma CountsCarry(m: Infos, m': Infos)
    requires m'.Keys == m.Keys && forall id | id in m :: m'[id].fInTried == m[id].fInTried
    ensures TriedIds(m') == TriedIds(m) && NewIds(m') == NewIds(m)
  {
    forall id
      ensures id in TriedIds(m') <==> id in TriedIds(m)
      ensures id in NewIds(m') <==> id in NewIds(m)
    {
      assert id in m ==> m'[id].fInTried == m[id].fInTried;
    }
  }

  lemma SeatsCarry(e: Env, m: Infos, m': Infos, vvNew: Table, vvTried: Table, loose: set<int>)
    requires IsTable(vvNew, NEW_BUCKET_COUNT) && IsTable(vvTried, TRIED_BUCKET_COUNT)
    requires AllReferenced(e, m, vvNew, loose) && AllSeated(e, m, vvTried, loose)
    requires m'.Keys == m.Keys
    requires forall id | id in m ::
               && SameSeat(m[id], m'[id]) && m'[id].nLastTry >= 0
               && (m'[id].nLastSuccess >= 0 && (m[id].nLastSuccess > 0 ==> m'[id].nLastSuccess > 0))
    ensures AllReferenced(e, m', vvNew, loose) && AllSeated(e, m', vvTried, loose)
  {
    forall id | id in m'
      ensures Referenced(e, vvNew, id, m'[id], id in loose) && Seated(e, vvTried, id, m'[id], id in loose)
    {
      assert Referenced(e, vvNew, id, m[id], id in loose) && Seated(e, vvTried, id, m[id], id in loose);
    }
  }

  // ----- the vector -----

  function SwapRandom(s: State, i: nat, j: nat): State
    requires i < |s.vRandom| && j < |s.vRandom|
    requires s.vRandom[i] in s.mapInfo && s.vRandom[j] in s.mapInfo
  {
    if i == j then s
    else
      var id1, id2 := s.vRandom[i], s.vRandom[j];
      var m := s.mapInfo[id1 := s.mapInfo[id1].(nRandomPos := j)];
      s.(mapInfo := m[id2 := m[id2].(nRandomPos := i)], vRandom := s.vRandom[i := id2][j := id1])
  }

  /** Same entries up to the place each records. */
  ghost predicate SameButPlace(m: Infos, m': Infos) {
    && m'.Keys == m.Keys
    && forall id | id in m :: m'[id] == m[id].(nRandomPos := m'[id].nRandomPos)
  }

  /** `s'` is `s` with vRandom in another order. */
  ghost predicate Reordered(s: State, s': State) {
    && s' == s.(mapInfo := s'.mapInfo, vRandom := s'.vRandom)
    && SameButPlace(s.mapInfo, s'.mapInfo)
    && Indexed(s'.mapInfo, s'.vRandom)
  }

  lemma SwapReorders(s: State, i: nat, j: nat)
    requires Indexed(s.mapInfo, s.vRandom) && i < |s.vRandom| && j < |s.vRandom|
    ensures Reordered(s, SwapRandom(s, i, j))
    ensures SwapRandom(s, i, j).vRandom == s.vRandom[i := s.vRandom[j]][j := s.vRandom[i]]
  {
    var s' := SwapRandom(s, i, j);
    if i != j {
      var id1, id2 := s.vRandom[i], s.vRandom[j];
      assert id1 != id2;
      forall k | 0 <= k < |s'.vRandom|
        ensures s'.vRandom[k] in s'.mapInfo && s'.mapInfo[s'.vRandom[k]].nRandomPos == k
      {
        if k != i && k != j {
          assert s.vRandom[k] != id1 && s.vRandom[k] != id2;
        }
      }
    } else {
      assert s.vRandom[i := s.vRandom[j]][j := s.vRandom[i]] == s.vRandom;
    }
  }

  /** Reordering keeps the invariant: no other part of it looks at the order. */
  lemma ReorderKeepsInv(e: Env, s: State, s': State, loose: set<int>)
    requires InvExcept(e, s, loose) && Reordered(s, s')
    ensures InvExcept(e, s', loose)
  {
    var m, m' := s.mapInfo, s'.mapInfo;
    forall id | id in m
      ensures SameSeat(m[id], m'[id]) && m'[id].nLastTry >= 0 && m'[id].nLastSuccess == m[id].nLastSuccess >= 0
    {
      assert Seated(e, s.vvTried, id, m[id], id in loose);
    }
    SlotsCarry(e, m, m', s.vvNew, s.vvTried);
    SeatsCarry(e, m, m', s.vvNew, s.vvTried, loose);
    CountsCarry(m, m');
  }

  // ----- deleting -----

  function Delete(s: State, id: int): State
    requires Indexed(s.mapInfo, s.vRandom) && id in s.mapInfo
  {
    DropLast(MovedLast(s, id), id)
  }

  function DropLast(s: State, id: int): State
    requires id in s.mapInfo && |s.vRandom| > 0
  {
    s.(vRandom := s.vRandom[..|s.vRandom| - 1],
       mapAddr := s.mapAddr - {s.mapInfo[id].service.addr},
       mapInfo := s.mapInfo - {id},
       nNew := s.nNew - 1)
  }

  /** An entry that holds nothing can go. */
  lemma DeleteKeepsInv(e: Env, s: State, id: int, loose: set<int>)
    requires InvExcept(e, s, loose) && id in loose
    ensures InvExcept(e, Delete(s, id), loose - {id})
  {
    MovedLastIsLast(s, id);
    MovedLastReorders(s, id);
    ReorderKeepsInv(e, s, MovedLast(s, id), loose);
    DropKeepsInv(e, MovedLast(s, id), id, loose);
  }

  function MovedLast(s: State, id: int): State
    requires Indexed(s.mapInfo, s.vRandom) && id in s.mapInfo
  {
    assert HasPlace(s.mapInfo[id].nRandomPos, s.vRandom, id);
    SwapRandom(s, s.mapInfo[id].nRandomPos, |s.vRandom| - 1)
  }

  lemma MovedLastIsLast(s: State, id: int)
    requires Indexed(s.mapInfo, s.vRandom) && id in s.mapInfo
    ensures |MovedLast(s, id).vRandom| == |s.vRandom| > 0
    ensures MovedLast(s, id).vRandom[|s.vRandom| - 1] == id
  {
    SwapReorders(s, s.mapInfo[id].nRandomPos, |s.vRandom| - 1);
  }

  lemma MovedLastReorders(s: State, id: int)
    requires Indexed(s.mapInfo, s.vRandom) && id in s.mapInfo
    ensures Reordered(s, MovedLast(s, id))
  {
    var i, j := s.mapInfo[id].nRandomPos, |s.vRandom| - 1;
    assert HasPlace(i, s.vRandom, id);
    assert Reordered(s, SwapRandom(s, i, j)) by { SwapReorders(s, i, j); }
    assert MovedLast(s, id) == SwapRandom(s, i, j);
  }

  lemma DropKeepsInv(e: Env, s: State, id: int, loose: set<int>)
    requires InvExcept(e, s, loose) && id in loose
    requires |s.vRandom| > 0 && s.vRandom[|s.vRandom| - 1] == id
    ensures InvExcept(e, DropLast(s, id), loose - {id})
  {
    var m, m' := s.mapInfo, s.mapInfo - {id};
    assert Referenced(e, s.vvNew, id, m[id], true) && Seated(e, s.vvTried, id, m[id], true);
    DropKeepsSlots(e, s, id);
    DropKeepsCounts(m, id);
    DropKeepsSeats(e, s, id, loose);
    DropKeepsIndex(e, s, id);
  }

  lemma DropKeepsIndex(e: Env, s: State, id: int)
    requires Indexed(s.mapInfo, s.vRandom) && Addressed(e, s.mapInfo, s.mapAddr)
    requires id in s.mapInfo && |s.vRandom| > 0 && s.vRandom[|s.vRandom| - 1] == id
    ensures var s' := DropLast(s, id);
            Indexed(s'.mapInfo, s'.vRandom) && Addressed(e, s'.mapInfo, s'.mapAddr)
  {
  }

  lemma DropKeepsCounts(m: Infos, id: int)
    requires id in m && !m[id].fInTried
    ensures TriedIds(m - {id}) == TriedIds(m)
    ensures NewIds(m - {id}) == NewIds(m) - {id} && id in NewIds(m)
  {
  }

  lemma DropKeepsSeats(e: Env, s: State, id: int, loose: set<int>)
    requires Tables(s)
    requires AllReferenced(e, s.mapInfo, s.vvNew, loose) && AllSeated(e, s.mapInfo, s.vvTried, loose)
    ensures AllReferenced(e, s.mapInfo - {id}, s.vvNew, loose - {id})
    ensures AllSeated(e, s.mapInfo - {id}, s.vvTried, loose - {id})
  {
    var m, m' := s.mapInfo, s.mapInfo - {id};
    forall k | k in m'
      ensures Referenced(e, s.vvNew, k, m'[k], k in loose - {id})
      ensures Seated(e, s.vvTried, k, m'[k], k in loose - {id})
    {
      assert Referenced(e, s.vvNew, k, m[k], k in loose) && Seated(e, s.vvTried, k, m[k], k in loose);
    }
  }

  lemma DropKeepsSlots(e: Env, s: State, id: int)
    requires Tables(s) && id in s.mapInfo && !s.mapInfo[id].fInTried
    requires NewSlots(e, s.mapInfo, s.vvNew) && TriedSlots(e, s.mapInfo, s.vvTried)
    requires Held(e, s.vvNew, s.mapInfo[id].service, id) == {}
    ensures NewSlots(e, s.mapInfo - {id}, s.vvNew) && TriedSlots(e, s.mapInfo - {id}, s.vvTried)
  {
    forall b, p | 0 <= b < NEW_BUCKET_COUNT && 0 <= p < BUCKET_SIZE
      ensures NewSlotOk(e, s.mapInfo - {id}, b, p, s.vvNew[b][p])
    {
      assert NewSlotOk(e, s.mapInfo, b, p, s.vvNew[b][p]);
      HeldIff(e, s.vvNew, s.mapInfo[id].service, id, b);
    }
    forall b, p | 0 <= b < TRIED_BUCKET_COUNT && 0 <= p < BUCKET_SIZE
      ensures TriedSlotOk(e, s.mapInfo - {id}, b, p, s.vvTried[b][p])
    {
      assert TriedSlotOk(e, s.mapInfo, b, p, s.vvTried[b][p]);
    }
  }

  /** `s'` has no entry `s` lacks, and all but `gone` still have theirs, moved in vRandom at most. */
  ghost predicate OnlyLoses(s: State, s': State, gone: int) {
    && s'.vvTried == s.vvTried && s'.nTried == s.nTried && s'.nIdCount == s.nIdCount
    && s'.nLastGood == s.nLastGood && s'.collisions == s.collisions
    && s'.mapInfo.Keys <= s.mapInfo.Keys
    && (forall k | k in s'.mapInfo :: s'.mapInfo[k].service == s.mapInfo[k].service)
    && (forall k | k in s.mapInfo && k != gone ::
          k in s'.mapInfo && s'.mapInfo[k] == s.mapInfo[k].(nRandomPos := s'.mapInfo[k].nRandomPos))
  }

  lemma DeleteFrame(s: State, id: int)
    requires Indexed(s.mapInfo, s.vRandom) && id in s.mapInfo
    ensures OnlyLoses(s, Delete(s, id), id) && Delete(s, id).vvNew == s.vvNew
  {
    MovedLastReorders(s, id);
  }

  // ----- slots of the new table -----

  function SetInfo(s: State, id: int, info: Info): State { s.(mapInfo := s.mapInfo[id := info]) }

  /** A new version of an entry that keeps its address and its place disturbs neither index. */
  lemma IndexCarries(e: Env, m: Infos, id: int, info: Info, vRandom: seq<int>, mapAddr: map<NetAddr, int>, n: int)
    requires id in m && info.service == m[id].service && info.nRandomPos == m[id].nRandomPos
    requires Indexed(m, vRandom) && Addressed(e, m, mapAddr) && IdsBelow(m, n)
    ensures Indexed(m[id := info], vRandom)
    ensures Addressed(e, m[id := info], mapAddr)
    ensures IdsBelow(m[id := info], n)
  {
  }

  lemma HeldAfterSet(e: Env, t: Table, b: nat, p: nat, x: int, a: Service, id: int)
    requires IsTable(t, NEW_BUCKET_COUNT) && b < NEW_BUCKET_COUNT && p < BUCKET_SIZE
    ensures IsTable(SetSlot(t, b, p, x), NEW_BUCKET_COUNT)
    ensures Held(e, SetSlot(t, b, p, x), a, id) ==
            if NewPos(e, a, b) != p then Held(e, t, a, id)
            else if x == id then Held(e, t, a, id) + {b}
            else Held(e, t, a, id) - {b}
  {
  }

  /** The entry in a slot gives it up. */
  function ClearSlot(s: State, b: nat, p: nat): State
    requires Tables(s) && b < NEW_BUCKET_COUNT && p < BUCKET_SIZE && s.vvNew[b][p] in s.mapInfo
  {
    var id := s.vvNew[b][p];
    SetInfo(s, id, s.mapInfo[id].(nRefCount := s.mapInfo[id].nRefCount - 1)).(vvNew := SetSlot(s.vvNew, b, p, -1))
  }

  lemma ClearSlotReferences(e: Env, m: Infos, t: Table, b: nat, p: nat, loose: set<int>)
    requires IsTable(t, NEW_BUCKET_COUNT) && b < NEW_BUCKET_COUNT && p < BUCKET_SIZE
    requires NewSlots(e, m, t) && AllReferenced(e, m, t, loose) && t[b][p] != -1 && -1 !in m
    ensures var id := t[b][p];
            && id in m && id !in loose && m[id].nRefCount > 0
            && var m' := m[id := m[id].(nRefCount := m[id].nRefCount - 1)];
               AllReferenced(e, m', SetSlot(t, b, p, -1), if m'[id].nRefCount == 0 then loose + {id} else loose)
  {
    var id := t[b][p];
    assert NewSlotOk(e, m, b, p, id);
    HeldIff(e, t, m[id].service, id, b);
    assert Referenced(e, t, id, m[id], id in loose);
    var m' := m[id := m[id].(nRefCount := m[id].nRefCount - 1)];
    var loose' := if m'[id].nRefCount == 0 then loose + {id} else loose;
    forall k | k in m'
      ensures Referenced(e, SetSlot(t, b, p, -1), k, m'[k], k in loose')
    {
      assert Referenced(e, t, k, m[k], k in loose);
      HeldAfterSet(e, t, b, p, -1, m[k].service, k);
      HeldIff(e, t, m[k].service, k, b);
    }
  }

  lemma ClearSlotSlots(e: Env, m: Infos, t: Table, b: nat, p: nat, id: int, info: Info)
    requires IsTable(t, NEW_BUCKET_COUNT) && b < NEW_BUCKET_COUNT && p < BUCKET_SIZE
    requires NewSlots(e, m, t)
    requires id in m && info.service == m[id].service && info.fInTried == m[id].fInTried
    ensures NewSlots(e, m[id := info], SetSlot(t, b, p, -1))
  {
    forall c, q | 0 <= c < NEW_BUCKET_COUNT && 0 <= q < BUCKET_SIZE
      ensures NewSlotOk(e, m[id := info], c, q, SetSlot(t, b, p, -1)[c][q])
    {
      assert NewSlotOk(e, m, c, q, t[c][q]);
    }
  }

  /** Changing a reference count only: tried slots, seats and counters stay right. */
  lemma RefCountCarries(e: Env, m: Infos, id: int, n: int, vvTried: Table, loose: set<int>, loose': set<int>)
    requires IsTable(vvTried, TRIED_BUCKET_COUNT) && id in m && !m[id].fInTried
    requires TriedSlots(e, m, vvTried) && AllSeated(e, m, vvTried, loose)
    requires forall k | k != id :: k in loose <==> k in loose'
    ensures var m' := m[id := m[id].(nRefCount := n)];
            && TriedSlots(e, m', vvTried) && AllSeated(e, m', vvTried, loose')
            && TriedIds(m') == TriedIds(m) && NewIds(m') == NewIds(m)
  {
    var m' := m[id := m[id].(nRefCount := n)];
    CountsCarry(m, m');
    forall b, p | 0 <= b < TRIED_BUCKET_COUNT && 0 <= p < BUCKET_SIZE
      ensures TriedSlotOk(e, m', b, p, vvTried[b][p])
    {
      assert TriedSlotOk(e, m, b, p, vvTried[b][p]);
    }
    forall k | k in m' ensures Seated(e, vvTried, k, m'[k], k in loose') {
      assert Seated(e, vvTried, k, m[k], k in loose);
    }
  }

  lemma ClearSlotKeepsInv(e: Env, s: State, b: nat, p: nat, loose: set<int>)
    requires InvExcept(e, s, loose) && b < NEW_BUCKET_COUNT && p < BUCKET_SIZE && s.vvNew[b][p] != -1
    ensures s.vvNew[b][p] in s.mapInfo && s.vvNew[b][p] !in loose && s.mapInfo[s.vvNew[b][p]].nRefCount > 0
    ensures InvExcept(e, ClearSlot(s, b, p),
                      if s.mapInfo[s.vvNew[b][p]].nRefCount == 1 then loose + {s.vvNew[b][p]} else loose)
  {
    var id := s.vvNew[b][p];
    assert NewSlotOk(e, s.mapInfo, b, p, id);
    ClearSlotReferences(e, s.mapInfo, s.vvNew, b, p, loose);
    var info := s.mapInfo[id].(nRefCount := s.mapInfo[id].nRefCount - 1);
    ClearSlotSlots(e, s.mapInfo, s.vvNew, b, p, id, info);
    RefCountCarries(e, s.mapInfo, id, info.nRefCount, s.vvTried, loose,
                    if info.nRefCount == 0 then loose + {id} else loose);
    IndexCarries(e, s.mapInfo, id, info, s.vRandom, s.mapAddr, s.nIdCount);
    HeldAfterSet(e, s.vvNew, b, p, -1, info.service, id);
  }

  /** ClearNew: the entry in the slot gives it up, and goes if it was its last one. */
  function ClearNew(s: State, b: nat, p: nat): State
    requires Tables(s) && Indexed(s.mapInfo, s.vRandom)
    requires b < NEW_BUCKET_COUNT && p < BUCKET_SIZE
    requires s.vvNew[b][p] == -1 || s.vvNew[b][p] in s.mapInfo
  {
    var id := s.vvNew[b][p];
    if id == -1 then s
    else
      var s1 := ClearSlot(s, b, p);
      if s1.mapInfo[id].nRefCount == 0 then Delete(s1, id) else s1
  }

  lemma ClearNewKeepsInv(e: Env, s: State, b: nat, p: nat, loose: set<int>)
    requires InvExcept(e, s, loose) && b < NEW_BUCKET_COUNT && p < BUCKET_SIZE
    ensures s.vvNew[b][p] == -1 || s.vvNew[b][p] in s.mapInfo
    ensures InvExcept(e, ClearNew(s, b, p), loose)
    ensures ClearNew(s, b, p).vvNew[b][p] == -1
  {
    hide InvExcept;
    InvHas(e, s, loose);
    var id := s.vvNew[b][p];
    if id != -1 {
      ClearSlotKeepsInv(e, s, b, p, loose);
      var s1 := ClearSlot(s, b, p);
      if s1.mapInfo[id].nRefCount == 0 {
        InvHas(e, s1, loose + {id});
        DeleteKeepsInv(e, s1, id, loose + {id});
        DeleteFrame(s1, id);
        assert loose + {id} - {id} == loose;
      }
    }
  }

  lemma ClearNewFrame(e: Env, s: State, b: nat, p: nat, loose: set<int>)
    requires InvExcept(e, s, loose) && b < NEW_BUCKET_COUNT && p < BUCKET_SIZE
    ensures s.vvNew[b][p] == -1 || s.vvNew[b][p] in s.mapInfo
    ensures OnlyLoses(s, ClearNew(s, b, p), s.vvNew[b][p])
    ensures ClearNew(s, b, p).vvNew == SetSlot(s.vvNew, b, p, -1)
  {
    var id := s.vvNew[b][p];
    if id != -1 {
      ClearSlotKeepsInv(e, s, b, p, loose);
      var s1 := ClearSlot(s, b, p);
      if s1.mapInfo[id].nRefCount == 0 {
        DeleteFrame(s1, id);
      }
    } else {
      assert s.vvNew[b][p := -1] == s.vvNew[b];
    }
  }

  /** An entry takes an empty slot. */
  function PutSlot(s: State, b: nat, p: nat, id: int): State
    requires Tables(s) && b < NEW_BUCKET_COUNT && p < BUCKET_SIZE && id in s.mapInfo
  {
    SetInfo(s, id, s.mapInfo[id].(nRefCount := s.mapInfo[id].nRefCount + 1)).(vvNew := SetSlot(s.vvNew, b, p, id))
  }

  lemma PutSlotReferences(e: Env, m: Infos, t: Table, b: nat, p: nat, id: int, loose: set<int>)
    requires IsTable(t, NEW_BUCKET_COUNT) && b < NEW_BUCKET_COUNT && p < BUCKET_SIZE
    requires AllReferenced(e, m, t, loose) && t[b][p] == -1 && -1 !in m
    requires id in m && !m[id].fInTried && p == NewPos(e, m[id].service, b)
    requires m[id].nRefCount < NEW_BUCKETS_PER_ADDRESS
    ensures var m' := m[id := m[id].(nRefCount := m[id].nRefCount + 1)];
            AllReferenced(e, m', SetSlot(t, b, p, id), loose - {id})
  {
    var m' := m[id := m[id].(nRefCount := m[id].nRefCount + 1)];
    forall k | k in m'
      ensures Referenced(e, SetSlot(t, b, p, id), k, m'[k], k in loose - {id})
    {
      assert Referenced(e, t, k, m[k], k in loose);
      HeldAfterSet(e, t, b, p, id, m[k].service, k);
      HeldIff(e, t, m[k].service, k, b);
    }
  }

  lemma PutSlotSlots(e: Env, m: Infos, t: Table, b: nat, p: nat, id: int, info: Info)
    requires IsTable(t, NEW_BUCKET_COUNT) && b < NEW_BUCKET_COUNT && p < BUCKET_SIZE
    requires NewSlots(e, m, t)
    requires id in m && info.service == m[id].service && !info.fInTried && !m[id].fInTried
    requires p == NewPos(e, info.service, b)
    ensures NewSlots(e, m[id := info], SetSlot(t, b, p, id))
  {
    forall c, q | 0 <= c < NEW_BUCKET_COUNT && 0 <= q < BUCKET_SIZE
      ensures NewSlotOk(e, m[id := info], c, q, SetSlot(t, b, p, id)[c][q])
    {
      assert NewSlotOk(e, m, c, q, t[c][q]);
    }
  }

  lemma PutSlotKeepsInv(e: Env, s: State, b: nat, p: nat, id: int, loose: set<int>)
    requires InvExcept(e, s, loose) && b < NEW_BUCKET_COUNT && p < BUCKET_SIZE && s.vvNew[b][p] == -1
    requires id in s.mapInfo && !s.mapInfo[id].fInTried && p == NewPos(e, s.mapInfo[id].service, b)
    requires s.mapInfo[id].nRefCount < NEW_BUCKETS_PER_ADDRESS
    ensures InvExcept(e, PutSlot(s, b, p, id), loose - {id})
  {
    var info := s.mapInfo[id].(nRefCount := s.mapInfo[id].nRefCount + 1);
    var m', t' := s.mapInfo[id := info], SetSlot(s.vvNew, b, p, id);
    assert PutSlot(s, b, p, id) == s.(mapInfo := m', vvNew := t');
    assert IsTable(t', NEW_BUCKET_COUNT) by {
      HeldAfterSet(e, s.vvNew, b, p, id, info.service, id);
    }
    assert AllReferenced(e, m', t', loose - {id}) by {
      PutSlotReferences(e, s.mapInfo, s.vvNew, b, p, id, loose);
    }
    assert NewSlots(e, m', t') by {
      PutSlotSlots(e, s.mapInfo, s.vvNew, b, p, id, info);
    }
    assert TriedSlots(e, m', s.vvTried) && AllSeated(e, m', s.vvTried, loose - {id}) &&
           Counted(m', s.nTried, s.nNew) by {
      RefCountCarries(e, s.mapInfo, id, info.nRefCount, s.vvTried, loose, loose - {id});
    }
    IndexCarries(e, s.mapInfo, id, info, s.vRandom, s.mapAddr, s.nIdCount);
  }

  // ----- moving between the tables -----

  /** A row of the new table without `id` at its position. */
  function Without(row: seq<int>, p: nat, id: int): seq<int>
    requires p < |row|
  {
    if row[p] == id then row[p := -1] else row
  }

  function ForgetInTable(e: Env, t: Table, a: Service, id: int): (r: Table)
    requires IsTable(t, NEW_BUCKET_COUNT)
    ensures IsTable(r, NEW_BUCKET_COUNT)
  {
    seq(NEW_BUCKET_COUNT, b requires 0 <= b < NEW_BUCKET_COUNT => Without(t[b], NewPos(e, a, b), id))
  }

  /** The first loop of MakeTried: the entry leaves every new bucket. */
  function ForgetNew(e: Env, s: State, id: int): State
    requires Tables(s) && id in s.mapInfo
  {
    var info := s.mapInfo[id];
    SetInfo(s, id, info.(nRefCount := info.nRefCount - |Held(e, s.vvNew, info.service, id)|))
      .(vvNew := ForgetInTable(e, s.vvNew, info.service, id))
  }

  lemma HeldAfterForget(e: Env, t: Table, a: Service, id: int, c: Service, k: int)
    requires IsTable(t, NEW_BUCKET_COUNT) && id != -1 && k != -1
    ensures k != id ==> Held(e, ForgetInTable(e, t, a, id), c, k) == Held(e, t, c, k)
    ensures k == id && c == a ==> Held(e, ForgetInTable(e, t, a, id), c, k) == {}
  {
  }

  lemma ForgetReferences(e: Env, m: Infos, t: Table, id: int, loose: set<int>)
    requires IsTable(t, NEW_BUCKET_COUNT)
    requires AllReferenced(e, m, t, loose) && id in m && -1 !in m
    ensures AllReferenced(e, m[id := m[id].(nRefCount := 0)], ForgetInTable(e, t, m[id].service, id), loose + {id})
  {
    var m', t' := m[id := m[id].(nRefCount := 0)], ForgetInTable(e, t, m[id].service, id);
    forall k | k in m' ensures Referenced(e, t', k, m'[k], k in loose + {id}) {
      assert Referenced(e, t, k, m[k], k in loose);
      HeldAfterForget(e, t, m[id].service, id, m[k].service, k);
    }
  }

  lemma ForgetSlots(e: Env, m: Infos, t: Table, id: int, info: Info)
    requires IsTable(t, NEW_BUCKET_COUNT) && NewSlots(e, m, t)
    requires id in m && info.service == m[id].service && info.fInTried == m[id].fInTried
    ensures NewSlots(e, m[id := info], ForgetInTable(e, t, m[id].service, id))
  {
    var t' := ForgetInTable(e, t, m[id].service, id);
    forall c, q | 0 <= c < NEW_BUCKET_COUNT && 0 <= q < BUCKET_SIZE
      ensures NewSlotOk(e, m[id := info], c, q, t'[c][q])
    {
      assert NewSlotOk(e, m, c, q, t[c][q]);
    }
  }

  lemma ForgetKeepsInv(e: Env, s: State, id: int, loose: set<int>)
    requires InvExcept(e, s, loose) && id in s.mapInfo && !s.mapInfo[id].fInTried
    ensures InvExcept(e, ForgetNew(e, s, id), loose + {id})
    ensures ForgetNew(e, s, id).mapInfo[id] == s.mapInfo[id].(nRefCount := 0)
  {
    assert Referenced(e, s.vvNew, id, s.mapInfo[id], id in loose);
    var info := s.mapInfo[id].(nRefCount := 0);
    ForgetReferences(e, s.mapInfo, s.vvNew, id, loose);
    ForgetSlots(e, s.mapInfo, s.vvNew, id, info);
    RefCountCarries(e, s.mapInfo, id, 0, s.vvTried, loose, loose + {id});
    IndexCarries(e, s.mapInfo, id, info, s.vRandom, s.mapAddr, s.nIdCount);
  }

  /** The entry in a tried slot leaves it, for the new table. */
  function Evict(s: State, b: nat, p: nat): State
    requires Tables(s) && b < TRIED_BUCKET_COUNT && p < BUCKET_SIZE && s.vvTried[b][p] in s.mapInfo
  {
    var id := s.vvTried[b][p];
    SetInfo(s, id, s.mapInfo[id].(fInTried := false))
      .(vvTried := SetSlot(s.vvTried, b, p, -1), nTried := s.nTried - 1, nNew := s.nNew + 1)
  }

  /** An entry takes its empty tried slot. */
  function Promote(e: Env, s: State, id: int): State
    requires Tables(s) && id in s.mapInfo
  {
    var info := s.mapInfo[id];
    SetInfo(s, id, info.(fInTried := true))
      .(vvTried := SetSlot(s.vvTried, TriedBucket(e, info.service), TriedPos(e, info.service), id),
        nTried := s.nTried + 1, nNew := s.nNew - 1)
  }

  lemma TableAfterSet(t: Table, n: nat, b: nat, p: nat, id: int)
    requires IsTable(t, n) && b < n && p < BUCKET_SIZE
    ensures IsTable(SetSlot(t, b, p, id), n)
    ensures forall c, q | 0 <= c < n && 0 <= q < BUCKET_SIZE ::
              SetSlot(t, b, p, id)[c][q] == if c == b && q == p then id else t[c][q]
  {
  }

  lemma FlipCounts(m: Infos, id: int)
    requires id in m
    ensures var m' := m[id := m[id].(fInTried := !m[id].fInTried)];
            if m[id].fInTried then
              TriedIds(m') == TriedIds(m) - {id} && NewIds(m') == NewIds(m) + {id}
              && id in TriedIds(m) && id !in NewIds(m)
            else
              TriedIds(m') == TriedIds(m) + {id} && NewIds(m') == NewIds(m) - {id}
              && id in NewIds(m) && id !in TriedIds(m)
  {
  }

  lemma EvictSeats(e: Env, s: State, b: nat, p: nat, loose: set<int>)
    requires InvExcept(e, s, loose) && b < TRIED_BUCKET_COUNT && p < BUCKET_SIZE && s.vvTried[b][p] != -1
    ensures s.vvTried[b][p] in s.mapInfo
    ensures var s' := Evict(s, b, p);
            && Tables(s') && TriedSlots(e, s'.mapInfo, s'.vvTried)
            && AllSeated(e, s'.mapInfo, s'.vvTried, loose + {s.vvTried[b][p]})
  {
    var id := s.vvTried[b][p];
    assert TriedSlotOk(e, s.mapInfo, b, p, id);
    TableAfterSet(s.vvTried, TRIED_BUCKET_COUNT, b, p, -1);
    var s' := Evict(s, b, p);
    forall c, q | 0 <= c < TRIED_BUCKET_COUNT && 0 <= q < BUCKET_SIZE
      ensures TriedSlotOk(e, s'.mapInfo, c, q, s'.vvTried[c][q])
    {
      assert TriedSlotOk(e, s.mapInfo, c, q, s.vvTried[c][q]);
    }
    forall k | k in s'.mapInfo ensures Seated(e, s'.vvTried, k, s'.mapInfo[k], k in loose + {id}) {
      assert Seated(e, s.vvTried, k, s.mapInfo[k], k in loose);
    }
  }

  lemma EvictReferences(e: Env, s: State, b: nat, p: nat, loose: set<int>)
    requires InvExcept(e, s, loose) && b < TRIED_BUCKET_COUNT && p < BUCKET_SIZE && s.vvTried[b][p] in s.mapInfo
    requires s.mapInfo[s.vvTried[b][p]].fInTried
    ensures var s' := Evict(s, b, p);
            && NewSlots(e, s'.mapInfo, s'.vvNew)
            && AllReferenced(e, s'.mapInfo, s'.vvNew, loose + {s.vvTried[b][p]})
  {
    var id := s.vvTried[b][p];
    var s' := Evict(s, b, p);
    forall c, q | 0 <= c < NEW_BUCKET_COUNT && 0 <= q < BUCKET_SIZE
      ensures NewSlotOk(e, s'.mapInfo, c, q, s'.vvNew[c][q])
    {
      assert NewSlotOk(e, s.mapInfo, c, q, s.vvNew[c][q]);
    }
    forall k | k in s'.mapInfo ensures Referenced(e, s'.vvNew, k, s'.mapInfo[k], k in loose + {id}) {
      assert Referenced(e, s.vvNew, k, s.mapInfo[k], k in loose);
    }
  }

  lemma TriedOccupant(e: Env, s: State, b: nat, p: nat, loose: set<int>)
    requires InvExcept(e, s, loose) && b < TRIED_BUCKET_COUNT && p < BUCKET_SIZE && s.vvTried[b][p] != -1
    ensures s.vvTried[b][p] in s.mapInfo && s.vvTried[b][p] !in loose && s.mapInfo[s.vvTried[b][p]].fInTried
  {
    var id := s.vvTried[b][p];
    assert TriedSlotOk(e, s.mapInfo, b, p, id);
    assert Seated(e, s.vvTried, id, s.mapInfo[id], id in loose);
  }

  lemma EvictKeepsInv(e: Env, s: State, b: nat, p: nat, loose: set<int>)
    requires InvExcept(e, s, loose) && b < TRIED_BUCKET_COUNT && p < BUCKET_SIZE && s.vvTried[b][p] != -1
    ensures s.vvTried[b][p] in s.mapInfo && s.vvTried[b][p] !in loose
    ensures InvExcept(e, Evict(s, b, p), loose + {s.vvTried[b][p]})
  {
    hide NewSlots, TriedSlots, AllReferenced, AllSeated, Indexed, Addressed;
    var id := s.vvTried[b][p];
    TriedOccupant(e, s, b, p, loose);
    EvictSeats(e, s, b, p, loose);
    EvictReferences(e, s, b, p, loose);
    FlipCounts(s.mapInfo, id);
    IndexCarries(e, s.mapInfo, id, s.mapInfo[id].(fInTried := false), s.vRandom, s.mapAddr, s.nIdCount);
  }

  lemma PromoteSeats(e: Env, s: State, id: int, loose: set<int>)
    requires InvExcept(e, s, loose) && id in loose
    requires s.mapInfo[id].nLastSuccess > 0 && TriedSlot(e, s.vvTried, s.mapInfo[id].service) == -1
    ensures var s' := Promote(e, s, id);
            && Tables(s') && TriedSlots(e, s'.mapInfo, s'.vvTried)
            && AllSeated(e, s'.mapInfo, s'.vvTried, loose - {id})
  {
    var a := s.mapInfo[id].service;
    TableAfterSet(s.vvTried, TRIED_BUCKET_COUNT, TriedBucket(e, a), TriedPos(e, a), id);
    var s' := Promote(e, s, id);
    forall c, q | 0 <= c < TRIED_BUCKET_COUNT && 0 <= q < BUCKET_SIZE
      ensures TriedSlotOk(e, s'.mapInfo, c, q, s'.vvTried[c][q])
    {
      assert TriedSlotOk(e, s.mapInfo, c, q, s.vvTried[c][q]);
    }
    forall k | k in s'.mapInfo ensures Seated(e, s'.vvTried, k, s'.mapInfo[k], k in loose - {id}) {
      assert Seated(e, s.vvTried, k, s.mapInfo[k], k in loose);
    }
  }

  lemma PromoteReferences(e: Env, s: State, id: int, loose: set<int>)
    requires InvExcept(e, s, loose) && id in loose
    ensures var s' := Promote(e, s, id);
            && NewSlots(e, s'.mapInfo, s'.vvNew)
            && AllReferenced(e, s'.mapInfo, s'.vvNew, loose - {id})
  {
    var s' := Promote(e, s, id);
    assert Referenced(e, s.vvNew, id, s.mapInfo[id], true);
    forall c, q | 0 <= c < NEW_BUCKET_COUNT && 0 <= q < BUCKET_SIZE
      ensures NewSlotOk(e, s'.mapInfo, c, q, s'.vvNew[c][q])
    {
      assert NewSlotOk(e, s.mapInfo, c, q, s.vvNew[c][q]);
      HeldIff(e, s.vvNew, s.mapInfo[id].service, id, c);
    }
    forall k | k in s'.mapInfo ensures Referenced(e, s'.vvNew, k, s'.mapInfo[k], k in loose - {id}) {
      assert Referenced(e, s.vvNew, k, s.mapInfo[k], k in loose);
    }
  }

  lemma PromoteKeepsInv(e: Env, s: State, id: int, loose: set<int>)
    requires InvExcept(e, s, loose) && id in loose
    requires s.mapInfo[id].nLastSuccess > 0 && TriedSlot(e, s.vvTried, s.mapInfo[id].service) == -1
    ensures InvExcept(e, Promote(e, s, id), loose - {id})
  {
    assert Seated(e, s.vvTried, id, s.mapInfo[id], true);
    PromoteSeats(e, s, id, loose);
    PromoteReferences(e, s, id, loose);
    FlipCounts(s.mapInfo, id);
    IndexCarries(e, s.mapInfo, id, s.mapInfo[id].(fInTried := true), s.vRandom, s.mapAddr, s.nIdCount);
  }

  /** MakeTried, second part: whoever sits in the wanted tried slot goes back to the new table. */
  function MakeRoom(e: Env, s: State, b: nat, p: nat, ghost loose: set<int>): State
    requires InvExcept(e, s, loose) && b < TRIED_BUCKET_COUNT && p < BUCKET_SIZE
  {
    var evicted := s.vvTried[b][p];
    if evicted == -1 then s
    else
      EvictKeepsInv(e, s, b, p, loose);
      var s1 := Evict(s, b, p);
      var info := s1.mapInfo[evicted];
      var nb := NewBucket(e, info.service, info.source);
      var np := NewPos(e, info.service, nb);
      EvictedSurvives(e, s1, nb, np, evicted, loose + {evicted});
      PutSlot(ClearNew(s1, nb, np), nb, np, evicted)
  }

  /** Clearing the slot an evicted entry is about to take does not delete that entry. */
  lemma EvictedSurvives(e: Env, s: State, b: nat, p: nat, id: int, loose: set<int>)
    requires InvExcept(e, s, loose) && id in loose && b < NEW_BUCKET_COUNT && p < BUCKET_SIZE
    ensures s.vvNew[b][p] == -1 || s.vvNew[b][p] in s.mapInfo
    ensures s.vvNew[b][p] != id
    ensures var s' := ClearNew(s, b, p);
            && InvExcept(e, s', loose) && s'.vvNew[b][p] == -1
            && id in s'.mapInfo && s'.mapInfo[id].service == s.mapInfo[id].service
            && s'.mapInfo[id].nRefCount == 0 && !s'.mapInfo[id].fInTried
            && OnlyLoses(s, s', s.vvNew[b][p])
  {
    if s.vvNew[b][p] != -1 {
      ClearSlotKeepsInv(e, s, b, p, loose);
    }
    ClearNewKeepsInv(e, s, b, p, loose);
    ClearNewFrame(e, s, b, p, loose);
    var s' := ClearNew(s, b, p);
    assert Referenced(e, s'.vvNew, id, s'.mapInfo[id], true);
    assert Seated(e, s'.vvTried, id, s'.mapInfo[id], true);
  }

  /** `s'` has entries of `s` only, at their addresses. */
  ghost predicate NoNewcomers(s: State, s': State) {
    && s'.nIdCount == s.nIdCount && s'.nLastGood == s.nLastGood && s'.collisions == s.collisions
    && s'.mapInfo.Keys <= s.mapInfo.Keys
    && forall k | k in s'.mapInfo :: s'.mapInfo[k].service == s.mapInfo[k].service
  }

  /** The three steps of making room, with the state after each. */
  lemma MakeRoomSteps(e: Env, s: State, b: nat, p: nat, loose: set<int>)
    returns (s1: State, s2: State, nb: nat, np: nat)
    requires InvExcept(e, s, loose) && b < TRIED_BUCKET_COUNT && p < BUCKET_SIZE && s.vvTried[b][p] != -1
    ensures s.vvTried[b][p] in s.mapInfo && s.vvTried[b][p] !in loose
    ensures s1 == Evict(s, b, p) && InvExcept(e, s1, loose + {s.vvTried[b][p]})
    ensures nb < NEW_BUCKET_COUNT && np < BUCKET_SIZE
    ensures InvExcept(e, s2, loose + {s.vvTried[b][p]}) && Tables(s2)
    ensures OnlyLoses(s1, s2, s1.vvNew[nb][np]) && s1.vvNew[nb][np] !in loose + {s.vvTried[b][p]}
    ensures MakeRoom(e, s, b, p, loose) == PutSlot(s2, nb, np, s.vvTried[b][p])
    ensures InvExcept(e, PutSlot(s2, nb, np, s.vvTried[b][p]), loose)
  {
    hide InvExcept, Indexed, Addressed;
    InvHas(e, s, loose);
    var id := s.vvTried[b][p];
    EvictKeepsInv(e, s, b, p, loose);
    s1 := Evict(s, b, p);
    InvHas(e, s1, loose + {id});
    var info := s1.mapInfo[id];
    nb := NewBucket(e, info.service, info.source);
    np := NewPos(e, info.service, nb);
    EvictedSurvives(e, s1, nb, np, id, loose + {id});
    forall k | k in loose ensures s1.vvNew[nb][np] != k {
      EvictedSurvives(e, s1, nb, np, k, loose + {id});
    }
    s2 := ClearNew(s1, nb, np);
    InvHas(e, s2, loose + {id});
    PutSlotKeepsInv(e, s2, nb, np, id, loose + {id});
    assert loose + {id} - {id} == loose;
  }

  lemma MakeRoomKeepsInv(e: Env, s: State, b: nat, p: nat, loose: set<int>)
    requires InvExcept(e, s, loose) && b < TRIED_BUCKET_COUNT && p < BUCKET_SIZE
    ensures InvExcept(e, MakeRoom(e, s, b, p, loose), loose)
    ensures MakeRoom(e, s, b, p, loose).vvTried == SetSlot(s.vvTried, b, p, -1)
    ensures NoNewcomers(s, MakeRoom(e, s, b, p, loose))
    ensures forall k | k in loose ::
              && k in s.mapInfo && k in MakeRoom(e, s, b, p, loose).mapInfo
              && MakeRoom(e, s, b, p, loose).mapInfo[k].nLastSuccess == s.mapInfo[k].nLastSuccess
  {
    hide InvExcept, Indexed, Addressed;
    InvHas(e, s, loose);
    if s.vvTried[b][p] == -1 {
      assert s.vvTried[b][p := -1] == s.vvTried[b];
    } else {
      var s1, s2, nb, np := MakeRoomSteps(e, s, b, p, loose);
    }
  }

  function MakeTried(e: Env, s: State, id: int): State
    requires InvExcept(e, s, {}) && id in s.mapInfo && !s.mapInfo[id].fInTried
  {
    var a := s.mapInfo[id].service;
    ForgetKeepsInv(e, s, id, {});
    var s1 := ForgetNew(e, s, id);
    MakeRoomKeepsInv(e, s1, TriedBucket(e, a), TriedPos(e, a), {id});
    Promote(e, MakeRoom(e, s1, TriedBucket(e, a), TriedPos(e, a), {id}), id)
  }

  /** The move to the tried table keeps every invariant and touches one tried slot, which it fills. */
  lemma MakeTriedKeepsInv(e: Env, s: State, id: int)
    requires InvExcept(e, s, {}) && id in s.mapInfo && !s.mapInfo[id].fInTried && s.mapInfo[id].nLastSuccess > 0
    ensures InvExcept(e, MakeTried(e, s, id), {})
    ensures MakeTried(e, s, id).vvTried ==
            SetSlot(s.vvTried, TriedBucket(e, s.mapInfo[id].service), TriedPos(e, s.mapInfo[id].service), id)
    ensures NoNewcomers(s, MakeTried(e, s, id))
  {
    hide InvExcept, Indexed, Addressed;
    InvHas(e, s, {});
    var a := s.mapInfo[id].service;
    var b, p := TriedBucket(e, a), TriedPos(e, a);
    ForgetKeepsInv(e, s, id, {});
    var s1 := ForgetNew(e, s, id);
    assert {} + {id} == {id};
    InvHas(e, s1, {id});
    MakeRoomKeepsInv(e, s1, b, p, {id});
    var s2 := MakeRoom(e, s1, b, p, {id});
    InvHas(e, s2, {id});
    PromoteKeepsInv(e, s2, id, {id});
    assert {id} - {id} == {};
    assert SetSlot(SetSlot(s.vvTried, b, p, -1), b, p, id) == SetSlot(s.vvTried, b, p, id) by {
      assert s.vvTried[b][p := -1][p := id] == s.vvTried[b][p := id];
    }
  }

  // ----- what no operation ever does -----

  /**
   No tried slot is ever emptied, no id is ever given to another address, and ids only grow.
   This is what makes a pending collision point at an occupied slot for as long as it exists.
   */
  ghost predicate Evolves(s: State, s': State) {
    && Tables(s) && Tables(s')
    && s.nIdCount <= s'.nIdCount
    && (forall b, p | 0 <= b < TRIED_BUCKET_COUNT && 0 <= p < BUCKET_SIZE ::
          s.vvTried[b][p] != -1 ==> s'.vvTried[b][p] != -1)
    && (forall id | id in s'.mapInfo ::
          id >= s.nIdCount || (id in s.mapInfo && s'.mapInfo[id].service == s.mapInfo[id].service))
  }

  lemma EvolvesReflexive(s: State)
    requires Tables(s)
    ensures Evolves(s, s)
  {
  }

  lemma EvolvesTransitive(s: State, s': State, s'': State)
    requires Evolves(s, s') && Evolves(s', s'')
    ensures Evolves(s, s'')
  {
    forall b, p | 0 <= b < TRIED_BUCKET_COUNT && 0 <= p < BUCKET_SIZE && s.vvTried[b][p] != -1
      ensures s''.vvTried[b][p] != -1
    {
      assert s'.vvTried[b][p] != -1;
    }
  }

  lemma CollidedCarries(e: Env, s: State, s': State)
    requires Evolves(s, s') && Collided(e, s) && s'.collisions <= s.collisions
    ensures Collided(e, s')
  {
    SubsetSize(s'.collisions, s.collisions);
    forall id | id in s'.collisions && id in s'.mapInfo
      ensures TriedSlot(e, s'.vvTried, s'.mapInfo[id].service) != -1
    {
      var a := s.mapInfo[id].service;
      assert s.vvTried[TriedBucket(e, a)][TriedPos(e, a)] != -1;
    }
  }

  // ----- Good -----

  /** Only the statistics of an entry change. */
  lemma StatsKeepInv(e: Env, s: State, id: int, info: Info, loose: set<int>)
    requires InvExcept(e, s, loose) && id in s.mapInfo
    requires SameSeat(s.mapInfo[id], info) && info.nRandomPos == s.mapInfo[id].nRandomPos
    requires info.nLastTry >= 0 && info.nLastSuccess >= 0
    requires s.mapInfo[id].nLastSuccess > 0 ==> info.nLastSuccess > 0
    ensures InvExcept(e, SetInfo(s, id, info), loose)
  {
    var m, m' := s.mapInfo, s.mapInfo[id := info];
    assert forall k | k in m :: m'[k].nLastTry >= 0 && m'[k].nLastSuccess >= 0 by {
      forall k | k in m ensures m'[k].nLastTry >= 0 && m'[k].nLastSuccess >= 0 {
        assert Seated(e, s.vvTried, k, m[k], k in loose);
      }
    }
    hide NewSlots, TriedSlots, AllReferenced, AllSeated, Indexed, Addressed;
    SlotsCarry(e, m, m', s.vvNew, s.vvTried);
    SeatsCarry(e, m, m', s.vvNew, s.vvTried, loose);
    CountsCarry(m, m');
    IndexCarries(e, m, id, info, s.vRandom, s.mapAddr, s.nIdCount);
  }

  /** Good_; the search for a bucket starts at random and only its success matters. */
  function Good(e: Env, s: State, addr: Service, testBeforeEvict: bool, time: int): State
    requires Inv(e, s) && time > 0
  {
    var s0 := s.(nLastGood := time);
    if addr.addr !in s.mapAddr then s0
    else
      var id := s.mapAddr[addr.addr];
      var info := s.mapInfo[id];
      if info.service != addr then s0
      else
        var s1 := SetInfo(s0, id, info.(nLastSuccess := time, nLastTry := time, nAttempts := 0));
        if info.fInTried then s1
        else if Held(e, s.vvNew, addr, id) == {} then s1
        else if testBeforeEvict && TriedSlot(e, s.vvTried, addr) != -1 then
          if |s.collisions| < SET_TRIED_COLLISION_SIZE then s1.(collisions := s.collisions + {id}) else s1
        else
          GoodStats(e, s, id, time);
          MakeTried(e, s1, id)
  }

  lemma GoodStats(e: Env, s: State, id: int, time: int)
    requires Inv(e, s) && time > 0 && id in s.mapInfo
    ensures var s1 := SetInfo(s.(nLastGood := time), id,
                              s.mapInfo[id].(nLastSuccess := time, nLastTry := time, nAttempts := 0));
            InvExcept(e, s1, {}) && Collided(e, s1)
  {
    assert InvExcept(e, s.(nLastGood := time), {});
    StatsKeepInv(e, s.(nLastGood := time), id,
                 s.mapInfo[id].(nLastSuccess := time, nLastTry := time, nAttempts := 0), {});
  }

  /** An entry not in tried is in some new bucket: the early exit for a lost entry is dead code. */
  lemma NewEntryIsFound(e: Env, s: State, id: int)
    requires Inv(e, s) && id in s.mapInfo && !s.mapInfo[id].fInTried
    ensures exists b :: 0 <= b < NEW_BUCKET_COUNT && s.vvNew[b][NewPos(e, s.mapInfo[id].service, b)] == id
    ensures Held(e, s.vvNew, s.mapInfo[id].service, id) != {}
  {
    assert Referenced(e, s.vvNew, id, s.mapInfo[id], false);
    var h := Held(e, s.vvNew, s.mapInfo[id].service, id);
    assert h != {};
    var b :| b in h;
    HeldIff(e, s.vvNew, s.mapInfo[id].service, id, b);
  }

  lemma MakeTriedEvolves(e: Env, s: State, id: int)
    requires InvExcept(e, s, {}) && Collided(e, s)
    requires id in s.mapInfo && !s.mapInfo[id].fInTried && s.mapInfo[id].nLastSuccess > 0
    ensures Inv(e, MakeTried(e, s, id)) && Evolves(s, MakeTried(e, s, id))
    ensures MakeTried(e, s, id).collisions == s.collisions
    ensures id in MakeTried(e, s, id).mapInfo && MakeTried(e, s, id).mapInfo[id].fInTried
  {
    hide InvExcept, Indexed, Addressed;
    InvHas(e, s, {});
    MakeTriedKeepsInv(e, s, id);
    var s', a := MakeTried(e, s, id), s.mapInfo[id].service;
    InvHas(e, s', {});
    TableAfterSet(s.vvTried, TRIED_BUCKET_COUNT, TriedBucket(e, a), TriedPos(e, a), id);
    assert Evolves(s, s');
    CollidedCarries(e, s, s');
    TriedOccupant(e, s', TriedBucket(e, a), TriedPos(e, a), {});
  }

  lemma GoodKeepsInv(e: Env, s: State, addr: Service, testBeforeEvict: bool, time: int)
    requires Inv(e, s) && time > 0
    ensures Inv(e, Good(e, s, addr, testBeforeEvict, time))
    ensures Evolves(s, Good(e, s, addr, testBeforeEvict, time))
    ensures !testBeforeEvict ==> Good(e, s, addr, testBeforeEvict, time).collisions == s.collisions
  {
    var s0 := s.(nLastGood := time);
    assert InvExcept(e, s0, {});
    hide InvExcept, Indexed;
    InvHas(e, s, {});
    if addr.addr in s.mapAddr && s.mapInfo[s.mapAddr[addr.addr]].service == addr {
      var id := s.mapAddr[addr.addr];
      GoodStats(e, s, id, time);
      var s1 := SetInfo(s0, id, s.mapInfo[id].(nLastSuccess := time, nLastTry := time, nAttempts := 0));
      assert Evolves(s, s1);
      if !s1.mapInfo[id].fInTried && Held(e, s.vvNew, addr, id) != {} {
        if testBeforeEvict && TriedSlot(e, s.vvTried, addr) != -1 {
          NoteCollision(e, s1, id);
        } else {
          MakeTriedEvolves(e, s1, id);
          EvolvesTransitive(s, s1, MakeTried(e, s1, id));
        }
      }
    }
  }

  lemma NoteCollision(e: Env, s: State, id: int)
    requires InvExcept(e, s, {}) && Collided(e, s) && id in s.mapInfo
    requires TriedSlot(e, s.vvTried, s.mapInfo[id].service) != -1
    ensures |s.collisions| < SET_TRIED_COLLISION_SIZE ==> Inv(e, s.(collisions := s.collisions + {id}))
  {
  }

  /** A known service reported good ends up tried, unless it has to wait for the slot's occupant. */
  lemma GoodPromotes(e: Env, s: State, addr: Service, testBeforeEvict: bool, time: int)
    requires Inv(e, s) && time > 0
    requires addr.addr in s.mapAddr && s.mapInfo[s.mapAddr[addr.addr]].service == addr
    ensures var id := s.mapAddr[addr.addr];
            var s' := Good(e, s, addr, testBeforeEvict, time);
            && id in s'.mapInfo
            && (s'.mapInfo[id].fInTried <==>
                  s.mapInfo[id].fInTried || !testBeforeEvict || TriedSlot(e, s.vvTried, addr) == -1)
  {
    hide InvExcept, Indexed;
    InvHas(e, s, {});
    var id := s.mapAddr[addr.addr];
    if !s.mapInfo[id].fInTried {
      NewEntryIsFound(e, s, id);
      GoodStats(e, s, id, time);
      var s1 := SetInfo(s.(nLastGood := time), id,
                        s.mapInfo[id].(nLastSuccess := time, nLastTry := time, nAttempts := 0));
      if !testBeforeEvict || TriedSlot(e, s.vvTried, addr) == -1 {
        MakeTriedEvolves(e, s1, id);
      }
    }
  }

  // ----- Add -----

  /** A new entry under a fresh id, counted as new, in no slot yet. */
  function Enter(s: State, info: Info): State {
    var id := s.nIdCount;
    s.(nIdCount := id + 1, mapInfo := s.mapInfo[id := info], mapAddr := s.mapAddr[info.service.addr := id],
       vRandom := s.vRandom + [id], nNew := s.nNew + 1)
  }

  /** Create, and the bookkeeping Add_ does around it. */
  function CreateNew(s: State, addr: Address, source: NetAddr, nTimePenalty: int): State {
    Enter(s, Info(addr.service, Max(0, addr.nTime - nTimePenalty), addr.nServices, source,
                  0, 0, 0, 0, 0, false, |s.vRandom|))
  }

  /** An entry the manager may take in. */
  predicate Newcomer(e: Env, s: State, info: Info) {
    && !info.fInTried && info.nRefCount == 0 && info.nLastTry >= 0 && info.nLastSuccess >= 0
    && info.nRandomPos == |s.vRandom| && info.service.addr !in s.mapAddr && e.isRoutable(info.service.addr)
  }

  lemma EnterKeepsIndex(e: Env, s: State, info: Info)
    requires Indexed(s.mapInfo, s.vRandom) && Addressed(e, s.mapInfo, s.mapAddr) && s.nIdCount !in s.mapInfo
    requires Newcomer(e, s, info)
    ensures var s' := Enter(s, info); Indexed(s'.mapInfo, s'.vRandom) && Addressed(e, s'.mapInfo, s'.mapAddr)
  {
    var s', id := Enter(s, info), s.nIdCount;
    forall k | k in s'.mapInfo ensures HasPlace(s'.mapInfo[k].nRandomPos, s'.vRandom, k) {
      assert k != id ==> HasPlace(s.mapInfo[k].nRandomPos, s.vRandom, k);
    }
  }

  lemma EnterCounts(m: Infos, id: int, info: Info)
    requires id !in m && !info.fInTried
    ensures TriedIds(m[id := info]) == TriedIds(m)
    ensures NewIds(m[id := info]) == NewIds(m) + {id} && id !in NewIds(m)
  {
  }

  lemma EnterKeepsSlots(e: Env, s: State, info: Info, loose: set<int>)
    requires InvExcept(e, s, loose) && Newcomer(e, s, info)
    ensures var s', loose' := Enter(s, info), loose + {s.nIdCount};
            && NewSlots(e, s'.mapInfo, s'.vvNew) && TriedSlots(e, s'.mapInfo, s'.vvTried)
            && AllReferenced(e, s'.mapInfo, s'.vvNew, loose') && AllSeated(e, s'.mapInfo, s'.vvTried, loose')
  {
    hide Indexed, Addressed;
    var s', id := Enter(s, info), s.nIdCount;
    assert id !in s.mapInfo;
    SlotsCarry(e, s.mapInfo, s'.mapInfo, s.vvNew, s.vvTried);
    NobodyHeld(e, s, info.service, id);
    var loose' := loose + {id};
    forall k | k in s'.mapInfo
      ensures Referenced(e, s.vvNew, k, s'.mapInfo[k], k in loose')
      ensures Seated(e, s.vvTried, k, s'.mapInfo[k], k in loose')
    {
      if k != id {
        assert Referenced(e, s.vvNew, k, s.mapInfo[k], k in loose) && Seated(e, s.vvTried, k, s.mapInfo[k], k in loose);
      }
    }
  }

  /** An id nobody has is in no slot. */
  lemma NobodyHeld(e: Env, s: State, a: Service, id: int)
    requires Tables(s) && NewSlots(e, s.mapInfo, s.vvNew) && id !in s.mapInfo && id != -1
    ensures Held(e, s.vvNew, a, id) == {}
  {
    forall b | 0 <= b < NEW_BUCKET_COUNT ensures b !in Held(e, s.vvNew, a, id) {
      assert NewSlotOk(e, s.mapInfo, b, NewPos(e, a, b), s.vvNew[b][NewPos(e, a, b)]);
    }
  }

  lemma EnterKeepsInv(e: Env, s: State, info: Info, loose: set<int>)
    requires InvExcept(e, s, loose) && Newcomer(e, s, info)
    ensures InvExcept(e, Enter(s, info), loose + {s.nIdCount})
  {
    hide NewSlots, TriedSlots, AllReferenced, AllSeated, Indexed, Addressed;
    assert s.nIdCount !in s.mapInfo;
    EnterKeepsIndex(e, s, info);
    EnterKeepsSlots(e, s, info, loose);
    EnterCounts(s.mapInfo, s.nIdCount, info);
  }

  lemma CreateKeepsInv(e: Env, s: State, addr: Address, source: NetAddr, nTimePenalty: int)
    requires InvExcept(e, s, {})
    requires addr.service.addr !in s.mapAddr && e.isRoutable(addr.service.addr)
    ensures InvExcept(e, CreateNew(s, addr, source, nTimePenalty), {s.nIdCount})
  {
    hide InvExcept;
    var info := Info(addr.service, Max(0, addr.nTime - nTimePenalty), addr.nServices, source,
                     0, 0, 0, 0, 0, false, |s.vRandom|);
    EnterKeepsInv(e, s, info, {});
    assert {} + {s.nIdCount} == {s.nIdCount};
  }

  /** Whether an address may take the slot it was sent to. */
  predicate MayInsert(s: State, b: nat, p: nat, id: int, now: int)
    requires Tables(s) && b < NEW_BUCKET_COUNT && p < BUCKET_SIZE && id in s.mapInfo
    requires s.vvNew[b][p] == -1 || s.vvNew[b][p] in s.mapInfo
  {
    var there := s.vvNew[b][p];
    there == -1 || s.mapInfo[there].IsTerrible(now) ||
    (s.mapInfo[there].nRefCount > 1 && s.mapInfo[id].nRefCount == 0)
  }

  /** The end of Add_: take the slot the source leads to, or give up, deleting a newcomer. */
  function Place(e: Env, s: State, id: int, source: NetAddr, now: int, ghost loose: set<int>): State
    requires InvExcept(e, s, loose) && id in s.mapInfo && !s.mapInfo[id].fInTried
  {
    InvHas(e, s, loose);
    var a := s.mapInfo[id].service;
    var b := NewBucket(e, a, source);
    var p := NewPos(e, a, b);
    ClearNewKeepsInv(e, s, b, p, loose);
    if s.vvNew[b][p] == id then s
    else if MayInsert(s, b, p, id, now) then
      ClearNewFrame(e, s, b, p, loose);
      PutSlot(ClearNew(s, b, p), b, p, id)
    else if s.mapInfo[id].nRefCount == 0 then Delete(s, id)
    else s
  }

  lemma PlaceKeepsInv(e: Env, s: State, id: int, source: NetAddr, now: int, loose: set<int>)
    requires InvExcept(e, s, loose) && loose <= {id}
    requires id in s.mapInfo && !s.mapInfo[id].fInTried && s.mapInfo[id].nRefCount < NEW_BUCKETS_PER_ADDRESS
    ensures InvExcept(e, Place(e, s, id, source, now, loose), {})
    ensures NoNewcomers(s, Place(e, s, id, source, now, loose))
    ensures Place(e, s, id, source, now, loose).vvTried == s.vvTried
  {
    hide InvExcept, Indexed, Addressed;
    InvHas(e, s, loose);
    var a := s.mapInfo[id].service;
    var b := NewBucket(e, a, source);
    var p := NewPos(e, a, b);
    ClearNewKeepsInv(e, s, b, p, loose);
    ClearNewFrame(e, s, b, p, loose);
    HolderIsNotLoose(e, s, b, p, id, loose);
    if s.vvNew[b][p] != id {
      if MayInsert(s, b, p, id, now) {
        PutSlotKeepsInv(e, ClearNew(s, b, p), b, p, id, loose);
        assert loose - {id} == {};
      } else if s.mapInfo[id].nRefCount == 0 {
        DeleteKeepsInv(e, s, id, loose);
        DeleteFrame(s, id);
        assert loose - {id} == {};
      }
    }
  }

  /** Who gets the slot, and who goes: the entry itself if it has no other, or the slot's holder. */
  ghost predicate PlaceAchieves(e: Env, s: State, s': State, id: int, source: NetAddr, now: int)
    requires id in s.mapInfo
  {
    var a := s.mapInfo[id].service;
    var b := NewBucket(e, a, source);
    var p := NewPos(e, a, b);
    && Tables(s) && Tables(s') && (s.vvNew[b][p] == -1 || s.vvNew[b][p] in s.mapInfo)
    && (s'.vvNew[b][p] == id <==> s.vvNew[b][p] == id || MayInsert(s, b, p, id, now))
    && (id in s'.mapInfo <==> s.mapInfo[id].nRefCount > 0 || s'.vvNew[b][p] == id)
    && (forall k | k in s.mapInfo && k !in s'.mapInfo && k != id :: k == s.vvNew[b][p])
  }

  lemma PlaceOutcome(e: Env, s: State, id: int, source: NetAddr, now: int, loose: set<int>)
    requires InvExcept(e, s, loose) && loose <= {id} && id in s.mapInfo && !s.mapInfo[id].fInTried
    ensures PlaceAchieves(e, s, Place(e, s, id, source, now, loose), id, source, now)
  {
    InvHas(e, s, loose);
    assert Referenced(e, s.vvNew, id, s.mapInfo[id], id in loose);
    hide InvExcept, Indexed, Addressed;
    var a := s.mapInfo[id].service;
    var b := NewBucket(e, a, source);
    var p := NewPos(e, a, b);
    ClearNewKeepsInv(e, s, b, p, loose);
    ClearNewFrame(e, s, b, p, loose);
    HolderIsNotLoose(e, s, b, p, id, loose);
    if s.vvNew[b][p] == id {
      HeldIff(e, s.vvNew, a, id, b);
    } else if MayInsert(s, b, p, id, now) {
      TableAfterSet(s.vvNew, NEW_BUCKET_COUNT, b, p, -1);
      TableAfterSet(SetSlot(s.vvNew, b, p, -1), NEW_BUCKET_COUNT, b, p, id);
    } else if s.mapInfo[id].nRefCount == 0 {
      DeleteFrame(s, id);
      DeleteGone(s, id);
    }
  }

  lemma DeleteGone(s: State, id: int)
    requires Indexed(s.mapInfo, s.vRandom) && id in s.mapInfo
    ensures id !in Delete(s, id).mapInfo
  {
    MovedLastReorders(s, id);
  }

  /** Whoever holds a slot is not loose; whoever holds none and is not tried is. */
  lemma HolderIsNotLoose(e: Env, s: State, b: nat, p: nat, id: int, loose: set<int>)
    requires InvExcept(e, s, loose) && loose <= {id}
    requires id in s.mapInfo && !s.mapInfo[id].fInTried
    requires b < NEW_BUCKET_COUNT && p == NewPos(e, s.mapInfo[id].service, b)
    ensures loose == {} || loose == {id}
    ensures s.vvNew[b][p] == id ==> loose == {}
    ensures s.mapInfo[id].nRefCount == 0 <==> loose == {id}
  {
    assert Referenced(e, s.vvNew, id, s.mapInfo[id], id in loose);
    HeldIff(e, s.vvNew, s.mapInfo[id].service, id, b);
    assert id !in loose ==> loose == {};
    assert id in loose ==> loose == {id};
  }

  /** What a repeated announcement changes in a known entry before anything is decided. */
  function Refreshed(info: Info, addr: Address, nTimePenalty: int, now: int): Info {
    var online := now - addr.nTime < 24 * 60 * 60;
    var interval := if online then 60 * 60 else 24 * 60 * 60;
    var nTime := if addr.nTime != 0 && (info.nTime == 0 || info.nTime < addr.nTime - interval - nTimePenalty)
                 then Max(0, addr.nTime - nTimePenalty) else info.nTime;
    info.(nTime := nTime, nServices := info.nServices | addr.nServices)
  }

  /** Reasons not to give a known entry another slot; `lucky` is the outcome of the stochastic test. */
  predicate NoMoreSlots(info: Info, addr: Address, lucky: bool) {
    || addr.nTime == 0
    || (info.nTime != 0 && addr.nTime <= info.nTime)
    || info.fInTried
    || info.nRefCount == NEW_BUCKETS_PER_ADDRESS
    || (info.nRefCount > 0 && !lucky)
  }

  function Add(e: Env, s: State, addr: Address, source: NetAddr, nTimePenalty: int, now: int, lucky: bool)
    : (State, bool)
    requires Inv(e, s)
  {
    var a := addr.service.addr;
    if !e.isRoutable(a) then (s, false)
    else if a in s.mapAddr then
      var id := s.mapAddr[a];
      var info := Refreshed(s.mapInfo[id], addr, nTimePenalty, now);
      var s1 := SetInfo(s, id, info);
      if NoMoreSlots(info, addr, lucky) then (s1, false)
      else
        RefreshKeepsInv(e, s, id, addr, nTimePenalty, now);
        (Place(e, s1, id, source, now, {}), false)
    else
      CreateKeepsInv(e, s, addr, source, nTimePenalty);
      (Place(e, CreateNew(s, addr, source, nTimePenalty), s.nIdCount, source, now, {s.nIdCount}), true)
  }

  lemma RefreshKeepsInv(e: Env, s: State, id: int, addr: Address, nTimePenalty: int, now: int)
    requires InvExcept(e, s, {}) && id in s.mapInfo
    ensures InvExcept(e, SetInfo(s, id, Refreshed(s.mapInfo[id], addr, nTimePenalty, now)), {})
    ensures !s.mapInfo[id].fInTried ==> 1 <= s.mapInfo[id].nRefCount <= NEW_BUCKETS_PER_ADDRESS
  {
    assert Seated(e, s.vvTried, id, s.mapInfo[id], false) && Referenced(e, s.vvNew, id, s.mapInfo[id], false);
    StatsKeepInv(e, s, id, Refreshed(s.mapInfo[id], addr, nTimePenalty, now), {});
  }

  lemma AddKeepsInv(e: Env, s: State, addr: Address, source: NetAddr, nTimePenalty: int, now: int, lucky: bool)
    requires Inv(e, s)
    ensures Inv(e, Add(e, s, addr, source, nTimePenalty, now, lucky).0)
    ensures Evolves(s, Add(e, s, addr, source, nTimePenalty, now, lucky).0)
  {
    hide InvExcept, Indexed, Place;
    InvHas(e, s, {});
    var a := addr.service.addr;
    var s' := Add(e, s, addr, source, nTimePenalty, now, lucky).0;
    if e.isRoutable(a) {
      if a in s.mapAddr {
        var id := s.mapAddr[a];
        RefreshKeepsInv(e, s, id, addr, nTimePenalty, now);
        var s1 := SetInfo(s, id, Refreshed(s.mapInfo[id], addr, nTimePenalty, now));
        if s' != s1 {
          PlaceKeepsInv(e, s1, id, source, now, {});
        }
      } else {
        var s1 := CreateNew(s, addr, source, nTimePenalty);
        CreateKeepsInv(e, s, addr, source, nTimePenalty);
        PlaceKeepsInv(e, s1, s.nIdCount, source, now, {s.nIdCount});
      }
    }
    InvHas(e, s', {});
    assert s'.vvTried == s.vvTried;
    CollidedCarries(e, s, s');
  }

  /**
   What Add_ achieves for a routable address. An unknown one is known afterwards exactly if the
   slot its source leads to is free, or its holder is terrible or has another slot. A known one
   stays. Nobody else is forgotten but the holder of that slot.
   */
  ghost predicate AddAchieves(e: Env, s: State, s': State, fNew: bool, addr: Address, source: NetAddr, now: int) {
    var known := addr.service.addr in s.mapAddr;
    var id := if known then s.mapAddr[addr.service.addr] else s.nIdCount;
    && Tables(s) && (known ==> id in s.mapInfo)
    && var a := if known then s.mapInfo[id].service else addr.service;
       var b := NewBucket(e, a, source);
       var there := s.vvNew[b][NewPos(e, a, b)];
       && (there == -1 || there in s.mapInfo)
       && (fNew <==> !known)
       && (id in s'.mapInfo <==>
             known || there == -1 || s.mapInfo[there].IsTerrible(now) || s.mapInfo[there].nRefCount > 1)
       && (forall k | k in s.mapInfo && k !in s'.mapInfo :: k == there)
       && (id in s'.mapInfo ==> addr.service.addr in s'.mapAddr && s'.mapAddr[addr.service.addr] == id)
  }

  lemma AddOutcome(e: Env, s: State, addr: Address, source: NetAddr, nTimePenalty: int, now: int, lucky: bool)
    requires Inv(e, s) && e.isRoutable(addr.service.addr)
    ensures var (s', fNew) := Add(e, s, addr, source, nTimePenalty, now, lucky);
            AddAchieves(e, s, s', fNew, addr, source, now)
  {
    hide InvExcept, Indexed;
    InvHas(e, s, {});
    AddKeepsInv(e, s, addr, source, nTimePenalty, now, lucky);
    InvHas(e, Add(e, s, addr, source, nTimePenalty, now, lucky).0, {});
    if addr.service.addr in s.mapAddr {
      AddKnown(e, s, addr, source, nTimePenalty, now, lucky);
    } else {
      AddUnknown(e, s, addr, source, nTimePenalty, now, lucky);
    }
  }

  lemma AddKnown(e: Env, s: State, addr: Address, source: NetAddr, nTimePenalty: int, now: int, lucky: bool)
    requires Inv(e, s) && e.isRoutable(addr.service.addr) && addr.service.addr in s.mapAddr
    requires Addressed(e, Add(e, s, addr, source, nTimePenalty, now, lucky).0.mapInfo,
                       Add(e, s, addr, source, nTimePenalty, now, lucky).0.mapAddr)
    ensures AddAchieves(e, s, Add(e, s, addr, source, nTimePenalty, now, lucky).0, false, addr, source, now)
  {
    hide InvExcept, Indexed, Place, Refreshed;
    InvHas(e, s, {});
    var id := s.mapAddr[addr.service.addr];
    RefreshKeepsInv(e, s, id, addr, nTimePenalty, now);
    RefreshSame(s.mapInfo[id], addr, nTimePenalty, now);
    var a := s.mapInfo[id].service;
    var b := NewBucket(e, a, source);
    ClearNewKeepsInv(e, s, b, NewPos(e, a, b), {});
    var info := Refreshed(s.mapInfo[id], addr, nTimePenalty, now);
    var s1 := SetInfo(s, id, info);
    if !NoMoreSlots(info, addr, lucky) {
      PlaceOutcome(e, s1, id, source, now, {});
      PlaceKeepsInv(e, s1, id, source, now, {});
    }
  }

  lemma RefreshSame(info: Info, addr: Address, nTimePenalty: int, now: int)
    ensures SameSeat(info, Refreshed(info, addr, nTimePenalty, now))
  {
  }

  lemma AddUnknown(e: Env, s: State, addr: Address, source: NetAddr, nTimePenalty: int, now: int, lucky: bool)
    requires Inv(e, s) && e.isRoutable(addr.service.addr) && addr.service.addr !in s.mapAddr
    requires Addressed(e, Add(e, s, addr, source, nTimePenalty, now, lucky).0.mapInfo,
                       Add(e, s, addr, source, nTimePenalty, now, lucky).0.mapAddr)
    ensures AddAchieves(e, s, Add(e, s, addr, source, nTimePenalty, now, lucky).0, true, addr, source, now)
  {
    var id := s.nIdCount;
    var s1 := CreateNew(s, addr, source, nTimePenalty);
    CreateKeepsInv(e, s, addr, source, nTimePenalty);
    Created(e, s, addr, source, nTimePenalty);
    hide Inv, InvExcept, Indexed, Addressed, Place, PlaceAchieves, AddAchieves, CreateNew, NewSlots;
    PlaceOutcome(e, s1, id, source, now, {id});
    PlaceKeepsInv(e, s1, id, source, now, {id});
    UnknownPlaced(e, s, s1, Place(e, s1, id, source, now, {id}), addr, source, now);
  }

  lemma Created(e: Env, s: State, addr: Address, source: NetAddr, nTimePenalty: int)
    requires Inv(e, s)
    ensures var s1, id := CreateNew(s, addr, source, nTimePenalty), s.nIdCount;
            && Tables(s) && NewSlots(e, s.mapInfo, s.vvNew) && id !in s.mapInfo && id != -1
            && s1.vvNew == s.vvNew && s1.mapInfo.Keys == s.mapInfo.Keys + {id}
            && (forall k | k in s.mapInfo :: s1.mapInfo[k] == s.mapInfo[k])
            && s1.mapInfo[id].service == addr.service && s1.mapInfo[id].nRefCount == 0 && !s1.mapInfo[id].fInTried
  {
  }

  lemma UnknownPlaced(e: Env, s: State, s1: State, s': State, addr: Address, source: NetAddr, now: int)
    requires Tables(s) && s.nIdCount !in s.mapInfo && addr.service.addr !in s.mapAddr
    requires s1.vvNew == s.vvNew && s1.mapInfo.Keys == s.mapInfo.Keys + {s.nIdCount}
    requires forall k | k in s.mapInfo :: s1.mapInfo[k] == s.mapInfo[k]
    requires s1.mapInfo[s.nIdCount].service == addr.service && s1.mapInfo[s.nIdCount].nRefCount == 0
    requires NewSlots(e, s.mapInfo, s.vvNew) && s.nIdCount != -1
    requires PlaceAchieves(e, s1, s', s.nIdCount, source, now) && Addressed(e, s'.mapInfo, s'.mapAddr)
    requires s.nIdCount in s'.mapInfo ==> s'.mapInfo[s.nIdCount].service == addr.service
    ensures AddAchieves(e, s, s', true, addr, source, now)
  {
    var b := NewBucket(e, addr.service, source);
    var p := NewPos(e, addr.service, b);
    assert NewSlotOk(e, s.mapInfo, b, p, s.vvNew[b][p]);
  }

  // ----- statistics -----

  function Attempt(s: State, addr: Service, fCountFailure: bool, time: int): State
    requires forall a | a in s.mapAddr :: s.mapAddr[a] in s.mapInfo
  {
    if addr.addr !in s.mapAddr || s.mapInfo[s.mapAddr[addr.addr]].service != addr then s
    else
      var id := s.mapAddr[addr.addr];
      var info := s.mapInfo[id].(nLastTry := time);
      SetInfo(s, id, if fCountFailure && info.nLastCountAttempt < s.nLastGood
                     then info.(nLastCountAttempt := time, nAttempts := info.nAttempts + 1) else info)
  }

  function Connected(s: State, addr: Service, time: int): State
    requires forall a | a in s.mapAddr :: s.mapAddr[a] in s.mapInfo
  {
    if addr.addr !in s.mapAddr || s.mapInfo[s.mapAddr[addr.addr]].service != addr then s
    else
      var id := s.mapAddr[addr.addr];
      if time - s.mapInfo[id].nTime > 20 * 60 then SetInfo(s, id, s.mapInfo[id].(nTime := time)) else s
  }

  /** An update of statistics that leaves times non-negative and a tried entry reached. */
  lemma StatsEvolve(e: Env, s: State, id: int, info: Info)
    requires Inv(e, s) && id in s.mapInfo
    requires SameSeat(s.mapInfo[id], info) && info.nRandomPos == s.mapInfo[id].nRandomPos
    requires info.nLastTry >= 0 || info.nLastTry == s.mapInfo[id].nLastTry
    requires info.nLastSuccess == s.mapInfo[id].nLastSuccess
    ensures Inv(e, SetInfo(s, id, info)) && Evolves(s, SetInfo(s, id, info))
  {
    assert Seated(e, s.vvTried, id, s.mapInfo[id], false);
    StatsKeepInv(e, s, id, info, {});
  }

  // ----- GetAddr -----

  /** Swaps place `n` with `picks[0]`, place `n + 1` with `picks[1]`, and so on. */
  function Shuffle(s: State, n: nat, picks: seq<nat>): State
    requires Indexed(s.mapInfo, s.vRandom) && n + |picks| <= |s.vRandom|
    requires forall i | 0 <= i < |picks| :: picks[i] < |s.vRandom|
    decreases |picks|
  {
    if picks == [] then s
    else
      SwapReorders(s, n, picks[0]);
      Shuffle(SwapRandom(s, n, picks[0]), n + 1, picks[1..])
  }

  lemma SwapKeepsInv(e: Env, s: State, i: nat, j: nat)
    requires Inv(e, s) && i < |s.vRandom| && j < |s.vRandom|
    ensures Inv(e, SwapRandom(s, i, j)) && Evolves(s, SwapRandom(s, i, j))
    ensures |SwapRandom(s, i, j).vRandom| == |s.vRandom|
  {
    hide InvExcept, Addressed;
    InvHas(e, s, {});
    SwapReorders(s, i, j);
    ReorderKeepsInv(e, s, SwapRandom(s, i, j), {});
    CollidedCarries(e, s, SwapRandom(s, i, j));
  }

  lemma {:induction false} ShuffleKeepsInv(e: Env, s: State, n: nat, picks: seq<nat>)
    requires Inv(e, s) && n + |picks| <= |s.vRandom|
    requires forall i | 0 <= i < |picks| :: picks[i] < |s.vRandom|
    ensures Inv(e, Shuffle(s, n, picks)) && Evolves(s, Shuffle(s, n, picks))
    decreases |picks|
  {
    hide InvExcept, Addressed, Evolves, Collided;
    InvHas(e, s, {});
    if picks == [] {
      EvolvesReflexive(s);
    } else {
      var s1 := SwapRandom(s, n, picks[0]);
      SwapKeepsInv(e, s, n, picks[0]);
      ShuffleKeepsInv(e, s1, n + 1, picks[1..]);
      EvolvesTransitive(s, s1, Shuffle(s1, n + 1, picks[1..]));
    }
  }

  // ----- collisions -----

  /** A routable address is a valid one. */
  ghost predicate EnvOk(e: Env) { forall a :: e.isRoutable(a) ==> e.isValid(a) }

  function Settled(s: State, id: int): State { s.(collisions := s.collisions - {id}) }

  /** ResolveCollisions_ for one pending id. */
  function ResolveOne(e: Env, s: State, id: int, now: int): State
    requires Inv(e, s) && now > 0
  {
    if id !in s.mapInfo then Settled(s, id)
    else
      var a := s.mapInfo[id].service;
      if !e.isValid(a.addr) then Settled(s, id)
      else if TriedSlot(e, s.vvTried, a) == -1 then Settled(Good(e, s, a, false, now), id)
      else
        TriedOccupant(e, s, TriedBucket(e, a), TriedPos(e, a), {});
        var there := s.mapInfo[TriedSlot(e, s.vvTried, a)];
        if now - there.nLastSuccess < REPLACEMENT_HOURS * (60 * 60) then Settled(s, id)
        else if now - there.nLastTry < REPLACEMENT_HOURS * (60 * 60) && now - there.nLastTry > 60 then
          Settled(Good(e, s, a, false, now), id)
        else s
  }

  /** A pending id that still exists is valid and its slot is taken: the other two exits are dead. */
  lemma PendingIsReal(e: Env, s: State, id: int)
    requires Inv(e, s) && EnvOk(e) && id in s.collisions && id in s.mapInfo
    ensures e.isValid(s.mapInfo[id].service.addr)
    ensures TriedSlot(e, s.vvTried, s.mapInfo[id].service) != -1
  {
  }

  lemma SettledKeepsInv(e: Env, s: State, id: int)
    requires Inv(e, s)
    ensures Inv(e, Settled(s, id)) && Evolves(s, Settled(s, id))
  {
    assert InvExcept(e, Settled(s, id), {});
    hide InvExcept;
    InvHas(e, s, {});
    CollidedCarries(e, s, Settled(s, id));
  }

  lemma ResolveOneKeepsInv(e: Env, s: State, id: int, now: int)
    requires Inv(e, s) && now > 0
    ensures Inv(e, ResolveOne(e, s, id, now)) && Evolves(s, ResolveOne(e, s, id, now))
    ensures ResolveOne(e, s, id, now).collisions == s.collisions
            || ResolveOne(e, s, id, now).collisions == s.collisions - {id}
  {
    hide InvExcept, Indexed, Addressed, Good, Evolves, Collided;
    InvHas(e, s, {});
    EvolvesReflexive(s);
    SettledKeepsInv(e, s, id);
    if id in s.mapInfo {
      var a := s.mapInfo[id].service;
      GoodKeepsInv(e, s, a, false, now);
      SettledKeepsInv(e, Good(e, s, a, false, now), id);
      EvolvesTransitive(s, Good(e, s, a, false, now), Settled(Good(e, s, a, false, now), id));
    }
  }

  /**
   What becomes of a pending id that still exists. It replaces the slot's occupant exactly if that
   was last reached too long ago, and last tried not too long ago but over a minute ago. It stays
   pending exactly if the first is so and the second is not.
   */
  ghost predicate ResolveAchieves(e: Env, s: State, s': State, id: int, now: int)
    requires Tables(s) && id in s.mapInfo
  {
    var k := TriedSlot(e, s.vvTried, s.mapInfo[id].service);
    && k in s.mapInfo && id in s'.mapInfo
    && var stale := now - s.mapInfo[k].nLastSuccess >= 4 * 60 * 60;
       var probed := 60 < now - s.mapInfo[k].nLastTry < 4 * 60 * 60;
       && (id in s'.collisions <==> stale && !probed)
       && (s'.mapInfo[id].fInTried <==> s.mapInfo[id].fInTried || (stale && probed))
       && (stale && probed && k != id && k in s'.mapInfo ==> !s'.mapInfo[k].fInTried)
  }

  lemma ResolveCases(e: Env, s: State, id: int, now: int)
    requires Inv(e, s) && EnvOk(e) && now > 0 && id in s.collisions && id in s.mapInfo
    ensures Tables(s) && TriedSlot(e, s.vvTried, s.mapInfo[id].service) in s.mapInfo
    ensures var there := s.mapInfo[TriedSlot(e, s.vvTried, s.mapInfo[id].service)];
            ResolveOne(e, s, id, now) ==
              if now - there.nLastSuccess < 4 * 60 * 60 then Settled(s, id)
              else if 60 < now - there.nLastTry < 4 * 60 * 60 then
                Settled(Good(e, s, s.mapInfo[id].service, false, now), id)
              else s
  {
    PendingIsReal(e, s, id);
    var a := s.mapInfo[id].service;
    TriedOccupant(e, s, TriedBucket(e, a), TriedPos(e, a), {});
    hide InvExcept, Good, Collided, EnvOk;
  }

  lemma ResolveOutcome(e: Env, s: State, id: int, now: int)
    requires Inv(e, s) && EnvOk(e) && now > 0 && id in s.collisions && id in s.mapInfo
    ensures Tables(s) && ResolveAchieves(e, s, ResolveOne(e, s, id, now), id, now)
  {
    hide InvExcept, Good, Evolves, Collided, EnvOk, ResolveOne;
    ResolveCases(e, s, id, now);
    ResolveOneKeepsInv(e, s, id, now);
    var a, s' := s.mapInfo[id].service, ResolveOne(e, s, id, now);
    var k := TriedSlot(e, s.vvTried, a);
    GoodKeepsInv(e, s, a, false, now);
    KnownByAddress(e, s, id);
    GoodPromotes(e, s, a, false, now);
    if k != id && id in s'.mapInfo && s'.mapInfo[id].fInTried {
      OneSeat(e, s, s', id, k);
    }
  }

  lemma KnownByAddress(e: Env, s: State, id: int)
    requires Inv(e, s) && id in s.mapInfo
    ensures s.mapInfo[id].service.addr in s.mapAddr && s.mapAddr[s.mapInfo[id].service.addr] == id
  {
  }

  /** Two tried entries never share a slot, whatever happened in between. */
  lemma OneSeat(e: Env, s: State, s': State, id: int, k: int)
    requires Inv(e, s) && Inv(e, s') && Evolves(s, s') && id in s.mapInfo && k in s.mapInfo && k != id
    requires TriedSlot(e, s.vvTried, s.mapInfo[id].service) == k
    requires id in s'.mapInfo && s'.mapInfo[id].fInTried
    ensures k in s'.mapInfo ==> !s'.mapInfo[k].fInTried
  {
    var b, p := TriedBucket(e, s.mapInfo[id].service), TriedPos(e, s.mapInfo[id].service);
    assert TriedSlotOk(e, s.mapInfo, b, p, s.vvTried[b][p]);
    assert Seated(e, s'.vvTried, id, s'.mapInfo[id], false);
    assert k in s'.mapInfo ==> Seated(e, s'.vvTried, k, s'.mapInfo[k], false);
  }

  /** ResolveCollisions_ over the pending ids in the order the set is walked. */
  function Resolve(e: Env, s: State, ids: seq<int>, now: int): State
    requires Inv(e, s) && now > 0
    decreases |ids|
  {
    if ids == [] then s
    else
      ResolveOneKeepsInv(e, s, ids[0], now);
      Resolve(e, ResolveOne(e, s, ids[0], now), ids[1..], now)
  }

  lemma {:induction false} ResolveKeepsInv(e: Env, s: State, ids: seq<int>, now: int)
    requires Inv(e, s) && now > 0
    ensures Inv(e, Resolve(e, s, ids, now)) && Evolves(s, Resolve(e, s, ids, now))
    ensures Resolve(e, s, ids, now).collisions <= s.collisions
    decreases |ids|
  {
    if ids != [] {
      hide InvExcept, Indexed, Addressed;
      ResolveOneKeepsInv(e, s, ids[0], now);
      var s1 := ResolveOne(e, s, ids[0], now);
      ResolveKeepsInv(e, s1, ids[1..], now);
      EvolvesTransitive(s, s1, Resolve(e, s1, ids[1..], now));
    } else {
      InvHas(e, s, {});
    }
  }

  /** SelectTriedCollision_ for the id drawn: the entry sitting where it wants to go, if it is still there. */
  function SelectTriedCollision(e: Env, s: State, id: int): (State, seq<Info>)
    requires Inv(e, s) && id in s.collisions
  {
    if id !in s.mapInfo then (Settled(s, id), [])
    else
      var a := s.mapInfo[id].service;
      TriedOccupant(e, s, TriedBucket(e, a), TriedPos(e, a), {});
      (s, [s.mapInfo[TriedSlot(e, s.vvTried, a)]])
  }

  /** The entry handed out is a tried one of the table, at the wanted slot; none is made up. */
  lemma SelectedIsTried(e: Env, s: State, id: int)
    requires Inv(e, s) && id in s.collisions
    ensures Inv(e, SelectTriedCollision(e, s, id).0) && Evolves(s, SelectTriedCollision(e, s, id).0)
    ensures SelectTriedCollision(e, s, id).0.mapInfo == s.mapInfo
    ensures forall info | info in SelectTriedCollision(e, s, id).1 ::
              && info.fInTried
              && TriedBucket(e, info.service) == TriedBucket(e, s.mapInfo[id].service)
              && TriedPos(e, info.service) == TriedPos(e, s.mapInfo[id].service)
  {
    if id !in s.mapInfo {
      SettledKeepsInv(e, s, id);
    } else {
      var a := s.mapInfo[id].service;
      var b, p := TriedBucket(e, a), TriedPos(e, a);
      assert TriedSlotOk(e, s.mapInfo, b, p, s.vvTried[b][p]);
    }
  }

  // ----- whole runs -----

  datatype Op =
    | AddOp(addr: Address, source: NetAddr, nTimePenalty: int, now: int, lucky: bool)
    | GoodOp(service: Service, testBeforeEvict: bool, time: int)
    | AttemptOp(service: Service, fCountFailure: bool, time: int)
    | ConnectedOp(service: Service, time: int)
    | GetAddrOp(picks: seq<nat>)
    | ResolveOp(order: seq<int>, now: int)
    | SelectOp(id: int)

  /** Times are those of a working clock, and draws are within range. */
  ghost predicate Allowed(s: State, op: Op) {
    match op
    case GoodOp(_, _, time) => time > 0
    case AttemptOp(_, _, time) => time >= 0
    case GetAddrOp(picks) =>
      |picks| <= |s.vRandom| && forall i | 0 <= i < |picks| :: i <= picks[i] < |s.vRandom|
    case ResolveOp(order, now) => now > 0 && forall id | id in order :: id in s.collisions
    case SelectOp(id) => id in s.collisions
    case _ => true
  }

  function Step(e: Env, s: State, op: Op): State
    requires Inv(e, s) && Allowed(s, op)
  {
    match op
    case AddOp(addr, source, penalty, now, lucky) => Add(e, s, addr, source, penalty, now, lucky).0
    case GoodOp(service, testBeforeEvict, time) => Good(e, s, service, testBeforeEvict, time)
    case AttemptOp(service, fCountFailure, time) => Attempt(s, service, fCountFailure, time)
    case ConnectedOp(service, time) => Connected(s, service, time)
    case GetAddrOp(picks) => Shuffle(s, 0, picks)
    case ResolveOp(order, now) => Resolve(e, s, order, now)
    case SelectOp(id) => SelectTriedCollision(e, s, id).0
  }

  lemma StepKeepsInv(e: Env, s: State, op: Op)
    requires Inv(e, s) && Allowed(s, op)
    ensures Inv(e, Step(e, s, op)) && Evolves(s, Step(e, s, op))
  {
    hide InvExcept, Indexed, Good, Add, Collided, Evolves, Resolve, Shuffle, SelectTriedCollision;
    InvHas(e, s, {});
    match op
    case AddOp(addr, source, penalty, now, lucky) => AddKeepsInv(e, s, addr, source, penalty, now, lucky);
    case GoodOp(service, testBeforeEvict, time) => GoodKeepsInv(e, s, service, testBeforeEvict, time);
    case AttemptOp(service, fCountFailure, time) => AttemptKeepsInv(e, s, service, fCountFailure, time);
    case ConnectedOp(service, time) => ConnectedKeepsInv(e, s, service, time);
    case GetAddrOp(picks) => ShuffleKeepsInv(e, s, 0, picks);
    case ResolveOp(order, now) => ResolveKeepsInv(e, s, order, now);
    case SelectOp(id) => SelectedIsTried(e, s, id);
  }

  lemma AttemptKeepsInv(e: Env, s: State, addr: Service, fCountFailure: bool, time: int)
    requires Inv(e, s) && time >= 0
    ensures Inv(e, Attempt(s, addr, fCountFailure, time)) && Evolves(s, Attempt(s, addr, fCountFailure, time))
  {
    hide InvExcept, Indexed, Collided, Evolves;
    InvHas(e, s, {});
    EvolvesReflexive(s);
    if addr.addr in s.mapAddr && s.mapInfo[s.mapAddr[addr.addr]].service == addr {
      var id := s.mapAddr[addr.addr];
      StatsEvolve(e, s, id, Attempt(s, addr, fCountFailure, time).mapInfo[id]);
    }
  }

  lemma ConnectedKeepsInv(e: Env, s: State, addr: Service, time: int)
    requires Inv(e, s)
    ensures Inv(e, Connected(s, addr, time)) && Evolves(s, Connected(s, addr, time))
  {
    hide InvExcept, Indexed, Collided, Evolves;
    InvHas(e, s, {});
    EvolvesReflexive(s);
    if addr.addr in s.mapAddr && s.mapInfo[s.mapAddr[addr.addr]].service == addr {
      var id := s.mapAddr[addr.addr];
      StatsEvolve(e, s, id, s.mapInfo[id].(nTime := time));
    }
  }

  lemma InitInv(e: Env)
    ensures Inv(e, Init())
  {
    var s := Init();
    assert TriedIds(s.mapInfo) == {} && NewIds(s.mapInfo) == {};
  }

  /** `ss` are the states passed by the operations `ops` on a new manager. */
  ghost predicate IsRun(e: Env, ss: seq<State>, ops: seq<Op>) {
    && |ss| == |ops| + 1 && ss[0] == Init()
    && forall i | 0 <= i < |ops| ::
         Inv(e, ss[i]) ==> Allowed(ss[i], ops[i]) && ss[i + 1] == Step(e, ss[i], ops[i])
  }

  /** Every reachable state is consistent. */
  lemma {:induction false} RunKeepsInv(e: Env, ss: seq<State>, ops: seq<Op>, n: nat)
    requires IsRun(e, ss, ops) && n < |ss|
    ensures Inv(e, ss[n])
  {
    if n == 0 {
      InitInv(e);
    } else {
      hide Inv, Step;
      RunKeepsInv(e, ss, ops, n - 1);
      StepKeepsInv(e, ss[n - 1], ops[n - 1]);
    }
  }

  /** Over any stretch of a run tried slots stay filled and ids keep their addresses. */
  lemma {:induction false} RunEvolves(e: Env, ss: seq<State>, ops: seq<Op>, i: nat, n: nat)
    requires IsRun(e, ss, ops) && i <= n < |ss|
    ensures Evolves(ss[i], ss[n])
    decreases n - i
  {
    hide InvExcept, Step, Evolves, Collided;
    RunKeepsInv(e, ss, ops, n);
    InvHas(e, ss[n], {});
    if i == n {
      EvolvesReflexive(ss[n]);
    } else {
      RunEvolves(e, ss, ops, i, n - 1);
      RunKeepsInv(e, ss, ops, n - 1);
      StepKeepsInv(e, ss[n - 1], ops[n - 1]);
      EvolvesTransitive(ss[i], ss[n - 1], ss[n]);
    }
  }

  /** The vector holds exactly the tried and the new entries. */
  lemma SizeIsSum(e: Env, s: State)
    requires Inv(e, s)
    ensures |s.vRandom| == s.nTried + s.nNew == |s.mapInfo|
  {
    var m := s.mapInfo;
    assert TriedIds(m) + NewIds(m) == m.Keys && TriedIds(m) !! NewIds(m);
    PlacesAreKeys(m, s.vRandom);
  }

  ghost function Listed(vRandom: seq<int>): set<int> { set i | 0 <= i < |vRandom| :: vRandom[i] }

  lemma {:induction false} DistinctListed(vRandom: seq<int>)
    requires forall i, j | 0 <= i < j < |vRandom| :: vRandom[i] != vRandom[j]
    ensures |Listed(vRandom)| == |vRandom|
  {
    if vRandom != [] {
      var last := |vRandom| - 1;
      DistinctListed(vRandom[..last]);
      assert Listed(vRandom) == Listed(vRandom[..last]) + {vRandom[last]};
      assert vRandom[last] !in Listed(vRandom[..last]);
    }
  }

  lemma PlacesAreKeys(m: Infos, vRandom: seq<int>)
    requires Indexed(m, vRandom)
    ensures |vRandom| == |m.Keys|
  {
    assert forall i, j | 0 <= i < j < |vRandom| :: vRandom[i] != vRandom[j];
    DistinctListed(vRandom);
    forall id ensures id in m <==> id in Listed(vRandom) {
      if id in m {
        assert HasPlace(m[id].nRandomPos, vRandom, id);
      }
    }
    assert Listed(vRandom) == m.Keys;
  }
}
