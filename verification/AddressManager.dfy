/**
 CAddrMan in place: the two bucket tables are arrays, the maps and the vector are fields. Each
 method is tied to the function on `State` values of the same name.
 */
module AddressManager {
  import opened Numbers
  import opened Sequences
  import opened AddrMan

  ghost function Rows(a: array2<int>): Table
    reads a
  {
    seq(a.Length0, b requires 0 <= b < a.Length0 reads a =>
      seq(a.Length1, p requires 0 <= p < a.Length1 reads a => a[b, p]))
  }

  /** Two tables of one shape are equal when their slots are. */
  lemma SameTable(t: Table, t': Table, n: nat)
    requires IsTable(t, n) && IsTable(t', n)
    requires forall b, p | 0 <= b < n && 0 <= p < BUCKET_SIZE :: t[b][p] == t'[b][p]
    ensures t == t'
  {
    forall b | 0 <= b < n ensures t[b] == t'[b] {
    }
  }

  /** Buckets below `k` in which the address holds its slot. */
  function HeldBelow(e: Env, t: Table, a: Service, id: int, k: nat): set<int>
    requires IsTable(t, NEW_BUCKET_COUNT) && k <= NEW_BUCKET_COUNT
  {
    set b | 0 <= b < k && t[b][NewPos(e, a, b)] == id
  }

  function ForgetBelow(e: Env, t: Table, a: Service, id: int, k: nat): Table
    requires IsTable(t, NEW_BUCKET_COUNT) && k <= NEW_BUCKET_COUNT
  {
    seq(NEW_BUCKET_COUNT, b requires 0 <= b < NEW_BUCKET_COUNT =>
      if b < k then Without(t[b], NewPos(e, a, b), id) else t[b])
  }

  lemma ForgetStep(e: Env, t: Table, a: Service, id: int, k: nat)
    requires IsTable(t, NEW_BUCKET_COUNT) && k < NEW_BUCKET_COUNT
    ensures ForgetBelow(e, t, a, id, k)[k] == t[k]
    ensures IsTable(ForgetBelow(e, t, a, id, k), NEW_BUCKET_COUNT)
    ensures if t[k][NewPos(e, a, k)] == id then
              && ForgetBelow(e, t, a, id, k + 1) == SetSlot(ForgetBelow(e, t, a, id, k), k, NewPos(e, a, k), -1)
              && HeldBelow(e, t, a, id, k + 1) == HeldBelow(e, t, a, id, k) + {k}
              && |HeldBelow(e, t, a, id, k + 1)| == |HeldBelow(e, t, a, id, k)| + 1
            else
              && ForgetBelow(e, t, a, id, k + 1) == ForgetBelow(e, t, a, id, k)
              && HeldBelow(e, t, a, id, k + 1) == HeldBelow(e, t, a, id, k)
  {
    if t[k][NewPos(e, a, k)] == id {
      assert HeldBelow(e, t, a, id, k + 1) == HeldBelow(e, t, a, id, k) + {k};
      assert k !in HeldBelow(e, t, a, id, k);
    }
  }

  lemma ForgetAll(e: Env, t: Table, a: Service, id: int)
    requires IsTable(t, NEW_BUCKET_COUNT)
    ensures ForgetBelow(e, t, a, id, 0) == t && HeldBelow(e, t, a, id, 0) == {}
    ensures ForgetBelow(e, t, a, id, NEW_BUCKET_COUNT) == ForgetInTable(e, t, a, id)
    ensures HeldBelow(e, t, a, id, NEW_BUCKET_COUNT) == Held(e, t, a, id)
  {
  }

  class AddrManager {
    const e: Env
    var nIdCount: int
    var mapInfo: map<int, Info>
    var mapAddr: map<NetAddr, int>
    var vRandom: seq<int>
    var nTried: int
    const vvTried: array2<int>
    var nNew: int
    const vvNew: array2<int>
    var nLastGood: int
    var collisions: set<int>

    ghost predicate Shape() {
      && vvTried != vvNew
      && vvTried.Length0 == TRIED_BUCKET_COUNT && vvNew.Length0 == NEW_BUCKET_COUNT
      && vvTried.Length1 == BUCKET_SIZE && vvNew.Length1 == BUCKET_SIZE
    }

    ghost function Value(): (s: State)
      reads this, vvTried, vvNew
    {
      State(nIdCount, mapInfo, mapAddr, vRandom, nTried, Rows(vvTried), nNew, Rows(vvNew), nLastGood, collisions)
    }

    ghost predicate Valid()
      reads this, vvTried, vvNew
    {
      Shape() && Inv(e, Value())
    }

    constructor (env: Env)
      ensures Valid() && e == env && Value() == Init()
      ensures fresh(vvTried) && fresh(vvNew)
    {
      e := env;
      vvTried := new int[TRIED_BUCKET_COUNT, BUCKET_SIZE]((b, p) => -1);
      vvNew := new int[NEW_BUCKET_COUNT, BUCKET_SIZE]((b, p) => -1);
      mapInfo, mapAddr, vRandom, collisions := map[], map[], [], {};
      nIdCount, nTried, nNew, nLastGood := 0, 0, 0, 1;
      new;
      SameTable(Rows(vvTried), EmptyTable(TRIED_BUCKET_COUNT), TRIED_BUCKET_COUNT);
      SameTable(Rows(vvNew), EmptyTable(NEW_BUCKET_COUNT), NEW_BUCKET_COUNT);
      InitInv(env);
    }

    function NewAt(b: nat, p: nat): (id: int)
      requires Shape() && b < NEW_BUCKET_COUNT && p < BUCKET_SIZE
      reads this, vvTried, vvNew
      ensures Tables(Value()) && id == Value().vvNew[b][p]
    {
      vvNew[b, p]
    }

    function TriedAt(b: nat, p: nat): (id: int)
      requires Shape() && b < TRIED_BUCKET_COUNT && p < BUCKET_SIZE
      reads this, vvTried, vvNew
      ensures Tables(Value()) && id == Value().vvTried[b][p]
    {
      vvTried[b, p]
    }

    method SetNew(b: nat, p: nat, id: int)
      requires Shape() && b < NEW_BUCKET_COUNT && p < BUCKET_SIZE
      modifies vvNew
      ensures Tables(Value()) && Tables(old(Value()))
      ensures Value() == old(Value()).(vvNew := SetSlot(old(Value()).vvNew, b, p, id))
    {
      vvNew[b, p] := id;
      SameTable(Rows(vvNew), SetSlot(old(Rows(vvNew)), b, p, id), NEW_BUCKET_COUNT);
    }

    method SetTried(b: nat, p: nat, id: int)
      requires Shape() && b < TRIED_BUCKET_COUNT && p < BUCKET_SIZE
      modifies vvTried
      ensures Tables(Value()) && Tables(old(Value()))
      ensures Value() == old(Value()).(vvTried := SetSlot(old(Value()).vvTried, b, p, id))
    {
      vvTried[b, p] := id;
      SameTable(Rows(vvTried), SetSlot(old(Rows(vvTried)), b, p, id), TRIED_BUCKET_COUNT);
    }

    method SwapRandom(i: nat, j: nat)
      requires Indexed(mapInfo, vRandom) && i < |vRandom| && j < |vRandom|
      modifies this
      ensures Value() == AddrMan.SwapRandom(old(Value()), i, j)
    {
      if i == j {
        return;
      }
      var id1, id2 := vRandom[i], vRandom[j];
      mapInfo := mapInfo[id1 := mapInfo[id1].(nRandomPos := j)];
      mapInfo := mapInfo[id2 := mapInfo[id2].(nRandomPos := i)];
      vRandom := vRandom[i := id2];
      vRandom := vRandom[j := id1];
    }

    method Delete(id: int)
      requires Indexed(mapInfo, vRandom) && id in mapInfo
      requires !mapInfo[id].fInTried && mapInfo[id].nRefCount == 0
      modifies this
      ensures Value() == AddrMan.Delete(old(Value()), id)
    {
      assert HasPlace(mapInfo[id].nRandomPos, vRandom, id);
      MovedLastReorders(Value(), id);
      SwapRandom(mapInfo[id].nRandomPos, |vRandom| - 1);
      vRandom := vRandom[..|vRandom| - 1];
      mapAddr := mapAddr - {mapInfo[id].service.addr};
      mapInfo := mapInfo - {id};
      nNew := nNew - 1;
    }

    /** The state with `off` added to nNew: MakeTried lowers nNew before the tables follow. */
    ghost function Adjusted(off: int): State
      reads this, vvTried, vvNew
    {
      Value().(nNew := nNew + off)
    }

    method ClearNew(b: nat, p: nat, ghost off: int, ghost loose: set<int>)
      requires Shape() && InvExcept(e, Adjusted(off), loose) && b < NEW_BUCKET_COUNT && p < BUCKET_SIZE
      modifies this, vvNew
      ensures old(Value()).vvNew[b][p] == -1 || old(Value()).vvNew[b][p] in old(Value()).mapInfo
      ensures Adjusted(off) == AddrMan.ClearNew(old(Adjusted(off)), b, p)
    {
      hide InvExcept, Rows, Addressed, AddrMan.Delete;
      ghost var s := Adjusted(off);
      InvHas(e, s, loose);
      ClearNewKeepsInv(e, s, b, p, loose);
      var id := NewAt(b, p);
      if id != -1 {
        ClearSlotKeepsInv(e, s, b, p, loose);
        var info := mapInfo[id];
        assert info.nRefCount > 0;
        mapInfo := mapInfo[id := info.(nRefCount := info.nRefCount - 1)];
        SetNew(b, p, -1);
        assert Adjusted(off) == ClearSlot(s, b, p);
        if mapInfo[id].nRefCount == 0 {
          InvHas(e, Adjusted(off), loose + {id});
          DeleteShift(Value(), id, off);
          Delete(id);
        }
      }
    }

    /** MakeTried, first loop. */
    method ForgetNew(id: int)
      requires Shape() && id in mapInfo
      modifies this, vvNew
      ensures Value() == AddrMan.ForgetNew(e, old(Value()), id)
    {
      hide Rows, HeldBelow, ForgetBelow;
      ghost var t := Value().vvNew;
      ghost var _ := NewAt(0, 0);
      var info := mapInfo[id];
      ForgetAll(e, t, info.service, id);
      assert mapInfo[id := info] == mapInfo;
      for bucket := 0 to NEW_BUCKET_COUNT
        invariant id in mapInfo
        invariant Value() == old(Value()).(
            mapInfo := old(mapInfo)[id := info.(nRefCount :=
                                                info.nRefCount - |HeldBelow(e, t, info.service, id, bucket)|)],
            vvNew := ForgetBelow(e, t, info.service, id, bucket))
      {
        ForgetStep(e, t, info.service, id, bucket);
        var pos := NewPos(e, info.service, bucket);
        if NewAt(bucket, pos) == id {
          SetNew(bucket, pos, -1);
          mapInfo := mapInfo[id := mapInfo[id].(nRefCount := mapInfo[id].nRefCount - 1)];
        }
      }
    }

    /** MakeTried, second part: the entry in the wanted tried slot moves back to the new table. */
    method MakeRoom(b: nat, p: nat, ghost loose: set<int>)
      requires Shape() && InvExcept(e, Adjusted(1), loose) && b < TRIED_BUCKET_COUNT && p < BUCKET_SIZE
      modifies this, vvTried, vvNew
      ensures Adjusted(1) == AddrMan.MakeRoom(e, old(Adjusted(1)), b, p, loose)
    {
      hide InvExcept, Indexed, Addressed, Rows, Held, AddrMan.ClearNew;
      ghost var s1 := Adjusted(1);
      InvHas(e, s1, loose);
      var id := TriedAt(b, p);
      if id != -1 {
        EvictKeepsInv(e, s1, b, p, loose);
        mapInfo := mapInfo[id := mapInfo[id].(fInTried := false)];
        SetTried(b, p, -1);
        nTried := nTried - 1;
        assert Adjusted(2) == Evict(s1, b, p);
        var info := mapInfo[id];
        var nb := NewBucket(e, info.service, info.source);
        var np := NewPos(e, info.service, nb);
        EvictedSurvives(e, Adjusted(2), nb, np, id, loose + {id});
        ClearNew(nb, np, 2, loose + {id});
        assert NewAt(nb, np) == -1;
        mapInfo := mapInfo[id := mapInfo[id].(nRefCount := 1)];
        SetNew(nb, np, id);
        nNew := nNew + 1;
      }
    }

    method MakeTried(id: int)
      requires Shape() && InvExcept(e, Value(), {}) && id in mapInfo
      requires !mapInfo[id].fInTried && mapInfo[id].nLastSuccess > 0
      modifies this, vvTried, vvNew
      ensures Value() == AddrMan.MakeTried(e, old(Value()), id)
    {
      hide InvExcept, Indexed, Addressed, Rows, AddrMan.ForgetNew, AddrMan.MakeRoom;
      InvHas(e, Value(), {});
      ForgetKeepsInv(e, Value(), id, {});
      assert {} + {id} == {id};
      ForgetNew(id);
      ghost var s1 := Value();
      InvHas(e, s1, {id});
      nNew := nNew - 1;
      assert mapInfo[id].nRefCount == 0;
      var a := mapInfo[id].service;
      var b, p := TriedBucket(e, a), TriedPos(e, a);
      assert Adjusted(1) == s1;
      MakeRoomKeepsInv(e, s1, b, p, {id});
      MakeRoom(b, p, {id});
      InvHas(e, Adjusted(1), {id});
      assert TriedAt(b, p) == -1;
      SetTried(b, p, id);
      nTried := nTried + 1;
      mapInfo := mapInfo[id := mapInfo[id].(fInTried := true)];
    }

    /** The search for a bucket an entry is in, starting anywhere. */
    method FindBucket(id: int, a: Service, nRnd: nat) returns (nUBucket: int)
      requires Shape() && Tables(Value())
      ensures nUBucket == -1 <==> Held(e, Value().vvNew, a, id) == {}
      ensures nUBucket != -1 ==> nUBucket in Held(e, Value().vvNew, a, id)
    {
      hide Rows;
      nUBucket := -1;
      for n := 0 to NEW_BUCKET_COUNT
        invariant nUBucket == -1
        invariant forall k | 0 <= k < n :: !HoldsAt(id, a, nRnd, k)
      {
        var nB := (n + nRnd) % NEW_BUCKET_COUNT;
        if NewAt(nB, NewPos(e, a, nB)) == id {
          HeldIff(e, Value().vvNew, a, id, nB);
          return nB;
        }
      }
      forall b | 0 <= b < NEW_BUCKET_COUNT ensures b !in Held(e, Value().vvNew, a, id) {
        var k := (b - nRnd) % NEW_BUCKET_COUNT;
        assert (k + nRnd) % NEW_BUCKET_COUNT == b;
        assert !HoldsAt(id, a, nRnd, k);
        HeldIff(e, Value().vvNew, a, id, b);
      }
    }

    ghost predicate HoldsAt(id: int, a: Service, nRnd: nat, k: nat)
      requires Shape()
      reads this, vvTried, vvNew
    {
      var b := (k + nRnd) % NEW_BUCKET_COUNT;
      NewAt(b, NewPos(e, a, b)) == id
    }

    method Good(addr: Service, testBeforeEvict: bool, time: int, nRnd: nat)
      requires Valid() && time > 0
      modifies this, vvTried, vvNew
      ensures Valid() && Value() == AddrMan.Good(e, old(Value()), addr, testBeforeEvict, time)
    {
      hide InvExcept, Indexed, Rows, Held, Collided, AddrMan.MakeTried;
      ghost var s := Value();
      InvHas(e, s, {});
      GoodKeepsInv(e, s, addr, testBeforeEvict, time);
      nLastGood := time;
      if addr.addr !in mapAddr {
        return;
      }
      var id := mapAddr[addr.addr];
      if mapInfo[id].service != addr {
        return;
      }
      GoodStats(e, s, id, time);
      mapInfo := mapInfo[id := mapInfo[id].(nLastSuccess := time, nLastTry := time, nAttempts := 0)];
      if mapInfo[id].fInTried {
        return;
      }
      var nUBucket := FindBucket(id, addr, nRnd);
      NewEntryIsFound(e, s, id);
      assert nUBucket != -1;
      if testBeforeEvict && TriedAt(TriedBucket(e, addr), TriedPos(e, addr)) != -1 {
        if |collisions| < SET_TRIED_COLLISION_SIZE {
          collisions := collisions + {id};
        }
      } else {
        MakeTried(id);
      }
    }

    method Add(addr: Address, source: NetAddr, nTimePenalty: int, now: int, draw: nat) returns (fNew: bool)
      requires Valid()
      modifies this, vvTried, vvNew
      ensures Valid() && (Value(), fNew) == AddrMan.Add(e, old(Value()), addr, source, nTimePenalty, now, draw == 0)
    {
      hide InvExcept, Indexed, Rows, Collided, Place;
      ghost var s := Value();
      InvHas(e, s, {});
      AddKeepsInv(e, s, addr, source, nTimePenalty, now, draw == 0);
      var a := addr.service.addr;
      if !e.isRoutable(a) {
        return false;
      }
      var id;
      if a in mapAddr {
        id := mapAddr[a];
        RefreshKeepsInv(e, s, id, addr, nTimePenalty, now);
        mapInfo := mapInfo[id := Refreshed(mapInfo[id], addr, nTimePenalty, now)];
        var info := mapInfo[id];
        if addr.nTime == 0 || (info.nTime != 0 && addr.nTime <= info.nTime) {
          return false;
        }
        if info.fInTried {
          return false;
        }
        if info.nRefCount == NEW_BUCKETS_PER_ADDRESS {
          return false;
        }
        var nFactor := 1;
        for n := 0 to info.nRefCount
          invariant nFactor >= 1 && (nFactor > 1 <==> n > 0)
        {
          nFactor := nFactor * 2;
        }
        if nFactor > 1 && draw != 0 {
          return false;
        }
        fNew := false;
        PlaceEntry(id, source, now, {});
      } else {
        CreateKeepsInv(e, s, addr, source, nTimePenalty);
        id := nIdCount;
        nIdCount := nIdCount + 1;
        mapInfo := mapInfo[id := Info(addr.service, Max(0, addr.nTime - nTimePenalty), addr.nServices, source,
                                      0, 0, 0, 0, 0, false, |vRandom|)];
        mapAddr := mapAddr[a := id];
        vRandom := vRandom + [id];
        nNew := nNew + 1;
        fNew := true;
        assert Value() == CreateNew(s, addr, source, nTimePenalty);
        PlaceEntry(id, source, now, {id});
      }
    }

    /** The end of Add_: the entry takes the slot its source leads to, or gives up. */
    method PlaceEntry(id: int, source: NetAddr, now: int, ghost loose: set<int>)
      requires Shape() && InvExcept(e, Value(), loose) && id in mapInfo && !mapInfo[id].fInTried
      modifies this, vvNew
      ensures Value() == Place(e, old(Value()), id, source, now, loose)
    {
      hide InvExcept, Rows, Addressed, AddrMan.ClearNew, AddrMan.Delete;
      ghost var s := Value();
      InvHas(e, s, loose);
      var a := mapInfo[id].service;
      var b := NewBucket(e, a, source);
      var p := NewPos(e, a, b);
      ClearNewKeepsInv(e, s, b, p, loose);
      var there := NewAt(b, p);
      if there != id {
        var fInsert := there == -1;
        if !fInsert {
          var existing := mapInfo[there];
          if existing.IsTerrible(now) || (existing.nRefCount > 1 && mapInfo[id].nRefCount == 0) {
            fInsert := true;
          }
        }
        if fInsert {
          ClearNewFrame(e, s, b, p, loose);
          assert Adjusted(0) == s;
          ClearNew(b, p, 0, loose);
          assert Value() == Adjusted(0);
          mapInfo := mapInfo[id := mapInfo[id].(nRefCount := mapInfo[id].nRefCount + 1)];
          SetNew(b, p, id);
        } else if mapInfo[id].nRefCount == 0 {
          Delete(id);
        }
      }
    }

    method Attempt(addr: Service, fCountFailure: bool, time: int)
      requires Valid() && time >= 0
      modifies this
      ensures Valid() && Value() == AddrMan.Attempt(old(Value()), addr, fCountFailure, time)
    {
      hide InvExcept, Indexed, Rows, Collided, Evolves;
      InvHas(e, Value(), {});
      AttemptKeepsInv(e, Value(), addr, fCountFailure, time);
      if addr.addr !in mapAddr || mapInfo[mapAddr[addr.addr]].service != addr {
        return;
      }
      var id := mapAddr[addr.addr];
      var info := mapInfo[id].(nLastTry := time);
      if fCountFailure && info.nLastCountAttempt < nLastGood {
        info := info.(nLastCountAttempt := time, nAttempts := info.nAttempts + 1);
      }
      mapInfo := mapInfo[id := info];
    }

    method Connected(addr: Service, time: int)
      requires Valid()
      modifies this
      ensures Valid() && Value() == AddrMan.Connected(old(Value()), addr, time)
    {
      hide InvExcept, Indexed, Rows, Collided, Evolves;
      InvHas(e, Value(), {});
      ConnectedKeepsInv(e, Value(), addr, time);
      if addr.addr !in mapAddr || mapInfo[mapAddr[addr.addr]].service != addr {
        return;
      }
      var id := mapAddr[addr.addr];
      if time - mapInfo[id].nTime > 20 * 60 {
        mapInfo := mapInfo[id := mapInfo[id].(nTime := time)];
      }
    }

    /**
     GetAddr_: a random selection without bad entries. It walks a freshly shuffled vector from the
     front and stops only once it has enough or has seen everybody.
     */
    method GetAddr(now: int) returns (vAddr: seq<Address>, ghost picks: seq<nat>, ghost seen: nat)
      requires Valid()
      modifies this
      ensures Valid() && Allowed(old(Value()), GetAddrOp(picks)) && Value() == Shuffle(old(Value()), 0, picks)
      ensures seen <= |vRandom| && vAddr == Presentable(mapInfo, vRandom[..seen], now)
      ensures |vAddr| <= GetAddrLimit(|vRandom|)
      ensures seen == |vRandom| || |vAddr| == GetAddrLimit(|vRandom|)
    {
      hide InvExcept, Indexed, Addressed, Rows, Collided, Evolves, AddrMan.SwapRandom, Inv, Shuffle, Presentable;
      InvHasIndex(e, Value());
      GetAddrStart(Value(), now);
      var nNodes := GetAddrLimit(|vRandom|);
      vAddr, picks, seen := [], [], 0;
      var n := 0;
      while n < |vRandom|
        invariant n == seen == |picks| <= |vRandom| == |old(vRandom)|
        invariant Inv(e, Value()) && Indexed(mapInfo, vRandom) && Indexed(old(mapInfo), old(vRandom))
        invariant forall i | 0 <= i < |vRandom| :: vRandom[i] in mapInfo
        invariant forall i | 0 <= i < n :: i <= picks[i] < |vRandom|
        invariant Value() == Shuffle(old(Value()), 0, picks)
        invariant vAddr == Presentable(mapInfo, vRandom[..n], now)
        invariant |vAddr| <= nNodes
      {
        if |vAddr| >= nNodes {
          break;
        }
        var nRndPos: nat :| n <= nRndPos < |vRandom|;
        ShuffleStep(e, old(Value()), Value(), picks, n, nRndPos, now);
        SwapRandom(n, nRndPos);
        picks := picks + [nRndPos];
        if !mapInfo[vRandom[n]].IsTerrible(now) {
          vAddr := vAddr + [AddressOf(mapInfo[vRandom[n]])];
        }
        n := n + 1;
        seen := n;
      }
    }

    /** Walks the pending collisions in increasing order, as the ordered set is walked. */
    method ResolveCollisions(now: int) returns (ghost order: seq<int>)
      requires Valid() && now > 0
      modifies this, vvTried, vvNew
      ensures forall id :: id in order <==> id in old(collisions)
      ensures forall i, j | 0 <= i < j < |order| :: order[i] < order[j]
      ensures Valid() && Value() == Resolve(e, old(Value()), order, now)
    {
      hide InvExcept, Indexed, Addressed, Rows, Collided, Evolves, AddrMan.Good, Inv, ResolveOne;
      order := [];
      var todo := collisions;
      while todo != {}
        invariant Inv(e, Value()) && Inv(e, old(Value()))
        invariant todo <= old(collisions)
        invariant forall id :: id in order <==> id in old(collisions) && id !in todo
        invariant forall i, j | 0 <= i < j < |order| :: order[i] < order[j]
        invariant forall i, id | 0 <= i < |order| && id in todo :: order[i] < id
        invariant Value() == Resolve(e, old(Value()), order, now)
        decreases todo
      {
        var id := Smallest(todo);
        ResolveOneKeepsInv(e, Value(), id, now);
        ResolveAppend(e, old(Value()), order, id, now);
        ResolveId(id, now);
        todo := todo - {id};
        order := order + [id];
      }
    }

    method ResolveId(id: int, now: int)
      requires Valid() && now > 0
      modifies this, vvTried, vvNew
      ensures Value() == ResolveOne(e, old(Value()), id, now)
    {
      hide InvExcept, Indexed, Addressed, Rows, Collided, Evolves, AddrMan.Good;
      InvHas(e, Value(), {});
      var eraseCollision := false;
      if id !in mapInfo {
        eraseCollision := true;
      } else {
        var a := mapInfo[id].service;
        var there := TriedAt(TriedBucket(e, a), TriedPos(e, a));
        if !e.isValid(a.addr) {
          eraseCollision := true;
        } else if there != -1 {
          TriedOccupant(e, Value(), TriedBucket(e, a), TriedPos(e, a), {});
          var info := mapInfo[there];
          if now - info.nLastSuccess < REPLACEMENT_HOURS * (60 * 60) {
            eraseCollision := true;
          } else if now - info.nLastTry < REPLACEMENT_HOURS * (60 * 60) {
            if now - info.nLastTry > 60 {
              Good(a, false, now, 0);
              eraseCollision := true;
            }
          }
        } else {
          Good(a, false, now, 0);
          eraseCollision := true;
        }
      }
      if eraseCollision {
        collisions := collisions - {id};
      }
    }

    /** `id` is the pending id drawn; an empty answer stands for the default entry. */
    method SelectTriedCollision(id: int) returns (found: seq<Info>)
      requires Valid() && id in collisions
      modifies this
      ensures Valid() && (Value(), found) == AddrMan.SelectTriedCollision(e, old(Value()), id)
    {
      hide InvExcept, Indexed, Addressed, Rows, Evolves;
      SelectedIsTried(e, Value(), id);
      InvHas(e, Value(), {});
      if id !in mapInfo {
        collisions := collisions - {id};
        return [];
      }
      var a := mapInfo[id].service;
      TriedOccupant(e, Value(), TriedBucket(e, a), TriedPos(e, a), {});
      found := [mapInfo[TriedAt(TriedBucket(e, a), TriedPos(e, a))]];
    }
  }

  function GetAddrLimit(size: nat): nat {
    var pct := GETADDR_MAX_PCT * size / 100;
    if pct > GETADDR_MAX then GETADDR_MAX else pct
  }

  function AddressOf(info: Info): Address { Address(info.service, info.nTime, info.nServices) }

  /** The addresses of the listed entries that are not terrible, in order. */
  function Presentable(m: Infos, ids: seq<int>, now: int): seq<Address>
    requires forall i | 0 <= i < |ids| :: ids[i] in m
  {
    if ids == [] then []
    else
      var k := |ids| - 1;
      Presentable(m, ids[..k], now) + if m[ids[k]].IsTerrible(now) then [] else [AddressOf(m[ids[k]])]
  }

  lemma {:induction false} PresentableCarries(m: Infos, m': Infos, ids: seq<int>, now: int)
    requires SameButPlace(m, m') && forall i | 0 <= i < |ids| :: ids[i] in m
    ensures Presentable(m', ids, now) == Presentable(m, ids, now)
  {
    if ids != [] {
      var k := |ids| - 1;
      PresentableCarries(m, m', ids[..k], now);
      var id: int := ids[k];
      assert id in m && m'[id] == m[id].(nRandomPos := m'[id].nRandomPos);
    }
  }

  lemma PresentableAppend(m: Infos, vRandom: seq<int>, n: nat, now: int)
    requires n < |vRandom| && forall i | 0 <= i < |vRandom| :: vRandom[i] in m
    ensures Presentable(m, vRandom[..n + 1], now) ==
            Presentable(m, vRandom[..n], now) +
            if m[vRandom[n]].IsTerrible(now) then [] else [AddressOf(m[vRandom[n]])]
  {
    assert vRandom[..n + 1][..n] == vRandom[..n];
  }

  /** Swapping beyond the part already seen leaves what was collected from it. */
  lemma PresentableSwap(s: State, n: nat, j: nat, now: int)
    requires Indexed(s.mapInfo, s.vRandom) && n <= j < |s.vRandom|
    ensures var s' := AddrMan.SwapRandom(s, n, j);
            && Indexed(s'.mapInfo, s'.vRandom) && |s'.vRandom| == |s.vRandom|
            && Presentable(s'.mapInfo, s'.vRandom[..n + 1], now) ==
               Presentable(s.mapInfo, s.vRandom[..n], now) +
               if s'.mapInfo[s'.vRandom[n]].IsTerrible(now) then [] else [AddressOf(s'.mapInfo[s'.vRandom[n]])]
  {
    hide AddrMan.SwapRandom;
    SwapReorders(s, n, j);
    var s' := AddrMan.SwapRandom(s, n, j);
    assert s'.vRandom[..n] == s.vRandom[..n];
    PresentableCarries(s.mapInfo, s'.mapInfo, s.vRandom[..n], now);
    PresentableAppend(s'.mapInfo, s'.vRandom, n, now);
  }

  lemma GetAddrStart(s: State, now: int)
    requires Indexed(s.mapInfo, s.vRandom)
    ensures forall i | 0 <= i < |s.vRandom| :: s.vRandom[i] in s.mapInfo
    ensures s == Shuffle(s, 0, []) && Presentable(s.mapInfo, s.vRandom[..0], now) == []
  {
  }

  /** One step of the partial shuffle, as the listing needs it. */
  lemma ShuffleStep(e: Env, s0: State, s: State, picks: seq<nat>, n: nat, j: nat, now: int)
    requires Inv(e, s) && Indexed(s.mapInfo, s.vRandom) && Indexed(s0.mapInfo, s0.vRandom)
    requires n == |picks| && n <= j < |s.vRandom| == |s0.vRandom|
    requires forall i | 0 <= i < n :: i <= picks[i] < |s.vRandom|
    requires s == Shuffle(s0, 0, picks)
    ensures forall i | 0 <= i < n + 1 :: i <= (picks + [j])[i] < |s.vRandom|
    ensures var s' := AddrMan.SwapRandom(s, n, j);
            && Inv(e, s') && Indexed(s'.mapInfo, s'.vRandom) && |s'.vRandom| == |s.vRandom|
            && (forall i | 0 <= i < |s'.vRandom| :: s'.vRandom[i] in s'.mapInfo)
            && s' == Shuffle(s0, 0, picks + [j])
            && Presentable(s'.mapInfo, s'.vRandom[..n + 1], now) ==
               Presentable(s.mapInfo, s.vRandom[..n], now) +
               if s'.mapInfo[s'.vRandom[n]].IsTerrible(now) then [] else [AddressOf(s'.mapInfo[s'.vRandom[n]])]
  {
    hide AddrMan.SwapRandom, Inv, Shuffle, Presentable, Indexed;
    IndexedIds(s);
    SwapKeepsInv(e, s, n, j);
    ShuffleAppend(s0, 0, picks, j);
    PresentableSwap(s, n, j, now);
    IndexedIds(AddrMan.SwapRandom(s, n, j));
  }

  lemma IndexedIds(s: State)
    requires Indexed(s.mapInfo, s.vRandom)
    ensures forall i | 0 <= i < |s.vRandom| :: s.vRandom[i] in s.mapInfo
  {
  }

  lemma InvHasIndex(e: Env, s: State)
    requires Inv(e, s)
    ensures Indexed(s.mapInfo, s.vRandom)
  {
  }

  lemma {:induction false} ShuffleAppend(s: State, n: nat, picks: seq<nat>, pick: nat)
    requires Indexed(s.mapInfo, s.vRandom) && n + |picks| < |s.vRandom|
    requires pick < |s.vRandom| && forall i | 0 <= i < |picks| :: picks[i] < |s.vRandom|
    ensures var s1 := Shuffle(s, n, picks);
            && |s1.vRandom| == |s.vRandom| && Indexed(s1.mapInfo, s1.vRandom)
            && Shuffle(s, n, picks + [pick]) == AddrMan.SwapRandom(s1, n + |picks|, pick)
    decreases |picks|
  {
    hide AddrMan.SwapRandom;
    if picks == [] {
      SwapReorders(s, n, pick);
      assert (picks + [pick])[1..] == [];
    } else {
      SwapReorders(s, n, picks[0]);
      var s1 := AddrMan.SwapRandom(s, n, picks[0]);
      ShuffleAppend(s1, n + 1, picks[1..], pick);
      assert (picks + [pick])[1..] == picks[1..] + [pick];
    }
  }

  lemma {:induction false} ResolveAppend(e: Env, s: State, ids: seq<int>, id: int, now: int)
    requires Inv(e, s) && now > 0
    ensures Inv(e, Resolve(e, s, ids, now))
    ensures Resolve(e, s, ids + [id], now) == ResolveOne(e, Resolve(e, s, ids, now), id, now)
    decreases |ids|
  {
    hide Inv, ResolveOne;
    ResolveKeepsInv(e, s, ids, now);
    if ids == [] {
      ResolveOneKeepsInv(e, s, id, now);
      assert (ids + [id])[1..] == [];
    } else {
      ResolveOneKeepsInv(e, s, ids[0], now);
      ResolveAppend(e, ResolveOne(e, s, ids[0], now), ids[1..], id, now);
      assert (ids + [id])[1..] == ids[1..] + [id];
    }
  }

  lemma DeleteShift(s: State, id: int, off: int)
    requires Indexed(s.mapInfo, s.vRandom) && id in s.mapInfo
    ensures AddrMan.Delete(s.(nNew := s.nNew + off), id) ==
            AddrMan.Delete(s, id).(nNew := AddrMan.Delete(s, id).nNew + off)
  {
    assert HasPlace(s.mapInfo[id].nRandomPos, s.vRandom, id);
  }
}
