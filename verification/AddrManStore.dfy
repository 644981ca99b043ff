/**
 Saving an address manager and loading it again. The saved form lists the entries and, for every
 new bucket, the entries it holds; everything else is rebuilt.
 */
module AddrManStore {
  import opened Numbers
  import opened Sequences
  import opened AddrMan

  /** The part of an entry that is written; the rest starts afresh. */
  function Stored(i: Info): Info {
    Info(i.service, i.nTime, i.nServices, i.source, 0, 0, i.nLastSuccess, i.nAttempts, 0, false, -1)
  }

  datatype Saved = Saved(
    nVersion: int,
    nKeySize: int,
    nNew: int,
    nTried: int,
    nUBuckets: int,
    news: seq<Info>,
    tried: seq<Info>,
    buckets: seq<seq<int>>)

  /** Flips bit 30. */
  function Marked(n: int): int { if n / 0x4000_0000 % 2 == 0 then n + 0x4000_0000 else n - 0x4000_0000 }

  ghost predicate IsListing<T>(q: seq<T>, ids: set<T>) {
    && (forall i, j | 0 <= i < j < |q| :: q[i] != q[j])
    && (forall i | 0 <= i < |q| :: q[i] in ids)
    && (forall x | x in ids :: x in q)
  }

  lemma {:induction false} ListingSize<T>(q: seq<T>, ids: set<T>)
    requires IsListing(q, ids)
    ensures |q| == |ids|
  {
    if q == [] {
      assert ids == {};
    } else {
      var n := |q| - 1;
      forall x | x in ids - {q[n]} ensures x in q[..n] {
        var i :| 0 <= i < |q| && q[i] == x;
        assert q[..n][i] == x;
      }
      ListingSize(q[..n], ids - {q[n]});
    }
  }

  /** All ids of a manager, the new ones first, without repetition. */
  ghost predicate Lists(s: State, news: seq<int>, tried: seq<int>) {
    IsListing(news, NewIds(s.mapInfo)) && IsListing(tried, TriedIds(s.mapInfo))
  }

  lemma PlaceOf(s: State, news: seq<int>, tried: seq<int>, id: int)
    requires Lists(s, news, tried)
    ensures Find(news + tried, id) <= |news + tried| && (Find(news + tried, id) < |news + tried| <==> id in s.mapInfo)
    ensures id in s.mapInfo ==> (news + tried)[Find(news + tried, id)] == id
    ensures id in s.mapInfo ==> (Find(news + tried, id) < |news| <==> !s.mapInfo[id].fInTried)
    ensures id in NewIds(s.mapInfo) ==> Find(news, id) == Find(news + tried, id)
  {
    hide Find;
    var all := news + tried;
    FindIs(all, id);
    FindIs(news, id);
    if id in s.mapInfo {
      if s.mapInfo[id].fInTried {
        assert id in TriedIds(s.mapInfo) && id in tried;
        var i :| 0 <= i < |tried| && tried[i] == id;
        assert all[|news| + i] == id;
        assert forall j | 0 <= j < |news| :: all[j] == news[j] && news[j] in NewIds(s.mapInfo);
      } else {
        assert id in NewIds(s.mapInfo) && id in news;
        assert all[Find(news, id)] == id;
        assert forall k | 0 <= k < Find(news, id) :: all[k] == news[k];
        FindUnique(all, id, Find(news, id));
      }
    }
    if Find(all, id) < |all| {
      var k := Find(all, id);
      assert k < |news| ==> all[k] == news[k] && news[k] in NewIds(s.mapInfo);
      assert k >= |news| ==> all[k] == tried[k - |news|] && tried[k - |news|] in TriedIds(s.mapInfo);
    }
  }

  lemma PlaceAt(s: State, news: seq<int>, tried: seq<int>, k: nat)
    requires Lists(s, news, tried) && k < |news| + |tried|
    ensures var id := (news + tried)[k];
            id in s.mapInfo && Find(news + tried, id) == k && (s.mapInfo[id].fInTried <==> k >= |news|)
  {
    var all := news + tried;
    var id := all[k];
    assert k < |news| ==> id == news[k] && id in NewIds(s.mapInfo);
    assert k >= |news| ==> id == tried[k - |news|] && id in TriedIds(s.mapInfo);
    forall j | 0 <= j < k ensures all[j] != id {
      assert j < |news| ==> all[j] in NewIds(s.mapInfo);
      assert j >= |news| ==> all[j] in TriedIds(s.mapInfo);
    }
    FindUnique(all, id, k);
  }

  // ----- the saved form -----

  /** The entries of a bucket, by their number. */
  function Indices(row: seq<int>, news: seq<int>): seq<int> {
    if row == [] then []
    else
      var n := |row| - 1;
      Indices(row[..n], news) + if row[n] == -1 then [] else [Find(news, row[n])]
  }

  function SavedOf(s: State, news: seq<int>, tried: seq<int>): Saved
    requires Tables(s) && Known(s, news) && Known(s, tried)
  {
    Saved(1, 32, s.nNew, s.nTried, Marked(NEW_BUCKET_COUNT),
          seq(|news|, k requires 0 <= k < |news| => Stored(s.mapInfo[news[k]])),
          seq(|tried|, k requires 0 <= k < |tried| => Stored(s.mapInfo[tried[k]])),
          seq(NEW_BUCKET_COUNT, b requires 0 <= b < NEW_BUCKET_COUNT => Indices(s.vvNew[b], news)))
  }

  // ----- the loaded form, part by part -----

  /** Entry `k` as loaded, with a reference count. */
  function InfoAt(s: State, all: seq<int>, k: nat, ref: int): Info
    requires k < |all| && all[k] in s.mapInfo
  {
    var i := s.mapInfo[all[k]];
    Stored(i).(nRefCount := ref, fInTried := i.fInTried, nRandomPos := k)
  }

  predicate Known(s: State, all: seq<int>) { forall k | 0 <= k < |all| :: all[k] in s.mapInfo }

  function InfosOf(s: State, all: seq<int>, n: nat, refs: seq<int>): Infos
    requires Known(s, all) && n <= |all| == |refs|
  {
    map k | 0 <= k < n :: InfoAt(s, all, k, refs[k])
  }

  function AddrsOf(s: State, all: seq<int>, n: nat): map<NetAddr, int> {
    map a | a in s.mapAddr && Find(all, s.mapAddr[a]) < n :: Find(all, s.mapAddr[a])
  }

  function Iota(n: nat): seq<int> { seq(n, i => i) }

  /** An occupant under its new number, if that is below `n`. */
  function Renamed(all: seq<int>, id: int, n: nat): int { if id != -1 && Find(all, id) < n then Find(all, id) else -1 }

  function TriedOf(s: State, all: seq<int>, n: nat): Table
    requires Tables(s)
  {
    seq(TRIED_BUCKET_COUNT, b requires 0 <= b < TRIED_BUCKET_COUNT =>
      seq(BUCKET_SIZE, p requires 0 <= p < BUCKET_SIZE => Renamed(all, s.vvTried[b][p], n)))
  }

  /** A new slot once the buckets below `b`, and the listed entries of bucket `b`, have been put back. */
  function NewCell(s: State, all: seq<int>, b: nat, done: seq<int>, c: nat, p: nat): int
    requires Tables(s) && c < NEW_BUCKET_COUNT && p < BUCKET_SIZE
  {
    var id := s.vvNew[c][p];
    if id != -1 && (c < b || (c == b && Find(all, id) in done)) then Find(all, id) else -1
  }

  function NewOf(s: State, all: seq<int>, b: nat, done: seq<int>): Table
    requires Tables(s)
  {
    seq(NEW_BUCKET_COUNT, c requires 0 <= c < NEW_BUCKET_COUNT =>
      seq(BUCKET_SIZE, p requires 0 <= p < BUCKET_SIZE => NewCell(s, all, b, done, c, p)))
  }

  function HeldUpTo(e: Env, t: Table, a: Service, id: int, n: nat): set<int>
    requires IsTable(t, NEW_BUCKET_COUNT)
  {
    set b | 0 <= b < NEW_BUCKET_COUNT && b < n && t[b][NewPos(e, a, b)] == id
  }

  function RefAt(e: Env, s: State, all: seq<int>, b: nat, done: seq<int>, k: nat): int
    requires Tables(s) && Known(s, all) && k < |all|
  {
    |HeldUpTo(e, s.vvNew, s.mapInfo[all[k]].service, all[k], b)| + if k in done then 1 else 0
  }

  function RefsOf(e: Env, s: State, all: seq<int>, b: nat, done: seq<int>): seq<int>
    requires Tables(s) && Known(s, all)
  {
    seq(|all|, k requires 0 <= k < |all| => RefAt(e, s, all, b, done, k))
  }

  /** The same manager with its ids renamed to 0, 1, 2, ... in the order of the listing. */
  function Reloaded(e: Env, s: State, all: seq<int>): State
    requires Tables(s) && Known(s, all)
  {
    State(|all|, InfosOf(s, all, |all|, RefsOf(e, s, all, NEW_BUCKET_COUNT, [])), AddrsOf(s, all, |all|), Iota(|all|),
          s.nTried, TriedOf(s, all, |all|), s.nNew, NewOf(s, all, NEW_BUCKET_COUNT, []), 1, {})
  }

  // ----- one more entry -----

  ghost predicate Ready(e: Env, s: State, news: seq<int>, tried: seq<int>) { Inv(e, s) && Lists(s, news, tried) }

  lemma ReadyKnown(e: Env, s: State, news: seq<int>, tried: seq<int>)
    requires Ready(e, s, news, tried)
    ensures Tables(s) && Known(s, news + tried) && -1 !in s.mapInfo
    ensures |news| == s.nNew && |tried| == s.nTried
  {
    hide IsListing;
    InvHas(e, s, {});
    assert Counted(s.mapInfo, s.nTried, s.nNew);
    ListingSize(news, NewIds(s.mapInfo));
    ListingSize(tried, TriedIds(s.mapInfo));
    forall k | 0 <= k < |news + tried| ensures (news + tried)[k] in s.mapInfo { PlaceAt(s, news, tried, k); }
  }

  lemma AddrsStep(e: Env, s: State, news: seq<int>, tried: seq<int>, n: nat)
    requires Ready(e, s, news, tried) && n < |news| + |tried|
    ensures var all := news + tried;
            all[n] in s.mapInfo && AddrsOf(s, all, n + 1) == AddrsOf(s, all, n)[s.mapInfo[all[n]].service.addr := n]
  {
    hide Lists, Indexed, NewSlots, TriedSlots, AllReferenced, AllSeated, Collided;
    var all := news + tried;
    PlaceAt(s, news, tried, n);
    var a := s.mapInfo[all[n]].service.addr;
    assert s.mapAddr[a] == all[n];
    forall c | c in s.mapAddr ensures Find(all, s.mapAddr[c]) == n <==> c == a {
      PlaceOf(s, news, tried, s.mapAddr[c]);
    }
  }

  lemma TriedStep(e: Env, s: State, news: seq<int>, tried: seq<int>, n: nat)
    requires Ready(e, s, news, tried) && n < |news| + |tried|
    ensures var all := news + tried;
            && all[n] in s.mapInfo && Tables(s)
            && var a := s.mapInfo[all[n]].service;
               if n < |news| then TriedOf(s, all, n + 1) == TriedOf(s, all, n)
               else TriedOf(s, all, n)[TriedBucket(e, a)][TriedPos(e, a)] == -1
                    && TriedOf(s, all, n + 1) == SetSlot(TriedOf(s, all, n), TriedBucket(e, a), TriedPos(e, a), n)
  {
    hide Lists, Indexed, Addressed, NewSlots, AllReferenced, Collided;
    var all := news + tried;
    PlaceAt(s, news, tried, n);
    var id := all[n];
    forall b, p | 0 <= b < TRIED_BUCKET_COUNT && 0 <= p < BUCKET_SIZE
      ensures var x := s.vvTried[b][p];
              && (x != -1 ==> x in s.mapInfo && s.mapInfo[x].fInTried && (Find(all, x) == n <==> x == id))
              && (x == id ==> b == TriedBucket(e, s.mapInfo[id].service) && p == TriedPos(e, s.mapInfo[id].service))
    {
      assert TriedSlotOk(e, s.mapInfo, b, p, s.vvTried[b][p]);
      PlaceOf(s, news, tried, s.vvTried[b][p]);
    }
    var t, t' := TriedOf(s, all, n), TriedOf(s, all, n + 1);
    if n < |news| {
      forall b, p | 0 <= b < TRIED_BUCKET_COUNT && 0 <= p < BUCKET_SIZE ensures t'[b][p] == t[b][p] {
        assert s.vvTried[b][p] != id;
      }
      SameCells(t', t);
    } else {
      assert Seated(e, s.vvTried, id, s.mapInfo[id], false);
      var b0, p0 := TriedBucket(e, s.mapInfo[id].service), TriedPos(e, s.mapInfo[id].service);
      assert s.vvTried[b0][p0] == id;
      var u := SetSlot(t, b0, p0, n);
      forall b, p | 0 <= b < TRIED_BUCKET_COUNT && 0 <= p < BUCKET_SIZE ensures t'[b][p] == u[b][p] {
        assert s.vvTried[b][p] == id <==> b == b0 && p == p0;
      }
      SameCells(t', u);
    }
  }

  lemma SameCells(t: Table, u: Table)
    requires |t| == |u| && forall b | 0 <= b < |t| :: |t[b]| == |u[b]| == BUCKET_SIZE
    requires forall b, p | 0 <= b < |t| && 0 <= p < BUCKET_SIZE :: t[b][p] == u[b][p]
    ensures t == u
  {
    forall b | 0 <= b < |t| ensures t[b] == u[b] {
      assert forall p | 0 <= p < BUCKET_SIZE :: t[b][p] == u[b][p];
    }
  }

  // ----- one more slot of a bucket -----

  lemma {:induction false} IndicesAre(row: seq<int>, news: seq<int>, k: int)
    ensures k in Indices(row, news) <==> exists p :: 0 <= p < |row| && row[p] != -1 && Find(news, row[p]) == k
  {
    hide Find;
    if row != [] {
      var n := |row| - 1;
      var last := if row[n] == -1 then [] else [Find(news, row[n])];
      assert Indices(row, news) == Indices(row[..n], news) + last;
      hide Indices;
      IndicesAre(row[..n], news, k);
      assert forall p | 0 <= p < n :: row[..n][p] == row[p];
      assert k in last <==> row[n] != -1 && Find(news, row[n]) == k;
    }
  }

  lemma {:induction false} IndicesDistinct(row: seq<int>, news: seq<int>)
    requires forall p, q | 0 <= p < q < |row| && row[p] != -1 && row[q] != -1 ::
               Find(news, row[p]) != Find(news, row[q])
    ensures var l := Indices(row, news); forall i, j | 0 <= i < j < |l| :: l[i] != l[j]
  {
    if row != [] {
      var n := |row| - 1;
      IndicesDistinct(row[..n], news);
      var l := Indices(row[..n], news);
      if row[n] != -1 {
        IndicesAre(row[..n], news, Find(news, row[n]));
        assert Find(news, row[n]) !in l;
      }
    }
  }

  /** Every occupant of a new bucket sits at its own position, so it is listed once. */
  lemma Occupant(e: Env, s: State, news: seq<int>, tried: seq<int>, b: nat, p: nat)
    requires Ready(e, s, news, tried) && b < NEW_BUCKET_COUNT && p < BUCKET_SIZE
    ensures Tables(s)
    ensures var id := s.vvNew[b][p];
            id != -1 ==>
              && id in s.mapInfo && p == NewPos(e, s.mapInfo[id].service, b)
              && Find(news, id) == Find(news + tried, id) < |news| && (news + tried)[Find(news, id)] == id
  {
    hide IsListing, Indexed, Addressed, TriedSlots, AllReferenced, AllSeated, Collided;
    assert NewSlotOk(e, s.mapInfo, b, p, s.vvNew[b][p]);
    PlaceOf(s, news, tried, s.vvNew[b][p]);
  }

  lemma BucketItem(e: Env, s: State, news: seq<int>, tried: seq<int>, b: nat, i: nat)
    requires Ready(e, s, news, tried) && b < NEW_BUCKET_COUNT && Tables(s) && i < |Indices(s.vvNew[b], news)|
    ensures var l := Indices(s.vvNew[b], news);
            && 0 <= l[i] < |news| && l[i] !in l[..i] && (news + tried)[l[i]] in s.mapInfo
            && var id := (news + tried)[l[i]];
               id != -1 && s.vvNew[b][NewPos(e, s.mapInfo[id].service, b)] == id
  {
    hide Ready, NewPos;
    var row := s.vvNew[b];
    var l := Indices(row, news);
    forall p | 0 <= p < BUCKET_SIZE && row[p] != -1
      ensures row[p] in s.mapInfo && p == NewPos(e, s.mapInfo[row[p]].service, b)
      ensures 0 <= Find(news, row[p]) < |news| && (news + tried)[Find(news, row[p])] == row[p]
    {
      Occupant(e, s, news, tried, b, p);
    }
    IndicesDistinct(row, news);
    IndicesAre(row, news, l[i]);
  }

  lemma NewOfStep(e: Env, s: State, news: seq<int>, tried: seq<int>, b: nat, i: nat)
    requires Ready(e, s, news, tried) && b < NEW_BUCKET_COUNT && Tables(s) && i < |Indices(s.vvNew[b], news)|
    ensures var all, l := news + tried, Indices(s.vvNew[b], news);
            && 0 <= l[i] < |all| && all[l[i]] in s.mapInfo
            && var pos := NewPos(e, s.mapInfo[all[l[i]]].service, b);
               && NewOf(s, all, b, l[..i])[b][pos] == -1
               && NewOf(s, all, b, l[..i + 1]) == SetSlot(NewOf(s, all, b, l[..i]), b, pos, l[i])
  {
    BucketItem(e, s, news, tried, b, i);
    var all, l := news + tried, Indices(s.vvNew[b], news);
    var k := l[i];
    var id := all[k];
    var pos := NewPos(e, s.mapInfo[id].service, b);
    assert Find(all, id) == k by { PlaceAt(s, news, tried, k); }
    var t, u := NewOf(s, all, b, l[..i]), NewOf(s, all, b, l[..i + 1]);
    assert l[..i + 1] == l[..i] + [k];
    forall c, p | 0 <= c < NEW_BUCKET_COUNT && 0 <= p < BUCKET_SIZE
      ensures u[c][p] == SetSlot(t, b, pos, k)[c][p]
    {
      if c == b && s.vvNew[b][p] != -1 {
        Occupant(e, s, news, tried, b, p);
        hide Ready;
        assert Find(all, s.vvNew[b][p]) == k <==> p == pos;
      }
    }
    SameCells(u, SetSlot(t, b, pos, k));
  }

  lemma RefsStep(e: Env, s: State, news: seq<int>, tried: seq<int>, b: nat, i: nat)
    requires Ready(e, s, news, tried) && b < NEW_BUCKET_COUNT && Tables(s) && i < |Indices(s.vvNew[b], news)|
    ensures Known(s, news + tried)
    ensures var all, l := news + tried, Indices(s.vvNew[b], news);
            && 0 <= l[i] < |all|
            && RefsOf(e, s, all, b, l[..i])[l[i]] < NEW_BUCKETS_PER_ADDRESS
            && RefsOf(e, s, all, b, l[..i + 1]) ==
               RefsOf(e, s, all, b, l[..i])[l[i] := RefsOf(e, s, all, b, l[..i])[l[i]] + 1]
  {
    hide HeldUpTo, Indices, NewPos;
    ReadyKnown(e, s, news, tried);
    BucketItem(e, s, news, tried, b, i);
    var all, l := news + tried, Indices(s.vvNew[b], news);
    PlaceAt(s, news, tried, l[i]);
    RefRoom(e, s, all[l[i]], b);
    hide Ready, Known;
    var before, after := l[..i], l[..i + 1];
    assert after == before + [l[i]];
    forall k | 0 <= k < |all|
      ensures RefAt(e, s, all, b, after, k) == RefAt(e, s, all, b, before, k) + if k == l[i] then 1 else 0
    {
      assert k in after <==> k in before || k == l[i];
    }
  }

  /** An entry that holds bucket `b` has been put back fewer than eight times before it. */
  lemma RefRoom(e: Env, s: State, id: int, b: nat)
    requires Inv(e, s) && id in s.mapInfo && !s.mapInfo[id].fInTried && b < NEW_BUCKET_COUNT
    requires s.vvNew[b][NewPos(e, s.mapInfo[id].service, b)] == id
    ensures |HeldUpTo(e, s.vvNew, s.mapInfo[id].service, id, b)| < NEW_BUCKETS_PER_ADDRESS
  {
    assert Referenced(e, s.vvNew, id, s.mapInfo[id], false);
    hide InvExcept, Collided;
    var a := s.mapInfo[id].service;
    var h, held := HeldUpTo(e, s.vvNew, a, id, b), Held(e, s.vvNew, a, id);
    assert b in held && b !in h && h + {b} <= held;
    SubsetSize(h + {b}, held);
  }

  lemma BucketEnds(e: Env, s: State, news: seq<int>, tried: seq<int>, b: nat)
    requires Ready(e, s, news, tried) && b < NEW_BUCKET_COUNT && Tables(s) && Known(s, news + tried)
    ensures var all, l := news + tried, Indices(s.vvNew[b], news);
            && NewOf(s, all, b, l) == NewOf(s, all, b + 1, [])
            && RefsOf(e, s, all, b, l) == RefsOf(e, s, all, b + 1, [])
  {
    var all, l := news + tried, Indices(s.vvNew[b], news);
    forall c, p | 0 <= c < NEW_BUCKET_COUNT && 0 <= p < BUCKET_SIZE
      ensures NewCell(s, all, b, l, c, p) == NewCell(s, all, b + 1, [], c, p)
    {
      if c == b && s.vvNew[b][p] != -1 {
        Occupant(e, s, news, tried, b, p);
        IndicesAre(s.vvNew[b], news, Find(news, s.vvNew[b][p]));
      }
    }
    SameCells(NewOf(s, all, b, l), NewOf(s, all, b + 1, []));
    forall k | 0 <= k < |all| ensures RefAt(e, s, all, b, l, k) == RefAt(e, s, all, b + 1, [], k) {
      RefEnds(e, s, news, tried, b, k);
    }
  }

  lemma RefEnds(e: Env, s: State, news: seq<int>, tried: seq<int>, b: nat, k: nat)
    requires Ready(e, s, news, tried) && b < NEW_BUCKET_COUNT && Tables(s) && Known(s, news + tried)
    requires k < |news + tried|
    ensures RefAt(e, s, news + tried, b, Indices(s.vvNew[b], news), k) == RefAt(e, s, news + tried, b + 1, [], k)
  {
    var id := (news + tried)[k];
    var a := s.mapInfo[id].service;
    ListedIff(e, s, news, tried, b, k);
    HeldUpToStep(e, s.vvNew, a, id, b);
    hide Ready, Indices, HeldUpTo, NewPos;
  }

  lemma HeldUpToStep(e: Env, t: Table, a: Service, id: int, b: nat)
    requires IsTable(t, NEW_BUCKET_COUNT) && b < NEW_BUCKET_COUNT
    ensures |HeldUpTo(e, t, a, id, b + 1)| == |HeldUpTo(e, t, a, id, b)| + if t[b][NewPos(e, a, b)] == id then 1 else 0
  {
    var h, h' := HeldUpTo(e, t, a, id, b), HeldUpTo(e, t, a, id, b + 1);
    assert h' == h + if t[b][NewPos(e, a, b)] == id then {b} else {};
  }

  lemma ListedIff(e: Env, s: State, news: seq<int>, tried: seq<int>, b: nat, k: nat)
    requires Ready(e, s, news, tried) && b < NEW_BUCKET_COUNT && Tables(s) && Known(s, news + tried)
    requires k < |news + tried|
    ensures var id := (news + tried)[k];
            k in Indices(s.vvNew[b], news) <==> s.vvNew[b][NewPos(e, s.mapInfo[id].service, b)] == id
  {
    ReadyKnown(e, s, news, tried);
    PlaceAt(s, news, tried, k);
    hide Ready, Indices, Find;
    var row, id := s.vvNew[b], (news + tried)[k];
    var p := NewPos(e, s.mapInfo[id].service, b);
    IndicesAre(row, news, k);
    forall q | 0 <= q < BUCKET_SIZE && row[q] != -1 && Find(news, row[q]) == k ensures row[p] == id {
      Occupant(e, s, news, tried, b, q);
    }
    Occupant(e, s, news, tried, b, p);
  }

  // ----- the reloaded manager is consistent -----

  lemma ReloadedIndex(e: Env, s: State, news: seq<int>, tried: seq<int>)
    requires Ready(e, s, news, tried) && Tables(s) && Known(s, news + tried)
    ensures var r := Reloaded(e, s, news + tried);
            && Indexed(r.mapInfo, r.vRandom) && Addressed(e, r.mapInfo, r.mapAddr) && IdsBelow(r.mapInfo, r.nIdCount)
  {
    hide IsListing, Indexed, NewSlots, TriedSlots, AllReferenced, AllSeated, Collided;
    hide RefAt, NewOf, TriedOf;
    var all := news + tried;
    var r := Reloaded(e, s, all);
    assert Indexed(r.mapInfo, r.vRandom) by { IotaIndexed(r.mapInfo, |all|); }
    forall k | k in r.mapInfo
      ensures var a := r.mapInfo[k].service.addr; a in r.mapAddr && r.mapAddr[a] == k && e.isRoutable(a)
    {
      PlaceAt(s, news, tried, k);
    }
    forall a | a in r.mapAddr ensures r.mapAddr[a] in r.mapInfo && r.mapInfo[r.mapAddr[a]].service.addr == a {
      PlaceOf(s, news, tried, s.mapAddr[a]);
    }
  }

  lemma IotaIndexed(m: Infos, n: nat)
    requires forall k :: k in m <==> 0 <= k < n
    requires forall k | k in m :: m[k].nRandomPos == k
    ensures Indexed(m, Iota(n))
  {
  }

  lemma ReloadedSlots(e: Env, s: State, news: seq<int>, tried: seq<int>)
    requires Ready(e, s, news, tried) && Tables(s) && Known(s, news + tried)
    ensures var r := Reloaded(e, s, news + tried);
            Tables(r) && NewSlots(e, r.mapInfo, r.vvNew) && TriedSlots(e, r.mapInfo, r.vvTried)
  {
    hide IsListing, Indexed, Addressed, AllReferenced, AllSeated, Collided, RefAt;
    var all := news + tried;
    var r := Reloaded(e, s, all);
    forall b, p | 0 <= b < NEW_BUCKET_COUNT && 0 <= p < BUCKET_SIZE
      ensures NewSlotOk(e, r.mapInfo, b, p, r.vvNew[b][p])
    {
      assert NewSlotOk(e, s.mapInfo, b, p, s.vvNew[b][p]);
      PlaceOf(s, news, tried, s.vvNew[b][p]);
    }
    forall b, p | 0 <= b < TRIED_BUCKET_COUNT && 0 <= p < BUCKET_SIZE
      ensures TriedSlotOk(e, r.mapInfo, b, p, r.vvTried[b][p])
    {
      assert TriedSlotOk(e, s.mapInfo, b, p, s.vvTried[b][p]);
      PlaceOf(s, news, tried, s.vvTried[b][p]);
    }
  }

  lemma ReloadedHeld(e: Env, s: State, news: seq<int>, tried: seq<int>, k: nat)
    requires Ready(e, s, news, tried) && Tables(s) && Known(s, news + tried) && k < |news + tried|
    ensures var all := news + tried;
            var r := Reloaded(e, s, all);
            var a := s.mapInfo[all[k]].service;
            && Tables(r) && Held(e, r.vvNew, a, k) == Held(e, s.vvNew, a, all[k])
            && r.mapInfo[k].nRefCount == |Held(e, s.vvNew, a, all[k])| == s.mapInfo[all[k]].nRefCount
            && (r.mapInfo[k].fInTried ==> TriedSlot(e, r.vvTried, a) == k)
  {
    hide IsListing, Indexed, Addressed, TriedSlots, Collided;
    var all := news + tried;
    var r, id := Reloaded(e, s, all), all[k];
    var a := s.mapInfo[id].service;
    PlaceAt(s, news, tried, k);
    ReadyKnown(e, s, news, tried);
    forall b | 0 <= b < NEW_BUCKET_COUNT
      ensures r.vvNew[b][NewPos(e, a, b)] == k <==> s.vvNew[b][NewPos(e, a, b)] == id
    {
      assert NewSlotOk(e, s.mapInfo, b, NewPos(e, a, b), s.vvNew[b][NewPos(e, a, b)]);
      PlaceOf(s, news, tried, s.vvNew[b][NewPos(e, a, b)]);
    }
    assert HeldUpTo(e, s.vvNew, a, id, NEW_BUCKET_COUNT) == Held(e, s.vvNew, a, id);
    assert Referenced(e, s.vvNew, id, s.mapInfo[id], false);
    assert Seated(e, s.vvTried, id, s.mapInfo[id], false);
  }

  lemma ReloadedCounts(e: Env, s: State, news: seq<int>, tried: seq<int>)
    requires Ready(e, s, news, tried) && Tables(s) && Known(s, news + tried)
    ensures var r := Reloaded(e, s, news + tried); Counted(r.mapInfo, r.nTried, r.nNew)
  {
    hide IsListing, InvExcept, Collided, RefAt, NewOf, TriedOf;
    ReadyKnown(e, s, news, tried);
    var all := news + tried;
    var r := Reloaded(e, s, all);
    forall k | 0 <= k < |all| ensures r.mapInfo[k].fInTried <==> k >= |news| { PlaceAt(s, news, tried, k); }
    assert IsListing(Iota(|news|), NewIds(r.mapInfo)) by { IotaLists(0, |news|, NewIds(r.mapInfo)); }
    assert IsListing(IotaFrom(|news|, |tried|), TriedIds(r.mapInfo)) by {
      IotaLists(|news|, |tried|, TriedIds(r.mapInfo));
    }
    ListingSize(Iota(|news|), NewIds(r.mapInfo));
    ListingSize(IotaFrom(|news|, |tried|), TriedIds(r.mapInfo));
  }

  function IotaFrom(a: int, n: nat): seq<int> { seq(n, i => a + i) }

  lemma IotaLists(a: int, n: nat, ids: set<int>)
    requires forall k :: k in ids <==> a <= k < a + n
    ensures IsListing(IotaFrom(a, n), ids) && (a == 0 ==> IotaFrom(a, n) == Iota(n))
  {
    forall k | k in ids ensures k in IotaFrom(a, n) {
      assert IotaFrom(a, n)[k - a] == k;
    }
  }

  lemma ReloadedSeat(e: Env, s: State, news: seq<int>, tried: seq<int>, k: nat)
    requires Ready(e, s, news, tried) && Tables(s) && Known(s, news + tried) && k < |news + tried|
    ensures var r := Reloaded(e, s, news + tried);
            && Tables(r) && k in r.mapInfo
            && Referenced(e, r.vvNew, k, r.mapInfo[k], false) && Seated(e, r.vvTried, k, r.mapInfo[k], false)
  {
    var id := (news + tried)[k];
    ReloadedHeld(e, s, news, tried, k);
    assert Referenced(e, s.vvNew, id, s.mapInfo[id], false);
    assert Seated(e, s.vvTried, id, s.mapInfo[id], false);
    hide Ready, Held, NewOf, TriedOf, RefsOf, TriedSlot;
  }

  /** Loading what was saved gives the same manager under new ids, and a consistent one. */
  lemma ReloadedInv(e: Env, s: State, news: seq<int>, tried: seq<int>)
    requires Ready(e, s, news, tried) && Tables(s) && Known(s, news + tried)
    ensures Inv(e, Reloaded(e, s, news + tried))
  {
    hide Ready, Indexed, Addressed, NewSlots, TriedSlots, Counted, NewOf, TriedOf, RefsOf, Referenced, Seated;
    var all := news + tried;
    var r := Reloaded(e, s, all);
    ReloadedIndex(e, s, news, tried);
    ReloadedSlots(e, s, news, tried);
    ReloadedCounts(e, s, news, tried);
    forall k: int | k in r.mapInfo
      ensures Referenced(e, r.vvNew, k, r.mapInfo[k], false) && Seated(e, r.vvTried, k, r.mapInfo[k], false)
    {
      ReloadedSeat(e, s, news, tried, k);
    }
  }

  // ----- saving -----

  predicate Ascending(q: seq<int>) { forall i, j | 0 <= i < j < |q| :: q[i] < q[j] }

  lemma NothingListed<T>()
    ensures IsListing<T>([], {})
  {
  }

  /** The ids of a map in increasing order, as an ordered map is walked. */
  method Ordered(m: Infos) returns (ids: seq<int>)
    ensures IsListing(ids, m.Keys) && Ascending(ids)
  {
    hide IsListing;
    NothingListed<int>();
    ids := [];
    assert m.Keys - m.Keys == {};
    var todo := m.Keys;
    while todo != {}
      invariant todo <= m.Keys && IsListing(ids, m.Keys - todo) && Ascending(ids)
      invariant forall i, x | 0 <= i < |ids| && x in todo :: ids[i] < x
      decreases todo
    {
      var id := Smallest(todo);
      ListingPut(ids, m.Keys - todo, id);
      assert m.Keys - todo + {id} == m.Keys - (todo - {id});
      ids := ids + [id];
      todo := todo - {id};
    }
    assert m.Keys - {} == m.Keys;
  }

  lemma ListingPut<T>(q: seq<T>, ids: set<T>, x: T)
    requires IsListing(q, ids) && x !in ids
    ensures IsListing(q + [x], ids + {x})
  {
    forall y | y in ids + {x} ensures y in q + [x] {
      assert y == x ==> (q + [x])[|q|] == x;
    }
  }

  method SaveBucket(row: seq<int>, news: seq<int>, mapUnkIds: map<int, int>) returns (indices: seq<int>)
    requires forall i | 0 <= i < |row| && row[i] != -1 :: row[i] in mapUnkIds && mapUnkIds[row[i]] == Find(news, row[i])
    ensures indices == Indices(row, news)
  {
    indices := [];
    for i := 0 to |row|
      invariant indices == Indices(row[..i], news)
    {
      assert row[..i + 1][..i] == row[..i];
      if row[i] != -1 {
        indices := indices + [mapUnkIds[row[i]]];
      }
    }
    assert row[..|row|] == row;
  }

  /** The ids of a sequence whose entries are in the tried table, or are not. */
  function Pick(m: Infos, ids: seq<int>, tried: bool): seq<int> {
    if ids == [] then []
    else
      var n := |ids| - 1;
      Pick(m, ids[..n], tried) + if ids[n] in m && m[ids[n]].fInTried == tried then [ids[n]] else []
  }

  lemma {:induction false} PickAscends(m: Infos, ids: seq<int>, tried: bool)
    requires Ascending(ids)
    ensures Ascending(Pick(m, ids, tried))
  {
    if ids != [] {
      var n := |ids| - 1;
      PickAscends(m, ids[..n], tried);
      forall k | 0 <= k < |Pick(m, ids[..n], tried)| ensures Pick(m, ids[..n], tried)[k] < ids[n] {
        PickIs(m, ids[..n], tried, Pick(m, ids[..n], tried)[k]);
      }
    }
  }

  lemma {:induction false} PickIs(m: Infos, ids: seq<int>, tried: bool, x: int)
    ensures x in Pick(m, ids, tried) <==> x in ids && x in m && m[x].fInTried == tried
  {
    if ids != [] {
      var n := |ids| - 1;
      PickIs(m, ids[..n], tried, x);
      assert ids == ids[..n] + [ids[n]];
    }
  }

  lemma {:induction false} PickDistinct(m: Infos, ids: seq<int>, tried: bool)
    requires forall i, j | 0 <= i < j < |ids| :: ids[i] != ids[j]
    ensures var q := Pick(m, ids, tried); forall i, j | 0 <= i < j < |q| :: q[i] != q[j]
  {
    if ids != [] {
      var n := |ids| - 1;
      PickDistinct(m, ids[..n], tried);
      PickIs(m, ids[..n], tried, ids[n]);
    }
  }

  lemma PickLists(m: Infos, ids: seq<int>)
    requires IsListing(ids, m.Keys)
    ensures IsListing(Pick(m, ids, false), NewIds(m)) && IsListing(Pick(m, ids, true), TriedIds(m))
  {
    hide Pick;
    PickDistinct(m, ids, false);
    PickDistinct(m, ids, true);
    forall x: int, tried: bool ensures x in Pick(m, ids, tried) <==> x in m && m[x].fInTried == tried {
      PickIs(m, ids, tried, x);
      assert x in m ==> x in m.Keys;
    }
  }

  lemma {:induction false} PickGrows(m: Infos, ids: seq<int>, i: nat, tried: bool)
    requires i <= |ids|
    ensures |Pick(m, ids[..i], tried)| <= |Pick(m, ids, tried)|
  {
    if i == |ids| {
      assert ids[..i] == ids;
    } else {
      var n := |ids| - 1;
      PickGrows(m, ids[..n], i, tried);
      assert ids[..n][..i] == ids[..i];
    }
  }

  lemma PickStep(m: Infos, ids: seq<int>, i: nat, tried: bool)
    requires i < |ids|
    ensures Pick(m, ids[..i + 1], tried) ==
            Pick(m, ids[..i], tried) + if ids[i] in m && m[ids[i]].fInTried == tried then [ids[i]] else []
  {
    assert ids[..i + 1][..i] == ids[..i];
  }

  function StoredAll(m: Infos, q: seq<int>): seq<Info>
    requires forall k | 0 <= k < |q| :: q[k] in m
  {
    seq(|q|, k requires 0 <= k < |q| => Stored(m[q[k]]))
  }

  /** One walk over the entries; the count announced before is never reached too early. */
  method SaveEntries(s: State, ids: seq<int>, tried: bool, limit: int)
    returns (infos: seq<Info>, picked: seq<int>, numbers: map<int, int>)
    requires IsListing(ids, s.mapInfo.Keys) && limit == |Pick(s.mapInfo, ids, tried)|
    requires forall id | id in s.mapInfo :: s.mapInfo[id].nRefCount != 0 <==> !s.mapInfo[id].fInTried
    ensures picked == Pick(s.mapInfo, ids, tried) && Known(s, picked) && infos == StoredAll(s.mapInfo, picked)
    ensures forall k | 0 <= k < |picked| :: picked[k] in numbers && numbers[picked[k]] == k
  {
    hide Pick;
    infos, picked, numbers := [], [], map[];
    PickStart(s.mapInfo, tried);
    for i := 0 to |ids|
      invariant picked == Pick(s.mapInfo, ids[..i], tried) && Known(s, picked)
      invariant infos == StoredAll(s.mapInfo, picked)
      invariant forall k | 0 <= k < |picked| :: picked[k] in numbers && numbers[picked[k]] == k
    {
      PickStep(s.mapInfo, ids, i, tried);
      PickGrows(s.mapInfo, ids, i + 1, tried);
      PickIs(s.mapInfo, ids[..i], tried, ids[i]);
      var info := s.mapInfo[ids[i]];
      numbers := numbers[ids[i] := |infos|];
      if (if tried then info.fInTried else info.nRefCount != 0) {
        assert |infos| != limit;
        infos := infos + [Stored(info)];
        picked := picked + [ids[i]];
      }
    }
    assert ids[..|ids|] == ids;
  }

  lemma PickStart(m: Infos, tried: bool)
    ensures Pick(m, [], tried) == []
  {
  }

  method Serialize(e: Env, s: State) returns (saved: Saved, ghost news: seq<int>, ghost tried: seq<int>)
    requires Inv(e, s)
    ensures Ready(e, s, news, tried) && Tables(s) && Known(s, news) && Known(s, tried)
    ensures saved == SavedOf(s, news, tried) && Ascending(news) && Ascending(tried)
    ensures saved.nNew == |saved.news| == s.nNew && saved.nTried == |saved.tried| == s.nTried
  {
    hide InvExcept, Indices, Pick, IsListing, Ascending;
    EntriesReady(e, s);
    var ids := Ordered(s.mapInfo);
    PickLists(s.mapInfo, ids);
    PickSizes(e, s, ids);
    PickAscends(s.mapInfo, ids, false);
    PickAscends(s.mapInfo, ids, true);
    var newInfos, newIds, mapUnkIds := SaveEntries(s, ids, false, s.nNew);
    var triedInfos, triedIds, _ := SaveEntries(s, ids, true, s.nTried);
    news, tried := newIds, triedIds;
    var buckets := [];
    for bucket := 0 to NEW_BUCKET_COUNT
      invariant |buckets| == bucket && forall b | 0 <= b < bucket :: buckets[b] == Indices(s.vvNew[b], newIds)
    {
      RowKnown(e, s, news, tried, bucket, mapUnkIds);
      var indices := SaveBucket(s.vvNew[bucket], newIds, mapUnkIds);
      buckets := buckets + [indices];
    }
    saved := Saved(1, 32, s.nNew, s.nTried, Marked(NEW_BUCKET_COUNT), newInfos, triedInfos, buckets);
  }

  lemma EntriesReady(e: Env, s: State)
    requires Inv(e, s)
    ensures Tables(s) && forall id | id in s.mapInfo :: s.mapInfo[id].nRefCount != 0 <==> !s.mapInfo[id].fInTried
  {
    hide Indexed, Addressed, NewSlots, TriedSlots, AllSeated;
    forall id | id in s.mapInfo ensures s.mapInfo[id].nRefCount != 0 <==> !s.mapInfo[id].fInTried {
      assert Referenced(e, s.vvNew, id, s.mapInfo[id], false);
    }
  }

  lemma PickSizes(e: Env, s: State, ids: seq<int>)
    requires Inv(e, s) && IsListing(ids, s.mapInfo.Keys)
    ensures |Pick(s.mapInfo, ids, false)| == s.nNew && |Pick(s.mapInfo, ids, true)| == s.nTried
  {
    hide Pick, Indexed, Addressed, NewSlots, TriedSlots, AllReferenced, AllSeated, IsListing;
    PickLists(s.mapInfo, ids);
    ListingSize(Pick(s.mapInfo, ids, false), NewIds(s.mapInfo));
    ListingSize(Pick(s.mapInfo, ids, true), TriedIds(s.mapInfo));
  }

  lemma RowKnown(e: Env, s: State, news: seq<int>, tried: seq<int>, b: nat, numbers: map<int, int>)
    requires Ready(e, s, news, tried) && b < NEW_BUCKET_COUNT && Tables(s)
    requires forall k | 0 <= k < |news| :: news[k] in numbers && numbers[news[k]] == k
    ensures forall i | 0 <= i < BUCKET_SIZE && s.vvNew[b][i] != -1 ::
              s.vvNew[b][i] in numbers && numbers[s.vvNew[b][i]] == Find(news, s.vvNew[b][i])
  {
    hide Ready, Find;
    forall i | 0 <= i < BUCKET_SIZE && s.vvNew[b][i] != -1
      ensures s.vvNew[b][i] in numbers && numbers[s.vvNew[b][i]] == Find(news, s.vvNew[b][i])
    {
      Occupant(e, s, news, tried, b, i);
      assert news[Find(news, s.vvNew[b][i])] == s.vvNew[b][i];
    }
  }

  // ----- loading -----

  /** What is being loaded is what was saved of `s`. */
  ghost predicate Loads(e: Env, s: State, news: seq<int>, tried: seq<int>, saved: Saved) {
    && Ready(e, s, news, tried) && Tables(s) && Known(s, news) && Known(s, tried)
    && saved == SavedOf(s, news, tried)
  }

  lemma LoadsMeans(e: Env, s: State, news: seq<int>, tried: seq<int>, saved: Saved)
    requires Loads(e, s, news, tried, saved)
    ensures Ready(e, s, news, tried) && Tables(s) && Known(s, news + tried)
    ensures saved.nNew == |news| == |saved.news| && saved.nTried == |tried| == |saved.tried|
    ensures saved.nVersion == 1 && saved.nKeySize == 32
    ensures Marked(saved.nUBuckets) == NEW_BUCKET_COUNT == |saved.buckets|
    ensures s.nNew == |news| && s.nTried == |tried|
    ensures forall k | 0 <= k < |news| :: saved.news[k] == Stored(s.mapInfo[(news + tried)[k]])
    ensures forall k | 0 <= k < |tried| :: saved.tried[k] == Stored(s.mapInfo[(news + tried)[|news| + k]])
    ensures forall b | 0 <= b < NEW_BUCKET_COUNT :: saved.buckets[b] == Indices(s.vvNew[b], news)
  {
    hide Ready, Indices;
    ReadyKnown(e, s, news, tried);
  }

  /** The four parts that entries go into, with the first `n` entries in and no slot filled yet. */
  ghost predicate HasEntries(e: Env, s: State, all: seq<int>, n: nat, m: Infos, mapAddr: map<NetAddr, int>,
                             vRandom: seq<int>, vvTried: Table) {
    && Tables(s) && Known(s, all) && n <= |all|
    && m == InfosOf(s, all, n, RefsOf(e, s, all, 0, [])) && mapAddr == AddrsOf(s, all, n)
    && vRandom == Iota(n) && vvTried == TriedOf(s, all, n)
  }

  lemma NoRefsYet(e: Env, s: State, all: seq<int>, k: nat)
    requires Tables(s) && Known(s, all) && k < |all|
    ensures RefsOf(e, s, all, 0, [])[k] == 0
  {
    assert HeldUpTo(e, s.vvNew, s.mapInfo[all[k]].service, all[k], 0) == {};
  }

  lemma StartEntries(e: Env, s: State, news: seq<int>, tried: seq<int>)
    requires Ready(e, s, news, tried) && Tables(s) && Known(s, news + tried)
    ensures HasEntries(e, s, news + tried, 0, map[], map[], [], EmptyTable(TRIED_BUCKET_COUNT))
    ensures NewOf(s, news + tried, 0, []) == EmptyTable(NEW_BUCKET_COUNT)
  {
    hide Ready;
    SameCells(TriedOf(s, news + tried, 0), EmptyTable(TRIED_BUCKET_COUNT));
    SameCells(NewOf(s, news + tried, 0, []), EmptyTable(NEW_BUCKET_COUNT));
  }

  lemma NewEntryStep(e: Env, s: State, news: seq<int>, tried: seq<int>, n: nat, m: Infos,
                     mapAddr: map<NetAddr, int>, vRandom: seq<int>, vvTried: Table)
    requires Ready(e, s, news, tried) && n < |news| && HasEntries(e, s, news + tried, n, m, mapAddr, vRandom, vvTried)
    ensures var info := Stored(s.mapInfo[(news + tried)[n]]).(nRandomPos := |vRandom|);
            HasEntries(e, s, news + tried, n + 1, m[n := info], mapAddr[info.service.addr := n], vRandom + [n], vvTried)
  {
    hide Ready, TriedOf, RefsOf;
    var all := news + tried;
    PlaceAtReady(e, s, news, tried, n);
    AddrsStep(e, s, news, tried, n);
    TriedStep(e, s, news, tried, n);
    NoRefsYet(e, s, all, n);
  }

  lemma PlaceAtReady(e: Env, s: State, news: seq<int>, tried: seq<int>, k: nat)
    requires Ready(e, s, news, tried) && k < |news| + |tried|
    ensures (news + tried)[k] in s.mapInfo && (s.mapInfo[(news + tried)[k]].fInTried <==> k >= |news|)
  {
    PlaceAt(s, news, tried, k);
  }

  lemma TriedEntryStep(e: Env, s: State, news: seq<int>, tried: seq<int>, n: nat, m: Infos,
                       mapAddr: map<NetAddr, int>, vRandom: seq<int>, vvTried: Table)
    requires Ready(e, s, news, tried) && |news| <= n < |news| + |tried|
    requires HasEntries(e, s, news + tried, n, m, mapAddr, vRandom, vvTried)
    ensures var info := Stored(s.mapInfo[(news + tried)[n]]).(nRandomPos := |vRandom|, fInTried := true);
            var b, p := TriedBucket(e, info.service), TriedPos(e, info.service);
            && vvTried[b][p] == -1
            && HasEntries(e, s, news + tried, n + 1, m[n := info], mapAddr[info.service.addr := n], vRandom + [n],
                          SetSlot(vvTried, b, p, n))
  {
    hide Ready, TriedOf, RefsOf;
    var all := news + tried;
    PlaceAtReady(e, s, news, tried, n);
    AddrsStep(e, s, news, tried, n);
    TriedStep(e, s, news, tried, n);
    NoRefsYet(e, s, all, n);
  }

  // ----- reading any record -----

  /** Entries not tried that hold no slot. */
  ghost function Loose(m: Infos): set<int> { set id | id in m && !m[id].fInTried && m[id].nRefCount == 0 }

  /** Every tried entry sits in its own slot. */
  ghost predicate OwnSeats(e: Env, m: Infos, vvTried: Table)
    requires IsTable(vvTried, TRIED_BUCKET_COUNT)
  {
    forall id | id in m && m[id].fInTried :: TriedSlot(e, vvTried, m[id].service) == id
  }

  /** Entries and tables agree, except that some new entries may hold no slot. */
  ghost predicate Coherent(e: Env, m: Infos, vvNew: Table, vvTried: Table) {
    && IsTable(vvNew, NEW_BUCKET_COUNT) && IsTable(vvTried, TRIED_BUCKET_COUNT)
    && NewSlots(e, m, vvNew) && TriedSlots(e, m, vvTried)
    && AllReferenced(e, m, vvNew, Loose(m)) && OwnSeats(e, m, vvTried)
    && forall id | id in m :: id >= 0
  }

  /** mapAddr finds the last entry with an address. */
  ghost predicate FindsLast(m: Infos, mapAddr: map<NetAddr, int>) {
    && (forall id | id in m :: m[id].service.addr in mapAddr && id <= mapAddr[m[id].service.addr])
    && (forall a | a in mapAddr :: mapAddr[a] in m && m[mapAddr[a]].service.addr == a)
  }

  lemma LastIsFound(m: Infos, mapAddr: map<NetAddr, int>, id: int, info: Info)
    requires FindsLast(m, mapAddr) && forall k | k in m :: k < id
    ensures FindsLast(m[id := info], mapAddr[info.service.addr := id])
  {
  }

  /** Both counts are within what follows. */
  predicate Complete(saved: Saved) { saved.nNew <= |saved.news| && saved.nTried <= |saved.tried| }

  /** The entries that are read; a negative count reads none. */
  function NewsOf(saved: Saved): seq<Info>
    requires Complete(saved)
  {
    saved.news[..Max(0, saved.nNew)]
  }

  function TriedsOf(saved: Saved): seq<Info>
    requires Complete(saved)
  {
    saved.tried[..Max(0, saved.nTried)]
  }

  /** All addresses are different and routable, and entries called tried have been reached. */
  ghost predicate Sane(e: Env, saved: Saved)
    requires Complete(saved)
  {
    var r := NewsOf(saved) + TriedsOf(saved);
    && saved.nNew >= 0 && saved.nTried >= 0
    && (forall i, j | 0 <= i < j < |r| :: r[i].service.addr != r[j].service.addr)
    && (forall i | 0 <= i < |r| :: e.isRoutable(r[i].service.addr) && r[i].nLastSuccess >= 0)
    && (forall i | saved.nNew <= i < |r| :: r[i].nLastSuccess > 0)
  }

  predicate SameSlot(e: Env, a: Service, b: Service) {
    TriedBucket(e, a) == TriedBucket(e, b) && TriedPos(e, a) == TriedPos(e, b)
  }

  ghost predicate SlotTaken(e: Env, infos: seq<Info>, a: Service) {
    exists i :: 0 <= i < |infos| && SameSlot(e, infos[i].service, a)
  }

  /** Of the tried entries, the first one for each slot. */
  ghost function FirstTried(e: Env, infos: seq<Info>): seq<Info> {
    if infos == [] then []
    else
      var n := |infos| - 1;
      var f := FirstTried(e, infos[..n]);
      if SlotTaken(e, f, infos[n].service) then f else f + [infos[n]]
  }

  /** The entries that get an id, in that order. */
  ghost function Read(e: Env, saved: Saved): seq<Info>
    requires Complete(saved)
  {
    NewsOf(saved) + FirstTried(e, TriedsOf(saved))
  }

  /** The entries kept are routable and reached if tried, and no other entry read has their address. */
  ghost predicate KeptSane(e: Env, saved: Saved, kept: set<int>)
    requires Complete(saved)
  {
    var all := Read(e, saved);
    forall k | k in kept && 0 <= k < |all| ::
      && e.isRoutable(all[k].service.addr) && all[k].nLastSuccess >= 0
      && (k >= saved.nNew ==> all[k].nLastSuccess > 0)
      && forall j | 0 <= j < |all| && j != k :: all[j].service.addr != all[k].service.addr
  }

  lemma NothingRead(e: Env)
    ensures Coherent(e, map[], EmptyTable(NEW_BUCKET_COUNT), EmptyTable(TRIED_BUCKET_COUNT))
    ensures FindsLast(map[], map[])
  {
  }

  lemma NoneHeld(e: Env, m: Infos, vvNew: Table, a: Service, id: int)
    requires IsTable(vvNew, NEW_BUCKET_COUNT) && NewSlots(e, m, vvNew) && id != -1 && id !in m
    ensures Held(e, vvNew, a, id) == {}
  {
    forall b | 0 <= b < NEW_BUCKET_COUNT ensures vvNew[b][NewPos(e, a, b)] != id {
      assert NewSlotOk(e, m, b, NewPos(e, a, b), vvNew[b][NewPos(e, a, b)]);
    }
  }

  lemma CoherentEnter(e: Env, m: Infos, vvNew: Table, vvTried: Table, id: int, info: Info)
    requires Coherent(e, m, vvNew, vvTried) && id >= 0 && id !in m && !info.fInTried && info.nRefCount == 0
    ensures Coherent(e, m[id := info], vvNew, vvTried)
  {
    var m' := m[id := info];
    SlotsCarry(e, m, m', vvNew, vvTried);
    NoneHeld(e, m, vvNew, info.service, id);
    forall k | k in m' ensures Referenced(e, vvNew, k, m'[k], k in Loose(m')) {
      if k != id {
        assert Referenced(e, vvNew, k, m[k], k in Loose(m));
      }
    }
  }

  lemma CoherentPut(e: Env, m: Infos, vvNew: Table, vvTried: Table, b: nat, p: nat, id: int)
    requires Coherent(e, m, vvNew, vvTried) && b < NEW_BUCKET_COUNT && p < BUCKET_SIZE && vvNew[b][p] == -1
    requires id in m && !m[id].fInTried && p == NewPos(e, m[id].service, b)
    requires m[id].nRefCount < NEW_BUCKETS_PER_ADDRESS
    ensures Coherent(e, m[id := m[id].(nRefCount := m[id].nRefCount + 1)], SetSlot(vvNew, b, p, id), vvTried)
  {
    var info := m[id].(nRefCount := m[id].nRefCount + 1);
    var m' := m[id := info];
    assert Referenced(e, vvNew, id, m[id], id in Loose(m));
    PutSlotReferences(e, m, vvNew, b, p, id, Loose(m));
    assert Loose(m') == Loose(m) - {id};
    PutSlotSlots(e, m, vvNew, b, p, id, info);
    HeldAfterSet(e, vvNew, b, p, id, info.service, id);
    forall c, q | 0 <= c < TRIED_BUCKET_COUNT && 0 <= q < BUCKET_SIZE
      ensures TriedSlotOk(e, m', c, q, vvTried[c][q])
    {
      assert TriedSlotOk(e, m, c, q, vvTried[c][q]);
    }
  }

  lemma CoherentSeat(e: Env, m: Infos, vvNew: Table, vvTried: Table, id: int, info: Info)
    requires Coherent(e, m, vvNew, vvTried) && id >= 0 && id !in m && info.fInTried && info.nRefCount == 0
    requires TriedSlot(e, vvTried, info.service) == -1
    ensures Coherent(e, m[id := info], vvNew,
                     SetSlot(vvTried, TriedBucket(e, info.service), TriedPos(e, info.service), id))
  {
    hide TriedBucket, TriedPos, NewPos;
    SeatSlots(e, m, vvTried, id, info);
    var m' := m[id := info];
    NoneHeld(e, m, vvNew, info.service, id);
    forall b, p | 0 <= b < NEW_BUCKET_COUNT && 0 <= p < BUCKET_SIZE ensures NewSlotOk(e, m', b, p, vvNew[b][p]) {
      assert NewSlotOk(e, m, b, p, vvNew[b][p]);
    }
    forall k | k in m' ensures Referenced(e, vvNew, k, m'[k], k in Loose(m')) {
      if k != id {
        assert Referenced(e, vvNew, k, m[k], k in Loose(m));
      }
    }
  }

  lemma SeatSlots(e: Env, m: Infos, vvTried: Table, id: int, info: Info)
    requires IsTable(vvTried, TRIED_BUCKET_COUNT) && TriedSlots(e, m, vvTried) && OwnSeats(e, m, vvTried)
    requires id >= 0 && id !in m && info.fInTried && -1 !in m && TriedSlot(e, vvTried, info.service) == -1
    ensures var t' := SetSlot(vvTried, TriedBucket(e, info.service), TriedPos(e, info.service), id);
            && IsTable(t', TRIED_BUCKET_COUNT) && TriedSlots(e, m[id := info], t') && OwnSeats(e, m[id := info], t')
  {
    var b, p, m' := TriedBucket(e, info.service), TriedPos(e, info.service), m[id := info];
    var t' := SetSlot(vvTried, b, p, id);
    TableAfterSet(vvTried, TRIED_BUCKET_COUNT, b, p, id);
    forall c, q | 0 <= c < TRIED_BUCKET_COUNT && 0 <= q < BUCKET_SIZE ensures TriedSlotOk(e, m', c, q, t'[c][q]) {
      assert TriedSlotOk(e, m, c, q, vvTried[c][q]);
    }
    forall k | k in m' && m'[k].fInTried ensures TriedSlot(e, t', m'[k].service) == k {
      if k != id {
        assert TriedSlot(e, vvTried, m[k].service) == k;
      }
    }
  }

  /** Entries numbered from `lo`, each knowing its place in the vector. */
  ghost predicate Numbered(m: Infos, vRandom: seq<int>, lo: int, n: nat) {
    && vRandom == IotaFrom(lo, n) && (forall k :: k in m <==> lo <= k < lo + n)
    && (forall k | k in m :: m[k].nRandomPos == k - lo)
  }

  lemma NumberedBetween(m: Infos, vRandom: seq<int>, lo: int, n: nat)
    requires Numbered(m, vRandom, lo, n)
    ensures |vRandom| == n && forall k | k in m :: lo <= k < lo + n
  {
  }

  /** No entries are numbered from anywhere. */
  lemma NumberedAgain(m: Infos, vRandom: seq<int>, n: nat, lo: int)
    requires Numbered(m, vRandom, 0, n)
    ensures |vRandom| == n && (n == 0 ==> Numbered(m, vRandom, lo, 0))
  {
  }

  lemma NumberNext(m: Infos, vRandom: seq<int>, lo: int, n: nat, info: Info)
    requires Numbered(m, vRandom, lo, n) && info.nRandomPos == n
    ensures |vRandom| == n && lo + n !in m && Numbered(m[lo + n := info], vRandom + [lo + n], lo, n + 1)
  {
  }

  /** The slot that an entry's own source leads to. */
  function Primary(e: Env, info: Info): (nat, nat) {
    var b := NewBucket(e, info.service, info.source);
    (b, NewPos(e, info.service, b))
  }

  /** No entry of the record before `n` wants the same primary slot. */
  ghost predicate IsFirst(e: Env, infos: seq<Info>, n: nat)
    requires n < |infos|
  {
    forall m | 0 <= m < n :: Primary(e, infos[m]) != Primary(e, infos[n])
  }

  /** The primary slots of the first `n` entries, and no others, are taken. */
  ghost predicate TakenBy(e: Env, infos: seq<Info>, n: nat, t: Table)
    requires n <= |infos| && IsTable(t, NEW_BUCKET_COUNT)
  {
    forall b, p | 0 <= b < NEW_BUCKET_COUNT && 0 <= p < BUCKET_SIZE ::
      t[b][p] != -1 <==> exists m | 0 <= m < n :: Primary(e, infos[m]) == (b, p)
  }

  lemma TakenNext(e: Env, infos: seq<Info>, n: nat, t: Table)
    requires n < |infos| && IsTable(t, NEW_BUCKET_COUNT) && TakenBy(e, infos, n, t)
    ensures var (b, p) := Primary(e, infos[n]);
            && (t[b][p] == -1 <==> IsFirst(e, infos, n))
            && IsTable(SetSlot(t, b, p, n), NEW_BUCKET_COUNT)
            && TakenBy(e, infos, n + 1, if t[b][p] == -1 then SetSlot(t, b, p, n) else t)
  {
    hide NewBucket, NewPos;
    var (b, p) := Primary(e, infos[n]);
    PrimaryFits(e, infos[n]);
    hide Primary;
    var t' := if t[b][p] == -1 then SetSlot(t, b, p, n) else t;
    forall c, q | 0 <= c < NEW_BUCKET_COUNT && 0 <= q < BUCKET_SIZE
      ensures t'[c][q] != -1 <==> exists m | 0 <= m < n + 1 :: Primary(e, infos[m]) == (c, q)
    {
      assert t[c][q] != -1 <==> exists m | 0 <= m < n :: Primary(e, infos[m]) == (c, q);
      if (c, q) == (b, p) {
        assert Primary(e, infos[n]) == (c, q);
      }
    }
  }

  lemma PrimaryFits(e: Env, info: Info)
    ensures Primary(e, info).0 < NEW_BUCKET_COUNT && Primary(e, info).1 < BUCKET_SIZE
    ensures Primary(e, info).1 == NewPos(e, info.service, Primary(e, info).0)
  {
  }

  /** Entry `k` is as the record has it, up to its place and its references. */
  predicate AsStored(m: Infos, k: int, info: Info) {
    && k in m
    && m[k] == Stored(info).(nRandomPos := m[k].nRandomPos, nRefCount := m[k].nRefCount, fInTried := m[k].fInTried)
  }

  /** The next new entry, without a slot. */
  lemma NextNew(e: Env, m: Infos, mapAddr: map<NetAddr, int>, vvNew: Table, vvTried: Table, n: nat, info: Info)
    requires Coherent(e, m, vvNew, vvTried) && FindsLast(m, mapAddr) && forall k | k in m :: 0 <= k < n
    requires !info.fInTried && info.nRefCount == 0
    ensures Coherent(e, m[n := info], vvNew, vvTried) && FindsLast(m[n := info], mapAddr[info.service.addr := n])
  {
    assert n !in m;
    hide Coherent, FindsLast;
    CoherentEnter(e, m, vvNew, vvTried, n, info);
    LastIsFound(m, mapAddr, n, info);
  }

  /** The same with the slot that its own source leads to. */
  lemma NextNewWithSlot(e: Env, m: Infos, mapAddr: map<NetAddr, int>, vvNew: Table, vvTried: Table, n: nat, info: Info,
                        b: nat, p: nat)
    requires Coherent(e, m, vvNew, vvTried) && FindsLast(m, mapAddr) && forall k | k in m :: 0 <= k < n
    requires !info.fInTried && info.nRefCount == 0
    requires b < NEW_BUCKET_COUNT && p < BUCKET_SIZE && p == NewPos(e, info.service, b) && vvNew[b][p] == -1
    ensures var info' := info.(nRefCount := info.nRefCount + 1);
            && Coherent(e, m[n := info'], SetSlot(vvNew, b, p, n), vvTried)
            && FindsLast(m[n := info'], mapAddr[info.service.addr := n])
  {
    hide Coherent, FindsLast, NewPos;
    IsCoherent(e, m, vvNew, vvTried);
    NextNew(e, m, mapAddr, vvNew, vvTried, n, info);
    var info' := info.(nRefCount := info.nRefCount + 1);
    assert m[n := info][n := info'] == m[n := info'];
    LastIsFound(m, mapAddr, n, info');
    CoherentPut(e, m[n := info], vvNew, vvTried, b, p, n);
  }

  lemma IsCoherent(e: Env, m: Infos, vvNew: Table, vvTried: Table)
    requires Coherent(e, m, vvNew, vvTried)
    ensures IsTable(vvNew, NEW_BUCKET_COUNT) && IsTable(vvTried, TRIED_BUCKET_COUNT)
  {
  }

  /** The first `n` new entries are as stored; without usable buckets, those with a slot came first for it. */
  ghost predicate NewStored(e: Env, m: Infos, infos: seq<Info>, n: nat, usable: bool) {
    && n <= |infos|
    && forall k | 0 <= k < n ::
         && AsStored(m, k, infos[k]) && !m[k].fInTried
         && (usable || (m[k].nRefCount == 0 <==> !IsFirst(e, infos, k)))
  }

  lemma NewStoredNext(e: Env, m: Infos, infos: seq<Info>, n: nat, usable: bool, info: Info)
    requires NewStored(e, m, infos, n, usable) && n < |infos| && !info.fInTried
    requires AsStored(map[n := info], n, infos[n]) && (!usable ==> (info.nRefCount == 0 <==> !IsFirst(e, infos, n)))
    ensures NewStored(e, m[n := info], infos, n + 1, usable)
  {
    hide IsFirst;
    forall k | 0 <= k < n + 1 ensures AsStored(m[n := info], k, infos[k]) {
      assert k < n ==> AsStored(m, k, infos[k]);
    }
  }

  /** The new entries, each with its primary slot if the buckets cannot be used and that is free. */
  method LoadNew(e: Env, saved: Saved, usable: bool, ghost s: State, ghost news: seq<int>, ghost tried: seq<int>)
    returns (mapInfo: Infos, mapAddr: map<NetAddr, int>, vRandom: seq<int>, vvNew: Table)
    requires Complete(saved)
    ensures Numbered(mapInfo, vRandom, 0, |NewsOf(saved)|)
    ensures Coherent(e, mapInfo, vvNew, EmptyTable(TRIED_BUCKET_COUNT)) && FindsLast(mapInfo, mapAddr)
    ensures usable ==> vvNew == EmptyTable(NEW_BUCKET_COUNT)
    ensures NewStored(e, mapInfo, NewsOf(saved), |NewsOf(saved)|, usable)
    ensures usable && Loads(e, s, news, tried, saved) ==>
              HasEntries(e, s, news + tried, |news|, mapInfo, mapAddr, vRandom, EmptyTable(TRIED_BUCKET_COUNT))
  {
    hide HasEntries, Loads, Ready, Coherent, FindsLast, IsFirst, TakenBy, NewBucket, NewPos, NewStored;
    mapInfo, mapAddr, vRandom, vvNew := map[], map[], [], EmptyTable(NEW_BUCKET_COUNT);
    ghost var infos, none := NewsOf(saved), EmptyTable(TRIED_BUCKET_COUNT);
    NoneTaken(e, infos);
    NoneStoredYet(e, infos, usable);
    NothingRead(e);
    ghost var fine := usable && Loads(e, s, news, tried, saved);
    if fine {
      LoadsMeans(e, s, news, tried, saved);
      StartEntries(e, s, news, tried);
    }
    for n := 0 to Max(0, saved.nNew)
      invariant Numbered(mapInfo, vRandom, 0, n) && IsTable(vvNew, NEW_BUCKET_COUNT)
      invariant Coherent(e, mapInfo, vvNew, none) && FindsLast(mapInfo, mapAddr)
      invariant usable ==> vvNew == EmptyTable(NEW_BUCKET_COUNT)
      invariant NewStored(e, mapInfo, infos, n, usable) && (!usable ==> TakenBy(e, infos, n, vvNew))
      invariant fine ==> HasEntries(e, s, news + tried, n, mapInfo, mapAddr, vRandom, none)
    {
      if fine {
        NewEntryStep(e, s, news, tried, n, mapInfo, mapAddr, vRandom, none);
      }
      var info := Stored(saved.news[n]).(nRandomPos := |vRandom|);
      NextNew(e, mapInfo, mapAddr, vvNew, none, n, info);
      PrimaryFits(e, infos[n]);
      if !usable {
        TakenNext(e, infos, n, vvNew);
        var b := NewBucket(e, info.service, info.source);
        var p := NewPos(e, info.service, b);
        if vvNew[b][p] == -1 {
          NextNewWithSlot(e, mapInfo, mapAddr, vvNew, none, n, info, b, p);
          vvNew := SetSlot(vvNew, b, p, n);
          info := info.(nRefCount := info.nRefCount + 1);
        }
      }
      NumberNext(mapInfo, vRandom, 0, n, info);
      NewStoredNext(e, mapInfo, infos, n, usable, info);
      mapAddr := mapAddr[info.service.addr := n];
      vRandom := vRandom + [n];
      mapInfo := mapInfo[n := info];
    }
  }

  lemma NoneStoredYet(e: Env, infos: seq<Info>, usable: bool)
    ensures NewStored(e, map[], infos, 0, usable)
  {
  }

  lemma NoneTaken(e: Env, infos: seq<Info>)
    ensures TakenBy(e, infos, 0, EmptyTable(NEW_BUCKET_COUNT))
  {
  }

  /** Entry `lo + j` is as `f[j]` has it, and tried. */
  ghost predicate TriedStored(m: Infos, lo: nat, f: seq<Info>) {
    && (forall j | 0 <= j < |f| :: AsStored(m, lo + j, f[j]) && m[lo + j].fInTried)
    && (forall k | k in m && m[k].fInTried :: lo <= k < lo + |f|)
  }

  /** A slot is free exactly if none of the entries read so far belongs there. */
  lemma FreeSlot(e: Env, m: Infos, vvNew: Table, vvTried: Table, lo: nat, f: seq<Info>, a: Service)
    requires Coherent(e, m, vvNew, vvTried) && TriedStored(m, lo, f)
    ensures TriedSlot(e, vvTried, a) == -1 <==> !SlotTaken(e, f, a)
  {
    hide TriedBucket, TriedPos;
    var id := TriedSlot(e, vvTried, a);
    SlotFits(e, a);
    assert TriedSlotOk(e, m, TriedBucket(e, a), TriedPos(e, a), id);
    if id != -1 {
      assert AsStored(m, lo + (id - lo), f[id - lo]);
      assert SameSlot(e, f[id - lo].service, a);
    }
    if i :| 0 <= i < |f| && SameSlot(e, f[i].service, a) {
      assert AsStored(m, lo + i, f[i]);
      assert TriedSlot(e, vvTried, m[lo + i].service) == lo + i;
    }
  }

  lemma SlotFits(e: Env, a: Service)
    ensures TriedBucket(e, a) < TRIED_BUCKET_COUNT && TriedPos(e, a) < BUCKET_SIZE
  {
  }

  lemma FirstTriedNext(e: Env, infos: seq<Info>, n: nat)
    requires n < |infos|
    ensures var f := FirstTried(e, infos[..n]);
            FirstTried(e, infos[..n + 1]) == if SlotTaken(e, f, infos[n].service) then f else f + [infos[n]]
  {
    assert infos[..n + 1][..n] == infos[..n];
  }

  /** The next tried entry, if its slot is free. */
  lemma NextTried(e: Env, m: Infos, mapAddr: map<NetAddr, int>, vvNew: Table, vvTried: Table, lo: nat, infos: seq<Info>,
                  n: nat, info: Info)
    requires Coherent(e, m, vvNew, vvTried) && FindsLast(m, mapAddr) && n < |infos|
    requires TriedStored(m, lo, FirstTried(e, infos[..n]))
    requires forall k | k in m :: 0 <= k < lo + |FirstTried(e, infos[..n])|
    requires AsStored(map[0 := info], 0, infos[n]) && info.fInTried && info.nRefCount == 0
    ensures var id := lo + |FirstTried(e, infos[..n])|;
            var f := FirstTried(e, infos[..n + 1]);
            if TriedSlot(e, vvTried, info.service) != -1 then f == FirstTried(e, infos[..n])
            else
              && |f| == |FirstTried(e, infos[..n])| + 1 && TriedStored(m[id := info], lo, f)
              && Coherent(e, m[id := info], vvNew,
                          SetSlot(vvTried, TriedBucket(e, info.service), TriedPos(e, info.service), id))
              && FindsLast(m[id := info], mapAddr[info.service.addr := id])
  {
    hide Coherent, FindsLast, FirstTried, SlotTaken, TriedBucket, TriedPos, TriedStored;
    var old', id := FirstTried(e, infos[..n]), lo + |FirstTried(e, infos[..n])|;
    FirstTriedNext(e, infos, n);
    IsCoherent(e, m, vvNew, vvTried);
    FreeSlot(e, m, vvNew, vvTried, lo, old', info.service);
    if TriedSlot(e, vvTried, info.service) == -1 {
      CoherentSeat(e, m, vvNew, vvTried, id, info);
      LastIsFound(m, mapAddr, id, info);
      StoredNext(m, lo, old', id, info, infos[n]);
    }
  }

  lemma StoredNext(m: Infos, lo: nat, f: seq<Info>, id: int, info: Info, from: Info)
    requires TriedStored(m, lo, f) && id == lo + |f| && AsStored(map[0 := info], 0, from) && info.fInTried
    ensures TriedStored(m[id := info], lo, f + [from])
  {
    var m', f' := m[id := info], f + [from];
    forall j | 0 <= j < |f'| ensures AsStored(m', lo + j, f'[j]) && m'[lo + j].fInTried {
      assert j < |f| ==> AsStored(m, lo + j, f[j]);
    }
  }

  /** The tried entries, each in its own slot if that is free. A negative count of new ones lowers the ids. */
  method LoadTried(e: Env, saved: Saved, m: Infos, addrs: map<NetAddr, int>, order: seq<int>, ghost vvNew: Table,
                   ghost s: State, ghost news: seq<int>, ghost tried: seq<int>)
    returns (mapInfo: Infos, mapAddr: map<NetAddr, int>, vRandom: seq<int>, vvTried: Table, nLost: nat)
    requires Complete(saved) && Numbered(m, order, 0, |NewsOf(saved)|)
    requires Coherent(e, m, vvNew, EmptyTable(TRIED_BUCKET_COUNT)) && FindsLast(m, addrs)
    requires forall k | k in m :: !m[k].fInTried
    ensures IsTable(vvTried, TRIED_BUCKET_COUNT)
    ensures nLost <= |TriedsOf(saved)| && |vRandom| == |NewsOf(saved)| + |TriedsOf(saved)| - nLost
    ensures Numbered(mapInfo, vRandom, if saved.nNew < 0 then saved.nNew else 0, |vRandom|)
    ensures forall k | k in m :: k in mapInfo && mapInfo[k] == m[k]
    ensures saved.nNew >= 0 ==>
              && Coherent(e, mapInfo, vvNew, vvTried) && FindsLast(mapInfo, mapAddr)
              && |FirstTried(e, TriedsOf(saved))| == |TriedsOf(saved)| - nLost
              && TriedStored(mapInfo, saved.nNew, FirstTried(e, TriedsOf(saved)))
    ensures Loads(e, s, news, tried, saved) &&
            HasEntries(e, s, news + tried, |news|, m, addrs, order, EmptyTable(TRIED_BUCKET_COUNT)) ==>
              nLost == 0 && HasEntries(e, s, news + tried, |news + tried|, mapInfo, mapAddr, vRandom, vvTried)
  {
    hide HasEntries, Loads, Ready, Coherent, FindsLast, TriedStored, FirstTried, TriedBucket, TriedPos, Numbered;
    NumberedAgain(m, order, |NewsOf(saved)|, saved.nNew);
    mapInfo, mapAddr, vRandom, vvTried, nLost := m, addrs, order, EmptyTable(TRIED_BUCKET_COUNT), 0;
    ghost var infos, lo := TriedsOf(saved), if saved.nNew < 0 then saved.nNew else 0;
    NoneStored(e, m, infos);
    ghost var fine := Loads(e, s, news, tried, saved) &&
                      HasEntries(e, s, news + tried, |news|, m, addrs, order, EmptyTable(TRIED_BUCKET_COUNT));
    if fine {
      LoadsMeans(e, s, news, tried, saved);
    }
    var nIdCount := saved.nNew;
    for n := 0 to Max(0, saved.nTried)
      invariant nIdCount == lo + |vRandom| && |vRandom| == |NewsOf(saved)| + n - nLost && nLost <= n
      invariant Numbered(mapInfo, vRandom, lo, |vRandom|) && IsTable(vvTried, TRIED_BUCKET_COUNT)
      invariant forall k | k in m :: k in mapInfo && mapInfo[k] == m[k]
      invariant saved.nNew >= 0 ==> Coherent(e, mapInfo, vvNew, vvTried) && FindsLast(mapInfo, mapAddr)
      invariant saved.nNew >= 0 ==>
                  && |FirstTried(e, infos[..n])| == n - nLost
                  && TriedStored(mapInfo, saved.nNew, FirstTried(e, infos[..n]))
      invariant fine ==> nLost == 0 && nIdCount == |news| + n
      invariant fine ==> HasEntries(e, s, news + tried, |news| + n, mapInfo, mapAddr, vRandom, vvTried)
    {
      if fine {
        TriedEntryStep(e, s, news, tried, |news| + n, mapInfo, mapAddr, vRandom, vvTried);
      }
      var info := Stored(saved.tried[n]);
      ghost var info' := info.(nRandomPos := |vRandom|, fInTried := true);
      SlotFits(e, info.service);
      if saved.nNew >= 0 {
        NumberedBetween(mapInfo, vRandom, lo, |vRandom|);
        NextTried(e, mapInfo, mapAddr, vvNew, vvTried, saved.nNew, infos, n, info');
      }
      var b, p := TriedBucket(e, info.service), TriedPos(e, info.service);
      if vvTried[b][p] == -1 {
        info := info.(nRandomPos := |vRandom|, fInTried := true);
        NumberNext(mapInfo, vRandom, lo, |vRandom|, info);
        TableAfterSet(vvTried, TRIED_BUCKET_COUNT, b, p, nIdCount);
        vRandom := vRandom + [nIdCount];
        mapInfo := mapInfo[nIdCount := info];
        mapAddr := mapAddr[info.service.addr := nIdCount];
        vvTried := SetSlot(vvTried, b, p, nIdCount);
        nIdCount := nIdCount + 1;
      } else {
        nLost := nLost + 1;
      }
    }
    assert infos[..|infos|] == infos;
  }

  lemma NoneStored(e: Env, m: Infos, infos: seq<Info>)
    requires forall k | k in m :: !m[k].fInTried
    ensures FirstTried(e, infos[..0]) == [] && forall lo: nat :: TriedStored(m, lo, [])
  {
  }

  /** Entries and new slots once the buckets below `b` and the listed entries of bucket `b` are back. */
  ghost predicate HasSlots(e: Env, s: State, all: seq<int>, b: nat, done: seq<int>, m: Infos, vvNew: Table) {
    && Tables(s) && Known(s, all)
    && m == InfosOf(s, all, |all|, RefsOf(e, s, all, b, done)) && vvNew == NewOf(s, all, b, done)
  }

  lemma SlotStep(e: Env, s: State, news: seq<int>, tried: seq<int>, b: nat, i: nat, m: Infos, vvNew: Table)
    requires Ready(e, s, news, tried) && b < NEW_BUCKET_COUNT && Tables(s) && i < |Indices(s.vvNew[b], news)|
    requires HasSlots(e, s, news + tried, b, Indices(s.vvNew[b], news)[..i], m, vvNew)
    ensures var l := Indices(s.vvNew[b], news);
            && 0 <= l[i] < |news| && l[i] in m
            && var pos := NewPos(e, m[l[i]].service, b);
               && |vvNew| == NEW_BUCKET_COUNT && |vvNew[b]| == BUCKET_SIZE && vvNew[b][pos] == -1
               && m[l[i]].nRefCount < NEW_BUCKETS_PER_ADDRESS
               && HasSlots(e, s, news + tried, b, l[..i + 1],
                           m[l[i] := m[l[i]].(nRefCount := m[l[i]].nRefCount + 1)], SetSlot(vvNew, b, pos, l[i]))
  {
    hide Ready, NewOf, RefsOf, Indices;
    BucketItem(e, s, news, tried, b, i);
    NewOfStep(e, s, news, tried, b, i);
    RefsStep(e, s, news, tried, b, i);
    var all, l := news + tried, Indices(s.vvNew[b], news);
    NewOfShape(s, all, b, l[..i]);
    RefsLength(e, s, all, b, l[..i]);
    var k: int := l[i];
    InfosRef(s, all, RefsOf(e, s, all, b, l[..i]), k);
  }

  lemma RefsLength(e: Env, s: State, all: seq<int>, b: nat, done: seq<int>)
    requires Tables(s) && Known(s, all)
    ensures |RefsOf(e, s, all, b, done)| == |all|
  {
  }

  /** One more reference changes one entry. */
  lemma InfosRef(s: State, all: seq<int>, refs: seq<int>, k: nat)
    requires Known(s, all) && k < |all| == |refs|
    ensures var m := InfosOf(s, all, |all|, refs);
            && k in m && m[k].nRefCount == refs[k] && m[k].service == s.mapInfo[all[k]].service
            && InfosOf(s, all, |all|, refs[k := refs[k] + 1]) == m[k := m[k].(nRefCount := m[k].nRefCount + 1)]
  {
  }

  lemma NewOfShape(s: State, all: seq<int>, b: nat, done: seq<int>)
    requires Tables(s)
    ensures IsTable(NewOf(s, all, b, done), NEW_BUCKET_COUNT)
  {
  }

  lemma BucketDone(e: Env, s: State, news: seq<int>, tried: seq<int>, b: nat, m: Infos, vvNew: Table)
    requires Ready(e, s, news, tried) && b < NEW_BUCKET_COUNT && Tables(s)
    requires HasSlots(e, s, news + tried, b, Indices(s.vvNew[b], news), m, vvNew)
    ensures HasSlots(e, s, news + tried, b + 1, [], m, vvNew)
  {
    hide Ready, NewOf, RefsOf, Indices;
    BucketEnds(e, s, news, tried, b);
  }

  /** Same entries up to their reference counts. */
  ghost predicate SameButRefs(m: Infos, m': Infos) {
    m'.Keys == m.Keys && forall k | k in m :: m'[k] == m[k].(nRefCount := m'[k].nRefCount)
  }

  ghost predicate NoneTried(m: Infos, n: int) { forall k | k in m && 0 <= k < n :: !m[k].fInTried }

  /** Whether an entry read from a bucket gets its slot there. */
  predicate GetsSlot(e: Env, m: Infos, t: Table, nIndex: int, bucket: nat, nNew: int)
    requires IsTable(t, NEW_BUCKET_COUNT) && bucket < NEW_BUCKET_COUNT && forall k | 0 <= k < nNew :: k in m
  {
    && 0 <= nIndex < nNew && m[nIndex].nRefCount < NEW_BUCKETS_PER_ADDRESS
    && t[bucket][NewPos(e, m[nIndex].service, bucket)] == -1
  }

  /** Reads one entry of a bucket. */
  method LoadSlot(e: Env, nIndex: int, bucket: nat, nNew: int, usable: bool, m: Infos, t: Table, ghost vvTried: Table)
    returns (mapInfo: Infos, vvNew: Table)
    requires (forall k | 0 <= k < nNew :: k in m) && IsTable(t, NEW_BUCKET_COUNT)
    requires usable ==> bucket < NEW_BUCKET_COUNT
    ensures SameButRefs(m, mapInfo) && IsTable(vvNew, NEW_BUCKET_COUNT)
    ensures NoneTried(m, nNew) && Coherent(e, m, t, vvTried) ==> Coherent(e, mapInfo, vvNew, vvTried)
    ensures usable && GetsSlot(e, m, t, nIndex, bucket, nNew) ==>
              && mapInfo == m[nIndex := m[nIndex].(nRefCount := m[nIndex].nRefCount + 1)]
              && vvNew == SetSlot(t, bucket, NewPos(e, m[nIndex].service, bucket), nIndex)
    ensures !(usable && GetsSlot(e, m, t, nIndex, bucket, nNew)) ==> mapInfo == m && vvNew == t
  {
    hide Coherent;
    mapInfo, vvNew := m, t;
    if 0 <= nIndex < nNew {
      var info := m[nIndex];
      if usable {
        var p := NewPos(e, info.service, bucket);
        if t[bucket][p] == -1 && info.nRefCount < NEW_BUCKETS_PER_ADDRESS {
          if NoneTried(m, nNew) && Coherent(e, m, t, vvTried) {
            CoherentPut(e, m, t, vvTried, bucket, p, nIndex);
          }
          mapInfo := m[nIndex := info.(nRefCount := info.nRefCount + 1)];
          vvNew := SetSlot(t, bucket, p, nIndex);
        }
      }
    }
  }

  /** Puts one bucket's entries back, as far as its data can be used. */
  method LoadBucket(e: Env, indices: seq<int>, bucket: nat, nNew: int, usable: bool, m: Infos, t: Table,
                    ghost vvTried: Table, ghost s: State, ghost news: seq<int>, ghost tried: seq<int>)
    returns (mapInfo: Infos, vvNew: Table)
    requires (forall k | 0 <= k < nNew :: k in m) && IsTable(t, NEW_BUCKET_COUNT)
    requires usable ==> bucket < NEW_BUCKET_COUNT
    ensures SameButRefs(m, mapInfo) && IsTable(vvNew, NEW_BUCKET_COUNT)
    ensures !usable ==> mapInfo == m && vvNew == t
    ensures NoneTried(m, nNew) && Coherent(e, m, t, vvTried) ==> Coherent(e, mapInfo, vvNew, vvTried)
    ensures usable && Ready(e, s, news, tried) && Tables(s) && nNew == |news| &&
            indices == Indices(s.vvNew[bucket], news) && HasSlots(e, s, news + tried, bucket, [], m, t) ==>
              HasSlots(e, s, news + tried, bucket + 1, [], mapInfo, vvNew)
  {
    hide HasSlots, Ready, Indices, Coherent;
    mapInfo, vvNew := m, t;
    ghost var whole := NoneTried(m, nNew) && Coherent(e, m, t, vvTried);
    ghost var fine := usable && Ready(e, s, news, tried) && Tables(s) && nNew == |news| &&
                      indices == Indices(s.vvNew[bucket], news) && HasSlots(e, s, news + tried, bucket, [], m, t);
    assert indices[..0] == [];
    for n := 0 to |indices|
      invariant SameButRefs(m, mapInfo) && IsTable(vvNew, NEW_BUCKET_COUNT)
      invariant !usable ==> mapInfo == m && vvNew == t
      invariant whole ==> Coherent(e, mapInfo, vvNew, vvTried)
      invariant fine ==> HasSlots(e, s, news + tried, bucket, indices[..n], mapInfo, vvNew)
    {
      if fine {
        SlotStep(e, s, news, tried, bucket, n, mapInfo, vvNew);
      }
      mapInfo, vvNew := LoadSlot(e, indices[n], bucket, nNew, usable, mapInfo, vvNew, vvTried);
    }
    if fine {
      assert indices[..|indices|] == indices;
      BucketDone(e, s, news, tried, bucket, mapInfo, vvNew);
    }
  }

  lemma DeleteIndexed(s: State, id: int)
    requires Indexed(s.mapInfo, s.vRandom) && id in s.mapInfo
    ensures var s' := Delete(s, id);
            && Indexed(s'.mapInfo, s'.vRandom) && s'.mapInfo.Keys == s.mapInfo.Keys - {id}
            && s'.mapAddr == s.mapAddr - {s.mapInfo[id].service.addr} && s'.nNew == s.nNew - 1
  {
    MovedLastIsLast(s, id);
    MovedLastReorders(s, id);
  }

  ghost function AddrsIn(m: Infos, ids: set<int>): set<NetAddr> { set id | id in ids && id in m :: m[id].service.addr }

  /** Without the entries `gone`, which took their addresses with them. */
  ghost predicate Lacks(s: State, s': State, gone: set<int>) {
    && gone <= s.mapInfo.Keys && s'.mapInfo.Keys == s.mapInfo.Keys - gone
    && (forall id | id in s'.mapInfo :: s'.mapInfo[id] == s.mapInfo[id].(nRandomPos := s'.mapInfo[id].nRandomPos))
    && s' == s.(mapInfo := s'.mapInfo, vRandom := s'.vRandom, mapAddr := s.mapAddr - AddrsIn(s.mapInfo, gone),
                nNew := s.nNew - |gone|)
  }

  lemma LacksOneMore(s0: State, s: State, gone: set<int>, id: int)
    requires Lacks(s0, s, gone) && Indexed(s.mapInfo, s.vRandom) && id in s.mapInfo
    ensures Lacks(s0, Delete(s, id), gone + {id})
  {
    DeleteIndexed(s, id);
    DeleteFrame(s, id);
    hide Delete, Indexed;
    assert AddrsIn(s0.mapInfo, gone + {id}) == AddrsIn(s0.mapInfo, gone) + {s0.mapInfo[id].service.addr};
  }

  /** Deletes the entries that came back with no reference at all, and no others. */
  method Prune(s0: State) returns (s: State)
    requires Indexed(s0.mapInfo, s0.vRandom)
    ensures Lacks(s0, s, Loose(s0.mapInfo)) && Indexed(s.mapInfo, s.vRandom)
    ensures Loose(s0.mapInfo) == {} ==> s == s0
  {
    hide Indexed, Delete, Lacks;
    s := s0;
    var ids := Ordered(s0.mapInfo);
    ghost var gone := {};
    LacksNothing(s0);
    for i := 0 to |ids|
      invariant Indexed(s.mapInfo, s.vRandom) && Lacks(s0, s, gone) && (Loose(s0.mapInfo) == {} ==> s == s0)
      invariant gone <= Loose(s0.mapInfo)
      invariant forall k | 0 <= k < i :: ids[k] in Loose(s0.mapInfo) ==> ids[k] in gone
      invariant forall k | i <= k < |ids| :: ids[k] !in gone
    {
      var id := ids[i];
      StillThere(s0, s, gone, id);
      if !s.mapInfo[id].fInTried && s.mapInfo[id].nRefCount == 0 {
        DeleteIndexed(s, id);
        LacksOneMore(s0, s, gone, id);
        s := Delete(s, id);
        gone := gone + {id};
      }
    }
    assert gone == Loose(s0.mapInfo) by {
      assert forall id | id in Loose(s0.mapInfo) :: id in ids;
    }
  }

  lemma LacksNothing(s: State)
    ensures Lacks(s, s, {})
  {
    assert AddrsIn(s.mapInfo, {}) == {};
  }

  lemma StillThere(s0: State, s: State, gone: set<int>, id: int)
    requires Lacks(s0, s, gone) && id in s0.mapInfo && id !in gone
    ensures id in s.mapInfo && s.mapInfo[id].fInTried == s0.mapInfo[id].fInTried
    ensures s.mapInfo[id].nRefCount == s0.mapInfo[id].nRefCount
  {
  }

  // ----- what pruning leaves -----

  lemma PrunedSlots(e: Env, s0: State, s: State)
    requires Lacks(s0, s, Loose(s0.mapInfo)) && Coherent(e, s0.mapInfo, s0.vvNew, s0.vvTried)
    ensures Tables(s) && NewSlots(e, s.mapInfo, s.vvNew) && TriedSlots(e, s.mapInfo, s.vvTried)
  {
    hide AddrsIn;
    forall b, p | 0 <= b < NEW_BUCKET_COUNT && 0 <= p < BUCKET_SIZE
      ensures NewSlotOk(e, s.mapInfo, b, p, s.vvNew[b][p])
    {
      var id := s0.vvNew[b][p];
      assert NewSlotOk(e, s0.mapInfo, b, p, id);
      if id != -1 {
        HeldIff(e, s0.vvNew, s0.mapInfo[id].service, id, b);
        assert Referenced(e, s0.vvNew, id, s0.mapInfo[id], id in Loose(s0.mapInfo));
      }
    }
    forall b, p | 0 <= b < TRIED_BUCKET_COUNT && 0 <= p < BUCKET_SIZE
      ensures TriedSlotOk(e, s.mapInfo, b, p, s.vvTried[b][p])
    {
      assert TriedSlotOk(e, s0.mapInfo, b, p, s0.vvTried[b][p]);
    }
  }

  lemma PrunedSeats(e: Env, s0: State, s: State)
    requires Lacks(s0, s, Loose(s0.mapInfo)) && Coherent(e, s0.mapInfo, s0.vvNew, s0.vvTried)
    ensures Tables(s) && AllReferenced(e, s.mapInfo, s.vvNew, {}) && OwnSeats(e, s.mapInfo, s.vvTried)
  {
    hide AddrsIn, NewSlots, TriedSlots;
    forall id | id in s.mapInfo ensures Referenced(e, s.vvNew, id, s.mapInfo[id], false) {
      assert Referenced(e, s0.vvNew, id, s0.mapInfo[id], id in Loose(s0.mapInfo));
    }
  }

  lemma PrunedCounts(s0: State, s: State)
    requires Lacks(s0, s, Loose(s0.mapInfo)) && Counted(s0.mapInfo, s0.nTried, s0.nNew)
    ensures Counted(s.mapInfo, s.nTried, s.nNew)
  {
    hide AddrsIn;
    forall id | id in s.mapInfo ensures s.mapInfo[id].fInTried == s0.mapInfo[id].fInTried {
      assert s.mapInfo[id] == s0.mapInfo[id].(nRandomPos := s.mapInfo[id].nRandomPos);
    }
    assert s.mapInfo.Keys == s0.mapInfo.Keys - Loose(s0.mapInfo);
    assert TriedIds(s.mapInfo) == TriedIds(s0.mapInfo);
    assert Loose(s0.mapInfo) <= NewIds(s0.mapInfo);
    assert NewIds(s.mapInfo) == NewIds(s0.mapInfo) - Loose(s0.mapInfo);
  }

  /** No other entry has the address. */
  ghost predicate Alone(m: Infos, id: int)
    requires id in m
  {
    forall k | k in m && k != id :: m[k].service.addr != m[id].service.addr
  }

  /** Addresses are found exactly if no entry that stays shares its address with any that was read. */
  lemma PrunedAddressed(e: Env, s0: State, s: State)
    requires Lacks(s0, s, Loose(s0.mapInfo)) && FindsLast(s0.mapInfo, s0.mapAddr)
    ensures Addressed(e, s.mapInfo, s.mapAddr) <==>
            forall id | id in s.mapInfo :: id in s0.mapInfo && Alone(s0.mapInfo, id) &&
                                           e.isRoutable(s0.mapInfo[id].service.addr)
  {
    var m, gone := s0.mapInfo, Loose(s0.mapInfo);
    if Addressed(e, s.mapInfo, s.mapAddr) {
      forall id | id in s.mapInfo ensures Alone(m, id) {
        forall k | k in m && k != id ensures m[k].service.addr != m[id].service.addr {
          if k in gone {
            assert m[k].service.addr in AddrsIn(m, gone);
          } else {
            assert k in s.mapInfo;
          }
        }
      }
    } else if forall id | id in s.mapInfo :: id in m && Alone(m, id) && e.isRoutable(m[id].service.addr) {
      forall id | id in s.mapInfo ensures m[id].service.addr in s.mapAddr && s.mapAddr[m[id].service.addr] == id {
        assert Alone(m, id);
      }
      forall a | a in s.mapAddr ensures s.mapAddr[a] in s.mapInfo {
        assert s0.mapAddr[a] in gone ==> a in AddrsIn(m, gone);
      }
    }
  }

  /** Tried entries were reached, and no time is negative. */
  ghost predicate Reached(m: Infos) {
    forall id | id in m :: m[id].nLastTry >= 0 && m[id].nLastSuccess >= 0 && (m[id].fInTried ==> m[id].nLastSuccess > 0)
  }

  lemma InvParts(e: Env, s: State)
    requires Tables(s) && Indexed(s.mapInfo, s.vRandom) && NewSlots(e, s.mapInfo, s.vvNew)
    requires TriedSlots(e, s.mapInfo, s.vvTried) && AllReferenced(e, s.mapInfo, s.vvNew, {})
    requires OwnSeats(e, s.mapInfo, s.vvTried) && Counted(s.mapInfo, s.nTried, s.nNew)
    requires IdsBelow(s.mapInfo, s.nIdCount) && s.collisions == {}
    ensures Inv(e, s) <==> Addressed(e, s.mapInfo, s.mapAddr) && Reached(s.mapInfo)
  {
    hide Indexed, Addressed, NewSlots, TriedSlots, AllReferenced, Counted, TriedSlot;
    if AllSeated(e, s.mapInfo, s.vvTried, {}) {
      forall id | id in s.mapInfo
        ensures s.mapInfo[id].nLastTry >= 0 && s.mapInfo[id].nLastSuccess >= 0
        ensures s.mapInfo[id].fInTried ==> s.mapInfo[id].nLastSuccess > 0
      {
        assert Seated(e, s.vvTried, id, s.mapInfo[id], false);
      }
    }
  }

  /** Pruning turns what is consistent but for loose entries into what is consistent, up to the addresses. */
  lemma PrunedInv(e: Env, s0: State, s: State)
    requires Lacks(s0, s, Loose(s0.mapInfo)) && Coherent(e, s0.mapInfo, s0.vvNew, s0.vvTried)
    requires FindsLast(s0.mapInfo, s0.mapAddr) && Counted(s0.mapInfo, s0.nTried, s0.nNew)
    requires Indexed(s.mapInfo, s.vRandom) && IdsBelow(s0.mapInfo, s0.nIdCount) && s0.collisions == {}
    ensures Inv(e, s) <==> forall id | id in s.mapInfo ::
              id in s0.mapInfo && Alone(s0.mapInfo, id) && e.isRoutable(s0.mapInfo[id].service.addr) &&
              s.mapInfo[id].nLastTry >= 0 && s.mapInfo[id].nLastSuccess >= 0 &&
              (s.mapInfo[id].fInTried ==> s.mapInfo[id].nLastSuccess > 0)
  {
    PrunedIds(s0, s);
    PrunedSlots(e, s0, s);
    PrunedSeats(e, s0, s);
    PrunedCounts(s0, s);
    PrunedAddressed(e, s0, s);
    hide Inv, Lacks, Coherent, Loose, NewSlots, TriedSlots, AllReferenced, OwnSeats, Counted, Addressed;
    hide Indexed, FindsLast;
    InvParts(e, s);
  }

  lemma PrunedIds(s0: State, s: State)
    requires Lacks(s0, s, Loose(s0.mapInfo)) && IdsBelow(s0.mapInfo, s0.nIdCount)
    ensures IdsBelow(s.mapInfo, s.nIdCount) && s.collisions == s0.collisions
  {
    hide AddrsIn;
  }

  lemma ReloadedAll(e: Env, s: State, news: seq<int>, tried: seq<int>)
    requires Ready(e, s, news, tried) && Tables(s) && Known(s, news + tried)
    ensures var m := Reloaded(e, s, news + tried).mapInfo; forall k | k in m :: m[k].fInTried || m[k].nRefCount != 0
  {
    hide Ready, RefsOf, NewOf, TriedOf;
    var m := Reloaded(e, s, news + tried).mapInfo;
    forall k: int | k in m ensures m[k].fInTried || m[k].nRefCount != 0 {
      ReloadedSeat(e, s, news, tried, k);
    }
  }

  /** The record's own buckets can be used. */
  predicate BucketsUsable(saved: Saved) { saved.nVersion == 1 && BucketsRead(saved) == NEW_BUCKET_COUNT }

  /** The limits on what is read, and enough of it. */
  predicate Readable(saved: Saved) {
    && saved.nKeySize == 32
    && saved.nNew <= NEW_BUCKET_COUNT * BUCKET_SIZE && saved.nTried <= TRIED_BUCKET_COUNT * BUCKET_SIZE
    && Complete(saved) && BucketsRead(saved) <= |saved.buckets|
  }

  /** The number of buckets to read; every version but 0 marks it. */
  function BucketsRead(saved: Saved): int {
    if saved.nVersion != 0 then Marked(saved.nUBuckets) else saved.nUBuckets
  }

  /**
   Reads a saved manager. A wrong key size, too large a count or a record that ends too early is
   refused, and nothing else: other versions, other bucket counts, buckets that make no sense and
   negative counts are accepted. The result is consistent exactly if no count is negative and the
   entries that are kept are routable, reached if tried, and share no address with any other entry
   read. Where the buckets cannot be used, the first new entry for each primary slot is kept. Loading
   what was saved of a consistent manager gives the same manager up to the ids, with no entry lost.
   */
  method Unserialize(e: Env, saved: Saved, ghost s: State, ghost news: seq<int>, ghost tried: seq<int>)
    returns (ok: bool, r: State)
    ensures ok <==> Readable(saved)
    ensures ok ==> (Inv(e, r) <==> saved.nNew >= 0 && saved.nTried >= 0 && KeptSane(e, saved, r.mapInfo.Keys))
    ensures ok && Sane(e, saved) ==> Inv(e, r)
    ensures ok && |r.mapInfo| == saved.nNew + saved.nTried ==> (Inv(e, r) <==> Sane(e, saved))
    ensures ok && saved.nNew >= 0 ==>
              && (forall k | k in r.mapInfo :: 0 <= k < |Read(e, saved)| && AsStored(r.mapInfo, k, Read(e, saved)[k]))
              && (forall k | saved.nNew <= k < |Read(e, saved)| :: k in r.mapInfo)
    ensures ok && !BucketsUsable(saved) ==>
              forall n | 0 <= n < saved.nNew :: n in r.mapInfo <==> IsFirst(e, NewsOf(saved), n)
    ensures ok ==> forall id | id in r.mapInfo :: r.mapInfo[id].fInTried || r.mapInfo[id].nRefCount != 0
    ensures Loads(e, s, news, tried, saved) ==>
              ok && Tables(s) && Known(s, news + tried) && r == Reloaded(e, s, news + tried)
  {
    hide Loads, Ready, Reloaded, Indexed, Sane, KeptSane, Coherent, Inv, IsFirst, AsStored, Read, FindsLast, HoldsRead;
    hide Loose, Lacks, Counted;
    r := Init();
    ghost var fine := Loads(e, s, news, tried, saved);
    if fine {
      LoadsMeans(e, s, news, tried, saved);
      CountsFit(e, s, news, tried);
    }
    if saved.nKeySize != 32 {
      return false, r;
    }
    if saved.nNew > NEW_BUCKET_COUNT * BUCKET_SIZE || saved.nTried > TRIED_BUCKET_COUNT * BUCKET_SIZE {
      return false, r;
    }
    if saved.nNew > |saved.news| || saved.nTried > |saved.tried| || BucketsRead(saved) > |saved.buckets| {
      return false, r;
    }
    var loaded := LoadAll(e, saved, s, news, tried);
    if fine {
      NoneLoose(e, s, news, tried, loaded);
    }
    r := Prune(loaded);
    ok := true;
    NoneLeft(loaded, r);
    if saved.nNew < 0 || saved.nTried < 0 {
      NegativeCount(e, r);
    } else {
      LoadedInv(e, saved, loaded, r);
    }
    if saved.nNew >= 0 {
      KeptAsRead(e, saved, loaded, r);
    }
    SaneAndKept(e, saved, r.mapInfo);
  }

  lemma NoneLoose(e: Env, s: State, news: seq<int>, tried: seq<int>, r: State)
    requires Ready(e, s, news, tried) && Tables(s) && Known(s, news + tried) && r == Reloaded(e, s, news + tried)
    ensures Loose(r.mapInfo) == {}
  {
    hide Ready, Reloaded;
    ReloadedAll(e, s, news, tried);
    assert forall k | k in r.mapInfo :: r.mapInfo[k].fInTried || r.mapInfo[k].nRefCount != 0;
  }

  lemma NoneLeft(s0: State, s: State)
    requires Lacks(s0, s, Loose(s0.mapInfo))
    ensures forall id | id in s.mapInfo :: s.mapInfo[id].fInTried || s.mapInfo[id].nRefCount != 0
    ensures s.nNew <= s0.nNew && s.nTried == s0.nTried
  {
    hide AddrsIn;
  }

  lemma NegativeCount(e: Env, r: State)
    requires r.nNew < 0 || r.nTried < 0
    ensures !Inv(e, r)
  {
  }

  /** The entries are those that were read, one by one. */
  ghost predicate HoldsRead(e: Env, saved: Saved, m: Infos)
    requires Complete(saved)
  {
    var all := Read(e, saved);
    && (forall k :: k in m <==> 0 <= k < |all|)
    && (forall k | 0 <= k < |all| :: AsStored(m, k, all[k]) && (m[k].fInTried <==> k >= saved.nNew))
  }

  lemma KeptAsRead(e: Env, saved: Saved, loaded: State, r: State)
    requires Complete(saved) && saved.nNew >= 0 && HoldsRead(e, saved, loaded.mapInfo)
    requires Lacks(loaded, r, Loose(loaded.mapInfo))
    ensures forall k | k in r.mapInfo :: 0 <= k < |Read(e, saved)| && AsStored(r.mapInfo, k, Read(e, saved)[k])
    ensures forall k | saved.nNew <= k < |Read(e, saved)| :: k in r.mapInfo
    ensures forall k | 0 <= k < saved.nNew && k in loaded.mapInfo ::
              k in r.mapInfo <==> loaded.mapInfo[k].nRefCount != 0
  {
    hide Read, AddrsIn;
    forall k | k in r.mapInfo ensures 0 <= k < |Read(e, saved)| && AsStored(r.mapInfo, k, Read(e, saved)[k]) {
      assert AsStored(loaded.mapInfo, k, Read(e, saved)[k]);
    }
  }

  lemma LoadedInv(e: Env, saved: Saved, loaded: State, r: State)
    requires Complete(saved) && saved.nNew >= 0 && HoldsRead(e, saved, loaded.mapInfo)
    requires Lacks(loaded, r, Loose(loaded.mapInfo)) && Indexed(r.mapInfo, r.vRandom)
    requires Coherent(e, loaded.mapInfo, loaded.vvNew, loaded.vvTried) && FindsLast(loaded.mapInfo, loaded.mapAddr)
    requires Counted(loaded.mapInfo, loaded.nTried, loaded.nNew) && loaded.collisions == {}
    requires loaded.nIdCount == |Read(e, saved)|
    ensures Inv(e, r) <==> KeptSane(e, saved, r.mapInfo.Keys)
  {
    var m, all := loaded.mapInfo, Read(e, saved);
    assert IdsBelow(m, loaded.nIdCount);
    hide Read, Coherent, FindsLast, Indexed, Counted, Inv;
    PrunedInv(e, loaded, r);
    forall k | k in r.mapInfo
      ensures 0 <= k < |all| && k in m && r.mapInfo[k].nLastTry == 0 && r.mapInfo[k].nLastSuccess == all[k].nLastSuccess
      ensures m[k].service == all[k].service && (r.mapInfo[k].fInTried <==> k >= saved.nNew)
      ensures Alone(m, k) <==> forall j | 0 <= j < |all| && j != k :: all[j].service.addr != all[k].service.addr
    {
      KeptEntry(e, saved, loaded, r, k);
    }
  }

  lemma KeptEntry(e: Env, saved: Saved, loaded: State, r: State, k: int)
    requires Complete(saved) && HoldsRead(e, saved, loaded.mapInfo)
    requires Lacks(loaded, r, Loose(loaded.mapInfo)) && k in r.mapInfo
    ensures var m, all := loaded.mapInfo, Read(e, saved);
            && 0 <= k < |all| && k in m && m[k].service == all[k].service
            && r.mapInfo[k].nLastTry == 0 && r.mapInfo[k].nLastSuccess == all[k].nLastSuccess
            && (r.mapInfo[k].fInTried <==> k >= saved.nNew)
            && (Alone(m, k) <==> forall j | 0 <= j < |all| && j != k :: all[j].service.addr != all[k].service.addr)
  {
    hide Read, AddrsIn;
    var m, all := loaded.mapInfo, Read(e, saved);
    assert AsStored(m, k, all[k]);
    forall j | 0 <= j < |all| ensures m[j].service == all[j].service {
      assert AsStored(m, j, all[j]);
    }
  }

  lemma {:induction false} FirstTriedFrom(e: Env, infos: seq<Info>)
    ensures |FirstTried(e, infos)| <= |infos| && (|FirstTried(e, infos)| == |infos| ==> FirstTried(e, infos) == infos)
    ensures forall k | 0 <= k < |FirstTried(e, infos)| :: FirstTried(e, infos)[k] in infos
  {
    hide SlotTaken;
    if infos != [] {
      var n := |infos| - 1;
      FirstTriedFrom(e, infos[..n]);
      var f, f' := FirstTried(e, infos[..n]), FirstTried(e, infos);
      hide FirstTried;
      assert infos == infos[..n] + [infos[n]];
      forall k | 0 <= k < |f'| ensures f'[k] in infos {
        if k < |f| {
          var i :| 0 <= i < n && infos[..n][i] == f[k];
          assert infos[i] == f'[k];
        }
      }
    }
  }

  ghost predicate AddrsApart(infos: seq<Info>) {
    forall i, j | 0 <= i < j < |infos| :: infos[i].service.addr != infos[j].service.addr
  }

  lemma {:induction false} FirstTriedApart(e: Env, infos: seq<Info>)
    requires AddrsApart(infos)
    ensures AddrsApart(FirstTried(e, infos))
  {
    hide SlotTaken;
    if infos != [] {
      var n := |infos| - 1;
      FirstTriedFrom(e, infos[..n]);
      FirstTriedApart(e, infos[..n]);
      var f := FirstTried(e, infos[..n]);
      forall k | 0 <= k < |f| ensures f[k].service.addr != infos[n].service.addr {
        var i :| 0 <= i < n && infos[..n][i] == f[k];
      }
    }
  }

  /** A sane record is sane in what is kept; if all of it is kept, the two are the same. */
  lemma SaneAndKept(e: Env, saved: Saved, m: Infos)
    requires Complete(saved)
    ensures Sane(e, saved) ==> saved.nNew >= 0 && saved.nTried >= 0 && KeptSane(e, saved, m.Keys)
    ensures saved.nNew >= 0 && saved.nTried >= 0 && |m| == saved.nNew + saved.nTried &&
            (forall k | k in m :: 0 <= k < |Read(e, saved)|) && KeptSane(e, saved, m.Keys)
            ==> Sane(e, saved)
  {
    if Sane(e, saved) {
      SaneIsKeptSane(e, saved, m.Keys);
    }
    hide Sane, KeptSane, Read;
    if saved.nNew >= 0 && saved.nTried >= 0 && |m| == saved.nNew + saved.nTried {
      if (forall k | k in m :: 0 <= k < |Read(e, saved)|) && KeptSane(e, saved, m.Keys) {
        AllKeptSane(e, saved, m);
      }
    }
  }

  lemma AllAreRead(e: Env, saved: Saved, m: Infos)
    requires Complete(saved) && saved.nNew >= 0 && saved.nTried >= 0 && |m| == saved.nNew + saved.nTried
    requires forall k | k in m :: 0 <= k < |Read(e, saved)|
    ensures Read(e, saved) == NewsOf(saved) + TriedsOf(saved) && forall k | 0 <= k < |Read(e, saved)| :: k in m
  {
    FirstTriedFrom(e, TriedsOf(saved));
    hide FirstTried;
    AllIds(m.Keys, |Read(e, saved)|);
    assert |m.Keys| == |m|;
  }

  lemma AllKeptSane(e: Env, saved: Saved, m: Infos)
    requires Complete(saved) && saved.nNew >= 0 && saved.nTried >= 0 && |m| == saved.nNew + saved.nTried
    requires (forall k | k in m :: 0 <= k < |Read(e, saved)|) && KeptSane(e, saved, m.Keys)
    ensures Sane(e, saved)
  {
    AllAreRead(e, saved, m);
    hide Read;
    var all := Read(e, saved);
    forall k | 0 <= k < |all|
      ensures e.isRoutable(all[k].service.addr) && all[k].nLastSuccess >= 0
      ensures k >= saved.nNew ==> all[k].nLastSuccess > 0
      ensures forall j | 0 <= j < |all| && j != k :: all[j].service.addr != all[k].service.addr
    {
      assert k in m.Keys;
    }
  }

  /** Every entry read is one of the record, in the same table. */
  lemma ReadFrom(e: Env, saved: Saved, k: nat) returns (i: nat)
    requires Complete(saved) && k < |Read(e, saved)|
    ensures var r := NewsOf(saved) + TriedsOf(saved);
            && i < |r| && r[i] == Read(e, saved)[k]
            && (k < |NewsOf(saved)| ==> i == k) && (k >= |NewsOf(saved)| ==> i >= |NewsOf(saved)|)
  {
    hide FirstTried, NewsOf, TriedsOf;
    FirstTriedFrom(e, TriedsOf(saved));
    var n, t, f := NewsOf(saved), TriedsOf(saved), FirstTried(e, TriedsOf(saved));
    i := k;
    if k >= |n| {
      assert f[k - |n|] in t;
      var j :| 0 <= j < |t| && t[j] == f[k - |n|];
      i := |n| + j;
    }
  }

  lemma ReadApart(e: Env, saved: Saved, j: nat, k: nat)
    requires Complete(saved) && Sane(e, saved) && j < k < |Read(e, saved)|
    ensures Read(e, saved)[j].service.addr != Read(e, saved)[k].service.addr
  {
    var n, t := NewsOf(saved), TriedsOf(saved);
    if j < |n| {
      hide Read;
      var i := ReadFrom(e, saved, j);
      var i' := ReadFrom(e, saved, k);
      var r := n + t;
      assert r[i].service.addr != r[i'].service.addr;
    } else {
      forall i, i' | 0 <= i < i' < |t| ensures t[i].service.addr != t[i'].service.addr {
        assert (n + t)[|n| + i] == t[i] && (n + t)[|n| + i'] == t[i'];
      }
      FirstTriedApart(e, t);
    }
  }

  lemma SaneIsKeptSane(e: Env, saved: Saved, kept: set<int>)
    requires Complete(saved) && Sane(e, saved)
    ensures KeptSane(e, saved, kept)
  {
    hide Read;
    var all := Read(e, saved);
    forall k | k in kept && 0 <= k < |all|
      ensures e.isRoutable(all[k].service.addr) && all[k].nLastSuccess >= 0
      ensures k >= saved.nNew ==> all[k].nLastSuccess > 0
      ensures forall j | 0 <= j < |all| && j != k :: all[j].service.addr != all[k].service.addr
    {
      var i := ReadFrom(e, saved, k);
      forall j | 0 <= j < |all| && j != k ensures all[j].service.addr != all[k].service.addr {
        if j < k {
          ReadApart(e, saved, j, k);
        } else {
          ReadApart(e, saved, k, j);
        }
      }
    }
  }

  lemma AllIds(ids: set<int>, n: nat)
    requires forall k | k in ids :: 0 <= k < n
    ensures |ids| <= n && (|ids| == n ==> forall k | 0 <= k < n :: k in ids)
  {
    var all := RowValues(Iota(n));
    assert IsListing(Iota(n), all);
    ListingSize(Iota(n), all);
    forall k | 0 <= k < n ensures k in all {
      assert Iota(n)[k] == k;
    }
    SubsetSize(ids, all);
    if |ids| == n {
      forall k | 0 <= k < n ensures k in ids {
        assert Iota(n)[k] == k;
        if k !in ids {
          SubsetSize(ids, all - {k});
        }
      }
    }
  }

  lemma StoredCarries(m: Infos, m': Infos, k: int, info: Info)
    requires AsStored(m, k, info) && k in m' && m'[k] == m[k].(nRefCount := m'[k].nRefCount)
    ensures AsStored(m', k, info)
  {
  }

  /** All entries of the record, before any bucket is read. */
  method LoadEntries(e: Env, saved: Saved, usable: bool, ghost s: State, ghost news: seq<int>, ghost tried: seq<int>)
    returns (mapInfo: Infos, mapAddr: map<NetAddr, int>, vRandom: seq<int>, vvTried: Table, vvNew: Table, nLost: nat)
    requires Complete(saved)
    ensures nLost <= |TriedsOf(saved)| && IsTable(vvTried, TRIED_BUCKET_COUNT) && IsTable(vvNew, NEW_BUCKET_COUNT)
    ensures |vRandom| == |NewsOf(saved)| + |TriedsOf(saved)| - nLost
    ensures Numbered(mapInfo, vRandom, if saved.nNew < 0 then saved.nNew else 0, |vRandom|)
    ensures saved.nNew >= 0 ==>
              && HoldsRead(e, saved, mapInfo) && |vRandom| == |Read(e, saved)|
              && Coherent(e, mapInfo, vvNew, vvTried) && FindsLast(mapInfo, mapAddr)
    ensures !usable ==>
              forall k | 0 <= k < saved.nNew ::
                k in mapInfo && (mapInfo[k].nRefCount == 0 <==> !IsFirst(e, NewsOf(saved), k))
    ensures usable && Loads(e, s, news, tried, saved) ==>
              && Tables(s) && Known(s, news + tried) && nLost == 0
              && HasSlots(e, s, news + tried, 0, [], mapInfo, vvNew)
              && mapAddr == AddrsOf(s, news + tried, |news + tried|) && vRandom == Iota(|news + tried|)
              && vvTried == TriedOf(s, news + tried, |news + tried|)
  {
    hide Loads, HasEntries, HasSlots, Ready, Coherent, FindsLast, IsFirst, AsStored, TriedOf, AddrsOf, TriedStored;
    ghost var fine := usable && Loads(e, s, news, tried, saved);
    if fine {
      LoadsMeans(e, s, news, tried, saved);
    }
    var m, addrs, order;
    m, addrs, order, vvNew := LoadNew(e, saved, usable, s, news, tried);
    IsCoherent(e, m, vvNew, EmptyTable(TRIED_BUCKET_COUNT));
    mapInfo, mapAddr, vRandom, vvTried, nLost := LoadTried(e, saved, m, addrs, order, vvNew, s, news, tried);
    if saved.nNew >= 0 {
      AllRead(e, saved, usable, m, mapInfo);
    }
    if fine {
      EntriesToSlots(e, s, news, tried, mapInfo, mapAddr, vRandom, vvTried);
    }
  }

  lemma AllRead(e: Env, saved: Saved, usable: bool, m: Infos, mapInfo: Infos)
    requires Complete(saved) && saved.nNew >= 0
    requires forall k :: k in m <==> 0 <= k < saved.nNew
    requires NewStored(e, m, NewsOf(saved), saved.nNew, usable)
    requires forall k | k in m :: k in mapInfo && mapInfo[k] == m[k]
    requires TriedStored(mapInfo, saved.nNew, FirstTried(e, TriedsOf(saved)))
    requires forall k :: k in mapInfo <==> 0 <= k < saved.nNew + |FirstTried(e, TriedsOf(saved))|
    ensures HoldsRead(e, saved, mapInfo)
  {
    hide FirstTried, TriedsOf, AsStored, IsFirst;
    var n, f, all := NewsOf(saved), FirstTried(e, TriedsOf(saved)), Read(e, saved);
    hide NewsOf;
    assert all == n + f && |n| == saved.nNew;
    hide Read;
    forall k | 0 <= k < |all| ensures AsStored(mapInfo, k, all[k]) && (mapInfo[k].fInTried <==> k >= saved.nNew) {
      if k < saved.nNew {
        assert AsStored(m, k, n[k]);
        StoredCarries(m, mapInfo, k, n[k]);
      } else {
        var j := k - saved.nNew;
        assert AsStored(mapInfo, saved.nNew + j, f[j]);
      }
    }
  }

  lemma LastCarries(m: Infos, m': Infos, mapAddr: map<NetAddr, int>)
    requires SameButRefs(m, m') && FindsLast(m, mapAddr)
    ensures FindsLast(m', mapAddr)
  {
    forall k | k in m ensures k in m' && m'[k].service == m[k].service {
      assert m'[k] == m[k].(nRefCount := m'[k].nRefCount);
    }
  }

  lemma ReadCarries(e: Env, saved: Saved, m: Infos, m': Infos, mapAddr: map<NetAddr, int>)
    requires Complete(saved) && HoldsRead(e, saved, m) && SameButRefs(m, m') && FindsLast(m, mapAddr)
    ensures HoldsRead(e, saved, m') && FindsLast(m', mapAddr)
  {
    LastCarries(m, m', mapAddr);
    hide Read, FindsLast;
    forall k | 0 <= k < |Read(e, saved)| ensures AsStored(m', k, Read(e, saved)[k]) {
      StoredCarries(m, m', k, Read(e, saved)[k]);
    }
  }

  lemma LoadedCounts(e: Env, saved: Saved, m: Infos)
    requires Complete(saved) && saved.nNew >= 0 && HoldsRead(e, saved, m)
    ensures Counted(m, |Read(e, saved)| - saved.nNew, saved.nNew)
  {
    hide AsStored, FirstTried;
    var n := |Read(e, saved)|;
    IotaLists(0, saved.nNew, NewIds(m));
    ListingSize(IotaFrom(0, saved.nNew), NewIds(m));
    IotaLists(saved.nNew, n - saved.nNew, TriedIds(m));
    ListingSize(IotaFrom(saved.nNew, n - saved.nNew), TriedIds(m));
  }

  lemma NumberedIndexed(m: Infos, vRandom: seq<int>, lo: int, n: nat)
    requires Numbered(m, vRandom, lo, n)
    ensures Indexed(m, vRandom)
  {
  }

  /** Everything in the record, before pruning. */
  method LoadAll(e: Env, saved: Saved, ghost s: State, ghost news: seq<int>, ghost tried: seq<int>)
    returns (loaded: State)
    requires Readable(saved)
    ensures loaded.collisions == {} && Indexed(loaded.mapInfo, loaded.vRandom)
    ensures loaded.nNew == saved.nNew && loaded.nTried <= saved.nTried
    ensures saved.nNew >= 0 ==>
              && HoldsRead(e, saved, loaded.mapInfo) && FindsLast(loaded.mapInfo, loaded.mapAddr)
              && Coherent(e, loaded.mapInfo, loaded.vvNew, loaded.vvTried)
              && loaded.nIdCount == |Read(e, saved)|
              && (saved.nTried >= 0 ==> Counted(loaded.mapInfo, loaded.nTried, loaded.nNew))
    ensures !BucketsUsable(saved) ==>
              forall k | 0 <= k < saved.nNew ::
                k in loaded.mapInfo && (loaded.mapInfo[k].nRefCount == 0 <==> !IsFirst(e, NewsOf(saved), k))
    ensures Loads(e, s, news, tried, saved) ==>
              Tables(s) && Known(s, news + tried) && loaded == Reloaded(e, s, news + tried)
  {
    hide Loads, HasSlots, Ready, Reloaded, Indexed, Coherent, FindsLast, IsFirst, AsStored, TriedOf, AddrsOf, HoldsRead;
    ghost var fine := Loads(e, s, news, tried, saved);
    if fine {
      LoadsMeans(e, s, news, tried, saved);
    }
    var nUBuckets := BucketsRead(saved);
    var usable := saved.nVersion == 1 && nUBuckets == NEW_BUCKET_COUNT;
    var mapInfo, mapAddr, vRandom, vvTried, vvNew, nLost;
    mapInfo, mapAddr, vRandom, vvTried, vvNew, nLost := LoadEntries(e, saved, usable, s, news, tried);
    ghost var start := mapInfo;
    if saved.nNew >= 0 {
      NewsNotTried(e, saved, start);
    }
    for bucket := 0 to Max(0, nUBuckets)
      invariant SameButRefs(start, mapInfo) && IsTable(vvNew, NEW_BUCKET_COUNT)
      invariant !usable ==> mapInfo == start
      invariant saved.nNew >= 0 ==> Coherent(e, mapInfo, vvNew, vvTried)
      invariant fine ==> HasSlots(e, s, news + tried, bucket, [], mapInfo, vvNew)
    {
      mapInfo, vvNew := LoadBucket(e, saved.buckets[bucket], bucket, saved.nNew, usable, mapInfo, vvNew, vvTried,
                                   s, news, tried);
    }
    NumberedIndexed(mapInfo, vRandom, if saved.nNew < 0 then saved.nNew else 0, |vRandom|);
    var nIdCount := saved.nNew + |vRandom| - Max(0, saved.nNew);
    loaded := State(nIdCount, mapInfo, mapAddr, vRandom, saved.nTried - nLost, vvTried, saved.nNew, vvNew, 1, {});
    if saved.nNew >= 0 {
      ReadCarries(e, saved, start, mapInfo, mapAddr);
      LoadedCounts(e, saved, mapInfo);
    }
    if fine {
      AllBack(e, s, news, tried, loaded);
    }
  }

  lemma NewsNotTried(e: Env, saved: Saved, m: Infos)
    requires Complete(saved) && saved.nNew >= 0 && HoldsRead(e, saved, m)
    ensures NoneTried(m, saved.nNew) && forall k | 0 <= k < saved.nNew :: k in m
  {
    hide FirstTried;
  }

  /** A record with the same address twice, both entries kept: loading succeeds, the invariant fails. */
  method RepeatedAddress() returns (e: Env, saved: Saved, r: State)
    ensures Readable(saved) && |saved.news| == 2 && saved.news[0].service == saved.news[1].service
    ensures 0 in r.mapInfo && 1 in r.mapInfo && !Inv(e, r)
  {
    hide Reloaded, Loads, Inv;
    e := Env((a: Service) => 0, (a: Service, source: NetAddr) => source.ip, (a: Service, b: int) => 0,
             (a: Service, b: int) => 0, (a: NetAddr) => true, (a: NetAddr) => true);
    var a := Service(NetAddr(1), 8333);
    var one := Info(a, 0, 0, NetAddr(0), 0, 0, 0, 0, 0, false, -1);
    var two := one.(source := NetAddr(1));
    saved := Saved(0, 32, 2, 0, 0, [one, two], [], []);
    var ok;
    ok, r := Unserialize(e, saved, Init(), [], []);
    assert NewsOf(saved) == [one, two];
    assert Primary(e, one) == (0, 0) && Primary(e, two) == (1, 0);
    assert IsFirst(e, NewsOf(saved), 0) && IsFirst(e, NewsOf(saved), 1);
    assert Read(e, saved)[0] == one && Read(e, saved)[1] == two;
  }

  lemma EntriesToSlots(e: Env, s: State, news: seq<int>, tried: seq<int>, m: Infos, mapAddr: map<NetAddr, int>,
                       vRandom: seq<int>, vvTried: Table)
    requires Ready(e, s, news, tried) && Tables(s) && Known(s, news + tried)
    requires HasEntries(e, s, news + tried, |news + tried|, m, mapAddr, vRandom, vvTried)
    ensures HasSlots(e, s, news + tried, 0, [], m, EmptyTable(NEW_BUCKET_COUNT))
    ensures mapAddr == AddrsOf(s, news + tried, |news + tried|) && vRandom == Iota(|news + tried|)
    ensures vvTried == TriedOf(s, news + tried, |news + tried|) && |vRandom| == |news + tried|
  {
    hide Ready, RefsOf, TriedOf;
    StartEntries(e, s, news, tried);
  }

  lemma AllBack(e: Env, s: State, news: seq<int>, tried: seq<int>, r: State)
    requires Ready(e, s, news, tried) && Tables(s) && Known(s, news + tried)
    requires HasSlots(e, s, news + tried, NEW_BUCKET_COUNT, [], r.mapInfo, r.vvNew)
    requires r.mapAddr == AddrsOf(s, news + tried, |news + tried|) && r.vRandom == Iota(|news + tried|)
    requires r.vvTried == TriedOf(s, news + tried, |news + tried|) && r.nIdCount == |news + tried|
    requires r.nTried == s.nTried && r.nNew == s.nNew && r.nLastGood == 1 && r.collisions == {}
    ensures r == Reloaded(e, s, news + tried)
  {
  }

  // ----- no more entries than slots -----

  function RowValues<T>(row: seq<T>): set<T> { set x | x in row }

  lemma {:induction false} RowSize<T>(row: seq<T>)
    ensures |RowValues(row)| <= |row|
  {
    if row == [] {
      assert RowValues(row) == {};
    } else {
      var n := |row| - 1;
      RowSize(row[..n]);
      assert RowValues(row) == RowValues(row[..n]) + {row[n]};
    }
  }

  function TableValues(t: Table): set<int> {
    if t == [] then {} else TableValues(t[..|t| - 1]) + RowValues(t[|t| - 1])
  }

  lemma {:induction false} TableSize(t: Table)
    requires forall b | 0 <= b < |t| :: |t[b]| == BUCKET_SIZE
    ensures |TableValues(t)| <= |t| * BUCKET_SIZE
  {
    hide RowValues;
    if t != [] {
      var n := |t| - 1;
      TableSize(t[..n]);
      RowSize(t[n]);
    }
  }

  lemma {:induction false} TableHas(t: Table, b: nat, p: nat)
    requires b < |t| && p < |t[b]|
    ensures t[b][p] in TableValues(t)
  {
    if b < |t| - 1 {
      TableHas(t[..|t| - 1], b, p);
    }
  }

  /** Every entry holds a slot of its own table, so the counts are within the limits of the format. */
  lemma CountsFit(e: Env, s: State, news: seq<int>, tried: seq<int>)
    requires Ready(e, s, news, tried)
    ensures |news| <= NEW_BUCKET_COUNT * BUCKET_SIZE && |tried| <= TRIED_BUCKET_COUNT * BUCKET_SIZE
  {
    hide IsListing, TableValues;
    ReadyKnown(e, s, news, tried);
    forall id | id in NewIds(s.mapInfo) ensures id in TableValues(s.vvNew) {
      NewEntryIsFound(e, s, id);
      var b :| 0 <= b < NEW_BUCKET_COUNT && s.vvNew[b][NewPos(e, s.mapInfo[id].service, b)] == id;
      TableHas(s.vvNew, b, NewPos(e, s.mapInfo[id].service, b));
    }
    forall id | id in TriedIds(s.mapInfo) ensures id in TableValues(s.vvTried) {
      assert Seated(e, s.vvTried, id, s.mapInfo[id], false);
      TableHas(s.vvTried, TriedBucket(e, s.mapInfo[id].service), TriedPos(e, s.mapInfo[id].service));
    }
    TableSize(s.vvNew);
    TableSize(s.vvTried);
    ListingSize(news, NewIds(s.mapInfo));
    ListingSize(tried, TriedIds(s.mapInfo));
    SubsetSize(NewIds(s.mapInfo), TableValues(s.vvNew));
    SubsetSize(TriedIds(s.mapInfo), TableValues(s.vvTried));
  }

  /** Saving and loading: the same manager up to the ids, still consistent, and with nothing lost. */
  method SaveAndLoad(e: Env, s: State) returns (ok: bool, r: State, ghost news: seq<int>, ghost tried: seq<int>)
    requires Inv(e, s)
    ensures ok && Inv(e, r) && Lists(s, news, tried)
    ensures Tables(s) && Known(s, news + tried) && r == Reloaded(e, s, news + tried)
  {
    hide InvExcept, SavedOf, Reloaded;
    var saved;
    saved, news, tried := Serialize(e, s);
    assert Loads(e, s, news, tried, saved);
    SavedBuckets(s, news, tried);
    LoadsMeans(e, s, news, tried, saved);
    ok, r := Unserialize(e, saved, s, news, tried);
    ReloadedInv(e, s, news, tried);
  }

  /** What renaming means: every slot holds the same address as before, and every address is found. */
  lemma ReloadedSame(e: Env, s: State, news: seq<int>, tried: seq<int>, b: nat, p: nat)
    requires Ready(e, s, news, tried) && Tables(s) && Known(s, news + tried) && p < BUCKET_SIZE
    ensures var r := Reloaded(e, s, news + tried);
            && Tables(r) && r.mapAddr.Keys == s.mapAddr.Keys
            && (b < NEW_BUCKET_COUNT ==> SameOccupant(s, r, s.vvNew[b][p], r.vvNew[b][p]))
            && (b < TRIED_BUCKET_COUNT ==> SameOccupant(s, r, s.vvTried[b][p], r.vvTried[b][p]))
  {
    hide IsListing, Indexed, AllReferenced, AllSeated, Collided, RefAt;
    var r := Reloaded(e, s, news + tried);
    forall a | a in s.mapAddr ensures a in r.mapAddr { PlaceOf(s, news, tried, s.mapAddr[a]); }
    if b < NEW_BUCKET_COUNT {
      assert NewSlotOk(e, s.mapInfo, b, p, s.vvNew[b][p]);
      PlaceOf(s, news, tried, s.vvNew[b][p]);
    }
    if b < TRIED_BUCKET_COUNT {
      assert TriedSlotOk(e, s.mapInfo, b, p, s.vvTried[b][p]);
      PlaceOf(s, news, tried, s.vvTried[b][p]);
    }
  }

  /** Both empty, or both the same entry as far as it is stored. */
  predicate SameOccupant(s: State, r: State, x: int, y: int) {
    (x == -1 && y == -1) ||
    (x in s.mapInfo && y in r.mapInfo && x != -1 && y != -1 && Stored(r.mapInfo[y]) == Stored(s.mapInfo[x]))
  }

  lemma SavedBuckets(s: State, news: seq<int>, tried: seq<int>)
    requires Tables(s) && Known(s, news) && Known(s, tried)
    ensures SavedOf(s, news, tried).nUBuckets >= 0
  {
  }
}
