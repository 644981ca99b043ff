/**
 CCoinsViewCache in place: a chain of cache objects over a database object. Each method is tied
 to the function on `Stack` values that says what it does to every layer.
 */
module CoinsCache {
  import opened Numbers
  import opened Coins
  import opened Transactions

  /** The part of a batch already walked through, when `todo` is left. */
  function Walked(mapCoins: CoinsMap, todo: set<OutPoint>): CoinsMap {
    map o | o in mapCoins && o !in todo :: mapCoins[o]
  }

  /** What a parent cache has left of the child's map so far. */
  function Left(mapCoins: CoinsMap, todo: set<OutPoint>): CoinsMap {
    map o | o in mapCoins && (o in todo || !mapCoins[o].isDirty) :: mapCoins[o]
  }

  /** What the database has left of the child's map so far. */
  function LeftByDb(mapCoins: CoinsMap, todo: set<OutPoint>, evict: OutPoint -> bool): CoinsMap {
    map o | o in mapCoins && (o in todo || (mapCoins[o].isDirty ==> mapCoins[o].coin.Unspent? && !evict(o))) ::
      var e := mapCoins[o];
      if o in todo then e else Entry(e.coin, false, e.isFresh && !e.isDirty)
  }

  lemma WalkStep(mapCoins: CoinsMap, todo: set<OutPoint>, o: OutPoint)
    requires o in todo && o in mapCoins
    ensures o !in Walked(mapCoins, todo)
    ensures Walked(mapCoins, todo - {o}) == Walked(mapCoins, todo)[o := mapCoins[o]]
    ensures Left(mapCoins, todo - {o})
         == if mapCoins[o].isDirty then Left(mapCoins, todo) - {o} else Left(mapCoins, todo)
  {
  }

  lemma LeftByDbStep(mapCoins: CoinsMap, todo: set<OutPoint>, o: OutPoint, evict: OutPoint -> bool)
    requires o in todo && o in mapCoins
    ensures LeftByDb(mapCoins, todo - {o}, evict) ==
            var e, kept := mapCoins[o], LeftByDb(mapCoins, todo, evict);
            if !e.isDirty then kept
            else if e.coin.Spent? || evict(o) then kept - {o}
            else kept[o := Entry(e.coin, false, false)]
  {
  }

  lemma WalkStart(mapCoins: CoinsMap, evict: OutPoint -> bool)
    ensures Walked(mapCoins, mapCoins.Keys) == map[]
    ensures Left(mapCoins, mapCoins.Keys) == LeftByDb(mapCoins, mapCoins.Keys, evict) == mapCoins
  {
  }

  lemma WalkEnd(mapCoins: CoinsMap, evict: OutPoint -> bool)
    ensures Walked(mapCoins, {}) == mapCoins
    ensures Left(mapCoins, {}) == CleanPart(mapCoins)
    ensures LeftByDb(mapCoins, {}, evict) == KeptByDb(mapCoins, evict)
  {
  }

  lemma WriteStep(coins: map<OutPoint, Coin>, done: CoinsMap, o: OutPoint, e: Entry)
    requires o !in done
    ensures WriteToDb(coins, done[o := e]) ==
            var written := WriteToDb(coins, done);
            if !e.isDirty then written
            else if e.coin.Spent? then written - {o}
            else written[o := e.coin]
  {
  }

  class CoinsViewDB {
    var coins: map<OutPoint, Coin>

    constructor ()
      ensures coins == map[]
    {
      coins := map[];
    }

    /** Writes the dirty entries of the child, and says what the child keeps. */
    method BatchWrite(mapCoins: CoinsMap, childUsage: int, u: UsageFn, evict: OutPoint -> bool)
      returns (kept: CoinsMap, usage: int)
      modifies this
      ensures coins == WriteToDb(old(coins), mapCoins)
      ensures kept == KeptByDb(mapCoins, evict)
      ensures usage == childUsage - (SumUsage(u, mapCoins) - SumUsage(u, kept))
    {
      kept, usage := mapCoins, childUsage;
      var todo := mapCoins.Keys;
      WalkStart(mapCoins, evict);
      while todo != {}
        invariant todo <= mapCoins.Keys
        invariant coins == WriteToDb(old(coins), Walked(mapCoins, todo))
        invariant kept == LeftByDb(mapCoins, todo, evict)
        invariant usage == childUsage - (SumUsage(u, mapCoins) - SumUsage(u, kept))
      {
        var o :| o in todo;
        var e := mapCoins[o];
        WalkStep(mapCoins, todo, o);
        LeftByDbStep(mapCoins, todo, o, evict);
        WriteStep(old(coins), Walked(mapCoins, todo), o, e);
        SumUsageErase(u, kept, o);
        SumUsageSet(u, kept, o, Entry(e.coin, false, false));
        if e.isDirty {
          if e.coin.Spent? {
            coins := coins - {o};
            usage := usage - Usage(u, e.coin);
            kept := kept - {o};
          } else {
            coins := coins[o := e.coin];
            if evict(o) {
              usage := usage - Usage(u, e.coin);
              kept := kept - {o};
            } else {
              kept := kept[o := Entry(e.coin, false, false)];
            }
          }
        }
        todo := todo - {o};
      }
      WalkEnd(mapCoins, evict);
    }
  }

  class CoinsViewCache {
    const base: CoinsViewCache?
    const db: CoinsViewDB
    const u: UsageFn
    const mapUsage: nat -> nat
    ghost const Repr: set<object>

    var cacheCoins: CoinsMap
    var cachedCoinsUsage: int
    var nBestCoinHeight: nat

    /** The chain of bases is fixed, finite and ends in the database. */
    ghost predicate Shape()
      decreases Repr
    {
      && this in Repr && db in Repr
      && (base != null ==>
            && base.Repr < Repr && this !in base.Repr
            && base.db == db && base.u == u
            && base.Shape())
    }

    ghost function Value(): Stack
      requires Shape()
      reads Repr
      decreases Repr
    {
      Over(Top(), Base())
    }

    ghost function Top(): Cache
      reads this
    {
      Cache(cacheCoins, cachedCoinsUsage, nBestCoinHeight)
    }

    ghost function Base(): Stack
      requires Shape()
      reads Repr
      decreases Repr, 0
    {
      if base == null then Db(db.coins) else base.Value()
    }

    constructor (baseIn: CoinsViewCache?, dbIn: CoinsViewDB, uIn: UsageFn, mapUsageIn: nat -> nat)
      requires baseIn != null ==> baseIn.Shape() && baseIn.db == dbIn && baseIn.u == uIn
      ensures Shape() && base == baseIn && db == dbIn && u == uIn && mapUsage == mapUsageIn
      ensures Value() == Over(Cache(map[], 0, 0), if baseIn == null then Db(dbIn.coins) else baseIn.Value())
    {
      base, db, u, mapUsage := baseIn, dbIn, uIn, mapUsageIn;
      Repr := {this, dbIn} + if baseIn == null then {} else baseIn.Repr;
      cacheCoins, cachedCoinsUsage, nBestCoinHeight := map[], 0, 0;
    }

    method FetchCoin(outpoint: OutPoint) returns (found: bool)
      requires Shape()
      modifies Repr
      ensures Value() == Fetch(old(Value()), outpoint, u)
      ensures found == (outpoint in cacheCoins)
      decreases Repr
    {
      if outpoint in cacheCoins {
        return true;
      }
      var coin := Spent;
      if base == null {
        found := outpoint in db.coins;
        if found { coin := db.coins[outpoint]; }
      } else {
        found := base.FetchCoin(outpoint);
        if found { coin := base.cacheCoins[outpoint].coin; }
      }
      if found {
        var e := Entry(coin, false, false);
        if e.coin.Spent? { e := e.(isFresh := true); }
        cacheCoins := cacheCoins[outpoint := e];
        cachedCoinsUsage := cachedCoinsUsage + Usage(u, coin);
        if nBestCoinHeight < coin.Height() {
          nBestCoinHeight := coin.Height();
        }
      }
    }

    method AddCoin(outpoint: OutPoint, coin: Coin, possibleOverwrite: bool) returns (outcome: AddOutcome)
      requires Shape() && coin.Unspent?
      modifies this
      ensures (Top(), outcome) == Coins.AddCoin(old(Top()), outpoint, coin, possibleOverwrite, u)
      ensures Base() == old(Base())
    {
      if IsUnspendable(coin.script) {
        return Ignored;
      }
      var inserted := outpoint !in cacheCoins;
      var e := if inserted then Entry(Spent, false, false) else cacheCoins[outpoint];
      if !inserted {
        cachedCoinsUsage := cachedCoinsUsage - Usage(u, e.coin);
      }
      var markFresh := false;
      if !possibleOverwrite {
        if e.coin.Unspent? {
          return Thrown;
        }
        markFresh := !e.isDirty;
      }
      cacheCoins := cacheCoins[outpoint := Entry(coin, true, e.isFresh || markFresh)];
      cachedCoinsUsage := cachedCoinsUsage + Usage(u, coin);
      if nBestCoinHeight < coin.Height() {
        nBestCoinHeight := coin.Height();
      }
      outcome := Added;
    }

    method SpendCoin(outpoint: OutPoint) returns (moveout: Coin)
      requires Shape()
      modifies Repr
      ensures (Value(), moveout) == Coins.SpendCoin(old(Value()), outpoint, u)
    {
      var found := FetchCoin(outpoint);
      if !found {
        return Spent;
      }
      var e := cacheCoins[outpoint];
      cachedCoinsUsage := cachedCoinsUsage - Usage(u, e.coin);
      moveout := e.coin;
      if e.isFresh {
        cacheCoins := cacheCoins - {outpoint};
      } else {
        cacheCoins := cacheCoins[outpoint := Entry(Spent, true, false)];
      }
    }

    /** GetCoin, _AccessCoin and HaveCoin: what the view holds, found without changing it. */
    method AccessCoin(outpoint: OutPoint) returns (coin: Coin)
      requires Shape() && Valid(Value(), u)
      modifies Repr
      ensures Value() == Fetch(old(Value()), outpoint, u)
      ensures Valid(Value(), u) && SameView(old(Value()), Value())
      ensures coin == Lookup(old(Value()), outpoint)
    {
      FetchKeepsView(Value(), outpoint, u);
      var found := FetchCoin(outpoint);
      coin := if found then cacheCoins[outpoint].coin else Spent;
    }

    method GetCoinFromDB(outpoint: OutPoint) returns (have: bool)
      requires Shape()
      modifies Repr
      ensures (Value(), have) == Coins.GetCoinFromDB(old(Value()), outpoint, u)
    {
      ghost var was := cacheCoins;
      var coin := Spent;
      var found;
      if base == null {
        found := outpoint in db.coins;
        if found { coin := db.coins[outpoint]; }
      } else {
        found := base.FetchCoin(outpoint);
        if found { coin := base.cacheCoins[outpoint].coin; }
      }
      if !found {
        return false;
      }
      if outpoint !in cacheCoins {
        cacheCoins := cacheCoins[outpoint := Entry(coin, false, false)];
      }
      coin := cacheCoins[outpoint].coin;
      if coin.Spent? {
        cacheCoins := cacheCoins[outpoint := Entry(coin, false, true)];
      }
      cachedCoinsUsage := cachedCoinsUsage + Usage(u, coin);
      if nBestCoinHeight < coin.Height() {
        nBestCoinHeight := coin.Height();
      }
      assert cacheCoins == was[outpoint := cacheCoins[outpoint]];
      have := coin.Unspent?;
    }

    method Uncache(outpoint: OutPoint)
      requires Shape()
      modifies this
      ensures Value() == Coins.Uncache(old(Value()), outpoint, u)
    {
      if outpoint in cacheCoins && IsClean(cacheCoins[outpoint]) {
        cachedCoinsUsage := cachedCoinsUsage - Usage(u, cacheCoins[outpoint].coin);
        cacheCoins := cacheCoins - {outpoint};
      }
    }

    /**
     Takes a child's batch. `ok` is false when an entry is refused as wrongly marked FRESH; then
     the batch has been taken in part, in the order of the child's map.
     */
    method BatchWrite(mapCoins: CoinsMap, nBestCoinHeightIn: nat, childUsage: int)
      returns (ok: bool, kept: CoinsMap, usage: int)
      modifies this
      ensures ok <==> forall o | o in mapCoins :: !Misapplied(old(cacheCoins), o, mapCoins[o])
      ensures ok ==> Top() == Cache(Merge(old(cacheCoins), mapCoins),
                                    old(cachedCoinsUsage) + SumUsage(u, cacheCoins) - SumUsage(u, old(cacheCoins)),
                                    Max(old(nBestCoinHeight), nBestCoinHeightIn))
      ensures ok ==> kept == CleanPart(mapCoins)
      ensures ok ==> usage == childUsage - (SumUsage(u, mapCoins) - SumUsage(u, kept))
    {
      ok, kept, usage := true, mapCoins, childUsage;
      var todo := mapCoins.Keys;
      WalkStart(mapCoins, _ => true);
      MergeEmpty(cacheCoins);
      while todo != {}
        invariant ok && todo <= mapCoins.Keys
        invariant nBestCoinHeight == old(nBestCoinHeight)
        invariant cacheCoins == Merge(old(cacheCoins), Walked(mapCoins, todo))
        invariant cachedCoinsUsage == old(cachedCoinsUsage) + SumUsage(u, cacheCoins) - SumUsage(u, old(cacheCoins))
        invariant kept == Left(mapCoins, todo)
        invariant usage == childUsage - (SumUsage(u, mapCoins) - SumUsage(u, kept))
        invariant forall o | o in mapCoins && o !in todo :: !Misapplied(old(cacheCoins), o, mapCoins[o])
      {
        var o :| o in todo;
        WalkStep(mapCoins, todo, o);
        MergeStep(old(cacheCoins), Walked(mapCoins, todo), o, mapCoins[o]);
        ok, kept, usage := TakeEntry(o, mapCoins[o], kept, usage);
        if !ok {
          return;
        }
        todo := todo - {o};
      }
      WalkEnd(mapCoins, _ => true);
      if nBestCoinHeightIn > nBestCoinHeight {
        nBestCoinHeight := nBestCoinHeightIn;
      }
    }

    /** One entry of a child's batch, the child's map and usage being handed along. */
    method TakeEntry(o: OutPoint, e: Entry, mapCoins: CoinsMap, childUsage: int)
      returns (ok: bool, kept: CoinsMap, usage: int)
      requires o in mapCoins && mapCoins[o] == e
      modifies this
      ensures ok <==> !Misapplied(old(cacheCoins), o, e)
      ensures ok ==> cacheCoins == MergeEntry(old(cacheCoins), o, e)
      ensures ok ==> cachedCoinsUsage == old(cachedCoinsUsage) + SumUsage(u, cacheCoins) - SumUsage(u, old(cacheCoins))
      ensures ok ==> kept == if e.isDirty then mapCoins - {o} else mapCoins
      ensures ok ==> usage == childUsage - (SumUsage(u, mapCoins) - SumUsage(u, kept))
      ensures nBestCoinHeight == old(nBestCoinHeight)
    {
      kept, usage, ok := mapCoins, childUsage, true;
      if e.isDirty {
        usage := usage - Usage(u, e.coin);
        if Misapplied(cacheCoins, o, e) {
          return false, kept, usage;
        }
        TakeDirty(o, e);
        SumUsageErase(u, kept, o);
        kept := kept - {o};
      }
    }

    /** One dirty entry of a child enters this cache. */
    method TakeDirty(o: OutPoint, e: Entry)
      requires e.isDirty
      modifies this
      ensures cacheCoins == MergeEntry(old(cacheCoins), o, e)
      ensures cachedCoinsUsage == old(cachedCoinsUsage) + SumUsage(u, cacheCoins) - SumUsage(u, old(cacheCoins))
      ensures nBestCoinHeight == old(nBestCoinHeight)
    {
      if o !in cacheCoins {
        if !(e.isFresh && e.coin.Spent?) {
          SumUsageSet(u, cacheCoins, o, e);
          cacheCoins := cacheCoins[o := e];
          cachedCoinsUsage := cachedCoinsUsage + Usage(u, e.coin);
        }
      } else {
        var us := cacheCoins[o];
        cachedCoinsUsage := cachedCoinsUsage - Usage(u, us.coin);
        if us.isFresh && e.coin.Spent? {
          SumUsageErase(u, cacheCoins, o);
          cacheCoins := cacheCoins - {o};
        } else {
          SumUsageSet(u, cacheCoins, o, Entry(e.coin, true, us.isFresh));
          cacheCoins := cacheCoins[o := Entry(e.coin, true, us.isFresh)];
          cachedCoinsUsage := cachedCoinsUsage + Usage(u, e.coin);
        }
      }
    }

    /** Pushes the changes one layer down; on a well-formed stack the batch is never refused. */
    method Flush(evict: OutPoint -> bool) returns (ok: bool)
      requires Shape() && Valid(Value(), u)
      modifies Repr
      ensures ok
      ensures Value() == Coins.Flush(old(Value()), u, evict)
      ensures Valid(Value(), u)
      ensures SameView(old(Value()), Value()) && SameView(old(Value()), Base())
    {
      FlushRefines(Value(), u, evict);
      if base == null {
        cacheCoins, cachedCoinsUsage := db.BatchWrite(cacheCoins, cachedCoinsUsage, u, evict);
        ok := true;
      } else {
        BaseIsCache();
        ok := FlushToCache(evict);
      }
    }

    method FlushToCache(ghost evict: OutPoint -> bool) returns (ok: bool)
      requires Shape() && base != null
      modifies Repr
      ensures ok <==> forall o | o in old(cacheCoins) :: !Misapplied(old(base.cacheCoins), o, old(cacheCoins)[o])
      ensures ok ==> Value() == Coins.Flush(old(Value()), u, evict)
    {
      BaseIsCache();
      var kept, usage;
      ok, kept, usage := base.BatchWrite(cacheCoins, nBestCoinHeight, cachedCoinsUsage);
      if !ok {
        return;
      }
      cacheCoins, cachedCoinsUsage := kept, usage;
      BaseIsCache();
    }

    lemma BaseIsCache()
      requires Shape() && base != null
      ensures Base() == Over(base.Top(), base.Base())
    {
      assert Base() == base.Value();
    }

    function DynamicMemoryUsage(): int
      reads this
    {
      mapUsage(|cacheCoins|) + cachedCoinsUsage
    }

    /** One walk over the cache, erasing clean entries until the target is met or the end is reached. */
    method Sweep(nTrimSize: int, anyHeight: bool, nTrimHeight: nat) returns (atEnd: bool, nTrimmed: nat)
      requires Shape() && Valid(Value(), u)
      modifies this
      ensures Trimmed(old(Value()), Value()) && Valid(Value(), u)
      ensures if atEnd
              then forall o | o in cacheCoins :: !MayTrim(cacheCoins[o], anyHeight, nTrimHeight)
              else DynamicMemoryUsage() <= nTrimSize
      ensures nTrimmed == 0 <==> cacheCoins == old(cacheCoins)
      ensures old(DynamicMemoryUsage()) <= nTrimSize ==> Top() == old(Top()) && !atEnd
    {
      atEnd, nTrimmed := false, 0;
      var todo := cacheCoins.Keys;
      while DynamicMemoryUsage() > nTrimSize
        invariant Valid(Value(), u) && Trimmed(old(Value()), Value())
        invariant forall o | o in cacheCoins && o !in todo :: !MayTrim(cacheCoins[o], anyHeight, nTrimHeight)
        invariant todo <= cacheCoins.Keys
        invariant old(DynamicMemoryUsage()) <= nTrimSize ==> nTrimmed == 0
        invariant if nTrimmed == 0 then Top() == old(Top()) else cacheCoins != old(cacheCoins)
        decreases |todo|
      {
        if todo == {} {
          return true, nTrimmed;
        }
        var o :| o in todo;
        todo := todo - {o};
        if MayTrim(cacheCoins[o], anyHeight, nTrimHeight) {
          EraseClean(o, old(Value()));
          nTrimmed := nTrimmed + 1;
        }
      }
    }

    method EraseClean(o: OutPoint, ghost start: Stack)
      requires Shape() && Valid(Value(), u) && Trimmed(start, Value())
      requires o in cacheCoins && IsClean(cacheCoins[o])
      modifies this
      ensures Valid(Value(), u) && Trimmed(start, Value())
      ensures cacheCoins == old(cacheCoins) - {o} && cacheCoins != start.cache.coins
    {
      TrimStep(start, Value(), o, u);
      cachedCoinsUsage := cachedCoinsUsage - Usage(u, cacheCoins[o].coin);
      cacheCoins := cacheCoins - {o};
      assert Base() == old(Base());
    }

    /**
     Trim. The trim-height delta is a static of the source and is handed in and out. Ends with the
     usage within the target or no clean entry left, and never changes what the view holds.
     */
    method Trim(nTrimSize: int, deltaIn: nat) returns (nTrimHeightDelta: nat)
      requires Shape() && Valid(Value(), u)
      modifies this
      ensures Trimmed(old(Value()), Value()) && Valid(Value(), u)
      ensures DynamicMemoryUsage() <= nTrimSize || forall o | o in cacheCoins :: !IsClean(cacheCoins[o])
      ensures old(DynamicMemoryUsage()) <= nTrimSize ==> Top() == old(Top())
    {
      nTrimHeightDelta := deltaIn;
      var nTrimmed, nTrimmedByHeight := 0, 0;
      var nTrimHeight: nat := (nBestCoinHeight - nTrimHeightDelta) % UINT64;
      var fDone := false;
      while !fDone && DynamicMemoryUsage() > nTrimSize
        invariant Trimmed(old(Value()), Value()) && Valid(Value(), u)
        invariant old(DynamicMemoryUsage()) <= nTrimSize ==> Top() == old(Top())
        decreases nTrimHeightDelta, (if fDone then 0 else 1) + if DynamicMemoryUsage() > nTrimSize then 1 else 0
      {
        var n;
        fDone, n := Sweep(nTrimSize, false, nTrimHeight);
        nTrimmed, nTrimmedByHeight := nTrimmed + n, nTrimmedByHeight + n;
        if fDone && DynamicMemoryUsage() > nTrimSize && nTrimHeightDelta > SMALLEST_DELTA {
          nTrimHeightDelta := SmallerDelta(nTrimHeightDelta);
          nTrimHeight := if nBestCoinHeight > nTrimHeightDelta then nBestCoinHeight - nTrimHeightDelta else 0;
          fDone := false;
        }
      }
      var _, n := Sweep(nTrimSize, true, 0);
      nTrimmed := nTrimmed + n;
      if nTrimmedByHeight == 0 && nTrimmed == 0 {
        nTrimHeightDelta := nTrimHeightDelta + SMALLEST_DELTA;
        if nTrimHeightDelta > nBestCoinHeight {
          nTrimHeightDelta := nBestCoinHeight;
        }
      }
    }
  }

  const UINT64: nat := 0x1_0000_0000_0000_0000
  const SMALLEST_DELTA: nat := 50

  function SmallerDelta(delta: nat): (smaller: nat)
    ensures delta > SMALLEST_DELTA ==> smaller < delta
  {
    var step := if delta <= SMALLEST_DELTA * 100 then SMALLEST_DELTA * 2
                else if delta <= SMALLEST_DELTA * 400 then SMALLEST_DELTA * 10
                else SMALLEST_DELTA * 200;
    if delta > step then delta - step else 0
  }

  predicate MayTrim(e: Entry, anyHeight: bool, nTrimHeight: nat) {
    IsClean(e) && (anyHeight || e.coin.Height() < nTrimHeight)
  }

  /** Only clean entries of the top cache are gone, and nothing else has changed. */
  ghost predicate Trimmed(s: Stack, s': Stack) {
    && s.Over? && s'.Over? && s'.base == s.base && s'.cache.bestHeight == s.cache.bestHeight
    && (forall o | o in s'.cache.coins :: o in s.cache.coins && s'.cache.coins[o] == s.cache.coins[o])
    && (forall o | o in s.cache.coins && o !in s'.cache.coins :: IsClean(s.cache.coins[o]))
    && SameView(s, s')
  }

  lemma TrimStep(s: Stack, s': Stack, o: OutPoint, u: UsageFn)
    requires Trimmed(s, s') && Valid(s', u) && o in s'.cache.coins && IsClean(s'.cache.coins[o])
    ensures var s'' := Over(Erase(s'.cache, o, u), s'.base);
            Trimmed(s, s'') && Valid(s'', u) && s''.cache.coins != s.cache.coins
  {
    EraseCleanKeepsView(s', o, u);
    assert o in s.cache.coins;
  }

  // ----- transactions on a cache -----

  method GetValueIn(cache: CoinsViewCache, tx: Tx) returns (nResult: int)
    requires cache.Shape() && Valid(cache.Value(), cache.u)
    modifies cache.Repr
    ensures Valid(cache.Value(), cache.u) && SameView(old(cache.Value()), cache.Value())
    ensures nResult == ValueIn(View(old(cache.Value())), Inputs(tx))
  {
    if tx.IsCoinBase() {
      return 0;
    }
    nResult := 0;
    ghost var v := View(cache.Value());
    for i := 0 to |tx.vin|
      invariant Valid(cache.Value(), cache.u) && SameView(old(cache.Value()), cache.Value())
      invariant nResult == ValueIn(v, tx.vin[..i])
    {
      ViewIsLookup(old(cache.Value()), tx.vin[i]);
      var coin := cache.AccessCoin(tx.vin[i]);
      nResult := nResult + coin.Value();
      assert tx.vin[..i + 1][..i] == tx.vin[..i];
    }
    assert tx.vin[..|tx.vin|] == tx.vin;
  }

  method SpendCoins(tx: Tx, inputs: CoinsViewCache) returns (vprevout: seq<Coin>)
    requires inputs.Shape()
    modifies inputs.Repr
    ensures (inputs.Value(), vprevout) == SpendEach(old(inputs.Value()), Inputs(tx), inputs.u)
    ensures Valid(old(inputs.Value()), inputs.u) ==>
              && Valid(inputs.Value(), inputs.u)
              && View(inputs.Value()) == SpendAll(View(old(inputs.Value())), Inputs(tx))
              && vprevout == SpentCoins(View(old(inputs.Value())), Inputs(tx))
  {
    hide Valid, Coins.SpendCoin;
    vprevout := [];
    ghost var s := inputs.Value();
    if !tx.IsCoinBase() {
      for i := 0 to |tx.vin|
        invariant (inputs.Value(), vprevout) == SpendEach(s, tx.vin[..i], inputs.u)
      {
        var coin := inputs.SpendCoin(tx.vin[i]);
        vprevout := vprevout + [coin];
        assert tx.vin[..i + 1][..i] == tx.vin[..i];
      }
      assert tx.vin[..|tx.vin|] == tx.vin;
    }
    if Valid(s, inputs.u) {
      SpendEachRefines(s, Inputs(tx), inputs.u);
    }
  }

  /** Adds the outputs one by one; false is a repeated transaction, on which AddCoin throws. */
  method AddCoins(cache: CoinsViewCache, tx: Tx, nHeight: nat) returns (ok: bool)
    requires cache.Shape() && NoNulls(tx)
    modifies cache
    ensures (cache.Value(), ok) == AddEach(old(cache.Value()), tx, nHeight, |tx.vout|, cache.u)
    ensures Valid(old(cache.Value()), cache.u) && MayAdd(View(old(cache.Value())), tx) ==>
              && ok && Valid(cache.Value(), cache.u)
              && View(cache.Value()) == View(old(cache.Value())) + Created(tx, nHeight)
  {
    hide Valid, Coins.AddCoin, MayAdd;
    ghost var s := cache.Value();
    if Valid(s, cache.u) && MayAdd(View(s), tx) {
      AddEachRefines(s, tx, nHeight, |tx.vout|, cache.u);
      CreatedIsAll(tx, nHeight);
    }
    for i := 0 to |tx.vout|
      invariant cache.Base() == old(cache.Base()) && (cache.Value(), true) == AddEach(s, tx, nHeight, i, cache.u)
    {
      var outcome := cache.AddCoin(OutPoint(tx.txid, i), NewCoin(tx, i, nHeight), tx.IsCoinBase());
      if outcome.Thrown? {
        ThrownStays(s, tx, nHeight, i + 1, cache.u);
        return false;
      }
    }
    ok := true;
  }

  /** Once AddCoin has thrown, no further output is added. */
  lemma {:induction false} ThrownStays(s: Stack, tx: Tx, nHeight: nat, n: nat, u: UsageFn)
    requires s.Over? && n <= |tx.vout| && !AddEach(s, tx, nHeight, n, u).1
    ensures AddEach(s, tx, nHeight, |tx.vout|, u) == AddEach(s, tx, nHeight, n, u)
    decreases |tx.vout| - n
  {
    if n < |tx.vout| {
      ThrownStays(s, tx, nHeight, n + 1, u);
    }
  }

  /** UpdateCoins: the view moves on by the transaction, and the undo data is what it took. */
  method UpdateCoins(tx: Tx, inputs: CoinsViewCache, nHeight: nat) returns (vprevout: seq<Coin>, ok: bool)
    requires inputs.Shape() && NoNulls(tx)
    modifies inputs.Repr
    ensures (inputs.Value(), vprevout, ok) == UpdateStack(old(inputs.Value()), tx, nHeight, inputs.u)
    ensures Valid(old(inputs.Value()), inputs.u) && MayAdd(SpendAll(View(old(inputs.Value())), Inputs(tx)), tx) ==>
              && ok && Valid(inputs.Value(), inputs.u)
              && View(inputs.Value()) == Updated(View(old(inputs.Value())), tx, nHeight)
              && vprevout == SpentCoins(View(old(inputs.Value())), Inputs(tx))
  {
    hide Valid, MayAdd;
    ghost var s := inputs.Value();
    vprevout := SpendCoins(tx, inputs);
    ok := AddCoins(inputs, tx, nHeight);
    if Valid(s, inputs.u) && MayAdd(SpendAll(View(s), Inputs(tx)), tx) {
      UpdateRefines(s, tx, nHeight, inputs.u);
    }
  }

  /** The first unspent output of a transaction, looked up one by one. */
  method AccessByTxid(view: CoinsViewCache, txid: nat, nMaxOutputs: nat) returns (coin: Coin)
    requires view.Shape() && Valid(view.Value(), view.u)
    modifies view.Repr
    ensures Valid(view.Value(), view.u) && View(view.Value()) == View(old(view.Value()))
    ensures coin == Alternate(View(old(view.Value())), txid, 0, nMaxOutputs)
  {
    hide Valid;
    ghost var v := View(view.Value());
    var n := 0;
    while n < nMaxOutputs
      invariant Valid(view.Value(), view.u) && View(view.Value()) == v
      invariant Alternate(v, txid, n, nMaxOutputs) == Alternate(v, txid, 0, nMaxOutputs)
      decreases nMaxOutputs - n
    {
      ghost var s := view.Value();
      ViewIsLookup(s, OutPoint(txid, n));
      var alternate := view.AccessCoin(OutPoint(txid, n));
      SameViewIsEqualView(s, view.Value());
      if alternate.Unspent? {
        return alternate;
      }
      n := n + 1;
    }
    return Spent;
  }

  datatype DisconnectResult = DisconnectOk | DisconnectUnclean | DisconnectFailed

  /**
   One spent coin comes back; it overwrites only where the view still holds a coin. A record
   without a height is completed from another output of the same transaction, or fails.
   */
  method ApplyTxInUndo(undo: Coin, view: CoinsViewCache, out: OutPoint, nMaxOutputs: nat)
    returns (res: DisconnectResult)
    requires view.Shape() && Valid(view.Value(), view.u) && undo.Unspent?
    modifies view.Repr
    ensures Valid(view.Value(), view.u)
    ensures var d := UndoOne(Undone(View(old(view.Value())), true, false), out, undo, nMaxOutputs);
            && View(view.Value()) == d.v
            && res == if d.failed then DisconnectFailed else if d.clean then DisconnectOk else DisconnectUnclean
  {
    hide Valid, Alternate;
    ghost var s := view.Value();
    ViewIsLookup(s, out);
    var held := view.AccessCoin(out);
    SameViewIsEqualView(s, view.Value());
    var coin := undo;
    if undo.nHeight == 0 {
      var alternate := AccessByTxid(view, out.hash, nMaxOutputs);
      if alternate.Spent? {
        return DisconnectFailed;
      }
      coin := undo.(nHeight := alternate.nHeight, coinbase := alternate.coinbase);
    }
    ViewIsLookup(view.Value(), out);
    AddOutputRefines(view.Value(), out, coin, held.Unspent?, view.u);
    var outcome := view.AddCoin(out, coin, held.Unspent?);
    res := if held.Spent? then DisconnectOk else DisconnectUnclean;
  }
}
