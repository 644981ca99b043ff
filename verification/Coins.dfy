/**
 Coins, cache entries and stacks of caches over a database, as values.

 `Lookup` is what a stack means: one flat map from outpoint to unspent coin. The functions say
 what each operation does to every layer; the lemmas say that all of them act on the flat map.
 */
module Coins {
  import opened Numbers
  import opened Sums

  datatype OutPoint = OutPoint(hash: nat, n: nat)

  type Script = seq<bv8>

  const OP_RETURN: bv8 := 0x6a
  const MAX_SCRIPT_SIZE := 10000

  predicate IsUnspendable(script: Script) {
    (|script| > 0 && script[0] == OP_RETURN) || |script| > MAX_SCRIPT_SIZE
  }

  /** A transaction output with its height; `Spent` is the null coin, whose value reads as -1. */
  datatype Coin = Spent | Unspent(value: int, script: Script, coinbase: bool, nHeight: nat) {
    function Height(): nat { if Spent? then 0 else nHeight }
    function Value(): int { if Spent? then -1 else value }
  }

  /** Heap bytes of a script; the allocator decides, so it is a parameter throughout. */
  type UsageFn = Script -> nat

  function Usage(u: UsageFn, coin: Coin): nat { if coin.Spent? then 0 else u(coin.script) }

  datatype Entry = Entry(coin: Coin, isDirty: bool, isFresh: bool)

  type CoinsMap = map<OutPoint, Entry>

  datatype Cache = Cache(coins: CoinsMap, usage: int, bestHeight: nat)

  datatype Stack = Db(coins: map<OutPoint, Coin>) | Over(cache: Cache, base: Stack)

  // ----- what a stack means -----

  function Lookup(s: Stack, o: OutPoint): Coin {
    match s
    case Db(coins) => if o in coins then coins[o] else Spent
    case Over(c, b) => if o in c.coins then c.coins[o].coin else Lookup(b, o)
  }

  function Mentioned(s: Stack): set<OutPoint> {
    match s
    case Db(coins) => coins.Keys
    case Over(c, b) => c.coins.Keys + Mentioned(b)
  }

  /** The flat map of unspent coins. */
  function View(s: Stack): map<OutPoint, Coin> {
    map o | o in Mentioned(s) && Lookup(s, o).Unspent? :: Lookup(s, o)
  }

  lemma {:induction false} ViewIsLookup(s: Stack, o: OutPoint)
    ensures o in View(s) <==> Lookup(s, o).Unspent?
    ensures o in View(s) ==> View(s)[o] == Lookup(s, o)
  {
    if s.Over? {
      ViewIsLookup(s.base, o);
    }
  }

  ghost predicate SameView(s: Stack, s': Stack) { forall o :: Lookup(s', o) == Lookup(s, o) }

  /** Same coins everywhere except that `o` now is `coin`. */
  ghost predicate ViewBecomes(s: Stack, s': Stack, o: OutPoint, coin: Coin) {
    forall p :: Lookup(s', p) == if p == o then coin else Lookup(s, p)
  }

  lemma SameViewIsEqualView(s: Stack, s': Stack)
    requires SameView(s, s')
    ensures View(s') == View(s)
  {
    forall o ensures o in View(s) <==> o in View(s') {
      ViewIsLookup(s, o);
      ViewIsLookup(s', o);
    }
  }

  lemma ViewBecomesFlat(s: Stack, s': Stack, o: OutPoint, coin: Coin)
    requires ViewBecomes(s, s', o, coin)
    ensures View(s') == if coin.Spent? then View(s) - {o} else View(s)[o := coin]
  {
    var flat := if coin.Spent? then View(s) - {o} else View(s)[o := coin];
    forall p ensures p in flat <==> p in View(s') {
      ViewIsLookup(s, p);
      ViewIsLookup(s', p);
    }
  }

  // ----- the invariant of a cache over its base -----

  ghost function SumUsage(u: UsageFn, coins: CoinsMap): int {
    Total((e: Entry) => Usage(u, e.coin) as int, coins)
  }

  /** FRESH: the base holds no unspent coin. Not DIRTY: the base holds the same coin. */
  ghost predicate EntryAgrees(e: Entry, inBase: Coin) {
    && (e.isFresh ==> inBase.Spent?)
    && (!e.isDirty ==> inBase == e.coin)
  }

  ghost predicate FlagsAgree(coins: CoinsMap, base: Stack) {
    forall o | o in coins :: EntryAgrees(coins[o], Lookup(base, o))
  }

  ghost predicate HeightsBelow(coins: CoinsMap, height: nat) {
    forall o | o in coins :: coins[o].coin.Height() <= height
  }

  ghost predicate Valid(s: Stack, u: UsageFn) {
    match s
    case Db(coins) => forall o | o in coins :: coins[o].Unspent?
    case Over(c, b) =>
      && Valid(b, u)
      && FlagsAgree(c.coins, b)
      && HeightsBelow(c.coins, c.bestHeight)
      && c.usage == SumUsage(u, c.coins)
  }

  // ----- fetching -----

  /** Whether this layer itself holds an entry, spent or not. */
  predicate Has(s: Stack, o: OutPoint) {
    match s
    case Db(coins) => o in coins
    case Over(c, _) => o in c.coins
  }

  function Stored(s: Stack, o: OutPoint): Coin
    requires Has(s, o)
  {
    match s
    case Db(coins) => coins[o]
    case Over(c, _) => c.coins[o].coin
  }

  /** A coin read from the base enters clean; a spent one enters FRESH. */
  function CacheFetched(c: Cache, o: OutPoint, coin: Coin, u: UsageFn): Cache {
    Cache(c.coins[o := Entry(coin, false, coin.Spent?)],
          c.usage + Usage(u, coin), Max(c.bestHeight, coin.Height()))
  }

  /** FetchCoin: every layer between the one that has the coin and the top gets a copy. */
  function Fetch(s: Stack, o: OutPoint, u: UsageFn): Stack {
    match s
    case Db(_) => s
    case Over(c, b) =>
      if o in c.coins then s
      else
        var b' := Fetch(b, o, u);
        Over(if Has(b', o) then CacheFetched(c, o, Stored(b', o), u) else c, b')
  }

  lemma SumUsageSet(u: UsageFn, coins: CoinsMap, o: OutPoint, e: Entry)
    ensures SumUsage(u, coins[o := e]) ==
            SumUsage(u, coins) + Usage(u, e.coin) - if o in coins then Usage(u, coins[o].coin) else 0
  {
    TotalUpdate((e: Entry) => Usage(u, e.coin) as int, coins, o, e);
  }

  lemma SumUsageErase(u: UsageFn, coins: CoinsMap, o: OutPoint)
    ensures SumUsage(u, coins - {o}) == SumUsage(u, coins) - if o in coins then Usage(u, coins[o].coin) else 0
  {
    TotalUpdate((e: Entry) => Usage(u, e.coin) as int, coins, o, Entry(Spent, false, false));
  }

  /** Fetching changes no view at any layer, keeps the invariant, and finds what the view holds. */
  lemma {:induction false} FetchKeepsView(s: Stack, o: OutPoint, u: UsageFn)
    requires Valid(s, u)
    ensures Valid(Fetch(s, o, u), u)
    ensures SameView(s, Fetch(s, o, u))
    ensures Has(Fetch(s, o, u), o) ==> Stored(Fetch(s, o, u), o) == Lookup(s, o)
    ensures !Has(Fetch(s, o, u), o) ==> Lookup(s, o) == Spent
  {
    if s.Over? && o !in s.cache.coins {
      FetchKeepsView(s.base, o, u);
      var b' := Fetch(s.base, o, u);
      if Has(b', o) {
        SumUsageSet(u, s.cache.coins, o, Entry(Stored(b', o), false, Stored(b', o).Spent?));
      }
    }
  }

  // ----- adding -----

  datatype AddOutcome = Added | Ignored | Thrown

  function Existing(coins: CoinsMap, o: OutPoint): Entry {
    if o in coins then coins[o] else Entry(Spent, false, false)
  }

  /** AddCoin, the throwing path included: usage has already been lowered when it throws. */
  function AddCoin(c: Cache, o: OutPoint, coin: Coin, overwrite: bool, u: UsageFn): (Cache, AddOutcome)
    requires coin.Unspent?
  {
    if IsUnspendable(coin.script) then (c, Ignored)
    else
      var e := Existing(c.coins, o);
      var usage := c.usage - Usage(u, e.coin);
      if !overwrite && e.coin.Unspent? then (c.(usage := usage), Thrown)
      else
        var markFresh := !overwrite && !e.isDirty;
        (Cache(c.coins[o := Entry(coin, true, e.isFresh || markFresh)],
               usage + Usage(u, coin), Max(c.bestHeight, coin.Height())),
         Added)
  }

  /** An added coin is what the view now holds, at this outpoint and nowhere else. */
  lemma AddCoinRefines(s: Stack, o: OutPoint, coin: Coin, overwrite: bool, u: UsageFn)
    requires Valid(s, u) && s.Over? && coin.Unspent?
    requires overwrite || Lookup(s, o).Spent?
    ensures var (c, outcome) := AddCoin(s.cache, o, coin, overwrite, u);
            && outcome == (if IsUnspendable(coin.script) then Ignored else Added)
            && Valid(Over(c, s.base), u)
            && (if outcome.Added? then ViewBecomes(s, Over(c, s.base), o, coin) else c == s.cache)
  {
    if !IsUnspendable(coin.script) {
      var c := AddCoin(s.cache, o, coin, overwrite, u).0;
      SumUsageSet(u, s.cache.coins, o, c.coins[o]);
    }
  }

  /**
   Without the overwrite permission AddCoin keeps the invariant exactly when the view holds no
   coin at the outpoint, or this very cache holds one that takes no memory. A coin in this cache
   makes AddCoin throw with the usage short by that coin; one that only a base holds leaves an
   entry wrongly marked FRESH.
   */
  lemma AddCoinKeepsValidIff(s: Stack, o: OutPoint, coin: Coin, u: UsageFn)
    requires Valid(s, u) && s.Over? && coin.Unspent? && !IsUnspendable(coin.script)
    ensures Valid(Over(AddCoin(s.cache, o, coin, false, u).0, s.base), u) <==>
            (Lookup(s, o).Spent? || (o in s.cache.coins && Usage(u, Lookup(s, o)) == 0))
    ensures AddCoin(s.cache, o, coin, false, u).1.Thrown? <==> o in s.cache.coins && Lookup(s, o).Unspent?
  {
    if Lookup(s, o).Spent? {
      AddCoinRefines(s, o, coin, false, u);
    } else {
      var c := AddCoin(s.cache, o, coin, false, u).0;
      if o !in s.cache.coins {
        assert !EntryAgrees(c.coins[o], Lookup(s.base, o));
      }
    }
  }

  /** A database with one coin, and a cache over it that holds `coins`. */
  ghost function OverOneCoin(o: OutPoint, coin: Coin, coins: CoinsMap, u: UsageFn): Stack {
    Over(Cache(coins, SumUsage(u, coins), coin.Height()), Db(map[o := coin]))
  }

  /**
   Where AddCoin fails: over a base that holds the coin it leaves an entry marked FRESH, so that
   spending the added coin brings the base's coin back.
   */
  lemma AddCoinOverBase(o: OutPoint, coin: Coin, u: UsageFn)
    requires coin.Unspent? && !IsUnspendable(coin.script)
    ensures var s := OverOneCoin(o, coin, map[], u);
            var s' := Over(AddCoin(s.cache, o, coin, false, u).0, s.base);
            && Valid(s, u) && !Valid(s', u)
            && Lookup(SpendCoin(s', o, u).0, o) == coin
  {
    AddCoinKeepsValidIff(OverOneCoin(o, coin, map[], u), o, coin, u);
  }

  /** Where it throws: on a coin of the cache itself, whose memory is then no longer counted. */
  lemma AddCoinThrows(o: OutPoint, coin: Coin, u: UsageFn)
    requires coin.Unspent? && !IsUnspendable(coin.script) && u(coin.script) > 0
    ensures var s := OverOneCoin(o, coin, map[o := Entry(coin, false, false)], u);
            var (c, outcome) := AddCoin(s.cache, o, coin, false, u);
            Valid(s, u) && outcome.Thrown? && !Valid(Over(c, s.base), u)
  {
    AddCoinKeepsValidIff(OverOneCoin(o, coin, map[o := Entry(coin, false, false)], u), o, coin, u);
  }

  // ----- spending -----

  function SpendCoin(s: Stack, o: OutPoint, u: UsageFn): (Stack, Coin)
    requires s.Over?
  {
    var f := Fetch(s, o, u);
    var c := f.cache;
    if o !in c.coins then (f, Spent)
    else
      var e := c.coins[o];
      var coins := if e.isFresh then c.coins - {o} else c.coins[o := Entry(Spent, true, false)];
      (Over(c.(coins := coins, usage := c.usage - Usage(u, e.coin)), f.base), e.coin)
  }

  /** Spending hands out the coin the view held and takes it, and only it, off the view. */
  lemma SpendCoinRefines(s: Stack, o: OutPoint, u: UsageFn)
    requires Valid(s, u) && s.Over?
    ensures var (s', coin) := SpendCoin(s, o, u);
            && Valid(s', u) && s'.Over?
            && coin == Lookup(s, o)
            && ViewBecomes(s, s', o, Spent)
  {
    FetchKeepsView(s, o, u);
    var f := Fetch(s, o, u);
    if o in f.cache.coins {
      SumUsageSet(u, f.cache.coins, o, Entry(Spent, true, false));
      SumUsageErase(u, f.cache.coins, o);
    }
  }

  // ----- dropping clean entries -----

  function IsClean(e: Entry): bool { !e.isDirty && !e.isFresh }

  function Erase(c: Cache, o: OutPoint, u: UsageFn): Cache
    requires o in c.coins
  {
    c.(coins := c.coins - {o}, usage := c.usage - Usage(u, c.coins[o].coin))
  }

  lemma EraseCleanKeepsView(s: Stack, o: OutPoint, u: UsageFn)
    requires Valid(s, u) && s.Over? && o in s.cache.coins && IsClean(s.cache.coins[o])
    ensures Valid(Over(Erase(s.cache, o, u), s.base), u)
    ensures SameView(s, Over(Erase(s.cache, o, u), s.base))
  {
    SumUsageErase(u, s.cache.coins, o);
  }

  // ----- reading straight from the base -----

  /** GetCoinFromDB: reads the base without looking in the cache first. */
  function GetCoinFromDB(s: Stack, o: OutPoint, u: UsageFn): (Stack, bool)
    requires s.Over?
  {
    var b := Fetch(s.base, o, u);
    if !Has(b, o) then (Over(s.cache, b), false)
    else
      var c := s.cache;
      var e := if o in c.coins then c.coins[o] else Entry(Stored(b, o), false, false);
      var e' := if e.coin.Spent? then Entry(e.coin, false, true) else e;
      (Over(Cache(c.coins[o := e'], c.usage + Usage(u, e.coin), Max(c.bestHeight, e.coin.Height())), b),
       e.coin.Unspent?)
  }

  /** When re-reading does no harm: there is nothing to re-read, or nothing to lose by it. */
  predicate SafeToReread(s: Stack, o: OutPoint, u: UsageFn)
    requires s.Over?
  {
    || o !in s.cache.coins
    || !Has(Fetch(s.base, o, u), o)
    || (var coin := s.cache.coins[o].coin;
        if coin.Spent? then Lookup(s.base, o).Spent? else Usage(u, coin) == 0)
  }

  /**
   Reading from the base keeps the invariant exactly when it is safe to re-read: re-reading a
   cached coin counts its usage twice, and re-reading one spent in the cache forgets that it is
   dirty, unless the base holds it spent as well.
   */
  lemma GetCoinFromDBKeepsValidIff(s: Stack, o: OutPoint, u: UsageFn)
    requires Valid(s, u) && s.Over?
    ensures Valid(GetCoinFromDB(s, o, u).0, u) <==> SafeToReread(s, o, u)
  {
    FetchKeepsView(s.base, o, u);
    var b := Fetch(s.base, o, u);
    if Has(b, o) {
      if o in s.cache.coins {
        RereadKeepsValidIff(s, b, o, u);
      } else {
        GetCoinFromDBIsFetch(s, o, u);
        FetchKeepsView(s, o, u);
      }
    }
  }

  lemma GetCoinFromDBIsFetch(s: Stack, o: OutPoint, u: UsageFn)
    requires Valid(s, u) && s.Over? && o !in s.cache.coins
    ensures GetCoinFromDB(s, o, u) == (Fetch(s, o, u), Lookup(s, o).Unspent?)
  {
    hide FlagsAgree, HeightsBelow, SumUsage, SameView;
    FetchKeepsView(s.base, o, u);
  }

  lemma RereadKeepsValidIff(s: Stack, b: Stack, o: OutPoint, u: UsageFn)
    requires Valid(s, u) && s.Over? && o in s.cache.coins
    requires Valid(b, u) && SameView(s.base, b)
    ensures var c := s.cache;
            var coin := c.coins[o].coin;
            var e := if coin.Spent? then Entry(coin, false, true) else c.coins[o];
            var c' := Cache(c.coins[o := e], c.usage + Usage(u, coin), Max(c.bestHeight, coin.Height()));
            Valid(Over(c', b), u) <==> if coin.Spent? then Lookup(b, o).Spent? else Usage(u, coin) == 0
  {
    var c := s.cache;
    var coin := c.coins[o].coin;
    var e := if coin.Spent? then Entry(coin, false, true) else c.coins[o];
    SumUsageSet(u, c.coins, o, e);
    assert FlagsAgree(c.coins[o := e], b) <==> EntryAgrees(e, Lookup(b, o)) by {
      assert c.coins[o := e][o] == e;
    }
  }

  /** Where re-reading fails: the memory of a cached coin is counted twice. */
  lemma RereadCountsTwice(o: OutPoint, coin: Coin, u: UsageFn)
    requires coin.Unspent? && u(coin.script) > 0
    ensures var s := OverOneCoin(o, coin, map[o := Entry(coin, false, false)], u);
            Valid(s, u) && !Valid(GetCoinFromDB(s, o, u).0, u)
  {
    GetCoinFromDBKeepsValidIff(OverOneCoin(o, coin, map[o := Entry(coin, false, false)], u), o, u);
  }

  // ----- flushing into the base -----

  /** One entry of a child meets the entry, if any, that its parent cache has. */
  function MergeEntry(parent: CoinsMap, o: OutPoint, e: Entry): CoinsMap {
    if !e.isDirty then parent
    else if o !in parent then
      if e.isFresh && e.coin.Spent? then parent else parent[o := e]
    else if parent[o].isFresh && e.coin.Spent? then parent - {o}
    else parent[o := Entry(e.coin, true, parent[o].isFresh)]
  }

  /** What BatchWrite refuses: an entry marked FRESH over an unspent coin of the parent. */
  predicate Misapplied(parent: CoinsMap, o: OutPoint, e: Entry) {
    e.isDirty && e.isFresh && o in parent && parent[o].coin.Unspent?
  }

  function MergeAt(parent: CoinsMap, child: CoinsMap, o: OutPoint): CoinsMap {
    if o in child then MergeEntry(parent, o, child[o]) else parent
  }

  /** The whole batch: entries do not interact, so every outpoint is merged on its own. */
  function Merge(parent: CoinsMap, child: CoinsMap): CoinsMap {
    map o | o in parent.Keys + child.Keys && o in MergeAt(parent, child, o) :: MergeAt(parent, child, o)[o]
  }

  function CleanPart(child: CoinsMap): CoinsMap {
    map o | o in child && !child[o].isDirty :: child[o]
  }

  /** What the child keeps after the database took its batch; `evict` is the sync-state test. */
  function KeptByDb(child: CoinsMap, evict: OutPoint -> bool): CoinsMap {
    map o | o in child && (child[o].isDirty ==> child[o].coin.Unspent? && !evict(o)) ::
      Entry(child[o].coin, false, child[o].isFresh && !child[o].isDirty)
  }

  function WriteToDb(coins: map<OutPoint, Coin>, child: CoinsMap): map<OutPoint, Coin> {
    map o | o in coins.Keys + child.Keys &&
            (if o in child && child[o].isDirty then child[o].coin.Unspent? else o in coins) ::
      if o in child && child[o].isDirty then child[o].coin else coins[o]
  }

  /** BatchWrite into the stack `base`: the new base, and what is left of the child. */
  ghost function BatchWrite(base: Stack, child: Cache, u: UsageFn, evict: OutPoint -> bool): (Stack, Cache) {
    match base
    case Db(coins) =>
      (Db(WriteToDb(coins, child.coins)), Leave(child, KeptByDb(child.coins, evict), u))
    case Over(c, b) =>
      var merged := Merge(c.coins, child.coins);
      (Over(Cache(merged, c.usage + SumUsage(u, merged) - SumUsage(u, c.coins),
                  Max(c.bestHeight, child.bestHeight)), b),
       Leave(child, CleanPart(child.coins), u))
  }

  ghost function Leave(child: Cache, kept: CoinsMap, u: UsageFn): Cache {
    child.(coins := kept, usage := child.usage - (SumUsage(u, child.coins) - SumUsage(u, kept)))
  }

  ghost function Flush(s: Stack, u: UsageFn, evict: OutPoint -> bool): Stack
    requires s.Over?
  {
    var (base, cache) := BatchWrite(s.base, s.cache, u, evict);
    Over(cache, base)
  }

  lemma MergeAgrees(parent: CoinsMap, grand: Stack, child: CoinsMap, o: OutPoint)
    requires FlagsAgree(parent, grand)
    requires o in child ==>
               EntryAgrees(child[o], if o in parent then parent[o].coin else Lookup(grand, o))
    ensures o in child ==> !Misapplied(parent, o, child[o])
    ensures o in Merge(parent, child) ==> EntryAgrees(Merge(parent, child)[o], Lookup(grand, o))
    ensures (if o in Merge(parent, child) then Merge(parent, child)[o].coin else Lookup(grand, o)) ==
            if o in child then child[o].coin
            else if o in parent then parent[o].coin
            else Lookup(grand, o)
  {
  }

  lemma FlushIntoCache(s: Stack, u: UsageFn, evict: OutPoint -> bool)
    requires Valid(s, u) && s.Over? && s.base.Over?
    ensures Valid(Flush(s, u, evict).base, u)
    ensures SameView(s, Flush(s, u, evict).base)
    ensures forall o | o in s.cache.coins :: !Misapplied(s.base.cache.coins, o, s.cache.coins[o])
  {
    var parent, grand, child := s.base.cache.coins, s.base.base, s.cache.coins;
    forall o
      ensures o in child ==> !Misapplied(parent, o, child[o])
      ensures o in Merge(parent, child) ==> EntryAgrees(Merge(parent, child)[o], Lookup(grand, o))
      ensures Lookup(Flush(s, u, evict).base, o) == Lookup(s, o)
    {
      MergeAgrees(parent, grand, child, o);
    }
  }

  /**
   Flush leaves the child's view as it was and gives the base the same view, at any depth; both
   layers stay well formed and no entry is refused as wrongly FRESH.
   */
  lemma FlushRefines(s: Stack, u: UsageFn, evict: OutPoint -> bool)
    requires Valid(s, u) && s.Over?
    ensures Valid(Flush(s, u, evict), u)
    ensures SameView(s, Flush(s, u, evict))
    ensures SameView(s, Flush(s, u, evict).base)
    ensures s.base.Over? ==>
              forall o | o in s.cache.coins :: !Misapplied(s.base.cache.coins, o, s.cache.coins[o])
  {
    if s.base.Over? {
      FlushIntoCache(s, u, evict);
    }
  }

  /**
   Where re-reading fails again: a coin spent in the cache is no longer dirty, and the spend never
   reaches the base.
   */
  lemma RereadForgetsSpend(o: OutPoint, coin: Coin, u: UsageFn, evict: OutPoint -> bool)
    requires coin.Unspent?
    ensures var s := OverOneCoin(o, coin, map[o := Entry(Spent, true, false)], u);
            var s' := GetCoinFromDB(s, o, u).0;
            && Valid(s, u) && !Valid(s', u)
            && Lookup(Flush(s, u, evict).base, o) == Spent && Lookup(Flush(s', u, evict).base, o) == coin
  {
    var s := OverOneCoin(o, coin, map[o := Entry(Spent, true, false)], u);
    GetCoinFromDBKeepsValidIff(s, o, u);
  }

  lemma MergeEmpty(parent: CoinsMap)
    ensures Merge(parent, map[]) == parent
  {
  }

  /** Merging one more entry of the batch is merging it into what the rest has left. */
  lemma MergeStep(parent: CoinsMap, child: CoinsMap, o: OutPoint, e: Entry)
    requires o !in child
    ensures Merge(parent, child[o := e]) == MergeEntry(Merge(parent, child), o, e)
    ensures o in Merge(parent, child) <==> o in parent
    ensures o in parent ==> Merge(parent, child)[o] == parent[o]
  {
    var next, step := Merge(parent, child[o := e]), MergeEntry(Merge(parent, child), o, e);
    forall p
      ensures p in next <==> p in step
      ensures p in next ==> next[p] == step[p]
    {
      assert p != o ==> MergeAt(parent, child[o := e], p) == MergeAt(parent, child, p);
    }
  }

  // ----- whole runs against a stack of flat maps -----

  type Utxos = map<OutPoint, Coin>

  /** The flat maps of all layers, the top one first. */
  function Views(s: Stack): seq<Utxos> {
    [View(s)] + match s case Db(_) => [] case Over(_, b) => Views(b)
  }

  datatype Op =
    | AddOp(o: OutPoint, coin: Coin, overwrite: bool)
    | SpendOp(o: OutPoint)
    | FetchOp(o: OutPoint)
    | UncacheOp(o: OutPoint)
    | FlushOp(evict: OutPoint -> bool)
    | PushOp
    | DiscardOp

  /** What callers promise: a cache to work on, and no silent overwrite of a held coin. */
  ghost predicate Allowed(vs: seq<Utxos>, op: Op) {
    match op
    case PushOp => |vs| >= 1
    case AddOp(o, coin, overwrite) => |vs| >= 2 && coin.Unspent? && (overwrite || o !in vs[0])
    case _ => |vs| >= 2
  }

  /** The same operation on plain maps. */
  ghost function FlatStep(vs: seq<Utxos>, op: Op): seq<Utxos>
    requires Allowed(vs, op)
  {
    match op
    case AddOp(o, coin, _) => if IsUnspendable(coin.script) then vs else vs[0 := vs[0][o := coin]]
    case SpendOp(o) => vs[0 := vs[0] - {o}]
    case FetchOp(_) => vs
    case UncacheOp(_) => vs
    case FlushOp(_) => vs[1 := vs[0]]
    case PushOp => [vs[0]] + vs
    case DiscardOp => vs[1..]
  }

  function Uncache(s: Stack, o: OutPoint, u: UsageFn): Stack
    requires s.Over?
  {
    if o in s.cache.coins && IsClean(s.cache.coins[o]) then Over(Erase(s.cache, o, u), s.base) else s
  }

  ghost function Step(s: Stack, op: Op, u: UsageFn): Stack
    requires Allowed(Views(s), op)
  {
    match op
    case AddOp(o, coin, overwrite) => Over(AddCoin(s.cache, o, coin, overwrite, u).0, s.base)
    case SpendOp(o) => SpendCoin(s, o, u).0
    case FetchOp(o) => Fetch(s, o, u)
    case UncacheOp(o) => Uncache(s, o, u)
    case FlushOp(evict) => Flush(s, u, evict)
    case PushOp => Over(Cache(map[], 0, 0), s)
    case DiscardOp => s.base
  }

  lemma {:induction false} FetchKeepsAllViews(s: Stack, o: OutPoint, u: UsageFn)
    requires Valid(s, u)
    ensures Views(Fetch(s, o, u)) == Views(s)
  {
    FetchKeepsView(s, o, u);
    SameViewIsEqualView(s, Fetch(s, o, u));
    if s.Over? && o !in s.cache.coins {
      FetchKeepsAllViews(s.base, o, u);
    }
  }

  lemma SpendKeepsLowerViews(s: Stack, o: OutPoint, u: UsageFn)
    requires Valid(s, u) && s.Over?
    ensures SpendCoin(s, o, u).0.Over?
    ensures Views(SpendCoin(s, o, u).0.base) == Views(s.base)
  {
    FetchKeepsAllViews(s, o, u);
    var f := Fetch(s, o, u);
    assert Views(s)[1..] == Views(s.base) && Views(f)[1..] == Views(f.base);
  }

  lemma AddRefines(s: Stack, o: OutPoint, coin: Coin, overwrite: bool, u: UsageFn)
    requires Valid(s, u) && Allowed(Views(s), AddOp(o, coin, overwrite))
    ensures var op := AddOp(o, coin, overwrite);
            Valid(Step(s, op, u), u) && Views(Step(s, op, u)) == FlatStep(Views(s), op)
  {
    hide AddCoin, Valid, View, ViewBecomes, Lookup;
    ViewIsLookup(s, o);
    AddCoinRefines(s, o, coin, overwrite, u);
    if !IsUnspendable(coin.script) {
      ViewBecomesFlat(s, Step(s, AddOp(o, coin, overwrite), u), o, coin);
    }
  }

  lemma SpendRefines(s: Stack, o: OutPoint, u: UsageFn)
    requires Valid(s, u) && Allowed(Views(s), SpendOp(o))
    ensures Valid(Step(s, SpendOp(o), u), u) && Views(Step(s, SpendOp(o), u)) == FlatStep(Views(s), SpendOp(o))
  {
    hide SpendCoin, Valid, View, ViewBecomes;
    SpendCoinRefines(s, o, u);
    SpendKeepsLowerViews(s, o, u);
    ViewBecomesFlat(s, Step(s, SpendOp(o), u), o, Spent);
  }

  lemma FlushOpRefines(s: Stack, evict: OutPoint -> bool, u: UsageFn)
    requires Valid(s, u) && Allowed(Views(s), FlushOp(evict))
    ensures Valid(Step(s, FlushOp(evict), u), u)
    ensures Views(Step(s, FlushOp(evict), u)) == FlatStep(Views(s), FlushOp(evict))
  {
    FlushShape(s, u, evict);
    hide Flush, Valid, View, SameView;
    FlushRefines(s, u, evict);
    SameViewIsEqualView(s, Flush(s, u, evict));
    SameViewIsEqualView(s, Flush(s, u, evict).base);
  }

  lemma FlushShape(s: Stack, u: UsageFn, evict: OutPoint -> bool)
    requires s.Over?
    ensures Flush(s, u, evict).Over? && (Flush(s, u, evict).base.Over? <==> s.base.Over?)
    ensures s.base.Over? ==> Flush(s, u, evict).base.base == s.base.base
  {
  }

  /** One operation on the stack is the same operation on the flat maps. */
  lemma StepRefines(s: Stack, op: Op, u: UsageFn)
    requires Valid(s, u) && Allowed(Views(s), op)
    ensures Valid(Step(s, op, u), u)
    ensures Views(Step(s, op, u)) == FlatStep(Views(s), op)
  {
    match op
    case AddOp(o, coin, overwrite) =>
      AddRefines(s, o, coin, overwrite, u);
    case SpendOp(o) =>
      SpendRefines(s, o, u);
    case FetchOp(o) =>
      FetchKeepsView(s, o, u);
      FetchKeepsAllViews(s, o, u);
    case UncacheOp(o) =>
      if Uncache(s, o, u) != s {
        EraseCleanKeepsView(s, o, u);
        SameViewIsEqualView(s, Uncache(s, o, u));
      }
    case FlushOp(evict) =>
      FlushOpRefines(s, evict, u);
    case PushOp =>
      SameViewIsEqualView(s, Step(s, op, u));
    case DiscardOp =>
  }

  /** `ss` are the stacks passed when `ops` happen in order on the stack `ss[0]`. */
  ghost predicate IsRun(ss: seq<Stack>, ops: seq<Op>, u: UsageFn) {
    && |ss| == |ops| + 1
    && forall i | 0 <= i < |ops| :: Allowed(Views(ss[i]), ops[i]) && ss[i + 1] == Step(ss[i], ops[i], u)
  }

  /** The flat maps after the first `n` operations. */
  ghost predicate IsFlatRun(vss: seq<seq<Utxos>>, ops: seq<Op>) {
    && |vss| == |ops| + 1
    && forall i | 0 <= i < |ops| :: Allowed(vss[i], ops[i]) && vss[i + 1] == FlatStep(vss[i], ops[i])
  }

  lemma {:induction false} RunKeepsValid(ss: seq<Stack>, ops: seq<Op>, u: UsageFn, n: nat)
    requires IsRun(ss, ops, u) && Valid(ss[0], u) && n < |ss|
    ensures Valid(ss[n], u)
  {
    if n > 0 {
      RunKeepsValid(ss, ops, u, n - 1);
      StepRefines(ss[n - 1], ops[n - 1], u);
    }
  }

  /** Every run of a stack is, view by view, a run of plain maps under the same operations. */
  lemma RunIsFlatRun(ss: seq<Stack>, ops: seq<Op>, u: UsageFn)
    requires IsRun(ss, ops, u) && Valid(ss[0], u)
    ensures IsFlatRun(seq(|ss|, i requires 0 <= i < |ss| => Views(ss[i])), ops)
    ensures forall n | 0 <= n < |ss| :: Valid(ss[n], u)
  {
    forall n | 0 <= n < |ss| ensures Valid(ss[n], u) {
      RunKeepsValid(ss, ops, u, n);
    }
    forall i | 0 <= i < |ops| ensures Views(ss[i + 1]) == FlatStep(Views(ss[i]), ops[i]) {
      StepRefines(ss[i], ops[i], u);
    }
  }
}
