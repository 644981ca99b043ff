/**
 What a transaction does to the flat map of unspent coins: the effect of UpdateCoins, the undo
 data it records, the money it moves, and how its inputs come back.
 */
module Transactions {
  import opened Coins
  import opened Sums

  datatype TxOut = TxOut(value: int, script: Script)

  datatype Tx = Tx(txid: nat, vin: seq<OutPoint>, vout: seq<TxOut>) {
    predicate IsCoinBase() { |vin| == 1 && vin[0] == OutPoint(0, 0xffff_ffff) }
  }

  /** The inputs UpdateCoins spends: a coinbase spends none. */
  function Inputs(tx: Tx): seq<OutPoint> { if tx.IsCoinBase() then [] else tx.vin }

  function NewCoin(tx: Tx, i: nat, nHeight: nat): Coin
    requires i < |tx.vout|
  {
    Unspent(tx.vout[i].value, tx.vout[i].script, tx.IsCoinBase(), nHeight)
  }

  function SpendableOutputs(tx: Tx): set<OutPoint> {
    set i | 0 <= i < |tx.vout| && !IsUnspendable(tx.vout[i].script) :: OutPoint(tx.txid, i)
  }

  predicate AllSpendable(outs: set<OutPoint>, tx: Tx) {
    forall o | o in outs :: o.hash == tx.txid && o.n < |tx.vout| && !IsUnspendable(tx.vout[o.n].script)
  }

  function Created(tx: Tx, nHeight: nat): (m: Utxos)
    ensures m.Keys == SpendableOutputs(tx)
    ensures AllSpendable(m.Keys, tx)
    ensures forall o | o in m :: m[o] == NewCoin(tx, o.n, nHeight)
  {
    map o | o in SpendableOutputs(tx) :: NewCoin(tx, o.n, nHeight)
  }

  // ----- spending a list of inputs -----

  function CoinAt(v: Utxos, o: OutPoint): Coin { if o in v then v[o] else Spent }

  function SpendAll(v: Utxos, ins: seq<OutPoint>): Utxos {
    if ins == [] then v else SpendAll(v, ins[..|ins| - 1]) - {ins[|ins| - 1]}
  }

  /** The coins handed out, each looked up after the inputs before it were spent. */
  function SpentCoins(v: Utxos, ins: seq<OutPoint>): seq<Coin> {
    if ins == [] then []
    else
      var n := |ins| - 1;
      SpentCoins(v, ins[..n]) + [CoinAt(SpendAll(v, ins[..n]), ins[n])]
  }

  function ToSet(ins: seq<OutPoint>): set<OutPoint> { set o | o in ins }

  predicate Distinct(ins: seq<OutPoint>) {
    forall i, j | 0 <= i < j < |ins| :: ins[i] != ins[j]
  }

  lemma {:induction false} SpendAllIsMinus(v: Utxos, ins: seq<OutPoint>)
    ensures SpendAll(v, ins) == v - ToSet(ins)
  {
    if ins != [] {
      SpendAllIsMinus(v, ins[..|ins| - 1]);
      assert ToSet(ins) == ToSet(ins[..|ins| - 1]) + {ins[|ins| - 1]};
    }
  }

  /** The undo data holds exactly the old coin of each input. */
  lemma {:induction false} SpentCoinsAreOldCoins(v: Utxos, ins: seq<OutPoint>)
    requires Distinct(ins)
    ensures |SpentCoins(v, ins)| == |ins|
    ensures forall j | 0 <= j < |ins| :: SpentCoins(v, ins)[j] == CoinAt(v, ins[j])
  {
    if ins != [] {
      var n := |ins| - 1;
      SpentCoinsAreOldCoins(v, ins[..n]);
      SpendAllIsMinus(v, ins[..n]);
    }
  }

  // ----- one transaction -----

  function Updated(v: Utxos, tx: Tx, nHeight: nat): Utxos {
    SpendAll(v, Inputs(tx)) + Created(tx, nHeight)
  }

  ghost function TotalValue(v: Utxos): int { Total((c: Coin) => c.Value(), v) }

  function ValueIn(v: Utxos, ins: seq<OutPoint>): int {
    if ins == [] then 0 else ValueIn(v, ins[..|ins| - 1]) + CoinAt(v, ins[|ins| - 1]).Value()
  }

  /** The value of the first `n` outputs that enter the set. */
  function SpendableValue(tx: Tx, n: nat): int
    requires n <= |tx.vout|
  {
    if n == 0 then 0
    else SpendableValue(tx, n - 1) + if IsUnspendable(tx.vout[n - 1].script) then 0 else tx.vout[n - 1].value
  }

  /** The view knows every input once, and none of the outputs. */
  predicate Applies(v: Utxos, tx: Tx) {
    && Distinct(Inputs(tx))
    && ToSet(Inputs(tx)) <= v.Keys
    && SpendableOutputs(tx) !! v.Keys
  }

  lemma {:induction false} SpendingLowersTotal(v: Utxos, ins: seq<OutPoint>)
    requires Distinct(ins) && ToSet(ins) <= v.Keys
    ensures TotalValue(SpendAll(v, ins)) == TotalValue(v) - ValueIn(v, ins)
  {
    if ins != [] {
      var n := |ins| - 1;
      assert ToSet(ins[..n]) <= ToSet(ins);
      SpendingLowersTotal(v, ins[..n]);
      SpendAllIsMinus(v, ins[..n]);
      assert ins[n] in ToSet(ins);
      TotalRemove((c: Coin) => c.Value(), SpendAll(v, ins[..n]), ins[n]);
    }
  }

  function CreatedUpTo(tx: Tx, nHeight: nat, n: nat): Utxos
    requires n <= |tx.vout|
  {
    if n == 0 then map[]
    else
      var before := CreatedUpTo(tx, nHeight, n - 1);
      if IsUnspendable(tx.vout[n - 1].script) then before
      else before[OutPoint(tx.txid, n - 1) := NewCoin(tx, n - 1, nHeight)]
  }

  lemma {:induction false} CreatedUpToIs(tx: Tx, nHeight: nat, n: nat)
    requires n <= |tx.vout|
    ensures CreatedUpTo(tx, nHeight, n) == map o | o in Created(tx, nHeight) && o.n < n :: Created(tx, nHeight)[o]
  {
    if n > 0 {
      CreatedUpToIs(tx, nHeight, n - 1);
      assert OutPoint(tx.txid, n - 1) in SpendableOutputs(tx) <==> !IsUnspendable(tx.vout[n - 1].script);
    }
  }

  lemma NextOutputIsNew(v: Utxos, tx: Tx, nHeight: nat, n: nat)
    requires n < |tx.vout| && SpendableOutputs(tx) !! v.Keys && !IsUnspendable(tx.vout[n].script)
    ensures OutPoint(tx.txid, n) !in v + CreatedUpTo(tx, nHeight, n)
    ensures v + CreatedUpTo(tx, nHeight, n + 1) ==
            (v + CreatedUpTo(tx, nHeight, n))[OutPoint(tx.txid, n) := NewCoin(tx, n, nHeight)]
  {
    CreatedUpToIs(tx, nHeight, n);
    assert OutPoint(tx.txid, n) in SpendableOutputs(tx);
  }

  lemma {:induction false} CreatingRaisesTotal(v: Utxos, tx: Tx, nHeight: nat, n: nat)
    requires n <= |tx.vout| && SpendableOutputs(tx) !! v.Keys
    ensures TotalValue(v + CreatedUpTo(tx, nHeight, n)) == TotalValue(v) + SpendableValue(tx, n)
  {
    if n == 0 {
      assert v + map[] == v;
    } else {
      CreatingRaisesTotal(v, tx, nHeight, n - 1);
      if !IsUnspendable(tx.vout[n - 1].script) {
        NextOutputIsNew(v, tx, nHeight, n - 1);
        TotalUpdate((c: Coin) => c.Value(), v + CreatedUpTo(tx, nHeight, n - 1),
                    OutPoint(tx.txid, n - 1), NewCoin(tx, n - 1, nHeight));
      }
    }
  }

  lemma CreatedIsAll(tx: Tx, nHeight: nat)
    ensures CreatedUpTo(tx, nHeight, |tx.vout|) == Created(tx, nHeight)
  {
    CreatedUpToIs(tx, nHeight, |tx.vout|);
  }

  /** Money moved: the total changes by what the outputs hold minus what the inputs held. */
  lemma UpdateMovesValue(v: Utxos, tx: Tx, nHeight: nat)
    requires Applies(v, tx)
    ensures TotalValue(Updated(v, tx, nHeight)) ==
            TotalValue(v) + SpendableValue(tx, |tx.vout|) - ValueIn(v, Inputs(tx))
  {
    var rest := SpendAll(v, Inputs(tx));
    SpendAllIsMinus(v, Inputs(tx));
    SpendingLowersTotal(v, Inputs(tx));
    CreatingRaisesTotal(rest, tx, nHeight, |tx.vout|);
    CreatedIsAll(tx, nHeight);
  }

  // ----- transactions on a stack of caches -----

  /** Only a coinbase may overwrite a coin the view holds. */
  ghost predicate MayAdd(v: Utxos, tx: Tx) { tx.IsCoinBase() || SpendableOutputs(tx) !! v.Keys }

  /** No output is null. */
  predicate NoNulls(tx: Tx) { forall i | 0 <= i < |tx.vout| :: tx.vout[i].value != -1 }

  /** Spends one input after the other. */
  function SpendEach(s: Stack, ins: seq<OutPoint>, u: UsageFn): (r: (Stack, seq<Coin>))
    requires s.Over?
    ensures r.0.Over? && |r.1| == |ins|
  {
    if ins == [] then (s, [])
    else
      var n := |ins| - 1;
      var (s', coins) := SpendEach(s, ins[..n], u);
      var (s'', coin) := SpendCoin(s', ins[n], u);
      (s'', coins + [coin])
  }

  /** Adds the first `n` outputs, as far as AddCoin does not throw. */
  function AddEach(s: Stack, tx: Tx, nHeight: nat, n: nat, u: UsageFn): (r: (Stack, bool))
    requires s.Over? && n <= |tx.vout|
    ensures r.0.Over? && r.0.base == s.base
  {
    if n == 0 then (s, true)
    else
      var (s', ok) := AddEach(s, tx, nHeight, n - 1, u);
      if !ok then (s', false)
      else
        var (c, outcome) := AddCoin(s'.cache, OutPoint(tx.txid, n - 1), NewCoin(tx, n - 1, nHeight),
                                    tx.IsCoinBase(), u);
        (Over(c, s'.base), !outcome.Thrown?)
  }

  /** UpdateCoins: the stack, the undo data, and whether it did not throw. */
  function UpdateStack(s: Stack, tx: Tx, nHeight: nat, u: UsageFn): (r: (Stack, seq<Coin>, bool))
    requires s.Over?
    ensures r.0.Over?
  {
    var (s', coins) := SpendEach(s, Inputs(tx), u);
    var (s'', ok) := AddEach(s', tx, nHeight, |tx.vout|, u);
    (s'', coins, ok)
  }

  lemma {:induction false} SpendEachRefines(s: Stack, ins: seq<OutPoint>, u: UsageFn)
    requires Valid(s, u) && s.Over?
    ensures var (s', coins) := SpendEach(s, ins, u);
            && Valid(s', u) && View(s') == SpendAll(View(s), ins) && coins == SpentCoins(View(s), ins)
  {
    if ins != [] {
      var n := |ins| - 1;
      SpendEachRefines(s, ins[..n], u);
      var s' := SpendEach(s, ins[..n], u).0;
      hide Valid;
      SpendCoinRefines(s', ins[n], u);
      ViewIsLookup(s', ins[n]);
      ViewBecomesFlat(s', SpendCoin(s', ins[n], u).0, ins[n], Spent);
    }
  }

  lemma OutputMayEnter(v: Utxos, tx: Tx, nHeight: nat, i: nat)
    requires MayAdd(v, tx) && i < |tx.vout|
    ensures var o := OutPoint(tx.txid, i);
            var m := v + CreatedUpTo(tx, nHeight, i);
            if IsUnspendable(tx.vout[i].script) then
              v + CreatedUpTo(tx, nHeight, i + 1) == m
            else
              && v + CreatedUpTo(tx, nHeight, i + 1) == m[o := NewCoin(tx, i, nHeight)]
              && (tx.IsCoinBase() || o !in m)
  {
    if !IsUnspendable(tx.vout[i].script) {
      if !tx.IsCoinBase() {
        NextOutputIsNew(v, tx, nHeight, i);
      }
    }
  }

  lemma AddOutputRefines(s: Stack, o: OutPoint, coin: Coin, overwrite: bool, u: UsageFn)
    requires Valid(s, u) && s.Over? && coin.Unspent?
    requires IsUnspendable(coin.script) || overwrite || Lookup(s, o).Spent?
    ensures var (c, outcome) := AddCoin(s.cache, o, coin, overwrite, u);
            && !outcome.Thrown?
            && Valid(Over(c, s.base), u)
            && View(Over(c, s.base)) == if IsUnspendable(coin.script) then View(s) else View(s)[o := coin]
  {
    if !IsUnspendable(coin.script) {
      AddCoinRefines(s, o, coin, overwrite, u);
      ViewBecomesFlat(s, Over(AddCoin(s.cache, o, coin, overwrite, u).0, s.base), o, coin);
    }
  }

  lemma {:induction false} AddEachRefines(s: Stack, tx: Tx, nHeight: nat, n: nat, u: UsageFn)
    requires Valid(s, u) && s.Over? && n <= |tx.vout| && MayAdd(View(s), tx)
    ensures var (s', ok) := AddEach(s, tx, nHeight, n, u);
            ok && Valid(s', u) && View(s') == View(s) + CreatedUpTo(tx, nHeight, n)
  {
    hide Valid;
    if n == 0 {
      assert View(s) + map[] == View(s);
    } else {
      AddEachRefines(s, tx, nHeight, n - 1, u);
      var s' := AddEach(s, tx, nHeight, n - 1, u).0;
      var o := OutPoint(tx.txid, n - 1);
      OutputMayEnter(View(s), tx, nHeight, n - 1);
      ViewIsLookup(s', o);
      AddOutputRefines(s', o, NewCoin(tx, n - 1, nHeight), tx.IsCoinBase(), u);
    }
  }

  /** UpdateCoins moves the view of a well-formed stack on by the transaction, if that may be added. */
  lemma UpdateRefines(s: Stack, tx: Tx, nHeight: nat, u: UsageFn)
    requires Valid(s, u) && s.Over? && MayAdd(SpendAll(View(s), Inputs(tx)), tx)
    ensures var (s', coins, ok) := UpdateStack(s, tx, nHeight, u);
            && ok && Valid(s', u) && View(s') == Updated(View(s), tx, nHeight)
            && coins == SpentCoins(View(s), Inputs(tx))
  {
    hide Valid;
    SpendEachRefines(s, Inputs(tx), u);
    AddEachRefines(SpendEach(s, Inputs(tx), u).0, tx, nHeight, |tx.vout|, u);
    CreatedIsAll(tx, nHeight);
  }

  // ----- undoing -----

  /** Inputs put back last to first, as disconnecting does. */
  function Restored(v: Utxos, ins: seq<OutPoint>, undo: seq<Coin>): Utxos
    requires |ins| == |undo|
  {
    if ins == [] then v
    else Restored(v, ins[1..], undo[1..])[ins[0] := undo[0]]
  }

  lemma {:induction false} RestoredIs(v: Utxos, ins: seq<OutPoint>, undo: seq<Coin>)
    requires |ins| == |undo| && Distinct(ins)
    ensures Restored(v, ins, undo).Keys == v.Keys + ToSet(ins)
    ensures forall j | 0 <= j < |ins| :: Restored(v, ins, undo)[ins[j]] == undo[j]
    ensures forall o | o in v && o !in ins :: Restored(v, ins, undo)[o] == v[o]
  {
    if ins != [] {
      RestoredIs(v, ins[1..], undo[1..]);
      assert ToSet(ins) == {ins[0]} + ToSet(ins[1..]);
      forall j | 1 <= j < |ins| ensures Restored(v, ins, undo)[ins[j]] == undo[j] {
        assert ins[j] == ins[1..][j - 1];
      }
    }
  }

  /** The first unspent output of a transaction from `n` on, below `max`. */
  function Alternate(v: Utxos, txid: nat, n: nat, max: nat): Coin
    decreases max - n
  {
    if n >= max then Spent
    else if CoinAt(v, OutPoint(txid, n)).Unspent? then v[OutPoint(txid, n)]
    else Alternate(v, txid, n + 1, max)
  }

  /** An old undo record without a height takes it from another output; without one it is of no use. */
  function Completed(v: Utxos, o: OutPoint, undo: Coin, max: nat): Coin {
    if undo.Spent? || undo.nHeight != 0 then undo
    else
      var alternate := Alternate(v, o.hash, 0, max);
      if alternate.Spent? then Spent else undo.(nHeight := alternate.nHeight, coinbase := alternate.coinbase)
  }

  /** How far undoing has come. */
  datatype Undone = Undone(v: Utxos, clean: bool, failed: bool)

  /** ApplyTxInUndo on the flat map. */
  function UndoOne(d: Undone, o: OutPoint, undo: Coin, max: nat): Undone {
    if d.failed then d
    else
      var coin := Completed(d.v, o, undo, max);
      if coin.Spent? then d.(failed := true)
      else Undone(if IsUnspendable(coin.script) then d.v else d.v[o := coin], d.clean && o !in d.v, false)
  }

  /** The inputs of a transaction, last first. */
  function UndoInputs(d: Undone, ins: seq<OutPoint>, undo: seq<Coin>, max: nat): Undone
    requires |ins| == |undo|
  {
    if ins == [] then d else UndoOne(UndoInputs(d, ins[1..], undo[1..], max), ins[0], undo[0], max)
  }

  /** Undo records that are complete, of coins that can be in the set. */
  predicate Usable(undo: seq<Coin>) {
    forall j | 0 <= j < |undo| :: undo[j].Unspent? && undo[j].nHeight != 0 && !IsUnspendable(undo[j].script)
  }

  /** No input is there already, and none comes back twice. */
  predicate InputsMissing(v: Utxos, ins: seq<OutPoint>) { Distinct(ins) && ToSet(ins) !! v.Keys }

  lemma {:induction false} RestoredKeys(v: Utxos, ins: seq<OutPoint>, undo: seq<Coin>)
    requires |ins| == |undo|
    ensures Restored(v, ins, undo).Keys == v.Keys + ToSet(ins)
  {
    if ins != [] {
      RestoredKeys(v, ins[1..], undo[1..]);
      assert ToSet(ins) == {ins[0]} + ToSet(ins[1..]);
    }
  }

  lemma MissingStep(v: Utxos, ins: seq<OutPoint>, undo: seq<Coin>)
    requires ins != [] && |ins| == |undo|
    ensures InputsMissing(v, ins) <==>
            InputsMissing(v, ins[1..]) && ins[0] !in Restored(v, ins[1..], undo[1..])
  {
    RestoredKeys(v, ins[1..], undo[1..]);
    assert ToSet(ins) == {ins[0]} + ToSet(ins[1..]);
    assert forall k | 0 < k < |ins| :: ins[1..][k - 1] == ins[k];
    assert ins[0] in ins[1..] <==> exists k | 0 < k < |ins| :: ins[k] == ins[0];
  }

  /** With usable records, undoing is restoring, and clean exactly if no input was in the way. */
  lemma {:induction false} UndoIsRestoring(v: Utxos, clean: bool, ins: seq<OutPoint>, undo: seq<Coin>, max: nat)
    requires |ins| == |undo| && Usable(undo)
    ensures UndoInputs(Undone(v, clean, false), ins, undo, max) ==
            Undone(Restored(v, ins, undo), clean && InputsMissing(v, ins), false)
  {
    hide InputsMissing, Alternate;
    if ins == [] {
      assert InputsMissing(v, ins) by { NoneMissing(v); }
    } else {
      UndoIsRestoring(v, clean, ins[1..], undo[1..], max);
      MissingStep(v, ins, undo);
    }
  }

  lemma NoneMissing(v: Utxos)
    ensures InputsMissing(v, [])
  {
  }

  lemma RestoredOver(v: Utxos, w: Utxos, ins: seq<OutPoint>, undo: seq<Coin>)
    requires |ins| == |undo| && Distinct(ins) && w.Keys !! ToSet(ins)
    ensures Restored(v + w, ins, undo) == Restored(v, ins, undo) + w
  {
    RestoredIs(v, ins, undo);
    RestoredIs(v + w, ins, undo);
    var l, r := Restored(v + w, ins, undo), Restored(v, ins, undo) + w;
    assert l.Keys == r.Keys;
    forall o | o in l ensures l[o] == r[o] {
      if o in ins {
        var j :| 0 <= j < |ins| && ins[j] == o;
        assert o in ToSet(ins);
      }
    }
  }

  /** The coins one transaction spent, keyed by outpoint. */
  function SpentPart(v: Utxos, tx: Tx): Utxos { map o | o in v && o in Inputs(tx) :: v[o] }

  /** Coins put back with their own undo data land on top of the map. */
  lemma RestoredIsSpentPart(v: Utxos, w: Utxos, tx: Tx)
    requires Distinct(Inputs(tx)) && ToSet(Inputs(tx)) <= v.Keys
    ensures |SpentCoins(v, Inputs(tx))| == |Inputs(tx)|
    ensures Restored(w, Inputs(tx), SpentCoins(v, Inputs(tx))) == w + SpentPart(v, tx)
  {
    var ins := Inputs(tx);
    SpentCoinsAreOldCoins(v, ins);
    RestoredIs(w, ins, SpentCoins(v, ins));
    var l, r := Restored(w, ins, SpentCoins(v, ins)), w + SpentPart(v, tx);
    assert forall o | o in ins :: o in ToSet(ins);
    assert l.Keys == r.Keys;
    forall o | o in l ensures l[o] == r[o] {
      if o in ins {
        var j :| 0 <= j < |ins| && ins[j] == o;
      }
    }
  }
}
