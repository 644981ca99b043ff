/**
 What blocks do to the flat map of unspent coins. A block is connected in one of two orders:
 transaction by transaction, or all outputs first and all inputs after. Disconnecting knows only
 one order, inputs first and outputs after, and has to undo both.
 */
module Blocks {
  import opened Coins
  import opened Transactions

  function AllOutputs(txs: seq<Tx>): set<OutPoint> {
    if txs == [] then {} else SpendableOutputs(txs[0]) + AllOutputs(txs[1..])
  }

  function AllInputs(txs: seq<Tx>): set<OutPoint> {
    if txs == [] then {} else ToSet(Inputs(txs[0])) + AllInputs(txs[1..])
  }

  /** Every coin a block creates, whether the block spends it or not. */
  function AllCreated(txs: seq<Tx>, nHeight: nat): (m: Utxos)
    ensures m.Keys == AllOutputs(txs)
  {
    if txs == [] then map[] else Created(txs[0], nHeight) + AllCreated(txs[1..], nHeight)
  }

  // ----- connecting transaction by transaction -----

  function Connected(v: Utxos, txs: seq<Tx>, nHeight: nat): Utxos
    decreases |txs|
  {
    if txs == [] then v else Connected(Updated(v, txs[0], nHeight), txs[1..], nHeight)
  }

  function UndoData(v: Utxos, txs: seq<Tx>, nHeight: nat): (undos: seq<seq<Coin>>)
    ensures |undos| == |txs|
    decreases |txs|
  {
    if txs == [] then []
    else [SpentCoins(v, Inputs(txs[0]))] + UndoData(Updated(v, txs[0], nHeight), txs[1..], nHeight)
  }

  /** Transactions apply one after the other, and no two of them share an output. */
  predicate BlockApplies(v: Utxos, txs: seq<Tx>, nHeight: nat)
    decreases |txs|
  {
    txs == [] ||
    (&& Applies(v, txs[0])
     && AllOutputs(txs[1..]) !! v.Keys + SpendableOutputs(txs[0])
     && BlockApplies(Updated(v, txs[0], nHeight), txs[1..], nHeight))
  }

  // ----- connecting outputs first -----

  function OutputsAdded(v: Utxos, txs: seq<Tx>, nHeight: nat): Utxos
    decreases |txs|
  {
    if txs == [] then v else OutputsAdded(v + Created(txs[0], nHeight), txs[1..], nHeight)
  }

  function InputsSpent(w: Utxos, txs: seq<Tx>): Utxos
    decreases |txs|
  {
    if txs == [] then w else InputsSpent(SpendAll(w, Inputs(txs[0])), txs[1..])
  }

  /** The undo data taken while spending the inputs. */
  function UndoTaken(w: Utxos, txs: seq<Tx>): (undos: seq<seq<Coin>>)
    ensures |undos| == |txs|
    decreases |txs|
  {
    if txs == [] then []
    else [SpentCoins(w, Inputs(txs[0]))] + UndoTaken(SpendAll(w, Inputs(txs[0])), txs[1..])
  }

  function ConnectedOutputsFirst(v: Utxos, txs: seq<Tx>, nHeight: nat): Utxos {
    InputsSpent(OutputsAdded(v, txs, nHeight), txs)
  }

  function UndoOutputsFirst(v: Utxos, txs: seq<Tx>, nHeight: nat): (undos: seq<seq<Coin>>)
    ensures |undos| == |txs|
  {
    UndoTaken(OutputsAdded(v, txs, nHeight), txs)
  }

  /** The transactions' outputs are all different and none is taken. */
  predicate OutputsApart(taken: set<OutPoint>, txs: seq<Tx>)
    decreases |txs|
  {
    txs == [] || (SpendableOutputs(txs[0]) !! taken && OutputsApart(taken + SpendableOutputs(txs[0]), txs[1..]))
  }

  /** Every input is there, once. */
  predicate InputsFit(w: Utxos, txs: seq<Tx>)
    decreases |txs|
  {
    txs == [] ||
    (&& Distinct(Inputs(txs[0])) && ToSet(Inputs(txs[0])) <= w.Keys
     && InputsFit(SpendAll(w, Inputs(txs[0])), txs[1..]))
  }

  predicate BlockFits(v: Utxos, txs: seq<Tx>, nHeight: nat) {
    OutputsApart(v.Keys, txs) && InputsFit(OutputsAdded(v, txs, nHeight), txs)
  }

  lemma {:induction false} OutputsAddedIs(v: Utxos, txs: seq<Tx>, nHeight: nat)
    ensures OutputsAdded(v, txs, nHeight) == v + AllCreated(txs, nHeight)
    decreases |txs|
  {
    if txs == [] {
      assert v + map[] == v;
    } else {
      OutputsAddedIs(v + Created(txs[0], nHeight), txs[1..], nHeight);
      PlusAssociates(v, Created(txs[0], nHeight), AllCreated(txs[1..], nHeight));
    }
  }

  lemma PlusAssociates(u: Utxos, v: Utxos, w: Utxos)
    ensures u + v + w == u + (v + w)
  {
  }

  lemma {:induction false} InputsSpentIs(w: Utxos, txs: seq<Tx>)
    ensures InputsSpent(w, txs) == w - AllInputs(txs)
    decreases |txs|
  {
    if txs == [] {
      assert w - {} == w;
    } else {
      SpendAllIsMinus(w, Inputs(txs[0]));
      InputsSpentIs(w - ToSet(Inputs(txs[0])), txs[1..]);
      assert w - ToSet(Inputs(txs[0])) - AllInputs(txs[1..]) == w - AllInputs(txs);
    }
  }

  /** Outputs first, the order of the transactions does not matter. */
  lemma OutputsFirstIs(v: Utxos, txs: seq<Tx>, nHeight: nat)
    ensures ConnectedOutputsFirst(v, txs, nHeight) == (v + AllCreated(txs, nHeight)) - AllInputs(txs)
  {
    OutputsAddedIs(v, txs, nHeight);
    InputsSpentIs(OutputsAdded(v, txs, nHeight), txs);
  }

  // ----- the two orders agree -----

  lemma {:induction false} ApartLess(taken: set<OutPoint>, less: set<OutPoint>, txs: seq<Tx>)
    requires OutputsApart(taken, txs) && less <= taken
    ensures OutputsApart(less, txs)
    decreases |txs|
  {
    if txs != [] {
      ApartLess(taken + SpendableOutputs(txs[0]), less + SpendableOutputs(txs[0]), txs[1..]);
    }
  }

  lemma {:induction false} ApartMeans(taken: set<OutPoint>, txs: seq<Tx>)
    requires OutputsApart(taken, txs)
    ensures AllOutputs(txs) !! taken
    decreases |txs|
  {
    if txs != [] {
      ApartMeans(taken + SpendableOutputs(txs[0]), txs[1..]);
    }
  }

  lemma {:induction false} AppliesApart(v: Utxos, taken: set<OutPoint>, txs: seq<Tx>, nHeight: nat)
    requires BlockApplies(v, txs, nHeight) && AllOutputs(txs) !! taken
    ensures OutputsApart(taken, txs)
    decreases |txs|
  {
    if txs != [] {
      AppliesApart(Updated(v, txs[0], nHeight), taken + SpendableOutputs(txs[0]), txs[1..], nHeight);
    }
  }

  /** Spending old coins does not care about new ones lying beside them. */
  lemma SpendBeside(v: Utxos, c: Utxos, d: Utxos, ins: set<OutPoint>)
    requires ins <= v.Keys && v.Keys !! c.Keys + d.Keys
    ensures (v + c + d) - ins == (v - ins) + c + d
    ensures forall o | o in ins :: o in v + c + d && (v + c + d)[o] == v[o]
  {
  }

  lemma SameSpentCoins(v: Utxos, w: Utxos, ins: seq<OutPoint>)
    requires Distinct(ins) && forall o | o in ins :: CoinAt(v, o) == CoinAt(w, o)
    ensures SpentCoins(v, ins) == SpentCoins(w, ins)
  {
    SpentCoinsAreOldCoins(v, ins);
    SpentCoinsAreOldCoins(w, ins);
  }

  /** The first transaction may as well spend after all outputs of the block were added. */
  lemma FirstSpendsLater(v: Utxos, txs: seq<Tx>, nHeight: nat)
    requires txs != [] && BlockApplies(v, txs, nHeight)
    ensures var all := v + AllCreated(txs, nHeight);
            && ToSet(Inputs(txs[0])) <= all.Keys
            && SpendAll(all, Inputs(txs[0])) == Updated(v, txs[0], nHeight) + AllCreated(txs[1..], nHeight)
            && SpentCoins(all, Inputs(txs[0])) == SpentCoins(v, Inputs(txs[0]))
  {
    var tx, rest := txs[0], txs[1..];
    var ins, c, d := Inputs(tx), Created(tx, nHeight), AllCreated(rest, nHeight);
    PlusAssociates(v, c, d);
    SpendAllIsMinus(v, ins);
    SpendAllIsMinus(v + c + d, ins);
    SpendBeside(v, c, d, ToSet(ins));
    forall o | o in ins ensures CoinAt(v + c + d, o) == CoinAt(v, o) {
      assert o in ToSet(ins);
    }
    SameSpentCoins(v + c + d, v, ins);
  }

  lemma {:induction false} SpentLaterIs(v: Utxos, txs: seq<Tx>, nHeight: nat)
    requires BlockApplies(v, txs, nHeight)
    ensures var all := v + AllCreated(txs, nHeight);
            && InputsFit(all, txs)
            && InputsSpent(all, txs) == Connected(v, txs, nHeight)
            && UndoTaken(all, txs) == UndoData(v, txs, nHeight)
    decreases |txs|
  {
    if txs == [] {
      assert v + map[] == v;
    } else {
      hide Updated, AllCreated;
      FirstSpendsLater(v, txs, nHeight);
      SpentLaterIs(Updated(v, txs[0], nHeight), txs[1..], nHeight);
    }
  }

  /** A block whose transactions apply in turn may be connected outputs first: same map, same undo data. */
  lemma OrdersAgree(v: Utxos, txs: seq<Tx>, nHeight: nat)
    requires BlockApplies(v, txs, nHeight)
    ensures BlockFits(v, txs, nHeight)
    ensures ConnectedOutputsFirst(v, txs, nHeight) == Connected(v, txs, nHeight)
    ensures UndoOutputsFirst(v, txs, nHeight) == UndoData(v, txs, nHeight)
  {
    OutputsAddedIs(v, txs, nHeight);
    AppliesApart(v, v.Keys, txs, nHeight);
    SpentLaterIs(v, txs, nHeight);
  }

  // ----- disconnecting -----

  predicate UndoFits(txs: seq<Tx>, undos: seq<seq<Coin>>) {
    |txs| == |undos| && forall i | 0 <= i < |txs| :: |undos[i]| == |Inputs(txs[i])|
  }

  /** DisconnectBlock, first loop: all inputs of all transactions come back. */
  function InputsBack(v: Utxos, txs: seq<Tx>, undos: seq<seq<Coin>>): Utxos
    requires UndoFits(txs, undos)
    decreases |txs|
  {
    if txs == [] then v
    else InputsBack(Restored(v, Inputs(txs[0]), undos[0]), txs[1..], undos[1..])
  }

  /** DisconnectBlock, second loop: all outputs of all transactions go. */
  function OutputsGone(v: Utxos, txs: seq<Tx>): Utxos
    decreases |txs|
  {
    if txs == [] then v else OutputsGone(v - SpendableOutputs(txs[0]), txs[1..])
  }

  function Disconnected(v: Utxos, txs: seq<Tx>, undos: seq<seq<Coin>>): Utxos
    requires UndoFits(txs, undos)
  {
    OutputsGone(InputsBack(v, txs, undos), txs)
  }

  /** An output as the coin shows it; a spent coin shows the null output. */
  function OutOf(c: Coin): TxOut { if c.Spent? then TxOut(-1, []) else TxOut(c.value, c.script) }

  predicate AllInputsMissing(v: Utxos, txs: seq<Tx>, undos: seq<seq<Coin>>)
    requires UndoFits(txs, undos)
    decreases |txs|
  {
    txs == [] ||
    (InputsMissing(v, Inputs(txs[0])) && AllInputsMissing(Restored(v, Inputs(txs[0]), undos[0]), txs[1..], undos[1..]))
  }

  /** Every spendable output is there as the transaction wrote it. */
  predicate OutputsMatch(v: Utxos, tx: Tx) {
    forall i | 0 <= i < |tx.vout| && !IsUnspendable(tx.vout[i].script) ::
      OutOf(CoinAt(v, OutPoint(tx.txid, i))) == tx.vout[i]
  }

  predicate AllOutputsMatch(v: Utxos, txs: seq<Tx>)
    decreases |txs|
  {
    txs == [] || (OutputsMatch(v, txs[0]) && AllOutputsMatch(v - SpendableOutputs(txs[0]), txs[1..]))
  }

  /** Disconnecting finds nothing amiss. */
  predicate UndoIsClean(v: Utxos, txs: seq<Tx>, undos: seq<seq<Coin>>)
    requires UndoFits(txs, undos)
  {
    AllInputsMissing(v, txs, undos) && AllOutputsMatch(InputsBack(v, txs, undos), txs)
  }

  lemma {:induction false} OutputsGoneIs(v: Utxos, txs: seq<Tx>)
    ensures OutputsGone(v, txs) == v - AllOutputs(txs)
    decreases |txs|
  {
    if txs != [] {
      OutputsGoneIs(v - SpendableOutputs(txs[0]), txs[1..]);
      assert v - SpendableOutputs(txs[0]) - AllOutputs(txs[1..]) == v - AllOutputs(txs);
    }
  }

  // ----- inputs come back -----

  lemma {:induction false} InputsWithin(w: Utxos, txs: seq<Tx>)
    requires InputsFit(w, txs)
    ensures AllInputs(txs) <= w.Keys
    ensures UndoFits(txs, UndoTaken(w, txs))
    ensures forall i | 0 <= i < |txs| :: Distinct(Inputs(txs[i]))
    decreases |txs|
  {
    if txs != [] {
      SpendAllIsMinus(w, Inputs(txs[0]));
      InputsWithin(SpendAll(w, Inputs(txs[0])), txs[1..]);
      SpentCoinsAreOldCoins(w, Inputs(txs[0]));
      assert forall i | 1 <= i < |txs| :: txs[i] == txs[1..][i - 1];
    }
  }

  /** Putting other inputs back does not care about coins laid over the map beforehand. */
  lemma {:induction false} InputsBackOver(v: Utxos, w: Utxos, txs: seq<Tx>, undos: seq<seq<Coin>>)
    requires UndoFits(txs, undos)
    requires w.Keys !! AllInputs(txs)
    requires forall i | 0 <= i < |txs| :: Distinct(Inputs(txs[i]))
    ensures InputsBack(v + w, txs, undos) == InputsBack(v, txs, undos) + w
    ensures AllInputsMissing(v, txs, undos) ==> AllInputsMissing(v + w, txs, undos)
    decreases |txs|
  {
    if txs != [] {
      var ins, undo := Inputs(txs[0]), undos[0];
      assert ToSet(ins) <= AllInputs(txs) && AllInputs(txs[1..]) <= AllInputs(txs);
      RestoredOver(v, w, ins, undo);
      InputsBackOver(Restored(v, ins, undo), w, txs[1..], undos[1..]);
    }
  }

  lemma SpentPartIs(w: Utxos, tx: Tx)
    requires ToSet(Inputs(tx)) <= w.Keys
    ensures SpentPart(w, tx).Keys == ToSet(Inputs(tx))
    ensures (w - ToSet(Inputs(tx))) + SpentPart(w, tx) == w
  {
    assert forall o | o in Inputs(tx) :: o in ToSet(Inputs(tx));
  }

  /** All inputs spent and put back with their own undo data: nothing was in the way, nothing changed. */
  lemma {:induction false} InputsBackUndoes(w: Utxos, txs: seq<Tx>)
    requires InputsFit(w, txs)
    ensures UndoFits(txs, UndoTaken(w, txs))
    ensures InputsBack(InputsSpent(w, txs), txs, UndoTaken(w, txs)) == w
    ensures AllInputsMissing(InputsSpent(w, txs), txs, UndoTaken(w, txs))
    decreases |txs|
  {
    InputsWithin(w, txs);
    if txs != [] {
      var tx, rest := txs[0], txs[1..];
      var w1 := SpendAll(w, Inputs(tx));
      SpendAllIsMinus(w, Inputs(tx));
      InputsWithin(w1, rest);
      InputsBackUndoes(w1, rest);
      InputsSpentIs(w1, rest);
      SpentPartIs(w, tx);
      RestoredIsSpentPart(w, InputsSpent(w1, rest), tx);
      InputsBackOver(InputsSpent(w1, rest), SpentPart(w, tx), rest, UndoTaken(w1, rest));
      assert UndoTaken(w, txs)[1..] == UndoTaken(w1, rest);
    }
  }

  // ----- outputs go -----

  lemma TakeOff(v: Utxos, c: Utxos, d: Utxos)
    requires c.Keys !! v.Keys + d.Keys
    ensures (v + (c + d)) - c.Keys == v + d
    ensures forall o | o in c :: o in v + (c + d) && (v + (c + d))[o] == c[o]
  {
  }

  lemma {:induction false} CreatedMatch(v: Utxos, txs: seq<Tx>, nHeight: nat)
    requires OutputsApart(v.Keys, txs)
    ensures AllOutputsMatch(v + AllCreated(txs, nHeight), txs)
    decreases |txs|
  {
    if txs != [] {
      var tx, rest := txs[0], txs[1..];
      ApartMeans(v.Keys + SpendableOutputs(tx), rest);
      TakeOff(v, Created(tx, nHeight), AllCreated(rest, nHeight));
      forall i | 0 <= i < |tx.vout| && !IsUnspendable(tx.vout[i].script)
        ensures OutOf(CoinAt(v + AllCreated(txs, nHeight), OutPoint(tx.txid, i))) == tx.vout[i]
      {
        assert OutPoint(tx.txid, i) in SpendableOutputs(tx);
      }
      ApartLess(v.Keys + SpendableOutputs(tx), v.Keys, rest);
      CreatedMatch(v, rest, nHeight);
    }
  }

  // ----- undoing either order -----

  /** A block connected outputs first and disconnected: nothing is amiss and the map is what it was. */
  lemma DisconnectRestoresOutputsFirst(v: Utxos, txs: seq<Tx>, nHeight: nat)
    requires BlockFits(v, txs, nHeight)
    ensures var end, undos := ConnectedOutputsFirst(v, txs, nHeight), UndoOutputsFirst(v, txs, nHeight);
            UndoFits(txs, undos) && Disconnected(end, txs, undos) == v && UndoIsClean(end, txs, undos)
  {
    OutputsAddedIs(v, txs, nHeight);
    InputsBackUndoes(OutputsAdded(v, txs, nHeight), txs);
    ApartMeans(v.Keys, txs);
    OutputsGoneIs(v + AllCreated(txs, nHeight), txs);
    CreatedMatch(v, txs, nHeight);
  }

  /** The same for a block connected transaction by transaction. */
  lemma DisconnectRestores(v: Utxos, txs: seq<Tx>, nHeight: nat)
    requires BlockApplies(v, txs, nHeight)
    ensures var end, undos := Connected(v, txs, nHeight), UndoData(v, txs, nHeight);
            UndoFits(txs, undos) && Disconnected(end, txs, undos) == v && UndoIsClean(end, txs, undos)
  {
    OrdersAgree(v, txs, nHeight);
    DisconnectRestoresOutputsFirst(v, txs, nHeight);
  }

  // ----- disconnecting with whatever undo data there is -----

  /** First loop of DisconnectBlock, on the transactions after the coinbase. */
  function UndoTxs(d: Undone, txs: seq<Tx>, undos: seq<seq<Coin>>, max: nat): Undone
    requires |txs| == |undos|
    decreases |txs|
  {
    if d.failed || txs == [] then d
    else if |undos[0]| != |txs[0].vin| then d.(failed := true)
    else UndoTxs(UndoInputs(d, txs[0].vin, undos[0], max), txs[1..], undos[1..], max)
  }

  /** DisconnectBlock on the flat map. */
  function DisconnectOf(v: Utxos, vtx: seq<Tx>, vtxundo: seq<seq<Coin>>, max: nat): Undone {
    if |vtxundo| + 1 != |vtx| then Undone(v, true, true)
    else
      var d := UndoTxs(Undone(v, true, false), vtx[1..], vtxundo, max);
      if d.failed then d else Undone(OutputsGone(d.v, vtx), d.clean && AllOutputsMatch(d.v, vtx), false)
  }

  /** A block that passed validation: a coinbase first, and no other. */
  predicate IsBlock(vtx: seq<Tx>) {
    vtx != [] ==> vtx[0].IsCoinBase() && forall i | 1 <= i < |vtx| :: !vtx[i].IsCoinBase()
  }

  /** The undo data of a block, with the nothing that its coinbase spent in front. */
  function FullUndo(vtxundo: seq<seq<Coin>>): seq<seq<Coin>> { [[]] + vtxundo }

  lemma {:induction false} UndoTxsIs(v: Utxos, clean: bool, txs: seq<Tx>, undos: seq<seq<Coin>>, max: nat)
    requires |txs| == |undos| && forall i | 0 <= i < |txs| :: !txs[i].IsCoinBase() && Usable(undos[i])
    ensures var d := UndoTxs(Undone(v, clean, false), txs, undos, max);
            && (d.failed <==> !UndoFits(txs, undos))
            && (!d.failed ==>
                  d.v == InputsBack(v, txs, undos) && (d.clean <==> clean && AllInputsMissing(v, txs, undos)))
    decreases |txs|
  {
    if txs != [] && |undos[0]| == |txs[0].vin| {
      UndoIsRestoring(v, clean, txs[0].vin, undos[0], max);
      hide Usable, InputsMissing, UndoInputs;
      UndoTxsIs(Restored(v, txs[0].vin, undos[0]), clean && InputsMissing(v, txs[0].vin), txs[1..], undos[1..], max);
      FitsOn(txs, undos);
    }
  }

  lemma FitsOn(txs: seq<Tx>, undos: seq<seq<Coin>>)
    requires txs != [] && |txs| == |undos| && |undos[0]| == |Inputs(txs[0])|
    ensures UndoFits(txs, undos) <==> UndoFits(txs[1..], undos[1..])
  {
    if UndoFits(txs[1..], undos[1..]) {
      forall i | 0 <= i < |txs| ensures |undos[i]| == |Inputs(txs[i])| {
        if i > 0 {
          assert |undos[1..][i - 1]| == |Inputs(txs[1..][i - 1])|;
        }
      }
    }
  }

  /** With usable undo data of a validated block, DisconnectBlock undoes it as described above. */
  lemma DisconnectOfIs(v: Utxos, vtx: seq<Tx>, vtxundo: seq<seq<Coin>>, max: nat)
    requires IsBlock(vtx) && forall i | 0 <= i < |vtxundo| :: Usable(vtxundo[i])
    ensures var d, undos := DisconnectOf(v, vtx, vtxundo, max), FullUndo(vtxundo);
            && (d.failed <==> !UndoFits(vtx, undos))
            && (!d.failed ==> d.v == Disconnected(v, vtx, undos) && (d.clean <==> UndoIsClean(v, vtx, undos)))
  {
    hide Usable;
    if |vtxundo| + 1 == |vtx| {
      var undos := FullUndo(vtxundo);
      assert undos[1..] == vtxundo;
      assert Restored(v, [], []) == v;
      NoneMissing(v);
      FitsOn(vtx, undos);
      UndoTxsIs(v, true, vtx[1..], vtxundo, max);
    }
  }
}
