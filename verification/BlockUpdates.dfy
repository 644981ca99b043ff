/**
 Connecting and disconnecting whole blocks on a cache, in place: the two connecting orders, the
 inputs and outputs that DisconnectBlock moves back, and what it reports.
 */
module BlockUpdates {
  import opened Coins
  import opened Transactions
  import opened Blocks
  import opened CoinsCache

  /** Every undo record holds a coin. */
  predicate AllCoins(undo: seq<Coin>) { forall j | 0 <= j < |undo| :: undo[j].Unspent? }

  /** The inputs of one transaction come back, last first. */
  method RestoreInputs(vin: seq<OutPoint>, vprevout: seq<Coin>, view: CoinsViewCache, clean: bool, nMaxOutputs: nat)
    returns (ok: bool, fClean: bool)
    requires view.Shape() && Valid(view.Value(), view.u)
    requires |vprevout| == |vin| && AllCoins(vprevout)
    modifies view.Repr
    ensures Valid(view.Value(), view.u)
    ensures Undone(View(view.Value()), fClean, !ok) ==
            UndoInputs(Undone(old(View(view.Value())), clean, false), vin, vprevout, nMaxOutputs)
  {
    hide Valid, Completed;
    ghost var start := Undone(View(view.Value()), clean, false);
    fClean := clean;
    for j := |vin| downto 0
      invariant Valid(view.Value(), view.u)
      invariant Undone(View(view.Value()), fClean, false) == UndoInputs(start, vin[j..], vprevout[j..], nMaxOutputs)
    {
      assert vin[j..][1..] == vin[j + 1..] && vprevout[j..][1..] == vprevout[j + 1..];
      ghost var d := Undone(View(view.Value()), fClean, false);
      CleanApart(d, vin[j], vprevout[j], nMaxOutputs);
      var res := ApplyTxInUndo(vprevout[j], view, vin[j], nMaxOutputs);
      if res == DisconnectFailed {
        FailedStays(start, vin, vprevout, nMaxOutputs, j);
        return false, fClean;
      }
      fClean := fClean && res != DisconnectUnclean;
    }
    assert vin[0..] == vin && vprevout[0..] == vprevout;
    ok := true;
  }

  lemma CleanApart(d: Undone, o: OutPoint, undo: Coin, max: nat)
    requires !d.failed
    ensures var e := UndoOne(Undone(d.v, true, false), o, undo, max);
            UndoOne(d, o, undo, max) == if e.failed then Undone(d.v, d.clean, true) else e.(clean := d.clean && e.clean)
  {
    hide Completed;
  }

  lemma {:induction false} FailedStays(d: Undone, ins: seq<OutPoint>, undo: seq<Coin>, max: nat, j: nat)
    requires |ins| == |undo| && j <= |ins| && UndoInputs(d, ins[j..], undo[j..], max).failed
    ensures UndoInputs(d, ins, undo, max) == UndoInputs(d, ins[j..], undo[j..], max)
  {
    if j == 0 {
      assert ins[0..] == ins && undo[0..] == undo;
    } else {
      assert ins[j - 1..][1..] == ins[j..] && undo[j - 1..][1..] == undo[j..];
      FailedStays(d, ins, undo, max, j - 1);
    }
  }

  /** The spendable outputs of one transaction leave the view, compared with what they should be. */
  method RemoveOutputs(tx: Tx, view: CoinsViewCache) returns (fClean: bool)
    requires view.Shape() && Valid(view.Value(), view.u)
    modifies view.Repr
    ensures Valid(view.Value(), view.u)
    ensures View(view.Value()) == old(View(view.Value())) - SpendableOutputs(tx)
    ensures fClean <==> OutputsMatch(old(View(view.Value())), tx)
  {
    ghost var v := View(view.Value());
    ghost var gone: set<OutPoint> := {};
    fClean := true;
    for i := 0 to |tx.vout|
      invariant Valid(view.Value(), view.u)
      invariant gone == set k | 0 <= k < i && !IsUnspendable(tx.vout[k].script) :: OutPoint(tx.txid, k)
      invariant View(view.Value()) == v - gone
      invariant fClean <==> forall k | 0 <= k < i && !IsUnspendable(tx.vout[k].script) ::
                              OutOf(CoinAt(v, OutPoint(tx.txid, k))) == tx.vout[k]
    {
      if !IsUnspendable(tx.vout[i].script) {
        var out := OutPoint(tx.txid, i);
        ghost var s := view.Value();
        SpendCoinRefines(s, out, view.u);
        ViewIsLookup(s, out);
        ViewBecomesFlat(s, Coins.SpendCoin(s, out, view.u).0, out, Spent);
        var coin := view.SpendCoin(out);
        if tx.vout[i] != OutOf(coin) {
          fClean := false;
        }
        gone := gone + {out};
      }
    }
    assert gone == SpendableOutputs(tx);
  }

  // ----- whole blocks on a cache -----

  /** First loop of DisconnectBlock: the inputs of every transaction but the coinbase come back. */
  method RestoreAll(txs: seq<Tx>, vtxundo: seq<seq<Coin>>, view: CoinsViewCache, nMaxOutputs: nat)
    returns (ok: bool, fClean: bool)
    requires view.Shape() && Valid(view.Value(), view.u)
    requires |txs| == |vtxundo| && forall i | 0 <= i < |txs| :: AllCoins(vtxundo[i])
    modifies view.Repr
    ensures Valid(view.Value(), view.u)
    ensures Undone(View(view.Value()), fClean, !ok) ==
            UndoTxs(Undone(old(View(view.Value())), true, false), txs, vtxundo, nMaxOutputs)
  {
    hide Valid, AllCoins, UndoInputs;
    ghost var start := Undone(View(view.Value()), true, false);
    fClean := true;
    assert txs[0..] == txs && vtxundo[0..] == vtxundo;
    for i := 0 to |txs|
      invariant Valid(view.Value(), view.u)
      invariant UndoTxs(start, txs, vtxundo, nMaxOutputs) ==
                UndoTxs(Undone(View(view.Value()), fClean, false), txs[i..], vtxundo[i..], nMaxOutputs)
    {
      assert txs[i..][1..] == txs[i + 1..] && vtxundo[i..][1..] == vtxundo[i + 1..];
      if |vtxundo[i]| != |txs[i].vin| {
        return false, fClean;
      }
      ok, fClean := RestoreInputs(txs[i].vin, vtxundo[i], view, fClean, nMaxOutputs);
      if !ok {
        return;
      }
    }
    ok := true;
  }

  /** Second loop of DisconnectBlock: the outputs of every transaction go. */
  method RemoveAll(txs: seq<Tx>, view: CoinsViewCache) returns (fClean: bool)
    requires view.Shape() && Valid(view.Value(), view.u)
    modifies view.Repr
    ensures Valid(view.Value(), view.u)
    ensures View(view.Value()) == OutputsGone(old(View(view.Value())), txs)
    ensures fClean <==> AllOutputsMatch(old(View(view.Value())), txs)
  {
    hide OutputsMatch;
    ghost var v := View(view.Value());
    fClean := true;
    assert txs[0..] == txs;
    for i := 0 to |txs|
      invariant Valid(view.Value(), view.u)
      invariant OutputsGone(v, txs) == OutputsGone(View(view.Value()), txs[i..])
      invariant AllOutputsMatch(v, txs) <==> fClean && AllOutputsMatch(View(view.Value()), txs[i..])
    {
      assert txs[i..][1..] == txs[i + 1..];
      var clean := RemoveOutputs(txs[i], view);
      fClean := fClean && clean;
    }
  }

  /**
   DisconnectBlock, given the undo data read from disk: it fails if the data does not fit the block
   or cannot be completed, and is clean if nothing was in the way and nothing was missing.
   */
  method DisconnectBlock(vtx: seq<Tx>, vtxundo: seq<seq<Coin>>, view: CoinsViewCache, nMaxOutputs: nat)
    returns (res: DisconnectResult)
    requires view.Shape() && Valid(view.Value(), view.u)
    requires forall i | 0 <= i < |vtxundo| :: AllCoins(vtxundo[i])
    modifies view.Repr
    ensures Valid(view.Value(), view.u)
    ensures var d := DisconnectOf(old(View(view.Value())), vtx, vtxundo, nMaxOutputs);
            && View(view.Value()) == d.v
            && res == if d.failed then DisconnectFailed else if d.clean then DisconnectOk else DisconnectUnclean
  {
    hide Valid, AllCoins;
    if |vtxundo| + 1 != |vtx| {
      return DisconnectFailed;
    }
    var ok, fClean := RestoreAll(vtx[1..], vtxundo, view, nMaxOutputs);
    if !ok {
      return DisconnectFailed;
    }
    var match' := RemoveAll(vtx, view);
    return if fClean && match' then DisconnectOk else DisconnectUnclean;
  }

  // ----- connecting -----

  predicate AllNoNulls(txs: seq<Tx>) { forall i | 0 <= i < |txs| :: NoNulls(txs[i]) }

  /** UpdateCoins for one transaction after the other, as far as none throws. */
  function UpdateTxs(s: Stack, txs: seq<Tx>, nHeight: nat, u: UsageFn): (Stack, seq<seq<Coin>>, bool)
    requires s.Over?
    decreases |txs|
  {
    if txs == [] then (s, [], true)
    else
      var (s', coins, ok) := UpdateStack(s, txs[0], nHeight, u);
      if !ok then (s', [coins], false)
      else
        var (s'', undos, all) := UpdateTxs(s', txs[1..], nHeight, u);
        (s'', [coins] + undos, all)
  }

  /** The undo data collected so far in front. */
  function Behind(front: seq<seq<Coin>>, r: (Stack, seq<seq<Coin>>, bool)): (Stack, seq<seq<Coin>>, bool) {
    (r.0, front + r.1, r.2)
  }

  lemma BehindOne(front: seq<seq<Coin>>, coins: seq<Coin>, r: (Stack, seq<seq<Coin>>, bool))
    ensures Behind([], r) == r && Behind(front, (r.0, [], r.2)) == (r.0, front, r.2)
    ensures Behind(front + [coins], r) == Behind(front, (r.0, [coins] + r.1, r.2))
  {
    assert [] + r.1 == r.1 && front + [] == front && front + [coins] + r.1 == front + ([coins] + r.1);
  }

  lemma {:induction false} UpdateTxsRefines(s: Stack, txs: seq<Tx>, nHeight: nat, u: UsageFn)
    requires Valid(s, u) && s.Over? && BlockApplies(View(s), txs, nHeight)
    ensures var (s', undos, ok) := UpdateTxs(s, txs, nHeight, u);
            && ok && Valid(s', u)
            && View(s') == Connected(View(s), txs, nHeight) && undos == UndoData(View(s), txs, nHeight)
    decreases |txs|
  {
    hide Valid, UpdateStack, Updated;
    if txs != [] {
      SpendAllIsMinus(View(s), Inputs(txs[0]));
      UpdateRefines(s, txs[0], nHeight, u);
      UpdateTxsRefines(UpdateStack(s, txs[0], nHeight, u).0, txs[1..], nHeight, u);
    }
  }

  /**
   What ConnectBlockDependencyOrdering does to the coins: one transaction after the other, up to one
   that throws. The undo data starts with the coinbase's, which is empty and not kept.
   */
  method ConnectInTurn(vtx: seq<Tx>, nHeight: nat, view: CoinsViewCache) returns (vtxundo: seq<seq<Coin>>, ok: bool)
    requires view.Shape() && AllNoNulls(vtx)
    modifies view.Repr
    ensures (view.Value(), vtxundo, ok) == UpdateTxs(old(view.Value()), vtx, nHeight, view.u)
    ensures Valid(old(view.Value()), view.u) && BlockApplies(View(old(view.Value())), vtx, nHeight) ==>
              && ok && Valid(view.Value(), view.u)
              && View(view.Value()) == Connected(View(old(view.Value())), vtx, nHeight)
              && vtxundo == UndoData(View(old(view.Value())), vtx, nHeight)
  {
    hide Valid, BlockApplies, UpdateStack, Connected, UndoData;
    ghost var s := view.Value();
    if Valid(s, view.u) && BlockApplies(View(s), vtx, nHeight) {
      UpdateTxsRefines(s, vtx, nHeight, view.u);
    }
    vtxundo := [];
    assert vtx[0..] == vtx;
    BehindOne([], [], UpdateTxs(s, vtx, nHeight, view.u));
    for i := 0 to |vtx|
      invariant UpdateTxs(s, vtx, nHeight, view.u)
             == Behind(vtxundo, UpdateTxs(view.Value(), vtx[i..], nHeight, view.u))
    {
      assert vtx[i..][1..] == vtx[i + 1..];
      var vprevout;
      vprevout, ok := UpdateCoins(vtx[i], view, nHeight);
      if !ok {
        vtxundo := vtxundo + [vprevout];
        return;
      }
      BehindOne(vtxundo, vprevout, UpdateTxs(view.Value(), vtx[i + 1..], nHeight, view.u));
      vtxundo := vtxundo + [vprevout];
    }
    ok := true;
    BehindOne(vtxundo, [], (view.Value(), [], true));
  }

  /** AddCoins for one transaction after the other, as far as none throws. */
  function AddTxs(s: Stack, txs: seq<Tx>, nHeight: nat, u: UsageFn): (r: (Stack, bool))
    requires s.Over?
    ensures r.0.Over?
    decreases |txs|
  {
    if txs == [] then (s, true)
    else
      var (s', ok) := AddEach(s, txs[0], nHeight, |txs[0].vout|, u);
      if !ok then (s', false) else AddTxs(s', txs[1..], nHeight, u)
  }

  lemma {:induction false} AddTxsRefines(s: Stack, txs: seq<Tx>, nHeight: nat, u: UsageFn)
    requires Valid(s, u) && s.Over? && OutputsApart(View(s).Keys, txs)
    ensures var (s', ok) := AddTxs(s, txs, nHeight, u);
            ok && Valid(s', u) && View(s') == OutputsAdded(View(s), txs, nHeight)
    decreases |txs|
  {
    hide Valid, AddEach;
    if txs != [] {
      AddEachRefines(s, txs[0], nHeight, |txs[0].vout|, u);
      CreatedIsAll(txs[0], nHeight);
      AddTxsRefines(AddEach(s, txs[0], nHeight, |txs[0].vout|, u).0, txs[1..], nHeight, u);
    }
  }

  /** First loop of ConnectBlockCanonicalOrdering: every output enters, up to a repeated transaction. */
  method AddAllOutputs(vtx: seq<Tx>, nHeight: nat, view: CoinsViewCache) returns (ok: bool)
    requires view.Shape() && AllNoNulls(vtx)
    modifies view.Repr
    ensures (view.Value(), ok) == AddTxs(old(view.Value()), vtx, nHeight, view.u)
    ensures Valid(old(view.Value()), view.u) && OutputsApart(View(old(view.Value())).Keys, vtx) ==>
              && ok && Valid(view.Value(), view.u)
              && View(view.Value()) == OutputsAdded(View(old(view.Value())), vtx, nHeight)
  {
    hide Valid, AddEach, OutputsApart, OutputsAdded;
    ghost var s := view.Value();
    if Valid(s, view.u) && OutputsApart(View(s).Keys, vtx) {
      AddTxsRefines(s, vtx, nHeight, view.u);
    }
    assert vtx[0..] == vtx;
    for i := 0 to |vtx|
      invariant AddTxs(s, vtx, nHeight, view.u) == AddTxs(view.Value(), vtx[i..], nHeight, view.u)
    {
      assert vtx[i..][1..] == vtx[i + 1..];
      ok := AddCoins(view, vtx[i], nHeight);
      if !ok {
        return;
      }
    }
    ok := true;
  }

  /** SpendCoins for one transaction after the other. */
  function SpendTxs(s: Stack, txs: seq<Tx>, u: UsageFn): (Stack, seq<seq<Coin>>)
    requires s.Over?
    decreases |txs|
  {
    if txs == [] then (s, [])
    else
      var (s', coins) := SpendEach(s, Inputs(txs[0]), u);
      var (s'', undos) := SpendTxs(s', txs[1..], u);
      (s'', [coins] + undos)
  }

  /** Spending never throws. */
  function NotThrown(r: (Stack, seq<seq<Coin>>)): (Stack, seq<seq<Coin>>, bool) { (r.0, r.1, true) }

  lemma {:induction false} SpendTxsRefines(s: Stack, txs: seq<Tx>, u: UsageFn)
    requires Valid(s, u) && s.Over?
    ensures var (s', undos) := SpendTxs(s, txs, u);
            Valid(s', u) && View(s') == InputsSpent(View(s), txs) && undos == UndoTaken(View(s), txs)
    decreases |txs|
  {
    hide Valid, SpendEach;
    if txs != [] {
      SpendEachRefines(s, Inputs(txs[0]), u);
      SpendTxsRefines(SpendEach(s, Inputs(txs[0]), u).0, txs[1..], u);
    }
  }

  /** Second loop of ConnectBlockCanonicalOrdering: every input is spent and recorded. */
  method SpendAllInputs(vtx: seq<Tx>, view: CoinsViewCache) returns (vtxundo: seq<seq<Coin>>)
    requires view.Shape()
    modifies view.Repr
    ensures (view.Value(), vtxundo) == SpendTxs(old(view.Value()), vtx, view.u)
    ensures Valid(old(view.Value()), view.u) ==>
              && Valid(view.Value(), view.u) && View(view.Value()) == InputsSpent(View(old(view.Value())), vtx)
              && vtxundo == UndoTaken(View(old(view.Value())), vtx)
  {
    hide Valid, SpendEach, InputsSpent, UndoTaken;
    ghost var s := view.Value();
    if Valid(s, view.u) {
      SpendTxsRefines(s, vtx, view.u);
    }
    vtxundo := [];
    assert vtx[0..] == vtx;
    BehindOne([], [], NotThrown(SpendTxs(s, vtx, view.u)));
    for i := 0 to |vtx|
      invariant NotThrown(SpendTxs(s, vtx, view.u))
             == Behind(vtxundo, NotThrown(SpendTxs(view.Value(), vtx[i..], view.u)))
    {
      assert vtx[i..][1..] == vtx[i + 1..];
      var vprevout := SpendCoins(vtx[i], view);
      BehindOne(vtxundo, vprevout, NotThrown(SpendTxs(view.Value(), vtx[i + 1..], view.u)));
      vtxundo := vtxundo + [vprevout];
    }
    BehindOne(vtxundo, [], (view.Value(), [], true));
  }

  /** All outputs, and then all inputs unless an output was repeated. */
  function ConnectStack(s: Stack, txs: seq<Tx>, nHeight: nat, u: UsageFn): (Stack, seq<seq<Coin>>, bool)
    requires s.Over?
  {
    var (s', ok) := AddTxs(s, txs, nHeight, u);
    if !ok then (s', [], false)
    else
      var (s'', undos) := SpendTxs(s', txs, u);
      (s'', undos, true)
  }

  /** What ConnectBlockCanonicalOrdering does to the coins; false is a repeated transaction. */
  method ConnectOutputsFirst(vtx: seq<Tx>, nHeight: nat, view: CoinsViewCache)
    returns (vtxundo: seq<seq<Coin>>, ok: bool)
    requires view.Shape() && AllNoNulls(vtx)
    modifies view.Repr
    ensures (view.Value(), vtxundo, ok) == ConnectStack(old(view.Value()), vtx, nHeight, view.u)
    ensures Valid(old(view.Value()), view.u) && OutputsApart(View(old(view.Value())).Keys, vtx) ==>
              && ok && Valid(view.Value(), view.u)
              && View(view.Value()) == ConnectedOutputsFirst(View(old(view.Value())), vtx, nHeight)
              && vtxundo == UndoOutputsFirst(View(old(view.Value())), vtx, nHeight)
  {
    hide AddTxs, SpendTxs, Valid;
    vtxundo := [];
    ok := AddAllOutputs(vtx, nHeight, view);
    if ok {
      vtxundo := SpendAllInputs(vtx, view);
    }
  }

  // ----- connecting and disconnecting -----

  /** Coins as validation lets them in: not of the genesis block, and spendable. */
  predicate Kept(v: Utxos) { forall o | o in v :: v[o].Unspent? && v[o].nHeight != 0 && !IsUnspendable(v[o].script) }

  lemma {:induction false} CreatedKept(v: Utxos, txs: seq<Tx>, nHeight: nat)
    requires Kept(v) && nHeight > 0
    ensures Kept(OutputsAdded(v, txs, nHeight))
    decreases |txs|
  {
    if txs != [] {
      CreatedKept(v + Created(txs[0], nHeight), txs[1..], nHeight);
    }
  }

  lemma {:induction false} UndoUsable(w: Utxos, txs: seq<Tx>)
    requires Kept(w) && InputsFit(w, txs)
    ensures forall i | 0 <= i < |txs| :: Usable(UndoTaken(w, txs)[i])
    decreases |txs|
  {
    if txs != [] {
      var ins := Inputs(txs[0]);
      SpendAllIsMinus(w, ins);
      SpentCoinsAreOldCoins(w, ins);
      forall j | 0 <= j < |ins| ensures ins[j] in w {
        assert ins[j] in ToSet(ins);
      }
      UndoUsable(SpendAll(w, ins), txs[1..]);
    }
  }

  /**
   A block connected in either order and disconnected again: nothing is amiss and the view is what
   it was. Connecting in turn needs transactions that apply in turn.
   */
  method ConnectAndDisconnect(vtx: seq<Tx>, nHeight: nat, view: CoinsViewCache, inTurn: bool, nMaxOutputs: nat)
    returns (res: DisconnectResult)
    requires view.Shape() && Valid(view.Value(), view.u) && Kept(View(view.Value()))
    requires vtx != [] && IsBlock(vtx) && AllNoNulls(vtx) && nHeight > 0
    requires if inTurn then BlockApplies(View(view.Value()), vtx, nHeight)
             else BlockFits(View(view.Value()), vtx, nHeight)
    modifies view.Repr
    ensures res == DisconnectOk
    ensures Valid(view.Value(), view.u) && View(view.Value()) == old(View(view.Value()))
  {
    hide BlockApplies, Kept, Usable, UndoIsClean, Disconnected, DisconnectOf, Connected;
    hide InputsFit, OutputsApart, UndoFits;
    hide AllCoins, UpdateTxs, ConnectStack;
    ghost var v := View(view.Value());
    if inTurn {
      OrdersAgree(v, vtx, nHeight);
    }
    CreatedKept(v, vtx, nHeight);
    UndoUsable(OutputsAdded(v, vtx, nHeight), vtx);
    DisconnectRestoresOutputsFirst(v, vtx, nHeight);
    var undos, ok;
    if inTurn {
      undos, ok := ConnectInTurn(vtx, nHeight, view);
    } else {
      undos, ok := ConnectOutputsFirst(vtx, nHeight, view);
    }
    assert undos == UndoOutputsFirst(v, vtx, nHeight);
    assert undos[0] == [] && FullUndo(undos[1..]) == undos;
    AllUsable(undos);
    DisconnectOfIs(View(view.Value()), vtx, undos[1..], nMaxOutputs);
    res := DisconnectBlock(vtx, undos[1..], view, nMaxOutputs);
  }

  lemma AllUsable(undos: seq<seq<Coin>>)
    requires forall i | 0 <= i < |undos| :: Usable(undos[i])
    ensures forall i | 0 <= i < |undos| :: AllCoins(undos[i])
  {
    forall i | 0 <= i < |undos| ensures AllCoins(undos[i]) {
      assert Usable(undos[i]);
    }
  }
}
