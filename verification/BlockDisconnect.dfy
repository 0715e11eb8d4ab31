/** CBlock::DisconnectBlock on a coin view. What a cached record with nothing left still says of its height, version
    and coinbase flag can get into an output put back uncleanly, so there the result is described by its outputs. */
module BlockDisconnect {
  import opened Basics
  import opened CoinTypes
  import U = Utxo
  import opened CoinsView

  lemma UnspendKeepsGood(c: Coins, n: nat, undo: TxInUndo)
    requires GoodRecord(c) && undo.txout.nValue >= 0
    ensures GoodRecord(Unspend(c, n, undo).0)
  {
  }

  lemma EmptyGood()
    ensures GoodRecord(EMPTY_COINS)
  {
  }

  /** Take the outputs of a transaction out; the answer is whether they were all there. */
  method RemoveOutputs(view: CoinsViewCache, tx: Tx, nHeight: int) returns (fClean: bool)
    requires view.Valid() && tx.vout != []
    modifies view, view.base
    ensures view.Valid() && view.BaseSame() && view.Best() == old(view.Best())
    ensures view.Coins() == old(view.Coins()) - {tx.txid}
    ensures fClean <==> U.SameOuts(U.At(old(view.Coins()), tx.txid), tx, nHeight)
  {
    hide CoinsViewCache.Valid, CoinsViewCache.Contents, CoinsViewCache.Under, CoinsViewCache.Coins,
      CoinsViewCache.Best, CoinsViewCache.UnderBest, GoodRecord, Norm;
    fClean := true;
    var found := view.FetchCoins(tx.txid);
    if !found {
      fClean := false;
    }
    var outs := view.GetCoins(tx.txid);
    var outsBlock := CoinsFromTx(tx, nHeight);
    if outsBlock.nVersion < 0 {
      outs := outs.(nVersion := outsBlock.nVersion);
    }
    if outs != outsBlock {
      fClean := false;
    }
    EmptyGood();
    view.SetCoins(tx.txid, EMPTY_COINS);
  }

  /** Put one spent output back. */
  method RestoreInput(view: CoinsViewCache, out: OutPoint, undo: TxInUndo) returns (fClean: bool)
    requires view.Valid() && undo.txout.nValue >= 0
    modifies view, view.base
    ensures view.Valid() && view.BaseSame() && view.Best() == old(view.Best())
    ensures fClean <==> U.UnspendOut(old(view.Coins()), out, undo).1
    ensures fClean ==> view.Coins() == U.UnspendOut(old(view.Coins()), out, undo).0
    ensures U.SameOutputs(view.Coins(), U.UnspendOut(old(view.Coins()), out, undo).0)
  {
    hide CoinsViewCache.Valid, CoinsViewCache.Contents, CoinsViewCache.Under, CoinsViewCache.Coins,
      CoinsViewCache.Best, CoinsViewCache.UnderBest, GoodRecord, Norm;
    fClean := true;
    var coins := view.GetCoins(out.hash);
    UnspendKeepsGood(coins, out.n, undo);
    if undo.nHeight != 0 {
      if !coins.IsPruned() {
        fClean := false;
      }
      coins := Coins(undo.fCoinBase, [], undo.nHeight, undo.nVersion);
    } else {
      if coins.IsPruned() {
        fClean := false;
      }
    }
    if coins.IsAvailable(out.n) {
      fClean := false;
    }
    var vout := coins.vout;
    if |vout| < out.n + 1 {
      vout := Resized(vout, out.n + 1);
    }
    vout := vout[out.n := undo.txout];
    coins := coins.(vout := vout);
    view.SetCoins(out.hash, coins);
  }

  /** Restore the inputs of one transaction, last first. */
  method RestoreInputs(view: CoinsViewCache, ops: seq<OutPoint>, undos: seq<TxInUndo>) returns (fClean: bool)
    requires view.Valid() && |ops| == |undos| && U.GoodUndo(undos)
    modifies view, view.base
    ensures view.Valid() && view.BaseSame() && view.Best() == old(view.Best())
    ensures fClean <==> U.UnspendAll(old(view.Coins()), ops, undos).1
    ensures fClean ==> view.Coins() == U.UnspendAll(old(view.Coins()), ops, undos).0
    ensures U.SameOutputs(view.Coins(), U.UnspendAll(old(view.Coins()), ops, undos).0)
  {
    hide CoinsViewCache.Valid, CoinsViewCache.Contents, CoinsViewCache.Under, CoinsViewCache.Coins,
      CoinsViewCache.Best, CoinsViewCache.UnderBest, GoodRecord, Norm, U.UnspendOut, U.SameOutputs;
    ghost var all := U.UnspendAll(view.Coins(), ops, undos);
    U.SameOutputsRefl(all.0);
    fClean := true;
    var j := |ops|;
    assert ops[..j] == ops && undos[..j] == undos;
    while j > 0
      invariant 0 <= j <= |ops|
      invariant view.Valid() && view.BaseSame() && view.Best() == old(view.Best())
      invariant if fClean then all == U.UnspendAll(view.Coins(), ops[..j], undos[..j]) else !all.1
      invariant U.SameOutputs(U.UnspendAll(view.Coins(), ops[..j], undos[..j]).0, all.0)
    {
      ghost var before := view.Coins();
      j := j - 1;
      assert ops[..j + 1][..j] == ops[..j] && undos[..j + 1][..j] == undos[..j];
      var ok := RestoreInput(view, ops[j], undos[j]);
      RestoredAlike(before, view.Coins(), ops[..j + 1], undos[..j + 1], all.0);
      fClean := fClean && ok;
    }
  }

  lemma RestoredAlike(u: U.CoinMap, v: U.CoinMap, ops: seq<OutPoint>, undos: seq<TxInUndo>, w: U.CoinMap)
    requires |ops| == |undos| > 0 && U.SameOutputs(U.UnspendAll(u, ops, undos).0, w)
    requires U.SameOutputs(v, U.UnspendOut(u, ops[|ops| - 1], undos[|ops| - 1]).0)
    ensures U.SameOutputs(U.UnspendAll(v, ops[..|ops| - 1], undos[..|ops| - 1]).0, w)
  {
    hide U.SameOutputs, U.UnspendOut;
    var n := |ops| - 1;
    var one := U.UnspendOut(u, ops[n], undos[n]).0;
    U.UnspendAllAlike(v, one, ops[..n], undos[..n]);
    U.SameOutputsThrough(U.UnspendAll(v, ops[..n], undos[..n]).0, U.UnspendAll(one, ops[..n], undos[..n]).0, w);
  }

  /** One transaction: its outputs go, and its inputs come back unless it is a coinbase. Gives up when there is not one
      undo record for every input. */
  method DisconnectTx(view: CoinsViewCache, tx: Tx, nHeight: int, txundo: seq<TxInUndo>)
    returns (ok: bool, fClean: bool)
    requires view.Valid() && CheckTransaction(tx) && U.GoodUndo(txundo)
    modifies view, view.base
    ensures view.Valid() && view.BaseSame() && view.Best() == old(view.Best())
    ensures ok <==> tx.IsCoinBase() || |txundo| == |tx.vin|
    ensures fClean <==> U.UndoTx(old(view.Coins()), tx, txundo, nHeight).1
    ensures fClean ==> view.Coins() == U.UndoTx(old(view.Coins()), tx, txundo, nHeight).0
    ensures U.SameOutputs(view.Coins(), U.UndoTx(old(view.Coins()), tx, txundo, nHeight).0)
  {
    hide CoinsViewCache.Valid, CoinsViewCache.Contents, CoinsViewCache.Under, CoinsViewCache.Coins,
      CoinsViewCache.Best, CoinsViewCache.UnderBest, GoodRecord, Norm, U.UnspendAll, U.SameOuts, U.SameOutputs;
    fClean := RemoveOutputs(view, tx, nHeight);
    U.SameOutputsRefl(view.Coins());
    if !tx.IsCoinBase() {
      if |txundo| != |tx.vin| {
        return false, false;
      }
      var back := RestoreInputs(view, tx.vin, txundo);
      fClean := fClean && back;
    }
    ok := true;
  }

  /** What undoing the first `k` transactions makes of the coins. */
  function UndoFirst(u: U.CoinMap, vtx: seq<Tx>, vtxundo: seq<seq<TxInUndo>>, nHeight: int, k: nat): (U.CoinMap, bool)
    requires |vtxundo| + 1 == |vtx| && k <= |vtx|
  {
    if k == 0 then (u, true) else U.UndoTxs(u, vtx[..k], vtxundo[..k - 1], nHeight)
  }

  function UndoAt(vtxundo: seq<seq<TxInUndo>>, k: nat): seq<TxInUndo>
    requires k <= |vtxundo|
  {
    if k == 0 then [] else vtxundo[k - 1]
  }

  lemma UndoFirstWhole(u: U.CoinMap, vtx: seq<Tx>, vtxundo: seq<seq<TxInUndo>>, nHeight: int)
    requires |vtxundo| + 1 == |vtx|
    ensures UndoFirst(u, vtx, vtxundo, nHeight, |vtx|) == U.UndoTxs(u, vtx, vtxundo, nHeight)
  {
    assert vtx[..|vtx|] == vtx && vtxundo[..|vtx| - 1] == vtxundo;
  }

  lemma UndoFirstNone(u: U.CoinMap, vtx: seq<Tx>, vtxundo: seq<seq<TxInUndo>>, nHeight: int)
    requires |vtxundo| + 1 == |vtx|
    ensures UndoFirst(u, vtx, vtxundo, nHeight, 0) == (u, true)
  {
  }

  lemma UndoFirstStep(u: U.CoinMap, vtx: seq<Tx>, vtxundo: seq<seq<TxInUndo>>, nHeight: int, k: nat)
    requires |vtxundo| + 1 == |vtx| && k < |vtx|
    ensures var (u1, ok1) := U.UndoTx(u, vtx[k], UndoAt(vtxundo, k), nHeight);
      var (u2, ok2) := UndoFirst(u1, vtx, vtxundo, nHeight, k);
      UndoFirst(u, vtx, vtxundo, nHeight, k + 1) == (u2, ok1 && ok2)
  {
    hide U.UndoTx;
    assert vtx[..k + 1][..k] == vtx[..k];
    assert k > 0 ==> vtxundo[..k][..k - 1] == vtxundo[..k - 1];
  }

  /** Undone from coins that are alike, the rest leads to coins that are alike. */
  lemma UndoFirstAlike(u: U.CoinMap, v: U.CoinMap, vtx: seq<Tx>, vtxundo: seq<seq<TxInUndo>>, nHeight: int, k: nat,
                       w: U.CoinMap)
    requires |vtxundo| + 1 == |vtx| && k <= |vtx|
    requires U.SameOutputs(v, u) && U.SameOutputs(UndoFirst(u, vtx, vtxundo, nHeight, k).0, w)
    ensures U.SameOutputs(UndoFirst(v, vtx, vtxundo, nHeight, k).0, w)
  {
    hide U.SameOutputs, U.UndoTxs;
    if k > 0 {
      U.UndoTxsAlike(v, u, vtx[..k], vtxundo[..k - 1], nHeight);
    }
    U.SameOutputsThrough(UndoFirst(v, vtx, vtxundo, nHeight, k).0, UndoFirst(u, vtx, vtxundo, nHeight, k).0, w);
  }

  /** DisconnectBlock. Whoever asks for the verdict gets it in `clean` and a failure only where the undo data does not
      fit the block; whoever does not gets an unclean undo as a failure. */
  method DisconnectBlock(view: CoinsViewCache, vtx: seq<Tx>, nHeight: int, pprev: Hash, vtxundo: seq<seq<TxInUndo>>,
                         pfClean: bool)
    returns (r: bool, clean: bool)
    requires view.Valid() && CheckBlock(vtx) && U.GoodUndos(vtxundo)
    modifies view, view.base
    ensures view.Valid() && view.BaseSame()
    ensures !(|vtxundo| + 1 == |vtx| && U.UndoFits(vtx, vtxundo)) ==> !r && !clean
    ensures |vtxundo| + 1 == |vtx| && U.UndoFits(vtx, vtxundo) ==>
      var (u, ok) := U.UndoTxs(old(view.Coins()), vtx, vtxundo, nHeight);
      && (r <==> pfClean || ok) && (clean <==> pfClean && ok)
      && view.pindexTip == view.Best() == Some(pprev)
      && (ok ==> view.Coins() == u) && U.SameOutputs(view.Coins(), u)
  {
    hide CoinsViewCache.Valid, CoinsViewCache.Contents, CoinsViewCache.Under, CoinsViewCache.Coins,
      CoinsViewCache.Best, CoinsViewCache.UnderBest, GoodRecord, Norm, U.UndoTx, U.UndoTxs, U.SameOutputs, UndoFirst;
    clean := false;
    if |vtxundo| + 1 != |vtx| {
      return false, clean;
    }
    ghost var all := UndoFirst(view.Coins(), vtx, vtxundo, nHeight, |vtx|);
    UndoFirstWhole(view.Coins(), vtx, vtxundo, nHeight);
    U.SameOutputsRefl(all.0);
    var fClean := true;
    var i := |vtx| - 1;
    while i >= 0
      invariant -1 <= i < |vtx|
      invariant view.Valid() && view.BaseSame()
      invariant forall k :: i < k < |vtx| && k > 0 ==> |vtxundo[k - 1]| == |vtx[k].vin|
      invariant if fClean then all == UndoFirst(view.Coins(), vtx, vtxundo, nHeight, i + 1) else !all.1
      invariant U.SameOutputs(UndoFirst(view.Coins(), vtx, vtxundo, nHeight, i + 1).0, all.0)
    {
      hide CheckTransaction;
      UndoFirstStep(view.Coins(), vtx, vtxundo, nHeight, i);
      ghost var one := U.UndoTx(view.Coins(), vtx[i], UndoAt(vtxundo, i), nHeight).0;
      var fits, ok := DisconnectTx(view, vtx[i], nHeight, UndoAt(vtxundo, i));
      if !fits {
        return false, clean;
      }
      UndoFirstAlike(one, view.Coins(), vtx, vtxundo, nHeight, i, all.0);
      fClean := fClean && ok;
      i := i - 1;
    }
    view.SetBestBlock(pprev);
    UndoFirstNone(view.Coins(), vtx, vtxundo, nHeight);
    if pfClean {
      return true, fClean;
    } else {
      return fClean, clean;
    }
  }
}
