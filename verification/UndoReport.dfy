/** What DisconnectBlock reports of a block that overwrote unspent outputs: when the loss is noticed and when not. */
module UndoReport {
  import opened CoinTypes
  import opened Utxo

  predicate Touches(tx: Tx, h: Hash) {
    !tx.IsCoinBase() && exists k :: 0 <= k < |tx.vin| && tx.vin[k].hash == h
  }

  predicate SpentFrom(txs: seq<Tx>, h: Hash) {
    exists i :: 0 <= i < |txs| && Touches(txs[i], h)
  }

  /** The last transaction overwrites unspent outputs of its own id. */
  predicate Overwrites(u: CoinMap, txs: seq<Tx>, nHeight: int)
    requires txs != [] && ApplyTxs(u, txs, nHeight).Some?
  {
    var n := |txs| - 1;
    txs[n].txid in Spent(ApplyTxs(u, txs[..n], nHeight).value.coins, txs[n])
  }

  /** The ids whose unspent outputs the block overwrites. */
  function Lost(u: CoinMap, txs: seq<Tx>, nHeight: int): set<Hash>
    requires ApplyTxs(u, txs, nHeight).Some?
  {
    if txs == [] then {}
    else Lost(u, txs[..|txs| - 1], nHeight) + if Overwrites(u, txs, nHeight) then {txs[|txs| - 1].txid} else {}
  }

  /** Nothing is spent from what is overwritten, up to the transaction that overwrites it. */
  predicate SilentAlong(u: CoinMap, txs: seq<Tx>, nHeight: int)
    requires ApplyTxs(u, txs, nHeight).Some?
  {
    txs == [] ||
    (&& SilentAlong(u, txs[..|txs| - 1], nHeight)
     && (Overwrites(u, txs, nHeight) ==> !SpentFrom(txs, txs[|txs| - 1].txid)))
  }

  lemma {:induction false} FreshLosesNothing(u: CoinMap, txs: seq<Tx>, nHeight: int)
    requires ApplyTxs(u, txs, nHeight).Some?
    ensures FreshAlong(u, txs, nHeight) <==> Lost(u, txs, nHeight) == {}
  {
    hide ApplyTx, Spent;
    if txs != [] {
      FreshLosesNothing(u, txs[..|txs| - 1], nHeight);
    }
  }

  // ---- undoing beside a record that is left out ------------------------------------------------------

  lemma {:induction false} UnspendAllBeside(v: CoinMap, h: Hash, ops: seq<OutPoint>, undos: seq<TxInUndo>)
    requires |ops| == |undos| && forall k :: 0 <= k < |ops| ==> ops[k].hash != h
    ensures UnspendAll(v - {h}, ops, undos) == (UnspendAll(v, ops, undos).0 - {h}, UnspendAll(v, ops, undos).1)
    decreases |ops|
  {
    hide Unspend;
    if ops != [] {
      var n := |ops| - 1;
      var v1 := UnspendOut(v, ops[n], undos[n]).0;
      assert UnspendOut(v - {h}, ops[n], undos[n]).0 == v1 - {h};
      UnspendAllBeside(v1, h, ops[..n], undos[..n]);
    }
  }

  lemma UndoTxBeside(v: CoinMap, h: Hash, tx: Tx, undo: seq<TxInUndo>, nHeight: int)
    requires tx.txid != h && !Touches(tx, h)
    ensures UndoTx(v - {h}, tx, undo, nHeight) == (UndoTx(v, tx, undo, nHeight).0 - {h}, UndoTx(v, tx, undo, nHeight).1)
  {
    hide UnspendAll;
    assert v - {h} - {tx.txid} == v - {tx.txid} - {h};
    if !tx.IsCoinBase() && |undo| == |tx.vin| {
      UnspendAllBeside(v - {tx.txid}, h, tx.vin, undo);
    }
  }

  lemma {:induction false} UndoTxsBeside(v: CoinMap, h: Hash, txs: seq<Tx>, undos: seq<seq<TxInUndo>>, nHeight: int)
    requires |undos| + 1 == |txs|
    requires forall i :: 0 <= i < |txs| ==> txs[i].txid != h && !Touches(txs[i], h)
    ensures UndoTxs(v - {h}, txs, undos, nHeight)
         == (UndoTxs(v, txs, undos, nHeight).0 - {h}, UndoTxs(v, txs, undos, nHeight).1)
    decreases |txs|
  {
    hide UndoTx, Touches;
    var n := |txs| - 1;
    var undo := if n == 0 then [] else undos[n - 1];
    UndoTxBeside(v, h, txs[n], undo, nHeight);
    if n > 0 {
      UndoTxsBeside(UndoTx(v, txs[n], undo, nHeight).0, h, txs[..n], undos[..n - 1], nHeight);
    }
  }

  // ---- a restored input whose record is missing ------------------------------------------------------

  /** The undo records of spends that left something of `h` carry no height. */
  lemma {:induction false} NoHeights(u: CoinMap, ops: seq<OutPoint>, h: Hash)
    requires SpendAll(u, ops).Some? && h in SpendAll(u, ops).value.0
    ensures h in u && |SpendAll(u, ops).value.1| == |ops|
    ensures forall k :: 0 <= k < |ops| && ops[k].hash == h ==> SpendAll(u, ops).value.1[k].nHeight == 0
  {
    if ops != [] {
      var n := |ops| - 1;
      var (u1, undos) := SpendAll(u, ops[..n]).value;
      assert h in u1;
      NoHeights(u, ops[..n], h);
      hide SpendAll;
      var (undo, left) := Spend(At(u1, ops[n].hash), ops[n].n).value;
      assert ops[n].hash == h ==> undo.nHeight == 0;
    }
  }

  lemma {:induction false} MissingNoticed(v: CoinMap, ops: seq<OutPoint>, undos: seq<TxInUndo>, h: Hash)
    requires |ops| == |undos| && h !in v && exists k :: 0 <= k < |ops| && ops[k].hash == h
    requires forall k :: 0 <= k < |ops| && ops[k].hash == h ==> undos[k].nHeight == 0
    ensures !UnspendAll(v, ops, undos).1
    decreases |ops|
  {
    var n := |ops| - 1;
    if ops[n].hash != h {
      var v1 := UnspendOut(v, ops[n], undos[n]).0;
      assert h !in v1;
      var k :| 0 <= k < |ops| && ops[k].hash == h;
      assert ops[..n][k].hash == h;
      MissingNoticed(v1, ops[..n], undos[..n], h);
    }
  }

  /** The undo data that spends of `h` left in the block carry no height. */
  ghost predicate NoHeightsFor(txs: seq<Tx>, undos: seq<seq<TxInUndo>>, h: Hash)
    requires |undos| + 1 == |txs|
  {
    forall i :: 1 <= i < |txs| ==>
      |undos[i - 1]| == |txs[i].vin| &&
      forall k :: 0 <= k < |txs[i].vin| && txs[i].vin[k].hash == h ==> undos[i - 1][k].nHeight == 0
  }

  lemma {:induction false} BlockNoHeights(u: CoinMap, txs: seq<Tx>, nHeight: int, h: Hash)
    requires WfUtxo(u) && nHeight >= 1 && CheckBlock(txs) && ApplyTxs(u, txs, nHeight).Some?
    requires h in ApplyTxs(u, txs, nHeight).value.coins && forall i :: 0 <= i < |txs| ==> txs[i].txid != h
    ensures |ApplyTxs(u, txs, nHeight).value.undo| + 1 == |txs|
    ensures NoHeightsFor(txs, ApplyTxs(u, txs, nHeight).value.undo, h)
  {
    hide CheckInputs, CheckTransaction, SpendAll;
    var n := |txs| - 1;
    ApplyTxsFits(u, txs, nHeight);
    if n > 0 {
      var b1 := ApplyTxs(u, txs[..n], nHeight).value;
      NoHeights(b1.coins, txs[n].vin, h);
      CheckBlockFront(txs);
      BlockNoHeights(u, txs[..n], nHeight, h);
    }
  }

  /** A spend from a record that is gone cannot be undone unnoticed. */
  lemma {:induction false} BlockMissingNoticed(v: CoinMap, txs: seq<Tx>, undos: seq<seq<TxInUndo>>, nHeight: int,
      h: Hash)
    requires |undos| + 1 == |txs| && h !in v && txs[0].IsCoinBase()
    requires SpentFrom(txs, h) && NoHeightsFor(txs, undos, h) && forall i :: 0 <= i < |txs| ==> txs[i].txid != h
    ensures !UndoTxs(v, txs, undos, nHeight).1
    decreases |txs|
  {
    hide UnspendAll;
    var n := |txs| - 1;
    var i :| 0 <= i < |txs| && Touches(txs[i], h);
    if Touches(txs[n], h) {
      MissingNoticed(v - {txs[n].txid}, txs[n].vin, undos[n - 1], h);
    } else {
      assert v - {h} == v;
      UndoTxBeside(v, h, txs[n], undos[n - 1], nHeight);
      assert Touches(txs[..n][i], h);
      BlockMissingNoticed(UndoTx(v, txs[n], undos[n - 1], nHeight).0, txs[..n], undos[..n - 1], nHeight, h);
    }
  }

  // ---- the last transaction of a block ------------------------------------------------------

  /** An overwriting transaction that spends nothing of its own id is undone, looks clean, and leaves the old record
      out. */
  lemma UndoTxSilent(u: CoinMap, tx: Tx, nHeight: int)
    requires WfUtxo(u) && CheckTransaction(tx) && nHeight >= 1
    requires ApplyTx(u, tx, nHeight).Some? && tx.txid in Spent(u, tx) && !Touches(tx, tx.txid)
    ensures var e := ApplyTx(u, tx, nHeight).value;
      UndoTx(e.coins, tx, e.undo, nHeight) == (u - {tx.txid}, true)
  {
    hide CheckInputs, SpendAll, UnspendAll;
    var sp := Spent(u, tx);
    var u1 := Put(sp, tx.txid, CoinsFromTx(tx, nHeight));
    assert At(u1, tx.txid) == CoinsFromTx(tx, nHeight) && u1 - {tx.txid} == sp - {tx.txid};
    if !tx.IsCoinBase() {
      UnspendAllUndoes(u, tx.vin);
      UnspendAllBeside(sp, tx.txid, tx.vin, SpendAll(u, tx.vin).value.1);
    }
  }

  /** One that did spend of its own id before overwriting it does not look clean. */
  lemma UndoTxNoticed(u: CoinMap, tx: Tx, nHeight: int)
    requires WfUtxo(u) && ApplyTx(u, tx, nHeight).Some? && tx.txid in Spent(u, tx) && Touches(tx, tx.txid)
    ensures var e := ApplyTx(u, tx, nHeight).value; !UndoTx(e.coins, tx, e.undo, nHeight).1
  {
    hide CheckInputs, SpendAll, UnspendAll;
    NoHeights(u, tx.vin, tx.txid);
    var e := ApplyTx(u, tx, nHeight).value;
    MissingNoticed(e.coins - {tx.txid}, tx.vin, e.undo, tx.txid);
  }

  /** The effect of a block in terms of the block without its last transaction. */
  lemma LastOf(u: CoinMap, txs: seq<Tx>, nHeight: int)
    requires WfUtxo(u) && nHeight >= 1 && CheckBlock(txs) && |txs| > 1 && ApplyTxs(u, txs, nHeight).Some?
    ensures ApplyTxs(u, txs[..|txs| - 1], nHeight).Some?
    ensures var n := |txs| - 1;
      var b1, b := ApplyTxs(u, txs[..n], nHeight).value, ApplyTxs(u, txs, nHeight).value;
      var e := ApplyTx(b1.coins, txs[n], nHeight);
      && |b.undo| == n && |b1.undo| + 1 == n && b.undo[..n - 1] == b1.undo
      && WfUtxo(b1.coins) && e.Some? && b.coins == e.value.coins && b.undo[n - 1] == e.value.undo
  {
    hide CheckTransaction, ApplyTx;
    ApplyTxsFits(u, txs, nHeight);
    ApplyTxsFits(u, txs[..|txs| - 1], nHeight);
    ApplyTxsWf(u, txs[..|txs| - 1], nHeight);
  }

  // ---- the whole block ------------------------------------------------------

  /** Silent overwriting: the undo looks clean and the overwritten records are missing afterwards. */
  lemma {:induction false} SilentLoss(u: CoinMap, txs: seq<Tx>, nHeight: int)
    requires WfUtxo(u) && nHeight >= 1 && CheckBlock(txs)
    requires ApplyTxs(u, txs, nHeight).Some? && SilentAlong(u, txs, nHeight)
    ensures var b := ApplyTxs(u, txs, nHeight).value;
      |b.undo| + 1 == |txs| && UndoTxs(b.coins, txs, b.undo, nHeight) == (u - Lost(u, txs, nHeight), true)
  {
    hide CheckTransaction, ApplyTx, Spent, UndoTx;
    var n := |txs| - 1;
    var tx := txs[n];
    ApplyTxsFits(u, txs, nHeight);
    if n == 0 {
      LoneCoinbase(u, txs, nHeight);
    } else {
      LastOf(u, txs, nHeight);
      CheckBlockFront(txs);
      SilentLoss(u, txs[..n], nHeight);
      var b1 := ApplyTxs(u, txs[..n], nHeight).value;
      if Overwrites(u, txs, nHeight) {
        NotTouched(txs, tx.txid);
        UndoTxSilent(b1.coins, tx, nHeight);
        UndoTxsBeside(b1.coins, tx.txid, txs[..n], b1.undo, nHeight);
        assert u - Lost(u, txs[..n], nHeight) - {tx.txid} == u - Lost(u, txs, nHeight);
      } else {
        UndoTxUndoes(b1.coins, tx, nHeight);
        assert Lost(u, txs, nHeight) == Lost(u, txs[..n], nHeight);
      }
    }
  }

  lemma NotTouched(txs: seq<Tx>, h: Hash)
    requires !SpentFrom(txs, h)
    ensures forall i :: 0 <= i < |txs| ==> !Touches(txs[i], h)
  {
  }

  lemma LoneCoinbase(u: CoinMap, txs: seq<Tx>, nHeight: int)
    requires WfUtxo(u) && nHeight >= 1 && CheckBlock(txs) && |txs| == 1 && ApplyTxs(u, txs, nHeight).Some?
    ensures var b := ApplyTxs(u, txs, nHeight).value;
      |b.undo| + 1 == |txs| && UndoTxs(b.coins, txs, b.undo, nHeight) == (u - Lost(u, txs, nHeight), true)
    ensures SilentAlong(u, txs, nHeight)
  {
    hide CheckInputs;
    var tx := txs[0];
    assert txs[..0] == [] && !Touches(tx, tx.txid);
    assert Lost(u, txs[..0], nHeight) == {};
    if tx.txid in u {
      UndoTxSilent(u, tx, nHeight);
      assert Lost(u, txs, nHeight) == {tx.txid};
    } else {
      UndoTxUndoes(u, tx, nHeight);
      assert Lost(u, txs, nHeight) == {} && u - {} == u;
    }
  }

  /** Any other overwriting is reported. */
  lemma {:induction false} LossNoticed(u: CoinMap, txs: seq<Tx>, nHeight: int)
    requires WfUtxo(u) && nHeight >= 1 && CheckBlock(txs)
    requires ApplyTxs(u, txs, nHeight).Some? && !SilentAlong(u, txs, nHeight)
    ensures var b := ApplyTxs(u, txs, nHeight).value;
      |b.undo| + 1 == |txs| && !UndoTxs(b.coins, txs, b.undo, nHeight).1
    decreases |txs|, 1
  {
    hide CheckTransaction, ApplyTx, UndoTx, Touches;
    var n := |txs| - 1;
    var tx := txs[n];
    ApplyTxsFits(u, txs, nHeight);
    if n == 0 {
      LoneCoinbase(u, txs, nHeight);
    } else {
      LastOf(u, txs, nHeight);
      CheckBlockFront(txs);
      var b1 := ApplyTxs(u, txs[..n], nHeight).value;
      if !Overwrites(u, txs, nHeight) {
        UndoTxUndoes(b1.coins, tx, nHeight);
        LossNoticed(u, txs[..n], nHeight);
      } else if Touches(tx, tx.txid) {
        UndoTxNoticed(b1.coins, tx, nHeight);
      } else {
        UndoTxSilent(b1.coins, tx, nHeight);
        LossBelow(u, txs, nHeight);
      }
    }
  }

  /** The overwritten record is out when the rest of the block is undone. */
  lemma LossBelow(u: CoinMap, txs: seq<Tx>, nHeight: int)
    requires WfUtxo(u) && nHeight >= 1 && CheckBlock(txs) && |txs| > 1
    requires ApplyTxs(u, txs, nHeight).Some? && !SilentAlong(u, txs, nHeight)
    requires Overwrites(u, txs, nHeight) && !Touches(txs[|txs| - 1], txs[|txs| - 1].txid)
    ensures var n := |txs| - 1;
      var b1 := ApplyTxs(u, txs[..n], nHeight).value;
      |b1.undo| + 1 == n && !UndoTxs(b1.coins - {txs[n].txid}, txs[..n], b1.undo, nHeight).1
    decreases |txs|, 0
  {
    hide CheckTransaction, ApplyTxs, CheckBlock, UndoTxs, Touches, Spent;
    var n := |txs| - 1;
    var h := txs[n].txid;
    LastOf(u, txs, nHeight);
    CheckBlockFront(txs);
    OwnIds(txs, txs[..n]);
    if SpentFrom(txs[..n], h) {
      MissedBelow(u, txs, nHeight);
    } else {
      NotSpentFrom(txs, txs[..n], h);
      LossNoticed(u, txs[..n], nHeight);
      UndoTxsBeside(ApplyTxs(u, txs[..n], nHeight).value.coins, h, txs[..n], ApplyTxs(u, txs[..n], nHeight).value.undo,
        nHeight);
    }
  }

  lemma OwnIds(txs: seq<Tx>, front: seq<Tx>)
    requires CheckBlock(txs) && |txs| > 1 && front == txs[..|txs| - 1]
    ensures front[0].IsCoinBase() && forall i :: 0 <= i < |front| ==> front[i].txid != txs[|txs| - 1].txid
  {
  }

  lemma NotSpentFrom(txs: seq<Tx>, front: seq<Tx>, h: Hash)
    requires txs != [] && front == txs[..|txs| - 1] && !SpentFrom(front, h) && !Touches(txs[|txs| - 1], h)
    ensures !SpentFrom(txs, h)
    ensures forall i :: 0 <= i < |front| ==> !Touches(front[i], h)
  {
    hide Touches;
    assert forall i :: 0 <= i < |front| ==> front[i] == txs[i];
  }

  lemma MissedBelow(u: CoinMap, txs: seq<Tx>, nHeight: int)
    requires WfUtxo(u) && nHeight >= 1 && CheckBlock(txs) && |txs| > 1 && ApplyTxs(u, txs, nHeight).Some?
    requires Overwrites(u, txs, nHeight) && SpentFrom(txs[..|txs| - 1], txs[|txs| - 1].txid)
    ensures var n := |txs| - 1;
      var b1 := ApplyTxs(u, txs[..n], nHeight).value;
      |b1.undo| + 1 == n && !UndoTxs(b1.coins - {txs[n].txid}, txs[..n], b1.undo, nHeight).1
  {
    hide CheckTransaction, ApplyTxs, UndoTxs, SpentFrom, Spent;
    var n := |txs| - 1;
    var h := txs[n].txid;
    LastOf(u, txs, nHeight);
    CheckBlockFront(txs);
    OwnIds(txs, txs[..n]);
    var b1 := ApplyTxs(u, txs[..n], nHeight).value;
    RecordWasThere(b1.coins, txs[n], h);
    BlockNoHeights(u, txs[..n], nHeight, h);
    BlockMissingNoticed(b1.coins - {h}, txs[..n], b1.undo, nHeight, h);
  }

  lemma RecordWasThere(u: CoinMap, tx: Tx, h: Hash)
    requires h in Spent(u, tx)
    ensures h in u
  {
    hide SpendAll;
    if !tx.IsCoinBase() && SpendAll(u, tx.vin).Some? {
      NoHeights(u, tx.vin, h);
    }
  }

  /** Main result: the undo of a connected block looks clean exactly when nothing was spent in the block from
      the records it overwrote; the coins it then leaves are the old ones without those records. */
  lemma UndoReports(u: CoinMap, txs: seq<Tx>, nHeight: int)
    requires WfUtxo(u) && nHeight >= 1 && CheckBlock(txs)
    requires ApplyTxs(u, txs, nHeight).Some?
    ensures var b := ApplyTxs(u, txs, nHeight).value;
      && |b.undo| + 1 == |txs|
      && (UndoTxs(b.coins, txs, b.undo, nHeight).1 <==> SilentAlong(u, txs, nHeight))
      && (SilentAlong(u, txs, nHeight) ==> UndoTxs(b.coins, txs, b.undo, nHeight).0 == u - Lost(u, txs, nHeight))
      && (UndoTxs(b.coins, txs, b.undo, nHeight).0 == u <==> Lost(u, txs, nHeight) == {})
  {
    hide SilentAlong, Lost, UndoTxs, ApplyTxs, CheckBlock;
    UndoTxsExact(u, txs, nHeight);
    FreshLosesNothing(u, txs, nHeight);
    if SilentAlong(u, txs, nHeight) {
      SilentLoss(u, txs, nHeight);
    } else {
      LossNoticed(u, txs, nHeight);
    }
  }
}
