/** Connecting and disconnecting transactions and blocks on the set of unspent coins
    (UpdateCoins, CheckInputs, ConnectBlock and DisconnectBlock of src/main.cpp). */
module Utxo {
  import opened Basics
  import opened CoinTypes

  /** The unspent set: a view's contents with the pruned records left out. */
  type CoinMap = map<Hash, Coins>

  function At(u: CoinMap, h: Hash): Coins {
    if h in u then u[h] else EMPTY_COINS
  }

  ghost predicate WfUtxo(u: CoinMap) {
    forall h :: h in u ==> u[h].vout != [] && CleanOuts(u[h].vout) && u[h].nHeight >= 1
  }

  /** Store one record, dropping it when nothing in it is unspent. */
  function Put(u: CoinMap, h: Hash, c: Coins): CoinMap {
    if c.vout == [] then u - {h} else u[h := c]
  }

  // ---- one input ----------------------------------------------------------

  function SpendOut(u: CoinMap, op: OutPoint): Option<(CoinMap, TxInUndo)> {
    match Spend(At(u, op.hash), op.n)
    case None => None
    case Some((undo, left)) => Some((Put(u, op.hash, left), undo))
  }

  function UnspendOut(u: CoinMap, op: OutPoint, undo: TxInUndo): (CoinMap, bool) {
    var (c, ok) := Unspend(At(u, op.hash), op.n, undo);
    (u[op.hash := c], ok)
  }

  lemma SpendOutWf(u: CoinMap, op: OutPoint)
    requires WfUtxo(u) && SpendOut(u, op).Some?
    ensures WfUtxo(SpendOut(u, op).value.0)
    ensures SpendOut(u, op).value.0.Keys <= u.Keys
    ensures SpendOut(u, op).value.1.txout.nValue >= 0
    ensures op.hash in u && u[op.hash].IsAvailable(op.n) && SpendOut(u, op).value.1.txout == u[op.hash].vout[op.n]
  {
    var c := u[op.hash];
    var (undo, left) := Spend(c, op.n).value;
    assert forall i :: 0 <= i < |left.vout| ==> left.vout[i] == c.vout[op.n := NULL_OUT][i];
  }

  lemma UnspendOutUndoes(u: CoinMap, op: OutPoint)
    requires WfUtxo(u) && SpendOut(u, op).Some?
    ensures var (u1, undo) := SpendOut(u, op).value; UnspendOut(u1, op, undo) == (u, true)
  {
    UnspendUndoesSpend(u[op.hash], op.n);
    var (undo, left) := Spend(u[op.hash], op.n).value;
    if left.vout == [] {
      UnspendIgnoresPruned(EMPTY_COINS, left, op.n, undo);
    }
    hide Unspend, Spend;
    assert SpendOut(u, op).value == (Put(u, op.hash, left), undo);
    assert Put(u, op.hash, left)[op.hash := u[op.hash]] == u;
  }

  /** A pruned record and no record at all are undone alike. */
  lemma UnspendIgnoresPruned(c: Coins, d: Coins, n: nat, undo: TxInUndo)
    requires c.vout == d.vout == [] && undo.nHeight != 0
    ensures Unspend(c, n, undo) == Unspend(d, n, undo)
  {
  }

  // ---- the inputs of one transaction ---------------------------------------

  function SpendAll(u: CoinMap, ops: seq<OutPoint>): Option<(CoinMap, seq<TxInUndo>)> {
    if ops == [] then Some((u, []))
    else
      match SpendAll(u, ops[..|ops| - 1])
      case None => None
      case Some((u1, undos)) =>
        match SpendOut(u1, ops[|ops| - 1])
        case None => None
        case Some((u2, undo)) => Some((u2, undos + [undo]))
  }

  function UnspendAll(u: CoinMap, ops: seq<OutPoint>, undos: seq<TxInUndo>): (CoinMap, bool)
    requires |ops| == |undos|
    decreases |ops|
  {
    if ops == [] then (u, true)
    else
      var (u1, ok1) := UnspendOut(u, ops[|ops| - 1], undos[|ops| - 1]);
      var (u2, ok2) := UnspendAll(u1, ops[..|ops| - 1], undos[..|ops| - 1]);
      (u2, ok1 && ok2)
  }

  lemma {:induction false} SpendAllWf(u: CoinMap, ops: seq<OutPoint>)
    requires WfUtxo(u) && SpendAll(u, ops).Some?
    ensures var (u1, undos) := SpendAll(u, ops).value;
      && WfUtxo(u1) && u1.Keys <= u.Keys && |undos| == |ops|
      && forall i :: 0 <= i < |undos| ==> undos[i].txout.nValue >= 0
  {
    if ops != [] {
      SpendAllWf(u, ops[..|ops| - 1]);
      SpendOutWf(SpendAll(u, ops[..|ops| - 1]).value.0, ops[|ops| - 1]);
    }
  }

  lemma {:induction false} UnspendAllUndoes(u: CoinMap, ops: seq<OutPoint>)
    requires WfUtxo(u) && SpendAll(u, ops).Some?
    ensures var (u1, undos) := SpendAll(u, ops).value;
      |undos| == |ops| && UnspendAll(u1, ops, undos) == (u, true)
  {
    SpendAllWf(u, ops);
    if ops != [] {
      var front := ops[..|ops| - 1];
      UnspendAllUndoes(u, front);
      SpendAllWf(u, front);
      var (u1, undos) := SpendAll(u, front).value;
      UnspendOutUndoes(u1, ops[|ops| - 1]);
      var (u2, all) := SpendAll(u, ops).value;
      assert all[..|ops| - 1] == undos;
    }
  }

  /** HaveInputs, for a transaction that is not a coinbase. */
  predicate HaveInputs(u: CoinMap, ops: seq<OutPoint>) {
    forall i :: 0 <= i < |ops| ==> At(u, ops[i].hash).IsAvailable(ops[i].n)
  }

  lemma SpendOutLeaves(u: CoinMap, spent: OutPoint, op: OutPoint)
    requires SpendOut(u, spent).Some? && op != spent
    ensures var u1 := SpendOut(u, spent).value.0;
      At(u, op.hash).IsAvailable(op.n) ==>
        At(u1, op.hash).IsAvailable(op.n) && At(u1, op.hash).vout[op.n] == At(u, op.hash).vout[op.n]
  {
    if op.hash == spent.hash {
      var c := At(u, op.hash);
      var holed := c.vout[spent.n := NULL_OUT];
      assert op.n < |c.vout| ==> holed[op.n] == c.vout[op.n];
    }
  }

  /** Spending some outputs leaves every other output as it was. */
  lemma {:induction false} SpendAllLeaves(u: CoinMap, ops: seq<OutPoint>, op: OutPoint)
    requires WfUtxo(u) && SpendAll(u, ops).Some? && op !in ops
    requires At(u, op.hash).IsAvailable(op.n)
    ensures var u1 := SpendAll(u, ops).value.0;
      At(u1, op.hash).IsAvailable(op.n) && At(u1, op.hash).vout[op.n] == At(u, op.hash).vout[op.n]
  {
    if ops != [] {
      var front := ops[..|ops| - 1];
      SpendAllLeaves(u, front, op);
      SpendOutLeaves(SpendAll(u, front).value.0, ops[|ops| - 1], op);
    }
  }

  /** The assertion in UpdateCoins holds: distinct available inputs can all be spent. */
  lemma {:induction false} SpendAllSucceeds(u: CoinMap, ops: seq<OutPoint>)
    requires WfUtxo(u) && HaveInputs(u, ops)
    requires forall i, j :: 0 <= i < j < |ops| ==> ops[i] != ops[j]
    ensures SpendAll(u, ops).Some?
  {
    if ops != [] {
      var front := ops[..|ops| - 1];
      SpendAllSucceeds(u, front);
      SpendAllLeaves(u, front, ops[|ops| - 1]);
    }
  }

  // ---- one transaction ------------------------------------------------------

  /** Sum of the values of the outputs `ops` in `u`. */
  function ValueIn(u: CoinMap, ops: seq<OutPoint>): int
    requires HaveInputs(u, ops)
  {
    if ops == [] then 0
    else ValueIn(u, ops[..|ops| - 1]) + At(u, ops[|ops| - 1].hash).vout[ops[|ops| - 1].n].nValue
  }

  /** An input that is mature and whose value is in range. */
  predicate InputOk(u: CoinMap, op: OutPoint, nSpendHeight: int)
    requires At(u, op.hash).IsAvailable(op.n)
  {
    var c := At(u, op.hash);
    && (c.fCoinBase ==> nSpendHeight - c.nHeight >= COINBASE_MATURITY)
    && MoneyRange(c.vout[op.n].nValue)
  }

  /** CheckInputs up to the script checks. */
  predicate CheckInputs(u: CoinMap, tx: Tx, nSpendHeight: int) {
    tx.IsCoinBase() ||
    (&& HaveInputs(u, tx.vin)
     && (forall i :: 0 <= i < |tx.vin| ==> InputOk(u, tx.vin[i], nSpendHeight))
     && (forall k :: 0 <= k <= |tx.vin| ==> HaveInputs(u, tx.vin[..k]) && MoneyRange(ValueIn(u, tx.vin[..k])))
     && ValueIn(u, tx.vin) >= ValueOf(tx.vout)
     && MoneyRange(ValueIn(u, tx.vin) - ValueOf(tx.vout)))
  }

  /** The coins once the inputs of `tx` are spent, just before its own outputs are stored. */
  function Spent(u: CoinMap, tx: Tx): CoinMap
  {
    if tx.IsCoinBase() || SpendAll(u, tx.vin).None? then u else SpendAll(u, tx.vin).value.0
  }

  /** Effect of one accepted transaction: the new coins, the undo records and the fee. */
  datatype TxEffect = TxEffect(coins: CoinMap, undo: seq<TxInUndo>, fee: int)

  function ApplyTx(u: CoinMap, tx: Tx, nHeight: int): Option<TxEffect> {
    if !CheckInputs(u, tx, nHeight) then None
    else if tx.IsCoinBase() then Some(TxEffect(Put(u, tx.txid, CoinsFromTx(tx, nHeight)), [], 0))
    else
      match SpendAll(u, tx.vin)
      case None => None
      case Some((u1, undo)) =>
        Some(TxEffect(Put(u1, tx.txid, CoinsFromTx(tx, nHeight)), undo,
                      ValueIn(u, tx.vin) - ValueOf(tx.vout)))
  }

  /** The record is what the transaction created; a negative version is not compared. */
  predicate SameOuts(outs: Coins, tx: Tx, nHeight: int) {
    (if tx.nVersion < 0 then outs.(nVersion := tx.nVersion) else outs) == CoinsFromTx(tx, nHeight)
  }

  /** DisconnectBlock's treatment of one transaction. */
  function UndoTx(u: CoinMap, tx: Tx, undo: seq<TxInUndo>, nHeight: int): (CoinMap, bool)
  {
    var same := SameOuts(At(u, tx.txid), tx, nHeight);
    var gone := u - {tx.txid};
    if tx.IsCoinBase() then (gone, same)
    else if |undo| != |tx.vin| then (gone, false)
    else
      var (u1, ok) := UnspendAll(gone, tx.vin, undo);
      (u1, same && ok)
  }

  lemma ApplyTxWf(u: CoinMap, tx: Tx, nHeight: int)
    requires WfUtxo(u) && CheckTransaction(tx) && nHeight >= 1
    requires ApplyTx(u, tx, nHeight).Some?
    ensures var e := ApplyTx(u, tx, nHeight).value;
      && WfUtxo(e.coins) && e.coins.Keys <= u.Keys + {tx.txid}
      && (!tx.IsCoinBase() ==> |e.undo| == |tx.vin|)
      && GoodUndo(e.undo)
  {
    hide CheckInputs;
    if !tx.IsCoinBase() {
      SpendAllWf(u, tx.vin);
    }
  }

  lemma PutFresh(u: CoinMap, tx: Tx, nHeight: int)
    requires CheckTransaction(tx) && tx.txid !in u
    ensures var u1 := Put(u, tx.txid, CoinsFromTx(tx, nHeight));
      At(u1, tx.txid) == CoinsFromTx(tx, nHeight) && u1 - {tx.txid} == u
  {
  }

  /** Undoing a transaction that overwrote nothing restores the coins and looks clean. */
  lemma UndoTxUndoes(u: CoinMap, tx: Tx, nHeight: int)
    requires WfUtxo(u) && CheckTransaction(tx) && nHeight >= 1
    requires ApplyTx(u, tx, nHeight).Some? && tx.txid !in Spent(u, tx)
    ensures var e := ApplyTx(u, tx, nHeight).value;
      UndoTx(e.coins, tx, e.undo, nHeight) == (u, true)
  {
    hide CheckInputs;
    if !tx.IsCoinBase() {
      UnspendAllUndoes(u, tx.vin);
    }
    PutFresh(Spent(u, tx), tx, nHeight);
  }

  // ---- one block ------------------------------------------------------------

  datatype BlockEffect = BlockEffect(coins: CoinMap, undo: seq<seq<TxInUndo>>, fees: int)

  /** The transaction loop of ConnectBlock; coinbases leave no undo record. */
  function ApplyTxs(u: CoinMap, txs: seq<Tx>, nHeight: int): Option<BlockEffect> {
    if txs == [] then Some(BlockEffect(u, [], 0))
    else
      match ApplyTxs(u, txs[..|txs| - 1], nHeight)
      case None => None
      case Some(b) =>
        var tx := txs[|txs| - 1];
        match ApplyTx(b.coins, tx, nHeight)
        case None => None
        case Some(e) =>
          Some(BlockEffect(e.coins, if tx.IsCoinBase() then b.undo else b.undo + [e.undo], b.fees + e.fee))
  }

  /** The loop of DisconnectBlock, last transaction first. */
  function UndoTxs(u: CoinMap, txs: seq<Tx>, undos: seq<seq<TxInUndo>>, nHeight: int): (CoinMap, bool)
    requires |undos| + 1 == |txs|
    decreases |txs|
  {
    var n := |txs| - 1;
    var (u1, ok1) := UndoTx(u, txs[n], if n == 0 then [] else undos[n - 1], nHeight);
    if n == 0 then (u1, ok1)
    else
      var (u2, ok2) := UndoTxs(u1, txs[..n], undos[..n - 1], nHeight);
      (u2, ok1 && ok2)
  }

  /** Every undo record holds a real output. */
  ghost predicate GoodUndo(undo: seq<TxInUndo>) {
    forall j :: 0 <= j < |undo| ==> undo[j].txout.nValue >= 0
  }

  ghost predicate GoodUndos(undos: seq<seq<TxInUndo>>) {
    forall i :: 0 <= i < |undos| ==> GoodUndo(undos[i])
  }

  /** One undo record for every input: DisconnectBlock gives up at a transaction where this fails. */
  predicate UndoFits(txs: seq<Tx>, undos: seq<seq<TxInUndo>>)
    requires |undos| + 1 == |txs|
  {
    forall i :: 1 <= i < |txs| ==> |undos[i - 1]| == |txs[i].vin|
  }

  lemma {:induction false} CleanFits(u: CoinMap, txs: seq<Tx>, undos: seq<seq<TxInUndo>>, nHeight: int)
    requires |undos| + 1 == |txs| && UndoTxs(u, txs, undos, nHeight).1
    requires forall i :: 1 <= i < |txs| ==> !txs[i].IsCoinBase()
    ensures UndoFits(txs, undos)
    decreases |txs|
  {
    hide UnspendAll, SameOuts;
    var n := |txs| - 1;
    if n > 0 {
      CleanFits(UndoTx(u, txs[n], undos[n - 1], nHeight).0, txs[..n], undos[..n - 1], nHeight);
      forall i | 1 <= i < |txs|
        ensures |undos[i - 1]| == |txs[i].vin|
      {
        if i < n {
          assert txs[..n][i] == txs[i] && undos[..n - 1][i - 1] == undos[i - 1];
        }
      }
    }
  }

  /** The same outputs under the same ids; what else a record says may differ. */
  ghost predicate SameOutputs(u: CoinMap, v: CoinMap) {
    u.Keys == v.Keys && forall h :: h in u ==> u[h].vout == v[h].vout
  }

  lemma UnspendOutAlike(u: CoinMap, v: CoinMap, op: OutPoint, undo: TxInUndo)
    requires SameOutputs(u, v)
    ensures SameOutputs(UnspendOut(u, op, undo).0, UnspendOut(v, op, undo).0)
  {
    assert At(u, op.hash).vout == At(v, op.hash).vout;
  }

  /** The outputs after an undo depend on the outputs before it alone. */
  lemma {:induction false} UnspendAllAlike(u: CoinMap, v: CoinMap, ops: seq<OutPoint>, undos: seq<TxInUndo>)
    requires |ops| == |undos| && SameOutputs(u, v)
    ensures SameOutputs(UnspendAll(u, ops, undos).0, UnspendAll(v, ops, undos).0)
    decreases |ops|
  {
    hide UnspendOut, SameOutputs;
    if ops != [] {
      var n := |ops| - 1;
      UnspendOutAlike(u, v, ops[n], undos[n]);
      UnspendAllAlike(UnspendOut(u, ops[n], undos[n]).0, UnspendOut(v, ops[n], undos[n]).0, ops[..n], undos[..n]);
    }
  }

  lemma UndoTxAlike(u: CoinMap, v: CoinMap, tx: Tx, undo: seq<TxInUndo>, nHeight: int)
    requires SameOutputs(u, v)
    ensures SameOutputs(UndoTx(u, tx, undo, nHeight).0, UndoTx(v, tx, undo, nHeight).0)
  {
    assert SameOutputs(u - {tx.txid}, v - {tx.txid});
    if !tx.IsCoinBase() && |undo| == |tx.vin| {
      UnspendAllAlike(u - {tx.txid}, v - {tx.txid}, tx.vin, undo);
    }
  }

  lemma {:induction false} UndoTxsAlike(u: CoinMap, v: CoinMap, txs: seq<Tx>, undos: seq<seq<TxInUndo>>, nHeight: int)
    requires |undos| + 1 == |txs| && SameOutputs(u, v)
    ensures SameOutputs(UndoTxs(u, txs, undos, nHeight).0, UndoTxs(v, txs, undos, nHeight).0)
    decreases |txs|
  {
    hide UndoTx, SameOutputs;
    var n := |txs| - 1;
    var undo := if n == 0 then [] else undos[n - 1];
    UndoTxAlike(u, v, txs[n], undo, nHeight);
    if n > 0 {
      UndoTxsAlike(UndoTx(u, txs[n], undo, nHeight).0, UndoTx(v, txs[n], undo, nHeight).0, txs[..n], undos[..n - 1],
        nHeight);
    }
  }

  lemma SameOutputsRefl(u: CoinMap)
    ensures SameOutputs(u, u)
  {
  }

  lemma SameOutputsThrough(u: CoinMap, v: CoinMap, w: CoinMap)
    requires SameOutputs(u, v) && SameOutputs(v, w)
    ensures SameOutputs(u, w)
  {
  }

  /** The BIP 30 rule: no transaction of the block has unspent outputs already. */
  predicate Bip30(u: CoinMap, txs: seq<Tx>) {
    forall i :: 0 <= i < |txs| ==> txs[i].txid !in u
  }

  /** What one connected block keeps true, and what its undo data looks like. */
  lemma {:induction false} ApplyTxsWf(u: CoinMap, txs: seq<Tx>, nHeight: int)
    requires WfUtxo(u) && nHeight >= 1
    requires forall i :: 0 <= i < |txs| ==> CheckTransaction(txs[i])
    requires ApplyTxs(u, txs, nHeight).Some?
    ensures var b := ApplyTxs(u, txs, nHeight).value;
      && WfUtxo(b.coins) && GoodUndos(b.undo)
      && (forall h :: h in b.coins ==> h in u || exists i :: 0 <= i < |txs| && txs[i].txid == h)
  {
    hide CheckInputs, CheckTransaction;
    if txs != [] {
      var front := txs[..|txs| - 1];
      ApplyTxsWf(u, front, nHeight);
      ApplyTxWf(ApplyTxs(u, front, nHeight).value.coins, txs[|txs| - 1], nHeight);
    }
  }

  /** One undo list per transaction that is not a coinbase. */
  lemma {:induction false} ApplyTxsFits(u: CoinMap, txs: seq<Tx>, nHeight: int)
    requires txs != [] && txs[0].IsCoinBase()
    requires forall i :: 1 <= i < |txs| ==> !txs[i].IsCoinBase()
    requires ApplyTxs(u, txs, nHeight).Some?
    ensures |ApplyTxs(u, txs, nHeight).value.undo| + 1 == |txs|
  {
    hide ApplyTx;
    var n := |txs| - 1;
    if n == 0 {
      assert txs[..0] == [];
    } else {
      ApplyTxsFits(u, txs[..n], nHeight);
    }
  }

  /** No transaction of the block overwrites unspent outputs of its own id at its turn. */
  ghost predicate FreshAlong(u: CoinMap, txs: seq<Tx>, nHeight: int)
    requires ApplyTxs(u, txs, nHeight).Some?
  {
    txs == [] ||
    (&& FreshAlong(u, txs[..|txs| - 1], nHeight)
     && txs[|txs| - 1].txid !in Spent(ApplyTxs(u, txs[..|txs| - 1], nHeight).value.coins, txs[|txs| - 1]))
  }

  /** The BIP 30 check before the loop and the unique ids rule out every overwrite inside the loop. */
  lemma {:induction false} Bip30IsFresh(u: CoinMap, txs: seq<Tx>, nHeight: int)
    requires WfUtxo(u) && nHeight >= 1 && Bip30(u, txs)
    requires forall i :: 0 <= i < |txs| ==> CheckTransaction(txs[i])
    requires forall i, j :: 0 <= i < j < |txs| ==> txs[i].txid != txs[j].txid
    requires ApplyTxs(u, txs, nHeight).Some?
    ensures FreshAlong(u, txs, nHeight)
  {
    hide CheckInputs, CheckTransaction, SpendAll;
    if txs != [] {
      var n := |txs| - 1;
      Bip30IsFresh(u, txs[..n], nHeight);
      ApplyTxsWf(u, txs[..n], nHeight);
      var b := ApplyTxs(u, txs[..n], nHeight).value;
      if !txs[n].IsCoinBase() {
        SpendAllWf(b.coins, txs[n].vin);
      }
    }
  }

  lemma CheckBlockFront(txs: seq<Tx>)
    requires CheckBlock(txs) && |txs| > 1
    ensures CheckBlock(txs[..|txs| - 1])
  {
  }

  /** Disconnecting a block with the undo data of its own connection restores the coins exactly and
      reports clean, whatever the block spends inside itself. */
  lemma {:induction false} UndoTxsUndoes(u: CoinMap, txs: seq<Tx>, nHeight: int)
    requires WfUtxo(u) && nHeight >= 1 && CheckBlock(txs)
    requires ApplyTxs(u, txs, nHeight).Some? && FreshAlong(u, txs, nHeight)
    ensures var b := ApplyTxs(u, txs, nHeight).value;
      |b.undo| + 1 == |txs| && UndoTxs(b.coins, txs, b.undo, nHeight) == (u, true)
  {
    hide CheckInputs, CheckTransaction, UndoTx, SpendAll, Spent;
    var n := |txs| - 1;
    var front := txs[..n];
    ApplyTxsFits(u, txs, nHeight);
    ApplyTxsWf(u, front, nHeight);
    var b1 := ApplyTxs(u, front, nHeight).value;
    var b := ApplyTxs(u, txs, nHeight).value;
    UndoTxUndoes(b1.coins, txs[n], nHeight);
    var e := ApplyTx(b1.coins, txs[n], nHeight).value;
    if n == 0 {
      assert front == [];
    } else {
      CheckBlockFront(txs);
      UndoTxsUndoes(u, front, nHeight);
      assert b.undo == b1.undo + [e.undo];
      assert |b1.undo| == n - 1;
      assert b.undo[..n - 1] == b1.undo;
      assert UndoTx(b.coins, txs[n], b.undo[n - 1], nHeight) == (b1.coins, true);
    }
  }

  // ---- exactly when a block can be undone -------------------------------------

  predicate Has(u: CoinMap, op: OutPoint) {
    At(u, op.hash).IsAvailable(op.n)
  }

  lemma SpendOutGone(u: CoinMap, spent: OutPoint, op: OutPoint)
    requires SpendOut(u, spent).Some? && Has(SpendOut(u, spent).value.0, op)
    ensures op != spent && Has(u, op)
  {
    if op.hash == spent.hash {
      var holed := At(u, op.hash).vout[spent.n := NULL_OUT];
      assert Cleaned(holed)[op.n] == holed[op.n];
    }
  }

  /** A spent output is gone. */
  lemma {:induction false} SpendAllGone(u: CoinMap, ops: seq<OutPoint>, op: OutPoint)
    requires SpendAll(u, ops).Some? && Has(SpendAll(u, ops).value.0, op)
    ensures op !in ops && Has(u, op)
  {
    hide SpendOut, Has;
    if ops != [] {
      var front := ops[..|ops| - 1];
      SpendOutGone(SpendAll(u, front).value.0, ops[|ops| - 1], op);
      SpendAllGone(u, front, op);
    }
  }

  /** Undoing adds back the recorded inputs and nothing else. */
  lemma {:induction false} UnspendAllAddsOnly(u: CoinMap, ops: seq<OutPoint>, undos: seq<TxInUndo>, op: OutPoint)
    requires |ops| == |undos| && Has(UnspendAll(u, ops, undos).0, op)
    ensures Has(u, op) || op in ops
    decreases |ops|
  {
    if ops != [] {
      var n := |ops| - 1;
      UnspendAllAddsOnly(UnspendOut(u, ops[n], undos[n]).0, ops[..n], undos[..n], op);
    }
  }

  ghost predicate SpentBy(txs: seq<Tx>, op: OutPoint) {
    exists i :: 1 <= i < |txs| && op in txs[i].vin
  }

  lemma ApplyTxLeft(u: CoinMap, tx: Tx, nHeight: int, op: OutPoint)
    requires tx.txid != op.hash && ApplyTx(u, tx, nHeight).Some? && Has(ApplyTx(u, tx, nHeight).value.coins, op)
    ensures Has(u, op) && (tx.IsCoinBase() || op !in tx.vin)
  {
    hide CheckInputs, SpendAll;
    assert Has(Spent(u, tx), op);
    if !tx.IsCoinBase() {
      SpendAllGone(u, tx.vin, op);
    }
  }

  /** An output of an older transaction that is unspent after the block was unspent before it and
      the block does not spend it. */
  lemma {:induction false} ApplyTxsLeft(u: CoinMap, txs: seq<Tx>, nHeight: int, op: OutPoint)
    requires forall i :: 0 <= i < |txs| ==> txs[i].txid != op.hash
    requires forall i :: 1 <= i < |txs| ==> !txs[i].IsCoinBase()
    requires ApplyTxs(u, txs, nHeight).Some? && Has(ApplyTxs(u, txs, nHeight).value.coins, op)
    ensures Has(u, op) && !SpentBy(txs, op)
  {
    hide ApplyTx, Has;
    if txs != [] {
      var n := |txs| - 1;
      ApplyTxLeft(ApplyTxs(u, txs[..n], nHeight).value.coins, txs[n], nHeight, op);
      ApplyTxsLeft(u, txs[..n], nHeight, op);
      assert forall i :: 0 <= i < n ==> txs[..n][i] == txs[i];
    }
  }

  lemma UndoTxAddsOnly(u: CoinMap, tx: Tx, undo: seq<TxInUndo>, nHeight: int, op: OutPoint)
    requires Has(UndoTx(u, tx, undo, nHeight).0, op)
    ensures (op.hash != tx.txid && Has(u, op)) || (!tx.IsCoinBase() && op in tx.vin)
  {
    hide UnspendAll;
    if !tx.IsCoinBase() && |undo| == |tx.vin| {
      UnspendAllAddsOnly(u - {tx.txid}, tx.vin, undo, op);
    }
  }

  lemma {:induction false} UndoTxsAddsOnly(u: CoinMap, txs: seq<Tx>, undos: seq<seq<TxInUndo>>, nHeight: int,
      op: OutPoint)
    requires |undos| + 1 == |txs| && txs[0].IsCoinBase()
    requires Has(UndoTxs(u, txs, undos, nHeight).0, op)
    ensures Has(u, op) || SpentBy(txs, op)
    decreases |txs|
  {
    hide UndoTx, Has;
    var n := |txs| - 1;
    var u1 := UndoTx(u, txs[n], if n == 0 then [] else undos[n - 1], nHeight).0;
    if Has(u1, op) {
      UndoTxAddsOnly(u, txs[n], if n == 0 then [] else undos[n - 1], nHeight, op);
    }
    if n > 0 {
      UndoTxsAddsOnly(u1, txs[..n], undos[..n - 1], nHeight, op);
    }
  }

  /** One undo step of a block whose last transaction was fresh. */
  lemma UndoLastFresh(u: CoinMap, txs: seq<Tx>, nHeight: int)
    requires WfUtxo(u) && nHeight >= 1 && CheckBlock(txs) && |txs| > 1
    requires ApplyTxs(u, txs, nHeight).Some?
    requires var n := |txs| - 1; txs[n].txid !in Spent(ApplyTxs(u, txs[..n], nHeight).value.coins, txs[n])
    ensures var n := |txs| - 1;
      var b1 := ApplyTxs(u, txs[..n], nHeight).value;
      var b := ApplyTxs(u, txs, nHeight).value;
      && |b.undo| == n && |b1.undo| + 1 == n
      && UndoTx(b.coins, txs[n], b.undo[n - 1], nHeight) == (b1.coins, true)
      && b.undo[..n - 1] == b1.undo
  {
    hide CheckInputs, CheckTransaction, UndoTx, SpendAll, Spent;
    var n := |txs| - 1;
    ApplyTxsFits(u, txs, nHeight);
    ApplyTxsFits(u, txs[..n], nHeight);
    ApplyTxsWf(u, txs[..n], nHeight);
    UndoTxUndoes(ApplyTxs(u, txs[..n], nHeight).value.coins, txs[n], nHeight);
  }

  lemma LostOutput(u: CoinMap, tx: Tx) returns (op: OutPoint)
    requires WfUtxo(u) && (tx.IsCoinBase() || SpendAll(u, tx.vin).Some?) && tx.txid in Spent(u, tx)
    ensures op.hash == tx.txid && Has(u, op) && (tx.IsCoinBase() || op !in tx.vin)
  {
    var sp := Spent(u, tx);
    if !tx.IsCoinBase() {
      SpendAllWf(u, tx.vin);
    }
    op := OutPoint(tx.txid, |sp[tx.txid].vout| - 1);
    assert Has(sp, op);
    if !tx.IsCoinBase() {
      SpendAllGone(u, tx.vin, op);
    }
  }

  /** If the last transaction overwrites unspent outputs of its own id, one of them is lost for good. */
  lemma OverwriteLoses(u: CoinMap, txs: seq<Tx>, nHeight: int) returns (op: OutPoint)
    requires WfUtxo(u) && nHeight >= 1 && CheckBlock(txs)
    requires ApplyTxs(u, txs, nHeight).Some?
    requires var n := |txs| - 1; txs[n].txid in Spent(ApplyTxs(u, txs[..n], nHeight).value.coins, txs[n])
    ensures var b := ApplyTxs(u, txs, nHeight).value;
      |b.undo| + 1 == |txs| && Has(u, op) && !Has(UndoTxs(b.coins, txs, b.undo, nHeight).0, op)
  {
    hide CheckInputs, CheckTransaction, SpendAll, UnspendAll;
    var n := |txs| - 1;
    var front := txs[..n];
    var b1 := ApplyTxs(u, front, nHeight).value;
    var b := ApplyTxs(u, txs, nHeight).value;
    ApplyTxsFits(u, txs, nHeight);
    ApplyTxsWf(u, front, nHeight);
    var tx := txs[n];
    op := LostOutput(b1.coins, tx);
    assert Has(b1.coins, op) && (tx.IsCoinBase() || op !in tx.vin);
    ApplyTxsLeft(u, front, nHeight, op);
    if n > 0 {
      var u1 := UndoTx(b.coins, tx, b.undo[n - 1], nHeight).0;
      if Has(u1, op) {
        UndoTxAddsOnly(b.coins, tx, b.undo[n - 1], nHeight, op);
        assert false;
      }
      if Has(UndoTxs(u1, front, b.undo[..n - 1], nHeight).0, op) {
        UndoTxsAddsOnly(u1, front, b.undo[..n - 1], nHeight, op);
        assert false;
      }
    }
  }

  /** Main result: a connected block can be undone exactly when none of its transactions overwrote
      unspent outputs of its own id, and then the undo reports clean. */
  lemma {:induction false} UndoTxsExact(u: CoinMap, txs: seq<Tx>, nHeight: int)
    requires WfUtxo(u) && nHeight >= 1 && CheckBlock(txs)
    requires ApplyTxs(u, txs, nHeight).Some?
    ensures var b := ApplyTxs(u, txs, nHeight).value;
      && |b.undo| + 1 == |txs|
      && (UndoTxs(b.coins, txs, b.undo, nHeight).0 == u <==> FreshAlong(u, txs, nHeight))
      && (FreshAlong(u, txs, nHeight) ==> UndoTxs(b.coins, txs, b.undo, nHeight).1)
  {
    hide CheckInputs, CheckTransaction, SpendAll, UndoTx, Spent;
    var n := |txs| - 1;
    ApplyTxsFits(u, txs, nHeight);
    assert txs[..0] == [] && FreshAlong(u, txs[..0], nHeight);
    if FreshAlong(u, txs, nHeight) {
      UndoTxsUndoes(u, txs, nHeight);
    } else if txs[n].txid in Spent(ApplyTxs(u, txs[..n], nHeight).value.coins, txs[n]) {
      var op := OverwriteLoses(u, txs, nHeight);
    } else {
      UndoLastFresh(u, txs, nHeight);
      CheckBlockFront(txs);
      UndoTxsExact(u, txs[..n], nHeight);
    }
  }

  // ---- where a record comes from ------------------------------------------------------------------------

  /** Height, coinbase flag and version of a record stay while its outputs are spent. */
  predicate SameOrigin(u: CoinMap, v: CoinMap, h: Hash)
    requires h in v
  {
    h in u && u[h].nHeight == v[h].nHeight && u[h].fCoinBase == v[h].fCoinBase && u[h].nVersion == v[h].nVersion
  }

  lemma {:induction false} SpendAllOrigin(u: CoinMap, ops: seq<OutPoint>, h: Hash)
    requires SpendAll(u, ops).Some? && h in SpendAll(u, ops).value.0
    ensures SameOrigin(u, SpendAll(u, ops).value.0, h)
  {
    if ops != [] {
      var n := |ops| - 1;
      var u1 := SpendAll(u, ops[..n]).value.0;
      assert h in u1 && SameOrigin(u1, SpendAll(u, ops).value.0, h);
      SpendAllOrigin(u, ops[..n], h);
    }
  }

  lemma ApplyTxOrigin(u: CoinMap, tx: Tx, nHeight: int, h: Hash)
    requires ApplyTx(u, tx, nHeight).Some? && h in ApplyTx(u, tx, nHeight).value.coins
    ensures var v := ApplyTx(u, tx, nHeight).value.coins;
      if h == tx.txid then v[h] == Coins(tx.IsCoinBase(), tx.vout, nHeight, tx.nVersion) else SameOrigin(u, v, h)
  {
    hide CheckInputs;
    if h != tx.txid && !tx.IsCoinBase() {
      SpendAllOrigin(u, tx.vin, h);
    }
  }
}
