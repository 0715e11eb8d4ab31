/** Transactions, outputs and the pruned per-transaction coin record (src/main.h). */
module CoinTypes {
  import opened Basics

  /** A 256-bit hash, as a number. */
  type Hash = nat
  type Script = seq<byte>

  const COIN := 100_000_000
  const MAX_MONEY := 10_000_000 * COIN
  const COINBASE_MATURITY := 60
  const NULL_N := 0xFFFF_FFFF

  predicate MoneyRange(v: int) {
    0 <= v <= MAX_MONEY
  }

  datatype OutPoint = OutPoint(hash: Hash, n: nat) {
    predicate IsNull() {
      hash == 0 && n == NULL_N
    }
  }

  datatype TxOut = TxOut(nValue: int, scriptPubKey: Script) {
    predicate IsNull() {
      nValue == -1
    }
  }

  const NULL_OUT := TxOut(-1, [])

  /** `txid` carries GetHash(); nothing below assumes that distinct transactions hash differently. */
  datatype Tx = Tx(txid: Hash, nVersion: int, vin: seq<OutPoint>, vout: seq<TxOut>) {
    predicate IsCoinBase() {
      |vin| == 1 && vin[0].IsNull()
    }
  }

  /** Sum of the values of a list of outputs; spent (null) outputs count nothing. */
  function ValueOf(vout: seq<TxOut>): int {
    if vout == [] then 0
    else ValueOf(vout[..|vout| - 1])
         + (if vout[|vout| - 1].IsNull() then 0 else vout[|vout| - 1].nValue)
  }

  /** CheckTransaction, without its script and size rules. */
  predicate CheckTransaction(tx: Tx) {
    && tx.vin != [] && tx.vout != []
    && (forall i :: 0 <= i < |tx.vout| ==> MoneyRange(tx.vout[i].nValue))
    && ValueOf(tx.vout) <= MAX_MONEY
    && (forall i, j :: 0 <= i < j < |tx.vin| ==> tx.vin[i] != tx.vin[j])
    && (!tx.IsCoinBase() ==> forall i :: 0 <= i < |tx.vin| ==> !tx.vin[i].IsNull())
  }

  /** The part of CheckBlock that bears on the coin state. */
  predicate CheckBlock(vtx: seq<Tx>) {
    && vtx != [] && vtx[0].IsCoinBase()
    && (forall i :: 1 <= i < |vtx| ==> !vtx[i].IsCoinBase())
    && (forall i :: 0 <= i < |vtx| ==> CheckTransaction(vtx[i]))
    && (forall i, j :: 0 <= i < j < |vtx| ==> vtx[i].txid != vtx[j].txid)
  }

  /** CCoins as a value: what is left unspent of one transaction. */
  datatype Coins = Coins(fCoinBase: bool, vout: seq<TxOut>, nHeight: int, nVersion: int) {
    predicate IsAvailable(n: nat) {
      n < |vout| && !vout[n].IsNull()
    }

    predicate IsPruned() {
      forall i :: 0 <= i < |vout| ==> vout[i].IsNull()
    }
  }

  const EMPTY_COINS := Coins(false, [], 0, 0)

  function CoinsFromTx(tx: Tx, nHeight: int): Coins {
    Coins(tx.IsCoinBase(), tx.vout, nHeight, tx.nVersion)
  }

  datatype TxInUndo = TxInUndo(txout: TxOut, fCoinBase: bool, nHeight: int, nVersion: int)

  /** `vout` with its trailing spent outputs dropped. */
  function Cleaned(vout: seq<TxOut>): (r: seq<TxOut>)
    ensures r <= vout
    ensures r != [] ==> !r[|r| - 1].IsNull()
    ensures forall i :: |r| <= i < |vout| ==> vout[i].IsNull()
  {
    if vout != [] && vout[|vout| - 1].IsNull() then Cleaned(vout[..|vout| - 1]) else vout
  }

  /** No trailing spent output, every spent output blank, every other one worth at least 0. */
  ghost predicate CleanOuts(vout: seq<TxOut>) {
    && (vout != [] ==> !vout[|vout| - 1].IsNull())
    && (forall i :: 0 <= i < |vout| ==> vout[i] == NULL_OUT || vout[i].nValue >= 0)
  }

  /** CCoins::Spend: the undo record and the coins left. */
  function Spend(c: Coins, n: nat): Option<(TxInUndo, Coins)> {
    if !c.IsAvailable(n) then None
    else
      var left := Cleaned(c.vout[n := NULL_OUT]);
      var undo := if left == [] then TxInUndo(c.vout[n], c.fCoinBase, c.nHeight, c.nVersion)
                  else TxInUndo(c.vout[n], false, 0, 0);
      Some((undo, c.(vout := left)))
  }

  /** What Spend takes and leaves: an output that is there; with the last one the record goes into the undo data. */
  lemma SpendIs(c: Coins, n: nat)
    ensures Spend(c, n).Some? <==> n < |c.vout| && !c.vout[n].IsNull()
    ensures Spend(c, n).Some? ==>
      var (undo, left) := Spend(c, n).value;
      && undo == (if forall i :: 0 <= i < |c.vout| && i != n ==> c.vout[i].IsNull()
                  then TxInUndo(c.vout[n], c.fCoinBase, c.nHeight, c.nVersion)
                  else TxInUndo(c.vout[n], false, 0, 0))
      && left == c.(vout := left.vout)
      && (forall i: nat :: i < |left.vout| && !left.vout[i].IsNull() <==>
                           i < |c.vout| && !c.vout[i].IsNull() && i != n)
      && (forall i: nat :: i < |left.vout| && i != n ==> left.vout[i] == c.vout[i])
  {
    if n < |c.vout| && !c.vout[n].IsNull() {
      var holed := c.vout[n := NULL_OUT];
      var left := Cleaned(holed);
      assert holed[n].IsNull() && forall i :: 0 <= i < |c.vout| && i != n ==> holed[i] == c.vout[i];
      assert forall i :: 0 <= i < |left| ==> left[i] == holed[i];
      if left != [] {
        assert holed[|left| - 1] == c.vout[|left| - 1] && !c.vout[|left| - 1].IsNull();
      }
      forall i: nat
        ensures i < |left| && !left[i].IsNull() <==> i < |c.vout| && !c.vout[i].IsNull() && i != n
      {
        assert i < |c.vout| && i >= |left| ==> holed[i].IsNull();
      }
    }
  }

  /** std::vector::resize upwards: pads with blank outputs. */
  function Resized(vout: seq<TxOut>, n: nat): (r: seq<TxOut>)
    ensures |r| == if |vout| < n then n else |vout|
    ensures forall i :: 0 <= i < |r| ==> r[i] == if i < |vout| then vout[i] else NULL_OUT
  {
    if |vout| < n then vout + seq(n - |vout|, _ => NULL_OUT) else vout
  }

  /** What DisconnectBlock does to one coin record: the record and whether nothing looked wrong. */
  function Unspend(c: Coins, n: nat, undo: TxInUndo): (Coins, bool) {
    var start := if undo.nHeight != 0 then Coins(undo.fCoinBase, [], undo.nHeight, undo.nVersion) else c;
    ((start.(vout := Resized(start.vout, n + 1)[n := undo.txout])),
     (undo.nHeight != 0 <==> c.IsPruned()) && !start.IsAvailable(n))
  }

  /** Putting back what Spend took gives the record before, and looks clean. */
  lemma UnspendUndoesSpend(c: Coins, n: nat)
    requires CleanOuts(c.vout) && c.nHeight != 0 && c.IsAvailable(n)
    ensures var (undo, left) := Spend(c, n).value; Unspend(left, n, undo) == (c, true)
  {
    var holed := c.vout[n := NULL_OUT];
    var (undo, left) := Spend(c, n).value;
    assert left.vout == holed[..|left.vout|];
    assert forall i :: 0 <= i < |left.vout| ==> left.vout[i] == holed[i];
    assert |c.vout| - 1 != n ==> holed[|c.vout| - 1] == c.vout[|c.vout| - 1];
    var (back, ok) := Unspend(left, n, undo);
    assert back.vout == c.vout;
    assert left.vout != [] ==> !left.vout[|left.vout| - 1].IsNull();
  }
}
