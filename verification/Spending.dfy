/** When a transaction may be connected, said output by output: the reference for CheckInputs and UpdateCoins
    in src/main.cpp. */
module Spending {
  import opened CoinTypes
  import opened Sums
  import opened Utxo
  import opened Supply

  /** The output is there and not spent. */
  predicate Unspent(u: CoinMap, op: OutPoint) {
    op.hash in u && op.n < |u[op.hash].vout| && u[op.hash].vout[op.n].nValue != -1
  }

  /** Unspent, and 60 blocks deep if a coinbase made it. */
  predicate Ready(u: CoinMap, op: OutPoint, nSpendHeight: int) {
    Unspent(u, op) && (u[op.hash].fCoinBase ==> nSpendHeight >= u[op.hash].nHeight + 60)
  }

  function Amount(u: CoinMap, op: OutPoint): int {
    if Unspent(u, op) then u[op.hash].vout[op.n].nValue else 0
  }

  ghost function Amounts(u: CoinMap, ops: seq<OutPoint>): map<int, int> {
    map i | 0 <= i < |ops| :: Amount(u, ops[i])
  }

  /** What the outputs named are worth together. */
  ghost function Paid(u: CoinMap, ops: seq<OutPoint>): int {
    Sum(Amounts(u, ops))
  }

  ghost function Values(vout: seq<TxOut>): map<int, int> {
    map j | 0 <= j < |vout| :: vout[j].nValue
  }

  /** What the outputs are worth together. */
  ghost function Sent(vout: seq<TxOut>): int {
    Sum(Values(vout))
  }

  lemma {:induction false} SentIs(vout: seq<TxOut>)
    requires forall j :: 0 <= j < |vout| ==> vout[j].nValue >= 0
    ensures Sent(vout) == ValueOf(vout)
  {
    if vout == [] {
      assert Values(vout) == map[];
    } else {
      var n := |vout| - 1;
      SentIs(vout[..n]);
      SumRemove(Values(vout), n);
      assert Values(vout) - {n} == Values(vout[..n]);
    }
  }

  lemma PaidNext(u: CoinMap, ops: seq<OutPoint>)
    requires ops != []
    ensures Paid(u, ops) == Paid(u, ops[..|ops| - 1]) + Amount(u, ops[|ops| - 1])
  {
    var n := |ops| - 1;
    hide Amount;
    SumRemove(Amounts(u, ops), n);
    assert Amounts(u, ops) - {n} == Amounts(u, ops[..n]);
  }

  lemma {:induction false} PaidIs(u: CoinMap, ops: seq<OutPoint>)
    requires HaveInputs(u, ops)
    ensures Paid(u, ops) == ValueIn(u, ops)
  {
    if ops == [] {
      assert Amounts(u, ops) == map[];
    } else {
      var n := |ops| - 1;
      PaidIs(u, ops[..n]);
      PaidNext(u, ops);
      assert At(u, ops[n].hash).IsAvailable(ops[n].n);
      hide Paid;
    }
  }

  /** The inputs are all there, in range, and cover what is sent. */
  ghost predicate Covered(u: CoinMap, tx: Tx, nSpendHeight: int) {
    && (forall i :: 0 <= i < |tx.vin| ==> Ready(u, tx.vin[i], nSpendHeight) && 0 <= Amount(u, tx.vin[i]))
    && Sent(tx.vout) <= Paid(u, tx.vin) <= MAX_MONEY
  }

  lemma {:induction false} PaidFront(u: CoinMap, ops: seq<OutPoint>, k: nat)
    requires k <= |ops| && forall i :: 0 <= i < |ops| ==> 0 <= Amount(u, ops[i])
    ensures 0 <= Paid(u, ops[..k]) <= Paid(u, ops)
    ensures k < |ops| ==> Amount(u, ops[k]) <= Paid(u, ops)
  {
    SumAtMost(map[], Amounts(u, ops[..k]));
    SumAtMost(Amounts(u, ops[..k]), Amounts(u, ops));
    if k < |ops| {
      SumRemove(Amounts(u, ops), k);
      SumAtMost(map[], Amounts(u, ops) - {k});
    }
  }

  /** The tests of CheckInputs, running total and all, come to that. */
  lemma CheckInputsIff(u: CoinMap, tx: Tx, nSpendHeight: int)
    requires CheckTransaction(tx) && !tx.IsCoinBase()
    ensures CheckInputs(u, tx, nSpendHeight) <==> Covered(u, tx, nSpendHeight)
  {
    SentIs(tx.vout);
    SumAtMost(map[], Values(tx.vout));
    if HaveInputs(u, tx.vin) {
      forall i | 0 <= i < |tx.vin|
        ensures Unspent(u, tx.vin[i])
        ensures InputOk(u, tx.vin[i], nSpendHeight) <==>
          Ready(u, tx.vin[i], nSpendHeight) && 0 <= Amount(u, tx.vin[i]) <= MAX_MONEY
      {
        assert At(u, tx.vin[i].hash).IsAvailable(tx.vin[i].n);
      }
      PaidIs(u, tx.vin);
      if Covered(u, tx, nSpendHeight) {
        AllInRange(u, tx);
      }
      if CheckInputs(u, tx, nSpendHeight) {
        assert MoneyRange(ValueIn(u, tx.vin[..|tx.vin|])) && tx.vin[..|tx.vin|] == tx.vin;
      }
      hide Sum, ValueIn, ValueOf, CheckTransaction;
    } else {
      var i :| 0 <= i < |tx.vin| && !At(u, tx.vin[i].hash).IsAvailable(tx.vin[i].n);
      assert !Unspent(u, tx.vin[i]);
    }
  }

  lemma AllInRange(u: CoinMap, tx: Tx)
    requires HaveInputs(u, tx.vin) && Paid(u, tx.vin) <= MAX_MONEY
    requires forall i :: 0 <= i < |tx.vin| ==> 0 <= Amount(u, tx.vin[i])
    ensures forall i :: 0 <= i < |tx.vin| ==> Amount(u, tx.vin[i]) <= MAX_MONEY
    ensures forall k :: 0 <= k <= |tx.vin| ==> HaveInputs(u, tx.vin[..k]) && MoneyRange(ValueIn(u, tx.vin[..k]))
  {
    forall k | 0 <= k <= |tx.vin|
      ensures HaveInputs(u, tx.vin[..k]) && MoneyRange(ValueIn(u, tx.vin[..k]))
      ensures k < |tx.vin| ==> Amount(u, tx.vin[k]) <= MAX_MONEY
    {
      PaidFront(u, tx.vin, k);
      PaidIs(u, tx.vin[..k]);
    }
  }

  // ---- on well-formed coins ------------------------------------------------------------------------

  lemma TotalNotNegative(u: CoinMap)
    requires WfUtxo(u)
    ensures Total(u) >= 0
  {
    forall h | h in u
      ensures ValueOf(u[h].vout) >= 0
    {
      ValueOfNonNegative(u[h].vout);
    }
    SumAtMost(map[], Supply.Values(u));
  }

  /** Different unspent outputs are worth no more than all of them. */
  lemma PaidAtMost(u: CoinMap, ops: seq<OutPoint>)
    requires WfUtxo(u) && forall i :: 0 <= i < |ops| ==> Unspent(u, ops[i])
    requires forall i, j :: 0 <= i < j < |ops| ==> ops[i] != ops[j]
    ensures HaveInputs(u, ops) && Paid(u, ops) <= Total(u)
  {
    forall i | 0 <= i < |ops|
      ensures At(u, ops[i].hash).IsAvailable(ops[i].n)
    {
      assert Unspent(u, ops[i]);
    }
    hide Total;
    PaidIs(u, ops);
    SpendAllSucceeds(u, ops);
    TotalSpendAll(u, ops);
    SpendAllWf(u, ops);
    TotalNotNegative(SpendAll(u, ops).value.0);
  }

  lemma ReadyInputs(u: CoinMap, tx: Tx, nHeight: int)
    requires WfUtxo(u) && CheckTransaction(tx) && forall i :: 0 <= i < |tx.vin| ==> Ready(u, tx.vin[i], nHeight)
    ensures HaveInputs(u, tx.vin) && Paid(u, tx.vin) == ValueIn(u, tx.vin) <= Total(u)
    ensures SpendAll(u, tx.vin).Some? && forall i :: 0 <= i < |tx.vin| ==> 0 <= Amount(u, tx.vin[i])
  {
    hide Total, Sum, Paid, ValueOf, ValueIn, SpendAll;
    PaidAtMost(u, tx.vin);
    PaidIs(u, tx.vin);
    SpendAllSucceeds(u, tx.vin);
    forall i | 0 <= i < |tx.vin|
      ensures 0 <= Amount(u, tx.vin[i])
    {
      assert Ready(u, tx.vin[i], nHeight) && CleanOuts(u[tx.vin[i].hash].vout);
    }
  }

  /** Main result: on well-formed coins within the limit of money, a transaction applies if and only if each input is
      unspent and, from a coinbase, 60 blocks deep, and together they are worth what the outputs are or more. The fee
      is the difference. */
  lemma AppliesIff(u: CoinMap, tx: Tx, nHeight: int)
    requires WfUtxo(u) && Total(u) <= MAX_MONEY && CheckTransaction(tx) && !tx.IsCoinBase()
    ensures ApplyTx(u, tx, nHeight).Some? <==>
      (forall i :: 0 <= i < |tx.vin| ==> Ready(u, tx.vin[i], nHeight)) && Sent(tx.vout) <= Paid(u, tx.vin)
    ensures ApplyTx(u, tx, nHeight).Some? ==> ApplyTx(u, tx, nHeight).value.fee == Paid(u, tx.vin) - Sent(tx.vout)
  {
    CheckInputsIff(u, tx, nHeight);
    SentIs(tx.vout);
    hide Total, Paid, Sent, ValueOf, CheckInputs, ValueIn, CheckTransaction, WfUtxo, SpendAll, Ready, Amount,
      HaveInputs;
    if forall i :: 0 <= i < |tx.vin| ==> Ready(u, tx.vin[i], nHeight) {
      ReadyInputs(u, tx, nHeight);
    }
  }

  /** A transaction that leaves no fee applies like any other. */
  lemma FreeApplies(u: CoinMap, tx: Tx, nHeight: int)
    requires WfUtxo(u) && Total(u) <= MAX_MONEY && CheckTransaction(tx) && !tx.IsCoinBase()
    requires forall i :: 0 <= i < |tx.vin| ==> Ready(u, tx.vin[i], nHeight)
    requires Sent(tx.vout) == Paid(u, tx.vin)
    ensures ApplyTx(u, tx, nHeight).Some? && ApplyTx(u, tx, nHeight).value.fee == 0
  {
    AppliesIff(u, tx, nHeight);
  }

  /** From `u` to `v`, at one output: unspent now are the outputs of the transaction itself and, of others, what was
      unspent and is not among its inputs. Of each that is left the record says what it said. */
  ghost predicate MovedAt(u: CoinMap, v: CoinMap, tx: Tx, nHeight: int, op: OutPoint) {
    && (Unspent(v, op) <==>
        if op.hash == tx.txid then op.n < |tx.vout| else Unspent(u, op) && (tx.IsCoinBase() || op !in tx.vin))
    && (Unspent(v, op) ==>
        v[op.hash].vout[op.n] == if op.hash == tx.txid then tx.vout[op.n] else u[op.hash].vout[op.n])
    && (Unspent(v, op) ==>
        if op.hash == tx.txid
        then v[op.hash].nHeight == nHeight && (v[op.hash].fCoinBase <==> tx.IsCoinBase())
        else v[op.hash].nHeight == u[op.hash].nHeight && v[op.hash].fCoinBase == u[op.hash].fCoinBase)
  }

  ghost predicate Moved(u: CoinMap, v: CoinMap, tx: Tx, nHeight: int) {
    forall op :: MovedAt(u, v, tx, nHeight, op)
  }

  /** What applying leaves, output by output. */
  lemma AppliesTo(u: CoinMap, tx: Tx, nHeight: int)
    requires WfUtxo(u) && CheckTransaction(tx) && ApplyTx(u, tx, nHeight).Some?
    ensures Moved(u, ApplyTx(u, tx, nHeight).value.coins, tx, nHeight)
  {
    forall op
      ensures MovedAt(u, ApplyTx(u, tx, nHeight).value.coins, tx, nHeight, op)
    {
      AppliesToOutput(u, tx, nHeight, op);
    }
  }

  lemma AppliesToOutput(u: CoinMap, tx: Tx, nHeight: int, op: OutPoint)
    requires WfUtxo(u) && CheckTransaction(tx) && ApplyTx(u, tx, nHeight).Some?
    ensures MovedAt(u, ApplyTx(u, tx, nHeight).value.coins, tx, nHeight, op)
  {
    hide CheckInputs, SpendAll;
    var v := ApplyTx(u, tx, nHeight).value.coins;
    if op.hash in v {
      ApplyTxOrigin(u, tx, nHeight, op.hash);
    }
    if !tx.IsCoinBase() {
      if Unspent(SpendAll(u, tx.vin).value.0, op) {
        SpendAllGone(u, tx.vin, op);
      }
      if Unspent(u, op) && op !in tx.vin {
        SpendAllLeaves(u, tx.vin, op);
      }
    }
  }
}
