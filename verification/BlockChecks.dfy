/** The checks of a transaction and a block that need no context (CTransaction::CheckTransaction and CBlock::CheckBlock
    in src/main.cpp). */
module BlockChecks {
  import opened CoinTypes
  import opened Sums
  import opened Spending

  /** What a well-formed transaction is: it has inputs and outputs, the outputs are worth 0 to 10,000,000 coins each and
      together, no input is named twice, and only the single input of a coinbase is null. */
  ghost predicate WellFormed(tx: Tx) {
    && |tx.vin| > 0 && |tx.vout| > 0
    && (forall j :: 0 <= j < |tx.vout| ==> tx.vout[j].nValue >= 0)
    && Sent(tx.vout) <= 1_000_000_000_000_000
    && |set op | op in tx.vin| == |tx.vin|
    && (OutPoint(0, 0xFFFF_FFFF) in tx.vin ==> |tx.vin| == 1)
  }

  function Distinct<T>(s: seq<T>): set<T> {
    set x | x in s
  }

  /** A list without repetition has as many elements as places. */
  lemma {:induction false} DistinctSize<T>(s: seq<T>)
    ensures |Distinct(s)| <= |s|
    ensures |Distinct(s)| == |s| <==> forall i, j :: 0 <= i < j < |s| ==> s[i] != s[j]
  {
    if s != [] {
      var n := |s| - 1;
      var front := s[..n];
      DistinctSize(front);
      assert s == front + [s[n]];
      assert Distinct(s) == Distinct(front) + {s[n]};
      if s[n] in front {
        assert Distinct(s) == Distinct(front);
        var i :| 0 <= i < n && front[i] == s[n];
        assert s[i] == s[n];
      } else {
        assert forall i :: 0 <= i < n ==> s[i] == front[i] && s[i] in front;
      }
    }
  }

  lemma OutputsInRange(vout: seq<TxOut>)
    requires (forall j :: 0 <= j < |vout| ==> vout[j].nValue >= 0) && Sent(vout) <= MAX_MONEY
    ensures forall j :: 0 <= j < |vout| ==> vout[j].nValue <= MAX_MONEY
  {
    forall j | 0 <= j < |vout|
      ensures vout[j].nValue <= MAX_MONEY
    {
      SumRemove(Values(vout), j);
      SumAtMost(map[], Values(vout) - {j});
    }
  }

  lemma WellFormedIff(tx: Tx)
    ensures CheckTransaction(tx) <==> WellFormed(tx)
  {
    DistinctSize(tx.vin);
    assert Distinct(tx.vin) == set op | op in tx.vin;
    if forall j :: 0 <= j < |tx.vout| ==> tx.vout[j].nValue >= 0 {
      SentIs(tx.vout);
      if Sent(tx.vout) <= MAX_MONEY {
        OutputsInRange(tx.vout);
      }
    }
    assert OutPoint(0, 0xFFFF_FFFF).IsNull();
    hide Sent, ValueOf, Distinct;
  }

  method CheckTx(tx: Tx) returns (ok: bool)
    ensures ok <==> WellFormed(tx)
  {
    WellFormedIff(tx);
    hide WellFormed, Sent;
    if tx.vin == [] || tx.vout == [] {
      return false;
    }
    var nValueOut := 0;
    for j := 0 to |tx.vout|
      invariant forall k :: 0 <= k < j ==> MoneyRange(tx.vout[k].nValue)
      invariant nValueOut == ValueOf(tx.vout[..j]) && 0 <= nValueOut <= MAX_MONEY
    {
      assert tx.vout[..j + 1][..j] == tx.vout[..j];
      if tx.vout[j].nValue < 0 {
        return false;
      }
      if tx.vout[j].nValue > MAX_MONEY {
        return false;
      }
      nValueOut := nValueOut + tx.vout[j].nValue;
      if !MoneyRange(nValueOut) {
        ValueOfFront(tx.vout, j + 1);
        return false;
      }
    }
    assert tx.vout[..|tx.vout|] == tx.vout;
    var vInOutPoints: set<OutPoint> := {};
    for i := 0 to |tx.vin|
      invariant vInOutPoints == Distinct(tx.vin[..i])
      invariant forall k, l :: 0 <= k < l < i ==> tx.vin[k] != tx.vin[l]
    {
      if tx.vin[i] in vInOutPoints {
        var k :| 0 <= k < i && tx.vin[k] == tx.vin[i];
        return false;
      }
      vInOutPoints := vInOutPoints + {tx.vin[i]};
      assert tx.vin[..i + 1] == tx.vin[..i] + [tx.vin[i]];
    }
    if !tx.IsCoinBase() {
      for i := 0 to |tx.vin|
        invariant forall k :: 0 <= k < i ==> !tx.vin[k].IsNull()
      {
        if tx.vin[i].IsNull() {
          return false;
        }
      }
    }
    return true;
  }

  /** More outputs are not worth less, if none is negative. */
  lemma {:induction false} ValueOfFront(vout: seq<TxOut>, k: nat)
    requires k <= |vout| && ValueOf(vout[..k]) > MAX_MONEY
    ensures !((forall j :: 0 <= j < |vout| ==> vout[j].nValue >= 0) && ValueOf(vout) <= MAX_MONEY)
    decreases |vout| - k
  {
    if k < |vout| {
      assert vout[..k + 1][..k] == vout[..k];
      if vout[k].nValue >= 0 {
        ValueOfFront(vout, k + 1);
      }
    } else {
      assert vout[..k] == vout;
    }
  }

  // ---- blocks ------------------------------------------------------------------------

  /** What a well-formed block is: well-formed transactions with different ids, the first of them and no other a
      coinbase. */
  ghost predicate WellFormedBlock(vtx: seq<Tx>) {
    && |vtx| > 0
    && (forall i :: 0 <= i < |vtx| ==> WellFormed(vtx[i]) && (vtx[i].vin == [OutPoint(0, 0xFFFF_FFFF)] <==> i == 0))
    && |set tx | tx in vtx :: tx.txid| == |vtx|
  }

  function TxIds(vtx: seq<Tx>): (ids: seq<Hash>)
    ensures |ids| == |vtx| && forall i :: 0 <= i < |ids| ==> ids[i] == vtx[i].txid
  {
    seq(|vtx|, i requires 0 <= i < |vtx| => vtx[i].txid)
  }

  lemma IdsDistinct(vtx: seq<Tx>)
    ensures |set tx | tx in vtx :: tx.txid| == |vtx| <==>
            forall i, j :: 0 <= i < j < |vtx| ==> vtx[i].txid != vtx[j].txid
  {
    var ids := TxIds(vtx);
    DistinctSize(ids);
    forall h
      ensures h in Distinct(ids) <==> h in set tx | tx in vtx :: tx.txid
    {
      if h in set tx | tx in vtx :: tx.txid {
        var i :| 0 <= i < |vtx| && vtx[i].txid == h;
        assert ids[i] == h;
      }
      if h in ids {
        var i :| 0 <= i < |ids| && ids[i] == h;
        assert vtx[i] in vtx;
      }
    }
    assert Distinct(ids) == set tx | tx in vtx :: tx.txid;
    assert forall i, j :: 0 <= i < j < |vtx| ==> (ids[i] != ids[j] <==> vtx[i].txid != vtx[j].txid);
  }

  lemma WellFormedBlockIff(vtx: seq<Tx>)
    ensures CheckBlock(vtx) <==> WellFormedBlock(vtx)
  {
    IdsDistinct(vtx);
    forall i | 0 <= i < |vtx|
      ensures CheckTransaction(vtx[i]) <==> WellFormed(vtx[i])
      ensures vtx[i].IsCoinBase() <==> vtx[i].vin == [OutPoint(0, 0xFFFF_FFFF)]
    {
      WellFormedIff(vtx[i]);
    }
    hide CheckTransaction, WellFormed;
  }

  method CheckVtx(vtx: seq<Tx>) returns (ok: bool)
    ensures ok <==> WellFormedBlock(vtx)
  {
    hide CheckTransaction, WellFormed;
    WellFormedBlockIff(vtx);
    if vtx == [] || !vtx[0].IsCoinBase() {
      return false;
    }
    for i := 1 to |vtx|
      invariant forall k :: 1 <= k < i ==> !vtx[k].IsCoinBase()
    {
      if vtx[i].IsCoinBase() {
        return false;
      }
    }
    for i := 0 to |vtx|
      invariant forall k :: 0 <= k < i ==> CheckTransaction(vtx[k])
    {
      WellFormedIff(vtx[i]);
      var good := CheckTx(vtx[i]);
      if !good {
        return false;
      }
    }
    var uniqueTx: set<Hash> := {};
    for i := 0 to |vtx|
      invariant uniqueTx == set tx | tx in vtx[..i] :: tx.txid
    {
      uniqueTx := uniqueTx + {vtx[i].txid};
      assert vtx[..i + 1] == vtx[..i] + [vtx[i]];
    }
    assert vtx[..|vtx|] == vtx;
    IdsDistinct(vtx);
    return |uniqueTx| == |vtx|;
  }
}
