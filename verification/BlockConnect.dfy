/** CTransaction::UpdateCoins, HaveInputs, GetValueIn, CheckInputs and CBlock::ConnectBlock, run on a coin view. */
module BlockConnect {
  import opened Basics
  import opened CoinTypes
  import opened Sums
  import U = Utxo
  import opened Supply
  import opened Coinbase
  import opened CoinsView
  import opened Spending

  method HaveInputs(view: CoinsViewCache, tx: Tx) returns (ok: bool)
    requires view.Valid()
    modifies view, view.base
    ensures view.Valid() && view.SameToReaders()
    ensures ok <==> tx.IsCoinBase() || U.HaveInputs(view.Coins(), tx.vin)
  {
    hide CoinsViewCache.Valid, CoinsViewCache.Contents, CoinsViewCache.Under, CoinsViewCache.Coins,
      CoinsViewCache.Best, CoinsViewCache.UnderBest, GoodRecord, Norm;
    if tx.IsCoinBase() {
      return true;
    }
    for i := 0 to |tx.vin|
      invariant view.Valid() && view.SameToReaders()
    {
      var found := view.FetchCoins(tx.vin[i].hash);
      if !found {
        assert !U.At(view.Coins(), tx.vin[i].hash).IsAvailable(tx.vin[i].n);
        return false;
      }
    }
    for i := 0 to |tx.vin|
      invariant view.Valid() && view.SameToReaders()
      invariant U.HaveInputs(view.Coins(), tx.vin[..i])
    {
      var coins := view.GetCoins(tx.vin[i].hash);
      if !coins.IsAvailable(tx.vin[i].n) {
        return false;
      }
    }
    assert tx.vin[..|tx.vin|] == tx.vin;
    return true;
  }

  /** Sum of the input values; the callers have checked that the inputs are there. */
  method GetValueIn(view: CoinsViewCache, tx: Tx) returns (nResult: int)
    requires view.Valid() && (tx.IsCoinBase() || U.HaveInputs(view.Coins(), tx.vin))
    modifies view, view.base
    ensures view.Valid() && view.SameToReaders()
    ensures nResult == if tx.IsCoinBase() then 0 else U.ValueIn(view.Coins(), tx.vin)
  {
    hide CoinsViewCache.Valid, CoinsViewCache.Contents, CoinsViewCache.Under, CoinsViewCache.Coins,
      CoinsViewCache.Best, CoinsViewCache.UnderBest, GoodRecord, Norm;
    nResult := 0;
    if tx.IsCoinBase() {
      return;
    }
    for i := 0 to |tx.vin|
      invariant view.Valid() && view.SameToReaders()
      invariant U.HaveInputs(view.Coins(), tx.vin[..i]) && nResult == U.ValueIn(view.Coins(), tx.vin[..i])
    {
      var coins := view.GetCoins(tx.vin[i].hash);
      assert coins.IsAvailable(tx.vin[i].n);
      nResult := nResult + coins.vout[tx.vin[i].n].nValue;
      assert tx.vin[..i + 1][..i] == tx.vin[..i];
    }
    assert tx.vin[..|tx.vin|] == tx.vin;
  }

  /** Sum of the output values (the range errors are CheckTransaction's). */
  method GetValueOut(tx: Tx) returns (nValueOut: int)
    requires CheckTransaction(tx)
    ensures nValueOut == ValueOf(tx.vout)
  {
    nValueOut := 0;
    for i := 0 to |tx.vout|
      invariant nValueOut == ValueOf(tx.vout[..i])
    {
      nValueOut := nValueOut + tx.vout[i].nValue;
      assert tx.vout[..i + 1][..i] == tx.vout[..i];
    }
    assert tx.vout[..|tx.vout|] == tx.vout;
  }

  /** CheckInputs without the script checks. */
  method CheckInputs(view: CoinsViewCache, tx: Tx, nSpendHeight: int) returns (ok: bool)
    requires view.Valid() && CheckTransaction(tx)
    modifies view, view.base
    ensures view.Valid() && view.SameToReaders()
    ensures ok <==> U.CheckInputs(view.Coins(), tx, nSpendHeight)
    ensures ok <==> tx.IsCoinBase() || Covered(view.Coins(), tx, nSpendHeight)
  {
    hide CoinsViewCache.Valid, CoinsViewCache.Contents, CoinsViewCache.Under, CoinsViewCache.Coins,
      CoinsViewCache.Best, CoinsViewCache.UnderBest, GoodRecord, Norm, CheckTransaction, U.InputOk, U.ValueIn, Covered;
    if tx.IsCoinBase() {
      return true;
    }
    CheckInputsIff(view.Coins(), tx, nSpendHeight);
    var have := HaveInputs(view, tx);
    if !have {
      return false;
    }
    ghost var u := view.Coins();
    var nValueIn := 0;
    assert U.ValueIn(u, tx.vin[..0]) == 0 by { ValueInNone(u); }
    for i := 0 to |tx.vin|
      invariant view.Valid() && view.SameToReaders() && view.Coins() == u
      invariant U.HaveInputs(u, tx.vin[..i]) && nValueIn == U.ValueIn(u, tx.vin[..i])
      invariant forall k :: 0 <= k < i ==> U.InputOk(u, tx.vin[k], nSpendHeight)
      invariant forall k :: 0 <= k <= i ==> U.HaveInputs(u, tx.vin[..k]) && MoneyRange(U.ValueIn(u, tx.vin[..k]))
    {
      var n := tx.vin[i].n;
      var coins := view.GetCoins(tx.vin[i].hash);
      ValueInStep(u, tx.vin, i);
      InputOkRecord(u, tx.vin[i], coins, nSpendHeight);
      if coins.fCoinBase {
        if nSpendHeight - coins.nHeight < COINBASE_MATURITY {
          return false;
        }
      }
      nValueIn := nValueIn + coins.vout[n].nValue;
      if !MoneyRange(coins.vout[n].nValue) || !MoneyRange(nValueIn) {
        assert !U.InputOk(u, tx.vin[i], nSpendHeight) || !MoneyRange(U.ValueIn(u, tx.vin[..i + 1]));
        return false;
      }
    }
    assert tx.vin[..|tx.vin|] == tx.vin;
    var nValueOut := GetValueOut(tx);
    if nValueIn < nValueOut {
      return false;
    }
    var nTxFee := nValueIn - nValueOut;
    if !MoneyRange(nTxFee) {
      return false;
    }
    return true;
  }

  lemma ValueInNone(u: U.CoinMap)
    ensures U.ValueIn(u, []) == 0
  {
  }

  lemma ValueInStep(u: U.CoinMap, ops: seq<OutPoint>, i: nat)
    requires i < |ops| && U.HaveInputs(u, ops)
    ensures U.HaveInputs(u, ops[..i]) && U.HaveInputs(u, ops[..i + 1])
    ensures U.ValueIn(u, ops[..i + 1]) == U.ValueIn(u, ops[..i]) + U.At(u, ops[i].hash).vout[ops[i].n].nValue
  {
    assert ops[..i + 1][..i] == ops[..i];
  }

  lemma InputOkRecord(u: U.CoinMap, op: OutPoint, coins: Coins, nSpendHeight: int)
    requires U.At(u, op.hash).IsAvailable(op.n) && coins == U.At(u, op.hash)
    ensures U.InputOk(u, op, nSpendHeight) <==>
      (coins.fCoinBase ==> nSpendHeight - coins.nHeight >= COINBASE_MATURITY) && MoneyRange(coins.vout[op.n].nValue)
  {
  }

  /** Spend one output through the reference GetCoins returns. */
  method SpendCoin(view: CoinsViewCache, op: OutPoint) returns (undo: TxInUndo)
    requires view.Valid() && U.WfUtxo(view.Coins()) && U.SpendOut(view.Coins(), op).Some?
    modifies view, view.base
    ensures view.Valid() && view.BaseSame() && view.Best() == old(view.Best())
    ensures U.SpendOut(old(view.Coins()), op).value == (view.Coins(), undo)
  {
    hide CoinsViewCache.Valid, CoinsViewCache.Contents, CoinsViewCache.Under, CoinsViewCache.Coins,
      CoinsViewCache.Best, CoinsViewCache.UnderBest, GoodRecord, Norm, CoinTypes.Spend;
    U.SpendOutWf(view.Coins(), op);
    var found := view.FetchCoins(op.hash);
    var coins := new CCoins(view.cacheCoins[op.hash]);
    var u := coins.Spend(op.n);
    undo := u.value;
    SpendKeepsGood(view.cacheCoins[op.hash], op.n);
    view.SetCoins(op.hash, coins.Value());
  }

  lemma SpendKeepsGood(c: Coins, n: nat)
    requires GoodRecord(c) && c.IsAvailable(n)
    ensures GoodRecord(Spend(c, n).value.1)
  {
    var left := Cleaned(c.vout[n := NULL_OUT]);
    assert forall i :: 0 <= i < |left| ==> left[i] == c.vout[n := NULL_OUT][i];
  }

  method SpendInputs(view: CoinsViewCache, ops: seq<OutPoint>) returns (txundo: seq<TxInUndo>)
    requires view.Valid() && U.WfUtxo(view.Coins()) && U.SpendAll(view.Coins(), ops).Some?
    modifies view, view.base
    ensures view.Valid() && view.BaseSame() && view.Best() == old(view.Best())
    ensures U.SpendAll(old(view.Coins()), ops) == Some((view.Coins(), txundo))
  {
    hide CoinsViewCache.Valid, CoinsViewCache.Contents, CoinsViewCache.Under, CoinsViewCache.Coins,
      CoinsViewCache.Best, CoinsViewCache.UnderBest, GoodRecord, Norm, U.SpendOut;
    ghost var u := view.Coins();
    txundo := [];
    for i := 0 to |ops|
      invariant view.Valid() && view.BaseSame() && view.Best() == old(view.Best())
      invariant U.SpendAll(u, ops[..i]) == Some((view.Coins(), txundo))
    {
      U.SpendAllWf(u, ops[..i]);
      SpendAllPrefix(u, ops, i + 1);
      assert ops[..i + 1][..i] == ops[..i];
      var undo := SpendCoin(view, ops[i]);
      txundo := txundo + [undo];
    }
    assert ops[..|ops|] == ops;
  }

  /** Mark the inputs spent, record how to undo that, add the outputs. */
  method UpdateCoins(view: CoinsViewCache, tx: Tx, nHeight: int) returns (txundo: seq<TxInUndo>)
    requires view.Valid() && U.WfUtxo(view.Coins()) && CheckTransaction(tx) && nHeight >= 1
    requires U.CheckInputs(view.Coins(), tx, nHeight)
    modifies view, view.base
    ensures view.Valid() && view.BaseSame() && view.Best() == old(view.Best())
    ensures var e := U.ApplyTx(old(view.Coins()), tx, nHeight);
      e.Some? && e.value.coins == view.Coins() && e.value.undo == txundo
  {
    hide CoinsViewCache.Valid, CoinsViewCache.Contents, CoinsViewCache.Under, CoinsViewCache.Coins,
      CoinsViewCache.Best, CoinsViewCache.UnderBest, GoodRecord, Norm;
    txundo := [];
    if !tx.IsCoinBase() {
      U.SpendAllSucceeds(view.Coins(), tx.vin);
      hide U.CheckInputs, CheckTransaction;
      txundo := SpendInputs(view, tx.vin);
    }
    CoinsFromTxGood(tx, nHeight);
    view.SetCoins(tx.txid, CoinsFromTx(tx, nHeight));
  }

  lemma CoinsFromTxGood(tx: Tx, nHeight: int)
    requires CheckTransaction(tx)
    ensures GoodRecord(CoinsFromTx(tx, nHeight))
  {
  }

  lemma {:induction false} SpendAllPrefix(u: U.CoinMap, ops: seq<OutPoint>, k: nat)
    requires U.SpendAll(u, ops).Some? && k <= |ops|
    ensures U.SpendAll(u, ops[..k]).Some?
    decreases |ops| - k
  {
    hide U.SpendOut;
    if k < |ops| {
      SpendAllPrefix(u, ops, k + 1);
      assert ops[..k + 1][..k] == ops[..k];
    } else {
      assert ops[..k] == ops;
    }
  }

  // ---- a whole block -----------------------------------------------------------

  /** The two blocks exempt from the BIP 30 rule. */
  const EXEMPT_1: Hash := 0x00000000000a4d0a398161ffc163c503763b1f4360639393e0e4c8e300e0caec
  const EXEMPT_2: Hash := 0x00000000000743f190a18c5577a3c2d2a1f610ae9601ac046a38084ccb7cd721

  predicate EnforceBip30(hash: Hash, nHeight: int) {
    !((nHeight == 91842 && hash == EXEMPT_1) || (nHeight == 91880 && hash == EXEMPT_2))
  }

  /** Only two blocks are exempt. */
  lemma ExemptIff(hash: Hash, nHeight: int)
    ensures !EnforceBip30(hash, nHeight) <==>
      || (nHeight == 91842 && hash == 0xa4d0a398161ffc163c503763b1f4360639393e0e4c8e300e0caec)
      || (nHeight == 91880 && hash == 0x743f190a18c5577a3c2d2a1f610ae9601ac046a38084ccb7cd721)
  {
  }

  datatype Block = Block(hash: Hash, vtx: seq<Tx>)

  /** When ConnectBlock accepts a block after genesis, and with what effect. */
  ghost function Connected(u: U.CoinMap, block: Block, nHeight: nat, fTestNet: bool, env: Env): Option<U.BlockEffect> {
    Connectable(u, block.vtx, EnforceBip30(block.hash, nHeight), nHeight, fTestNet, env)
  }

  ghost function Connectable(u: U.CoinMap, vtx: seq<Tx>, fEnforceBIP30: bool, nHeight: nat, fTestNet: bool, env: Env)
    : Option<U.BlockEffect>
  {
    if !CheckBlock(vtx) || (fEnforceBIP30 && !U.Bip30(u, vtx)) then None
    else
      match U.ApplyTxs(u, vtx, nHeight)
      case None => None
      case Some(b) => if CoinbaseOk(vtx[0].vout, b.fees, nHeight, fTestNet, env) && env.accepts then Some(b) else None
  }

  /** The coinbase pays the grants of an award block and keeps the limit. */
  ghost predicate CoinbaseOk(vout: seq<TxOut>, fees: int, nHeight: nat, fTestNet: bool, env: Env) {
    && (IsGrantAwardBlock(nHeight) ==> PaysAwards(vout, env.grantAwards, env.textOf))
    && CoinbaseAllowed(ValueOf(vout), fees, nHeight, fTestNet, env.grantAwards)
  }

  /** Of an accepted award block, at most subsidy and fees goes to anyone who has not won. */
  lemma WinnersGetTheirs(u: U.CoinMap, block: Block, nHeight: nat, fTestNet: bool, env: Env)
    requires IsGrantAwardBlock(nHeight) && Connected(u, block, nHeight, fTestNet, env).Some?
    ensures block.vtx != []
    ensures var vout := block.vtx[0].vout;
      ValueOf(vout) - PaidTo(vout, env.grantAwards.Keys, env.textOf)
      <= BlockSubsidy(nHeight) + Connected(u, block, nHeight, fTestNet, env).value.fees
  {
    hide U.ApplyTxs, CoinbaseAllowed, ValueOf, PaidTo, PaysAwards;
    assert CheckTransaction(block.vtx[0]);
    MinerShare(block.vtx[0].vout, Connected(u, block, nHeight, fTestNet, env).value.fees, nHeight, fTestNet,
      env.grantAwards, env.textOf);
  }

  method SumAwards(grantAwards: map<string, int>) returns (grantAward: int)
    ensures grantAward == Sum(grantAwards)
  {
    grantAward := 0;
    var rest := grantAwards;
    while rest != map[]
      invariant grantAward + Sum(rest) == Sum(grantAwards)
      decreases |rest|
    {
      var k :| k in rest;
      SumRemove(rest, k);
      grantAward := grantAward + rest[k];
      rest := rest - {k};
    }
  }

  method CheckBip30(view: CoinsViewCache, vtx: seq<Tx>) returns (ok: bool)
    requires view.Valid()
    modifies view, view.base
    ensures view.Valid() && view.SameToReaders()
    ensures ok <==> U.Bip30(view.Coins(), vtx)
  {
    hide CoinsViewCache.Valid, CoinsViewCache.Contents, CoinsViewCache.Under, CoinsViewCache.Coins,
      CoinsViewCache.Best, CoinsViewCache.UnderBest, GoodRecord, Norm;
    for i := 0 to |vtx|
      invariant view.Valid() && view.SameToReaders()
      invariant forall k :: 0 <= k < i ==> vtx[k].txid !in view.Coins()
    {
      var coins := view.GetCoins(vtx[i].txid);
      if !coins.IsPruned() {
        return false;
      }
    }
    return true;
  }

  lemma {:induction false} ApplyTxsPrefix(u: U.CoinMap, txs: seq<Tx>, nHeight: int, k: nat)
    requires k <= |txs| && U.ApplyTxs(u, txs[..k], nHeight).None?
    ensures U.ApplyTxs(u, txs, nHeight).None?
    decreases |txs| - k
  {
    hide U.ApplyTx;
    if k < |txs| {
      assert txs[..k + 1][..k] == txs[..k];
      ApplyTxsPrefix(u, txs, nHeight, k + 1);
    } else {
      assert txs[..k] == txs;
    }
  }

  lemma Connects(u: U.CoinMap, tx: Tx, nHeight: int)
    requires U.WfUtxo(u) && CheckTransaction(tx)
    ensures !tx.IsCoinBase() && Total(u) <= MAX_MONEY ==>
      (U.ApplyTx(u, tx, nHeight).Some? <==>
       (forall i :: 0 <= i < |tx.vin| ==> Ready(u, tx.vin[i], nHeight)) && Sent(tx.vout) <= Paid(u, tx.vin))
    ensures !tx.IsCoinBase() && Total(u) <= MAX_MONEY && U.ApplyTx(u, tx, nHeight).Some? ==>
      U.ApplyTx(u, tx, nHeight).value.fee == Paid(u, tx.vin) - Sent(tx.vout)
    ensures tx.IsCoinBase() ==> U.ApplyTx(u, tx, nHeight).Some?
    ensures U.ApplyTx(u, tx, nHeight).Some? ==> Moved(u, U.ApplyTx(u, tx, nHeight).value.coins, tx, nHeight)
  {
    if !tx.IsCoinBase() && Total(u) <= MAX_MONEY {
      AppliesIff(u, tx, nHeight);
    }
    hide Total, Ready, Sent, Paid, Moved;
    if U.ApplyTx(u, tx, nHeight).Some? {
      AppliesTo(u, tx, nHeight);
    }
  }

  /** One round of the transaction loop of ConnectBlock: the undo records and the fee. */
  method ConnectTx(view: CoinsViewCache, tx: Tx, nHeight: int) returns (r: Option<(seq<TxInUndo>, int)>)
    requires view.Valid() && U.WfUtxo(view.Coins()) && nHeight >= 1 && CheckTransaction(tx)
    modifies view, view.base
    ensures view.Valid() && view.BaseSame() && view.Best() == old(view.Best())
    ensures match U.ApplyTx(old(view.Coins()), tx, nHeight)
      case None => r == None
      case Some(e) => r == Some((e.undo, e.fee)) && view.Coins() == e.coins && U.WfUtxo(e.coins)
    ensures tx.IsCoinBase() ==> r.Some?
    ensures !tx.IsCoinBase() && Total(old(view.Coins())) <= MAX_MONEY ==>
      (r.Some? <==> (forall i :: 0 <= i < |tx.vin| ==> Ready(old(view.Coins()), tx.vin[i], nHeight)) &&
                    Sent(tx.vout) <= Paid(old(view.Coins()), tx.vin))
    ensures !tx.IsCoinBase() && Total(old(view.Coins())) <= MAX_MONEY && r.Some? ==>
      r.value.1 == Paid(old(view.Coins()), tx.vin) - Sent(tx.vout)
    ensures r.Some? ==> Moved(old(view.Coins()), view.Coins(), tx, nHeight)
  {
    hide CoinsViewCache.Valid, CoinsViewCache.Contents, CoinsViewCache.Under, CoinsViewCache.Coins,
      CoinsViewCache.Best, CoinsViewCache.UnderBest, GoodRecord, Norm, CheckTransaction, U.ValueIn, U.CheckInputs,
      U.SpendAll, U.WfUtxo, Ready, Sent, Paid, Total, Moved, Covered;
    Connects(view.Coins(), tx, nHeight);
    var fee := 0;
    if !tx.IsCoinBase() {
      var have := HaveInputs(view, tx);
      if !have {
        CheckInputsNeeds(view.Coins(), tx, nHeight);
        return None;
      }
      var nIn := GetValueIn(view, tx);
      var nOut := GetValueOut(tx);
      fee := nIn - nOut;
    }
    var ok := CheckInputs(view, tx, nHeight);
    if !ok {
      return None;
    }
    ghost var before := view.Coins();
    var txundo := UpdateCoins(view, tx, nHeight);
    U.ApplyTxWf(before, tx, nHeight);
    return Some((txundo, fee));
  }

  /** The transaction loop of ConnectBlock. */
  method ConnectTxs(view: CoinsViewCache, vtx: seq<Tx>, nHeight: int)
    returns (r: Option<(seq<seq<TxInUndo>>, int)>)
    requires view.Valid() && U.WfUtxo(view.Coins()) && nHeight >= 1
    requires forall i :: 0 <= i < |vtx| ==> CheckTransaction(vtx[i])
    modifies view, view.base
    ensures view.Valid() && view.BaseSame() && view.Best() == old(view.Best())
    ensures match U.ApplyTxs(old(view.Coins()), vtx, nHeight)
      case None => r == None
      case Some(b) => r == Some((b.undo, b.fees)) && view.Coins() == b.coins
  {
    hide CoinsViewCache.Valid, CoinsViewCache.Contents, CoinsViewCache.Under, CoinsViewCache.Coins,
      CoinsViewCache.Best, CoinsViewCache.UnderBest, GoodRecord, Norm, CheckTransaction, U.ApplyTx, U.WfUtxo;
    ghost var u := view.Coins();
    var nFees := 0;
    var vtxundo: seq<seq<TxInUndo>> := [];
    for i := 0 to |vtx|
      invariant view.Valid() && view.BaseSame() && view.Best() == old(view.Best())
      invariant U.WfUtxo(view.Coins())
      invariant U.ApplyTxs(u, vtx[..i], nHeight) == Some(U.BlockEffect(view.Coins(), vtxundo, nFees))
    {
      assert vtx[..i + 1][..i] == vtx[..i];
      var done := ConnectTx(view, vtx[i], nHeight);
      if done.None? {
        ApplyTxsPrefix(u, vtx, nHeight, i + 1);
        return None;
      }
      nFees := nFees + done.value.1;
      if !vtx[i].IsCoinBase() {
        vtxundo := vtxundo + [done.value.0];
      }
    }
    assert vtx[..|vtx|] == vtx;
    return Some((vtxundo, nFees));
  }

  lemma CheckInputsNeeds(u: U.CoinMap, tx: Tx, nHeight: int)
    requires !tx.IsCoinBase() && !U.HaveInputs(u, tx.vin)
    ensures !U.CheckInputs(u, tx, nHeight)
  {
  }

  /** ConnectBlock on a view whose best block is the parent. Returns the undo data. A block that is just checked, when
      it is being built, has no hash in its index entry, so BIP 30 is enforced; the best block then stays. */
  method ConnectBlock(view: CoinsViewCache, block: Block, nHeight: nat, fTestNet: bool, env: Env, fJustCheck: bool)
    returns (r: Option<seq<seq<TxInUndo>>>)
    requires view.Valid() && U.WfUtxo(view.Coins()) && nHeight >= 1
    modifies view, view.base
    ensures view.Valid() && view.BaseSame()
    ensures match Connectable(old(view.Coins()), block.vtx, fJustCheck || EnforceBip30(block.hash, nHeight), nHeight,
                              fTestNet, env)
      case None => r == None
      case Some(b) =>
        && r == Some(b.undo) && view.Coins() == b.coins
        && if fJustCheck then view.Best() == old(view.Best()) else view.pindexTip == view.Best() == Some(block.hash)
  {
    hide CoinsViewCache.Valid, CoinsViewCache.Contents, CoinsViewCache.Under, CoinsViewCache.Coins,
      CoinsViewCache.Best, CoinsViewCache.UnderBest, GoodRecord, Norm, CheckTransaction, U.ApplyTxs, U.Bip30,
      CoinbaseOk, U.WfUtxo;
    if !CheckBlock(block.vtx) {
      return None;
    }
    var fEnforceBIP30 := fJustCheck || EnforceBip30(block.hash, nHeight);
    if fEnforceBIP30 {
      var none := CheckBip30(view, block.vtx);
      if !none {
        return None;
      }
    }
    var done := ConnectTxs(view, block.vtx, nHeight);
    if done.None? {
      return None;
    }
    var (vtxundo, nFees) := done.value;
    var allowed := CheckCoinbase(block.vtx[0], nFees, nHeight, fTestNet, env);
    if !allowed || !env.accepts {
      return None;
    }
    if !fJustCheck {
      view.SetBestBlock(block.hash);
    }
    return Some(vtxundo);
  }

  /** The grants of an award block, then the coinbase limit. */
  method CheckCoinbase(tx: Tx, nFees: int, nHeight: nat, fTestNet: bool, env: Env) returns (ok: bool)
    requires CheckTransaction(tx)
    ensures ok <==> CoinbaseOk(tx.vout, nFees, nHeight, fTestNet, env)
  {
    hide Sum, BlockSubsidy, CheckTransaction, PaysAwards;
    var grantAward := 0;
    if IsGrantAwardBlock(nHeight) {
      grantAward := SumAwards(env.grantAwards);
      var paid := AwardsPaid(tx.vout, env.grantAwards, env.textOf);
      if !paid {
        return false;
      }
    }
    var paid := GetValueOut(tx);
    if nHeight == 1 && !fTestNet {
      return paid == PREMINE;
    }
    var subsidy := GetBlockSubsidy(nHeight);
    return paid <= subsidy + nFees + grantAward;
  }
}
