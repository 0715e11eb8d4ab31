/** Block subsidy, grant awards and the conservation of value by connected blocks
    (GetBlockSubsidy, GetGrantValue and the value rules of ConnectBlock in src/main.cpp). */
module Supply {
  import opened CoinTypes
  import opened Sums
  import opened Utxo

  // ---- value of the unspent set ----------------------------------------------

  ghost function Values(u: CoinMap): map<Hash, int> {
    map h | h in u :: ValueOf(u[h].vout)
  }

  /** Total value of all unspent outputs. */
  ghost function Total(u: CoinMap): int {
    Sum(Values(u))
  }

  lemma TotalEmpty()
    ensures Total(map[]) == 0
  {
    assert Values(map[]) == map[];
  }

  lemma TotalPut(u: CoinMap, h: Hash, c: Coins)
    ensures Total(Put(u, h, c)) == Total(u) - ValueOf(At(u, h).vout) + ValueOf(c.vout)
  {
    if c.vout == [] {
      assert Values(u - {h}) == Values(u) - {h};
      if h in u { SumRemove(Values(u), h); } else { assert u - {h} == u; }
    } else {
      assert Values(u[h := c]) == Values(u)[h := ValueOf(c.vout)];
      SumSet(Values(u), h, ValueOf(c.vout));
    }
  }

  lemma {:induction false} ValueOfUpdate(vout: seq<TxOut>, n: nat)
    requires n < |vout| && !vout[n].IsNull()
    ensures ValueOf(vout[n := NULL_OUT]) == ValueOf(vout) - vout[n].nValue
  {
    var k := |vout| - 1;
    if n < k {
      ValueOfUpdate(vout[..k], n);
      assert vout[n := NULL_OUT][..k] == vout[..k][n := NULL_OUT];
    } else {
      assert vout[n := NULL_OUT][..k] == vout[..k];
    }
  }

  lemma {:induction false} ValueOfCleaned(vout: seq<TxOut>)
    ensures ValueOf(Cleaned(vout)) == ValueOf(vout)
  {
    if vout != [] && vout[|vout| - 1].IsNull() {
      ValueOfCleaned(vout[..|vout| - 1]);
    }
  }

  lemma {:induction false} ValueOfNonNegative(vout: seq<TxOut>)
    requires forall i :: 0 <= i < |vout| ==> vout[i].IsNull() || vout[i].nValue >= 0
    ensures ValueOf(vout) >= 0
  {
    if vout != [] {
      ValueOfNonNegative(vout[..|vout| - 1]);
    }
  }

  lemma TotalSpendOut(u: CoinMap, op: OutPoint)
    requires SpendOut(u, op).Some?
    ensures var (u1, undo) := SpendOut(u, op).value; Total(u1) == Total(u) - undo.txout.nValue
  {
    var c := At(u, op.hash);
    ValueOfUpdate(c.vout, op.n);
    ValueOfCleaned(c.vout[op.n := NULL_OUT]);
    TotalPut(u, op.hash, Spend(c, op.n).value.1);
  }

  /** Spending distinct inputs removes exactly their value. */
  lemma {:induction false} TotalSpendAll(u: CoinMap, ops: seq<OutPoint>)
    requires WfUtxo(u) && HaveInputs(u, ops) && SpendAll(u, ops).Some?
    requires forall i, j :: 0 <= i < j < |ops| ==> ops[i] != ops[j]
    ensures Total(SpendAll(u, ops).value.0) == Total(u) - ValueIn(u, ops)
  {
    hide SpendOut, Total;
    if ops != [] {
      var front := ops[..|ops| - 1];
      var op := ops[|ops| - 1];
      var u1 := SpendAll(u, front).value.0;
      TotalSpendAll(u, front);
      TotalSpendOut(u1, op);
      SpendAllLeaves(u, front, op);
      SpendAllWf(u, front);
      SpendOutWf(u1, op);
    }
  }

  /** A transaction moves value: coinbases add their outputs, every other one loses its fee. What it
      overwrites, if it is not fresh, is lost too. */
  lemma TotalApplyTx(u: CoinMap, tx: Tx, nHeight: int)
    requires WfUtxo(u) && CheckTransaction(tx) && ApplyTx(u, tx, nHeight).Some?
    ensures var e := ApplyTx(u, tx, nHeight).value;
      && Total(e.coins) <= Total(u) + (if tx.IsCoinBase() then ValueOf(tx.vout) else 0) - e.fee
      && (tx.txid !in Spent(u, tx) ==>
            Total(e.coins) == Total(u) + (if tx.IsCoinBase() then ValueOf(tx.vout) else 0) - e.fee)
  {
    hide Total;
    if !tx.IsCoinBase() {
      TotalSpendAll(u, tx.vin);
      SpendAllWf(u, tx.vin);
    }
    var u1 := Spent(u, tx);
    TotalPut(u1, tx.txid, CoinsFromTx(tx, nHeight));
    ValueOfNonNegative(At(u1, tx.txid).vout);
  }

  /** Conservation over a block: total value changes by the coinbase outputs minus the fees. */
  lemma {:induction false} TotalApplyTxs(u: CoinMap, txs: seq<Tx>, nHeight: int)
    requires WfUtxo(u) && nHeight >= 1 && txs != [] && txs[0].IsCoinBase()
    requires forall i :: 0 <= i < |txs| ==> CheckTransaction(txs[i])
    requires forall i :: 1 <= i < |txs| ==> !txs[i].IsCoinBase()
    requires ApplyTxs(u, txs, nHeight).Some?
    ensures var b := ApplyTxs(u, txs, nHeight).value;
      && Total(b.coins) <= Total(u) + ValueOf(txs[0].vout) - b.fees
      && (FreshAlong(u, txs, nHeight) ==> Total(b.coins) == Total(u) + ValueOf(txs[0].vout) - b.fees)
  {
    hide Total, ApplyTx, CheckTransaction, Spent;
    var n := |txs| - 1;
    var b := ApplyTxs(u, txs[..n], nHeight).value;
    ApplyTxsWf(u, txs[..n], nHeight);
    TotalApplyTx(b.coins, txs[n], nHeight);
    if n == 0 {
      assert txs[..0] == [];
    } else {
      TotalApplyTxs(u, txs[..n], nHeight);
    }
  }

  // ---- subsidy and grants ------------------------------------------------------

  const MINIMUM_SUBSIDY := 215_000_000
  const GRANT_BLOCK_INTERVAL := 20
  const NUMBER_OF_OFFICES := 6
  const PREMINE := 73_366_415_666_531

  /** The full subsidy after `weeks` reductions of 5% with integer truncation. */
  function Decayed(weeks: nat): nat {
    if weeks == 0 then 280 * COIN else Decayed(weeks - 1) * 19 / 20
  }

  function BlockSubsidy(nHeight: nat): nat {
    if nHeight < 240 then 280 * COIN / (240 - nHeight)
    else if Decayed(nHeight / 1680) < MINIMUM_SUBSIDY then MINIMUM_SUBSIDY
    else Decayed(nHeight / 1680)
  }

  lemma {:induction false} DecayedAtMost(weeks: nat)
    ensures Decayed(weeks) <= 280 * COIN
  {
    if weeks > 0 {
      DecayedAtMost(weeks - 1);
    }
  }

  lemma SubsidyRange(nHeight: nat)
    ensures 0 < BlockSubsidy(nHeight) <= 280 * COIN
  {
    DecayedAtMost(nHeight / 1680);
  }

  /** The reduction loop of GetBlockSubsidy. */
  method GetBlockSubsidy(nHeight: nat) returns (nSubsidy: nat)
    ensures nSubsidy == BlockSubsidy(nHeight)
    ensures 0 < nSubsidy <= 280 * COIN
  {
    if nHeight < 240 {
      return 280 * COIN / (240 - nHeight);
    }
    nSubsidy := 280 * COIN;
    var exponent := nHeight / 1680;
    for i := 0 to exponent
      invariant nSubsidy == Decayed(i) <= 280 * COIN
    {
      nSubsidy := nSubsidy * 19;
      nSubsidy := nSubsidy / 20;
    }
    if nSubsidy < MINIMUM_SUBSIDY {
      nSubsidy := MINIMUM_SUBSIDY;
    }
  }

  function GrantValue(nHeight: nat): nat {
    BlockSubsidy(nHeight) / 5
  }

  predicate IsGrantAwardBlock(nHeight: nat) {
    nHeight % GRANT_BLOCK_INTERVAL == 0 && nHeight != 0 && nHeight != GRANT_BLOCK_INTERVAL
  }

  /** grantAwards after the winners of the offices have each been credited with `amount`. */
  function AwardTable(winners: seq<string>, amount: int): map<string, int> {
    if winners == [] then map[]
    else
      var t := AwardTable(winners[..|winners| - 1], amount);
      var w := winners[|winners| - 1];
      t[w := (if w in t then t[w] else 0) + amount]
  }

  /** Whoever wins, and however often, the table adds up to one amount per office. */
  lemma {:induction false} AwardTableSum(winners: seq<string>, amount: int)
    ensures Sum(AwardTable(winners, amount)) == |winners| * amount
  {
    if winners != [] {
      var front := winners[..|winners| - 1];
      AwardTableSum(front, amount);
      var t := AwardTable(front, amount);
      var w := winners[|winners| - 1];
      SumSet(t, w, (if w in t then t[w] else 0) + amount);
      assert |winners| * amount == |front| * amount + amount;
    }
  }

  /** One winner of all offices gets it all. */
  lemma {:induction false} OneWinner(n: nat, name: string, amount: int)
    requires n >= 1
    ensures AwardTable(seq(n, _ => name), amount) == map[name := n * amount]
  {
    var winners := seq(n, _ => name);
    if n > 1 {
      OneWinner(n - 1, name, amount);
      assert winners[..n - 1] == seq(n - 1, _ => name);
      assert n * amount == (n - 1) * amount + amount;
    } else {
      assert winners[..0] == [];
    }
  }

  /** The most a block at this height may add to the supply. */
  function Allowance(nHeight: nat, fTestNet: bool): nat {
    if nHeight == 1 && !fTestNet then PREMINE
    else BlockSubsidy(nHeight) + if IsGrantAwardBlock(nHeight) then NUMBER_OF_OFFICES * GrantValue(nHeight) else 0
  }

  function TotalAllowance(nHeight: nat, fTestNet: bool): nat {
    if nHeight == 0 then 0 else TotalAllowance(nHeight - 1, fTestNet) + Allowance(nHeight, fTestNet)
  }

  /** A coarse bound: the premine and 616 coins a block. */
  lemma {:induction false} TotalAtMost(nHeight: nat, fTestNet: bool)
    ensures TotalAllowance(nHeight, fTestNet) <= (if nHeight == 0 then 0 else PREMINE) + 616 * COIN * nHeight
  {
    if nHeight > 0 {
      TotalAtMost(nHeight - 1, fTestNet);
      AllowanceAtMost(nHeight, fTestNet);
      hide Allowance;
    }
  }

  lemma AllowanceAtMost(nHeight: nat, fTestNet: bool)
    ensures Allowance(nHeight, fTestNet) <= if nHeight == 1 then PREMINE else 616 * COIN
  {
    SubsidyRange(nHeight);
    hide BlockSubsidy;
  }

  /** What the coin state does not determine when a block is connected: the grant table in memory, the text of the
      address a script pays to, and the verdict of the script and sigop checks, which can only reject. */
  datatype Env = Env(grantAwards: map<string, int>, textOf: Script -> string, accepts: bool)

  /** The coinbase limit of ConnectBlock. */
  ghost predicate CoinbaseAllowed(paid: int, fees: int, nHeight: nat, fTestNet: bool, grantAwards: map<string, int>) {
    if nHeight == 1 && !fTestNet then paid == PREMINE
    else paid <= BlockSubsidy(nHeight) + fees + if IsGrantAwardBlock(nHeight) then Sum(grantAwards) else 0
  }

  /** The table in memory is the one computed for this height, whoever won. */
  ghost predicate TableFor(grantAwards: map<string, int>, nHeight: nat) {
    exists winners: seq<string> ::
      |winners| == NUMBER_OF_OFFICES && grantAwards == AwardTable(winners, GrantValue(nHeight))
  }

  /** A block whose coinbase is allowed, with the table of its height, adds at most the allowance. */
  lemma SupplyStep(u: CoinMap, txs: seq<Tx>, nHeight: nat, fTestNet: bool, grantAwards: map<string, int>)
    requires WfUtxo(u) && nHeight >= 1 && CheckBlock(txs) && ApplyTxs(u, txs, nHeight).Some?
    requires var b := ApplyTxs(u, txs, nHeight).value;
      CoinbaseAllowed(ValueOf(txs[0].vout), b.fees, nHeight, fTestNet, grantAwards)
    requires IsGrantAwardBlock(nHeight) ==> TableFor(grantAwards, nHeight)
    ensures Total(ApplyTxs(u, txs, nHeight).value.coins) <= Total(u) + Allowance(nHeight, fTestNet)
  {
    hide Total, BlockSubsidy;
    TotalApplyTxs(u, txs, nHeight);
    FeesNonNegative(u, txs, nHeight);
    if IsGrantAwardBlock(nHeight) {
      var winners: seq<string> :|
        |winners| == NUMBER_OF_OFFICES && grantAwards == AwardTable(winners, GrantValue(nHeight));
      AwardTableSum(winners, GrantValue(nHeight));
    }
  }

  lemma {:induction false} FeesNonNegative(u: CoinMap, txs: seq<Tx>, nHeight: int)
    requires ApplyTxs(u, txs, nHeight).Some?
    ensures ApplyTxs(u, txs, nHeight).value.fees >= 0
  {
    if txs != [] {
      FeesNonNegative(u, txs[..|txs| - 1], nHeight);
    }
  }
}
