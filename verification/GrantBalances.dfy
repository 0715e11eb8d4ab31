/** The balances the election weighs votes with are what the addresses hold in the unspent outputs. */
module GrantBalances {
  import opened CoinTypes
  import opened Sums
  import opened Utxo
  import opened Supply
  import opened BlockTree
  import opened Coinbase
  import opened Election
  import opened GrantElection
  import opened GrantVotes

  ghost function HeldIn(u: CoinMap, a: Name, textOf: Script -> Name): map<Hash, int> {
    map h | h in u :: PaidTo(u[h].vout, {a}, textOf)
  }

  /** What the unspent outputs pay to an address. */
  ghost function Held(u: CoinMap, a: Name, textOf: Script -> Name): int {
    Sum(HeldIn(u, a, textOf))
  }

  lemma HeldNothing(a: Name, textOf: Script -> Name)
    ensures Held(map[], a, textOf) == 0
  {
    assert HeldIn(map[], a, textOf) == map[];
  }

  lemma HeldPut(u: CoinMap, h: Hash, c: Coins, a: Name, textOf: Script -> Name)
    ensures Held(Put(u, h, c), a, textOf)
         == Held(u, a, textOf) - PaidTo(At(u, h).vout, {a}, textOf) + PaidTo(c.vout, {a}, textOf)
  {
    var m := HeldIn(u, a, textOf);
    if c.vout == [] {
      assert HeldIn(u - {h}, a, textOf) == m - {h};
      if h in u { SumRemove(m, h); } else { assert u - {h} == u; }
    } else {
      assert HeldIn(u[h := c], a, textOf) == m[h := PaidTo(c.vout, {a}, textOf)];
      SumSet(m, h, PaidTo(c.vout, {a}, textOf));
    }
  }

  /** What one output pays to an address. */
  function Part(o: TxOut, a: Name, textOf: Script -> Name): int {
    if textOf(o.scriptPubKey) == a then o.nValue else 0
  }

  lemma {:induction false} PaidToUpdate(vout: seq<TxOut>, n: nat, a: Name, textOf: Script -> Name)
    requires n < |vout| && !vout[n].IsNull()
    ensures PaidTo(vout[n := NULL_OUT], {a}, textOf) == PaidTo(vout, {a}, textOf) - Part(vout[n], a, textOf)
  {
    var k := |vout| - 1;
    if n < k {
      PaidToUpdate(vout[..k], n, a, textOf);
      assert vout[n := NULL_OUT][..k] == vout[..k][n := NULL_OUT];
    } else {
      assert vout[n := NULL_OUT][..k] == vout[..k];
    }
  }

  lemma {:induction false} PaidToCleaned(vout: seq<TxOut>, a: Name, textOf: Script -> Name)
    ensures PaidTo(Cleaned(vout), {a}, textOf) == PaidTo(vout, {a}, textOf)
  {
    if vout != [] && vout[|vout| - 1].IsNull() {
      PaidToCleaned(vout[..|vout| - 1], a, textOf);
    }
  }

  lemma {:induction false} PaidToSome(vout: seq<TxOut>, a: Name, textOf: Script -> Name)
    requires forall i :: 0 <= i < |vout| ==> vout[i].IsNull() || vout[i].nValue >= 0
    ensures PaidTo(vout, {a}, textOf) >= 0
  {
    if vout != [] {
      PaidToSome(vout[..|vout| - 1], a, textOf);
    }
  }

  lemma HeldSome(u: CoinMap, a: Name, textOf: Script -> Name)
    requires WfUtxo(u)
    ensures Held(u, a, textOf) >= 0
  {
    forall h | h in u
      ensures PaidTo(u[h].vout, {a}, textOf) >= 0
    {
      PaidToSome(u[h].vout, a, textOf);
    }
    SumNonNegative(HeldIn(u, a, textOf));
  }

  // ---- inputs ------------------------------------------------------------------------

  /** Looking up an unspent output finds it. */
  ghost predicate Sourced(u: CoinMap, source: OutPoint -> TxOut) {
    forall h, n :: h in u && 0 <= n < |u[h].vout| && !u[h].vout[n].IsNull() ==> source(OutPoint(h, n)) == u[h].vout[n]
  }

  /** What the inputs take from an address. */
  function SpentBy(vin: seq<OutPoint>, a: Name, source: OutPoint -> TxOut, textOf: Script -> Name): int {
    if vin == [] then 0
    else SpentBy(vin[..|vin| - 1], a, source, textOf) + Part(source(vin[|vin| - 1]), a, textOf)
  }

  lemma SpendOutHeld(u: CoinMap, op: OutPoint, a: Name, source: OutPoint -> TxOut, textOf: Script -> Name)
    requires WfUtxo(u) && Sourced(u, source) && SpendOut(u, op).Some?
    ensures var v := SpendOut(u, op).value.0;
      Sourced(v, source) && Held(v, a, textOf) == Held(u, a, textOf) - Part(source(op), a, textOf)
  {
    hide Held, PaidTo, Part;
    SpendOutWf(u, op);
    var c := u[op.hash];
    var left := Spend(c, op.n).value.1;
    assert source(OutPoint(op.hash, op.n)) == c.vout[op.n];
    PaidToUpdate(c.vout, op.n, a, textOf);
    PaidToCleaned(c.vout[op.n := NULL_OUT], a, textOf);
    HeldPut(u, op.hash, left, a, textOf);
    var v := SpendOut(u, op).value.0;
    forall h, n | h in v && 0 <= n < |v[h].vout| && !v[h].vout[n].IsNull()
      ensures source(OutPoint(h, n)) == v[h].vout[n]
    {
      assert h in u && v[h].vout[n] == u[h].vout[n];
    }
  }

  lemma {:induction false} SpendAllHeld(u: CoinMap, ops: seq<OutPoint>, a: Name, source: OutPoint -> TxOut,
                                        textOf: Script -> Name)
    requires WfUtxo(u) && Sourced(u, source) && SpendAll(u, ops).Some?
    ensures var v := SpendAll(u, ops).value.0;
      Sourced(v, source) && Held(v, a, textOf) == Held(u, a, textOf) - SpentBy(ops, a, source, textOf)
  {
    hide Held, Part, SpendOut, Sourced;
    if ops != [] {
      var n := |ops| - 1;
      SpendAllHeld(u, ops[..n], a, source, textOf);
      SpendAllWf(u, ops[..n]);
      SpendOutHeld(SpendAll(u, ops[..n]).value.0, ops[n], a, source, textOf);
    }
  }

  // ---- one transaction, on both sides ------------------------------------------------------------------------

  /** Looking up an output of the transactions finds it. */
  ghost predicate Findable(txs: seq<Tx>, source: OutPoint -> TxOut) {
    forall i, n :: 0 <= i < |txs| && 0 <= n < |txs[i].vout| ==> source(OutPoint(txs[i].txid, n)) == txs[i].vout[n]
  }

  lemma {:induction false} CreditedIs(balances: Balances, vout: seq<TxOut>, a: Name, textOf: Script -> Name)
    requires forall i :: 0 <= i < |vout| ==> !vout[i].IsNull()
    ensures BalanceOf(Credited(balances, vout, textOf), a) == BalanceOf(balances, a) + PaidTo(vout, {a}, textOf)
  {
    if vout != [] {
      CreditedIs(balances, vout[..|vout| - 1], a, textOf);
    }
  }

  lemma {:induction false} InputsTake(l: Ledger, vin: seq<OutPoint>, noted: map<Name, int>, a: Name,
                                      source: OutPoint -> TxOut, textOf: Script -> Name)
    requires |l.votes| == |OFFICES|
    ensures BalanceOf(AfterInputs(l, vin, noted, source, textOf).balances, a)
         == BalanceOf(l.balances, a) - SpentBy(vin, a, source, textOf)
  {
    hide Recorded;
    if vin != [] {
      InputsTake(l, vin[..|vin| - 1], noted, a, source, textOf);
    }
  }

  lemma TxHeld(u: CoinMap, tx: Tx, nHeight: int, l: Ledger, a: Name, source: OutPoint -> TxOut, textOf: Script -> Name)
    requires WfUtxo(u) && Sourced(u, source) && CheckTransaction(tx) && Findable([tx], source)
    requires ApplyTx(u, tx, nHeight).Some? && tx.txid !in Spent(u, tx) && |l.votes| == |OFFICES|
    ensures var v := ApplyTx(u, tx, nHeight).value.coins;
      && Sourced(v, source)
      && BalanceOf(AfterTx(l, tx, source, textOf).balances, a) - BalanceOf(l.balances, a)
         == Held(v, a, textOf) - Held(u, a, textOf)
  {
    assert PaidTo([], {a}, textOf) == 0;
    hide Held, PaidTo, SpendAll, CheckInputs, Noted, AfterInputs, Credited, SpentBy, BalanceOf, ValueOf;
    CreditedIs(l.balances, tx.vout, a, textOf);
    var credited := Ledger(Credited(l.balances, tx.vout, textOf), l.votes);
    if !tx.IsCoinBase() {
      InputsTake(credited, tx.vin, Noted(tx.vout, textOf), a, source, textOf);
      SpendAllHeld(u, tx.vin, a, source, textOf);
    }
    var u1 := Spent(u, tx);
    assert Sourced(u1, source);
    HeldPut(u1, tx.txid, CoinsFromTx(tx, nHeight), a, textOf);
    assert At(u1, tx.txid).vout == [];
    assert tx == [tx][0];
  }

  // ---- the sum of all balances ------------------------------------------------------------------------

  lemma SumPlus(balances: Balances, name: Name, amount: int)
    ensures Sum(Plus(balances, name, amount)) == Sum(balances) + amount
  {
    SumSet(balances, name, BalanceOf(balances, name) + amount);
  }

  lemma {:induction false} CreditedSum(balances: Balances, vout: seq<TxOut>, textOf: Script -> Name)
    requires forall i :: 0 <= i < |vout| ==> !vout[i].IsNull()
    ensures Sum(Credited(balances, vout, textOf)) == Sum(balances) + ValueOf(vout)
  {
    if vout != [] {
      var n := |vout| - 1;
      CreditedSum(balances, vout[..n], textOf);
      hide Sum, Plus;
      SumPlus(Credited(balances, vout[..n], textOf), textOf(vout[n].scriptPubKey), vout[n].nValue);
    }
  }

  lemma {:induction false} InputsSum(u: CoinMap, l: Ledger, vin: seq<OutPoint>, noted: map<Name, int>,
                                     source: OutPoint -> TxOut, textOf: Script -> Name)
    requires |l.votes| == |OFFICES| && HaveInputs(u, vin) && Sourced(u, source)
    ensures Sum(AfterInputs(l, vin, noted, source, textOf).balances) == Sum(l.balances) - ValueIn(u, vin)
  {
    hide Recorded;
    if vin != [] {
      var n := |vin| - 1;
      InputsSum(u, l, vin[..n], noted, source, textOf);
      var before := AfterInputs(l, vin[..n], noted, source, textOf).balances;
      var o := source(vin[n]);
      assert OutPoint(vin[n].hash, vin[n].n) == vin[n];
      hide Sum, Plus;
      SumPlus(before, textOf(o.scriptPubKey), -o.nValue);
    }
  }

  lemma TxSum(u: CoinMap, tx: Tx, nHeight: int, l: Ledger, source: OutPoint -> TxOut, textOf: Script -> Name)
    requires WfUtxo(u) && Sourced(u, source) && CheckTransaction(tx)
    requires ApplyTx(u, tx, nHeight).Some? && tx.txid !in Spent(u, tx) && |l.votes| == |OFFICES|
    ensures Sum(AfterTx(l, tx, source, textOf).balances) - Sum(l.balances)
         == Total(ApplyTx(u, tx, nHeight).value.coins) - Total(u)
  {
    TotalApplyTx(u, tx, nHeight);
    hide Total, Sourced, Sum, SpendAll, Noted, AfterInputs, Credited, ValueOf, ValueIn;
    CreditedSum(l.balances, tx.vout, textOf);
    if !tx.IsCoinBase() {
      InputsSum(u, Ledger(Credited(l.balances, tx.vout, textOf), l.votes), tx.vin, Noted(tx.vout, textOf), source,
                textOf);
    }
  }

  // ---- branches ------------------------------------------------------------------------

  ghost predicate TalliesFor(l: Ledger, u: CoinMap, first: seq<TxOut>, textOf: Script -> Name, a: Name) {
    BalanceOf(l.balances, a) == Held(u, a, textOf) + PaidTo(first, {a}, textOf)
  }

  /** Every address is credited with what it holds unspent, and with its share of the outputs of genesis, which never
      become coins; all balances together are the value of the unspent outputs and of those. */
  ghost predicate Tallies(l: Ledger, u: CoinMap, first: seq<TxOut>, textOf: Script -> Name) {
    && (forall a :: TalliesFor(l, u, first, textOf, a))
    && Sum(l.balances) == Total(u) + ValueOf(first)
  }

  lemma {:induction false} TxsTally(u: CoinMap, txs: seq<Tx>, nHeight: int, l: Ledger, first: seq<TxOut>,
                                    source: OutPoint -> TxOut, textOf: Script -> Name)
    requires WfUtxo(u) && nHeight >= 1 && ApplyTxs(u, txs, nHeight).Some? && FreshAlong(u, txs, nHeight)
    requires forall i :: 0 <= i < |txs| ==> CheckTransaction(txs[i])
    requires Sourced(u, source) && Findable(txs, source) && |l.votes| == |OFFICES| && Tallies(l, u, first, textOf)
    ensures Sourced(ApplyTxs(u, txs, nHeight).value.coins, source)
    ensures Tallies(AfterTxs(l, txs, source, textOf), ApplyTxs(u, txs, nHeight).value.coins, first, textOf)
  {
    hide WfUtxo, Held, PaidTo, Total, Sum, ValueOf, ApplyTx, AfterTx, CheckTransaction, Sourced, Spent, BalanceOf;
    if txs != [] {
      var n := |txs| - 1;
      TxsTally(u, txs[..n], nHeight, l, first, source, textOf);
      ApplyTxsWf(u, txs[..n], nHeight);
      var before, v := AfterTxs(l, txs[..n], source, textOf), ApplyTxs(u, txs[..n], nHeight).value.coins;
      assert [txs[n]][0] == txs[n];
      forall a: Name
        ensures TalliesFor(AfterTx(before, txs[n], source, textOf), ApplyTx(v, txs[n], nHeight).value.coins, first,
                           textOf, a)
      {
        assert TalliesFor(before, v, first, textOf, a);
        TxHeld(v, txs[n], nHeight, before, a, source, textOf);
      }
      TxHeld(v, txs[n], nHeight, before, "", source, textOf);
      TxSum(v, txs[n], nHeight, before, source, textOf);
    }
  }

  /** The blocks of a branch from genesis, by height. */
  function BranchOf(idx: Index, genesis: Hash, h: Hash): (b: seq<seq<Tx>>)
    requires WfIndex(idx, genesis) && h in idx
    ensures |b| == idx[h].nHeight + 1
    decreases idx[h].nHeight
  {
    (if h == genesis then [] else BranchOf(idx, genesis, Parent(idx, genesis, h))) + [idx[h].vtx]
  }

  /** What counting the blocks of a branch leaves. */
  ghost function LedgerOf(idx: Index, genesis: Hash, h: Hash, source: OutPoint -> TxOut, textOf: Script -> Name)
    : (l: Ledger)
    requires WfIndex(idx, genesis) && h in idx
    ensures |l.votes| == |OFFICES|
  {
    AfterBlocks(START, BranchOf(idx, genesis, h), source, textOf)
  }

  ghost predicate FindableBranch(idx: Index, genesis: Hash, h: Hash, source: OutPoint -> TxOut)
    requires WfIndex(idx, genesis) && h in idx
  {
    forall k :: 0 <= k <= idx[h].nHeight ==> Findable(idx[AncestorAt(idx, genesis, h, k)].vtx, source)
  }

  /** Genesis is one coinbase. */
  ghost predicate PlainGenesis(idx: Index, genesis: Hash)
    requires WfIndex(idx, genesis)
  {
    |idx[genesis].vtx| == 1 && idx[genesis].vtx[0].IsCoinBase() && CheckTransaction(idx[genesis].vtx[0])
  }

  lemma GenesisTallies(tx: Tx, source: OutPoint -> TxOut, textOf: Script -> Name)
    requires tx.IsCoinBase() && CheckTransaction(tx)
    ensures Tallies(AfterBlocks(START, [[tx]], source, textOf), map[], tx.vout, textOf)
  {
    assert [tx][..0] == [] && [[tx]][..0] == [];
    assert AfterBlocks(START, [], source, textOf) == START == AfterTxs(START, [], source, textOf);
    var l := AfterBlocks(START, [[tx]], source, textOf);
    assert l == AfterTxs(START, [tx], source, textOf) == AfterTx(START, tx, source, textOf);
    assert l.balances == Credited(map[], tx.vout, textOf);
    forall a: Name
      ensures TalliesFor(l, map[], tx.vout, textOf, a)
    {
      HeldNothing(a, textOf);
      CreditedIs(map[], tx.vout, a, textOf);
    }
    TotalEmpty();
    CreditedSum(map[], tx.vout, textOf);
  }

  /** Main result: counting a branch whose blocks overwrite nothing gives every address what it holds. */
  lemma {:induction false} BranchTallies(idx: Index, genesis: Hash, undo: UndoFiles, h: Hash,
                                         source: OutPoint -> TxOut, textOf: Script -> Name)
    requires WfIndex(idx, genesis) && h in idx && PlainGenesis(idx, genesis) && Replay(idx, genesis, h).Some?
    requires UndoGood(idx, genesis, undo) && UndoCovers(idx, genesis, undo, h)
    requires FindableBranch(idx, genesis, h, source)
    ensures Sourced(Replay(idx, genesis, h).value, source)
    ensures Tallies(LedgerOf(idx, genesis, h, source, textOf), Replay(idx, genesis, h).value,
                    idx[genesis].vtx[0].vout, textOf)
    decreases idx[h].nHeight
  {
    hide CheckTransaction, Tallies, Findable, AfterTxs, ApplyTxs, FreshAlong;
    assert AncestorAt(idx, genesis, h, idx[h].nHeight) == h;
    if h == genesis {
      GenesisTallies(idx[genesis].vtx[0], source, textOf);
      assert idx[genesis].vtx == [idx[genesis].vtx[0]];
    } else {
      var p := Parent(idx, genesis, h);
      assert forall k :: 0 <= k <= idx[p].nHeight ==> AncestorAt(idx, genesis, p, k) == AncestorAt(idx, genesis, h, k);
      BranchTallies(idx, genesis, undo, p, source, textOf);
      assert UndoRight(idx, genesis, h, undo[h]);
      ReplayWf(idx, genesis, p);
      var blocks := BranchOf(idx, genesis, h);
      assert blocks[..|blocks| - 1] == BranchOf(idx, genesis, p);
      TxsTally(Replay(idx, genesis, p).value, idx[h].vtx, idx[h].nHeight, LedgerOf(idx, genesis, p, source, textOf),
               idx[genesis].vtx[0].vout, source, textOf);
    }
  }

  // ---- what follows for the count ------------------------------------------------------------------------

  lemma {:induction false} PositiveSum(balances: Balances)
    requires forall a :: a in balances ==> balances[a] >= 0
    ensures Sum(Positive(balances)) == Sum(balances)
    decreases |balances|
  {
    if balances != map[] {
      var a :| a in balances;
      var rest := balances - {a};
      PositiveSum(rest);
      SumRemove(balances, a);
      if balances[a] > 0 {
        SumRemove(Positive(balances), a);
        assert Positive(balances) - {a} == Positive(rest);
      } else {
        assert Positive(balances) == Positive(rest);
      }
    } else {
      assert Positive(balances) == map[];
    }
  }

  /** No balance is ever negative, and all together they are the value of what is unspent. */
  lemma TalliesSound(l: Ledger, u: CoinMap, first: seq<TxOut>, textOf: Script -> Name)
    requires WfUtxo(u) && Tallies(l, u, first, textOf) && forall i :: 0 <= i < |first| ==> first[i].nValue >= 0
    ensures forall a :: a in l.balances ==> l.balances[a] >= 0
    ensures Sum(Positive(l.balances)) == Total(u) + ValueOf(first)
  {
    hide WfUtxo, Held, PaidTo, Total, Sum, ValueOf, Positive;
    forall a | a in l.balances
      ensures l.balances[a] >= 0
    {
      assert TalliesFor(l, u, first, textOf, a);
      HeldSome(u, a, textOf);
      PaidToSome(first, a, textOf);
    }
    PositiveSum(l.balances);
  }

  const LAST_COUNTED := 100_000_000

  /** Up to block 100,000,000 the 64-bit totals of the count are large enough. */
  lemma BranchCountable(idx: Index, genesis: Hash, undo: UndoFiles, h: Hash, fTestNet: bool,
                        source: OutPoint -> TxOut, textOf: Script -> Name)
    requires WfIndex(idx, genesis) && h in idx && PlainGenesis(idx, genesis)
    requires UndoGood(idx, genesis, undo) && UndoCovers(idx, genesis, undo, h)
    requires FindableBranch(idx, genesis, h, source)
    requires Funded(idx, genesis, h, fTestNet) && idx[h].nHeight <= LAST_COUNTED
    ensures Countable(LedgerOf(idx, genesis, h, source, textOf))
  {
    hide Funded, Replay, Tallies, LedgerOf, BranchOf, FindableBranch, UndoGood, UndoCovers, Total, TotalAllowance;
    SupplyBound(idx, genesis, h, fTestNet);
    ReplayWf(idx, genesis, h);
    BranchTallies(idx, genesis, undo, h, source, textOf);
    TalliesSound(LedgerOf(idx, genesis, h, source, textOf), Replay(idx, genesis, h).value, idx[genesis].vtx[0].vout,
                 textOf);
    TotalAtMost(idx[h].nHeight, fTestNet);
  }

  // ---- pieces of branches ------------------------------------------------------------------------

  lemma {:induction false} AfterMore(l: Ledger, a: seq<seq<Tx>>, b: seq<seq<Tx>>, source: OutPoint -> TxOut,
                                     textOf: Script -> Name)
    requires |l.votes| == |OFFICES|
    ensures AfterBlocks(AfterBlocks(l, a, source, textOf), b, source, textOf) == AfterBlocks(l, a + b, source, textOf)
  {
    hide AfterTxs;
    if b == [] {
      assert a + b == a;
    } else {
      var n := |b| - 1;
      AfterMore(l, a, b[..n], source, textOf);
      assert (a + b)[..|a| + n] == a + b[..n];
    }
  }

  lemma {:induction false} BranchFront(idx: Index, genesis: Hash, h: Hash, k: nat)
    requires WfIndex(idx, genesis) && h in idx && k <= idx[h].nHeight
    ensures BranchOf(idx, genesis, h)[..k + 1] == BranchOf(idx, genesis, AncestorAt(idx, genesis, h, k))
    decreases idx[h].nHeight
  {
    HeightZero(idx, genesis, h);
    var b := BranchOf(idx, genesis, h);
    if idx[h].nHeight == k {
      assert b[..k + 1] == b;
    } else {
      var p := Parent(idx, genesis, h);
      BranchFront(idx, genesis, p, k);
      assert b[..k + 1] == BranchOf(idx, genesis, p)[..k + 1];
    }
  }
}
