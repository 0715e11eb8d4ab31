/** Coinbases the memory pool spends are old enough, and what a reorganisation that is not too deep leaves of them. */
module PoolMaturity {
  import opened Basics
  import opened CoinTypes
  import opened Utxo
  import opened MemPool
  import opened MemPoolReorg

  // ---- where a record comes from ------------------------------------------------------------------------

  /** A record none of the moves made is as it was. */
  lemma {:induction false} OriginKept(u: CoinMap, moves: seq<Move>, h: Hash)
    requires Play(u, moves).Some? && h in Play(u, moves).value && h !in Ids(TxsOf(moves))
    ensures SameOrigin(u, Play(u, moves).value, h)
  {
    hide ApplyTx;
    if moves != [] {
      var n := |moves| - 1;
      ApplyTxOrigin(Play(u, moves[..n]).value, moves[n].tx, moves[n].nHeight, h);
      NotOf(moves, h);
      IdsOfFront(moves);
      OriginKept(u, moves[..n], h);
    }
  }

  lemma IdsOfFront(moves: seq<Move>)
    requires moves != []
    ensures Ids(TxsOf(moves)) == Ids(TxsOf(moves[..|moves| - 1])) + {moves[|moves| - 1].tx.txid}
  {
    var n := |moves| - 1;
    IdsFront(TxsOf(moves));
    assert TxsOf(moves)[..n] == TxsOf(moves[..n]);
  }

  /** One they made is from above the fork. */
  lemma {:induction false} OriginMade(u: CoinMap, moves: seq<Move>, h: Hash, f: int)
    requires Play(u, moves).Some? && h in Play(u, moves).value && h in Ids(TxsOf(moves))
    requires forall k :: 0 <= k < |moves| ==> moves[k].nHeight > f
    ensures Play(u, moves).value[h].nHeight > f
  {
    hide ApplyTx;
    if moves != [] {
      var n := |moves| - 1;
      ApplyTxOrigin(Play(u, moves[..n]).value, moves[n].tx, moves[n].nHeight, h);
      IdsOfFront(moves);
      if h != moves[n].tx.txid {
        OriginMade(u, moves[..n], h, f);
      }
    }
  }

  /** Records say of their transactions what is true, and hold no more outputs. */
  ghost predicate Traced(u: CoinMap, w: World) {
    CoinsReal(u, w) && forall h :: h in u ==> u[h].fCoinBase == w.body(h).IsCoinBase()
  }

  lemma {:induction false} PlayTraced(u: CoinMap, moves: seq<Move>, w: World)
    requires Traced(u, w) && MovesOk(moves, w) && Play(u, moves).Some?
    ensures Traced(Play(u, moves).value, w)
  {
    hide ApplyTx, CheckTransaction;
    if moves != [] {
      var n := |moves| - 1;
      PlayTraced(u, moves[..n], w);
      var v, tx := Play(u, moves[..n]).value, moves[n].tx;
      forall h | h in Play(u, moves).value
        ensures Play(u, moves).value[h].fCoinBase == w.body(h).IsCoinBase()
        ensures |Play(u, moves).value[h].vout| <= |w.body(h).vout|
      {
        ApplyTxOrigin(v, tx, moves[n].nHeight, h);
        ApplyTxSize(v, tx, moves[n].nHeight, h);
      }
    }
  }

  lemma ApplyTxSize(u: CoinMap, tx: Tx, nHeight: int, h: Hash)
    requires ApplyTx(u, tx, nHeight).Some? && h in ApplyTx(u, tx, nHeight).value.coins
    ensures var v := ApplyTx(u, tx, nHeight).value.coins;
      if h == tx.txid then |v[h].vout| <= |tx.vout| else h in u && |v[h].vout| <= |u[h].vout|
  {
    hide CheckInputs;
    if h != tx.txid && !tx.IsCoinBase() {
      SpendAllSize(u, tx.vin, h);
    }
  }

  lemma {:induction false} SpendAllSize(u: CoinMap, ops: seq<OutPoint>, h: Hash)
    requires SpendAll(u, ops).Some? && h in SpendAll(u, ops).value.0
    ensures h in u && |SpendAll(u, ops).value.0[h].vout| <= |u[h].vout|
  {
    if ops != [] {
      var n := |ops| - 1;
      var u1 := SpendAll(u, ops[..n]).value.0;
      assert h in u1 && |SpendAll(u, ops).value.0[h].vout| <= |u1[h].vout|;
      SpendAllSize(u, ops[..n], h);
    }
  }

  // ---- coinbases in the pool ------------------------------------------------------------------------

  /** If the input is from a coinbase, the next block may spend it. */
  predicate MatureInput(u: CoinMap, op: OutPoint, nSpendHeight: int) {
    Has(u, op) && At(u, op.hash).fCoinBase ==> nSpendHeight - At(u, op.hash).nHeight >= COINBASE_MATURITY
  }

  ghost predicate Matured(m: map<Hash, Tx>, u: CoinMap, nSpendHeight: int) {
    forall h, i :: h in m && 0 <= i < |m[h].vin| ==> MatureInput(u, m[h].vin[i], nSpendHeight)
  }

  lemma WelcomeMature(m: map<Hash, Tx>, u: CoinMap, nSpendHeight: int, tx: Tx, oracle: bool, i: nat)
    requires Welcome(m, u, nSpendHeight, tx, oracle) && i < |tx.vin|
    ensures MatureInput(u, tx.vin[i], nSpendHeight)
  {
    hide CheckTransaction, ConflictsIn;
    var v := Viewed(u, m, tx, |tx.vin|);
    assert v[tx.vin[i].hash] == Seen(u, m, tx.vin[i].hash);
    assert InputOk(v, tx.vin[i], nSpendHeight);
  }

  /** What was accepted among the offers spends nothing immature. */
  lemma {:induction false} OfferedMature(m: map<Hash, Tx>, txs: seq<Tx>, o: Offering, h: Hash, i: nat)
    requires h in OfferedAll(m, txs, o) && i < |OfferedAll(m, txs, o)[h].vin|
    ensures var tx := OfferedAll(m, txs, o)[h];
      (h in m && m[h] == tx) || MatureInput(o.u, tx.vin[i], o.nSpendHeight)
  {
    hide Welcome, DescendsFrom, MatureInput;
    if txs != [] {
      var n := |txs| - 1;
      var p := OfferedAll(m, txs[..n], o);
      if Welcome(p, o.u, o.nSpendHeight, txs[n], o.oracles(n)) && h == txs[n].txid {
        WelcomeMature(p, o.u, o.nSpendHeight, txs[n], o.oracles(n), i);
      } else {
        OfferedMature(m, txs[..n], o, h, i);
      }
    }
  }

  /** No transaction of the pool spends a coinbase that fewer than 60 disconnected blocks take away. */
  lemma ShallowStrandsNone(m: map<Hash, Tx>, fork: CoinMap, gone: seq<Move>, u: CoinMap, lost: set<Hash>, f: int,
                           tip: int, w: World)
    requires Play(fork, gone).Some? && Fits(m, Play(fork, gone).value) && Traced(Play(fork, gone).value, w)
    requires Matured(m, Play(fork, gone).value, tip + 1) && tip - f < COINBASE_MATURITY
    requires forall k :: 0 <= k < |gone| ==> gone[k].nHeight > f
    requires lost <= Ids(TxsOf(gone)) && forall h :: h in lost ==> w.body(h).IsCoinBase()
    ensures forall h :: !Stranded(m, u, lost, h)
  {
    hide Play;
    var v := Play(fork, gone).value;
    forall h | Stranded(m, u, lost, h)
      ensures false
    {
      var i :| 0 <= i < |m[h].vin| && Missing(m, u, lost, m[h].vin[i]);
      var op := m[h].vin[i];
      assert InputThere(m, v, op) && MatureInput(v, op, tip + 1);
      OriginMade(fork, gone, op.hash, f);
    }
  }

  // ---- and in the pool after the switch ------------------------------------------------------------------------

  /** No transaction overwrites unspent outputs of its own id at its turn. */
  ghost predicate FreshPlay(u: CoinMap, moves: seq<Move>)
    requires Play(u, moves).Some?
  {
    moves == [] ||
    (&& FreshPlay(u, moves[..|moves| - 1])
     && moves[|moves| - 1].tx.txid !in Spent(Play(u, moves[..|moves| - 1]).value, moves[|moves| - 1].tx))
  }

  /** An output of a coinbase that is made again was spent before. */
  lemma {:induction false} SpentBeforeRemade(u: CoinMap, moves: seq<Move>, op: OutPoint, w: World)
    requires WfUtxo(u) && MovesOk(moves, w) && Play(u, moves).Some? && FreshPlay(u, moves)
    requires Has(u, op) && op.n < |w.body(op.hash).vout| && w.body(op.hash).IsCoinBase()
    requires op.hash in Ids(TxsOf(moves))
    ensures SpentIn(TxsOf(moves), op)
  {
    hide WfUtxo, CheckTransaction, ApplyTx, Has, SpendAll;
    if moves != [] {
      var n := |moves| - 1;
      var front, tx := moves[..n], moves[n].tx;
      IdsOfFront(moves);
      if op.hash in Ids(TxsOf(front)) {
        SpentBeforeRemade(u, front, op, w);
      } else {
        Forward(u, front, op, w);
        assert tx == w.body(op.hash);
        HasRecord(Play(u, front).value, op);
      }
      var k :| 0 <= k < n && op in TxsOf(front)[k].vin;
      assert op in TxsOf(moves)[k].vin;
    }
  }

  lemma HasRecord(u: CoinMap, op: OutPoint)
    ensures Has(u, op) ==> op.hash in u
  {
  }

  /** What is left after the confirmed transactions shares no input with them. */
  lemma LeftIsUnspent(m: map<Hash, Tx>, txs: seq<Tx>, rank: Hash -> nat, h: Hash, op: OutPoint)
    requires h in ClearedAll(m, txs, rank) && op in ClearedAll(m, txs, rank)[h].vin
    ensures !SpentIn(txs, op)
  {
    hide ClearedAll, DescendsFrom;
    BlocksLeave(m, txs, rank, h);
    if k :| 0 <= k < |txs| && op in txs[k].vin {
      assert !SweptByBlock(m, txs, rank, k, h);
      BlocksLeave(m, txs[..k], rank, h);
      forall j | 0 <= j < k
        ensures !SweptByBlock(m, txs[..k], rank, j, h)
      {
        assert txs[..k][..j] == txs[..j] && !SweptByBlock(m, txs, rank, j, h);
      }
      var p := ClearedAll(m, txs[..k], rank) - {txs[k].txid};
      assert h in p && SharesInput(p[h], txs[k]);
      Itself(p, h, rank);
    }
  }

  lemma Itself(m: map<Hash, Tx>, h: Hash, rank: Hash -> nat)
    ensures DescendsFrom(m, h, h, rank)
  {
  }

  /** After a switch that disconnects fewer than 60 blocks and does not lower the height, the coinbases the pool spends
      are still old enough. */
  lemma SwitchMatured(m: map<Hash, Tx>, vResurrect: seq<Tx>, o: Offering, fork: CoinMap, gone: seq<Move>,
                      moves: seq<Move>, f: int, tip: int, w: World)
    requires TxsOk(m, w.rank) && Real(m, w) && WfUtxo(fork) && MovesOk(moves, w)
    requires Play(fork, gone).Some? && Fits(m, Play(fork, gone).value) && Traced(Play(fork, gone).value, w)
    requires Matured(m, Play(fork, gone).value, tip + 1) && tip - f < COINBASE_MATURITY
    requires forall k :: 0 <= k < |gone| ==> gone[k].nHeight > f
    requires Play(fork, moves) == Some(o.u) && Traced(o.u, w) && FreshPlay(fork, moves) && tip < o.nSpendHeight
    ensures Matured(Switched(m, vResurrect, TxsOf(moves), o), o.u, o.nSpendHeight)
  {
    hide OfferedAll, ClearedAll, MatureInput, SpentIn;
    var txs := TxsOf(moves);
    var p, q := OfferedAll(m, vResurrect, o), Switched(m, vResurrect, txs, o);
    forall h, i | h in q && 0 <= i < |q[h].vin|
      ensures MatureInput(o.u, q[h].vin[i], o.nSpendHeight)
    {
      var op := q[h].vin[i];
      BlocksLeave(p, txs, o.rank, h);
      OfferedMature(m, vResurrect, o, h, i);
      LeftIsUnspent(p, txs, o.rank, h, op);
      if h in m && m[h] == q[h] {
        OldInputMature(m, o, fork, gone, moves, f, tip, h, i, w);
      }
    }
  }

  lemma OldInputMature(m: map<Hash, Tx>, o: Offering, fork: CoinMap, gone: seq<Move>, moves: seq<Move>, f: int,
                       tip: int, h: Hash, i: nat, w: World)
    requires TxsOk(m, w.rank) && Real(m, w) && WfUtxo(fork) && MovesOk(moves, w)
    requires Play(fork, gone).Some? && Fits(m, Play(fork, gone).value) && Traced(Play(fork, gone).value, w)
    requires Matured(m, Play(fork, gone).value, tip + 1) && tip - f < COINBASE_MATURITY
    requires forall k :: 0 <= k < |gone| ==> gone[k].nHeight > f
    requires Play(fork, moves) == Some(o.u) && Traced(o.u, w) && FreshPlay(fork, moves) && tip < o.nSpendHeight
    requires h in m && i < |m[h].vin| && !SpentIn(TxsOf(moves), m[h].vin[i])
    ensures MatureInput(o.u, m[h].vin[i], o.nSpendHeight)
  {
    hide Play, SpentIn, WfUtxo, MovesOk, FreshPlay;
    var op, v := m[h].vin[i], Play(fork, gone).value;
    if Has(o.u, op) && At(o.u, op.hash).fCoinBase {
      assert NamesOutputs(m[h], w) && w.body(op.hash).IsCoinBase() && op.hash !in m;
      assert InputThere(m, v, op) && MatureInput(v, op, tip + 1);
      if op.hash in Ids(TxsOf(gone)) {
        OriginMade(fork, gone, op.hash, f);
        assert false;
      }
      OriginKept(fork, gone, op.hash);
      NotOf(gone, op.hash);
      Backward(fork, gone, op);
      if op.hash in Ids(TxsOf(moves)) {
        SpentBeforeRemade(fork, moves, op, w);
        assert false;
      }
      OriginKept(fork, moves, op.hash);
    }
  }
}
