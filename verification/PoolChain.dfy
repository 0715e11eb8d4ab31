/** The memory pool beside the active chain: SetBestChain with its last two loops, and whole runs of both. */
module PoolChain {
  import opened Basics
  import opened CoinTypes
  import opened Utxo
  import opened Supply
  import opened CoinsView
  import opened BlockTree
  import opened ChainState
  import opened ChainRuns
  import opened MemPool
  import opened MemPoolReorg
  import opened PoolMaturity

  // ---- a branch of the index as moves ------------------------------------------------------------------------

  ghost predicate IndexGenuine(idx: Index, w: World) {
    forall h, i :: h in idx && 0 <= i < |idx[h].vtx| ==> Genuine(idx[h].vtx[i], w)
  }

  ghost predicate AllGenuine(txs: seq<Tx>, w: World) {
    forall i :: 0 <= i < |txs| ==> Genuine(txs[i], w)
  }

  lemma {:induction false} BranchMovesOk(idx: Index, genesis: Hash, h: Hash, k: nat, w: World)
    requires WfIndex(idx, genesis) && h in idx && k <= idx[h].nHeight && IndexGenuine(idx, w)
    requires Replay(idx, genesis, h).Some?
    ensures MovesOk(BranchMoves(idx, genesis, h, k), w)
    ensures forall j :: 0 <= j < |BranchMoves(idx, genesis, h, k)| ==> BranchMoves(idx, genesis, h, k)[j].nHeight > k
    decreases idx[h].nHeight
  {
    hide CheckTransaction, Genuine, ApplyTxs;
    HeightZero(idx, genesis, h);
    if idx[h].nHeight != k {
      BranchMovesOk(idx, genesis, Parent(idx, genesis, h), k, w);
    }
  }

  lemma {:induction false} BranchTxsParent(idx: Index, genesis: Hash, h: Hash, stop: nat, m: nat)
    requires WfIndex(idx, genesis) && h in idx && h != genesis && stop <= m <= idx[h].nHeight
    ensures BranchTxs(idx, genesis, h, stop, m) == BranchTxs(idx, genesis, Parent(idx, genesis, h), stop, m)
    decreases m
  {
    if m != stop {
      BranchTxsParent(idx, genesis, h, stop, m - 1);
    }
  }

  /** The queue of transactions to delete is what the moves of the branch confirm. */
  lemma {:induction false} TxsOfBranch(idx: Index, genesis: Hash, h: Hash, k: nat)
    requires WfIndex(idx, genesis) && h in idx && k <= idx[h].nHeight
    ensures TxsOf(BranchMoves(idx, genesis, h, k)) == BranchTxs(idx, genesis, h, k + 1, idx[h].nHeight + 1)
    decreases idx[h].nHeight
  {
    HeightZero(idx, genesis, h);
    if idx[h].nHeight != k {
      var p := Parent(idx, genesis, h);
      TxsOfBranch(idx, genesis, p, k);
      BranchTxsParent(idx, genesis, h, k + 1, idx[h].nHeight);
      assert TxsOf(MovesOf(idx[h].vtx, idx[h].nHeight)) == idx[h].vtx;
    }
  }

  lemma {:induction false} LooseAre(vtx: seq<Tx>, tx: Tx)
    ensures tx in Loose(vtx) <==> tx in vtx && !tx.IsCoinBase()
  {
    if vtx != [] {
      LooseAre(vtx[..|vtx| - 1], tx);
      assert vtx == vtx[..|vtx| - 1] + [vtx[|vtx| - 1]];
    }
  }

  /** The queue of transactions to offer again is part of the branch, and above the last checkpoint it leaves out
      coinbases only. */
  lemma {:induction false} ResurrectableAre(idx: Index, genesis: Hash, h: Hash, k: nat, nEstimate: nat, tx: Tx)
    requires WfIndex(idx, genesis) && h in idx && k <= idx[h].nHeight
    ensures tx in Resurrectable(idx, genesis, h, k + 1, nEstimate) ==> tx in TxsOf(BranchMoves(idx, genesis, h, k))
    ensures nEstimate <= k && tx in TxsOf(BranchMoves(idx, genesis, h, k)) && !tx.IsCoinBase() ==>
      tx in Resurrectable(idx, genesis, h, k + 1, nEstimate)
    decreases idx[h].nHeight
  {
    HeightZero(idx, genesis, h);
    if idx[h].nHeight != k {
      var p := Parent(idx, genesis, h);
      ResurrectableAre(idx, genesis, p, k, nEstimate, tx);
      LooseAre(idx[h].vtx, tx);
      var below, here := BranchMoves(idx, genesis, p, k), MovesOf(idx[h].vtx, idx[h].nHeight);
      assert TxsOf(below + here) == TxsOf(below) + TxsOf(here) && TxsOf(here) == idx[h].vtx;
    }
  }

  /** The ids of disconnected transactions that are not offered again. */
  function Unoffered(idx: Index, genesis: Hash, best: Hash, stop: nat, nEstimate: nat): set<Hash>
    requires WfIndex(idx, genesis) && best in idx && stop <= idx[best].nHeight + 1
  {
    Ids(BranchTxs(idx, genesis, best, stop, idx[best].nHeight + 1))
    - Ids(Resurrectable(idx, genesis, best, stop, nEstimate))
  }

  lemma UnofferedAreCoinbases(idx: Index, genesis: Hash, best: Hash, k: nat, nEstimate: nat, w: World)
    requires WfIndex(idx, genesis) && best in idx && k <= idx[best].nHeight && nEstimate <= k
    requires MovesOk(BranchMoves(idx, genesis, best, k), w)
    ensures forall h :: h in Unoffered(idx, genesis, best, k + 1, nEstimate) ==> w.body(h).IsCoinBase()
  {
    var gone := BranchMoves(idx, genesis, best, k);
    TxsOfBranch(idx, genesis, best, k);
    forall h | h in Unoffered(idx, genesis, best, k + 1, nEstimate)
      ensures w.body(h).IsCoinBase()
    {
      var i :| 0 <= i < |TxsOf(gone)| && TxsOf(gone)[i].txid == h;
      var tx := TxsOf(gone)[i];
      ResurrectableAre(idx, genesis, best, k, nEstimate, tx);
      assert gone[i].tx == tx && Genuine(gone[i].tx, w);
    }
  }

  lemma ResurrectableGenuine(idx: Index, genesis: Hash, best: Hash, k: nat, nEstimate: nat, w: World)
    requires WfIndex(idx, genesis) && best in idx && k <= idx[best].nHeight
    requires MovesOk(BranchMoves(idx, genesis, best, k), w)
    ensures AllGenuine(Resurrectable(idx, genesis, best, k + 1, nEstimate), w)
  {
    hide Resurrectable, Genuine, CheckTransaction;
    var gone, r := BranchMoves(idx, genesis, best, k), Resurrectable(idx, genesis, best, k + 1, nEstimate);
    forall i | 0 <= i < |r|
      ensures Genuine(r[i], w)
    {
      ResurrectableAre(idx, genesis, best, k, nEstimate, r[i]);
      var j :| 0 <= j < |gone| && TxsOf(gone)[j] == r[i];
      assert gone[j].tx == r[i];
    }
  }

  // ---- a branch overwrites nothing ------------------------------------------------------------------------

  lemma {:induction false} FreshPlayOn(u: CoinMap, a: seq<Move>, b: seq<Move>)
    requires Play(u, a).Some? && FreshPlay(u, a)
    requires Play(Play(u, a).value, b).Some? && FreshPlay(Play(u, a).value, b)
    ensures Play(u, a + b).Some? && FreshPlay(u, a + b)
  {
    hide ApplyTx, Spent;
    PlayOn(u, a, b);
    if b == [] {
      assert a + b == a;
    } else {
      var n := |b| - 1;
      FreshPlayOn(u, a, b[..n]);
      PlayOn(u, a, b[..n]);
      assert (a + b)[..|a + b| - 1] == a + b[..n] && (a + b)[|a + b| - 1] == b[n];
    }
  }

  lemma {:induction false} FreshBlock(u: CoinMap, txs: seq<Tx>, nHeight: int)
    requires ApplyTxs(u, txs, nHeight).Some? && FreshAlong(u, txs, nHeight)
    ensures Play(u, MovesOf(txs, nHeight)).Some? && FreshPlay(u, MovesOf(txs, nHeight))
  {
    hide ApplyTx, Spent;
    BlockPlays(u, txs, nHeight);
    if txs != [] {
      var n := |txs| - 1;
      FreshBlock(u, txs[..n], nHeight);
      BlockPlays(u, txs[..n], nHeight);
      assert MovesOf(txs, nHeight)[..n] == MovesOf(txs[..n], nHeight);
    }
  }

  lemma {:induction false} FreshBranch(idx: Index, genesis: Hash, undo: UndoFiles, h: Hash, k: nat)
    requires WfIndex(idx, genesis) && h in idx && k <= idx[h].nHeight && Replay(idx, genesis, h).Some?
    requires UndoGood(idx, genesis, undo) && UndoCovers(idx, genesis, undo, h)
    ensures Replay(idx, genesis, AncestorAt(idx, genesis, h, k)).Some?
    ensures var u := Replay(idx, genesis, AncestorAt(idx, genesis, h, k)).value;
      Play(u, BranchMoves(idx, genesis, h, k)).Some? && FreshPlay(u, BranchMoves(idx, genesis, h, k))
    decreases idx[h].nHeight
  {
    hide ApplyTxs, CheckBlock, FreshPlay, FreshAlong;
    BranchPlays(idx, genesis, h, k);
    HeightZero(idx, genesis, h);
    if idx[h].nHeight != k {
      var p := Parent(idx, genesis, h);
      CoversParent(idx, genesis, undo, h);
      FreshBranch(idx, genesis, undo, p, k);
      BranchPlays(idx, genesis, p, k);
      assert AncestorAt(idx, genesis, h, idx[h].nHeight) == h && UndoRight(idx, genesis, h, undo[h]);
      var v := Replay(idx, genesis, p).value;
      FreshBlock(v, idx[h].vtx, idx[h].nHeight);
      FreshPlayOn(Replay(idx, genesis, AncestorAt(idx, genesis, h, k)).value, BranchMoves(idx, genesis, p, k),
        MovesOf(idx[h].vtx, idx[h].nHeight));
    } else {
      FreshNone(Replay(idx, genesis, h).value);
    }
  }

  lemma FreshNone(u: CoinMap)
    ensures Play(u, []).Some? && FreshPlay(u, [])
  {
  }

  lemma CoversParent(idx: Index, genesis: Hash, undo: UndoFiles, h: Hash)
    requires WfIndex(idx, genesis) && h in idx && h != genesis && UndoCovers(idx, genesis, undo, h)
    ensures UndoCovers(idx, genesis, undo, Parent(idx, genesis, h))
  {
    var p := Parent(idx, genesis, h);
    forall k | 1 <= k <= idx[p].nHeight
      ensures AncestorAt(idx, genesis, p, k) in undo
    {
      assert AncestorAt(idx, genesis, h, k) == AncestorAt(idx, genesis, p, k);
    }
  }

  lemma ReplayTraced(idx: Index, genesis: Hash, h: Hash, w: World)
    requires WfIndex(idx, genesis) && h in idx && IndexGenuine(idx, w) && Replay(idx, genesis, h).Some?
    ensures Traced(Replay(idx, genesis, h).value, w)
  {
    hide Play, MovesOk;
    HeightZero(idx, genesis, AncestorAt(idx, genesis, h, 0));
    BranchPlays(idx, genesis, h, 0);
    BranchMovesOk(idx, genesis, h, 0, w);
    PlayTraced(map[], BranchMoves(idx, genesis, h, 0), w);
  }

  // ---- the switch ------------------------------------------------------------------------

  /** A pool that fitted the coins of one branch, after the switch to another. */
  lemma BranchSwitch(idx: Index, genesis: Hash, best: Hash, h: Hash, k: nat, nEstimate: nat, m: map<Hash, Tx>,
                     o: Offering, w: World)
    requires WfIndex(idx, genesis) && IndexGenuine(idx, w) && best in idx && h in idx
    requires k <= idx[best].nHeight && k <= idx[h].nHeight
    requires AncestorAt(idx, genesis, best, k) == AncestorAt(idx, genesis, h, k)
    requires Replay(idx, genesis, best).Some? && Replay(idx, genesis, h) == Some(o.u) && o.rank == w.rank
    requires TxsOk(m, w.rank) && Real(m, w) && Fits(m, Replay(idx, genesis, best).value)
    ensures var vResurrect := Resurrectable(idx, genesis, best, k + 1, nEstimate);
      var vDelete := BranchTxs(idx, genesis, h, k + 1, idx[h].nHeight + 1);
      var lost := Unoffered(idx, genesis, best, k + 1, nEstimate);
      Fits(Switched(m, vResurrect, vDelete, o), o.u) <==>
      forall x :: Stranded(m, o.u, lost, x) ==> Swept(m, vResurrect, vDelete, o, x)
  {
    hide *;
    BranchPlays(idx, genesis, best, k);
    BranchPlays(idx, genesis, h, k);
    BranchMovesOk(idx, genesis, best, k, w);
    BranchMovesOk(idx, genesis, h, k, w);
    ReplayWf(idx, genesis, AncestorAt(idx, genesis, h, k));
    ReplayTraced(idx, genesis, h, w);
    TracedReal(o.u, w);
    TxsOfBranch(idx, genesis, best, k);
    TxsOfBranch(idx, genesis, h, k);
    ResurrectableGenuine(idx, genesis, best, k, nEstimate, w);
    EachGenuine(Resurrectable(idx, genesis, best, k + 1, nEstimate), w);
    UnofferedIs(idx, genesis, best, k + 1, nEstimate);
    SwitchFits(m, Resurrectable(idx, genesis, best, k + 1, nEstimate), o,
      Replay(idx, genesis, AncestorAt(idx, genesis, h, k)).value, BranchMoves(idx, genesis, best, k),
      BranchMoves(idx, genesis, h, k), w);
  }

  lemma EachGenuine(txs: seq<Tx>, w: World)
    requires AllGenuine(txs, w)
    ensures forall i :: 0 <= i < |txs| ==> Genuine(txs[i], w)
  {
  }

  lemma TracedReal(u: CoinMap, w: World)
    requires Traced(u, w)
    ensures CoinsReal(u, w)
  {
  }

  lemma UnofferedIs(idx: Index, genesis: Hash, best: Hash, stop: nat, nEstimate: nat)
    requires WfIndex(idx, genesis) && best in idx && stop <= idx[best].nHeight + 1
    ensures Unoffered(idx, genesis, best, stop, nEstimate)
         == Ids(BranchTxs(idx, genesis, best, stop, idx[best].nHeight + 1))
            - Ids(Resurrectable(idx, genesis, best, stop, nEstimate))
  {
  }

  /** A switch that disconnects fewer than 60 blocks, all above the last checkpoint, and does not lower the height. */
  predicate Gentle(idx: Index, genesis: Hash, best: Option<Hash>, h: Hash, nEstimate: nat)
    requires WfIndex(idx, genesis) && h in idx && (best.Some? ==> best.value in idx)
  {
    best.Some? ==>
      var k := idx[LastCommon(idx, genesis, best.value, h)].nHeight;
      nEstimate <= k && idx[best.value].nHeight - k < COINBASE_MATURITY && idx[best.value].nHeight <= idx[h].nHeight
  }

  /** Main result: a switch of that kind leaves the pool fitting the coins, with no immature coinbase spent. */
  lemma GentleSwitch(idx: Index, genesis: Hash, undo: UndoFiles, best: Hash, h: Hash, k: nat, nEstimate: nat,
                     m: map<Hash, Tx>, o: Offering, w: World)
    requires WfIndex(idx, genesis) && IndexGenuine(idx, w) && best in idx && h in idx
    requires k <= idx[best].nHeight && k <= idx[h].nHeight
    requires AncestorAt(idx, genesis, best, k) == AncestorAt(idx, genesis, h, k)
    requires Replay(idx, genesis, best).Some? && Replay(idx, genesis, h) == Some(o.u) && o.rank == w.rank
    requires TxsOk(m, w.rank) && Real(m, w) && Fits(m, Replay(idx, genesis, best).value)
    requires UndoGood(idx, genesis, undo) && UndoCovers(idx, genesis, undo, h)
    requires Matured(m, Replay(idx, genesis, best).value, idx[best].nHeight + 1)
    requires nEstimate <= k && idx[best].nHeight - k < COINBASE_MATURITY
    requires idx[best].nHeight <= idx[h].nHeight && o.nSpendHeight == idx[h].nHeight + 1
    ensures var q := Switched(m, Resurrectable(idx, genesis, best, k + 1, nEstimate),
                              BranchTxs(idx, genesis, h, k + 1, idx[h].nHeight + 1), o);
      Fits(q, o.u) && Matured(q, o.u, o.nSpendHeight)
  {
    hide *;
    var gone, moves := BranchMoves(idx, genesis, best, k), BranchMoves(idx, genesis, h, k);
    var f := AncestorAt(idx, genesis, h, k);
    BranchPlays(idx, genesis, best, k);
    BranchMovesOk(idx, genesis, best, k, w);
    BranchMovesOk(idx, genesis, h, k, w);
    ReplayWf(idx, genesis, f);
    ReplayTraced(idx, genesis, best, w);
    ReplayTraced(idx, genesis, h, w);
    TxsOfBranch(idx, genesis, best, k);
    TxsOfBranch(idx, genesis, h, k);
    UnofferedAreCoinbases(idx, genesis, best, k, nEstimate, w);
    UnofferedIs(idx, genesis, best, k + 1, nEstimate);
    FreshBranch(idx, genesis, undo, h, k);
    BranchPlays(idx, genesis, h, k);
    BranchSwitch(idx, genesis, best, h, k, nEstimate, m, o, w);
    var u := Replay(idx, genesis, f).value;
    ShallowStrandsNone(m, u, gone, o.u, Unoffered(idx, genesis, best, k + 1, nEstimate), k, idx[best].nHeight, w);
    SwitchMatured(m, Resurrectable(idx, genesis, best, k + 1, nEstimate), o, u, gone, moves, k, idx[best].nHeight, w);
  }

  /** A pool beside an empty coin set is empty, and stays so. */
  lemma FitsNothing(m: map<Hash, Tx>, rank: Hash -> nat)
    requires TxsOk(m, rank) && Fits(m, map[])
    ensures m == map[]
  {
    hide CheckTransaction;
    if m != map[] {
      var h := LowestIn(m, rank);
      InputOf(m[h]);
      if InputThere(m, map[], m[h].vin[0]) {
        assert false;
      }
    }
  }

  lemma InputOf(tx: Tx)
    requires CheckTransaction(tx)
    ensures tx.vin != []
  {
  }

  lemma {:induction false} LowestIn(m: map<Hash, Tx>, rank: Hash -> nat) returns (h: Hash)
    requires m != map[]
    ensures h in m && forall x :: x in m ==> rank(h) <= rank(x)
    decreases |m|
  {
    h :| h in m;
    var rest := m - {h};
    assert |m.Keys| == |m| && |rest.Keys| == |rest| && rest.Keys == m.Keys - {h};
    if rest != map[] {
      var x := LowestIn(rest, rank);
      assert forall y :: y in m ==> y == h || y in rest;
      h := if rank(x) < rank(h) then x else h;
    }
  }

  lemma {:induction false} ClearedEmpty(txs: seq<Tx>, rank: Hash -> nat)
    ensures ClearedAll(map[], txs, rank) == map[]
  {
    hide Reached;
    if txs != [] {
      ClearedEmpty(txs[..|txs| - 1], rank);
    }
  }

  /** What SetBestChain queues for the pool, and what of the old branch it does not queue. */
  ghost function LostOf(idx: Index, genesis: Hash, best: Option<Hash>, h: Hash, nEstimate: nat): set<Hash>
    requires WfIndex(idx, genesis) && h in idx && (best.Some? ==> best.value in idx)
  {
    if best.None? then {}
    else Unoffered(idx, genesis, best.value, idx[LastCommon(idx, genesis, best.value, h)].nHeight + 1, nEstimate)
  }

  ghost function StopOf(idx: Index, genesis: Hash, best: Option<Hash>, h: Hash): (stop: nat)
    requires WfIndex(idx, genesis) && h in idx && (best.Some? ==> best.value in idx)
    ensures stop <= idx[h].nHeight + 1
  {
    if best.None? then 0 else idx[LastCommon(idx, genesis, best.value, h)].nHeight + 1
  }

  ghost function RequeuedOf(idx: Index, genesis: Hash, best: Option<Hash>, h: Hash, nEstimate: nat): seq<Tx>
    requires WfIndex(idx, genesis) && h in idx && (best.Some? ==> best.value in idx)
  {
    if best.None? then []
    else Resurrectable(idx, genesis, best.value, StopOf(idx, genesis, best, h), nEstimate)
  }

  ghost function ConfirmedOf(idx: Index, genesis: Hash, best: Option<Hash>, h: Hash): seq<Tx>
    requires WfIndex(idx, genesis) && h in idx && (best.Some? ==> best.value in idx)
  {
    BranchTxs(idx, genesis, h, StopOf(idx, genesis, best, h), idx[h].nHeight + 1)
  }

  /** The height the next block will have. */
  ghost function NextHeight(idx: Index, best: Option<Hash>): int
    requires best.Some? ==> best.value in idx
  {
    if best.None? then 0 else idx[best.value].nHeight + 1
  }

  /** The pool is consistent beside the coins `u`, and spends no immature coinbase. */
  ghost predicate PoolFine(m: map<Hash, Tx>, u: CoinMap, nSpendHeight: int) {
    Fits(m, u) && Matured(m, u, nSpendHeight)
  }

  /** The effect of a switch on a pool, all cases. */
  lemma Switches(idx: Index, genesis: Hash, undo: UndoFiles, best: Option<Hash>, u: CoinMap, h: Hash, nEstimate: nat,
                 m: map<Hash, Tx>, o: Offering, w: World)
    requires WfIndex(idx, genesis) && IndexGenuine(idx, w) && h in idx && (best.Some? ==> best.value in idx)
    requires if best.None? then u == map[] else Replay(idx, genesis, best.value) == Some(u)
    requires Replay(idx, genesis, h) == Some(o.u) && o.rank == w.rank && o.nSpendHeight == idx[h].nHeight + 1
    requires TxsOk(m, w.rank) && Real(m, w) && Fits(m, u)
    requires UndoGood(idx, genesis, undo) && UndoCovers(idx, genesis, undo, h)
    ensures var vResurrect, vDelete := RequeuedOf(idx, genesis, best, h, nEstimate), ConfirmedOf(idx, genesis, best, h);
      && (Fits(Switched(m, vResurrect, vDelete, o), o.u) <==>
          forall x :: Stranded(m, o.u, LostOf(idx, genesis, best, h, nEstimate), x) ==>
            Swept(m, vResurrect, vDelete, o, x))
      && (Gentle(idx, genesis, best, h, nEstimate) && Matured(m, u, NextHeight(idx, best)) ==>
          PoolFine(Switched(m, vResurrect, vDelete, o), o.u, o.nSpendHeight))
  {
    hide Replay, UndoGood, UndoCovers, IndexGenuine, Swept, Switched, BranchTxs, Resurrectable, Matured, LastCommon,
      Unoffered, TxsOk, Real, Fits, WfIndex, Stranded;
    if best.None? {
      FitsNothing(m, w.rank);
      NoneStranded(o.u);
      EmptySwitch(ConfirmedOf(idx, genesis, best, h), o);
    } else {
      var b := best.value;
      var c := LastCommon(idx, genesis, b, h);
      CommonAncestor(idx, genesis, b, h);
      BranchSwitch(idx, genesis, b, h, idx[c].nHeight, nEstimate, m, o, w);
      if Gentle(idx, genesis, best, h, nEstimate) && Matured(m, u, NextHeight(idx, best)) {
        GentleSwitch(idx, genesis, undo, b, h, idx[c].nHeight, nEstimate, m, o, w);
      }
    }
  }

  lemma NoneStranded(u: CoinMap)
    ensures forall x :: !Stranded(map[], u, {}, x)
  {
  }

  lemma EmptySwitch(vDelete: seq<Tx>, o: Offering)
    ensures var q := Switched(map[], [], vDelete, o); Fits(q, o.u) && Matured(q, o.u, o.nSpendHeight)
  {
    ClearedEmpty(vDelete, o.rank);
  }

  lemma CommonAncestor(idx: Index, genesis: Hash, a: Hash, b: Hash)
    requires WfIndex(idx, genesis) && a in idx && b in idx
    ensures var k := idx[LastCommon(idx, genesis, a, b)].nHeight;
      AncestorAt(idx, genesis, a, k) == AncestorAt(idx, genesis, b, k)
  {
    LastCommonOnBranch(idx, genesis, a, b);
  }

  /** SetBestChain with its last two loops. A switch that is refused leaves the pool alone. One that is made turns it
      into the specified one, which fits the new coins if and only if everything stranded was swept away; and if the
      switch is gentle the pool is as fine as before. */
  method SwitchChain(chain: Chain, pool: CTxMemPool, pindexNew: Hash, envs: Hash -> Env, fFlushDisk: bool,
                     nEstimate: nat, oracles: nat -> bool) returns (ok: bool)
    requires chain.Valid() && pindexNew in chain.mapBlockIndex && IndexGenuine(chain.mapBlockIndex, pool.w)
    requires PoolOk(pool.mapTx, pool.mapNextTx, pool.w) && Fits(pool.mapTx, chain.pcoinsTip.Coins())
    modifies chain`undoFiles, chain`pindexBest, chain`pnext, chain`pblockindexFBBHLast, chain.pcoinsTip, pool
    ensures chain.Valid() && PoolOk(pool.mapTx, pool.mapNextTx, pool.w)
    ensures ok <==> Accepts(chain.mapBlockIndex, chain.genesis, pindexNew,
      StopOf(chain.mapBlockIndex, chain.genesis, old(chain.pindexBest), pindexNew), chain.fTestNet, envs)
    ensures !ok ==> pool.mapTx == old(pool.mapTx) && chain.pcoinsTip.Coins() == old(chain.pcoinsTip.Coins())
    ensures chain.pindexBest == if ok then Some(pindexNew) else old(chain.pindexBest)
    ensures ok ==>
      var idx, g, best, m := chain.mapBlockIndex, chain.genesis, old(chain.pindexBest), old(pool.mapTx);
      var u, nSpendHeight := chain.pcoinsTip.Coins(), chain.mapBlockIndex[pindexNew].nHeight + 1;
      var o := Offering(u, nSpendHeight, oracles, pool.w.rank);
      var vResurrect, vDelete := RequeuedOf(idx, g, best, pindexNew, nEstimate), ConfirmedOf(idx, g, best, pindexNew);
      && pool.mapTx == Switched(m, vResurrect, vDelete, o)
      && (Fits(pool.mapTx, u) <==>
          forall x :: Stranded(m, u, LostOf(idx, g, best, pindexNew, nEstimate), x) ==>
            Swept(m, vResurrect, vDelete, o, x))
      && (Gentle(idx, g, best, pindexNew, nEstimate)
          && Matured(m, old(chain.pcoinsTip.Coins()), NextHeight(idx, best))
          ==> PoolFine(pool.mapTx, u, nSpendHeight))
  {
    hide CoinsViewCache.Valid, CoinsViewCache.Contents, CoinsViewCache.Coins, CoinsViewCache.Best, Replay, Accepts,
      Fits, PoolOk, IndexGenuine, Matured, Swept, Stranded, Switched, UndoGood, UndoCovers, Linked, OnBranch,
      ExemptFresh, LastCommon, BranchTxs, Resurrectable, Unoffered, WfIndex, PoolFine, Gentle, CoinsReal, Genuine;
    ghost var idx, best, m, before := chain.mapBlockIndex, chain.pindexBest, pool.mapTx, chain.pcoinsTip.Coins();
    var vResurrect, vDelete;
    ok, vResurrect, vDelete := chain.SetBestChain(pindexNew, envs, fFlushDisk, nEstimate);
    if ok {
      var o := Offering(chain.pcoinsTip.Coins(), chain.mapBlockIndex[pindexNew].nHeight + 1, oracles, pool.w.rank);
      QueuesGenuine(idx, chain.genesis, best, before, pindexNew, nEstimate, pool.w);
      ReplayTraced(idx, chain.genesis, pindexNew, pool.w);
      TracedReal(o.u, pool.w);
      TxsAreOk(m, pool.mapNextTx, pool.w);
      Switches(idx, chain.genesis, chain.undoFiles, best, before, pindexNew, nEstimate, m, o, pool.w);
      SwitchPool(pool, vResurrect, vDelete, o);
    }
  }

  lemma QueuesGenuine(idx: Index, genesis: Hash, best: Option<Hash>, u: CoinMap, h: Hash, nEstimate: nat, w: World)
    requires WfIndex(idx, genesis) && IndexGenuine(idx, w) && h in idx && (best.Some? ==> best.value in idx)
    requires best.Some? ==> Replay(idx, genesis, best.value) == Some(u)
    ensures AllGenuine(RequeuedOf(idx, genesis, best, h, nEstimate), w)
    ensures AllGenuine(ConfirmedOf(idx, genesis, best, h), w)
  {
    hide Replay, AllGenuine, Genuine, Resurrectable, BranchTxs, LastCommon;
    NoneGenuine(w);
    BranchTxsGenuine(idx, genesis, h, StopOf(idx, genesis, best, h), idx[h].nHeight + 1, w);
    if best.Some? {
      var k := idx[LastCommon(idx, genesis, best.value, h)].nHeight;
      BranchMovesOk(idx, genesis, best.value, k, w);
      ResurrectableGenuine(idx, genesis, best.value, k, nEstimate, w);
    }
  }

  lemma NoneGenuine(w: World)
    ensures AllGenuine([], w)
  {
  }

  lemma {:induction false} BranchTxsGenuine(idx: Index, genesis: Hash, h: Hash, stop: nat, m: nat, w: World)
    requires WfIndex(idx, genesis) && IndexGenuine(idx, w) && h in idx && stop <= m <= idx[h].nHeight + 1
    ensures AllGenuine(BranchTxs(idx, genesis, h, stop, m), w)
    decreases m
  {
    hide Genuine, AncestorAt;
    if m != stop {
      BranchTxsGenuine(idx, genesis, h, stop, m - 1, w);
      var a := AncestorAt(idx, genesis, h, m - 1);
      assert forall i :: 0 <= i < |idx[a].vtx| ==> Genuine(idx[a].vtx[i], w);
    }
  }
}
