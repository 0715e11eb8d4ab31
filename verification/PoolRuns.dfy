/** Whole runs of the chain and the memory pool: blocks arriving, transactions offered, the best branch switching. */
module PoolRuns {
  import opened Basics
  import opened CoinTypes
  import opened Utxo
  import opened Supply
  import opened CoinsView
  import opened BlockTree
  import opened ChainState
  import opened MemPool
  import opened MemPoolReorg
  import opened PoolMaturity
  import opened PoolChain

  datatype Call =
    | Arrives(hash: Hash, hashPrevBlock: Hash, vtx: seq<Tx>)
    | Switch(pindexNew: Hash, envs: Hash -> Env, fFlushDisk: bool, nEstimate: nat, oracles: nat -> bool)
    | Offers(tx: Tx, oracle: bool)

  /** What the calls before determine: the index and the best block. */
  datatype Sketch = Sketch(idx: Index, best: Option<Hash>)

  ghost predicate Known(s: Sketch, genesis: Hash, h: Hash) {
    WfIndex(s.idx, genesis) && h in s.idx && (s.best.Some? ==> s.best.value in s.idx)
  }

  ghost function Next(s: Sketch, genesis: Hash, fTestNet: bool, c: Call): Sketch {
    match c
    case Arrives(hash, prev, vtx) =>
      if hash !in s.idx && prev in s.idx then s.(idx := WithBlock(s.idx, hash, prev, vtx)) else s
    case Switch(h, envs, _, _, _) =>
      if Known(s, genesis, h) && Accepts(s.idx, genesis, h, StopOf(s.idx, genesis, s.best, h), fTestNet, envs)
      then s.(best := Some(h)) else s
    case Offers(_, _) => s
  }

  ghost function After(first: Sketch, genesis: Hash, fTestNet: bool, calls: seq<Call>): Sketch {
    if calls == [] then first
    else Next(After(first, genesis, fTestNet, calls[..|calls| - 1]), genesis, fTestNet, calls[|calls| - 1])
  }

  /** Ids are hashes of their transactions; a block exempt from BIP 30 overwrites nothing; a switch is gentle. */
  ghost predicate Proper(s: Sketch, genesis: Hash, w: World, c: Call) {
    match c
    case Arrives(hash, prev, vtx) =>
      AllGenuine(vtx, w) && (WfIndex(s.idx, genesis) ==> MayArrive(s.idx, genesis, hash, prev, vtx))
    case Switch(h, _, _, nEstimate, _) => Known(s, genesis, h) ==> Gentle(s.idx, genesis, s.best, h, nEstimate)
    case Offers(tx, _) => Genuine(tx, w)
  }

  lemma AcceptedMatured(m: map<Hash, Tx>, next: map<OutPoint, InPoint>, u: CoinMap, nSpendHeight: int, tx: Tx,
                        oracle: bool)
    requires Indexed(m, next) && Acceptable(m, next, u, nSpendHeight, tx, oracle) && Matured(m, u, nSpendHeight)
    ensures Matured(m[tx.txid := tx], u, nSpendHeight)
  {
    hide Indexed, Acceptable, Welcome, MatureInput;
    WelcomeIs(m, next, u, nSpendHeight, tx, oracle);
    forall i | 0 <= i < |tx.vin|
      ensures MatureInput(u, tx.vin[i], nSpendHeight)
    {
      WelcomeMature(m, u, nSpendHeight, tx, oracle, i);
    }
  }

  lemma CoinsAreReal(idx: Index, genesis: Hash, best: Option<Hash>, u: CoinMap, w: World)
    requires WfIndex(idx, genesis) && IndexGenuine(idx, w) && (best.Some? ==> best.value in idx)
    requires if best.None? then u == map[] else Replay(idx, genesis, best.value) == Some(u)
    ensures CoinsReal(u, w)
  {
    hide Replay, IndexGenuine, WfIndex;
    if best.Some? {
      ReplayTraced(idx, genesis, best.value, w);
      TracedReal(u, w);
    }
  }

  /** accept on the coins of the best block. */
  method OfferTo(chain: Chain, pool: CTxMemPool, tx: Tx, oracle: bool) returns (ok: bool)
    requires chain.Valid() && IndexGenuine(chain.mapBlockIndex, pool.w) && Genuine(tx, pool.w)
    requires PoolOk(pool.mapTx, pool.mapNextTx, pool.w)
    requires PoolFine(pool.mapTx, chain.pcoinsTip.Coins(), NextHeight(chain.mapBlockIndex, chain.pindexBest))
    modifies pool
    ensures PoolOk(pool.mapTx, pool.mapNextTx, pool.w)
    ensures PoolFine(pool.mapTx, chain.pcoinsTip.Coins(), NextHeight(chain.mapBlockIndex, chain.pindexBest))
    ensures ok <==> Welcome(old(pool.mapTx), chain.pcoinsTip.Coins(),
      NextHeight(chain.mapBlockIndex, chain.pindexBest), tx, oracle)
    ensures pool.mapTx == if ok then old(pool.mapTx)[tx.txid := tx] else old(pool.mapTx)
  {
    hide CoinsViewCache.Valid, CoinsViewCache.Contents, CoinsViewCache.Coins, CoinsViewCache.Best, Replay, Fits, PoolOk,
      IndexGenuine, Matured, UndoGood, UndoCovers, Linked, OnBranch, ExemptFresh, WfIndex, CoinsReal, Genuine,
      Acceptable, Welcome, Indexed, TxsOk, Real;
    var u := chain.pcoinsTip.Coins();
    var nSpendHeight := if chain.pindexBest.None? then 0 else chain.mapBlockIndex[chain.pindexBest.value].nHeight + 1;
    ghost var m, next := pool.mapTx, pool.mapNextTx;
    CoinsAreReal(chain.mapBlockIndex, chain.genesis, chain.pindexBest, u, pool.w);
    TxsAreOk(m, next, pool.w);
    WelcomeIs(m, next, u, nSpendHeight, tx, oracle);
    ok := pool.Accept(tx, u, nSpendHeight, oracle);
    if ok {
      AcceptedMatured(m, next, u, nSpendHeight, tx, oracle);
    }
  }

  lemma GenuineWith(idx: Index, h: Hash, p: Hash, vtx: seq<Tx>, w: World)
    requires IndexGenuine(idx, w) && AllGenuine(vtx, w) && p in idx
    ensures IndexGenuine(WithBlock(idx, h, p, vtx), w)
  {
    hide Genuine;
  }

  /** One call keeps the pool fine. */
  method Step(chain: Chain, pool: CTxMemPool, c: Call)
    requires chain.Valid() && IndexGenuine(chain.mapBlockIndex, pool.w)
    requires PoolOk(pool.mapTx, pool.mapNextTx, pool.w)
    requires PoolFine(pool.mapTx, chain.pcoinsTip.Coins(), NextHeight(chain.mapBlockIndex, chain.pindexBest))
    requires Proper(Sketch(chain.mapBlockIndex, chain.pindexBest), chain.genesis, pool.w, c)
    modifies chain, chain.pcoinsTip, pool
    ensures chain.Valid() && IndexGenuine(chain.mapBlockIndex, pool.w)
    ensures PoolOk(pool.mapTx, pool.mapNextTx, pool.w)
    ensures PoolFine(pool.mapTx, chain.pcoinsTip.Coins(), NextHeight(chain.mapBlockIndex, chain.pindexBest))
    ensures Sketch(chain.mapBlockIndex, chain.pindexBest)
         == Next(old(Sketch(chain.mapBlockIndex, chain.pindexBest)), chain.genesis, chain.fTestNet, c)
  {
    hide CoinsViewCache.Valid, CoinsViewCache.Contents, CoinsViewCache.Coins, CoinsViewCache.Best, Replay, Accepts,
      Fits, PoolOk, IndexGenuine, Matured, UndoGood, UndoCovers, Linked, OnBranch, ExemptFresh, WfIndex, Gentle,
      Swept, Stranded, Switched, MayArrive, AllGenuine, Genuine, StopOf, Welcome;
    match c
    case Arrives(hash, prev, vtx) =>
      ghost var idx := chain.mapBlockIndex;
      var ok := chain.AddToBlockIndex(hash, prev, vtx);
      if ok {
        GenuineWith(idx, hash, prev, vtx, pool.w);
      }
    case Switch(h, envs, fFlushDisk, nEstimate, oracles) =>
      if h in chain.mapBlockIndex {
        var ok := SwitchChain(chain, pool, h, envs, fFlushDisk, nEstimate, oracles);
      }
    case Offers(tx, oracle) =>
      var ok := OfferTo(chain, pool, tx, oracle);
  }

  /** Main result: after any calls in any order, as long as every switch disconnects fewer than 60 blocks, all above the
      last checkpoint, and does not lower the height, every input of every pool transaction is an unspent output of the
      active chain or an output of the pool, none spends an immature coinbase, and the index of the pool is exact. */
  method Run(genesis: Hash, vtx: seq<Tx>, fTestNet: bool, w: World, calls: seq<Call>)
    returns (chain: Chain, pool: CTxMemPool)
    requires AllGenuine(vtx, w)
    requires forall i :: 0 <= i < |calls| ==>
      Proper(After(Sketch(map[genesis := IndexEntry(None, 0, vtx)], None), genesis, fTestNet, calls[..i]), genesis, w,
        calls[i])
    ensures chain.Valid() && pool.w == w && PoolOk(pool.mapTx, pool.mapNextTx, w)
    ensures Sketch(chain.mapBlockIndex, chain.pindexBest)
         == After(Sketch(map[genesis := IndexEntry(None, 0, vtx)], None), genesis, fTestNet, calls)
    ensures Fits(pool.mapTx, chain.pcoinsTip.Coins())
    ensures Matured(pool.mapTx, chain.pcoinsTip.Coins(), NextHeight(chain.mapBlockIndex, chain.pindexBest))
  {
    hide Chain.Valid, Proper, Next, PoolOk, IndexGenuine, CoinsViewCache.Coins, CoinsViewCache.Contents,
      CoinsViewCache.Best;
    chain := new Chain(genesis, vtx, fTestNet);
    pool := new CTxMemPool(w);
    ghost var first := Sketch(chain.mapBlockIndex, None);
    FirstGenuine(genesis, vtx, w);
    for i := 0 to |calls|
      invariant chain.Valid() && chain.genesis == genesis && chain.fTestNet == fTestNet && pool.w == w
      invariant fresh(chain) && fresh(chain.pcoinsTip) && fresh(pool)
      invariant IndexGenuine(chain.mapBlockIndex, w) && PoolOk(pool.mapTx, pool.mapNextTx, w)
      invariant Sketch(chain.mapBlockIndex, chain.pindexBest) == After(first, genesis, fTestNet, calls[..i])
      invariant chain.pindexBest.Some? ==> chain.pindexBest.value in chain.mapBlockIndex
      invariant PoolFine(pool.mapTx, chain.pcoinsTip.Coins(), NextHeight(chain.mapBlockIndex, chain.pindexBest))
    {
      assert calls[..i + 1][..i] == calls[..i];
      Step(chain, pool, calls[i]);
      BestKnown(chain);
    }
    assert calls[..|calls|] == calls;
  }

  lemma BestKnown(chain: Chain)
    requires chain.Valid()
    ensures chain.pindexBest.Some? ==> chain.pindexBest.value in chain.mapBlockIndex
  {
  }

  lemma FirstGenuine(genesis: Hash, vtx: seq<Tx>, w: World)
    requires AllGenuine(vtx, w)
    ensures IndexGenuine(map[genesis := IndexEntry(None, 0, vtx)], w)
  {
    hide Genuine;
  }
}
