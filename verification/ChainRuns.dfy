/** Whole runs of the chain: blocks arriving and the best branch switching, in any order. */
module ChainRuns {
  import opened Basics
  import opened CoinTypes
  import opened Supply
  import opened BlockTree
  import opened ChainState

  datatype Call =
    | Arrives(hash: Hash, hashPrevBlock: Hash, vtx: seq<Tx>)
    | SetBest(pindexNew: Hash, envs: (Hash, nat) -> Env, fFlushDisk: bool)
    | FindHeight(nHeight: int)

  /** The index after a call: a new block under a known parent is added. */
  function IndexNext(idx: Index, c: Call): Index {
    if c.Arrives? && c.hash !in idx && c.hashPrevBlock in idx then WithBlock(idx, c.hash, c.hashPrevBlock, c.vtx)
    else idx
  }

  function IndexAfter(first: Index, calls: seq<Call>): Index {
    if calls == [] then first else IndexNext(IndexAfter(first, calls[..|calls| - 1]), calls[|calls| - 1])
  }

  /** A block exempt from BIP 30 overwrites nothing on its branch; grants are checked against the table computed for
      the height. */
  ghost predicate Proper(idx: Index, genesis: Hash, c: Call) {
    match c
    case Arrives(hash, hashPrevBlock, vtx) =>
      WfIndex(idx, genesis) ==> MayArrive(idx, genesis, hash, hashPrevBlock, vtx)
    case SetBest(_, envs, _) => forall h, n: nat :: IsGrantAwardBlock(n) ==> TableFor(envs(h, n).grantAwards, n)
    case FindHeight(_) => true
  }

  /** The best branch kept to the coinbase limit. */
  ghost predicate BestFunded(idx: Index, genesis: Hash, best: Option<Hash>, fTestNet: bool)
    requires WfIndex(idx, genesis)
  {
    best.Some? ==> best.value in idx && Funded(idx, genesis, best.value, fTestNet)
  }

  lemma {:induction false} LastCommonOnBranch(idx: Index, genesis: Hash, a: Hash, b: Hash)
    requires WfIndex(idx, genesis) && a in idx && b in idx
    ensures var f := LastCommon(idx, genesis, a, b); OnBranch(idx, genesis, f, a) && OnBranch(idx, genesis, f, b)
    decreases idx[a].nHeight + idx[b].nHeight
  {
    HeightZero(idx, genesis, a);
    HeightZero(idx, genesis, b);
    if a != b {
      if idx[a].nHeight >= idx[b].nHeight {
        LastCommonOnBranch(idx, genesis, Parent(idx, genesis, a), b);
      } else {
        LastCommonOnBranch(idx, genesis, a, Parent(idx, genesis, b));
      }
    }
  }

  lemma {:induction false} FundedGrown(idx: Index, idx2: Index, genesis: Hash, h: Hash, fTestNet: bool)
    requires WfIndex(idx, genesis) && WfIndex(idx2, genesis) && Grown(idx, idx2) && h in idx
    requires Funded(idx, genesis, h, fTestNet)
    ensures Funded(idx2, genesis, h, fTestNet)
    decreases idx[h].nHeight
  {
    hide CoinbaseAllowed, TableFor, Replay;
    if h != genesis {
      var p := Parent(idx, genesis, h);
      FundedGrown(idx, idx2, genesis, p, fTestNet);
      ReplayGrown(idx, idx2, genesis, p);
    }
  }

  /** A switch that was accepted leaves a funded branch. */
  lemma SwitchFunded(idx: Index, genesis: Hash, best: Option<Hash>, h: Hash, stop: nat, fTestNet: bool,
      envs: Hash -> Env)
    requires WfIndex(idx, genesis) && h in idx && BestFunded(idx, genesis, best, fTestNet)
    requires stop == if best.None? then 0 else idx[LastCommon(idx, genesis, best.value, h)].nHeight + 1
    requires Accepts(idx, genesis, h, stop, fTestNet, envs) && Tabled(idx, genesis, h, stop, envs)
    ensures Funded(idx, genesis, h, fTestNet)
  {
    hide Accepts, Funded, Tabled, LastCommon;
    if best.None? {
      AcceptsFunded(idx, genesis, h, 0, fTestNet, envs);
    } else {
      LastCommonOnBranch(idx, genesis, best.value, h);
      SwitchKeepsSupply(idx, genesis, best.value, h, fTestNet, envs);
    }
  }

  /** The height of a block of the index. */
  function HeightIn(idx: Index, h: Hash): nat {
    if h in idx then idx[h].nHeight else 0
  }

  /** What each block of the index is checked with at its height. */
  function AtHeights(idx: Index, envs: (Hash, nat) -> Env): Hash -> Env {
    (h: Hash) => envs(h, HeightIn(idx, h))
  }

  method SwitchTo(chain: Chain, pindexNew: Hash, envs: (Hash, nat) -> Env, fFlushDisk: bool)
    requires chain.Valid() && pindexNew in chain.mapBlockIndex
    requires forall b, n: nat :: IsGrantAwardBlock(n) ==> TableFor(envs(b, n).grantAwards, n)
    requires BestFunded(chain.mapBlockIndex, chain.genesis, chain.pindexBest, chain.fTestNet)
    modifies chain, chain.pcoinsTip
    ensures chain.Valid() && chain.mapBlockIndex == old(chain.mapBlockIndex)
    ensures BestFunded(chain.mapBlockIndex, chain.genesis, chain.pindexBest, chain.fTestNet)
  {
    hide Funded, Replay, Accepts, TableFor, Linked, UndoCovers, UndoGood, UndoRight, AncestorAt, OnBranch,
      ExemptFresh, WfIndex, Tabled;
    var m := chain.mapBlockIndex;
    ghost var best, stop := chain.pindexBest, chain.ForkStop(chain.pindexBest, pindexNew);
    var at := AtHeights(m, envs);
    var ok, _, _ := chain.SetBestChain(pindexNew, at, fFlushDisk, 0);
    if ok {
      TablesOf(m, chain.genesis, pindexNew, stop, envs);
      SwitchFunded(m, chain.genesis, best, pindexNew, stop, chain.fTestNet, at);
    }
  }

  /** One call keeps the best branch funded. A switch is asked for blocks of the index only. */
  method Step(chain: Chain, c: Call)
    requires chain.Valid() && Proper(chain.mapBlockIndex, chain.genesis, c)
    requires BestFunded(chain.mapBlockIndex, chain.genesis, chain.pindexBest, chain.fTestNet)
    modifies chain, chain.pcoinsTip
    ensures chain.Valid() && chain.mapBlockIndex == IndexNext(old(chain.mapBlockIndex), c)
    ensures BestFunded(chain.mapBlockIndex, chain.genesis, chain.pindexBest, chain.fTestNet)
  {
    hide Funded, Replay, Accepts, TableFor, Linked, UndoCovers, UndoGood, UndoRight, AncestorAt, OnBranch,
      ExemptFresh, WfIndex, MayArrive, Tabled;
    ghost var idx := chain.mapBlockIndex;
    match c
    case Arrives(hash, hashPrevBlock, vtx) =>
      var ok := chain.AddToBlockIndex(hash, hashPrevBlock, vtx);
      if chain.pindexBest.Some? {
        FundedGrown(idx, chain.mapBlockIndex, chain.genesis, chain.pindexBest.value, chain.fTestNet);
      }
    case SetBest(pindexNew, envs, fFlushDisk) =>
      if pindexNew in chain.mapBlockIndex {
        SwitchTo(chain, pindexNew, envs, fFlushDisk);
      }
    case FindHeight(nHeight) =>
      var h := chain.FindBlockByHeight(nHeight);
  }

  lemma TablesOf(idx: Index, genesis: Hash, h: Hash, stop: nat, envs: (Hash, nat) -> Env)
    requires WfIndex(idx, genesis) && h in idx
    requires forall b, n: nat :: IsGrantAwardBlock(n) ==> TableFor(envs(b, n).grantAwards, n)
    ensures Tabled(idx, genesis, h, stop, AtHeights(idx, envs))
  {
    hide TableFor, WfIndex;
    var at := AtHeights(idx, envs);
    forall k | stop <= k <= idx[h].nHeight && IsGrantAwardBlock(k)
      ensures TableFor(at(AncestorAt(idx, genesis, h, k)).grantAwards, k)
    {
      var a := AncestorAt(idx, genesis, h, k);
      assert HeightIn(idx, a) == k;
      assert at(a) == envs(a, k);
      assert TableFor(envs(a, k).grantAwards, k);
    }
  }

  /** Main result: after any calls in any order, the coins are the replay of the best branch from genesis, whatever was
      connected, disconnected and refused on the way, and their total value is within what premine, subsidies and
      grants allow up to its height. */
  method Run(genesis: Hash, vtx: seq<Tx>, fTestNet: bool, calls: seq<Call>) returns (chain: Chain)
    requires forall i :: 0 <= i < |calls| ==>
      Proper(IndexAfter(map[genesis := IndexEntry(None, 0, vtx)], calls[..i]), genesis, calls[i])
    ensures chain.Valid() && chain.genesis == genesis && chain.fTestNet == fTestNet
    ensures chain.mapBlockIndex == IndexAfter(map[genesis := IndexEntry(None, 0, vtx)], calls)
    ensures match chain.pindexBest
      case None => chain.pcoinsTip.Coins() == map[]
      case Some(b) =>
        && b in chain.mapBlockIndex
        && Replay(chain.mapBlockIndex, genesis, b) == Some(chain.pcoinsTip.Coins())
        && Total(chain.pcoinsTip.Coins()) <= TotalAllowance(chain.mapBlockIndex[b].nHeight, fTestNet)
  {
    hide Funded, Replay, Proper, Total, TotalAllowance;
    chain := new Chain(genesis, vtx, fTestNet);
    ghost var first := chain.mapBlockIndex;
    for i := 0 to |calls|
      invariant chain.Valid() && chain.genesis == genesis && chain.fTestNet == fTestNet
      invariant fresh(chain) && fresh(chain.pcoinsTip) && chain.mapBlockIndex == IndexAfter(first, calls[..i])
      invariant BestFunded(chain.mapBlockIndex, chain.genesis, chain.pindexBest, chain.fTestNet)
    {
      assert calls[..i + 1][..i] == calls[..i];
      Step(chain, calls[i]);
    }
    assert calls[..|calls|] == calls;
    if chain.pindexBest.Some? {
      SupplyBound(chain.mapBlockIndex, genesis, chain.pindexBest.value, fTestNet);
    }
  }
}
