/** The grant database beside the chain: the table for an award block is the one of the branch below it. */
module GrantChain {
  import opened CoinTypes
  import opened Supply
  import opened BlockTree
  import opened ChainState
  import opened Election
  import GrantElection
  import opened GrantVotes
  import opened GrantBalances

  /** The database has counted the branch as far as height `k`, or nothing yet. */
  ghost predicate CountedTo(idx: Index, genesis: Hash, h: Hash, k: int, l: Ledger, source: OutPoint -> TxOut,
                            textOf: Script -> Name)
    requires WfIndex(idx, genesis) && h in idx
  {
    if k < 0 then l == START
    else k <= idx[h].nHeight && l == LedgerOf(idx, genesis, AncestorAt(idx, genesis, h, k), source, textOf)
  }

  lemma CountedIs(idx: Index, genesis: Hash, h: Hash, k: int, l: Ledger, source: OutPoint -> TxOut,
                  textOf: Script -> Name)
    requires WfIndex(idx, genesis) && h in idx && -1 <= k <= idx[h].nHeight
    ensures CountedTo(idx, genesis, h, k, l, source, textOf) <==>
            l == AfterBlocks(START, BranchOf(idx, genesis, h)[..k + 1], source, textOf)
  {
    if k < 0 {
      assert BranchOf(idx, genesis, h)[..k + 1] == [];
      assert AfterBlocks(START, [], source, textOf) == START;
    } else {
      BranchFront(idx, genesis, h, k);
    }
  }

  /** Counting on from one height to another. */
  lemma CountOn(idx: Index, genesis: Hash, h: Hash, k: int, n: int, l: Ledger, source: OutPoint -> TxOut,
                textOf: Script -> Name)
    requires WfIndex(idx, genesis) && h in idx && -1 <= k <= n <= idx[h].nHeight && |l.votes| == |OFFICES|
    requires CountedTo(idx, genesis, h, k, l, source, textOf)
    ensures CountedTo(idx, genesis, h, n, AfterBlocks(l, BranchOf(idx, genesis, h)[k + 1..n + 1], source, textOf),
                      source, textOf)
  {
    hide CountedTo, AfterBlocks, AncestorAt, WfIndex;
    var b := BranchOf(idx, genesis, h);
    CountedIs(idx, genesis, h, k, l, source, textOf);
    AfterMore(START, b[..k + 1], b[k + 1..n + 1], source, textOf);
    assert b[..k + 1] + b[k + 1..n + 1] == b[..n + 1];
    CountedIs(idx, genesis, h, n, AfterBlocks(l, b[k + 1..n + 1], source, textOf), source, textOf);
  }

  /** What holds of a branch holds of the part of it below an ancestor. */
  lemma BelowAncestor(idx: Index, genesis: Hash, undo: UndoFiles, h: Hash, k: nat, source: OutPoint -> TxOut)
    requires WfIndex(idx, genesis) && h in idx && k <= idx[h].nHeight
    requires UndoCovers(idx, genesis, undo, h) && FindableBranch(idx, genesis, h, source)
    ensures UndoCovers(idx, genesis, undo, AncestorAt(idx, genesis, h, k))
    ensures FindableBranch(idx, genesis, AncestorAt(idx, genesis, h, k), source)
  {
    hide Findable;
    forall j | 0 <= j <= k
      ensures AncestorAt(idx, genesis, AncestorAt(idx, genesis, h, k), j) == AncestorAt(idx, genesis, h, j)
    {
      AncestorOfAncestor(idx, genesis, h, k, j);
    }
  }

  lemma NothingCountable()
    ensures Countable(START)
  {
    assert GrantElection.Positive(map[]) == map[];
  }

  /** The totals are small enough at every height. */
  lemma CountableAt(idx: Index, genesis: Hash, undo: UndoFiles, h: Hash, k: int, l: Ledger, fTestNet: bool,
                    source: OutPoint -> TxOut, textOf: Script -> Name)
    requires WfIndex(idx, genesis) && h in idx && -1 <= k <= idx[h].nHeight <= LAST_COUNTED
    requires PlainGenesis(idx, genesis) && UndoGood(idx, genesis, undo) && UndoCovers(idx, genesis, undo, h)
    requires FindableBranch(idx, genesis, h, source) && Funded(idx, genesis, h, fTestNet)
    requires CountedTo(idx, genesis, h, k, l, source, textOf)
    ensures Countable(l)
  {
    hide Countable, Funded, UndoGood, UndoCovers, FindableBranch, PlainGenesis, LedgerOf;
    if k < 0 {
      NothingCountable();
    } else {
      BelowAncestor(idx, genesis, undo, h, k, source);
      FundedAncestor(idx, genesis, h, k, fTestNet);
      BranchCountable(idx, genesis, undo, AncestorAt(idx, genesis, h, k), fTestNet, source, textOf);
    }
  }

  lemma CountPart(idx: Index, genesis: Hash, undo: UndoFiles, h: Hash, k: int, n: int, l: Ledger, fTestNet: bool,
                  source: OutPoint -> TxOut, textOf: Script -> Name)
    requires WfIndex(idx, genesis) && h in idx && -1 <= k <= n <= idx[h].nHeight <= LAST_COUNTED
    requires PlainGenesis(idx, genesis) && UndoGood(idx, genesis, undo) && UndoCovers(idx, genesis, undo, h)
    requires FindableBranch(idx, genesis, h, source) && Funded(idx, genesis, h, fTestNet)
    requires |l.votes| == |OFFICES| && CountedTo(idx, genesis, h, k, l, source, textOf)
    ensures var l1 := AfterBlocks(l, BranchOf(idx, genesis, h)[k + 1..n + 1], source, textOf);
      CountedTo(idx, genesis, h, n, l1, source, textOf) && Countable(l1)
  {
    hide Countable, AfterBlocks, Funded, UndoGood, UndoCovers, FindableBranch, PlainGenesis, WfIndex, BranchOf,
      CountedTo;
    CountOn(idx, genesis, h, k, n, l, source, textOf);
    CountableAt(idx, genesis, undo, h, n, AfterBlocks(l, BranchOf(idx, genesis, h)[k + 1..n + 1], source, textOf),
                fTestNet, source, textOf);
  }

  /** The blocks from the last counted one to height `n`, if any, can be counted, and counting them gets there. */
  lemma CountDue(idx: Index, genesis: Hash, undo: UndoFiles, h: Hash, k: int, n: int, l: Ledger, fTestNet: bool,
                 source: OutPoint -> TxOut, textOf: Script -> Name)
    requires WfIndex(idx, genesis) && h in idx && -1 <= k <= idx[h].nHeight && n <= idx[h].nHeight <= LAST_COUNTED
    requires PlainGenesis(idx, genesis) && UndoGood(idx, genesis, undo) && UndoCovers(idx, genesis, undo, h)
    requires FindableBranch(idx, genesis, h, source) && Funded(idx, genesis, h, fTestNet)
    requires |l.votes| == |OFFICES| && CountedTo(idx, genesis, h, k, l, source, textOf)
    ensures var due := Between(BranchOf(idx, genesis, h), k + 1, n + 1);
      && CountableAlong(l, due, source, textOf) && |due| == (if k < n then n - k else 0)
      && CountedTo(idx, genesis, h, k + |due|, AfterBlocks(l, due, source, textOf), source, textOf)
  {
    hide Countable, AfterBlocks, Funded, UndoGood, UndoCovers, FindableBranch, PlainGenesis, WfIndex, BranchOf,
      CountedTo;
    var b := BranchOf(idx, genesis, h);
    var due := Between(b, k + 1, n + 1);
    forall j | 0 <= j <= |due|
      ensures CountedTo(idx, genesis, h, k + j, AfterBlocks(l, due[..j], source, textOf), source, textOf)
      ensures Countable(AfterBlocks(l, due[..j], source, textOf))
    {
      assert due[..j] == b[k + 1..k + j + 1];
      CountPart(idx, genesis, undo, h, k, k + j, l, fTestNet, source, textOf);
    }
    assert due[..|due|] == due;
  }

  lemma TalliesBelow(idx: Index, genesis: Hash, undo: UndoFiles, h: Hash, k: nat, fTestNet: bool,
                     source: OutPoint -> TxOut, textOf: Script -> Name)
    requires WfIndex(idx, genesis) && h in idx && k <= idx[h].nHeight
    requires PlainGenesis(idx, genesis) && UndoGood(idx, genesis, undo) && UndoCovers(idx, genesis, undo, h)
    requires FindableBranch(idx, genesis, h, source) && Funded(idx, genesis, h, fTestNet)
    ensures var a := AncestorAt(idx, genesis, h, k);
      && Replay(idx, genesis, a).Some?
      && Tallies(LedgerOf(idx, genesis, a, source, textOf), Replay(idx, genesis, a).value,
                 idx[genesis].vtx[0].vout, textOf)
  {
    hide Funded, UndoGood, UndoCovers, FindableBranch, LedgerOf, Tallies, Replay;
    var a := AncestorAt(idx, genesis, h, k);
    BelowAncestor(idx, genesis, undo, h, k, source);
    FundedAncestor(idx, genesis, h, k, fTestNet);
    SupplyBound(idx, genesis, a, fTestNet);
    BranchTallies(idx, genesis, undo, a, source, textOf);
  }

  /** Main result: getGrantAwards beside the chain leaves the table of the branch as it is one interval below the award
      block, the balances being what the addresses hold there. */
  method AwardsFor(chain: Chain, db: GrantDatabase, nHeight: nat) returns (ok: bool)
    requires chain.Valid() && chain.pindexBest.Some? && db.Valid()
    requires var idx, best := chain.mapBlockIndex, chain.pindexBest.value;
      && PlainGenesis(idx, chain.genesis) && FindableBranch(idx, chain.genesis, best, db.source)
      && Funded(idx, chain.genesis, best, chain.fTestNet) && idx[best].nHeight <= LAST_COUNTED
      && nHeight - GRANT_BLOCK_INTERVAL <= idx[best].nHeight
      && CountedTo(idx, chain.genesis, best, db.grantDatabaseBlockHeight, db.Counted(), db.source, db.textOf)
    modifies db
    ensures db.Valid() && ok == IsGrantAwardBlock(nHeight) && chain.Valid()
    ensures CountedTo(chain.mapBlockIndex, chain.genesis, chain.pindexBest.value, db.grantDatabaseBlockHeight,
                      db.Counted(), db.source, db.textOf)
    ensures ok && old(db.grantDatabaseBlockHeight) < nHeight - GRANT_BLOCK_INTERVAL ==>
      var idx := chain.mapBlockIndex;
      var below := AncestorAt(idx, chain.genesis, chain.pindexBest.value, nHeight - GRANT_BLOCK_INTERVAL);
      && db.Counted() == LedgerOf(idx, chain.genesis, below, db.source, db.textOf)
      && AllGood(db.votingPreferences) && db.grantAwards == TableOf(db.Counted(), nHeight)
      && TableFor(db.grantAwards, nHeight)
      && Replay(idx, chain.genesis, below).Some?
      && Tallies(db.Counted(), Replay(idx, chain.genesis, below).value, idx[chain.genesis].vtx[0].vout, db.textOf)
  {
    hide Countable, CountableAlong, AfterBlocks, Funded, UndoGood, UndoCovers, FindableBranch, PlainGenesis, BranchOf,
      LedgerOf, Replay, Tallies, Linked, ExemptFresh, OnBranch, Genuine, AllGood, WfIndex, AncestorAt, TableOf,
      IsGrantAwardBlock;
    ghost var idx, genesis, best := chain.mapBlockIndex, chain.genesis, chain.pindexBest.value;
    ghost var k, l, n := db.grantDatabaseBlockHeight, db.Counted(), nHeight - GRANT_BLOCK_INTERVAL;
    CountDue(idx, genesis, chain.undoFiles, best, k, n, l, chain.fTestNet, db.source, db.textOf);
    if n >= 0 {
      TalliesBelow(idx, genesis, chain.undoFiles, best, n, chain.fTestNet, db.source, db.textOf);
    }
    AfterNone(l, db.source, db.textOf);
    var blocks := BranchOf(chain.mapBlockIndex, chain.genesis, chain.pindexBest.value);
    ok := db.GetGrantAwards(blocks, nHeight);
    if ok && k < n {
      TableIs(db.Counted(), nHeight);
    }
  }

  lemma TableIs(l: Ledger, nHeight: nat)
    requires |l.votes| == |OFFICES| && AllGood(l.votes)
    ensures TableFor(TableOf(l, nHeight), nHeight)
  {
  }
}
