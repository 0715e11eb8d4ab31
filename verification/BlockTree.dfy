/** The block index as a tree, the coins obtained by replaying a branch of it, and the undo files. */
module BlockTree {
  import opened Basics
  import opened CoinTypes
  import opened Utxo
  import opened Supply
  import opened BlockConnect

  /** The parts of CBlockIndex that bear on the chain, with the block it points to. */
  datatype IndexEntry = IndexEntry(pprev: Option<Hash>, nHeight: nat, vtx: seq<Tx>)

  type Index = map<Hash, IndexEntry>
  type UndoFiles = map<Hash, seq<seq<TxInUndo>>>

  /** The parent of a block is in the index, one lower. */
  ghost predicate HasParent(idx: Index, h: Hash)
    requires h in idx
  {
    && idx[h].pprev.Some? && idx[h].pprev.value in idx
    && idx[h].nHeight == idx[idx[h].pprev.value].nHeight + 1
  }

  /** Only genesis has no parent; heights count up from it. */
  ghost predicate WfIndex(idx: Index, genesis: Hash) {
    && genesis in idx && idx[genesis].pprev == None && idx[genesis].nHeight == 0
    && (forall h {:trigger HasParent(idx, h)} :: h in idx && h != genesis ==> HasParent(idx, h))
  }

  function Parent(idx: Index, genesis: Hash, h: Hash): (p: Hash)
    requires WfIndex(idx, genesis) && h in idx && h != genesis
    ensures p in idx && idx[h].pprev == Some(p) && idx[h].nHeight == idx[p].nHeight + 1
  {
    assert HasParent(idx, h);
    idx[h].pprev.value
  }

  lemma HeightZero(idx: Index, genesis: Hash, h: Hash)
    requires WfIndex(idx, genesis) && h in idx
    ensures idx[h].nHeight == 0 <==> h == genesis
    ensures idx[h].pprev == None <==> h == genesis
  {
    if h != genesis {
      var p := Parent(idx, genesis, h);
    }
  }

  function AncestorAt(idx: Index, genesis: Hash, h: Hash, k: nat): (a: Hash)
    requires WfIndex(idx, genesis) && h in idx && k <= idx[h].nHeight
    ensures a in idx && idx[a].nHeight == k
    decreases idx[h].nHeight
  {
    if idx[h].nHeight == k || h == genesis then h else AncestorAt(idx, genesis, Parent(idx, genesis, h), k)
  }

  lemma {:induction false} AncestorOfAncestor(idx: Index, genesis: Hash, h: Hash, k: nat, j: nat)
    requires WfIndex(idx, genesis) && h in idx && j <= k <= idx[h].nHeight
    ensures AncestorAt(idx, genesis, AncestorAt(idx, genesis, h, k), j) == AncestorAt(idx, genesis, h, j)
    decreases idx[h].nHeight
  {
    if idx[h].nHeight != k {
      AncestorOfAncestor(idx, genesis, Parent(idx, genesis, h), k, j);
    }
  }

  /** The parent of an ancestor is the ancestor one lower. */
  lemma AncestorParent(idx: Index, genesis: Hash, h: Hash, k: nat)
    requires WfIndex(idx, genesis) && h in idx && 0 < k <= idx[h].nHeight
    ensures var a := AncestorAt(idx, genesis, h, k);
      a != genesis && Parent(idx, genesis, a) == AncestorAt(idx, genesis, h, k - 1)
  {
    var a := AncestorAt(idx, genesis, h, k);
    AncestorOfAncestor(idx, genesis, h, k, k - 1);
    assert AncestorAt(idx, genesis, Parent(idx, genesis, a), k - 1) == Parent(idx, genesis, a);
  }

  /** `a` is on the branch of `b`. */
  ghost predicate OnBranch(idx: Index, genesis: Hash, a: Hash, b: Hash)
    requires WfIndex(idx, genesis) && b in idx
  {
    a in idx && idx[a].nHeight <= idx[b].nHeight && a == AncestorAt(idx, genesis, b, idx[a].nHeight)
  }

  /** Every block on both branches is at most as high as `f` and `g`. */
  ghost predicate CommonBelow(idx: Index, genesis: Hash, a: Hash, b: Hash, f: Hash, g: Hash)
    requires WfIndex(idx, genesis) && a in idx && b in idx && f in idx && g in idx
  {
    forall k :: 0 <= k <= idx[a].nHeight && k <= idx[b].nHeight &&
      AncestorAt(idx, genesis, a, k) == AncestorAt(idx, genesis, b, k)
      ==> k <= idx[f].nHeight && k <= idx[g].nHeight
  }

  /** Where two branches part, by recursion on the higher side. */
  function LastCommon(idx: Index, genesis: Hash, a: Hash, b: Hash): (f: Hash)
    requires WfIndex(idx, genesis) && a in idx && b in idx
    ensures f in idx && idx[f].nHeight <= idx[a].nHeight && idx[f].nHeight <= idx[b].nHeight
    decreases idx[a].nHeight + idx[b].nHeight
  {
    HeightZero(idx, genesis, a);
    HeightZero(idx, genesis, b);
    if a == b then a
    else if idx[a].nHeight >= idx[b].nHeight then LastCommon(idx, genesis, Parent(idx, genesis, a), b)
    else LastCommon(idx, genesis, a, Parent(idx, genesis, b))
  }

  /** A block on both branches with no common block above it is where they part. */
  lemma {:induction false} LastCommonIs(idx: Index, genesis: Hash, a: Hash, b: Hash, f: Hash)
    requires WfIndex(idx, genesis) && a in idx && b in idx
    requires OnBranch(idx, genesis, f, a) && OnBranch(idx, genesis, f, b) && CommonBelow(idx, genesis, a, b, f, f)
    ensures f == LastCommon(idx, genesis, a, b)
    decreases idx[a].nHeight + idx[b].nHeight
  {
    HeightZero(idx, genesis, a);
    HeightZero(idx, genesis, b);
    if a != b {
      if idx[a].nHeight >= idx[b].nHeight {
        assert forall k :: 0 <= k < idx[a].nHeight ==>
          AncestorAt(idx, genesis, Parent(idx, genesis, a), k) == AncestorAt(idx, genesis, a, k);
        LastCommonIs(idx, genesis, Parent(idx, genesis, a), b, f);
      } else {
        assert forall k :: 0 <= k < idx[b].nHeight ==>
          AncestorAt(idx, genesis, Parent(idx, genesis, b), k) == AncestorAt(idx, genesis, b, k);
        LastCommonIs(idx, genesis, a, Parent(idx, genesis, b), f);
      }
    } else {
      assert AncestorAt(idx, genesis, a, idx[a].nHeight) == a;
    }
  }

  lemma CommonBelowStart(idx: Index, genesis: Hash, a: Hash, b: Hash)
    requires WfIndex(idx, genesis) && a in idx && b in idx
    ensures CommonBelow(idx, genesis, a, b, a, b)
  {
  }

  /** Lowering the longer side of the fork search loses no common block. */
  lemma LowerLonger(idx: Index, genesis: Hash, a: Hash, b: Hash, f: Hash, g: Hash)
    requires WfIndex(idx, genesis) && a in idx && b in idx
    requires f in idx && OnBranch(idx, genesis, g, b) && CommonBelow(idx, genesis, a, b, f, g)
    requires idx[g].nHeight > idx[f].nHeight
    ensures g != genesis && OnBranch(idx, genesis, Parent(idx, genesis, g), b)
    ensures CommonBelow(idx, genesis, a, b, f, Parent(idx, genesis, g))
  {
    AncestorParent(idx, genesis, b, idx[g].nHeight);
  }

  /** Nor does lowering the other side when the two sides are still different blocks. */
  lemma LowerFork(idx: Index, genesis: Hash, a: Hash, b: Hash, f: Hash, g: Hash)
    requires WfIndex(idx, genesis) && a in idx && b in idx
    requires OnBranch(idx, genesis, f, a) && OnBranch(idx, genesis, g, b) && CommonBelow(idx, genesis, a, b, f, g)
    requires f != g && idx[g].nHeight <= idx[f].nHeight
    ensures f != genesis && OnBranch(idx, genesis, Parent(idx, genesis, f), a)
    ensures CommonBelow(idx, genesis, a, b, Parent(idx, genesis, f), g)
  {
    HeightZero(idx, genesis, f);
    HeightZero(idx, genesis, g);
    AncestorParent(idx, genesis, a, idx[f].nHeight);
  }

  /** Two branches that share a block share everything below it. */
  lemma SameBelow(idx: Index, genesis: Hash, a: Hash, b: Hash, k: nat)
    requires WfIndex(idx, genesis) && a in idx && b in idx && k <= idx[a].nHeight && k <= idx[b].nHeight
    requires AncestorAt(idx, genesis, a, k) == AncestorAt(idx, genesis, b, k)
    ensures forall j :: 0 <= j <= k ==> AncestorAt(idx, genesis, a, j) == AncestorAt(idx, genesis, b, j)
  {
    forall j | 0 <= j <= k
      ensures AncestorAt(idx, genesis, a, j) == AncestorAt(idx, genesis, b, j)
    {
      AncestorOfAncestor(idx, genesis, a, k, j);
      AncestorOfAncestor(idx, genesis, b, k, j);
    }
  }

  /** The coins after the branch of `h`, block by block from genesis, whose own outputs are never
      added. None if some block on the way cannot be applied. */
  function Replay(idx: Index, genesis: Hash, h: Hash): Option<CoinMap>
    requires WfIndex(idx, genesis) && h in idx
    decreases idx[h].nHeight
  {
    if h == genesis then Some(map[])
    else
      match Replay(idx, genesis, Parent(idx, genesis, h))
      case None => None
      case Some(u) =>
        if !CheckBlock(idx[h].vtx) then None
        else
          match ApplyTxs(u, idx[h].vtx, idx[h].nHeight)
          case None => None
          case Some(b) => Some(b.coins)
  }

  lemma {:induction false} ReplayWf(idx: Index, genesis: Hash, h: Hash)
    requires WfIndex(idx, genesis) && h in idx && Replay(idx, genesis, h).Some?
    ensures WfUtxo(Replay(idx, genesis, h).value)
    decreases idx[h].nHeight
  {
    if h != genesis {
      var p := Parent(idx, genesis, h);
      ReplayWf(idx, genesis, p);
      ApplyTxsWf(Replay(idx, genesis, p).value, idx[h].vtx, idx[h].nHeight);
    }
  }

  /** If the block applies to the coins at all, it overwrites no unspent output. */
  ghost predicate NoOverwrite(before: Option<CoinMap>, vtx: seq<Tx>, nHeight: nat) {
    before.Some? && CheckBlock(vtx) && ApplyTxs(before.value, vtx, nHeight).Some? ==>
      FreshAlong(before.value, vtx, nHeight)
  }

  /** No block exempt from BIP 30 overwrote an unspent output on its branch. */
  ghost predicate ExemptFresh(idx: Index, genesis: Hash)
    requires WfIndex(idx, genesis)
  {
    forall h :: h in idx && h != genesis && !EnforceBip30(h, idx[h].nHeight) ==>
      NoOverwrite(Replay(idx, genesis, Parent(idx, genesis, h)), idx[h].vtx, idx[h].nHeight)
  }

  /** The undo data of `h` is what connecting it to its own branch produces. */
  ghost predicate UndoRight(idx: Index, genesis: Hash, h: Hash, undo: seq<seq<TxInUndo>>)
    requires WfIndex(idx, genesis)
  {
    && h in idx && h != genesis && CheckBlock(idx[h].vtx)
    && var before := Replay(idx, genesis, Parent(idx, genesis, h));
    && before.Some?
    && var b := ApplyTxs(before.value, idx[h].vtx, idx[h].nHeight);
    && b.Some? && undo == b.value.undo && FreshAlong(before.value, idx[h].vtx, idx[h].nHeight)
  }

  lemma UndoRightChecked(idx: Index, genesis: Hash, h: Hash, undo: seq<seq<TxInUndo>>)
    requires WfIndex(idx, genesis) && UndoRight(idx, genesis, h, undo)
    ensures h in idx && h != genesis && CheckBlock(idx[h].vtx)
  {
  }

  ghost predicate UndoGood(idx: Index, genesis: Hash, undo: UndoFiles)
    requires WfIndex(idx, genesis)
  {
    forall h :: h in undo ==> UndoRight(idx, genesis, h, undo[h])
  }

  /** Every block of the branch after genesis has undo data. */
  ghost predicate UndoCovers(idx: Index, genesis: Hash, undo: UndoFiles, h: Hash)
    requires WfIndex(idx, genesis) && h in idx
  {
    forall k :: 1 <= k <= idx[h].nHeight ==> AncestorAt(idx, genesis, h, k) in undo
  }

  /** Undo data is written once and never replaced. */
  ghost predicate KeptFiles(before: UndoFiles, after: UndoFiles) {
    forall h :: h in before ==> h in after && after[h] == before[h]
  }

  lemma UndoCoversKept(idx: Index, genesis: Hash, before: UndoFiles, after: UndoFiles, h: Hash)
    requires WfIndex(idx, genesis) && h in idx && KeptFiles(before, after)
    requires UndoCovers(idx, genesis, before, h)
    ensures UndoCovers(idx, genesis, after, h)
  {
  }

  lemma KeptFilesRefl(files: UndoFiles)
    ensures KeptFiles(files, files)
  {
  }

  lemma KeptFilesTrans(a: UndoFiles, b: UndoFiles, c: UndoFiles)
    requires KeptFiles(a, b) && KeptFiles(b, c)
    ensures KeptFiles(a, c)
  {
  }

  /** The blocks of the branch of `h` at heights `from` to `to`, exclusive, have undo data. */
  ghost predicate CoversRange(idx: Index, genesis: Hash, undo: UndoFiles, h: Hash, from: nat, to: nat)
    requires WfIndex(idx, genesis) && h in idx && to <= idx[h].nHeight + 1
  {
    forall k :: from <= k < to && k > 0 ==> AncestorAt(idx, genesis, h, k) in undo
  }

  lemma CoversNothing(idx: Index, genesis: Hash, undo: UndoFiles, h: Hash, from: nat)
    requires WfIndex(idx, genesis) && h in idx && from <= idx[h].nHeight + 1
    ensures CoversRange(idx, genesis, undo, h, from, from)
  {
  }

  lemma CoversRangeNext(idx: Index, genesis: Hash, before: UndoFiles, after: UndoFiles, h: Hash, from: nat, to: nat)
    requires WfIndex(idx, genesis) && h in idx && to <= idx[h].nHeight && KeptFiles(before, after)
    requires CoversRange(idx, genesis, before, h, from, to)
    requires to > 0 ==> AncestorAt(idx, genesis, h, to) in after
    ensures CoversRange(idx, genesis, after, h, from, to + 1)
  {
  }

  /** Right undo data takes the coins of a branch back to the coins of its parent, cleanly. */
  lemma DisconnectTip(idx: Index, genesis: Hash, h: Hash, undo: seq<seq<TxInUndo>>)
    requires WfIndex(idx, genesis) && UndoRight(idx, genesis, h, undo)
    ensures Replay(idx, genesis, h).Some? && Replay(idx, genesis, Parent(idx, genesis, h)).Some?
    ensures |undo| + 1 == |idx[h].vtx| && GoodUndos(undo) && UndoFits(idx[h].vtx, undo)
    ensures UndoTxs(Replay(idx, genesis, h).value, idx[h].vtx, undo, idx[h].nHeight)
         == (Replay(idx, genesis, Parent(idx, genesis, h)).value, true)
  {
    var p := Parent(idx, genesis, h);
    ReplayWf(idx, genesis, p);
    var u := Replay(idx, genesis, p).value;
    ApplyTxsWf(u, idx[h].vtx, idx[h].nHeight);
    UndoTxsUndoes(u, idx[h].vtx, idx[h].nHeight);
    CleanFits(Replay(idx, genesis, h).value, idx[h].vtx, undo, idx[h].nHeight);
  }

  /** A block accepted on the coins of its parent's branch extends the replay, and its undo data is
      right for good. */
  lemma ConnectTip(idx: Index, genesis: Hash, h: Hash, fTestNet: bool, env: Env)
    requires WfIndex(idx, genesis) && ExemptFresh(idx, genesis) && h in idx && h != genesis
    requires Replay(idx, genesis, Parent(idx, genesis, h)).Some?
    requires var u := Replay(idx, genesis, Parent(idx, genesis, h)).value;
      Connected(u, Block(h, idx[h].vtx), idx[h].nHeight, fTestNet, env).Some?
    ensures var u := Replay(idx, genesis, Parent(idx, genesis, h)).value;
      var b := Connected(u, Block(h, idx[h].vtx), idx[h].nHeight, fTestNet, env).value;
      && Replay(idx, genesis, h) == Some(b.coins)
      && UndoRight(idx, genesis, h, b.undo)
  {
    hide CoinbaseAllowed;
    var p := Parent(idx, genesis, h);
    ReplayWf(idx, genesis, p);
    if EnforceBip30(h, idx[h].nHeight) {
      Bip30IsFresh(Replay(idx, genesis, p).value, idx[h].vtx, idx[h].nHeight);
    }
  }

  /** Every block from height `stop` up to `h` is accepted in turn on the replay of its branch. */
  ghost predicate Accepts(idx: Index, genesis: Hash, h: Hash, stop: nat, fTestNet: bool, envs: Hash -> Env)
    requires WfIndex(idx, genesis) && h in idx && stop <= idx[h].nHeight + 1
    decreases idx[h].nHeight
  {
    if idx[h].nHeight + 1 == stop then true
    else if h == genesis then CheckBlock(idx[h].vtx)
    else
      var p := Parent(idx, genesis, h);
      && Accepts(idx, genesis, p, stop, fTestNet, envs)
      && Replay(idx, genesis, p).Some?
      && Connected(Replay(idx, genesis, p).value, Block(h, idx[h].vtx), idx[h].nHeight, fTestNet, envs(h)).Some?
  }

  lemma AcceptsStep(idx: Index, genesis: Hash, h: Hash, stop: nat, fTestNet: bool, envs: Hash -> Env)
    requires WfIndex(idx, genesis) && h in idx && stop <= idx[h].nHeight
    ensures Accepts(idx, genesis, h, stop, fTestNet, envs) <==>
      if h == genesis then CheckBlock(idx[h].vtx)
      else
        var p := Parent(idx, genesis, h);
        && Accepts(idx, genesis, p, stop, fTestNet, envs)
        && Replay(idx, genesis, p).Some?
        && Connected(Replay(idx, genesis, p).value, Block(h, idx[h].vtx), idx[h].nHeight, fTestNet, envs(h)).Some?
  {
  }

  lemma AcceptsNothing(idx: Index, genesis: Hash, h: Hash, fTestNet: bool, envs: Hash -> Env)
    requires WfIndex(idx, genesis) && h in idx
    ensures Accepts(idx, genesis, h, idx[h].nHeight + 1, fTestNet, envs)
  {
  }

  lemma {:induction false} AcceptsPrefix(idx: Index, genesis: Hash, h: Hash, k: nat, stop: nat,
                                         fTestNet: bool, envs: Hash -> Env)
    requires WfIndex(idx, genesis) && h in idx && stop <= k + 1 && k <= idx[h].nHeight
    requires Accepts(idx, genesis, h, stop, fTestNet, envs)
    ensures Accepts(idx, genesis, AncestorAt(idx, genesis, h, k), stop, fTestNet, envs)
    decreases idx[h].nHeight
  {
    if idx[h].nHeight != k {
      AcceptsPrefix(idx, genesis, Parent(idx, genesis, h), k, stop, fTestNet, envs);
    }
  }

  /** Coins and best block of a view that has been taken up the branch of `h` as far as height `m`,
      exclusive, starting at `stop`. */
  ghost predicate Progress(idx: Index, genesis: Hash, h: Hash, stop: nat, m: nat, fTestNet: bool, envs: Hash -> Env,
                           u: CoinMap, tip: Option<Hash>)
    requires WfIndex(idx, genesis) && h in idx && stop <= m <= idx[h].nHeight + 1
  {
    if m == 0 then u == map[]
    else
      var cur := AncestorAt(idx, genesis, h, m - 1);
      && Replay(idx, genesis, cur) == Some(u) && tip == Some(cur)
      && Accepts(idx, genesis, cur, stop, fTestNet, envs)
  }

  lemma ProgressDone(idx: Index, genesis: Hash, h: Hash, stop: nat, fTestNet: bool, envs: Hash -> Env,
                     u: CoinMap, tip: Option<Hash>)
    requires WfIndex(idx, genesis) && h in idx && stop <= idx[h].nHeight + 1
    requires Progress(idx, genesis, h, stop, idx[h].nHeight + 1, fTestNet, envs, u, tip)
    ensures Accepts(idx, genesis, h, stop, fTestNet, envs) && Replay(idx, genesis, h) == Some(u) && tip == Some(h)
  {
  }

  // ---- the transactions of a branch ---------------------------------------------------------

  /** Those that are not coinbases. */
  function Loose(vtx: seq<Tx>): seq<Tx> {
    if vtx == [] then []
    else Loose(vtx[..|vtx| - 1]) + if vtx[|vtx| - 1].IsCoinBase() then [] else [vtx[|vtx| - 1]]
  }

  /** What a disconnected block queues to go back to the memory pool: nothing up to the last checkpoint. */
  function Queued(vtx: seq<Tx>, nHeight: nat, nEstimate: nat): seq<Tx> {
    if nHeight > nEstimate then Loose(vtx) else []
  }

  /** What the blocks of a branch queue, from height `stop` up to `h`. */
  function Resurrectable(idx: Index, genesis: Hash, h: Hash, stop: nat, nEstimate: nat): seq<Tx>
    requires WfIndex(idx, genesis) && h in idx && stop <= idx[h].nHeight + 1
    decreases idx[h].nHeight
  {
    if idx[h].nHeight + 1 == stop then []
    else (if h == genesis then [] else Resurrectable(idx, genesis, Parent(idx, genesis, h), stop, nEstimate))
         + Queued(idx[h].vtx, idx[h].nHeight, nEstimate)
  }

  /** The list grows at its front when the branch is walked down. */
  lemma {:induction false} ResurrectableBelow(idx: Index, genesis: Hash, h: Hash, k: nat, nEstimate: nat)
    requires WfIndex(idx, genesis) && h in idx && k <= idx[h].nHeight
    ensures Resurrectable(idx, genesis, h, k, nEstimate)
         == Queued(idx[AncestorAt(idx, genesis, h, k)].vtx, k, nEstimate)
            + Resurrectable(idx, genesis, h, k + 1, nEstimate)
    decreases idx[h].nHeight
  {
    hide Queued;
    HeightZero(idx, genesis, h);
    if idx[h].nHeight == k {
      assert h != genesis ==> Resurrectable(idx, genesis, Parent(idx, genesis, h), k, nEstimate) == [];
    } else {
      ResurrectableBelow(idx, genesis, Parent(idx, genesis, h), k, nEstimate);
    }
  }

  lemma ResurrectableNone(idx: Index, genesis: Hash, best: Option<Hash>, nEstimate: nat)
    requires WfIndex(idx, genesis) && (best.Some? ==> best.value in idx)
    ensures best.Some? ==> Resurrectable(idx, genesis, best.value, idx[best.value].nHeight + 1, nEstimate) == []
  {
  }

  /** All transactions of a branch from height `stop` up to, but without, height `m`. */
  function BranchTxs(idx: Index, genesis: Hash, h: Hash, stop: nat, m: nat): seq<Tx>
    requires WfIndex(idx, genesis) && h in idx && stop <= m <= idx[h].nHeight + 1
    decreases m
  {
    if m == stop then []
    else BranchTxs(idx, genesis, h, stop, m - 1) + idx[AncestorAt(idx, genesis, h, m - 1)].vtx
  }

  lemma BranchTxsNone(idx: Index, genesis: Hash, h: Hash, stop: nat)
    requires WfIndex(idx, genesis) && h in idx && stop <= idx[h].nHeight + 1
    ensures BranchTxs(idx, genesis, h, stop, stop) == []
  {
  }

  lemma BranchTxsNext(idx: Index, genesis: Hash, h: Hash, stop: nat, m: nat)
    requires WfIndex(idx, genesis) && h in idx && stop <= m <= idx[h].nHeight
    ensures BranchTxs(idx, genesis, h, stop, m + 1)
         == BranchTxs(idx, genesis, h, stop, m) + idx[AncestorAt(idx, genesis, h, m)].vtx
  {
  }

  /** pnext links exactly the blocks below the tip of the branch, each to the next one on it. */
  ghost predicate Linked(idx: Index, genesis: Hash, pnext: map<Hash, Hash>, h: Hash)
    requires WfIndex(idx, genesis) && h in idx
  {
    && (forall k :: 0 <= k < idx[h].nHeight ==>
          AncestorAt(idx, genesis, h, k) in pnext
          && pnext[AncestorAt(idx, genesis, h, k)] == AncestorAt(idx, genesis, h, k + 1))
    && (forall a :: a in pnext ==>
          a in idx && idx[a].nHeight < idx[h].nHeight && a == AncestorAt(idx, genesis, h, idx[a].nHeight))
  }

  /** pnext leads one step up the branch. */
  lemma NextOnBranch(idx: Index, genesis: Hash, pnext: map<Hash, Hash>, h: Hash, a: Hash)
    requires WfIndex(idx, genesis) && h in idx && Linked(idx, genesis, pnext, h)
    requires OnBranch(idx, genesis, a, h)
    ensures a in pnext <==> idx[a].nHeight < idx[h].nHeight
    ensures a in pnext ==> OnBranch(idx, genesis, pnext[a], h) && idx[pnext[a]].nHeight == idx[a].nHeight + 1
  {
    var k := idx[a].nHeight;
    if k < idx[h].nHeight {
      assert pnext[AncestorAt(idx, genesis, h, k)] == AncestorAt(idx, genesis, h, k + 1);
    }
  }

  lemma LinkedGenesis(idx: Index, genesis: Hash)
    requires WfIndex(idx, genesis)
    ensures Linked(idx, genesis, map[], genesis)
  {
  }

  /** Unlinking the parent shortens the linked branch by its tip. */
  lemma LinkedShorter(idx: Index, genesis: Hash, pnext: map<Hash, Hash>, h: Hash)
    requires WfIndex(idx, genesis) && h in idx && h != genesis && Linked(idx, genesis, pnext, h)
    ensures Linked(idx, genesis, pnext - {Parent(idx, genesis, h)}, Parent(idx, genesis, h))
  {
    var p := Parent(idx, genesis, h);
    assert forall k :: 0 <= k < idx[h].nHeight ==> AncestorAt(idx, genesis, p, k) == AncestorAt(idx, genesis, h, k);
  }

  /** Linking the parent to a block extends the linked branch by it. */
  lemma LinkedLonger(idx: Index, genesis: Hash, pnext: map<Hash, Hash>, h: Hash)
    requires WfIndex(idx, genesis) && h in idx && h != genesis && Linked(idx, genesis, pnext, Parent(idx, genesis, h))
    ensures Linked(idx, genesis, pnext[Parent(idx, genesis, h) := h], h)
  {
    var p := Parent(idx, genesis, h);
    assert forall k :: 0 <= k < idx[h].nHeight ==> AncestorAt(idx, genesis, p, k) == AncestorAt(idx, genesis, h, k);
  }

  // ---- the index only grows ----------------------------------------------------

  ghost predicate Grown(idx: Index, idx2: Index) {
    forall h :: h in idx ==> h in idx2 && idx2[h] == idx[h]
  }

  lemma {:induction false} AncestorGrown(idx: Index, idx2: Index, genesis: Hash, h: Hash, k: nat)
    requires WfIndex(idx, genesis) && WfIndex(idx2, genesis) && Grown(idx, idx2) && h in idx && k <= idx[h].nHeight
    ensures AncestorAt(idx2, genesis, h, k) == AncestorAt(idx, genesis, h, k)
    decreases idx[h].nHeight
  {
    if idx[h].nHeight != k {
      AncestorGrown(idx, idx2, genesis, Parent(idx, genesis, h), k);
    }
  }

  lemma {:induction false} ReplayGrown(idx: Index, idx2: Index, genesis: Hash, h: Hash)
    requires WfIndex(idx, genesis) && WfIndex(idx2, genesis) && Grown(idx, idx2) && h in idx
    ensures Replay(idx2, genesis, h) == Replay(idx, genesis, h)
    decreases idx[h].nHeight
  {
    if h != genesis {
      ReplayGrown(idx, idx2, genesis, Parent(idx, genesis, h));
    }
  }

  lemma GrownWf(idx: Index, genesis: Hash, h: Hash, p: Hash, vtx: seq<Tx>)
    requires WfIndex(idx, genesis) && ExemptFresh(idx, genesis) && h !in idx && p in idx
    requires EnforceBip30(h, idx[p].nHeight + 1) || NoOverwrite(Replay(idx, genesis, p), vtx, idx[p].nHeight + 1)
    ensures var idx2 := idx[h := IndexEntry(Some(p), idx[p].nHeight + 1, vtx)];
      WfIndex(idx2, genesis) && ExemptFresh(idx2, genesis) && Grown(idx, idx2)
  {
    hide NoOverwrite, EnforceBip30;
    var idx2 := idx[h := IndexEntry(Some(p), idx[p].nHeight + 1, vtx)];
    forall b | b in idx2 && b != genesis
      ensures HasParent(idx2, b)
    {
      if b != h {
        var q := Parent(idx, genesis, b);
      }
    }
    forall b | b in idx2 && b != genesis
      ensures Replay(idx2, genesis, Parent(idx2, genesis, b)) ==
              Replay(idx, genesis, if b == h then p else Parent(idx, genesis, b))
    {
      ReplayGrown(idx, idx2, genesis, if b == h then p else Parent(idx, genesis, b));
    }
  }

  lemma UndoGoodGrown(idx: Index, idx2: Index, genesis: Hash, undo: UndoFiles)
    requires WfIndex(idx, genesis) && WfIndex(idx2, genesis) && Grown(idx, idx2) && UndoGood(idx, genesis, undo)
    ensures UndoGood(idx2, genesis, undo)
  {
    forall h | h in undo
      ensures UndoRight(idx2, genesis, h, undo[h])
    {
      assert UndoRight(idx, genesis, h, undo[h]);
      ReplayGrown(idx, idx2, genesis, Parent(idx, genesis, h));
      assert Parent(idx2, genesis, h) == Parent(idx, genesis, h);
    }
  }

  lemma BranchGrown(idx: Index, idx2: Index, genesis: Hash, h: Hash, undo: UndoFiles, pnext: map<Hash, Hash>)
    requires WfIndex(idx, genesis) && WfIndex(idx2, genesis) && Grown(idx, idx2) && h in idx
    requires UndoCovers(idx, genesis, undo, h) && Linked(idx, genesis, pnext, h)
    ensures UndoCovers(idx2, genesis, undo, h) && Linked(idx2, genesis, pnext, h)
  {
    forall k | 0 <= k <= idx[h].nHeight
      ensures AncestorAt(idx2, genesis, h, k) == AncestorAt(idx, genesis, h, k)
    {
      AncestorGrown(idx, idx2, genesis, h, k);
    }
  }

  lemma OnBranchGrown(idx: Index, idx2: Index, genesis: Hash, a: Hash, b: Hash)
    requires WfIndex(idx, genesis) && WfIndex(idx2, genesis) && Grown(idx, idx2) && b in idx
    requires OnBranch(idx, genesis, a, b)
    ensures OnBranch(idx2, genesis, a, b)
  {
    AncestorGrown(idx, idx2, genesis, b, idx[a].nHeight);
  }

  lemma GenesisOnBranch(idx: Index, genesis: Hash, h: Hash)
    requires WfIndex(idx, genesis) && h in idx
    ensures OnBranch(idx, genesis, genesis, h) && OnBranch(idx, genesis, h, h)
  {
    HeightZero(idx, genesis, AncestorAt(idx, genesis, h, 0));
  }

  // ---- supply of a whole branch ---------------------------------------------------

  /** Every block of the branch kept to the coinbase limit, with the award table of its own height. */
  ghost predicate Funded(idx: Index, genesis: Hash, h: Hash, fTestNet: bool)
    requires WfIndex(idx, genesis) && h in idx
    decreases idx[h].nHeight
  {
    h == genesis ||
    (var p := Parent(idx, genesis, h);
     && Funded(idx, genesis, p, fTestNet)
     && Replay(idx, genesis, p).Some? && CheckBlock(idx[h].vtx)
     && var b := ApplyTxs(Replay(idx, genesis, p).value, idx[h].vtx, idx[h].nHeight);
     && b.Some?
     && exists table: map<string, int> ::
          && CoinbaseAllowed(ValueOf(idx[h].vtx[0].vout), b.value.fees, idx[h].nHeight, fTestNet, table)
          && (IsGrantAwardBlock(idx[h].nHeight) ==> TableFor(table, idx[h].nHeight)))
  }

  /** The supply at any height is at most the subsidies, grants and premine up to it. */
  lemma {:induction false} SupplyBound(idx: Index, genesis: Hash, h: Hash, fTestNet: bool)
    requires WfIndex(idx, genesis) && h in idx && Funded(idx, genesis, h, fTestNet)
    ensures Replay(idx, genesis, h).Some?
    ensures Total(Replay(idx, genesis, h).value) <= TotalAllowance(idx[h].nHeight, fTestNet)
    decreases idx[h].nHeight
  {
    hide CoinbaseAllowed, TableFor, Total, Allowance, CheckTransaction, ApplyTxs;
    if h == genesis {
      TotalEmpty();
    } else {
      var p := Parent(idx, genesis, h);
      SupplyBound(idx, genesis, p, fTestNet);
      ReplayWf(idx, genesis, p);
      var u := Replay(idx, genesis, p).value;
      var b := ApplyTxs(u, idx[h].vtx, idx[h].nHeight).value;
      var table: map<string, int> :|
        && CoinbaseAllowed(ValueOf(idx[h].vtx[0].vout), b.fees, idx[h].nHeight, fTestNet, table)
        && (IsGrantAwardBlock(idx[h].nHeight) ==> TableFor(table, idx[h].nHeight));
      SupplyStep(u, idx[h].vtx, idx[h].nHeight, fTestNet, table);
    }
  }

  /** The award blocks of the branch from height `stop` on are checked against the table of their height. */
  ghost predicate Tabled(idx: Index, genesis: Hash, h: Hash, stop: nat, envs: Hash -> Env)
    requires WfIndex(idx, genesis) && h in idx
  {
    forall k :: stop <= k <= idx[h].nHeight && IsGrantAwardBlock(k) ==>
      TableFor(envs(AncestorAt(idx, genesis, h, k)).grantAwards, k)
  }

  /** Switching to a branch that is accepted with the right award tables keeps the supply bounded. */
  lemma {:induction false} AcceptsFunded(idx: Index, genesis: Hash, h: Hash, stop: nat, fTestNet: bool,
      envs: Hash -> Env)
    requires WfIndex(idx, genesis) && h in idx && stop <= idx[h].nHeight + 1
    requires Accepts(idx, genesis, h, stop, fTestNet, envs)
    requires stop > 0 ==> Funded(idx, genesis, AncestorAt(idx, genesis, h, stop - 1), fTestNet)
    requires Tabled(idx, genesis, h, stop, envs)
    ensures Funded(idx, genesis, h, fTestNet)
    decreases idx[h].nHeight
  {
    hide CoinbaseAllowed, TableFor;
    assert AncestorAt(idx, genesis, h, idx[h].nHeight) == h;
    if idx[h].nHeight + 1 != stop && h != genesis {
      AcceptsFunded(idx, genesis, Parent(idx, genesis, h), stop, fTestNet, envs);
    }
  }

  lemma {:induction false} FundedAncestor(idx: Index, genesis: Hash, h: Hash, k: nat, fTestNet: bool)
    requires WfIndex(idx, genesis) && h in idx && k <= idx[h].nHeight && Funded(idx, genesis, h, fTestNet)
    ensures Funded(idx, genesis, AncestorAt(idx, genesis, h, k), fTestNet)
    decreases idx[h].nHeight
  {
    hide CoinbaseAllowed, TableFor;
    if idx[h].nHeight != k {
      FundedAncestor(idx, genesis, Parent(idx, genesis, h), k, fTestNet);
    }
  }

  /** Supply over runs: a switch from a branch that kept to its limits to one whose new blocks are
      accepted with the award tables of their heights leaves the total value within the allowance. */
  lemma SwitchKeepsSupply(idx: Index, genesis: Hash, best: Hash, h: Hash, fTestNet: bool, envs: Hash -> Env)
    requires WfIndex(idx, genesis) && best in idx && h in idx && Funded(idx, genesis, best, fTestNet)
    requires var f := LastCommon(idx, genesis, best, h);
      && OnBranch(idx, genesis, f, best) && OnBranch(idx, genesis, f, h)
      && Accepts(idx, genesis, h, idx[f].nHeight + 1, fTestNet, envs)
    requires Tabled(idx, genesis, h, idx[LastCommon(idx, genesis, best, h)].nHeight + 1, envs)
    ensures Funded(idx, genesis, h, fTestNet) && Replay(idx, genesis, h).Some?
    ensures Total(Replay(idx, genesis, h).value) <= TotalAllowance(idx[h].nHeight, fTestNet)
  {
    hide Accepts, Funded, Total, Tabled, LastCommon, Replay;
    var f := LastCommon(idx, genesis, best, h);
    FundedAncestor(idx, genesis, best, idx[f].nHeight, fTestNet);
    AcceptsFunded(idx, genesis, h, idx[f].nHeight + 1, fTestNet, envs);
    SupplyBound(idx, genesis, h, fTestNet);
  }

  // ---- the BIP 30 exemption ---------------------------------------------------------

  /** An exempt block that reuses the id of an unspent coinbase is accepted but cannot be undone: its
      own undo data leaves the old coinbase gone. */
  lemma ExemptBlockCannotBeUndone() returns (u: CoinMap, block: Block, env: Env)
    ensures WfUtxo(u) && !EnforceBip30(block.hash, 91842)
    ensures Connected(u, block, 91842, false, env).Some?
    ensures var b := Connected(u, block, 91842, false, env).value;
      |b.undo| + 1 == |block.vtx| && UndoTxs(b.coins, block.vtx, b.undo, 91842).0 != u
  {
    hide Bip30, GrantValue, Decayed;
    var out := TxOut(1, []);
    var tx := Tx(7, 1, [OutPoint(0, NULL_N)], [out]);
    u := map[7 := Coins(true, [out], 91722, 1)];
    block := Block(EXEMPT_1, [tx]);
    env := Env(map[], _ => "", true);
    assert tx.vout[..0] == [] && ValueOf(tx.vout) == 1;
    assert block.vtx[..0] == [] && CheckBlock(block.vtx);
    assert !IsGrantAwardBlock(91842) && !EnforceBip30(block.hash, 91842);
    assert BlockSubsidy(91842) >= MINIMUM_SUBSIDY;
    hide BlockSubsidy;
    assert ApplyTxs(u, [], 91842) == Some(BlockEffect(u, [], 0));
    var b := ApplyTxs(u, block.vtx, 91842).value;
    assert b.undo == [] && b.fees == 0;
    assert 7 !in UndoTxs(b.coins, block.vtx, b.undo, 91842).0;
  }
}
