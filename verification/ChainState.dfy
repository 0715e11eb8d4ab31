/** The active chain and how it switches branches (SetBestChain, FindBlockByHeight and the block index). */
module ChainState {
  import opened Basics
  import opened CoinTypes
  import U = Utxo
  import opened Supply
  import opened CoinsView
  import opened BlockConnect
  import opened BlockDisconnect
  import opened BlockTree

  /** The index, the undo data and the links, against the coins and the best block. */
  ghost predicate ChainOk(idx: Index, genesis: Hash, undo: UndoFiles, u: U.CoinMap, best: Option<Hash>,
                          pnext: map<Hash, Hash>, last: Option<Hash>)
  {
    && WfIndex(idx, genesis) && ExemptFresh(idx, genesis) && UndoGood(idx, genesis, undo)
    && match best {
         case None => u == map[] && pnext == map[] && last == None
         case Some(b) =>
           && b in idx && Replay(idx, genesis, b) == Some(u)
           && UndoCovers(idx, genesis, undo, b) && Linked(idx, genesis, pnext, b)
           && (last.Some? ==> OnBranch(idx, genesis, last.value, b))
       }
  }

  /** The index with a block under its parent. */
  function WithBlock(idx: Index, h: Hash, p: Hash, vtx: seq<Tx>): Index
    requires p in idx
  {
    idx[h := IndexEntry(Some(p), idx[p].nHeight + 1, vtx)]
  }

  /** A block exempt from BIP 30 overwrites no unspent outputs on its branch. */
  ghost predicate MayArrive(idx: Index, genesis: Hash, h: Hash, p: Hash, vtx: seq<Tx>)
    requires WfIndex(idx, genesis)
  {
    h !in idx && p in idx ==>
      EnforceBip30(h, idx[p].nHeight + 1) || NoOverwrite(Replay(idx, genesis, p), vtx, idx[p].nHeight + 1)
  }

  /** All of that is kept when a block is added under a known parent. */
  lemma ChainOkGrown(idx: Index, genesis: Hash, undo: UndoFiles, u: U.CoinMap, best: Option<Hash>,
                     pnext: map<Hash, Hash>, last: Option<Hash>, h: Hash, p: Hash, vtx: seq<Tx>)
    requires ChainOk(idx, genesis, undo, u, best, pnext, last) && h !in idx && p in idx
    requires MayArrive(idx, genesis, h, p, vtx)
    ensures ChainOk(WithBlock(idx, h, p, vtx), genesis, undo, u, best, pnext, last)
  {
    hide NoOverwrite, Replay, UndoGood, ExemptFresh, WfIndex, Linked, UndoCovers, OnBranch, EnforceBip30;
    var idx2 := WithBlock(idx, h, p, vtx);
    GrownWf(idx, genesis, h, p, vtx);
    UndoGoodGrown(idx, idx2, genesis, undo);
    if best.Some? {
      ReplayGrown(idx, idx2, genesis, best.value);
      BranchGrown(idx, idx2, genesis, best.value, undo, pnext);
      if last.Some? {
        OnBranchGrown(idx, idx2, genesis, last.value, best.value);
      }
    }
  }

  class Chain {
    const genesis: Hash
    const fTestNet: bool
    const pcoinsTip: CoinsViewCache
    var mapBlockIndex: Index
    var undoFiles: UndoFiles
    var pindexBest: Option<Hash>
    var pnext: map<Hash, Hash>
    var pblockindexFBBHLast: Option<Hash>

    /** What every run keeps: the coins are the replay of the best branch, whatever was connected and
        disconnected on the way, and all undo data ever written is still right. */
    ghost predicate Valid()
      reads this, pcoinsTip
    {
      && pcoinsTip.base == null && pcoinsTip.Valid()
      && pcoinsTip.Best() == pindexBest
      && ChainOk(mapBlockIndex, genesis, undoFiles, pcoinsTip.Coins(), pindexBest, pnext, pblockindexFBBHLast)
    }

    constructor (genesis: Hash, vtx: seq<Tx>, fTestNet: bool)
      ensures Valid() && pindexBest == None && fresh(pcoinsTip)
      ensures mapBlockIndex == map[genesis := IndexEntry(None, 0, vtx)]
      ensures this.genesis == genesis && this.fTestNet == fTestNet
    {
      this.genesis, this.fTestNet := genesis, fTestNet;
      pcoinsTip := new CoinsViewCache.OverDatabase();
      mapBlockIndex := map[genesis := IndexEntry(None, 0, vtx)];
      undoFiles, pindexBest, pnext, pblockindexFBBHLast := map[], None, map[], None;
    }

    /** The fork search of SetBestChain finds the highest block on both branches, and its assertions
        (no null parent is followed) hold. */
    method FindFork(best: Hash, pindexNew: Hash) returns (pfork: Hash)
      requires WfIndex(mapBlockIndex, genesis) && best in mapBlockIndex && pindexNew in mapBlockIndex
      ensures OnBranch(mapBlockIndex, genesis, pfork, best) && OnBranch(mapBlockIndex, genesis, pfork, pindexNew)
      ensures pfork == LastCommon(mapBlockIndex, genesis, best, pindexNew)
    {
      hide CommonBelow;
      pfork := best;
      var plonger := pindexNew;
      CommonBelowStart(mapBlockIndex, genesis, best, pindexNew);
      while pfork != plonger
        invariant OnBranch(mapBlockIndex, genesis, pfork, best) && OnBranch(mapBlockIndex, genesis, plonger, pindexNew)
        invariant CommonBelow(mapBlockIndex, genesis, best, pindexNew, pfork, plonger)
        decreases mapBlockIndex[pfork].nHeight + mapBlockIndex[plonger].nHeight
      {
        ghost var before := mapBlockIndex[plonger].nHeight;
        while mapBlockIndex[plonger].nHeight > mapBlockIndex[pfork].nHeight
          invariant OnBranch(mapBlockIndex, genesis, plonger, pindexNew) && mapBlockIndex[plonger].nHeight <= before
          invariant CommonBelow(mapBlockIndex, genesis, best, pindexNew, pfork, plonger)
          decreases mapBlockIndex[plonger].nHeight
        {
          LowerLonger(mapBlockIndex, genesis, best, pindexNew, pfork, plonger);
          plonger := mapBlockIndex[plonger].pprev.value;
        }
        if pfork == plonger {
          break;
        }
        LowerFork(mapBlockIndex, genesis, best, pindexNew, pfork, plonger);
        pfork := mapBlockIndex[pfork].pprev.value;
      }
      LastCommonIs(mapBlockIndex, genesis, best, pindexNew, pfork);
    }

    /** The blocks of a branch above the fork, highest first; all of it when there is no fork. */
    ghost predicate Lists(v: seq<Hash>, tip: Hash, stop: nat)
      reads this`mapBlockIndex
      requires WfIndex(mapBlockIndex, genesis) && tip in mapBlockIndex && stop <= mapBlockIndex[tip].nHeight + 1
    {
      var n := mapBlockIndex[tip].nHeight;
      && |v| == n + 1 - stop
      && (forall i :: 0 <= i < |v| ==> v[i] == AncestorAt(mapBlockIndex, genesis, tip, n - i))
    }

    /** The same blocks from the fork up. */
    ghost predicate ListsUp(v: seq<Hash>, tip: Hash, stop: nat)
      reads this`mapBlockIndex
      requires WfIndex(mapBlockIndex, genesis) && tip in mapBlockIndex && stop <= mapBlockIndex[tip].nHeight + 1
    {
      && |v| == mapBlockIndex[tip].nHeight + 1 - stop
      && (forall i :: 0 <= i < |v| ==> v[i] == AncestorAt(mapBlockIndex, genesis, tip, stop + i))
    }

    ghost function StopAt(pfork: Option<Hash>): nat
      reads this`mapBlockIndex
      requires pfork.Some? ==> pfork.value in mapBlockIndex
    {
      if pfork.None? then 0 else mapBlockIndex[pfork.value].nHeight + 1
    }

    method ListBranch(tip: Hash, pfork: Option<Hash>) returns (v: seq<Hash>)
      requires WfIndex(mapBlockIndex, genesis) && tip in mapBlockIndex
      requires pfork.Some? ==> OnBranch(mapBlockIndex, genesis, pfork.value, tip)
      ensures Lists(v, tip, StopAt(pfork))
    {
      v := [];
      ghost var n := mapBlockIndex[tip].nHeight;
      var pindex := Some(tip);
      while pindex != pfork
        invariant |v| <= n + 1 - StopAt(pfork)
        invariant forall i :: 0 <= i < |v| ==> v[i] == AncestorAt(mapBlockIndex, genesis, tip, n - i)
        invariant |v| <= n ==> pindex == Some(AncestorAt(mapBlockIndex, genesis, tip, n - |v|))
        invariant |v| == n + 1 ==> pindex == None
        decreases n + 1 - |v|
      {
        if n - |v| > 0 {
          AncestorParent(mapBlockIndex, genesis, tip, n - |v|);
        } else {
          HeightZero(mapBlockIndex, genesis, pindex.value);
        }
        v := v + [pindex.value];
        pindex := mapBlockIndex[pindex.value].pprev;
      }
    }

    /** Height of the first block to connect: one above where the two branches part. */
    ghost function ForkStop(best: Option<Hash>, pindexNew: Hash): (stop: nat)
      reads this`mapBlockIndex
      requires WfIndex(mapBlockIndex, genesis) && pindexNew in mapBlockIndex
      requires best.Some? ==> best.value in mapBlockIndex
      ensures stop <= mapBlockIndex[pindexNew].nHeight + 1
      ensures best.Some? ==> 1 <= stop <= mapBlockIndex[best.value].nHeight + 1
    {
      if best.None? then 0
      else mapBlockIndex[LastCommon(mapBlockIndex, genesis, best.value, pindexNew)].nHeight + 1
    }

    /** The transactions of the blocks that give way, queued for the memory pool. */
    ghost function Requeued(best: Option<Hash>, pindexNew: Hash, nEstimate: nat): seq<Tx>
      reads this`mapBlockIndex
      requires WfIndex(mapBlockIndex, genesis) && pindexNew in mapBlockIndex
      requires best.Some? ==> best.value in mapBlockIndex
    {
      if best.None? then []
      else Resurrectable(mapBlockIndex, genesis, best.value, ForkStop(best, pindexNew), nEstimate)
    }

    /** The two lists lead from the best block down to the fork and from there up to the new one. */
    ghost predicate Planned(best: Option<Hash>, pindexNew: Hash, vDisconnect: seq<Hash>, vConnect: seq<Hash>, stop: nat)
      reads this`mapBlockIndex
      requires WfIndex(mapBlockIndex, genesis) && pindexNew in mapBlockIndex
      requires best.Some? ==> best.value in mapBlockIndex
    {
      && stop <= mapBlockIndex[pindexNew].nHeight + 1 && ListsUp(vConnect, pindexNew, stop)
      && match best
         case None => stop == 0 && vDisconnect == []
         case Some(b) =>
           && 0 < stop <= mapBlockIndex[b].nHeight + 1 && Lists(vDisconnect, b, stop)
           && AncestorAt(mapBlockIndex, genesis, b, stop - 1) == AncestorAt(mapBlockIndex, genesis, pindexNew, stop - 1)
    }

    /** What to disconnect and what to connect. */
    method Plan(best: Option<Hash>, pindexNew: Hash)
      returns (vDisconnect: seq<Hash>, vConnect: seq<Hash>, ghost stop: nat)
      requires WfIndex(mapBlockIndex, genesis) && pindexNew in mapBlockIndex
      requires best.Some? ==> best.value in mapBlockIndex
      ensures Planned(best, pindexNew, vDisconnect, vConnect, stop) && stop == ForkStop(best, pindexNew)
    {
      var pfork: Option<Hash> := None;
      vDisconnect := [];
      if best.Some? {
        var f := FindFork(best.value, pindexNew);
        pfork := Some(f);
        vDisconnect := ListBranch(best.value, pfork);
      }
      vConnect := ListBranch(pindexNew, pfork);
      vConnect := Reversed(vConnect);
      stop := StopAt(pfork);
    }

    /** DisconnectBlock with its reading of undo data, on the coins of the block's own branch. */
    method DisconnectOne(view: CoinsViewCache, pindex: Hash, pfClean: bool) returns (ok: bool, clean: bool)
      requires WfIndex(mapBlockIndex, genesis) && pindex in mapBlockIndex && pindex != genesis
      requires UndoGood(mapBlockIndex, genesis, undoFiles)
      requires view.Valid() && Replay(mapBlockIndex, genesis, pindex) == Some(view.Coins())
      modifies view, view.base
      ensures view.Valid() && view.BaseSame()
      ensures (ok <==> pindex in undoFiles) && (clean <==> ok && pfClean)
      ensures ok ==>
        var p := Parent(mapBlockIndex, genesis, pindex);
        Replay(mapBlockIndex, genesis, p) == Some(view.Coins()) && view.pindexTip == Some(p)
    {
      hide CoinsViewCache.Valid, CoinsViewCache.Contents, CoinsViewCache.Under, CoinsViewCache.Coins,
        CoinsViewCache.UnderBest, GoodRecord, Norm, UndoRight, Replay, CheckBlock, U.UndoTxs, U.UndoFits,
        U.SameOutputs;
      if pindex !in undoFiles {
        return false, false;
      }
      DisconnectTip(mapBlockIndex, genesis, pindex, undoFiles[pindex]);
      UndoRightChecked(mapBlockIndex, genesis, pindex, undoFiles[pindex]);
      var entry := mapBlockIndex[pindex];
      ok, clean := DisconnectBlock(view, entry.vtx, entry.nHeight, entry.pprev.value, undoFiles[pindex], pfClean);
    }

    /** Disconnect a branch down to the fork: always succeeds, and leaves the coins of the fork. */
    method DisconnectBranch(view: CoinsViewCache, best: Hash, v: seq<Hash>, ghost stop: nat) returns (ok: bool)
      requires WfIndex(mapBlockIndex, genesis) && best in mapBlockIndex
      requires UndoGood(mapBlockIndex, genesis, undoFiles) && UndoCovers(mapBlockIndex, genesis, undoFiles, best)
      requires 0 < stop <= mapBlockIndex[best].nHeight + 1 && Lists(v, best, stop)
      requires view.Valid() && Replay(mapBlockIndex, genesis, best) == Some(view.Coins())
      requires view.pindexTip == Some(best)
      modifies view, view.base
      ensures view.Valid() && view.BaseSame() && ok
      ensures var f := AncestorAt(mapBlockIndex, genesis, best, stop - 1);
        Replay(mapBlockIndex, genesis, f) == Some(view.Coins()) && view.pindexTip == Some(f)
    {
      hide CoinsViewCache.Valid, CoinsViewCache.Contents, CoinsViewCache.Under, CoinsViewCache.Coins,
        CoinsViewCache.UnderBest, GoodRecord, Norm, UndoRight, Replay, CheckBlock, UndoGood;
      ghost var n := mapBlockIndex[best].nHeight;
      for i := 0 to |v|
        invariant view.Valid() && view.BaseSame()
        invariant var cur := AncestorAt(mapBlockIndex, genesis, best, n - i);
          Replay(mapBlockIndex, genesis, cur) == Some(view.Coins()) && view.pindexTip == Some(cur)
      {
        var pindex := v[i];
        AncestorParent(mapBlockIndex, genesis, best, n - i);
        HeightZero(mapBlockIndex, genesis, pindex);
        var done, _ := DisconnectOne(view, pindex, false);
        if !done {
          return false;
        }
      }
      return true;
    }

    /** Connect a branch from the fork up, writing undo data for blocks that have none. Stops at the
        first block that is refused. */
    method ConnectBranch(view: CoinsViewCache, pindexNew: Hash, v: seq<Hash>, ghost stop: nat, envs: Hash -> Env)
      returns (ok: bool)
      requires WfIndex(mapBlockIndex, genesis) && ExemptFresh(mapBlockIndex, genesis) && pindexNew in mapBlockIndex
      requires UndoGood(mapBlockIndex, genesis, undoFiles)
      requires stop <= mapBlockIndex[pindexNew].nHeight + 1 && ListsUp(v, pindexNew, stop)
      requires view.Valid()
      requires Progress(mapBlockIndex, genesis, pindexNew, stop, stop, fTestNet, envs, view.Coins(), view.pindexTip)
      modifies view, view.base, this`undoFiles
      ensures view.Valid() && view.BaseSame()
      ensures UndoGood(mapBlockIndex, genesis, undoFiles) && KeptFiles(old(undoFiles), undoFiles)
      ensures !ok ==> !Accepts(mapBlockIndex, genesis, pindexNew, stop, fTestNet, envs)
      ensures ok ==> Progress(mapBlockIndex, genesis, pindexNew, stop, mapBlockIndex[pindexNew].nHeight + 1, fTestNet,
        envs, view.Coins(), view.pindexTip)
      ensures ok ==> CoversRange(mapBlockIndex, genesis, undoFiles, pindexNew, stop,
        mapBlockIndex[pindexNew].nHeight + 1)
    {
      ghost var idx, n := mapBlockIndex, mapBlockIndex[pindexNew].nHeight;
      hide CoinsViewCache.Valid, CoinsViewCache.Under, CoinsViewCache.UnderBest, CoinsViewCache.Contents,
        CoinsViewCache.Coins, CoinsViewCache.Best, UndoRight, Replay, CheckBlock, Connected, Accepts, UndoGood,
        ExemptFresh, AncestorAt, HasParent, KeptFiles, CoversRange, Progress;
      KeptFilesRefl(undoFiles);
      CoversNothing(idx, genesis, undoFiles, pindexNew, stop);
      ghost var m := stop;
      ghost var u := view.Coins();
      ghost var tip := view.pindexTip;
      for i := 0 to |v|
        invariant m == stop + i && u == view.Coins() && tip == view.pindexTip
        invariant view.Valid() && view.BaseSame() && mapBlockIndex == idx
        invariant Progress(idx, genesis, pindexNew, stop, m, fTestNet, envs, u, tip)
        invariant UndoGood(idx, genesis, undoFiles) && KeptFiles(old(undoFiles), undoFiles)
        invariant CoversRange(idx, genesis, undoFiles, pindexNew, stop, m)
      {
        assert m <= n && v[i] == AncestorAt(idx, genesis, pindexNew, m);
        ghost var before := undoFiles;
        var connected := ConnectNext(view, pindexNew, v[i], stop, m, envs);
        KeptFilesTrans(old(undoFiles), before, undoFiles);
        if !connected {
          return false;
        }
        CoversRangeNext(idx, genesis, before, undoFiles, pindexNew, stop, m);
        m, u, tip := m + 1, view.Coins(), view.pindexTip;
      }
      return true;
    }

    /** One block further up the branch. */
    method ConnectNext(view: CoinsViewCache, ghost pindexNew: Hash, pindex: Hash, ghost stop: nat, ghost m: nat,
                       envs: Hash -> Env) returns (ok: bool)
      requires WfIndex(mapBlockIndex, genesis) && ExemptFresh(mapBlockIndex, genesis) && pindexNew in mapBlockIndex
      requires UndoGood(mapBlockIndex, genesis, undoFiles)
      requires stop <= m <= mapBlockIndex[pindexNew].nHeight
      requires pindex == AncestorAt(mapBlockIndex, genesis, pindexNew, m)
      requires view.Valid()
      requires Progress(mapBlockIndex, genesis, pindexNew, stop, m, fTestNet, envs, view.Coins(), view.pindexTip)
      modifies view, view.base, this`undoFiles
      ensures view.Valid() && view.BaseSame()
      ensures UndoGood(mapBlockIndex, genesis, undoFiles) && KeptFiles(old(undoFiles), undoFiles)
      ensures ok ==> Progress(mapBlockIndex, genesis, pindexNew, stop, m + 1, fTestNet, envs, view.Coins(),
        view.pindexTip) && (m > 0 ==> pindex in undoFiles)
      ensures !ok ==> !Accepts(mapBlockIndex, genesis, pindexNew, stop, fTestNet, envs)
      ensures pindex == genesis || pindex in old(undoFiles) ==> undoFiles == old(undoFiles)
    {
      hide CoinsViewCache.Valid, CoinsViewCache.Contents, CoinsViewCache.Under, CoinsViewCache.Coins,
        CoinsViewCache.UnderBest, CoinsViewCache.Best, UndoRight, Replay, CheckBlock, Connected, Accepts, UndoGood,
        ExemptFresh, AncestorAt, HasParent;
      HeightZero(mapBlockIndex, genesis, pindex);
      if m > 0 {
        AncestorParent(mapBlockIndex, genesis, pindexNew, m);
        if m == stop {
          AcceptsNothing(mapBlockIndex, genesis, AncestorAt(mapBlockIndex, genesis, pindexNew, m - 1), fTestNet, envs);
        }
      }
      AcceptsStep(mapBlockIndex, genesis, pindex, stop, fTestNet, envs);
      ok := ConnectOne(view, pindex, envs(pindex));
      if !ok && Accepts(mapBlockIndex, genesis, pindexNew, stop, fTestNet, envs) {
        AcceptsPrefix(mapBlockIndex, genesis, pindexNew, m, stop, fTestNet, envs);
        assert false;
      }
    }

    /** ConnectBlock with its genesis case and its writing of undo data. */
    method ConnectOne(view: CoinsViewCache, pindex: Hash, env: Env) returns (ok: bool)
      requires WfIndex(mapBlockIndex, genesis) && ExemptFresh(mapBlockIndex, genesis) && pindex in mapBlockIndex
      requires UndoGood(mapBlockIndex, genesis, undoFiles)
      requires view.Valid()
      requires if pindex == genesis then view.Coins() == map[] else
        Replay(mapBlockIndex, genesis, Parent(mapBlockIndex, genesis, pindex)) == Some(view.Coins())
      modifies view, view.base, this`undoFiles
      ensures view.Valid() && view.BaseSame()
      ensures UndoGood(mapBlockIndex, genesis, undoFiles) && KeptFiles(old(undoFiles), undoFiles)
      ensures ok <==>
        if pindex == genesis then CheckBlock(mapBlockIndex[pindex].vtx)
        else Connected(old(view.Coins()), Block(pindex, mapBlockIndex[pindex].vtx), mapBlockIndex[pindex].nHeight,
                       fTestNet, env).Some?
      ensures ok ==> Replay(mapBlockIndex, genesis, pindex) == Some(view.Coins()) && view.pindexTip == Some(pindex)
      ensures ok && pindex != genesis ==> pindex in undoFiles
      ensures pindex == genesis || pindex in old(undoFiles) ==> undoFiles == old(undoFiles)
    {
      hide CoinsViewCache.Valid, CoinsViewCache.Contents, CoinsViewCache.Under, CoinsViewCache.Coins,
        CoinsViewCache.UnderBest, GoodRecord, Norm, UndoRight, CheckBlock, Connectable, U.WfUtxo, U.ApplyTxs;
      var entry := mapBlockIndex[pindex];
      if pindex == genesis {
        if !CheckBlock(entry.vtx) {
          return false;
        }
        view.SetBestBlock(pindex);
        return true;
      }
      HeightZero(mapBlockIndex, genesis, pindex);
      ReplayWf(mapBlockIndex, genesis, Parent(mapBlockIndex, genesis, pindex));
      var r := ConnectBlock(view, Block(pindex, entry.vtx), entry.nHeight, fTestNet, env, false);
      if r.None? {
        return false;
      }
      ConnectTip(mapBlockIndex, genesis, pindex, fTestNet, env);
      if pindex !in undoFiles {
        undoFiles := undoFiles[pindex := r.value];
      }
      return true;
    }

    /** Move the pnext links from the old branch to the new one. */
    method Relink(vDisconnect: seq<Hash>, vConnect: seq<Hash>, ghost best: Option<Hash>, pindexNew: Hash,
        ghost stop: nat)
      requires WfIndex(mapBlockIndex, genesis) && pindexNew in mapBlockIndex
      requires best.Some? ==> best.value in mapBlockIndex && Linked(mapBlockIndex, genesis, pnext, best.value)
      requires best.None? ==> pnext == map[]
      requires Planned(best, pindexNew, vDisconnect, vConnect, stop)
      modifies this`pnext
      ensures Linked(mapBlockIndex, genesis, pnext, pindexNew)
    {
      hide Linked;
      for i := 0 to |vDisconnect|
        invariant best.Some? ==>
          Linked(mapBlockIndex, genesis, pnext, AncestorAt(mapBlockIndex, genesis, best.value,
            mapBlockIndex[best.value].nHeight - i))
        invariant best.None? ==> pnext == map[]
      {
        var pprev := mapBlockIndex[vDisconnect[i]].pprev;
        AncestorParent(mapBlockIndex, genesis, best.value, mapBlockIndex[best.value].nHeight - i);
        if pprev.Some? {
          LinkedShorter(mapBlockIndex, genesis, pnext, vDisconnect[i]);
          pnext := pnext - {pprev.value};
        }
      }
      for i := 0 to |vConnect|
        invariant stop + i == 0 ==> pnext == map[]
        invariant stop + i > 0 ==>
          Linked(mapBlockIndex, genesis, pnext, AncestorAt(mapBlockIndex, genesis, pindexNew, stop + i - 1))
      {
        var pindex := vConnect[i];
        assert pindex == AncestorAt(mapBlockIndex, genesis, pindexNew, stop + i);
        HeightZero(mapBlockIndex, genesis, pindex);
        var pprev := mapBlockIndex[pindex].pprev;
        if pprev.Some? {
          AncestorParent(mapBlockIndex, genesis, pindexNew, stop + i);
          LinkedLonger(mapBlockIndex, genesis, pnext, pindex);
          pnext := pnext[pprev.value := pindex];
        } else {
          LinkedGenesis(mapBlockIndex, genesis);
        }
      }
    }

    /** Switch the active chain to the branch of `pindexNew`. It succeeds exactly when every block from
        the fork up is accepted in turn on the replay of its own branch; a refused switch leaves the
        coins, the links and the best block as they were. */
    method SetBestChain(pindexNew: Hash, envs: Hash -> Env, fFlushDisk: bool, nEstimate: nat)
      returns (ok: bool, vResurrect: seq<Tx>, vDelete: seq<Tx>)
      requires Valid() && pindexNew in mapBlockIndex
      modifies this`undoFiles, this`pindexBest, this`pnext, this`pblockindexFBBHLast, pcoinsTip
      ensures Valid() && KeptFiles(old(undoFiles), undoFiles)
      ensures ok <==>
        Accepts(mapBlockIndex, genesis, pindexNew, ForkStop(old(pindexBest), pindexNew), fTestNet, envs)
      ensures ok ==> pindexBest == Some(pindexNew)
      ensures !ok ==> pindexBest == old(pindexBest) && pnext == old(pnext)
      ensures !ok ==> pcoinsTip.Contents() == old(pcoinsTip.Contents())
      ensures ok ==> var stop := ForkStop(old(pindexBest), pindexNew);
        && vResurrect == Requeued(old(pindexBest), pindexNew, nEstimate)
        && vDelete == BranchTxs(mapBlockIndex, genesis, pindexNew, stop, mapBlockIndex[pindexNew].nHeight + 1)
    {
      hide CoinsViewCache.Valid, CoinsViewCache.Under, CoinsViewCache.UnderBest, GoodRecord, Norm, UndoRight,
        Replay, CheckBlock, Connected, U.WfUtxo, Linked, AncestorAt, UndoGood, UndoCovers, LastCommon, CommonBelow,
        Lists, ListsUp, Accepts, ExemptFresh, Planned, ForkStop, WfIndex, CoinsViewCache.Contents,
        CoinsViewCache.Coins, CoinsViewCache.Best, OnBranch, KeptFiles, Requeued, BranchTxs;
      var view := new CoinsViewCache(pcoinsTip);
      label Start:
      var best := view.GetBestBlock();
      var vDisconnect, vConnect, stop := Plan(best, pindexNew);
      vResurrect, vDelete := Queue(best, pindexNew, vDisconnect, vConnect, stop, nEstimate);
      var done := SwitchView(view, best, pindexNew, vDisconnect, vConnect, stop, envs);
      BaseKept@Start(view);
      if !done {
        if best.Some? {
          UndoCoversKept(mapBlockIndex, genesis, old(undoFiles), undoFiles, best.value);
        }
        return false, vResurrect, vDelete;
      }
      Commit(view, fFlushDisk);
      Relink(vDisconnect, vConnect, best, pindexNew, stop);
      pindexBest := Some(pindexNew);
      pblockindexFBBHLast := None;
      return true, vResurrect, vDelete;
    }

    /** Queues the transactions of a disconnected block, last first, each in front of what is queued already. */
    method QueueBlock(vtx: seq<Tx>, nHeight: nat, nEstimate: nat, queue: seq<Tx>) returns (vResurrect: seq<Tx>)
      ensures vResurrect == Queued(vtx, nHeight, nEstimate) + queue
      ensures vResurrect == if nHeight > nEstimate then Loose(vtx) + queue else queue
    {
      vResurrect := queue;
      var i := |vtx|;
      assert vtx[..|vtx|] == vtx;
      while i > 0
        invariant 0 <= i <= |vtx|
        invariant Queued(vtx[..i], nHeight, nEstimate) + vResurrect == Queued(vtx, nHeight, nEstimate) + queue
      {
        i := i - 1;
        assert vtx[..i + 1][..i] == vtx[..i];
        if !vtx[i].IsCoinBase() && nHeight > nEstimate {
          assert Loose(vtx[..i]) + [vtx[i]] + vResurrect == Loose(vtx[..i]) + ([vtx[i]] + vResurrect);
          vResurrect := [vtx[i]] + vResurrect;
        }
      }
      assert Queued(vtx[..0], nHeight, nEstimate) + vResurrect == vResurrect;
    }

    /** What the blocks to disconnect put back into the memory pool, and what those to connect take out of it. */
    method Queue(best: Option<Hash>, pindexNew: Hash, vDisconnect: seq<Hash>, vConnect: seq<Hash>, ghost stop: nat,
                 nEstimate: nat)
      returns (vResurrect: seq<Tx>, vDelete: seq<Tx>)
      requires WfIndex(mapBlockIndex, genesis) && pindexNew in mapBlockIndex
      requires best.Some? ==> best.value in mapBlockIndex
      requires Planned(best, pindexNew, vDisconnect, vConnect, stop) && stop == ForkStop(best, pindexNew)
      ensures vResurrect == Requeued(best, pindexNew, nEstimate)
      ensures vDelete == BranchTxs(mapBlockIndex, genesis, pindexNew, stop, mapBlockIndex[pindexNew].nHeight + 1)
    {
      hide AncestorAt, Resurrectable, BranchTxs, WfIndex, HasParent, LastCommon, Queued, ForkStop;
      vResurrect, vDelete := [], [];
      BranchTxsNone(mapBlockIndex, genesis, pindexNew, stop);
      ResurrectableNone(mapBlockIndex, genesis, best, nEstimate);
      ghost var n := if best.None? then 0 else mapBlockIndex[best.value].nHeight;
      for i := 0 to |vDisconnect|
        invariant vResurrect == if best.None? then []
                                else Resurrectable(mapBlockIndex, genesis, best.value, n + 1 - i, nEstimate)
      {
        var entry := mapBlockIndex[vDisconnect[i]];
        ResurrectableBelow(mapBlockIndex, genesis, best.value, n - i, nEstimate);
        vResurrect := QueueBlock(entry.vtx, entry.nHeight, nEstimate, vResurrect);
      }
      for i := 0 to |vConnect|
        invariant vDelete == BranchTxs(mapBlockIndex, genesis, pindexNew, stop, stop + i)
      {
        BranchTxsNext(mapBlockIndex, genesis, pindexNew, stop, stop + i);
        vDelete := vDelete + mapBlockIndex[vConnect[i]].vtx;
      }
    }

    /** The temporary view goes into the global one, and that to the database when asked. */
    method Commit(view: CoinsViewCache, fFlushDisk: bool)
      requires view.Valid() && view.base == pcoinsTip && pcoinsTip.base == null && view.pindexTip.Some?
      modifies view, pcoinsTip
      ensures pcoinsTip.Valid() && pcoinsTip.Coins() == old(view.Coins()) && pcoinsTip.Best() == old(view.pindexTip)
    {
      hide CoinsViewCache.Valid, CoinsViewCache.Under, CoinsViewCache.UnderBest, GoodRecord, Norm,
        CoinsViewCache.Contents;
      view.Flush();
      if fFlushDisk {
        pcoinsTip.Flush();
      }
    }

    /** The disconnections and connections, in the temporary view. */
    method SwitchView(view: CoinsViewCache, best: Option<Hash>, pindexNew: Hash, vDisconnect: seq<Hash>,
                      vConnect: seq<Hash>, ghost stop: nat, envs: Hash -> Env) returns (ok: bool)
      requires WfIndex(mapBlockIndex, genesis) && ExemptFresh(mapBlockIndex, genesis) && pindexNew in mapBlockIndex
      requires UndoGood(mapBlockIndex, genesis, undoFiles)
      requires best.Some? ==> best.value in mapBlockIndex
      requires Planned(best, pindexNew, vDisconnect, vConnect, stop)
      requires view.Valid()
      requires match best
        case None => view.Coins() == map[]
        case Some(b) =>
          && UndoCovers(mapBlockIndex, genesis, undoFiles, b)
          && Replay(mapBlockIndex, genesis, b) == Some(view.Coins()) && view.pindexTip == Some(b)
      modifies view, view.base, this`undoFiles
      ensures view.Valid() && view.BaseSame()
      ensures UndoGood(mapBlockIndex, genesis, undoFiles) && KeptFiles(old(undoFiles), undoFiles)
      ensures ok <==> Accepts(mapBlockIndex, genesis, pindexNew, stop, fTestNet, envs)
      ensures ok ==> Replay(mapBlockIndex, genesis, pindexNew) == Some(view.Coins())
      ensures ok ==> view.pindexTip == Some(pindexNew)
      ensures ok ==> UndoCovers(mapBlockIndex, genesis, undoFiles, pindexNew)
    {
      hide CoinsViewCache.Valid, CoinsViewCache.Under, CoinsViewCache.UnderBest, CoinsViewCache.Coins, UndoRight,
        Replay, Accepts;
      if best.Some? {
        var undone := DisconnectBranch(view, best.value, vDisconnect, stop);
        if !undone {
          return false;
        }
        SameBelow(mapBlockIndex, genesis, best.value, pindexNew, stop - 1);
      }
      if stop > 0 {
        AcceptsNothing(mapBlockIndex, genesis, AncestorAt(mapBlockIndex, genesis, pindexNew, stop - 1), fTestNet, envs);
      }
      ok := ConnectBranch(view, pindexNew, vConnect, stop, envs);
      if ok {
        ProgressDone(mapBlockIndex, genesis, pindexNew, stop, fTestNet, envs, view.Coins(), view.pindexTip);
      }
    }

    /** AddToBlockIndex: a new block under a known parent. */
    method AddToBlockIndex(hash: Hash, hashPrevBlock: Hash, vtx: seq<Tx>) returns (ok: bool)
      requires Valid() && MayArrive(mapBlockIndex, genesis, hash, hashPrevBlock, vtx)
      modifies this`mapBlockIndex
      ensures Valid()
      ensures ok <==> hash !in old(mapBlockIndex) && hashPrevBlock in old(mapBlockIndex)
      ensures mapBlockIndex ==
        if ok then WithBlock(old(mapBlockIndex), hash, hashPrevBlock, vtx) else old(mapBlockIndex)
    {
      if hash in mapBlockIndex || hashPrevBlock !in mapBlockIndex {
        return false;
      }
      hide *;
      ChainParts(this);
      ChainOkGrown(mapBlockIndex, genesis, undoFiles, pcoinsTip.Coins(), pindexBest, pnext, pblockindexFBBHLast, hash,
        hashPrevBlock, vtx);
      mapBlockIndex := WithBlock(mapBlockIndex, hash, hashPrevBlock, vtx);
      ChainWhole(this);
      return true;
    }

    /** FindBlockByHeight follows pprev or pnext from genesis, the best block or the last answer, and arrives at the
        block of the active chain with that height. None stands for following a null link, which happens exactly where
        there is no such block. */
    method FindBlockByHeight(nHeight: int) returns (r: Option<Hash>)
      requires Valid()
      modifies this`pblockindexFBBHLast
      ensures Valid()
      ensures r == if pindexBest.Some? && 0 <= nHeight <= mapBlockIndex[pindexBest.value].nHeight
                   then Some(AncestorAt(mapBlockIndex, genesis, pindexBest.value, nHeight)) else None
      ensures r.None? ==> pblockindexFBBHLast == old(pblockindexFBBHLast)
    {
      hide CoinsViewCache.Valid, CoinsViewCache.Contents, CoinsViewCache.Coins, CoinsViewCache.Best, UndoCovers,
        UndoGood, Replay, ExemptFresh, Linked, AncestorAt, HasParent;
      if pindexBest.None? {
        return None;
      }
      var best := pindexBest.value;
      var nBestHeight := mapBlockIndex[best].nHeight;
      GenesisOnBranch(mapBlockIndex, genesis, best);
      var pblockindex: Hash := if nHeight < nBestHeight / 2 then genesis else best;
      if pblockindexFBBHLast.Some? &&
         Abs(nHeight - mapBlockIndex[pblockindex].nHeight) >
         Abs(nHeight - mapBlockIndex[pblockindexFBBHLast.value].nHeight) {
        pblockindex := pblockindexFBBHLast.value;
      }
      while mapBlockIndex[pblockindex].nHeight > nHeight
        invariant pblockindexFBBHLast == old(pblockindexFBBHLast)
        invariant OnBranch(mapBlockIndex, genesis, pblockindex, best)
        decreases mapBlockIndex[pblockindex].nHeight
      {
        HeightZero(mapBlockIndex, genesis, pblockindex);
        if mapBlockIndex[pblockindex].pprev.None? {
          return None;
        }
        AncestorParent(mapBlockIndex, genesis, best, mapBlockIndex[pblockindex].nHeight);
        pblockindex := mapBlockIndex[pblockindex].pprev.value;
      }
      while mapBlockIndex[pblockindex].nHeight < nHeight
        invariant pblockindexFBBHLast == old(pblockindexFBBHLast)
        invariant OnBranch(mapBlockIndex, genesis, pblockindex, best) && mapBlockIndex[pblockindex].nHeight <= nHeight
        decreases nHeight - mapBlockIndex[pblockindex].nHeight
      {
        NextOnBranch(mapBlockIndex, genesis, pnext, best, pblockindex);
        if pblockindex !in pnext {
          return None;
        }
        pblockindex := pnext[pblockindex];
      }
      pblockindexFBBHLast := Some(pblockindex);
      return Some(pblockindex);
    }
  }

  lemma ChainParts(c: Chain)
    requires c.Valid()
    ensures c.pcoinsTip.base == null && c.pcoinsTip.Valid() && c.pcoinsTip.Best() == c.pindexBest
    ensures ChainOk(c.mapBlockIndex, c.genesis, c.undoFiles, c.pcoinsTip.Coins(), c.pindexBest, c.pnext,
      c.pblockindexFBBHLast)
  {
    hide ChainOk;
  }

  lemma ChainWhole(c: Chain)
    requires c.pcoinsTip.base == null && c.pcoinsTip.Valid() && c.pcoinsTip.Best() == c.pindexBest
    requires ChainOk(c.mapBlockIndex, c.genesis, c.undoFiles, c.pcoinsTip.Coins(), c.pindexBest, c.pnext,
      c.pblockindexFBBHLast)
    ensures c.Valid()
  {
    hide ChainOk;
  }

  function Abs(x: int): nat {
    if x < 0 then -x else x
  }
}
