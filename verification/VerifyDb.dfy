/** The check of the stored chain state at start-up (VerifyDB in src/main.cpp). */
module VerifyDb {
  import opened Basics
  import opened CoinTypes
  import opened Supply
  import opened CoinsView
  import opened BlockTree
  import opened ChainState

  /** The lowest block the check goes down to; genesis is never disconnected. */
  function Lowest(nBestHeight: nat, nCheckDepth: int): nat {
    if nCheckDepth < 0 then nBestHeight + 1
    else if nBestHeight - nCheckDepth < 1 then 1
    else nBestHeight - nCheckDepth
  }

  /** The walk down from the best block. From level 3 on it disconnects, in memory, as many blocks as there is room
      for, the last one at height `stop`. Nothing ever looks wrong. */
  method CheckDown(chain: Chain, view: CoinsViewCache, best: Hash, nCheckLevel: int, nCheckDepth: int,
                   roomy: nat -> bool)
    returns (ok: bool, pindexState: Hash, ghost stop: nat)
    requires WfIndex(chain.mapBlockIndex, chain.genesis) && best in chain.mapBlockIndex
    requires UndoGood(chain.mapBlockIndex, chain.genesis, chain.undoFiles)
    requires UndoCovers(chain.mapBlockIndex, chain.genesis, chain.undoFiles, best)
    requires view.Valid() && Replay(chain.mapBlockIndex, chain.genesis, best) == Some(view.Coins())
    requires view.pindexTip == Some(best)
    modifies view, view.base
    ensures view.Valid() && view.BaseSame() && ok
    ensures var n := chain.mapBlockIndex[best].nHeight;
      && 1 <= stop <= n + 1 && pindexState == AncestorAt(chain.mapBlockIndex, chain.genesis, best, stop - 1)
      && Lowest(n, nCheckDepth) <= stop
      && (nCheckLevel >= 3 && (forall k :: roomy(k)) ==> stop == Lowest(n, nCheckDepth))
    ensures Replay(chain.mapBlockIndex, chain.genesis, pindexState) == Some(view.Coins())
    ensures view.pindexTip == Some(pindexState)
  {
    hide CoinsViewCache.Valid, CoinsViewCache.Contents, CoinsViewCache.Under, CoinsViewCache.Coins,
      CoinsViewCache.Best, CoinsViewCache.UnderBest, UndoRight, Replay, CheckBlock, HasParent;
    var nBestHeight := chain.mapBlockIndex[best].nHeight;
    var pindex := best;
    pindexState := best;
    stop := nBestHeight + 1;
    var fFailure := false;
    while chain.mapBlockIndex[pindex].pprev.Some?
      invariant OnBranch(chain.mapBlockIndex, chain.genesis, pindex, best)
      invariant 1 <= stop <= nBestHeight + 1
      invariant pindexState == AncestorAt(chain.mapBlockIndex, chain.genesis, best, stop - 1)
      invariant view.Valid() && view.BaseSame() && !fFailure
      invariant Replay(chain.mapBlockIndex, chain.genesis, pindexState) == Some(view.Coins())
      invariant view.pindexTip == Some(pindexState)
      invariant Lowest(nBestHeight, nCheckDepth) <= stop
      invariant Lowest(nBestHeight, nCheckDepth) <= chain.mapBlockIndex[pindex].nHeight + 1 <= stop
      invariant nCheckLevel >= 3 && (forall k :: roomy(k)) ==> stop == chain.mapBlockIndex[pindex].nHeight + 1
      decreases chain.mapBlockIndex[pindex].nHeight
    {
      var nHeight := chain.mapBlockIndex[pindex].nHeight;
      if nHeight < nBestHeight - nCheckDepth {
        break;
      }
      HeightZero(chain.mapBlockIndex, chain.genesis, pindex);
      AncestorParent(chain.mapBlockIndex, chain.genesis, best, nHeight);
      UndoRightChecked(chain.mapBlockIndex, chain.genesis, pindex, chain.undoFiles[pindex]);
      if nCheckLevel >= 1 && !CheckBlock(chain.mapBlockIndex[pindex].vtx) {
        return false, pindexState, stop;
      }
      if nCheckLevel >= 3 && pindex == pindexState && roomy(nHeight) {
        var done, clean := chain.DisconnectOne(view, pindex, true);
        if !done {
          return false, pindexState, stop;
        }
        pindexState := chain.mapBlockIndex[pindex].pprev.value;
        stop := stop - 1;
        if !clean {
          fFailure := true;
        }
      }
      pindex := chain.mapBlockIndex[pindex].pprev.value;
    }
    HeightZero(chain.mapBlockIndex, chain.genesis, pindex);
    ok := !fFailure;
  }

  /** The walk back up along pnext succeeds exactly when every block is accepted again. */
  method CheckUp(chain: Chain, view: CoinsViewCache, best: Hash, pindexState: Hash, ghost stop: nat,
                 envs: Hash -> Env) returns (ok: bool)
    requires WfIndex(chain.mapBlockIndex, chain.genesis) && ExemptFresh(chain.mapBlockIndex, chain.genesis)
    requires best in chain.mapBlockIndex && UndoGood(chain.mapBlockIndex, chain.genesis, chain.undoFiles)
    requires UndoCovers(chain.mapBlockIndex, chain.genesis, chain.undoFiles, best)
    requires Linked(chain.mapBlockIndex, chain.genesis, chain.pnext, best)
    requires 1 <= stop <= chain.mapBlockIndex[best].nHeight + 1
    requires pindexState == AncestorAt(chain.mapBlockIndex, chain.genesis, best, stop - 1)
    requires view.Valid() && Replay(chain.mapBlockIndex, chain.genesis, pindexState) == Some(view.Coins())
    requires view.pindexTip == Some(pindexState)
    modifies view, view.base, chain`undoFiles
    ensures view.Valid() && view.BaseSame() && chain.undoFiles == old(chain.undoFiles)
    ensures ok <==> Accepts(chain.mapBlockIndex, chain.genesis, best, stop, chain.fTestNet, envs)
  {
    hide CoinsViewCache.Valid, CoinsViewCache.Contents, CoinsViewCache.Under, CoinsViewCache.Coins,
      CoinsViewCache.Best, CoinsViewCache.UnderBest, UndoRight, Replay, CheckBlock, HasParent, Linked,
      UndoGood, ExemptFresh, Accepts;
    AcceptsNothing(chain.mapBlockIndex, chain.genesis, pindexState, chain.fTestNet, envs);
    var pindex := pindexState;
    ghost var m := stop;
    while pindex != best
      invariant stop <= m <= chain.mapBlockIndex[best].nHeight + 1 && chain.undoFiles == old(chain.undoFiles)
      invariant pindex == AncestorAt(chain.mapBlockIndex, chain.genesis, best, m - 1)
      invariant view.Valid() && view.BaseSame()
      invariant Progress(chain.mapBlockIndex, chain.genesis, best, stop, m, chain.fTestNet, envs, view.Coins(),
        view.pindexTip)
      decreases chain.mapBlockIndex[best].nHeight + 1 - m
    {
      NextOnBranch(chain.mapBlockIndex, chain.genesis, chain.pnext, best, pindex);
      pindex := chain.pnext[pindex];
      var connected := chain.ConnectNext(view, best, pindex, stop, m, envs);
      if !connected {
        return false;
      }
      m := m + 1;
    }
    ProgressDone(chain.mapBlockIndex, chain.genesis, best, stop, chain.fTestNet, envs, view.Coins(), view.pindexTip);
    return true;
  }

  /** Main result: the check never gives a false alarm. Whatever calls came before, up to level 3 it passes, and level 4
      passes exactly when every block taken off is accepted once more on the replay of its branch; the coins, the undo
      data, the links and the best block are as before. */
  method VerifyDB(chain: Chain, checkLevel: int, checkBlocks: int, roomy: nat -> bool, envs: Hash -> Env)
    returns (ok: bool, ghost stop: nat)
    requires chain.Valid()
    modifies chain.pcoinsTip, chain`undoFiles
    ensures chain.Valid() && chain.undoFiles == old(chain.undoFiles)
    ensures chain.pcoinsTip.Contents() == old(chain.pcoinsTip.Contents())
    ensures checkLevel < 4 ==> ok
    ensures match chain.pindexBest
      case None => ok
      case Some(best) =>
        var n := chain.mapBlockIndex[best].nHeight;
        && 1 <= stop <= n + 1
        && (checkLevel >= 4 ==>
              (ok <==> Accepts(chain.mapBlockIndex, chain.genesis, best, stop, chain.fTestNet, envs)))
        && (checkLevel >= 3 && (forall k :: roomy(k)) ==>
              stop == if checkBlocks < 0 then n + 1 else if 0 < checkBlocks < n then n - checkBlocks else 1)
  {
    stop := 1;
    if chain.pindexBest.None? {
      return true, stop;
    }
    var best := chain.pindexBest.value;
    hide CoinsViewCache.Valid, CoinsViewCache.Contents, CoinsViewCache.Under, CoinsViewCache.Coins,
      CoinsViewCache.Best, CoinsViewCache.UnderBest, UndoRight, Replay, CheckBlock, AncestorAt, HasParent, Linked,
      UndoGood, ExemptFresh, Accepts, UndoCovers, OnBranch, WfIndex;
    if chain.mapBlockIndex[best].pprev.None? {
      HeightZero(chain.mapBlockIndex, chain.genesis, best);
      AcceptsNothing(chain.mapBlockIndex, chain.genesis, best, chain.fTestNet, envs);
      return true, stop;
    }
    var nCheckDepth := Depth(checkBlocks, chain.mapBlockIndex[best].nHeight);
    var nCheckLevel := if checkLevel < 0 then 0 else if checkLevel > 4 then 4 else checkLevel;
    var view := new CoinsViewCache(chain.pcoinsTip);
    label Start:
    var tip := view.GetBestBlock();
    var down, pindexState, last := CheckDown(chain, view, best, nCheckLevel, nCheckDepth, roomy);
    stop := last;
    ok := down;
    if nCheckLevel >= 4 {
      ok := CheckUp(chain, view, best, pindexState, stop, envs);
    }
    BaseKept@Start(view);
  }

  /** How far below the best block to go: 0 stands for all the way. */
  function Depth(checkBlocks: int, nBestHeight: nat): int {
    if checkBlocks == 0 || checkBlocks > nBestHeight then nBestHeight else checkBlocks
  }
}
