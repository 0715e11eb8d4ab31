/** Coin records as objects and the layered coin cache (CCoins and CCoinsViewCache). */
module CoinsView {
  import opened Basics
  import opened CoinTypes
  import opened Utxo

  class CCoins {
    var fCoinBase: bool
    var vout: seq<TxOut>
    var nHeight: int
    var nVersion: int

    function Value(): Coins
      reads this
    {
      Coins(fCoinBase, vout, nHeight, nVersion)
    }

    constructor (c: Coins)
      ensures Value() == c
    {
      fCoinBase, vout, nHeight, nVersion := c.fCoinBase, c.vout, c.nHeight, c.nVersion;
    }

    /** Shortens vout to its last unspent output. */
    method Cleanup()
      modifies this`vout
      ensures vout == Cleaned(old(vout))
    {
      while |vout| > 0 && vout[|vout| - 1].IsNull()
        invariant Cleaned(vout) == Cleaned(old(vout))
      {
        vout := vout[..|vout| - 1];
      }
    }

    /** Mark one output spent and report how to undo that; nothing changes on failure. */
    method Spend(n: nat) returns (undo: Option<TxInUndo>)
      modifies this`vout
      ensures match CoinTypes.Spend(old(Value()), n)
        case None => undo == None && Value() == old(Value())
        case Some((u, left)) => undo == Some(u) && Value() == left
    {
      if n >= |vout| {
        return None;
      }
      if vout[n].IsNull() {
        return None;
      }
      var u := TxInUndo(vout[n], false, 0, 0);
      vout := vout[n := NULL_OUT];
      Cleanup();
      if |vout| == 0 {
        u := u.(nHeight := nHeight, fCoinBase := fCoinBase, nVersion := nVersion);
      }
      return Some(u);
    }
  }

  /** A stored record has no trailing spent output. */
  ghost predicate GoodRecord(c: Coins) {
    CleanOuts(c.vout)
  }

  ghost predicate GoodRecords(m: map<Hash, Coins>) {
    forall h :: h in m ==> GoodRecord(m[h])
  }

  /** Contents without the records that have nothing left. */
  function Norm(m: map<Hash, Coins>): CoinMap {
    map h | h in m && m[h].vout != [] :: m[h]
  }

  lemma NormSet(m: map<Hash, Coins>, h: Hash, c: Coins)
    ensures Norm(m[h := c]) == Put(Norm(m), h, c)
  {
  }

  lemma PrunedIsEmpty(c: Coins)
    requires CleanOuts(c.vout)
    ensures c.IsPruned() <==> c.vout == []
  {
    if c.vout != [] {
      assert !c.vout[|c.vout| - 1].IsNull();
    }
  }

  /** Erasing records with nothing left does not change what is unspent. */
  lemma NormErase(m: map<Hash, Coins>, erased: set<Hash>, written: map<Hash, Coins>)
    requires GoodRecords(written) && forall h :: h in written ==> h in m && m[h] == written[h]
    requires erased == set h | h in written && written[h].IsPruned()
    ensures Norm(m - erased) == Norm(m)
  {
    forall h | h in written
      ensures h in erased <==> written[h].vout == []
    {
      PrunedIsEmpty(written[h]);
    }
  }

  lemma CacheWrite(under: map<Hash, Coins>, cache: map<Hash, Coins>, h: Hash, c: Coins)
    ensures under + cache[h := c] == (under + cache)[h := c]
  {
  }

  lemma CacheRead(under: map<Hash, Coins>, cache: map<Hash, Coins>, h: Hash)
    requires h in under && h !in cache
    ensures under + cache[h := under[h]] == under + cache
  {
  }

  /** A record and the unspent set agree on everything a spender looks at. */
  lemma AtNorm(m: map<Hash, Coins>, h: Hash)
    requires GoodRecords(m)
    ensures h !in m ==> At(Norm(m), h) == EMPTY_COINS
    ensures h in m ==> At(Norm(m), h).vout == m[h].vout && (m[h].vout != [] ==> At(Norm(m), h) == m[h])
    ensures h in m ==> (m[h].IsPruned() <==> At(Norm(m), h).vout == [])
  {
    if h in m {
      PrunedIsEmpty(m[h]);
    }
  }

  /** A cache over another cache, or, when `base` is null, over the coin database `stored`. */
  class CoinsViewCache {
    const base: CoinsViewCache?
    var cacheCoins: map<Hash, Coins>
    var pindexTip: Option<Hash>
    var stored: map<Hash, Coins>
    var storedBest: Option<Hash>

    function Under(): map<Hash, Coins>
      reads this, base
    {
      if base == null then stored else base.stored + base.cacheCoins
    }

    /** What a reader of this view sees. */
    function Contents(): map<Hash, Coins>
      reads this, base
    {
      Under() + cacheCoins
    }

    function Coins(): CoinMap
      reads this, base
    {
      Norm(Contents())
    }

    ghost function UnderBest(): Option<Hash>
      reads this, base
    {
      if base == null then storedBest else if base.pindexTip.Some? then base.pindexTip else base.storedBest
    }

    ghost function Best(): Option<Hash>
      reads this, base
    {
      if pindexTip.Some? then pindexTip else UnderBest()
    }

    ghost predicate Valid()
      reads this, base
    {
      && GoodRecords(stored) && GoodRecords(cacheCoins)
      && (base != null ==>
            && base != this && base.base == null
            && GoodRecords(base.stored) && GoodRecords(base.cacheCoins))
    }

    /** The layer below still reads the same. */
    twostate predicate BaseSame()
      reads this, base
    {
      Under() == old(Under()) && UnderBest() == old(UnderBest())
    }

    /** Reading may fill caches; nobody sees a difference. */
    twostate predicate SameToReaders()
      reads this, base
    {
      BaseSame() && Contents() == old(Contents()) && Coins() == old(Coins()) && Best() == old(Best())
    }

    constructor (base: CoinsViewCache)
      requires base.Valid() && base.base == null
      ensures this.base == base && Valid() && fresh(this)
      ensures Contents() == base.Contents() && Coins() == base.Coins() && Best() == base.Best()
      ensures Under() == base.Contents() && UnderBest() == base.Best()
    {
      this.base := base;
      cacheCoins, pindexTip, stored, storedBest := map[], None, map[], None;
    }

    /** The global cache over an empty coin database. */
    constructor OverDatabase()
      ensures base == null && Valid()
      ensures Contents() == map[] && Coins() == map[] && Best() == None
    {
      base := null;
      cacheCoins, pindexTip, stored, storedBest := map[], None, map[], None;
    }

    /** A cache over the database reads one record through. */
    method ReadThrough(txid: Hash) returns (coins: Option<CoinTypes.Coins>)
      requires Valid() && base == null
      modifies this`cacheCoins
      ensures Valid() && Contents() == old(Contents())
      ensures coins == if txid in Contents() then Some(Contents()[txid]) else None
    {
      hide GoodRecord;
      if txid !in cacheCoins && txid in stored {
        CacheRead(stored, cacheCoins, txid);
        cacheCoins := cacheCoins[txid := stored[txid]];
      }
      coins := if txid in cacheCoins then Some(cacheCoins[txid]) else None;
    }

    method FetchCoins(txid: Hash) returns (found: bool)
      requires Valid()
      modifies this, base
      ensures Valid() && SameToReaders()
      ensures found <==> txid in Contents()
      ensures found ==> txid in cacheCoins && cacheCoins[txid] == Contents()[txid]
      ensures txid in Coins() ==> found && cacheCoins[txid] == Coins()[txid] && GoodRecord(cacheCoins[txid])
    {
      hide GoodRecord;
      if txid in cacheCoins {
        return true;
      }
      var tmp: Option<CoinTypes.Coins> := if txid in stored then Some(stored[txid]) else None;
      if base != null {
        tmp := base.ReadThrough(txid);
      }
      if tmp.None? {
        return false;
      }
      CacheRead(Under(), cacheCoins, txid);
      cacheCoins := cacheCoins[txid := tmp.value];
      return true;
    }

    /** GetCoins with an output argument: the record, or the blank one the caller started from. */
    method GetCoins(txid: Hash) returns (coins: CoinTypes.Coins)
      requires Valid()
      modifies this, base
      ensures Valid() && SameToReaders()
      ensures coins == if txid in Contents() then Contents()[txid] else EMPTY_COINS
      ensures coins.vout == At(Coins(), txid).vout
      ensures coins.vout != [] ==> coins == At(Coins(), txid)
      ensures txid in Coins() <==> coins.vout != []
      ensures coins.IsPruned() <==> coins.vout == []
      ensures GoodRecord(coins)
    {
      AtNorm(Contents(), txid);
      var found := FetchCoins(txid);
      coins := if found then cacheCoins[txid] else EMPTY_COINS;
    }

    method SetCoins(txid: Hash, coins: CoinTypes.Coins)
      requires Valid() && GoodRecord(coins)
      modifies this`cacheCoins
      ensures Valid() && BaseSame() && Best() == old(Best())
      ensures Contents() == old(Contents())[txid := coins]
      ensures Coins() == Put(old(Coins()), txid, coins)
    {
      NormSet(Contents(), txid, coins);
      CacheWrite(Under(), cacheCoins, txid, coins);
      hide GoodRecord, Norm;
      cacheCoins := cacheCoins[txid := coins];
    }

    method GetBestBlock() returns (best: Option<Hash>)
      requires Valid()
      modifies this, base
      ensures Valid() && SameToReaders() && best == Best() == pindexTip
    {
      if pindexTip.None? {
        if base != null {
          if base.pindexTip.None? {
            base.pindexTip := base.storedBest;
          }
          pindexTip := base.pindexTip;
        } else {
          pindexTip := storedBest;
        }
      }
      best := pindexTip;
    }

    method SetBestBlock(pindex: Hash)
      requires Valid()
      modifies this`pindexTip
      ensures Valid() && pindexTip == Best() == Some(pindex)
      ensures BaseSame() && Coins() == old(Coins())
    {
      pindexTip := Some(pindex);
    }

    method BatchWrite(mapCoins: map<Hash, CoinTypes.Coins>, pindex: Option<Hash>)
      requires Valid() && GoodRecords(mapCoins)
      modifies this`cacheCoins, this`pindexTip
      ensures Valid() && pindexTip == pindex
      ensures Contents() == old(Contents()) + mapCoins
    {
      hide GoodRecord;
      cacheCoins := cacheCoins + mapCoins;
      pindexTip := pindex;
    }

    /** The database drops records with nothing left. */
    method BatchWriteDb(mapCoins: map<Hash, CoinTypes.Coins>, pindex: Option<Hash>)
      requires GoodRecords(mapCoins) && GoodRecords(stored)
      modifies this`stored, this`storedBest
      ensures GoodRecords(stored)
      ensures Norm(stored) == Norm(old(stored) + mapCoins)
      ensures storedBest == if pindex.Some? then pindex else old(storedBest)
    {
      var erased := set h | h in mapCoins && mapCoins[h].IsPruned();
      NormErase(stored + mapCoins, erased, mapCoins);
      hide GoodRecord;
      stored := (stored + mapCoins) - erased;
      if pindex.Some? {
        storedBest := pindex;
      }
    }

    /** Push everything down one layer. */
    method Flush()
      requires Valid()
      modifies this, base
      ensures Valid() && cacheCoins == map[] && pindexTip == old(pindexTip)
      ensures Coins() == old(Coins()) && (pindexTip.Some? ==> Best() == old(Best()))
      ensures base != null ==>
        base.Valid() && base.Contents() == old(Contents()) && base.pindexTip == old(pindexTip)
    {
      hide GoodRecord;
      if base != null {
        base.BatchWrite(cacheCoins, pindexTip);
        cacheCoins := map[];
      } else {
        BatchWriteDb(cacheCoins, pindexTip);
        cacheCoins := map[];
      }
    }
  }

  /** Work in a view leaves its base as it was. */
  twostate lemma BaseKept(view: CoinsViewCache)
    requires old(view.Valid()) && view.Valid() && view.base != null && view.BaseSame()
    ensures view.base.Valid() && view.base.Contents() == old(view.base.Contents())
    ensures view.base.Coins() == old(view.base.Coins()) && view.base.Best() == old(view.base.Best())
  {
  }
}
