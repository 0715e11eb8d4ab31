/** CAddrMan: the operations of src/addrman.cpp, changing the tables in place. GetRandInt is an
    arbitrary choice below its bound; the clock is a parameter. */
module AddrMan {
  import opened Basics
  import opened AddrTables
  import Quotients

  const TRIED_ENTRIES_INSPECT_ON_EVICT := 4
  const HORIZON_DAYS := 30
  const RETRIES := 3
  const MAX_FAILURES := 10
  const MIN_FAIL_DAYS := 7
  const GETADDR_MAX_PCT := 23
  const GETADDR_MAX := 2500

  predicate IsTerrible(i: Info, nNow: int) {
    if i.nLastTry != 0 && i.nLastTry >= nNow - 60 then false
    else
      || i.addr.nTime > nNow + 10 * 60
      || (i.addr.nTime == 0 || nNow - i.addr.nTime > HORIZON_DAYS * 86400)
      || (i.nLastSuccess == 0 && i.nAttempts >= RETRIES)
      || (nNow - i.nLastSuccess > MIN_FAIL_DAYS * 86400 && i.nAttempts >= MAX_FAILURES)
  }

  method GetRandInt(n: nat) returns (r: nat)
    requires n > 0
    ensures r < n
  {
    r :| r < n;
  }

  /** The first element of a set<int>. */
  method Least(s: set<int>) returns (n: int)
    requires s != {}
    ensures n in s && forall k :: k in s ==> n <= k
  {
    LeastExists(s);
    n :| n in s && forall k :: k in s ==> n <= k;
  }

  lemma {:induction false} LeastExists(s: set<int>)
    requires s != {}
    ensures exists n :: n in s && forall k :: k in s ==> n <= k
    decreases s
  {
    var n := SomeIn(s);
    if j :| j in s && j < n {
      var rest := s - {n};
      assert j in rest;
      LeastExists(rest);
      var l :| l in rest && forall k :: k in rest ==> l <= k;
      forall k | k in s
        ensures l <= k
      {
        if k != n { assert k in rest; }
      }
      assert l in s;
    }
  }

  /** Whatever a new bucket holds is known. */
  lemma AllKnown(t: Tables, h: Hashes, pending: int, b: nat)
    requires Good(t, h, pending) && b < |t.vvNew| && pending !in t.vvNew[b]
    ensures t.vvNew[b] <= t.mapInfo.Keys && forall n :: n in t.vvNew[b] ==> n >= 0
  {
    forall n | n in t.vvNew[b]
      ensures n in t.mapInfo && n >= 0
    {
      NewMember(t.mapInfo, t.vvNew, b, n, pending);
    }
  }

  class CAddrMan {
    const h: Hashes
    const routable: NetAddr -> bool
    var mapInfo: map<int, Info>
    var mapAddr: map<NetAddr, int>
    var vRandom: seq<int>
    var nTried: int
    var vvTried: seq<seq<int>>
    var nNew: int
    var vvNew: seq<set<int>>
    var nIdCount: int

    ghost function Now(): Tables
      reads this
    {
      Tables(mapInfo, mapAddr, vRandom, vvTried, nTried, vvNew, nNew, nIdCount)
    }

    constructor (h: Hashes, routable: NetAddr -> bool)
      ensures Good(Now(), h, NONE) && this.h == h && this.routable == routable && mapInfo == map[]
    {
      this.h, this.routable := h, routable;
      mapInfo, mapAddr, vRandom, nTried, nNew, nIdCount := map[], map[], [], 0, 0, 0;
      vvTried := seq(TRIED_BUCKET_COUNT, k => []);
      vvNew := seq(NEW_BUCKET_COUNT, k => {});
      new;
      forall n
        ensures Held(vvTried, ListBag)[n] == 0 && Held(vvNew, SetBag)[n] == 0
      {
        HeldNowhere(vvTried, ListBag, n);
        HeldNowhere(vvNew, SetBag, n);
      }
      assert TriedIds(mapInfo) == {} && NewIds(mapInfo) == {};
    }

    /** The id and entry known for a network address. */
    method Find(addr: NetAddr) returns (found: bool, nId: int)
      requires AddrOk(mapInfo, mapAddr)
      ensures found <==> addr in mapAddr
      ensures found ==> nId == mapAddr[addr] && nId in mapInfo && Ip(mapInfo[nId]) == addr
    {
      if addr !in mapAddr {
        return false, NONE;
      }
      nId := mapAddr[addr];
      found := nId in mapInfo;
    }

    method Create(addr: Address, addrSource: NetAddr) returns (nId: int)
      modifies `mapInfo, `mapAddr, `vRandom, `nIdCount
      ensures nId == old(nIdCount) && Now() == Created(old(Now()), addr, addrSource)
    {
      nId := nIdCount;
      nIdCount := nIdCount + 1;
      mapInfo := mapInfo[nId := Info(addr, addrSource, 0, 0, 0, 0, false, -1)];
      mapAddr := mapAddr[addr.service.ip := nId];
      mapInfo := mapInfo[nId := mapInfo[nId].(nRandomPos := |vRandom|)];
      vRandom := vRandom + [nId];
    }

    /** The source's own asserts are the precondition. */
    method SwapRandom(nRndPos1: int, nRndPos2: int)
      requires nRndPos1 != nRndPos2 ==>
        && 0 <= nRndPos1 < |vRandom| && 0 <= nRndPos2 < |vRandom|
        && vRandom[nRndPos1] in mapInfo && vRandom[nRndPos2] in mapInfo
      modifies `mapInfo, `vRandom
      ensures Now() == Swapped(old(Now()), nRndPos1, nRndPos2)
    {
      if nRndPos1 == nRndPos2 {
        return;
      }
      var nId1, nId2 := vRandom[nRndPos1], vRandom[nRndPos2];
      mapInfo := mapInfo[nId1 := mapInfo[nId1].(nRandomPos := nRndPos2)];
      mapInfo := mapInfo[nId2 := mapInfo[nId2].(nRandomPos := nRndPos1)];
      vRandom := vRandom[nRndPos1 := nId2];
      vRandom := vRandom[nRndPos2 := nId1];
    }

    static lemma PlacesExist(m: map<int, Info>, vRandom: seq<int>, id: int)
      requires RandomOk(m, vRandom) && id in m
      ensures 0 <= m[id].nRandomPos < |vRandom|
      ensures vRandom[m[id].nRandomPos] in m && vRandom[|vRandom| - 1] in m
    {
    }

    static lemma SwappedShape(t: Tables, i: int, j: int)
      ensures var r := Swapped(t, i, j);
        r == t.(mapInfo := r.mapInfo, vRandom := r.vRandom) && |r.vRandom| == |t.vRandom|
    {
    }

    static lemma RecountRandom(m: map<int, Info>, vRandom: seq<int>, id: int, k: int)
      requires RandomOk(m, vRandom) && id in m
      ensures RandomOk(m[id := m[id].(nRefCount := k)], vRandom)
    {
    }

    /** Takes an entry out of one new bucket, and out of all tables when that was its last. */
    method Release(nUBucket: nat, nId: int)
      requires RandomOk(mapInfo, vRandom)
      requires nUBucket < |vvNew| && nId in mapInfo
      modifies `mapInfo, `mapAddr, `vRandom, `nNew, `vvNew
      ensures Now() == Released(old(Now()), nUBucket, nId)
    {
      hide RandomOk, Swapped;
      var info := mapInfo[nId];
      info := info.(nRefCount := info.nRefCount - 1);
      RecountRandom(mapInfo, vRandom, nId, info.nRefCount);
      mapInfo := mapInfo[nId := info];
      if info.nRefCount == 0 {
        var ip := Ip(info);
        PlacesExist(mapInfo, vRandom, nId);
        ghost var t1 := Now();
        SwappedShape(t1, info.nRandomPos, |vRandom| - 1);
        SwapRandom(info.nRandomPos, |vRandom| - 1);
        vRandom := vRandom[..|vRandom| - 1];
        mapAddr := mapAddr - {ip};
        mapInfo := mapInfo - {nId};
        nNew := nNew - 1;
      }
      vvNew := vvNew[nUBucket := vvNew[nUBucket] - {nId}];
    }

    /** Removes an element from a full bucket: the first terrible one, or else the one last seen longest ago
        among four random places. `sampled` are the entries at those places. */
    method ShrinkNew(nUBucket: nat, nNow: int, ghost pending: int) returns (r: int, ghost evicted: int,
        ghost sampled: set<int>)
      requires Good(Now(), h, pending)
      requires nUBucket < |vvNew| && vvNew[nUBucket] != {} && pending !in vvNew[nUBucket]
      modifies `mapInfo, `mapAddr, `vRandom, `nNew, `vvNew
      ensures evicted in old(vvNew[nUBucket]) && evicted in old(mapInfo) && sampled <= old(mapInfo.Keys)
      ensures Now() == Released(old(Now()), nUBucket, evicted) && Good(Now(), h, pending)
      ensures r == 0 ==>
        && IsTerrible(old(mapInfo[evicted]), nNow)
        && forall n :: n in old(vvNew[nUBucket]) && n < evicted && n in old(mapInfo) ==> !IsTerrible(old(mapInfo)[n],
          nNow)
      ensures r != 0 ==>
        && evicted in sampled && sampled <= old(vvNew[nUBucket]) && 1 <= |sampled| <= 4
        && (forall n :: n in sampled ==> old(mapInfo[evicted]).addr.nTime <= old(mapInfo)[n].addr.nTime)
        && (forall n :: n in old(vvNew[nUBucket]) && n in old(mapInfo) ==> !IsTerrible(old(mapInfo)[n], nNow))
    {
      ghost var before := Now();
      var vNew := vvNew[nUBucket];
      AllKnown(before, h, pending, nUBucket);
      assert RandomOk(mapInfo, vRandom);
      hide *;
      var terrible, id := FirstTerrible(vNew, nNow);
      r, sampled := 0, {};
      if !terrible {
        id, sampled := OldestOfFour(vNew);
        r := 1;
      }
      evicted := id;
      ReleasedGood(before, nUBucket, id, h, pending);
      Release(nUBucket, id);
    }

    /** The deletable item that comes first in the bucket. */
    method FirstTerrible(vNew: set<int>, nNow: int) returns (found: bool, id: int)
      requires vNew <= mapInfo.Keys
      ensures found ==> id in vNew && IsTerrible(mapInfo[id], nNow)
      ensures found ==> forall n :: n in vNew && n < id ==> !IsTerrible(mapInfo[n], nNow)
      ensures !found ==> forall n :: n in vNew ==> !IsTerrible(mapInfo[n], nNow)
    {
      var rest := vNew;
      while rest != {}
        invariant rest <= vNew
        invariant forall n :: n in vNew && n !in rest ==> !IsTerrible(mapInfo[n], nNow)
        invariant forall n, k :: n in vNew && n !in rest && k in rest ==> n < k
      {
        id := Least(rest);
        if IsTerrible(mapInfo[id], nNow) {
          return true, id;
        }
        rest := rest - {id};
      }
      return false, NONE;
    }

    /** Four random places of the bucket, and the entry among them with the smallest nTime. */
    method OldestOfFour(vNew: set<int>) returns (nOldest: int, ghost sampled: set<int>)
      requires vNew != {} && vNew <= mapInfo.Keys && forall n :: n in vNew ==> n != NONE
      ensures nOldest in sampled && sampled <= vNew && 1 <= |sampled| <= 4
      ensures forall n :: n in sampled ==> mapInfo[nOldest].addr.nTime <= mapInfo[n].addr.nTime
    {
      var n0 := GetRandInt(|vNew|);
      var n1 := GetRandInt(|vNew|);
      var n2 := GetRandInt(|vNew|);
      var n3 := GetRandInt(|vNew|);
      ghost var places := {n0, n1, n2, n3};
      hide Hits;
      var nI := 0;
      var info := mapInfo;
      nOldest, sampled := NONE, {};
      HitsNone(places);
      var rest := vNew;
      while rest != {}
        invariant rest <= vNew && nI + |rest| == |vNew|
        invariant sampled <= vNew && sampled !! rest
        invariant |sampled| == |Hits(places, nI)|
        invariant nOldest == NONE <==> sampled == {}
        invariant sampled != {} ==> nOldest in sampled
        invariant forall n :: n in sampled ==> info[nOldest].addr.nTime <= info[n].addr.nTime
      {
        var id := Least(rest);
        HitsNext(places, nI);
        if nI == n0 || nI == n1 || nI == n2 || nI == n3 {
          if nOldest == NONE || info[id].addr.nTime < info[nOldest].addr.nTime {
            nOldest := id;
          }
          sampled := sampled + {id};
        }
        rest := rest - {id};
        nI := nI + 1;
      }
      HitsAll(n0, n1, n2, n3, nI);
    }

    /** The places hit among the first `k`. */
    static ghost function Hits(places: set<nat>, k: nat): set<nat> {
      set x | x in places && x < k
    }

    static lemma HitsNone(places: set<nat>)
      ensures |Hits(places, 0)| == 0
    {
      assert Hits(places, 0) == {};
    }

    static lemma HitsNext(places: set<nat>, k: nat)
      ensures |Hits(places, k + 1)| == |Hits(places, k)| + if k in places then 1 else 0
    {
      assert Hits(places, k + 1) == if k in places then Hits(places, k) + {k} else Hits(places, k);
    }

    static lemma HitsAll(n0: nat, n1: nat, n2: nat, n3: nat, k: nat)
      requires n0 < k && n1 < k && n2 < k && n3 < k
      ensures 1 <= |Hits({n0, n1, n2, n3}, k)| <= 4
    {
      assert Hits({n0, n1, n2, n3}, k) == {n0, n1, n2, n3};
      assert n0 in {n0, n1, n2, n3};
    }

    /** Shuffles the first entries of a tried bucket and returns a position to replace. The position is
        where the last improvement was swapped away from, so only its range is promised. */
    method SelectTried(nKBucket: nat) returns (nOldestPos: int)
      requires nKBucket < |vvTried| && vvTried[nKBucket] != []
      requires forall i :: 0 <= i < |vvTried[nKBucket]| ==>
        vvTried[nKBucket][i] in mapInfo && vvTried[nKBucket][i] != NONE
      modifies `vvTried
      ensures |vvTried| == old(|vvTried|) && vvTried == old(vvTried)[nKBucket := vvTried[nKBucket]]
      ensures multiset(vvTried[nKBucket]) == multiset(old(vvTried[nKBucket]))
      ensures 0 <= nOldestPos < |vvTried[nKBucket]|
    {
      ghost var bucket := vvTried[nKBucket];
      var vTried := vvTried[nKBucket];
      var nOldest := NONE;
      nOldestPos := -1;
      var i := 0;
      while i < TRIED_ENTRIES_INSPECT_ON_EVICT && i < |vTried|
        invariant vvTried == old(vvTried) && 0 <= i <= |vTried| == |bucket| && multiset(vTried) == multiset(bucket)
        invariant forall k :: 0 <= k < |vTried| ==> vTried[k] in mapInfo && vTried[k] != NONE
        invariant if i == 0 then nOldest == NONE
          else nOldest in mapInfo && nOldest != NONE && 0 <= nOldestPos < |vTried|
      {
        var r := GetRandInt(|vTried| - i);
        var nPos := r + i;
        var nTemp := vTried[nPos];
        SwapBag(vTried, nPos, i);
        vTried := vTried[nPos := vTried[i]];
        vTried := vTried[i := nTemp];
        if nOldest == NONE || mapInfo[nTemp].nLastSuccess < mapInfo[nOldest].nLastSuccess {
          nOldest := nTemp;
          nOldestPos := nPos;
        }
        i := i + 1;
      }
      vvTried := vvTried[nKBucket := vTried];
    }

    static lemma SwapBag(s: seq<int>, i: nat, j: nat)
      requires i < |s| && j < |s|
      ensures multiset(s[i := s[j]][j := s[i]]) == multiset(s)
    {
      UpdateBag(s, i, s[j]);
      UpdateBag(s[i := s[j]], j, s[i]);
    }

    /** Takes an entry out of every new bucket. */
    method Untie(nId: int)
      requires nId in mapInfo && NewOk(mapInfo, vvNew, NONE)
      modifies `mapInfo, `vvNew, `nNew
      ensures Now() == Untied(old(Now()), nId) && nId in mapInfo && mapInfo[nId].nRefCount == 0
    {
      ghost var before := Now();
      var info := mapInfo[nId];
      var buckets := vvNew;
      RecountSame(mapInfo, nId);
      hide NewOk, Untied, Emptied;
      var b := 0;
      while b < |buckets|
        invariant 0 <= b <= |buckets| == |before.vvNew| && Now() == before
        invariant info == before.mapInfo[nId].(nRefCount := info.nRefCount)
        invariant forall k :: 0 <= k < |buckets| ==>
          buckets[k] == if k < b then before.vvNew[k] - {nId} else before.vvNew[k]
        invariant NewOk(before.mapInfo[nId := info], buckets, NONE)
      {
        if nId in buckets[b] {
          NewRelease(before.mapInfo[nId := info], buckets, b, nId, NONE);
          buckets := buckets[b := buckets[b] - {nId}];
          info := info.(nRefCount := info.nRefCount - 1);
          UpdateTwice(before.mapInfo, nId, before.mapInfo[nId].(nRefCount := info.nRefCount + 1), info);
        }
        b := b + 1;
      }
      GoneEverywhere(before.mapInfo[nId := info], buckets, nId);
      mapInfo, vvNew := mapInfo[nId := info], buckets;
      nNew := nNew - 1;
      UntiedIs(before, Now(), nId);
    }

    static lemma UpdateTwice(m: map<int, Info>, id: int, a: Info, b: Info)
      ensures m[id := a][id := b] == m[id := b]
    {
    }

    static lemma UntiedIs(t: Tables, r: Tables, id: int)
      requires id in t.mapInfo && r == t.(mapInfo := r.mapInfo, vvNew := r.vvNew, nNew := t.nNew - 1)
      requires r.mapInfo == t.mapInfo[id := t.mapInfo[id].(nRefCount := 0)]
      requires |r.vvNew| == |t.vvNew| && forall k :: 0 <= k < |t.vvNew| ==> r.vvNew[k] == t.vvNew[k] - {id}
      ensures r == Untied(t, id)
    {
      assert r.vvNew == Emptied(t.vvNew, id);
    }

    static lemma RecountSame(m: map<int, Info>, id: int)
      requires id in m
      ensures m == m[id := m[id].(nRefCount := m[id].nRefCount)]
    {
    }

    static lemma GoneEverywhere(m: map<int, Info>, vvNew: seq<set<int>>, id: int)
      requires NewOk(m, vvNew, NONE) && id in m && forall b :: 0 <= b < |vvNew| ==> id !in vvNew[b]
      ensures m[id].nRefCount == 0
    {
      HeldNowhere(vvNew, SetBag, id);
      assert RefCount(m, id) == 0;
    }

    /** Moves an entry from the new buckets to its tried bucket. When that is full, one of its entries goes
        back to a new bucket: the one it hashes to if there is room, else the one `nId` came from. */
    method MakeTried(nId: int, nOrigin: nat) returns (ghost e: Eviction)
      requires Good(Now(), h, NONE) && nOrigin < |vvNew| && nId in vvNew[nOrigin]
      modifies `mapInfo, `nNew, `vvNew, `vvTried, `nTried
      ensures Good(Now(), h, NONE) && MadeTried(old(Now()), Now(), h, nId, nOrigin, e)
    {
      ghost var before := Now();
      e := NoEviction;
      NewMember(mapInfo, vvNew, nOrigin, nId, NONE);
      assert NewOk(mapInfo, vvNew, NONE);
      hide Good, Between, Untied, Appended, Replaced, MadeTried, NewOk, TriedOk, RandomOk, AddrOk, RefsOk, IdsOk;
      hide CountsOk, Hashes.TriedBucket, Hashes.NewBucket;
      UntiedBetween(before, nId, h);
      UntiedRoom(before, nId, nOrigin);
      BetweenSizes(Untied(before, nId), h, nId);
      UntiedKeeps(before, nId);
      Untie(nId);
      ghost var between := Now();
      var nKBucket := h.TriedBucket(mapInfo[nId].addr);
      if |vvTried[nKBucket]| < TRIED_BUCKET_SIZE {
        vvTried := vvTried[nKBucket := vvTried[nKBucket] + [nId]];
        nTried := nTried + 1;
        mapInfo := mapInfo[nId := mapInfo[nId].(fInTried := true)];
        MadeByAppend(before, between, Now(), h, nId, nOrigin, nKBucket);
        return;
      }
      e := ReplaceTried(nId, nOrigin, nKBucket);
      MadeByReplace(before, between, Now(), h, nId, nOrigin, nKBucket, e);
    }

    /** The full bucket gives up one of its entries for `nId`. */
    method ReplaceTried(nId: int, nOrigin: nat, nKBucket: nat) returns (ghost e: Eviction)
      requires Between(Now(), h, nId) && nKBucket < |vvTried| && |vvTried[nKBucket]| >= TRIED_BUCKET_SIZE
      requires nOrigin < |vvNew| == NEW_BUCKET_COUNT
      modifies `mapInfo, `nNew, `vvNew, `vvTried
      ensures EvictedFor(old(vvTried)[nKBucket], old(Now()), Now(), h, nId, nOrigin, nKBucket, e)
    {
      ghost var between := Now();
      hide Between, Replaced, Hashes.NewBucket;
      BucketKnown(between, h, nId, nKBucket);
      var nPos := SelectTried(nKBucket);
      ghost var bucket := vvTried[nKBucket];
      EvictKnown(between, h, nId, nKBucket, bucket, nPos);
      var was := vvTried[nKBucket][nPos];
      var nUBucket := h.NewBucket(mapInfo[was].addr, mapInfo[was].source);
      if |vvNew[nUBucket]| >= NEW_BUCKET_SIZE {
        nUBucket := nOrigin;
      }
      e := Eviction(bucket, nPos, nUBucket);
      ReplacedIs(between, nId, nKBucket, bucket, nPos, nUBucket);
      mapInfo := mapInfo[was := mapInfo[was].(fInTried := false, nRefCount := 1)];
      vvNew := vvNew[nUBucket := vvNew[nUBucket] + {was}];
      nNew := nNew + 1;
      vvTried := vvTried[nKBucket := vvTried[nKBucket][nPos := nId]];
      mapInfo := mapInfo[nId := mapInfo[nId].(fInTried := true)];
    }

    /** The entry of exactly this service, if there is one. */
    method FindService(addr: Service) returns (found: bool, nId: int)
      requires AddrOk(mapInfo, mapAddr)
      ensures found <==> Knows(Now(), addr)
      ensures found ==> nId == mapAddr[addr.ip] && nId in mapInfo && mapInfo[nId].addr.service == addr
    {
      found, nId := Find(addr.ip);
      if found {
        found := mapInfo[nId].addr.service == addr;
      }
    }

    /** Marks a service as good, and moves it to the tried buckets if it is not there. The bail-out for an
        entry found in no new bucket is never taken. */
    method Good_(addr: Service, nTime: int) returns (ghost origin: nat, ghost e: Eviction)
      requires Good(Now(), h, NONE)
      modifies `mapInfo, `nNew, `vvNew, `vvTried, `nTried
      ensures Good(Now(), h, NONE) && MadeGood(old(Now()), Now(), h, addr, nTime, origin, e)
    {
      origin, e := 0, NoEviction;
      ghost var before := Now();
      assert AddrOk(mapInfo, mapAddr);
      hide Good, AddrOk, MadeTried, Knows;
      var found, nId := FindService(addr);
      if !found {
        return;
      }
      var info := GoodInfo(mapInfo[nId], nTime);
      TouchedGood(before, nId, info, h, NONE);
      mapInfo := mapInfo[nId := info];
      ghost var touched := Now();
      assert touched == Touched(before, nId, info);
      if info.fInTried {
        return;
      }
      GoodSizes(touched, h);
      var nUBucket := FindBucket(nId);
      if nUBucket == -1 {
        SomeBucketHolds(touched, h, nId);
        assert false;
        return;
      }
      origin := nUBucket;
      e := MakeTried(nId, nUBucket);
    }

    /** A new bucket that holds the entry: the first one met from a random start. */
    method FindBucket(nId: int) returns (nUBucket: int)
      requires |vvNew| == NEW_BUCKET_COUNT
      ensures nUBucket == -1 || (0 <= nUBucket < |vvNew| && nId in vvNew[nUBucket])
      ensures nUBucket == -1 ==> forall b :: 0 <= b < |vvNew| ==> nId !in vvNew[b]
    {
      var nRnd := GetRandInt(|vvNew|);
      for n := 0 to |vvNew|
        invariant forall k :: 0 <= k < n ==> nId !in vvNew[Around(k, nRnd)]
      {
        var nB := Around(n, nRnd);
        if nId in vvNew[nB] {
          return nB;
        }
      }
      forall b | 0 <= b < |vvNew|
        ensures nId !in vvNew[b]
      {
        AroundHits(b, nRnd);
      }
      return -1;
    }

    method Attempt_(addr: Service, nTime: int)
      requires Good(Now(), h, NONE)
      modifies `mapInfo
      ensures Good(Now(), h, NONE)
      ensures if !old(Knows(Now(), addr)) then Now() == old(Now())
              else Now() == Touched(old(Now()), mapAddr[addr.ip], AttemptInfo(old(mapInfo)[mapAddr[addr.ip]], nTime))
    {
      ghost var before := Now();
      assert AddrOk(mapInfo, mapAddr);
      hide Good, AddrOk, Knows;
      var found, nId := FindService(addr);
      if !found {
        return;
      }
      var info := mapInfo[nId];
      info := info.(nLastTry := nTime);
      info := info.(nAttempts := info.nAttempts + 1);
      TouchedGood(before, nId, info, h, NONE);
      mapInfo := mapInfo[nId := info];
      assert Now() == Touched(before, nId, info);
    }

    method Connected_(addr: Service, nTime: int)
      requires Good(Now(), h, NONE)
      modifies `mapInfo
      ensures Good(Now(), h, NONE)
      ensures if !old(Knows(Now(), addr)) then Now() == old(Now())
              else Now() == Touched(old(Now()), mapAddr[addr.ip], ConnectedInfo(old(mapInfo)[mapAddr[addr.ip]], nTime))
    {
      ghost var before := Now();
      assert AddrOk(mapInfo, mapAddr);
      hide Good, AddrOk, Knows;
      var found, nId := FindService(addr);
      if !found {
        return;
      }
      TouchedGood(before, nId, ConnectedInfo(mapInfo[nId], nTime), h, NONE);
      var nUpdateInterval := 20 * 60;
      if nTime - mapInfo[nId].addr.nTime > nUpdateInterval {
        mapInfo := mapInfo[nId := mapInfo[nId].(addr := mapInfo[nId].addr.(nTime := nTime))];
      }
      assert mapInfo == before.mapInfo[nId := ConnectedInfo(before.mapInfo[nId], nTime)];
    }

    /** Puts an entry into one more new bucket, making room first if that is full. */
    method PlaceNew(nId: int, nUBucket: nat, nNow: int) returns (ghost evicted: int)
      requires nId in mapInfo && nId >= 0 && Good(Referenced(Now(), nId), h, nId)
      requires nUBucket < |vvNew| && nId !in vvNew[nUBucket]
      modifies `mapInfo, `mapAddr, `vRandom, `nNew, `vvNew
      ensures Good(Now(), h, NONE) && Now() == Filled(Referenced(old(Now()), nId), nUBucket, nId, evicted)
      ensures old(|vvNew[nUBucket]|) == NEW_BUCKET_SIZE ==> evicted in old(vvNew[nUBucket])
    {
      ghost var owed := Referenced(Now(), nId);
      var info := mapInfo[nId];
      mapInfo := mapInfo[nId := info.(nRefCount := info.nRefCount + 1)];
      assert Now() == owed;
      BucketAtMost(owed, h, nId, nUBucket);
      hide Good, Referenced, Released;
      evicted := NONE;
      if |vvNew[nUBucket]| == NEW_BUCKET_SIZE {
        ghost var s;
        var r;
        r, evicted, s := ShrinkNew(nUBucket, nNow, nId);
        ReleasedBucket(owed, nUBucket, evicted);
      }
      InsertedGood(Now(), nUBucket, nId, h);
      vvNew := vvNew[nUBucket := vvNew[nUBucket] + {nId}];
    }

    /** 2^nRefCount, by doubling. */
    method Factor(nRefCount: nat) returns (nFactor: nat)
      ensures nFactor == Quotients.Pow2(nRefCount)
    {
      nFactor := 1;
      for n := 0 to nRefCount
        invariant nFactor == Quotients.Pow2(n)
      {
        nFactor := nFactor * 2;
      }
    }

    /** Takes over what is new about a known address; `more` when it may go into another new bucket. */
    method UpdateKnown(nId: int, addr: Address, nTimePenalty: int, nNow: int) returns (more: bool)
      requires Good(Now(), h, NONE) && nId in mapInfo
      modifies `mapInfo
      ensures Good(Now(), h, NONE)
      ensures Now() == Touched(old(Now()), nId, RefreshInfo(old(mapInfo)[nId], addr, nTimePenalty, nNow))
      ensures more ==> MayAdd(mapInfo[nId], addr) && Good(Referenced(Now(), nId), h, nId)
    {
      ghost var before := Now();
      var info := RefreshInfo(mapInfo[nId], addr, nTimePenalty, nNow);
      TouchedGood(before, nId, info, h, NONE);
      hide Good, Referenced;
      mapInfo := mapInfo[nId := info];
      assert Now() == Touched(before, nId, info);
      if addr.nTime == 0 || (info.addr.nTime != 0 && addr.nTime <= info.addr.nTime) {
        return false;
      }
      if info.fInTried {
        return false;
      }
      RefsAtMost(Now(), h, nId);
      if info.nRefCount == NEW_BUCKETS_PER_ADDRESS {
        return false;
      }
      var nFactor := Factor(info.nRefCount);
      var r := GetRandInt(nFactor);
      if nFactor > 1 && r != 0 {
        return false;
      }
      ReferencedGood(Now(), nId, h);
      return true;
    }

    /** A new entry, dated back by the penalty and counted as new. */
    method CreateLate(addr: Address, source: NetAddr, nTimePenalty: int) returns (nId: int)
      requires Good(Now(), h, NONE) && addr.service.ip !in mapAddr
      modifies `mapInfo, `mapAddr, `vRandom, `nNew, `nIdCount
      ensures nId == old(nIdCount) && nId >= 0 && nId in mapInfo && mapInfo[nId].addr == LateBy(addr, nTimePenalty)
      ensures Referenced(Now(), nId) == Introduced(old(Now()), LateBy(addr, nTimePenalty), source)
      ensures Good(Referenced(Now(), nId), h, nId)
      ensures forall b :: 0 <= b < |vvNew| ==> nId !in vvNew[b]
    {
      ghost var before := Now();
      IdsNonNegative(before, h);
      IntroducedGood(before, LateBy(addr, nTimePenalty), source, h);
      NotYetHeld(before, h, nIdCount);
      hide Good, Referenced, Introduced;
      nId := Create(addr, source);
      var info := mapInfo[nId];
      mapInfo := mapInfo[nId := info.(addr := LateBy(addr, nTimePenalty))];
      nNew := nNew + 1;
      CreatedLate(before, Now(), addr, source, nTimePenalty);
    }

    /** Adds an address heard from `source`. `placed` says whether it went into one more new bucket and
        `evicted` who left that bucket if it was full. */
    method Add_(addr: Address, source: NetAddr, nTimePenalty: int, nNow: int)
      returns (fNew: bool, ghost placed: bool, ghost evicted: int)
      requires Good(Now(), h, NONE)
      modifies `mapInfo, `mapAddr, `vRandom, `nNew, `vvNew, `nIdCount
      ensures Good(Now(), h, NONE)
      ensures fNew <==> routable(addr.service.ip) && addr.service.ip !in old(mapAddr)
      ensures if !routable(addr.service.ip) then Now() == old(Now())
              else Added(old(Now()), Now(), h, addr, source, nTimePenalty, nNow, placed, evicted)
    {
      ghost var before := Now();
      fNew, placed, evicted := false, false, NONE;
      if !routable(addr.service.ip) {
        return;
      }
      assert AddrOk(mapInfo, mapAddr);
      GoodSizes(before, h);
      IdsNonNegative(before, h);
      hide Good, AddrOk, Filled, Introduced, Referenced, Hashes.NewBucket;
      var found, nId := Find(addr.service.ip);
      if found {
        var more := UpdateKnown(nId, addr, nTimePenalty, nNow);
        if !more {
          return;
        }
      } else {
        nId := CreateLate(addr, source, nTimePenalty);
        fNew := true;
      }
      var nUBucket := h.NewBucket(mapInfo[nId].addr, source);
      if nId !in vvNew[nUBucket] {
        placed := true;
        evicted := PlaceNew(nId, nUBucket, nNow);
      }
    }

    /** A random selection: shuffles the front of vRandom and reports the entries there. */
    method GetAddr_() returns (vAddr: seq<Address>)
      requires Good(Now(), h, NONE)
      modifies `mapInfo, `vRandom
      ensures Good(Now(), h, NONE) && SameButPlaces(old(mapInfo), mapInfo) && |vRandom| == old(|vRandom|)
      ensures |vAddr| == if 23 * |vRandom| / 100 > 2500 then 2500 else 23 * |vRandom| / 100
      ensures Shows(mapInfo, vRandom, vAddr)
      ensures forall j, k :: 0 <= j < k < |vAddr| ==> vAddr[j].service.ip != vAddr[k].service.ip
    {
      ghost var before := Now();
      var nNodes := GETADDR_MAX_PCT * |vRandom| / 100;
      if nNodes > GETADDR_MAX {
        nNodes := GETADDR_MAX;
      }
      vAddr := [];
      hide Good, Swapped, SameButPlaces, Shows;
      ShowsNothing(mapInfo, vRandom);
      SameReflexive(mapInfo);
      for n := 0 to nNodes
        invariant Good(Now(), h, NONE) && SameButPlaces(before.mapInfo, mapInfo) && |vRandom| == |before.vRandom|
        invariant |vAddr| == n && Shows(mapInfo, vRandom, vAddr)
      {
        var r := GetRandInt(|vRandom| - n);
        var nRndPos := r + n;
        ghost var t := Now();
        ListedKnown(t, h, n);
        ListedKnown(t, h, nRndPos);
        SwapRandom(n, nRndPos);
        SwapKeeps(t, nRndPos, h, before.mapInfo, vAddr);
        vAddr := vAddr + [mapInfo[vRandom[n]].addr];
      }
      Different(Now(), h, vAddr);
    }
  }

  // ---- what the calls mean -------------------------------------------------------------------------

  ghost predicate Knows(t: Tables, addr: Service) {
    addr.ip in t.mapAddr && t.mapAddr[addr.ip] in t.mapInfo && t.mapInfo[t.mapAddr[addr.ip]].addr.service == addr
  }

  function GoodInfo(i: Info, nTime: int): Info {
    i.(nLastSuccess := nTime, nLastTry := nTime, addr := i.addr.(nTime := nTime), nAttempts := 0)
  }

  function AttemptInfo(i: Info, nTime: int): Info {
    i.(nLastTry := nTime, nAttempts := i.nAttempts + 1)
  }

  function ConnectedInfo(i: Info, nTime: int): Info {
    if nTime - i.addr.nTime > 20 * 60 then i.(addr := i.addr.(nTime := nTime)) else i
  }

  /** What Add_ takes over from a fresh report about a known address. */
  function RefreshInfo(i: Info, addr: Address, nTimePenalty: int, nNow: int): Info {
    var nUpdateInterval := if nNow - addr.nTime < 24 * 60 * 60 then 60 * 60 else 24 * 60 * 60;
    var nTime :=
      if addr.nTime != 0 && (i.addr.nTime == 0 || i.addr.nTime < addr.nTime - nUpdateInterval - nTimePenalty)
      then Max(0, addr.nTime - nTimePenalty) else i.addr.nTime;
    i.(addr := i.addr.(nTime := nTime, nServices := i.addr.nServices | addr.nServices))
  }

  function LateBy(addr: Address, nTimePenalty: int): Address {
    addr.(nTime := Max(0, addr.nTime - nTimePenalty))
  }

  /** News about an entry that is not tried and has references to spare. */
  predicate MayAdd(i: Info, addr: Address) {
    && addr.nTime != 0 && (i.addr.nTime == 0 || addr.nTime > i.addr.nTime)
    && !i.fInTried && i.nRefCount < NEW_BUCKETS_PER_ADDRESS
  }

  /** The debt paid: `id` in bucket `b`, after `evicted` left it if it was full. */
  function Filled(t: Tables, b: nat, id: int, evicted: int): Tables
    requires b < |t.vvNew|
  {
    var t1 := if |t.vvNew[b]| == NEW_BUCKET_SIZE then Released(t, b, evicted) else t;
    if b < |t1.vvNew| then Inserted(t1, b, id) else t1
  }

  ghost predicate Added(t: Tables, r: Tables, h: Hashes, addr: Address, source: NetAddr, nTimePenalty: int, nNow: int,
                        placed: bool, evicted: int) {
    && |t.vvNew| == NEW_BUCKET_COUNT
    && if addr.service.ip in t.mapAddr then
         var id := t.mapAddr[addr.service.ip];
         && id in t.mapInfo
         && var info := RefreshInfo(t.mapInfo[id], addr, nTimePenalty, nNow);
            if placed then
              && MayAdd(info, addr)
              && PlacedIn(t.vvNew, Referenced(Touched(t, id, info), id), r, h.NewBucket(info.addr, source), id, evicted)
            else r == Touched(t, id, info)
       else
         && placed
         && PlacedIn(t.vvNew, Introduced(t, LateBy(addr, nTimePenalty), source), r, h.NewBucket(addr, source),
           t.nIdCount,
                     evicted)
  }

  /** `id` was not in bucket `b`, and now is; `evicted` was, if the bucket was full. */
  ghost predicate PlacedIn(vvNew: seq<set<int>>, owed: Tables, r: Tables, b: nat, id: int, evicted: int) {
    && b < |vvNew| == |owed.vvNew| && id !in vvNew[b]
    && (|vvNew[b]| == NEW_BUCKET_SIZE ==> evicted in vvNew[b])
    && r == Filled(owed, b, id, evicted)
  }

  lemma BucketAtMost(t: Tables, h: Hashes, pending: int, b: nat)
    requires Good(t, h, pending) && b < |t.vvNew|
    ensures |t.vvNew[b]| <= NEW_BUCKET_SIZE
  {
  }

  lemma ReleasedBucket(t: Tables, b: nat, id: int)
    requires b < |t.vvNew| && id in t.mapInfo
    ensures Released(t, b, id).vvNew == t.vvNew[b := t.vvNew[b] - {id}]
  {
  }

  lemma IdsNonNegative(t: Tables, h: Hashes)
    requires Good(t, h, NONE)
    ensures t.nIdCount >= 0 && forall n :: n in t.mapInfo ==> n >= 0
  {
  }

  lemma RefsAtMost(t: Tables, h: Hashes, id: int)
    requires Good(t, h, NONE) && id in t.mapInfo && !t.mapInfo[id].fInTried
    ensures 1 <= t.mapInfo[id].nRefCount <= NEW_BUCKETS_PER_ADDRESS
  {
  }

  /** Create, then the later time, then nNew++: the introduction but for the reference. */
  lemma CreatedLate(t: Tables, r: Tables, addr: Address, source: NetAddr, nTimePenalty: int)
    requires r == Created(t, addr, source).(nNew := t.nNew + 1, mapInfo := r.mapInfo)
    requires t.nIdCount in Created(t, addr, source).mapInfo
    requires r.mapInfo == Created(t, addr, source).mapInfo[t.nIdCount :=
               Created(t, addr, source).mapInfo[t.nIdCount].(addr := LateBy(addr, nTimePenalty))]
    ensures Referenced(r, t.nIdCount) == Introduced(t, LateBy(addr, nTimePenalty), source)
  {
    assert r == Created(t, LateBy(addr, nTimePenalty), source).(nNew := t.nNew + 1);
  }

  /** A new id is in no bucket yet. */
  lemma NotYetHeld(t: Tables, h: Hashes, id: int)
    requires Good(t, h, NONE) && id == t.nIdCount
    ensures forall b :: 0 <= b < |t.vvNew| ==> id !in t.vvNew[b]
  {
    forall b | 0 <= b < |t.vvNew|
      ensures id !in t.vvNew[b]
    {
      HeldHas(t.vvNew, SetBag, b, id);
      assert RefCount(t.mapInfo, id) == 0;
    }
  }

  lemma SameReflexive(m: map<int, Info>)
    ensures SameButPlaces(m, m)
  {
  }

  lemma ListedKnown(t: Tables, h: Hashes, i: nat)
    requires Good(t, h, NONE) && i < |t.vRandom|
    ensures t.vRandom[i] in t.mapInfo
  {
  }

  /** The list reports the entries at the front of vRandom. */
  ghost predicate Shows(m: map<int, Info>, vRandom: seq<int>, vAddr: seq<Address>) {
    |vAddr| <= |vRandom| && forall k :: 0 <= k < |vAddr| ==> vRandom[k] in m && vAddr[k] == m[vRandom[k]].addr
  }

  lemma ShowsNothing(m: map<int, Info>, vRandom: seq<int>)
    ensures Shows(m, vRandom, [])
  {
  }

  /** Swapping the next place with one at or behind it keeps what is reported, and shows one entry more. */
  lemma SwapKeeps(t: Tables, j: nat, h: Hashes, m0: map<int, Info>, vAddr: seq<Address>)
    requires Good(t, h, NONE) && |vAddr| <= j < |t.vRandom| && SameButPlaces(m0, t.mapInfo)
    requires Shows(t.mapInfo, t.vRandom, vAddr)
    ensures var r := Swapped(t, |vAddr|, j);
      && Good(r, h, NONE) && SameButPlaces(m0, r.mapInfo) && |r.vRandom| == |t.vRandom|
      && r.vRandom[|vAddr|] in r.mapInfo
      && Shows(r.mapInfo, r.vRandom, vAddr + [r.mapInfo[r.vRandom[|vAddr|]].addr])
  {
    var i := |vAddr|;
    SwappedGood(t, i, j, h, NONE);
    SwappedOk(t, i, j);
    var r := Swapped(t, i, j);
    SameThrough(m0, t.mapInfo, r.mapInfo);
    ListedKnown(r, h, i);
    hide Swapped, Good;
    forall k | 0 <= k < i
      ensures r.vRandom[k] in r.mapInfo && vAddr[k] == r.mapInfo[r.vRandom[k]].addr
    {
      SameAt(t.mapInfo, r.mapInfo, t.vRandom[k]);
    }
  }

  lemma SameThrough(m0: map<int, Info>, m1: map<int, Info>, m2: map<int, Info>)
    requires SameButPlaces(m0, m1) && SameButPlaces(m1, m2)
    ensures SameButPlaces(m0, m2)
  {
    forall n | n in m0
      ensures n in m2 && m2[n] == m0[n].(nRandomPos := m2[n].nRandomPos)
    {
      assert n in m1;
      assert m1[n] == m0[n].(nRandomPos := m1[n].nRandomPos);
    }
  }

  /** No network address is reported twice. */
  lemma Different(t: Tables, h: Hashes, vAddr: seq<Address>)
    requires Good(t, h, NONE) && Shows(t.mapInfo, t.vRandom, vAddr)
    ensures forall j, k :: 0 <= j < k < |vAddr| ==> vAddr[j].service.ip != vAddr[k].service.ip
  {
    forall j, k | 0 <= j < k < |vAddr|
      ensures vAddr[j].service.ip != vAddr[k].service.ip
    {
      assert t.mapInfo[t.vRandom[j]].nRandomPos == j && t.mapInfo[t.vRandom[k]].nRandomPos == k;
      AddrAt(t.mapInfo, t.mapAddr, t.vRandom[j]);
      AddrAt(t.mapInfo, t.mapAddr, t.vRandom[k]);
    }
  }

  lemma AddrAt(m: map<int, Info>, mapAddr: map<NetAddr, int>, n: int)
    requires AddrOk(m, mapAddr) && n in m
    ensures m[n].addr.service.ip in mapAddr && mapAddr[m[n].addr.service.ip] == n
  {
    assert Ip(m[n]) in mapAddr;
  }

  ghost predicate MadeGood(t: Tables, r: Tables, h: Hashes, addr: Service, nTime: int, origin: nat, e: Eviction) {
    if !Knows(t, addr) then r == t
    else
      var id := t.mapAddr[addr.ip];
      var touched := Touched(t, id, GoodInfo(t.mapInfo[id], nTime));
      if t.mapInfo[id].fInTried then r == touched
      else
        && origin < |t.vvNew| && id in t.vvNew[origin]
        && MadeTried(touched, r, h, id, origin, e)
  }

  lemma GoodSizes(t: Tables, h: Hashes)
    requires Good(t, h, NONE)
    ensures |t.vvTried| == TRIED_BUCKET_COUNT && |t.vvNew| == NEW_BUCKET_COUNT
  {
  }

  /** An entry that is not tried is in some new bucket. */
  lemma SomeBucketHolds(t: Tables, h: Hashes, id: int)
    requires Good(t, h, NONE) && id in t.mapInfo && !t.mapInfo[id].fInTried
    ensures exists b :: 0 <= b < |t.vvNew| && id in t.vvNew[b]
  {
    assert Held(t.vvNew, SetBag)[id] == RefCount(t.mapInfo, id) >= 1;
    HeldSomewhere(t.vvNew, id);
  }

  lemma HeldSomewhere(vvNew: seq<set<int>>, id: int)
    ensures Held(vvNew, SetBag)[id] == 0 || exists b :: 0 <= b < |vvNew| && id in vvNew[b]
  {
    if forall b :: 0 <= b < |vvNew| ==> id !in vvNew[b] {
      HeldNowhere(vvNew, SetBag, id);
    }
  }

  /** (n + nRnd) % vvNew.size() */
  function Around(n: nat, nRnd: nat): (b: nat)
    ensures b < NEW_BUCKET_COUNT
  {
    (n + nRnd) % NEW_BUCKET_COUNT
  }

  lemma AroundHits(b: nat, nRnd: nat)
    requires b < NEW_BUCKET_COUNT && nRnd < NEW_BUCKET_COUNT
    ensures exists k :: 0 <= k < NEW_BUCKET_COUNT && Around(k, nRnd) == b
  {
    assert Around(if b >= nRnd then b - nRnd else b - nRnd + NEW_BUCKET_COUNT, nRnd) == b;
  }

  /** Who made room in a full tried bucket: `bucket[pos]` of the shuffled bucket went to new bucket `ub`. */
  datatype Eviction = NoEviction | Eviction(bucket: seq<int>, pos: nat, ub: nat)

  /** The move to the tried buckets, and the eviction when the bucket is full. */
  ghost predicate MadeTried(t: Tables, r: Tables, h: Hashes, id: int, origin: nat, e: Eviction) {
    && id in t.mapInfo && |t.vvTried| == TRIED_BUCKET_COUNT && |t.vvNew| == NEW_BUCKET_COUNT && origin < |t.vvNew|
    && var kb, u := h.TriedBucket(t.mapInfo[id].addr), Untied(t, id);
       if |t.vvTried[kb]| < TRIED_BUCKET_SIZE then e == NoEviction && r == Appended(u, id, kb)
       else EvictedFor(t.vvTried[kb], u, r, h, id, origin, kb, e)
  }

  /** The entry evicted was one of the bucket, and went where it hashes to if there was room. */
  ghost predicate EvictedFor(vTried: seq<int>, u: Tables, r: Tables, h: Hashes, id: int, origin: nat, kb: nat,
      e: Eviction) {
    && e.Eviction? && multiset(e.bucket) == multiset(vTried) && e.pos < |e.bucket|
    && e.bucket[e.pos] in u.mapInfo && u.mapInfo[e.bucket[e.pos]].fInTried
    && kb < |u.vvTried| && |u.vvNew| == NEW_BUCKET_COUNT && origin < NEW_BUCKET_COUNT
    && (var hashed := h.NewBucket(u.mapInfo[e.bucket[e.pos]].addr, u.mapInfo[e.bucket[e.pos]].source);
        e.ub == (if |u.vvNew[hashed]| < NEW_BUCKET_SIZE then hashed else origin))
    && r == Replaced(u, id, kb, e.bucket, e.pos, e.ub)
  }

  lemma MadeByAppend(t: Tables, u: Tables, r: Tables, h: Hashes, id: int, origin: nat, kb: nat)
    requires id in t.mapInfo && u == Untied(t, id) && Between(u, h, id) && origin < |t.vvNew|
    requires kb == h.TriedBucket(t.mapInfo[id].addr) && |u.vvTried[kb]| < TRIED_BUCKET_SIZE
    requires r == u.(mapInfo := u.mapInfo[id := u.mapInfo[id].(fInTried := true)],
                     vvTried := u.vvTried[kb := u.vvTried[kb] + [id]], nTried := u.nTried + 1)
    ensures Good(r, h, NONE) && MadeTried(t, r, h, id, origin, NoEviction)
  {
    BetweenSizes(u, h, id);
    UntiedKeeps(t, id);
    AppendedGood(u, id, kb, h);
    AppendedIs(u, id, kb);
    hide Good, Between, Untied, Appended;
  }

  lemma MadeByReplace(t: Tables, u: Tables, r: Tables, h: Hashes, id: int, origin: nat, kb: nat, e: Eviction)
    requires id in t.mapInfo && u == Untied(t, id) && Between(u, h, id) && origin < |t.vvNew|
    requires kb == h.TriedBucket(t.mapInfo[id].addr) && kb < |u.vvTried| && |u.vvTried[kb]| >= TRIED_BUCKET_SIZE
    requires EvictedFor(u.vvTried[kb], u, r, h, id, origin, kb, e) && |u.vvNew[origin]| < NEW_BUCKET_SIZE
    ensures Good(r, h, NONE) && MadeTried(t, r, h, id, origin, e)
  {
    BetweenSizes(u, h, id);
    UntiedKeeps(t, id);
    ReplacedGood(u, id, kb, e.bucket, e.pos, e.ub, h);
    hide Good, Between, Untied, Replaced;
  }

  // ---- the definitions, for callers that hide them ------------------------------------------------

  lemma BetweenSizes(t: Tables, h: Hashes, id: int)
    requires Between(t, h, id)
    ensures |t.vvTried| == TRIED_BUCKET_COUNT && |t.vvNew| == NEW_BUCKET_COUNT && id in t.mapInfo
    ensures forall b :: 0 <= b < |t.vvTried| ==> |t.vvTried[b]| <= TRIED_BUCKET_SIZE
    ensures forall b :: 0 <= b < |t.vvNew| ==> |t.vvNew[b]| <= NEW_BUCKET_SIZE
  {
  }

  lemma UntiedKeeps(t: Tables, id: int)
    requires id in t.mapInfo
    ensures var r := Untied(t, id);
      && r == t.(mapInfo := r.mapInfo, nNew := t.nNew - 1, vvNew := r.vvNew)
      && r.mapInfo == t.mapInfo[id := t.mapInfo[id].(nRefCount := 0)]
      && |r.vvNew| == |t.vvNew|
  {
  }

  lemma AppendedIs(t: Tables, id: int, kb: nat)
    requires id in t.mapInfo && kb < |t.vvTried|
    ensures Appended(t, id, kb) == t.(mapInfo := t.mapInfo[id := t.mapInfo[id].(fInTried := true)],
                                      vvTried := t.vvTried[kb := t.vvTried[kb] + [id]], nTried := t.nTried + 1)
  {
  }

  lemma ReplacedIs(t: Tables, id: int, kb: nat, bucket: seq<int>, pos: nat, ub: nat)
    requires kb < |t.vvTried| && pos < |bucket| && ub < |t.vvNew| && id in t.mapInfo && bucket[pos] in t.mapInfo
    requires id != bucket[pos]
    ensures Replaced(t, id, kb, bucket, pos, ub)
         == t.(mapInfo := t.mapInfo[bucket[pos] := t.mapInfo[bucket[pos]].(fInTried := false, nRefCount := 1)]
                                   [id := t.mapInfo[id].(fInTried := true)],
               vvTried := t.vvTried[kb := bucket[pos := id]],
               vvNew := t.vvNew[ub := t.vvNew[ub] + {bucket[pos]}], nNew := t.nNew + 1)
  {
  }

  lemma BucketKnown(t: Tables, h: Hashes, id: int, kb: nat)
    requires Between(t, h, id) && kb < |t.vvTried|
    ensures id in t.mapInfo
    ensures forall i :: 0 <= i < |t.vvTried[kb]| ==> t.vvTried[kb][i] in t.mapInfo && t.vvTried[kb][i] != NONE
  {
  }

  lemma EvictKnown(t: Tables, h: Hashes, id: int, kb: nat, bucket: seq<int>, pos: nat)
    requires Between(t, h, id) && kb < |t.vvTried| && multiset(bucket) == multiset(t.vvTried[kb]) && pos < |bucket|
    ensures bucket[pos] in t.mapInfo && t.mapInfo[bucket[pos]].fInTried && bucket[pos] != id
  {
    BucketMember(t.mapInfo, t.vvTried, h, kb, bucket[pos], bucket, pos);
  }
}
