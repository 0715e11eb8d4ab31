/** Saving the address manager and loading it again (IMPLEMENT_SERIALIZE of CAddrMan in src/addrman.h). A
    file is the values in the order they are written; their encodings are taken as faithful. */
module AddrFile {
  import opened AddrTables
  import opened AddrMan

  /** What is written of an entry; nLastTry and the fields marked "memory only" are not. */
  datatype Saved = Saved(addr: Address, source: NetAddr, nLastSuccess: int, nAttempts: int)

  /** nNew, nTried and the number of buckets are the lengths of the three lists. */
  datatype FileData = FileData(newInfos: seq<Saved>, triedInfos: seq<Saved>, buckets: seq<seq<int>>)

  function Save(i: Info): Saved {
    Saved(i.addr, i.source, i.nLastSuccess, i.nAttempts)
  }

  /** An entry read into a freshly initialised CAddrInfo. */
  function Restore(s: Saved): Info {
    Info(s.addr, s.source, s.nLastSuccess, 0, s.nAttempts, 0, false, -1)
  }

  // ---- writing -------------------------------------------------------------------------------------

  ghost predicate Ascending(s: seq<int>) {
    forall i, j :: 0 <= i < j < |s| ==> s[i] < s[j]
  }

  /** The ids in the order a std::map visits them. */
  ghost predicate Lists(s: seq<int>, ids: set<int>) {
    Ascending(s) && forall n :: n in s <==> n in ids
  }

  ghost predicate Saves(m: map<int, Info>, ids: seq<int>, infos: seq<Saved>) {
    |infos| == |ids| && forall k :: 0 <= k < |ids| ==> ids[k] in m && infos[k] == Save(m[ids[k]])
  }

  ghost predicate Written(t: Tables, f: FileData, newIds: seq<int>, triedIds: seq<int>) {
    && Lists(newIds, NewIds(t.mapInfo)) && Lists(triedIds, TriedIds(t.mapInfo))
    && Saves(t.mapInfo, newIds, f.newInfos) && Saves(t.mapInfo, triedIds, f.triedInfos)
    && |f.buckets| == |t.vvNew|
    && (forall b :: 0 <= b < |t.vvNew| ==> BucketWritten(t.vvNew[b], f.buckets[b], newIds))
  }

  /** The bucket's ids as indexes into the list of new entries. */
  ghost predicate BucketWritten(vNew: set<int>, bucket: seq<int>, newIds: seq<int>) {
    && Ascending(bucket) && (forall i :: 0 <= i < |bucket| ==> 0 <= bucket[i] < |newIds|)
    && (forall k :: 0 <= k < |newIds| ==> (k in bucket <==> newIds[k] in vNew))
  }

  lemma {:induction false} AscendingSize(s: seq<int>, ids: set<int>)
    requires Lists(s, ids)
    ensures |s| == |ids|
    decreases |s|
  {
    if s == [] {
      assert forall n :: n !in ids;
      assert ids == {};
    } else {
      var last := s[|s| - 1];
      var front := s[..|s| - 1];
      assert s == front + [last];
      assert last in ids;
      AscendingSize(front, ids - {last});
    }
  }

  lemma ListsNext(s: seq<int>, ids: set<int>, id: int)
    requires Lists(s, ids) && forall n :: n in ids ==> n < id
    ensures Lists(s + [id], ids + {id})
  {
    forall i | 0 <= i < |s|
      ensures s[i] < id
    {
      assert s[i] in s;
    }
  }

  lemma SavesNext(m: map<int, Info>, ids: seq<int>, infos: seq<Saved>, id: int)
    requires Saves(m, ids, infos) && id in m
    ensures Saves(m, ids + [id], infos + [Save(m[id])])
  {
  }

  lemma CountMeansNew(m: map<int, Info>, id: int)
    requires RefsOk(m) && id in m
    ensures m[id].nRefCount != 0 <==> !m[id].fInTried
  {
  }

  lemma IdsNext(m: map<int, Info>, rest: set<int>, id: int)
    requires id in rest && rest <= m.Keys
    ensures NewIds(m - (rest - {id})) == if m[id].fInTried then NewIds(m - rest) else NewIds(m - rest) + {id}
    ensures TriedIds(m - (rest - {id})) == if m[id].fInTried then TriedIds(m - rest) + {id} else TriedIds(m - rest)
  {
  }

  /** Writes the new entries in id order, remembering each one's index. */
  method WriteNew(t: Tables) returns (infos: seq<Saved>, mapUnkIds: map<int, int>, ghost newIds: seq<int>)
    requires t.nNew == |NewIds(t.mapInfo)| && RefsOk(t.mapInfo)
    ensures Lists(newIds, NewIds(t.mapInfo)) && Saves(t.mapInfo, newIds, infos)
    ensures forall k :: 0 <= k < |newIds| ==> newIds[k] in mapUnkIds && mapUnkIds[newIds[k]] == k
  {
    infos, mapUnkIds, newIds := [], map[], [];
    var nIds := 0;
    var rest := t.mapInfo.Keys;
    hide Lists, Saves, NewIds, RefsOk, Save;
    NoneYet(t.mapInfo);
    while rest != {}
      invariant rest <= t.mapInfo.Keys && nIds == |infos|
      invariant forall n, k :: n in rest && k in t.mapInfo && k !in rest ==> k < n
      invariant Lists(newIds, NewIds(t.mapInfo - rest)) && Saves(t.mapInfo, newIds, infos)
      invariant |newIds| == nIds && forall k :: 0 <= k < |newIds| ==> newIds[k] !in rest
      invariant forall k :: 0 <= k < |newIds| ==> newIds[k] in mapUnkIds && mapUnkIds[newIds[k]] == k
    {
      if nIds == t.nNew {
        AllListed(t.mapInfo, rest, newIds);
        return;
      }
      var id := Least(rest);
      mapUnkIds := mapUnkIds[id := nIds];
      var info := t.mapInfo[id];
      IdsNext(t.mapInfo, rest, id);
      CountMeansNew(t.mapInfo, id);
      if info.nRefCount != 0 {
        SeenBefore(t.mapInfo, rest, id);
        SavesNext(t.mapInfo, newIds, infos, id);
        ListsNext(newIds, NewIds(t.mapInfo - rest), id);
        infos := infos + [Save(info)];
        newIds := newIds + [id];
        nIds := nIds + 1;
      }
      rest := rest - {id};
    }
    assert t.mapInfo - rest == t.mapInfo;
  }

  lemma NoneYet(m: map<int, Info>)
    ensures Lists([], NewIds(m - m.Keys)) && Lists([], TriedIds(m - m.Keys)) && Saves(m, [], [])
  {
  }

  lemma SeenBefore(m: map<int, Info>, rest: set<int>, id: int)
    requires id in rest && forall n, k :: n in rest && k in m && k !in rest ==> k < n
    ensures forall n :: n in NewIds(m - rest) ==> n < id
    ensures forall n :: n in TriedIds(m - rest) ==> n < id
  {
  }

  /** As many as there are: all of them. */
  lemma AllListed(m: map<int, Info>, rest: set<int>, ids: seq<int>)
    ensures Lists(ids, NewIds(m - rest)) && |ids| == |NewIds(m)| ==> Lists(ids, NewIds(m))
    ensures Lists(ids, TriedIds(m - rest)) && |ids| == |TriedIds(m)| ==> Lists(ids, TriedIds(m))
  {
    if Lists(ids, NewIds(m - rest)) && |ids| == |NewIds(m)| {
      AscendingSize(ids, NewIds(m - rest));
      SubsetOfSize(NewIds(m - rest), NewIds(m));
    }
    if Lists(ids, TriedIds(m - rest)) && |ids| == |TriedIds(m)| {
      AscendingSize(ids, TriedIds(m - rest));
      SubsetOfSize(TriedIds(m - rest), TriedIds(m));
    }
  }

  /** Writes the tried entries in id order. */
  method WriteTried(t: Tables) returns (infos: seq<Saved>, ghost triedIds: seq<int>)
    requires t.nTried == |TriedIds(t.mapInfo)|
    ensures Lists(triedIds, TriedIds(t.mapInfo)) && Saves(t.mapInfo, triedIds, infos)
  {
    infos, triedIds := [], [];
    var nIds := 0;
    var rest := t.mapInfo.Keys;
    hide Lists, Saves, TriedIds, Save;
    NoneYet(t.mapInfo);
    while rest != {}
      invariant rest <= t.mapInfo.Keys && nIds == |infos| == |triedIds|
      invariant forall n, k :: n in rest && k in t.mapInfo && k !in rest ==> k < n
      invariant Lists(triedIds, TriedIds(t.mapInfo - rest)) && Saves(t.mapInfo, triedIds, infos)
    {
      if nIds == t.nTried {
        AllListed(t.mapInfo, rest, triedIds);
        return;
      }
      var id := Least(rest);
      var info := t.mapInfo[id];
      IdsNext(t.mapInfo, rest, id);
      if info.fInTried {
        SeenBefore(t.mapInfo, rest, id);
        SavesNext(t.mapInfo, triedIds, infos, id);
        ListsNext(triedIds, TriedIds(t.mapInfo - rest), id);
        infos := infos + [Save(info)];
        triedIds := triedIds + [id];
        nIds := nIds + 1;
      }
      rest := rest - {id};
    }
    assert t.mapInfo - rest == t.mapInfo;
  }

  /** Writes one bucket: the indexes of its ids, in id order. */
  method WriteBucket(vNew: set<int>, mapUnkIds: map<int, int>, ghost newIds: seq<int>) returns (bucket: seq<int>)
    requires Ascending(newIds) && forall n :: n in vNew ==> n in newIds
    requires forall k :: 0 <= k < |newIds| ==> newIds[k] in mapUnkIds && mapUnkIds[newIds[k]] == k
    ensures BucketWritten(vNew, bucket, newIds)
  {
    bucket := [];
    var rest := vNew;
    while rest != {}
      invariant rest <= vNew
      invariant forall n, k :: n in rest && k in vNew && k !in rest ==> k < n
      invariant Ascending(bucket) && forall i :: 0 <= i < |bucket| ==> 0 <= bucket[i] < |newIds|
      invariant forall k :: 0 <= k < |newIds| ==> (k in bucket <==> newIds[k] in vNew - rest)
    {
      var id := Least(rest);
      ghost var j :| 0 <= j < |newIds| && newIds[j] == id;
      var nIndex := mapUnkIds[id];
      forall i | 0 <= i < |bucket|
        ensures bucket[i] < nIndex
      {
        assert bucket[i] in bucket;
        assert newIds[bucket[i]] < newIds[nIndex];
      }
      bucket := bucket + [nIndex];
      rest := rest - {id};
    }
    assert vNew - rest == vNew;
  }

  /** The file of consistent tables. */
  method Write(am: CAddrMan) returns (f: FileData, ghost newIds: seq<int>, ghost triedIds: seq<int>)
    requires Good(am.Now(), am.h, NONE)
    ensures Written(am.Now(), f, newIds, triedIds)
  {
    ghost var t := am.Now();
    var infos, mapUnkIds, tried;
    assert RefsOk(t.mapInfo) && t.nNew == |NewIds(t.mapInfo)| && t.nTried == |TriedIds(t.mapInfo)|;
    forall b, n | 0 <= b < |t.vvNew| && n in t.vvNew[b]
      ensures n in NewIds(t.mapInfo)
    {
      NewMember(t.mapInfo, t.vvNew, b, n, NONE);
    }
    hide Good, RefsOk, NewIds, TriedIds, BucketWritten, Saves;
    infos, mapUnkIds, newIds := WriteNew(Tables(am.mapInfo, am.mapAddr, am.vRandom, am.vvTried, am.nTried, am.vvNew,
      am.nNew, am.nIdCount));
    tried, triedIds := WriteTried(Tables(am.mapInfo, am.mapAddr, am.vRandom, am.vvTried, am.nTried, am.vvNew, am.nNew,
      am.nIdCount));
    var buckets := [];
    for b := 0 to |am.vvNew|
      invariant |buckets| == b && forall k :: 0 <= k < b ==> BucketWritten(am.vvNew[k], buckets[k], newIds)
    {
      var bucket := WriteBucket(am.vvNew[b], mapUnkIds, newIds);
      buckets := buckets + [bucket];
    }
    f := FileData(infos, tried, buckets);
  }

  // ---- loading ---------------------------------------------------------------------------------------

  function NoLists(k: nat): (r: seq<seq<int>>)
    ensures |r| == k && forall i :: 0 <= i < k ==> r[i] == []
  {
    seq(k, i => [])
  }

  function NoSets(k: nat): (r: seq<set<int>>)
    ensures |r| == k && forall i :: 0 <= i < k ==> r[i] == {}
  {
    seq(k, i => {})
  }

  /** One of the first nNew entries: its id is its index. When the number of buckets changed it goes into
      the bucket of its own source. */
  function NewLoaded(t: Tables, s: Saved, id: int, rebucket: bool, h: Hashes): Tables {
    var info := Restore(s).(nRandomPos := |t.vRandom|, nRefCount := if rebucket then 1 else 0);
    var b := h.NewBucket(info.addr, info.source);
    t.(mapInfo := t.mapInfo[id := info], mapAddr := t.mapAddr[Ip(info) := id], vRandom := t.vRandom + [id],
       vvNew := if rebucket && b < |t.vvNew| then t.vvNew[b := t.vvNew[b] + {id}] else t.vvNew)
  }

  /** One of the nTried entries, lost when its bucket is full. */
  function TriedLoaded(t: Tables, s: Saved, h: Hashes): Tables {
    var kb := h.TriedBucket(s.addr);
    var id := t.nIdCount;
    if kb < |t.vvTried| && |t.vvTried[kb]| < TRIED_BUCKET_SIZE then
      var info := Restore(s).(nRandomPos := |t.vRandom|, fInTried := true);
      t.(mapInfo := t.mapInfo[id := info], mapAddr := t.mapAddr[Ip(info) := id], vRandom := t.vRandom + [id],
         vvTried := t.vvTried[kb := t.vvTried[kb] + [id]], nIdCount := id + 1)
    else t.(nTried := t.nTried - 1)
  }

  const BLANK := Info(Address(Service(0, 0), 0, 0), 0, 0, 0, 0, 0, false, -1)

  /** One index read for bucket `b`; reading mapInfo creates what is missing. */
  function RefLoaded(t: Tables, b: nat, nIndex: int, sameCount: bool): Tables {
    var info := if nIndex in t.mapInfo then t.mapInfo[nIndex] else BLANK;
    if sameCount && b < |t.vvNew| && info.nRefCount < NEW_BUCKETS_PER_ADDRESS then
      t.(mapInfo := t.mapInfo[nIndex := info.(nRefCount := info.nRefCount + 1)],
         vvNew := t.vvNew[b := t.vvNew[b] + {nIndex}])
    else t.(mapInfo := t.mapInfo[nIndex := info])
  }

  function LoadNew(f: FileData, h: Hashes, k: nat): Tables
    requires k <= |f.newInfos|
  {
    if k == 0 then
      Tables(map[], map[], [], NoLists(TRIED_BUCKET_COUNT), |f.triedInfos|, NoSets(NEW_BUCKET_COUNT), |f.newInfos|, 0)
    else NewLoaded(LoadNew(f, h, k - 1), f.newInfos[k - 1], k - 1, |f.buckets| != NEW_BUCKET_COUNT, h)
  }

  function LoadTried(f: FileData, h: Hashes, k: nat): Tables
    requires k <= |f.triedInfos|
  {
    if k == 0 then LoadNew(f, h, |f.newInfos|).(nIdCount := |f.newInfos|)
    else TriedLoaded(LoadTried(f, h, k - 1), f.triedInfos[k - 1], h)
  }

  function LoadRefs(t: Tables, b: nat, bucket: seq<int>, i: nat, sameCount: bool): Tables
    requires i <= |bucket|
  {
    if i == 0 then t else RefLoaded(LoadRefs(t, b, bucket, i - 1, sameCount), b, bucket[i - 1], sameCount)
  }

  function LoadBuckets(f: FileData, h: Hashes, b: nat): Tables
    requires b <= |f.buckets|
  {
    if b == 0 then LoadTried(f, h, |f.triedInfos|)
    else LoadRefs(LoadBuckets(f, h, b - 1), b - 1, f.buckets[b - 1], |f.buckets[b - 1]|,
      |f.buckets| == NEW_BUCKET_COUNT)
  }

  lemma {:induction false} LoadNewShape(f: FileData, h: Hashes, k: nat)
    requires k <= |f.newInfos|
    ensures var t := LoadNew(f, h, k);
      && t.nTried == |f.triedInfos| && t.nNew == |f.newInfos| && t.nIdCount == 0
      && |t.vvNew| == NEW_BUCKET_COUNT && t.vvTried == NoLists(TRIED_BUCKET_COUNT)
  {
    if k > 0 {
      LoadNewShape(f, h, k - 1);
    }
  }

  /** Replaces the tables by those of a file. */
  method Load(am: CAddrMan, f: FileData)
    modifies am
    ensures am.Now() == LoadBuckets(f, am.h, |f.buckets|)
  {
    var nUBuckets := |f.buckets|;
    am.nNew, am.nTried := |f.newInfos|, |f.triedInfos|;
    am.nIdCount := 0;
    am.mapInfo, am.mapAddr, am.vRandom := map[], map[], [];
    am.vvTried, am.vvNew := NoLists(TRIED_BUCKET_COUNT), NoSets(NEW_BUCKET_COUNT);
    LoadNewEntries(am, f);
    LoadNewShape(f, am.h, |f.newInfos|);
    hide LoadNew;
    am.nIdCount := am.nNew;
    LoadTriedEntries(am, f);
    hide LoadTried;
    for b := 0 to nUBuckets
      invariant am.Now() == LoadBuckets(f, am.h, b)
    {
      LoadBucket(am, f, b);
    }
  }

  method LoadNewEntries(am: CAddrMan, f: FileData)
    requires am.Now() == LoadNew(f, am.h, 0)
    modifies am
    ensures am.Now() == LoadNew(f, am.h, |f.newInfos|)
  {
    var nUBuckets := |f.buckets|;
    LoadNewShape(f, am.h, 0);
    hide Hashes.NewBucket, Hashes.TriedBucket;
    for n := 0 to |f.newInfos|
      invariant am.Now() == LoadNew(f, am.h, n) && |am.vvNew| == NEW_BUCKET_COUNT
    {
      var info := Restore(f.newInfos[n]);
      am.mapAddr := am.mapAddr[Ip(info) := n];
      info := info.(nRandomPos := |am.vRandom|);
      am.vRandom := am.vRandom + [n];
      if nUBuckets != NEW_BUCKET_COUNT {
        var b := am.h.NewBucket(info.addr, info.source);
        am.vvNew := am.vvNew[b := am.vvNew[b] + {n}];
        info := info.(nRefCount := info.nRefCount + 1);
      }
      am.mapInfo := am.mapInfo[n := info];
    }
  }

  method LoadTriedEntries(am: CAddrMan, f: FileData)
    requires am.Now() == LoadTried(f, am.h, 0) && am.nTried == |f.triedInfos|
    modifies am
    ensures am.Now() == LoadTried(f, am.h, |f.triedInfos|)
  {
    hide LoadNew, TriedLoaded, LoadTried;
    var nLost := 0;
    for n := 0 to |f.triedInfos|
      invariant am.nTried == old(am.nTried) && am.Now().(nTried := am.nTried - nLost) == LoadTried(f, am.h, n)
    {
      TriedNext(f, am.h, n, am.Now(), nLost);
      var lost := LoadOneTried(am, f.triedInfos[n]);
      if lost {
        nLost := nLost + 1;
      }
    }
    am.nTried := am.nTried - nLost;
  }

  lemma TriedNext(f: FileData, h: Hashes, n: nat, t: Tables, nLost: int)
    requires n < |f.triedInfos| && t.(nTried := t.nTried - nLost) == LoadTried(f, h, n)
    ensures var r := TriedLoaded(t, f.triedInfos[n], h);
      && LoadTried(f, h, n + 1) == r.(nTried := r.nTried - nLost)
      && (r.nTried == t.nTried || r.nTried == t.nTried - 1)
  {
    TriedLater(t, f.triedInfos[n], h, nLost);
    hide TriedLoaded;
  }

  /** Counting the lost ones at the end is the same as counting them at once. */
  lemma TriedLater(t: Tables, s: Saved, h: Hashes, nLost: int)
    ensures var r := TriedLoaded(t, s, h);
      TriedLoaded(t.(nTried := t.nTried - nLost), s, h) == r.(nTried := r.nTried - nLost)
    ensures TriedLoaded(t, s, h).nTried == t.nTried || TriedLoaded(t, s, h).nTried == t.nTried - 1
  {
  }

  method LoadOneTried(am: CAddrMan, s: Saved) returns (lost: bool)
    modifies am
    ensures am.nTried == old(am.nTried) && lost == (TriedLoaded(old(am.Now()), s, am.h).nTried != am.nTried)
    ensures am.Now() == TriedLoaded(old(am.Now()), s, am.h).(nTried := am.nTried)
  {
    hide Hashes.NewBucket, Hashes.TriedBucket;
    var info := Restore(s);
    var kb := am.h.TriedBucket(info.addr);
    lost := !(kb < |am.vvTried| && |am.vvTried[kb]| < TRIED_BUCKET_SIZE);
    if !lost {
      info := info.(nRandomPos := |am.vRandom|, fInTried := true);
      am.vRandom := am.vRandom + [am.nIdCount];
      am.mapInfo := am.mapInfo[am.nIdCount := info];
      am.mapAddr := am.mapAddr[Ip(info) := am.nIdCount];
      am.vvTried := am.vvTried[kb := am.vvTried[kb] + [am.nIdCount]];
      am.nIdCount := am.nIdCount + 1;
    }
  }

  method LoadBucket(am: CAddrMan, f: FileData, b: nat)
    requires b < |f.buckets| && am.Now() == LoadBuckets(f, am.h, b)
    modifies am
    ensures am.Now() == LoadBuckets(f, am.h, b + 1)
  {
    ghost var before := am.Now();
    hide LoadTried;
    for n := 0 to |f.buckets[b]|
      invariant am.Now() == LoadRefs(before, b, f.buckets[b], n, |f.buckets| == NEW_BUCKET_COUNT)
    {
      var nIndex := f.buckets[b][n];
      var info := if nIndex in am.mapInfo then am.mapInfo[nIndex] else BLANK;
      if |f.buckets| == NEW_BUCKET_COUNT && b < |am.vvNew| && info.nRefCount < NEW_BUCKETS_PER_ADDRESS {
        info := info.(nRefCount := info.nRefCount + 1);
        am.vvNew := am.vvNew[b := am.vvNew[b] + {nIndex}];
      }
      am.mapInfo := am.mapInfo[nIndex := info];
    }
  }
}
