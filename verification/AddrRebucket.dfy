/** Loading a file that was saved with another number of new buckets: each new entry goes to the one bucket its own
    source hashes to. */
module AddrRebucket {
  import opened AddrTables
  import opened AddrFile
  import opened AddrRoundTrip

  /** Every new entry has one reference, every tried one none. */
  function Recounted(m: map<int, Info>): map<int, Info> {
    map n | n in m :: m[n].(nRefCount := if m[n].fInTried then 0 else 1)
  }

  /** The bucket a saved entry hashes to by its own source. */
  function OwnBucket(s: Saved, h: Hashes): nat {
    h.NewBucket(s.addr, s.source)
  }

  /** The first `k` new entries, each in its own bucket. */
  function Own(infos: seq<Saved>, h: Hashes, k: nat): (r: seq<set<int>>)
    requires k <= |infos|
    ensures |r| == NEW_BUCKET_COUNT
    ensures forall b :: 0 <= b < |r| ==> r[b] == set n | 0 <= n < k && OwnBucket(infos[n], h) == b
  {
    seq(NEW_BUCKET_COUNT, b => set n | 0 <= n < k && OwnBucket(infos[n], h) == b)
  }

  lemma OwnNext(infos: seq<Saved>, h: Hashes, k: nat)
    requires 0 < k <= |infos|
    ensures var b := OwnBucket(infos[k - 1], h);
      b < NEW_BUCKET_COUNT && Own(infos, h, k) == Own(infos, h, k - 1)[b := Own(infos, h, k - 1)[b] + {k - 1}]
  {
    var b := OwnBucket(infos[k - 1], h);
    var was, now := Own(infos, h, k - 1), Own(infos, h, k);
    forall i | 0 <= i < NEW_BUCKET_COUNT ensures now[i] == was[b := was[b] + {k - 1}][i] {
    }
  }

  lemma RecountedNext(m: map<int, Info>, id: int, info: Info)
    ensures Recounted(m[id := info]) == Recounted(m)[id := info.(nRefCount := if info.fInTried then 0 else 1)]
  {
  }

  /** A file with `g`'s number of buckets against one with the usual number, entry by entry. */
  ghost predicate Changed(f: FileData, g: FileData) {
    && g.newInfos == f.newInfos && g.triedInfos == f.triedInfos
    && |f.buckets| == NEW_BUCKET_COUNT && |g.buckets| != NEW_BUCKET_COUNT
    && (forall b, i :: 0 <= b < |g.buckets| && 0 <= i < |g.buckets[b]| ==> 0 <= g.buckets[b][i] < |g.newInfos|)
  }

  function Rebucketed(u: Tables, infos: seq<Saved>, h: Hashes, k: nat): Tables
    requires k <= |infos|
  {
    u.(mapInfo := Recounted(u.mapInfo), vvNew := Own(infos, h, k))
  }

  lemma {:induction false} LoadNewChanged(f: FileData, g: FileData, h: Hashes, k: nat)
    requires Changed(f, g) && k <= |f.newInfos|
    ensures LoadNew(g, h, k) == Rebucketed(LoadNew(f, h, k), f.newInfos, h, k)
  {
    hide Own, OwnBucket, Recounted;
    if k == 0 {
      NothingOwned(f.newInfos, h);
    } else {
      LoadNewChanged(f, g, h, k - 1);
      OwnNext(f.newInfos, h, k);
      BucketIs(f.newInfos[k - 1], h);
      var u := LoadNew(f, h, k - 1);
      RecountedNext(u.mapInfo, k - 1, Restore(f.newInfos[k - 1]).(nRandomPos := |u.vRandom|));
    }
  }

  lemma NothingOwned(infos: seq<Saved>, h: Hashes)
    ensures Own(infos, h, 0) == NoSets(NEW_BUCKET_COUNT) && Recounted(map[]) == map[]
  {
    assert forall b :: 0 <= b < NEW_BUCKET_COUNT ==> Own(infos, h, 0)[b] == {};
  }

  lemma BucketIs(s: Saved, h: Hashes)
    ensures OwnBucket(s, h) == h.NewBucket(s.addr, s.source)
  {
  }

  lemma {:induction false} LoadTriedChanged(f: FileData, g: FileData, h: Hashes, k: nat)
    requires Changed(f, g) && k <= |f.triedInfos|
    ensures LoadTried(g, h, k) == Rebucketed(LoadTried(f, h, k), f.newInfos, h, |f.newInfos|)
  {
    hide Own, Recounted, LoadNew;
    if k == 0 {
      LoadNewChanged(f, g, h, |f.newInfos|);
    } else {
      LoadTriedChanged(f, g, h, k - 1);
      var u := LoadTried(f, h, k - 1);
      RecountedNext(u.mapInfo, u.nIdCount, Restore(f.triedInfos[k - 1]).(nRandomPos := |u.vRandom|, fInTried := true));
    }
  }

  /** Indexes of known entries change nothing when the number of buckets differs. */
  lemma {:induction false} RefsIgnored(t: Tables, b: nat, bucket: seq<int>, i: nat)
    requires i <= |bucket| && forall j :: 0 <= j < |bucket| ==> bucket[j] in t.mapInfo
    ensures LoadRefs(t, b, bucket, i, false) == t
  {
    if i > 0 {
      RefsIgnored(t, b, bucket, i - 1);
      assert t.mapInfo[bucket[i - 1] := t.mapInfo[bucket[i - 1]]] == t.mapInfo;
    }
  }

  lemma {:induction false} BucketsIgnored(f: FileData, h: Hashes, b: nat)
    requires |f.buckets| != NEW_BUCKET_COUNT && b <= |f.buckets|
    requires forall k, i :: 0 <= k < |f.buckets| && 0 <= i < |f.buckets[k]| ==>
      f.buckets[k][i] in LoadTried(f, h, |f.triedInfos|).mapInfo
    ensures LoadBuckets(f, h, b) == LoadTried(f, h, |f.triedInfos|)
  {
    hide LoadTried, LoadRefs;
    if b > 0 {
      BucketsIgnored(f, h, b - 1);
      RefsIgnored(LoadTried(f, h, |f.triedInfos|), b - 1, f.buckets[b - 1], |f.buckets[b - 1]|);
    }
  }

  /** One bucket holds the entry: it is held once. */
  lemma {:induction false} HeldOnce(vv: seq<set<int>>, n: int, b: nat)
    requires b < |vv| && forall i :: 0 <= i < |vv| ==> (n in vv[i] <==> i == b)
    ensures Held(vv, SetBag)[n] == 1
  {
    var k := |vv| - 1;
    if b < k {
      HeldOnce(vv[..k], n, b);
    } else {
      HeldNowhere(vv[..k], SetBag, n);
    }
  }

  lemma OwnHeld(infos: seq<Saved>, h: Hashes, n: int)
    ensures Held(Own(infos, h, |infos|), SetBag)[n] == if 0 <= n < |infos| then 1 else 0
  {
    var vv := Own(infos, h, |infos|);
    if 0 <= n < |infos| {
      HeldOnce(vv, n, OwnBucket(infos[n], h));
    } else {
      HeldNowhere(vv, SetBag, n);
    }
  }

  /** What the loaded tables say of the entry called `n`, and where it is. */
  ghost predicate Regrouped(t: Tables, r: Tables, all: seq<int>, c: nat, h: Hashes) {
    && Enumerates(t.mapInfo, all, c)
    && (forall n :: n in r.mapInfo <==> 0 <= n < |all|)
    && (forall n :: 0 <= n < |all| ==>
          r.mapInfo[n] == t.mapInfo[all[n]].(nLastTry := 0, nRandomPos := n, nRefCount := if n < c then 1 else 0))
    && |r.vvNew| == NEW_BUCKET_COUNT && |r.vvTried| == |t.vvTried|
    && (forall b, n :: 0 <= b < |r.vvNew| ==>
          (n in r.vvNew[b] <==> 0 <= n < c && h.NewBucket(t.mapInfo[all[n]].addr, t.mapInfo[all[n]].source) == b))
    && (forall b, n :: 0 <= b < |r.vvTried| && 0 <= n < |all| ==> (n in r.vvTried[b] <==> all[n] in t.vvTried[b]))
  }

  /** No recomputed bucket has more entries than a new bucket may hold. */
  ghost predicate Fitting(vvNew: seq<set<int>>) {
    forall b :: 0 <= b < |vvNew| ==> |vvNew[b]| <= NEW_BUCKET_SIZE
  }

  lemma LoadedChanged(t: Tables, f: FileData, g: FileData, newIds: seq<int>, triedIds: seq<int>, h: Hashes)
    requires Good(t, h, NONE) && Written(t, f, newIds, triedIds) && Changed(f, g)
    ensures var r, u := LoadBuckets(g, h, |g.buckets|), LoadTried(f, h, |f.triedInfos|);
      && r == Rebucketed(u, f.newInfos, h, |f.newInfos|)
      && Partly(t.mapInfo, newIds + triedIds, u, |newIds + triedIds|)
      && TriedPlaces(t.mapInfo, newIds + triedIds, |newIds|, u.vvTried, |newIds + triedIds|, h)
      && u.nIdCount == |newIds + triedIds| && u.nNew == |newIds| && u.nTried == |triedIds|
  {
    hide Good, Written, TriedPlaces, LoadTried, LoadBuckets, Own, TriedBack;
    WrittenLists(t, f, newIds, triedIds);
    TriedEntriesBack(t, f, newIds, triedIds, h, |triedIds|);
    TriedBackIs(t, f, newIds, triedIds, h);
    LoadTriedChanged(f, g, h, |f.triedInfos|);
    SavedCount(t, f, newIds, triedIds);
    BucketsIgnored(g, h, |g.buckets|);
  }

  lemma SavedCount(t: Tables, f: FileData, newIds: seq<int>, triedIds: seq<int>)
    requires Written(t, f, newIds, triedIds)
    ensures |f.newInfos| == |newIds|
    ensures forall k :: 0 <= k < |newIds| ==> newIds[k] in t.mapInfo && f.newInfos[k] == Save(t.mapInfo[newIds[k]])
  {
  }

  /** The saved tables as if every new entry had one reference; what the lemmas on loading look at is the same. */
  lemma RecountedAlike(t: Tables, u: Tables, all: seq<int>, c: nat, h: Hashes)
    requires AddrOk(t.mapInfo, t.mapAddr) && TriedOk(t.mapInfo, t.vvTried, h) && Enumerates(t.mapInfo, all, c)
    requires Partly(t.mapInfo, all, u, |all|) && TriedPlaces(t.mapInfo, all, c, u.vvTried, |all|, h)
    ensures var m := Recounted(t.mapInfo);
      && TriedOk(m, t.vvTried, h) && RefsOk(m) && Enumerates(m, all, c)
      && Partly(m, all, u, |all|) && TriedPlaces(m, all, c, u.vvTried, |all|, h)
  {
    hide AddrOk, TriedPlaces, TriedOk;
    TriedOkAlike(t, h);
    TriedPlacesAlike(t.mapInfo, all, c, u.vvTried, h);
  }

  lemma TriedOkAlike(t: Tables, h: Hashes)
    requires TriedOk(t.mapInfo, t.vvTried, h)
    ensures TriedOk(Recounted(t.mapInfo), t.vvTried, h)
  {
    hide Held;
  }

  lemma TriedPlacesAlike(m: map<int, Info>, all: seq<int>, c: nat, vvTried: seq<seq<int>>, h: Hashes)
    requires TriedPlaces(m, all, c, vvTried, |all|, h)
    ensures TriedPlaces(Recounted(m), all, c, vvTried, |all|, h)
  {
    forall b, x | 0 <= b < |vvTried|
      ensures InBucket(Recounted(m), all, x, b, h) <==> InBucket(m, all, x, b, h)
    {
    }
    hide InBucket, Ascending, Recounted;
  }

  lemma EntriesRecounted(t: Tables, u: Tables, r: Tables, all: seq<int>, c: nat)
    requires Enumerates(t.mapInfo, all, c) && Partly(t.mapInfo, all, u, |all|) && r.mapInfo == Recounted(u.mapInfo)
    ensures EntriesBack(t.(mapInfo := Recounted(t.mapInfo)), r, all)
  {
    hide AddrOk;
    var m := Recounted(t.mapInfo);
    forall n | 0 <= n < |all|
      ensures n in r.mapInfo && all[n] in m && r.mapInfo[n] == m[all[n]].(nLastTry := 0, nRandomPos := n)
    {
      assert n in u.mapInfo && u.mapInfo[n] == Clean(t.mapInfo[all[n]], n);
    }
  }

  /** New buckets filled by hash: each new entry is in exactly one. */
  lemma OwnOk(t: Tables, r: Tables, infos: seq<Saved>, all: seq<int>, c: nat, h: Hashes)
    requires Enumerates(t.mapInfo, all, c) && EntriesBack(t.(mapInfo := Recounted(t.mapInfo)), r, all)
    requires |infos| == c && r.vvNew == Own(infos, h, c)
    ensures NewOk(r.mapInfo, r.vvNew, NONE) <==> Fitting(r.vvNew)
  {
    forall n ensures Held(r.vvNew, SetBag)[n] == RefCount(r.mapInfo, n) {
      OwnHeld(infos, h, n);
      if 0 <= n < |all| {
        assert n in r.mapInfo && all[n] in t.mapInfo;
      }
    }
    hide Held, Own;
  }

  /** Main result: what comes back under another number of buckets. The entries and the tried buckets are the
      saved ones, each new entry is once in the bucket of its own source, and the tables are consistent if and
      only if no bucket got more than it may hold: the code puts entries in without looking. */
  lemma RebucketedIff(t: Tables, f: FileData, g: FileData, newIds: seq<int>, triedIds: seq<int>, h: Hashes)
    requires Good(t, h, NONE) && Written(t, f, newIds, triedIds) && Changed(f, g)
    ensures var r := LoadBuckets(g, h, |g.buckets|);
      && Regrouped(t, r, newIds + triedIds, |newIds|, h)
      && (Good(r, h, NONE) <==> Fitting(Own(g.newInfos, h, |g.newInfos|)))
  {
    Parts(t, h);
    hide Good, RandomOk, AddrOk, TriedOk, RefsOk, IdsOk, Enumerates, Partly, TriedPlaces, EntriesBack, Own, Recounted,
      NewOk, LoadBuckets, LoadTried, Regrouped, Fitting, Written, TriedIds, NewIds;
    var all, c := newIds + triedIds, |newIds|;
    var r, u := LoadBuckets(g, h, |g.buckets|), LoadTried(f, h, |f.triedInfos|);
    LoadedChanged(t, f, g, newIds, triedIds, h);
    WrittenLists(t, f, newIds, triedIds);
    SavedCount(t, f, newIds, triedIds);
    ListsEnumerate(t.mapInfo, newIds, triedIds);
    RecountedAlike(t, u, all, c, h);
    EntriesRecounted(t, u, r, all, c);
    var t1 := t.(mapInfo := Recounted(t.mapInfo));
    RestBack(t1, r, all, c, u);
    SetsBack(t1, r, all, c);
    OwnOk(t, r, f.newInfos, all, c, h);
    EntriesAre(t1, r, all);
    TriedOkBack(t1, all, c, r.mapInfo, r.vvTried, h);
    GoodParts(r, h);
    RegroupedParts(t, r, f.newInfos, newIds, triedIds, h);
  }

  lemma GoodParts(r: Tables, h: Hashes)
    requires RandomOk(r.mapInfo, r.vRandom) && AddrOk(r.mapInfo, r.mapAddr) && TriedOk(r.mapInfo, r.vvTried, h)
    requires RefsOk(r.mapInfo) && CountsOk(r) && IdsOk(r.mapInfo, r.nIdCount)
    ensures Good(r, h, NONE) <==> NewOk(r.mapInfo, r.vvNew, NONE)
  {
  }

  lemma RegroupedParts(t: Tables, r: Tables, infos: seq<Saved>, newIds: seq<int>, triedIds: seq<int>, h: Hashes)
    requires TriedOk(t.mapInfo, t.vvTried, h) && Enumerates(t.mapInfo, newIds + triedIds, |newIds|)
    requires EntriesBack(t.(mapInfo := Recounted(t.mapInfo)), r, newIds + triedIds)
    requires TriedPlaces(t.mapInfo, newIds + triedIds, |newIds|, r.vvTried, |newIds + triedIds|, h)
    requires |infos| == |newIds| && r.vvNew == Own(infos, h, |newIds|)
    requires forall k :: 0 <= k < |newIds| ==> newIds[k] in t.mapInfo && infos[k] == Save(t.mapInfo[newIds[k]])
    ensures Regrouped(t, r, newIds + triedIds, |newIds|, h)
  {
    var all, c := newIds + triedIds, |newIds|;
    forall n | 0 <= n < |all|
      ensures r.mapInfo[n] == t.mapInfo[all[n]].(nLastTry := 0, nRandomPos := n, nRefCount := if n < c then 1 else 0)
    {
      assert all[n] in t.mapInfo;
    }
    forall n | 0 <= n < c ensures infos[n] == Save(t.mapInfo[all[n]]) {
      assert all[n] == newIds[n];
    }
    forall b, n | 0 <= b < |r.vvTried| && 0 <= n < |all|
      ensures n in r.vvTried[b] <==> all[n] in t.vvTried[b]
    {
      TriedSame(t, all, c, r.vvTried, h, b, n);
    }
    hide TriedOk, TriedPlaces;
  }
}
