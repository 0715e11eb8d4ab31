/** Loading what was saved gives the same address manager under new ids. */
module AddrRoundTrip {
  import opened AddrTables
  import opened AddrMan
  import opened AddrFile
  import AddrCheck

  /** `all` lists every id once: first the `c` new ones, then the tried ones. */
  ghost predicate Enumerates(m: map<int, Info>, all: seq<int>, c: nat) {
    && c <= |all|
    && (forall k :: 0 <= k < |all| ==> all[k] in m && m[all[k]].fInTried == (k >= c))
    && (forall j, k :: 0 <= j < k < |all| ==> all[j] != all[k])
    && (forall n :: n in m ==> n in all)
  }

  lemma ListsEnumerate(m: map<int, Info>, newIds: seq<int>, triedIds: seq<int>)
    requires Lists(newIds, NewIds(m)) && Lists(triedIds, TriedIds(m))
    ensures Enumerates(m, newIds + triedIds, |newIds|)
  {
    var all := newIds + triedIds;
    forall k | 0 <= k < |all|
      ensures all[k] in m && m[all[k]].fInTried == (k >= |newIds|)
    {
      if k < |newIds| { assert newIds[k] in newIds; } else { assert triedIds[k - |newIds|] in triedIds; }
    }
    forall n | n in m
      ensures n in all
    {
      assert n in newIds || n in triedIds;
    }
  }

  /** An entry as it comes back, at place `k`. */
  function Clean(i: Info, k: int): Info {
    Restore(Save(i)).(nRandomPos := k, fInTried := i.fInTried)
  }

  /** The first `k` entries are loaded. */
  ghost predicate Partly(m: map<int, Info>, all: seq<int>, u: Tables, k: nat) {
    && k <= |all|
    && (forall n :: n in u.mapInfo <==> 0 <= n < k)
    && (forall n :: 0 <= n < k ==> all[n] in m && u.mapInfo[n] == Clean(m[all[n]], n))
    && |u.vRandom| == k && (forall i :: 0 <= i < k ==> u.vRandom[i] == i)
    && AddrOk(u.mapInfo, u.mapAddr)
  }

  lemma PartlyNext(t: Tables, all: seq<int>, c: nat, u: Tables, k: nat, info: Info)
    requires AddrOk(t.mapInfo, t.mapAddr) && Enumerates(t.mapInfo, all, c) && k < |all|
    requires Partly(t.mapInfo, all, u, k) && info == Clean(t.mapInfo[all[k]], k)
    ensures Partly(t.mapInfo, all, u.(mapInfo := u.mapInfo[k := info], mapAddr := u.mapAddr[Ip(info) := k],
                                      vRandom := u.vRandom + [k]), k + 1)
  {
    OtherIps(t, all, c, u, k, info);
    AddrOkNext(u.mapInfo, u.mapAddr, k, info);
    hide AddrOk;
  }

  lemma OtherIps(t: Tables, all: seq<int>, c: nat, u: Tables, k: nat, info: Info)
    requires AddrOk(t.mapInfo, t.mapAddr) && Enumerates(t.mapInfo, all, c) && k < |all|
    requires Partly(t.mapInfo, all, u, k) && info == Clean(t.mapInfo[all[k]], k)
    ensures k !in u.mapInfo && Ip(info) !in u.mapAddr
  {
    forall n | n in u.mapInfo
      ensures Ip(u.mapInfo[n]) != Ip(info)
    {
      assert all[n] in t.mapInfo && all[k] in t.mapInfo && all[n] != all[k];
      assert Ip(t.mapInfo[all[n]]) in t.mapAddr;
    }
  }

  lemma AddrOkNext(m: map<int, Info>, mapAddr: map<NetAddr, int>, k: int, info: Info)
    requires AddrOk(m, mapAddr) && k !in m && Ip(info) !in mapAddr
    ensures AddrOk(m[k := info], mapAddr[Ip(info) := k])
  {
  }

  lemma {:induction false} NewEntriesBack(t: Tables, f: FileData, newIds: seq<int>, triedIds: seq<int>, h: Hashes,
      k: nat)
    requires AddrOk(t.mapInfo, t.mapAddr) && Written(t, f, newIds, triedIds) && |t.vvNew| == NEW_BUCKET_COUNT
    requires k <= |newIds|
    ensures Partly(t.mapInfo, newIds + triedIds, LoadNew(f, h, k), k)
    ensures LoadNew(f, h, k).vvNew == NoSets(NEW_BUCKET_COUNT)
  {
    hide AddrOk, Lists, Hashes.NewBucket, BucketWritten, Partly, Enumerates;
    if k > 0 {
      NewEntriesBack(t, f, newIds, triedIds, h, k - 1);
      ListsEnumerate(t.mapInfo, newIds, triedIds);
      var all := newIds + triedIds;
      assert all[k - 1] == newIds[k - 1];
      NewIsNotTried(t.mapInfo, all, |newIds|, k - 1);
      var u := LoadNew(f, h, k - 1);
      VRandomSize(t.mapInfo, all, u, k - 1);
      PartlyNext(t, all, |newIds|, u, k - 1, Clean(t.mapInfo[all[k - 1]], k - 1));
    } else {
      NothingYet(t.mapInfo, newIds + triedIds, LoadNew(f, h, 0));
    }
  }

  lemma NothingYet(m: map<int, Info>, all: seq<int>, u: Tables)
    requires u.mapInfo == map[] && u.mapAddr == map[] && u.vRandom == []
    ensures Partly(m, all, u, 0)
  {
  }

  lemma NewIsNotTried(m: map<int, Info>, all: seq<int>, c: nat, k: nat)
    requires Enumerates(m, all, c) && k < |all|
    ensures all[k] in m && m[all[k]].fInTried == (k >= c)
  {
  }

  lemma VRandomSize(m: map<int, Info>, all: seq<int>, u: Tables, k: nat)
    requires Partly(m, all, u, k)
    ensures |u.vRandom| == k
  {
  }

  // ---- the tried buckets -----------------------------------------------------------------------------

  /** Every tried entry loaded so far is in the bucket it hashes to, and nothing else is. */
  ghost predicate TriedPlaces(m: map<int, Info>, all: seq<int>, c: nat, vvTried: seq<seq<int>>, k: nat, h: Hashes) {
    && |vvTried| == TRIED_BUCKET_COUNT && c <= k <= |all|
    && (forall b :: 0 <= b < |vvTried| ==> Ascending(vvTried[b]))
    && (forall b, x :: 0 <= b < |vvTried| ==> (x in vvTried[b] <==> c <= x < k && InBucket(m, all, x, b, h)))
  }

  ghost predicate InBucket(m: map<int, Info>, all: seq<int>, x: int, b: nat, h: Hashes) {
    0 <= x < |all| && all[x] in m && h.TriedBucket(m[all[x]].addr) == b
  }

  /** A tried id sits in the bucket its address hashes to. */
  lemma TriedSits(m: map<int, Info>, vvTried: seq<seq<int>>, h: Hashes, n: int)
    requires TriedOk(m, vvTried, h) && n in m && m[n].fInTried
    ensures n in vvTried[h.TriedBucket(m[n].addr)]
  {
    if forall b :: 0 <= b < |vvTried| ==> n !in vvTried[b] {
      HeldNowhere(vvTried, ListBag, n);
    } else {
      var b :| 0 <= b < |vvTried| && n in vvTried[b];
      var i :| 0 <= i < |vvTried[b]| && vvTried[b][i] == n;
    }
  }

  /** Distinct names for the elements of an ascending list. */
  lemma {:induction false} ImageSize(s: seq<int>, all: seq<int>, image: set<int>)
    requires Ascending(s) && (forall i :: 0 <= i < |s| ==> 0 <= s[i] < |all| && all[s[i]] in image)
    requires forall j, k :: 0 <= j < k < |all| ==> all[j] != all[k]
    ensures |s| <= |image|
    decreases |s|
  {
    if s != [] {
      var last := s[|s| - 1];
      var front := s[..|s| - 1];
      assert Ascending(front);
      ImageSize(front, all, image - {all[last]});
    }
  }

  lemma {:induction false} ElemsSize(s: seq<int>)
    ensures |set x | x in s| <= |s|
  {
    if s != [] {
      var front := s[..|s| - 1];
      ElemsSize(front);
      assert (set x | x in s) == (set x | x in front) + {s[|s| - 1]};
    }
  }

  /** The bucket the next tried entry goes to has room: it held that entry before. */
  lemma RoomForTried(t: Tables, all: seq<int>, c: nat, vvTried: seq<seq<int>>, k: nat, h: Hashes)
    requires TriedOk(t.mapInfo, t.vvTried, h) && Enumerates(t.mapInfo, all, c)
    requires TriedPlaces(t.mapInfo, all, c, vvTried, k, h) && k < |all|
    ensures |vvTried[h.TriedBucket(t.mapInfo[all[k]].addr)]| < TRIED_BUCKET_SIZE
  {
    var kb := h.TriedBucket(t.mapInfo[all[k]].addr);
    var s := vvTried[kb] + [k];
    var image := set x | x in t.vvTried[kb];
    forall i | 0 <= i < |s|
      ensures 0 <= s[i] < |all| && all[s[i]] in image
    {
      if i < |vvTried[kb]| { assert s[i] in vvTried[kb]; }
      TriedSits(t.mapInfo, t.vvTried, h, all[s[i]]);
    }
    assert Ascending(s) by {
      forall i | 0 <= i < |vvTried[kb]|
        ensures s[i] < k
      {
        assert s[i] in vvTried[kb];
      }
    }
    hide Held, TriedPlaces;
    ImageSize(s, all, image);
    ElemsSize(t.vvTried[kb]);
  }

  lemma TriedPlacesNext(m: map<int, Info>, all: seq<int>, c: nat, vvTried: seq<seq<int>>, k: nat, h: Hashes)
    requires TriedPlaces(m, all, c, vvTried, k, h) && k < |all| && all[k] in m
    ensures var kb := h.TriedBucket(m[all[k]].addr);
      TriedPlaces(m, all, c, vvTried[kb := vvTried[kb] + [k]], k + 1, h)
  {
    var kb := h.TriedBucket(m[all[k]].addr);
    var vv1 := vvTried[kb := vvTried[kb] + [k]];
    assert InBucket(m, all, k, kb, h);
    forall b, x | 0 <= b < |vv1|
      ensures x in vv1[b] <==> c <= x < k + 1 && InBucket(m, all, x, b, h)
    {
      assert x in vv1[b] <==> x in vvTried[b] || (b == kb && x == k);
    }
    forall i | 0 <= i < |vvTried[kb]|
      ensures vvTried[kb][i] < k
    {
      assert vvTried[kb][i] in vvTried[kb];
    }
  }

  /** After `k` of the tried entries: none was lost. */
  ghost predicate TriedBack(t: Tables, f: FileData, newIds: seq<int>, triedIds: seq<int>, h: Hashes, k: nat)
    requires k <= |f.triedInfos|
  {
    var u := LoadTried(f, h, k);
    && Partly(t.mapInfo, newIds + triedIds, u, |newIds| + k)
    && TriedPlaces(t.mapInfo, newIds + triedIds, |newIds|, u.vvTried, |newIds| + k, h)
    && u.nIdCount == |newIds| + k && u.nNew == |newIds| && u.nTried == |triedIds|
    && u.vvNew == NoSets(NEW_BUCKET_COUNT)
  }

  lemma {:induction false} TriedEntriesBack(t: Tables, f: FileData, newIds: seq<int>, triedIds: seq<int>, h: Hashes,
      k: nat)
    requires Good(t, h, NONE) && Written(t, f, newIds, triedIds) && k <= |triedIds| == |f.triedInfos|
    ensures TriedBack(t, f, newIds, triedIds, h, k)
  {
    hide Good, AddrOk, TriedOk, Enumerates, TriedBack, Written, Lists;
    GoodParts(t, h);
    ListsEnumerated(t, f, newIds, triedIds);
    if k == 0 {
      NoTriedBack(t, f, newIds, triedIds, h);
    } else {
      TriedEntriesBack(t, f, newIds, triedIds, h, k - 1);
      TriedEntryBack(t, f, newIds, triedIds, h, k);
    }
  }

  lemma GoodParts(t: Tables, h: Hashes)
    requires Good(t, h, NONE)
    ensures AddrOk(t.mapInfo, t.mapAddr) && TriedOk(t.mapInfo, t.vvTried, h) && |t.vvNew| == NEW_BUCKET_COUNT
  {
    hide AddrOk, TriedOk;
  }

  lemma ListsEnumerated(t: Tables, f: FileData, newIds: seq<int>, triedIds: seq<int>)
    requires Written(t, f, newIds, triedIds)
    ensures Enumerates(t.mapInfo, newIds + triedIds, |newIds|)
  {
    hide Enumerates, Lists;
    ListsEnumerate(t.mapInfo, newIds, triedIds);
  }

  lemma NoTriedBack(t: Tables, f: FileData, newIds: seq<int>, triedIds: seq<int>, h: Hashes)
    requires AddrOk(t.mapInfo, t.mapAddr) && Written(t, f, newIds, triedIds) && |t.vvNew| == NEW_BUCKET_COUNT
    requires |triedIds| == |f.triedInfos|
    ensures TriedBack(t, f, newIds, triedIds, h, 0)
  {
    hide LoadNew, Partly, TriedPlaces, AddrOk;
    var all, c := newIds + triedIds, |newIds|;
    NewEntriesBack(t, f, newIds, triedIds, h, c);
    LoadNewShape(f, h, c);
    NoneTriedYet(t.mapInfo, all, c, h);
    PartlyCounted(t.mapInfo, all, LoadNew(f, h, c), c);
  }

  lemma NoneTriedYet(m: map<int, Info>, all: seq<int>, c: nat, h: Hashes)
    requires c <= |all|
    ensures TriedPlaces(m, all, c, NoLists(TRIED_BUCKET_COUNT), c, h)
  {
  }

  lemma PartlyCounted(m: map<int, Info>, all: seq<int>, u: Tables, k: nat)
    requires Partly(m, all, u, k)
    ensures Partly(m, all, u.(nIdCount := k), k)
  {
  }

  lemma TriedEntryBack(t: Tables, f: FileData, newIds: seq<int>, triedIds: seq<int>, h: Hashes, k: nat)
    requires AddrOk(t.mapInfo, t.mapAddr) && TriedOk(t.mapInfo, t.vvTried, h)
    requires Written(t, f, newIds, triedIds) && 0 < k <= |triedIds| == |f.triedInfos|
    requires Enumerates(t.mapInfo, newIds + triedIds, |newIds|)
    requires TriedBack(t, f, newIds, triedIds, h, k - 1)
    ensures TriedBack(t, f, newIds, triedIds, h, k)
  {
    hide AddrOk, TriedOk, Lists, BucketWritten, Hashes.TriedBucket, Partly, TriedPlaces, Enumerates;
    var all, c := newIds + triedIds, |newIds|;
    var j := c + k - 1;
    var u := LoadTried(f, h, k - 1);
    assert all[j] == triedIds[k - 1];
    NewIsNotTried(t.mapInfo, all, c, j);
    VRandomSize(t.mapInfo, all, u, j);
    RoomForTried(t, all, c, u.vvTried, j, h);
    TriedPlacesNext(t.mapInfo, all, c, u.vvTried, j, h);
    BucketInRange(t.mapInfo, all, c, u.vvTried, j, h);
    var info := Clean(t.mapInfo[all[j]], j);
    PartlyNext(t, all, c, u, j, info);
    var kb := h.TriedBucket(t.mapInfo[all[j]].addr);
    TriedLoadedIs(u, f.triedInfos[k - 1], h, info, kb);
    PartlyTables(t.mapInfo, all, u.(mapInfo := u.mapInfo[j := info], mapAddr := u.mapAddr[Ip(info) := j],
      vRandom := u.vRandom + [j]),
                 LoadTried(f, h, k), c + k);
  }

  lemma BucketInRange(m: map<int, Info>, all: seq<int>, c: nat, vvTried: seq<seq<int>>, k: nat, h: Hashes)
    requires TriedPlaces(m, all, c, vvTried, k, h)
    ensures |vvTried| == TRIED_BUCKET_COUNT
  {
  }

  lemma TriedLoadedIs(u: Tables, s: Saved, h: Hashes, info: Info, kb: nat)
    requires kb == h.TriedBucket(s.addr) && kb < |u.vvTried| && |u.vvTried[kb]| < TRIED_BUCKET_SIZE
    requires info == Restore(s).(nRandomPos := |u.vRandom|, fInTried := true)
    ensures TriedLoaded(u, s, h) ==
      u.(mapInfo := u.mapInfo[u.nIdCount := info], mapAddr := u.mapAddr[Ip(info) := u.nIdCount],
         vRandom := u.vRandom + [u.nIdCount],
         vvTried := u.vvTried[kb := u.vvTried[kb] + [u.nIdCount]], nIdCount := u.nIdCount + 1)
  {
  }

  lemma PartlyTables(m: map<int, Info>, all: seq<int>, u: Tables, v: Tables, k: nat)
    requires Partly(m, all, u, k) && v.mapInfo == u.mapInfo && v.mapAddr == u.mapAddr && v.vRandom == u.vRandom
    ensures Partly(m, all, v, k)
  {
  }

  // ---- the new buckets -------------------------------------------------------------------------------

  function Elems(s: seq<int>): set<int> {
    set x | x in s
  }

  /** The new buckets after `b` whole ones and `i` entries of the next. */
  function Part(bs: seq<seq<int>>, b: nat, i: nat): (r: seq<set<int>>)
    requires b < |bs| ==> i <= |bs[b]|
    ensures |r| == |bs|
    ensures forall k :: 0 <= k < |bs| ==>
      r[k] == if k < b then Elems(bs[k]) else if k == b then Elems(bs[b][..i]) else {}
  {
    seq(|bs|, k requires 0 <= k < |bs| => if k < b then Elems(bs[k]) else if k == b then Elems(bs[b][..i]) else {})
  }

  /** Entries whose reference counts are what the buckets hold. */
  ghost function WithCounts(m: map<int, Info>, vv: seq<set<int>>): map<int, Info> {
    map n | n in m :: m[n].(nRefCount := Held(vv, SetBag)[n])
  }

  lemma {:induction false} HeldAlike(vv: seq<set<int>>, ww: seq<set<int>>, x: int, y: int)
    requires |vv| == |ww| && forall b :: 0 <= b < |vv| ==> (x in vv[b] <==> y in ww[b])
    ensures Held(vv, SetBag)[x] == Held(ww, SetBag)[y]
  {
    if vv != [] {
      HeldAlike(vv[..|vv| - 1], ww[..|ww| - 1], x, y);
    }
  }

  lemma {:induction false} HeldGrows(vv: seq<set<int>>, ww: seq<set<int>>, x: int)
    requires |vv| == |ww| && forall b :: 0 <= b < |vv| ==> vv[b] <= ww[b]
    ensures Held(vv, SetBag)[x] <= Held(ww, SetBag)[x]
  {
    if vv != [] {
      HeldGrows(vv[..|vv| - 1], ww[..|ww| - 1], x);
    }
  }

  /** Every bucket of the file names entries below `c`, each at most once, and no entry more than four times. */
  ghost predicate BucketsOk(bs: seq<seq<int>>, c: nat) {
    && |bs| == NEW_BUCKET_COUNT
    && (forall b :: 0 <= b < |bs| ==> Ascending(bs[b]) && forall i :: 0 <= i < |bs[b]| ==> 0 <= bs[b][i] < c)
    && (forall x :: 0 <= x < c ==> Held(Part(bs, |bs|, 0), SetBag)[x] <= NEW_BUCKETS_PER_ADDRESS)
  }

  lemma PartNext(bs: seq<seq<int>>, b: nat, i: nat)
    requires b < |bs| && i < |bs[b]| && Ascending(bs[b])
    ensures var x := bs[b][i];
      && x !in Part(bs, b, i)[b]
      && Part(bs, b, i + 1) == Part(bs, b, i)[b := Part(bs, b, i)[b] + {x}]
  {
    assert bs[b][..i + 1] == bs[b][..i] + [bs[b][i]];
    assert Elems(bs[b][..i + 1]) == Elems(bs[b][..i]) + {bs[b][i]};
  }

  lemma PartStart(bs: seq<seq<int>>, b: nat)
    requires b <= |bs|
    ensures b == 0 ==> Part(bs, 0, 0) == NoSets(|bs|)
    ensures b > 0 ==> Part(bs, b, 0) == Part(bs, b - 1, |bs[b - 1]|)
  {
    if b < |bs| {
      assert bs[b][..0] == [];
      assert Elems(bs[b][..0]) == {};
    }
    if b > 0 {
      assert bs[b - 1][..|bs[b - 1]|] == bs[b - 1];
    }
  }

  /** One more index: one more member, one more reference. */
  lemma RefStep(m: map<int, Info>, t: Tables, bs: seq<seq<int>>, c: nat, b: nat, i: nat)
    requires BucketsOk(bs, c) && b < |bs| && i < |bs[b]| && forall n :: 0 <= n < c ==> n in m
    requires t.mapInfo == WithCounts(m, Part(bs, b, i)) && t.vvNew == Part(bs, b, i)
    ensures RefLoaded(t, b, bs[b][i], true)
         == t.(mapInfo := WithCounts(m, Part(bs, b, i + 1)), vvNew := Part(bs, b, i + 1))
  {
    hide Part, Elems, WithCounts, Held;
    var x := bs[b][i];
    var vv := Part(bs, b, i);
    PartNext(bs, b, i);
    RefBound(bs, c, b, i);
    hide BucketsOk;
    CountsStep(m, vv, b, x);
    CountAt(m, vv, x);
  }

  lemma CountAt(m: map<int, Info>, vv: seq<set<int>>, x: int)
    requires x in m
    ensures x in WithCounts(m, vv) && WithCounts(m, vv)[x].nRefCount == Held(vv, SetBag)[x]
  {
  }

  lemma CountsStep(m: map<int, Info>, vv: seq<set<int>>, b: nat, x: int)
    requires b < |vv| && x !in vv[b] && x in m
    ensures var w := WithCounts(m, vv);
      WithCounts(m, vv[b := vv[b] + {x}]) == w[x := w[x].(nRefCount := w[x].nRefCount + 1)]
  {
    var w := WithCounts(m, vv);
    var w1 := WithCounts(m, vv[b := vv[b] + {x}]);
    forall n | n in m
      ensures w1[n] == if n == x then w[x].(nRefCount := w[x].nRefCount + 1) else w[n]
    {
      HeldUpdate(vv, SetBag, b, vv[b] + {x}, n);
    }
    hide Held;
  }

  lemma PartGrows(bs: seq<seq<int>>, b: nat, i: nat)
    requires b < |bs| && i <= |bs[b]|
    ensures forall k :: 0 <= k < |bs| ==> Part(bs, b, i)[k] <= Part(bs, |bs|, 0)[k]
  {
  }

  lemma RefBound(bs: seq<seq<int>>, c: nat, b: nat, i: nat)
    requires BucketsOk(bs, c) && b < |bs| && i < |bs[b]|
    ensures Held(Part(bs, b, i), SetBag)[bs[b][i]] < NEW_BUCKETS_PER_ADDRESS
  {
    var x := bs[b][i];
    var vv, vv1 := Part(bs, b, i), Part(bs, b, i + 1);
    PartNext(bs, b, i);
    PartGrows(bs, b, i + 1);
    hide Part;
    HeldUpdate(vv, SetBag, b, vv[b] + {x}, x);
    HeldGrows(vv1, Part(bs, |bs|, 0), x);
  }

  lemma {:induction false} RefsBack(m: map<int, Info>, t: Tables, bs: seq<seq<int>>, c: nat, b: nat, i: nat)
    requires BucketsOk(bs, c) && b < |bs| && i <= |bs[b]| && forall n :: 0 <= n < c ==> n in m
    requires t.mapInfo == WithCounts(m, Part(bs, b, 0)) && t.vvNew == Part(bs, b, 0)
    ensures LoadRefs(t, b, bs[b], i, true) == t.(mapInfo := WithCounts(m, Part(bs, b, i)), vvNew := Part(bs, b, i))
  {
    hide BucketsOk, Part, WithCounts, RefLoaded;
    if i > 0 {
      RefsBack(m, t, bs, c, b, i - 1);
      RefStep(m, LoadRefs(t, b, bs[b], i - 1, true), bs, c, b, i - 1);
    }
  }

  lemma {:induction false} BucketsBack(m: map<int, Info>, u: Tables, f: FileData, h: Hashes, c: nat, b: nat)
    requires BucketsOk(f.buckets, c) && b <= |f.buckets| && forall n :: 0 <= n < c ==> n in m
    requires u == LoadTried(f, h, |f.triedInfos|) && u.vvNew == NoSets(NEW_BUCKET_COUNT) && m == u.mapInfo
    requires forall n :: n in m ==> m[n].nRefCount == 0
    ensures LoadBuckets(f, h, b) == u.(mapInfo := WithCounts(m, Part(f.buckets, b, 0)), vvNew := Part(f.buckets, b, 0))
  {
    var bs := f.buckets;
    PartStart(bs, b);
    hide LoadTried, Part, WithCounts, LoadRefs;
    if b == 0 {
      NoRefsYet(m, bs);
    } else {
      BucketsBack(m, u, f, h, c, b - 1);
      RefsBack(m, LoadBuckets(f, h, b - 1), bs, c, b - 1, |bs[b - 1]|);
    }
  }

  lemma NoRefsYet(m: map<int, Info>, bs: seq<seq<int>>)
    requires forall n :: n in m ==> m[n].nRefCount == 0
    ensures WithCounts(m, Part(bs, 0, 0)) == m
  {
    PartStart(bs, 0);
    forall n | n in m
      ensures Held(Part(bs, 0, 0), SetBag)[n] == 0
    {
      HeldNowhere(Part(bs, 0, 0), SetBag, n);
    }
    assert forall n :: n in m ==> WithCounts(m, Part(bs, 0, 0))[n] == m[n];
  }

  // ---- the whole ------------------------------------------------------------------------------------

  /** `r` is `t` with id `all[n]` called `n`: the same entries (but for nLastTry, which is not saved), in the
      same new buckets and the same tried buckets. */
  ghost predicate Renamed(t: Tables, r: Tables, all: seq<int>, c: nat) {
    && Enumerates(t.mapInfo, all, c)
    && (forall n :: n in r.mapInfo <==> 0 <= n < |all|)
    && (forall n :: 0 <= n < |all| ==> r.mapInfo[n] == t.mapInfo[all[n]].(nLastTry := 0, nRandomPos := n))
    && |r.vvNew| == |t.vvNew| && |r.vvTried| == |t.vvTried|
    && (forall b, n :: 0 <= b < |r.vvNew| && 0 <= n < |all| ==> (n in r.vvNew[b] <==> all[n] in t.vvNew[b]))
    && (forall b, n :: 0 <= b < |r.vvTried| && 0 <= n < |all| ==> (n in r.vvTried[b] <==> all[n] in t.vvTried[b]))
    && r.nNew == t.nNew && r.nTried == t.nTried
  }

  lemma RefsAt(m: map<int, Info>, n: int)
    requires RefsOk(m) && n in m
    ensures if m[n].fInTried then m[n].nRefCount == 0 else 1 <= m[n].nRefCount <= NEW_BUCKETS_PER_ADDRESS
  {
  }

  /** What the file's buckets hold is what the buckets held. */
  lemma FileHolds(t: Tables, f: FileData, newIds: seq<int>, triedIds: seq<int>, n: int)
    requires Written(t, f, newIds, triedIds) && |t.vvNew| == NEW_BUCKET_COUNT
    requires Enumerates(t.mapInfo, newIds + triedIds, |newIds|)
    requires NewOk(t.mapInfo, t.vvNew, NONE) && RefsOk(t.mapInfo)
    ensures var full := Part(f.buckets, |f.buckets|, 0);
      Held(full, SetBag)[n] == if 0 <= n < |newIds| + |triedIds| then t.mapInfo[(newIds + triedIds)[n]].nRefCount else 0
  {
    hide Lists;
    var bs := f.buckets;
    var full := Part(bs, |bs|, 0);
    if 0 <= n < |newIds| {
      assert (newIds + triedIds)[n] == newIds[n];
      forall b | 0 <= b < |full|
        ensures n in full[b] <==> newIds[n] in t.vvNew[b]
      {
        assert BucketWritten(t.vvNew[b], bs[b], newIds);
      }
      HeldAlike(full, t.vvNew, n, newIds[n]);
      assert Held(t.vvNew, SetBag)[newIds[n]] == RefCount(t.mapInfo, newIds[n]);
    } else {
      forall b | 0 <= b < |full|
        ensures n !in full[b]
      {
        assert BucketWritten(t.vvNew[b], bs[b], newIds);
      }
      HeldNowhere(full, SetBag, n);
      if 0 <= n < |newIds| + |triedIds| {
        RefsAt(t.mapInfo, (newIds + triedIds)[n]);
      }
    }
  }

  lemma FileBucketsOk(t: Tables, f: FileData, newIds: seq<int>, triedIds: seq<int>)
    requires Written(t, f, newIds, triedIds) && |t.vvNew| == NEW_BUCKET_COUNT
    requires Enumerates(t.mapInfo, newIds + triedIds, |newIds|)
    requires NewOk(t.mapInfo, t.vvNew, NONE) && RefsOk(t.mapInfo)
    ensures BucketsOk(f.buckets, |newIds|)
    ensures forall b :: 0 <= b < |f.buckets| ==> |Elems(f.buckets[b])| <= NEW_BUCKET_SIZE
  {
    hide Lists;
    forall b | 0 <= b < |f.buckets|
      ensures Ascending(f.buckets[b]) && forall i :: 0 <= i < |f.buckets[b]| ==> 0 <= f.buckets[b][i] < |newIds|
      ensures |Elems(f.buckets[b])| <= NEW_BUCKET_SIZE
    {
      assert BucketWritten(t.vvNew[b], f.buckets[b], newIds);
      BucketFits(t, f.buckets[b], newIds, triedIds, b);
    }
    forall x | 0 <= x < |newIds|
      ensures Held(Part(f.buckets, |f.buckets|, 0), SetBag)[x] <= NEW_BUCKETS_PER_ADDRESS
    {
      FileHolds(t, f, newIds, triedIds, x);
      RefsAt(t.mapInfo, (newIds + triedIds)[x]);
    }
    hide BucketWritten, Part;
  }

  lemma BucketFits(t: Tables, bucket: seq<int>, newIds: seq<int>, triedIds: seq<int>, b: nat)
    requires b < |t.vvNew| && |t.vvNew[b]| <= NEW_BUCKET_SIZE && BucketWritten(t.vvNew[b], bucket, newIds)
    requires Enumerates(t.mapInfo, newIds + triedIds, |newIds|)
    ensures |Elems(bucket)| <= NEW_BUCKET_SIZE
  {
    forall j, k | 0 <= j < k < |newIds|
      ensures newIds[j] != newIds[k]
    {
      assert (newIds + triedIds)[j] == newIds[j] && (newIds + triedIds)[k] == newIds[k];
    }
    forall i | 0 <= i < |bucket|
      ensures newIds[bucket[i]] in t.vvNew[b]
    {
      assert bucket[i] in bucket;
    }
    ImageSize(bucket, newIds, t.vvNew[b]);
    ElemsSize(bucket);
  }

  /** The tried buckets hold the same entries under their new names. */
  lemma TriedSame(t: Tables, all: seq<int>, c: nat, vvTried: seq<seq<int>>, h: Hashes, b: nat, x: int)
    requires TriedOk(t.mapInfo, t.vvTried, h) && Enumerates(t.mapInfo, all, c)
    requires TriedPlaces(t.mapInfo, all, c, vvTried, |all|, h) && b < |vvTried|
    ensures x in vvTried[b] <==> 0 <= x < |all| && all[x] in t.vvTried[b]
  {
    if 0 <= x < |all| && all[x] in t.vvTried[b] {
      var i :| 0 <= i < |t.vvTried[b]| && t.vvTried[b][i] == all[x];
      InTried(t.mapInfo, t.vvTried, h, b, i);
      assert InBucket(t.mapInfo, all, x, b, h);
    }
    if x in vvTried[b] {
      assert InBucket(t.mapInfo, all, x, b, h);
      TriedSits(t.mapInfo, t.vvTried, h, all[x]);
    }
  }

  lemma {:induction false} OnceAscending(s: seq<int>, x: int)
    requires Ascending(s)
    ensures multiset(s)[x] == if x in s then 1 else 0
  {
    if s != [] {
      var front := s[..|s| - 1];
      assert s == front + [s[|s| - 1]];
      OnceAscending(front, x);
    }
  }

  lemma {:induction false} HeldAlikeLists(vv: seq<seq<int>>, ww: seq<seq<int>>, x: int, y: int)
    requires |vv| == |ww| && forall b :: 0 <= b < |vv| ==> multiset(vv[b])[x] == multiset(ww[b])[y]
    ensures Held(vv, ListBag)[x] == Held(ww, ListBag)[y]
  {
    if vv != [] {
      HeldAlikeLists(vv[..|vv| - 1], ww[..|ww| - 1], x, y);
    }
  }

  lemma TriedCounts(t: Tables, all: seq<int>, c: nat, vvTried: seq<seq<int>>, h: Hashes, x: int)
    requires TriedOk(t.mapInfo, t.vvTried, h) && Enumerates(t.mapInfo, all, c)
    requires TriedPlaces(t.mapInfo, all, c, vvTried, |all|, h)
    ensures Held(vvTried, ListBag)[x] == if c <= x < |all| then 1 else 0
  {
    if 0 <= x < |all| {
      forall b | 0 <= b < |vvTried|
        ensures multiset(vvTried[b])[x] == multiset(t.vvTried[b])[all[x]]
      {
        TriedSame(t, all, c, vvTried, h, b, x);
        OnceAscending(vvTried[b], x);
        HeldHas(t.vvTried, ListBag, b, all[x]);
      }
      HeldAlikeLists(vvTried, t.vvTried, x, all[x]);
      assert all[x] in t.mapInfo;
    } else {
      forall b | 0 <= b < |vvTried|
        ensures ListBag(vvTried[b])[x] == 0
      {
        TriedSame(t, all, c, vvTried, h, b, x);
      }
      HeldNowhere(vvTried, ListBag, x);
    }
  }

  lemma TriedFits(t: Tables, all: seq<int>, c: nat, vvTried: seq<seq<int>>, h: Hashes, b: nat)
    requires TriedOk(t.mapInfo, t.vvTried, h) && Enumerates(t.mapInfo, all, c)
    requires TriedPlaces(t.mapInfo, all, c, vvTried, |all|, h) && b < |vvTried|
    ensures |vvTried[b]| <= TRIED_BUCKET_SIZE
  {
    var image := set x | x in t.vvTried[b];
    forall i | 0 <= i < |vvTried[b]|
      ensures 0 <= vvTried[b][i] < |all| && all[vvTried[b][i]] in image
    {
      TriedSame(t, all, c, vvTried, h, b, vvTried[b][i]);
    }
    ImageSize(vvTried[b], all, image);
    ElemsSize(t.vvTried[b]);
  }

  lemma TriedOkBack(t: Tables, all: seq<int>, c: nat, m: map<int, Info>, vvTried: seq<seq<int>>, h: Hashes)
    requires TriedOk(t.mapInfo, t.vvTried, h) && Enumerates(t.mapInfo, all, c)
    requires TriedPlaces(t.mapInfo, all, c, vvTried, |all|, h)
    requires forall n :: n in m <==> 0 <= n < |all|
    requires forall n :: 0 <= n < |all| ==> m[n].fInTried == (n >= c) && m[n].addr == t.mapInfo[all[n]].addr
    ensures TriedOk(m, vvTried, h)
  {
    forall n
      ensures Held(vvTried, ListBag)[n] == if n in m && m[n].fInTried then 1 else 0
    {
      TriedCounts(t, all, c, vvTried, h, n);
    }
    forall b | 0 <= b < |vvTried|
      ensures |vvTried[b]| <= TRIED_BUCKET_SIZE
    {
      TriedFits(t, all, c, vvTried, h, b);
    }
    forall b, i | 0 <= b < |vvTried| && 0 <= i < |vvTried[b]|
      ensures vvTried[b][i] in m && h.TriedBucket(m[vvTried[b][i]].addr) == b
    {
      assert vvTried[b][i] in vvTried[b];
      assert InBucket(t.mapInfo, all, vvTried[b][i], b, h);
    }
    hide Held;
  }

  /** The entries of the loaded tables. */
  ghost predicate EntriesBack(t: Tables, r: Tables, all: seq<int>) {
    && (forall n :: n in r.mapInfo <==> 0 <= n < |all|)
    && (forall n :: 0 <= n < |all| ==> all[n] in t.mapInfo && r.mapInfo[n] == t.mapInfo[all[n]].(nLastTry := 0,
      nRandomPos := n))
  }

  lemma CountsBack(t: Tables, f: FileData, newIds: seq<int>, triedIds: seq<int>, u: Tables, r: Tables)
    requires Written(t, f, newIds, triedIds) && |t.vvNew| == NEW_BUCKET_COUNT
    requires Enumerates(t.mapInfo, newIds + triedIds, |newIds|)
    requires NewOk(t.mapInfo, t.vvNew, NONE) && RefsOk(t.mapInfo)
    requires Partly(t.mapInfo, newIds + triedIds, u, |newIds + triedIds|)
    requires r.mapInfo == WithCounts(u.mapInfo, Part(f.buckets, |f.buckets|, 0))
    ensures EntriesBack(t, r, newIds + triedIds)
  {
    var all := newIds + triedIds;
    var full := Part(f.buckets, |f.buckets|, 0);
    forall n | 0 <= n < |all|
      ensures n in r.mapInfo && all[n] in t.mapInfo
      ensures r.mapInfo[n] == t.mapInfo[all[n]].(nLastTry := 0, nRandomPos := n)
    {
      FileHolds(t, f, newIds, triedIds, n);
      assert n in u.mapInfo && u.mapInfo[n] == Clean(t.mapInfo[all[n]], n);
    }
    hide Written, NewOk, RefsOk, Enumerates, Held, Part;
  }

  lemma NewOkBack(t: Tables, f: FileData, newIds: seq<int>, triedIds: seq<int>, r: Tables)
    requires Written(t, f, newIds, triedIds) && |t.vvNew| == NEW_BUCKET_COUNT
    requires Enumerates(t.mapInfo, newIds + triedIds, |newIds|)
    requires NewOk(t.mapInfo, t.vvNew, NONE) && RefsOk(t.mapInfo) && EntriesBack(t, r, newIds + triedIds)
    requires r.vvNew == Part(f.buckets, |f.buckets|, 0)
    ensures NewOk(r.mapInfo, r.vvNew, NONE)
  {
    FileBucketsOk(t, f, newIds, triedIds);
    forall n
      ensures Held(r.vvNew, SetBag)[n] == RefCount(r.mapInfo, n)
    {
      FileHolds(t, f, newIds, triedIds, n);
    }
    hide Written, RefsOk, Enumerates, Held, BucketsOk;
  }

  lemma RestBack(t: Tables, r: Tables, all: seq<int>, c: nat, u: Tables)
    requires Enumerates(t.mapInfo, all, c) && EntriesBack(t, r, all) && RefsOk(t.mapInfo)
    requires Partly(t.mapInfo, all, u, |all|) && r.mapAddr == u.mapAddr && r.vRandom == u.vRandom && r.nIdCount == |all|
    ensures RandomOk(r.mapInfo, r.vRandom) && RefsOk(r.mapInfo) && IdsOk(r.mapInfo, r.nIdCount)
    ensures AddrOk(r.mapInfo, r.mapAddr)
    ensures forall n :: 0 <= n < |all| ==>
      r.mapInfo[n].fInTried == (n >= c) && r.mapInfo[n].addr == t.mapInfo[all[n]].addr
  {
    forall n | n in r.mapInfo
      ensures n in u.mapInfo && Ip(r.mapInfo[n]) == Ip(u.mapInfo[n])
      ensures if r.mapInfo[n].fInTried then r.mapInfo[n].nRefCount == 0
              else 1 <= r.mapInfo[n].nRefCount <= NEW_BUCKETS_PER_ADDRESS
    {
      RefsAt(t.mapInfo, all[n]);
    }
    forall a | a in r.mapAddr
      ensures r.mapAddr[a] in r.mapInfo && Ip(r.mapInfo[r.mapAddr[a]]) == a
    {
      var n := u.mapAddr[a];
      assert n in u.mapInfo && Ip(u.mapInfo[n]) == a;
      assert 0 <= n < |all| && n in r.mapInfo;
    }
  }

  lemma SetsBack(t: Tables, r: Tables, all: seq<int>, c: nat)
    requires Enumerates(t.mapInfo, all, c) && EntriesBack(t, r, all)
    ensures |NewIds(r.mapInfo)| == c && |TriedIds(r.mapInfo)| == |all| - c
  {
    var low, every := AddrCheck.Range(c), AddrCheck.Range(|all|);
    forall n
      ensures n in NewIds(r.mapInfo) <==> n in low
      ensures n in TriedIds(r.mapInfo) <==> n in every - low
    {
      if 0 <= n < |all| {
        assert all[n] in t.mapInfo && n in r.mapInfo;
      }
    }
    hide Enumerates, EntriesBack, AddrCheck.Range;
    assert NewIds(r.mapInfo) == low && TriedIds(r.mapInfo) == every - low;
    assert low <= every;
  }

  lemma BucketsRenamed(t: Tables, f: FileData, newIds: seq<int>, triedIds: seq<int>, b: nat, n: int)
    requires Written(t, f, newIds, triedIds) && Enumerates(t.mapInfo, newIds + triedIds, |newIds|)
    requires NewOk(t.mapInfo, t.vvNew, NONE) && RefsOk(t.mapInfo)
    requires b < |t.vvNew| && 0 <= n < |newIds + triedIds|
    ensures n in Elems(f.buckets[b]) <==> (newIds + triedIds)[n] in t.vvNew[b]
  {
    hide Lists;
    assert BucketWritten(t.vvNew[b], f.buckets[b], newIds);
    var id := (newIds + triedIds)[n];
    if n < |newIds| {
      assert id == newIds[n];
    } else if id in t.vvNew[b] {
      NewMember(t.mapInfo, t.vvNew, b, id, NONE);
      assert false;
    }
  }

  /** The loaded tables, in closed form. */
  lemma LoadedIs(t: Tables, f: FileData, newIds: seq<int>, triedIds: seq<int>, h: Hashes)
    requires Good(t, h, NONE) && Written(t, f, newIds, triedIds)
    ensures var r, u, full := LoadBuckets(f, h, |f.buckets|), LoadTried(f, h, |f.triedInfos|), Part(f.buckets,
      |f.buckets|, 0);
      && r == u.(mapInfo := WithCounts(u.mapInfo, full), vvNew := full)
      && Partly(t.mapInfo, newIds + triedIds, u, |newIds + triedIds|)
      && TriedPlaces(t.mapInfo, newIds + triedIds, |newIds|, u.vvTried, |newIds + triedIds|, h)
      && u.nIdCount == |newIds + triedIds| && u.nNew == |newIds| && u.nTried == |triedIds|
  {
    hide *;
    Parts(t, h);
    WrittenLists(t, f, newIds, triedIds);
    TriedEntriesBack(t, f, newIds, triedIds, h, |triedIds|);
    TriedBackIs(t, f, newIds, triedIds, h);
    ListsEnumerate(t.mapInfo, newIds, triedIds);
    FileBucketsOk(t, f, newIds, triedIds);
    var u := LoadTried(f, h, |f.triedInfos|);
    NoCountsYet(t.mapInfo, newIds + triedIds, u, |newIds|);
    BucketsBack(u.mapInfo, u, f, h, |newIds|, |f.buckets|);
  }

  lemma WrittenLists(t: Tables, f: FileData, newIds: seq<int>, triedIds: seq<int>)
    requires Written(t, f, newIds, triedIds)
    ensures Lists(newIds, NewIds(t.mapInfo)) && Lists(triedIds, TriedIds(t.mapInfo)) && |f.triedInfos| == |triedIds|
  {
  }

  lemma TriedBackIs(t: Tables, f: FileData, newIds: seq<int>, triedIds: seq<int>, h: Hashes)
    requires |f.triedInfos| == |triedIds| && TriedBack(t, f, newIds, triedIds, h, |f.triedInfos|)
    ensures var u := LoadTried(f, h, |f.triedInfos|);
      && Partly(t.mapInfo, newIds + triedIds, u, |newIds + triedIds|)
      && TriedPlaces(t.mapInfo, newIds + triedIds, |newIds|, u.vvTried, |newIds + triedIds|, h)
      && u.nIdCount == |newIds + triedIds| && u.nNew == |newIds| && u.nTried == |triedIds|
      && u.vvNew == NoSets(NEW_BUCKET_COUNT)
  {
    assert |newIds + triedIds| == |newIds| + |triedIds|;
  }

  lemma Parts(t: Tables, h: Hashes)
    requires Good(t, h, NONE)
    ensures AddrOk(t.mapInfo, t.mapAddr) && TriedOk(t.mapInfo, t.vvTried, h) && NewOk(t.mapInfo, t.vvNew, NONE)
    ensures RefsOk(t.mapInfo) && CountsOk(t) && |t.vvNew| == NEW_BUCKET_COUNT
  {
  }

  /** Main result: what is loaded from the file of consistent tables is consistent, and the same under new
      ids. In particular no tried entry finds its bucket full. */
  lemma RoundTrip(t: Tables, f: FileData, newIds: seq<int>, triedIds: seq<int>, h: Hashes)
    requires Good(t, h, NONE) && Written(t, f, newIds, triedIds)
    ensures var r := LoadBuckets(f, h, |f.buckets|);
      Good(r, h, NONE) && Renamed(t, r, newIds + triedIds, |newIds|)
  {
    Parts(t, h);
    LoadedIs(t, f, newIds, triedIds, h);
    ListsEnumerate(t.mapInfo, newIds, triedIds);
    AscendingSize(newIds, NewIds(t.mapInfo));
    AscendingSize(triedIds, TriedIds(t.mapInfo));
    RoundTripParts(t, f, newIds, triedIds, h, LoadTried(f, h, |f.triedInfos|), LoadBuckets(f, h, |f.buckets|));
  }

  lemma RoundTripParts(t: Tables, f: FileData, newIds: seq<int>, triedIds: seq<int>, h: Hashes, u: Tables, r: Tables)
    requires AddrOk(t.mapInfo, t.mapAddr) && TriedOk(t.mapInfo, t.vvTried, h) && NewOk(t.mapInfo, t.vvNew, NONE)
    requires RefsOk(t.mapInfo) && t.nNew == |newIds| && t.nTried == |triedIds| && |t.vvNew| == NEW_BUCKET_COUNT
    requires Written(t, f, newIds, triedIds) && Enumerates(t.mapInfo, newIds + triedIds, |newIds|)
    requires r == u.(mapInfo := WithCounts(u.mapInfo, Part(f.buckets, |f.buckets|, 0)),
      vvNew := Part(f.buckets, |f.buckets|, 0))
    requires Partly(t.mapInfo, newIds + triedIds, u, |newIds + triedIds|)
    requires TriedPlaces(t.mapInfo, newIds + triedIds, |newIds|, u.vvTried, |newIds + triedIds|, h)
    requires u.nIdCount == |newIds + triedIds| && u.nNew == |newIds| && u.nTried == |triedIds|
    ensures Good(r, h, NONE) && Renamed(t, r, newIds + triedIds, |newIds|)
  {
    hide RandomOk, AddrOk, TriedOk, NewOk, RefsOk, IdsOk, Enumerates, Partly, TriedPlaces, Part, Written, WithCounts,
      EntriesBack;
    hide TriedIds, NewIds;
    var all, c := newIds + triedIds, |newIds|;
    CountsBack(t, f, newIds, triedIds, u, r);
    NewOkBack(t, f, newIds, triedIds, r);
    RestBack(t, r, all, c, u);
    SetsBack(t, r, all, c);
    EntriesAre(t, r, all);
    TriedOkBack(t, all, c, r.mapInfo, r.vvTried, h);
    SameBuckets(t, f, newIds, triedIds, r, h);
  }

  lemma EntriesAre(t: Tables, r: Tables, all: seq<int>)
    requires EntriesBack(t, r, all)
    ensures forall n :: n in r.mapInfo <==> 0 <= n < |all|
    ensures forall n :: 0 <= n < |all| ==> all[n] in t.mapInfo && r.mapInfo[n] == t.mapInfo[all[n]].(nLastTry := 0,
      nRandomPos := n)
  {
  }

  lemma NoCountsYet(m: map<int, Info>, all: seq<int>, u: Tables, c: nat)
    requires Partly(m, all, u, |all|) && c <= |all|
    ensures forall n :: n in u.mapInfo ==> u.mapInfo[n].nRefCount == 0
    ensures forall n :: 0 <= n < c ==> n in u.mapInfo
  {
  }

  lemma SameBuckets(t: Tables, f: FileData, newIds: seq<int>, triedIds: seq<int>, r: Tables, h: Hashes)
    requires Written(t, f, newIds, triedIds) && Enumerates(t.mapInfo, newIds + triedIds, |newIds|)
    requires NewOk(t.mapInfo, t.vvNew, NONE) && RefsOk(t.mapInfo) && TriedOk(t.mapInfo, t.vvTried, h)
    requires TriedPlaces(t.mapInfo, newIds + triedIds, |newIds|, r.vvTried, |newIds + triedIds|, h)
    requires r.vvNew == Part(f.buckets, |f.buckets|, 0)
    ensures |r.vvNew| == |t.vvNew| && |r.vvTried| == |t.vvTried|
    ensures forall b, n :: 0 <= b < |r.vvNew| && 0 <= n < |newIds + triedIds| ==>
      (n in r.vvNew[b] <==> (newIds + triedIds)[n] in t.vvNew[b])
    ensures forall b, n :: 0 <= b < |r.vvTried| && 0 <= n < |newIds + triedIds| ==>
      (n in r.vvTried[b] <==> (newIds + triedIds)[n] in t.vvTried[b])
  {
    var all := newIds + triedIds;
    forall b, n | 0 <= b < |r.vvNew| && 0 <= n < |all|
      ensures n in r.vvNew[b] <==> all[n] in t.vvNew[b]
    {
      BucketsRenamed(t, f, newIds, triedIds, b, n);
    }
    forall b, n | 0 <= b < |r.vvTried| && 0 <= n < |all|
      ensures n in r.vvTried[b] <==> all[n] in t.vvTried[b]
    {
      TriedSame(t, all, |newIds|, r.vvTried, h, b, n);
    }
  }

  /** Saving and loading in one. */
  method SaveAndLoad(am: CAddrMan, other: CAddrMan) returns (ghost all: seq<int>, ghost c: nat)
    requires am != other && Good(am.Now(), am.h, NONE) && other.h == am.h
    modifies other
    ensures Good(other.Now(), other.h, NONE) && Renamed(am.Now(), other.Now(), all, c)
  {
    var f;
    ghost var newIds, triedIds;
    ghost var t := am.Now();
    f, newIds, triedIds := Write(am);
    all, c := newIds + triedIds, |newIds|;
    RoundTrip(t, f, newIds, triedIds, am.h);
    hide *;
    Load(other, f);
  }
}
