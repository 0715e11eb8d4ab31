/** The tables of the address manager as values, the invariant Check_ tests, and what each step of the
    code does to them (src/addrman.h and src/addrman.cpp). */
module AddrTables {

  const TRIED_BUCKET_COUNT := 64
  const TRIED_BUCKET_SIZE := 64
  const NEW_BUCKET_COUNT := 256
  const NEW_BUCKET_SIZE := 64
  const NEW_BUCKETS_PER_ADDRESS := 4

  /** mapAddr is keyed by the network address alone; two services may share it. */
  type NetAddr = nat
  datatype Service = Service(ip: NetAddr, port: nat)
  datatype Address = Address(service: Service, nServices: bv64, nTime: int)

  datatype Info = Info(addr: Address, source: NetAddr, nLastSuccess: int, nLastTry: int, nAttempts: int,
                       nRefCount: int, fInTried: bool, nRandomPos: int)

  function Ip(i: Info): NetAddr {
    i.addr.service.ip
  }

  datatype Tables = Tables(mapInfo: map<int, Info>, mapAddr: map<NetAddr, int>, vRandom: seq<int>,
                           vvTried: seq<seq<int>>, nTried: int, vvNew: seq<set<int>>, nNew: int, nIdCount: int)

  /** The keyed hashes that choose buckets, reduced modulo the number of buckets. */
  datatype Hashes = Hashes(tried: Service -> nat, unseen: (Service, NetAddr) -> nat) {
    function TriedBucket(a: Address): (b: nat)
      ensures b < TRIED_BUCKET_COUNT
    {
      tried(a.service) % TRIED_BUCKET_COUNT
    }

    function NewBucket(a: Address, source: NetAddr): (b: nat)
      ensures b < NEW_BUCKET_COUNT
    {
      unseen(a.service, source) % NEW_BUCKET_COUNT
    }
  }

  // ---- what a list of buckets holds ----------------------------------------------------------

  /** All entries of all buckets, with repetition. */
  ghost function Held<B>(vv: seq<B>, bag: B -> multiset<int>): multiset<int> {
    if vv == [] then multiset{} else Held(vv[..|vv| - 1], bag) + bag(vv[|vv| - 1])
  }

  ghost function ListBag(s: seq<int>): multiset<int> {
    multiset(s)
  }

  ghost function SetBag(s: set<int>): multiset<int> {
    multiset(s)
  }

  /** Replacing a bucket replaces its share. */
  lemma {:induction false} HeldUpdate<B>(vv: seq<B>, bag: B -> multiset<int>, b: nat, s: B, id: int)
    requires b < |vv|
    ensures Held(vv[b := s], bag)[id] + bag(vv[b])[id] == Held(vv, bag)[id] + bag(s)[id]
  {
    var n := |vv| - 1;
    if b < n {
      HeldUpdate(vv[..n], bag, b, s, id);
      assert vv[b := s][..n] == vv[..n][b := s];
    } else {
      assert vv[b := s][..n] == vv[..n];
    }
  }

  lemma {:induction false} HeldHas<B>(vv: seq<B>, bag: B -> multiset<int>, b: nat, id: int)
    requires b < |vv|
    ensures bag(vv[b])[id] <= Held(vv, bag)[id]
  {
    var n := |vv| - 1;
    if b < n {
      HeldHas(vv[..n], bag, b, id);
    }
  }

  lemma {:induction false} HeldNowhere<B>(vv: seq<B>, bag: B -> multiset<int>, id: int)
    requires forall b :: 0 <= b < |vv| ==> bag(vv[b])[id] == 0
    ensures Held(vv, bag)[id] == 0
  {
    if vv != [] {
      HeldNowhere(vv[..|vv| - 1], bag, id);
    }
  }

  lemma {:induction false} HeldSize<B>(vv: seq<B>, bag: B -> multiset<int>, size: nat)
    requires forall b :: 0 <= b < |vv| ==> |bag(vv[b])| <= size
    ensures |Held(vv, bag)| <= size * |vv|
  {
    if vv != [] {
      HeldSize(vv[..|vv| - 1], bag, size);
      assert size * |vv| == size * (|vv| - 1) + size;
    }
  }

  lemma SomeIn<T>(s: set<T>) returns (n: T)
    requires s != {}
    ensures n in s
  {
    n :| n in s;
  }

  lemma {:induction false} SubsetOfSize<T>(a: set<T>, b: set<T>)
    requires a <= b && |a| == |b|
    ensures a == b
    decreases |a|
  {
    if a == {} {
    } else {
      var x := SomeIn(a);
      SubsetOfSize(a - {x}, b - {x});
      assert a == a - {x} + {x} && b == b - {x} + {x};
    }
  }

  // ---- the invariant ------------------------------------------------------------------------------

  ghost function TriedIds(m: map<int, Info>): set<int> {
    set n | n in m && m[n].fInTried
  }

  ghost function NewIds(m: map<int, Info>): set<int> {
    set n | n in m && !m[n].fInTried
  }

  function RefCount(m: map<int, Info>, n: int): int {
    if n in m then m[n].nRefCount else 0
  }

  /** vRandom lists every id once, and every id knows its place. */
  ghost predicate RandomOk(m: map<int, Info>, vRandom: seq<int>) {
    && (forall n :: n in m ==> 0 <= m[n].nRandomPos < |vRandom| && vRandom[m[n].nRandomPos] == n)
    && (forall i :: 0 <= i < |vRandom| ==> vRandom[i] in m && m[vRandom[i]].nRandomPos == i)
  }

  /** mapAddr is the inverse of mapInfo. */
  ghost predicate AddrOk(m: map<int, Info>, mapAddr: map<NetAddr, int>) {
    && (forall n :: n in m ==> Ip(m[n]) in mapAddr && mapAddr[Ip(m[n])] == n)
    && (forall a :: a in mapAddr ==> mapAddr[a] in m && Ip(m[mapAddr[a]]) == a)
  }

  /** Every tried id sits in exactly one place of the tried buckets, the bucket its address hashes to. */
  ghost predicate TriedOk(m: map<int, Info>, vvTried: seq<seq<int>>, h: Hashes) {
    && |vvTried| == TRIED_BUCKET_COUNT
    && (forall b :: 0 <= b < |vvTried| ==> |vvTried[b]| <= TRIED_BUCKET_SIZE)
    && (forall n :: Held(vvTried, ListBag)[n] == if n in m && m[n].fInTried then 1 else 0)
    && (forall b, i :: 0 <= b < |vvTried| && 0 <= i < |vvTried[b]| ==>
          vvTried[b][i] in m && h.TriedBucket(m[vvTried[b][i]].addr) == b)
  }

  const NONE := -1

  /** What `n` is still owed while an addition is under way; ids are never negative. */
  function Owed(n: int, pending: int): int {
    if n == pending && n >= 0 then 1 else 0
  }

  /** nRefCount is the number of new buckets that hold the id; `pending` is owed one. */
  ghost predicate NewOk(m: map<int, Info>, vvNew: seq<set<int>>, pending: int) {
    && |vvNew| == NEW_BUCKET_COUNT
    && (forall b :: 0 <= b < |vvNew| ==> |vvNew[b]| <= NEW_BUCKET_SIZE)
    && (forall n :: Held(vvNew, SetBag)[n] == RefCount(m, n) - Owed(n, pending))
  }

  ghost predicate RefsOk(m: map<int, Info>) {
    forall n :: n in m ==>
      if m[n].fInTried then m[n].nRefCount == 0 else 1 <= m[n].nRefCount <= NEW_BUCKETS_PER_ADDRESS
  }

  ghost predicate IdsOk(m: map<int, Info>, nIdCount: int) {
    nIdCount >= 0 && forall n :: n in m ==> 0 <= n < nIdCount
  }

  ghost predicate CountsOk(t: Tables) {
    t.nTried == |TriedIds(t.mapInfo)| && t.nNew == |NewIds(t.mapInfo)|
  }

  ghost predicate Good(t: Tables, h: Hashes, pending: int) {
    && RandomOk(t.mapInfo, t.vRandom) && AddrOk(t.mapInfo, t.mapAddr)
    && TriedOk(t.mapInfo, t.vvTried, h) && NewOk(t.mapInfo, t.vvNew, pending) && RefsOk(t.mapInfo)
    && CountsOk(t) && IdsOk(t.mapInfo, t.nIdCount)
  }

  /** What Check_ asks of the times. */
  ghost predicate TimesOk(m: map<int, Info>) {
    forall n :: n in m ==> m[n].nLastTry >= 0 && m[n].nLastSuccess >= 0 && (m[n].fInTried ==> m[n].nLastSuccess > 0)
  }

  /** There is room for 64 tried and 256 new buckets of 64, and no more. */
  lemma AtMost(t: Tables, h: Hashes)
    requires Good(t, h, NONE)
    ensures |t.vRandom| == |t.mapInfo| == t.nTried + t.nNew
    ensures t.nTried <= TRIED_BUCKET_COUNT * TRIED_BUCKET_SIZE && t.nNew <= NEW_BUCKET_COUNT * NEW_BUCKET_SIZE
  {
    TriedAtMost(t.mapInfo, t.vvTried, h);
    NewAtMost(t.mapInfo, t.vvNew);
    RandomSize(t.mapInfo, t.vRandom);
    assert TriedIds(t.mapInfo) + NewIds(t.mapInfo) == t.mapInfo.Keys;
    assert TriedIds(t.mapInfo) !! NewIds(t.mapInfo);
  }

  lemma TriedAtMost(m: map<int, Info>, vvTried: seq<seq<int>>, h: Hashes)
    requires TriedOk(m, vvTried, h)
    ensures |TriedIds(m)| <= TRIED_BUCKET_COUNT * TRIED_BUCKET_SIZE
  {
    HeldSize(vvTried, ListBag, TRIED_BUCKET_SIZE);
    BagCovers(TriedIds(m), Held(vvTried, ListBag));
  }

  lemma NewAtMost(m: map<int, Info>, vvNew: seq<set<int>>)
    requires NewOk(m, vvNew, NONE) && RefsOk(m)
    ensures |NewIds(m)| <= NEW_BUCKET_COUNT * NEW_BUCKET_SIZE
  {
    HeldSize(vvNew, SetBag, NEW_BUCKET_SIZE);
    forall n | n in NewIds(m)
      ensures Held(vvNew, SetBag)[n] >= 1
    {
      assert n in m;
    }
    BagCovers(NewIds(m), Held(vvNew, SetBag));
  }

  lemma {:induction false} BagCovers(s: set<int>, b: multiset<int>)
    requires forall n :: n in s ==> b[n] >= 1
    ensures |s| <= |b|
  {
    assert forall n :: multiset(s)[n] <= b[n];
    assert b == multiset(s) + (b - multiset(s));
  }

  lemma RandomSize(m: map<int, Info>, vRandom: seq<int>)
    requires RandomOk(m, vRandom)
    ensures |vRandom| == |m|
  {
    assert multiset(vRandom) == multiset(m.Keys) by {
      forall n
        ensures multiset(vRandom)[n] == multiset(m.Keys)[n]
      {
        OnceIn(m, vRandom, n);
      }
    }
    assert |multiset(vRandom)| == |vRandom|;
    assert |m.Keys| == |m|;
  }

  lemma OnceIn(m: map<int, Info>, vRandom: seq<int>, n: int)
    requires RandomOk(m, vRandom)
    ensures multiset(vRandom)[n] == if n in m then 1 else 0
  {
    if n in m {
      var i := m[n].nRandomPos;
      assert vRandom == vRandom[..i] + [n] + vRandom[i + 1..];
      assert n !in vRandom[..i] && n !in vRandom[i + 1..];
    } else {
      assert n !in vRandom;
    }
  }

  // ---- moving positions ------------------------------------------------------------------------

  /** Only places in vRandom differ. */
  ghost predicate SameButPlaces(m: map<int, Info>, m1: map<int, Info>) {
    && m.Keys == m1.Keys
    && (forall n :: n in m1 ==> n in m)
    && (forall n :: n in m ==> n in m1 && m1[n] == m[n].(nRandomPos := m1[n].nRandomPos))
  }

  lemma SameSets(m: map<int, Info>, m1: map<int, Info>)
    requires SameButPlaces(m, m1)
    ensures TriedIds(m1) == TriedIds(m) && NewIds(m1) == NewIds(m)
  {
    forall n | n in m
      ensures n in m1 && m1[n].fInTried == m[n].fInTried
    {
    }
    assert forall n :: n in TriedIds(m1) ==> n in TriedIds(m);
    assert forall n :: n in TriedIds(m) ==> n in TriedIds(m1);
  }

  lemma SameAddr(m: map<int, Info>, m1: map<int, Info>, mapAddr: map<NetAddr, int>)
    requires SameButPlaces(m, m1) && AddrOk(m, mapAddr)
    ensures AddrOk(m1, mapAddr)
  {
    forall n | n in m1
      ensures Ip(m1[n]) in mapAddr && mapAddr[Ip(m1[n])] == n
    {
      assert n in m;
    }
  }

  lemma SameTried(m: map<int, Info>, m1: map<int, Info>, vvTried: seq<seq<int>>, h: Hashes)
    requires SameButPlaces(m, m1) && TriedOk(m, vvTried, h)
    ensures TriedOk(m1, vvTried, h)
  {
    forall n
      ensures Held(vvTried, ListBag)[n] == if n in m1 && m1[n].fInTried then 1 else 0
    {
      assert n in m <==> n in m1;
    }
    forall b, i | 0 <= b < |vvTried| && 0 <= i < |vvTried[b]|
      ensures vvTried[b][i] in m1 && h.TriedBucket(m1[vvTried[b][i]].addr) == b
    {
      SameAt(m, m1, vvTried[b][i]);
    }
  }

  lemma SameAt(m: map<int, Info>, m1: map<int, Info>, n: int)
    requires SameButPlaces(m, m1) && n in m
    ensures n in m1 && m1[n].addr == m[n].addr && m1[n].fInTried == m[n].fInTried && m1[n].nRefCount == m[n].nRefCount
  {
    assert m1[n] == m[n].(nRandomPos := m1[n].nRandomPos);
  }

  lemma SameNew(m: map<int, Info>, m1: map<int, Info>, vvNew: seq<set<int>>, pending: int)
    requires SameButPlaces(m, m1) && NewOk(m, vvNew, pending)
    ensures NewOk(m1, vvNew, pending)
  {
    forall n
      ensures RefCount(m1, n) == RefCount(m, n)
    {
      assert n in m <==> n in m1;
    }
  }

  lemma SameRefs(m: map<int, Info>, m1: map<int, Info>, nIdCount: int)
    requires SameButPlaces(m, m1)
    ensures RefsOk(m) ==> RefsOk(m1)
    ensures IdsOk(m, nIdCount) ==> IdsOk(m1, nIdCount)
  {
  }

  /** Everything but RandomOk survives a change of places. */
  lemma PlacesDoNotMatter(t: Tables, m1: map<int, Info>, h: Hashes, pending: int)
    requires SameButPlaces(t.mapInfo, m1)
    requires AddrOk(t.mapInfo, t.mapAddr) && TriedOk(t.mapInfo, t.vvTried, h) && NewOk(t.mapInfo, t.vvNew, pending)
    requires RefsOk(t.mapInfo) && IdsOk(t.mapInfo, t.nIdCount)
    ensures TriedIds(m1) == TriedIds(t.mapInfo) && NewIds(m1) == NewIds(t.mapInfo)
    ensures AddrOk(m1, t.mapAddr) && TriedOk(m1, t.vvTried, h) && NewOk(m1, t.vvNew, pending)
    ensures RefsOk(m1) && IdsOk(m1, t.nIdCount)
  {
    hide *;
    SameSets(t.mapInfo, m1);
    SameAddr(t.mapInfo, m1, t.mapAddr);
    SameTried(t.mapInfo, m1, t.vvTried, h);
    SameNew(t.mapInfo, m1, t.vvNew, pending);
    SameRefs(t.mapInfo, m1, t.nIdCount);
  }

  /** SwapRandom. */
  function Swapped(t: Tables, i: int, j: int): (r: Tables) {
    if i == j || !(0 <= i < |t.vRandom| && 0 <= j < |t.vRandom|) then t
    else
      var a, b := t.vRandom[i], t.vRandom[j];
      if a !in t.mapInfo || b !in t.mapInfo then t
      else t.(mapInfo := t.mapInfo[a := t.mapInfo[a].(nRandomPos := j)][b := t.mapInfo[b].(nRandomPos := i)],
              vRandom := t.vRandom[i := b][j := a])
  }

  lemma SwappedOk(t: Tables, i: int, j: int)
    requires RandomOk(t.mapInfo, t.vRandom) && 0 <= i < |t.vRandom| && 0 <= j < |t.vRandom|
    ensures var r := Swapped(t, i, j);
      && r == t.(mapInfo := r.mapInfo, vRandom := r.vRandom)
      && r.vRandom == t.vRandom[i := t.vRandom[j]][j := t.vRandom[i]]
      && RandomOk(r.mapInfo, r.vRandom)
      && SameButPlaces(t.mapInfo, r.mapInfo)
  {
  }

  lemma SwappedGood(t: Tables, i: int, j: int, h: Hashes, pending: int)
    requires Good(t, h, pending) && 0 <= i < |t.vRandom| && 0 <= j < |t.vRandom|
    ensures Good(Swapped(t, i, j), h, pending)
  {
    SwappedOk(t, i, j);
    PlacesDoNotMatter(t, Swapped(t, i, j).mapInfo, h, pending);
    hide Swapped, RandomOk, AddrOk, TriedOk, NewOk, RefsOk, IdsOk, SameButPlaces;
  }

  // ---- dropping an entry -----------------------------------------------------------------------

  /** An id that lost its last reference: out of vRandom (by a swap with the last), mapAddr and mapInfo. */
  function Erased(t: Tables, id: int): Tables {
    if id !in t.mapInfo || t.vRandom == [] then t
    else
      var r := Swapped(t, t.mapInfo[id].nRandomPos, |t.vRandom| - 1);
      r.(vRandom := r.vRandom[..|r.vRandom| - 1], mapAddr := t.mapAddr - {Ip(t.mapInfo[id])},
         mapInfo := r.mapInfo - {id}, nNew := t.nNew - 1)
  }

  /** One reference less from new bucket `b`; the entry goes with its last reference. */
  function Released(t: Tables, b: nat, id: int): Tables
    requires b < |t.vvNew|
  {
    if id !in t.mapInfo then t
    else
      var info := t.mapInfo[id].(nRefCount := t.mapInfo[id].nRefCount - 1);
      var t1 := t.(mapInfo := t.mapInfo[id := info]);
      (if info.nRefCount == 0 then Erased(t1, id) else t1).(vvNew := t.vvNew[b := t.vvNew[b] - {id}])
  }

  lemma RandomErase(t: Tables, id: int)
    requires RandomOk(t.mapInfo, t.vRandom) && id in t.mapInfo
    ensures var r := Erased(t, id);
      && RandomOk(r.mapInfo, r.vRandom) && SameButPlaces(t.mapInfo - {id}, r.mapInfo)
      && r == t.(vRandom := r.vRandom, mapAddr := t.mapAddr - {Ip(t.mapInfo[id])}, mapInfo := r.mapInfo,
        nNew := t.nNew - 1)
  {
    hide RandomOk, SameButPlaces, Swapped;
    SwappedLast(t, id);
    var r := Swapped(t, t.mapInfo[id].nRandomPos, |t.vRandom| - 1);
    PopLast(r.mapInfo, r.vRandom, id);
    SameErase(t.mapInfo, r.mapInfo, id);
  }

  /** A listed entry, swapped with the last one. */
  lemma SwappedLast(t: Tables, id: int)
    requires RandomOk(t.mapInfo, t.vRandom) && id in t.mapInfo
    ensures t.vRandom != []
    ensures var r := Swapped(t, t.mapInfo[id].nRandomPos, |t.vRandom| - 1);
      && RandomOk(r.mapInfo, r.vRandom) && SameButPlaces(t.mapInfo, r.mapInfo) && id in r.mapInfo
      && r == t.(vRandom := r.vRandom, mapInfo := r.mapInfo)
      && |r.vRandom| == |t.vRandom| && r.vRandom[|t.vRandom| - 1] == id
  {
    SwappedOk(t, t.mapInfo[id].nRandomPos, |t.vRandom| - 1);
  }

  lemma PopLast(m: map<int, Info>, vRandom: seq<int>, id: int)
    requires RandomOk(m, vRandom) && vRandom != [] && vRandom[|vRandom| - 1] == id
    ensures RandomOk(m - {id}, vRandom[..|vRandom| - 1])
  {
  }

  lemma SameErase(m: map<int, Info>, m1: map<int, Info>, id: int)
    requires SameButPlaces(m, m1)
    ensures SameButPlaces(m - {id}, m1 - {id})
  {
  }

  lemma AddrErase(m: map<int, Info>, mapAddr: map<NetAddr, int>, id: int)
    requires AddrOk(m, mapAddr) && id in m
    ensures AddrOk(m - {id}, mapAddr - {Ip(m[id])})
  {
  }

  /** What a tried bucket holds is tried. */
  lemma InTried(m: map<int, Info>, vvTried: seq<seq<int>>, h: Hashes, b: nat, i: nat)
    requires TriedOk(m, vvTried, h) && b < |vvTried| && i < |vvTried[b]|
    ensures vvTried[b][i] in m && m[vvTried[b][i]].fInTried
  {
    HeldHas(vvTried, ListBag, b, vvTried[b][i]);
    assert vvTried[b][i] in multiset(vvTried[b]);
  }

  lemma TriedErase(m: map<int, Info>, vvTried: seq<seq<int>>, h: Hashes, id: int)
    requires TriedOk(m, vvTried, h) && id in m && !m[id].fInTried
    ensures TriedOk(m - {id}, vvTried, h)
  {
    forall b, i | 0 <= b < |vvTried| && 0 <= i < |vvTried[b]|
      ensures vvTried[b][i] != id
    {
      InTried(m, vvTried, h, b, i);
    }
  }

  /** One reference and one membership less. */
  lemma NewRelease(m: map<int, Info>, vvNew: seq<set<int>>, b: nat, id: int, pending: int)
    requires NewOk(m, vvNew, pending) && b < |vvNew| && id in vvNew[b] && id in m
    ensures NewOk(m[id := m[id].(nRefCount := m[id].nRefCount - 1)], vvNew[b := vvNew[b] - {id}], pending)
  {
    var m1 := m[id := m[id].(nRefCount := m[id].nRefCount - 1)];
    var vv1 := vvNew[b := vvNew[b] - {id}];
    forall n
      ensures Held(vv1, SetBag)[n] == RefCount(m1, n) - Owed(n, pending)
    {
      HeldUpdate(vvNew, SetBag, b, vvNew[b] - {id}, n);
    }
  }

  lemma NewErase(m: map<int, Info>, vvNew: seq<set<int>>, id: int, pending: int)
    requires NewOk(m, vvNew, pending) && id in m && m[id].nRefCount == 0
    ensures NewOk(m - {id}, vvNew, pending)
  {
    assert forall n :: RefCount(m - {id}, n) == RefCount(m, n);
  }

  lemma CountsErase(m: map<int, Info>, id: int)
    requires id in m && !m[id].fInTried
    ensures TriedIds(m - {id}) == TriedIds(m) && NewIds(m - {id}) == NewIds(m) - {id} && id in NewIds(m)
  {
  }

  lemma NewMember(m: map<int, Info>, vvNew: seq<set<int>>, b: nat, id: int, pending: int)
    requires NewOk(m, vvNew, pending) && RefsOk(m) && b < |vvNew| && id in vvNew[b] && Owed(id, pending) == 0
    ensures id in m && !m[id].fInTried && 1 <= m[id].nRefCount <= NEW_BUCKETS_PER_ADDRESS
  {
    HeldHas(vvNew, SetBag, b, id);
    assert RefCount(m, id) >= 1;
  }

  /** Same entries up to the reference count of one. */
  lemma RecountKeeps(t: Tables, id: int, k: int, h: Hashes)
    requires id in t.mapInfo
    ensures var m1 := t.mapInfo[id := t.mapInfo[id].(nRefCount := k)];
      && (RandomOk(t.mapInfo, t.vRandom) ==> RandomOk(m1, t.vRandom))
      && (AddrOk(t.mapInfo, t.mapAddr) ==> AddrOk(m1, t.mapAddr))
      && (TriedOk(t.mapInfo, t.vvTried, h) ==> TriedOk(m1, t.vvTried, h))
      && TriedIds(m1) == TriedIds(t.mapInfo) && NewIds(m1) == NewIds(t.mapInfo)
      && (IdsOk(t.mapInfo, t.nIdCount) ==> IdsOk(m1, t.nIdCount))
  {
  }

  lemma ReleasedGood(t: Tables, b: nat, id: int, h: Hashes, pending: int)
    requires Good(t, h, pending) && b < |t.vvNew| && id in t.vvNew[b] && id != pending
    ensures Good(Released(t, b, id), h, pending)
  {
    hide Erased, RandomOk, AddrOk, TriedOk, NewOk, RefsOk, IdsOk, SameButPlaces, TriedIds, NewIds;
    NewMember(t.mapInfo, t.vvNew, b, id, pending);
    NewRelease(t.mapInfo, t.vvNew, b, id, pending);
    var k := t.mapInfo[id].nRefCount - 1;
    RecountKeeps(t, id, k, h);
    var m1 := t.mapInfo[id := t.mapInfo[id].(nRefCount := k)];
    var t1 := t.(mapInfo := m1);
    var vv1 := t.vvNew[b := t.vvNew[b] - {id}];
    if k == 0 {
      RandomErase(t1, id);
      AddrErase(m1, t.mapAddr, id);
      TriedErase(m1, t.vvTried, h, id);
      NewErase(m1, vv1, id, pending);
      CountsErase(m1, id);
      RefsErase(t.mapInfo, id, 0);
      IdsErase(m1, t.nIdCount, id);
      PlacesDoNotMatter(t1.(mapInfo := m1 - {id}, mapAddr := t.mapAddr - {Ip(m1[id])}, vvNew := vv1),
                        Erased(t1, id).mapInfo, h, pending);
    } else {
      RefsRecount(t.mapInfo, id, k);
    }
  }

  lemma RefsErase(m: map<int, Info>, id: int, k: int)
    requires RefsOk(m) && id in m
    ensures RefsOk(m[id := m[id].(nRefCount := k)] - {id})
  {
  }

  lemma RefsRecount(m: map<int, Info>, id: int, k: int)
    requires RefsOk(m) && id in m && !m[id].fInTried && 1 <= k <= NEW_BUCKETS_PER_ADDRESS
    ensures RefsOk(m[id := m[id].(nRefCount := k)])
  {
  }

  lemma IdsErase(m: map<int, Info>, nIdCount: int, id: int)
    requires IdsOk(m, nIdCount)
    ensures IdsOk(m - {id}, nIdCount)
  {
  }

  // ---- updating an entry where it stands -------------------------------------------------------

  /** The parts of an entry the tables depend on are the same. */
  predicate SameRole(i: Info, j: Info) {
    && i.addr.service == j.addr.service && i.nRefCount == j.nRefCount
    && i.fInTried == j.fInTried && i.nRandomPos == j.nRandomPos
  }

  function Touched(t: Tables, id: int, info: Info): Tables {
    t.(mapInfo := t.mapInfo[id := info])
  }

  lemma TouchedGood(t: Tables, id: int, info: Info, h: Hashes, pending: int)
    requires Good(t, h, pending) && id in t.mapInfo && SameRole(t.mapInfo[id], info)
    ensures Good(Touched(t, id, info), h, pending)
  {
    hide NewOk, TriedOk, TriedIds, NewIds;
    TouchedHeld(t, id, info, h, pending);
  }

  lemma TouchedHeld(t: Tables, id: int, info: Info, h: Hashes, pending: int)
    requires TriedOk(t.mapInfo, t.vvTried, h) && NewOk(t.mapInfo, t.vvNew, pending)
    requires id in t.mapInfo && SameRole(t.mapInfo[id], info)
    ensures var m1 := t.mapInfo[id := info];
      && TriedOk(m1, t.vvTried, h) && NewOk(m1, t.vvNew, pending)
      && TriedIds(m1) == TriedIds(t.mapInfo) && NewIds(m1) == NewIds(t.mapInfo)
  {
    TouchedTried(t.mapInfo, t.vvTried, id, info, h);
    TouchedNew(t.mapInfo, t.vvNew, id, info, pending);
    hide TriedOk, NewOk;
  }

  lemma TouchedTried(m: map<int, Info>, vvTried: seq<seq<int>>, id: int, info: Info, h: Hashes)
    requires TriedOk(m, vvTried, h) && id in m && SameRole(m[id], info)
    ensures TriedOk(m[id := info], vvTried, h)
  {
  }

  lemma TouchedNew(m: map<int, Info>, vvNew: seq<set<int>>, id: int, info: Info, pending: int)
    requires NewOk(m, vvNew, pending) && id in m && SameRole(m[id], info)
    ensures NewOk(m[id := info], vvNew, pending)
  {
    assert forall n :: RefCount(m[id := info], n) == RefCount(m, n);
  }

  // ---- adding an entry -------------------------------------------------------------------------

  /** Create: a fresh id, last in vRandom. */
  function Created(t: Tables, addr: Address, source: NetAddr): Tables {
    var id := t.nIdCount;
    t.(mapInfo := t.mapInfo[id := Info(addr, source, 0, 0, 0, 0, false, |t.vRandom|)],
       mapAddr := t.mapAddr[addr.service.ip := id], vRandom := t.vRandom + [id], nIdCount := id + 1)
  }

  /** One more reference, not yet in a bucket. */
  function Referenced(t: Tables, id: int): Tables {
    if id !in t.mapInfo then t
    else t.(mapInfo := t.mapInfo[id := t.mapInfo[id].(nRefCount := t.mapInfo[id].nRefCount + 1)])
  }

  function Inserted(t: Tables, b: nat, id: int): Tables
    requires b < |t.vvNew|
  {
    t.(vvNew := t.vvNew[b := t.vvNew[b] + {id}])
  }

  /** A new entry owed its first bucket. */
  function Introduced(t: Tables, addr: Address, source: NetAddr): Tables {
    Referenced(Created(t, addr, source).(nNew := t.nNew + 1), t.nIdCount)
  }

  lemma IntroducedGood(t: Tables, addr: Address, source: NetAddr, h: Hashes)
    requires Good(t, h, NONE) && addr.service.ip !in t.mapAddr
    ensures Good(Introduced(t, addr, source), h, t.nIdCount)
  {
    hide RandomOk, AddrOk, TriedOk, NewOk, RefsOk, TriedIds, NewIds, IdsOk, Introduced;
    var id := t.nIdCount;
    var info := Info(addr, source, 0, 0, 0, 1, false, |t.vRandom|);
    IntroducedMap(t, addr, source);
    FreshId(t.mapInfo, id);
    IntroducedNew(t.mapInfo, t.vvNew, id, info);
    IntroducedTried(t.mapInfo, t.vvTried, h, id, info);
    IntroducedRandom(t.mapInfo, t.vRandom, id, info);
    IntroducedAddr(t.mapInfo, t.mapAddr, id, info);
    IntroducedRefs(t.mapInfo, id, info);
  }

  lemma IntroducedMap(t: Tables, addr: Address, source: NetAddr)
    ensures var id := t.nIdCount;
      Introduced(t, addr, source)
      == t.(mapInfo := t.mapInfo[id := Info(addr, source, 0, 0, 0, 1, false, |t.vRandom|)],
            mapAddr := t.mapAddr[addr.service.ip := id], vRandom := t.vRandom + [id],
            nIdCount := id + 1, nNew := t.nNew + 1)
  {
  }

  lemma FreshId(m: map<int, Info>, nIdCount: int)
    requires IdsOk(m, nIdCount)
    ensures nIdCount !in m && nIdCount >= 0
  {
  }

  lemma IntroducedRandom(m: map<int, Info>, vRandom: seq<int>, id: int, info: Info)
    requires RandomOk(m, vRandom) && id !in m && info.nRandomPos == |vRandom|
    ensures RandomOk(m[id := info], vRandom + [id])
  {
  }

  lemma IntroducedAddr(m: map<int, Info>, mapAddr: map<NetAddr, int>, id: int, info: Info)
    requires AddrOk(m, mapAddr) && id !in m && Ip(info) !in mapAddr
    ensures AddrOk(m[id := info], mapAddr[Ip(info) := id])
  {
  }

  lemma IntroducedRefs(m: map<int, Info>, id: int, info: Info)
    requires RefsOk(m) && id !in m && !info.fInTried && info.nRefCount == 1
    ensures RefsOk(m[id := info])
    ensures IdsOk(m, id) ==> IdsOk(m[id := info], id + 1)
    ensures TriedIds(m[id := info]) == TriedIds(m) && NewIds(m[id := info]) == NewIds(m) + {id} && id !in NewIds(m)
  {
  }

  lemma IntroducedNew(m: map<int, Info>, vvNew: seq<set<int>>, id: int, info: Info)
    requires NewOk(m, vvNew, NONE) && id !in m && id >= 0 && info.nRefCount == 1
    ensures NewOk(m[id := info], vvNew, id)
  {
    assert forall n :: n != id ==> RefCount(m[id := info], n) == RefCount(m, n);
  }

  lemma IntroducedTried(m: map<int, Info>, vvTried: seq<seq<int>>, h: Hashes, id: int, info: Info)
    requires TriedOk(m, vvTried, h) && id !in m && !info.fInTried
    ensures TriedOk(m[id := info], vvTried, h)
  {
  }

  lemma ReferencedGood(t: Tables, id: int, h: Hashes)
    requires Good(t, h, NONE) && id in t.mapInfo && !t.mapInfo[id].fInTried
    requires t.mapInfo[id].nRefCount < NEW_BUCKETS_PER_ADDRESS
    ensures Good(Referenced(t, id), h, id)
  {
    hide RandomOk, AddrOk, TriedOk, NewOk, TriedIds, NewIds;
    assert id >= 0 && t.mapInfo[id].nRefCount >= 1;
    hide RefsOk, IdsOk;
    var k := t.mapInfo[id].nRefCount + 1;
    RecountKeeps(t, id, k, h);
    RefsRecount(t.mapInfo, id, k);
    ReferencedNew(t.mapInfo, t.vvNew, id);
  }

  lemma ReferencedNew(m: map<int, Info>, vvNew: seq<set<int>>, id: int)
    requires NewOk(m, vvNew, NONE) && id in m && id >= 0
    ensures NewOk(m[id := m[id].(nRefCount := m[id].nRefCount + 1)], vvNew, id)
  {
    var m1 := m[id := m[id].(nRefCount := m[id].nRefCount + 1)];
    assert forall n :: RefCount(m1, n) == RefCount(m, n) + if n == id then 1 else 0;
  }

  lemma InsertedGood(t: Tables, b: nat, id: int, h: Hashes)
    requires Good(t, h, id) && b < |t.vvNew| && id !in t.vvNew[b] && |t.vvNew[b]| < NEW_BUCKET_SIZE && id >= 0
    ensures Good(Inserted(t, b, id), h, NONE)
  {
    hide RandomOk, AddrOk, TriedOk, NewOk, RefsOk, IdsOk, TriedIds, NewIds;
    InsertedNew(t.mapInfo, t.vvNew, b, id);
  }

  /** One more membership pays the debt. */
  lemma InsertedNew(m: map<int, Info>, vvNew: seq<set<int>>, b: nat, id: int)
    requires NewOk(m, vvNew, id) && b < |vvNew| && id !in vvNew[b] && |vvNew[b]| < NEW_BUCKET_SIZE && id >= 0
    ensures NewOk(m, vvNew[b := vvNew[b] + {id}], NONE)
  {
    forall n
      ensures Held(vvNew[b := vvNew[b] + {id}], SetBag)[n] == RefCount(m, n)
    {
      HeldUpdate(vvNew, SetBag, b, vvNew[b] + {id}, n);
    }
  }

  // ---- from new to tried -----------------------------------------------------------------------

  /** `id` taken out of every new bucket. */
  function Untied(t: Tables, id: int): Tables {
    if id !in t.mapInfo then t
    else t.(mapInfo := t.mapInfo[id := t.mapInfo[id].(nRefCount := 0)], nNew := t.nNew - 1,
            vvNew := Emptied(t.vvNew, id))
  }

  /** Every bucket without `id`. */
  function Emptied(vvNew: seq<set<int>>, id: int): (r: seq<set<int>>)
    ensures |r| == |vvNew| && forall k :: 0 <= k < |vvNew| ==> r[k] == vvNew[k] - {id}
  {
    seq(|vvNew|, k requires 0 <= k < |vvNew| => vvNew[k] - {id})
  }

  /** There is room in tried bucket `kb`. */
  function Appended(t: Tables, id: int, kb: nat): Tables
    requires kb < |t.vvTried|
  {
    if id !in t.mapInfo then t
    else t.(mapInfo := t.mapInfo[id := t.mapInfo[id].(fInTried := true)],
            vvTried := t.vvTried[kb := t.vvTried[kb] + [id]], nTried := t.nTried + 1)
  }

  /** `id` takes the place of `bucket[pos]`, which moves to new bucket `ub`. */
  function Replaced(t: Tables, id: int, kb: nat, bucket: seq<int>, pos: nat, ub: nat): Tables
    requires kb < |t.vvTried| && pos < |bucket| && ub < |t.vvNew|
  {
    var was := bucket[pos];
    if id !in t.mapInfo || was !in t.mapInfo then t
    else t.(mapInfo := t.mapInfo[was := t.mapInfo[was].(fInTried := false, nRefCount := 1)]
                                [id := t.mapInfo[id].(fInTried := true)],
            vvTried := t.vvTried[kb := bucket[pos := id]],
            vvNew := t.vvNew[ub := t.vvNew[ub] + {was}], nNew := t.nNew + 1)
  }

  /** `t` is good but for `id`, which is neither tried nor in a new bucket. */
  ghost predicate Between(t: Tables, h: Hashes, id: int) {
    && RandomOk(t.mapInfo, t.vRandom) && AddrOk(t.mapInfo, t.mapAddr) && IdsOk(t.mapInfo, t.nIdCount)
    && TriedOk(t.mapInfo, t.vvTried, h) && NewOk(t.mapInfo, t.vvNew, NONE) && RefsOk(t.mapInfo - {id})
    && id in t.mapInfo && !t.mapInfo[id].fInTried && t.mapInfo[id].nRefCount == 0
    && t.nTried == |TriedIds(t.mapInfo)| && t.nNew == |NewIds(t.mapInfo)| - 1
  }

  lemma UntiedBetween(t: Tables, id: int, h: Hashes)
    requires Good(t, h, NONE) && id in t.mapInfo && !t.mapInfo[id].fInTried
    ensures Between(Untied(t, id), h, id)
  {
    hide RandomOk, AddrOk, TriedOk, IdsOk, TriedIds, NewIds, NewOk, RefsOk;
    RecountKeeps(t, id, 0, h);
    RefsErase(t.mapInfo, id, 0);
    UntiedNew(t.mapInfo, t.vvNew, id);
  }

  /** The bucket `id` came from has room afterwards. */
  lemma UntiedRoom(t: Tables, id: int, b: nat)
    requires NewOk(t.mapInfo, t.vvNew, NONE) && id in t.mapInfo && b < |t.vvNew| && id in t.vvNew[b]
    ensures |Untied(t, id).vvNew| == |t.vvNew| && |Untied(t, id).vvNew[b]| < NEW_BUCKET_SIZE
  {
    assert Untied(t, id).vvNew[b] == t.vvNew[b] - {id};
  }

  /** Taking `id` from every bucket changes nobody else's count. */
  lemma UntiedNew(m: map<int, Info>, vvNew: seq<set<int>>, id: int)
    requires NewOk(m, vvNew, NONE) && id in m
    ensures NewOk(m[id := m[id].(nRefCount := 0)], Emptied(vvNew, id), NONE)
  {
    var vv1 := Emptied(vvNew, id);
    var m1 := m[id := m[id].(nRefCount := 0)];
    forall n
      ensures Held(vv1, SetBag)[n] == RefCount(m1, n)
    {
      HeldWithout(vvNew, vv1, id, n);
      assert n != id ==> RefCount(m1, n) == RefCount(m, n);
    }
  }

  lemma {:induction false} HeldWithout(vv: seq<set<int>>, vv1: seq<set<int>>, id: int, n: int)
    requires |vv1| == |vv| && forall k :: 0 <= k < |vv| ==> vv1[k] == vv[k] - {id}
    ensures Held(vv1, SetBag)[n] == if n == id then 0 else Held(vv, SetBag)[n]
  {
    if vv != [] {
      HeldWithout(vv[..|vv| - 1], vv1[..|vv| - 1], id, n);
    }
  }

  lemma AppendedGood(t: Tables, id: int, kb: nat, h: Hashes)
    requires Between(t, h, id) && kb == h.TriedBucket(t.mapInfo[id].addr) && |t.vvTried[kb]| < TRIED_BUCKET_SIZE
    ensures Good(Appended(t, id, kb), h, NONE)
  {
    var m1 := t.mapInfo[id := t.mapInfo[id].(fInTried := true)];
    FlagKeeps(t, id, true, h);
    FlagSets(t.mapInfo, id, true);
    hide RandomOk, AddrOk, IdsOk, TriedIds, NewIds, NewOk;
    AppendedTried(t.mapInfo, t.vvTried, h, id, kb);
    RefsFlag(t.mapInfo, id);
    hide TriedOk, RefsOk;
  }

  /** What setting the flag leaves alone. */
  lemma FlagKeeps(t: Tables, id: int, flag: bool, h: Hashes)
    requires id in t.mapInfo
    requires RandomOk(t.mapInfo, t.vRandom) && AddrOk(t.mapInfo, t.mapAddr) && IdsOk(t.mapInfo, t.nIdCount)
    requires NewOk(t.mapInfo, t.vvNew, NONE)
    ensures var m1 := t.mapInfo[id := t.mapInfo[id].(fInTried := flag)];
      && RandomOk(m1, t.vRandom) && AddrOk(m1, t.mapAddr) && IdsOk(m1, t.nIdCount) && NewOk(m1, t.vvNew, NONE)
  {
    hide NewOk;
    FlagNew(t.mapInfo, t.vvNew, id, flag);
  }

  lemma FlagNew(m: map<int, Info>, vvNew: seq<set<int>>, id: int, flag: bool)
    requires NewOk(m, vvNew, NONE) && id in m
    ensures NewOk(m[id := m[id].(fInTried := flag)], vvNew, NONE)
  {
    assert forall n :: RefCount(m[id := m[id].(fInTried := flag)], n) == RefCount(m, n);
  }

  lemma FlagSets(m: map<int, Info>, id: int, flag: bool)
    requires id in m && m[id].fInTried == !flag
    ensures var m1 := m[id := m[id].(fInTried := flag)];
      if flag then
        TriedIds(m1) == TriedIds(m) + {id} && NewIds(m1) == NewIds(m) - {id} && id in NewIds(m) && id !in TriedIds(m)
      else TriedIds(m1) == TriedIds(m) - {id} && NewIds(m1) == NewIds(m) + {id} && id !in NewIds(m) && id in TriedIds(m)
  {
  }

  lemma RefsFlag(m: map<int, Info>, id: int)
    requires RefsOk(m - {id}) && id in m && m[id].nRefCount == 0
    ensures RefsOk(m[id := m[id].(fInTried := true)])
  {
    forall n | n in m && n != id
      ensures if m[n].fInTried then m[n].nRefCount == 0 else 1 <= m[n].nRefCount <= NEW_BUCKETS_PER_ADDRESS
    {
      assert n in m - {id};
    }
  }

  lemma AppendedTried(m: map<int, Info>, vvTried: seq<seq<int>>, h: Hashes, id: int, kb: nat)
    requires TriedOk(m, vvTried, h) && id in m && !m[id].fInTried
    requires kb == h.TriedBucket(m[id].addr) && |vvTried[kb]| < TRIED_BUCKET_SIZE
    ensures TriedOk(m[id := m[id].(fInTried := true)], vvTried[kb := vvTried[kb] + [id]], h)
  {
    var m1 := m[id := m[id].(fInTried := true)];
    var vv1 := vvTried[kb := vvTried[kb] + [id]];
    forall n
      ensures Held(vv1, ListBag)[n] == if n in m1 && m1[n].fInTried then 1 else 0
    {
      HeldUpdate(vvTried, ListBag, kb, vvTried[kb] + [id], n);
    }
    AppendedPlaces(m, vvTried, h, id, kb);
    hide Held, ListBag;
  }

  lemma AppendedPlaces(m: map<int, Info>, vvTried: seq<seq<int>>, h: Hashes, id: int, kb: nat)
    requires TriedOk(m, vvTried, h) && id in m && kb == h.TriedBucket(m[id].addr)
    ensures var m1 := m[id := m[id].(fInTried := true)];
      var vv1 := vvTried[kb := vvTried[kb] + [id]];
      forall b, i :: 0 <= b < |vv1| && 0 <= i < |vv1[b]| ==> vv1[b][i] in m1 && h.TriedBucket(m1[vv1[b][i]].addr) == b
  {
    var m1 := m[id := m[id].(fInTried := true)];
    var vv1 := vvTried[kb := vvTried[kb] + [id]];
    forall b, i | 0 <= b < |vv1| && 0 <= i < |vv1[b]|
      ensures vv1[b][i] in m1 && h.TriedBucket(m1[vv1[b][i]].addr) == b
    {
      if b == kb && i < |vvTried[kb]| { assert vv1[b][i] == vvTried[b][i]; }
    }
  }

  /** What moves back to new: `was`, tried until now. */
  lemma ReplacedGood(t: Tables, id: int, kb: nat, bucket: seq<int>, pos: nat, ub: nat, h: Hashes)
    requires Between(t, h, id) && kb == h.TriedBucket(t.mapInfo[id].addr)
    requires multiset(bucket) == multiset(t.vvTried[kb]) && pos < |bucket|
    requires ub < |t.vvNew| && |t.vvNew[ub]| < NEW_BUCKET_SIZE
    ensures Good(Replaced(t, id, kb, bucket, pos, ub), h, NONE)
  {
    var was := bucket[pos];
    hide RandomOk, AddrOk, IdsOk, TriedIds, NewIds, NewOk, RefsOk;
    BucketMember(t.mapInfo, t.vvTried, h, kb, was, bucket, pos);
    ReplacedTried(t.mapInfo, t.vvTried, h, id, kb, bucket, pos);
    hide TriedOk;
    RefsTriedAre0(t.mapInfo, id, was);
    ReplacedNew(t.mapInfo, t.vvNew, ub, id, was);
    ReplacedRest(t, id, was);
    ReplacedSets(t.mapInfo, id, was);
    RefsReplace(t.mapInfo, id, was);
  }

  lemma RefsTriedAre0(m: map<int, Info>, id: int, n: int)
    requires RefsOk(m - {id}) && n in m && n != id && m[n].fInTried
    ensures m[n].nRefCount == 0
  {
    assert n in m - {id};
  }

  lemma BucketMember(m: map<int, Info>, vvTried: seq<seq<int>>, h: Hashes, kb: nat, was: int, bucket: seq<int>,
      pos: nat)
    requires TriedOk(m, vvTried, h) && kb < |vvTried| && multiset(bucket) == multiset(vvTried[kb])
    requires pos < |bucket| && was == bucket[pos]
    ensures was in m && m[was].fInTried && h.TriedBucket(m[was].addr) == kb
    ensures |bucket| == |vvTried[kb]|
  {
    assert was in multiset(bucket);
    var i :| 0 <= i < |vvTried[kb]| && vvTried[kb][i] == was;
    InTried(m, vvTried, h, kb, i);
    assert |multiset(bucket)| == |bucket|;
  }

  /** The entries after the exchange. */
  function Exchange(m: map<int, Info>, id: int, was: int): map<int, Info>
    requires id in m && was in m
  {
    m[was := m[was].(fInTried := false, nRefCount := 1)][id := m[id].(fInTried := true)]
  }

  /** Flags and counts are nothing to the other tables. */
  lemma RoleKeeps(t: Tables, id: int, flag: bool, k: int)
    requires id in t.mapInfo
    requires RandomOk(t.mapInfo, t.vRandom) && AddrOk(t.mapInfo, t.mapAddr) && IdsOk(t.mapInfo, t.nIdCount)
    ensures var m1 := t.mapInfo[id := t.mapInfo[id].(fInTried := flag, nRefCount := k)];
      RandomOk(m1, t.vRandom) && AddrOk(m1, t.mapAddr) && IdsOk(m1, t.nIdCount)
  {
  }

  lemma ReplacedRest(t: Tables, id: int, was: int)
    requires id in t.mapInfo && was in t.mapInfo && id != was
    requires RandomOk(t.mapInfo, t.vRandom) && AddrOk(t.mapInfo, t.mapAddr) && IdsOk(t.mapInfo, t.nIdCount)
    ensures var m1 := Exchange(t.mapInfo, id, was);
      RandomOk(m1, t.vRandom) && AddrOk(m1, t.mapAddr) && IdsOk(m1, t.nIdCount)
  {
    hide RandomOk, AddrOk, IdsOk;
    RoleKeeps(t, was, false, 1);
    var t1 := t.(mapInfo := t.mapInfo[was := t.mapInfo[was].(fInTried := false, nRefCount := 1)]);
    RoleKeeps(t1, id, true, t.mapInfo[id].nRefCount);
    assert t1.mapInfo[id := t1.mapInfo[id].(fInTried := true,
      nRefCount := t.mapInfo[id].nRefCount)] == Exchange(t.mapInfo, id, was);
  }

  lemma ReplacedSets(m: map<int, Info>, id: int, was: int)
    requires id in m && was in m && id != was && !m[id].fInTried && m[was].fInTried
    ensures |TriedIds(Exchange(m, id, was))| == |TriedIds(m)| && |NewIds(Exchange(m, id, was))| == |NewIds(m)|
  {
    var m1 := Exchange(m, id, was);
    forall n
      ensures n in TriedIds(m1) <==> (n in TriedIds(m) && n != was) || n == id
      ensures n in NewIds(m1) <==> (n in NewIds(m) && n != id) || n == was
    {
    }
    assert was in TriedIds(m) && id !in TriedIds(m) && id in NewIds(m) && was !in NewIds(m);
    hide TriedIds, NewIds, Exchange;
    assert TriedIds(m1) == TriedIds(m) - {was} + {id};
    assert NewIds(m1) == NewIds(m) - {id} + {was};
  }

  lemma RefsReplace(m: map<int, Info>, id: int, was: int)
    requires RefsOk(m - {id}) && id in m && was in m && id != was && m[id].nRefCount == 0
    ensures RefsOk(Exchange(m, id, was))
  {
    forall n | n in m && n != id
      ensures if m[n].fInTried then m[n].nRefCount == 0 else 1 <= m[n].nRefCount <= NEW_BUCKETS_PER_ADDRESS
    {
      assert n in m - {id};
    }
  }

  lemma ReplacedNew(m: map<int, Info>, vvNew: seq<set<int>>, ub: nat, id: int, was: int)
    requires NewOk(m, vvNew, NONE) && ub < |vvNew| && |vvNew[ub]| < NEW_BUCKET_SIZE
    requires id in m && was in m && id != was && m[was].nRefCount == 0
    ensures NewOk(Exchange(m, id, was), vvNew[ub := vvNew[ub] + {was}], NONE)
  {
    var m1 := Exchange(m, id, was);
    HeldHas(vvNew, SetBag, ub, was);
    assert RefCount(m, was) == 0;
    assert was !in vvNew[ub];
    forall n
      ensures Held(vvNew[ub := vvNew[ub] + {was}], SetBag)[n] == RefCount(m1, n)
    {
      HeldUpdate(vvNew, SetBag, ub, vvNew[ub] + {was}, n);
      assert n != was ==> RefCount(m1, n) == RefCount(m, n);
    }
  }

  lemma ReplacedTried(m: map<int, Info>, vvTried: seq<seq<int>>, h: Hashes, id: int, kb: nat, bucket: seq<int>,
      pos: nat)
    requires TriedOk(m, vvTried, h) && id in m && !m[id].fInTried && kb == h.TriedBucket(m[id].addr)
    requires multiset(bucket) == multiset(vvTried[kb]) && |bucket| == |vvTried[kb]| && pos < |bucket|
    requires bucket[pos] in m
    requires bucket[pos] != id
    ensures TriedOk(Exchange(m, id, bucket[pos]), vvTried[kb := bucket[pos := id]], h)
  {
    var was := bucket[pos];
    var m1 := Exchange(m, id, was);
    var vv1 := vvTried[kb := bucket[pos := id]];
    forall n
      ensures Held(vv1, ListBag)[n] == if n in m1 && m1[n].fInTried then 1 else 0
    {
      HeldUpdate(vvTried, ListBag, kb, bucket[pos := id], n);
      UpdateBag(bucket, pos, id);
      HeldHas(vvTried, ListBag, kb, was);
    }
    ReplacedPlaces(m, vvTried, h, id, kb, bucket, pos);
    hide Held, ListBag;
  }

  lemma UpdateBag(s: seq<int>, pos: nat, id: int)
    requires pos < |s|
    ensures multiset(s[pos := id]) + multiset{s[pos]} == multiset(s) + multiset{id}
  {
    assert s == s[..pos] + [s[pos]] + s[pos + 1..];
    assert s[pos := id] == s[..pos] + [id] + s[pos + 1..];
  }

  lemma ReplacedPlaces(m: map<int, Info>, vvTried: seq<seq<int>>, h: Hashes, id: int, kb: nat, bucket: seq<int>,
      pos: nat)
    requires TriedOk(m, vvTried, h) && id in m && kb == h.TriedBucket(m[id].addr)
    requires multiset(bucket) == multiset(vvTried[kb]) && pos < |bucket| && bucket[pos] in m && bucket[pos] != id
    ensures var m1 := Exchange(m, id, bucket[pos]);
      var vv1 := vvTried[kb := bucket[pos := id]];
      forall b, i :: 0 <= b < |vv1| && 0 <= i < |vv1[b]| ==> vv1[b][i] in m1 && h.TriedBucket(m1[vv1[b][i]].addr) == b
  {
    var m1 := Exchange(m, id, bucket[pos]);
    var vv1 := vvTried[kb := bucket[pos := id]];
    forall b, i | 0 <= b < |vv1| && 0 <= i < |vv1[b]|
      ensures vv1[b][i] in m1 && h.TriedBucket(m1[vv1[b][i]].addr) == b
    {
      if b == kb && i != pos {
        BucketMember(m, vvTried, h, kb, bucket[i], bucket, i);
      } else if b != kb {
        assert vv1[b][i] == vvTried[b][i];
      }
    }
  }
}
