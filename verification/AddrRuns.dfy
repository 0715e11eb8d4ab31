/** What the calls of the address manager can lose, and what every run of them keeps. */
module AddrRuns {
  import opened AddrTables
  import opened AddrMan
  import opened AddrSelect

  /** The same entry, up to its place in vRandom and its number of references. */
  predicate SameEntry(i: Info, j: Info) {
    j == i.(nRefCount := j.nRefCount, nRandomPos := j.nRandomPos)
  }

  /** Entries other than `id` are old ones and the same, and nobody leaves the tried buckets. */
  ghost predicate KeptTried(m: map<int, Info>, r: map<int, Info>, id: int) {
    && (forall n :: n in r && n != id ==> n in m && SameEntry(m[n], r[n]))
    && (forall n :: n in m && m[n].fInTried ==> n in r && r[n].fInTried)
  }

  // ---- adding ------------------------------------------------------------------------------------

  lemma ReleasedKeeps(t: Tables, b: nat, id: int, h: Hashes, pending: int)
    requires Good(t, h, pending) && b < |t.vvNew| && id in t.vvNew[b] && id != pending
    ensures var r := Released(t, b, id);
      && (forall n :: n in r.mapInfo ==> n in t.mapInfo && SameEntry(t.mapInfo[n], r.mapInfo[n]))
      && (forall n :: n in t.mapInfo && n != id ==> n in r.mapInfo)
      && (id in t.mapInfo && !t.mapInfo[id].fInTried)
      && (id in r.mapInfo <==> t.mapInfo[id].nRefCount > 1)
      && r.vvTried == t.vvTried && r.nTried == t.nTried && |r.vvNew| == |t.vvNew|
  {
    NewMember(t.mapInfo, t.vvNew, b, id, pending);
    var k := t.mapInfo[id].nRefCount - 1;
    RecountKeeps(t, id, k, h);
    var t1 := t.(mapInfo := t.mapInfo[id := t.mapInfo[id].(nRefCount := k)]);
    if k == 0 {
      RandomErase(t1, id);
      ErasedEntries(t.mapInfo, t1.mapInfo, Erased(t1, id).mapInfo, id, k);
    }
    hide Erased, RandomOk, AddrOk, TriedOk, NewOk, RefsOk, IdsOk;
  }

  lemma ErasedEntries(m: map<int, Info>, m1: map<int, Info>, r: map<int, Info>, id: int, k: int)
    requires id in m && m1 == m[id := m[id].(nRefCount := k)] && SameButPlaces(m1 - {id}, r)
    ensures forall n :: n in r ==> n in m && n != id && SameEntry(m[n], r[n])
    ensures forall n :: n in m && n != id ==> n in r
  {
    forall n | n in r
      ensures n in m && n != id && SameEntry(m[n], r[n])
    {
      assert n in m1 - {id};
      assert r[n] == (m1 - {id})[n].(nRandomPos := r[n].nRandomPos);
    }
    forall n | n in m && n != id
      ensures n in r
    {
      assert n in m1 - {id};
    }
  }

  /** From `m` to `r`, only `evicted` may have gone, with its last reference; the others are the same. */
  ghost predicate Spares(m: map<int, Info>, r: map<int, Info>, evicted: int) {
    && (forall n :: n in r ==> n in m && SameEntry(m[n], r[n]))
    && (forall n :: n in m && n !in r ==> n == evicted && !m[n].fInTried && m[n].nRefCount == 1)
  }

  lemma FilledKeeps(t: Tables, b: nat, id: int, evicted: int, h: Hashes)
    requires Good(t, h, id) && b < |t.vvNew| && id in t.mapInfo && id !in t.vvNew[b]
    requires |t.vvNew[b]| == NEW_BUCKET_SIZE ==> evicted in t.vvNew[b]
    ensures var r := Filled(t, b, id, evicted);
      && Spares(t.mapInfo, r.mapInfo, evicted)
      && id in r.mapInfo && r.vvTried == t.vvTried && r.nTried == t.nTried
    ensures |t.vvNew[b]| == NEW_BUCKET_SIZE ==> evicted != id
  {
    if |t.vvNew[b]| == NEW_BUCKET_SIZE {
      ReleasedKeeps(t, b, evicted, h, id);
      NewMember(t.mapInfo, t.vvNew, b, evicted, id);
    }
    hide Released, Good;
  }

  /** Adding an address makes it known, leaves the tried buckets alone, and costs at most one other
      address: one that was not tried and had its last reference in the bucket that was full. */
  lemma AddLosesLittle(t: Tables, r: Tables, h: Hashes, addr: Address, source: NetAddr, nTimePenalty: int, nNow: int,
                       placed: bool, evicted: int)
    requires Good(t, h, NONE) && Good(r, h, NONE) && Added(t, r, h, addr, source, nTimePenalty, nNow, placed, evicted)
    ensures addr.service.ip in r.mapAddr && r.vvTried == t.vvTried && r.nTried == t.nTried
    ensures KeptTried(t.mapInfo, r.mapInfo, r.mapAddr[addr.service.ip])
    ensures forall n :: n in t.mapInfo && n !in r.mapInfo ==>
      n == evicted && !t.mapInfo[n].fInTried && t.mapInfo[n].nRefCount == 1
    ensures var id := r.mapAddr[addr.service.ip];
      && id in r.mapInfo
      && (if addr.service.ip in t.mapAddr
          then id in t.mapInfo && id == t.mapAddr[addr.service.ip] &&
               SameEntry(RefreshInfo(t.mapInfo[id], addr, nTimePenalty, nNow), r.mapInfo[id])
          else id == t.nIdCount && SameEntry(Info(LateBy(addr, nTimePenalty), source, 0, 0, 0, 1, false, 0),
            r.mapInfo[id]))
  {
    var ip := addr.service.ip;
    if ip in t.mapAddr {
      KnownAdd(t, r, h, addr, source, nTimePenalty, nNow, placed, evicted);
    } else {
      FreshAdd(t, r, h, addr, source, nTimePenalty, nNow, placed, evicted);
    }
  }

  lemma AddrIs(t: Tables, h: Hashes, id: int, ip: NetAddr)
    requires Good(t, h, NONE) && id in t.mapInfo && Ip(t.mapInfo[id]) == ip
    ensures ip in t.mapAddr && t.mapAddr[ip] == id
  {
  }

  lemma IpIs(t: Tables, h: Hashes, ip: NetAddr)
    requires Good(t, h, NONE) && ip in t.mapAddr
    ensures t.mapAddr[ip] in t.mapInfo && Ip(t.mapInfo[t.mapAddr[ip]]) == ip
  {
  }

  /** The entry of a known address was refreshed and gained a reference. */
  lemma KnownEntries(m: map<int, Info>, r: map<int, Info>, id: int, info: Info, evicted: int)
    requires id in m && info.fInTried == m[id].fInTried && id in r
    requires Spares(m[id := info], r, evicted)
    ensures KeptTried(m, r, id) && SameEntry(info, r[id])
    ensures forall n :: n in m && n !in r ==> n == evicted && !m[n].fInTried && m[n].nRefCount == 1
  {
    assert forall n :: n in m ==> n in m[id := info];
  }

  lemma FreshEntries(m: map<int, Info>, r: map<int, Info>, id: int, info: Info, evicted: int)
    requires id !in m && id in r && Spares(m[id := info], r, evicted)
    ensures KeptTried(m, r, id) && SameEntry(info, r[id])
    ensures forall n :: n in m && n !in r ==> n == evicted && !m[n].fInTried && m[n].nRefCount == 1
  {
    assert forall n :: n in m ==> n in m[id := info];
  }

  lemma KnownAdd(t: Tables, r: Tables, h: Hashes, addr: Address, source: NetAddr, nTimePenalty: int, nNow: int,
                 placed: bool, evicted: int)
    requires Good(t, h, NONE) && Good(r, h, NONE) && Added(t, r, h, addr, source, nTimePenalty, nNow, placed, evicted)
    requires addr.service.ip in t.mapAddr
    ensures var id := t.mapAddr[addr.service.ip];
      && r.vvTried == t.vvTried && r.nTried == t.nTried && id in r.mapInfo && id in t.mapInfo
      && addr.service.ip in r.mapAddr && r.mapAddr[addr.service.ip] == id
      && KeptTried(t.mapInfo, r.mapInfo, id)
      && SameEntry(RefreshInfo(t.mapInfo[id], addr, nTimePenalty, nNow), r.mapInfo[id])
    ensures forall n :: n in t.mapInfo && n !in r.mapInfo ==>
      n == evicted && !t.mapInfo[n].fInTried && t.mapInfo[n].nRefCount == 1
  {
    hide Good, Filled, Hashes.NewBucket, Spares, KeptTried, Referenced;
    var id := t.mapAddr[addr.service.ip];
    IpIs(t, h, addr.service.ip);
    var info := RefreshInfo(t.mapInfo[id], addr, nTimePenalty, nNow);
    if placed {
      KnownPlaced(t, r, h, id, info, h.NewBucket(info.addr, source), evicted);
    } else {
      SparesAll(t.mapInfo[id := info], evicted);
      KnownEntries(t.mapInfo, r.mapInfo, id, info, evicted);
    }
    AddrIs(r, h, id, addr.service.ip);
  }

  lemma SparesAll(m: map<int, Info>, evicted: int)
    ensures Spares(m, m, evicted)
  {
  }

  lemma KnownPlaced(t: Tables, r: Tables, h: Hashes, id: int, info: Info, b: nat, evicted: int)
    requires Good(t, h, NONE) && id in t.mapInfo && SameRole(t.mapInfo[id], info)
    requires !info.fInTried && info.nRefCount < NEW_BUCKETS_PER_ADDRESS
    requires PlacedIn(t.vvNew, Referenced(Touched(t, id, info), id), r, b, id, evicted)
    ensures r.vvTried == t.vvTried && r.nTried == t.nTried && id in r.mapInfo
    ensures KeptTried(t.mapInfo, r.mapInfo, id) && SameEntry(info, r.mapInfo[id])
    ensures forall n :: n in t.mapInfo && n !in r.mapInfo ==>
      n == evicted && !t.mapInfo[n].fInTried && t.mapInfo[n].nRefCount == 1
  {
    hide Good, Filled, Spares, KeptTried;
    IdsNonNegative(t, h);
    var t1 := Touched(t, id, info);
    TouchedGood(t, id, info, h, NONE);
    ReferencedGood(t1, id, h);
    FilledKeeps(Referenced(t1, id), b, id, evicted, h);
    var more := info.(nRefCount := info.nRefCount + 1);
    assert Referenced(t1, id).mapInfo == t.mapInfo[id := more];
    KnownEntries(t.mapInfo, r.mapInfo, id, more, evicted);
  }

  lemma FreshAdd(t: Tables, r: Tables, h: Hashes, addr: Address, source: NetAddr, nTimePenalty: int, nNow: int,
                 placed: bool, evicted: int)
    requires Good(t, h, NONE) && Good(r, h, NONE) && Added(t, r, h, addr, source, nTimePenalty, nNow, placed, evicted)
    requires addr.service.ip !in t.mapAddr
    ensures var id := t.nIdCount;
      && r.vvTried == t.vvTried && r.nTried == t.nTried && id in r.mapInfo && id !in t.mapInfo
      && addr.service.ip in r.mapAddr && r.mapAddr[addr.service.ip] == id
      && KeptTried(t.mapInfo, r.mapInfo, id)
      && SameEntry(Info(LateBy(addr, nTimePenalty), source, 0, 0, 0, 1, false, 0), r.mapInfo[id])
    ensures forall n :: n in t.mapInfo && n !in r.mapInfo ==>
      n == evicted && !t.mapInfo[n].fInTried && t.mapInfo[n].nRefCount == 1
  {
    var late := LateBy(addr, nTimePenalty);
    var id := t.nIdCount;
    assert id !in t.mapInfo;
    hide Good, Filled, Hashes.NewBucket, Spares, KeptTried, Introduced;
    IntroducedGood(t, late, source, h);
    IntroducedIs(t, late, source);
    FilledKeeps(Introduced(t, late, source), h.NewBucket(addr, source), id, evicted, h);
    FreshEntries(t.mapInfo, r.mapInfo, id, Info(late, source, 0, 0, 0, 1, false, |t.vRandom|), evicted);
    AddrIs(r, h, id, addr.service.ip);
  }

  lemma IntroducedIs(t: Tables, late: Address, source: NetAddr)
    ensures var r := Introduced(t, late, source);
      && r.mapInfo == t.mapInfo[t.nIdCount := Info(late, source, 0, 0, 0, 1, false, |t.vRandom|)]
      && r.vvTried == t.vvTried && r.nTried == t.nTried && r.vvNew == t.vvNew
  {
  }

  // ---- marking good --------------------------------------------------------------------------------

  /** Who went back to the new buckets, or `id` itself when nobody did. */
  function MovedBack(id: int, e: Eviction): int {
    if e.Eviction? && e.pos < |e.bucket| then e.bucket[e.pos] else id
  }

  /** A service known exactly becomes tried, with its new times. No entry is lost, nothing else changes, save
      for the one entry that makes room: it goes back to one new bucket. */
  lemma GoodMovesOneBack(t: Tables, r: Tables, h: Hashes, addr: Service, nTime: int, origin: nat, e: Eviction)
    requires Good(t, h, NONE) && MadeGood(t, r, h, addr, nTime, origin, e) && Knows(t, addr)
    ensures r.mapAddr == t.mapAddr && r.vRandom == t.vRandom && r.mapInfo.Keys == t.mapInfo.Keys
    ensures var id := t.mapAddr[addr.ip];
      r.mapInfo[id] == GoodInfo(t.mapInfo[id], nTime).(fInTried := true, nRefCount := 0)
    ensures var id := t.mapAddr[addr.ip];
      var was := if t.mapInfo[id].fInTried then id else MovedBack(id, e);
      && (forall n :: n in t.mapInfo && n != id && n != was ==> r.mapInfo[n] == t.mapInfo[n])
      && (was != id ==>
            was in t.mapInfo && t.mapInfo[was].fInTried && r.mapInfo[was] == t.mapInfo[was].(fInTried := false,
              nRefCount := 1))
  {
    var id := t.mapAddr[addr.ip];
    var info := GoodInfo(t.mapInfo[id], nTime);
    var touched := Touched(t, id, info);
    if !t.mapInfo[id].fInTried {
      MovedEntries(touched, r, h, id, origin, e);
    } else {
      TriedCountIs0(t.mapInfo, id);
    }
    hide Good, MadeTried;
  }

  lemma TriedCountIs0(m: map<int, Info>, id: int)
    requires RefsOk(m) && id in m && m[id].fInTried
    ensures m[id].nRefCount == 0
  {
  }

  lemma MovedEntries(t: Tables, r: Tables, h: Hashes, id: int, origin: nat, e: Eviction)
    requires MadeTried(t, r, h, id, origin, e) && !t.mapInfo[id].fInTried
    ensures r.mapAddr == t.mapAddr && r.vRandom == t.vRandom && r.mapInfo.Keys == t.mapInfo.Keys
    ensures r.mapInfo[id] == t.mapInfo[id].(fInTried := true, nRefCount := 0)
    ensures var was := MovedBack(id, e);
      && (forall n :: n in t.mapInfo && n != id && n != was ==> r.mapInfo[n] == t.mapInfo[n])
      && (was != id ==>
            was in t.mapInfo && t.mapInfo[was].fInTried && r.mapInfo[was] == t.mapInfo[was].(fInTried := false,
              nRefCount := 1))
  {
    UntiedKeeps(t, id);
    var u := Untied(t, id);
    if e.Eviction? {
      assert u.mapInfo[e.bucket[e.pos]].fInTried;
    }
  }

  // ---- the times -------------------------------------------------------------------------------------

  lemma AddKeepsTimes(t: Tables, r: Tables, h: Hashes, addr: Address, source: NetAddr, nTimePenalty: int, nNow: int,
                      placed: bool, evicted: int)
    requires Good(t, h, NONE) && Good(r, h, NONE) && Added(t, r, h, addr, source, nTimePenalty, nNow, placed, evicted)
    requires TimesOk(t.mapInfo)
    ensures TimesOk(r.mapInfo)
  {
    AddLosesLittle(t, r, h, addr, source, nTimePenalty, nNow, placed, evicted);
    hide Good, Added;
  }

  /** What Check_ asks of the times holds after Good_ for every time but 0 and below. */
  lemma GoodKeepsTimes(t: Tables, r: Tables, h: Hashes, addr: Service, nTime: int, origin: nat, e: Eviction)
    requires Good(t, h, NONE) && MadeGood(t, r, h, addr, nTime, origin, e) && TimesOk(t.mapInfo)
    ensures TimesOk(r.mapInfo) <==> !Knows(t, addr) || nTime > 0
  {
    if Knows(t, addr) {
      GoodMovesOneBack(t, r, h, addr, nTime, origin, e);
      hide Good, MadeGood;
      var id := t.mapAddr[addr.ip];
      assert id in r.mapInfo && r.mapInfo[id].fInTried && r.mapInfo[id].nLastSuccess == nTime;
    }
  }

  // ---- runs ----------------------------------------------------------------------------------------

  datatype Call =
    | DoAdd(addr: Address, source: NetAddr, nTimePenalty: int, nNow: int)
    | DoGood(service: Service, nTime: int)
    | DoAttempt(service: Service, nTime: int)
    | DoConnected(service: Service, nTime: int)
    | DoGetAddr
    | DoSelect(nUnkBias: int, coin: nat, tried: nat -> Draw, unseen: nat -> Draw, nNow: int)

  /** The clock the callers read is past the epoch; the bias is one that callers use, and the random numbers are in
      range and keep coming. */
  ghost predicate Timely(c: Call) {
    match c
    case DoGood(_, nTime) => nTime > 0
    case DoAttempt(_, nTime) => nTime >= 0
    case DoSelect(nUnkBias, coin, tried, unseen, _) =>
      0 <= nUnkBias < 100 && coin < RANGE && Random(tried, TRIED_BUCKET_COUNT) && Random(unseen, NEW_BUCKET_COUNT)
    case _ => true
  }

  lemma SameTimes(m: map<int, Info>, m1: map<int, Info>)
    requires SameButPlaces(m, m1) && TimesOk(m)
    ensures TimesOk(m1)
  {
    forall n | n in m1
      ensures m1[n].nLastTry >= 0 && m1[n].nLastSuccess >= 0 && (m1[n].fInTried ==> m1[n].nLastSuccess > 0)
    {
      assert n in m && m1[n] == m[n].(nRandomPos := m1[n].nRandomPos);
    }
  }

  /** Main result: after any calls in any order, starting empty, the tables are consistent, every
      bucket is within its size, and there are at most 64 * 64 tried and 256 * 64 new entries. */
  method Run(calls: seq<Call>, h: Hashes, routable: NetAddr -> bool, root: nat -> real) returns (am: CAddrMan)
    requires Rooted(root) && forall i :: 0 <= i < |calls| ==> Timely(calls[i])
    ensures am.h == h && Good(am.Now(), h, NONE) && TimesOk(am.mapInfo)
    ensures |am.vRandom| == |am.mapInfo| == am.nTried + am.nNew
    ensures am.nTried <= 4096 && am.nNew <= 16384
  {
    am := new CAddrMan(h, routable);
    hide Good, Added, MadeGood, SameButPlaces;
    for i := 0 to |calls|
      invariant am.h == h && Good(am.Now(), h, NONE) && TimesOk(am.mapInfo)
    {
      Step(am, calls[i], root);
    }
    AtMost(am.Now(), h);
  }

  method Step(am: CAddrMan, call: Call, root: nat -> real)
    requires Good(am.Now(), am.h, NONE) && TimesOk(am.mapInfo) && Timely(call) && Rooted(root)
    modifies am
    ensures Good(am.Now(), am.h, NONE) && TimesOk(am.mapInfo)
  {
    ghost var t := am.Now();
    hide Good, Added, MadeGood, SameButPlaces, TimesOk, Knows, Random, Rooted, Lucky;
    match call {
      case DoAdd(addr, source, nTimePenalty, nNow) =>
        var fNew, placed, evicted := am.Add_(addr, source, nTimePenalty, nNow);
        if am.routable(addr.service.ip) {
          AddKeepsTimes(t, am.Now(), am.h, addr, source, nTimePenalty, nNow, placed, evicted);
        }
      case DoGood(service, nTime) =>
        var origin, e := am.Good_(service, nTime);
        GoodKeepsTimes(t, am.Now(), am.h, service, nTime, origin, e);
      case DoAttempt(service, nTime) =>
        AttemptKeepsTimes(t, service, nTime);
        am.Attempt_(service, nTime);
      case DoConnected(service, nTime) =>
        ConnectedKeepsTimes(t, service, nTime);
        am.Connected_(service, nTime);
      case DoGetAddr =>
        var vAddr := am.GetAddr_();
        SameTimes(t.mapInfo, am.mapInfo);
      case DoSelect(nUnkBias, coin, tried, unseen, nNow) =>
        if am.mapInfo != map[] {
          RandomLucky(t, am.h, nUnkBias, coin, root, tried, unseen);
        }
        var addr := Select_(am, nUnkBias, coin, root, tried, unseen, nNow);
    }
  }

  lemma AttemptKeepsTimes(t: Tables, addr: Service, nTime: int)
    requires TimesOk(t.mapInfo) && nTime >= 0
    ensures Knows(t, addr) ==>
      var id := t.mapAddr[addr.ip];
      TimesOk(t.mapInfo[id := AttemptInfo(t.mapInfo[id], nTime)])
  {
  }

  lemma ConnectedKeepsTimes(t: Tables, addr: Service, nTime: int)
    requires TimesOk(t.mapInfo)
    ensures Knows(t, addr) ==>
      var id := t.mapAddr[addr.ip];
      TimesOk(t.mapInfo[id := ConnectedInfo(t.mapInfo[id], nTime)])
  {
  }
}
