/** What the calls of the address manager do to the standing of an entry: its times, its failures, its chance of being
    chosen and whether it may be thrown out (IsTerrible and GetChance in src/addrman.cpp). */
module AddrMeaning {
  import opened AddrTables
  import opened AddrMan
  import opened AddrSelect
  import opened AddrRuns

  const MINUTE := 60
  const DAY := 24 * 60 * MINUTE

  // ---- standing ------------------------------------------------------------------------

  /** Tried in the last minute. */
  predicate JustTried(i: Info, nNow: int) {
    i.nLastTry != 0 && nNow - i.nLastTry <= MINUTE
  }

  /** Seen in the last 30 days, and not further ahead than 10 minutes. */
  predicate SeenLately(i: Info, nNow: int) {
    i.addr.nTime != 0 && -10 * MINUTE <= nNow - i.addr.nTime <= 30 * DAY
  }

  /** Three failures without a success ever, or ten without one in a week. */
  predicate KeepsFailing(i: Info, nNow: int) {
    (i.nLastSuccess == 0 && i.nAttempts > 2) || (nNow - i.nLastSuccess > 7 * DAY && i.nAttempts > 9)
  }

  lemma TerribleIff(i: Info, nNow: int)
    ensures IsTerrible(i, nNow) <==> !JustTried(i, nNow) && (SeenLately(i, nNow) ==> KeepsFailing(i, nNow))
  {
  }

  lemma {:induction false} FadedIs(c: real, n: nat)
    ensures Faded(c, n) * Power(1.5, n) == c
  {
    if n > 0 {
      FadedIs(c, n - 1);
      var f, p := Faded(c, n - 1), Power(1.5, n - 1);
      assert Faded(c, n) == f / 1.5 && Power(1.5, n) == 1.5 * p;
      assert f / 1.5 * (1.5 * p) == f * p;
    }
  }

  /** The chance of an entry: 1 for one just seen, half that ten minutes later, and so on; a hundredth of it in the ten
      minutes after a try; two thirds of it for every failure. */
  lemma ChanceIs(e: Info, nNow: int)
    requires e.addr.nTime <= nNow && e.nLastTry <= nNow && e.nAttempts >= 0
    ensures Chance(e, nNow) * Power(1.5, e.nAttempts) * (600 + nNow - e.addr.nTime) as real
         == if nNow - e.nLastTry < 10 * MINUTE then 6.0 else 600.0
  {
    var age := (nNow - e.addr.nTime) as real;
    var part := if nNow - e.nLastTry < 600 then 0.01 else 1.0;
    var c := 600.0 / (600.0 + age) * part;
    FadedIs(c, e.nAttempts);
    assert Chance(e, nNow) == Faded(c, e.nAttempts);
    assert (600 + nNow - e.addr.nTime) as real == 600.0 + age;
    QuotientBack(600.0, 600.0 + age, part);
  }

  lemma QuotientBack(a: real, b: real, p: real)
    requires b > 0.0
    ensures a / b * p * b == a * p
  {
    assert a / b * b == a;
  }

  // ---- after Good_ ------------------------------------------------------------------------

  /** The same address, services and source. */
  predicate SameNode(i: Info, j: Info) {
    i.addr.service == j.addr.service && i.addr.nServices == j.addr.nServices && i.source == j.source
  }

  /** Main result: a service known exactly is, after Good_ at `nTime`, a tried entry with nothing held against it: it is
      not terrible for 30 days, and its chance is that of an entry just seen and just tried that never failed. Entries
      of other services keep their times and failures. */
  lemma GoodClears(t: Tables, r: Tables, h: Hashes, addr: Service, nTime: int, origin: nat, e: Eviction)
    requires Good(t, h, NONE) && MadeGood(t, r, h, addr, nTime, origin, e) && Knows(t, addr) && nTime > 0
    ensures r.mapAddr == t.mapAddr && r.mapInfo.Keys == t.mapInfo.Keys
    ensures var id := t.mapAddr[addr.ip];
      && r.mapInfo[id].addr.service == addr && SameNode(t.mapInfo[id], r.mapInfo[id]) && r.mapInfo[id].fInTried
      && r.mapInfo[id].nLastSuccess == r.mapInfo[id].nLastTry == r.mapInfo[id].addr.nTime == nTime
      && (forall nNow :: nTime <= nNow <= nTime + 30 * DAY ==> !IsTerrible(r.mapInfo[id], nNow))
      && (forall nNow :: nNow >= nTime ==>
            Chance(r.mapInfo[id], nNow) * (600 + nNow - nTime) as real
            == if nNow - nTime < 10 * MINUTE then 6.0 else 600.0)
    ensures forall n :: n in t.mapInfo && n != t.mapAddr[addr.ip] ==>
      r.mapInfo[n] == t.mapInfo[n].(fInTried := r.mapInfo[n].fInTried, nRefCount := r.mapInfo[n].nRefCount)
  {
    hide Good, MadeGood, IsTerrible, Chance;
    GoodMovesOneBack(t, r, h, addr, nTime, origin, e);
    assert t.mapAddr[addr.ip] in r.mapInfo;
    CleanSlate(r.mapInfo[t.mapAddr[addr.ip]], nTime);
  }

  lemma CleanSlate(i: Info, nTime: int)
    requires i.nLastSuccess == i.nLastTry == i.addr.nTime == nTime > 0 && i.nAttempts == 0
    ensures forall nNow :: nTime <= nNow <= nTime + 30 * DAY ==> !IsTerrible(i, nNow)
    ensures forall nNow :: nNow >= nTime ==>
      Chance(i, nNow) * (600 + nNow - nTime) as real == if nNow - nTime < 10 * MINUTE then 6.0 else 600.0
  {
    forall nNow | nTime <= nNow
      ensures nNow <= nTime + 30 * DAY ==> !IsTerrible(i, nNow)
      ensures Chance(i, nNow) * (600 + nNow - nTime) as real == if nNow - nTime < 10 * MINUTE then 6.0 else 600.0
    {
      TerribleIff(i, nNow);
      ChanceIs(i, nNow);
      assert Power(1.5, 0) == 1.0;
      hide IsTerrible, Chance, Power;
    }
  }

  // ---- after Attempt_ and Connected_ ------------------------------------------------------------------------

  /** An attempt counts as a failure until Good_ says otherwise: the chance falls by a third, and an entry that never
      succeeded is terrible a minute after its third. */
  lemma AttemptCounts(i: Info, nTime: int, nNow: int)
    requires 0 < nTime && nTime + 10 * MINUTE <= nNow && i.nLastTry <= nNow - 10 * MINUTE && i.nAttempts >= 0
    requires i.addr.nTime <= nNow
    ensures var j := AttemptInfo(i, nTime);
      && SameNode(i, j) && j.addr.nTime == i.addr.nTime && j.nLastSuccess == i.nLastSuccess && j.nLastTry == nTime
      && j.nAttempts == i.nAttempts + 1
      && 3.0 * Chance(j, nNow) == 2.0 * Chance(i, nNow)
      && (i.nLastSuccess == 0 && i.nAttempts >= 2 ==> IsTerrible(j, nNow))
  {
    var j := AttemptInfo(i, nTime);
    assert Chance(j, nNow) == Chance(i, nNow) / 1.5;
    TerribleIff(j, nNow);
    hide Chance;
  }

  /** For a minute after an attempt the entry is safe. */
  lemma AttemptShields(i: Info, nTime: int, nNow: int)
    requires nTime > 0 && nNow <= nTime + MINUTE
    ensures !IsTerrible(AttemptInfo(i, nTime), nNow)
  {
    TerribleIff(AttemptInfo(i, nTime), nNow);
  }

  /** A connection keeps the entry's time at most 20 minutes behind, and changes nothing else. */
  lemma ConnectedRefreshes(i: Info, nTime: int)
    ensures var j := ConnectedInfo(i, nTime);
      && j == i.(addr := i.addr.(nTime := j.addr.nTime))
      && j.addr.nTime >= i.addr.nTime && j.addr.nTime >= nTime - 20 * MINUTE
      && (j.addr.nTime != i.addr.nTime ==> j.addr.nTime == nTime > i.addr.nTime + 20 * MINUTE)
  {
  }

  // ---- after Add_ ------------------------------------------------------------------------

  /** A report no older than the day moves the time of a known entry when it is an hour behind it, an older one when a
      day; the penalty counts against the report both times. */
  predicate OutOfDate(i: Info, addr: Address, nTimePenalty: int, nNow: int) {
    && addr.nTime != 0
    && (i.addr.nTime == 0
        || i.addr.nTime + nTimePenalty + (if addr.nTime > nNow - DAY then 60 * MINUTE else DAY) < addr.nTime)
  }

  function NotBefore0(n: int): int {
    if n < 0 then 0 else n
  }

  /** What a report does to an entry that is known: its time is that of the report, less the penalty, if it was out of
      date, and services are added. Nothing else changes. */
  lemma ReportRefreshes(i: Info, addr: Address, nTimePenalty: int, nNow: int)
    ensures var j := RefreshInfo(i, addr, nTimePenalty, nNow);
      && j == i.(addr := Address(i.addr.service, j.addr.nServices, j.addr.nTime))
      && j.addr.nTime == (if OutOfDate(i, addr, nTimePenalty, nNow) then NotBefore0(addr.nTime - nTimePenalty)
                          else i.addr.nTime)
  {
  }

  /** Some service of the mask. */
  predicate Offers(nServices: bv64, mask: bv64) {
    nServices & mask != 0
  }

  /** The services are those of either: each bit is set that was set in one. */
  lemma ReportServices(i: Info, addr: Address, nTimePenalty: int, nNow: int, mask: bv64)
    ensures Offers(RefreshInfo(i, addr, nTimePenalty, nNow).addr.nServices, mask) <==>
            Offers(i.addr.nServices, mask) || Offers(addr.nServices, mask)
  {
    hide RefreshInfo, Offers;
    ServicesAdded(i, addr, nTimePenalty, nNow);
    EitherBit(i.addr.nServices, addr.nServices, mask);
  }

  lemma ServicesAdded(i: Info, addr: Address, nTimePenalty: int, nNow: int)
    ensures RefreshInfo(i, addr, nTimePenalty, nNow).addr.nServices == i.addr.nServices | addr.nServices
  {
  }

  lemma EitherBit(a: bv64, b: bv64, mask: bv64)
    ensures Offers(a | b, mask) <==> Offers(a, mask) || Offers(b, mask)
  {
    assert (a | b) & mask == (a & mask) | (b & mask);
  }

  /** Main result: what Add_ leaves of the address reported. A known one is the same entry, refreshed as above, and
      takes one bucket more only on news that is later than the entry, while it is not tried and has three buckets or
      fewer; a new one is dated back by the penalty, untried, with one bucket, and remembers its source. */
  lemma AddReports(t: Tables, r: Tables, h: Hashes, addr: Address, source: NetAddr, nTimePenalty: int, nNow: int,
                   placed: bool, evicted: int)
    requires Good(t, h, NONE) && Good(r, h, NONE) && Added(t, r, h, addr, source, nTimePenalty, nNow, placed, evicted)
    ensures addr.service.ip in r.mapAddr && r.mapAddr[addr.service.ip] in r.mapInfo
    ensures var j := r.mapInfo[r.mapAddr[addr.service.ip]];
      if addr.service.ip in t.mapAddr then
        && t.mapAddr[addr.service.ip] in t.mapInfo
        && var i := t.mapInfo[t.mapAddr[addr.service.ip]];
        && j.addr.service == i.addr.service && j.source == i.source && j.fInTried == i.fInTried
        && j.nAttempts == i.nAttempts && j.nLastTry == i.nLastTry && j.nLastSuccess == i.nLastSuccess
        && j.addr.nTime == (if OutOfDate(i, addr, nTimePenalty, nNow) then NotBefore0(addr.nTime - nTimePenalty)
                            else i.addr.nTime)
        && (placed ==> !i.fInTried && i.nRefCount <= 3 && addr.nTime != 0 &&
                       (j.addr.nTime == 0 || j.addr.nTime < addr.nTime))
      else
        && j.addr == Address(addr.service, addr.nServices, NotBefore0(addr.nTime - nTimePenalty))
        && j.source == source && j.nAttempts == 0 && j.nLastTry == 0 && j.nLastSuccess == 0 && !j.fInTried
  {
    AddLosesLittle(t, r, h, addr, source, nTimePenalty, nNow, placed, evicted);
    hide Good, KeptTried, Filled;
    var ip := addr.service.ip;
    if ip in t.mapAddr {
      ReportRefreshes(t.mapInfo[t.mapAddr[ip]], addr, nTimePenalty, nNow);
      hide RefreshInfo, OutOfDate;
    }
  }
}
