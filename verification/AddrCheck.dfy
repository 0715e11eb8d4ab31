/** Check_: the consistency check the code runs on itself when DEBUG_ADDRMAN is defined, against the
    invariant the operations keep. */
module AddrCheck {
  import opened AddrTables
  import opened AddrMan

  /** mapAddr[info]: a missing key reads as 0. */
  function Lookup(mapAddr: map<NetAddr, int>, a: NetAddr): int {
    if a in mapAddr then mapAddr[a] else 0
  }

  predicate EntryChecked(t: Tables, n: int)
    requires n in t.mapInfo
  {
    var info := t.mapInfo[n];
    && (if info.fInTried then info.nLastSuccess != 0 && info.nRefCount == 0
        else 1 <= info.nRefCount <= NEW_BUCKETS_PER_ADDRESS)
    && Lookup(t.mapAddr, Ip(info)) == n
    && 0 <= info.nRandomPos < |t.vRandom| && t.vRandom[info.nRandomPos] == n
    && info.nLastTry >= 0 && info.nLastSuccess >= 0
  }

  function MemberOnce(s: set<int>, n: int): int {
    if n in s then 1 else 0
  }

  function CountOf(m: map<int, int>, n: int): int {
    if n in m then m[n] else 0
  }

  function NewCounts(m: map<int, Info>): map<int, int> {
    map n | n in m && !m[n].fInTried :: m[n].nRefCount
  }

  /** What it means for Check_ to find nothing wrong. */
  ghost predicate Checked(t: Tables) {
    && |t.vRandom| == t.nTried + t.nNew
    && (forall n :: n in t.mapInfo ==> EntryChecked(t, n))
    && |TriedIds(t.mapInfo)| == t.nTried && |NewCounts(t.mapInfo)| == t.nNew
    && (forall n :: Held(t.vvTried, ListBag)[n] == MemberOnce(TriedIds(t.mapInfo), n))
    && (forall n :: Held(t.vvNew, SetBag)[n] == CountOf(NewCounts(t.mapInfo), n))
  }

  /** The first loop: every entry, collecting the tried ids and the reference counts of the others. */
  method CheckEntries(t: Tables) returns (r: int, setTried: set<int>, mapNew: map<int, int>)
    ensures r == 0 <==> forall n :: n in t.mapInfo ==> EntryChecked(t, n)
    ensures r == 0 ==> setTried == TriedIds(t.mapInfo) && mapNew == NewCounts(t.mapInfo)
  {
    r, setTried, mapNew := 0, {}, map[];
    var rest := t.mapInfo.Keys;
    while rest != {}
      invariant rest <= t.mapInfo.Keys
      invariant forall n :: n in t.mapInfo && n !in rest ==> EntryChecked(t, n)
      invariant setTried == TriedIds(t.mapInfo - rest) && mapNew == NewCounts(t.mapInfo - rest)
    {
      var n := Least(rest);
      var info := t.mapInfo[n];
      if info.fInTried {
        if info.nLastSuccess == 0 { return -1, {}, map[]; }
        if info.nRefCount != 0 { return -2, {}, map[]; }
        setTried := setTried + {n};
      } else {
        if info.nRefCount < 0 || info.nRefCount > NEW_BUCKETS_PER_ADDRESS { return -3, {}, map[]; }
        if info.nRefCount == 0 { return -4, {}, map[]; }
        mapNew := mapNew[n := info.nRefCount];
      }
      if Lookup(t.mapAddr, Ip(info)) != n { return -5, {}, map[]; }
      if info.nRandomPos < 0 || info.nRandomPos >= |t.vRandom| || t.vRandom[info.nRandomPos] != n { return -14, {},
        map[]; }
      if info.nLastTry < 0 { return -6, {}, map[]; }
      if info.nLastSuccess < 0 { return -8, {}, map[]; }
      rest := rest - {n};
    }
    assert t.mapInfo - rest == t.mapInfo;
  }

  /** A prefix of the buckets holds no more than all of them. */
  lemma {:induction false} HeldPrefix<B>(vv: seq<B>, bag: B -> multiset<int>, k: nat, n: int)
    requires k <= |vv|
    ensures Held(vv[..k], bag)[n] <= Held(vv, bag)[n]
    decreases |vv|
  {
    if k < |vv| {
      HeldPrefix(vv[..|vv| - 1], bag, k, n);
      assert vv[..|vv| - 1][..k] == vv[..k];
    } else {
      assert vv[..k] == vv;
    }
  }

  lemma HeldNext<B>(vv: seq<B>, bag: B -> multiset<int>, k: nat, n: int)
    requires k < |vv|
    ensures Held(vv[..k + 1], bag)[n] == Held(vv[..k], bag)[n] + bag(vv[k])[n]
  {
    assert vv[..k + 1][..k] == vv[..k];
  }

  /** Striking one bucket of tried ids off the set. */
  method StrikeTried(vTried: seq<int>, setTried: set<int>) returns (ok: bool, left: set<int>)
    ensures ok <==> forall n :: multiset(vTried)[n] <= MemberOnce(setTried, n)
    ensures ok ==> forall n :: MemberOnce(left, n) == MemberOnce(setTried, n) - multiset(vTried)[n]
  {
    left := setTried;
    for i := 0 to |vTried|
      invariant forall n :: MemberOnce(left, n) == MemberOnce(setTried, n) - multiset(vTried[..i])[n]
    {
      assert vTried[..i + 1] == vTried[..i] + [vTried[i]];
      if vTried[i] !in left {
        PrefixBag(vTried, i + 1, vTried[i]);
        assert MemberOnce(left, vTried[i]) == 0;
        return false, left;
      }
      left := left - {vTried[i]};
    }
    assert vTried[..|vTried|] == vTried;
    ok := true;
  }

  lemma PrefixBag(s: seq<int>, k: nat, n: int)
    requires k <= |s|
    ensures multiset(s[..k])[n] <= multiset(s)[n]
  {
    assert s == s[..k] + s[k..];
  }

  method StrikeAllTried(vvTried: seq<seq<int>>, setTried: set<int>) returns (ok: bool, left: set<int>)
    ensures ok <==> forall n :: Held(vvTried, ListBag)[n] <= MemberOnce(setTried, n)
    ensures ok ==> forall n :: MemberOnce(left, n) == MemberOnce(setTried, n) - Held(vvTried, ListBag)[n]
  {
    left := setTried;
    for b := 0 to |vvTried|
      invariant forall n :: MemberOnce(left, n) == MemberOnce(setTried, n) - Held(vvTried[..b], ListBag)[n]
    {
      ghost var before := left;
      ok, left := StrikeTried(vvTried[b], left);
      if !ok {
        TooMany(vvTried, ListBag, b, n => MemberOnce(setTried, n), n => MemberOnce(before, n));
        return;
      }
      forall n
        ensures MemberOnce(left, n) == MemberOnce(setTried, n) - Held(vvTried[..b + 1], ListBag)[n]
      {
        HeldNext(vvTried, ListBag, b, n);
      }
    }
    assert vvTried[..|vvTried|] == vvTried;
    ok := true;
    forall n
      ensures Held(vvTried, ListBag)[n] <= MemberOnce(setTried, n)
    {
      assert MemberOnce(left, n) >= 0;
    }
  }

  /** A bucket with more than what is left means more than there was. */
  lemma TooMany<B>(vv: seq<B>, bag: B -> multiset<int>, b: nat, start: int -> int, left: int -> int)
    requires b < |vv| && forall n :: left(n) == start(n) - Held(vv[..b], bag)[n]
    requires exists n :: bag(vv[b])[n] > left(n)
    ensures exists n :: Held(vv, bag)[n] > start(n)
  {
    var n :| bag(vv[b])[n] > left(n);
    HeldNext(vv, bag, b, n);
    HeldPrefix(vv, bag, b + 1, n);
    assert Held(vv, bag)[n] > start(n);
  }

  /** Counting down one new bucket. */
  method StrikeNew(vNew: set<int>, mapNew: map<int, int>) returns (ok: bool, left: map<int, int>)
    requires forall n :: n in mapNew ==> mapNew[n] > 0
    ensures ok <==> forall n :: SetBag(vNew)[n] <= CountOf(mapNew, n)
    ensures ok ==> forall n :: n in left ==> left[n] > 0
    ensures ok ==> forall n :: CountOf(left, n) == CountOf(mapNew, n) - SetBag(vNew)[n]
  {
    left := mapNew;
    var rest := vNew;
    while rest != {}
      invariant rest <= vNew && forall n :: n in left ==> left[n] > 0
      invariant forall n :: CountOf(left, n) == CountOf(mapNew, n) - MemberOnce(vNew - rest, n)
    {
      var id := Least(rest);
      if id !in left {
        assert MemberOnce(vNew - rest, id) == 0;
        assert SetBag(vNew)[id] > CountOf(mapNew, id);
        return false, left;
      }
      left := left[id := left[id] - 1];
      if left[id] == 0 {
        left := left - {id};
      }
      rest := rest - {id};
    }
    assert vNew - rest == vNew;
    ok := true;
    forall n
      ensures SetBag(vNew)[n] <= CountOf(mapNew, n)
    {
      assert CountOf(left, n) >= 0;
    }
  }

  method StrikeAllNew(vvNew: seq<set<int>>, mapNew: map<int, int>) returns (ok: bool, left: map<int, int>)
    requires forall n :: n in mapNew ==> mapNew[n] > 0
    ensures ok <==> forall n :: Held(vvNew, SetBag)[n] <= CountOf(mapNew, n)
    ensures ok ==> forall n :: n in left ==> left[n] > 0
    ensures ok ==> forall n :: CountOf(left, n) == CountOf(mapNew, n) - Held(vvNew, SetBag)[n]
  {
    left := mapNew;
    for b := 0 to |vvNew|
      invariant forall n :: n in left ==> left[n] > 0
      invariant forall n :: CountOf(left, n) == CountOf(mapNew, n) - Held(vvNew[..b], SetBag)[n]
    {
      ghost var before := left;
      ok, left := StrikeNew(vvNew[b], left);
      if !ok {
        TooMany(vvNew, SetBag, b, n => CountOf(mapNew, n), n => CountOf(before, n));
        return;
      }
      forall n
        ensures CountOf(left, n) == CountOf(mapNew, n) - Held(vvNew[..b + 1], SetBag)[n]
      {
        HeldNext(vvNew, SetBag, b, n);
      }
    }
    assert vvNew[..|vvNew|] == vvNew;
    ok := true;
    forall n
      ensures Held(vvNew, SetBag)[n] <= CountOf(mapNew, n)
    {
      assert CountOf(left, n) >= 0;
    }
  }

  /** Check_ returns 0 exactly for the tables it means to accept. */
  method Check_(am: CAddrMan) returns (r: int)
    ensures r == 0 <==> Checked(am.Now())
  {
    ghost var t := am.Now();
    hide Held, TriedIds, NewCounts, EntryChecked;
    if |am.vRandom| != am.nTried + am.nNew { return -7; }
    var setTried: set<int>;
    var mapNew: map<int, int>;
    r, setTried, mapNew := CheckEntries(Tables(am.mapInfo, am.mapAddr, am.vRandom, am.vvTried, am.nTried,
                                               am.vvNew, am.nNew, am.nIdCount));
    if r != 0 { return; }
    if |setTried| != am.nTried { return -9; }
    if |mapNew| != am.nNew { return -10; }
    CountsPositive(t);
    var ok;
    ghost var tried, counts := setTried, mapNew;
    ok, setTried := StrikeAllTried(am.vvTried, setTried);
    if !ok { return -11; }
    ok, mapNew := StrikeAllNew(am.vvNew, mapNew);
    if !ok { return -12; }
    if |setTried| != 0 {
      LeftTried(setTried, tried, t.vvTried);
      return -13;
    }
    if |mapNew| != 0 {
      LeftNew(mapNew, counts, t.vvNew);
      return -15;
    }
    assert forall n :: MemberOnce(setTried, n) == 0;
    assert forall n :: CountOf(mapNew, n) == 0;
  }

  lemma CountsPositive(t: Tables)
    requires forall n :: n in t.mapInfo ==> EntryChecked(t, n)
    ensures forall n :: n in NewCounts(t.mapInfo) ==> NewCounts(t.mapInfo)[n] > 0
  {
    forall n | n in NewCounts(t.mapInfo)
      ensures NewCounts(t.mapInfo)[n] > 0
    {
      assert EntryChecked(t, n);
    }
  }

  lemma LeftTried(left: set<int>, tried: set<int>, vvTried: seq<seq<int>>)
    requires |left| != 0 && forall n :: MemberOnce(left, n) == MemberOnce(tried, n) - Held(vvTried, ListBag)[n]
    ensures exists n :: Held(vvTried, ListBag)[n] != MemberOnce(tried, n)
  {
    var n := SomeIn(left);
    assert MemberOnce(left, n) == 1;
  }

  lemma LeftNew(left: map<int, int>, counts: map<int, int>, vvNew: seq<set<int>>)
    requires |left| != 0 && forall n :: n in left ==> left[n] > 0
    requires forall n :: CountOf(left, n) == CountOf(counts, n) - Held(vvNew, SetBag)[n]
    ensures exists n :: Held(vvNew, SetBag)[n] != CountOf(counts, n)
  {
    var n := SomeIn(left.Keys);
    assert CountOf(left, n) > 0;
  }

  /** Whatever Check_ asks for, the operations keep. */
  lemma GoodIsChecked(t: Tables, h: Hashes)
    requires Good(t, h, NONE) && TimesOk(t.mapInfo)
    ensures Checked(t)
  {
    AtMost(t, h);
    assert NewCounts(t.mapInfo).Keys == NewIds(t.mapInfo);
    assert |NewCounts(t.mapInfo)| == |NewCounts(t.mapInfo).Keys|;
    forall n
      ensures Held(t.vvNew, SetBag)[n] == CountOf(NewCounts(t.mapInfo), n)
      ensures Held(t.vvTried, ListBag)[n] == MemberOnce(TriedIds(t.mapInfo), n)
    {
      assert n in t.mapInfo && t.mapInfo[n].fInTried ==> RefCount(t.mapInfo, n) == 0;
    }
    forall n | n in t.mapInfo
      ensures EntryChecked(t, n)
    {
    }
  }

  // ---- what Check_ leaves unchecked -------------------------------------------------------------------

  /** The parts of the invariant Check_ never looks at: stale keys of mapAddr, the bucket sizes, the bucket
      a tried address hashes to, and the range of the ids. */
  ghost predicate Unchecked(t: Tables, h: Hashes) {
    && AddrOk(t.mapInfo, t.mapAddr) && IdsOk(t.mapInfo, t.nIdCount)
    && |t.vvTried| == TRIED_BUCKET_COUNT && |t.vvNew| == NEW_BUCKET_COUNT
    && (forall b :: 0 <= b < |t.vvTried| ==> |t.vvTried[b]| <= TRIED_BUCKET_SIZE)
    && (forall b :: 0 <= b < |t.vvNew| ==> |t.vvNew[b]| <= NEW_BUCKET_SIZE)
    && (forall b, i :: 0 <= b < |t.vvTried| && 0 <= i < |t.vvTried[b]| ==>
          t.vvTried[b][i] in t.mapInfo && h.TriedBucket(t.mapInfo[t.vvTried[b][i]].addr) == b)
  }

  function Places(m: map<int, Info>): set<int> {
    set n | n in m :: m[n].nRandomPos
  }

  /** Entries that all know their own place have different places. */
  lemma {:induction false} PlacesSize(m: map<int, Info>, vRandom: seq<int>)
    requires forall n :: n in m ==> 0 <= m[n].nRandomPos < |vRandom| && vRandom[m[n].nRandomPos] == n
    ensures |Places(m)| == |m|
    decreases |m|
  {
    if m != map[] {
      var n := SomeIn(m.Keys);
      var rest := m - {n};
      PlacesSize(rest, vRandom);
      assert Places(m) == Places(rest) + {m[n].nRandomPos} by {
        forall p | p in Places(m)
          ensures p in Places(rest) + {m[n].nRandomPos}
        {
          var k :| k in m && m[k].nRandomPos == p;
          if k != n { assert k in rest; }
        }
      }
      assert m[n].nRandomPos !in Places(rest);
    }
  }

  /** The numbers below `k`. */
  function Range(k: nat): (r: set<int>)
    ensures |r| == k && forall p :: p in r <==> 0 <= p < k
  {
    if k == 0 then {} else Range(k - 1) + {k - 1}
  }

  /** Places counted and each entry at its own: vRandom lists every id once. */
  lemma EveryPlaceTaken(m: map<int, Info>, vRandom: seq<int>)
    requires |vRandom| == |m|
    requires forall n :: n in m ==> 0 <= m[n].nRandomPos < |vRandom| && vRandom[m[n].nRandomPos] == n
    ensures RandomOk(m, vRandom)
  {
    PlacesSize(m, vRandom);
    SubsetOfSize(Places(m), Range(|vRandom|));
    forall i | 0 <= i < |vRandom|
      ensures vRandom[i] in m && m[vRandom[i]].nRandomPos == i
    {
      assert i in Places(m);
    }
  }

  /** Main result: Check_ and what it leaves out together are the invariant. */
  lemma CheckedIsGood(t: Tables, h: Hashes)
    requires Unchecked(t, h)
    ensures Checked(t) <==> Good(t, h, NONE) && TimesOk(t.mapInfo)
  {
    if Good(t, h, NONE) && TimesOk(t.mapInfo) {
      GoodIsChecked(t, h);
    }
    if Checked(t) {
      CheckedEntries(t);
      CheckedSizes(t);
      EveryPlaceTaken(t.mapInfo, t.vRandom);
      CheckedHeld(t, h);
      hide RandomOk, AddrOk, TriedOk, NewOk, RefsOk, TimesOk, EntryChecked;
    }
  }

  /** A key in mapAddr that no entry has goes unnoticed: Check_ still accepts, and the invariant is lost. */
  lemma StaleKeyPasses(t: Tables, h: Hashes, a: NetAddr, n: int)
    requires Good(t, h, NONE) && TimesOk(t.mapInfo) && a !in t.mapAddr
    ensures var stale := t.(mapAddr := t.mapAddr[a := n]); Checked(stale) && !Good(stale, h, NONE)
  {
    GoodIsChecked(t, h);
    var stale := t.(mapAddr := t.mapAddr[a := n]);
    hide RandomOk, TriedOk, NewOk, RefsOk, IdsOk, CountsOk, Held;
    forall k | k in t.mapInfo
      ensures EntryChecked(stale, k)
    {
      assert EntryChecked(t, k) && Ip(t.mapInfo[k]) in t.mapAddr;
    }
    assert stale.mapAddr[a] == n && (n in t.mapInfo ==> Ip(t.mapInfo[n]) in t.mapAddr);
  }

  lemma CheckedEntries(t: Tables)
    requires forall n :: n in t.mapInfo ==> EntryChecked(t, n)
    ensures RefsOk(t.mapInfo) && TimesOk(t.mapInfo)
    ensures forall n :: n in t.mapInfo ==>
      0 <= t.mapInfo[n].nRandomPos < |t.vRandom| && t.vRandom[t.mapInfo[n].nRandomPos] == n
  {
    forall n | n in t.mapInfo
      ensures if t.mapInfo[n].fInTried then t.mapInfo[n].nRefCount == 0
              else 1 <= t.mapInfo[n].nRefCount <= NEW_BUCKETS_PER_ADDRESS
      ensures 0 <= t.mapInfo[n].nRandomPos < |t.vRandom| && t.vRandom[t.mapInfo[n].nRandomPos] == n
      ensures t.mapInfo[n].nLastTry >= 0 && t.mapInfo[n].nLastSuccess >= 0
      ensures t.mapInfo[n].fInTried ==> t.mapInfo[n].nLastSuccess > 0
    {
      assert EntryChecked(t, n);
    }
  }

  lemma CheckedSizes(t: Tables)
    requires |t.vRandom| == t.nTried + t.nNew
    requires |TriedIds(t.mapInfo)| == t.nTried && |NewCounts(t.mapInfo)| == t.nNew
    ensures |t.vRandom| == |t.mapInfo| && CountsOk(t)
  {
    assert NewCounts(t.mapInfo).Keys == NewIds(t.mapInfo);
    assert |NewCounts(t.mapInfo)| == |NewCounts(t.mapInfo).Keys|;
    assert TriedIds(t.mapInfo) + NewIds(t.mapInfo) == t.mapInfo.Keys;
    assert |t.mapInfo| == |t.mapInfo.Keys|;
  }

  lemma CheckedHeld(t: Tables, h: Hashes)
    requires Checked(t) && Unchecked(t, h) && RefsOk(t.mapInfo)
    ensures TriedOk(t.mapInfo, t.vvTried, h) && NewOk(t.mapInfo, t.vvNew, NONE)
  {
    forall n
      ensures Held(t.vvTried, ListBag)[n] == if n in t.mapInfo && t.mapInfo[n].fInTried then 1 else 0
      ensures Held(t.vvNew, SetBag)[n] == RefCount(t.mapInfo, n)
    {
      assert Held(t.vvTried, ListBag)[n] == MemberOnce(TriedIds(t.mapInfo), n);
      assert Held(t.vvNew, SetBag)[n] == CountOf(NewCounts(t.mapInfo), n);
    }
  }
}
