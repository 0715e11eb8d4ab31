/** An address manager that, saved with one number of new buckets and loaded with another, overfills a bucket: 65 new
    entries share one bucket of their own, and one of them has been evicted from it but lives on in another. */
module AddrOverfull {
  import opened AddrTables
  import opened AddrMan
  import opened AddrFile
  import opened AddrRebucket

  /** What adding an address to consistent tables leads to is consistent. */
  lemma AddedGood(t: Tables, r: Tables, h: Hashes, addr: Address, source: NetAddr, nTimePenalty: int, nNow: int,
                  placed: bool, evicted: int)
    requires Good(t, h, NONE) && Added(t, r, h, addr, source, nTimePenalty, nNow, placed, evicted)
    ensures Good(r, h, NONE)
  {
    hide Good, Filled;
    IdsNonNegative(t, h);
    if addr.service.ip in t.mapAddr {
      var id := t.mapAddr[addr.service.ip];
      var info := RefreshInfo(t.mapInfo[id], addr, nTimePenalty, nNow);
      TouchedGood(t, id, info, h, NONE);
      if placed {
        ReferencedGood(Touched(t, id, info), id, h);
        FilledGood(Referenced(Touched(t, id, info), id), h.NewBucket(info.addr, source), id, evicted, h);
      }
    } else {
      IntroducedGood(t, LateBy(addr, nTimePenalty), source, h);
      FilledGood(Introduced(t, LateBy(addr, nTimePenalty), source), h.NewBucket(addr, source), t.nIdCount, evicted, h);
    }
  }

  lemma FilledGood(owed: Tables, b: nat, id: int, evicted: int, h: Hashes)
    requires Good(owed, h, id) && b < |owed.vvNew| && id !in owed.vvNew[b] && id >= 0
    requires |owed.vvNew[b]| == NEW_BUCKET_SIZE ==> evicted in owed.vvNew[b]
    ensures Good(Filled(owed, b, id, evicted), h, NONE)
  {
    hide Good, Released;
    BucketAtMost(owed, h, id, b);
    if |owed.vvNew[b]| == NEW_BUCKET_SIZE {
      ReleasedGood(owed, b, evicted, h, id);
      AllKnown(owed, h, id, b);
      ReleasedBucket(owed, b, evicted);
      InsertedGood(Released(owed, b, evicted), b, id, h);
    } else {
      InsertedGood(owed, b, id, h);
    }
  }

  // ---- the calls ------------------------------------------------------------------------

  const EARLY := 10_000_000
  const LATE := EARLY + 31 * 86400

  /** New entries go to the bucket of their source's number. */
  function BySource(): Hashes {
    Hashes(_ => 0, (_, source) => source)
  }

  /** The first address was last seen a month before the others. */
  function AddressOf(n: nat): Address {
    Address(Service(n, 8333), 0, if n == 0 then EARLY else LATE)
  }

  function Entry(n: nat, nRefCount: nat): Info {
    Info(AddressOf(n), 0, 0, 0, 0, nRefCount, false, n)
  }

  function Entries(k: nat, refs: nat): map<int, Info> {
    if k == 0 then map[]
    else if k == 1 then map[0 := Entry(0, refs)]
    else Entries(k - 1, refs)[k - 1 := Entry(k - 1, 1)]
  }

  function Numbers(k: nat): map<NetAddr, int> {
    if k == 0 then map[] else Numbers(k - 1)[k - 1 := k - 1]
  }

  function Places(k: nat): (s: seq<int>)
    ensures |s| == k
  {
    if k == 0 then [] else Places(k - 1) + [k - 1]
  }

  function From(lo: nat, hi: nat): (s: set<int>)
    ensures forall n :: n in s <==> lo <= n < hi
    ensures |s| == if lo <= hi then hi - lo else 0
  {
    if hi <= lo then {} else From(lo, hi - 1) + {hi - 1}
  }

  function Buckets(zero: set<int>, one: set<int>): seq<set<int>> {
    NoSets(NEW_BUCKET_COUNT)[0 := zero][1 := one]
  }

  /** The first `k` addresses are entries of source 0, the first of them with `refs` references. */
  function Holding(k: nat, refs: nat, zero: set<int>, one: set<int>): Tables {
    Tables(Entries(k, refs), Numbers(k), Places(k), NoLists(TRIED_BUCKET_COUNT), 0, Buckets(zero, one), k, k)
  }

  /** The tables after `k` calls: nothing; one entry; then it has a second bucket; then the others come; the last finds
      bucket 0 full, where the first entry makes room for it. */
  function After(k: nat): Tables {
    if k <= 1 then Holding(k, 1, From(0, k), {})
    else Holding(k - 1, if k < ADDS then 2 else 1, From(if k < ADDS then 0 else 1, k - 1), {0})
  }

  const ADDS := 66

  /** The first address, the first address again a second later, then the 64 others. */
  function CallAddress(k: nat): Address {
    if k == 0 then AddressOf(0) else if k == 1 then AddressOf(0).(nTime := EARLY + 1) else AddressOf(k - 1)
  }

  /** One call: only the second report is from source 1. */
  ghost predicate Step(k: nat) {
    Added(After(k), After(k + 1), BySource(), CallAddress(k), if k == 1 then 1 else 0, 0, CallAddress(k).nTime, true, 0)
  }

  // ---- the states ------------------------------------------------------------------------

  lemma {:induction false} NumbersAt(k: nat)
    ensures forall a :: a in Numbers(k) ==> a < k
  {
    if k > 0 {
      NumbersAt(k - 1);
    }
  }

  lemma {:induction false} EntriesAt(k: nat, refs: nat, n: nat)
    requires n < k
    ensures n in Entries(k, refs) && Entries(k, refs)[n] == Entry(n, if n == 0 then refs else 1)
  {
    if n < k - 1 {
      EntriesAt(k - 1, refs, n);
    }
    hide Entry;
  }

  lemma {:induction false} EntriesKeys(k: nat, refs: nat)
    ensures Entries(k, refs).Keys == From(0, k)
  {
    hide Entry;
    if k > 1 {
      EntriesKeys(k - 1, refs);
    }
  }

  /** Updates of different keys commute. */
  lemma UpdatesCommute<K, V>(m: map<K, V>, i: K, x: V, j: K, y: V)
    requires i != j
    ensures m[i := x][j := y] == m[j := y][i := x]
  {
  }

  /** The first entry loses its second reference. */
  lemma {:induction false} OneReferenceLess(k: nat)
    requires k > 0
    ensures Entries(k, 2)[0 := Entry(0, 1)] == Entries(k, 1)
  {
    hide Entry;
    if k > 1 {
      OneReferenceLess(k - 1);
      UpdatesCommute(Entries(k - 1, 2), 0, Entry(0, 1), k - 1, Entry(k - 1, 1));
    }
  }

  lemma IntroducedHolding(n: nat, refs: nat, zero: set<int>, one: set<int>)
    requires n == 0 ==> refs == 1
    ensures Introduced(Holding(n, refs, zero, one), AddressOf(n), 0) == Holding(n + 1, refs, zero, one)
  {
    assert Entry(n, 0).(nRefCount := 1) == Entry(n, 1);
    var m := Entries(n, refs);
    assert m[n := Entry(n, 0)][n := Entry(n, 1)] == m[n := Entry(n, 1)];
    assert Entries(n + 1, refs) == m[n := Entry(n, 1)];
    hide Buckets, Entries, AddressOf;
  }

  lemma InsertedHolding(k: nat, refs: nat, zero: set<int>, one: set<int>, n: int)
    ensures |Buckets(zero, one)| == NEW_BUCKET_COUNT
    ensures Inserted(Holding(k, refs, zero, one), 0, n) == Holding(k, refs, zero + {n}, one)
  {
    BucketsSet(zero, one, 0, zero + {n});
    hide Buckets, Entries, Numbers, Places;
  }

  lemma BucketsSet(zero: set<int>, one: set<int>, b: nat, s: set<int>)
    requires b < 2
    ensures |Buckets(zero, one)| == NEW_BUCKET_COUNT && Buckets(zero, one)[0] == zero && Buckets(zero, one)[1] == one
    ensures Buckets(zero, one)[b := s] == if b == 0 then Buckets(s, one) else Buckets(zero, s)
  {
  }

  /** A report of a new address from source 0. */
  lemma FreshAdded(n: nat, refs: nat, zero: set<int>, one: set<int>, r: Tables, nNow: int)
    requires (n == 0 ==> refs == 1) && n !in zero && (|zero| == NEW_BUCKET_SIZE ==> 0 in zero)
    requires |Buckets(zero, one)| == NEW_BUCKET_COUNT && r == Filled(Holding(n + 1, refs, zero, one), 0, n, 0)
    ensures Added(Holding(n, refs, zero, one), r, BySource(), AddressOf(n), 0, 0, nNow, true, 0)
  {
    assert LateBy(AddressOf(n), 0) == AddressOf(n);
    IntroducedHolding(n, refs, zero, one);
    BucketsSet(zero, one, 0, zero);
    NumbersAt(n);
    assert AddressOf(n).service.ip == n && BySource().NewBucket(AddressOf(n), 0) == 0;
    hide Introduced, Buckets, From, Entries, Numbers, Places, Filled, BySource, Hashes.NewBucket, AddressOf;
  }

  lemma FreshStep(k: nat)
    requires k < 65 && k != 1
    ensures Step(k)
  {
    hide Buckets, From, Entries, Numbers, Places;
    var n := if k == 0 then 0 else k - 1;
    var refs, one: set<int> := if k == 0 then 1 else 2, if k == 0 then {} else {0};
    BucketsSet(From(0, n), one, 0, From(0, n));
    InsertedHolding(n + 1, refs, From(0, n), one, n);
    assert From(0, n) + {n} == From(0, n + 1);
    assert After(k) == Holding(n, refs, From(0, n), one) && After(k + 1) == Holding(n + 1, refs, From(0, n + 1), one);
    hide After;
    assert After(k + 1) == Filled(Holding(n + 1, refs, From(0, n), one), 0, n, 0);
    FreshAdded(n, refs, From(0, n), one, After(k + 1), CallAddress(k).nTime);
    hide Added, Holding;
  }

  lemma SecondStep()
    ensures Step(1)
  {
    var t := After(1);
    assert RefreshInfo(Entry(0, 1), CallAddress(1), 0, EARLY + 1) == Entry(0, 1);
    assert t.mapInfo == map[0 := Entry(0, 1)] && Entries(1, 2) == map[0 := Entry(0, 2)];
    BucketsSet(From(0, 1), {}, 1, {0});
    hide Buckets, From, Entries, Numbers, Places;
    assert Referenced(Touched(t, 0, Entry(0, 1)), 0) == Holding(1, 2, From(0, 1), {});
  }

  lemma ReleasedFirst(k: nat, zero: set<int>, one: set<int>)
    requires k > 0
    ensures |Buckets(zero, one)| == NEW_BUCKET_COUNT
    ensures Released(Holding(k, 2, zero, one), 0, 0) == Holding(k, 1, zero - {0}, one)
  {
    OneReferenceLess(k);
    EntriesAt(k, 2, 0);
    BucketsSet(zero, one, 0, zero - {0});
    assert Entry(0, 2).(nRefCount := 1) == Entry(0, 1);
    hide Buckets, Entries, Numbers, Places, Entry;
  }

  lemma FullFilled(t: Tables, less: Tables, b: nat, id: int, evicted: int)
    requires b < |t.vvNew| && |t.vvNew[b]| == NEW_BUCKET_SIZE && Released(t, b, evicted) == less && b < |less.vvNew|
    ensures Filled(t, b, id, evicted) == Inserted(less, b, id)
  {
    hide Released;
  }

  lemma LastFilled(n: nat)
    requires n == NEW_BUCKET_SIZE
    ensures |Buckets(From(0, n), {0})| == NEW_BUCKET_COUNT
    ensures Holding(n + 1, 1, From(1, n + 1), {0}) == Filled(Holding(n + 1, 2, From(0, n), {0}), 0, n, 0)
  {
    hide Buckets, From, Entries, Numbers, Places, Released, Filled, Inserted;
    var zero, one := From(0, n), {0};
    var t, less := Holding(n + 1, 2, zero, one), Holding(n + 1, 1, zero - {0}, one);
    ReleasedFirst(n + 1, zero, one);
    BucketsSet(zero, one, 0, zero);
    BucketsSet(zero - {0}, one, 0, zero);
    InsertedHolding(n + 1, 1, zero - {0}, one, n);
    assert zero - {0} + {n} == From(1, n + 1);
    FullFilled(t, less, 0, n, 0);
  }

  lemma LastStep(k: nat)
    requires k == NEW_BUCKET_SIZE + 1
    ensures Step(k)
    ensures IsTerrible(Entry(0, 2), LATE) && forall n :: 0 < n < k - 1 ==> !IsTerrible(Entry(n, 1), LATE)
  {
    hide From, Entries, Numbers, Places, Buckets, Added, Filled;
    var n := k - 1;
    LastFilled(n);
    assert CallAddress(k) == AddressOf(n) && After(k) == Holding(n, 2, From(0, n), {0});
    assert After(k + 1) == Holding(n + 1, 1, From(1, n + 1), {0});
    FreshAdded(n, 2, From(0, n), {0}, After(k + 1), LATE);
    hide After, Holding;
  }

  lemma AllSteps(k: nat)
    requires k < ADDS
    ensures Step(k)
  {
    hide Step;
    if k == 1 {
      SecondStep();
    } else if k < ADDS - 1 {
      FreshStep(k);
    } else {
      LastStep(k);
    }
  }

  const NOTHING := Tables(map[], map[], [], NoLists(TRIED_BUCKET_COUNT), 0, NoSets(NEW_BUCKET_COUNT), 0, 0)

  lemma NothingYet()
    ensures After(0) == NOTHING
  {
    assert Buckets({}, {}) == NoSets(NEW_BUCKET_COUNT) && From(0, 0) == {};
  }

  lemma NothingHeld(n: int)
    ensures Held(NOTHING.vvNew, SetBag)[n] == 0 && Held(NOTHING.vvTried, ListBag)[n] == 0
  {
    HeldNowhere(NOTHING.vvNew, SetBag, n);
    HeldNowhere(NOTHING.vvTried, ListBag, n);
  }

  lemma NothingGood()
    ensures Good(NOTHING, BySource(), NONE)
  {
    forall n ensures Held(NOTHING.vvNew, SetBag)[n] == 0 && Held(NOTHING.vvTried, ListBag)[n] == 0 {
      NothingHeld(n);
    }
    assert TriedIds(map[]) == {} == NewIds(map[]);
    hide Held, TriedIds, NewIds;
  }

  lemma {:induction false} AfterGood(k: nat)
    requires k <= ADDS
    ensures Good(After(k), BySource(), NONE)
  {
    hide Good, After, Added;
    if k == 0 {
      NothingYet();
      NothingGood();
    } else {
      AfterGood(k - 1);
      AllSteps(k - 1);
      var c := CallAddress(k - 1);
      AddedGood(After(k - 1), After(k), BySource(), c, if k == 2 then 1 else 0, 0, c.nTime, true, 0);
    }
  }

  // ---- the file ------------------------------------------------------------------------

  lemma {:induction false} PlacesAt(k: nat)
    ensures forall i :: 0 <= i < k ==> Places(k)[i] == i
    ensures forall n :: n in Places(k) <==> 0 <= n < k
  {
    if k > 0 {
      PlacesAt(k - 1);
    }
  }

  function Infos(k: nat): (s: seq<Saved>)
    ensures |s| == k && forall i :: 0 <= i < k ==> s[i] == Save(Entry(i, 1))
  {
    seq(k, i requires 0 <= i < k => Save(Entry(i, 1)))
  }

  /** The entries, and their buckets by index. */
  function SavedAs(k: nat): FileData
    requires k > 0
  {
    FileData(Infos(k), [], NoLists(NEW_BUCKET_COUNT)[0 := Places(k)[1..]][1 := [0]])
  }

  lemma SavedRight(k: nat, t: Tables)
    requires k > 0 && t == Holding(k, 1, From(1, k), {0})
    ensures Written(t, SavedAs(k), Places(k), [])
  {
    hide From, Buckets, Places, Entries, Entry, BucketWritten;
    PlacesAt(k);
    EntriesKeys(k, 1);
    forall n | 0 <= n < k
      ensures n in t.mapInfo && t.mapInfo[n] == Entry(n, 1)
    {
      EntriesAt(k, 1, n);
    }
    NoneTried(t.mapInfo, k);
    BucketsSet(From(1, k), {0}, 0, {});
    forall b | 0 <= b < NEW_BUCKET_COUNT
      ensures BucketWritten(t.vvNew[b], SavedAs(k).buckets[b], Places(k))
    {
      BucketRight(k, b);
    }
    hide SavedAs;
  }

  lemma BucketRight(k: nat, b: nat)
    requires k > 0 && b < NEW_BUCKET_COUNT
    ensures |Buckets(From(1, k), {0})| == NEW_BUCKET_COUNT == |SavedAs(k).buckets|
    ensures BucketWritten(Buckets(From(1, k), {0})[b], SavedAs(k).buckets[b], Places(k))
  {
    PlacesAt(k);
    BucketsSet(From(1, k), {0}, 0, {});
    hide From, Places;
    if b > 1 {
      BucketsRest(From(1, k), {0}, b);
    }
    hide Buckets;
  }

  lemma BucketsRest(zero: set<int>, one: set<int>, b: nat)
    requires 1 < b < NEW_BUCKET_COUNT
    ensures |Buckets(zero, one)| == NEW_BUCKET_COUNT && Buckets(zero, one)[b] == {}
  {
  }

  lemma NoneTried(m: map<int, Info>, k: nat)
    requires m.Keys == From(0, k) && forall n :: 0 <= n < k ==> m[n] == Entry(n, 1)
    ensures NewIds(m) == From(0, k) && TriedIds(m) == {}
  {
    hide From;
  }

  lemma AllTogether(k: nat)
    ensures Own(Infos(k), BySource(), k)[0] == From(0, k)
  {
    hide From;
    forall i | 0 <= i < k
      ensures OwnBucket(Infos(k)[i], BySource()) == 0
    {
    }
  }

  /** Main result: 66 calls of Add_ lead from no entries to tables that are consistent, and whose file, with one bucket
      list fewer, comes back with 65 entries in a bucket for 64. */
  lemma Overfills(k: nat) returns (f: FileData, g: FileData)
    requires k == NEW_BUCKET_SIZE + 1
    ensures After(0) == NOTHING && forall n :: 0 <= n < ADDS ==> Step(n)
    ensures Good(After(ADDS), BySource(), NONE) && Written(After(ADDS), f, Places(k), []) && Changed(f, g)
    ensures !Fitting(Own(g.newInfos, BySource(), |g.newInfos|))
    ensures !Good(LoadBuckets(g, BySource(), |g.buckets|), BySource(), NONE)
  {
    hide After, Holding, Good, Step, From, Places, Entries, Buckets, Written, Own, LoadBuckets, Infos;
    NothingYet();
    forall n | 0 <= n < ADDS
      ensures Step(n)
    {
      AllSteps(n);
    }
    AfterGood(ADDS);
    f := SavedAs(k);
    g := f.(buckets := f.buckets[..NEW_BUCKET_COUNT - 1]);
    LastIs(k);
    SavedRight(k, After(ADDS));
    PlacesAt(k);
    AllTogether(k);
    RebucketedIff(After(ADDS), f, g, Places(k), [], BySource());
    assert Own(g.newInfos, BySource(), k)[0] == From(0, k);
  }

  lemma LastIs(k: nat)
    requires k == ADDS - 1
    ensures After(ADDS) == Holding(k, 1, From(1, k), {0})
  {
    hide From, Holding;
  }
}
