/** Choosing an address to connect to (Select_ and GetChance in src/addrman.cpp), in real arithmetic. The random numbers
    the loops draw are given as endless lists. */
module AddrSelect {
  import opened Basics
  import opened AddrTables
  import opened AddrMan

  /** 1 << 30 */
  const RANGE := 0x4000_0000

  // ---- the chance of an entry ------------------------------------------------------------------------------

  function Faded(c: real, attempts: int): real
    decreases attempts
  {
    if attempts <= 0 then c else Faded(c, attempts - 1) / 1.5
  }

  lemma {:induction false} FadedPositive(c: real, attempts: int)
    requires c > 0.0
    ensures Faded(c, attempts) > 0.0
    decreases attempts
  {
    if attempts > 0 {
      FadedPositive(c, attempts - 1);
    }
  }

  function Chance(e: Info, nNow: int): real {
    var seen, tried := Max(0, nNow - e.addr.nTime), Max(0, nNow - e.nLastTry);
    Faded(600.0 / (600.0 + seen as real) * if tried < 600 then 0.01 else 1.0, e.nAttempts)
  }

  lemma ChancePositive(e: Info, nNow: int)
    ensures Chance(e, nNow) > 0.0
  {
    var seen, tried := Max(0, nNow - e.addr.nTime), Max(0, nNow - e.nLastTry);
    var x := 600.0 / (600.0 + seen as real);
    QuotientPositive(600.0, 600.0 + seen as real);
    FadedPositive(x * if tried < 600 then 0.01 else 1.0, e.nAttempts);
  }

  lemma QuotientPositive(a: real, b: real)
    requires a > 0.0 && b > 0.0
    ensures a / b > 0.0
  {
  }

  method GetChance(e: Info, nNow: int) returns (fChance: real)
    ensures fChance == Chance(e, nNow)
  {
    var nSinceLastSeen := nNow - e.addr.nTime;
    var nSinceLastTry := nNow - e.nLastTry;
    if nSinceLastSeen < 0 {
      nSinceLastSeen := 0;
    }
    if nSinceLastTry < 0 {
      nSinceLastTry := 0;
    }
    fChance := 600.0 / (600.0 + nSinceLastSeen as real);
    if nSinceLastTry < 60 * 10 {
      fChance := fChance * 0.01;
    }
    ghost var c := fChance;
    var n := 0;
    while n < e.nAttempts
      invariant 0 <= n && (n <= e.nAttempts || n == 0) && fChance == Faded(c, n)
    {
      fChance := fChance / 1.5;
      n := n + 1;
    }
  }

  /** Some positive chance is below that of every entry. */
  lemma {:induction false} LeastChance(m: map<int, Info>, nNow: int) returns (c: real)
    ensures c > 0.0 && forall id :: id in m ==> c <= Chance(m[id], nNow)
    decreases |m|
  {
    hide Chance;
    c := 1.0;
    if m.Keys != {} {
      var id := SomeIn(m.Keys);
      assert |m.Keys| == |m| && |(m - {id}).Keys| == |m - {id}| && (m - {id}).Keys == m.Keys - {id};
      var most := LeastChance(m - {id}, nNow);
      ChancePositive(m[id], nNow);
      c := if most < Chance(m[id], nNow) then most else Chance(m[id], nNow);
      forall k | k in m
        ensures c <= Chance(m[k], nNow)
      {
        assert k != id ==> k in m - {id};
      }
    }
  }

  // ---- the factor that grows ---------------------------------------------------------------------------------

  function Power(x: real, n: nat): real {
    if n == 0 then 1.0 else x * Power(x, n - 1)
  }

  lemma FactorNext(k: nat)
    ensures Power(1.2, k + 1) == Power(1.2, k) * 1.2
  {
  }

  lemma FactorStart()
    ensures Power(1.2, 0) == 1.0
  {
  }

  lemma {:induction false} FactorGrows(k: nat)
    ensures Power(1.2, k) >= 1.0 + 0.2 * k as real
  {
    if k > 0 {
      FactorGrows(k - 1);
    }
  }

  /** After so many entries the next one is taken, whatever is drawn. */
  lemma Enough(c: real) returns (k: nat)
    requires c > 0.0
    ensures Power(1.2, k) * c >= 1.0
  {
    QuotientPositive(5.0, c);
    k := (5.0 / c).Floor + 1;
    FactorGrows(k);
    assert 0.2 * k as real >= 1.0 / c;
    Scaled(1.0 / c, Power(1.2, k), c);
  }

  lemma Scaled(a: real, b: real, c: real)
    requires a <= b && c > 0.0
    ensures a * c <= b * c
  {
  }

  /** The test each drawn entry has to pass. */
  predicate Taken(chance: nat, fChanceFactor: real, fChance: real) {
    chance as real < fChanceFactor * fChance * RANGE as real
  }

  lemma TakenAtLast(chance: nat, k: nat, last: nat, c: real, fChance: real)
    requires chance < RANGE && Power(1.2, last) * c >= 1.0 && c <= fChance
    ensures k == last ==> Taken(chance, Power(1.2, k), fChance)
  {
    FactorGrows(last);
    var factor := Power(1.2, last);
    Scaled(c, fChance, factor);
    assert factor * c == c * factor && factor * fChance == fChance * factor;
    Scaled(1.0, factor * fChance, RANGE as real);
  }

  // ---- the draws ---------------------------------------------------------------------------------------------

  /** A bucket, a place in it and a number below 1 << 30. */
  datatype Draw = Draw(bucket: nat, pos: nat, chance: nat)

  /** GetRandInt(n): any number below `n`. */
  function Below(pos: nat, n: nat): (r: nat)
    requires n > 0
    ensures r < n
  {
    pos % n
  }

  ghost predicate Comes(draws: nat -> Draw, n: nat, filled: set<nat>) {
    exists m: nat :: n <= m && draws(m).bucket in filled
  }

  /** Numbers in range, and some bucket with an entry comes up again and again. */
  ghost predicate Hits(draws: nat -> Draw, buckets: nat, filled: set<nat>) {
    && (forall n: nat :: draws(n).bucket < buckets && draws(n).chance < RANGE)
    && forall n: nat :: Comes(draws, n, filled)
  }

  lemma Next(draws: nat -> Draw, n: nat, buckets: nat, filled: set<nat>) returns (next: nat)
    requires Hits(draws, buckets, filled)
    ensures n <= next && draws(next).bucket in filled
  {
    assert Comes(draws, n, filled);
    next :| n <= next && draws(next).bucket in filled;
  }

  function FilledTried(vvTried: seq<seq<int>>): set<nat> {
    set b: nat | b < |vvTried| && vvTried[b] != []
  }

  function FilledNew(vvNew: seq<set<int>>): set<nat> {
    set b: nat | b < |vvNew| && vvNew[b] != {}
  }

  lemma EmptyTried(vvTried: seq<seq<int>>, b: nat)
    requires b < |vvTried|
    ensures b in FilledTried(vvTried) <==> vvTried[b] != []
  {
  }

  lemma EmptyNew(vvNew: seq<set<int>>, b: nat)
    requires b < |vvNew|
    ensures b in FilledNew(vvNew) <==> vvNew[b] != {}
  {
  }

  /** Numbers in range, and every bucket comes up again and again. */
  ghost predicate Random(draws: nat -> Draw, buckets: nat) {
    && (forall n: nat :: draws(n).bucket < buckets && draws(n).chance < RANGE)
    && forall n: nat, b: nat :: b < buckets ==> Comes(draws, n, {b})
  }

  lemma RandomHits(draws: nat -> Draw, buckets: nat, filled: set<nat>, b: nat)
    requires Random(draws, buckets) && b < buckets && b in filled
    ensures Hits(draws, buckets, filled)
  {
    forall n: nat
      ensures Comes(draws, n, filled)
    {
      assert Comes(draws, n, {b});
      var m: nat :| n <= m && draws(m).bucket in {b};
      assert draws(m).bucket in filled;
    }
  }

  lemma SomeTried(t: Tables, h: Hashes) returns (b: nat)
    requires Good(t, h, NONE) && t.nTried > 0
    ensures |t.vvTried| == TRIED_BUCKET_COUNT && b < TRIED_BUCKET_COUNT && t.vvTried[b] != []
  {
    var id := SomeIn(TriedIds(t.mapInfo));
    if forall b :: 0 <= b < |t.vvTried| ==> t.vvTried[b] == [] {
      HeldNowhere(t.vvTried, ListBag, id);
      assert false;
    }
    b :| 0 <= b < |t.vvTried| && t.vvTried[b] != [];
  }

  lemma SomeNew(t: Tables, h: Hashes) returns (b: nat)
    requires Good(t, h, NONE) && t.nNew > 0
    ensures |t.vvNew| == NEW_BUCKET_COUNT && b < NEW_BUCKET_COUNT && t.vvNew[b] != {}
  {
    var id := SomeIn(NewIds(t.mapInfo));
    SomeBucketHolds(t, h, id);
    b :| 0 <= b < |t.vvNew| && id in t.vvNew[b];
  }

  lemma InTried(t: Tables, h: Hashes, b: nat, i: nat)
    requires Good(t, h, NONE) && b < |t.vvTried| && i < |t.vvTried[b]|
    ensures t.vvTried[b][i] in t.mapInfo && t.mapInfo[t.vvTried[b][i]].fInTried
  {
    HeldHas(t.vvTried, ListBag, b, t.vvTried[b][i]);
  }

  lemma InNew(t: Tables, h: Hashes, b: nat, id: int)
    requires Good(t, h, NONE) && b < |t.vvNew| && id in t.vvNew[b]
    ensures id in t.mapInfo && !t.mapInfo[id].fInTried
  {
    HeldHas(t.vvNew, SetBag, b, id);
    assert SetBag(t.vvNew[b])[id] == 1;
  }

  // ---- which draw is taken -----------------------------------------------------------------------------------

  function Smaller(s: set<int>, id: int): set<int> {
    set x | x in s && x < id
  }

  /** The entry a draw stands for: the one in its place of its bucket, new buckets listing their ids in order. */
  ghost predicate Picks(t: Tables, fTried: bool, d: Draw, id: int) {
    if fTried then
      && d.bucket < |t.vvTried| && t.vvTried[d.bucket] != []
      && id == t.vvTried[d.bucket][d.pos % |t.vvTried[d.bucket]|]
    else
      && d.bucket < |t.vvNew| && id in t.vvNew[d.bucket]
      && |Smaller(t.vvNew[d.bucket], id)| == d.pos % |t.vvNew[d.bucket]|
  }

  ghost predicate Holds(t: Tables, fTried: bool, b: nat) {
    if fTried then b < |t.vvTried| && t.vvTried[b] != [] else b < |t.vvNew| && t.vvNew[b] != {}
  }

  /** How many of the first `n` draws came upon an entry. */
  ghost function Looked(t: Tables, fTried: bool, draws: nat -> Draw, n: nat): nat {
    if n == 0 then 0
    else Looked(t, fTried, draws, n - 1) + if Holds(t, fTried, draws(n - 1).bucket) then 1 else 0
  }

  /** Draw `n` stands for the entry and is below its chance, a fifth more of it for every entry passed over. */
  ghost predicate Takes(t: Tables, fTried: bool, draws: nat -> Draw, nNow: int, n: nat, id: int) {
    && Picks(t, fTried, draws(n), id) && id in t.mapInfo
    && draws(n).chance as real
       < Power(1.2, Looked(t, fTried, draws, n)) * Chance(t.mapInfo[id], nNow) * 1_073_741_824.0
  }

  /** The entry of the first draw that takes one. */
  ghost predicate Chosen(t: Tables, fTried: bool, draws: nat -> Draw, nNow: int, id: int) {
    exists n: nat :: Takes(t, fTried, draws, nNow, n, id) &&
                     forall m: nat, j :: m < n ==> !Takes(t, fTried, draws, nNow, m, j)
  }

  lemma LookedNone(t: Tables, fTried: bool, draws: nat -> Draw)
    ensures Looked(t, fTried, draws, 0) == 0
  {
  }

  lemma LookedNext(t: Tables, fTried: bool, draws: nat -> Draw, n: nat)
    ensures Looked(t, fTried, draws, n + 1)
         == Looked(t, fTried, draws, n) + if Holds(t, fTried, draws(n).bucket) then 1 else 0
  {
  }

  /** A draw from a bucket without entries takes nothing; of the others it is the one entry that counts. */
  lemma TakesIff(t: Tables, fTried: bool, draws: nat -> Draw, nNow: int, n: nat, id: int)
    requires Holds(t, fTried, draws(n).bucket) ==> Picks(t, fTried, draws(n), id) && id in t.mapInfo
    ensures !Holds(t, fTried, draws(n).bucket) ==> forall j :: !Takes(t, fTried, draws, nNow, n, j)
    ensures Holds(t, fTried, draws(n).bucket) ==> forall j :: Takes(t, fTried, draws, nNow, n, j) <==>
      j == id && Taken(draws(n).chance, Power(1.2, Looked(t, fTried, draws, n)), Chance(t.mapInfo[id], nNow))
  {
    hide Chance, Power, Looked;
    if Holds(t, fTried, draws(n).bucket) && !fTried {
      forall j | Picks(t, fTried, draws(n), j)
        ensures j == id
      {
        SameRank(t.vvNew[draws(n).bucket], j, id);
      }
    }
  }

  lemma SameRank(s: set<int>, i: int, j: int)
    requires i in s && j in s && |Smaller(s, i)| == |Smaller(s, j)|
    ensures i == j
  {
    var a, b := Smaller(s, i), Smaller(s, j);
    if i < j {
      SmallerSet(a, b, i);
    } else if j < i {
      SmallerSet(b, a, j);
    }
  }

  lemma SmallerSet(a: set<int>, b: set<int>, x: int)
    requires a <= b && x in b && x !in a
    ensures |a| < |b|
  {
    assert b == a + (b - a) && x in b - a;
  }

  // ---- the loops ---------------------------------------------------------------------------------------------

  /** Ends, with an entry of the tried table: a bucket that is not empty keeps coming up, and the growing factor makes
      up for any chance. */
  method UseTried(am: CAddrMan, draws: nat -> Draw, nNow: int) returns (id: int)
    requires Good(am.Now(), am.h, NONE) && Hits(draws, TRIED_BUCKET_COUNT, FilledTried(am.vvTried))
    ensures id in am.mapInfo && am.mapInfo[id].fInTried
    ensures Chosen(am.Now(), true, draws, nNow, id)
  {
    hide Good, Chance, Hits, Power, Taken, FilledTried, FilledNew, Takes, Looked;
    ghost var t := am.Now();
    var mapInfo, vvTried := am.mapInfo, am.vvTried;
    ghost var filled := FilledTried(vvTried);
    ghost var least := LeastChance(mapInfo, nNow);
    ghost var last := Enough(least);
    ghost var next := Next(draws, 0, TRIED_BUCKET_COUNT, filled);
    Sizes(t, am.h);
    var fChanceFactor := 1.0;
    FactorStart();
    LookedNone(t, true, draws);
    var n := 0;
    ghost var k := 0;
    while true
      invariant fChanceFactor == Power(1.2, k) && k <= last && 0 <= n <= next && draws(next).bucket in filled
      invariant k == Looked(t, true, draws, n) && forall m: nat, j :: m < n ==> !Takes(t, true, draws, nNow, m, j)
      decreases last - k, next - n
    {
      var d := draws(n);
      InRange(draws, n, TRIED_BUCKET_COUNT, filled);
      var vTried := vvTried[d.bucket];
      LookedNext(t, true, draws, n);
      n := n + 1;
      EmptyTried(vvTried, d.bucket);
      if vTried != [] {
        var nPos := Below(d.pos, |vTried|);
        id := vTried[nPos];
        InTried(t, am.h, d.bucket, nPos);
        var fChance := GetChance(mapInfo[id], nNow);
        TakenAtLast(d.chance, k, last, least, fChance);
        TakesIff(t, true, draws, nNow, n - 1, id);
        if Taken(d.chance, fChanceFactor, fChance) {
          assert Takes(t, true, draws, nNow, n - 1, id);
          return;
        }
        FactorNext(k);
        fChanceFactor := fChanceFactor * 1.2;
        k := k + 1;
        next := Next(draws, n, TRIED_BUCKET_COUNT, filled);
      } else {
        TakesIff(t, true, draws, nNow, n - 1, 0);
      }
    }
  }

  lemma Sizes(t: Tables, h: Hashes)
    requires Good(t, h, NONE)
    ensures |t.vvTried| == TRIED_BUCKET_COUNT && |t.vvNew| == NEW_BUCKET_COUNT
  {
  }

  lemma InRange(draws: nat -> Draw, n: nat, buckets: nat, filled: set<nat>)
    requires Hits(draws, buckets, filled)
    ensures draws(n).bucket < buckets && draws(n).chance < RANGE
  {
  }

  /** The element in a place of a set<int>, which lists it in order. */
  method At(s: set<int>, pos: nat) returns (id: int)
    requires pos < |s|
    ensures id in s && |Smaller(s, id)| == pos
  {
    var rest := s;
    id := Least(rest);
    var nPos := pos;
    while nPos > 0
      invariant rest <= s && 0 <= nPos < |rest| && |s - rest| == pos - nPos
      invariant id in rest && forall x :: x in rest ==> id <= x
      invariant forall x, y :: x in s && x !in rest && y in rest ==> x < y
      decreases nPos
    {
      nPos := nPos - 1;
      assert |rest - {id}| == |rest| - 1;
      assert s - (rest - {id}) == (s - rest) + {id};
      assert forall y :: y in rest - {id} ==> id < y;
      rest := rest - {id};
      id := Least(rest);
    }
    assert Smaller(s, id) == s - rest;
  }

  /** The same for the new table. */
  method UseNew(am: CAddrMan, draws: nat -> Draw, nNow: int) returns (id: int)
    requires Good(am.Now(), am.h, NONE) && Hits(draws, NEW_BUCKET_COUNT, FilledNew(am.vvNew))
    ensures id in am.mapInfo && !am.mapInfo[id].fInTried
    ensures Chosen(am.Now(), false, draws, nNow, id)
  {
    hide Good, Chance, Hits, Power, Taken, FilledTried, FilledNew, Takes, Looked;
    ghost var t := am.Now();
    var mapInfo, vvNew := am.mapInfo, am.vvNew;
    ghost var filled := FilledNew(vvNew);
    ghost var least := LeastChance(mapInfo, nNow);
    ghost var last := Enough(least);
    ghost var next := Next(draws, 0, NEW_BUCKET_COUNT, filled);
    Sizes(t, am.h);
    var fChanceFactor := 1.0;
    FactorStart();
    LookedNone(t, false, draws);
    var n := 0;
    ghost var k := 0;
    while true
      invariant fChanceFactor == Power(1.2, k) && k <= last && 0 <= n <= next && draws(next).bucket in filled
      invariant k == Looked(t, false, draws, n) && forall m: nat, j :: m < n ==> !Takes(t, false, draws, nNow, m, j)
      decreases last - k, next - n
    {
      var d := draws(n);
      InRange(draws, n, NEW_BUCKET_COUNT, filled);
      var vNew := vvNew[d.bucket];
      LookedNext(t, false, draws, n);
      n := n + 1;
      EmptyNew(vvNew, d.bucket);
      if vNew != {} {
        id := At(vNew, Below(d.pos, |vNew|));
        InNew(t, am.h, d.bucket, id);
        var fChance := GetChance(mapInfo[id], nNow);
        TakenAtLast(d.chance, k, last, least, fChance);
        TakesIff(t, false, draws, nNow, n - 1, id);
        if Taken(d.chance, fChanceFactor, fChance) {
          assert Takes(t, false, draws, nNow, n - 1, id);
          return;
        }
        FactorNext(k);
        fChanceFactor := fChanceFactor * 1.2;
        k := k + 1;
        next := Next(draws, n, NEW_BUCKET_COUNT, filled);
      } else {
        TakesIff(t, false, draws, nNow, n - 1, 0);
      }
    }
  }

  // ---- the choice of a table -----------------------------------------------------------------------------------

  /** A square root, as far as the choice depends on it. */
  ghost predicate Rooted(root: nat -> real) {
    root(0) == 0.0 && forall n: nat :: n > 0 ==> root(n) > 0.0
  }

  predicate PicksTried(nTried: nat, nNew: nat, nUnkBias: int, coin: nat, root: nat -> real) {
    var nCorTried := root(nTried) * (100 - nUnkBias) as real;
    var nCorNew := root(nNew) * nUnkBias as real;
    (nCorTried + nCorNew) * coin as real / RANGE as real < nCorTried
  }

  lemma PicksTriedIff(nTried: nat, nNew: nat, nUnkBias: int, coin: nat, root: nat -> real)
    ensures PicksTried(nTried, nNew, nUnkBias, coin, root) <==>
      coin as real * (root(nTried) * (100 - nUnkBias) as real + root(nNew) * nUnkBias as real)
      < 1_073_741_824.0 * (root(nTried) * (100 - nUnkBias) as real)
  {
    var a, b := root(nTried) * (100 - nUnkBias) as real, root(nNew) * nUnkBias as real;
    Cross((a + b) * coin as real, a);
  }

  lemma Cross(x: real, a: real)
    ensures x / RANGE as real < a <==> x < 1_073_741_824.0 * a
  {
  }

  predicate PicksFilled(nTried: nat, nNew: nat, nUnkBias: int, coin: nat, root: nat -> real) {
    if PicksTried(nTried, nNew, nUnkBias, coin, root) then nTried > 0 else nNew > 0
  }

  lemma PartBelow(a: real, coin: nat)
    requires a > 0.0 && coin < RANGE
    ensures a * coin as real / RANGE as real < a
  {
    Scaled(coin as real, RANGE as real - 1.0, a);
  }

  /** The table picked has an entry, whatever is drawn, exactly when the bias leaves tried entries a chance or there are
      new ones; with neither, Select_ would look for ever in the empty new table. */
  lemma PicksFilledIff(nTried: nat, nNew: nat, nUnkBias: int, root: nat -> real)
    requires Rooted(root) && 0 <= nUnkBias <= 100 && nTried + nNew > 0
    ensures (forall coin: nat :: coin < RANGE ==> PicksFilled(nTried, nNew, nUnkBias, coin, root))
            <==> nUnkBias < 100 || nNew > 0
  {
    var bias := (100 - nUnkBias) as real;
    if nUnkBias == 100 && nNew == 0 {
      assert !PicksFilled(nTried, nNew, nUnkBias, 0, root);
    }
    if nTried == 0 {
      assert root(0) * bias == 0.0;
    }
    if nUnkBias < 100 && nTried > 0 && nNew == 0 {
      assert root(nTried) * bias > 0.0 && root(0) * nUnkBias as real == 0.0;
      forall coin: nat | coin < RANGE
        ensures PicksFilled(nTried, nNew, nUnkBias, coin, root)
      {
        PartBelow(root(nTried) * bias, coin);
      }
    }
    if nTried == 0 {
      forall coin: nat | coin < RANGE
        ensures PicksFilled(nTried, nNew, nUnkBias, coin, root)
      {
        NotBelowZero(root(nNew) * nUnkBias as real, coin);
      }
    }
  }

  lemma NotBelowZero(a: real, coin: nat)
    requires a >= 0.0
    ensures a * coin as real / RANGE as real >= 0.0
  {
  }

  /** The random numbers let Select_ find something: some bucket of the table it picks has an entry and keeps coming
      up. */
  ghost predicate Lucky(t: Tables, nUnkBias: int, coin: nat, root: nat -> real, tried: nat -> Draw, unseen: nat -> Draw)
  {
    if t.nTried >= 0 && t.nNew >= 0 && PicksTried(t.nTried, t.nNew, nUnkBias, coin, root)
    then Hits(tried, TRIED_BUCKET_COUNT, FilledTried(t.vvTried))
    else Hits(unseen, NEW_BUCKET_COUNT, FilledNew(t.vvNew))
  }

  /** With every bucket coming up again and again they do, if the table picked is sure to have an entry. */
  lemma RandomLucky(t: Tables, h: Hashes, nUnkBias: int, coin: nat, root: nat -> real, tried: nat -> Draw,
                    unseen: nat -> Draw)
    requires Good(t, h, NONE) && t.mapInfo != map[] && Rooted(root) && coin < RANGE
    requires 0 <= nUnkBias <= 100 && (nUnkBias < 100 || t.nNew > 0)
    requires Random(tried, TRIED_BUCKET_COUNT) && Random(unseen, NEW_BUCKET_COUNT)
    ensures Lucky(t, nUnkBias, coin, root, tried, unseen)
  {
    AtMost(t, h);
    Counted(t, h);
    PicksFilledIff(t.nTried, t.nNew, nUnkBias, root);
    assert PicksFilled(t.nTried, t.nNew, nUnkBias, coin, root);
    hide Good, Random, PicksTried, Hits;
    if PicksTried(t.nTried, t.nNew, nUnkBias, coin, root) {
      var b := SomeTried(t, h);
      RandomHits(tried, TRIED_BUCKET_COUNT, FilledTried(t.vvTried), b);
    } else {
      var b := SomeNew(t, h);
      RandomHits(unseen, NEW_BUCKET_COUNT, FilledNew(t.vvNew), b);
    }
  }

  /** Main result: Select_ ends, and returns a known address, of the table it picked, unless there is none. It changes
      nothing. */
  method Select_(am: CAddrMan, nUnkBias: int, coin: nat, root: nat -> real, tried: nat -> Draw, unseen: nat -> Draw,
                 nNow: int) returns (addr: Option<Address>)
    requires Good(am.Now(), am.h, NONE)
    requires am.mapInfo == map[] || Lucky(am.Now(), nUnkBias, coin, root, tried, unseen)
    ensures addr == None <==> am.mapInfo == map[]
    ensures addr.Some? ==> am.nTried >= 0 && am.nNew >= 0
    ensures addr.Some? ==>
      var nCorTried, nCorNew := root(am.nTried) * (100 - nUnkBias) as real, root(am.nNew) * nUnkBias as real;
      var fTried := coin as real * (nCorTried + nCorNew) < 1_073_741_824.0 * nCorTried;
      exists id ::
        && id in am.mapInfo && am.mapInfo[id].addr == addr.value && am.mapInfo[id].fInTried == fTried
        && Chosen(am.Now(), fTried, if fTried then tried else unseen, nNow, id)
  {
    hide Good, Hits, PicksTried, Chosen;
    AtMost(am.Now(), am.h);
    Counted(am.Now(), am.h);
    PicksTriedIff(am.nTried, am.nNew, nUnkBias, coin, root);
    if |am.vRandom| == 0 {
      return None;
    }
    var id: int;
    if PicksTried(am.nTried, am.nNew, nUnkBias, coin, root) {
      id := UseTried(am, tried, nNow);
    } else {
      id := UseNew(am, unseen, nNow);
    }
    return Some(am.mapInfo[id].addr);
  }

  lemma Counted(t: Tables, h: Hashes)
    requires Good(t, h, NONE)
    ensures t.nTried >= 0 && t.nNew >= 0
  {
  }
}
