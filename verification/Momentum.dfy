/** The memory-hard proof of work (src/momentum.cpp). Memory is counted in 32-bit words. */
module Momentum {
  import opened Quotients
  import opened Words

  const CHUNK := 16
  const CHUNKS := 0x100_0000
  const CACHE := 0x4000
  const COMPARISON := 0x4000
  const MEMORY := CHUNK * CHUNKS
  const AES_ITERATIONS := 50
  const SOLUTION := 1968

  /** SHA-512 and the two routes to AES-256 in CBC mode, each giving one word of its output at a time. */
  datatype Primitives = Primitives(
    sha: (seq<word>, nat) -> word,
    evp: (seq<word>, seq<word>, seq<word>, nat) -> word,
    aes: (seq<word>, seq<word>, seq<word>, nat) -> word)

  function Cipher(p: Primitives, useEVP: bool, key: seq<word>, iv: seq<word>, data: seq<word>, j: nat): word {
    if useEVP then p.evp(key, iv, data, j) else p.aes(key, iv, data, j)
  }

  // ---- what one candidate computes ------------------------------------------------------

  type Mid = m: seq<word> | |m| == 8 witness [0, 0, 0, 0, 0, 0, 0, 0]

  /** Word `w` of the pseudo-random table: chunk `i` is the digest of the mid-hash with `i` in its first word. */
  function TableWord(p: Primitives, mid: Mid, w: nat): word
    requires w < MEMORY
  {
    p.sha(mid[0 := w / CHUNK], w % CHUNK)
  }

  function Region(p: Primitives, mid: Mid, k: nat): (r: seq<word>)
    requires k < COMPARISON
    ensures |r| == CACHE
  {
    seq<word>(CACHE, j requires 0 <= j < CACHE => TableWord(p, mid, k * CACHE + j))
  }

  function Mixed(a: seq<word>, b: seq<word>): (r: seq<word>)
    requires |a| == |b|
    ensures |r| == |a|
  {
    seq(|a|, j requires 0 <= j < |a| => Xor(a[j], b[j]))
  }

  /** The whole of `x` under its own last eight words as key and last four as initial vector. */
  function Encrypted(p: Primitives, useEVP: bool, x: seq<word>): (r: seq<word>)
    requires |x| == CACHE
    ensures |r| == CACHE
  {
    seq(CACHE, j requires 0 <= j < CACHE => Cipher(p, useEVP, x[CACHE - 8..], x[CACHE - 4..], x, j))
  }

  function Round(p: Primitives, useEVP: bool, mid: Mid, cache: seq<word>): (r: seq<word>)
    requires |cache| == CACHE
    ensures |r| == CACHE
  {
    Encrypted(p, useEVP, Mixed(cache, Region(p, mid, cache[CACHE - 1] % COMPARISON)))
  }

  function Rounds(p: Primitives, useEVP: bool, mid: Mid, k: nat, n: nat): (r: seq<word>)
    requires k < COMPARISON
    ensures |r| == CACHE
  {
    if n == 0 then Region(p, mid, k) else Round(p, useEVP, mid, Rounds(p, useEVP, mid, k, n - 1))
  }

  /** Candidate `a` solves the puzzle, with `b` as its proof of calculation. */
  predicate Accepts(p: Primitives, useEVP: bool, mid: Mid, a: word, b: word) {
    && a < COMPARISON
    && var last := Rounds(p, useEVP, mid, a, AES_ITERATIONS);
       last[CACHE - 1] % COMPARISON == SOLUTION && last[CACHE - 2] == b
  }

  // ---- the puzzle as a sequence of tables ------------------------------------------------------

  /** A table cut out of the digests: `k` is its place among the regions. */
  ghost predicate Cut(p: Primitives, mid: Mid, k: nat, c: seq<word>)
    requires k < 16384
  {
    |c| == 16384 && forall j :: 0 <= j < 16384 ==> c[j] == p.sha([k * 1024 + j / 16] + mid[1..], j % 16)
  }

  /** `x` is `c` against the region `c` points to. */
  ghost predicate Plain(p: Primitives, mid: Mid, c: seq<word>, x: seq<word>)
    requires |c| == 16384
  {
    |x| == 16384 && forall j :: 0 <= j < 16384 ==>
      Differs(x[j], c[j], p.sha([c[16383] % 16384 * 1024 + j / 16] + mid[1..], j % 16))
  }

  ghost predicate Enciphered(p: Primitives, useEVP: bool, x: seq<word>, d: seq<word>)
    requires |x| == 16384
  {
    |d| == 16384 && forall j: nat :: j < 16384 ==>
      d[j] == if useEVP then p.evp(x[16376..], x[16380..], x, j) else p.aes(x[16376..], x[16380..], x, j)
  }

  ghost predicate Follows(p: Primitives, useEVP: bool, mid: Mid, c: seq<word>, d: seq<word>) {
    |c| == 16384 && exists x :: Plain(p, mid, c, x) && Enciphered(p, useEVP, x, d)
  }

  /** The fifty-one tables of candidate `a`, ending in the solution with `b` before it. */
  ghost predicate Solves(p: Primitives, useEVP: bool, mid: Mid, a: word, b: word, c: seq<seq<word>>) {
    && a < 16384 && |c| == 51 && Cut(p, mid, a, c[0])
    && (forall i :: 0 <= i < 50 ==> Follows(p, useEVP, mid, c[i], c[i + 1]))
    && |c[50]| == 16384 && c[50][16383] % 16384 == 1968 && c[50][16382] == b
  }

  ghost predicate Solvable(p: Primitives, useEVP: bool, mid: Mid, a: word, b: word) {
    exists c :: Solves(p, useEVP, mid, a, b, c)
  }

  lemma CutIs(p: Primitives, mid: Mid, k: nat, c: seq<word>)
    requires k < COMPARISON
    ensures Cut(p, mid, k, c) <==> c == Region(p, mid, k)
  {
    forall j | 0 <= j < CACHE
      ensures TableWord(p, mid, k * CACHE + j) == p.sha([k * 1024 + j / 16] + mid[1..], j % 16)
    {
      assert k * CACHE + j == 16 * (k * 1024 + j / 16) + j % 16;
      DivIs(k * CACHE + j, 16, k * 1024 + j / 16);
      assert mid[0 := k * 1024 + j / 16] == [k * 1024 + j / 16] + mid[1..];
    }
  }

  lemma PlainIs(p: Primitives, mid: Mid, c: seq<word>, x: seq<word>)
    requires |c| == CACHE
    ensures Plain(p, mid, c, x) <==> x == Mixed(c, Region(p, mid, c[CACHE - 1] % COMPARISON))
  {
    hide Region, Differs, Xor;
    var k := c[CACHE - 1] % COMPARISON;
    var r := Region(p, mid, k);
    CutIs(p, mid, k, r);
    forall y: word, j | 0 <= j < CACHE
      ensures Differs(y, c[j], r[j]) <==> y == Xor(c[j], r[j])
    {
      XorIs(y, c[j], r[j]);
    }
  }

  lemma EncipheredIs(p: Primitives, useEVP: bool, x: seq<word>, d: seq<word>)
    requires |x| == CACHE
    ensures Enciphered(p, useEVP, x, d) <==> d == Encrypted(p, useEVP, x)
  {
  }

  lemma FollowsIs(p: Primitives, useEVP: bool, mid: Mid, c: seq<word>, d: seq<word>)
    requires |c| == CACHE
    ensures Follows(p, useEVP, mid, c, d) <==> d == Round(p, useEVP, mid, c)
  {
    hide Region, Mixed, Encrypted, Plain, Enciphered;
    var x := Mixed(c, Region(p, mid, c[CACHE - 1] % COMPARISON));
    forall y
      ensures Plain(p, mid, c, y) <==> y == x
    {
      PlainIs(p, mid, c, y);
    }
    EncipheredIs(p, useEVP, x, d);
    assert Plain(p, mid, c, x);
  }

  lemma RoundsStart(p: Primitives, useEVP: bool, mid: Mid, k: nat)
    requires k < COMPARISON
    ensures Rounds(p, useEVP, mid, k, 0) == Region(p, mid, k)
  {
  }

  lemma RoundsStep(p: Primitives, useEVP: bool, mid: Mid, k: nat, n: nat)
    requires k < COMPARISON
    ensures Rounds(p, useEVP, mid, k, n + 1) == Round(p, useEVP, mid, Rounds(p, useEVP, mid, k, n))
  {
  }

  lemma {:induction false} TablesAre(p: Primitives, useEVP: bool, mid: Mid, a: nat, c: seq<seq<word>>, n: nat)
    requires a < COMPARISON && n < |c| && Cut(p, mid, a, c[0])
    requires forall i :: 0 <= i < n ==> Follows(p, useEVP, mid, c[i], c[i + 1])
    ensures c[n] == Rounds(p, useEVP, mid, a, n)
  {
    hide Cut, Follows, Region, Round;
    if n == 0 {
      CutIs(p, mid, a, c[0]);
    } else {
      TablesAre(p, useEVP, mid, a, c, n - 1);
      FollowsIs(p, useEVP, mid, c[n - 1], c[n]);
    }
  }

  lemma TablesExist(p: Primitives, useEVP: bool, mid: Mid, a: nat) returns (c: seq<seq<word>>)
    requires a < COMPARISON
    ensures |c| == 51 && Cut(p, mid, a, c[0])
    ensures forall i :: 0 <= i < 50 ==> Follows(p, useEVP, mid, c[i], c[i + 1])
    ensures c[50] == Rounds(p, useEVP, mid, a, 50)
  {
    hide Cut, Follows, Region, Round;
    c := seq(51, i requires 0 <= i < 51 => Rounds(p, useEVP, mid, a, i));
    CutIs(p, mid, a, c[0]);
    RoundsStart(p, useEVP, mid, a);
    forall i | 0 <= i < 50
      ensures Follows(p, useEVP, mid, c[i], c[i + 1])
    {
      RoundsStep(p, useEVP, mid, a, i);
      FollowsIs(p, useEVP, mid, c[i], c[i + 1]);
    }
  }

  /** What verification accepts is a sequence of fifty-one tables, each from the one before. */
  lemma AcceptsIff(p: Primitives, useEVP: bool, mid: Mid, a: word, b: word)
    ensures Accepts(p, useEVP, mid, a, b) <==> Solvable(p, useEVP, mid, a, b)
  {
    hide Cut, Follows, Rounds, Region, Round;
    if Accepts(p, useEVP, mid, a, b) {
      var c := TablesExist(p, useEVP, mid, a);
      assert Solves(p, useEVP, mid, a, b, c);
    }
    if c :| Solves(p, useEVP, mid, a, b, c) {
      TablesAre(p, useEVP, mid, a, c, 50);
    }
  }

  /** A table that is the region it points to gives the cipher nothing but zeros. */
  lemma OwnRegion(p: Primitives, useEVP: bool, mid: Mid, c: seq<word>)
    requires |c| == CACHE && Cut(p, mid, c[CACHE - 1] % COMPARISON, c)
    ensures Plain(p, mid, c, seq(CACHE, _ => 0))
    ensures Round(p, useEVP, mid, c) == Encrypted(p, useEVP, seq(CACHE, _ => 0))
  {
    hide Region, Encrypted, Plain, Cut, Xor;
    var k := c[CACHE - 1] % COMPARISON;
    CutIs(p, mid, k, c);
    var zeros: seq<word> := seq(CACHE, _ => 0);
    forall j | 0 <= j < CACHE
      ensures Xor(c[j], c[j]) == 0
    {
      XorSelf(c[j]);
    }
    assert Mixed(c, c) == zeros;
    PlainIs(p, mid, c, zeros);
  }

  lemma MixedTwice(a: seq<word>, b: seq<word>)
    requires |a| == |b|
    ensures Mixed(a, Mixed(a, b)) == b
  {
    hide Xor;
    forall j | 0 <= j < |a|
      ensures Xor(a[j], Xor(a[j], b[j])) == b[j]
    {
      XorTwice(a[j], b[j]);
    }
  }

  // ---- verification: every region it needs is recomputed ------------------------------------------------------

  method SHA512(p: Primitives, hash_tmp: array<word>, out: array<word>, at: nat)
    requires at + CHUNK <= out.Length
    modifies out
    ensures forall j :: at <= j < at + CHUNK ==> out[j] == p.sha(hash_tmp[..], j - at)
    ensures forall j :: 0 <= j < out.Length && !(at <= j < at + CHUNK) ==> out[j] == old(out[j])
    requires out != hash_tmp
  {
    var input := hash_tmp[..];
    for j := 0 to CHUNK
      invariant forall i :: at <= i < at + j ==> out[i] == p.sha(input, i - at)
      invariant forall i :: 0 <= i < out.Length && !(at <= i < at + j) ==> out[i] == old(out[i])
    {
      out[at + j] := p.sha(input, j);
    }
  }

  method Recompute(p: Primitives, mid: Mid, hash_tmp: array<word>, cache: array<word>, k: nat)
    requires k < COMPARISON
    requires hash_tmp != cache && cache.Length == CACHE
    requires hash_tmp.Length == 8 && hash_tmp[1..] == mid[1..]
    modifies hash_tmp, cache
    ensures hash_tmp[1..] == mid[1..]
    ensures cache[..] == Region(p, mid, k)
  {
    hide Region, TableWord;
    var startLocation := k * CACHE / CHUNK;
    var finishLocation := startLocation + CACHE / CHUNK;
    var i := startLocation;
    while i < finishLocation
      invariant startLocation <= i <= finishLocation
      invariant hash_tmp[1..] == mid[1..]
      invariant forall j :: 0 <= j < (i - startLocation) * CHUNK ==> cache[j] == TableWord(p, mid, k * CACHE + j)
    {
      hash_tmp[0] := i;
      assert hash_tmp[..] == mid[0 := i];
      SHA512(p, hash_tmp, cache, (i - startLocation) * CHUNK);
      ChunkIs(p, mid, i);
      i := i + 1;
    }
    RegionIs(p, mid, k, cache[..]);
  }

  lemma ChunkIs(p: Primitives, mid: Mid, i: nat)
    requires i < CHUNKS
    ensures forall w :: i * CHUNK <= w < i * CHUNK + CHUNK ==> TableWord(p, mid, w) == p.sha(mid[0 := i], w - i * CHUNK)
  {
  }

  lemma RegionIs(p: Primitives, mid: Mid, k: nat, s: seq<word>)
    requires k < COMPARISON && |s| == CACHE
    requires forall j :: 0 <= j < CACHE ==> s[j] == TableWord(p, mid, k * CACHE + j)
    ensures s == Region(p, mid, k)
  {
  }

  method XorInto(a: array<word>, b: array<word>)
    requires a.Length == b.Length && a != b
    modifies b
    ensures b[..] == Mixed(a[..], old(b[..]))
    ensures Mixed(a[..], b[..]) == old(b[..])
  {
    hide Xor;
    for i := 0 to a.Length
      invariant forall j :: 0 <= j < i ==> b[j] == Xor(a[j], old(b[j]))
      invariant forall j :: i <= j < b.Length ==> b[j] == old(b[j])
    {
      b[i] := Xor(a[i], b[i]);
    }
    MixedTwice(a[..], old(b[..]));
  }

  method Encrypt(p: Primitives, useEVP: bool, from: array<word>, to: array<word>)
    requires from.Length == to.Length == CACHE && from != to
    modifies to
    ensures to[..] == Encrypted(p, useEVP, from[..])
  {
    var key, iv, data := from[CACHE - 8..], from[CACHE - 4..], from[..];
    for j := 0 to CACHE
      invariant forall i :: 0 <= i < j ==> to[i] == Cipher(p, useEVP, key, iv, data, i)
    {
      to[j] := Cipher(p, useEVP, key, iv, data, j);
    }
    assert data[CACHE - 8..] == key && data[CACHE - 4..] == iv;
  }

  function Zero(): Mid {
    [0, 0, 0, 0, 0, 0, 0, 0]
  }

  function One(): Mid {
    [1, 0, 0, 0, 0, 0, 0, 0]
  }

  /** Two mid-hashes override the choice of cipher when verifying. */
  function VerifyMode(useEVP: bool, mid: Mid): bool {
    if mid == Zero() then false else if mid == One() then true else useEVP
  }

  method VerifyRound(p: Primitives, useEVP: bool, mid: Mid, hash_tmp: array<word>, cache: array<word>,
      cache2: array<word>)
    requires hash_tmp != cache && hash_tmp != cache2 && cache != cache2
    requires cache.Length == cache2.Length == CACHE
    requires hash_tmp.Length == 8 && hash_tmp[1..] == mid[1..]
    modifies hash_tmp, cache, cache2
    ensures hash_tmp[1..] == mid[1..]
    ensures cache[..] == Round(p, useEVP, mid, old(cache[..]))
  {
    hide Region, Mixed, Encrypted;
    assert cache[..][CACHE - 1] == cache[CACHE - 1];
    Recompute(p, mid, hash_tmp, cache2, cache[CACHE - 1] % COMPARISON);
    XorInto(cache, cache2);
    Encrypt(p, useEVP, cache2, cache);
  }

  method MomentumVerify(p: Primitives, useEVP: bool, mid: Mid, a: word, b: word) returns (ok: bool)
    ensures ok <==> Accepts(p, VerifyMode(useEVP, mid), mid, a, b)
    ensures ok <==> Solvable(p, if mid == [0, 0, 0, 0, 0, 0, 0, 0] then false
      else if mid == [1, 0, 0, 0, 0, 0, 0, 0] then true else useEVP, mid, a, b)
  {
    hide Rounds, Round, Region, Solvable;
    AcceptsIff(p, VerifyMode(useEVP, mid), mid, a, b);
    if a >= COMPARISON {
      return false;
    }
    var cache := new word[CACHE];
    var cache2 := new word[CACHE];
    var hash_tmp := new word[8](i requires 0 <= i < 8 => mid[i]);
    Recompute(p, mid, hash_tmp, cache, a);
    var mode := useEVP;
    if mid == Zero() {
      mode := false;
    } else if mid == One() {
      mode := true;
    }
    RoundsStart(p, mode, mid, a);
    for j := 0 to AES_ITERATIONS
      invariant hash_tmp[1..] == mid[1..]
      invariant cache[..] == Rounds(p, mode, mid, a, j)
    {
      VerifyRound(p, mode, mid, hash_tmp, cache, cache2);
      RoundsStep(p, mode, mid, a, j);
    }
    var solution := cache[CACHE - 1] % COMPARISON;
    var proofOfCalculation := cache[CACHE - 2];
    assert cache[..][CACHE - 1] == cache[CACHE - 1] && cache[..][CACHE - 2] == cache[CACHE - 2];
    return solution == SOLUTION && proofOfCalculation == b;
  }

  // ---- the division of work between threads ------------------------------------------------------

  ghost predicate IsPow2(n: nat) {
    exists e: nat :: n == Pow2(e)
  }

  /** The thread count, rounded up. */
  method RoundThreads(nThreads: int) returns (r: nat)
    ensures IsPow2(r) && nThreads <= r && (if nThreads <= 1 then r == 1 else r < 2 * nThreads)
  {
    r := 1;
    ghost var e := 0;
    assert r == Pow2(0);
    while r < nThreads
      invariant r == Pow2(e) && r >= 1
      invariant if nThreads <= 1 then r == 1 else r < 2 * nThreads
      decreases nThreads - r
    {
      r := r * 2;
      e := e + 1;
    }
  }

  lemma {:induction false} Pow2Add(a: nat, b: nat)
    ensures Pow2(a + b) == Pow2(a) * Pow2(b)
  {
    if a > 0 {
      Pow2Add(a - 1, b);
      assert 2 * (Pow2(a - 1) * Pow2(b)) == (2 * Pow2(a - 1)) * Pow2(b);
    }
  }

  lemma {:induction false} Pow2Monotone(a: nat, b: nat)
    requires a <= b
    ensures Pow2(a) <= Pow2(b)
  {
    if a < b {
      Pow2Monotone(a, b - 1);
    }
  }

  /** A power of two no larger than another divides it; a larger one leaves nothing for each thread. */
  lemma Shares(threads: nat, e: nat)
    requires IsPow2(threads)
    ensures threads > 0
    ensures threads <= Pow2(e) ==> threads * (Pow2(e) / threads) == Pow2(e)
    ensures threads > Pow2(e) ==> Pow2(e) / threads == 0
  {
    var d: nat :| threads == Pow2(d);
    if threads <= Pow2(e) {
      if e < d {
        Pow2Monotone(e + 1, d);
      }
      Pow2Add(e - d, d);
      DivOfMultiple(Pow2(e - d), threads);
    } else {
      DivBounds(Pow2(e), threads, 0, 1);
    }
  }

  lemma Sizes()
    ensures COMPARISON == Pow2(14) && CHUNKS == Pow2(24)
  {
    assert Pow2(4) == 16;
    Pow2Add(4, 4);
    Pow2Add(8, 4);
    assert Pow2(2) == 4;
    Pow2Add(12, 2);
    Pow2Add(12, 12);
  }

  /** Job `i` is done when the thread it belongs to has got past it. */
  predicate Done(done: seq<nat>, per: nat, i: nat) {
    per > 0 && i / per < |done| && i % per < done[i / per]
  }

  predicate InProgress(done: seq<nat>, per: nat) {
    forall t :: 0 <= t < |done| ==> done[t] <= per
  }

  function Left(done: seq<nat>, per: nat): nat
    requires InProgress(done, per)
  {
    if done == [] then 0 else Left(done[..|done| - 1], per) + (per - done[|done| - 1])
  }

  lemma {:induction false} LeftStep(done: seq<nat>, per: nat, t: nat)
    requires InProgress(done, per) && t < |done| && done[t] < per
    ensures InProgress(done[t := done[t] + 1], per)
    ensures Left(done[t := done[t] + 1], per) == Left(done, per) - 1
  {
    var next := done[t := done[t] + 1];
    var k := |done| - 1;
    if t < k {
      LeftStep(done[..k], per, t);
      assert next[..k] == done[..k][t := done[t] + 1];
    } else {
      assert next[..k] == done[..k];
    }
  }

  lemma JobOf(per: nat, t: nat, c: nat)
    requires c < per
    ensures (t * per + c) / per == t && (t * per + c) % per == c
  {
    var i := t * per + c;
    assert (t + 1) * per == t * per + per;
    DivBounds(i, per, t, t + 1);
    assert i == per * (i / per) + i % per;
    assert per * t == t * per;
  }

  lemma JobBelow(per: nat, t: nat, c: nat, threads: nat)
    requires c < per && t < threads
    ensures t * per + c < threads * per
  {
    assert (t + 1) * per == t * per + per;
    MulMonotone(t + 1, threads, per);
  }

  /** A thread's step finishes one job, that was not done before, and no other. */
  lemma DoneStep(done: seq<nat>, per: nat, t: nat)
    requires t < |done| && done[t] < per
    ensures var k := t * per + done[t];
      && !Done(done, per, k)
      && k < |done| * per
      && (forall i: nat :: Done(done[t := done[t] + 1], per, i) <==> Done(done, per, i) || i == k)
  {
    hide Done;
    var k := t * per + done[t];
    JobBelow(per, t, done[t], |done|);
    forall i: nat
      ensures Done(done[t := done[t] + 1], per, i) <==> Done(done, per, i) || i == k
      ensures i == k ==> !Done(done, per, i)
    {
      JobAgain(per, t, done[t], i);
      DoneAt(done, per, t, i, i / per, i % per);
    }
  }

  lemma DoneAt(done: seq<nat>, per: nat, t: nat, i: nat, q: nat, r: nat)
    requires t < |done| && done[t] < per && q == i / per && r == i % per
    ensures Done(done[t := done[t] + 1], per, i) <==> Done(done, per, i) || (q == t && r == done[t])
    ensures q == t && r == done[t] ==> !Done(done, per, i)
  {
  }

  lemma JobAgain(per: nat, t: nat, c: nat, i: nat)
    requires c < per
    ensures i / per == t && i % per == c <==> i == t * per + c
  {
    JobOf(per, t, c);
    assert i == per * (i / per) + i % per;
    assert per * t == t * per;
  }

  lemma AllDone(done: seq<nat>, per: nat, i: nat)
    requires i < |done| * per
    requires forall t :: 0 <= t < |done| ==> done[t] >= per
    ensures Done(done, per, i)
  {
    if per > 0 {
      DivBounds(i, per, 0, |done|);
    }
  }

  // ---- the search ------------------------------------------------------

  ghost predicate Filled(p: Primitives, mid: Mid, mem: seq<word>, i: nat)
    requires |mem| == MEMORY
  {
    i < CHUNKS && forall j :: i * CHUNK <= j < i * CHUNK + CHUNK ==> mem[j] == TableWord(p, mid, j)
  }

  method FillChunk(p: Primitives, mid: Mid, mem: array<word>, i: nat)
    requires mem.Length == MEMORY && i < CHUNKS
    modifies mem
    ensures Filled(p, mid, mem[..], i)
    ensures forall c: nat :: Filled(p, mid, old(mem[..]), c) ==> Filled(p, mid, mem[..], c)
  {
    var hash_tmp := new word[8](j requires 0 <= j < 8 => mid[j]);
    hash_tmp[0] := i;
    assert hash_tmp[..] == mid[0 := i];
    SHA512(p, hash_tmp, mem, i * CHUNK);
  }

  /** Any interleaving of the filling threads leaves every shared-out chunk of the table filled. */
  method FillTable(p: Primitives, mid: Mid, mem: array<word>, totalThreads: nat)
    requires mem.Length == MEMORY && IsPow2(totalThreads)
    modifies mem
    ensures totalThreads <= CHUNKS ==> forall i: nat :: i < CHUNKS ==> Filled(p, mid, mem[..], i)
  {
    hide Filled, Done, Left, Pow2, IsPow2;
    Sizes();
    Shares(totalThreads, 24);
    var per := CHUNKS / totalThreads;
    var done: seq<nat> := seq<nat>(totalThreads, _ => 0);
    NoneDone(done, per);
    while exists t :: 0 <= t < totalThreads && done[t] < per
      invariant |done| == totalThreads && InProgress(done, per)
      invariant forall i: nat :: Done(done, per, i) ==> Filled(p, mid, mem[..], i)
      decreases Left(done, per)
    {
      var t :| 0 <= t < totalThreads && done[t] < per;
      DoneStep(done, per, t);
      LeftStep(done, per, t);
      FillChunk(p, mid, mem, t * per + done[t]);
      done := done[t := done[t] + 1];
    }
    if totalThreads <= CHUNKS {
      forall i: nat | i < CHUNKS ensures Filled(p, mid, mem[..], i) {
        AllDone(done, per, i);
      }
    }
  }

  lemma NoneDone(done: seq<nat>, per: nat)
    requires forall t :: 0 <= t < |done| ==> done[t] == 0
    ensures forall i: nat :: !Done(done, per, i)
  {
  }

  /** One candidate tried against the table: the regions are copied out of memory. */
  method Grind(p: Primitives, useEVP: bool, mid: Mid, mem: array<word>, k: nat, cache: array<word>, cache2: array<word>)
    requires mem.Length == MEMORY && k < COMPARISON
    requires forall i: nat :: i < CHUNKS ==> Filled(p, mid, mem[..], i)
    requires cache != mem && cache2 != mem && cache != cache2
    requires cache.Length == cache2.Length == CACHE
    modifies cache, cache2
    ensures cache[..] == Rounds(p, useEVP, mid, k, AES_ITERATIONS)
  {
    hide Rounds, Round, Region, Mixed, Encrypted, Filled;
    CopyRegion(p, mid, mem, k, cache);
    RoundsStart(p, useEVP, mid, k);
    for j := 0 to AES_ITERATIONS
      invariant cache[..] == Rounds(p, useEVP, mid, k, j)
    {
      SearchRound(p, useEVP, mid, mem, cache, cache2);
      RoundsStep(p, useEVP, mid, k, j);
    }
  }

  method CopyRegion(p: Primitives, mid: Mid, mem: array<word>, k: nat, cache: array<word>)
    requires mem.Length == MEMORY && k < COMPARISON
    requires forall i: nat :: i < CHUNKS ==> Filled(p, mid, mem[..], i)
    requires cache != mem && cache.Length == CACHE
    modifies cache
    ensures cache[..] == Region(p, mid, k)
  {
    for j := 0 to CACHE
      invariant forall i :: 0 <= i < j ==> cache[i] == TableWord(p, mid, k * CACHE + i)
    {
      var w := k * CACHE + j;
      assert Filled(p, mid, mem[..], w / CHUNK);
      assert mem[..][w] == TableWord(p, mid, w);
      cache[j] := mem[w];
    }
  }

  method SearchRound(p: Primitives, useEVP: bool, mid: Mid, mem: array<word>, cache: array<word>, cache2: array<word>)
    requires mem.Length == MEMORY
    requires forall i: nat :: i < CHUNKS ==> Filled(p, mid, mem[..], i)
    requires cache != mem && cache2 != mem && cache != cache2
    requires cache.Length == cache2.Length == CACHE
    modifies cache, cache2
    ensures cache[..] == Round(p, useEVP, mid, old(cache[..]))
  {
    hide Region, Mixed, Encrypted, Filled;
    assert cache[..][CACHE - 1] == cache[CACHE - 1];
    var nextLocation := cache[CACHE - 1] % COMPARISON;
    CopyRegion(p, mid, mem, nextLocation, cache2);
    XorInto(cache, cache2);
    Encrypt(p, useEVP, cache2, cache);
  }

  /** One candidate: the pair goes into the results where it solves the puzzle. */
  method TryCandidate(p: Primitives, useEVP: bool, mid: Mid, mem: array<word>, k: nat, results: seq<(word, word)>)
    returns (next: seq<(word, word)>)
    requires mem.Length == MEMORY && k < COMPARISON
    requires forall i: nat :: i < CHUNKS ==> Filled(p, mid, mem[..], i)
    ensures forall x: (word, word) :: (multiset(next)[x] ==
      multiset(results)[x] + (if x.0 == k && Accepts(p, useEVP, mid, x.0, x.1) then 1 else 0))
  {
    hide Rounds, Filled;
    var cache := new word[CACHE];
    var cache2 := new word[CACHE];
    Grind(p, useEVP, mid, mem, k, cache, cache2);
    assert cache[..][CACHE - 1] == cache[CACHE - 1] && cache[..][CACHE - 2] == cache[CACHE - 2];
    var solution := cache[CACHE - 1] % COMPARISON;
    next := results;
    if solution == SOLUTION {
      var proofOfCalculation := cache[CACHE - 2];
      next := results + [(k, proofOfCalculation)];
    }
  }

  /** The pair `x` is to be found by the jobs done so far. */
  ghost predicate Found(p: Primitives, useEVP: bool, mid: Mid, done: seq<nat>, per: nat, x: (word, word)) {
    Done(done, per, x.0) && Accepts(p, useEVP, mid, x.0, x.1)
  }

  /** Any interleaving of the searching threads finds each pair of the shared-out candidates once. */
  method SearchTable(p: Primitives, useEVP: bool, mid: Mid, mem: array<word>, totalThreads: nat)
    returns (results: seq<(word, word)>)
    requires mem.Length == MEMORY && IsPow2(totalThreads)
    requires totalThreads <= COMPARISON ==> forall i: nat :: i < CHUNKS ==> Filled(p, mid, mem[..], i)
    ensures forall x: (word, word) :: (multiset(results)[x] ==
      if totalThreads <= COMPARISON && Accepts(p, useEVP, mid, x.0, x.1) then 1 else 0)
  {
    hide Filled, Done, Left, Pow2, IsPow2, Accepts;
    Sizes();
    Shares(totalThreads, 14);
    var per := COMPARISON / totalThreads;
    var done: seq<nat> := seq<nat>(totalThreads, _ => 0);
    NoneDone(done, per);
    results := [];
    while exists t :: 0 <= t < totalThreads && done[t] < per
      invariant |done| == totalThreads && InProgress(done, per)
      invariant forall x: (word, word) :: (multiset(results)[x] ==
        if Found(p, useEVP, mid, done, per, x) then 1 else 0)
      decreases Left(done, per)
    {
      var t :| 0 <= t < totalThreads && done[t] < per;
      DoneStep(done, per, t);
      LeftStep(done, per, t);
      results := TryCandidate(p, useEVP, mid, mem, t * per + done[t], results);
      done := done[t := done[t] + 1];
    }
    forall x: (word, word)
      ensures multiset(results)[x] ==
        if totalThreads <= COMPARISON && Accepts(p, useEVP, mid, x.0, x.1) then 1 else 0
    {
      if totalThreads <= COMPARISON && Accepts(p, useEVP, mid, x.0, x.1) {
        AcceptedIsCandidate(p, useEVP, mid, x.0, x.1);
        AllDone(done, per, x.0);
      } else if totalThreads > COMPARISON {
        NoneShared(done, x.0);
      }
    }
  }

  lemma AcceptedIsCandidate(p: Primitives, useEVP: bool, mid: Mid, a: word, b: word)
    requires Accepts(p, useEVP, mid, a, b)
    ensures a < COMPARISON
  {
    hide Rounds;
  }

  lemma NoneShared(done: seq<nat>, i: nat)
    ensures !Done(done, 0, i)
  {
  }

  /** The whole search, for the power-of-two thread counts its caller uses: it returns exactly the accepted pairs,
      each once, where there are no more threads than candidates, and nothing at all otherwise. */
  method MomentumSearch(p: Primitives, useEVP: bool, mid: Mid, mem: array<word>, totalThreads: nat)
    returns (results: seq<(word, word)>)
    requires mem.Length == MEMORY && IsPow2(totalThreads)
    modifies mem
    ensures forall x: (word, word) :: (multiset(results)[x] ==
      if totalThreads <= 16384 && Solvable(p, useEVP, mid, x.0, x.1) then 1 else 0)
  {
    hide Filled, IsPow2, Accepts, Solvable;
    FillTable(p, mid, mem, totalThreads);
    results := SearchTable(p, useEVP, mid, mem, totalThreads);
    forall x: (word, word)
      ensures multiset(results)[x] == if totalThreads <= 16384 && Solvable(p, useEVP, mid, x.0, x.1) then 1 else 0
    {
      AcceptsIff(p, useEVP, mid, x.0, x.1);
    }
  }

  // ---- the two ciphers ------------------------------------------------------

  /** Both libraries compute the same cipher. */
  ghost predicate SameCipher(p: Primitives) {
    forall key, iv, data, j :: p.evp(key, iv, data, j) == p.aes(key, iv, data, j)
  }

  lemma {:induction false} CipherDoesNotMatter(p: Primitives, mid: Mid, k: nat, n: nat)
    requires SameCipher(p) && k < COMPARISON
    ensures Rounds(p, true, mid, k, n) == Rounds(p, false, mid, k, n)
  {
    hide Region, Mixed;
    if n > 0 {
      CipherDoesNotMatter(p, mid, k, n - 1);
      var x := Mixed(Rounds(p, true, mid, k, n - 1), Region(p, mid,
        Rounds(p, true, mid, k, n - 1)[CACHE - 1] % COMPARISON));
      assert Encrypted(p, true, x) == Encrypted(p, false, x);
    }
  }

  /** What the search finds is what verification accepts, for every mid-hash where the ciphers agree and for all but
      two mid-hashes in any case. */
  lemma SearchAgreesWithVerify(p: Primitives, useEVP: bool, mid: Mid, a: word, b: word)
    requires SameCipher(p) || (mid != Zero() && mid != One())
    ensures Accepts(p, useEVP, mid, a, b) <==> Accepts(p, VerifyMode(useEVP, mid), mid, a, b)
    ensures Solvable(p, useEVP, mid, a, b) <==> Solvable(p, VerifyMode(useEVP, mid), mid, a, b)
  {
    hide Rounds, Solvable;
    AcceptsIff(p, useEVP, mid, a, b);
    AcceptsIff(p, VerifyMode(useEVP, mid), mid, a, b);
    if SameCipher(p) && a < COMPARISON {
      CipherDoesNotMatter(p, mid, a, AES_ITERATIONS);
    }
  }
}
