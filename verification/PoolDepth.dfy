/** A reorganisation of 60 blocks that leaves a transaction in the memory pool without its input, call by call. */
module PoolDepth {
  import opened Basics
  import opened CoinTypes
  import opened Quotients
  import opened Sums
  import opened Utxo
  import opened Supply
  import opened Coinbase
  import opened Election
  import opened CoinsView
  import opened BlockConnect
  import opened BlockTree
  import opened ChainState
  import opened ChainRuns
  import opened MemPool
  import opened MemPoolReorg
  import opened PoolMaturity
  import opened PoolChain
  import opened PoolRuns

  // ---- two branches of blocks that hold a coinbase each --------------------------------------------------

  const GENESIS: Hash := 5
  const ROOT_TX := Tx(6, 1, [OutPoint(0, NULL_N)], [TxOut(1, [])])
  const OLD: Hash := 1000
  const NEW: Hash := 2000
  const DEPTH := 60

  /** Nobody voted: all offices go to the unspendable address. */
  function Table(k: nat): map<string, int> {
    map[UNSPENDABLE := NUMBER_OF_OFFICES * GrantValue(k)]
  }

  lemma TableIs(k: nat)
    ensures TableFor(Table(k), k)
  {
    var winners := seq(NUMBER_OF_OFFICES, _ => UNSPENDABLE);
    OneWinner(NUMBER_OF_OFFICES, UNSPENDABLE, GrantValue(k));
    assert AwardTable(winners, GrantValue(k)) == Table(k);
  }

  function EnvAt(k: nat): Env {
    Env(if IsGrantAwardBlock(k) then Table(k) else map[], (s: Script) => if s == [1] then UNSPENDABLE else "", true)
  }

  function Outs(k: nat): seq<TxOut> {
    [TxOut(if k == 1 then PREMINE else 1, [])]
    + if IsGrantAwardBlock(k) then [TxOut(NUMBER_OF_OFFICES * GrantValue(k), [1])] else []
  }

  /** The coinbase of the k-th block of a branch; it has the id of its block. */
  function Mint(base: Hash, k: nat): Tx {
    Tx(base + k, 1, [OutPoint(0, NULL_N)], Outs(k))
  }

  function Tip(base: Hash, k: nat): Hash {
    if k == 0 then GENESIS else base + k
  }

  function Minted(base: Hash, k: nat): (u: CoinMap)
    ensures forall h :: h in u ==> base < h <= base + k
  {
    if k == 0 then map[] else Minted(base, k - 1)[base + k := CoinsFromTx(Mint(base, k), k)]
  }

  lemma {:induction false} MintedAt(base: Hash, k: nat, j: nat)
    requires 1 <= j <= k
    ensures base + j in Minted(base, k) && Minted(base, k)[base + j] == CoinsFromTx(Mint(base, j), j)
  {
    if j < k {
      MintedAt(base, k - 1, j);
    }
  }

  // ---- each block is accepted on the one before --------------------------------------------------

  lemma EarlySubsidy(k: nat)
    requires k <= 100
    ensures 5 <= BlockSubsidy(k) <= 280 * COIN && 1 <= GrantValue(k) <= 56 * COIN
  {
    var d := 240 - k;
    DivBounds(280 * COIN, d, 5, 280 * COIN + 1);
  }

  lemma OutsValue(k: nat)
    ensures ValueOf(Outs(k)) ==
      (if k == 1 then PREMINE else 1) + if IsGrantAwardBlock(k) then NUMBER_OF_OFFICES * GrantValue(k) else 0
  {
    hide GrantValue, IsGrantAwardBlock;
    var first := [TxOut(if k == 1 then PREMINE else 1, [])];
    assert first[..0] == [] && ValueOf(first) == if k == 1 then PREMINE else 1;
    if IsGrantAwardBlock(k) {
      assert Outs(k)[..1] == first;
    } else {
      assert Outs(k) == first;
    }
  }

  lemma MintChecked(base: Hash, k: nat)
    requires k <= 100
    ensures CheckTransaction(Mint(base, k)) && Mint(base, k).IsCoinBase() && CheckBlock([Mint(base, k)])
  {
    EarlySubsidy(k);
    OutsValue(k);
    hide BlockSubsidy, GrantValue, ValueOf, IsGrantAwardBlock;
  }

  lemma MintAllowed(k: nat)
    requires 1 <= k <= 100
    ensures CoinbaseOk(Outs(k), 0, k, false, EnvAt(k))
  {
    EarlySubsidy(k);
    OutsValue(k);
    hide BlockSubsidy, GrantValue, ValueOf;
    if IsGrantAwardBlock(k) {
      var m := Table(k);
      SumRemove(m, UNSPENDABLE);
      assert m - {UNSPENDABLE} == map[];
      assert Outs(k)[1] == TxOut(NUMBER_OF_OFFICES * GrantValue(k), [1]);
      assert Pays(Outs(k)[1], UNSPENDABLE, m[UNSPENDABLE], EnvAt(k).textOf);
    }
  }

  lemma SmallHash(h: Hash, k: nat)
    requires h <= 3000
    ensures EnforceBip30(h, k)
  {
  }

  lemma MintConnects(base: Hash, k: nat)
    requires 1 <= k <= 100 && base <= 2000
    ensures ApplyTxs(Minted(base, k - 1), [Mint(base, k)], k) == Some(BlockEffect(Minted(base, k), [], 0))
    ensures Connected(Minted(base, k - 1), Block(base + k, [Mint(base, k)]), k, false, EnvAt(k)).Some?
  {
    var tx, u := Mint(base, k), Minted(base, k - 1);
    MintChecked(base, k);
    MintAllowed(k);
    SmallHash(base + k, k);
    hide CheckTransaction, CoinbaseOk, EnforceBip30, Outs, EnvAt;
    assert [tx][..0] == [] && ApplyTxs(u, [], k) == Some(BlockEffect(u, [], 0));
    assert tx.vout != [];
    assert Bip30(u, [tx]);
  }

  /** The index holds the first `n` blocks of the branch. */
  ghost predicate Holds(idx: Index, base: Hash, n: nat) {
    forall k: nat :: 1 <= k <= n ==> HoldsAt(idx, base, k)
  }

  predicate HoldsAt(idx: Index, base: Hash, k: nat)
    requires k >= 1
  {
    base + k in idx && idx[base + k] == IndexEntry(Some(Tip(base, k - 1)), k, [Mint(base, k)])
  }

  function EnvsOf(base: Hash): Hash -> Env {
    (h: Hash) => EnvAt(if h >= base then h - base else 0)
  }

  lemma {:induction false} BranchReplay(idx: Index, base: Hash, n: nat, stop: nat)
    requires WfIndex(idx, GENESIS) && Holds(idx, base, n) && n <= 100 && GENESIS < base <= 2000 && stop <= 1
    requires CheckBlock(idx[GENESIS].vtx)
    ensures Tip(base, n) in idx && idx[Tip(base, n)].nHeight == n
    ensures Replay(idx, GENESIS, Tip(base, n)) == Some(Minted(base, n))
    ensures Accepts(idx, GENESIS, Tip(base, n), stop, false, EnvsOf(base))
    decreases n
  {
    hide CheckBlock, ApplyTxs, Connected, Minted;
    if n == 0 {
      HeightZero(idx, GENESIS, GENESIS);
      MintedNone(base);
    } else {
      BranchReplay(idx, base, n - 1, stop);
      assert HoldsAt(idx, base, n);
      assert Parent(idx, GENESIS, base + n) == Tip(base, n - 1);
      MintChecked(base, n);
      MintConnects(base, n);
      assert EnvsOf(base)(base + n) == EnvAt(n);
    }
  }

  lemma MintedNone(base: Hash)
    ensures Minted(base, 0) == map[]
  {
  }

  lemma {:induction false} BranchAncestor(idx: Index, base: Hash, n: nat, j: nat)
    requires WfIndex(idx, GENESIS) && Holds(idx, base, n) && GENESIS < base && j <= n
    ensures Tip(base, n) in idx && idx[Tip(base, n)].nHeight == n
    ensures AncestorAt(idx, GENESIS, Tip(base, n), j) == Tip(base, j)
    decreases n
  {
    if n > 0 {
      assert HoldsAt(idx, base, n);
      if j < n {
        assert Parent(idx, GENESIS, base + n) == Tip(base, n - 1);
        BranchAncestor(idx, base, n - 1, j);
      }
    }
  }

  lemma PartAtGenesis(idx: Index, a: nat, b: nat)
    requires WfIndex(idx, GENESIS) && Holds(idx, OLD, a) && Holds(idx, NEW, b) && a <= 100
    ensures Tip(OLD, a) in idx && Tip(NEW, b) in idx
    ensures LastCommon(idx, GENESIS, Tip(OLD, a), Tip(NEW, b)) == GENESIS
  {
    hide LastCommon, AncestorAt;
    BranchAncestor(idx, OLD, a, a);
    BranchAncestor(idx, NEW, b, b);
    LastCommonOnBranch(idx, GENESIS, Tip(OLD, a), Tip(NEW, b));
    var f := LastCommon(idx, GENESIS, Tip(OLD, a), Tip(NEW, b));
    BranchAncestor(idx, OLD, a, idx[f].nHeight);
    BranchAncestor(idx, NEW, b, idx[f].nHeight);
  }

  // ---- the transaction --------------------------------------------------

  const SPENDER := Tx(3000, 1, [OutPoint(1001, 0)], [TxOut(1, [])])

  function Bodies(): Hash -> Tx {
    (h: Hash) => if h == 3000 then SPENDER
                 else if OLD < h <= OLD + 100 then Mint(OLD, h - OLD)
                 else if NEW < h <= NEW + 100 then Mint(NEW, h - NEW)
                 else ROOT_TX
  }

  function Truth(): World {
    World((h: Hash) => h, Bodies())
  }

  lemma MintGenuine(base: Hash, k: nat)
    requires (base == OLD || base == NEW) && 1 <= k <= 100
    ensures Genuine(Mint(base, k), Truth())
  {
    hide Outs;
  }

  /** With 60 blocks on it, the first coinbase is old enough to be spent by the next block. */
  lemma SpenderWelcome()
    ensures Welcome(map[], Minted(OLD, DEPTH), DEPTH + 1, SPENDER, true)
  {
    var u := Minted(OLD, DEPTH);
    MintedAt(OLD, DEPTH, 1);
    var c := CoinsFromTx(Mint(OLD, 1), 1);
    assert SPENDER.txid !in u && u[1001] == c && c.vout[0] == TxOut(PREMINE, []);
    hide Minted;
    var v := Viewed(u, map[], SPENDER, 1);
    assert SPENDER.vin[0] == OutPoint(1001, 0) && v[1001] == c;
    SpenderPays(v, c);
    assert SPENDER.vout[..0] == [] && ValueOf(SPENDER.vout) == 1;
    assert CheckTransaction(SPENDER);
  }

  lemma SpenderPays(v: CoinMap, c: Coins)
    requires 1001 in v && v[1001] == c && c.fCoinBase && c.nHeight == 1
    requires |c.vout| == 1 && c.vout[0] == TxOut(PREMINE, [])
    ensures Utxo.CheckInputs(v, SPENDER, DEPTH + 1)
  {
    var ops := SPENDER.vin;
    assert ops[..0] == [] && ops[..1] == ops && ops[0] == OutPoint(1001, 0);
    assert ValueIn(v, []) == 0 && ValueIn(v, ops) == PREMINE;
    assert SPENDER.vout[..0] == [] && ValueOf(SPENDER.vout) == 1;
    forall k | 0 <= k <= 1
      ensures Utxo.HaveInputs(v, ops[..k]) && MoneyRange(ValueIn(v, ops[..k]))
    {
      assert ops[..k] == [] || ops[..k] == ops;
    }
  }

  // ---- what the second switch does to the pool --------------------------------------------------

  lemma {:induction false} NothingRequeued(idx: Index, n: nat)
    requires WfIndex(idx, GENESIS) && Holds(idx, OLD, n) && n <= 100
    ensures Tip(OLD, n) in idx && idx[Tip(OLD, n)].nHeight == n
    ensures Resurrectable(idx, GENESIS, Tip(OLD, n), 1, 0) == []
  {
    BranchAncestor(idx, OLD, n, n);
    if n > 0 {
      assert HoldsAt(idx, OLD, n);
      assert Parent(idx, GENESIS, OLD + n) == Tip(OLD, n - 1);
      NothingRequeued(idx, n - 1);
      MintChecked(OLD, n);
      assert [Mint(OLD, n)][..0] == [] && Loose([]) == [] && Loose([Mint(OLD, n)]) == [];
    }
  }

  /** A transaction without a common input or id is left alone. */
  predicate Apart(tx: Tx) {
    tx.vin == [OutPoint(0, NULL_N)] && tx.txid != SPENDER.txid
  }

  predicate AllApart(txs: seq<Tx>) {
    forall i :: 0 <= i < |txs| ==> Apart(txs[i])
  }

  lemma {:induction false} LeftAlone(txs: seq<Tx>, rank: Hash -> nat)
    requires AllApart(txs)
    ensures ClearedAll(map[3000 := SPENDER], txs, rank) == map[3000 := SPENDER]
  {
    if txs != [] {
      LeftAlone(txs[..|txs| - 1], rank);
      var tx, m := txs[|txs| - 1], map[3000 := SPENDER];
      assert m - {tx.txid} == m && SPENDER.vin[0] == OutPoint(1001, 0);
      assert Apart(tx) && ConflictsIn(m, tx) == {};
      ReachNone(m, rank);
    }
  }

  lemma {:induction false} MintsApart(idx: Index, n: nat, m: nat)
    requires WfIndex(idx, GENESIS) && Holds(idx, NEW, n) && n <= 100 && 1 <= m <= n + 1
    ensures Tip(NEW, n) in idx && idx[Tip(NEW, n)].nHeight == n
    ensures AllApart(BranchTxs(idx, GENESIS, Tip(NEW, n), 1, m))
    decreases m
  {
    BranchAncestor(idx, NEW, n, n);
    if m > 1 {
      MintsApart(idx, n, m - 1);
      BranchAncestor(idx, NEW, n, m - 1);
      assert HoldsAt(idx, NEW, m - 1) && Apart(Mint(NEW, m - 1));
      BranchTxsNext(idx, GENESIS, Tip(NEW, n), 1, m - 1);
      assert idx[Tip(NEW, m - 1)].vtx == [Mint(NEW, m - 1)];
    }
  }

  lemma SpenderUnfit()
    ensures !Fits(map[3000 := SPENDER], Minted(NEW, DEPTH + 1))
  {
    var m, u := map[3000 := SPENDER], Minted(NEW, DEPTH + 1);
    assert SPENDER.vin[0] == OutPoint(1001, 0) && 1001 !in u;
    hide Minted;
    assert !InputThere(m, u, m[3000].vin[0]);
  }

  // ---- the run --------------------------------------------------

  /** The blocks of a branch arrive, one on top of the other. */
  method Mine(chain: Chain, base: Hash, n: nat)
    requires chain.Valid() && chain.genesis == GENESIS && (base == OLD || base == NEW) && n <= 100
    requires GENESIS in chain.mapBlockIndex && IndexGenuine(chain.mapBlockIndex, Truth())
    requires forall k: nat {:trigger Tip(base, k)} :: 1 <= k <= n ==> Tip(base, k) !in chain.mapBlockIndex
    modifies chain`mapBlockIndex
    ensures chain.Valid() && Holds(chain.mapBlockIndex, base, n) && IndexGenuine(chain.mapBlockIndex, Truth())
    ensures forall h :: h in old(chain.mapBlockIndex) ==>
      h in chain.mapBlockIndex && chain.mapBlockIndex[h] == old(chain.mapBlockIndex)[h]
    ensures forall h :: h in chain.mapBlockIndex && h !in old(chain.mapBlockIndex) ==> base < h <= base + n
  {
    hide Chain.Valid, EnforceBip30, Mint, IndexGenuine, Truth;
    GenesisLow(chain);
    for i := 0 to n
      invariant chain.Valid() && Holds(chain.mapBlockIndex, base, i) && IndexGenuine(chain.mapBlockIndex, Truth())
      invariant forall h :: h in old(chain.mapBlockIndex) ==>
        h in chain.mapBlockIndex && chain.mapBlockIndex[h] == old(chain.mapBlockIndex)[h]
      invariant forall h :: h in chain.mapBlockIndex && h !in old(chain.mapBlockIndex) ==> base < h <= base + i
      invariant Tip(base, i) in chain.mapBlockIndex && chain.mapBlockIndex[Tip(base, i)].nHeight == i
    {
      ghost var idx := chain.mapBlockIndex;
      SmallHash(base + i + 1, i + 1);
      assert Tip(base, i + 1) !in idx;
      MintAllGenuine(base, i + 1);
      GenuineWith(idx, base + i + 1, Tip(base, i), [Mint(base, i + 1)], Truth());
      MayCome(chain, base, i);
      var ok := chain.AddToBlockIndex(base + i + 1, Tip(base, i), [Mint(base, i + 1)]);
      HoldsMore(idx, chain.mapBlockIndex, base, i);
    }
  }

  lemma GenesisLow(chain: Chain)
    requires chain.Valid()
    ensures chain.genesis in chain.mapBlockIndex && chain.mapBlockIndex[chain.genesis].nHeight == 0
  {
    HeightZero(chain.mapBlockIndex, chain.genesis, chain.genesis);
  }

  lemma MintAllGenuine(base: Hash, k: nat)
    requires (base == OLD || base == NEW) && 1 <= k <= 100
    ensures AllGenuine([Mint(base, k)], Truth())
  {
    hide Genuine;
    MintGenuine(base, k);
  }

  lemma MayCome(chain: Chain, base: Hash, i: nat)
    requires chain.Valid() && (base == OLD || base == NEW) && i < 100
    requires Tip(base, i) in chain.mapBlockIndex && chain.mapBlockIndex[Tip(base, i)].nHeight == i
    ensures MayArrive(chain.mapBlockIndex, chain.genesis, base + i + 1, Tip(base, i), [Mint(base, i + 1)])
  {
    SmallHash(base + i + 1, i + 1);
    hide NoOverwrite, EnforceBip30;
  }

  lemma HoldsMore(idx: Index, idx2: Index, base: Hash, i: nat)
    requires Holds(idx, base, i) && Tip(base, i) in idx && idx[Tip(base, i)].nHeight == i && base + i + 1 !in idx
    requires idx2 == WithBlock(idx, base + i + 1, Tip(base, i), [Mint(base, i + 1)])
    ensures Holds(idx2, base, i + 1)
  {
    hide Mint;
    forall k: nat | 1 <= k <= i + 1
      ensures HoldsAt(idx2, base, k)
    {
      if k <= i {
        assert HoldsAt(idx, base, k);
      }
    }
  }

  /** After 60 blocks the transaction that spends the first coinbase is accepted, and the pool is as it should be. */
  method SixtyBlocks() returns (chain: Chain, pool: CTxMemPool)
    ensures chain.Valid() && chain.genesis == GENESIS && !chain.fTestNet && chain.pindexBest == Some(OLD + DEPTH)
    ensures forall h :: h in chain.mapBlockIndex ==> h <= OLD + DEPTH
    ensures GENESIS in chain.mapBlockIndex && chain.mapBlockIndex[GENESIS].vtx == [ROOT_TX]
    ensures Holds(chain.mapBlockIndex, OLD, DEPTH)
    ensures pool.w == Truth() && PoolOk(pool.mapTx, pool.mapNextTx, pool.w) && fresh(chain) && fresh(pool)
    ensures fresh(chain.pcoinsTip) && IndexGenuine(chain.mapBlockIndex, Truth())
    ensures pool.mapTx == map[3000 := SPENDER]
    ensures PoolFine(pool.mapTx, chain.pcoinsTip.Coins(), DEPTH + 1)
  {
    hide Chain.Valid, CoinsViewCache.Coins, CoinsViewCache.Contents, CoinsViewCache.Best, PoolOk, PoolFine,
      IndexGenuine, Accepts, Replay, Switched, Welcome, Swept, Stranded, Truth, Holds, Gentle, Matured, Fits,
      EnvsOf, WfIndex;
    chain := new Chain(GENESIS, [ROOT_TX], false);
    pool := new CTxMemPool(Truth());
    RootGenuine();
    FirstGenuine(GENESIS, [ROOT_TX], Truth());
    Mine(chain, OLD, DEPTH);
    FirstSwitch(chain);
    EmptyFits(chain.pcoinsTip.Coins());
    var first := SwitchChain(chain, pool, OLD + DEPTH, EnvsOf(OLD), true, 0, _ => true);
    ghost var o := Offering(chain.pcoinsTip.Coins(), DEPTH + 1, _ => true, Truth().rank);
    NothingSwitched(ConfirmedOf(chain.mapBlockIndex, GENESIS, None, OLD + DEPTH), o);
    CoinsAre(chain, OLD, DEPTH);
    EmptyFine(chain.pcoinsTip.Coins(), DEPTH + 1);
    SpenderWelcome();
    SpenderGenuine();
    var second := OfferTo(chain, pool, SPENDER, true);
  }

  /** Sixty-one other blocks arrive, the branch switches, and the pool keeps the transaction although the coinbase it
      spends is gone: the bound of 60 blocks on a gentle switch is exact. */
  method DeepSwitch() returns (chain: Chain, pool: CTxMemPool)
    ensures chain.Valid() && chain.pindexBest == Some(NEW + DEPTH + 1)
    ensures PoolOk(pool.mapTx, pool.mapNextTx, pool.w) && pool.mapTx == map[3000 := SPENDER]
    ensures !Fits(pool.mapTx, chain.pcoinsTip.Coins())
  {
    hide Chain.Valid, CoinsViewCache.Coins, CoinsViewCache.Contents, CoinsViewCache.Best, PoolOk, IndexGenuine,
      Accepts, Replay, Switched, Welcome, Swept, Stranded, Truth, Holds, Gentle, Matured, Fits, EnvsOf, WfIndex;
    chain, pool := SixtyBlocks();
    ghost var idx := chain.mapBlockIndex;
    Mine(chain, NEW, DEPTH + 1);
    OldStillHeld(idx, chain.mapBlockIndex);
    SecondSwitch(chain);
    var third := SwitchChain(chain, pool, NEW + DEPTH + 1, EnvsOf(NEW), true, 0, _ => true);
    ghost var o := Offering(chain.pcoinsTip.Coins(), DEPTH + 2, _ => true, Truth().rank);
    SpenderStays(chain.mapBlockIndex, o);
    CoinsAre(chain, NEW, DEPTH + 1);
    SpenderUnfit();
  }

  lemma RootGenuine()
    ensures AllGenuine([ROOT_TX], Truth())
  {
  }

  lemma RootChecked()
    ensures CheckBlock([ROOT_TX])
  {
    assert [TxOut(1, [])][..0] == [] && ROOT_TX.vout == [TxOut(1, [])];
    assert ValueOf(ROOT_TX.vout) == 1;
  }

  lemma SpenderGenuine()
    ensures Genuine(SPENDER, Truth())
  {
    assert SPENDER.vin[0] == OutPoint(1001, 0);
  }

  lemma EmptyFits(u: CoinMap)
    ensures Fits(map[], u)
  {
  }

  lemma EmptyFine(u: CoinMap, nSpendHeight: int)
    ensures PoolFine(map[], u, nSpendHeight)
  {
  }

  lemma NothingSwitched(vDelete: seq<Tx>, o: Offering)
    ensures Switched(map[], [], vDelete, o) == map[]
  {
    ClearedEmpty(vDelete, o.rank);
  }

  lemma FirstSwitch(chain: Chain)
    requires chain.Valid() && chain.genesis == GENESIS && chain.pindexBest == None
    requires Holds(chain.mapBlockIndex, OLD, DEPTH)
    requires GENESIS in chain.mapBlockIndex && chain.mapBlockIndex[GENESIS].vtx == [ROOT_TX]
    ensures OLD + DEPTH in chain.mapBlockIndex && chain.mapBlockIndex[OLD + DEPTH].nHeight == DEPTH
    ensures WfIndex(chain.mapBlockIndex, GENESIS)
    ensures Accepts(chain.mapBlockIndex, GENESIS, OLD + DEPTH, 0, false, EnvsOf(OLD))
  {
    hide Accepts, Replay;
    RootChecked();
    BranchReplay(chain.mapBlockIndex, OLD, DEPTH, 0);
  }

  /** The coins of a branch of minted blocks. */
  lemma CoinsAre(chain: Chain, base: Hash, n: nat)
    requires chain.Valid() && chain.genesis == GENESIS && 1 <= n <= 100 && (base == OLD || base == NEW)
    requires chain.pindexBest == Some(base + n) && Holds(chain.mapBlockIndex, base, n)
    requires GENESIS in chain.mapBlockIndex && chain.mapBlockIndex[GENESIS].vtx == [ROOT_TX]
    ensures chain.pcoinsTip.Coins() == Minted(base, n)
  {
    hide Accepts, Replay, Minted;
    RootChecked();
    BranchReplay(chain.mapBlockIndex, base, n, 0);
  }

  lemma OldStillHeld(idx: Index, idx2: Index)
    requires Holds(idx, OLD, DEPTH) && forall h :: h in idx ==> h in idx2 && idx2[h] == idx[h]
    ensures Holds(idx2, OLD, DEPTH)
  {
    forall k: nat | 1 <= k <= DEPTH
      ensures HoldsAt(idx2, OLD, k)
    {
      assert HoldsAt(idx, OLD, k);
    }
  }

  lemma SecondSwitch(chain: Chain)
    requires chain.Valid() && chain.genesis == GENESIS && chain.pindexBest == Some(OLD + DEPTH)
    requires Holds(chain.mapBlockIndex, OLD, DEPTH) && Holds(chain.mapBlockIndex, NEW, DEPTH + 1)
    requires GENESIS in chain.mapBlockIndex && chain.mapBlockIndex[GENESIS].vtx == [ROOT_TX]
    ensures WfIndex(chain.mapBlockIndex, GENESIS) && OLD + DEPTH in chain.mapBlockIndex
    ensures NEW + DEPTH + 1 in chain.mapBlockIndex && chain.mapBlockIndex[NEW + DEPTH + 1].nHeight == DEPTH + 1
    ensures var idx := chain.mapBlockIndex;
      && StopOf(idx, GENESIS, Some(OLD + DEPTH), NEW + DEPTH + 1) == 1
      && Accepts(idx, GENESIS, NEW + DEPTH + 1, 1, false, EnvsOf(NEW))
  {
    hide Accepts, Replay, LastCommon;
    RootChecked();
    HeightZero(chain.mapBlockIndex, GENESIS, GENESIS);
    BranchReplay(chain.mapBlockIndex, NEW, DEPTH + 1, 1);
    PartAtGenesis(chain.mapBlockIndex, DEPTH, DEPTH + 1);
  }

  lemma SpenderStays(idx: Index, o: Offering)
    requires WfIndex(idx, GENESIS) && Holds(idx, OLD, DEPTH) && Holds(idx, NEW, DEPTH + 1)
    requires OLD + DEPTH in idx && NEW + DEPTH + 1 in idx
    ensures var best, h := Some(OLD + DEPTH), NEW + DEPTH + 1;
      Switched(map[3000 := SPENDER], RequeuedOf(idx, GENESIS, best, h, 0), ConfirmedOf(idx, GENESIS, best, h), o)
      == map[3000 := SPENDER]
  {
    hide LastCommon, Resurrectable, BranchTxs, AncestorAt, ClearedAll, AllApart;
    HeightZero(idx, GENESIS, GENESIS);
    PartAtGenesis(idx, DEPTH, DEPTH + 1);
    NothingRequeued(idx, DEPTH);
    assert Tip(NEW, DEPTH + 1) == NEW + DEPTH + 1 && Tip(OLD, DEPTH) == OLD + DEPTH;
    MintsApart(idx, DEPTH + 1, DEPTH + 2);
    LeftAlone(BranchTxs(idx, GENESIS, NEW + DEPTH + 1, 1, DEPTH + 2), o.rank);
  }
}
