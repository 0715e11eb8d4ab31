/** The memory pool after the active chain switched branches (the last two loops of SetBestChain in src/main.cpp). */
module MemPoolReorg {
  import opened Basics
  import opened CoinTypes
  import opened Utxo
  import opened BlockTree
  import opened MemPool

  // ---- a branch, transaction by transaction ------------------------------------------------------

  datatype Move = Move(tx: Tx, nHeight: int)

  function Play(u: CoinMap, moves: seq<Move>): Option<CoinMap> {
    if moves == [] then Some(u)
    else
      match Play(u, moves[..|moves| - 1])
      case None => None
      case Some(v) =>
        match ApplyTx(v, moves[|moves| - 1].tx, moves[|moves| - 1].nHeight)
        case None => None
        case Some(e) => Some(e.coins)
  }

  function TxsOf(moves: seq<Move>): (txs: seq<Tx>)
    ensures |txs| == |moves|
  {
    seq(|moves|, i requires 0 <= i < |moves| => moves[i].tx)
  }

  function MovesOf(txs: seq<Tx>, nHeight: int): (moves: seq<Move>)
    ensures |moves| == |txs|
  {
    seq(|txs|, i requires 0 <= i < |txs| => Move(txs[i], nHeight))
  }

  lemma {:induction false} PlayOn(u: CoinMap, a: seq<Move>, b: seq<Move>)
    requires Play(u, a).Some?
    ensures Play(u, a + b) == Play(Play(u, a).value, b)
  {
    if b == [] {
      assert a + b == a;
    } else {
      var n := |b| - 1;
      PlayOn(u, a, b[..n]);
      assert (a + b)[..|a + b| - 1] == a + b[..n];
    }
  }

  lemma {:induction false} BlockPlays(u: CoinMap, txs: seq<Tx>, nHeight: int)
    requires ApplyTxs(u, txs, nHeight).Some?
    ensures Play(u, MovesOf(txs, nHeight)) == Some(ApplyTxs(u, txs, nHeight).value.coins)
  {
    hide ApplyTx;
    if txs != [] {
      var n := |txs| - 1;
      BlockPlays(u, txs[..n], nHeight);
      assert MovesOf(txs, nHeight)[..n] == MovesOf(txs[..n], nHeight);
    }
  }

  /** The transactions of a branch above height `k`. */
  function BranchMoves(idx: Index, genesis: Hash, h: Hash, k: nat): seq<Move>
    requires WfIndex(idx, genesis) && h in idx && k <= idx[h].nHeight
    decreases idx[h].nHeight
  {
    if idx[h].nHeight == k then []
    else
      HeightZero(idx, genesis, h);
      BranchMoves(idx, genesis, Parent(idx, genesis, h), k) + MovesOf(idx[h].vtx, idx[h].nHeight)
  }

  /** The coins of a branch are those of an ancestor with the transactions above it played. */
  lemma {:induction false} BranchPlays(idx: Index, genesis: Hash, h: Hash, k: nat)
    requires WfIndex(idx, genesis) && h in idx && k <= idx[h].nHeight && Replay(idx, genesis, h).Some?
    ensures Replay(idx, genesis, AncestorAt(idx, genesis, h, k)).Some?
    ensures Play(Replay(idx, genesis, AncestorAt(idx, genesis, h, k)).value, BranchMoves(idx, genesis, h, k))
         == Replay(idx, genesis, h)
    decreases idx[h].nHeight
  {
    hide ApplyTxs, CheckBlock;
    if idx[h].nHeight != k {
      HeightZero(idx, genesis, h);
      var p := Parent(idx, genesis, h);
      BranchPlays(idx, genesis, p, k);
      var u := Replay(idx, genesis, AncestorAt(idx, genesis, h, k)).value;
      PlayOn(u, BranchMoves(idx, genesis, p, k), MovesOf(idx[h].vtx, idx[h].nHeight));
      BlockPlays(Replay(idx, genesis, p).value, idx[h].vtx, idx[h].nHeight);
    }
  }

  ghost predicate MovesOk(moves: seq<Move>, w: World) {
    forall i :: 0 <= i < |moves| ==>
      CheckTransaction(moves[i].tx) && Genuine(moves[i].tx, w) && moves[i].nHeight >= 1
  }

  lemma {:induction false} PlayWf(u: CoinMap, moves: seq<Move>, w: World)
    requires WfUtxo(u) && MovesOk(moves, w) && Play(u, moves).Some?
    ensures WfUtxo(Play(u, moves).value)
  {
    hide WfUtxo, CheckTransaction, Genuine, ApplyTx;
    if moves != [] {
      var n := |moves| - 1;
      PlayWf(u, moves[..n], w);
      ApplyTxWf(Play(u, moves[..n]).value, moves[n].tx, moves[n].nHeight);
    }
  }

  predicate SpentIn(txs: seq<Tx>, op: OutPoint) {
    exists k :: 0 <= k < |txs| && op in txs[k].vin
  }

  /** An output that was there is there after the moves, or one of them spent it. */
  lemma {:induction false} Forward(u: CoinMap, moves: seq<Move>, op: OutPoint, w: World)
    requires WfUtxo(u) && MovesOk(moves, w) && Play(u, moves).Some?
    requires Has(u, op) && op.n < |w.body(op.hash).vout|
    ensures Has(Play(u, moves).value, op) || SpentIn(TxsOf(moves), op)
  {
    hide WfUtxo, CheckTransaction, ApplyTx;
    if moves != [] {
      var n := |moves| - 1;
      var front, tx := moves[..n], moves[n].tx;
      Forward(u, front, op, w);
      PlayWf(u, front, w);
      var v := Play(u, front).value;
      if SpentIn(TxsOf(front), op) {
        var k :| 0 <= k < n && op in TxsOf(front)[k].vin;
        assert op in TxsOf(moves)[k].vin;
      } else if op in tx.vin {
        assert op in TxsOf(moves)[n].vin;
      } else if op.hash == tx.txid {
        NowThere(v, tx, moves[n].nHeight, op.n);
      } else {
        StillThere(v, tx, moves[n].nHeight, op);
      }
    }
  }

  /** An output there after the moves, of none of their transactions, was there before. */
  lemma {:induction false} Backward(u: CoinMap, moves: seq<Move>, op: OutPoint)
    requires Play(u, moves).Some? && Has(Play(u, moves).value, op)
    requires forall i :: 0 <= i < |moves| ==> moves[i].tx.txid != op.hash
    ensures Has(u, op)
  {
    hide ApplyTx, Has;
    if moves != [] {
      var n := |moves| - 1;
      ApplyTxLeft(Play(u, moves[..n]).value, moves[n].tx, moves[n].nHeight, op);
      Backward(u, moves[..n], op);
    }
  }

  /** The outputs of the k-th transaction are there after all moves, or a later one spent them. */
  lemma Created(u: CoinMap, moves: seq<Move>, k: nat, n: nat, w: World)
    requires WfUtxo(u) && MovesOk(moves, w) && Play(u, moves).Some? && k < |moves| && n < |moves[k].tx.vout|
    ensures var op := OutPoint(moves[k].tx.txid, n);
      Has(Play(u, moves).value, op) || SpentIn(TxsOf(moves)[k + 1..], op)
  {
    hide WfUtxo, CheckTransaction, ApplyTx;
    var op := OutPoint(moves[k].tx.txid, n);
    var front, back := moves[..k + 1], moves[k + 1..];
    assert moves == front + back && front[..k] == moves[..k];
    PlayedFront(u, moves, k + 1);
    PlayedFront(u, moves, k);
    PlayOn(u, front, back);
    NowThere(Play(u, moves[..k]).value, moves[k].tx, moves[k].nHeight, n);
    PlayWf(u, front, w);
    Forward(Play(u, front).value, back, op, w);
    assert TxsOf(back) == TxsOf(moves)[k + 1..];
  }

  lemma {:induction false} PlayedFront(u: CoinMap, moves: seq<Move>, k: nat)
    requires Play(u, moves).Some? && k <= |moves|
    ensures Play(u, moves[..k]).Some?
    decreases |moves|
  {
    hide ApplyTx;
    if k == |moves| {
      assert moves[..k] == moves;
    } else {
      var front := moves[..|moves| - 1];
      assert front[..k] == moves[..k];
      PlayedFront(u, front, k);
    }
  }

  // ---- the pool, step by step ------------------------------------------------------

  predicate SharesInput(a: Tx, b: Tx) {
    exists i :: 0 <= i < |a.vin| && a.vin[i] in b.vin
  }

  /** The other pool transactions that spend an input of `tx`. */
  function ConflictsIn(m: map<Hash, Tx>, tx: Tx): set<Hash> {
    set h | h in m && h != tx.txid && SharesInput(m[h], tx)
  }

  lemma ConflictsAre(m: map<Hash, Tx>, next: map<OutPoint, InPoint>, tx: Tx)
    requires Indexed(m, next)
    ensures Conflicts(next, tx, |tx.vin|) == ConflictsIn(m, tx)
  {
    forall h | h in ConflictsIn(m, tx)
      ensures h in Conflicts(next, tx, |tx.vin|)
    {
      var i :| 0 <= i < |m[h].vin| && m[h].vin[i] in tx.vin;
      SpenderConflicts(m, next, tx, h, i);
    }
    forall h | h in Conflicts(next, tx, |tx.vin|)
      ensures h in ConflictsIn(m, tx)
    {
      var i :| 0 <= i < |tx.vin| && tx.vin[i] in next && next[tx.vin[i]].spender != tx.txid &&
        h == next[tx.vin[i]].spender;
      assert m[h].vin[next[tx.vin[i]].n] == tx.vin[i];
    }
  }

  /** What accept asks, said of the pool alone. */
  predicate Welcome(m: map<Hash, Tx>, u: CoinMap, nSpendHeight: int, tx: Tx, oracle: bool) {
    && CheckTransaction(tx) && !tx.IsCoinBase() && tx.txid !in m && tx.txid !in u && ConflictsIn(m, tx) == {}
    && (forall i :: 0 <= i < |tx.vin| ==> Seen(u, m, tx.vin[i].hash).IsAvailable(tx.vin[i].n))
    && CheckInputs(Viewed(u, m, tx, |tx.vin|), tx, nSpendHeight)
    && oracle
  }

  lemma WelcomeIs(m: map<Hash, Tx>, next: map<OutPoint, InPoint>, u: CoinMap, nSpendHeight: int, tx: Tx, oracle: bool)
    requires Indexed(m, next)
    ensures Acceptable(m, next, u, nSpendHeight, tx, oracle) <==> Welcome(m, u, nSpendHeight, tx, oracle)
  {
    hide CheckInputs, CheckTransaction, Seen, Viewed;
    if tx.txid !in m {
      ConflictsAre(m, next, tx);
      forall i | 0 <= i < |tx.vin| && tx.vin[i] in next
        ensures ConflictsIn(m, tx) != {}
      {
        ConflictsAll(next, tx, i);
        SpenderKnown(m, next, tx.vin[i]);
      }
      if c :| c in Conflicts(next, tx, |tx.vin|) {
        assert exists i :: 0 <= i < |tx.vin| && tx.vin[i] in next;
      }
    }
  }

  /** What offering transactions depends on besides the pool: the coins, the height of the next block, the verdicts. */
  datatype Offering = Offering(u: CoinMap, nSpendHeight: int, oracles: nat -> bool, rank: Hash -> nat)

  /** The transactions offered in turn: one that is refused goes, with all that descends from it. */
  ghost function OfferedAll(m: map<Hash, Tx>, txs: seq<Tx>, o: Offering): map<Hash, Tx> {
    if txs == [] then m
    else
      var n := |txs| - 1;
      var p := OfferedAll(m, txs[..n], o);
      if Welcome(p, o.u, o.nSpendHeight, txs[n], o.oracles(n)) then p[txs[n].txid := txs[n]]
      else WithoutDescendants(p, txs[n].txid, o.rank)
  }

  /** Without a transaction that was confirmed, and without its conflicts and what descends from them. */
  ghost function Cleared(m: map<Hash, Tx>, tx: Tx, rank: Hash -> nat): map<Hash, Tx> {
    WithoutReached(m - {tx.txid}, ConflictsIn(m - {tx.txid}, tx), rank)
  }

  ghost function ClearedAll(m: map<Hash, Tx>, txs: seq<Tx>, rank: Hash -> nat): map<Hash, Tx> {
    if txs == [] then m else Cleared(ClearedAll(m, txs[..|txs| - 1], rank), txs[|txs| - 1], rank)
  }

  /** The pool after a reorganisation. */
  ghost function Switched(m: map<Hash, Tx>, vResurrect: seq<Tx>, vDelete: seq<Tx>, o: Offering): map<Hash, Tx> {
    ClearedAll(OfferedAll(m, vResurrect, o), vDelete, o.rank)
  }

  // ---- what is taken out ------------------------------------------------------

  /** The k-th transaction offered is refused, and `h` is it or descends from it. */
  ghost predicate SweptByOffer(m: map<Hash, Tx>, txs: seq<Tx>, o: Offering, k: nat, h: Hash)
    requires k < |txs|
  {
    var p := OfferedAll(m, txs[..k], o);
    !Welcome(p, o.u, o.nSpendHeight, txs[k], o.oracles(k)) && DescendsFrom(p, txs[k].txid, h, o.rank)
  }

  /** `h` is the k-th transaction confirmed, or one of its conflicts, or descends from one. */
  ghost predicate SweptByBlock(m: map<Hash, Tx>, txs: seq<Tx>, rank: Hash -> nat, k: nat, h: Hash)
    requires k < |txs|
  {
    var p := ClearedAll(m, txs[..k], rank) - {txs[k].txid};
    h == txs[k].txid || Reached(p, ConflictsIn(p, txs[k]), h, rank)
  }

  ghost predicate Swept(m: map<Hash, Tx>, vResurrect: seq<Tx>, vDelete: seq<Tx>, o: Offering, h: Hash) {
    || (exists k :: 0 <= k < |vResurrect| && SweptByOffer(m, vResurrect, o, k, h))
    || (exists k :: 0 <= k < |vDelete| && SweptByBlock(OfferedAll(m, vResurrect, o), vDelete, o.rank, k, h))
  }

  /** The input names an output that is in no transaction of the pool and no longer in the coins: its transaction was
      disconnected and is not offered again. */
  predicate Missing(m: map<Hash, Tx>, u: CoinMap, lost: set<Hash>, op: OutPoint) {
    op.hash in lost && op.hash !in m && !Has(u, op)
  }

  predicate Stranded(m: map<Hash, Tx>, u: CoinMap, lost: set<Hash>, h: Hash) {
    h in m && exists i :: 0 <= i < |m[h].vin| && Missing(m, u, lost, m[h].vin[i])
  }

  /** A transaction without its input is left by the offers unless one of them sweeps it away; it never comes back. */
  lemma {:induction false} OffersLeave(m: map<Hash, Tx>, txs: seq<Tx>, o: Offering, h: Hash, op: OutPoint, w: World)
    requires h in m && op in m[h].vin && op.hash !in m && op.hash !in Ids(txs) && !Has(o.u, op)
    requires w.body(h) == m[h] && forall k :: 0 <= k < |txs| ==> w.body(txs[k].txid) == txs[k]
    ensures var p := OfferedAll(m, txs, o);
      && (h in p <==> forall k :: 0 <= k < |txs| ==> !SweptByOffer(m, txs, o, k, h))
      && (h in p ==> p[h] == m[h]) && op.hash !in p
  {
    hide Welcome, DescendsFrom;
    if txs != [] {
      var n := |txs| - 1;
      var front, tx := txs[..n], txs[n];
      IdsFront(txs);
      OffersLeave(m, front, o, h, op, w);
      var p := OfferedAll(m, front, o);
      forall k | 0 <= k < n
        ensures SweptByOffer(m, txs, o, k, h) <==> SweptByOffer(m, front, o, k, h)
      {
        assert txs[..k] == front[..k];
      }
      if Welcome(p, o.u, o.nSpendHeight, tx, o.oracles(n)) {
        NotWithoutInput(p, o, n, tx, op);
        assert !SweptByOffer(m, txs, o, n, h);
      } else {
        assert SweptByOffer(m, txs, o, n, h) <==> DescendsFrom(p, tx.txid, h, o.rank);
      }
    }
  }

  lemma NotWithoutInput(p: map<Hash, Tx>, o: Offering, n: nat, tx: Tx, op: OutPoint)
    requires Welcome(p, o.u, o.nSpendHeight, tx, o.oracles(n)) && op.hash !in p && !Has(o.u, op)
    ensures op !in tx.vin
  {
    hide CheckInputs, CheckTransaction;
  }

  lemma IdsFront(txs: seq<Tx>)
    requires txs != []
    ensures Ids(txs) == Ids(txs[..|txs| - 1]) + {txs[|txs| - 1].txid}
  {
    var n := |txs| - 1;
    forall h | h in Ids(txs)
      ensures h in Ids(txs[..n]) + {txs[n].txid}
    {
      var i :| 0 <= i < |txs| && txs[i].txid == h;
      assert i < n ==> txs[..n][i].txid == h;
    }
    forall h | h in Ids(txs[..n])
      ensures h in Ids(txs)
    {
      var i :| 0 <= i < n && txs[..n][i].txid == h;
      assert txs[i].txid == h;
    }
  }

  /** What the confirmed blocks leave is exactly what none of their transactions sweeps away. */
  lemma {:induction false} BlocksLeave(m: map<Hash, Tx>, txs: seq<Tx>, rank: Hash -> nat, h: Hash)
    ensures var p := ClearedAll(m, txs, rank);
      && (h in p <==> h in m && forall k :: 0 <= k < |txs| ==> !SweptByBlock(m, txs, rank, k, h))
      && (h in p ==> p[h] == m[h])
  {
    hide Reached;
    if txs != [] {
      var n := |txs| - 1;
      var front := txs[..n];
      BlocksLeave(m, front, rank, h);
      forall k | 0 <= k < n
        ensures SweptByBlock(m, txs, rank, k, h) <==> SweptByBlock(m, front, rank, k, h)
      {
        assert txs[..k] == front[..k];
      }
      var p := ClearedAll(m, front, rank) - {txs[n].txid};
      assert SweptByBlock(m, txs, rank, n, h) <==> h == txs[n].txid || Reached(p, ConflictsIn(p, txs[n]), h, rank);
    }
  }

  /** Where an input of the pool after the offers comes from. */
  lemma {:induction false} OfferedInputs(m: map<Hash, Tx>, txs: seq<Tx>, o: Offering, h: Hash, i: nat)
    requires h in OfferedAll(m, txs, o) && i < |OfferedAll(m, txs, o)[h].vin|
    ensures var tx := OfferedAll(m, txs, o)[h];
      var op := tx.vin[i];
      (h in m && m[h] == tx) || Has(o.u, op) || op.hash in m || op.hash in Ids(txs)
  {
    hide Welcome, DescendsFrom;
    if txs != [] {
      var n := |txs| - 1;
      var front, tx := txs[..n], txs[n];
      var p := OfferedAll(m, front, o);
      IdsFront(txs);
      if Welcome(p, o.u, o.nSpendHeight, tx, o.oracles(n)) && h == tx.txid {
        OfferedIds(m, front, o);
        if tx.vin[i].hash !in p && !Has(o.u, tx.vin[i]) {
          NotWithoutInput(p, o, n, tx, tx.vin[i]);
        }
      } else {
        OfferedInputs(m, front, o, h, i);
      }
    }
  }

  lemma {:induction false} OfferedIds(m: map<Hash, Tx>, txs: seq<Tx>, o: Offering)
    ensures OfferedAll(m, txs, o).Keys <= m.Keys + Ids(txs)
  {
    hide Welcome;
    if txs != [] {
      OfferedIds(m, txs[..|txs| - 1], o);
      IdsFront(txs);
    }
  }

  // ---- what backs the inputs of the pool ------------------------------------------------------

  /** An input is there, or comes from a transaction still to be looked at, or is spent by one still to be
      confirmed. */
  predicate Held(m: map<Hash, Tx>, u: CoinMap, excused: set<Hash>, pending: seq<Tx>, op: OutPoint) {
    InputThere(m, u, op) || op.hash in excused || SpentIn(pending, op)
  }

  ghost predicate Backed(m: map<Hash, Tx>, u: CoinMap, excused: set<Hash>, pending: seq<Tx>) {
    forall h, i :: h in m && 0 <= i < |m[h].vin| ==> Held(m, u, excused, pending, m[h].vin[i])
  }

  function Ids(txs: seq<Tx>): set<Hash> {
    set i | 0 <= i < |txs| :: txs[i].txid
  }

  lemma IdsNext(txs: seq<Tx>, i: nat)
    requires i < |txs|
    ensures Ids(txs[i..]) == {txs[i].txid} + Ids(txs[i + 1..])
  {
    var rest := txs[i + 1..];
    forall h | h in Ids(txs[i..]) ensures h in {txs[i].txid} + Ids(rest) {
      var k :| 0 <= k < |txs[i..]| && txs[i..][k].txid == h;
      assert k > 0 ==> rest[k - 1].txid == h;
    }
    forall h | h in Ids(rest) ensures h in Ids(txs[i..]) {
      var k :| 0 <= k < |rest| && rest[k].txid == h;
      assert txs[i..][k + 1].txid == h;
    }
    assert txs[i..][0].txid in Ids(txs[i..]);
  }

  /** The pool fitted the coins of the old branch: each input is from the pool, from above the fork, or from below
      it. */
  lemma BackedAtStart(m: map<Hash, Tx>, fork: CoinMap, gone: seq<Move>, moves: seq<Move>, w: World)
    requires Real(m, w) && WfUtxo(fork) && MovesOk(moves, w) && Play(fork, gone).Some? && Play(fork, moves).Some?
    requires Fits(m, Play(fork, gone).value)
    ensures Backed(m, Play(fork, moves).value, Ids(TxsOf(gone)), TxsOf(moves))
  {
    hide MovesOk, WfUtxo, Play;
    var u := Play(fork, moves).value;
    forall h, i | h in m && 0 <= i < |m[h].vin|
      ensures Held(m, u, Ids(TxsOf(gone)), TxsOf(moves), m[h].vin[i])
    {
      var op := m[h].vin[i];
      assert InputThere(m, Play(fork, gone).value, op) && NamesOutputs(m[h], w);
      if op.hash !in m && op.hash !in Ids(TxsOf(gone)) {
        NotOf(gone, op.hash);
        Backward(fork, gone, op);
        Forward(fork, moves, op, w);
      }
    }
  }

  lemma NotOf(moves: seq<Move>, h: Hash)
    requires h !in Ids(TxsOf(moves))
    ensures forall i :: 0 <= i < |moves| ==> moves[i].tx.txid != h
  {
    forall i | 0 <= i < |moves| ensures moves[i].tx.txid != h {
      assert TxsOf(moves)[i].txid in Ids(TxsOf(moves));
    }
  }

  lemma BackedAccepted(m: map<Hash, Tx>, u: CoinMap, excused: set<Hash>, pending: seq<Tx>, nSpendHeight: int, tx: Tx,
                       oracle: bool)
    requires Backed(m, u, {tx.txid} + excused, pending) && Welcome(m, u, nSpendHeight, tx, oracle)
    ensures Backed(m[tx.txid := tx], u, excused, pending)
  {
    hide SpentIn, CheckTransaction, CheckInputs;
    var m1 := m[tx.txid := tx];
    forall h, i | h in m1 && 0 <= i < |m1[h].vin|
      ensures Held(m1, u, excused, pending, m1[h].vin[i])
    {
      if h == tx.txid {
        assert Seen(u, m, tx.vin[i].hash).IsAvailable(tx.vin[i].n);
      } else {
        assert Held(m, u, {tx.txid} + excused, pending, m[h].vin[i]);
      }
    }
  }

  lemma BackedRefused(m: map<Hash, Tx>, u: CoinMap, excused: set<Hash>, pending: seq<Tx>, d: Hash, rank: Hash -> nat)
    requires TxsOk(m, rank) && Backed(m, u, {d} + excused, pending)
    ensures Backed(WithoutDescendants(m, d, rank), u, excused, pending)
  {
    hide SpentIn, CheckTransaction;
    var left := WithoutDescendants(m, d, rank);
    forall h, i | h in left && 0 <= i < |left[h].vin|
      ensures Held(left, u, excused, pending, left[h].vin[i])
    {
      var op := m[h].vin[i];
      assert Held(m, u, {d} + excused, pending, op) && rank(op.hash) < rank(h);
      assert !DescendsFrom(m, d, op.hash, rank);
      assert DescendsFrom(m, d, d, rank);
    }
  }

  lemma BackedCleared(m: map<Hash, Tx>, u: CoinMap, excused: set<Hash>, pending: seq<Tx>, k: nat, w: World)
    requires k < |pending| && Backed(m, u, excused, pending[k..]) && TxsOk(m, w.rank) && Real(m, w)
    requires Genuine(pending[k], w)
    requires forall n :: 0 <= n < |pending[k].vout| ==>
      var op := OutPoint(pending[k].txid, n); Has(u, op) || SpentIn(pending[k + 1..], op)
    ensures Backed(Cleared(m, pending[k], w.rank), u, excused, pending[k + 1..])
  {
    hide CheckTransaction;
    var tx := pending[k];
    var m1 := m - {tx.txid};
    var starts := ConflictsIn(m1, tx);
    var left := WithoutReached(m1, starts, w.rank);
    forall h, i | h in left && 0 <= i < |left[h].vin|
      ensures Held(left, u, excused, pending[k + 1..], left[h].vin[i])
    {
      var op := m[h].vin[i];
      assert Held(m, u, excused, pending[k..], op);
      if op.hash == tx.txid {
        assert NamesOutputs(m[h], w);
        assert op == OutPoint(tx.txid, op.n);
      } else if op.hash in m {
        if Reached(m1, starts, op.hash, w.rank) {
          ReachedClosed(m1, starts, h, i, w.rank);
        }
      } else if SpentIn(pending[k..], op) {
        if op in tx.vin {
          assert h in starts;
          RestOf(m1, starts, w.rank);
        }
        LaterSpent(pending, k, op);
      }
    }
  }

  lemma LaterSpent(txs: seq<Tx>, k: nat, op: OutPoint)
    requires k < |txs| && SpentIn(txs[k..], op)
    ensures op in txs[k].vin || SpentIn(txs[k + 1..], op)
  {
    var j :| 0 <= j < |txs[k..]| && op in txs[k..][j].vin;
    if j > 0 {
      assert txs[k + 1..][j - 1] == txs[k..][j];
    }
  }

  /** With nothing left to wait for, the pool fits exactly where each transaction stranded before was swept away. */
  lemma StrandedSwept(m: map<Hash, Tx>, vResurrect: seq<Tx>, vDelete: seq<Tx>, o: Offering, lost: set<Hash>, w: World)
    requires Real(m, w) && lost !! Ids(vResurrect)
    requires forall k :: 0 <= k < |vResurrect| ==> w.body(vResurrect[k].txid) == vResurrect[k]
    requires Backed(Switched(m, vResurrect, vDelete, o), o.u, lost - m.Keys, [])
    ensures Fits(Switched(m, vResurrect, vDelete, o), o.u) <==>
      forall h :: Stranded(m, o.u, lost, h) ==> Swept(m, vResurrect, vDelete, o, h)
  {
    hide OfferedAll, ClearedAll, SweptByOffer, SweptByBlock, SpentIn;
    var p, q := OfferedAll(m, vResurrect, o), Switched(m, vResurrect, vDelete, o);
    forall h | Stranded(m, o.u, lost, h)
      ensures h in q <==> !Swept(m, vResurrect, vDelete, o, h)
      ensures h in q ==> exists i :: 0 <= i < |q[h].vin| && !InputThere(q, o.u, q[h].vin[i])
    {
      StrandedLeft(m, vResurrect, vDelete, o, lost, h, w);
    }
    forall h, i | h in q && 0 <= i < |q[h].vin| && !InputThere(q, o.u, q[h].vin[i])
      ensures Stranded(m, o.u, lost, h)
    {
      assert Held(q, o.u, lost - m.Keys, [], q[h].vin[i]);
      NoneSpent(q[h].vin[i]);
      BlocksLeave(p, vDelete, o.rank, h);
      OfferedInputs(m, vResurrect, o, h, i);
      assert Missing(m, o.u, lost, m[h].vin[i]);
    }
  }

  lemma NoneSpent(op: OutPoint)
    ensures !SpentIn([], op)
  {
  }

  lemma StrandedLeft(m: map<Hash, Tx>, vResurrect: seq<Tx>, vDelete: seq<Tx>, o: Offering, lost: set<Hash>, h: Hash,
                     w: World)
    requires Real(m, w) && lost !! Ids(vResurrect) && Stranded(m, o.u, lost, h)
    requires forall k :: 0 <= k < |vResurrect| ==> w.body(vResurrect[k].txid) == vResurrect[k]
    ensures var q := Switched(m, vResurrect, vDelete, o);
      && (h in q <==> !Swept(m, vResurrect, vDelete, o, h))
      && (h in q ==> exists i :: 0 <= i < |q[h].vin| && !InputThere(q, o.u, q[h].vin[i]))
  {
    hide OfferedAll, ClearedAll, SweptByOffer, SweptByBlock;
    var p, q := OfferedAll(m, vResurrect, o), Switched(m, vResurrect, vDelete, o);
    var i :| 0 <= i < |m[h].vin| && Missing(m, o.u, lost, m[h].vin[i]);
    var op := m[h].vin[i];
    OffersLeave(m, vResurrect, o, h, op, w);
    BlocksLeave(p, vDelete, o.rank, h);
    BlocksLeave(p, vDelete, o.rank, op.hash);
    if h in q {
      assert q[h].vin[i] == op && !InputThere(q, o.u, op);
    }
  }

  // ---- from the fork to the new coins ------------------------------------------------------

  lemma BackedAt(m: map<Hash, Tx>, u: CoinMap, a: set<Hash>, b: set<Hash>, pending: seq<Tx>)
    requires Backed(m, u, a, pending) && a - m.Keys <= b
    ensures Backed(m, u, b, pending)
  {
    hide SpentIn;
    forall h, i | h in m && 0 <= i < |m[h].vin|
      ensures Held(m, u, b, pending, m[h].vin[i])
    {
      assert Held(m, u, a, pending, m[h].vin[i]);
    }
  }

  lemma OfferedNext(m: map<Hash, Tx>, txs: seq<Tx>, o: Offering, i: nat)
    requires i < |txs|
    ensures var p := OfferedAll(m, txs[..i], o);
      OfferedAll(m, txs[..i + 1], o) ==
      if Welcome(p, o.u, o.nSpendHeight, txs[i], o.oracles(i)) then p[txs[i].txid := txs[i]]
      else WithoutDescendants(p, txs[i].txid, o.rank)
  {
    assert txs[..i + 1][..i] == txs[..i];
  }

  lemma OfferedNone(m: map<Hash, Tx>, txs: seq<Tx>, o: Offering)
    ensures OfferedAll(m, txs[..0], o) == m
  {
  }

  /** Whatever is accepted or refused, what is in the pool stays well formed. */
  lemma {:induction false} OfferedReal(m: map<Hash, Tx>, txs: seq<Tx>, o: Offering, w: World)
    requires TxsOk(m, w.rank) && Real(m, w) && CoinsReal(o.u, w)
    requires forall i :: 0 <= i < |txs| ==> Genuine(txs[i], w)
    ensures var p := OfferedAll(m, txs, o); TxsOk(p, w.rank) && Real(p, w)
  {
    hide CheckTransaction, Welcome, TxsOk, Real, CoinsReal, WithoutDescendants, NamesOutputs;
    if txs != [] {
      var n := |txs| - 1;
      var p := OfferedAll(m, txs[..n], o);
      OfferedReal(m, txs[..n], o, w);
      if Welcome(p, o.u, o.nSpendHeight, txs[n], o.oracles(n)) {
        WelcomeReal(p, o.u, o.nSpendHeight, txs[n], o.oracles(n), w);
      } else {
        PartlyGone(p, txs[n].txid, o.rank);
        PartReal(p, WithoutDescendants(p, txs[n].txid, o.rank), w);
      }
    }
  }

  lemma PartReal(m: map<Hash, Tx>, part: map<Hash, Tx>, w: World)
    requires TxsOk(m, w.rank) && Real(m, w) && forall x :: x in part ==> x in m && m[x] == part[x]
    ensures TxsOk(part, w.rank) && Real(part, w)
  {
    hide CheckTransaction, Committed, NamesOutputs;
  }

  lemma WelcomeReal(m: map<Hash, Tx>, u: CoinMap, nSpendHeight: int, tx: Tx, oracle: bool, w: World)
    requires Welcome(m, u, nSpendHeight, tx, oracle) && TxsOk(m, w.rank) && Real(m, w) && CoinsReal(u, w)
    requires Genuine(tx, w)
    ensures TxsOk(m[tx.txid := tx], w.rank) && Real(m[tx.txid := tx], w)
  {
    hide *;
    WelcomeNames(m, u, nSpendHeight, tx, oracle, w);
    AddedReal(m, tx, w);
  }

  lemma AddedReal(m: map<Hash, Tx>, tx: Tx, w: World)
    requires TxsOk(m, w.rank) && Real(m, w) && Genuine(tx, w) && NamesOutputs(tx, w)
    requires CheckTransaction(tx) && !tx.IsCoinBase()
    ensures TxsOk(m[tx.txid := tx], w.rank) && Real(m[tx.txid := tx], w)
  {
    hide CheckTransaction, Committed, NamesOutputs, Tx.IsCoinBase;
  }

  lemma WelcomeNames(m: map<Hash, Tx>, u: CoinMap, nSpendHeight: int, tx: Tx, oracle: bool, w: World)
    requires Welcome(m, u, nSpendHeight, tx, oracle) && Real(m, w) && CoinsReal(u, w)
    ensures NamesOutputs(tx, w) && CheckTransaction(tx) && !tx.IsCoinBase()
  {
    hide CheckInputs;
    forall i | 0 <= i < |tx.vin|
      ensures tx.vin[i].n < |w.body(tx.vin[i].hash).vout|
    {
      assert Seen(u, m, tx.vin[i].hash).IsAvailable(tx.vin[i].n);
    }
  }

  /** After the offers no input waits for one of them. */
  lemma {:induction false} OffersBack(m: map<Hash, Tx>, txs: seq<Tx>, o: Offering, lost: set<Hash>, pending: seq<Tx>,
                                      i: nat, w: World)
    requires TxsOk(m, w.rank) && Real(m, w) && CoinsReal(o.u, w) && o.rank == w.rank && i <= |txs|
    requires forall k :: 0 <= k < |txs| ==> Genuine(txs[k], w)
    requires Backed(m, o.u, Ids(txs) + lost, pending)
    ensures Backed(OfferedAll(m, txs[..i], o), o.u, Ids(txs[i..]) + lost, pending)
  {
    hide *;
    if i == 0 {
      OfferedNone(m, txs, o);
      assert txs[0..] == txs;
    } else {
      OffersBack(m, txs, o, lost, pending, i - 1, w);
      var p, tx, rest := OfferedAll(m, txs[..i - 1], o), txs[i - 1], Ids(txs[i..]) + lost;
      OfferedReal(m, txs[..i - 1], o, w);
      OfferedNext(m, txs, o, i - 1);
      IdsNext(txs, i - 1);
      assert Ids(txs[i - 1..]) + lost == {tx.txid} + rest;
      if Welcome(p, o.u, o.nSpendHeight, tx, o.oracles(i - 1)) {
        BackedAccepted(p, o.u, rest, pending, o.nSpendHeight, tx, o.oracles(i - 1));
      } else {
        BackedRefused(p, o.u, rest, pending, tx.txid, w.rank);
      }
    }
  }

  lemma ClearedNext(m: map<Hash, Tx>, txs: seq<Tx>, rank: Hash -> nat, k: nat)
    requires k < |txs|
    ensures ClearedAll(m, txs[..k + 1], rank) == Cleared(ClearedAll(m, txs[..k], rank), txs[k], rank)
  {
    assert txs[..k + 1][..k] == txs[..k];
  }

  lemma ClearedNone(m: map<Hash, Tx>, txs: seq<Tx>, rank: Hash -> nat)
    ensures ClearedAll(m, txs[..0], rank) == m
  {
  }

  lemma {:induction false} ClearedReal(m: map<Hash, Tx>, txs: seq<Tx>, w: World)
    requires TxsOk(m, w.rank) && Real(m, w)
    ensures var p := ClearedAll(m, txs, w.rank); TxsOk(p, w.rank) && Real(p, w)
  {
    hide TxsOk, Real, Reached;
    if txs != [] {
      ClearedReal(m, txs[..|txs| - 1], w);
      var p := ClearedAll(m, txs[..|txs| - 1], w.rank);
      PartReal(p, Cleared(p, txs[|txs| - 1], w.rank), w);
    }
  }

  /** After the confirmed transactions are removed with all conflicts, no input waits for one of those. */
  lemma {:induction false} ClearsBack(m: map<Hash, Tx>, fork: CoinMap, moves: seq<Move>, lost: set<Hash>, k: nat,
                                      w: World)
    requires TxsOk(m, w.rank) && Real(m, w) && WfUtxo(fork) && MovesOk(moves, w) && k <= |moves|
    requires Play(fork, moves).Some? && Backed(m, Play(fork, moves).value, lost, TxsOf(moves))
    ensures Backed(ClearedAll(m, TxsOf(moves)[..k], w.rank), Play(fork, moves).value, lost, TxsOf(moves)[k..])
  {
    hide *;
    var txs, u := TxsOf(moves), Play(fork, moves).value;
    if k == 0 {
      ClearedNone(m, txs, w.rank);
      assert txs[0..] == txs;
    } else {
      ClearsBack(m, fork, moves, lost, k - 1, w);
      var p, tx := ClearedAll(m, txs[..k - 1], w.rank), txs[k - 1];
      ClearedReal(m, txs[..k - 1], w);
      MoveAt(moves, k - 1, w);
      forall n | 0 <= n < |tx.vout|
        ensures Has(u, OutPoint(tx.txid, n)) || SpentIn(txs[k..], OutPoint(tx.txid, n))
      {
        Created(fork, moves, k - 1, n, w);
      }
      ClearedNext(m, txs, w.rank, k - 1);
      BackedCleared(p, u, lost, txs, k - 1, w);
    }
  }

  lemma MoveAt(moves: seq<Move>, k: nat, w: World)
    requires MovesOk(moves, w) && k < |moves|
    ensures moves[k].tx == TxsOf(moves)[k] && Genuine(TxsOf(moves)[k], w)
  {
  }

  /** Main result: a pool that fitted the coins of the old branch, `gone` above the fork, fits those of the new branch
      after the switch if and only if every transaction of the old pool that spends a missing output of a disconnected
      transaction not offered again is refused, confirmed, in conflict, or a descendant of one refused or in
      conflict. */
  lemma SwitchFits(m: map<Hash, Tx>, vResurrect: seq<Tx>, o: Offering, fork: CoinMap, gone: seq<Move>,
                   moves: seq<Move>, w: World)
    requires TxsOk(m, w.rank) && Real(m, w) && WfUtxo(fork) && MovesOk(moves, w) && o.rank == w.rank
    requires Play(fork, gone).Some? && Fits(m, Play(fork, gone).value)
    requires Play(fork, moves) == Some(o.u) && CoinsReal(o.u, w)
    requires forall i :: 0 <= i < |vResurrect| ==> Genuine(vResurrect[i], w)
    ensures var lost, vDelete := Ids(TxsOf(gone)) - Ids(vResurrect), TxsOf(moves);
      Fits(Switched(m, vResurrect, vDelete, o), o.u) <==>
      forall h :: Stranded(m, o.u, lost, h) ==> Swept(m, vResurrect, vDelete, o, h)
  {
    hide *;
    var all, vDelete := Ids(TxsOf(gone)), TxsOf(moves);
    var lost := all - Ids(vResurrect);
    var p, n := OfferedAll(m, vResurrect, o), |vResurrect|;
    BackedAtStart(m, fork, gone, moves, w);
    BackedAt(m, o.u, all, Ids(vResurrect) + (lost - m.Keys), vDelete);
    OffersBack(m, vResurrect, o, lost - m.Keys, vDelete, n, w);
    NoIds(vResurrect);
    assert vResurrect[..n] == vResurrect && {} + (lost - m.Keys) == lost - m.Keys;
    OfferedReal(m, vResurrect, o, w);
    ClearsBack(p, fork, moves, lost - m.Keys, |moves|, w);
    assert vDelete[..|moves|] == vDelete && vDelete[|moves|..] == [];
    SwitchedIs(m, vResurrect, vDelete, o);
    Bodies(vResurrect, w);
    StrandedSwept(m, vResurrect, vDelete, o, lost, w);
  }

  lemma NoIds(txs: seq<Tx>)
    ensures Ids(txs[|txs|..]) == {}
  {
  }

  lemma SwitchedIs(m: map<Hash, Tx>, vResurrect: seq<Tx>, vDelete: seq<Tx>, o: Offering)
    ensures Switched(m, vResurrect, vDelete, o) == ClearedAll(OfferedAll(m, vResurrect, o), vDelete, o.rank)
  {
  }

  lemma Bodies(txs: seq<Tx>, w: World)
    requires forall i :: 0 <= i < |txs| ==> Genuine(txs[i], w)
    ensures forall i :: 0 <= i < |txs| ==> w.body(txs[i].txid) == txs[i]
  {
  }

  // ---- the loops ------------------------------------------------------

  /** Transactions of the disconnected blocks are offered again; one that is refused goes with all that descends from
      it. */
  method Resurrect(pool: CTxMemPool, vResurrect: seq<Tx>, o: Offering)
    requires PoolOk(pool.mapTx, pool.mapNextTx, pool.w) && CoinsReal(o.u, pool.w) && o.rank == pool.w.rank
    requires forall i :: 0 <= i < |vResurrect| ==> Genuine(vResurrect[i], pool.w)
    modifies pool
    ensures PoolOk(pool.mapTx, pool.mapNextTx, pool.w) && pool.mapTx == OfferedAll(old(pool.mapTx), vResurrect, o)
  {
    hide *;
    ghost var start := pool.mapTx;
    OfferedNone(start, vResurrect, o);
    for i := 0 to |vResurrect|
      invariant PoolOk(pool.mapTx, pool.mapNextTx, pool.w) && pool.mapTx == OfferedAll(start, vResurrect[..i], o)
    {
      var tx := vResurrect[i];
      ghost var m, next := pool.mapTx, pool.mapNextTx;
      TxsAreOk(m, next, pool.w);
      WelcomeIs(m, next, o.u, o.nSpendHeight, tx, o.oracles(i));
      OfferedNext(start, vResurrect, o, i);
      var ok := pool.Accept(tx, o.u, o.nSpendHeight, o.oracles(i));
      if !ok {
        ghost var bound := BoundOf(m, tx, pool.w.rank);
        pool.Remove(tx, true, bound);
      }
    }
    assert vResurrect[..|vResurrect|] == vResurrect;
  }

  lemma BoundOf(m: map<Hash, Tx>, tx: Tx, rank: Hash -> nat) returns (bound: nat)
    ensures Bounded(m, rank, bound) && rank(tx.txid) <= bound
  {
    bound := BoundExists(m, rank);
    bound := if bound < rank(tx.txid) then rank(tx.txid) else bound;
  }

  lemma ClearedIs(m: map<Hash, Tx>, next: map<OutPoint, InPoint>, tx: Tx, rank: Hash -> nat)
    requires Indexed(m - {tx.txid}, next)
    ensures Cleared(m, tx, rank) == WithoutReached(m - {tx.txid}, Conflicts(next, tx, |tx.vin|), rank)
  {
    ConflictsAre(m - {tx.txid}, next, tx);
  }

  /** Transactions of the connected blocks leave the pool, with all that conflicts with them. */
  method DeleteConnected(pool: CTxMemPool, vDelete: seq<Tx>)
    requires PoolOk(pool.mapTx, pool.mapNextTx, pool.w)
    requires forall i :: 0 <= i < |vDelete| ==> Genuine(vDelete[i], pool.w)
    modifies pool
    ensures PoolOk(pool.mapTx, pool.mapNextTx, pool.w)
    ensures pool.mapTx == ClearedAll(old(pool.mapTx), vDelete, pool.w.rank)
  {
    hide *;
    ghost var start := pool.mapTx;
    ClearedNone(start, vDelete, pool.w.rank);
    for k := 0 to |vDelete|
      invariant PoolOk(pool.mapTx, pool.mapNextTx, pool.w)
      invariant pool.mapTx == ClearedAll(start, vDelete[..k], pool.w.rank)
    {
      var tx := vDelete[k];
      ghost var m := pool.mapTx;
      ClearedNext(start, vDelete, pool.w.rank, k);
      pool.Remove(tx, false, 0);
      TxsAreOk(pool.mapTx, pool.mapNextTx, pool.w);
      ClearedIs(m, pool.mapNextTx, tx, pool.w.rank);
      pool.RemoveConflicts(tx);
    }
    assert vDelete[..|vDelete|] == vDelete;
  }

  /** The last two loops of SetBestChain, one after the other. */
  method SwitchPool(pool: CTxMemPool, vResurrect: seq<Tx>, vDelete: seq<Tx>, o: Offering)
    requires PoolOk(pool.mapTx, pool.mapNextTx, pool.w) && CoinsReal(o.u, pool.w) && o.rank == pool.w.rank
    requires forall i :: 0 <= i < |vResurrect| ==> Genuine(vResurrect[i], pool.w)
    requires forall i :: 0 <= i < |vDelete| ==> Genuine(vDelete[i], pool.w)
    modifies pool
    ensures PoolOk(pool.mapTx, pool.mapNextTx, pool.w)
    ensures pool.mapTx == Switched(old(pool.mapTx), vResurrect, vDelete, o)
  {
    hide OfferedAll, ClearedAll, PoolOk, Genuine, CoinsReal;
    Resurrect(pool, vResurrect, o);
    DeleteConnected(pool, vDelete);
  }
}
