/** The memory pool and its index of spent outputs (CTxMemPool in src/main.h and src/main.cpp). */
module MemPool {
  import opened Basics
  import opened CoinTypes
  import opened Sums
  import opened Utxo
  import opened Spending
  import opened BlockChecks

  /** Which transaction spends an output, and with which of its inputs. */
  datatype InPoint = InPoint(spender: Hash, n: nat)

  /** A transaction id is a hash over the ids of its inputs: some measure of ids grows from parent to child. */
  ghost predicate Committed(tx: Tx, rank: Hash -> nat) {
    forall i :: 0 <= i < |tx.vin| ==> rank(tx.vin[i].hash) < rank(tx.txid)
  }

  /** Every transaction is well formed and filed under its id. */
  ghost predicate TxsOk(m: map<Hash, Tx>, rank: Hash -> nat) {
    forall h :: h in m ==> m[h].txid == h && CheckTransaction(m[h]) && !m[h].IsCoinBase() && Committed(m[h], rank)
  }

  /** The index holds every input of every transaction, and nothing else. */
  ghost predicate Indexed(m: map<Hash, Tx>, next: map<OutPoint, InPoint>) {
    && (forall op :: op in next ==>
          next[op].spender in m && next[op].n < |m[next[op].spender].vin| && m[next[op].spender].vin[next[op].n] == op)
    && (forall h, i :: h in m && 0 <= i < |m[h].vin| ==> m[h].vin[i] in next && next[m[h].vin[i]] == InPoint(h, i))
  }

  /** What hashing settles: the transaction behind an id, and a measure that grows from parent to child. */
  datatype World = World(rank: Hash -> nat, body: Hash -> Tx)

  ghost predicate Genuine(tx: Tx, w: World) {
    w.body(tx.txid) == tx && Committed(tx, w.rank)
  }

  /** The inputs name outputs their parents really have. */
  ghost predicate NamesOutputs(tx: Tx, w: World) {
    forall i :: 0 <= i < |tx.vin| ==> tx.vin[i].n < |w.body(tx.vin[i].hash).vout|
  }

  ghost predicate Real(m: map<Hash, Tx>, w: World) {
    forall h :: h in m ==> w.body(h) == m[h] && NamesOutputs(m[h], w)
  }

  ghost predicate PoolOk(m: map<Hash, Tx>, next: map<OutPoint, InPoint>, w: World) {
    TxsOk(m, w.rank) && Indexed(m, next) && Real(m, w)
  }

  /** Inputs of pool transactions name outputs `tx` has. */
  ghost predicate SpendsInRange(m: map<Hash, Tx>, tx: Tx) {
    forall h, i :: h in m && 0 <= i < |m[h].vin| && m[h].vin[i].hash == tx.txid ==> m[h].vin[i].n < |tx.vout|
  }

  lemma GenuineInRange(m: map<Hash, Tx>, tx: Tx, w: World)
    requires Real(m, w) && Genuine(tx, w)
    ensures SpendsInRange(m, tx) && (tx.txid in m ==> m[tx.txid] == tx)
  {
    forall h, i | h in m && 0 <= i < |m[h].vin| && m[h].vin[i].hash == tx.txid
      ensures m[h].vin[i].n < |tx.vout|
    {
      assert NamesOutputs(m[h], w);
    }
  }

  /** `d` is `h`, or a pool transaction one of whose inputs descends from `h`. */
  ghost predicate DescendsFrom(m: map<Hash, Tx>, h: Hash, d: Hash, rank: Hash -> nat)
    decreases rank(d)
  {
    d == h || (d in m && exists i :: 0 <= i < |m[d].vin| && rank(m[d].vin[i].hash) < rank(d) &&
                                     DescendsFrom(m, h, m[d].vin[i].hash, rank))
  }

  /** The pool without `h` and all that descends from it. */
  ghost function WithoutDescendants(m: map<Hash, Tx>, h: Hash, rank: Hash -> nat): map<Hash, Tx> {
    map d | d in m && !DescendsFrom(m, h, d, rank) :: m[d]
  }

  lemma {:induction false} DescendsFurther(m: map<Hash, Tx>, h: Hash, d: Hash, rank: Hash -> nat)
    requires DescendsFrom(m, h, d, rank)
    ensures d == h || rank(h) < rank(d)
    decreases rank(d)
  {
    if d != h {
      var i :| 0 <= i < |m[d].vin| && rank(m[d].vin[i].hash) < rank(d) && DescendsFrom(m, h, m[d].vin[i].hash, rank);
      DescendsFurther(m, h, m[d].vin[i].hash, rank);
    }
  }

  /** Descent in part of the pool, below a descendant, is descent in all of it. */
  lemma {:induction false} DescendsThrough(m: map<Hash, Tx>, part: map<Hash, Tx>, h: Hash, c: Hash, d: Hash,
      rank: Hash -> nat)
    requires forall x :: x in part ==> x in m && m[x] == part[x]
    requires DescendsFrom(m, h, c, rank) && DescendsFrom(part, c, d, rank)
    ensures DescendsFrom(m, h, d, rank)
    decreases rank(d)
  {
    if d != c {
      var i :| 0 <= i < |part[d].vin| && rank(part[d].vin[i].hash) < rank(d) && DescendsFrom(part, c,
        part[d].vin[i].hash, rank);
      DescendsThrough(m, part, h, c, part[d].vin[i].hash, rank);
      assert m[d].vin[i] == part[d].vin[i];
    }
  }

  /** The transactions gone include every child of one that is gone. */
  ghost predicate ClosedUnder(m: map<Hash, Tx>, gone: set<Hash>) {
    forall d, i :: d in m && 0 <= i < |m[d].vin| && m[d].vin[i].hash in gone ==> d in gone
  }

  /** When no child of `h` is left and what is gone is closed, every descendant is gone. */
  lemma {:induction false} AllGone(m: map<Hash, Tx>, gone: set<Hash>, h: Hash, d: Hash, rank: Hash -> nat)
    requires ClosedUnder(m, gone) && DescendsFrom(m, h, d, rank) && d != h
    requires forall c, i :: c in m && c !in gone && 0 <= i < |m[c].vin| ==> m[c].vin[i].hash != h
    ensures d in gone
    decreases rank(d)
  {
    var i :| 0 <= i < |m[d].vin| && rank(m[d].vin[i].hash) < rank(d) && DescendsFrom(m, h, m[d].vin[i].hash, rank);
    if m[d].vin[i].hash != h {
      AllGone(m, gone, h, m[d].vin[i].hash, rank);
    }
  }

  /** What has left the pool `m` are descendants of `h`, with all their children. */
  ghost predicate DescendantsGone(m: map<Hash, Tx>, part: map<Hash, Tx>, h: Hash, rank: Hash -> nat) {
    && (forall x :: x in part ==> x in m && m[x] == part[x])
    && ClosedUnder(m, m.Keys - part.Keys)
    && (forall x :: x in m && x !in part ==> DescendsFrom(m, h, x, rank) && x != h)
  }

  lemma NothingGone(m: map<Hash, Tx>, h: Hash, rank: Hash -> nat)
    ensures DescendantsGone(m, m, h, rank)
  {
  }

  /** Taking out a child and its descendants keeps what is gone closed, and takes only descendants of `h`. */
  lemma GoneStep(m: map<Hash, Tx>, part: map<Hash, Tx>, h: Hash, c: Hash, rank: Hash -> nat)
    requires TxsOk(m, rank) && DescendantsGone(m, part, h, rank)
    requires c in part && DescendsFrom(m, h, c, rank) && c != h
    ensures DescendantsGone(m, WithoutDescendants(part, c, rank), h, rank) && c !in WithoutDescendants(part, c, rank)
  {
    var left := WithoutDescendants(part, c, rank);
    forall d, i | d in m && 0 <= i < |m[d].vin| && m[d].vin[i].hash in m.Keys - left.Keys
      ensures d in m.Keys - left.Keys
    {
      var p := m[d].vin[i].hash;
      if d in part && p in part {
        assert DescendsFrom(part, c, p, rank);
        assert part[d].vin[i].hash == p && rank(p) < rank(d);
        assert DescendsFrom(part, c, d, rank);
      }
    }
    forall x | x in m && x !in left
      ensures DescendsFrom(m, h, x, rank) && x != h
    {
      if x in part {
        DescendsThrough(m, part, h, c, x, rank);
        DescendsFurther(part, c, x, rank);
        DescendsFurther(m, h, c, rank);
      }
    }
  }

  /** No rank in the pool exceeds `bound`. */
  ghost predicate Bounded(m: map<Hash, Tx>, rank: Hash -> nat, bound: nat) {
    forall h :: h in m ==> rank(h) <= bound
  }

  lemma BoundedAt(m: map<Hash, Tx>, rank: Hash -> nat, bound: nat, h: Hash)
    requires Bounded(m, rank, bound) && h in m
    ensures rank(h) <= bound
  {
  }

  lemma TxsAreOk(m: map<Hash, Tx>, next: map<OutPoint, InPoint>, w: World)
    requires PoolOk(m, next, w)
    ensures TxsOk(m, w.rank) && Real(m, w) && Indexed(m, next)
  {
  }

  lemma PartlyGone(m: map<Hash, Tx>, c: Hash, rank: Hash -> nat)
    ensures var left := WithoutDescendants(m, c, rank); forall x :: x in left ==> x in m && m[x] == left[x]
  {
  }

  lemma PartOf(m: map<Hash, Tx>, part: map<Hash, Tx>, h: Hash, rank: Hash -> nat, bound: nat)
    requires DescendantsGone(m, part, h, rank) && Bounded(m, rank, bound)
    ensures Bounded(part, rank, bound) && forall x :: x in part ==> x in m && m[x] == part[x]
  {
  }

  // ---- what the steps keep -------------------------------------------------------------------------

  /** Erasing the inputs of the one transaction taken out. */
  lemma EraseInputs(m: map<Hash, Tx>, next: map<OutPoint, InPoint>, h: Hash, w: World)
    requires PoolOk(m, next, w) && h in m
    ensures PoolOk(m - {h}, next - Inputs(m[h], |m[h].vin|), w)
  {
    var m1, next1 := m - {h}, next - Inputs(m[h], |m[h].vin|);
    forall op
      ensures op in Inputs(m[h], |m[h].vin|) <==> op in next && next[op].spender == h
    {
      if op in next && next[op].spender == h {
        assert m[h].vin[next[op].n] == op;
      }
    }
    forall x, i | x in m1 && 0 <= i < |m1[x].vin|
      ensures m1[x].vin[i] in next1 && next1[m1[x].vin[i]] == InPoint(x, i)
    {
      assert next[m[x].vin[i]] == InPoint(x, i);
    }
  }

  /** The first `k` inputs. */
  function Inputs(tx: Tx, k: nat): set<OutPoint>
    requires k <= |tx.vin|
  {
    set i | 0 <= i < k :: tx.vin[i]
  }

  lemma NoInputs(tx: Tx, next: map<OutPoint, InPoint>)
    ensures next - Inputs(tx, 0) == next
  {
  }

  lemma InputsNext(tx: Tx, k: nat)
    requires k < |tx.vin|
    ensures Inputs(tx, k + 1) == Inputs(tx, k) + {tx.vin[k]} && Inputs(tx, 0) == {}
  {
  }

  /** The index that belongs to a pool with `tx` added. */
  function IndexWith(next: map<OutPoint, InPoint>, tx: Tx, k: nat): map<OutPoint, InPoint>
    requires k <= |tx.vin|
  {
    if k == 0 then next else IndexWith(next, tx, k - 1)[tx.vin[k - 1] := InPoint(tx.txid, k - 1)]
  }

  lemma {:induction false} IndexWithNew(next: map<OutPoint, InPoint>, tx: Tx, k: nat, i: nat)
    requires i < k <= |tx.vin| && forall a, b :: 0 <= a < b < |tx.vin| ==> tx.vin[a] != tx.vin[b]
    ensures tx.vin[i] in IndexWith(next, tx, k) && IndexWith(next, tx, k)[tx.vin[i]] == InPoint(tx.txid, i)
  {
    if i < k - 1 {
      IndexWithNew(next, tx, k - 1, i);
    }
  }

  lemma {:induction false} IndexWithOld(next: map<OutPoint, InPoint>, tx: Tx, k: nat, op: OutPoint)
    requires k <= |tx.vin| && forall i :: 0 <= i < k ==> tx.vin[i] != op
    ensures op in IndexWith(next, tx, k) <==> op in next
    ensures op in next ==> IndexWith(next, tx, k)[op] == next[op]
  {
    if k > 0 {
      IndexWithOld(next, tx, k - 1, op);
    }
  }

  /** None of its inputs is spent in the pool. */
  ghost predicate NoConflict(next: map<OutPoint, InPoint>, tx: Tx) {
    forall i :: 0 <= i < |tx.vin| ==> tx.vin[i] !in next
  }

  lemma AddedOk(m: map<Hash, Tx>, next: map<OutPoint, InPoint>, tx: Tx, w: World)
    requires PoolOk(m, next, w) && tx.txid !in m && NoConflict(next, tx)
    requires CheckTransaction(tx) && !tx.IsCoinBase() && Genuine(tx, w) && NamesOutputs(tx, w)
    ensures PoolOk(m[tx.txid := tx], IndexWith(next, tx, |tx.vin|), w)
  {
    hide IndexWith, Indexed, NoConflict, Committed, NamesOutputs;
    AddedIndexed(m, next, tx);
    hide CheckTransaction;
  }

  lemma AddedIndexed(m: map<Hash, Tx>, next: map<OutPoint, InPoint>, tx: Tx)
    requires Indexed(m, next) && tx.txid !in m && NoConflict(next, tx)
    requires forall a, b :: 0 <= a < b < |tx.vin| ==> tx.vin[a] != tx.vin[b]
    ensures Indexed(m[tx.txid := tx], IndexWith(next, tx, |tx.vin|))
  {
    var m1, next1 := m[tx.txid := tx], IndexWith(next, tx, |tx.vin|);
    hide IndexWith;
    forall h, i | h in m1 && 0 <= i < |m1[h].vin|
      ensures m1[h].vin[i] in next1 && next1[m1[h].vin[i]] == InPoint(h, i)
    {
      if h == tx.txid {
        IndexWithNew(next, tx, |tx.vin|, i);
      } else {
        assert m[h].vin[i] in next;
        IndexWithOld(next, tx, |tx.vin|, m[h].vin[i]);
      }
    }
    forall op | op in next1
      ensures next1[op].spender in m1 && next1[op].n < |m1[next1[op].spender].vin|
      ensures m1[next1[op].spender].vin[next1[op].n] == op
    {
      if i :| 0 <= i < |tx.vin| && tx.vin[i] == op {
        IndexWithNew(next, tx, |tx.vin|, i);
      } else {
        IndexWithOld(next, tx, |tx.vin|, op);
        assert next1[op] == next[op] && next[op].spender != tx.txid;
      }
    }
    hide NoConflict;
  }

  /** The spender of an output is in the pool, with the output among its inputs. */
  lemma ChildOf(m: map<Hash, Tx>, next: map<OutPoint, InPoint>, op: OutPoint, w: World)
    requires PoolOk(m, next, w) && op in next
    ensures var c := next[op].spender;
      && c in m && m[c].txid == c && Genuine(m[c], w) && w.rank(op.hash) < w.rank(c)
      && exists i :: 0 <= i < |m[c].vin| && m[c].vin[i] == op
  {
  }

  lemma ChildDescends(m: map<Hash, Tx>, part: map<Hash, Tx>, h: Hash, c: Hash, rank: Hash -> nat)
    requires DescendantsGone(m, part, h, rank) && c in part && rank(h) < rank(c)
    requires exists i :: 0 <= i < |part[c].vin| && part[c].vin[i].hash == h
    ensures DescendsFrom(m, h, c, rank) && c != h
  {
    var i :| 0 <= i < |part[c].vin| && part[c].vin[i].hash == h;
    assert DescendsFrom(m, h, m[c].vin[i].hash, rank);
  }

  /** The index of a smaller pool has no new outputs. */
  lemma IndexShrinks(m: map<Hash, Tx>, next: map<OutPoint, InPoint>, m1: map<Hash, Tx>, next1: map<OutPoint, InPoint>,
                     op: OutPoint)
    requires Indexed(m, next) && Indexed(m1, next1)
    requires forall x :: x in m1 ==> x in m && m[x] == m1[x]
    ensures next1.Keys <= next.Keys
    ensures op in next && next[op].spender !in m1 ==> op !in next1
  {
    forall o | o in next1
      ensures o in next && next[o] == next1[o]
    {
      var h := next1[o].spender;
      assert m[h].vin[next1[o].n] == o;
    }
  }

  /** No output of `tx` is spent any more, so only `tx` itself is left of its descendants. */
  lemma OnlyItselfLeft(m: map<Hash, Tx>, part: map<Hash, Tx>, next: map<OutPoint, InPoint>, tx: Tx, rank: Hash -> nat)
    requires DescendantsGone(m, part, tx.txid, rank) && SpendsInRange(m, tx) && Indexed(part, next)
    requires forall i :: 0 <= i < |tx.vout| ==> OutPoint(tx.txid, i) !in next
    ensures part - {tx.txid} == WithoutDescendants(m, tx.txid, rank)
  {
    forall c, i | c in m && c !in m.Keys - part.Keys && 0 <= i < |m[c].vin|
      ensures m[c].vin[i].hash != tx.txid
    {
      assert c in part && part[c].vin[i] in next;
      assert m[c].vin[i] == OutPoint(m[c].vin[i].hash, m[c].vin[i].n);
    }
    forall d | d in m
      ensures d in part - {tx.txid} <==> !DescendsFrom(m, tx.txid, d, rank)
    {
      if DescendsFrom(m, tx.txid, d, rank) && d != tx.txid {
        AllGone(m, m.Keys - part.Keys, tx.txid, d, rank);
      }
    }
  }

  // ---- conflicts -----------------------------------------------------------------------------------

  /** Something in `starts` is `d` or an ancestor of it. */
  ghost predicate Reached(m: map<Hash, Tx>, starts: set<Hash>, d: Hash, rank: Hash -> nat) {
    exists c :: c in starts && DescendsFrom(m, c, d, rank)
  }

  ghost function WithoutReached(m: map<Hash, Tx>, starts: set<Hash>, rank: Hash -> nat): map<Hash, Tx> {
    map d | d in m && !Reached(m, starts, d, rank) :: m[d]
  }

  /** The other pool transactions that spend one of the first `k` inputs of `tx`. */
  function Conflicts(next: map<OutPoint, InPoint>, tx: Tx, k: nat): set<Hash>
    requires k <= |tx.vin|
  {
    set i | 0 <= i < k && tx.vin[i] in next && next[tx.vin[i]].spender != tx.txid :: next[tx.vin[i]].spender
  }

  lemma ConflictsNext(next: map<OutPoint, InPoint>, tx: Tx, k: nat)
    requires k < |tx.vin|
    ensures Conflicts(next, tx, k + 1)
         == if tx.vin[k] in next && next[tx.vin[k]].spender != tx.txid
            then Conflicts(next, tx, k) + {next[tx.vin[k]].spender} else Conflicts(next, tx, k)
  {
  }

  lemma NoConflicts(next: map<OutPoint, InPoint>, tx: Tx)
    ensures Conflicts(next, tx, 0) == {}
  {
  }

  lemma ConflictsAll(next: map<OutPoint, InPoint>, tx: Tx, i: nat)
    requires i < |tx.vin| && tx.vin[i] in next
    ensures next[tx.vin[i]].spender == tx.txid || next[tx.vin[i]].spender in Conflicts(next, tx, |tx.vin|)
  {
  }

  lemma SpenderKnown(m: map<Hash, Tx>, next: map<OutPoint, InPoint>, op: OutPoint)
    requires Indexed(m, next) && op in next
    ensures next[op].spender in m
  {
  }

  /** Every child of a reached transaction is reached. */
  lemma ReachedClosed(m: map<Hash, Tx>, starts: set<Hash>, d: Hash, i: nat, rank: Hash -> nat)
    requires TxsOk(m, rank) && d in m && i < |m[d].vin| && Reached(m, starts, m[d].vin[i].hash, rank)
    ensures Reached(m, starts, d, rank)
  {
    var c :| c in starts && DescendsFrom(m, c, m[d].vin[i].hash, rank);
    assert rank(m[d].vin[i].hash) < rank(d);
    assert DescendsFrom(m, c, d, rank);
  }

  /** Descent to something that is not reached runs through what is not reached. */
  lemma {:induction false} DescendsInRest(m: map<Hash, Tx>, starts: set<Hash>, c: Hash, d: Hash, rank: Hash -> nat)
    requires TxsOk(m, rank) && DescendsFrom(m, c, d, rank) && !Reached(m, starts, d, rank)
    ensures DescendsFrom(WithoutReached(m, starts, rank), c, d, rank)
    decreases rank(d)
  {
    if d != c {
      var i :| 0 <= i < |m[d].vin| && rank(m[d].vin[i].hash) < rank(d) && DescendsFrom(m, c, m[d].vin[i].hash, rank);
      var p := m[d].vin[i].hash;
      if Reached(m, starts, p, rank) {
        ReachedClosed(m, starts, d, i, rank);
      }
      DescendsInRest(m, starts, c, p, rank);
      var rest := WithoutReached(m, starts, rank);
      assert d in rest && rest[d].vin[i].hash == p;
    }
  }

  /** Taking out one more start and its descendants. */
  lemma ReachMore(m: map<Hash, Tx>, starts: set<Hash>, c: Hash, rank: Hash -> nat)
    requires TxsOk(m, rank) && c in m
    ensures var rest := WithoutReached(m, starts, rank);
      WithoutReached(m, starts + {c}, rank) == if c in rest then WithoutDescendants(rest, c, rank) else rest
  {
    var rest := WithoutReached(m, starts, rank);
    forall d | d in m
      ensures Reached(m, starts + {c}, d, rank) <==> Reached(m, starts, d, rank) || DescendsFrom(m, c, d, rank)
    {
    }
    if c in rest {
      forall d | d in rest
        ensures DescendsFrom(m, c, d, rank) <==> DescendsFrom(rest, c, d, rank)
      {
        if DescendsFrom(m, c, d, rank) {
          DescendsInRest(m, starts, c, d, rank);
        }
        if DescendsFrom(rest, c, d, rank) {
          DescendsThrough(m, rest, c, c, d, rank);
        }
      }
    } else {
      forall d | d in m && DescendsFrom(m, c, d, rank)
        ensures Reached(m, starts, d, rank)
      {
        var a :| a in starts && DescendsFrom(m, a, c, rank);
        DescendsThrough(m, m, a, c, d, rank);
      }
    }
  }

  lemma ReachNone(m: map<Hash, Tx>, rank: Hash -> nat)
    ensures WithoutReached(m, {}, rank) == m
  {
  }

  lemma RestOf(m: map<Hash, Tx>, starts: set<Hash>, rank: Hash -> nat)
    ensures var rest := WithoutReached(m, starts, rank);
      forall x :: x in rest ==> x in m && m[x] == rest[x]
    ensures forall c :: c in starts ==> c !in WithoutReached(m, starts, rank)
  {
    forall c | c in starts
      ensures c !in WithoutReached(m, starts, rank)
    {
      assert DescendsFrom(m, c, c, rank);
    }
  }

  /** An input is indexed in part of the pool exactly when its spender is still there. */
  lemma IndexOfPart(m: map<Hash, Tx>, next: map<OutPoint, InPoint>, part: map<Hash, Tx>, next1: map<OutPoint,
      InPoint>, op: OutPoint)
    requires Indexed(m, next) && Indexed(part, next1) && forall x :: x in part ==> x in m && m[x] == part[x]
    ensures op in next1 <==> op in next && next[op].spender in part
    ensures op in next1 ==> next1[op] == next[op]
  {
    if op in next1 {
      assert m[next1[op].spender].vin[next1[op].n] == op;
    }
    if op in next && next[op].spender in part {
      assert part[next[op].spender].vin[next[op].n] == op;
    }
  }

  lemma {:induction false} BoundExists(m: map<Hash, Tx>, rank: Hash -> nat) returns (bound: nat)
    ensures Bounded(m, rank, bound)
    decreases |m|
  {
    if m == map[] {
      bound := 0;
    } else {
      var h :| h in m;
      bound := BoundExists(m - {h}, rank);
      bound := if bound < rank(h) then rank(h) else bound;
    }
  }

  // ---- the pool and the coins ------------------------------------------------------------------------

  /** The coins as CCoinsViewMemPool shows them: the chain's, else those of a pool transaction. */
  function Seen(u: CoinMap, m: map<Hash, Tx>, h: Hash): Coins {
    if h in u then u[h] else if h in m then CoinsFromTx(m[h], MEMPOOL_HEIGHT) else EMPTY_COINS
  }

  const MEMPOOL_HEIGHT := 0x7FFF_FFFF

  /** Every input of every pool transaction is an unspent output of the chain or an output of the pool. */
  ghost predicate Fits(m: map<Hash, Tx>, u: CoinMap) {
    forall h, i :: h in m && 0 <= i < |m[h].vin| ==> InputThere(m, u, m[h].vin[i])
  }

  predicate InputThere(m: map<Hash, Tx>, u: CoinMap, op: OutPoint) {
    op.hash in m || At(u, op.hash).IsAvailable(op.n)
  }

  /** The records hold no more outputs than the transactions behind them. */
  ghost predicate CoinsReal(u: CoinMap, w: World) {
    forall h :: h in u ==> |u[h].vout| <= |w.body(h).vout|
  }

  /** The coins of the inputs of `tx`, as accept brings them into a view of its own. */
  function Viewed(u: CoinMap, m: map<Hash, Tx>, tx: Tx, k: nat): CoinMap
    requires k <= |tx.vin|
  {
    map i | 0 <= i < k :: tx.vin[i].hash := Seen(u, m, tx.vin[i].hash)
  }

  /** What accept asks of a transaction, up to the checks in `oracle`; the next block is at `nSpendHeight`. */
  predicate Acceptable(m: map<Hash, Tx>, next: map<OutPoint, InPoint>, u: CoinMap, nSpendHeight: int, tx: Tx,
                       oracle: bool)
  {
    && CheckTransaction(tx) && !tx.IsCoinBase() && tx.txid !in m && tx.txid !in u
    && (forall i :: 0 <= i < |tx.vin| ==> tx.vin[i] !in next)
    && (forall i :: 0 <= i < |tx.vin| ==> Seen(u, m, tx.vin[i].hash).IsAvailable(tx.vin[i].n))
    && CheckInputs(Viewed(u, m, tx, |tx.vin|), tx, nSpendHeight)
    && oracle
  }

  /** The output is unspent on the chain, and mature, or an output of a pool transaction. */
  predicate Offered(m: map<Hash, Tx>, u: CoinMap, op: OutPoint, nSpendHeight: int) {
    if op.hash in u then Ready(u, op, nSpendHeight) else op.hash in m && op.n < |m[op.hash].vout|
  }

  function Worth(m: map<Hash, Tx>, u: CoinMap, op: OutPoint): int {
    if op.hash in u then Amount(u, op)
    else if op.hash in m && op.n < |m[op.hash].vout| then m[op.hash].vout[op.n].nValue
    else 0
  }

  ghost function Worths(m: map<Hash, Tx>, u: CoinMap, ops: seq<OutPoint>): map<int, int> {
    map i | 0 <= i < |ops| :: Worth(m, u, ops[i])
  }

  /** No pool transaction spends an input of this one. */
  ghost predicate Untouched(m: map<Hash, Tx>, tx: Tx) {
    forall h, i :: h in m && 0 <= i < |m[h].vin| ==> m[h].vin[i] !in tx.vin
  }

  /** Chain or pool offer the inputs, which are worth what the outputs are or more. */
  ghost predicate Funded(m: map<Hash, Tx>, u: CoinMap, nSpendHeight: int, tx: Tx) {
    && (forall i :: 0 <= i < |tx.vin| ==> Offered(m, u, tx.vin[i], nSpendHeight) && 0 <= Worth(m, u, tx.vin[i]))
    && Sent(tx.vout) <= Sum(Worths(m, u, tx.vin)) <= MAX_MONEY
  }

  /** A transaction the pool should take: well formed, no coinbase, new to chain and pool, with inputs that chain or
      pool offer, that no pool transaction spends, and that are worth what its outputs are or more. */
  ghost predicate Deserves(m: map<Hash, Tx>, u: CoinMap, nSpendHeight: int, tx: Tx, oracle: bool) {
    && WellFormed(tx) && tx.vin != [OutPoint(0, 0xFFFF_FFFF)] && tx.txid !in m && tx.txid !in u
    && Untouched(m, tx) && Funded(m, u, nSpendHeight, tx) && oracle
  }

  lemma ViewedAt(m: map<Hash, Tx>, u: CoinMap, tx: Tx, i: nat, nSpendHeight: int, rank: Hash -> nat)
    requires TxsOk(m, rank) && i < |tx.vin|
    ensures var v, op := Viewed(u, m, tx, |tx.vin|), tx.vin[i];
      && (Ready(v, op, nSpendHeight) <==> Offered(m, u, op, nSpendHeight))
      && Amount(v, op) == Worth(m, u, op)
      && (Ready(v, op, nSpendHeight) ==> Seen(u, m, op.hash).IsAvailable(op.n))
  {
    var v, op := Viewed(u, m, tx, |tx.vin|), tx.vin[i];
    assert op.hash in v && v[op.hash] == Seen(u, m, op.hash);
    if op.hash !in u && op.hash in m {
      assert CheckTransaction(m[op.hash]) && !m[op.hash].IsCoinBase();
    }
  }

  lemma ViewedChecks(m: map<Hash, Tx>, u: CoinMap, nSpendHeight: int, tx: Tx, rank: Hash -> nat)
    requires TxsOk(m, rank) && CheckTransaction(tx) && !tx.IsCoinBase()
    ensures (forall i :: 0 <= i < |tx.vin| ==> Seen(u, m, tx.vin[i].hash).IsAvailable(tx.vin[i].n)) &&
            CheckInputs(Viewed(u, m, tx, |tx.vin|), tx, nSpendHeight)
      <==> Funded(m, u, nSpendHeight, tx)
  {
    hide CheckTransaction, TxsOk, CheckInputs, Viewed, Seen, Offered, Worth, Ready, Amount, Sent, Sum;
    var v := Viewed(u, m, tx, |tx.vin|);
    CheckInputsIff(v, tx, nSpendHeight);
    forall i | 0 <= i < |tx.vin|
      ensures Ready(v, tx.vin[i], nSpendHeight) <==> Offered(m, u, tx.vin[i], nSpendHeight)
      ensures Amount(v, tx.vin[i]) == Worth(m, u, tx.vin[i])
      ensures Ready(v, tx.vin[i], nSpendHeight) ==> Seen(u, m, tx.vin[i].hash).IsAvailable(tx.vin[i].n)
    {
      ViewedAt(m, u, tx, i, nSpendHeight, rank);
    }
    assert Amounts(v, tx.vin) == Worths(m, u, tx.vin);
    hide Amounts, Worths;
  }

  lemma CoinBaseIs(tx: Tx)
    ensures tx.IsCoinBase() <==> tx.vin == [OutPoint(0, 0xFFFF_FFFF)]
  {
  }

  /** What accept tests comes to that. */
  lemma AcceptableIff(m: map<Hash, Tx>, next: map<OutPoint, InPoint>, u: CoinMap, nSpendHeight: int, tx: Tx,
                      oracle: bool, rank: Hash -> nat)
    requires TxsOk(m, rank) && Indexed(m, next)
    ensures Acceptable(m, next, u, nSpendHeight, tx, oracle) <==> Deserves(m, u, nSpendHeight, tx, oracle)
  {
    hide CheckTransaction, WellFormed, TxsOk, Indexed, CheckInputs, Viewed, Seen, Untouched, Funded, Tx.IsCoinBase,
      Coins.IsAvailable;
    CoinBaseIs(tx);
    WellFormedIff(tx);
    NoneIndexed(m, next, tx);
    if CheckTransaction(tx) && !tx.IsCoinBase() {
      ViewedChecks(m, u, nSpendHeight, tx, rank);
    }
  }

  lemma NoneIndexed(m: map<Hash, Tx>, next: map<OutPoint, InPoint>, tx: Tx)
    requires Indexed(m, next)
    ensures (forall i :: 0 <= i < |tx.vin| ==> tx.vin[i] !in next) <==> Untouched(m, tx)
  {
    if i :| 0 <= i < |tx.vin| && tx.vin[i] in next {
      var p := next[tx.vin[i]];
      assert m[p.spender].vin[p.n] == tx.vin[i];
    }
  }

  lemma AcceptableNames(m: map<Hash, Tx>, next: map<OutPoint, InPoint>, u: CoinMap, nSpendHeight: int, tx: Tx,
                        oracle: bool, w: World)
    requires Acceptable(m, next, u, nSpendHeight, tx, oracle) && Real(m, w) && CoinsReal(u, w)
    ensures NamesOutputs(tx, w)
  {
    hide CheckInputs;
    forall i | 0 <= i < |tx.vin|
      ensures tx.vin[i].n < |w.body(tx.vin[i].hash).vout|
    {
      assert Seen(u, m, tx.vin[i].hash).IsAvailable(tx.vin[i].n);
    }
  }

  lemma AcceptableFits(m: map<Hash, Tx>, next: map<OutPoint, InPoint>, u: CoinMap, nSpendHeight: int, tx: Tx,
                       oracle: bool)
    requires Acceptable(m, next, u, nSpendHeight, tx, oracle) && Fits(m, u)
    ensures Fits(m[tx.txid := tx], u)
  {
    hide CheckInputs;
    forall i | 0 <= i < |tx.vin|
      ensures InputThere(m, u, tx.vin[i])
    {
      assert Seen(u, m, tx.vin[i].hash).IsAvailable(tx.vin[i].n);
    }
    forall h, i | h in m && 0 <= i < |m[h].vin|
      ensures InputThere(m[tx.txid := tx], u, m[h].vin[i])
    {
      assert InputThere(m, u, m[h].vin[i]);
    }
  }

  /** The pool after `tx` was confirmed: without it, its conflicts and their descendants. */
  ghost function Confirmed(m: map<Hash, Tx>, next: map<OutPoint, InPoint>, tx: Tx, rank: Hash -> nat): map<Hash, Tx> {
    WithoutReached(m - {tx.txid}, Conflicts(next, tx, |tx.vin|), rank)
  }

  /** An output the confirmed transaction did not spend is still there afterwards. */
  lemma StillThere(u: CoinMap, tx: Tx, nHeight: int, op: OutPoint)
    requires WfUtxo(u) && CheckTransaction(tx) && ApplyTx(u, tx, nHeight).Some?
    requires op !in tx.vin && op.hash != tx.txid && At(u, op.hash).IsAvailable(op.n)
    ensures At(ApplyTx(u, tx, nHeight).value.coins, op.hash).IsAvailable(op.n)
  {
    if !tx.IsCoinBase() {
      SpendAllLeaves(u, tx.vin, op);
    }
    hide CheckInputs, CheckTransaction;
  }

  /** The outputs of the confirmed transaction are there. */
  lemma NowThere(u: CoinMap, tx: Tx, nHeight: int, n: nat)
    requires CheckTransaction(tx) && ApplyTx(u, tx, nHeight).Some? && n < |tx.vout|
    ensures At(ApplyTx(u, tx, nHeight).value.coins, tx.txid).IsAvailable(n)
  {
    assert !tx.vout[n].IsNull();
  }

  /** Main result: a pool that fits the coins still fits after a transaction was connected to the chain and
      the pool was cleared of it and of what conflicts with it. */
  lemma ConfirmedFits(m: map<Hash, Tx>, next: map<OutPoint, InPoint>, u: CoinMap, tx: Tx, nHeight: int, w: World)
    requires PoolOk(m - {tx.txid}, next, w) && Real(m, w) && Genuine(tx, w) && Fits(m, u)
    requires WfUtxo(u) && CheckTransaction(tx) && ApplyTx(u, tx, nHeight).Some?
    ensures Fits(Confirmed(m, next, tx, w.rank), ApplyTx(u, tx, nHeight).value.coins)
  {
    var m1 := m - {tx.txid};
    var starts := Conflicts(next, tx, |tx.vin|);
    var left := WithoutReached(m1, starts, w.rank);
    var u1 := ApplyTx(u, tx, nHeight).value.coins;
    hide ApplyTx, CheckTransaction, Conflicts;
    forall h, i | h in left && 0 <= i < |left[h].vin|
      ensures InputThere(left, u1, left[h].vin[i])
    {
      var op := m[h].vin[i];
      if op.hash == tx.txid {
        assert NamesOutputs(m[h], w);
        NowThere(u, tx, nHeight, op.n);
      } else if op.hash in m {
        if Reached(m1, starts, op.hash, w.rank) {
          ReachedClosed(m1, starts, h, i, w.rank);
        }
      } else {
        assert InputThere(m, u, op);
        if op in tx.vin {
          SpenderConflicts(m1, next, tx, h, i);
          RestOf(m1, starts, w.rank);
        }
        StillThere(u, tx, nHeight, op);
      }
    }
  }

  lemma SpenderConflicts(m: map<Hash, Tx>, next: map<OutPoint, InPoint>, tx: Tx, h: Hash, i: nat)
    requires Indexed(m, next) && h in m && h != tx.txid && i < |m[h].vin| && m[h].vin[i] in tx.vin
    ensures h in Conflicts(next, tx, |tx.vin|)
  {
    var j :| 0 <= j < |tx.vin| && tx.vin[j] == m[h].vin[i];
    assert next[m[h].vin[i]] == InPoint(h, i);
    ConflictsAll(next, tx, j);
  }

  class CTxMemPool {
    const w: World
    var mapTx: map<Hash, Tx>
    var mapNextTx: map<OutPoint, InPoint>

    constructor (w: World)
      ensures this.w == w && mapTx == map[] && PoolOk(mapTx, mapNextTx, w)
    {
      this.w := w;
      mapTx, mapNextTx := map[], map[];
    }

    method AddUnchecked(tx: Tx)
      modifies this
      ensures mapTx == old(mapTx)[tx.txid := tx] && mapNextTx == IndexWith(old(mapNextTx), tx, |tx.vin|)
    {
      mapTx := mapTx[tx.txid := tx];
      for i := 0 to |tx.vin|
        invariant mapTx == old(mapTx)[tx.txid := tx] && mapNextTx == IndexWith(old(mapNextTx), tx, i)
      {
        mapNextTx := mapNextTx[tx.vin[i] := InPoint(tx.txid, i)];
      }
    }

    /** The last part of remove: the transaction itself. */
    method Erase(tx: Tx)
      requires PoolOk(mapTx, mapNextTx, w) && (tx.txid in mapTx ==> mapTx[tx.txid] == tx)
      modifies this
      ensures mapTx == old(mapTx) - {tx.txid} && PoolOk(mapTx, mapNextTx, w)
    {
      ghost var next := mapNextTx;
      hide *;
      if tx.txid in mapTx {
        EraseInputs(mapTx, mapNextTx, tx.txid, w);
        NoInputs(tx, next);
        for i := 0 to |tx.vin|
          invariant mapTx == old(mapTx) && mapNextTx == next - Inputs(tx, i)
        {
          InputsNext(tx, i);
          assert next - Inputs(tx, i) - {tx.vin[i]} == next - (Inputs(tx, i) + {tx.vin[i]});
          mapNextTx := mapNextTx - {tx.vin[i]};
        }
        mapTx := mapTx - {tx.txid};
      }
    }

    /** Takes a transaction out, with all that descends from it when asked to. `bound` is above every rank. */
    method Remove(tx: Tx, fRecursive: bool, ghost bound: nat)
      requires PoolOk(mapTx, mapNextTx, w) && Genuine(tx, w)
      requires fRecursive ==> w.rank(tx.txid) <= bound && Bounded(mapTx, w.rank, bound)
      modifies this
      ensures PoolOk(mapTx, mapNextTx, w)
      ensures mapTx == if fRecursive then WithoutDescendants(old(mapTx), tx.txid, w.rank) else old(mapTx) - {tx.txid}
      decreases fRecursive, if fRecursive then bound - w.rank(tx.txid) else 0, 1
    {
      ghost var m := mapTx;
      if fRecursive {
        TxsAreOk(m, mapNextTx, w);
        GenuineInRange(m, tx, w);
        RemoveChildren(tx, bound);
        TxsAreOk(mapTx, mapNextTx, w);
        OnlyItselfLeft(m, mapTx, mapNextTx, tx, w.rank);
      }
      hide *;
      TxsAreOk(mapTx, mapNextTx, w);
      GenuineInRange(mapTx, tx, w);
      Erase(tx);
    }

    /** The loop of remove over the outputs of `tx`: each one spent in the pool takes its spender out. */
    method RemoveChildren(tx: Tx, ghost bound: nat)
      requires PoolOk(mapTx, mapNextTx, w) && Genuine(tx, w) && w.rank(tx.txid) <= bound
      requires Bounded(mapTx, w.rank, bound)
      modifies this
      ensures PoolOk(mapTx, mapNextTx, w) && DescendantsGone(old(mapTx), mapTx, tx.txid, w.rank)
      ensures forall i :: 0 <= i < |tx.vout| ==> OutPoint(tx.txid, i) !in mapNextTx
      decreases true, bound - w.rank(tx.txid), 0
    {
      hide *;
      ghost var m := mapTx;
      NothingGone(m, tx.txid, w.rank);
      TxsAreOk(m, mapNextTx, w);
      for i := 0 to |tx.vout|
        invariant PoolOk(mapTx, mapNextTx, w) && DescendantsGone(m, mapTx, tx.txid, w.rank)
        invariant forall j :: 0 <= j < i ==> OutPoint(tx.txid, j) !in mapNextTx
      {
        PartOf(m, mapTx, tx.txid, w.rank, bound);
        if OutPoint(tx.txid, i) in mapNextTx {
          var c := mapNextTx[OutPoint(tx.txid, i)].spender;
          ghost var part, next := mapTx, mapNextTx;
          ChildOf(part, next, OutPoint(tx.txid, i), w);
          ChildDescends(m, part, tx.txid, c, w.rank);
          BoundedAt(part, w.rank, bound, c);
          Remove(mapTx[c], true, bound);
          GoneStep(m, part, tx.txid, c, w.rank);
          PartlyGone(part, c, w.rank);
          TxsAreOk(part, next, w);
          TxsAreOk(mapTx, mapNextTx, w);
          IndexShrinks(part, next, mapTx, mapNextTx, OutPoint(tx.txid, i));
        }
      }
      PartOf(m, mapTx, tx.txid, w.rank, bound);
    }

    /** Takes out every other transaction that spends an input of `tx`, and all that descends from those. */
    method RemoveConflicts(tx: Tx)
      requires PoolOk(mapTx, mapNextTx, w)
      modifies this
      ensures PoolOk(mapTx, mapNextTx, w)
      ensures mapTx == WithoutReached(old(mapTx), Conflicts(old(mapNextTx), tx, |tx.vin|), w.rank)
      ensures forall i :: 0 <= i < |tx.vin| && tx.vin[i] in mapNextTx ==> mapNextTx[tx.vin[i]].spender == tx.txid
    {
      hide *;
      ghost var m, next := mapTx, mapNextTx;
      TxsAreOk(m, next, w);
      ReachNone(m, w.rank);
      NoConflicts(next, tx);
      for i := 0 to |tx.vin|
        invariant PoolOk(mapTx, mapNextTx, w)
        invariant mapTx == WithoutReached(m, Conflicts(next, tx, i), w.rank)
      {
        ConflictsNext(next, tx, i);
        RestOf(m, Conflicts(next, tx, i), w.rank);
        TxsAreOk(mapTx, mapNextTx, w);
        IndexOfPart(m, next, mapTx, mapNextTx, tx.vin[i]);
        if tx.vin[i] in next {
          SpenderKnown(m, next, tx.vin[i]);
          ReachMore(m, Conflicts(next, tx, i), next[tx.vin[i]].spender, w.rank);
        }
        if tx.vin[i] in mapNextTx {
          var c := mapNextTx[tx.vin[i]].spender;
          ChildOf(mapTx, mapNextTx, tx.vin[i], w);
          var txConflict := mapTx[c];
          if txConflict.txid != tx.txid {
            ghost var bound := BoundExists(mapTx, w.rank);
            BoundedAt(mapTx, w.rank, bound, c);
            Remove(txConflict, true, bound);
          }
        }
      }
      RestOf(m, Conflicts(next, tx, |tx.vin|), w.rank);
      TxsAreOk(mapTx, mapNextTx, w);
      forall i | 0 <= i < |tx.vin| && tx.vin[i] in mapNextTx
        ensures mapNextTx[tx.vin[i]].spender == tx.txid
      {
        IndexOfPart(m, next, mapTx, mapNextTx, tx.vin[i]);
        ConflictsAll(next, tx, i);
      }
    }

    /** Brings the inputs into a view, checks that they are there, and does the inexpensive checks on them. */
    method InputsSeen(tx: Tx, u: CoinMap, nSpendHeight: int) returns (ok: bool)
      ensures ok <==> (forall i :: 0 <= i < |tx.vin| ==> Seen(u, mapTx, tx.vin[i].hash).IsAvailable(tx.vin[i].n))
                      && CheckInputs(Viewed(u, mapTx, tx, |tx.vin|), tx, nSpendHeight)
    {
      hide CheckInputs, Seen;
      var view: CoinMap := map[];
      for i := 0 to |tx.vin|
        invariant view == Viewed(u, mapTx, tx, i)
        invariant forall k :: 0 <= k < i ==> Seen(u, mapTx, tx.vin[k].hash).IsAvailable(tx.vin[k].n)
      {
        view := view[tx.vin[i].hash := Seen(u, mapTx, tx.vin[i].hash)];
        if !Seen(u, mapTx, tx.vin[i].hash).IsAvailable(tx.vin[i].n) {
          return false;
        }
      }
      ok := CheckInputs(view, tx, nSpendHeight);
    }

    /** accept, with the standardness, fee and script checks as an oracle that may only reject. */
    method Accept(tx: Tx, u: CoinMap, nSpendHeight: int, oracle: bool) returns (ok: bool)
      requires PoolOk(mapTx, mapNextTx, w) && Genuine(tx, w) && CoinsReal(u, w)
      modifies this
      ensures ok <==> Acceptable(old(mapTx), old(mapNextTx), u, nSpendHeight, tx, oracle)
      ensures ok <==> Deserves(old(mapTx), u, nSpendHeight, tx, oracle)
      ensures PoolOk(mapTx, mapNextTx, w) && (Fits(old(mapTx), u) ==> Fits(mapTx, u))
      ensures if ok then mapTx == old(mapTx)[tx.txid := tx] else mapTx == old(mapTx) && mapNextTx == old(mapNextTx)
    {
      hide PoolOk, Fits, CoinsReal, CheckTransaction, Genuine, NamesOutputs, Real, IndexWith, CheckInputs, Viewed, Seen,
        Deserves;
      TxsAreOk(mapTx, mapNextTx, w);
      AcceptableIff(mapTx, mapNextTx, u, nSpendHeight, tx, oracle, w.rank);
      if !CheckTransaction(tx) || tx.IsCoinBase() {
        return false;
      }
      if tx.txid in mapTx {
        return false;
      }
      for i := 0 to |tx.vin|
        invariant mapTx == old(mapTx) && mapNextTx == old(mapNextTx)
        invariant forall k :: 0 <= k < i ==> tx.vin[k] !in mapNextTx
      {
        if tx.vin[i] in mapNextTx {
          return false;
        }
      }
      if tx.txid in u {
        return false;
      }
      var seen := InputsSeen(tx, u, nSpendHeight);
      if !seen || !oracle {
        return false;
      }
      TxsAreOk(mapTx, mapNextTx, w);
      AcceptableNames(mapTx, mapNextTx, u, nSpendHeight, tx, oracle, w);
      if Fits(mapTx, u) {
        AcceptableFits(mapTx, mapNextTx, u, nSpendHeight, tx, oracle);
      }
      AddedOk(mapTx, mapNextTx, tx, w);
      AddUnchecked(tx);
      ok := true;
    }

    /** The last loop of SetBestChain: clears the pool of the transactions of a connected block. The pool
        fitted the coins before the block, and fits those after it. */
    method DeleteConfirmed(vDelete: seq<Tx>, ghost u: CoinMap, ghost nHeight: int)
      requires PoolOk(mapTx, mapNextTx, w) && Fits(mapTx, u) && WfUtxo(u) && nHeight >= 1
      requires forall i :: 0 <= i < |vDelete| ==> Genuine(vDelete[i], w) && CheckTransaction(vDelete[i])
      requires ApplyTxs(u, vDelete, nHeight).Some?
      modifies this
      ensures PoolOk(mapTx, mapNextTx, w) && Fits(mapTx, ApplyTxs(u, vDelete, nHeight).value.coins)
      ensures mapTx.Keys <= old(mapTx.Keys)
      ensures forall i :: 0 <= i < |vDelete| ==> vDelete[i].txid !in mapTx
    {
      hide *;
      NoneApplied(u, vDelete, nHeight);
      for i := 0 to |vDelete|
        invariant PoolOk(mapTx, mapNextTx, w) && mapTx.Keys <= old(mapTx.Keys)
        invariant ApplyTxs(u, vDelete[..i], nHeight).Some?
        invariant Fits(mapTx, ApplyTxs(u, vDelete[..i], nHeight).value.coins)
        invariant forall k :: 0 <= k < i ==> vDelete[k].txid !in mapTx
      {
        var tx := vDelete[i];
        ghost var m := mapTx;
        TxsAreOk(m, mapNextTx, w);
        Remove(tx, false, 0);
        ghost var next := mapNextTx;
        assert PoolOk(m - {tx.txid}, next, w);
        OneApplied(u, vDelete, i, nHeight);
        ConfirmedFits(m, next, ApplyTxs(u, vDelete[..i], nHeight).value.coins, tx, nHeight, w);
        RemoveConflicts(tx);
        ConfirmedIs(m, next, tx, w.rank);
      }
      assert vDelete[..|vDelete|] == vDelete;
    }
  }

  lemma ConfirmedIs(m: map<Hash, Tx>, next: map<OutPoint, InPoint>, tx: Tx, rank: Hash -> nat)
    ensures Confirmed(m, next, tx, rank) == WithoutReached(m - {tx.txid}, Conflicts(next, tx, |tx.vin|), rank)
    ensures Confirmed(m, next, tx, rank).Keys <= m.Keys - {tx.txid}
  {
  }

  lemma NoneApplied(u: CoinMap, txs: seq<Tx>, nHeight: int)
    ensures ApplyTxs(u, txs[..0], nHeight) == Some(BlockEffect(u, [], 0))
  {
    assert txs[..0] == [];
  }

  /** The coins before the i-th transaction are well formed, and it applies to them. */
  lemma {:induction false} OneApplied(u: CoinMap, txs: seq<Tx>, i: nat, nHeight: int)
    requires WfUtxo(u) && nHeight >= 1 && i < |txs| && ApplyTxs(u, txs, nHeight).Some?
    requires forall k :: 0 <= k < |txs| ==> CheckTransaction(txs[k])
    requires ApplyTxs(u, txs[..i], nHeight).Some?
    ensures var v := ApplyTxs(u, txs[..i], nHeight).value.coins;
      && WfUtxo(v) && ApplyTx(v, txs[i], nHeight).Some?
      && ApplyTxs(u, txs[..i + 1], nHeight).Some?
      && ApplyTxs(u, txs[..i + 1], nHeight).value.coins == ApplyTx(v, txs[i], nHeight).value.coins
    decreases |txs|
  {
    hide ApplyTx, CheckTransaction, WfUtxo;
    ApplyTxsWf(u, txs[..i], nHeight);
    if i == |txs| - 1 {
      assert txs[..i + 1] == txs;
    } else {
      var front := txs[..|txs| - 1];
      assert front[..i] == txs[..i] && front[..i + 1] == txs[..i + 1];
      OneApplied(u, front, i, nHeight);
    }
  }
}
