/** When a coinbase can pay the grants at all, and what becomes of a chain where it cannot. */
module GrantPayees {
  import opened Basics
  import opened CoinTypes
  import opened Sums
  import opened Utxo
  import opened Supply
  import opened BlockTree
  import opened Coinbase
  import opened Election
  import opened GrantElection
  import opened GrantVotes
  import opened GrantBalances
  import AddressText

  // ---- who is in the table ------------------------------------------------------------------------

  lemma {:induction false} TableKeys(winners: seq<string>, amount: nat)
    ensures forall name :: name in AwardTable(winners, amount) <==> name in winners
    ensures forall name :: name in AwardTable(winners, amount) ==> AwardTable(winners, amount)[name] >= 0
  {
    if winners != [] {
      var n := |winners| - 1;
      TableKeys(winners[..n], amount);
      assert winners == winners[..n] + [winners[n]];
    }
  }

  /** Every office has a voter who holds coins. */
  ghost predicate AllHaveBallots(l: Ledger)
    requires |l.votes| == |OFFICES|
  {
    forall i :: 0 <= i < NUMBER_OF_OFFICES ==> HasBallot(l.votes[i], l.balances)
  }

  /** The winner of an office is an address unless it is the unspendable one for want of ballots. */
  lemma WinnerIsAddress(l: Ledger, i: nat, textOf: Script -> Name)
    requires |l.votes| == |OFFICES| && Genuine(l.votes, textOf) && AllGood(l.votes) && i < NUMBER_OF_OFFICES
    ensures var w := OfficeWinner(l.votes[i], l.balances);
      if HasBallot(l.votes[i], l.balances) then IsAddress(w, textOf) && OfficeOf(w) == i else w == UNSPENDABLE
  {
    hide OfficeWinner, HasBallot, OfficeOf, IsAddress;
    OfficeDecided(l.votes[i], l.balances);
    var w := OfficeWinner(l.votes[i], l.balances);
    if HasBallot(l.votes[i], l.balances) {
      var v, k :| v in l.votes[i] && 0 <= k < |l.votes[i][v]| && l.votes[i][v][k].cand == w;
      assert GenuineBallot(l.votes[i][v], i, textOf) && l.votes[i][v][k] in l.votes[i][v];
    }
  }

  lemma TableAddresses(l: Ledger, nHeight: nat, textOf: Script -> Name)
    requires |l.votes| == |OFFICES| && Genuine(l.votes, textOf) && AllGood(l.votes)
    ensures (forall name :: name in TableOf(l, nHeight) ==> IsAddress(name, textOf)) <==>
            IsAddress(UNSPENDABLE, textOf) || AllHaveBallots(l)
    ensures Sum(TableOf(l, nHeight)) <= MAX_MONEY
    ensures forall name :: name in TableOf(l, nHeight) ==> TableOf(l, nHeight)[name] >= 0
  {
    hide OfficeWinner, HasBallot, IsAddress, Genuine, AllGood, BlockSubsidy, OfficeOf;
    var w := WinnersOf(l);
    TableKeys(w, GrantValue(nHeight));
    AwardTableSum(w, GrantValue(nHeight));
    SubsidyRange(nHeight);
    forall i | 0 <= i < NUMBER_OF_OFFICES
      ensures w[i] in TableOf(l, nHeight)
      ensures if HasBallot(l.votes[i], l.balances) then IsAddress(w[i], textOf) else w[i] == UNSPENDABLE
    {
      WinnerIsAddress(l, i, textOf);
      assert w[i] in w;
    }
  }

  /** Main result: some coinbase passes with the table that the votes and balances give if and only if the unspendable
      address is the text of a script's address or every one of the six offices has a voter who holds coins. */
  lemma TablePayableIff(l: Ledger, fees: nat, nHeight: nat, fTestNet: bool, textOf: Script -> Name)
    requires |l.votes| == |OFFICES| && Genuine(l.votes, textOf) && AllGood(l.votes) && IsGrantAwardBlock(nHeight)
    ensures (exists tx: Tx :: Passes(tx, fees, nHeight, fTestNet, TableOf(l, nHeight), textOf)) <==>
            IsAddress(UNSPENDABLE, textOf) || AllHaveBallots(l)
  {
    hide TableOf, Genuine, AllGood, AllHaveBallots, IsAddress, Passes, Sum;
    TableAddresses(l, nHeight, textOf);
    PayableIff(fees, nHeight, fTestNet, TableOf(l, nHeight), textOf);
  }

  // ---- on a chain ------------------------------------------------------------------------

  /** A voter for the office, and unspent outputs that pay to it. */
  ghost predicate Backed(l: Ledger, i: nat, u: CoinMap, first: seq<TxOut>, textOf: Script -> Name)
    requires i < |l.votes|
  {
    exists v :: v in l.votes[i] && Held(u, v, textOf) + PaidTo(first, {v}, textOf) > 0
  }

  lemma BackedIs(l: Ledger, i: nat, u: CoinMap, first: seq<TxOut>, textOf: Script -> Name)
    requires |l.votes| == |OFFICES| && i < NUMBER_OF_OFFICES && Tallies(l, u, first, textOf)
    ensures Backed(l, i, u, first, textOf) <==> HasBallot(l.votes[i], l.balances)
  {
    hide Held, PaidTo, BalanceOf, Sum, Total, ValueOf;
    forall v | v in l.votes[i]
      ensures BalanceOf(l.balances, v) == Held(u, v, textOf) + PaidTo(first, {v}, textOf)
    {
      assert TalliesFor(l, u, first, textOf, v);
    }
    if Backed(l, i, u, first, textOf) {
      var v :| v in l.votes[i] && Held(u, v, textOf) + PaidTo(first, {v}, textOf) > 0;
      assert BalanceOf(l.balances, v) > 0;
    }
    if HasBallot(l.votes[i], l.balances) {
      var v :| v in l.votes[i] && BalanceOf(l.balances, v) > 0;
      assert Held(u, v, textOf) + PaidTo(first, {v}, textOf) > 0;
    }
  }

  /** The same for the table counted from a branch: what the voters hold is read off the coins. */
  lemma BranchPayableIff(idx: Index, genesis: Hash, undo: UndoFiles, h: Hash, fees: nat, fTestNet: bool,
                         source: OutPoint -> TxOut, textOf: Script -> Name)
    requires WfIndex(idx, genesis) && h in idx && PlainGenesis(idx, genesis) && Replay(idx, genesis, h).Some?
    requires UndoGood(idx, genesis, undo) && UndoCovers(idx, genesis, undo, h)
    requires FindableBranch(idx, genesis, h, source) && IsGrantAwardBlock(idx[h].nHeight + GRANT_BLOCK_INTERVAL)
    ensures var l := LedgerOf(idx, genesis, h, source, textOf);
      var nHeight := idx[h].nHeight + GRANT_BLOCK_INTERVAL;
      && AllGood(l.votes)
      && ((exists tx: Tx :: Passes(tx, fees, nHeight, fTestNet, TableOf(l, nHeight), textOf)) <==>
          IsAddress(UNSPENDABLE, textOf) ||
          forall i :: 0 <= i < NUMBER_OF_OFFICES ==>
            Backed(l, i, Replay(idx, genesis, h).value, idx[genesis].vtx[0].vout, textOf))
  {
    hide Replay, Tallies, FindableBranch, UndoGood, UndoCovers, Passes, TableOf, Genuine, AllGood, IsAddress, Backed,
      CheckTransaction, BranchOf, HasBallot;
    var l := LedgerOf(idx, genesis, h, source, textOf);
    BlocksGenuine(BranchOf(idx, genesis, h), source, textOf);
    GenuineGood(l.votes, textOf);
    BranchTallies(idx, genesis, undo, h, source, textOf);
    TablePayableIff(l, fees, idx[h].nHeight + GRANT_BLOCK_INTERVAL, fTestNet, textOf);
    forall i | 0 <= i < NUMBER_OF_OFFICES
      ensures Backed(l, i, Replay(idx, genesis, h).value, idx[genesis].vtx[0].vout, textOf) <==>
              HasBallot(l.votes[i], l.balances)
    {
      BackedIs(l, i, Replay(idx, genesis, h).value, idx[genesis].vtx[0].vout, textOf);
    }
  }

  // ---- the test net ------------------------------------------------------------------------

  /** Names are the texts of test net addresses. */
  ghost predicate TestNetNames(textOf: Script -> Name, hash: (seq<byte>, nat) -> byte,
                               dest: Script -> AddressText.Destination)
  {
    forall s :: AddressText.Sized(dest(s)) && textOf(s) == AddressText.TextOf(hash, dest(s), true)
  }

  lemma NoGrantAddress(name: Name, textOf: Script -> Name, hash: (seq<byte>, nat) -> byte,
                       dest: Script -> AddressText.Destination)
    requires TestNetNames(textOf, hash, dest) && StartsWith(name, GRANT_PREFIX)
    ensures !IsAddress(name, textOf)
  {
    assert name[0] == name[..4][0];
    if IsAddress(name, textOf) {
      var s :| textOf(s) == name;
      AddressText.TestNetText(hash, dest(s));
      assert false;
    }
  }

  /** Nobody can vote, so everything is awarded to an address nobody can pay. */
  lemma TestNetTable(blocks: seq<seq<Tx>>, nHeight: nat, source: OutPoint -> TxOut, textOf: Script -> Name,
                     hash: (seq<byte>, nat) -> byte, dest: Script -> AddressText.Destination)
    requires TestNetNames(textOf, hash, dest)
    ensures var l := AfterBlocks(START, blocks, source, textOf);
      && (forall i :: 0 <= i < |OFFICES| ==> l.votes[i] == map[])
      && AllGood(l.votes) && TableOf(l, nHeight) == map[UNSPENDABLE := NUMBER_OF_OFFICES * GrantValue(nHeight)]
    ensures !IsAddress(UNSPENDABLE, textOf)
  {
    hide TestNetNames, IsAddress, OfficeWinner, BlockSubsidy, AfterBlocks;
    var l := AfterBlocks(START, blocks, source, textOf);
    BlocksGenuine(blocks, source, textOf);
    GenuineGood(l.votes, textOf);
    forall i | 0 <= i < |OFFICES|
      ensures l.votes[i] == map[]
    {
      if l.votes[i] != map[] {
        var v :| v in l.votes[i];
        var b := l.votes[i][v];
        assert GenuineBallot(b, i, textOf) && b[0] in b;
        NoGrantAddress(b[0].cand, textOf, hash, dest);
        assert false;
      }
    }
    NoGrantAddress(UNSPENDABLE, textOf, hash, dest);
    forall i | 0 <= i < NUMBER_OF_OFFICES
      ensures WinnersOf(l)[i] == UNSPENDABLE
    {
      WinnerIsAddress(l, i, textOf);
    }
    OneWinner(NUMBER_OF_OFFICES, UNSPENDABLE, GrantValue(nHeight));
    assert WinnersOf(l) == seq(NUMBER_OF_OFFICES, _ => UNSPENDABLE);
  }

  lemma PaidIsAddress(s: Script, name: Name, textOf: Script -> Name)
    requires textOf(s) == name
    ensures IsAddress(name, textOf)
  {
  }

  const FIRST_AWARD := 40

  /** The first award block of a branch is checked against the table counted from the blocks up to one interval
      below it, with names as they are on the test net. */
  ghost predicate CountedOnTestNet(idx: Index, genesis: Hash, h: Hash, env: Env, source: OutPoint -> TxOut,
                                   hash: (seq<byte>, nat) -> byte, dest: Script -> AddressText.Destination)
    requires WfIndex(idx, genesis) && h in idx && idx[h].nHeight == FIRST_AWARD
  {
    && TestNetNames(env.textOf, hash, dest)
    && var below := AncestorAt(idx, genesis, h, FIRST_AWARD - GRANT_BLOCK_INTERVAL);
       var l := LedgerOf(idx, genesis, below, source, env.textOf);
       AllGood(l.votes) && env.grantAwards == TableOf(l, FIRST_AWARD)
  }

  /** Main result: on the test net no branch is ever accepted as far as its first award block. */
  lemma TestNetStops(idx: Index, genesis: Hash, h: Hash, envs: Hash -> Env, source: OutPoint -> TxOut,
                     hash: (seq<byte>, nat) -> byte, dest: Script -> AddressText.Destination)
    requires WfIndex(idx, genesis) && h in idx && Accepts(idx, genesis, h, 0, true, envs)
    requires idx[h].nHeight >= FIRST_AWARD ==>
      var a := AncestorAt(idx, genesis, h, FIRST_AWARD);
      CountedOnTestNet(idx, genesis, a, envs(a), source, hash, dest)
    ensures idx[h].nHeight < FIRST_AWARD
  {
    hide TestNetNames, Replay, Accepts, IsAddress, Sum, BlockSubsidy, BranchOf, AfterBlocks;
    if idx[h].nHeight >= FIRST_AWARD {
      var a := AncestorAt(idx, genesis, h, FIRST_AWARD);
      AcceptsPrefix(idx, genesis, h, FIRST_AWARD, 0, true, envs);
      AcceptsStep(idx, genesis, a, 0, true, envs);
      HeightZero(idx, genesis, a);
      var below := AncestorAt(idx, genesis, a, FIRST_AWARD - GRANT_BLOCK_INTERVAL);
      TestNetTable(BranchOf(idx, genesis, below), FIRST_AWARD, source, envs(a).textOf, hash, dest);
      var vout := idx[a].vtx[0].vout;
      assert PaysAwards(vout, envs(a).grantAwards, envs(a).textOf) && UNSPENDABLE in envs(a).grantAwards;
      var j :| 0 <= j < |vout| && Pays(vout[j], UNSPENDABLE, envs(a).grantAwards[UNSPENDABLE], envs(a).textOf);
      PaidIsAddress(vout[j].scriptPubKey, UNSPENDABLE, envs(a).textOf);
      assert false;
    }
  }
}
