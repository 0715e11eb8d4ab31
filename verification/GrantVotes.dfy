/** The grant database: balances by address and recorded votes, brought up to date block by block
    (processNextBlockIntoGrantDatabase, ensureGrantDatabaseUptoDate, getOfficeNumberFromAddress in src/main.cpp). */
module GrantVotes {
  import opened CoinTypes
  import opened Coinbase
  import opened Names
  import opened Sums
  import opened Election
  import opened GrantElection
  import Supply

  const GRANT_PREFIX := "MVTE"
  const OFFICES: seq<string> := ["ceo", "cto", "cno", "cmo", "cso", "cha", "xxx"]

  predicate StartsWith(name: string, prefix: string) {
    |prefix| <= |name| && name[..|prefix|] == prefix
  }

  /** The three letters after the prefix. */
  function Middle(name: Name): string {
    if |name| < 4 then "" else if |name| < 7 then name[4..] else name[4..7]
  }

  /** The office an address stands for: none, or the one its middle names. */
  function OfficeOf(name: Name): (i: int)
    ensures -1 <= i < |OFFICES|
  {
    if !StartsWith(name, GRANT_PREFIX) then -1 else OfficeFrom(name, 0)
  }

  function OfficeFrom(name: Name, k: nat): (i: int)
    requires k <= |OFFICES|
    ensures -1 <= i < |OFFICES| && (i >= 0 ==> Middle(name) == OFFICES[i])
    ensures i < 0 <==> Middle(name) !in OFFICES[k..]
    decreases |OFFICES| - k
  {
    if k == |OFFICES| then -1 else if Middle(name) == OFFICES[k] then k else OfficeFrom(name, k + 1)
  }

  method GetOfficeNumberFromAddress(name: Name) returns (i: int)
    ensures i == OfficeOf(name)
    ensures i >= 0 <==> StartsWith(name, GRANT_PREFIX) && Middle(name) in OFFICES
  {
    if !StartsWith(name, GRANT_PREFIX) {
      return -1;
    }
    assert OFFICES[0..] == OFFICES;
    for k := 0 to |OFFICES|
      invariant OfficeFrom(name, 0) == OfficeFrom(name, k)
    {
      if Middle(name) == OFFICES[k] {
        return k;
      }
    }
    return -1;
  }

  /** A payment of one to nine units to a grant address. */
  predicate IsVote(name: Name, amount: int) {
    StartsWith(name, GRANT_PREFIX) && 0 < amount < 10
  }

  // ---- what one transaction does ------------------------------------------------------------------------

  function Plus(balances: Balances, name: Name, amount: int): Balances {
    balances[name := BalanceOf(balances, name) + amount]
  }

  function Credited(balances: Balances, vout: seq<TxOut>, textOf: Script -> Name): Balances {
    if vout == [] then balances
    else
      var o := vout[|vout| - 1];
      Plus(Credited(balances, vout[..|vout| - 1], textOf), textOf(o.scriptPubKey), o.nValue)
  }

  /** The votes among the outputs; of several to one address the last counts. */
  function Noted(vout: seq<TxOut>, textOf: Script -> Name): map<Name, int> {
    if vout == [] then map[]
    else
      var o := vout[|vout| - 1];
      var before := Noted(vout[..|vout| - 1], textOf);
      if IsVote(textOf(o.scriptPubKey), o.nValue) then before[textOf(o.scriptPubKey) := o.nValue] else before
  }

  function WithVote(votes: Ballots, spender: Name, amount: int, cand: Name): Ballots {
    votes[spender := Insert(if spender in votes then votes[spender] else [], amount, cand)]
  }

  /** Comes last in the map. */
  ghost predicate IsLast(s: set<Name>, c: Name) {
    c in s && forall d :: d in s ==> Before(d, c)
  }

  lemma {:induction false} LastExists(s: set<Name>) returns (c: Name)
    requires s != {}
    ensures IsLast(s, c)
    decreases |s|
  {
    c :| c in s;
    BeforeReflexive(c);
    if s != {c} {
      var d := LastExists(s - {c});
      BeforeTotal(c, d);
      if Before(d, c) {
        forall e | e in s
          ensures Before(e, c)
        {
          if e != c { BeforeTransitive(e, d, c); }
        }
      } else {
        c := d;
      }
    }
  }

  ghost function Last(s: set<Name>): (c: Name)
    requires s != {}
    ensures IsLast(s, c)
  {
    assert exists c :: IsLast(s, c) by {
      var c := LastExists(s);
    }
    var c :| IsLast(s, c);
    c
  }

  /** Each noted vote is recorded for the spender under its office, in the order of the names. */
  ghost function Recorded(votes: seq<Ballots>, spender: Name, noted: map<Name, int>): (r: seq<Ballots>)
    requires |votes| == |OFFICES|
    ensures |r| == |OFFICES|
    decreases |noted|
  {
    if noted == map[] then votes
    else
      var c := Last(noted.Keys);
      assert |(noted - {c}).Keys| < |noted.Keys|;
      var before := Recorded(votes, spender, noted - {c});
      var i := OfficeOf(c);
      if i < 0 then before else before[i := WithVote(before[i], spender, noted[c], c)]
  }

  /** Balances and votes; what a spent output paid, and to whom, is looked up. */
  datatype Ledger = Ledger(balances: Balances, votes: seq<Ballots>)

  const START := Ledger(map[], [map[], map[], map[], map[], map[], map[], map[]])

  ghost function AfterInputs(l: Ledger, vin: seq<OutPoint>, noted: map<Name, int>, source: OutPoint -> TxOut,
                             textOf: Script -> Name): (r: Ledger)
    requires |l.votes| == |OFFICES|
    ensures |r.votes| == |OFFICES|
  {
    if vin == [] then l
    else
      var before := AfterInputs(l, vin[..|vin| - 1], noted, source, textOf);
      var o := source(vin[|vin| - 1]);
      var spender := textOf(o.scriptPubKey);
      Ledger(Plus(before.balances, spender, -o.nValue), Recorded(before.votes, spender, noted))
  }

  ghost function AfterTx(l: Ledger, tx: Tx, source: OutPoint -> TxOut, textOf: Script -> Name): (r: Ledger)
    requires |l.votes| == |OFFICES|
    ensures |r.votes| == |OFFICES|
  {
    var credited := Ledger(Credited(l.balances, tx.vout, textOf), l.votes);
    if tx.IsCoinBase() then credited else AfterInputs(credited, tx.vin, Noted(tx.vout, textOf), source, textOf)
  }

  ghost function AfterTxs(l: Ledger, txs: seq<Tx>, source: OutPoint -> TxOut, textOf: Script -> Name): (r: Ledger)
    requires |l.votes| == |OFFICES|
    ensures |r.votes| == |OFFICES|
  {
    if txs == [] then l
    else AfterTx(AfterTxs(l, txs[..|txs| - 1], source, textOf), txs[|txs| - 1], source, textOf)
  }

  ghost function AfterBlocks(l: Ledger, blocks: seq<seq<Tx>>, source: OutPoint -> TxOut, textOf: Script -> Name)
    : (r: Ledger)
    requires |l.votes| == |OFFICES|
    ensures |r.votes| == |OFFICES|
  {
    if blocks == [] then l
    else AfterTxs(AfterBlocks(l, blocks[..|blocks| - 1], source, textOf), blocks[|blocks| - 1], source, textOf)
  }

  // ---- what is recorded ------------------------------------------------------------------------

  /** Ballots are in order, and every preference is the text of an address of that office. */
  ghost predicate Genuine(votes: seq<Ballots>, textOf: Script -> Name) {
    forall i, v :: 0 <= i < |votes| && v in votes[i] ==> GenuineBallot(votes[i][v], i, textOf)
  }

  ghost predicate GenuineBallot(b: Ballot, office: int, textOf: Script -> Name) {
    GoodBallot(b) && forall p :: p in b ==> IsAddress(p.cand, textOf) && OfficeOf(p.cand) == office
  }

  ghost predicate NotedVotes(noted: map<Name, int>, textOf: Script -> Name) {
    forall c :: c in noted ==> IsVote(c, noted[c]) && IsAddress(c, textOf)
  }

  lemma {:induction false} NotedAreVotes(vout: seq<TxOut>, textOf: Script -> Name)
    ensures NotedVotes(Noted(vout, textOf), textOf)
  {
    if vout != [] {
      NotedAreVotes(vout[..|vout| - 1], textOf);
    }
  }

  lemma CastGenuine(b: Ballot, office: int, amount: int, cand: Name, textOf: Script -> Name)
    requires (b == [] || GenuineBallot(b, office, textOf)) && amount > 0 && cand != ""
    requires IsAddress(cand, textOf) && OfficeOf(cand) == office
    ensures GenuineBallot(Insert(b, amount, cand), office, textOf)
  {
    hide GoodBallot, IsAddress, OfficeOf;
    InsertKeepsOrder(b, amount, cand);
    forall p | p in Insert(b, amount, cand)
      ensures IsAddress(p.cand, textOf) && OfficeOf(p.cand) == office
    {
      InsertHolds(b, amount, cand, p);
    }
  }

  lemma {:induction false} RecordedGenuine(votes: seq<Ballots>, spender: Name, noted: map<Name, int>,
                                           textOf: Script -> Name)
    requires |votes| == |OFFICES| && Genuine(votes, textOf) && NotedVotes(noted, textOf)
    ensures Genuine(Recorded(votes, spender, noted), textOf)
    decreases |noted|
  {
    hide GenuineBallot, IsAddress, OfficeOf;
    if noted != map[] {
      var c := Last(noted.Keys);
      assert |(noted - {c}).Keys| < |noted.Keys|;
      RecordedGenuine(votes, spender, noted - {c}, textOf);
      var before := Recorded(votes, spender, noted - {c});
      var i := OfficeOf(c);
      if i >= 0 {
        CastGenuine(if spender in before[i] then before[i][spender] else [], i, noted[c], c, textOf);
      }
    }
  }

  lemma {:induction false} InputsGenuine(l: Ledger, vin: seq<OutPoint>, noted: map<Name, int>,
                                         source: OutPoint -> TxOut, textOf: Script -> Name)
    requires |l.votes| == |OFFICES| && Genuine(l.votes, textOf) && NotedVotes(noted, textOf)
    ensures Genuine(AfterInputs(l, vin, noted, source, textOf).votes, textOf)
  {
    hide Genuine, NotedVotes, Recorded;
    if vin != [] {
      InputsGenuine(l, vin[..|vin| - 1], noted, source, textOf);
      var before := AfterInputs(l, vin[..|vin| - 1], noted, source, textOf);
      RecordedGenuine(before.votes, textOf(source(vin[|vin| - 1]).scriptPubKey), noted, textOf);
    }
  }

  lemma {:induction false} TxsGenuine(l: Ledger, txs: seq<Tx>, source: OutPoint -> TxOut, textOf: Script -> Name)
    requires |l.votes| == |OFFICES| && Genuine(l.votes, textOf)
    ensures Genuine(AfterTxs(l, txs, source, textOf).votes, textOf)
  {
    hide Genuine, NotedVotes, AfterInputs;
    if txs != [] {
      var n := |txs| - 1;
      TxsGenuine(l, txs[..n], source, textOf);
      NotedAreVotes(txs[n].vout, textOf);
      var before := AfterTxs(l, txs[..n], source, textOf);
      InputsGenuine(Ledger(Credited(before.balances, txs[n].vout, textOf), before.votes), txs[n].vin,
                    Noted(txs[n].vout, textOf), source, textOf);
    }
  }

  /** Whatever the blocks hold, all that is recorded is votes for addresses of the right office. */
  lemma {:induction false} BlocksGenuine(blocks: seq<seq<Tx>>, source: OutPoint -> TxOut, textOf: Script -> Name)
    ensures Genuine(AfterBlocks(START, blocks, source, textOf).votes, textOf)
  {
    hide AfterTxs;
    if blocks != [] {
      var n := |blocks| - 1;
      BlocksGenuine(blocks[..n], source, textOf);
      TxsGenuine(AfterBlocks(START, blocks[..n], source, textOf), blocks[n], source, textOf);
    }
  }

  // ---- what a transaction does to a ballot ------------------------------------------------------------------------

  /** A grant address for the office: the prefix and the three letters of the office after it. */
  predicate StandsFor(c: Name, office: int) {
    && 0 <= office < 7 && |c| >= 7 && c[..4] == "MVTE"
    && c[4..7] == ["ceo", "cto", "cno", "cmo", "cso", "cha", "xxx"][office]
  }

  lemma OfficeIs(c: Name, office: int)
    requires 0 <= office < 7
    ensures OfficeOf(c) == office <==> StandsFor(c, office)
  {
    assert OFFICES == ["ceo", "cto", "cno", "cmo", "cso", "cha", "xxx"];
    if StartsWith(c, GRANT_PREFIX) {
      OfficeOnly(c, 0, office);
    }
  }

  lemma {:induction false} OfficeOnly(c: Name, k: nat, office: int)
    requires k <= office < 7
    ensures OfficeFrom(c, k) == office <==> Middle(c) == OFFICES[office]
    decreases 7 - k
  {
    assert OFFICES[office] in OFFICES[k..];
    assert forall i, j :: 0 <= i < j < 7 ==> OFFICES[i] != OFFICES[j];
    if k < office {
      OfficeOnly(c, k + 1, office);
    }
  }

  /** The last vote among the outputs for the address pays it `a` units. */
  ghost predicate PaidLast(vout: seq<TxOut>, textOf: Script -> Name, c: Name, a: int) {
    0 < a < 10 && exists j :: 0 <= j < |vout| && LastAt(vout, textOf, c, a, j)
  }

  predicate LastAt(vout: seq<TxOut>, textOf: Script -> Name, c: Name, a: int, j: nat)
    requires j < |vout|
  {
    && textOf(vout[j].scriptPubKey) == c && vout[j].nValue == a
    && forall k :: j < k < |vout| && textOf(vout[k].scriptPubKey) == c ==> !(0 < vout[k].nValue < 10)
  }

  lemma {:induction false} NotedIs(vout: seq<TxOut>, textOf: Script -> Name, c: Name, a: int)
    requires StartsWith(c, GRANT_PREFIX)
    ensures c in Noted(vout, textOf) && Noted(vout, textOf)[c] == a <==> PaidLast(vout, textOf, c, a)
  {
    if vout != [] {
      var n := |vout| - 1;
      var front := vout[..n];
      NotedIs(front, textOf, c, a);
      if textOf(vout[n].scriptPubKey) == c && 0 < vout[n].nValue < 10 {
        if PaidLast(vout, textOf, c, a) {
          var j :| 0 <= j < |vout| && LastAt(vout, textOf, c, a, j);
          assert j == n;
        }
        if vout[n].nValue == a {
          assert LastAt(vout, textOf, c, a, n);
        }
      } else {
        if PaidLast(vout, textOf, c, a) {
          var j :| 0 <= j < |vout| && LastAt(vout, textOf, c, a, j);
          assert j < n && LastAt(front, textOf, c, a, j);
        }
        if PaidLast(front, textOf, c, a) {
          var j :| 0 <= j < |front| && LastAt(front, textOf, c, a, j);
          assert LastAt(vout, textOf, c, a, j);
        }
      }
    }
  }

  function BallotOf(votes: Ballots, v: Name): Ballot {
    if v in votes then votes[v] else []
  }

  ghost predicate Voted(noted: map<Name, int>, office: int, a: int, c: Name) {
    c in noted && noted[c] == a && StandsFor(c, office)
  }

  /** Of the addresses voted for with this amount, the last by name. */
  ghost predicate Choice(noted: map<Name, int>, office: int, a: int, c: Name) {
    Voted(noted, office, a, c) && forall d :: Voted(noted, office, a, d) ==> Before(d, c)
  }

  /** From ballot `b0` to `b1`: an amount somebody was voted for with names the last of those by name, and other amounts
      say what they said. */
  ghost predicate Files(b0: Ballot, b1: Ballot, noted: map<Name, int>, office: int) {
    forall p: Pref :: p in b1 <==>
      Choice(noted, office, p.amount, p.cand) || (p in b0 && forall c :: !Voted(noted, office, p.amount, c))
  }

  lemma FilesNothing(b: Ballot, noted: map<Name, int>, office: int)
    requires forall a, c :: !Voted(noted, office, a, c)
    ensures Files(b, b, noted, office)
  {
  }

  /** Recording one more vote, the last by name, in the order of the names. */
  lemma FilesNext(b0: Ballot, b: Ballot, noted: map<Name, int>, office: int, c: Name)
    requires c in noted && IsLast(noted.Keys, c) && Files(b0, b, noted - {c}, office) && (b == [] || GoodBallot(b))
    ensures Files(b0, if StandsFor(c, office) then Insert(b, noted[c], c) else b, noted, office)
  {
    hide StandsFor, Insert, Before;
    var less := noted - {c};
    forall a, d
      ensures Voted(noted, office, a, d) <==>
              Voted(less, office, a, d) || (d == c && a == noted[c] && StandsFor(c, office))
    {
    }
    var b1 := if StandsFor(c, office) then Insert(b, noted[c], c) else b;
    forall p: Pref
      ensures p in b1 <==>
        Choice(noted, office, p.amount, p.cand) || (p in b0 && forall d :: !Voted(noted, office, p.amount, d))
    {
      InsertHolds(b, noted[c], c, p);
      FilesNextAt(noted, office, c, p);
      assert p in b <==>
        Choice(less, office, p.amount, p.cand) || (p in b0 && forall d :: !Voted(less, office, p.amount, d));
    }
  }

  lemma FilesNextAt(noted: map<Name, int>, office: int, c: Name, p: Pref)
    requires c in noted && IsLast(noted.Keys, c)
    ensures p.amount != noted[c] || !StandsFor(c, office) ==>
      (Choice(noted, office, p.amount, p.cand) <==> Choice(noted - {c}, office, p.amount, p.cand))
      && ((forall d :: !Voted(noted, office, p.amount, d)) <==> forall d :: !Voted(noted - {c}, office, p.amount, d))
    ensures p.amount == noted[c] && StandsFor(c, office) ==>
      (Choice(noted, office, p.amount, p.cand) <==> p.cand == c) && Voted(noted, office, p.amount, c)
  {
    hide StandsFor;
    var less := noted - {c};
    forall d
      ensures Voted(noted, office, p.amount, d) <==>
              Voted(less, office, p.amount, d) || (d == c && p.amount == noted[c] && StandsFor(c, office))
    {
    }
    BeforeTotal(c, p.cand);
    BeforeReflexive(c);
    hide Before;
  }

  lemma {:induction false} RecordedFiles(votes: seq<Ballots>, spender: Name, noted: map<Name, int>,
                                         textOf: Script -> Name, office: int)
    requires |votes| == |OFFICES| && Genuine(votes, textOf) && NotedVotes(noted, textOf) && 0 <= office < |OFFICES|
    ensures Files(BallotOf(votes[office], spender), BallotOf(Recorded(votes, spender, noted)[office], spender), noted,
                  office)
    decreases |noted|
  {
    hide Genuine, GenuineBallot, IsAddress, OfficeOf, Files, StandsFor, Insert;
    if noted == map[] {
      FilesNothing(BallotOf(votes[office], spender), noted, office);
    } else {
      var c := Last(noted.Keys);
      assert |(noted - {c}).Keys| < |noted.Keys|;
      RecordedFiles(votes, spender, noted - {c}, textOf, office);
      RecordedGenuine(votes, spender, noted - {c}, textOf);
      var before := Recorded(votes, spender, noted - {c});
      GenuineBallotOf(before, office, spender, textOf);
      FilesNext(BallotOf(votes[office], spender), BallotOf(before[office], spender), noted, office, c);
      OfficeIs(c, office);
    }
  }

  lemma GenuineBallotOf(votes: seq<Ballots>, office: int, v: Name, textOf: Script -> Name)
    requires Genuine(votes, textOf) && 0 <= office < |votes|
    ensures BallotOf(votes[office], v) == [] || GoodBallot(BallotOf(votes[office], v))
  {
    if v in votes[office] {
      assert GenuineBallot(votes[office][v], office, textOf);
    }
  }

  lemma {:induction false} RecordedOthers(votes: seq<Ballots>, spender: Name, noted: map<Name, int>, v: Name,
                                          office: int)
    requires |votes| == |OFFICES| && 0 <= office < |OFFICES| && v != spender
    ensures BallotOf(Recorded(votes, spender, noted)[office], v) == BallotOf(votes[office], v)
    decreases |noted|
  {
    hide OfficeOf, Insert;
    if noted != map[] {
      var c := Last(noted.Keys);
      assert |(noted - {c}).Keys| < |noted.Keys|;
      RecordedOthers(votes, spender, noted - {c}, v, office);
    }
  }

  /** What recording the noted votes for one spender does, ballot by ballot. */
  ghost predicate FiledFor(before: seq<Ballots>, after: seq<Ballots>, spender: Name, noted: map<Name, int>)
    requires |before| == |after| == |OFFICES|
  {
    forall i, v :: 0 <= i < |OFFICES| ==>
      if v == spender then Files(BallotOf(before[i], v), BallotOf(after[i], v), noted, i)
      else BallotOf(after[i], v) == BallotOf(before[i], v)
  }

  lemma RecordedFiled(votes: seq<Ballots>, spender: Name, noted: map<Name, int>, textOf: Script -> Name)
    requires |votes| == |OFFICES| && Genuine(votes, textOf) && NotedVotes(noted, textOf)
    ensures FiledFor(votes, Recorded(votes, spender, noted), spender, noted)
  {
    hide Genuine, NotedVotes, Files, BallotOf, Recorded;
    forall i, v | 0 <= i < |OFFICES|
      ensures if v == spender
        then Files(BallotOf(votes[i], v), BallotOf(Recorded(votes, spender, noted)[i], v), noted, i)
        else BallotOf(Recorded(votes, spender, noted)[i], v) == BallotOf(votes[i], v)
    {
      if v == spender {
        RecordedFiles(votes, spender, noted, textOf, i);
      } else {
        RecordedOthers(votes, spender, noted, v, i);
      }
    }
  }

  lemma FilesTwice(b0: Ballot, b1: Ballot, b2: Ballot, noted: map<Name, int>, office: int)
    requires Files(b0, b1, noted, office) && Files(b1, b2, noted, office)
    ensures Files(b0, b2, noted, office)
  {
    hide Choice, Voted;
    forall p: Pref
      ensures p in b2 <==>
        Choice(noted, office, p.amount, p.cand) || (p in b0 && forall c :: !Voted(noted, office, p.amount, c))
    {
      ChoiceVoted(noted, office, p);
    }
  }

  lemma ChoiceVoted(noted: map<Name, int>, office: int, p: Pref)
    ensures Choice(noted, office, p.amount, p.cand) ==> Voted(noted, office, p.amount, p.cand)
  {
  }

  /** The address some input is taken from. */
  predicate Spends(vin: seq<OutPoint>, v: Name, source: OutPoint -> TxOut, textOf: Script -> Name) {
    exists k :: 0 <= k < |vin| && textOf(source(vin[k]).scriptPubKey) == v
  }

  lemma {:induction false} InputsFile(l: Ledger, vin: seq<OutPoint>, noted: map<Name, int>, source: OutPoint -> TxOut,
                                      textOf: Script -> Name, v: Name, office: int)
    requires |l.votes| == |OFFICES| && Genuine(l.votes, textOf) && NotedVotes(noted, textOf) && 0 <= office < |OFFICES|
    ensures var b0, b1 := BallotOf(l.votes[office], v),
                          BallotOf(AfterInputs(l, vin, noted, source, textOf).votes[office], v);
      if Spends(vin, v, source, textOf) then Files(b0, b1, noted, office) else b1 == b0
  {
    hide Genuine, NotedVotes, Recorded, Files, BallotOf;
    if vin != [] {
      var n := |vin| - 1;
      InputsFile(l, vin[..n], noted, source, textOf, v, office);
      InputsGenuine(l, vin[..n], noted, source, textOf);
      var before := AfterInputs(l, vin[..n], noted, source, textOf);
      var spender := textOf(source(vin[n]).scriptPubKey);
      var b0, b1 := BallotOf(l.votes[office], v), BallotOf(before.votes[office], v);
      assert Spends(vin, v, source, textOf) <==> Spends(vin[..n], v, source, textOf) || spender == v;
      if spender == v {
        RecordedFiles(before.votes, v, noted, textOf, office);
        if Spends(vin[..n], v, source, textOf) {
          FilesTwice(b0, b1, BallotOf(Recorded(before.votes, v, noted)[office], v), noted, office);
        }
      } else {
        RecordedOthers(before.votes, spender, noted, v, office);
      }
    }
  }

  /** The outputs of the transaction vote for the address with this amount. */
  ghost predicate VotesFor(tx: Tx, textOf: Script -> Name, office: int, a: int, c: Name) {
    StandsFor(c, office) && PaidLast(tx.vout, textOf, c, a)
  }

  ghost predicate ChosenBy(tx: Tx, textOf: Script -> Name, office: int, a: int, c: Name) {
    VotesFor(tx, textOf, office, a, c) && forall d :: VotesFor(tx, textOf, office, a, d) ==> Before(d, c)
  }

  /** What a transaction does to the ballot of `v`: if it spends from `v`, each amount it votes with now names the last,
      by name, of the addresses of the office it pays that amount, and all else is as it was; if not, all is. */
  ghost predicate TxFiles(b0: Ballot, b1: Ballot, tx: Tx, source: OutPoint -> TxOut, textOf: Script -> Name, v: Name,
                          office: int)
  {
    if !tx.IsCoinBase() && Spends(tx.vin, v, source, textOf) then
      forall p: Pref :: p in b1 <==>
        ChosenBy(tx, textOf, office, p.amount, p.cand) ||
        (p in b0 && forall c :: !VotesFor(tx, textOf, office, p.amount, c))
    else b1 == b0
  }

  lemma VotesForIs(tx: Tx, textOf: Script -> Name, office: int, a: int, c: Name)
    ensures Voted(Noted(tx.vout, textOf), office, a, c) <==> VotesFor(tx, textOf, office, a, c)
  {
    hide Noted, PaidLast;
    if StandsFor(c, office) {
      assert StartsWith(c, GRANT_PREFIX);
      NotedIs(tx.vout, textOf, c, a);
    }
  }

  /** Main result: the vote a transaction casts, read off its outputs. */
  lemma TxVotes(l: Ledger, tx: Tx, source: OutPoint -> TxOut, textOf: Script -> Name, v: Name, office: int)
    requires |l.votes| == |OFFICES| && Genuine(l.votes, textOf) && 0 <= office < |OFFICES|
    ensures TxFiles(BallotOf(l.votes[office], v), BallotOf(AfterTx(l, tx, source, textOf).votes[office], v), tx, source,
                    textOf, v, office)
  {
    hide Noted, Genuine, NotedVotes, AfterInputs, Credited, BallotOf, Voted, VotesFor, Spends;
    if !tx.IsCoinBase() {
      var noted := Noted(tx.vout, textOf);
      NotedAreVotes(tx.vout, textOf);
      InputsFile(Ledger(Credited(l.balances, tx.vout, textOf), l.votes), tx.vin, noted, source, textOf, v, office);
      forall a, c
        ensures Voted(noted, office, a, c) <==> VotesFor(tx, textOf, office, a, c)
      {
        VotesForIs(tx, textOf, office, a, c);
      }
    }
  }

  /** Of two addresses a transaction chooses, the one paid less is ranked above the other. */
  lemma PaidLessRanksFirst(l: Ledger, tx: Tx, source: OutPoint -> TxOut, textOf: Script -> Name, v: Name, office: int,
                           a: int, c: Name, b: int, d: Name)
    requires |l.votes| == |OFFICES| && Genuine(l.votes, textOf) && 0 <= office < |OFFICES|
    requires !tx.IsCoinBase() && Spends(tx.vin, v, source, textOf)
    requires ChosenBy(tx, textOf, office, a, c) && ChosenBy(tx, textOf, office, b, d) && a < b
    ensures var ballot := BallotOf(AfterTx(l, tx, source, textOf).votes[office], v);
      exists i, j :: 0 <= i < j < |ballot| && ballot[i] == Pref(a, c) && ballot[j] == Pref(b, d)
  {
    hide ChosenBy, VotesFor, Spends, Genuine, GoodBallot, Noted, AfterInputs, Credited;
    TxVotes(l, tx, source, textOf, v, office);
    TxsGenuine(l, [tx], source, textOf);
    assert [tx][..0] == [] && AfterTxs(l, [tx], source, textOf) == AfterTx(l, tx, source, textOf);
    var votes := AfterTx(l, tx, source, textOf).votes;
    GenuineBallotOf(votes, office, v, textOf);
    var ballot := BallotOf(votes[office], v);
    assert Pref(a, c) in ballot && Pref(b, d) in ballot;
    var i :| 0 <= i < |ballot| && ballot[i] == Pref(a, c);
    var j :| 0 <= j < |ballot| && ballot[j] == Pref(b, d);
    RisingOrder(ballot, i, j);
  }

  lemma RisingOrder(b: Ballot, i: nat, j: nat)
    requires GoodBallot(b) && i < |b| && j < |b| && b[i].amount < b[j].amount
    ensures i < j
  {
  }

  // ---- the database ------------------------------------------------------------------------

  /** Small enough for the 64-bit totals of the count. */
  ghost predicate Countable(l: Ledger) {
    Sum(Positive(l.balances)) < INT64_MAX
  }

  ghost predicate AllGood(votes: seq<Ballots>) {
    forall i :: 0 <= i < |votes| ==> GoodVotes(votes[i])
  }

  lemma GenuineGood(votes: seq<Ballots>, textOf: Script -> Name)
    requires Genuine(votes, textOf)
    ensures AllGood(votes)
  {
    hide GoodBallot;
    forall i, v | 0 <= i < |votes| && v in votes[i]
      ensures GoodBallot(votes[i][v])
    {
      assert GenuineBallot(votes[i][v], i, textOf);
    }
  }

  /** The award table the votes and balances give for an award block. */
  ghost function TableOf(l: Ledger, nHeight: nat): map<Name, int>
    requires |l.votes| == |OFFICES| && AllGood(l.votes)
  {
    Supply.AwardTable(WinnersOf(l), Supply.GrantValue(nHeight))
  }

  ghost function WinnersOf(l: Ledger): (w: seq<Name>)
    requires |l.votes| == |OFFICES| && AllGood(l.votes)
    ensures |w| == Supply.NUMBER_OF_OFFICES
  {
    seq(Supply.NUMBER_OF_OFFICES, i requires 0 <= i < Supply.NUMBER_OF_OFFICES =>
      OfficeWinner(l.votes[i], l.balances))
  }

  function Between<T>(chain: seq<T>, from: int, to: int): seq<T> {
    if 0 <= from <= to <= |chain| then chain[from..to] else []
  }

  /** The totals stay small enough block after block. */
  ghost predicate CountableAlong(l: Ledger, blocks: seq<seq<Tx>>, source: OutPoint -> TxOut, textOf: Script -> Name)
    requires |l.votes| == |OFFICES|
  {
    forall k :: 0 <= k <= |blocks| ==> Countable(AfterBlocks(l, blocks[..k], source, textOf))
  }

  lemma CountableNext(l: Ledger, blocks: seq<seq<Tx>>, k: nat, source: OutPoint -> TxOut, textOf: Script -> Name)
    requires |l.votes| == |OFFICES| && k < |blocks| && CountableAlong(l, blocks, source, textOf)
    ensures Countable(AfterBlocks(l, blocks[..k + 1], source, textOf))
    ensures AfterBlocks(l, blocks[..k + 1], source, textOf)
         == AfterTxs(AfterBlocks(l, blocks[..k], source, textOf), blocks[k], source, textOf)
  {
    assert blocks[..k + 1][..k] == blocks[..k];
    assert Countable(AfterBlocks(l, blocks[..k + 1], source, textOf));
  }

  lemma AfterNone(l: Ledger, source: OutPoint -> TxOut, textOf: Script -> Name)
    requires |l.votes| == |OFFICES|
    ensures AfterBlocks(l, [], source, textOf) == l
  {
  }

  class GrantDatabase {
    var grantDatabaseBlockHeight: int
    var balances: Balances
    var votingPreferences: seq<Ballots>
    var grantAwards: map<Name, int>
    const source: OutPoint -> TxOut
    const textOf: Script -> Name

    ghost predicate Valid()
      reads this
    {
      |votingPreferences| == |OFFICES| && Genuine(votingPreferences, textOf) && grantDatabaseBlockHeight >= -1
    }

    ghost function Counted(): Ledger
      reads this
    {
      Ledger(balances, votingPreferences)
    }

    constructor (source: OutPoint -> TxOut, textOf: Script -> Name)
      ensures Valid() && this.source == source && this.textOf == textOf
      ensures grantDatabaseBlockHeight == -1 && Counted() == START && grantAwards == map[]
    {
      grantDatabaseBlockHeight, balances, grantAwards := -1, map[], map[];
      votingPreferences := [map[], map[], map[], map[], map[], map[], map[]];
      this.source, this.textOf := source, textOf;
    }

    /** The loop over the outputs. */
    method AddOutputs(vout: seq<TxOut>) returns (votes: map<Name, int>)
      modifies `balances
      ensures balances == Credited(old(balances), vout, textOf) && votes == Noted(vout, textOf)
    {
      votes := map[];
      for j := 0 to |vout|
        invariant balances == Credited(old(balances), vout[..j], textOf) && votes == Noted(vout[..j], textOf)
      {
        assert vout[..j + 1][..j] == vout[..j];
        var receiveAddress := textOf(vout[j].scriptPubKey);
        balances := Plus(balances, receiveAddress, vout[j].nValue);
        if IsVote(receiveAddress, vout[j].nValue) {
          votes := votes[receiveAddress := vout[j].nValue];
        }
      }
      assert vout[..|vout|] == vout;
    }

    /** The loop over the noted votes, for the spender of one input. */
    method RecordVotes(spendAddress: Name, votes: map<Name, int>)
      requires |votingPreferences| == |OFFICES|
      modifies `votingPreferences
      ensures votingPreferences == Recorded(old(votingPreferences), spendAddress, votes)
      ensures Genuine(old(votingPreferences), textOf) && NotedVotes(votes, textOf) ==>
        FiledFor(old(votingPreferences), votingPreferences, spendAddress, votes)
    {
      hide FiledFor, Genuine, NotedVotes;
      if Genuine(votingPreferences, textOf) && NotedVotes(votes, textOf) {
        RecordedFiled(votingPreferences, spendAddress, votes, textOf);
      }
      var rest := votes.Keys;
      ghost var seen: set<Name> := {};
      assert Among(votes, seen) == map[];
      while rest != {}
        invariant rest == votes.Keys - seen && seen <= votes.Keys
        invariant forall c, d :: c in seen && d in rest ==> Before(c, d)
        invariant votingPreferences == Recorded(old(votingPreferences), spendAddress, Among(votes, seen))
        invariant |votingPreferences| == |OFFICES|
      {
        var c := Begin(rest);
        RecordNext(old(votingPreferences), spendAddress, votes, seen, c);
        var office := GetOfficeNumberFromAddress(c);
        if office > -1 {
          votingPreferences :=
            votingPreferences[office := WithVote(votingPreferences[office], spendAddress, votes[c], c)];
        }
        seen := seen + {c};
        rest := rest - {c};
      }
      assert Among(votes, seen) == votes;
    }

    /** The loop over the inputs: balances go down and the votes are recorded for every spender. */
    method SubtractInputs(vin: seq<OutPoint>, votes: map<Name, int>)
      requires |votingPreferences| == |OFFICES|
      modifies `balances, `votingPreferences
      ensures Counted() == AfterInputs(old(Counted()), vin, votes, source, textOf)
    {
      for j := 0 to |vin|
        invariant Counted() == AfterInputs(old(Counted()), vin[..j], votes, source, textOf)
      {
        assert vin[..j + 1][..j] == vin[..j];
        var o := source(vin[j]);
        var spendAddress := textOf(o.scriptPubKey);
        balances := Plus(balances, spendAddress, -o.nValue);
        RecordVotes(spendAddress, votes);
      }
      assert vin[..|vin|] == vin;
    }

    /** One block: all its transactions, then the election if an award block follows one interval later. */
    method ProcessNextBlock(vtx: seq<Tx>)
      requires Valid() && Countable(AfterTxs(Counted(), vtx, source, textOf))
      modifies this
      ensures Valid() && grantDatabaseBlockHeight == old(grantDatabaseBlockHeight) + 1
      ensures Counted() == AfterTxs(old(Counted()), vtx, source, textOf)
      ensures AllGood(votingPreferences) &&
        var nHeight := grantDatabaseBlockHeight + Supply.GRANT_BLOCK_INTERVAL;
        grantAwards == if Supply.IsGrantAwardBlock(nHeight) then TableOf(Counted(), nHeight) else old(grantAwards)
    {
      hide Genuine, AfterInputs, Recorded, Credited, Noted, Supply.BlockSubsidy, OfficeWinner, Decided, OfficeMajority,
        Sum, Positive;
      for i := 0 to |vtx|
        invariant Counted() == AfterTxs(old(Counted()), vtx[..i], source, textOf)
        invariant grantAwards == old(grantAwards) && grantDatabaseBlockHeight == old(grantDatabaseBlockHeight)
      {
        assert vtx[..i + 1][..i] == vtx[..i];
        var votes := AddOutputs(vtx[i].vout);
        if !vtx[i].IsCoinBase() {
          SubtractInputs(vtx[i].vin, votes);
        }
      }
      assert vtx[..|vtx|] == vtx;
      TxsGenuine(old(Counted()), vtx, source, textOf);
      GenuineGood(votingPreferences, textOf);
      grantDatabaseBlockHeight := grantDatabaseBlockHeight + 1;
      var nHeight := grantDatabaseBlockHeight + Supply.GRANT_BLOCK_INTERVAL;
      if Supply.IsGrantAwardBlock(nHeight) {
        var table, winners := GrantElection.GetGrantAwards(votingPreferences, balances, nHeight);
        assert winners == WinnersOf(Counted());
        grantAwards := table;
      }
    }

    /** The blocks still to be counted for an award block. */
    ghost function Due(chain: seq<seq<Tx>>, nHeight: nat): seq<seq<Tx>>
      reads this
    {
      Between(chain, grantDatabaseBlockHeight + 1, nHeight - Supply.GRANT_BLOCK_INTERVAL + 1)
    }

    /** getGrantAwards: the database is brought up to one interval below the award block, along the blocks that pnext
        leads through from genesis, and then holds the table for that block. */
    method GetGrantAwards(chain: seq<seq<Tx>>, nHeight: nat) returns (ok: bool)
      requires Valid() && nHeight - Supply.GRANT_BLOCK_INTERVAL < |chain|
      requires CountableAlong(Counted(), Due(chain, nHeight), source, textOf)
      modifies this
      ensures Valid() && ok == Supply.IsGrantAwardBlock(nHeight)
      ensures var due := if ok then old(Due(chain, nHeight)) else [];
        && grantDatabaseBlockHeight == old(grantDatabaseBlockHeight) + |due|
        && Counted() == AfterBlocks(old(Counted()), due, source, textOf)
        && if due == [] then grantAwards == old(grantAwards)
           else AllGood(votingPreferences) && grantAwards == TableOf(Counted(), nHeight)
    {
      AfterNone(Counted(), source, textOf);
      hide Genuine, AfterTxs, AfterBlocks, Countable, CountableAlong, TableOf, AllGood;
      if !Supply.IsGrantAwardBlock(nHeight) {
        return false;
      }
      var requiredGrantDatabaseHeight := nHeight - Supply.GRANT_BLOCK_INTERVAL;
      ghost var due, first, l := Due(chain, nHeight), grantDatabaseBlockHeight, Counted();
      assert due[..0] == [];
      while grantDatabaseBlockHeight < requiredGrantDatabaseHeight
        invariant Valid() && 0 <= grantDatabaseBlockHeight - first <= |due|
        invariant Counted() == AfterBlocks(l, due[..grantDatabaseBlockHeight - first], source, textOf)
        invariant if grantDatabaseBlockHeight == first then grantAwards == old(grantAwards)
          else grantDatabaseBlockHeight == requiredGrantDatabaseHeight ==>
            AllGood(votingPreferences) && grantAwards == TableOf(Counted(), nHeight)
      {
        ghost var k := grantDatabaseBlockHeight - first;
        CountableNext(l, due, k, source, textOf);
        ProcessNextBlock(chain[grantDatabaseBlockHeight + 1]);
      }
      assert due[..|due|] == due;
      return true;
    }
  }

  /** Taking the next vote in order is taking the last of those seen. */
  lemma RecordNext(votes: seq<Ballots>, spender: Name, noted: map<Name, int>, seen: set<Name>, c: Name)
    requires |votes| == |OFFICES| && c in noted && c !in seen && forall d :: d in seen ==> Before(d, c)
    ensures var before := Recorded(votes, spender, Among(noted, seen));
      var i := OfficeOf(c);
      Recorded(votes, spender, Among(noted, seen + {c}))
      == if i < 0 then before else before[i := WithVote(before[i], spender, noted[c], c)]
  {
    var now := Among(noted, seen + {c});
    BeforeReflexive(c);
    var d := Last(now.Keys);
    assert c in now;
    BeforeTotal(c, d);
    assert now - {c} == Among(noted, seen);
    hide OfficeOf, WithVote, Before;
  }
}
