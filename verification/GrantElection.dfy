/** The election code that changes the global ballots step by step: getWinnersFromBallots,
    electOrEliminate, eliminateCandidate and getGrantAwardsFromDatabaseForBlock in src/main.cpp. */
module GrantElection {
  import opened Names
  import opened Sums
  import opened Election
  import Supply

  // ---- the tally, one ballot at a time ---------------------------------------------------------

  ghost function Only(ballots: Ballots, voters: set<Name>): Ballots {
    map v | v in voters && v in ballots :: ballots[v]
  }

  /** The tally of the voters counted so far. */
  ghost function CountsOf(ballots: Ballots, balances: Balances, voters: set<Name>): map<Name, int> {
    Counts(Only(ballots, voters), balances)
  }

  lemma SupportersWith(ballots: Ballots, balances: Balances, voters: set<Name>, v: Name, c: Name)
    requires v in ballots && v in balances && v !in voters
    ensures var before := Supporters(Only(ballots, voters), balances, c);
      Supporters(Only(ballots, voters + {v}), balances, c)
      == if Top(ballots[v]) == c then before[v := balances[v]] else before
  {
  }

  lemma TallyWith(ballots: Ballots, balances: Balances, voters: set<Name>, v: Name, c: Name)
    requires v in ballots && v in balances && v !in voters
    ensures Tally(Only(ballots, voters + {v}), balances, c)
         == Tally(Only(ballots, voters), balances, c) + if Top(ballots[v]) == c then balances[v] else 0
  {
    SupportersWith(ballots, balances, voters, v, c);
    SumSet(Supporters(Only(ballots, voters), balances, c), v, balances[v]);
  }

  lemma NoSupporters(ballots: Ballots, balances: Balances, c: Name)
    requires c !in Counts(ballots, balances)
    ensures Tally(ballots, balances, c) == 0
  {
    assert Supporters(ballots, balances, c) == map[];
  }

  lemma CountsKeysWith(ballots: Ballots, balances: Balances, voters: set<Name>, v: Name)
    requires v in ballots && v in balances && v !in voters
    ensures CountsOf(ballots, balances, voters + {v}).Keys == CountsOf(ballots, balances,
      voters).Keys + {Top(ballots[v])}
  {
    var before, after := Only(ballots, voters), Only(ballots, voters + {v});
    assert after == before[v := ballots[v]];
    var tops0, tops1 := set w | w in before :: Top(before[w]), set w | w in after :: Top(after[w]);
    forall d | d in tops0
      ensures d in tops1
    {
      var w :| w in before && Top(before[w]) == d;
      assert w in after && after[w] == before[w];
    }
    assert v in after && Top(after[v]) in tops1;
  }

  lemma CountsValue(ballots: Ballots, balances: Balances, c: Name)
    ensures Tally(ballots, balances, c)
         == if c in Counts(ballots, balances) then Counts(ballots, balances)[c] else 0
  {
    if c !in Counts(ballots, balances) {
      NoSupporters(ballots, balances, c);
    }
  }

  lemma SetMinus<T>(all: set<T>, todo: set<T>, v: T)
    requires v in todo && todo <= all
    ensures all - todo + {v} == all - (todo - {v})
  {
  }

  lemma CountsEnds(ballots: Ballots, balances: Balances)
    ensures CountsOf(ballots, balances, {}) == map[]
    ensures CountsOf(ballots, balances, ballots.Keys) == Counts(ballots, balances)
  {
    assert Only(ballots, ballots.Keys) == ballots;
  }

  /** preferenceCount[top] += balance keeps the tally of the voters seen. */
  lemma CountsWith(ballots: Ballots, balances: Balances, voters: set<Name>, v: Name)
    requires v in ballots && v in balances && v !in voters
    ensures var m := CountsOf(ballots, balances, voters);
      var c := Top(ballots[v]);
      CountsOf(ballots, balances, voters + {v}) == m[c := (if c in m then m[c] else 0) + balances[v]]
  {
    hide Counts, Tally, Only;
    var before, after := CountsOf(ballots, balances, voters), CountsOf(ballots, balances, voters + {v});
    var c := Top(ballots[v]);
    CountsKeysWith(ballots, balances, voters, v);
    forall d | d in after
      ensures after[d] == (if d in before then before[d] else 0) + if d == c then balances[v] else 0
    {
      TallyWith(ballots, balances, voters, v, d);
      CountsValue(Only(ballots, voters), balances, d);
      CountsValue(Only(ballots, voters + {v}), balances, d);
    }
  }

  lemma GoodAt(ballots: Ballots, balances: Balances, v: Name)
    requires Good(ballots, balances) && v in ballots
    ensures GoodBallot(ballots[v]) && v in balances
  {
  }

  /** Tallies are positive and stay below the sum of all balances. */
  lemma CountsRange(ballots: Ballots, balances: Balances, c: Name)
    requires Good(ballots, balances) && c in Counts(ballots, balances)
    ensures 0 < Counts(ballots, balances)[c] <= Sum(balances)
  {
    var v := TopVoter(ballots, balances, c);
    var s := Supporters(ballots, balances, c);
    SumRemove(s, v);
    SumNonNegative(s - {v});
    SumAtMost(s, balances);
  }

  // ---- the best and the worst so far -----------------------------------------------------------

  ghost function Among(m: map<Name, int>, seen: set<Name>): map<Name, int> {
    map c | c in m && c in seen :: m[c]
  }

  /** Meeting the next key in order: it leads only with strictly more. */
  lemma LeaderWith(m: map<Name, int>, seen: set<Name>, next: Name, top: Name)
    requires next in m && next !in seen && forall c :: c in seen ==> Before(c, next)
    requires IsLeader(Among(m, seen), top)
    ensures IsLeader(Among(m, seen + {next}), if m[next] > m[top] then next else top)
  {
    BeforeReflexive(next);
  }

  lemma LoserWith(m: map<Name, int>, seen: set<Name>, next: Name, low: Name)
    requires next in m && next !in seen && forall c :: c in seen ==> Before(c, next)
    requires IsLoser(Among(m, seen), low)
    ensures IsLoser(Among(m, seen + {next}), if m[next] < m[low] then next else low)
  {
    BeforeReflexive(next);
  }

  lemma FirstOne(m: map<Name, int>, next: Name)
    requires next in m
    ensures IsLeader(Among(m, {next}), next) && IsLoser(Among(m, {next}), next)
  {
    BeforeReflexive(next);
  }

  /** The first key of a map: the start of its iteration. */
  method Begin(keys: set<Name>) returns (c: Name)
    requires keys != {}
    ensures c in keys && forall d :: d in keys ==> Before(c, d)
  {
    ghost var f := FirstExists(keys);
    assert IsFirst(keys, f);
    c :| c in keys && forall d :: d in keys ==> Before(c, d);
  }

  /** The scan over preferenceCount for the top and the bottom of the poll. */
  method ScanPoll(preferenceCount: map<Name, int>)
    returns (topOfThePoll: Name, topOfThePollAmount: int, bottomOfThePoll: Name, bottomOfThePollAmount: int)
    requires forall c :: c in preferenceCount ==> 0 < preferenceCount[c] < INT64_MAX
    ensures preferenceCount == map[] ==> topOfThePollAmount == 0
    ensures preferenceCount != map[] ==> IsLeader(preferenceCount, topOfThePoll) && IsLoser(preferenceCount,
      bottomOfThePoll)
    ensures preferenceCount != map[] ==> topOfThePollAmount == preferenceCount[topOfThePoll]
  {
    topOfThePoll, topOfThePollAmount := "", 0;
    bottomOfThePoll, bottomOfThePollAmount := "", INT64_MAX;
    var rest := preferenceCount.Keys;
    ghost var seen: set<Name> := {};
    while rest != {}
      invariant rest == preferenceCount.Keys - seen && seen <= preferenceCount.Keys
      invariant forall c, d :: c in seen && d in rest ==> Before(c, d)
      invariant seen == {} ==> topOfThePollAmount == 0 && bottomOfThePollAmount == INT64_MAX
      invariant seen != {} ==>
        && IsLeader(Among(preferenceCount, seen), topOfThePoll)
        && topOfThePollAmount == preferenceCount[topOfThePoll]
        && IsLoser(Among(preferenceCount, seen), bottomOfThePoll)
        && bottomOfThePollAmount == preferenceCount[bottomOfThePoll]
    {
      var c := Begin(rest);
      if seen == {} {
        FirstOne(preferenceCount, c);
      } else {
        LeaderWith(preferenceCount, seen, c, topOfThePoll);
        LoserWith(preferenceCount, seen, c, bottomOfThePoll);
      }
      if preferenceCount[c] > topOfThePollAmount {
        topOfThePollAmount, topOfThePoll := preferenceCount[c], c;
      }
      if preferenceCount[c] < bottomOfThePollAmount {
        bottomOfThePollAmount, bottomOfThePoll := preferenceCount[c], c;
      }
      assert seen == {} ==> seen + {c} == {c};
      seen := seen + {c};
      rest := rest - {c};
    }
    assert Among(preferenceCount, preferenceCount.Keys) == preferenceCount;
  }

  // ---- erasing one preference --------------------------------------------------------------------

  /** map::erase of one amount. */
  function Erase(b: Ballot, amount: int): Ballot {
    if b == [] then []
    else if b[0].amount == amount then b[1..]
    else [b[0]] + Erase(b[1..], amount)
  }

  lemma {:induction false} EraseAt(b: Ballot, i: nat, amount: int)
    requires i < |b| && b[i].amount == amount && forall j :: 0 <= j < i ==> b[j].amount != amount
    ensures Erase(b, amount) == b[..i] + b[i + 1..]
  {
    if i > 0 {
      assert forall j :: 0 <= j < i - 1 ==> b[1..][j] == b[j + 1];
      EraseAt(b[1..], i - 1, amount);
      TakeDrop(b, i);
    }
  }

  lemma TakeDrop(b: Ballot, i: nat)
    requires 0 < i < |b|
    ensures [b[0]] + (b[1..][..i - 1] + b[1..][i..]) == b[..i] + b[i + 1..]
  {
    assert b[1..][i..] == b[i + 1..];
    assert [b[0]] + b[1..][..i - 1] == b[..i];
  }

  lemma LastForIs(b: Ballot, c: Name, i: int)
    requires -1 <= i < |b| && (i >= 0 ==> b[i].cand == c)
    requires forall j :: i < j < |b| ==> b[j].cand != c
    ensures LastFor(b, c) == i
  {
  }

  /** The marking loop of eliminateCandidate on one ballot: the last match is marked, and erased. */
  method StrikeFrom(b: Ballot, removeid: Name) returns (r: Ballot)
    requires GoodBallot(b)
    ensures r == Without(b, removeid)
  {
    var markForRemoval := 0;
    ghost var last := -1;
    for i := 0 to |b|
      invariant -1 <= last < i
      invariant last >= 0 ==> b[last].cand == removeid && markForRemoval == b[last].amount
      invariant last < 0 ==> markForRemoval == 0
      invariant forall j :: last < j < i ==> b[j].cand != removeid
    {
      if b[i].cand == removeid {
        markForRemoval := b[i].amount;
        last := i;
      }
    }
    LastForIs(b, removeid, last);
    r := b;
    if markForRemoval != 0 {
      EraseAt(b, last, markForRemoval);
      r := Erase(b, markForRemoval);
    }
  }

  /** What Eliminate leaves of the voters already visited, with the others untouched. */
  ghost function StruckFor(ballots: Ballots, done: set<Name>, c: Name): Ballots {
    map v | v in ballots :: if v in done then Without(ballots[v], c) else ballots[v]
  }

  lemma StruckNone(ballots: Ballots, c: Name)
    ensures StruckFor(ballots, {}, c) == ballots
  {
  }

  lemma StruckWith(ballots: Ballots, done: set<Name>, c: Name, v: Name)
    requires v in ballots && v !in done
    ensures StruckFor(ballots, done, c)[v := Without(ballots[v], c)] == StruckFor(ballots, done + {v}, c)
    ensures StruckFor(ballots, done, c).Keys == ballots.Keys && StruckFor(ballots, done, c)[v] == ballots[v]
  {
    hide Without;
  }

  lemma StruckAll(ballots: Ballots, c: Name, emptied: set<Name>)
    requires emptied == set v | v in ballots.Keys && Without(ballots[v], c) == []
    ensures StruckFor(ballots, ballots.Keys, c) - emptied == Eliminate(ballots, c)
  {
    hide Without;
  }

  /** The balances of all voters together. */
  method TotalOf(ballotBalances: Balances) returns (total: int)
    ensures total == Sum(ballotBalances)
  {
    total := 0;
    var todo := ballotBalances.Keys;
    while todo != {}
      invariant todo <= ballotBalances.Keys
      invariant total == Sum(ballotBalances - todo)
    {
      var v :| v in todo;
      SumSet(ballotBalances - todo, v, ballotBalances[v]);
      assert (ballotBalances - todo)[v := ballotBalances[v]] == ballotBalances - (todo - {v});
      total := total + ballotBalances[v];
      todo := todo - {v};
    }
    assert ballotBalances - {} == ballotBalances;
  }

  lemma TallyRange(ballots: Ballots, balances: Balances)
    requires Good(ballots, balances)
    ensures forall c :: c in Counts(ballots, balances) ==> 0 < Counts(ballots, balances)[c] <= Sum(balances) && c != ""
  {
    forall c | c in Counts(ballots, balances)
      ensures 0 < Counts(ballots, balances)[c] <= Sum(balances) && c != ""
    {
      CountsRange(ballots, balances, c);
      var v := TopVoter(ballots, balances, c);
    }
  }

  lemma LeaderIn(m: map<Name, int>, c: Name)
    requires IsLeader(m, c)
    ensures c in m
  {
  }

  lemma ElectNobody(ballots: Ballots, balances: Balances, droopQuota: int)
    requires Good(ballots, balances) && Counts(ballots, balances) == map[]
    ensures Elect(ballots, balances, droopQuota) == UNSPENDABLE && UNSPENDABLE != ""
  {
    CountsNonEmpty(ballots, balances);
    assert UNSPENDABLE[0] == 'M';
  }

  class Count {
    var ballots: Ballots
    var ballotBalances: Balances
    var preferenceCount: map<Name, int>

    constructor (ballots: Ballots, ballotBalances: Balances)
      requires Good(ballots, ballotBalances) && Sum(ballotBalances) < INT64_MAX
      ensures this.ballots == ballots && this.ballotBalances == ballotBalances
    {
      this.ballots, this.ballotBalances, preferenceCount := ballots, ballotBalances, map[];
    }

    /** Strikes the candidate from every ballot, then drops the ballots left empty. */
    method EliminateCandidate(removeid: Name)
      requires Good(ballots, ballotBalances)
      modifies `ballots
      ensures ballots == Eliminate(old(ballots), removeid)
      ensures Good(ballots, ballotBalances)
    {
      ghost var before := ballots;
      StrikeAll(removeid);
      EliminateGood(before, ballotBalances, removeid);
    }

    method StrikeAll(removeid: Name)
      requires Good(ballots, ballotBalances)
      modifies `ballots
      ensures ballots == Eliminate(old(ballots), removeid)
    {
      ghost var before := ballots;
      ghost var balances := ballotBalances;
      var ballotsToRemove: set<Name> := {};
      var todo := ballots.Keys;
      ghost var done: set<Name> := {};
      StruckNone(before, removeid);
      hide *;
      while todo != {}
        invariant todo <= before.Keys && done == before.Keys - todo
        invariant ballots == StruckFor(before, done, removeid)
        invariant ballotsToRemove == set v | v in done && Without(before[v], removeid) == []
      {
        var v :| v in todo;
        StruckWith(before, done, removeid, v);
        GoodAt(before, balances, v);
        var b := StrikeFrom(ballots[v], removeid);
        ballots := ballots[v := b];
        if |b| == 0 {
          ballotsToRemove := ballotsToRemove + {v};
        }
        todo, done := todo - {v}, done + {v};
      }
      assert done == before.Keys;
      StruckAll(before, removeid, ballotsToRemove);
      ballots := ballots - ballotsToRemove;
    }

    /** One round: the winner's address, or "" after one elimination. */
    method ElectOrEliminate(droopQuota: int, requiredCandidates: nat) returns (elected: Name)
      requires Good(ballots, ballotBalances) && Sum(ballotBalances) < INT64_MAX && requiredCandidates == 1
      modifies `ballots, `preferenceCount
      ensures Good(ballots, ballotBalances)
      ensures elected != "" ==> elected == Elect(old(ballots), ballotBalances, droopQuota)
      ensures elected == "" ==>
        && Elect(ballots, ballotBalances, droopQuota) == Elect(old(ballots), ballotBalances, droopQuota)
        && Preferences(ballots) < Preferences(old(ballots))
    {
      ghost var all, balances := ballots, ballotBalances;
      hide *;
      CountBallots();
      var m := preferenceCount;
      TallyRange(all, balances);
      var topOfThePoll, topOfThePollAmount, bottomOfThePoll, bottomOfThePollAmount := ScanPoll(m);
      if topOfThePollAmount == 0 {
        ElectNobody(all, balances, droopQuota);
        return UNSPENDABLE;
      }
      LeaderIn(m, topOfThePoll);
      ElectRound(all, balances, droopQuota, topOfThePoll, bottomOfThePoll);
      if topOfThePollAmount >= droopQuota || requiredCandidates >= |m| {
        EliminateCandidate(topOfThePoll);
        return topOfThePoll;
      }
      EliminateCandidate(bottomOfThePoll);
      return "";
    }

    /** preferenceCount is recomputed from the ballots at the start of every round. */
    method CountBallots()
      requires Good(ballots, ballotBalances)
      modifies `preferenceCount
      ensures preferenceCount == Counts(ballots, ballotBalances)
    {
      ghost var all, balances := ballots, ballotBalances;
      hide *;
      preferenceCount := map[];
      var todo := ballots.Keys;
      CountsEnds(all, balances);
      assert all.Keys - todo == {};
      while todo != {}
        invariant todo <= all.Keys
        invariant preferenceCount == CountsOf(all, balances, all.Keys - todo)
      {
        var v :| v in todo;
        GoodAt(all, balances, v);
        CountsWith(all, balances, all.Keys - todo, v);
        SetMinus(all.Keys, todo, v);
        var c := Top(ballots[v]);
        if c !in preferenceCount {
          preferenceCount := preferenceCount[c := 0];
        }
        preferenceCount := preferenceCount[c := preferenceCount[c] + ballotBalances[v]];
        todo := todo - {v};
      }
      assert all.Keys - todo == all.Keys;
    }

    /** The winner of the office: rounds until someone is elected. */
    method GetWinnerFromBallots() returns (electedCandidate: Name)
      requires Good(ballots, ballotBalances) && Sum(ballotBalances) < INT64_MAX
      modifies `ballots, `preferenceCount
      ensures electedCandidate == Elect(old(ballots), ballotBalances, DroopQuota(Sum(ballotBalances)))
      ensures forall voters, s :: MajorityFor(old(ballots), ballotBalances, voters, s) ==> electedCandidate in s
    {
      MajorityElects(ballots, ballotBalances);
      var totalOfVoterBalances := TotalOf(ballotBalances);
      ghost var winner := Elect(ballots, ballotBalances, DroopQuota(Sum(ballotBalances)));
      var droopQuota := totalOfVoterBalances / (1 + 1) + 1;
      assert droopQuota == DroopQuota(Sum(ballotBalances));
      hide *;
      electedCandidate := ElectOrEliminate(droopQuota, 1);
      while electedCandidate == ""
        invariant Good(ballots, ballotBalances)
        invariant electedCandidate != "" ==> electedCandidate == winner
        invariant electedCandidate == "" ==> Elect(ballots, ballotBalances, droopQuota) == winner
        decreases if electedCandidate == "" then Preferences(ballots) + 1 else 0
      {
        electedCandidate := ElectOrEliminate(droopQuota, 1);
      }
    }
  }

  /** Voters with more than half of all balances rank every member of `s`, each once, above everyone else. */
  ghost predicate MajorityFor(ballots: Ballots, balances: Balances, voters: set<Name>, s: set<Name>) {
    && voters <= ballots.Keys && s != {}
    && (forall v :: v in voters ==> Solid(ballots[v], s))
    && 2 * Sum(Weights(balances, voters)) > Sum(balances)
  }

  /** A majority gets one of its own under the quota the count uses. */
  lemma MajorityElects(ballots: Ballots, balances: Balances)
    requires Good(ballots, balances)
    ensures forall voters, s :: MajorityFor(ballots, balances, voters, s) ==>
      Elect(ballots, balances, DroopQuota(Sum(balances))) in s
  {
    hide Good, Elect, Solid, Weights;
    var quota := DroopQuota(Sum(balances));
    forall voters, s | MajorityFor(ballots, balances, voters, s)
      ensures Elect(ballots, balances, quota) in s
    {
      TotalNotNegative(ballots, balances);
      CoalitionWins(ballots, balances, quota, voters, s);
    }
  }

  lemma TotalNotNegative(ballots: Ballots, balances: Balances)
    requires Good(ballots, balances)
    ensures Sum(balances) >= 0
  {
    SumNonNegative(balances);
  }

  // ---- from votes to awards ------------------------------------------------------------------------

  /** votingPreferences[office][spender][amount] = address: an amount names one candidate, the last. */
  function Insert(b: Ballot, amount: int, cand: Name): Ballot {
    if b == [] || amount < b[0].amount then [Pref(amount, cand)] + b
    else if amount == b[0].amount then [Pref(amount, cand)] + b[1..]
    else [b[0]] + Insert(b[1..], amount, cand)
  }

  lemma GoodCons(p: Pref, rest: Ballot)
    requires p.amount > 0 && p.cand != "" && (rest == [] || (GoodBallot(rest) && p.amount < rest[0].amount))
    ensures GoodBallot([p] + rest)
  {
    forall i, j | 0 <= i < j < |[p] + rest|
      ensures ([p] + rest)[i].amount < ([p] + rest)[j].amount
    {
      if j > 1 { assert rest[0].amount <= rest[j - 1].amount; }
    }
  }

  lemma GoodTail(b: Ballot)
    requires GoodBallot(b)
    ensures b[1..] == [] || (GoodBallot(b[1..]) && b[0].amount < b[1..][0].amount)
    ensures b[0].amount > 0 && b[0].cand != "" && b == [b[0]] + b[1..]
  {
  }

  /** A vote of 1 to 9 units keeps the ballot in order. */
  lemma {:induction false} InsertKeepsOrder(b: Ballot, amount: int, cand: Name)
    requires (b == [] || GoodBallot(b)) && amount > 0 && cand != ""
    ensures GoodBallot(Insert(b, amount, cand))
    ensures Insert(b, amount, cand)[0].amount == if b != [] && b[0].amount < amount then b[0].amount else amount
  {
    hide GoodBallot;
    if b == [] {
      GoodCons(Pref(amount, cand), []);
    } else {
      GoodTail(b);
      if amount < b[0].amount {
        GoodCons(Pref(amount, cand), b);
      } else if amount == b[0].amount {
        GoodCons(Pref(amount, cand), b[1..]);
      } else {
        InsertKeepsOrder(b[1..], amount, cand);
        GoodCons(b[0], Insert(b[1..], amount, cand));
      }
    }
  }

  /** It replaces what that amount said before, and nothing else. */
  lemma {:induction false} InsertHolds(b: Ballot, amount: int, cand: Name, p: Pref)
    requires b == [] || GoodBallot(b)
    ensures p in Insert(b, amount, cand) <==> p == Pref(amount, cand) || (p in b && p.amount != amount)
  {
    if b != [] {
      GoodTail(b);
      LaterAreMore(b, p);
      if amount > b[0].amount {
        InsertHolds(b[1..], amount, cand, p);
      }
      hide GoodBallot;
    }
  }

  lemma LaterAreMore(b: Ballot, p: Pref)
    requires GoodBallot(b)
    ensures p in b[1..] ==> p.amount > b[0].amount
  {
  }

  function BalanceOf(balances: Balances, v: Name): int {
    if v in balances then balances[v] else 0
  }

  /** Balances of 0 play no part. */
  function VoterBalances(votingPreferences: Ballots, balances: Balances): Balances {
    map v | v in votingPreferences && BalanceOf(balances, v) > 0 :: balances[v]
  }

  function VoterBallots(votingPreferences: Ballots, balances: Balances): Ballots {
    map v | v in votingPreferences && BalanceOf(balances, v) > 0 :: votingPreferences[v]
  }

  function Positive(balances: Balances): Balances {
    map v | v in balances && balances[v] > 0 :: balances[v]
  }

  ghost predicate GoodVotes(votingPreferences: Ballots) {
    forall v :: v in votingPreferences ==> GoodBallot(votingPreferences[v])
  }

  /** Whom an office goes to, from the votes and the balances alone. */
  ghost function OfficeWinner(votingPreferences: Ballots, balances: Balances): Name
    requires GoodVotes(votingPreferences)
  {
    var w := VoterBalances(votingPreferences, balances);
    Elect(VoterBallots(votingPreferences, balances), w, DroopQuota(Sum(w)))
  }

  lemma VotersGood(votingPreferences: Ballots, balances: Balances)
    requires GoodVotes(votingPreferences) && Sum(Positive(balances)) < INT64_MAX
    ensures Good(VoterBallots(votingPreferences, balances), VoterBalances(votingPreferences, balances))
    ensures Sum(VoterBalances(votingPreferences, balances)) < INT64_MAX
  {
    SumAtMost(VoterBalances(votingPreferences, balances), Positive(balances));
  }

  /** The ballots and balances of one office, voter by voter. */
  method CollectBallots(votingPreferences: Ballots, balances: Balances)
    returns (ballots: Ballots, ballotBalances: Balances)
    ensures ballots == VoterBallots(votingPreferences, balances)
    ensures ballotBalances == VoterBalances(votingPreferences, balances)
  {
    ballots, ballotBalances := map[], map[];
    var todo := votingPreferences.Keys;
    while todo != {}
      invariant todo <= votingPreferences.Keys
      invariant ballots == VoterBallots(votingPreferences - todo, balances)
      invariant ballotBalances == VoterBalances(votingPreferences - todo, balances)
    {
      var v :| v in todo;
      var voterBalance := BalanceOf(balances, v);
      if voterBalance > 0 {
        ballotBalances := ballotBalances[v := voterBalance];
        ballots := ballots[v := votingPreferences[v]];
      }
      todo := todo - {v};
    }
    assert votingPreferences - {} == votingPreferences;
  }

  /** A majority of the positive balances of an office's voters, solid for `s`. */
  ghost predicate OfficeMajority(votingPreferences: Ballots, balances: Balances, voters: set<Name>, s: set<Name>) {
    MajorityFor(VoterBallots(votingPreferences, balances), VoterBalances(votingPreferences, balances), voters, s)
  }

  /** Some voter for the office holds coins. */
  ghost predicate HasBallot(votingPreferences: Ballots, balances: Balances) {
    exists v :: v in votingPreferences && BalanceOf(balances, v) > 0
  }

  /** The winner is on somebody's ballot, or is the unspendable address when nobody who voted holds coins. */
  ghost predicate Decided(votingPreferences: Ballots, balances: Balances, winner: Name) {
    if HasBallot(votingPreferences, balances) then Named(votingPreferences, winner) else winner == UNSPENDABLE
  }

  lemma OfficeDecided(votingPreferences: Ballots, balances: Balances)
    requires GoodVotes(votingPreferences)
    ensures Decided(votingPreferences, balances, OfficeWinner(votingPreferences, balances))
  {
    var ballots, w := VoterBallots(votingPreferences, balances), VoterBalances(votingPreferences, balances);
    WinnerNamed(ballots, w, DroopQuota(Sum(w)));
    if HasBallot(votingPreferences, balances) {
      var v :| v in votingPreferences && BalanceOf(balances, v) > 0;
      assert v in ballots;
      var x, i :| x in ballots && 0 <= i < |ballots[x]| &&
        ballots[x][i].cand == OfficeWinner(votingPreferences, balances);
      assert votingPreferences[x][i].cand == OfficeWinner(votingPreferences, balances);
    }
  }

  method CountOffice(votingPreferences: Ballots, balances: Balances) returns (winner: Name)
    requires GoodVotes(votingPreferences) && Sum(Positive(balances)) < INT64_MAX
    ensures winner == OfficeWinner(votingPreferences, balances) && Decided(votingPreferences, balances, winner)
    ensures forall voters, s :: OfficeMajority(votingPreferences, balances, voters, s) ==> winner in s
  {
    hide Elect, Good, GoodVotes, Sum, Positive, VoterBallots, VoterBalances, DroopQuota, MajorityFor, Decided;
    OfficeDecided(votingPreferences, balances);
    VotersGood(votingPreferences, balances);
    var ballots, ballotBalances := CollectBallots(votingPreferences, balances);
    var count := new Count(ballots, ballotBalances);
    winner := count.GetWinnerFromBallots();
  }

  /** Elects every office and credits the winners of the first six; the seventh only counts. */
  method GetGrantAwards(votingPreferences: seq<Ballots>, balances: Balances, nHeight: nat)
    returns (grantAwards: map<Name, int>, ghost winners: seq<Name>)
    requires |votingPreferences| == Supply.NUMBER_OF_OFFICES + 1
    requires forall i :: 0 <= i < |votingPreferences| ==> GoodVotes(votingPreferences[i])
    requires Sum(Positive(balances)) < INT64_MAX
    ensures |winners| == Supply.NUMBER_OF_OFFICES
    ensures forall i :: 0 <= i < |winners| ==> winners[i] == OfficeWinner(votingPreferences[i], balances)
    ensures forall i :: 0 <= i < |winners| ==> Decided(votingPreferences[i], balances, winners[i])
    ensures grantAwards == Supply.AwardTable(winners, Supply.GrantValue(nHeight))
    ensures Supply.TableFor(grantAwards, nHeight)
    ensures forall i, voters, s :: 0 <= i < |winners| && OfficeMajority(votingPreferences[i], balances, voters, s) ==>
      winners[i] in s
  {
    hide OfficeWinner, GoodVotes, Sum, Positive, Supply.BlockSubsidy, OfficeMajority, Decided;
    grantAwards := map[];
    winners := [];
    for i := 0 to Supply.NUMBER_OF_OFFICES + 1
      invariant |winners| == if i <= Supply.NUMBER_OF_OFFICES then i else Supply.NUMBER_OF_OFFICES
      invariant forall k :: 0 <= k < |winners| ==> winners[k] == OfficeWinner(votingPreferences[k], balances)
      invariant grantAwards == Supply.AwardTable(winners, Supply.GrantValue(nHeight))
      invariant forall k, voters, s ::
        0 <= k < |winners| && OfficeMajority(votingPreferences[k], balances, voters, s) ==> winners[k] in s
    {
      var winner := CountOffice(votingPreferences[i], balances);
      if i < Supply.NUMBER_OF_OFFICES {
        var held := if winner in grantAwards then grantAwards[winner] else 0;
        grantAwards := grantAwards[winner := held + Supply.GrantValue(nHeight)];
        winners := winners + [winner];
      }
    }
    forall i | 0 <= i < |winners|
      ensures Decided(votingPreferences[i], balances, winners[i])
    {
      OfficeDecided(votingPreferences[i], balances);
    }
  }
}
