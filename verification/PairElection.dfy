/** The majority criterion for one or two candidates: it holds however often a ballot lists them. */
module PairElection {
  import opened Names
  import opened Sums
  import opened Election

  // ---- first preferences of a coalition ------------------------------------------------------------------------

  /** Voters with a ballot who together hold the quota, which is more than half. */
  ghost predicate Holds(ballots: Ballots, balances: Balances, droopQuota: int, voters: set<Name>) {
    && voters <= ballots.Keys && Sum(Weights(balances, voters)) >= droopQuota > 0
    && 2 * droopQuota > Sum(balances)
  }

  lemma SomeVoter(ballots: Ballots, balances: Balances, droopQuota: int, voters: set<Name>) returns (v: Name)
    requires Good(ballots, balances) && Holds(ballots, balances, droopQuota, voters)
    ensures v in voters && Top(ballots[v]) in Counts(ballots, balances)
  {
    NoVotersNoWeight(balances, voters);
    v :| v in voters;
  }

  /** Nobody the coalition does not put first reaches the quota. */
  lemma OthersBelow(ballots: Ballots, balances: Balances, droopQuota: int, voters: set<Name>, x: Name)
    requires Good(ballots, balances) && Holds(ballots, balances, droopQuota, voters)
    requires forall v :: v in voters ==> Top(ballots[v]) != x
    ensures Tally(ballots, balances, x) < droopQuota
  {
    SumDisjoint(Supporters(ballots, balances, x), Weights(balances, voters), balances);
  }

  /** Whoever the whole coalition puts first does. */
  lemma FirstOfAll(ballots: Ballots, balances: Balances, droopQuota: int, voters: set<Name>, x: Name)
    requires Good(ballots, balances) && Holds(ballots, balances, droopQuota, voters)
    requires forall v :: v in voters ==> Top(ballots[v]) == x
    ensures x in Counts(ballots, balances) && Counts(ballots, balances)[x] >= droopQuota
  {
    var v := SomeVoter(ballots, balances, droopQuota, voters);
    SumAtMost(Weights(balances, voters), Supporters(ballots, balances, x));
  }

  // ---- what an elimination does to tallies ------------------------------------------------------------------------

  /** The supporters of anyone else stay. */
  lemma TallyKept(ballots: Ballots, balances: Balances, low: Name, p: Name)
    requires Good(ballots, balances) && p != low
    ensures Tally(ballots, balances, p) <= Tally(Eliminate(ballots, low), balances, p)
  {
    var after := Eliminate(ballots, low);
    forall v | v in ballots && v in balances && Top(ballots[v]) == p
      ensures v in after && Top(after[v]) == p
    {
      TopKept(ballots[v], low);
    }
    SumAtMost(Supporters(ballots, balances, p), Supporters(after, balances, p));
  }

  lemma TopKept(b: Ballot, low: Name)
    requires b != [] && Top(b) != low
    ensures Without(b, low) != [] && Top(Without(b, low)) == Top(b)
  {
  }

  lemma TallyFalls(ballots: Ballots, balances: Balances, low: Name, a: Name)
    requires Good(ballots, balances)
    requires forall v :: v in Eliminate(ballots, low) && Top(Eliminate(ballots, low)[v]) == a ==> Top(ballots[v]) == a
    ensures Tally(Eliminate(ballots, low), balances, a) <= Tally(ballots, balances, a)
  {
    SumAtMost(Supporters(Eliminate(ballots, low), balances, a), Supporters(ballots, balances, a));
  }

  // ---- ballots ------------------------------------------------------------------------

  /** The ballot lists `c`, and nobody but `a` before. */
  ghost predicate Leads(b: Ballot, a: Name, c: Name) {
    exists i :: 0 <= i < |b| && b[i].cand == c && forall j :: 0 <= j < i ==> b[j].cand == a
  }

  lemma LeadsTop(b: Ballot, a: Name, c: Name)
    requires Leads(b, a, c)
    ensures b != [] && Top(b) in {a, c}
  {
  }

  lemma LeadsWithout(b: Ballot, a: Name, c: Name, x: Name)
    requires Leads(b, a, c) && x != c
    ensures Leads(Without(b, x), a, c)
  {
    var i :| 0 <= i < |b| && b[i].cand == c && forall j :: 0 <= j < i ==> b[j].cand == a;
    var k := LastFor(b, x);
    var w := Without(b, x);
    assert k < 0 ==> w == b;
    hide LastFor, Without;
    if k >= 0 {
      WithoutAt(b, x);
      var m := if k < i then i - 1 else i;
      assert w[m].cand == c;
      assert forall j :: 0 <= j < m ==> w[j].cand == a;
    }
  }

  lemma WithoutAt(b: Ballot, x: Name)
    requires LastFor(b, x) >= 0
    ensures |Without(b, x)| == |b| - 1
    ensures forall j :: 0 <= j < |b| - 1 ==> Without(b, x)[j] == if j < LastFor(b, x) then b[j] else b[j + 1]
  {
    var i, w := LastFor(b, x), Without(b, x);
    assert w == b[..i] + b[i + 1..];
    hide LastFor, Without;
    forall j | 0 <= j < |b| - 1
      ensures w[j] == if j < i then b[j] else b[j + 1]
    {
    }
  }

  /** The ballot does not list `a`. */
  ghost predicate Free(b: Ballot, a: Name) {
    forall i :: 0 <= i < |b| ==> b[i].cand != a
  }

  lemma FreeWithout(b: Ballot, a: Name, x: Name)
    requires Free(b, a)
    ensures Free(Without(b, x), a)
  {
    forall i | 0 <= i < |Without(b, x)|
      ensures Without(b, x)[i].cand != a
    {
      WithoutHolds(b, x, Without(b, x)[i]);
    }
  }

  /** Eliminating a first preference leaves it first, or leaves none of it. */
  lemma TopOrFree(b: Ballot, a: Name)
    requires b != [] && Top(b) == a
    ensures Without(b, a) == [] || Top(Without(b, a)) == a || Free(Without(b, a), a)
  {
  }

  // ---- the loser of the two keeps losing ------------------------------------------------------------------------

  /** `a` is behind `p` in the poll. */
  ghost predicate Behind(ballots: Ballots, balances: Balances, a: Name, p: Name) {
    Tally(ballots, balances, a) < Tally(ballots, balances, p)
    || (Tally(ballots, balances, a) == Tally(ballots, balances, p) && Before(a, p))
  }

  /** `a` was the loser when the candidates in the poll besides it were `ahead`: it is behind all of them still, and
      ballots with anyone else first have no more of it. The coalition lists `c` with nobody but `a` before. */
  ghost predicate Sinking(ballots: Ballots, balances: Balances, voters: set<Name>, a: Name, c: Name, ahead: set<Name>) {
    && a != c && c in ahead && a !in ahead && voters <= ballots.Keys
    && (forall v :: v in voters ==> Leads(ballots[v], a, c))
    && (forall p :: p in ahead ==> Behind(ballots, balances, a, p))
    && (forall v :: v in ballots && Top(ballots[v]) != a && Top(ballots[v]) !in ahead ==> Free(ballots[v], a))
  }

  lemma SinkingVoters(ballots: Ballots, balances: Balances, voters: set<Name>, a: Name, c: Name, ahead: set<Name>,
                      low: Name)
    requires Sinking(ballots, balances, voters, a, c, ahead) && low != c
    ensures voters <= Eliminate(ballots, low).Keys
    ensures forall v :: v in voters ==> Leads(Eliminate(ballots, low)[v], a, c)
  {
    forall v | v in voters
      ensures v in Eliminate(ballots, low) && Leads(Eliminate(ballots, low)[v], a, c)
    {
      LeadsWithout(ballots[v], a, c, low);
      LeadsTop(Without(ballots[v], low), a, c);
    }
  }

  /** Nobody comes to `a` when `a` or a newcomer is eliminated. */
  lemma NoneComes(b: Ballot, low: Name, a: Name, ahead: set<Name>)
    requires b != [] && low !in ahead && Without(b, low) != []
    requires Top(b) != a && Top(b) !in ahead ==> Free(b, a)
    ensures Top(Without(b, low)) == a ==> Top(b) == a
    ensures Top(Without(b, low)) != a && Top(Without(b, low)) !in ahead ==> Free(Without(b, low), a)
  {
    if Top(b) != low {
      TopKept(b, low);
      if Top(b) != a && Top(b) !in ahead {
        FreeWithout(b, a, low);
      }
    } else if low == a {
      TopOrFree(b, a);
    } else {
      FreeWithout(b, a, low);
      assert Without(b, low)[0].cand != a;
    }
    hide Without;
  }

  lemma SinkingOn(ballots: Ballots, balances: Balances, voters: set<Name>, a: Name, c: Name, ahead: set<Name>,
                  low: Name)
    requires Good(ballots, balances) && Sinking(ballots, balances, voters, a, c, ahead) && low !in ahead
    ensures Sinking(Eliminate(ballots, low), balances, voters, a, c, ahead)
  {
    hide Leads, Free, Without, Tally, Before;
    SinkingVoters(ballots, balances, voters, a, c, ahead, low);
    var after := Eliminate(ballots, low);
    forall v | v in after
      ensures Top(after[v]) == a ==> Top(ballots[v]) == a
      ensures Top(after[v]) != a && Top(after[v]) !in ahead ==> Free(after[v], a)
    {
      GoodNonEmpty(ballots, balances, v);
      NoneComes(ballots[v], low, a, ahead);
    }
    TallyFalls(ballots, balances, low, a);
    forall p | p in ahead
      ensures Behind(after, balances, a, p)
    {
      assert Behind(ballots, balances, a, p);
      TallyKept(ballots, balances, low, p);
    }
    hide Top, Good, Eliminate;
  }

  lemma GoodNonEmpty(ballots: Ballots, balances: Balances, v: Name)
    requires Good(ballots, balances) && v in ballots
    ensures ballots[v] != []
  {
  }

  /** The loser of the poll is behind everyone in it. */
  lemma LoserNotOld(ballots: Ballots, balances: Balances, a: Name, p: Name, low: Name)
    requires a in Counts(ballots, balances) && Behind(ballots, balances, a, p) && a != p
    requires IsLoser(Counts(ballots, balances), low)
    ensures low != p
  {
    if low == p {
      BeforeTotal(a, p);
    }
  }

  lemma {:induction false} SinkingElects(ballots: Ballots, balances: Balances, droopQuota: int, voters: set<Name>,
                                         a: Name, c: Name, ahead: set<Name>)
    requires Good(ballots, balances) && Holds(ballots, balances, droopQuota, voters)
    requires Sinking(ballots, balances, voters, a, c, ahead)
    ensures Elect(ballots, balances, droopQuota) in {a, c}
    decreases Preferences(ballots)
  {
    hide Good, Elect, Counts, Behind, Free, Leads, Eliminate, Preferences, Weights, Before;
    forall v | v in voters
      ensures Top(ballots[v]) in {a, c}
    {
      LeadsTop(ballots[v], a, c);
    }
    var v := SomeVoter(ballots, balances, droopQuota, voters);
    CountsNonEmpty(ballots, balances);
    var m := Counts(ballots, balances);
    var top, low := Leader(m), Loser(m);
    ElectRound(ballots, balances, droopQuota, top, low);
    if m[top] >= droopQuota {
      if top !in {a, c} {
        OthersBelow(ballots, balances, droopQuota, voters, top);
        CountIs(ballots, balances, top);
        assert false;
      }
    } else if |m| <= 1 {
      OnlyKey(m, top, Top(ballots[v]));
    } else {
      if a !in m {
        forall w | w in voters
          ensures Top(ballots[w]) == c
        {
          InPoll(ballots, balances, w);
        }
        FirstOfAll(ballots, balances, droopQuota, voters, c);
        LeaderMost(m, top, c);
        assert false;
      }
      if low in ahead {
        LoserNotOld(ballots, balances, a, low, low);
        assert false;
      }
      SinkingOn(ballots, balances, voters, a, c, ahead, low);
      SinkingElects(Eliminate(ballots, low), balances, droopQuota, voters, a, c, ahead);
    }
  }

  lemma CountIs(ballots: Ballots, balances: Balances, x: Name)
    requires x in Counts(ballots, balances)
    ensures Counts(ballots, balances)[x] == Tally(ballots, balances, x)
  {
  }

  lemma InPoll(ballots: Ballots, balances: Balances, v: Name)
    requires v in ballots
    ensures Top(ballots[v]) in Counts(ballots, balances)
  {
  }

  lemma LeaderMost(m: map<Name, int>, top: Name, c: Name)
    requires IsLeader(m, top) && c in m
    ensures m[c] <= m[top]
  {
  }

  // ---- the criterion ------------------------------------------------------------------------

  lemma AboveTop(b: Ballot, s: set<Name>, c: Name)
    requires Above(b, s) && c in s
    ensures b != [] && Top(b) in s
  {
  }

  lemma AboveWithout(b: Ballot, s: set<Name>, x: Name)
    requires Above(b, s) && x !in s
    ensures Above(Without(b, x), s)
  {
    var k := LastFor(b, x);
    var w := Without(b, x);
    assert forall j :: 0 <= j < |w| ==> w[j] == b[if k < 0 || j < k then j else j + 1];
    forall c | c in s
      ensures exists i :: 0 <= i < |w| && w[i].cand == c
    {
      var i :| 0 <= i < |b| && b[i].cand == c;
      assert i != k;
      assert w[if k < 0 || i < k then i else i - 1].cand == c;
    }
  }

  lemma {:induction false} AboveLeads(b: Ballot, a: Name, c: Name)
    requires Above(b, {a, c})
    ensures Leads(b, a, c)
  {
    var i := FirstFor(b, c);
    forall j | 0 <= j < i
      ensures b[j].cand == a
    {
      assert b[j].cand in {a, c};
    }
  }

  lemma {:induction false} FirstFor(b: Ballot, c: Name) returns (i: nat)
    requires exists k :: 0 <= k < |b| && b[k].cand == c
    ensures i < |b| && b[i].cand == c && forall j :: 0 <= j < i ==> b[j].cand != c
  {
    i := 0;
    while b[i].cand != c
      invariant i < |b| && forall j :: 0 <= j < i ==> b[j].cand != c
      decreases |b| - i
    {
      var k :| 0 <= k < |b| && b[k].cand == c;
      assert k > i;
      i := i + 1;
    }
  }

  /** The first time one of the two is the loser, it starts to sink. */
  lemma Sinks(ballots: Ballots, balances: Balances, droopQuota: int, voters: set<Name>, a: Name, c: Name)
    requires Good(ballots, balances) && Holds(ballots, balances, droopQuota, voters) && a != c
    requires forall v :: v in voters ==> Above(ballots[v], {a, c})
    requires IsLoser(Counts(ballots, balances), a)
    requires forall p :: p in Counts(ballots, balances) ==> Counts(ballots, balances)[p] < droopQuota
    ensures Sinking(ballots, balances, voters, a, c, Counts(ballots, balances).Keys - {a})
  {
    hide Leads, Free, Above, Good, Before, Tally, Weights;
    var m := Counts(ballots, balances);
    forall v | v in voters
      ensures Leads(ballots[v], a, c) && Top(ballots[v]) in {a, c}
    {
      AboveLeads(ballots[v], a, c);
      AboveTop(ballots[v], {a, c}, a);
    }
    if c !in m {
      forall v | v in voters
        ensures Top(ballots[v]) == a
      {
        InPoll(ballots, balances, v);
      }
      FirstOfAll(ballots, balances, droopQuota, voters, a);
      assert false;
    }
    forall v | v in ballots
      ensures Top(ballots[v]) in m
    {
      InPoll(ballots, balances, v);
    }
  }

  lemma {:induction false} PairElects(ballots: Ballots, balances: Balances, droopQuota: int, voters: set<Name>,
                                      a: Name, c: Name)
    requires Good(ballots, balances) && Holds(ballots, balances, droopQuota, voters)
    requires forall v :: v in voters ==> Above(ballots[v], {a, c})
    ensures Elect(ballots, balances, droopQuota) in {a, c}
    decreases Preferences(ballots)
  {
    hide Good, Elect, Counts, Above, Eliminate, Preferences, Weights, Before;
    forall v | v in voters
      ensures Top(ballots[v]) in {a, c}
    {
      AboveTop(ballots[v], {a, c}, a);
    }
    var v := SomeVoter(ballots, balances, droopQuota, voters);
    CountsNonEmpty(ballots, balances);
    var m := Counts(ballots, balances);
    var top, low := Leader(m), Loser(m);
    ElectRound(ballots, balances, droopQuota, top, low);
    if m[top] >= droopQuota {
      if top !in {a, c} {
        OthersBelow(ballots, balances, droopQuota, voters, top);
        CountIs(ballots, balances, top);
        assert false;
      }
    } else if |m| <= 1 {
      OnlyKey(m, top, Top(ballots[v]));
    } else if a == c {
      FirstOfAll(ballots, balances, droopQuota, voters, a);
      LeaderMost(m, top, a);
      assert false;
    } else if low in {a, c} {
      forall p | p in m
        ensures m[p] < droopQuota
      {
        LeaderMost(m, top, p);
      }
      var other := if low == a then c else a;
      assert {low, other} == {a, c};
      Sinks(ballots, balances, droopQuota, voters, low, other);
      SinkingElects(ballots, balances, droopQuota, voters, low, other, m.Keys - {low});
    } else {
      forall w | w in voters
        ensures w in Eliminate(ballots, low) && Above(Eliminate(ballots, low)[w], {a, c})
      {
        AboveAfter(ballots, w, {a, c}, a, low);
      }
      PairElects(Eliminate(ballots, low), balances, droopQuota, voters, a, c);
    }
  }

  lemma AboveAfter(ballots: Ballots, v: Name, s: set<Name>, c: Name, low: Name)
    requires v in ballots && Above(ballots[v], s) && c in s && low !in s
    ensures v in Eliminate(ballots, low) && Above(Eliminate(ballots, low)[v], s)
  {
    AboveWithout(ballots[v], s, low);
    AboveTop(Without(ballots[v], low), s, c);
    hide Above, Without;
  }

  /** Main result: voters holding a quota of more than half who rank one or two candidates above everyone else, in
      whatever order and however often, get one of them. With three it can fail. */
  lemma PairWins(ballots: Ballots, balances: Balances, droopQuota: int, voters: set<Name>, s: set<Name>)
    requires Good(ballots, balances) && Holds(ballots, balances, droopQuota, voters)
    requires s != {} && |s| <= 2 && forall v :: v in voters ==> Above(ballots[v], s)
    ensures Elect(ballots, balances, droopQuota) in s
  {
    hide Good, Holds, Elect, Above;
    var a :| a in s;
    var rest := s - {a};
    if rest == {} {
      assert s == {a, a};
      PairElects(ballots, balances, droopQuota, voters, a, a);
    } else {
      var c :| c in rest;
      SubsetSize({a, c}, s);
      if x :| x in s && x != a && x != c {
        SubsetSize({a, c, x}, s);
        assert false;
      }
      assert s == {a, c};
      PairElects(ballots, balances, droopQuota, voters, a, c);
    }
  }
}
