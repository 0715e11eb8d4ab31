/** The grant election: one seat per office, counted by eliminating the candidate with the fewest first
    preferences (getWinnersFromBallots, electOrEliminate, eliminateCandidate in src/main.cpp). With one
    seat every ballot weight stays 1.0 until the winner is known, so weights do not appear. */
module Election {
  import opened Names
  import opened Sums

  type Name = string

  /** A preference and the amount it was cast with; a ballot lists them by rising amount. */
  datatype Pref = Pref(amount: int, cand: Name)
  type Ballot = seq<Pref>
  type Ballots = map<Name, Ballot>
  type Balances = map<Name, int>

  const UNSPENDABLE: Name := "MVTEceo1111111111111111111111TvNrt"
  const INT64_MAX := 9223372036854775807

  // ---- the order of map keys ------------------------------------------------------------

  /** Comes first in the map. */
  ghost predicate IsFirst(s: set<Name>, c: Name) {
    c in s && forall d :: d in s ==> Before(c, d)
  }

  lemma {:induction false} FirstExists(s: set<Name>) returns (c: Name)
    requires s != {}
    ensures IsFirst(s, c)
    decreases |s|
  {
    c :| c in s;
    BeforeReflexive(c);
    if s != {c} {
      var d := FirstExists(s - {c});
      BeforeTotal(c, d);
      if Before(c, d) {
        forall e | e in s
          ensures Before(c, e)
        {
          if e != c { BeforeTransitive(c, d, e); }
        }
      } else {
        c := d;
      }
    }
  }

  /** The candidate with the most first preferences, the first of them in the map when several tie. */
  ghost predicate IsLeader(m: map<Name, int>, c: Name) {
    c in m && forall d :: d in m ==> m[d] < m[c] || (m[d] == m[c] && Before(c, d))
  }

  /** The candidate with the fewest, again the first of them. */
  ghost predicate IsLoser(m: map<Name, int>, c: Name) {
    c in m && forall d :: d in m ==> m[d] > m[c] || (m[d] == m[c] && Before(c, d))
  }

  lemma LeaderUnique(m: map<Name, int>, c: Name, d: Name)
    requires IsLeader(m, c) && IsLeader(m, d)
    ensures c == d
  {
    BeforeTotal(c, d);
  }

  lemma LoserUnique(m: map<Name, int>, c: Name, d: Name)
    requires IsLoser(m, c) && IsLoser(m, d)
    ensures c == d
  {
    BeforeTotal(c, d);
  }

  // ---- ballots -------------------------------------------------------------------------------

  /** Amounts are positive and rise, no candidate has the empty name, and nobody votes with nothing. */
  ghost predicate GoodBallot(b: Ballot) {
    && b != []
    && (forall i :: 0 <= i < |b| ==> b[i].amount > 0 && b[i].cand != "")
    && (forall i, j :: 0 <= i < j < |b| ==> b[i].amount < b[j].amount)
  }

  ghost predicate Good(ballots: Ballots, balances: Balances) {
    && ballots.Keys <= balances.Keys
    && (forall v :: v in ballots ==> GoodBallot(ballots[v]))
    && (forall v :: v in balances ==> balances[v] > 0)
  }

  /** The first preference; ballots are never left empty. */
  function Top(b: Ballot): Name {
    if b == [] then "" else b[0].cand
  }

  /** The voters whose first preference is `c`, with their balances. */
  ghost function Supporters(ballots: Ballots, balances: Balances, c: Name): map<Name, int> {
    map v | v in ballots && v in balances && Top(ballots[v]) == c :: balances[v]
  }

  ghost function Tally(ballots: Ballots, balances: Balances, c: Name): int {
    Sum(Supporters(ballots, balances, c))
  }

  /** preferenceCount: the tally of every first preference. */
  ghost function Counts(ballots: Ballots, balances: Balances): map<Name, int> {
    map c | c in (set v | v in ballots :: Top(ballots[v])) :: Tally(ballots, balances, c)
  }

  /** The position of the last preference for `c`, or -1. */
  function LastFor(b: Ballot, c: Name): (i: int)
    ensures -1 <= i < |b|
    ensures i >= 0 ==> b[i].cand == c
    ensures forall j :: i < j < |b| ==> b[j].cand != c
  {
    if b == [] then -1
    else if b[|b| - 1].cand == c then |b| - 1
    else LastFor(b[..|b| - 1], c)
  }

  /** A ballot without its last preference for `c`: eliminateCandidate marks only one. */
  function Without(b: Ballot, c: Name): Ballot {
    var i := LastFor(b, c);
    if i < 0 then b else b[..i] + b[i + 1..]
  }

  /** Every ballot loses its last preference for `c`; ballots left empty go. */
  function Eliminate(ballots: Ballots, c: Name): Ballots {
    map v | v in ballots && Without(ballots[v], c) != [] :: Without(ballots[v], c)
  }

  lemma WithoutGood(b: Ballot, c: Name)
    requires GoodBallot(b) && Without(b, c) != []
    ensures GoodBallot(Without(b, c))
  {
  }

  lemma EliminateGood(ballots: Ballots, balances: Balances, c: Name)
    requires Good(ballots, balances)
    ensures Good(Eliminate(ballots, c), balances)
  {
    forall v | v in Eliminate(ballots, c)
      ensures GoodBallot(Eliminate(ballots, c)[v])
    {
      WithoutGood(ballots[v], c);
    }
  }

  ghost function Lengths(ballots: Ballots): map<Name, int> {
    map v | v in ballots :: |ballots[v]|
  }

  /** All preferences still standing. */
  ghost function Preferences(ballots: Ballots): nat {
    SumNonNegative(Lengths(ballots));
    Sum(Lengths(ballots))
  }

  lemma SumNonNegative<K>(m: map<K, int>)
    requires forall k :: k in m ==> m[k] >= 0
    ensures Sum(m) >= 0
  {
    SumAtMost(map[], m);
  }

  /** Eliminating a first preference removes at least one preference. */
  lemma EliminateShrinks(ballots: Ballots, c: Name, v: Name)
    requires v in ballots && ballots[v] != [] && Top(ballots[v]) == c
    ensures Preferences(Eliminate(ballots, c)) < Preferences(ballots)
  {
    var before, after := Lengths(ballots), Lengths(Eliminate(ballots, c));
    assert LastFor(ballots[v], c) >= 0;
    SumRemove(before, v);
    SumAtMost(after - {v}, before - {v});
    if v in after {
      SumRemove(after, v);
    } else {
      assert after - {v} == after;
    }
  }

  lemma CountsNonEmpty(ballots: Ballots, balances: Balances)
    ensures ballots != map[] <==> Counts(ballots, balances) != map[]
  {
    if ballots != map[] {
      var v :| v in ballots;
      assert Top(ballots[v]) in Counts(ballots, balances);
    }
  }

  lemma {:induction false} LeaderExists(m: map<Name, int>)
    requires m != map[]
    ensures exists c :: IsLeader(m, c)
    decreases |m|
  {
    var a := FirstExists(m.Keys);
    if m.Keys == {a} {
      BeforeReflexive(a);
      assert IsLeader(m, a);
    } else {
      var rest := m - {a};
      LeaderExists(rest);
      var b :| IsLeader(rest, b);
      var c := if m[b] > m[a] then b else a;
      BeforeReflexive(c);
      forall d | d in m
        ensures m[d] < m[c] || (m[d] == m[c] && Before(c, d))
      {
        if d != a { assert d in rest; }
      }
      assert IsLeader(m, c);
    }
  }

  lemma {:induction false} LoserExists(m: map<Name, int>)
    requires m != map[]
    ensures exists c :: IsLoser(m, c)
    decreases |m|
  {
    var a := FirstExists(m.Keys);
    if m.Keys == {a} {
      BeforeReflexive(a);
      assert IsLoser(m, a);
    } else {
      var rest := m - {a};
      LoserExists(rest);
      var b :| IsLoser(rest, b);
      var c := if m[b] < m[a] then b else a;
      BeforeReflexive(c);
      forall d | d in m
        ensures m[d] > m[c] || (m[d] == m[c] && Before(c, d))
      {
        if d != a { assert d in rest; }
      }
      assert IsLoser(m, c);
    }
  }

  ghost function Leader(m: map<Name, int>): (c: Name)
    requires m != map[]
    ensures IsLeader(m, c)
  {
    LeaderExists(m);
    var w :| IsLeader(m, w);
    w
  }

  ghost function Loser(m: map<Name, int>): (c: Name)
    requires m != map[]
    ensures IsLoser(m, c)
  {
    LoserExists(m);
    var w :| IsLoser(m, w);
    w
  }

  lemma TopVoter(ballots: Ballots, balances: Balances, c: Name) returns (v: Name)
    requires c in Counts(ballots, balances)
    ensures v in ballots && Top(ballots[v]) == c
  {
    v :| v in ballots && Top(ballots[v]) == c;
  }

  /** The whole count: the winner, or the unspendable address when no ballot is left. It ends because
      every round removes a preference. */
  ghost function Elect(ballots: Ballots, balances: Balances, droopQuota: int): Name
    requires Good(ballots, balances)
    decreases Preferences(ballots)
  {
    if ballots == map[] then UNSPENDABLE
    else
      CountsNonEmpty(ballots, balances);
      var m := Counts(ballots, balances);
      var top := Leader(m);
      if m[top] >= droopQuota || |m| <= 1 then top
      else
        RoundShrinks(ballots, balances);
        EliminateGood(ballots, balances, Loser(m));
        Elect(Eliminate(ballots, Loser(m)), balances, droopQuota)
  }

  lemma RoundShrinks(ballots: Ballots, balances: Balances)
    requires Good(ballots, balances) && Counts(ballots, balances) != map[]
    ensures Preferences(Eliminate(ballots, Loser(Counts(ballots, balances)))) < Preferences(ballots)
  {
    var c := Loser(Counts(ballots, balances));
    var v := TopVoter(ballots, balances, c);
    EliminateShrinks(ballots, c, v);
  }

  /** How a round ends, in terms of the top and the bottom of the poll. */
  lemma ElectRound(ballots: Ballots, balances: Balances, droopQuota: int, top: Name, low: Name)
    requires Good(ballots, balances)
    requires IsLeader(Counts(ballots, balances), top) && IsLoser(Counts(ballots, balances), low)
    ensures if Counts(ballots, balances)[top] >= droopQuota || |Counts(ballots, balances)| <= 1 then
        Elect(ballots, balances, droopQuota) == top
      else
        && Good(Eliminate(ballots, low), balances)
        && Preferences(Eliminate(ballots, low)) < Preferences(ballots)
        && Elect(ballots, balances, droopQuota) == Elect(Eliminate(ballots, low), balances, droopQuota)
  {
    var m := Counts(ballots, balances);
    CountsNonEmpty(ballots, balances);
    LeaderUnique(m, top, Leader(m));
    LoserUnique(m, low, Loser(m));
    RoundShrinks(ballots, balances);
    EliminateGood(ballots, balances, low);
    hide Good, Counts, IsLeader, IsLoser, Preferences, Eliminate;
  }

  function DroopQuota(total: int): int {
    total / 2 + 1
  }

  // ---- who can win -----------------------------------------------------------------------------

  /** Some ballot lists `c`. */
  ghost predicate Named(ballots: Ballots, c: Name) {
    exists v, i :: v in ballots && 0 <= i < |ballots[v]| && ballots[v][i].cand == c
  }

  lemma TopNamed(ballots: Ballots, balances: Balances, c: Name)
    requires Good(ballots, balances) && c in Counts(ballots, balances)
    ensures Named(ballots, c)
  {
    var v := TopVoter(ballots, balances, c);
    assert ballots[v][0].cand == c;
  }

  /** Eliminating one of several first preferences leaves ballots. */
  lemma OthersLeft(ballots: Ballots, balances: Balances, low: Name)
    requires Good(ballots, balances) && low in Counts(ballots, balances) && |Counts(ballots, balances)| > 1
    ensures Eliminate(ballots, low) != map[]
  {
    var m := Counts(ballots, balances);
    assert |m.Keys| == |m|;
    if m.Keys <= {low} {
      SubsetSize(m.Keys, {low});
      assert false;
    }
    var c :| c in m && c != low;
    var v := TopVoter(ballots, balances, c);
    hide Counts;
    assert LastFor(ballots[v], low) != 0;
    assert v in Eliminate(ballots, low);
  }

  lemma WithoutHolds(b: Ballot, low: Name, p: Pref)
    ensures p in Without(b, low) ==> p in b
  {
  }

  lemma EliminateNamesLess(ballots: Ballots, low: Name, c: Name)
    ensures Named(Eliminate(ballots, low), c) ==> Named(ballots, c)
  {
    if Named(Eliminate(ballots, low), c) {
      var v, k :| v in Eliminate(ballots, low) && 0 <= k < |Eliminate(ballots, low)[v]| &&
        Eliminate(ballots, low)[v][k].cand == c;
      WithoutHolds(ballots[v], low, Eliminate(ballots, low)[v][k]);
    }
  }

  /** Somebody on a ballot wins, unless there is none. */
  lemma {:induction false} WinnerNamed(ballots: Ballots, balances: Balances, droopQuota: int)
    requires Good(ballots, balances)
    ensures if ballots == map[] then Elect(ballots, balances, droopQuota) == UNSPENDABLE
            else Named(ballots, Elect(ballots, balances, droopQuota))
    decreases Preferences(ballots)
  {
    if ballots != map[] {
      CountsNonEmpty(ballots, balances);
      var m := Counts(ballots, balances);
      var top, low := Leader(m), Loser(m);
      ElectRound(ballots, balances, droopQuota, top, low);
      TopNamed(ballots, balances, top);
      if !(m[top] >= droopQuota || |m| <= 1) {
        OthersLeft(ballots, balances, low);
        EliminateNamesLess(ballots, low, Elect(Eliminate(ballots, low), balances, droopQuota));
        hide Named, Elect, Eliminate, Counts, Good;
        WinnerNamed(Eliminate(ballots, low), balances, droopQuota);
      }
    }
  }

  /** What one voter's support adds up to when nobody else has the same first preference. */
  lemma SoleSupporter(ballots: Ballots, balances: Balances, v: Name)
    requires Good(ballots, balances) && v in ballots
    requires forall w :: w in ballots && w != v ==> Top(ballots[w]) != Top(ballots[v])
    ensures Tally(ballots, balances, Top(ballots[v])) == balances[v]
  {
    SumOne(v, balances[v]);
    assert Supporters(ballots, balances, Top(ballots[v])) == map[v := balances[v]];
  }

  lemma BeforeEmpty(c: Name)
    ensures Before("", c)
  {
  }

  lemma DroopIs(b: int)
    ensures DroopQuota(2 * b) == b + 1
  {
  }

  lemma TwoCounts(ballots: Ballots, balances: Balances, v: Name, w: Name)
    requires Good(ballots, balances) && ballots.Keys == {v, w} && Top(ballots[v]) != Top(ballots[w])
    ensures Counts(ballots, balances) == map[Top(ballots[v]) := balances[v], Top(ballots[w]) := balances[w]]
  {
    hide Tally, Top, Supporters;
    var m := Counts(ballots, balances);
    SoleSupporter(ballots, balances, v);
    SoleSupporter(ballots, balances, w);
    assert m[Top(ballots[v])] == balances[v] && m[Top(ballots[w])] == balances[w];
    forall c | c in m
      ensures c == Top(ballots[v]) || c == Top(ballots[w])
    {
      var x := TopVoter(ballots, balances, c);
    }
    hide Counts;
  }

  lemma OneCount(ballots: Ballots, balances: Balances, v: Name)
    requires Good(ballots, balances) && ballots.Keys == {v}
    ensures Counts(ballots, balances) == map[Top(ballots[v]) := balances[v]]
  {
    SoleSupporter(ballots, balances, v);
    hide Tally, Good, Top;
    assert (set x | x in ballots :: Top(ballots[x])) == {Top(ballots[v])};
  }

  lemma TwoBallots(b: int, v: Name, w: Name, p: Pref, q: Pref)
    requires v != w && b > 0 && p.amount > 0 && q.amount > 0 && p.cand != "" && q.cand != "" && p.cand != q.cand
    ensures
      var ballots, balances := map[v := [p], w := [q]], map[v := b, w := b];
      && Good(ballots, balances) && Good(map[w := [q]], balances)
      && Eliminate(ballots, p.cand) == map[w := [q]]
      && Counts(ballots, balances) == map[p.cand := b, q.cand := b]
      && Counts(map[w := [q]], balances) == map[q.cand := b]
  {
    hide Counts;
    var all: Ballots, left: Ballots := map[v := [p], w := [q]], map[w := [q]];
    var balances := map[v := b, w := b];
    TwoCounts(all, balances, v, w);
    OneCount(left, balances, w);
    assert Without(all[v], p.cand) == [] && Without(all[w], p.cand) == [q];
  }

  lemma TieSteps(all: Ballots, left: Ballots, balances: Balances, quota: int, b: int, c: Name, d: Name)
    requires Good(all, balances) && Counts(all, balances) == map[c := b, d := b] && Less(c, d) && quota > b
    requires Good(left, balances) && Counts(left, balances) == map[d := b] && left == Eliminate(all, c)
    ensures Elect(all, balances, quota) == d
  {
    hide Elect, Eliminate, Counts, Good, Before, Preferences;
    Trichotomy(c, d);
    BeforeReflexive(c);
    BeforeReflexive(d);
    ElectRound(all, balances, quota, c, c);
    ElectRound(left, balances, quota, d, d);
  }

  /** A tie is broken by the order of the names: of two candidates with the same support and nobody else, the one
      who comes first in the map is eliminated, so the other wins. */
  lemma TieBreak(b: int, v: Name, w: Name, p: Pref, q: Pref)
    requires v != w && b > 0 && p.amount > 0 && q.amount > 0 && p.cand != "" && Less(p.cand, q.cand)
    ensures
      var ballots, balances := map[v := [p], w := [q]], map[v := b, w := b];
      Good(ballots, balances) && Elect(ballots, balances, DroopQuota(2 * b)) == q.cand
  {
    hide Elect, Eliminate, Counts, Good, Before;
    Trichotomy(p.cand, q.cand);
    assert q.cand != "" by {
      if q.cand == "" {
        BeforeEmpty(p.cand);
      }
    }
    TwoBallots(b, v, w, p, q);
    DroopIs(b);
    TieSteps(map[v := [p], w := [q]], map[w := [q]], map[v := b, w := b], DroopQuota(2 * b), b, p.cand, q.cand);
  }

  // ---- the majority coalition criterion ----------------------------------------------------------

  /** The first `n` preferences name members of S only, and nothing after them does. */
  ghost predicate InFront(b: Ballot, s: set<Name>, n: nat) {
    && n <= |b|
    && (forall i :: 0 <= i < n ==> b[i].cand in s)
    && (forall i :: n <= i < |b| ==> b[i].cand !in s)
  }

  /** The first `n` preferences name different candidates. */
  ghost predicate Apart(b: Ballot, n: nat) {
    n <= |b| && forall i, j :: 0 <= i < j < n ==> b[i].cand != b[j].cand
  }

  /** The ballot ranks every member of S, each once, before anyone else: |S| different members of S. */
  ghost predicate Solid(b: Ballot, s: set<Name>) {
    InFront(b, s, |s|) && Apart(b, |s|)
  }

  /** Eliminating a member of S leaves the rest of S solid. */
  lemma SolidWithoutMember(b: Ballot, s: set<Name>, c: Name)
    requires Solid(b, s) && c in s
    ensures Solid(Without(b, c), s - {c})
  {
    var k := LastFor(b, c);
    var b1 := Without(b, c);
    SolidLists(b, s, c);
    assert |s - {c}| == |s| - 1;
    assert forall i :: 0 <= i < |b1| ==> b1[i] == b[if i < k then i else i + 1];
  }

  /** |S| different members of S are all of S. */
  lemma SolidLists(b: Ballot, s: set<Name>, c: Name)
    requires Solid(b, s) && c in s
    ensures 0 <= LastFor(b, c) < |s|
  {
    var front := FrontNames(b, |s|);
    FrontSize(b, |s|);
    if c !in front {
      SubsetSize(front, s - {c});
    }
  }

  ghost function FrontNames(b: Ballot, n: nat): set<Name>
    requires n <= |b|
  {
    set i | 0 <= i < n :: b[i].cand
  }

  lemma FrontNext(b: Ballot, n: nat)
    requires 0 < n && Apart(b, n)
    ensures Apart(b, n - 1) && b[n - 1].cand !in FrontNames(b, n - 1)
    ensures FrontNames(b, n) == FrontNames(b, n - 1) + {b[n - 1].cand}
  {
  }

  lemma {:induction false} FrontSize(b: Ballot, n: nat)
    requires Apart(b, n)
    ensures |FrontNames(b, n)| == n
  {
    if n > 0 {
      hide FrontNames, Apart;
      FrontNext(b, n);
      FrontSize(b, n - 1);
    }
  }

  /** Eliminating anyone else does not touch the part of the ballot that ranks S. */
  lemma SolidWithoutOther(b: Ballot, s: set<Name>, c: Name)
    requires Solid(b, s) && c !in s
    ensures Solid(Without(b, c), s)
  {
    var k := LastFor(b, c);
    var b1 := Without(b, c);
    assert k < 0 || k >= |s|;
    assert forall i :: 0 <= i < |b1| ==> b1[i] == b[if k < 0 || i < k then i else i + 1];
  }

  /** A solid ballot stays solid for what is left of S, whoever is eliminated. */
  lemma SolidWithout(b: Ballot, s: set<Name>, c: Name)
    requires Solid(b, s)
    ensures Solid(Without(b, c), s - {c})
  {
    hide Solid, Without;
    if c in s {
      SolidWithoutMember(b, s, c);
    } else {
      SolidWithoutOther(b, s, c);
      assert s - {c} == s;
    }
  }

  ghost function Weights(balances: Balances, voters: set<Name>): map<Name, int> {
    map v | v in voters && v in balances :: balances[v]
  }

  /** Voters who together hold a quota and all rank S solidly. */
  ghost predicate Coalition(ballots: Ballots, balances: Balances, droopQuota: int, voters: set<Name>, s: set<Name>) {
    && voters <= ballots.Keys && s != {}
    && (forall v :: v in voters ==> Solid(ballots[v], s))
    && Sum(Weights(balances, voters)) >= droopQuota
  }

  /** A candidate outside S cannot reach the quota against a coalition for S. */
  lemma OutsiderBelowQuota(ballots: Ballots, balances: Balances, droopQuota: int, voters: set<Name>, s: set<Name>,
      c: Name)
    requires Good(ballots, balances) && Coalition(ballots, balances, droopQuota, voters, s)
    requires 2 * droopQuota > Sum(balances) && c !in s
    ensures Tally(ballots, balances, c) < droopQuota
  {
    var a, b := Supporters(ballots, balances, c), Weights(balances, voters);
    forall v | v in voters
      ensures Top(ballots[v]) in s
    {
      SolidTop(ballots[v], s);
    }
    SumDisjoint(a, b, balances);
  }

  lemma SolidTop(b: Ballot, s: set<Name>)
    requires Solid(b, s) && s != {}
    ensures b != [] && Top(b) in s
  {
    assert |s| > 0;
  }

  /** The only remaining member of S holds the whole coalition. */
  lemma SoleMemberHasQuota(ballots: Ballots, balances: Balances, droopQuota: int, voters: set<Name>, c: Name)
    requires Good(ballots, balances) && Coalition(ballots, balances, droopQuota, voters, {c})
    ensures Tally(ballots, balances, c) >= droopQuota
  {
    forall v | v in voters
      ensures Top(ballots[v]) == c
    {
      SolidTop(ballots[v], {c});
    }
    SumAtMost(Weights(balances, voters), Supporters(ballots, balances, c));
  }

  lemma CoalitionNonEmpty(ballots: Ballots, balances: Balances, droopQuota: int, voters: set<Name>, s: set<Name>)
    returns (v: Name)
    requires Good(ballots, balances) && Coalition(ballots, balances, droopQuota, voters, s) && droopQuota > 0
    ensures v in voters && v in ballots && ballots[v] != []
    ensures Top(ballots[v]) in s && Top(ballots[v]) in Counts(ballots, balances)
  {
    NoVotersNoWeight(balances, voters);
    v :| v in voters;
    SolidTop(ballots[v], s);
  }

  lemma NoVotersNoWeight(balances: Balances, voters: set<Name>)
    ensures Sum(Weights(balances, voters)) != 0 ==> voters != {}
  {
    if voters == {} {
      assert Weights(balances, voters) == map[];
    }
  }

  lemma CoalitionAfter(ballots: Ballots, balances: Balances, droopQuota: int, voters: set<Name>, s: set<Name>, c: Name)
    requires Coalition(ballots, balances, droopQuota, voters, s) && s - {c} != {}
    ensures Coalition(Eliminate(ballots, c), balances, droopQuota, voters, s - {c})
  {
    forall v | v in voters
      ensures v in Eliminate(ballots, c) && Solid(Eliminate(ballots, c)[v], s - {c})
    {
      SolidWithout(ballots[v], s, c);
      SolidTop(Without(ballots[v], c), s - {c});
    }
  }

  /** Main result: when voters holding a quota of more than half all rank the members of S above
      everyone else, the winner is a member of S, whatever the other ballots say. */
  lemma {:induction false} CoalitionWins(ballots: Ballots, balances: Balances, droopQuota: int, voters: set<Name>,
      s: set<Name>)
    requires Good(ballots, balances) && Coalition(ballots, balances, droopQuota, voters, s)
    requires droopQuota > 0 && 2 * droopQuota > Sum(balances)
    ensures Elect(ballots, balances, droopQuota) in s
    decreases Preferences(ballots)
  {
    hide Coalition, Good, Eliminate;
    var v := CoalitionNonEmpty(ballots, balances, droopQuota, voters, s);
    CountsNonEmpty(ballots, balances);
    var m := Counts(ballots, balances);
    var top := Leader(m);
    if m[top] >= droopQuota {
      if top !in s {
        OutsiderBelowQuota(ballots, balances, droopQuota, voters, s, top);
      }
    } else if |m| <= 1 {
      OnlyKey(m, top, Top(ballots[v]));
    } else {
      var c := Loser(m);
      if s == {c} {
        SoleMemberHasQuota(ballots, balances, droopQuota, voters, c);
        assert false;
      }
      RoundShrinks(ballots, balances);
      EliminateGood(ballots, balances, c);
      NotOnly(s, c);
      CoalitionNotEmpty(ballots, balances, droopQuota, voters, s);
      CoalitionAfter(ballots, balances, droopQuota, voters, s, c);
      CoalitionWins(Eliminate(ballots, c), balances, droopQuota, voters, s - {c});
    }
  }

  lemma CoalitionNotEmpty(ballots: Ballots, balances: Balances, droopQuota: int, voters: set<Name>, s: set<Name>)
    requires Coalition(ballots, balances, droopQuota, voters, s)
    ensures s != {}
  {
  }

  lemma NotOnly(s: set<Name>, c: Name)
    ensures s != {} && s != {c} ==> s - {c} != {}
  {
    if s - {c} == {} && s != {} {
      assert s == {c};
    }
  }

  lemma OnlyKey(m: map<Name, int>, a: Name, b: Name)
    requires |m| <= 1 && a in m && b in m
    ensures a == b
  {
    if a != b {
      assert {a, b} <= m.Keys;
      assert |{a, b}| == 2;
      SubsetSize({a, b}, m.Keys);
    }
  }

  lemma {:induction false} SubsetSize<T>(a: set<T>, b: set<T>)
    requires a <= b
    ensures |a| <= |b|
    decreases |a|
  {
    if a != {} {
      var x :| x in a;
      SubsetSize(a - {x}, b - {x});
    }
  }

  // ---- why each member may be listed only once ------------------------------------------------------

  /** The ballot ranks every member of S above everyone else, perhaps some of them more than once. */
  ghost predicate Above(b: Ballot, s: set<Name>) {
    && (forall c :: c in s ==> exists i :: 0 <= i < |b| && b[i].cand == c)
    && (forall i, j :: 0 <= i < j < |b| && b[j].cand in s ==> b[i].cand in s)
  }

  lemma SumOne(v: Name, n: int)
    ensures Sum(map[v := n]) == n
  {
    SumRemove(map[v := n], v);
    assert map[v := n] - {v} == map[];
  }

  lemma SumTwo(v: Name, n: int, w: Name, m: int)
    requires v != w
    ensures Sum(map[v := n, w := m]) == n + m
  {
    SumOne(v, n);
    SumSet(map[v := n], w, m);
    assert map[v := n][w := m] == map[v := n, w := m];
  }

  /** Who takes part in the example: four voters and four candidates. */
  datatype Cast = Cast(v1: Name, v2: Name, v3: Name, v4: Name, b: Name, c: Name, d: Name, e: Name) {
    ghost predicate Distinct() {
      && v1 != v2 && v1 != v3 && v1 != v4 && v2 != v3 && v2 != v4 && v3 != v4
      && b != c && b != d && b != e && c != d && c != e && d != e
      && b != "" && c != "" && d != "" && e != ""
      && Before(b, d) && Before(d, e)
    }
  }

  /** Four voters; the first lists candidate `e` twice. */
  function Example(x: Cast): Ballots {
    map[x.v1 := [Pref(1, x.b), Pref(2, x.e), Pref(3, x.e), Pref(4, x.d)],
        x.v2 := [Pref(1, x.d), Pref(2, x.e), Pref(3, x.b)],
        x.v3 := [Pref(1, x.e)],
        x.v4 := [Pref(1, x.c)]]
  }

  function ExampleBalances(x: Cast): Balances {
    map[x.v1 := 3, x.v2 := 3, x.v3 := 1, x.v4 := 4]
  }

  /** With a candidate listed twice the criterion fails: the first two voters hold the quota of 6 and
      both put `b`, `d` and `e` above everyone else, yet `c` wins. */
  lemma ListedTwiceBreaksTheCriterion(x: Cast)
    requires x.Distinct()
    ensures Good(Example(x), ExampleBalances(x)) && Sum(ExampleBalances(x)) == 11 && DroopQuota(11) == 6
    ensures Above(Example(x)[x.v1], {x.b, x.d, x.e}) && Above(Example(x)[x.v2], {x.b, x.d, x.e})
    ensures Sum(Weights(ExampleBalances(x), {x.v1, x.v2})) == 6
    ensures Elect(Example(x), ExampleBalances(x), 6) == x.c
  {
    ExampleTotals(x);
    ExampleRounds(x);
    ExampleAbove(x);
    hide Example, ExampleBalances, Good, Elect, Above, Weights;
  }

  lemma ExampleAbove(x: Cast)
    ensures x.v1 != x.v2 && x.v1 != x.v3 && x.v1 != x.v4 && x.v2 != x.v3 && x.v2 != x.v4 ==>
      Above(Example(x)[x.v1], {x.b, x.d, x.e}) && Above(Example(x)[x.v2], {x.b, x.d, x.e})
  {
    var b1 := [Pref(1, x.b), Pref(2, x.e), Pref(3, x.e), Pref(4, x.d)];
    var b2 := [Pref(1, x.d), Pref(2, x.e), Pref(3, x.b)];
    assert Above(b1, {x.b, x.d, x.e}) by {
      assert b1[0].cand == x.b && b1[1].cand == x.e && b1[3].cand == x.d;
    }
    assert Above(b2, {x.b, x.d, x.e}) by {
      assert b2[0].cand == x.d && b2[1].cand == x.e && b2[2].cand == x.b;
    }
    hide Above;
  }

  lemma ExampleTotals(x: Cast)
    requires x.Distinct()
    ensures Sum(ExampleBalances(x)) == 11 && Sum(Weights(ExampleBalances(x), {x.v1, x.v2})) == 6
  {
    var b := ExampleBalances(x);
    SumTwo(x.v1, 3, x.v2, 3);
    assert Weights(b, {x.v1, x.v2}) == map[x.v1 := 3, x.v2 := 3];
    SumSet(map[x.v1 := 3, x.v2 := 3], x.v3, 1);
    SumSet(map[x.v1 := 3, x.v2 := 3, x.v3 := 1], x.v4, 4);
    assert b == map[x.v1 := 3, x.v2 := 3][x.v3 := 1][x.v4 := 4];
  }

  function Round2(x: Cast): Ballots {
    map[x.v1 := [Pref(1, x.b), Pref(2, x.e), Pref(4, x.d)], x.v2 := [Pref(1, x.d), Pref(3, x.b)],
      x.v4 := [Pref(1, x.c)]]
  }

  function Round3(x: Cast): Ballots {
    map[x.v1 := [Pref(2, x.e), Pref(4, x.d)], x.v2 := [Pref(1, x.d)], x.v4 := [Pref(1, x.c)]]
  }

  function Round4(x: Cast): Ballots {
    map[x.v1 := [Pref(2, x.e)], x.v4 := [Pref(1, x.c)]]
  }

  function Round5(x: Cast): Ballots {
    map[x.v4 := [Pref(1, x.c)]]
  }

  lemma ExampleGood(x: Cast)
    requires x.Distinct()
    ensures Good(Example(x), ExampleBalances(x))
  {
    assert GoodBallot(Example(x)[x.v1]);
    assert GoodBallot(Example(x)[x.v2]);
    assert GoodBallot(Example(x)[x.v3]);
    assert GoodBallot(Example(x)[x.v4]);
    hide GoodBallot;
  }

  lemma ExampleCounts1(x: Cast)
    requires x.Distinct() && Good(Example(x), ExampleBalances(x))
    ensures Counts(Example(x), ExampleBalances(x)) == map[x.b := 3, x.d := 3, x.e := 1, x.c := 4]
  {
    hide Good, Tally;
    SoleSupporter(Example(x), ExampleBalances(x), x.v1);
    SoleSupporter(Example(x), ExampleBalances(x), x.v2);
    SoleSupporter(Example(x), ExampleBalances(x), x.v3);
    SoleSupporter(Example(x), ExampleBalances(x), x.v4);
  }

  lemma ExampleCounts2(x: Cast)
    requires x.Distinct() && Good(Round2(x), ExampleBalances(x))
    ensures Counts(Round2(x), ExampleBalances(x)) == map[x.b := 3, x.d := 3, x.c := 4]
  {
    hide Good, Tally;
    SoleSupporter(Round2(x), ExampleBalances(x), x.v1);
    SoleSupporter(Round2(x), ExampleBalances(x), x.v2);
    SoleSupporter(Round2(x), ExampleBalances(x), x.v4);
  }

  lemma ExampleCounts3(x: Cast)
    requires x.Distinct() && Good(Round3(x), ExampleBalances(x))
    ensures Counts(Round3(x), ExampleBalances(x)) == map[x.e := 3, x.d := 3, x.c := 4]
  {
    hide Good, Tally;
    SoleSupporter(Round3(x), ExampleBalances(x), x.v1);
    SoleSupporter(Round3(x), ExampleBalances(x), x.v2);
    SoleSupporter(Round3(x), ExampleBalances(x), x.v4);
  }

  lemma ExampleCounts4(x: Cast)
    requires x.Distinct() && Good(Round4(x), ExampleBalances(x))
    ensures Counts(Round4(x), ExampleBalances(x)) == map[x.e := 3, x.c := 4]
  {
    hide Good, Tally;
    SoleSupporter(Round4(x), ExampleBalances(x), x.v1);
    SoleSupporter(Round4(x), ExampleBalances(x), x.v4);
  }

  lemma ExampleCounts5(x: Cast)
    requires x.Distinct() && Good(Round5(x), ExampleBalances(x))
    ensures Counts(Round5(x), ExampleBalances(x)) == map[x.c := 4]
  {
    hide Good, Tally;
    SoleSupporter(Round5(x), ExampleBalances(x), x.v4);
  }

  lemma WithoutAt(b: Ballot, c: Name, i: nat, r: Ballot)
    requires i < |b| && b[i].cand == c && forall j :: i < j < |b| ==> b[j].cand != c
    requires |r| == |b| - 1 && forall j :: 0 <= j < |r| ==> r[j] == b[if j < i then j else j + 1]
    ensures Without(b, c) == r
  {
    assert LastFor(b, c) == i;
  }

  lemma WithoutOne(p: Pref, c: Name)
    ensures Without([p], c) == if p.cand == c then [] else [p]
  {
  }

  lemma WithoutTwo(p: Pref, q: Pref, c: Name)
    ensures q.cand == c ==> Without([p, q], c) == [p]
    ensures q.cand != c && p.cand == c ==> Without([p, q], c) == [q]
  {
    if q.cand == c {
      WithoutAt([p, q], c, 1, [p]);
    } else if p.cand == c {
      WithoutAt([p, q], c, 0, [q]);
    }
  }

  lemma WithoutThree(p: Pref, q: Pref, r: Pref, c: Name)
    requires r.cand != c
    ensures q.cand == c ==> Without([p, q, r], c) == [p, r]
    ensures q.cand != c && p.cand == c ==> Without([p, q, r], c) == [q, r]
  {
    if q.cand == c {
      WithoutAt([p, q, r], c, 1, [p, r]);
    } else if p.cand == c {
      WithoutAt([p, q, r], c, 0, [q, r]);
    }
  }

  /** Only the last of the two places goes. */
  lemma WithoutFour(p: Pref, q: Pref, r: Pref, t: Pref, c: Name)
    requires r.cand == c && t.cand != c
    ensures Without([p, q, r, t], c) == [p, q, t]
  {
    WithoutAt([p, q, r, t], c, 2, [p, q, t]);
  }

  lemma EliminateIs(ballots: Ballots, c: Name, after: Ballots)
    requires after.Keys <= ballots.Keys
    requires forall v :: v in ballots ==> Without(ballots[v], c) == if v in after then after[v] else []
    requires forall v :: v in after ==> after[v] != []
    ensures Eliminate(ballots, c) == after
  {
    hide Without;
  }

  lemma ExampleElimination1(x: Cast)
    requires x.Distinct()
    ensures Eliminate(Example(x), x.e) == Round2(x)
  {
    hide LastFor, Without, Eliminate;
    WithoutFour(Pref(1, x.b), Pref(2, x.e), Pref(3, x.e), Pref(4, x.d), x.e);
    WithoutThree(Pref(1, x.d), Pref(2, x.e), Pref(3, x.b), x.e);
    WithoutOne(Pref(1, x.e), x.e);
    WithoutOne(Pref(1, x.c), x.e);
    EliminateIs(Example(x), x.e, Round2(x));
  }

  lemma ExampleElimination2(x: Cast)
    requires x.Distinct()
    ensures Eliminate(Round2(x), x.b) == Round3(x)
  {
    hide LastFor, Without, Eliminate;
    WithoutThree(Pref(1, x.b), Pref(2, x.e), Pref(4, x.d), x.b);
    WithoutTwo(Pref(1, x.d), Pref(3, x.b), x.b);
    WithoutOne(Pref(1, x.c), x.b);
    EliminateIs(Round2(x), x.b, Round3(x));
  }

  lemma ExampleElimination3(x: Cast)
    requires x.Distinct()
    ensures Eliminate(Round3(x), x.d) == Round4(x)
  {
    hide LastFor, Without, Eliminate;
    WithoutTwo(Pref(2, x.e), Pref(4, x.d), x.d);
    WithoutOne(Pref(1, x.d), x.d);
    WithoutOne(Pref(1, x.c), x.d);
    EliminateIs(Round3(x), x.d, Round4(x));
  }

  lemma ExampleElimination4(x: Cast)
    requires x.Distinct()
    ensures Eliminate(Round4(x), x.e) == Round5(x)
  {
    hide LastFor, Without, Eliminate;
    WithoutOne(Pref(2, x.e), x.e);
    WithoutOne(Pref(1, x.c), x.e);
    EliminateIs(Round4(x), x.e, Round5(x));
  }

  /** The leader, the loser and the number of candidates of each tally of the example. */
  lemma ExampleTallies(x: Cast)
    requires x.Distinct()
    ensures var m := map[x.b := 3, x.d := 3, x.e := 1, x.c := 4]; IsLeader(m, x.c) && IsLoser(m, x.e) && |m| > 1
    ensures var m := map[x.b := 3, x.d := 3, x.c := 4]; IsLeader(m, x.c) && IsLoser(m, x.b) && |m| > 1
    ensures var m := map[x.e := 3, x.d := 3, x.c := 4]; IsLeader(m, x.c) && IsLoser(m, x.d) && |m| > 1
    ensures var m := map[x.e := 3, x.c := 4]; IsLeader(m, x.c) && IsLoser(m, x.e) && |m| > 1
  {
    BeforeReflexive(x.b);
    BeforeReflexive(x.c);
    BeforeReflexive(x.d);
    BeforeReflexive(x.e);
    hide Before;
  }

  lemma ExampleRounds(x: Cast)
    requires x.Distinct()
    ensures Good(Example(x), ExampleBalances(x))
    ensures Elect(Example(x), ExampleBalances(x), 6) == x.c
  {
    var b := ExampleBalances(x);
    assert x.v4 in Example(x) && x.v4 in Round2(x) && x.v4 in Round3(x) && x.v4 in Round4(x);
    hide Elect, Example, Round2, Round3, Round4, Round5, ExampleBalances, Good, Counts, Eliminate;
    hide IsLeader, IsLoser, Cast.Distinct;
    ExampleTallies(x);
    ExampleGood(x);
    ExampleCounts1(x);
    ElectRound(Example(x), b, 6, x.c, x.e);
    ExampleElimination1(x);
    ExampleCounts2(x);
    ElectRound(Round2(x), b, 6, x.c, x.b);
    ExampleElimination2(x);
    ExampleCounts3(x);
    ElectRound(Round3(x), b, 6, x.c, x.d);
    ExampleElimination3(x);
    ExampleCounts4(x);
    ElectRound(Round4(x), b, 6, x.c, x.e);
    ExampleElimination4(x);
    ExampleLast(x);
  }

  lemma ExampleLast(x: Cast)
    requires x.Distinct() && Good(Round5(x), ExampleBalances(x))
    ensures Elect(Round5(x), ExampleBalances(x), 6) == x.c
  {
    ExampleCounts5(x);
    var m := Counts(Round5(x), ExampleBalances(x));
    assert x.v4 in Round5(x);
    assert m.Keys == {x.c};
    assert Leader(m) in m;
  }
}
