/** The shares of a pool's round, kept as a linked list sorted by user name (src/block.cpp). */
module ShareList {
  import opened Names

  const WRAP := 0x1_0000_0000

  type uint32 = x: int | 0 <= x < WRAP

  const MIN_CHAIN_LENGTH := 6
  const MAX_CHAIN_LENGTH := 10

  /** What a chain of a payable length is worth. */
  function CalcShares(chainlength: uint32): uint32 {
    if chainlength < MIN_CHAIN_LENGTH then 0
    else if chainlength >= MAX_CHAIN_LENGTH then 21000
    else [1, 15, 170, 1900, 21000][chainlength - MIN_CHAIN_LENGTH]
  }

  /** Addition that wraps around at 2^32. */
  function Plus(a: uint32, b: uint32): uint32 {
    if a + b < WRAP then a + b else a + b - WRAP
  }

  lemma PlusAssociates(a: uint32, b: uint32, c: uint32)
    ensures Plus(a, Plus(b, c)) == Plus(Plus(a, b), c)
    ensures Plus(a, b) == Plus(b, a) && Plus(0, a) == a
  {
  }

  // ---- what a list of totals stands for ------------------------------------------------------

  datatype Entry = Entry(username: string, total: uint32)

  predicate Sorted(s: seq<Entry>) {
    forall i, j :: 0 <= i < j < |s| ==> Less(s[i].username, s[j].username)
  }

  /** The shares of one user. */
  function SharesOf(s: seq<Entry>, user: string): uint32 {
    if s == [] then 0
    else if s[0].username == user then s[0].total
    else SharesOf(s[1..], user)
  }

  function Sum(s: seq<Entry>): uint32 {
    if s == [] then 0 else Plus(s[0].total, Sum(s[1..]))
  }

  /** The place of a user in a sorted list. */
  function Place(s: seq<Entry>, user: string): (k: nat)
    ensures k <= |s| && (k < |s| ==> !Less(s[k].username, user))
    ensures forall i :: 0 <= i < k ==> Less(s[i].username, user)
  {
    if s == [] || !Less(s[0].username, user) then 0 else 1 + Place(s[1..], user)
  }

  function Added(s: seq<Entry>, user: string, shares: uint32): seq<Entry> {
    var k := Place(s, user);
    if k < |s| && s[k].username == user then s[k := Entry(user, Plus(s[k].total, shares))]
    else s[..k] + [Entry(user, shares)] + s[k..]
  }

  lemma PlaceIs(s: seq<Entry>, user: string, k: nat)
    requires k <= |s| && (k < |s| ==> !Less(s[k].username, user))
    requires forall i :: 0 <= i < k ==> Less(s[i].username, user)
    ensures Place(s, user) == k
  {
  }

  lemma AddedSorted(s: seq<Entry>, user: string, shares: uint32)
    requires Sorted(s)
    ensures Sorted(Added(s, user, shares))
  {
    hide Less;
    var k := Place(s, user);
    var r := Added(s, user, shares);
    if k < |s| {
      Trichotomy(s[k].username, user);
      forall j | k < j < |s| ensures s[k].username != user ==> Less(user, s[j].username) {
        if s[k].username != user {
          Transitive(user, s[k].username, s[j].username);
        }
      }
    }
  }

  lemma {:induction false} SharesOfSplit(a: seq<Entry>, b: seq<Entry>, user: string)
    ensures SharesOf(a + b, user) ==
            if exists i :: 0 <= i < |a| && a[i].username == user then SharesOf(a, user) else SharesOf(b, user)
  {
    if a == [] {
      assert a + b == b;
    } else {
      assert (a + b)[1..] == a[1..] + b;
      SharesOfSplit(a[1..], b, user);
      if a[0].username != user {
        assert forall i :: 0 <= i < |a[1..]| ==> a[1..][i] == a[i + 1];
        assert forall i :: 1 <= i < |a| ==> a[i] == a[1..][i - 1];
      }
    }
  }

  lemma {:induction false} SumSplit(a: seq<Entry>, b: seq<Entry>)
    ensures Sum(a + b) == Plus(Sum(a), Sum(b))
  {
    hide Plus;
    if a == [] {
      assert a + b == b;
      PlusAssociates(Sum(b), 0, 0);
    } else {
      assert (a + b)[1..] == a[1..] + b;
      SumSplit(a[1..], b);
      PlusAssociates(a[0].total, Sum(a[1..]), Sum(b));
    }
  }

  lemma NotListed(s: seq<Entry>, user: string)
    requires forall i :: 0 <= i < |s| ==> s[i].username != user
    ensures SharesOf(s, user) == 0
  {
  }

  /** A sorted list around the place of a user: what is before, the user's own entry if any, and what is after. */
  lemma Parts(s: seq<Entry>, user: string, shares: uint32) returns (a: seq<Entry>, m: seq<Entry>, b: seq<Entry>)
    requires Sorted(s)
    ensures s == a + m + b
    ensures Added(s, user, shares) == a + [Entry(user, if m == [] then shares else Plus(m[0].total, shares))] + b
    ensures forall i :: 0 <= i < |a| ==> a[i].username != user
    ensures if m == [] then forall i :: 0 <= i < |b| ==> b[i].username != user else |m| == 1 && m[0].username == user
  {
    hide Less, Plus, Sorted, SharesOf, Sum;
    var k := Place(s, user);
    a := s[..k];
    forall i | 0 <= i < |a| ensures a[i].username != user {
      Trichotomy(a[i].username, user);
    }
    if k < |s| && s[k].username == user {
      m, b := [s[k]], s[k + 1..];
    } else {
      m, b := [], s[k..];
      Absent(s, user);
    }
    assert s == a + m + b;
  }

  lemma SharesOfMiddle(a: seq<Entry>, m: seq<Entry>, b: seq<Entry>, user: string, other: string)
    requires forall i :: 0 <= i < |a| ==> a[i].username != user
    requires if m == [] then forall i :: 0 <= i < |b| ==> b[i].username != user else |m| == 1 && m[0].username == user
    ensures SharesOf(a + m + b, user) == if m == [] then 0 else m[0].total
    ensures other != user ==> SharesOf(a + m + b, other) == SharesOf(a + b, other)
  {
    assert a + m + b == a + (m + b);
    SharesOfSplit(a, m + b, user);
    SharesOfSplit(a, m + b, other);
    SharesOfSplit(a, b, other);
    SharesOfSplit(m, b, other);
    SharesOfSplit(m, b, user);
    if m == [] {
      NotListed(b, user);
    }
  }

  lemma SumMiddle(a: seq<Entry>, m: seq<Entry>, b: seq<Entry>)
    requires |m| <= 1
    ensures Sum(a + m + b) == Plus(if m == [] then 0 else m[0].total, Sum(a + b))
  {
    hide Plus;
    var t := if m == [] then 0 else m[0].total;
    assert a + m + b == a + (m + b);
    SumSplit(a, m + b);
    SumSplit(a, b);
    SumSplit(m, b);
    PlusAssociates(t, 0, 0);
    assert Sum(m) == t;
    var x, y := Sum(a), Sum(b);
    PlusAssociates(x, t, y);
    PlusAssociates(t, x, y);
  }

  /** Adding shares changes the total of that user alone, by those shares, and the sum with it. */
  lemma AddedIsFair(s: seq<Entry>, user: string, shares: uint32, other: string)
    requires Sorted(s)
    ensures SharesOf(Added(s, user, shares), other) ==
            if other == user then Plus(SharesOf(s, user), shares) else SharesOf(s, other)
    ensures Sum(Added(s, user, shares)) == Plus(Sum(s), shares)
  {
    hide Less, Plus, Sum, Sorted, SharesOf, Added;
    var a, m, b := Parts(s, user, shares);
    var t := if m == [] then 0 else m[0].total;
    var n := [Entry(user, if m == [] then shares else Plus(t, shares))];
    SharesOfMiddle(a, m, b, user, other);
    SharesOfMiddle(a, n, b, user, other);
    SumMiddle(a, m, b);
    SumMiddle(a, n, b);
    PlusAssociates(shares, 0, 0);
    assert n[0].total == Plus(t, shares);
    PlusAssociates(t, shares, Sum(a + b));
    PlusAssociates(shares, Sum(a + b), 0);
    PlusAssociates(t, Sum(a + b), shares);
  }

  /** A user who is not at its place is nowhere in the list. */
  lemma Absent(s: seq<Entry>, user: string)
    requires Sorted(s)
    requires var k := Place(s, user); k < |s| ==> s[k].username != user
    ensures forall i :: 0 <= i < |s| ==> s[i].username != user
  {
    hide Less;
    var k := Place(s, user);
    forall i | 0 <= i < |s| ensures s[i].username != user {
      Trichotomy(s[i].username, user);
      if k < i {
        Trichotomy(s[k].username, user);
        Transitive(user, s[k].username, s[i].username);
      }
    }
  }

  // ---- the list in memory ------------------------------------------------------

  class User {
    var next: User?
    const username: string
    var runningtotal: uint32

    constructor (user: string, shares: uint32)
      ensures next == null && username == user && runningtotal == shares
    {
      next := null;
      username := user;
      runningtotal := shares;
    }
  }

  predicate Distinct(s: seq<User>) {
    forall i, j :: 0 <= i < j < |s| ==> s[i] != s[j]
  }

  function Inserted<T>(s: seq<T>, x: T, k: nat): (r: seq<T>)
    requires k <= |s|
    ensures |r| == |s| + 1 && r[k] == x
    ensures forall i :: 0 <= i < k ==> r[i] == s[i]
    ensures forall i :: k < i < |r| ==> r[i] == s[i - 1]
  {
    s[..k] + [x] + s[k..]
  }

  lemma StillDistinct(s: seq<User>, u: User, k: nat)
    requires Distinct(s) && u !in s && k <= |s|
    ensures Distinct(Inserted(s, u, k))
  {
    hide Inserted;
    var r := Inserted(s, u, k);
    forall i, j | 0 <= i < j < |r| ensures r[i] != r[j] {
      assert i < k ==> r[i] == s[i];
      assert i > k ==> r[i] == s[i - 1];
      assert j < k ==> r[j] == s[j];
      assert j > k ==> r[j] == s[j - 1];
    }
  }

  class Block {
    var h: User?
    var runningtotal: uint32
    ghost var users: seq<User>

    constructor ()
      ensures Consistent() && Contents() == []
    {
      h := null;
      runningtotal := 0;
      users := [];
    }

    /** The nodes reached from the head, in order. */
    ghost predicate Valid()
      reads this, users
    {
      && (users == [] <==> h == null)
      && (users != [] ==> h == users[0] && users[|users| - 1].next == null)
      && (forall i :: 0 <= i < |users| - 1 ==> users[i].next == users[i + 1])
      && Distinct(users)
    }

    /** Every operation keeps the list sorted and its total the sum of the users' totals. */
    ghost predicate Consistent()
      reads this, users
    {
      Valid() && Sorted(Contents()) && runningtotal == Sum(Contents())
    }

    ghost function Contents(): (s: seq<Entry>)
      reads this, users
      ensures |s| == |users|
    {
      seq(|users|, i requires 0 <= i < |users| reads this, users => Entry(users[i].username, users[i].runningtotal))
    }

    method GetUser(user: string) returns (u: User?)
      requires Consistent()
      ensures u != null ==> u in users && u.username == user && u.runningtotal == SharesOf(Contents(), user)
      ensures u == null ==> forall i :: 0 <= i < |users| ==> users[i].username != user
    {
      hide Less;
      if h == null {
        return null;
      }
      var i: User := h;
      ghost var j := 0;
      while Less(i.username, user) && i.next != null
        invariant j < |users| && i == users[j]
        invariant forall k :: 0 <= k < j ==> Less(users[k].username, user)
        decreases |users| - j
      {
        i := i.next;
        j := j + 1;
      }
      ghost var s := Contents();
      Trichotomy(i.username, user);
      if user == i.username {
        FoundAt(s, user, j);
        return i;
      }
      PlaceIs(s, user, if Less(i.username, user) then j + 1 else j);
      Absent(s, user);
      assert forall k :: 0 <= k < |users| ==> s[k].username == users[k].username;
      return null;
    }

    method AddShares(user: string, chainlength: uint32)
      requires Consistent()
      modifies this, users
      ensures Consistent()
      ensures Contents() == if chainlength < MIN_CHAIN_LENGTH then old(Contents())
                            else Added(old(Contents()), user, CalcShares(chainlength))
      ensures forall u :: u in users ==> u in old(users) || fresh(u)
    {
      hide Sorted, Added, Place, Sum, Plus;
      if chainlength < MIN_CHAIN_LENGTH {
        return;
      }
      ghost var s := Contents();
      var shares := CalcShares(chainlength);
      runningtotal := Plus(runningtotal, shares);
      assert Contents() == s;
      AddedSorted(s, user, shares);
      AddedIsFair(s, user, shares, user);
      Enter(user, shares);
    }

    method InsertFirst(user: string, shares: uint32)
      requires Valid()
      modifies `h, `users
      ensures Valid() && |users| > 0 && users[1..] == old(users) && fresh(users[0])
      ensures Contents() == [Entry(user, shares)] + old(Contents())
    {
      hide Inserted;
      ghost var was := users;
      var t := h;
      var node := new User(user, shares);
      node.next := t;
      h := node;
      StillDistinct(users, node, 0);
      users := Inserted(users, node, 0);
      assert users[1..] == was;
    }

    method InsertAfter(i: User, ghost j: nat, user: string, shares: uint32)
      requires Valid() && j < |users| && i == users[j]
      modifies `users, i`next
      ensures Valid() && |users| == old(|users|) + 1 && fresh(users[j + 1])
      ensures users[..j + 1] == old(users[..j + 1]) && users[j + 2..] == old(users[j + 1..])
      ensures Contents() == Inserted(old(Contents()), Entry(user, shares), j + 1)
    {
      hide Inserted, Plus;
      ghost var was, s := users, Contents();
      var t := i.next;
      var node := new User(user, shares);
      i.next := node;
      i.next.next := t;
      StillDistinct(was, node, j + 1);
      users := Inserted(was, node, j + 1);
      assert Contents() == Inserted(s, Entry(user, shares), j + 1);
    }

    method AddTo(i: User, ghost j: nat, shares: uint32)
      requires Valid() && j < |users| && i == users[j]
      modifies i`runningtotal
      ensures Valid()
      ensures Contents() == old(Contents()[j := Entry(i.username, Plus(i.runningtotal, shares))])
    {
      i.runningtotal := Plus(i.runningtotal, shares);
    }

    /** The walk to the user's place, and the change there. */
    method Enter(user: string, shares: uint32)
      requires Valid() && Sorted(Contents())
      modifies `h, `users, users
      ensures Valid()
      ensures Contents() == Added(old(Contents()), user, shares)
      ensures forall u :: u in users ==> u in old(users) || fresh(u)
    {
      hide Less, Sorted, Added, Plus;
      ghost var s := Contents();
      if h == null {
        AddedAt(s, user, shares, 0);
        InsertFirst(user, shares);
        return;
      }
      var i: User := h;
      Trichotomy(user, i.username);
      if Less(user, i.username) {
        AddedAt(s, user, shares, 0);
        InsertFirst(user, shares);
        return;
      } else if user == i.username {
        AddedAt(s, user, shares, 0);
        AddTo(i, 0, shares);
        return;
      } else if i.next == null {
        AddedAt(s, user, shares, 1);
        InsertAfter(i, 0, user, shares);
        return;
      }
      ghost var j := 0;
      while Less(i.next.username, user) && i.next.next != null
        invariant j + 1 < |users| && i == users[j] && i.next != null
        invariant forall k :: 0 <= k <= j ==> Less(users[k].username, user)
        decreases |users| - j
      {
        i := i.next;
        j := j + 1;
      }
      EnterAfter(i, j, user, shares);
    }

    /** The change behind the last node that is known to come before the user. */
    method EnterAfter(i: User, ghost j: nat, user: string, shares: uint32)
      requires Valid() && j + 1 < |users| && i == users[j] && i.next != null
      requires forall k :: 0 <= k <= j ==> Less(users[k].username, user)
      requires Less(i.next.username, user) ==> i.next.next == null
      modifies `users, users
      ensures Valid()
      ensures Contents() == Added(old(Contents()), user, shares)
      ensures forall u :: u in users ==> u in old(users) || fresh(u)
    {
      hide Less, Added, Plus;
      ghost var s := Contents();
      assert i.next == users[j + 1];
      Trichotomy(user, i.next.username);
      if Less(user, i.next.username) {
        AddedAt(s, user, shares, j + 1);
        InsertAfter(i, j, user, shares);
      } else if user == i.next.username {
        AddedAt(s, user, shares, j + 1);
        AddTo(i.next, j + 1, shares);
      } else {
        AddedAt(s, user, shares, j + 2);
        InsertAfter(i.next, j + 1, user, shares);
      }
    }
  }

  lemma AddedAt(s: seq<Entry>, user: string, shares: uint32, k: nat)
    requires k <= |s| && (k < |s| ==> !Less(s[k].username, user))
    requires forall i :: 0 <= i < k ==> Less(s[i].username, user)
    ensures Added(s, user, shares) ==
            if k < |s| && s[k].username == user then s[k := Entry(user, Plus(s[k].total, shares))]
            else Inserted(s, Entry(user, shares), k)
  {
    hide Less;
    PlaceIs(s, user, k);
  }

  lemma {:induction false} FoundAt(s: seq<Entry>, user: string, k: nat)
    requires Sorted(s) && k < |s| && s[k].username == user
    ensures SharesOf(s, user) == s[k].total
  {
    if k > 0 {
      Trichotomy(s[0].username, user);
      FoundAt(s[1..], user, k - 1);
    }
  }

  // ---- whole rounds ------------------------------------------------------

  datatype Call = Call(user: string, chainlength: uint32)

  /** The list after a round of calls to AddShares. */
  function Round(calls: seq<Call>): seq<Entry> {
    if calls == [] then []
    else
      var s, c := Round(calls[..|calls| - 1]), calls[|calls| - 1];
      if c.chainlength < MIN_CHAIN_LENGTH then s else Added(s, c.user, CalcShares(c.chainlength))
  }

  function Earned(calls: seq<Call>, user: string): uint32 {
    if calls == [] then 0
    else
      var n, c := Earned(calls[..|calls| - 1], user), calls[|calls| - 1];
      if c.user == user then Plus(n, CalcShares(c.chainlength)) else n
  }

  function Paid(calls: seq<Call>): uint32 {
    if calls == [] then 0 else Plus(Paid(calls[..|calls| - 1]), CalcShares(calls[|calls| - 1].chainlength))
  }

  /** Whatever the order of the calls, every user ends with the worth of that user's chains, and the total is the
      worth of all. */
  lemma {:induction false} RoundIsFair(calls: seq<Call>, user: string)
    ensures Sorted(Round(calls))
    ensures SharesOf(Round(calls), user) == Earned(calls, user)
    ensures Sum(Round(calls)) == Paid(calls)
  {
    hide Less, Added, Sorted, Sum, SharesOf, Plus;
    EmptyRound(user);
    if calls != [] {
      var rest, c := calls[..|calls| - 1], calls[|calls| - 1];
      RoundIsFair(rest, user);
      PlusAssociates(Earned(rest, user), 0, 0);
      PlusAssociates(Paid(rest), 0, 0);
      if c.chainlength >= MIN_CHAIN_LENGTH {
        AddedSorted(Round(rest), c.user, CalcShares(c.chainlength));
        AddedIsFair(Round(rest), c.user, CalcShares(c.chainlength), user);
      }
    }
  }

  lemma EmptyRound(user: string)
    ensures Sorted([]) && SharesOf([], user) == 0 && Sum([]) == 0
  {
  }

  // ---- in whole numbers ------------------------------------------------------

  /** How many calls were made for the user with a chain of `lo` to `hi`. */
  function Chains(calls: seq<Call>, user: string, lo: nat, hi: nat): nat {
    if calls == [] then 0
    else
      var c := calls[|calls| - 1];
      Chains(calls[..|calls| - 1], user, lo, hi) + if c.user == user && lo <= c.chainlength <= hi then 1 else 0
  }

  /** What the user's chains are worth, were there no limit of 32 bits. */
  function Value(calls: seq<Call>, user: string): nat {
    Chains(calls, user, 6, 6) + 15 * Chains(calls, user, 7, 7) + 170 * Chains(calls, user, 8, 8)
    + 1900 * Chains(calls, user, 9, 9) + 21000 * Chains(calls, user, 10, 0xFFFF_FFFF)
  }

  lemma WrapsTo(n: nat, a: uint32, b: uint32)
    requires a == n % 0x1_0000_0000
    ensures Plus(a, b) == (n + b) % 0x1_0000_0000
  {
  }

  lemma {:induction false} EarnedIs(calls: seq<Call>, user: string)
    ensures Earned(calls, user) == Value(calls, user) % 0x1_0000_0000
  {
    if calls != [] {
      var rest, c := calls[..|calls| - 1], calls[|calls| - 1];
      EarnedIs(rest, user);
      var worth := if c.user == user then CalcShares(c.chainlength) else 0;
      assert Value(calls, user) == Value(rest, user) + worth;
      WrapsTo(Value(rest, user), Earned(rest, user), worth);
      hide Value, Chains;
    }
  }

  /** Main result: after a round every user has 1, 15, 170, 1900 and 21000 shares for each chain of 6, 7, 8, 9 and 10 or
      more, modulo 2^32, in whatever order they came. */
  lemma RoundPays(calls: seq<Call>, user: string)
    ensures SharesOf(Round(calls), user) == Value(calls, user) % 0x1_0000_0000
  {
    RoundIsFair(calls, user);
    EarnedIs(calls, user);
  }
}
