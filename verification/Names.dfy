/** The order of names, as std::string compares them. */
module Names {

  /** The order, reflexive. */
  predicate Before(a: string, b: string) {
    a == [] || (b != [] && (a[0] < b[0] || (a[0] == b[0] && Before(a[1..], b[1..]))))
  }

  /** Where they part, `a` is smaller. */
  ghost predicate PartAt(a: string, b: string, k: nat) {
    k < |a| && k < |b| && a[..k] == b[..k] && a[k] < b[k]
  }

  ghost predicate Parts(a: string, b: string) {
    exists k :: PartAt(a, b, k)
  }

  lemma PartsNext(a: string, b: string)
    requires a != [] && b != [] && a[0] == b[0]
    ensures Parts(a, b) <==> Parts(a[1..], b[1..])
    ensures a <= b <==> a[1..] <= b[1..]
  {
    var a1, b1 := a[1..], b[1..];
    assert a == [a[0]] + a1 && b == [b[0]] + b1;
    if k: nat :| PartAt(a1, b1, k) {
      assert a[..k + 1] == [a[0]] + a1[..k] && b[..k + 1] == [b[0]] + b1[..k];
      assert PartAt(a, b, k + 1);
    }
    if k: nat :| PartAt(a, b, k) {
      assert a1[..k - 1] == a[..k][1..] && b1[..k - 1] == b[..k][1..];
      assert PartAt(a1, b1, k - 1);
    }
  }

  lemma PartsHere(a: string, b: string)
    requires a != [] && b != [] && a[0] != b[0]
    ensures Parts(a, b) <==> a[0] < b[0]
    ensures !(a <= b)
  {
    if a[0] < b[0] {
      assert PartAt(a, b, 0);
    }
    if k: nat :| PartAt(a, b, k) {
      assert k > 0 ==> a[..k][0] == b[..k][0];
    }
  }

  /** The order of dictionaries: a name comes before what it is the beginning of, and before what has a greater
      character where they first differ. */
  lemma {:induction false} BeforeIff(a: string, b: string)
    ensures Before(a, b) <==> a <= b || exists k :: PartAt(a, b, k)
    decreases |a|
  {
    if a != [] && b != [] && a[0] == b[0] {
      BeforeIff(a[1..], b[1..]);
      PartsNext(a, b);
    } else if a != [] && b != [] {
      PartsHere(a, b);
    }
    hide PartAt;
  }

  lemma {:induction false} BeforeReflexive(a: string)
    ensures Before(a, a)
  {
    if a != [] {
      BeforeReflexive(a[1..]);
    }
  }

  lemma {:induction false} BeforeTotal(a: string, b: string)
    ensures Before(a, b) || Before(b, a)
    ensures Before(a, b) && Before(b, a) ==> a == b
    decreases |a|
  {
    if a != [] && b != [] && a[0] == b[0] {
      BeforeTotal(a[1..], b[1..]);
      assert a == [a[0]] + a[1..] && b == [b[0]] + b[1..];
    }
  }

  lemma {:induction false} BeforeTransitive(a: string, b: string, c: string)
    requires Before(a, b) && Before(b, c)
    ensures Before(a, c)
    decreases |a|
  {
    if a != [] && b != [] && c != [] && a[0] == b[0] == c[0] {
      BeforeTransitive(a[1..], b[1..], c[1..]);
    }
  }

  predicate Less(a: string, b: string) {
    !Before(b, a)
  }

  lemma Trichotomy(a: string, b: string)
    ensures a == b || Less(a, b) || Less(b, a)
    ensures !(Less(a, b) && Less(b, a)) && !(a == b && Less(a, b))
  {
    hide Before;
    BeforeTotal(a, b);
    BeforeReflexive(a);
  }

  lemma Transitive(a: string, b: string, c: string)
    requires Less(a, b) && Less(b, c)
    ensures Less(a, c)
  {
    hide Before;
    BeforeTotal(a, b);
    if Before(c, a) {
      BeforeTransitive(c, a, b);
    }
  }
}
