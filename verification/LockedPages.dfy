/** Counted locks on memory pages (LockedPageManagerBase in src/allocators.h). A page is named by its number, which is
    its address divided by the page size. */
module LockedPages {
  import opened Quotients

  /** Memory that a caller asked to keep locked. */
  datatype Range = Range(base: nat, size: nat)

  /** The number of the page that holds a byte. */
  function PageOf(address: nat, pageSize: nat): nat
    requires pageSize > 0
  {
    address / pageSize
  }

  /** The range holds a byte of the page. */
  predicate Covers(r: Range, pageSize: nat, page: nat)
    requires pageSize > 0
  {
    r.size > 0 && PageOf(r.base, pageSize) <= page <= PageOf(r.base + r.size - 1, pageSize)
  }

  /** How many of the ranges hold a byte of the page. */
  function Covering(s: seq<Range>, pageSize: nat, page: nat): nat
    requires pageSize > 0
  {
    if s == [] then 0
    else Covering(s[..|s| - 1], pageSize, page) + (if Covers(s[|s| - 1], pageSize, page) then 1 else 0)
  }

  /** One for the pages from `startPage` that have been gone through. */
  function Passed(startPage: nat, page: nat, q: nat): nat {
    if startPage <= q < page then 1 else 0
  }

  lemma InOrder(r: Range, pageSize: nat)
    requires pageSize > 0 && r.size > 0
    ensures PageOf(r.base, pageSize) <= PageOf(r.base + r.size - 1, pageSize)
  {
    DivMonotone(r.base, r.base + r.size - 1, pageSize);
  }

  function Without(s: seq<Range>, k: nat): seq<Range>
    requires k < |s|
  {
    s[..k] + s[k + 1..]
  }

  lemma CoveringAppend(s: seq<Range>, r: Range, pageSize: nat, page: nat)
    requires pageSize > 0
    ensures Covering(s + [r], pageSize, page) ==
            Covering(s, pageSize, page) + (if Covers(r, pageSize, page) then 1 else 0)
  {
    assert (s + [r])[..|s|] == s;
  }

  lemma {:induction false} CoveringWithout(s: seq<Range>, k: nat, pageSize: nat, page: nat)
    requires pageSize > 0 && k < |s|
    ensures Covering(s, pageSize, page) ==
            Covering(Without(s, k), pageSize, page) + (if Covers(s[k], pageSize, page) then 1 else 0)
  {
    hide Covers;
    var n := |s| - 1;
    if k < n {
      CoveringWithout(s[..n], k, pageSize, page);
      assert Without(s, k) == Without(s[..n], k) + [s[n]];
      CoveringAppend(Without(s[..n], k), s[n], pageSize, page);
    } else {
      assert Without(s, k) == s[..n];
    }
  }

  class LockedPageManager {
    const pageSize: nat
    var histogram: map<nat, nat>
    // The pages the operating system keeps in memory: locking one twice is locking it once.
    var resident: set<nat>
    ghost var ranges: seq<Range>

    constructor (pageSize: nat)
      requires pageSize > 0
      ensures Valid() && ranges == [] && this.pageSize == pageSize
    {
      this.pageSize := pageSize;
      histogram := map[];
      resident := {};
      ranges := [];
    }

    /** Each page is counted once for every outstanding range that touches it, and is locked as long as there is one. */
    ghost predicate Valid()
      reads this
    {
      && pageSize > 0
      && resident == histogram.Keys
      && forall page :: Counted(histogram, page) == Covering(ranges, pageSize, page)
                        && (page in histogram ==> histogram[page] > 0)
    }

    method LockRange(base: nat, size: nat)
      requires Valid()
      modifies this
      ensures Valid() && ranges == old(ranges) + [Range(base, size)]
    {
      hide Covering, PageOf;
      ghost var r := Range(base, size);
      forall page: nat
        ensures Covering(ranges + [r], pageSize, page) ==
                Covering(ranges, pageSize, page) + (if Covers(r, pageSize, page) then 1 else 0)
      {
        CoveringAppend(ranges, r, pageSize, page);
      }
      ranges := ranges + [r];
      if size == 0 {
        return;
      }
      var startPage := PageOf(base, pageSize);
      var endPage := PageOf(base + size - 1, pageSize);
      InOrder(r, pageSize);
      ghost var was := histogram;
      var page := startPage;
      while page <= endPage
        invariant startPage <= page <= endPage + 1 && ranges == old(ranges) + [r]
        invariant resident == histogram.Keys
        invariant forall q :: q in histogram ==> histogram[q] > 0
        invariant forall q: nat :: Counted(histogram, q) == Counted(was, q) + Passed(startPage, page, q)
        decreases endPage + 1 - page
      {
        if page !in histogram {
          resident := resident + {page};
          histogram := histogram[page := 1];
        } else {
          histogram := histogram[page := histogram[page] + 1];
        }
        page := page + 1;
      }
    }

    /** Undoes one earlier `LockRange` of the same memory. */
    method UnlockRange(base: nat, size: nat, ghost k: nat)
      requires Valid() && k < |ranges| && ranges[k] == Range(base, size)
      modifies this
      ensures Valid() && ranges == Without(old(ranges), k)
    {
      hide Covering, PageOf;
      ghost var r := Range(base, size);
      forall page: nat
        ensures Covering(ranges, pageSize, page) ==
                Covering(Without(ranges, k), pageSize, page) + (if Covers(r, pageSize, page) then 1 else 0)
      {
        CoveringWithout(ranges, k, pageSize, page);
      }
      ranges := Without(ranges, k);
      if size == 0 {
        return;
      }
      var startPage := PageOf(base, pageSize);
      var endPage := PageOf(base + size - 1, pageSize);
      InOrder(r, pageSize);
      ghost var was := histogram;
      assert forall q: nat :: startPage <= q <= endPage ==> Counted(was, q) > 0;
      var page := startPage;
      while page <= endPage
        invariant startPage <= page <= endPage + 1 && ranges == Without(old(ranges), k)
        invariant resident == histogram.Keys
        invariant forall q :: q in histogram ==> histogram[q] > 0
        invariant forall q: nat :: Counted(histogram, q) == Counted(was, q) - Passed(startPage, page, q)
        decreases endPage + 1 - page
      {
        assert Counted(histogram, page) > 0;
        histogram := histogram[page := histogram[page] - 1];
        if histogram[page] == 0 {
          resident := resident - {page};
          histogram := histogram - {page};
        }
        page := page + 1;
      }
    }
  }

  function Counted(histogram: map<nat, nat>, page: nat): nat {
    if page in histogram then histogram[page] else 0
  }

  /** A page stays locked exactly as long as some outstanding range touches it. */
  lemma LockedIff(m: LockedPageManager, page: nat)
    requires m.Valid()
    ensures page in m.resident <==> exists i :: 0 <= i < |m.ranges| && Covers(m.ranges[i], m.pageSize, page)
  {
    CoveredIff(m.ranges, m.pageSize, page);
    assert Counted(m.histogram, page) == Covering(m.ranges, m.pageSize, page);
  }

  lemma {:induction false} CoveredIff(s: seq<Range>, pageSize: nat, page: nat)
    requires pageSize > 0
    ensures Covering(s, pageSize, page) > 0 <==> exists i :: 0 <= i < |s| && Covers(s[i], pageSize, page)
  {
    hide Covers;
    if s != [] {
      var n := |s| - 1;
      CoveredIff(s[..n], pageSize, page);
      assert forall i :: 0 <= i < n ==> s[..n][i] == s[i];
      if Covering(s[..n], pageSize, page) > 0 {
        var i :| 0 <= i < n && Covers(s[..n][i], pageSize, page);
        assert Covers(s[i], pageSize, page);
      }
    }
  }
}
