/** Partial merkle trees (CPartialMerkleTree; "Partial Merkle branch format" of BIP 37). */
module PartialTree {
  import opened Basics
  import opened Quotients
  import opened CoinTypes
  import opened Merkle

  const MAX_BLOCK_SIZE := 1_500_000

  // ---- which leaves a node covers ------------------------------------------------------

  function Lo(height: nat, pos: nat): nat {
    pos * Pow2(height)
  }

  function Hi(n: nat, height: nat, pos: nat): nat {
    if (pos + 1) * Pow2(height) < n then (pos + 1) * Pow2(height) else n
  }

  lemma NodeRange(n: nat, height: nat, pos: nat)
    requires pos < Width(n, height)
    ensures Lo(height, pos) < Hi(n, height, pos) <= n
    ensures height == 0 ==> Lo(height, pos) == pos && Hi(n, height, pos) == pos + 1
  {
    var d := Pow2(height);
    var w := Width(n, height);
    WidthBounds(n, height);
    hide Width;
    MulMonotone(pos, w - 1, d);
    Times1(pos, d);
    Times1(w - 1, d);
  }

  lemma Times1(x: nat, d: nat)
    ensures (x + 1) * d == x * d + d
  {
  }

  /** The children of a node split its leaves at the middle. */
  lemma ChildRanges(n: nat, height: nat, pos: nat)
    requires height > 0 && pos < Width(n, height)
    ensures 2 * pos < Width(n, height - 1)
    ensures Lo(height - 1, 2 * pos) == Lo(height, pos)
    ensures 2 * pos + 1 < Width(n, height - 1) ==>
      Hi(n, height - 1, 2 * pos) == Lo(height - 1, 2 * pos + 1) && Hi(n, height - 1, 2 * pos + 1) == Hi(n, height, pos)
    ensures 2 * pos + 1 >= Width(n, height - 1) ==> Hi(n, height - 1, 2 * pos) == Hi(n, height, pos)
  {
    ChildInLevel(n, height, pos);
    var d := Pow2(height - 1);
    var w := Width(n, height - 1);
    assert pos * (2 * d) == (2 * pos) * d;
    assert (pos + 1) * (2 * d) == (2 * pos + 2) * d == (2 * pos + 1) * d + d;
    if 2 * pos + 1 < w {
      NodeRange(n, height - 1, 2 * pos + 1);
    } else {
      WidthBounds(n, height - 1);
    }
  }

  /** The matched ids among the leaves `lo` to `hi`, with their positions, in order. */
  function MatchedIn(vTxid: seq<Hash>, vMatch: seq<bool>, lo: nat, hi: nat): (r: seq<(nat, Hash)>)
    requires lo <= hi <= |vTxid| == |vMatch|
    decreases hi - lo
  {
    if lo == hi then []
    else MatchedIn(vTxid, vMatch, lo, hi - 1) + (if vMatch[hi - 1] then [(hi - 1, vTxid[hi - 1])] else [])
  }

  lemma {:induction false} MatchedSplit(vTxid: seq<Hash>, vMatch: seq<bool>, lo: nat, mid: nat, hi: nat)
    requires lo <= mid <= hi <= |vTxid| == |vMatch|
    ensures MatchedIn(vTxid, vMatch, lo, hi) == MatchedIn(vTxid, vMatch, lo, mid) + MatchedIn(vTxid, vMatch, mid, hi)
    decreases hi - mid
  {
    if mid < hi {
      MatchedSplit(vTxid, vMatch, lo, mid, hi - 1);
    }
  }

  predicate AnyMatch(vMatch: seq<bool>, lo: nat, hi: nat)
    requires hi <= |vMatch|
  {
    exists p :: lo <= p < hi && vMatch[p]
  }

  lemma {:induction false} AnyMatchIffMatched(vTxid: seq<Hash>, vMatch: seq<bool>, lo: nat, hi: nat)
    requires lo <= hi <= |vTxid| == |vMatch|
    ensures AnyMatch(vMatch, lo, hi) <==> MatchedIn(vTxid, vMatch, lo, hi) != []
    decreases hi - lo
  {
    if lo < hi {
      AnyMatchIffMatched(vTxid, vMatch, lo, hi - 1);
      if AnyMatch(vMatch, lo, hi - 1) {
        assert AnyMatch(vMatch, lo, hi);
      } else if vMatch[hi - 1] {
        assert AnyMatch(vMatch, lo, hi);
      }
    }
  }

  lemma MatchedLeaf(vTxid: seq<Hash>, vMatch: seq<bool>, p: nat)
    requires p < |vTxid| == |vMatch|
    ensures AnyMatch(vMatch, p, p + 1) == vMatch[p]
    ensures MatchedIn(vTxid, vMatch, p, p + 1) == if vMatch[p] then [(p, vTxid[p])] else []
  {
    assert MatchedIn(vTxid, vMatch, p, p) == [];
  }

  // ---- encoding --------------------------------------------------------------------------

  datatype Enc = Enc(bits: seq<bool>, hashes: seq<Hash>)

  function Join(f: bool, a: Enc, b: Enc): Enc {
    Enc([f] + a.bits + b.bits, a.hashes + b.hashes)
  }

  const NOTHING := Enc([], [])

  /** Flag bits and hashes of one node, depth first. */
  function Build(hash: PairHash, height: nat, pos: nat, vTxid: seq<Hash>, vMatch: seq<bool>): Enc
    requires |vTxid| == |vMatch| && pos < Width(|vTxid|, height)
  {
    NodeRange(|vTxid|, height, pos);
    var f := AnyMatch(vMatch, Lo(height, pos), Hi(|vTxid|, height, pos));
    if height == 0 || !f then Enc([f], [CalcHash(hash, height, pos, vTxid)])
    else
      ChildRanges(|vTxid|, height, pos);
      Join(true, Build(hash, height - 1, pos * 2, vTxid, vMatch),
           if pos * 2 + 1 < Width(|vTxid|, height - 1) then Build(hash, height - 1, pos * 2 + 1, vTxid,
             vMatch) else NOTHING)
  }

  // ---- decoding --------------------------------------------------------------------------

  /** What a traversal yields: the node hash, how much it consumed, and the matched leaves. */
  datatype Got = Got(hash: Hash, nBits: nat, nHashes: nat, matched: seq<(nat, Hash)>)

  function Extract(hash: PairHash, n: nat, height: nat, pos: nat, bits: seq<bool>, hashes: seq<Hash>,
                   nBits: nat, nHashes: nat): Option<Got>
  {
    if nBits >= |bits| then None
    else if height == 0 || !bits[nBits] then
      if nHashes >= |hashes| then None
      else Some(Got(hashes[nHashes], nBits + 1, nHashes + 1,
                    if height == 0 && bits[nBits] then [(pos, hashes[nHashes])] else []))
    else
      match Extract(hash, n, height - 1, pos * 2, bits, hashes, nBits + 1, nHashes)
      case None => None
      case Some(l) =>
        if pos * 2 + 1 < Width(n, height - 1) then
          match Extract(hash, n, height - 1, pos * 2 + 1, bits, hashes, l.nBits, l.nHashes)
          case None => None
          case Some(r) => Some(Got(hash(l.hash, r.hash), r.nBits, r.nHashes, l.matched + r.matched))
        else Some(l.(hash := hash(l.hash, l.hash)))
  }

  /** ExtractMatches: the traversal from the root, with the checks before and after it. */
  function Accepted(hash: PairHash, n: nat, bits: seq<bool>, hashes: seq<Hash>): Option<Got> {
    if n == 0 || n > MAX_BLOCK_SIZE / 60 || |hashes| > n || |bits| < |hashes| then None
    else
      match Extract(hash, n, Height(n), 0, bits, hashes, 0, 0)
      case None => None
      case Some(g) =>
        if (g.nBits + 7) / 8 != (|bits| + 7) / 8 || g.nHashes != |hashes| then None else Some(g)
  }

  lemma Slices<T>(s: seq<T>, i: nat, a: seq<T>, b: seq<T>, c: seq<T>)
    requires i + |a + b + c| <= |s| && s[i..i + |a + b + c|] == a + b + c
    ensures s[i..i + |a|] == a && s[i + |a|..i + |a| + |b|] == b
    ensures s[i + |a| + |b|..i + |a| + |b| + |c|] == c
  {
    var t := a + b + c;
    SliceOfSlice(s, i, t, 0, |a|);
    SliceOfSlice(s, i, t, |a|, |a| + |b|);
    SliceOfSlice(s, i, t, |a| + |b|, |t|);
    assert t[..|a|] == a && t[|a|..|a| + |b|] == b && t[|a| + |b|..] == c;
  }

  lemma SliceOfSlice<T>(s: seq<T>, i: nat, t: seq<T>, x: nat, y: nat)
    requires x <= y <= |t| && i + |t| <= |s| && s[i..i + |t|] == t
    ensures s[i + x..i + y] == t[x..y]
  {
    forall k | 0 <= k < y - x
      ensures s[i + x..i + y][k] == t[x..y][k]
    {
      assert t[x + k] == s[i + (x + k)];
    }
  }

  lemma ExtractLeaf(hash: PairHash, n: nat, height: nat, pos: nat, bits: seq<bool>, hashes: seq<Hash>, i: nat, j: nat)
    requires i < |bits| && j < |hashes| && (height == 0 || !bits[i])
    ensures Extract(hash, n, height, pos, bits, hashes, i, j) == Some(Got(hashes[j], i + 1, j + 1,
      if height == 0 && bits[i] then [(pos, hashes[j])] else []))
  {
  }

  lemma ExtractNode(hash: PairHash, n: nat, height: nat, pos: nat, bits: seq<bool>, hashes: seq<Hash>, i: nat, j: nat,
                    l: Got, r: Got)
    requires i < |bits| && height > 0 && bits[i]
    requires Extract(hash, n, height - 1, pos * 2, bits, hashes, i + 1, j) == Some(l)
    requires pos * 2 + 1 < Width(n, height - 1) ==>
      Extract(hash, n, height - 1, pos * 2 + 1, bits, hashes, l.nBits, l.nHashes) == Some(r)
    ensures Extract(hash, n, height, pos, bits, hashes, i, j) == Some(
      if pos * 2 + 1 < Width(n, height - 1) then Got(hash(l.hash, r.hash), r.nBits, r.nHashes, l.matched + r.matched)
      else l.(hash := hash(l.hash, l.hash)))
  {
    hide Width;
  }

  /** What an inner node makes of its children, failures included. */
  lemma ExtractInner(hash: PairHash, n: nat, height: nat, pos: nat, bits: seq<bool>, hashes: seq<Hash>, i: nat, j: nat)
    requires i < |bits| && height > 0 && bits[i]
    ensures Extract(hash, n, height, pos, bits, hashes, i, j) ==
      var l := Extract(hash, n, height - 1, pos * 2, bits, hashes, i + 1, j);
      if l.None? then None
      else if pos * 2 + 1 < Width(n, height - 1) then
        var r := Extract(hash, n, height - 1, pos * 2 + 1, bits, hashes, l.value.nBits, l.value.nHashes);
        if r.None? then None
        else Some(Got(hash(l.value.hash, r.value.hash), r.value.nBits, r.value.nHashes,
          l.value.matched + r.value.matched))
      else Some(l.value.(hash := hash(l.value.hash, l.value.hash)))
  {
    hide Width;
  }

  /** The two encodings below an inner node, and how they make up its own. */
  lemma BuildNode(hash: PairHash, height: nat, pos: nat, vTxid: seq<Hash>, vMatch: seq<bool>) returns (l: Enc, r: Enc)
    requires |vTxid| == |vMatch| && pos < Width(|vTxid|, height) && height > 0
    requires Lo(height, pos) <= Hi(|vTxid|, height, pos) && AnyMatch(vMatch, Lo(height, pos), Hi(|vTxid|, height, pos))
    ensures 2 * pos < Width(|vTxid|, height - 1) && l == Build(hash, height - 1, pos * 2, vTxid, vMatch)
    ensures r == if pos * 2 + 1 < Width(|vTxid|, height - 1) then Build(hash, height - 1, pos * 2 + 1, vTxid, vMatch)
                 else NOTHING
    ensures var e := Build(hash, height, pos, vTxid, vMatch);
      e.bits == [true] + l.bits + r.bits && e.hashes == [] + l.hashes + r.hashes
  {
    hide Width, Lo, Hi, AnyMatch;
    ChildRanges(|vTxid|, height, pos);
    l := Build(hash, height - 1, pos * 2, vTxid, vMatch);
    r := if pos * 2 + 1 < Width(|vTxid|, height - 1) then Build(hash, height - 1, pos * 2 + 1, vTxid,
      vMatch) else NOTHING;
    assert Build(hash, height, pos, vTxid, vMatch) == Join(true, l, r);
    assert [] + l.hashes + r.hashes == l.hashes + r.hashes;
  }

  /** The two streams hold the encoding of a node at `i` and `j`. */
  ghost predicate Holds(bits: seq<bool>, hashes: seq<Hash>, i: nat, j: nat, e: Enc) {
    && i + |e.bits| <= |bits| && bits[i..i + |e.bits|] == e.bits
    && j + |e.hashes| <= |hashes| && hashes[j..j + |e.hashes|] == e.hashes
  }

  lemma HoldsJoin(bits: seq<bool>, hashes: seq<Hash>, i: nat, j: nat, e: Enc, l: Enc, r: Enc)
    requires Holds(bits, hashes, i, j, e)
    requires e.bits == [true] + l.bits + r.bits && e.hashes == [] + l.hashes + r.hashes
    ensures i < |bits| && bits[i]
    ensures Holds(bits, hashes, i + 1, j, l)
    ensures Holds(bits, hashes, i + 1 + |l.bits|, j + |l.hashes|, r)
    ensures i + |e.bits| == i + 1 + |l.bits| + |r.bits| && j + |e.hashes| == j + |l.hashes| + |r.hashes|
  {
    Slices(bits, i, [true], l.bits, r.bits);
    Slices(hashes, j, [], l.hashes, r.hashes);
    assert bits[i] == bits[i..i + 1][0];
  }

  lemma ExtractBuildLeaf(hash: PairHash, height: nat, pos: nat, vTxid: seq<Hash>, vMatch: seq<bool>,
                         bits: seq<bool>, hashes: seq<Hash>, i: nat, j: nat)
    requires |vTxid| == |vMatch| && pos < Width(|vTxid|, height)
    requires Lo(height, pos) <= Hi(|vTxid|, height, pos) <= |vTxid|
    requires height == 0 || !AnyMatch(vMatch, Lo(height, pos), Hi(|vTxid|, height, pos))
    requires Holds(bits, hashes, i, j, Build(hash, height, pos, vTxid, vMatch))
    ensures Extract(hash, |vTxid|, height, pos, bits, hashes, i, j)
      == Some(Got(CalcHash(hash, height, pos, vTxid), i + 1, j + 1,
                  MatchedIn(vTxid, vMatch, Lo(height, pos), Hi(|vTxid|, height, pos))))
    ensures var e := Build(hash, height, pos, vTxid, vMatch); |e.bits| == |e.hashes| == 1
  {
    hide Width, Lo, Hi, CalcHash, AnyMatch, MatchedIn;
    var lo, hi := Lo(height, pos), Hi(|vTxid|, height, pos);
    NodeRange(|vTxid|, height, pos);
    AnyMatchIffMatched(vTxid, vMatch, lo, hi);
    var e := Build(hash, height, pos, vTxid, vMatch);
    assert e == Enc([AnyMatch(vMatch, lo, hi)], [CalcHash(hash, height, pos, vTxid)]);
    assert bits[i] == bits[i..i + |e.bits|][0] && hashes[j] == hashes[j..j + |e.hashes|][0];
    ExtractLeaf(hash, |vTxid|, height, pos, bits, hashes, i, j);
    if height == 0 {
      CalcHashIs(hash, height, pos, vTxid);
      MatchedLeaf(vTxid, vMatch, pos);
    }
  }

  /** Decoding finds what was encoded, wherever it sits in the two streams. */
  lemma {:induction false} ExtractBuild(hash: PairHash, height: nat, pos: nat, vTxid: seq<Hash>, vMatch: seq<bool>,
                                        bits: seq<bool>, hashes: seq<Hash>, i: nat, j: nat)
    requires |vTxid| == |vMatch| && pos < Width(|vTxid|, height)
    requires Holds(bits, hashes, i, j, Build(hash, height, pos, vTxid, vMatch))
    ensures Lo(height, pos) <= Hi(|vTxid|, height, pos) <= |vTxid|
    ensures var e := Build(hash, height, pos, vTxid, vMatch);
      Extract(hash, |vTxid|, height, pos, bits, hashes, i, j)
        == Some(Got(CalcHash(hash, height, pos, vTxid), i + |e.bits|, j + |e.hashes|,
                    MatchedIn(vTxid, vMatch, Lo(height, pos), Hi(|vTxid|, height, pos))))
  {
    hide Width, Lo, Hi, CalcHash, AnyMatch, MatchedIn, Build, Extract, Holds;
    var n := |vTxid|;
    NodeRange(n, height, pos);
    var lo, hi := Lo(height, pos), Hi(n, height, pos);
    if height == 0 || !AnyMatch(vMatch, lo, hi) {
      ExtractBuildLeaf(hash, height, pos, vTxid, vMatch, bits, hashes, i, j);
    } else {
      CalcHashIs(hash, height, pos, vTxid);
      ChildRanges(n, height, pos);
      var l, r := BuildNode(hash, height, pos, vTxid, vMatch);
      HoldsJoin(bits, hashes, i, j, Build(hash, height, pos, vTxid, vMatch), l, r);
      ExtractBuild(hash, height - 1, pos * 2, vTxid, vMatch, bits, hashes, i + 1, j);
      var gl := Extract(hash, n, height - 1, pos * 2, bits, hashes, i + 1, j).value;
      var gr := gl;
      if pos * 2 + 1 < Width(n, height - 1) {
        ExtractBuild(hash, height - 1, pos * 2 + 1, vTxid, vMatch, bits, hashes, gl.nBits, gl.nHashes);
        gr := Extract(hash, n, height - 1, pos * 2 + 1, bits, hashes, gl.nBits, gl.nHashes).value;
        MatchedSplit(vTxid, vMatch, lo, Hi(n, height - 1, pos * 2), hi);
      }
      ExtractNode(hash, n, height, pos, bits, hashes, i, j, gl, gr);
    }
  }

  /** Every match is the id at its position, positions rising from `lo` and staying below `hi`. */
  ghost predicate TrueMatches(matched: seq<(nat, Hash)>, vTxid: seq<Hash>, lo: nat, hi: nat) {
    && (forall k :: 0 <= k < |matched| ==>
          lo <= matched[k].0 < hi <= |vTxid| && matched[k].1 == vTxid[matched[k].0])
    && (forall k, l :: 0 <= k < l < |matched| ==> matched[k].0 < matched[l].0)
  }

  lemma TrueMatchesJoin(a: seq<(nat, Hash)>, b: seq<(nat, Hash)>, vTxid: seq<Hash>, lo: nat, mid: nat, hi: nat)
    requires TrueMatches(a, vTxid, lo, mid) && TrueMatches(b, vTxid, mid, hi) && lo <= mid <= hi <= |vTxid|
    ensures TrueMatches(a + b, vTxid, lo, hi)
  {
  }

  /** Soundness of one node: a traversal of anything at all that ends in the true hash of the node
      matched only ids that are there. */
  lemma {:induction false} ExtractSound(hash: PairHash, height: nat, pos: nat, vTxid: seq<Hash>,
                                        bits: seq<bool>, hashes: seq<Hash>, i: nat, j: nat)
    requires Injective(hash) && pos < Width(|vTxid|, height)
    requires var g := Extract(hash, |vTxid|, height, pos, bits, hashes, i, j);
      g.Some? && g.value.hash == CalcHash(hash, height, pos, vTxid)
    ensures var g := Extract(hash, |vTxid|, height, pos, bits, hashes, i, j).value;
      TrueMatches(g.matched, vTxid, Lo(height, pos), Hi(|vTxid|, height, pos))
  {
    hide Width, Lo, Hi, TrueMatches, CalcHash, Injective;
    var n := |vTxid|;
    CalcHashIs(hash, height, pos, vTxid);
    NodeRange(n, height, pos);
    if height == 0 || !bits[i] {
      LeafMatches(Extract(hash, n, height, pos, bits, hashes, i, j).value.matched, vTxid, height, pos);
    } else {
      ChildRanges(n, height, pos);
      var l := Extract(hash, n, height - 1, pos * 2, bits, hashes, i + 1, j).value;
      NodeRange(n, height - 1, pos * 2);
      var left := CalcHash(hash, height - 1, pos * 2, vTxid);
      if pos * 2 + 1 >= Width(n, height - 1) {
        Unpair(hash, l.hash, l.hash, left, left);
        ExtractSound(hash, height - 1, pos * 2, vTxid, bits, hashes, i + 1, j);
      } else {
        var r := Extract(hash, n, height - 1, pos * 2 + 1, bits, hashes, l.nBits, l.nHashes).value;
        Unpair(hash, l.hash, r.hash, left, CalcHash(hash, height - 1, pos * 2 + 1, vTxid));
        ExtractSound(hash, height - 1, pos * 2, vTxid, bits, hashes, i + 1, j);
        ExtractSound(hash, height - 1, pos * 2 + 1, vTxid, bits, hashes, l.nBits, l.nHashes);
        NodeRange(n, height - 1, pos * 2 + 1);
        TrueMatchesJoin(l.matched, r.matched, vTxid, Lo(height, pos), Hi(n, height - 1, pos * 2), Hi(n, height, pos));
      }
    }
  }

  lemma Unpair(hash: PairHash, a: Hash, b: Hash, c: Hash, d: Hash)
    requires Injective(hash) && hash(a, b) == hash(c, d)
    ensures a == c && b == d
  {
  }

  lemma CalcHashIs(hash: PairHash, height: nat, pos: nat, vTxid: seq<Hash>)
    requires pos < Width(|vTxid|, height)
    ensures height == 0 ==> CalcHash(hash, height, pos, vTxid) == vTxid[pos]
    ensures height > 0 ==> 2 * pos < Width(|vTxid|, height - 1)
    ensures height > 0 ==>
      var left := CalcHash(hash, height - 1, 2 * pos, vTxid);
      CalcHash(hash, height, pos, vTxid) == hash(left,
        if 2 * pos + 1 < Width(|vTxid|, height - 1) then CalcHash(hash, height - 1, 2 * pos + 1, vTxid) else left)
  {
    hide Width;
    if height > 0 {
      ChildInLevel(|vTxid|, height, pos);
    }
  }

  lemma LeafMatches(m: seq<(nat, Hash)>, vTxid: seq<Hash>, height: nat, pos: nat)
    requires pos < Width(|vTxid|, height)
    requires m == [] || (height == 0 && m == [(pos, vTxid[pos])])
    ensures TrueMatches(m, vTxid, Lo(height, pos), Hi(|vTxid|, height, pos))
  {
    NodeRange(|vTxid|, height, pos);
  }

  /** Main result (soundness): any partial tree that is accepted with the root of a list of its length
      matches only ids of that list, at their own positions and in order. */
  lemma AcceptedSound(hash: PairHash, vTxid: seq<Hash>, bits: seq<bool>, hashes: seq<Hash>)
    requires Injective(hash)
    requires var g := Accepted(hash, |vTxid|, bits, hashes); g.Some? && g.value.hash == Root(hash, vTxid)
    ensures TrueMatches(Accepted(hash, |vTxid|, bits, hashes).value.matched, vTxid, 0, |vTxid|)
  {
    var n := |vTxid|;
    NodeRange(n, Height(n), 0);
    RootRange(n);
    ExtractSound(hash, Height(n), 0, vTxid, bits, hashes, 0, 0);
  }

  lemma RootRange(n: nat)
    requires n > 0
    ensures Lo(Height(n), 0) == 0 && Hi(n, Height(n), 0) == n
  {
    WidthBounds(n, Height(n));
  }

  // ---- size -----------------------------------------------------------------------------------

  /** How many traversed inner nodes have one child only. */
  function Singles(height: nat, pos: nat, n: nat, vMatch: seq<bool>): nat
    requires |vMatch| == n && pos < Width(n, height)
  {
    NodeRange(n, height, pos);
    if height == 0 || !AnyMatch(vMatch, Lo(height, pos), Hi(n, height, pos)) then 0
    else
      ChildRanges(n, height, pos);
      if pos * 2 + 1 < Width(n, height - 1)
      then Singles(height - 1, pos * 2, n, vMatch) + Singles(height - 1, pos * 2 + 1, n, vMatch)
      else 1 + Singles(height - 1, pos * 2, n, vMatch)
  }

  /** Sizes of the encoding of a node: hashes against leaves, matches and height, bits against hashes. */
  lemma {:induction false} BuildSize(hash: PairHash, height: nat, pos: nat, vTxid: seq<Hash>, vMatch: seq<bool>)
    requires |vTxid| == |vMatch| && pos < Width(|vTxid|, height)
    ensures Lo(height, pos) <= Hi(|vTxid|, height, pos) <= |vTxid|
    ensures var e := Build(hash, height, pos, vTxid, vMatch);
      var lo, hi := Lo(height, pos), Hi(|vTxid|, height, pos);
      && 1 <= |e.hashes| <= hi - lo
      && |e.hashes| <= 1 + |MatchedIn(vTxid, vMatch, lo, hi)| * height
      && |e.bits| == 2 * |e.hashes| - 1 + Singles(height, pos, |vTxid|, vMatch)
  {
    hide Width, Lo, Hi, CalcHash, AnyMatch, MatchedIn, Build;
    var n := |vTxid|;
    NodeRange(n, height, pos);
    var lo, hi := Lo(height, pos), Hi(n, height, pos);
    if height == 0 || !AnyMatch(vMatch, lo, hi) {
      BuildStop(hash, height, pos, vTxid, vMatch);
      TimesNonNegative(|MatchedIn(vTxid, vMatch, lo, hi)|, height);
    } else {
      ChildRanges(n, height, pos);
      var l, r := BuildNode(hash, height, pos, vTxid, vMatch);
      BuildSize(hash, height - 1, pos * 2, vTxid, vMatch);
      AnyMatchIffMatched(vTxid, vMatch, lo, hi);
      var ml := MatchedIn(vTxid, vMatch, lo, Hi(n, height - 1, pos * 2));
      var m := MatchedIn(vTxid, vMatch, lo, hi);
      if pos * 2 + 1 < Width(n, height - 1) {
        BuildSize(hash, height - 1, pos * 2 + 1, vTxid, vMatch);
        MatchedSplit(vTxid, vMatch, lo, Hi(n, height - 1, pos * 2), hi);
        var mr := MatchedIn(vTxid, vMatch, Hi(n, height - 1, pos * 2), hi);
        assert |m| == |ml| + |mr|;
        HashesOfTwo(|ml|, |mr|, height);
      } else {
        HashesOfTwo(|m|, 0, height);
      }
    }
  }

  lemma TimesNonNegative(m: nat, h: nat)
    ensures m * h >= 0
  {
  }

  lemma HashesOfTwo(ml: nat, mr: nat, h: nat)
    requires h > 0 && ml + mr > 0
    ensures 2 + ml * (h - 1) + mr * (h - 1) <= 1 + (ml + mr) * h
  {
    assert (ml + mr) * h == ml * (h - 1) + mr * (h - 1) + ml + mr;
  }

  // ---- whole trees -------------------------------------------------------------------------------

  /** The encoding of a list of ids with a mask. */
  function BuildAll(hash: PairHash, vTxid: seq<Hash>, vMatch: seq<bool>): Enc
    requires |vTxid| == |vMatch| > 0
  {
    Build(hash, Height(|vTxid|), 0, vTxid, vMatch)
  }

  /** Main result (size): N hashes, N <= total, N <= 1 + matched * height. The flag bits number 2N - 1
      plus one for every traversed node with a single child, so "at most 2N - 1 bits" is right exactly
      when there is none. */
  lemma BuildAllSize(hash: PairHash, vTxid: seq<Hash>, vMatch: seq<bool>)
    requires |vTxid| == |vMatch| > 0
    ensures var e := BuildAll(hash, vTxid, vMatch);
      && 1 <= |e.hashes| <= |vTxid| && |e.hashes| <= |e.bits|
      && |e.hashes| <= 1 + |MatchedIn(vTxid, vMatch, 0, |vTxid|)| * Height(|vTxid|)
      && (|e.bits| <= 2 * |e.hashes| - 1 <==> Singles(Height(|vTxid|), 0, |vTxid|, vMatch) == 0)
  {
    RootRange(|vTxid|);
    BuildSize(hash, Height(|vTxid|), 0, vTxid, vMatch);
  }

  /** Three ids matching only the last take four bits for two hashes. */
  lemma FlagBitsExceedTheComment(hash: PairHash, a: Hash, b: Hash, c: Hash)
    ensures var e := BuildAll(hash, [a, b, c], [false, false, true]);
      |e.hashes| == 2 && e.bits == [true, false, true, true] && |e.bits| > 2 * |e.hashes| - 1
  {
    var ids, m := [a, b, c], [false, false, true];
    hide Width, Lo, Hi, AnyMatch, CalcHash, Build, Height;
    ThreeLeaves(m);
    BuildStop(hash, 0, 2, ids, m);
    BuildStop(hash, 1, 0, ids, m);
    var l1, r1 := BuildNode(hash, 1, 1, ids, m);
    var l2, r2 := BuildNode(hash, 2, 0, ids, m);
  }

  /** Where the encoding does not descend it is one bit and one hash. */
  lemma BuildStop(hash: PairHash, height: nat, pos: nat, vTxid: seq<Hash>, vMatch: seq<bool>)
    requires |vTxid| == |vMatch| && pos < Width(|vTxid|, height)
    requires Lo(height, pos) <= Hi(|vTxid|, height, pos)
    requires height == 0 || !AnyMatch(vMatch, Lo(height, pos), Hi(|vTxid|, height, pos))
    ensures Build(hash, height, pos, vTxid, vMatch) ==
      Enc([AnyMatch(vMatch, Lo(height, pos), Hi(|vTxid|, height, pos))], [CalcHash(hash, height, pos, vTxid)])
  {
    hide Width, Lo, Hi, AnyMatch, CalcHash;
  }

  lemma ThreeLeaves(m: seq<bool>)
    requires m == [false, false, true]
    ensures Width(3, 1) == 2 && Width(3, 2) == 1 && Height(3) == 2
    ensures Lo(0, 2) == 2 && Hi(3, 0, 2) == 3 && AnyMatch(m, 2, 3)
    ensures Lo(1, 0) == 0 && Hi(3, 1, 0) == 2 && !AnyMatch(m, 0, 2)
    ensures Lo(1, 1) == 2 && Hi(3, 1, 1) == 3
    ensures Lo(2, 0) == 0 && Hi(3, 2, 0) == 3 && AnyMatch(m, 0, 3)
  {
    ThreeWidths();
    hide Width, Pow2;
    HeightUnique(3, 2);
    hide Height;
    assert m[2];
  }

  lemma ThreeWidths()
    ensures Pow2(0) == 1 && Pow2(1) == 2 && Pow2(2) == 4
    ensures Width(3, 0) == 3 && Width(3, 1) == 2 && Width(3, 2) == 1
  {
    assert Pow2(1) == 2 && Pow2(2) == 4;
  }

  /** Bits padded with zeros to whole bytes. */
  function Padded(bits: seq<bool>): (r: seq<bool>)
    ensures |r| == 8 * ((|bits| + 7) / 8)
    ensures forall i :: 0 <= i < |r| ==> r[i] == (i < |bits| && bits[i])
  {
    bits + seq(8 * ((|bits| + 7) / 8) - |bits|, _ => false)
  }

  /** Main result (round trip): for every non-empty list within the size limit and every mask, the
      encoding, padded to bytes, is accepted with the root and exactly the matched ids, in order. */
  lemma RoundTrip(hash: PairHash, vTxid: seq<Hash>, vMatch: seq<bool>)
    requires 0 < |vTxid| == |vMatch| <= MAX_BLOCK_SIZE / 60
    ensures var e := BuildAll(hash, vTxid, vMatch);
      Accepted(hash, |vTxid|, Padded(e.bits), e.hashes)
        == Some(Got(Root(hash, vTxid), |e.bits|, |e.hashes|, MatchedIn(vTxid, vMatch, 0, |vTxid|)))
  {
    hide Width, Lo, Hi, CalcHash, Build, Extract, MatchedIn, Singles, Height;
    var e := BuildAll(hash, vTxid, vMatch);
    var n := |vTxid|;
    BuildAllSize(hash, vTxid, vMatch);
    RootRange(n);
    var bits := Padded(e.bits);
    assert bits[0..|e.bits|] == e.bits;
    assert e.hashes[0..|e.hashes|] == e.hashes;
    ExtractBuild(hash, Height(n), 0, vTxid, vMatch, bits, e.hashes, 0, 0);
  }

  // ---- bits in bytes ------------------------------------------------------------------------------

  predicate Bit(b: bv8, i: nat)
    requires i < 8
  {
    b & ((1 as bv8) << i) != 0
  }

  lemma SetBit(b: bv8, i: nat, j: nat)
    requires i < 8 && j < 8
    ensures Bit(b | ((1 as bv8) << i), j) == (i == j || Bit(b, j))
  {
  }

  lemma ZeroBits(j: nat)
    requires j < 8
    ensures !Bit(0, j)
  {
  }

  /** Bits packed eight to a byte, least significant first. */
  ghost predicate Packs(vBytes: seq<bv8>, bits: seq<bool>) {
    && |vBytes| == (|bits| + 7) / 8
    && forall p :: 0 <= p < 8 * |vBytes| ==> Bit(vBytes[p / 8], p % 8) == (p < |bits| && bits[p])
  }

  /** The writing half of the serialization. */
  method PackBits(vBits: seq<bool>) returns (vBytes: seq<bv8>)
    ensures Packs(vBytes, vBits)
  {
    var bytes := new bv8[(|vBits| + 7) / 8](_ => 0);
    ZeroBytes();
    hide Bit;
    for p := 0 to |vBits|
      invariant forall q :: 0 <= q < 8 * bytes.Length ==> Bit(bytes[q / 8], q % 8) == (q < p && vBits[q])
    {
      var before := bytes[p / 8];
      bytes[p / 8] := bytes[p / 8] | (if vBits[p] then (1 as bv8) << (p % 8) else 0);
      forall q | 0 <= q < 8 * bytes.Length
        ensures Bit(bytes[q / 8], q % 8) == (q < p + 1 && vBits[q])
      {
        SamePlace(p, q);
        if q / 8 == p / 8 {
          SetBit(before, p % 8, q % 8);
        }
      }
    }
    vBytes := bytes[..];
  }

  lemma ZeroBytes()
    ensures forall j: nat :: j < 8 ==> !Bit(0, j)
  {
    forall j: nat | j < 8
      ensures !Bit(0, j)
    {
      ZeroBits(j);
    }
  }

  lemma SamePlace(p: nat, q: nat)
    ensures 0 <= p % 8 < 8 && 0 <= q % 8 < 8
    ensures p / 8 == q / 8 ==> (p % 8 == q % 8 <==> p == q)
  {
  }

  /** The reading half: every byte gives eight bits. */
  method UnpackBits(vBytes: seq<bv8>) returns (vBits: seq<bool>)
    ensures |vBits| == 8 * |vBytes| && forall p :: 0 <= p < |vBits| ==> vBits[p] == Bit(vBytes[p / 8], p % 8)
    ensures forall bits :: Packs(vBytes, bits) ==> vBits == Padded(bits)
  {
    vBits := [];
    while |vBits| < 8 * |vBytes|
      invariant |vBits| <= 8 * |vBytes|
      invariant forall p :: 0 <= p < |vBits| ==> vBits[p] == Bit(vBytes[p / 8], p % 8)
      decreases 8 * |vBytes| - |vBits|
    {
      vBits := vBits + [vBytes[|vBits| / 8] & ((1 as bv8) << (|vBits| % 8)) != 0];
    }
  }

  // ---- the object ---------------------------------------------------------------------------------

  class CPartialMerkleTree {
    const hash: PairHash
    var nTransactions: nat
    var vBits: seq<bool>
    var vHash: seq<Hash>
    var fBad: bool

    /** Build from a list of ids and a mask. */
    constructor (hash: PairHash, vTxid: seq<Hash>, vMatch: seq<bool>)
      requires |vTxid| == |vMatch| > 0
      ensures this.hash == hash && nTransactions == |vTxid| && !fBad
      ensures Enc(vBits, vHash) == BuildAll(hash, vTxid, vMatch)
    {
      this.hash, nTransactions, fBad := hash, |vTxid|, false;
      vBits, vHash := [], [];
      new;
      var nHeight := FindHeight(nTransactions);
      TraverseAndBuild(nHeight, 0, vTxid, vMatch);
    }

    /** Read from a serialized form. */
    constructor FromWire(hash: PairHash, nTransactions: nat, vHash: seq<Hash>, vBytes: seq<bv8>)
      ensures this.hash == hash && this.nTransactions == nTransactions && this.vHash == vHash && !fBad
      ensures forall bits :: Packs(vBytes, bits) ==> vBits == Padded(bits)
    {
      this.hash, this.nTransactions, this.vHash, this.fBad := hash, nTransactions, vHash, false;
      vBits := [];
      new;
      vBits := UnpackBits(vBytes);
    }

    method TraverseAndBuild(height: nat, pos: nat, vTxid: seq<Hash>, vMatch: seq<bool>)
      requires nTransactions == |vTxid| == |vMatch| && pos < Width(nTransactions, height)
      modifies this`vBits, this`vHash
      ensures vBits == old(vBits) + Build(hash, height, pos, vTxid, vMatch).bits
      ensures vHash == old(vHash) + Build(hash, height, pos, vTxid, vMatch).hashes
      decreases height
    {
      hide CalcHash, Width, AnyMatch, Lo, Hi;
      NodeRange(nTransactions, height, pos);
      var fParentOfMatch := ParentOfMatch(height, pos, vMatch);
      vBits := vBits + [fParentOfMatch];
      if height == 0 || !fParentOfMatch {
        vHash := vHash + [CalcHash(hash, height, pos, vTxid)];
      } else {
        ghost var l, r := BuildNode(hash, height, pos, vTxid, vMatch);
        hide Build;
        TraverseAndBuild(height - 1, pos * 2, vTxid, vMatch);
        if pos * 2 + 1 < Width(nTransactions, height - 1) {
          TraverseAndBuild(height - 1, pos * 2 + 1, vTxid, vMatch);
        }
        Concat3(old(vBits), [true], l.bits, r.bits);
        Concat3(old(vHash), [], l.hashes, r.hashes);
      }
    }

    /** Does the node cover a matched leaf? */
    method ParentOfMatch(height: nat, pos: nat, vMatch: seq<bool>) returns (fParentOfMatch: bool)
      requires nTransactions == |vMatch| && pos < Width(nTransactions, height)
      ensures Lo(height, pos) <= Hi(nTransactions, height, pos) <= nTransactions
      ensures fParentOfMatch == AnyMatch(vMatch, Lo(height, pos), Hi(nTransactions, height, pos))
    {
      hide Width;
      NodeRange(nTransactions, height, pos);
      fParentOfMatch := false;
      var p := pos * Pow2(height);
      while p < (pos + 1) * Pow2(height) && p < nTransactions
        invariant Lo(height, pos) <= p <= Hi(nTransactions, height, pos)
        invariant fParentOfMatch <==> AnyMatch(vMatch, Lo(height, pos), p)
        decreases nTransactions - p
      {
        fParentOfMatch := fParentOfMatch || vMatch[p];
        p := p + 1;
      }
    }

    /** Consume bits and hashes; sets fBad on overflow, and otherwise returns what Extract says. */
    method TraverseAndExtract(height: nat, pos: nat, nBitsUsed: nat, nHashUsed: nat, vMatch: seq<Hash>)
      returns (h: Hash, nBits: nat, nHashes: nat, matched: seq<Hash>)
      modifies this`fBad
      ensures match Extract(hash, nTransactions, height, pos, vBits, vHash, nBitsUsed, nHashUsed)
        case None => fBad
        case Some(g) =>
          && fBad == old(fBad) && h == g.hash && nBits == g.nBits && nHashes == g.nHashes
          && matched == vMatch + Ids(g.matched)
      decreases height, 1
    {
      hide Width;
      nBits, nHashes, matched := nBitsUsed, nHashUsed, vMatch;
      if nBits >= |vBits| {
        fBad := true;
        return 0, nBits, nHashes, matched;
      }
      var fParentOfMatch := vBits[nBits];
      nBits := nBits + 1;
      if height == 0 || !fParentOfMatch {
        if nHashes >= |vHash| {
          fBad := true;
          return 0, nBits, nHashes, matched;
        }
        h := vHash[nHashes];
        nHashes := nHashes + 1;
        if height == 0 && fParentOfMatch {
          matched := matched + [h];
        }
      } else {
        h, nBits, nHashes, matched := ExtractChildren(height, pos, nBits, nHashes, matched);
      }
    }

    method ExtractChildren(height: nat, pos: nat, nBitsUsed: nat, nHashUsed: nat, vMatch: seq<Hash>)
      returns (h: Hash, nBits: nat, nHashes: nat, matched: seq<Hash>)
      requires height > 0 && 0 < nBitsUsed <= |vBits| && vBits[nBitsUsed - 1]
      modifies this`fBad
      ensures match Extract(hash, nTransactions, height, pos, vBits, vHash, nBitsUsed - 1, nHashUsed)
        case None => fBad
        case Some(g) =>
          && fBad == old(fBad) && h == g.hash && nBits == g.nBits && nHashes == g.nHashes
          && matched == vMatch + Ids(g.matched)
      decreases height, 0
    {
      hide Width, Extract, Ids;
      ExtractInner(hash, nTransactions, height, pos, vBits, vHash, nBitsUsed - 1, nHashUsed);
      ghost var l := Extract(hash, nTransactions, height - 1, pos * 2, vBits, vHash, nBitsUsed, nHashUsed);
      var left, right;
      left, nBits, nHashes, matched := TraverseAndExtract(height - 1, pos * 2, nBitsUsed, nHashUsed, vMatch);
      if pos * 2 + 1 < Width(nTransactions, height - 1) {
        right, nBits, nHashes, matched := TraverseAndExtract(height - 1, pos * 2 + 1, nBits, nHashes, matched);
        if l.Some? {
          ghost var r :=
            Extract(hash, nTransactions, height - 1, pos * 2 + 1, vBits, vHash, l.value.nBits, l.value.nHashes);
          if r.Some? {
            IdsJoin(l.value.matched, r.value.matched);
            assert vMatch + Ids(l.value.matched) + Ids(r.value.matched)
              == vMatch + (Ids(l.value.matched) + Ids(r.value.matched));
          }
        }
      } else {
        right := left;
      }
      h := hash(left, right);
    }

    /** The root and the matched ids, or 0: every early return matches a `None` of Accepted. */
    method ExtractMatches() returns (root: Hash, vMatch: seq<Hash>)
      modifies this`fBad
      ensures match Accepted(hash, nTransactions, vBits, vHash)
        case None => root == 0
        case Some(g) => !old(fBad) ==> root == g.hash && vMatch == Ids(g.matched)
    {
      vMatch := [];
      if nTransactions == 0 {
        return 0, vMatch;
      }
      if nTransactions > MAX_BLOCK_SIZE / 60 {
        return 0, vMatch;
      }
      if |vHash| > nTransactions {
        return 0, vMatch;
      }
      if |vBits| < |vHash| {
        return 0, vMatch;
      }
      hide Extract, Height, Width;
      var nHeight := FindHeight(nTransactions);
      var hashMerkleRoot, nBitsUsed, nHashUsed;
      hashMerkleRoot, nBitsUsed, nHashUsed, vMatch := TraverseAndExtract(nHeight, 0, 0, 0, vMatch);
      if fBad {
        return 0, vMatch;
      }
      if (nBitsUsed + 7) / 8 != (|vBits| + 7) / 8 {
        return 0, vMatch;
      }
      if nHashUsed != |vHash| {
        return 0, vMatch;
      }
      return hashMerkleRoot, vMatch;
    }
  }

  lemma Concat3<T>(s: seq<T>, a: seq<T>, b: seq<T>, c: seq<T>)
    ensures s + a + b + c == s + (a + b + c)
    ensures s + b + c == s + ([] + b + c)
    ensures c == [] ==> s + a + b == s + (a + b + c)
    ensures c == [] ==> s + b == s + ([] + b + c)
  {
    assert c == [] ==> a + b + c == a + b;
    assert [] + b + c == b + c;
  }

  function Ids(matched: seq<(nat, Hash)>): (r: seq<Hash>)
    ensures |r| == |matched| && forall i :: 0 <= i < |r| ==> r[i] == matched[i].1
  {
    seq(|matched|, i requires 0 <= i < |matched| => matched[i].1)
  }

  lemma IdsJoin(a: seq<(nat, Hash)>, b: seq<(nat, Hash)>)
    ensures Ids(a + b) == Ids(a) + Ids(b)
  {
  }

  /** A block's list through the constructor, the wire and ExtractMatches comes back. */
  method SendAndExtract(hash: PairHash, vTxid: seq<Hash>, vMatch: seq<bool>) returns (root: Hash, got: seq<Hash>)
    requires 0 < |vTxid| == |vMatch| <= MAX_BLOCK_SIZE / 60
    ensures root == Root(hash, vTxid) && got == Ids(MatchedIn(vTxid, vMatch, 0, |vTxid|))
  {
    var sent := new CPartialMerkleTree(hash, vTxid, vMatch);
    var vBytes := PackBits(sent.vBits);
    var received := new CPartialMerkleTree.FromWire(hash, sent.nTransactions, sent.vHash, vBytes);
    RoundTrip(hash, vTxid, vMatch);
    root, got := received.ExtractMatches();
  }
}
