/** Merkle trees over transaction ids: the flat tree of a block, branches, and the node hashes shared
    with partial trees (src/main.h, src/main.cpp). `hash` stands for the double SHA-256 of a pair. */
module Merkle {
  import opened Quotients
  import opened CoinTypes

  type PairHash = (Hash, Hash) -> Hash

  ghost predicate Injective(hash: PairHash) {
    forall a, b, c, d :: hash(a, b) == hash(c, d) ==> a == c && b == d
  }

  // ---- widths -------------------------------------------------------------------

  /** CalcTreeWidth: the number of nodes at a height. */
  function Width(n: nat, height: nat): (w: nat)
    ensures height == 0 ==> w == n
  {
    (n + Pow2(height) - 1) / Pow2(height)
  }


  /** Width is the least number of blocks of 2^height that cover n. */
  lemma WidthIs(n: nat, height: nat, w: nat)
    requires n <= w * Pow2(height) < n + Pow2(height)
    ensures Width(n, height) == w
  {
    DivIs(n + Pow2(height) - 1, Pow2(height), w);
  }

  lemma WidthBounds(n: nat, height: nat)
    ensures n <= Width(n, height) * Pow2(height) < n + Pow2(height)
  {
    var d := Pow2(height);
    var a := n + d - 1;
    assert a == d * (a / d) + a % d;
  }

  /** Each level is half as wide as the one below, rounded up. */
  lemma WidthHalves(n: nat, height: nat)
    ensures Width(n, height + 1) == (Width(n, height) + 1) / 2
  {
    var w := Width(n, height);
    var d := Pow2(height);
    WidthBounds(n, height);
    var q := (w + 1) / 2;
    TwiceTimes(q, d, w);
    WidthIs(n, height + 1, q);
  }

  lemma TwiceTimes(q: nat, d: nat, w: nat)
    ensures 2 * q == w ==> q * (2 * d) == w * d
    ensures 2 * q == w + 1 ==> q * (2 * d) == w * d + d
  {
    assert q * (2 * d) == (2 * q) * d;
    assert (w + 1) * d == w * d + d;
  }

  /** The children of a node are on the level below; the left one always exists. */
  lemma ChildInLevel(n: nat, height: nat, pos: nat)
    requires height > 0 && pos < Width(n, height)
    ensures 2 * pos < Width(n, height - 1)
    ensures 2 * pos + 1 >= Width(n, height - 1) ==> 2 * pos + 1 == Width(n, height - 1) && pos == Width(n, height) - 1
  {
    WidthHalves(n, height - 1);
  }

  // ---- node hashes ------------------------------------------------------------------

  /** The hash of a node; at height 0 the txids themselves. A missing right child copies the left. */
  function CalcHash(hash: PairHash, height: nat, pos: nat, vTxid: seq<Hash>): Hash
    requires pos < Width(|vTxid|, height)
  {
    if height == 0 then vTxid[pos]
    else
      ChildInLevel(|vTxid|, height, pos);
      var left := CalcHash(hash, height - 1, pos * 2, vTxid);
      var right := if pos * 2 + 1 < Width(|vTxid|, height - 1) then CalcHash(hash, height - 1, pos * 2 + 1, vTxid)
                   else left;
      hash(left, right)
  }

  /** The height at which one node is left. */
  function Height(n: nat): (h: nat)
    ensures n > 0 ==> Width(n, h) == 1
    ensures forall k :: 0 <= k < h ==> Width(n, k) > 1
  {
    HeightFrom(n, 0)
  }

  function HeightFrom(n: nat, h: nat): (r: nat)
    requires forall k :: 0 <= k < h ==> Width(n, k) > 1
    ensures n > 0 ==> Width(n, r) == 1
    ensures forall k :: 0 <= k < r ==> Width(n, k) > 1
    decreases Width(n, h)
  {
    WidthHalves(n, h);
    WidthPositive(n, h);
    if Width(n, h) > 1 then HeightFrom(n, h + 1) else h
  }

  lemma WidthPositive(n: nat, h: nat)
    ensures n > 0 <==> Width(n, h) > 0
  {
    WidthBounds(n, h);
    var w, d := Width(n, h), Pow2(h);
    hide Width;
    if w == 0 {
      assert w * d == 0;
    } else {
      MulMonotone(1, w, d);
    }
  }

  /** The loop that finds the height. */
  method FindHeight(n: nat) returns (nHeight: nat)
    ensures nHeight == Height(n)
  {
    nHeight := 0;
    while Width(n, nHeight) > 1
      invariant forall k :: 0 <= k < nHeight ==> Width(n, k) > 1
      invariant HeightFrom(n, nHeight) == Height(n)
      decreases Width(n, nHeight)
    {
      WidthHalves(n, nHeight);
      nHeight := nHeight + 1;
    }
  }

  ghost function Root(hash: PairHash, vTxid: seq<Hash>): Hash {
    if vTxid == [] then 0 else CalcHash(hash, Height(|vTxid|), 0, vTxid)
  }

  // ---- the flat tree ------------------------------------------------------------------

  function Level(hash: PairHash, vTxid: seq<Hash>, h: nat): (r: seq<Hash>)
    ensures |r| == Width(|vTxid|, h)
    ensures forall p :: 0 <= p < |r| ==> r[p] == CalcHash(hash, h, p, vTxid)
  {
    seq(Width(|vTxid|, h), p requires 0 <= p < Width(|vTxid|, h) => CalcHash(hash, h, p, vTxid))
  }

  /** The first `h` levels, one after the other. */
  function FlatTree(hash: PairHash, vTxid: seq<Hash>, h: nat): seq<Hash> {
    if h == 0 then [] else FlatTree(hash, vTxid, h - 1) + Level(hash, vTxid, h - 1)
  }

  /** Node `p` of level `h` sits `p` places after the start of its level. */
  lemma {:induction false} FlatTreeAt(hash: PairHash, vTxid: seq<Hash>, height: nat, h: nat, p: nat)
    requires h < height && p < Width(|vTxid|, h)
    ensures |FlatTree(hash, vTxid, h)| + p < |FlatTree(hash, vTxid, height)|
    ensures FlatTree(hash, vTxid, height)[|FlatTree(hash, vTxid, h)| + p] == CalcHash(hash, h, p, vTxid)
  {
    hide CalcHash, Width, Level;
    if h < height - 1 {
      FlatTreeAt(hash, vTxid, height - 1, h, p);
    }
  }

  /** BuildMerkleTree: the whole tree in one vector, level after level, root last. */
  method BuildMerkleTree(hash: PairHash, vTxid: seq<Hash>) returns (root: Hash, vMerkleTree: seq<Hash>)
    ensures root == Root(hash, vTxid)
    ensures vMerkleTree == FlatTree(hash, vTxid, Height(|vTxid|) + 1)
  {
    hide CalcHash, Width, Height;
    vMerkleTree := vTxid;
    var j := 0;
    var nSize := |vTxid|;
    ghost var h := 0;
    LevelZero(hash, vTxid);
    while nSize > 1
      invariant nSize == Width(|vTxid|, h) && j == |FlatTree(hash, vTxid, h)|
      invariant vMerkleTree == FlatTree(hash, vTxid, h + 1)
      invariant forall k :: 0 <= k < h ==> Width(|vTxid|, k) > 1
      decreases nSize
    {
      WidthHalves(|vTxid|, h);
      var level := BuildLevel(hash, vTxid, vMerkleTree, j, nSize, h);
      vMerkleTree := vMerkleTree + level;
      j := j + nSize;
      nSize := (nSize + 1) / 2;
      h := h + 1;
    }
    HeightUnique(|vTxid|, h);
    WidthPositive(|vTxid|, h);
    root := if |vMerkleTree| == 0 then 0 else vMerkleTree[|vMerkleTree| - 1];
    if vTxid != [] {
      FlatTreeAt(hash, vTxid, h + 1, h, 0);
    } else {
      EmptyTree(hash, h + 1);
    }
  }

  lemma LevelZero(hash: PairHash, vTxid: seq<Hash>)
    ensures FlatTree(hash, vTxid, 0) == [] && FlatTree(hash, vTxid, 1) == vTxid
  {
  }

  lemma {:induction false} EmptyTree(hash: PairHash, h: nat)
    ensures FlatTree(hash, [], h) == []
  {
    if h > 0 {
      EmptyTree(hash, h - 1);
      WidthPositive(0, h - 1);
    }
  }

  lemma HeightUnique(n: nat, h: nat)
    requires Width(n, h) <= 1 && forall k :: 0 <= k < h ==> Width(n, k) > 1
    ensures h == Height(n)
  {
    hide Width, Height;
    WidthPositive(n, Height(n));
  }

  /** One round of the outer loop: the nodes of the next level from those of the last one. */
  method BuildLevel(hash: PairHash, ghost vTxid: seq<Hash>, tree: seq<Hash>, j: nat, nSize: nat, ghost h: nat)
    returns (level: seq<Hash>)
    requires tree == FlatTree(hash, vTxid, h + 1) && j == |FlatTree(hash, vTxid, h)|
    requires nSize == Width(|vTxid|, h) > 1
    ensures level == Level(hash, vTxid, h + 1)
  {
    hide CalcHash, Width, FlatTree, Level;
    WidthHalves(|vTxid|, h);
    level := [];
    var i := 0;
    while i < nSize
      invariant 0 <= i == 2 * |level| <= nSize + 1
      invariant forall p :: 0 <= p < |level| ==> level[p] == CalcHash(hash, h + 1, p, vTxid)
      decreases nSize - i
    {
      var i2 := if i + 1 < nSize - 1 then i + 1 else nSize - 1;
      FlatTreeAt(hash, vTxid, h + 1, h, i);
      FlatTreeAt(hash, vTxid, h + 1, h, i2);
      Children(hash, vTxid, h, |level|);
      level := level + [hash(tree[j + i], tree[j + i2])];
      i := i + 2;
    }
    assert |level| == Width(|vTxid|, h + 1);
  }

  /** A node is the hash of its two children, the last child counting twice when it is alone. */
  lemma Children(hash: PairHash, vTxid: seq<Hash>, h: nat, p: nat)
    requires 2 * p < Width(|vTxid|, h) && p < Width(|vTxid|, h + 1)
    ensures var n := Width(|vTxid|, h);
      CalcHash(hash, h + 1, p, vTxid)
        == hash(CalcHash(hash, h, 2 * p, vTxid), CalcHash(hash, h, if 2 * p + 1 < n - 1 then 2 * p + 1 else n - 1,
          vTxid))
  {
    hide Width;
    ChildInLevel(|vTxid|, h + 1, p);
  }

  // ---- branches -----------------------------------------------------------------------------

  function Flip(i: nat): nat {
    if i % 2 == 0 then i + 1 else i - 1
  }

  /** The sibling hashes on the way from leaf `i` of a level up to the root. */
  function Branch(hash: PairHash, vTxid: seq<Hash>, h: nat, i: nat): seq<Hash>
    requires vTxid != [] && h <= Height(|vTxid|) && i < Width(|vTxid|, h)
    decreases Height(|vTxid|) - h
  {
    if h == Height(|vTxid|) then []
    else
      var n := Width(|vTxid|, h);
      WidthHalves(|vTxid|, h);
      [CalcHash(hash, h, if Flip(i) < n - 1 then Flip(i) else n - 1, vTxid)] + Branch(hash, vTxid, h + 1, i / 2)
  }

  /** GetMerkleBranch reads the branch off the flat tree. */
  method GetMerkleBranch(hash: PairHash, ghost vTxid: seq<Hash>, nTx: nat, vMerkleTree: seq<Hash>, nIndex: nat)
    returns (vMerkleBranch: seq<Hash>)
    requires nTx == |vTxid| > 0 && vMerkleTree == FlatTree(hash, vTxid, Height(|vTxid|) + 1) && nIndex < nTx
    ensures vMerkleBranch == Branch(hash, vTxid, 0, nIndex)
  {
    hide CalcHash, Width, Height;
    vMerkleBranch := [];
    var j, nSize, idx: nat := 0, nTx, nIndex;
    ghost var h := 0;
    while nSize > 1
      invariant h <= Height(nTx) && nSize == Width(nTx, h) && j == |FlatTree(hash, vTxid, h)| && idx < nSize
      invariant vMerkleBranch + Branch(hash, vTxid, h, idx) == Branch(hash, vTxid, 0, nIndex)
      decreases nSize
    {
      WidthHalves(nTx, h);
      var i := if Flip(idx) < nSize - 1 then Flip(idx) else nSize - 1;
      FlatTreeAt(hash, vTxid, Height(nTx) + 1, h, i);
      vMerkleBranch := vMerkleBranch + [vMerkleTree[j + i]];
      assert h < Height(nTx);
      assert Branch(hash, vTxid, h, idx) == [vMerkleTree[j + i]] + Branch(hash, vTxid, h + 1, idx / 2);
      idx := idx / 2;
      j := j + nSize;
      nSize := (nSize + 1) / 2;
      h := h + 1;
    }
  }

  /** CheckMerkleBranch's fold: the hash a branch leads to. */
  function Fold(hash: PairHash, x: Hash, branch: seq<Hash>, nIndex: nat): Hash
    decreases |branch|
  {
    if branch == [] then x
    else Fold(hash, if nIndex % 2 == 1 then hash(branch[0], x) else hash(x, branch[0]), branch[1..], nIndex / 2)
  }

  method CheckMerkleBranch(hash: PairHash, x: Hash, vMerkleBranch: seq<Hash>, nIndex: int) returns (r: Hash)
    requires nIndex >= -1
    ensures r == if nIndex == -1 then 0 else Fold(hash, x, vMerkleBranch, nIndex)
  {
    if nIndex == -1 {
      return 0;
    }
    r := x;
    var idx := nIndex;
    for k := 0 to |vMerkleBranch|
      invariant idx >= 0
      invariant Fold(hash, r, vMerkleBranch[k..], idx) == Fold(hash, x, vMerkleBranch, nIndex)
    {
      var otherside := vMerkleBranch[k];
      assert vMerkleBranch[k..][1..] == vMerkleBranch[k + 1..];
      if idx % 2 == 1 {
        r := hash(otherside, r);
      } else {
        r := hash(r, otherside);
      }
      idx := idx / 2;
    }
  }

  /** The branch of any node leads to the root, odd widths included. */
  lemma {:induction false} BranchLeadsToRoot(hash: PairHash, vTxid: seq<Hash>, h: nat, i: nat)
    requires vTxid != [] && h <= Height(|vTxid|) && i < Width(|vTxid|, h)
    ensures Fold(hash, CalcHash(hash, h, i, vTxid), Branch(hash, vTxid, h, i), i) == Root(hash, vTxid)
    ensures |Branch(hash, vTxid, h, i)| == Height(|vTxid|) - h
    decreases Height(|vTxid|) - h
  {
    hide Width, CalcHash, Height;
    if h < Height(|vTxid|) {
      WidthHalves(|vTxid|, h);
      BranchLeadsToRoot(hash, vTxid, h + 1, i / 2);
      ParentHash(hash, vTxid, h, i);
      var b := Branch(hash, vTxid, h, i);
      assert b[1..] == Branch(hash, vTxid, h + 1, i / 2);
    }
  }

  /** A node and its sibling, in index order, hash to their parent. */
  lemma ParentHash(hash: PairHash, vTxid: seq<Hash>, h: nat, i: nat)
    requires i < Width(|vTxid|, h) && Width(|vTxid|, h) > 1 && i / 2 < Width(|vTxid|, h + 1)
    ensures var n := Width(|vTxid|, h);
      var o := CalcHash(hash, h, if Flip(i) < n - 1 then Flip(i) else n - 1, vTxid);
      CalcHash(hash, h + 1, i / 2, vTxid)
        == if i % 2 == 1 then hash(o, CalcHash(hash, h, i, vTxid)) else hash(CalcHash(hash, h, i, vTxid), o)
  {
    hide Width, CalcHash;
    Children(hash, vTxid, h, i / 2);
  }

  /** Main result: every branch GetMerkleBranch returns checks against the root, and no branch of that
      length can make another id check at the same index. */
  lemma BranchChecksExactlyItsLeaf(hash: PairHash, vTxid: seq<Hash>, i: nat, x: Hash, branch: seq<Hash>)
    requires Injective(hash) && i < |vTxid| && |branch| == Height(|vTxid|)
    ensures Fold(hash, vTxid[i], Branch(hash, vTxid, 0, i), i) == Root(hash, vTxid)
    ensures Fold(hash, x, branch, i) == Root(hash, vTxid) ==> x == vTxid[i]
  {
    BranchLeadsToRoot(hash, vTxid, 0, i);
    if Fold(hash, x, branch, i) == Root(hash, vTxid) {
      FoldInjective(hash, x, branch, vTxid[i], Branch(hash, vTxid, 0, i), i);
    }
  }

  lemma {:induction false} FoldInjective(hash: PairHash, x: Hash, b: seq<Hash>, y: Hash, c: seq<Hash>, i: nat)
    requires Injective(hash) && |b| == |c| && Fold(hash, x, b, i) == Fold(hash, y, c, i)
    ensures x == y
    decreases |b|
  {
    if b != [] {
      var x1 := if i % 2 == 1 then hash(b[0], x) else hash(x, b[0]);
      var y1 := if i % 2 == 1 then hash(c[0], y) else hash(y, c[0]);
      FoldInjective(hash, x1, b[1..], y1, c[1..], i / 2);
    }
  }
}
