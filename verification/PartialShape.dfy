/** What a partial tree is, as a tree: the encodings CPartialMerkleTree accepts (src/main.cpp) are exactly the listings
    of the trees of its shape, with nothing left over. */
module PartialShape {
  import opened Basics
  import opened CoinTypes
  import opened Merkle
  import opened PartialTree

  /** A Merkle tree cut off below some of its nodes. A node without a right child is paired with itself. */
  datatype Pruned =
    | Leaf(matched: bool, id: Hash)
    | Cut(id: Hash)
    | Pair(left: Pruned, right: Pruned)
    | Single(child: Pruned)

  /** The tree can stand at that place of the tree over `n` leaves. */
  predicate Shaped(t: Pruned, n: nat, height: nat, pos: nat) {
    match t
    case Leaf(_, _) => height == 0
    case Cut(_) => height > 0
    case Pair(l, r) =>
      && height > 0 && pos * 2 + 1 < Width(n, height - 1)
      && Shaped(l, n, height - 1, pos * 2) && Shaped(r, n, height - 1, pos * 2 + 1)
    case Single(c) =>
      height > 0 && pos * 2 + 1 >= Width(n, height - 1) && Shaped(c, n, height - 1, pos * 2)
  }

  /** One flag a node, from the root down and left to right: whether it is matched or goes on. */
  function Flags(t: Pruned): seq<bool> {
    match t
    case Leaf(matched, _) => [matched]
    case Cut(_) => [false]
    case Pair(l, r) => [true] + Flags(l) + Flags(r)
    case Single(c) => [true] + Flags(c)
  }

  /** The hashes at its ends. */
  function Ends(t: Pruned): seq<Hash> {
    match t
    case Leaf(_, id) => [id]
    case Cut(id) => [id]
    case Pair(l, r) => Ends(l) + Ends(r)
    case Single(c) => Ends(c)
  }

  function Top(t: Pruned, hash: PairHash): Hash {
    match t
    case Leaf(_, id) => id
    case Cut(id) => id
    case Pair(l, r) => hash(Top(l, hash), Top(r, hash))
    case Single(c) => hash(Top(c, hash), Top(c, hash))
  }

  /** The matched leaves with their places. */
  function Found(t: Pruned, pos: nat): seq<(nat, Hash)> {
    match t
    case Leaf(matched, id) => if matched then [(pos, id)] else []
    case Cut(_) => []
    case Pair(l, r) => Found(l, pos * 2) + Found(r, pos * 2 + 1)
    case Single(c) => Found(c, pos * 2)
  }

  // ---- listings in place ---------------------------------------------------------------------------

  /** `x` stands in `s` at `i`. */
  predicate At<T(==)>(s: seq<T>, i: nat, x: seq<T>) {
    i + |x| <= |s| && s[i..i + |x|] == x
  }

  lemma AtBoth<T>(s: seq<T>, i: nat, x: seq<T>, y: seq<T>)
    ensures At(s, i, x + y) <==> At(s, i, x) && At(s, i + |x|, y)
  {
    if At(s, i, x + y) {
      assert s[i..i + |x|] == (x + y)[..|x|] && s[i + |x|..i + |x + y|] == (x + y)[|x|..];
    }
    if At(s, i, x) && At(s, i + |x|, y) {
      assert s[i..i + |x + y|] == s[i..i + |x|] + s[i + |x|..i + |x| + |y|];
    }
  }

  lemma AtOne<T>(s: seq<T>, i: nat, x: T)
    ensures At(s, i, [x]) <==> i < |s| && s[i] == x
  {
    if i < |s| {
      assert s[i..i + 1] == [s[i]];
    }
  }

  lemma AtThree<T>(s: seq<T>, i: nat, x: T, y: seq<T>, z: seq<T>)
    ensures At(s, i, [x] + y + z) <==> i < |s| && s[i] == x && At(s, i + 1, y) && At(s, i + 1 + |y|, z)
  {
    hide At;
    AtOne(s, i, x);
    AtBoth(s, i, [x] + y, z);
    AtBoth(s, i, [x], y);
  }

  lemma AtTwo<T>(s: seq<T>, i: nat, x: T, y: seq<T>)
    ensures At(s, i, [x] + y) <==> i < |s| && s[i] == x && At(s, i + 1, y)
  {
    hide At;
    AtOne(s, i, x);
    AtBoth(s, i, [x], y);
  }

  // ---- reading and listing ---------------------------------------------------------------------------

  function Read(t: Pruned, hash: PairHash, pos: nat, b: nat, h: nat): Got {
    Got(Top(t, hash), b + |Flags(t)|, h + |Ends(t)|, Found(t, pos))
  }

  ghost predicate ListedAt(t: Pruned, bits: seq<bool>, hashes: seq<Hash>, b: nat, h: nat) {
    At(bits, b, Flags(t)) && At(hashes, h, Ends(t))
  }

  lemma ListedPair(l: Pruned, r: Pruned, bits: seq<bool>, hashes: seq<Hash>, b: nat, h: nat)
    ensures ListedAt(Pair(l, r), bits, hashes, b, h) <==>
      && b < |bits| && bits[b] && ListedAt(l, bits, hashes, b + 1, h)
      && ListedAt(r, bits, hashes, b + 1 + |Flags(l)|, h + |Ends(l)|)
  {
    AtThree(bits, b, true, Flags(l), Flags(r));
    AtBoth(hashes, h, Ends(l), Ends(r));
    hide At;
  }

  lemma ListedSingle(c: Pruned, bits: seq<bool>, hashes: seq<Hash>, b: nat, h: nat)
    ensures ListedAt(Single(c), bits, hashes, b, h) <==> b < |bits| && bits[b] && ListedAt(c, bits, hashes, b + 1, h)
  {
    AtTwo(bits, b, true, Flags(c));
    hide At;
  }

  lemma ListedEnd(t: Pruned, bits: seq<bool>, hashes: seq<Hash>, b: nat, h: nat)
    requires t.Leaf? || t.Cut?
    ensures ListedAt(t, bits, hashes, b, h) <==>
      b < |bits| && h < |hashes| && bits[b] == (t.Leaf? && t.matched) && hashes[h] == t.id
  {
    AtOne(bits, b, t.Leaf? && t.matched);
    AtOne(hashes, h, t.id);
    hide At;
  }

  lemma PairRead(hash: PairHash, n: nat, height: nat, pos: nat, l: Pruned, r: Pruned, bits: seq<bool>,
                 hashes: seq<Hash>, b: nat, h: nat)
    requires height > 0 && pos * 2 + 1 < Width(n, height - 1) && b < |bits| && bits[b]
    requires Extract(hash, n, height - 1, pos * 2, bits, hashes, b + 1, h) == Some(Read(l, hash, pos * 2, b + 1, h))
    ensures
      var right := Extract(hash, n, height - 1, pos * 2 + 1, bits, hashes, b + 1 + |Flags(l)|, h + |Ends(l)|);
      && (Extract(hash, n, height, pos, bits, hashes, b, h).Some? <==> right.Some?)
      && (right == Some(Read(r, hash, pos * 2 + 1, b + 1 + |Flags(l)|, h + |Ends(l)|)) ==>
            Extract(hash, n, height, pos, bits, hashes, b, h) == Some(Read(Pair(l, r), hash, pos, b, h)))
  {
    hide Width;
  }

  lemma SingleRead(hash: PairHash, n: nat, height: nat, pos: nat, c: Pruned, bits: seq<bool>, hashes: seq<Hash>,
                   b: nat, h: nat)
    requires height > 0 && pos * 2 + 1 >= Width(n, height - 1) && b < |bits| && bits[b]
    requires Extract(hash, n, height - 1, pos * 2, bits, hashes, b + 1, h) == Some(Read(c, hash, pos * 2, b + 1, h))
    ensures Extract(hash, n, height, pos, bits, hashes, b, h) == Some(Read(Single(c), hash, pos, b, h))
  {
    hide Width;
  }

  lemma EndRead(hash: PairHash, n: nat, height: nat, pos: nat, bits: seq<bool>, hashes: seq<Hash>, b: nat, h: nat)
    requires b < |bits| && (height == 0 || !bits[b])
    ensures Extract(hash, n, height, pos, bits, hashes, b, h) ==
      if h >= |hashes| then None
      else Some(Read(if height == 0 then Leaf(bits[b], hashes[h]) else Cut(hashes[h]), hash, pos, b, h))
  {
  }

  lemma GoesOn(hash: PairHash, n: nat, height: nat, pos: nat, bits: seq<bool>, hashes: seq<Hash>, b: nat, h: nat)
    requires Extract(hash, n, height, pos, bits, hashes, b, h).Some?
    ensures b < |bits|
    ensures height > 0 && bits[b] ==> Extract(hash, n, height - 1, pos * 2, bits, hashes, b + 1, h).Some?
  {
    hide Width;
  }

  /** Reading a listing, wherever it stands, gives its tree. */
  lemma {:induction false} Listed(hash: PairHash, n: nat, height: nat, pos: nat, t: Pruned, bits: seq<bool>,
                                  hashes: seq<Hash>, b: nat, h: nat)
    requires Shaped(t, n, height, pos) && ListedAt(t, bits, hashes, b, h)
    ensures Extract(hash, n, height, pos, bits, hashes, b, h) == Some(Read(t, hash, pos, b, h))
    decreases t
  {
    hide ListedAt, Width, Extract, Read, Flags, Ends;
    match t {
      case Pair(l, r) =>
        ListedPair(l, r, bits, hashes, b, h);
        Listed(hash, n, height - 1, pos * 2, l, bits, hashes, b + 1, h);
        Listed(hash, n, height - 1, pos * 2 + 1, r, bits, hashes, b + 1 + |Flags(l)|, h + |Ends(l)|);
        PairRead(hash, n, height, pos, l, r, bits, hashes, b, h);
      case Single(c) =>
        ListedSingle(c, bits, hashes, b, h);
        Listed(hash, n, height - 1, pos * 2, c, bits, hashes, b + 1, h);
        SingleRead(hash, n, height, pos, c, bits, hashes, b, h);
      case _ =>
        ListedEnd(t, bits, hashes, b, h);
        EndRead(hash, n, height, pos, bits, hashes, b, h);
    }
  }

  /** What is read is the listing of a tree. */
  lemma {:induction false} ReadIsListed(hash: PairHash, n: nat, height: nat, pos: nat, bits: seq<bool>,
                                        hashes: seq<Hash>, b: nat, h: nat) returns (t: Pruned)
    requires Extract(hash, n, height, pos, bits, hashes, b, h).Some?
    ensures Shaped(t, n, height, pos) && ListedAt(t, bits, hashes, b, h)
    ensures Extract(hash, n, height, pos, bits, hashes, b, h).value == Read(t, hash, pos, b, h)
    decreases height
  {
    hide Width, ListedAt, Extract, Read, Flags, Ends;
    GoesOn(hash, n, height, pos, bits, hashes, b, h);
    if height == 0 || !bits[b] {
      EndRead(hash, n, height, pos, bits, hashes, b, h);
      t := if height == 0 then Leaf(bits[b], hashes[h]) else Cut(hashes[h]);
      ListedEnd(t, bits, hashes, b, h);
    } else {
      var l := ReadIsListed(hash, n, height - 1, pos * 2, bits, hashes, b + 1, h);
      if pos * 2 + 1 < Width(n, height - 1) {
        PairRead(hash, n, height, pos, l, l, bits, hashes, b, h);
        var r := ReadIsListed(hash, n, height - 1, pos * 2 + 1, bits, hashes, b + 1 + |Flags(l)|, h + |Ends(l)|);
        PairRead(hash, n, height, pos, l, r, bits, hashes, b, h);
        t := Pair(l, r);
        ListedPair(l, r, bits, hashes, b, h);
      } else {
        SingleRead(hash, n, height, pos, l, bits, hashes, b, h);
        t := Single(l);
        ListedSingle(l, bits, hashes, b, h);
      }
    }
  }

  /** The encoding lists `t`: all its hashes and no more, and its flags up to the end of their last byte. */
  ghost predicate Lists(bits: seq<bool>, hashes: seq<Hash>, n: nat, t: Pruned) {
    && Shaped(t, n, Height(n), 0) && hashes == Ends(t)
    && Flags(t) <= bits && (|bits| + 7) / 8 == (|Flags(t)| + 7) / 8
  }

  /** Main result: an encoding is accepted exactly when it lists a tree of the shape, of at most 25000 leaves and with
      no more hashes than leaves or flags; what comes out is that tree's root and its matched leaves. */
  lemma AcceptedIff(hash: PairHash, n: nat, bits: seq<bool>, hashes: seq<Hash>, g: Got)
    ensures Accepted(hash, n, bits, hashes) == Some(g) <==>
      && 0 < n <= 25000 && |hashes| <= n && |hashes| <= |bits|
      && exists t :: Lists(bits, hashes, n, t) && g == Got(Top(t, hash), |Flags(t)|, |hashes|, Found(t, 0))
  {
    if Accepted(hash, n, bits, hashes) == Some(g) {
      var t := ReadIsListed(hash, n, Height(n), 0, bits, hashes, 0, 0);
      assert Lists(bits, hashes, n, t);
    }
    if 0 < n <= 25000 && |hashes| <= n && |hashes| <= |bits| {
      if t :| Lists(bits, hashes, n, t) && g == Got(Top(t, hash), |Flags(t)|, |hashes|, Found(t, 0)) {
        Listed(hash, n, Height(n), 0, t, bits, hashes, 0, 0);
      }
    }
  }
}
