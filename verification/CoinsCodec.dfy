/** How coin records and undo records are stored (CTxOutCompressor, CTxInUndo and CCoins in src/main.h). */
module CoinsCodec {
  import opened Basics
  import opened CoinTypes
  import opened CoinsView
  import VarInt
  import Amounts
  import opened ScriptCodec

  // ---- one output ------------------------------------------------------------------------------------

  /** VARINT of a signed field: a negative number loses all but its low seven bits. */
  function IntBytes(n: int): Bytes {
    if n >= 0 then VarInt.Bytes(n) else [(n % 128) as byte]
  }

  /** What comes back of it. */
  function Stored(n: int): nat {
    if n >= 0 then n else n % 128
  }

  lemma IntBack(n: int, rest: Bytes)
    ensures VarInt.Parse(0, IntBytes(n) + rest) == Some((Stored(n), rest))
  {
    VarInt.RoundTrip(Stored(n), rest);
    assert n < 0 ==> VarInt.Bytes(n % 128) == [(n % 128) as byte];
  }

  function OutBytes(o: TxOut, curve: Curve): Bytes
    requires o.nValue >= 0
  {
    VarInt.Bytes(Amounts.Compressed(o.nValue)) + Written(o.scriptPubKey, curve)
  }

  function ReadOut(s: Bytes, curve: Curve): Option<(TxOut, Bytes)> {
    match VarInt.Parse(0, s)
    case None => None
    case Some((code, s1)) =>
      match Read(s1, curve)
      case None => None
      case Some((script, s2)) => Some((TxOut(Amounts.Decompressed(code), script), s2))
  }

  lemma OutBack(o: TxOut, rest: Bytes, curve: Curve)
    requires Lawful(curve) && o.nValue >= 0
    ensures ReadOut(OutBytes(o, curve) + rest, curve) == Some((o, rest))
  {
    hide Read, Written, VarInt.Parse, VarInt.Digits, Amounts.Decompressed, Amounts.Compressed, Lawful;
    var code, script := VarInt.Bytes(Amounts.Compressed(o.nValue)), Written(o.scriptPubKey, curve);
    VarInt.RoundTrip(Amounts.Compressed(o.nValue), script + rest);
    assert code + script + rest == code + (script + rest);
    RoundTrip(o.scriptPubKey, rest, curve);
    Amounts.DecompressCompress(o.nValue);
  }

  // ---- undo records ------------------------------------------------------------------------------------

  function UndoBytes(u: TxInUndo, curve: Curve): Bytes
    requires u.nHeight >= 0 && u.txout.nValue >= 0
  {
    VarInt.Bytes(u.nHeight * 2 + if u.fCoinBase then 1 else 0)
    + (if u.nHeight > 0 then IntBytes(u.nVersion) else [])
    + OutBytes(u.txout, curve)
  }

  /** Read into a fresh record. */
  function ReadUndo(s: Bytes, curve: Curve): Option<(TxInUndo, Bytes)> {
    match VarInt.Parse(0, s)
    case None => None
    case Some((nCode, s1)) =>
      var version := if nCode / 2 > 0 then VarInt.Parse(0, s1) else Some((0, s1));
      match version
      case None => None
      case Some((nVersion, s2)) =>
        match ReadOut(s2, curve)
        case None => None
        case Some((txout, s3)) => Some((TxInUndo(txout, nCode % 2 == 1, nCode / 2, nVersion), s3))
  }

  /** An undo record comes back, but for the version when it has no height or a negative one. */
  lemma UndoBack(u: TxInUndo, rest: Bytes, curve: Curve)
    requires Lawful(curve) && u.nHeight >= 0 && u.txout.nValue >= 0
    ensures ReadUndo(UndoBytes(u, curve) + rest, curve)
         == Some((u.(nVersion := if u.nHeight > 0 then Stored(u.nVersion) else 0), rest))
  {
    hide ReadOut, OutBytes, IntBytes, VarInt.Parse, VarInt.Digits, Lawful;
    var nCode := u.nHeight * 2 + if u.fCoinBase then 1 else 0;
    var version := if u.nHeight > 0 then IntBytes(u.nVersion) else [];
    var out := OutBytes(u.txout, curve);
    VarInt.RoundTrip(nCode, version + out + rest);
    assert VarInt.Bytes(nCode) + version + out + rest == VarInt.Bytes(nCode) + (version + out + rest);
    IntBack(u.nVersion, out + rest);
    assert version + out + rest == version + (out + rest);
    assert [] + (out + rest) == out + rest;
    OutBack(u.txout, rest, curve);
  }

  // ---- the bit mask -------------------------------------------------------------------------------------

  predicate Avail(vout: seq<TxOut>, i: nat) {
    i < |vout| && !vout[i].IsNull()
  }

  /** 1 << p */
  function Weight(p: nat): (w: nat)
    ensures w > 0
  {
    if p == 0 then 1 else 2 * Weight(p - 1)
  }

  lemma ByteWeight()
    ensures Weight(8) == 256
  {
    assert Weight(2) == 2 * Weight(1) && Weight(4) == 2 * Weight(3) && Weight(6) == 2 * Weight(5);
  }

  function Shifted(v: nat, p: nat): nat {
    if p == 0 then v else Shifted(v / 2, p - 1)
  }

  predicate Bit(ch: byte, p: nat) {
    Shifted(ch as nat, p) % 2 == 1
  }

  function Flag(a: bool): nat {
    if a then 1 else 0
  }

  /** The first `n` flags as a number. */
  function Low(vout: seq<TxOut>, start: nat, n: nat): (v: nat)
    ensures v < Weight(n)
  {
    if n == 0 then 0 else Low(vout, start, n - 1) + Flag(Avail(vout, start + n - 1)) * Weight(n - 1)
  }

  /** Mask byte `b`: the availability of outputs 2 + 8b and the seven after it. */
  function MaskByte(vout: seq<TxOut>, b: nat): byte {
    ByteWeight();
    Low(vout, 2 + 8 * b, 8) as byte
  }

  /** The same number, highest flag first. */
  function High(vout: seq<TxOut>, start: nat, n: nat): nat
    decreases n
  {
    if n == 0 then 0 else Flag(Avail(vout, start)) + 2 * High(vout, start + 1, n - 1)
  }

  lemma {:induction false} HighMore(vout: seq<TxOut>, start: nat, n: nat)
    ensures High(vout, start, n + 1) == High(vout, start, n) + Flag(Avail(vout, start + n)) * Weight(n)
    decreases n
  {
    if n > 0 {
      HighMore(vout, start + 1, n - 1);
      var f, w := Flag(Avail(vout, start + n)), Weight(n - 1);
      assert start + 1 + (n - 1) == start + n;
      assert 2 * (f * w) == f * (2 * w);
    }
  }

  lemma {:induction false} LowIsHigh(vout: seq<TxOut>, start: nat, n: nat)
    ensures Low(vout, start, n) == High(vout, start, n)
  {
    if n > 0 {
      LowIsHigh(vout, start, n - 1);
      HighMore(vout, start, n - 1);
      hide High;
    }
  }

  lemma {:induction false} HighBit(vout: seq<TxOut>, start: nat, n: nat, p: nat)
    requires p < n
    ensures Shifted(High(vout, start, n), p) % 2 == Flag(Avail(vout, start + p))
    decreases n
  {
    var rest := High(vout, start + 1, n - 1);
    var f := Flag(Avail(vout, start));
    assert (f + 2 * rest) / 2 == rest && (f + 2 * rest) % 2 == f;
    if p > 0 {
      HighBit(vout, start + 1, n - 1, p - 1);
    }
  }

  /** Each bit of a mask byte is the availability of its output. */
  lemma MaskBit(vout: seq<TxOut>, b: nat, p: nat)
    requires p < 8
    ensures Bit(MaskByte(vout, b), p) <==> Avail(vout, 2 + 8 * b + p)
  {
    LowIsHigh(vout, 2 + 8 * b, 8);
    HighBit(vout, 2 + 8 * b, 8, p);
    hide Low, Avail, Shifted, High;
  }

  /** The number of mask bytes that reach into `vout`. */
  function Blocks(vout: seq<TxOut>): nat {
    if |vout| <= 2 then 0 else (|vout| + 5) / 8
  }

  /** One more than the last of the first `n` mask bytes that is not zero. */
  function LastUsed(vout: seq<TxOut>, n: nat): (k: nat)
    ensures k <= n
    ensures k > 0 ==> MaskByte(vout, k - 1) != 0
    ensures forall b :: k <= b < n ==> MaskByte(vout, b) == 0
  {
    if n == 0 then 0 else if MaskByte(vout, n - 1) != 0 then n else LastUsed(vout, n - 1)
  }

  function NonZero(vout: seq<TxOut>, n: nat): (k: nat)
    ensures k <= n
  {
    if n == 0 then 0 else NonZero(vout, n - 1) + if MaskByte(vout, n - 1) != 0 then 1 else 0
  }

  function MaskSize(vout: seq<TxOut>): nat {
    LastUsed(vout, Blocks(vout))
  }

  function MaskCode(vout: seq<TxOut>): nat {
    NonZero(vout, Blocks(vout))
  }

  lemma {:induction false} NonZeroUpTo(vout: seq<TxOut>, n: nat)
    ensures NonZero(vout, n) == NonZero(vout, LastUsed(vout, n))
    ensures LastUsed(vout, n) > 0 <==> NonZero(vout, n) > 0
  {
    if n > 0 && MaskByte(vout, n - 1) == 0 {
      NonZeroUpTo(vout, n - 1);
    }
  }

  lemma ByteIsZero(vout: seq<TxOut>, b: nat)
    ensures MaskByte(vout, b) == 0 <==> forall k :: 2 + 8 * b <= k < 10 + 8 * b ==> !Avail(vout, k)
  {
    LowIsZero(vout, 2 + 8 * b, 8);
  }

  lemma {:induction false} LowIsZero(vout: seq<TxOut>, start: nat, n: nat)
    ensures Low(vout, start, n) == 0 <==> forall k :: start <= k < start + n ==> !Avail(vout, k)
  {
    if n > 0 {
      LowIsZero(vout, start, n - 1);
      assert Weight(n - 1) > 0;
    }
  }

  /** The inner loop of CalcMaskSize: no output of mask byte `b` is left. */
  method NothingIn(vout: seq<TxOut>, b: nat) returns (fZero: bool)
    requires 2 + b * 8 < |vout|
    ensures fZero <==> MaskByte(vout, b) == 0
  {
    ByteIsZero(vout, b);
    hide MaskByte;
    fZero := true;
    var i := 0;
    while i < 8 && 2 + b * 8 + i < |vout|
      invariant 0 <= i <= 8
      invariant fZero <==> forall k :: 2 + 8 * b <= k < 2 + 8 * b + i ==> !Avail(vout, k)
    {
      assert Avail(vout, 2 + 8 * b + i) <==> !vout[2 + b * 8 + i].IsNull();
      if !vout[2 + b * 8 + i].IsNull() {
        fZero := false;
      }
      i := i + 1;
    }
  }

  method CalcMaskSize(vout: seq<TxOut>) returns (nBytes: nat, nNonzeroBytes: nat)
    ensures nBytes == MaskSize(vout) && nNonzeroBytes == MaskCode(vout)
  {
    var nLastUsedByte := 0;
    nNonzeroBytes := 0;
    var b := 0;
    while 2 + b * 8 < |vout|
      invariant 0 <= b <= Blocks(vout)
      invariant nLastUsedByte == LastUsed(vout, b) && nNonzeroBytes == NonZero(vout, b)
    {
      var fZero := NothingIn(vout, b);
      if !fZero {
        nLastUsedByte := b + 1;
        nNonzeroBytes := nNonzeroBytes + 1;
      }
      b := b + 1;
    }
    nBytes := nLastUsedByte;
  }

  // ---- a whole record ------------------------------------------------------------------------------------

  function HeaderCode(c: Coins): nat
    requires !c.IsPruned()
  {
    SomethingLeft(c);
    var first, second := Avail(c.vout, 0), Avail(c.vout, 1);
    8 * (MaskCode(c.vout) - if first || second then 0 else 1)
    + Flag(c.fCoinBase) + 2 * Flag(first) + 4 * Flag(second)
  }

  /** The assertion of Serialize: a record that is not pruned has something to announce. */
  lemma SomethingLeft(c: Coins)
    requires !c.IsPruned()
    ensures Avail(c.vout, 0) || Avail(c.vout, 1) || MaskCode(c.vout) > 0
  {
    var i :| 0 <= i < |c.vout| && !c.vout[i].IsNull();
    if i >= 2 {
      var b := (i - 2) / 8;
      ByteIsZero(c.vout, b);
      assert Avail(c.vout, i) && 2 + 8 * b <= i < 10 + 8 * b;
      NonZeroAt(c.vout, Blocks(c.vout), b);
    }
  }

  lemma {:induction false} NonZeroAt(vout: seq<TxOut>, n: nat, b: nat)
    requires b < n && MaskByte(vout, b) != 0
    ensures NonZero(vout, n) > 0
  {
    if b < n - 1 {
      NonZeroAt(vout, n - 1, b);
    }
  }

  function Mask(vout: seq<TxOut>, n: nat): Bytes {
    if n == 0 then [] else Mask(vout, n - 1) + [MaskByte(vout, n - 1)]
  }

  /** The outputs left, from the i-th on. */
  function Outs(vout: seq<TxOut>, i: nat, curve: Curve): Bytes
    requires ValuesOk(vout)
    decreases |vout| - i
  {
    if i >= |vout| then []
    else (if vout[i].IsNull() then [] else OutBytes(vout[i], curve)) + Outs(vout, i + 1, curve)
  }

  /** Spent outputs are blank and the others are worth at least 0. */
  ghost predicate ValuesOk(vout: seq<TxOut>) {
    forall i :: 0 <= i < |vout| ==> vout[i] == NULL_OUT || vout[i].nValue >= 0
  }

  ghost function CoinsBytes(c: Coins, curve: Curve): Bytes
    requires ValuesOk(c.vout) && !c.IsPruned()
  {
    IntBytes(c.nVersion) + VarInt.Bytes(HeaderCode(c)) + Mask(c.vout, MaskSize(c.vout)) + Outs(c.vout, 0, curve)
    + IntBytes(c.nHeight)
  }

  /** Reads mask bytes until `nMaskCode` of them were not zero. */
  function ReadMask(nMaskCode: nat, s: Bytes): Option<(Bytes, Bytes)>
    decreases |s|
  {
    if nMaskCode == 0 then Some(([], s))
    else if s == [] then None
    else
      match ReadMask(nMaskCode - if s[0] != 0 then 1 else 0, s[1..])
      case None => None
      case Some((mask, rest)) => Some(([s[0]] + mask, rest))
  }

  /** vAvail: the two flags of the header, then the bits of the mask. */
  predicate Flagged(nCode: nat, mask: Bytes, i: nat)
    requires i < 2 + 8 * |mask|
  {
    if i == 0 then nCode / 2 % 2 == 1
    else if i == 1 then nCode / 4 % 2 == 1
    else Bit(mask[(i - 2) / 8], (i - 2) % 8)
  }

  /** The outputs from the i-th on: read where flagged, blank elsewhere. */
  function ReadOuts(nCode: nat, mask: Bytes, i: nat, s: Bytes, curve: Curve): Option<(seq<TxOut>, Bytes)>
    requires i <= 2 + 8 * |mask|
    decreases 2 + 8 * |mask| - i
  {
    if i == 2 + 8 * |mask| then Some(([], s))
    else
      var one := if Flagged(nCode, mask, i) then ReadOut(s, curve) else Some((NULL_OUT, s));
      match one
      case None => None
      case Some((o, s1)) =>
        match ReadOuts(nCode, mask, i + 1, s1, curve)
        case None => None
        case Some((os, s2)) => Some(([o] + os, s2))
  }

  function ReadCoins(s: Bytes, curve: Curve): Option<(Coins, Bytes)> {
    match VarInt.Parse(0, s)
    case None => None
    case Some((nVersion, s1)) =>
      match VarInt.Parse(0, s1)
      case None => None
      case Some((nCode, s2)) => ReadRest(nVersion, nCode, s2, curve)
  }

  /** nMaskCode, out of the header code. */
  function MaskCount(nCode: nat): nat {
    nCode / 8 + if nCode / 2 % 4 != 0 then 0 else 1
  }

  /** What follows the version and the header code. */
  function ReadRest(nVersion: nat, nCode: nat, s: Bytes, curve: Curve): Option<(Coins, Bytes)> {
    match ReadMask(MaskCount(nCode), s)
    case None => None
    case Some((mask, s1)) => ReadTail(nVersion, nCode, mask, s1, curve)
  }

  /** What follows the mask. */
  function ReadTail(nVersion: nat, nCode: nat, mask: Bytes, s: Bytes, curve: Curve): Option<(Coins, Bytes)> {
    match ReadOuts(nCode, mask, 0, s, curve)
    case None => None
    case Some((vout, s1)) =>
      match VarInt.Parse(0, s1)
      case None => None
      case Some((nHeight, s2)) => Some((Coins(nCode % 2 == 1, Cleaned(vout), nHeight, nVersion), s2))
  }

  // ---- the round trip -------------------------------------------------------------------------------------

  /** The part of the mask from byte `from` on, up to and including its last byte that is not zero. */
  lemma {:induction false} MaskBack(vout: seq<TxOut>, from: nat, n: nat, rest: Bytes)
    requires from <= n && (n > from ==> MaskByte(vout, n - 1) != 0)
    ensures |Mask(vout, n)| == n && |Mask(vout, from)| == from && NonZero(vout, from) <= NonZero(vout, n)
    ensures ReadMask(NonZero(vout, n) - NonZero(vout, from), Mask(vout,
      n)[from..] + rest) == Some((Mask(vout, n)[from..], rest))
    decreases n - from
  {
    MaskSizeIs(vout, n);
    MaskSizeIs(vout, from);
    var tail := Mask(vout, n)[from..];
    if from == n {
      assert tail + rest == rest;
    } else {
      MaskBack(vout, from + 1, n, rest);
      MaskAt(vout, n, from);
      NonZeroLeft(vout, from, n);
      assert tail == [MaskByte(vout, from)] + Mask(vout, n)[from + 1..];
      assert (tail + rest)[1..] == Mask(vout, n)[from + 1..] + rest;
      assert (tail + rest)[0] == MaskByte(vout, from);
    }
    hide Mask, NonZero, MaskByte;
  }

  lemma {:induction false} MaskSizeIs(vout: seq<TxOut>, n: nat)
    ensures |Mask(vout, n)| == n
  {
    if n > 0 {
      MaskSizeIs(vout, n - 1);
    }
  }

  lemma {:induction false} MaskAt(vout: seq<TxOut>, n: nat, b: nat)
    requires b < n
    ensures |Mask(vout, n)| == n && Mask(vout, n)[b] == MaskByte(vout, b)
  {
    MaskSizeIs(vout, n - 1);
    if b < n - 1 {
      MaskAt(vout, n - 1, b);
    }
  }

  lemma {:induction false} NonZeroLeft(vout: seq<TxOut>, from: nat, n: nat)
    requires from < n && MaskByte(vout, n - 1) != 0
    ensures NonZero(vout, from + 1) == NonZero(vout, from) + (if MaskByte(vout, from) != 0 then 1 else 0)
    ensures NonZero(vout, n) > NonZero(vout, from)
    decreases n
  {
    NonZeroGrows(vout, from, n - 1);
  }

  lemma {:induction false} NonZeroGrows(vout: seq<TxOut>, a: nat, b: nat)
    requires a <= b
    ensures NonZero(vout, a) <= NonZero(vout, b)
    decreases b
  {
    if a < b {
      NonZeroGrows(vout, a, b - 1);
    }
  }

  /** The i-th output, blank beyond the end. */
  function OutAt(vout: seq<TxOut>, i: nat): TxOut {
    if i < |vout| then vout[i] else NULL_OUT
  }

  /** Outputs `i` up to `m`. */
  function Window(vout: seq<TxOut>, i: nat, m: nat): (r: seq<TxOut>)
    ensures |r| == if i <= m then m - i else 0
    ensures forall k :: 0 <= k < |r| ==> r[k] == OutAt(vout, i + k)
    decreases m - i
  {
    if i >= m then [] else [OutAt(vout, i)] + Window(vout, i + 1, m)
  }

  lemma HeaderBack(m: nat, cb: bool, first: bool, second: bool)
    requires first || second || m > 0
    ensures var nCode := 8 * (m - if first || second then 0 else 1) + Flag(cb) + 2 * Flag(first) + 4 * Flag(second);
      && nCode % 2 == Flag(cb) && nCode / 2 % 2 == Flag(first) && nCode / 4 % 2 == Flag(second)
      && nCode / 8 + (if nCode / 2 % 4 != 0 then 0 else 1) == m
  {
  }

  /** The flags read are the availabilities written. */
  lemma FlagsBack(c: Coins, i: nat)
    requires !c.IsPruned() && i < 2 + 8 * MaskSize(c.vout)
    ensures |Mask(c.vout, MaskSize(c.vout))| == MaskSize(c.vout)
    ensures Flagged(HeaderCode(c), Mask(c.vout, MaskSize(c.vout)), i) <==> Avail(c.vout, i)
  {
    var n := MaskSize(c.vout);
    MaskSizeIs(c.vout, n);
    SomethingLeft(c);
    HeaderBack(MaskCode(c.vout), c.fCoinBase, Avail(c.vout, 0), Avail(c.vout, 1));
    if i >= 2 {
      var b, p := (i - 2) / 8, (i - 2) % 8;
      MaskAt(c.vout, n, b);
      MaskBit(c.vout, b, p);
      assert 2 + 8 * b + p == i;
    }
    hide Mask, MaskSize, MaskCode, Bit, MaskByte, Avail;
  }

  lemma NoneBeyond(vout: seq<TxOut>, i: nat)
    requires i >= 2 + 8 * MaskSize(vout)
    ensures !Avail(vout, i)
  {
    if i < |vout| {
      var b := (i - 2) / 8;
      assert MaskByte(vout, b) == 0;
      ByteIsZero(vout, b);
      assert 2 + 8 * b <= i < 10 + 8 * b;
    }
  }

  lemma {:induction false} OutsNone(vout: seq<TxOut>, i: nat, curve: Curve)
    requires ValuesOk(vout) && forall k :: i <= k < |vout| ==> !Avail(vout, k)
    ensures Outs(vout, i, curve) == []
    decreases |vout| - i
  {
    if i < |vout| {
      assert !Avail(vout, i);
      OutsNone(vout, i + 1, curve);
    }
  }

  lemma {:induction false} OutsBack(c: Coins, i: nat, rest: Bytes, curve: Curve)
    requires Lawful(curve) && ValuesOk(c.vout) && !c.IsPruned() && i <= 2 + 8 * MaskSize(c.vout)
    ensures var n := MaskSize(c.vout);
      && |Mask(c.vout, n)| == n
      && ReadOuts(HeaderCode(c), Mask(c.vout, n), i, Outs(c.vout, i, curve) + rest, curve)
         == Some((Window(c.vout, i, 2 + 8 * n), rest))
    decreases 2 + 8 * MaskSize(c.vout) - i
  {
    hide HeaderCode, MaskSize, Mask, Flagged, ReadOut, OutBytes, Lawful, Coins.IsPruned;
    var n := MaskSize(c.vout);
    MaskSizeIs(c.vout, n);
    if i == 2 + 8 * n {
      forall k | i <= k < |c.vout|
        ensures !Avail(c.vout, k)
      {
        NoneBeyond(c.vout, k);
      }
      OutsNone(c.vout, i, curve);
      assert [] + rest == rest;
    } else {
      FlagsBack(c, i);
      var more := Outs(c.vout, i + 1, curve) + rest;
      OutsBack(c, i + 1, rest, curve);
      if Avail(c.vout, i) {
        OutBack(c.vout[i], more, curve);
        assert Outs(c.vout, i, curve) + rest == OutBytes(c.vout[i], curve) + more;
      } else {
        OutsSkip(c.vout, i, curve);
      }
    }
  }

  lemma OutsSkip(vout: seq<TxOut>, i: nat, curve: Curve)
    requires ValuesOk(vout) && !Avail(vout, i)
    ensures Outs(vout, i, curve) == Outs(vout, i + 1, curve) && OutAt(vout, i) == NULL_OUT
  {
  }

  /** Lists that differ only in blanks at the end are cleaned alike. */
  lemma CleanedAlike(a: seq<TxOut>, b: seq<TxOut>)
    requires forall i :: 0 <= i ==> OutAt(a, i) == OutAt(b, i)
    ensures Cleaned(a) == Cleaned(b)
  {
    CleanedNoLonger(a, b);
    CleanedNoLonger(b, a);
    var ca, cb := Cleaned(a), Cleaned(b);
    forall i | 0 <= i < |ca|
      ensures ca[i] == cb[i]
    {
      assert OutAt(a, i) == OutAt(b, i) && ca[i] == a[i] && cb[i] == b[i];
    }
  }

  lemma CleanedNoLonger(a: seq<TxOut>, b: seq<TxOut>)
    requires forall i :: 0 <= i ==> OutAt(a, i) == OutAt(b, i)
    ensures |Cleaned(a)| <= |Cleaned(b)|
  {
    var ca := Cleaned(a);
    if ca != [] {
      var l := |ca| - 1;
      assert ca[l] == a[l] && !a[l].IsNull();
      assert OutAt(a, l) == OutAt(b, l);
    }
  }

  /** Main result: a record that is not pruned comes back, cleaned; a negative version comes back as its low
      seven bits. */
  lemma CoinsBack(c: Coins, rest: Bytes, curve: Curve)
    requires Lawful(curve) && ValuesOk(c.vout) && !c.IsPruned()
    ensures ReadCoins(CoinsBytes(c, curve) + rest, curve)
         == Some((Coins(c.fCoinBase, Cleaned(c.vout), Stored(c.nHeight), Stored(c.nVersion)), rest))
  {
    hide HeaderCode, MaskSize, Mask, Outs, IntBytes, VarInt.Digits, VarInt.Parse, ReadRest, Lawful, ValuesOk,
      Coins.IsPruned;
    var version, code, mask, outs, height :=
      IntBytes(c.nVersion), VarInt.Bytes(HeaderCode(c)), Mask(c.vout, MaskSize(c.vout)), Outs(c.vout, 0,
        curve), IntBytes(c.nHeight);
    Regroup(version, code, mask, outs, height, rest);
    var tail := mask + (outs + (height + rest));
    IntBack(c.nVersion, code + tail);
    VarInt.RoundTrip(HeaderCode(c), tail);
    RestBack(c, Stored(c.nVersion), rest, curve);
  }

  lemma RestBack(c: Coins, nVersion: nat, rest: Bytes, curve: Curve)
    requires Lawful(curve) && ValuesOk(c.vout) && !c.IsPruned()
    ensures ReadRest(nVersion, HeaderCode(c),
                     Mask(c.vout, MaskSize(c.vout)) + (Outs(c.vout, 0, curve) + (IntBytes(c.nHeight) + rest)), curve)
         == Some((Coins(c.fCoinBase, Cleaned(c.vout), Stored(c.nHeight), nVersion), rest))
  {
    hide HeaderCode, MaskSize, MaskCode, Mask, Outs, IntBytes, ReadMask, ReadTail, MaskCount, Lawful, ValuesOk,
      Coins.IsPruned;
    HeaderIs(c);
    MaskWhole(c.vout, Outs(c.vout, 0, curve) + (IntBytes(c.nHeight) + rest));
    TailBack(c, nVersion, rest, curve);
  }

  lemma TailBack(c: Coins, nVersion: nat, rest: Bytes, curve: Curve)
    requires Lawful(curve) && ValuesOk(c.vout) && !c.IsPruned()
    ensures ReadTail(nVersion, HeaderCode(c), Mask(c.vout, MaskSize(c.vout)),
                     Outs(c.vout, 0, curve) + (IntBytes(c.nHeight) + rest), curve)
         == Some((Coins(c.fCoinBase, Cleaned(c.vout), Stored(c.nHeight), nVersion), rest))
  {
    hide HeaderCode, MaskSize, MaskCode, Mask, Outs, IntBytes, VarInt.Parse, ReadOuts, Lawful, ValuesOk,
      Coins.IsPruned, Cleaned;
    hide MaskCount;
    HeaderIs(c);
    OutsBack(c, 0, IntBytes(c.nHeight) + rest, curve);
    IntBack(c.nHeight, rest);
    WindowCleaned(c.vout);
  }

  lemma Regroup(a: Bytes, b: Bytes, c: Bytes, d: Bytes, e: Bytes, rest: Bytes)
    ensures a + b + c + d + e + rest == a + (b + (c + (d + (e + rest))))
  {
    assert a + b + c + d + e + rest == a + b + c + (d + (e + rest));
    assert a + b + c + (d + (e + rest)) == a + (b + (c + (d + (e + rest))));
  }

  lemma HeaderIs(c: Coins)
    requires !c.IsPruned()
    ensures var nCode := HeaderCode(c);
      && (nCode % 2 == 1 <==> c.fCoinBase)
      && MaskCount(nCode) == MaskCode(c.vout)
  {
    SomethingLeft(c);
    HeaderBack(MaskCode(c.vout), c.fCoinBase, Avail(c.vout, 0), Avail(c.vout, 1));
  }

  lemma MaskWhole(vout: seq<TxOut>, rest: Bytes)
    ensures ReadMask(MaskCode(vout), Mask(vout, MaskSize(vout)) + rest) == Some((Mask(vout, MaskSize(vout)), rest))
  {
    var n := MaskSize(vout);
    NonZeroUpTo(vout, Blocks(vout));
    MaskBack(vout, 0, n, rest);
    assert Mask(vout, n)[0..] == Mask(vout, n);
  }

  lemma WindowCleaned(vout: seq<TxOut>)
    requires ValuesOk(vout)
    ensures Cleaned(Window(vout, 0, 2 + 8 * MaskSize(vout))) == Cleaned(vout)
  {
    var m := 2 + 8 * MaskSize(vout);
    forall i | 0 <= i
      ensures OutAt(Window(vout, 0, m), i) == OutAt(vout, i)
    {
      if i >= m {
        NoneBeyond(vout, i);
      }
    }
    CleanedAlike(Window(vout, 0, m), vout);
  }

  /** What a stored record of the database loses: nothing. */
  lemma StoredCoinsBack(c: Coins, rest: Bytes, curve: Curve)
    requires Lawful(curve) && CleanOuts(c.vout) && c.vout != [] && c.nHeight >= 0 && c.nVersion >= 0
    ensures !c.IsPruned() && ValuesOk(c.vout)
    ensures ReadCoins(CoinsBytes(c, curve) + rest, curve) == Some((c, rest))
  {
    assert !c.vout[|c.vout| - 1].IsNull();
    CoinsBack(c, rest, curve);
  }

  // ---- the methods of CCoins --------------------------------------------------------------------------------

  method WriteInt(n: int) returns (s: Bytes)
    requires n < VarInt.Pow128(5)
    ensures s == IntBytes(n)
  {
    if n >= 0 {
      s := VarInt.WriteVarInt(n, 5);
    } else {
      s := [(n % 128) as byte];
    }
  }

  method SizeOfInt(n: int) returns (k: nat)
    ensures k == |IntBytes(n)|
  {
    if n >= 0 {
      k := VarInt.GetSizeOfVarInt(n);
    } else {
      k := 1;
    }
  }

  method SizeOfOut(o: TxOut, curve: Curve) returns (k: nat)
    requires o.nValue >= 0
    ensures k == |OutBytes(o, curve)|
  {
    var code := Amounts.CompressAmount(o.nValue);
    k := VarInt.GetSizeOfVarInt(code);
    var script := GetSerializeSize(o.scriptPubKey, curve);
    k := k + script;
  }

  method SizeOfOuts(vout: seq<TxOut>, curve: Curve) returns (nSize: nat)
    requires ValuesOk(vout)
    ensures nSize == |Outs(vout, 0, curve)|
  {
    hide OutBytes;
    nSize := 0;
    var i := 0;
    while i < |vout|
      invariant 0 <= i <= |vout| && nSize + |Outs(vout, i, curve)| == |Outs(vout, 0, curve)|
    {
      if !vout[i].IsNull() {
        var k := SizeOfOut(vout[i], curve);
        nSize := nSize + k;
      }
      i := i + 1;
    }
  }

  /** The number of bytes Serialize will write. */
  method SizeOfCoins(c: Coins, curve: Curve) returns (nSize: nat)
    requires ValuesOk(c.vout) && !c.IsPruned()
    ensures nSize == |CoinsBytes(c, curve)|
  {
    var nMaskSize, nMaskCode := CalcMaskSize(c.vout);
    MaskSizeIs(c.vout, nMaskSize);
    SomethingLeft(c);
    var fFirst := |c.vout| > 0 && !c.vout[0].IsNull();
    var fSecond := |c.vout| > 1 && !c.vout[1].IsNull();
    var nCode := 8 * (nMaskCode - if fFirst || fSecond then 0 else 1)
                 + Flag(c.fCoinBase) + 2 * Flag(fFirst) + 4 * Flag(fSecond);
    assert nCode == HeaderCode(c);
    hide HeaderCode, MaskSize, MaskCode, Mask, IntBytes, VarInt.Digits, OutBytes, Coins.IsPruned;
    var version := SizeOfInt(c.nVersion);
    var code := VarInt.GetSizeOfVarInt(nCode);
    var outs := SizeOfOuts(c.vout, curve);
    nSize := version + code + nMaskSize + outs;
    var height := SizeOfInt(c.nHeight);
    nSize := nSize + height;
  }

  /** One mask byte: chAvail |= 1 << i for each output left; the bit is not set before, so it is added. */
  method WriteMaskByte(vout: seq<TxOut>, b: nat) returns (ch: byte)
    ensures ch == MaskByte(vout, b)
  {
    ByteWeight();
    var chAvail := 0;
    var i := 0;
    while i < 8 && 2 + b * 8 + i < |vout|
      invariant 0 <= i <= 8 && chAvail == Low(vout, 2 + 8 * b, i)
    {
      assert Avail(vout, 2 + 8 * b + i) <==> !vout[2 + b * 8 + i].IsNull();
      if !vout[2 + b * 8 + i].IsNull() {
        chAvail := chAvail + Weight(i);
      }
      i := i + 1;
    }
    LowEnds(vout, 2 + 8 * b, i, 8);
    ch := chAvail as byte;
  }

  lemma {:induction false} LowEnds(vout: seq<TxOut>, start: nat, i: nat, n: nat)
    requires i <= n && (i < n ==> start + i >= |vout|)
    ensures Low(vout, start, n) == Low(vout, start, i)
    decreases n
  {
    if i < n {
      LowEnds(vout, start, i, n - 1);
    }
  }

  method Serialize(c: Coins, curve: Curve) returns (s: Bytes)
    requires ValuesOk(c.vout) && !c.IsPruned()
    requires c.nVersion < VarInt.Pow128(5) && c.nHeight < VarInt.Pow128(5) && HeaderCode(c) < VarInt.Pow128(5)
    ensures s == CoinsBytes(c, curve)
  {
    var nMaskSize, nMaskCode := CalcMaskSize(c.vout);
    SomethingLeft(c);
    var fFirst := |c.vout| > 0 && !c.vout[0].IsNull();
    var fSecond := |c.vout| > 1 && !c.vout[1].IsNull();
    assert fFirst || fSecond || nMaskCode != 0;
    var nCode := 8 * (nMaskCode - if fFirst || fSecond then 0 else 1)
                 + Flag(c.fCoinBase) + 2 * Flag(fFirst) + 4 * Flag(fSecond);
    assert nCode == HeaderCode(c);
    hide HeaderCode, MaskSize, MaskCode, IntBytes, VarInt.Digits, VarInt.Pow128, OutBytes, Coins.IsPruned, MaskByte;
    s := WriteInt(c.nVersion);
    var code := VarInt.WriteVarInt(nCode, 5);
    s := s + code;
    ghost var head := s;
    for b := 0 to nMaskSize
      invariant s == head + Mask(c.vout, b)
    {
      var chAvail := WriteMaskByte(c.vout, b);
      s := s + [chAvail];
    }
    hide Mask;
    ghost var masked := s;
    var outs := WriteOuts(c.vout, curve);
    s := s + outs;
    var height := WriteInt(c.nHeight);
    s := s + height;
  }

  method WriteOuts(vout: seq<TxOut>, curve: Curve) returns (s: Bytes)
    requires ValuesOk(vout)
    ensures s == Outs(vout, 0, curve)
  {
    s := [];
    var i := 0;
    hide OutBytes;
    assert [] + Outs(vout, 0, curve) == Outs(vout, 0, curve);
    while i < |vout|
      invariant 0 <= i <= |vout| && s + Outs(vout, i, curve) == Outs(vout, 0, curve)
    {
      if !vout[i].IsNull() {
        var one := WriteOut(vout[i], curve);
        assert s + (one + Outs(vout, i + 1, curve)) == s + one + Outs(vout, i + 1, curve);
        s := s + one;
      } else {
        OutsSkip(vout, i, curve);
      }
      i := i + 1;
    }
    assert s + [] == s;
  }

  method WriteOut(o: TxOut, curve: Curve) returns (s: Bytes)
    requires o.nValue >= 0
    ensures s == OutBytes(o, curve)
  {
    var code := Amounts.CompressAmount(o.nValue);
    s := VarInt.Bytes(code) + Written(o.scriptPubKey, curve);
  }

  /** Reading mask bytes one at a time. */
  method UnserializeMask(count: nat, s: Bytes) returns (r: Option<(Bytes, Bytes)>)
    ensures r == ReadMask(count, s)
  {
    var nMaskCode := count;
    var mask, left := [], s;
    if ReadMask(count, s).Some? {
      assert [] + ReadMask(count, s).value.0 == ReadMask(count, s).value.0;
    }
    while nMaskCode > 0
      invariant match ReadMask(nMaskCode, left)
        case None => ReadMask(count, s) == None
        case Some((more, rest)) => ReadMask(count, s) == Some((mask + more, rest))
      decreases |left|
    {
      if left == [] {
        return None;
      }
      var chAvail := left[0];
      ghost var next := ReadMask(nMaskCode - if chAvail != 0 then 1 else 0, left[1..]);
      if next.Some? {
        assert mask + ([chAvail] + next.value.0) == mask + [chAvail] + next.value.0;
      }
      mask := mask + [chAvail];
      left := left[1..];
      if chAvail != 0 {
        nMaskCode := nMaskCode - 1;
      }
    }
    assert mask + [] == mask;
    r := Some((mask, left));
  }

  /** Reading the outputs flagged. */
  method UnserializeOuts(nCode: nat, mask: Bytes, s: Bytes, curve: Curve) returns (r: Option<(seq<TxOut>, Bytes)>)
    ensures r == ReadOuts(nCode, mask, 0, s, curve)
  {
    hide ReadOut, Flagged;
    var vout, left := [], s;
    if ReadOuts(nCode, mask, 0, s, curve).Some? {
      assert [] + ReadOuts(nCode, mask, 0, s, curve).value.0 == ReadOuts(nCode, mask, 0, s, curve).value.0;
    }
    for i := 0 to 2 + 8 * |mask|
      invariant match ReadOuts(nCode, mask, i, left, curve)
        case None => ReadOuts(nCode, mask, 0, s, curve) == None
        case Some((more, rest)) => ReadOuts(nCode, mask, 0, s, curve) == Some((vout + more, rest))
    {
      var o := NULL_OUT;
      var next := left;
      if Flagged(nCode, mask, i) {
        var one := ReadOut(left, curve);
        if one.None? {
          return None;
        }
        o, next := one.value.0, one.value.1;
      }
      ghost var tail := ReadOuts(nCode, mask, i + 1, next, curve);
      if tail.Some? {
        assert vout + ([o] + tail.value.0) == vout + [o] + tail.value.0;
      }
      vout := vout + [o];
      left := next;
    }
    assert vout + [] == vout;
    r := Some((vout, left));
  }

  /** Unserialize into `c`; on a short stream nothing is promised of `c`. */
  method Unserialize(c: CCoins, s: Bytes, curve: Curve) returns (rest: Option<Bytes>)
    modifies c
    ensures match ReadCoins(s, curve)
      case None => rest == None
      case Some((coins, left)) => c.Value() == coins && rest == Some(left)
  {
    hide VarInt.Parse, ReadMask, ReadOuts, MaskCount;
    var version := VarInt.ReadVarInt(s);
    if version.None? {
      return None;
    }
    c.nVersion := version.value.0;
    var header := VarInt.ReadVarInt(version.value.1);
    if header.None? {
      return None;
    }
    var nCode := header.value.0;
    c.fCoinBase := nCode % 2 == 1;
    var mask := UnserializeMask(MaskCount(nCode), header.value.1);
    if mask.None? {
      return None;
    }
    var outs := UnserializeOuts(nCode, mask.value.0, mask.value.1, curve);
    if outs.None? {
      return None;
    }
    c.vout := outs.value.0;
    var height := VarInt.ReadVarInt(outs.value.1);
    if height.None? {
      return None;
    }
    c.nHeight := height.value.0;
    c.Cleanup();
    rest := Some(height.value.1);
  }

  /** A stored record read back into any object is the record. */
  method StoreAndLoad(c: Coins, into: CCoins, curve: Curve) returns (s: Bytes)
    requires Lawful(curve) && CleanOuts(c.vout) && c.vout != []
    requires 0 <= c.nVersion < VarInt.Pow128(5) && 0 <= c.nHeight < VarInt.Pow128(5)
    requires !c.IsPruned() && HeaderCode(c) < VarInt.Pow128(5)
    modifies into
    ensures into.Value() == c
  {
    StoredCoinsBack(c, [], curve);
    s := Serialize(c, curve);
    assert s + [] == s;
    hide ReadCoins, CoinsBytes;
    var rest := Unserialize(into, s, curve);
  }
}
