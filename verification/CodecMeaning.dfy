/** What the stored forms of numbers, amounts, scripts and coin records look like, byte by byte, as
    src/serialize.h, src/main.cpp, src/script.cpp and src/main.h document them. */
module CodecMeaning {
  import opened Basics
  import opened CoinTypes
  import VarInt
  import Amounts
  import opened ScriptCodec
  import opened CoinsCodec

  // ---- numbers ------------------------------------------------------------------------------------------

  /** What the bytes before the last stand for: each counts for its low seven bits and one, times 128 for every
      byte between it and the last. */
  function Leading(s: Bytes, places: nat): nat
    requires places <= |s|
  {
    if places == 0 then 0
    else Leading(s, places - 1) + (s[|s| - places] % 128 + 1) as nat * VarInt.Pow128(places - 1)
  }

  lemma {:induction false} LeadingMore(s: Bytes, d: byte, places: nat)
    requires places <= |s|
    ensures Leading(s + [d], places + 1) == 128 * Leading(s, places) + d as nat % 128 + 1
  {
    var t := s + [d];
    if places == 0 {
      assert Leading(t, 1) == Leading(t, 0) + (t[|t| - 1] % 128 + 1) as nat * VarInt.Pow128(0);
    } else {
      LeadingMore(s, d, places - 1);
      var b, p := (s[|s| - places] % 128 + 1) as nat, VarInt.Pow128(places - 1);
      assert t[|t| - places - 1] == s[|s| - places];
      assert b * (128 * p) == 128 * (b * p);
    }
  }

  lemma DigitsStep(n: nat, last: bool)
    ensures VarInt.Digits(n, last)
         == (if n > 0x7F then VarInt.Digits(n / 128 - 1, false) else []) + [VarInt.Digit(n, last)]
    ensures VarInt.Digit(n, last) == n % 128 + if last then 0 else 128
    ensures VarInt.Digit(n, last) % 128 == n % 128
  {
  }

  /** The digits of a number with more to come stand for one more. */
  lemma {:induction false} DigitsMean(n: nat)
    ensures var s := VarInt.Digits(n, false);
      Leading(s, |s|) == n + 1 && forall i :: 0 <= i < |s| ==> s[i] >= 128
    decreases n
  {
    DigitsStep(n, false);
    hide VarInt.Digits, VarInt.Digit;
    var high := if n > 0x7F then VarInt.Digits(n / 128 - 1, false) else [];
    if n > 0x7F {
      DigitsMean(n / 128 - 1);
    }
    LeadingMore(high, VarInt.Digit(n, false), |high|);
    assert Leading(high, |high|) == n / 128;
    hide Leading;
  }

  /** A number is written as bytes marked by their high bit up to the last, which stand for it by their places. */
  lemma BytesMean(n: nat)
    ensures var s := VarInt.Bytes(n);
      && (forall i :: 0 <= i < |s| ==> (s[i] < 128 <==> i == |s| - 1))
      && n == 128 * Leading(s[..|s| - 1], |s| - 1) + s[|s| - 1] as nat
  {
    DigitsStep(n, true);
    hide VarInt.Digits, VarInt.Digit;
    var high := if n > 0x7F then VarInt.Digits(n / 128 - 1, false) else [];
    if n > 0x7F {
      DigitsMean(n / 128 - 1);
    }
    var s := VarInt.Bytes(n);
    assert s[..|s| - 1] == high;
  }

  // ---- amounts ------------------------------------------------------------------------------------------

  /** An amount with all but its last `e` decimal zeros taken off, and more left than nine, is 1 + 10 * (9 * n +
      d - 1) + e, where d is the last digit left and n the others; one with nine taken off is 10 times the rest. */
  lemma AmountIs(m: nat, e: nat)
    requires m > 0
    ensures e < 9 && m % 10 != 0 ==>
      Amounts.Compressed(m * Amounts.Pow10(e)) == 1 + 10 * (9 * (m / 10) + m % 10 - 1) + e
    ensures Amounts.Compressed(m * 1_000_000_000) == 10 * m
  {
    if e < 9 && m % 10 != 0 {
      Amounts.ZerosOf(m, e, 9);
    }
    Amounts.ZerosOf(m, 9, 9);
    Billion();
    hide Amounts.ZerosUpTo, Amounts.Drop, Amounts.Pow10;
  }

  lemma Billion()
    ensures Amounts.Pow10(9) == 1_000_000_000
  {
    assert Amounts.Pow10(5) == 100_000;
  }

  // ---- scripts ------------------------------------------------------------------------------------------

  function ToKeyID(id: Bytes): Bytes {
    [0x76, 0xa9, 20] + id + [0x88, 0xac]
  }

  function ToScriptID(id: Bytes): Bytes {
    [0xa9, 20] + id + [0x87]
  }

  function ToKey(key: Bytes): Bytes {
    [(|key| % 256) as byte] + key + [0xac]
  }

  /** The four standard forms and what they are stored as. */
  lemma StandardForms(id: Bytes, x: Bytes, key: Bytes, curve: Curve)
    ensures |id| == 20 ==> Written(ToKeyID(id), curve) == [0] + id && Written(ToScriptID(id), curve) == [1] + id
    ensures |x| == 33 && (x[0] == 2 || x[0] == 3) ==> Written(ToKey(x), curve) == x
    ensures |key| == 65 && key[0] == 4 && curve.isKey(key) ==>
      Written(ToKey(key), curve) == [4 + key[64] % 2] + key[1..33]
  {
    if |id| == 20 {
      assert ToKeyID(id)[3..23] == id && ToScriptID(id)[2..22] == id;
    }
    if |x| == 33 && (x[0] == 2 || x[0] == 3) {
      assert [x[0]] + ToKey(x)[2..34] == x;
    }
    if |key| == 65 && key[0] == 4 && curve.isKey(key) {
      assert ToKey(key)[1..66] == key && ToKey(key)[2..34] == key[1..33];
    }
  }

  ghost predicate Standard(s: Bytes, curve: Curve) {
    || (exists id: Bytes :: |id| == 20 && s == ToKeyID(id))
    || (exists id: Bytes :: |id| == 20 && s == ToScriptID(id))
    || (exists x: Bytes :: |x| == 33 && (x[0] == 2 || x[0] == 3) && s == ToKey(x))
    || (exists key: Bytes :: |key| == 65 && key[0] == 4 && curve.isKey(key) && s == ToKey(key))
  }

  /** Every other script is its length and 6, and itself. */
  lemma OtherForms(s: Bytes, curve: Curve)
    requires !Standard(s, curve)
    ensures Written(s, curve) == VarInt.Bytes(|s| + 6) + s
  {
    Recognised(s, curve);
    hide IsToKeyID, IsToScriptID, IsToCompressedKey, IsToFullKey, Standard;
  }

  lemma Recognised(s: Bytes, curve: Curve)
    ensures IsToKeyID(s) || IsToScriptID(s) || IsToCompressedKey(s) || IsToFullKey(s, curve) ==> Standard(s, curve)
  {
    if IsToKeyID(s) {
      assert s == ToKeyID(s[3..23]);
    } else if IsToScriptID(s) {
      assert s == ToScriptID(s[2..22]);
    } else if IsToCompressedKey(s) {
      assert s == ToKey(s[1..34]);
    } else if IsToFullKey(s, curve) {
      assert s == ToKey(s[1..66]);
    }
  }

  // ---- coin records ------------------------------------------------------------------------------------------

  function Id0(): Bytes {
    [0x81, 0x61, 0x15, 0x94, 0x4e, 0x07, 0x7f, 0xe7, 0xc8, 0x03, 0xcf, 0xa5, 0x7f, 0x29, 0xb3, 0x6b,
     0xf8, 0x7c, 0x1d, 0x35]
  }

  function Id1(): Bytes {
    [0x61, 0xb0, 0x1c, 0xaa, 0xb5, 0x0f, 0x1b, 0x8e, 0x9c, 0x50, 0xa5, 0x05, 0x7e, 0xb4, 0x3c, 0x2d,
     0x95, 0x63, 0xa4, 0xee]
  }

  function Id2(): Bytes {
    [0x8c, 0x98, 0x8f, 0x1a, 0x4a, 0x4d, 0xe2, 0x16, 0x1e, 0x0f, 0x50, 0xaa, 0xc7, 0xf1, 0x7e, 0x7f,
     0x95, 0x55, 0xca, 0xa4]
  }

  lemma IdSizes()
    ensures |Id0()| == |Id1()| == |Id2()| == 20
  {
  }

  /** An output paying to a key, as it is stored after its amount's number. */
  lemma KeyOutput(nValue: nat, code: Bytes, id: Bytes, curve: Curve)
    requires |id| == 20 && VarInt.Bytes(Amounts.Compressed(nValue)) == code
    ensures OutBytes(TxOut(nValue, ToKeyID(id)), curve) == code + [0] + id
  {
    StandardForms(id, [], [], curve);
    hide Written, ToKeyID, VarInt.Bytes, Amounts.Compressed;
    assert code + ([0] + id) == code + [0] + id;
  }

  lemma {:induction false} OutsGap(vout: seq<TxOut>, i: nat, j: nat, curve: Curve)
    requires ValuesOk(vout) && i <= j <= |vout| && forall k :: i <= k < j ==> !Avail(vout, k)
    ensures Outs(vout, i, curve) == Outs(vout, j, curve)
    decreases j - i
  {
    hide Outs;
    if i < j {
      OutsSkip(vout, i, curve);
      OutsGap(vout, i + 1, j, curve);
    }
  }

  lemma OutsOne(vout: seq<TxOut>, i: nat, curve: Curve)
    requires ValuesOk(vout) && i < |vout| && vout[i].nValue >= 0
    ensures Outs(vout, i, curve) == OutBytes(vout[i], curve) + Outs(vout, i + 1, curve)
  {
  }

  /** Of the flags from `start` on, only number `k` is set. */
  lemma {:induction false} LowOne(vout: seq<TxOut>, start: nat, n: nat, k: nat)
    requires k < n && Avail(vout, start + k)
    requires forall i :: start <= i < start + n && i != start + k ==> !Avail(vout, i)
    ensures Low(vout, start, n) == Weight(k)
  {
    if k < n - 1 {
      LowOne(vout, start, n - 1, k);
    } else {
      LowIsZero(vout, start, n - 1);
    }
  }

  lemma SmallNumbers()
    ensures VarInt.Bytes(1) == [0x01] && VarInt.Bytes(4) == [0x04] && VarInt.Bytes(9) == [0x09]
    ensures VarInt.Bytes(600) == [0x83, 0x58]
  {
  }

  lemma LargeNumbers()
    ensures VarInt.Bytes(203_998) == [0x8b, 0xb8, 0x5e] && VarInt.Bytes(120_891) == [0x86, 0xaf, 0x3b]
  {
    hide VarInt.Digits, VarInt.Digit;
    DigitsStep(203_998, true);
    DigitsStep(1_592, false);
    DigitsStep(11, false);
    DigitsStep(120_891, true);
    DigitsStep(943, false);
    DigitsStep(6, false);
  }

  lemma AmountNumbers()
    ensures VarInt.Bytes(993_571) == [0xbb, 0xd1, 0x23]
    ensures VarInt.Bytes(2_114_333_561) == [0x86, 0xef, 0x97, 0xd5, 0x79]
  {
    hide VarInt.Digits, VarInt.Digit;
    DigitsStep(993_571, true);
    DigitsStep(7_761, false);
    DigitsStep(59, false);
    DigitsStep(2_114_333_561, true);
    DigitsStep(16_518_229, false);
    DigitsStep(129_047, false);
    DigitsStep(1_007, false);
    DigitsStep(6, false);
  }

  lemma Values()
    ensures Amounts.Compressed(60_000_000_000) == 600
    ensures Amounts.Compressed(234_925_952) == 2_114_333_561
    ensures Amounts.Compressed(110_397) == 993_571
  {
    AmountIs(60, 9);
    AmountIs(234_925_952, 0);
    AmountIs(110_397, 0);
    assert Amounts.Pow10(0) == 1;
    hide Amounts.Compressed;
  }

  /** The first record documented with CCoins: version 1, the second output of a transaction that is no coinbase, of
      600 coins to a key, from block 203998. */
  lemma FirstRecord(curve: Curve)
    ensures
      var c := Coins(false, [NULL_OUT, TxOut(60_000_000_000, ToKeyID(Id0()))], 203_998, 1);
      && ValuesOk(c.vout) && !c.IsPruned()
      && CoinsBytes(c, curve) == [0x01, 0x04, 0x83, 0x58, 0x00] + Id0() + [0x8b, 0xb8, 0x5e]
  {
    hide VarInt.Bytes, Amounts.Compressed, ToKeyID, OutBytes, Id0;
    var out := TxOut(60_000_000_000, ToKeyID(Id0()));
    var c := Coins(false, [NULL_OUT, out], 203_998, 1);
    SmallNumbers();
    LargeNumbers();
    Values();
    IdSizes();
    KeyOutput(60_000_000_000, [0x83, 0x58], Id0(), curve);
    FirstHeader(out, 203_998, 1);
    hide Outs, Mask, MaskSize, HeaderCode, Coins.IsPruned;
    assert c.vout[1] == out;
    OutsGap(c.vout, 0, 1, curve);
    OutsOne(c.vout, 1, curve);
    OutsNone(c.vout, 2, curve);
  }

  lemma FirstHeader(out: TxOut, nHeight: int, nVersion: int)
    requires out.nValue >= 0
    ensures
      var c := Coins(false, [NULL_OUT, out], nHeight, nVersion);
      !c.IsPruned() && HeaderCode(c) == 4 && Mask(c.vout, MaskSize(c.vout)) == []
  {
    var c := Coins(false, [NULL_OUT, out], nHeight, nVersion);
    assert c.vout[1] == out && !c.vout[1].IsNull();
  }

  function SecondOuts(): (vout: seq<TxOut>)
    ensures |vout| == 17 && vout[4] == TxOut(234_925_952, ToKeyID(Id1())) && vout[16] == TxOut(110_397, ToKeyID(Id2()))
    ensures forall i :: 0 <= i < 17 && i != 4 && i != 16 ==> vout[i] == NULL_OUT
  {
    seq(4, _ => NULL_OUT) + [TxOut(234_925_952, ToKeyID(Id1()))] + seq(11, _ => NULL_OUT)
    + [TxOut(110_397, ToKeyID(Id2()))]
  }

  lemma SecondMask()
    ensures MaskByte(SecondOuts(), 0) == 0x04 && MaskByte(SecondOuts(), 1) == 0x40
  {
    hide SecondOuts, Low;
    LowOne(SecondOuts(), 2, 8, 2);
    LowOne(SecondOuts(), 10, 8, 6);
    assert Weight(2) == 4 && Weight(6) == 64;
  }

  lemma SecondCoins(curve: Curve)
    ensures ValuesOk(SecondOuts())
    ensures Outs(SecondOuts(), 0, curve)
         == [0x86, 0xef, 0x97, 0xd5, 0x79, 0x00] + Id1() + ([0xbb, 0xd1, 0x23, 0x00] + Id2())
  {
    hide VarInt.Bytes, Amounts.Compressed, ToKeyID, OutBytes, Id1, Id2, SecondOuts, Outs;
    var vout := SecondOuts();
    AmountNumbers();
    Values();
    IdSizes();
    KeyOutput(234_925_952, [0x86, 0xef, 0x97, 0xd5, 0x79], Id1(), curve);
    KeyOutput(110_397, [0xbb, 0xd1, 0x23], Id2(), curve);
    OutsGap(vout, 0, 4, curve);
    OutsOne(vout, 4, curve);
    OutsGap(vout, 5, 16, curve);
    OutsOne(vout, 16, curve);
    OutsNone(vout, 17, curve);
  }

  lemma SecondHeader(nHeight: int, nVersion: int)
    ensures
      var c := Coins(true, SecondOuts(), nHeight, nVersion);
      && !c.IsPruned() && HeaderCode(c) == 9 && Mask(c.vout, MaskSize(c.vout)) == [0x04, 0x40]
  {
    hide SecondOuts, MaskByte;
    var vout := SecondOuts();
    SecondMask();
    var c := Coins(true, vout, nHeight, nVersion);
    assert vout[4] == TxOut(234_925_952, ToKeyID(Id1()));
    assert !vout[4].IsNull();
    assert NonZero(vout, 1) == 1 && NonZero(vout, 2) == 2;
    assert Mask(vout, 1) == [0x04];
  }

  /** The second: version 1, the fifth and the seventeenth output of a coinbase from block 120891. */
  lemma SecondRecord(curve: Curve)
    ensures
      var c := Coins(true, SecondOuts(), 120_891, 1);
      && ValuesOk(c.vout) && !c.IsPruned()
      && CoinsBytes(c, curve) == [0x01, 0x09, 0x04, 0x40, 0x86, 0xef, 0x97, 0xd5, 0x79, 0x00] + Id1()
                                 + [0xbb, 0xd1, 0x23, 0x00] + Id2() + [0x86, 0xaf, 0x3b]
  {
    hide VarInt.Bytes, Id1, Id2, SecondOuts, Outs, Mask, MaskSize, HeaderCode, ValuesOk, Coins.IsPruned;
    SmallNumbers();
    LargeNumbers();
    SecondHeader(120_891, 1);
    SecondCoins(curve);
  }
}
