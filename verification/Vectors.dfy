/** Values the unit tests and the documentation of the repository fix: compact targets (src/test/bignum_tests.cpp,
    src/bignum.h), amounts (src/test/compress_tests.cpp) and numbers (src/serialize.h). */
module Vectors {
  import opened Quotients
  import Amounts
  import CodecMeaning
  import Compact
  import VarInt

  // ---- compact targets ------------------------------------------------------------------------------

  /** The fields of a compact value, put together. */
  function Fields(e: nat, negative: bool, m: nat): nat {
    e * 0x100_0000 + (if negative then 0x80_0000 else 0) + m
  }

  function Scaled(e: nat, m: nat): nat {
    if e >= 3 then m * Compact.Pow256(e - 3)
    else if e == 2 then m / 0x100
    else if e == 1 then m / 0x1_0000
    else m / 0x100_0000
  }

  /** A compact value stands for the number documented: the mantissa times a power of 256, towards zero below 3. */
  lemma CompactIs(e: nat, negative: bool, m: nat)
    requires e < 256 && m < 0x80_0000
    ensures Fields(e, negative, m) < 0x1_0000_0000
    ensures
      var n: int := Scaled(e, m);
      Compact.Decode(Fields(e, negative, m)) == if negative then -n else n
  {
    var c := Fields(e, negative, m);
    var high := 2 * e + if negative then 1 else 0;
    assert c == high * 0x80_0000 + m;
    DivIs(c, 0x80_0000, high);
    DivIs(c, 0x100_0000, e);
    assert c % 0x80_0000 == m;
    Compact.SmallPowers();
    hide Compact.Pow256;
  }

  lemma CompactVectors()
    ensures Compact.Decode(0x0112_3456) == 0x12 && Compact.Decode(0x01fe_dcba) == -0x7e
    ensures Compact.Decode(0x0212_3456) == 0x1234 && Compact.Decode(0x0312_3456) == 0x12_3456
    ensures Compact.Decode(0x0412_3456) == 0x1234_5600 && Compact.Decode(0x0492_3456) == -0x1234_5600
    ensures Compact.Decode(0x0500_9234) == 0x9234_0000
  {
    hide Compact.Decode, Compact.Pow256;
    Compact.SmallPowers();
    CompactIs(1, false, 0x12_3456);
    CompactIs(1, true, 0x7e_dcba);
    CompactIs(2, false, 0x12_3456);
    CompactIs(3, false, 0x12_3456);
    CompactIs(4, false, 0x12_3456);
    CompactIs(4, true, 0x12_3456);
    CompactIs(5, false, 0x00_9234);
  }

  /** Those that are as short as they can be come back. */
  lemma CompactBack()
    ensures Compact.Encode(0x12_3456) == 0x0312_3456 && Compact.Encode(0x1234_5600) == 0x0412_3456
    ensures Compact.Encode(-0x1234_5600) == 0x0492_3456 && Compact.Encode(0x9234_0000) == 0x0500_9234
  {
    hide Compact.Decode, Compact.Encode;
    CompactVectors();
    Compact.CanonicalIff(0x0312_3456);
    Compact.CanonicalIff(0x0412_3456);
    Compact.CanonicalIff(0x0492_3456);
    Compact.CanonicalIff(0x0500_9234);
  }

  // ---- amounts and numbers ------------------------------------------------------------------------------

  lemma AmountVectors()
    ensures Amounts.Compressed(0) == 0 && Amounts.Compressed(1) == 0x1 && Amounts.Compressed(1_000_000) == 0x7
    ensures Amounts.Compressed(100_000_000) == 0x9 && Amounts.Compressed(5_000_000_000) == 0x32
    ensures Amounts.Compressed(2_100_000_000_000_000) == 0x140_6f40
  {
    CodecMeaning.AmountIs(1, 0);
    CodecMeaning.AmountIs(1, 6);
    CodecMeaning.AmountIs(1, 8);
    CodecMeaning.AmountIs(5, 9);
    CodecMeaning.AmountIs(2_100_000, 9);
    Tens();
    Nothing();
    hide Amounts.Compressed, Amounts.Pow10;
  }

  lemma Tens()
    ensures Amounts.Pow10(0) == 1 && Amounts.Pow10(6) == 1_000_000 && Amounts.Pow10(8) == 100_000_000
  {
    assert Amounts.Pow10(4) == 10_000;
  }

  lemma Nothing()
    ensures Amounts.Compressed(0) == 0
  {
  }

  /** The last two are not what the comment says: the bytes it gives stand for 32895 and 65407. */
  lemma NumberVectors()
    ensures VarInt.Bytes(127) == [0x7F] && VarInt.Bytes(128) == [0x80, 0x00] && VarInt.Bytes(255) == [0x80, 0x7F]
    ensures VarInt.Bytes(16383) == [0xFE, 0x7F] && VarInt.Bytes(16384) == [0xFF, 0x00]
    ensures VarInt.Bytes(16511) == [0xFF, 0x7F] && VarInt.Bytes(65535) == [0x82, 0xFE, 0x7F]
    ensures VarInt.Bytes(32895) == [0x80, 0xFF, 0x7F] && VarInt.Bytes(65407) == [0x82, 0xFD, 0x7F]
  {
  }
}
