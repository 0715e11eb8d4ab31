/** The compact form of proof-of-work targets (CBigNum in src/bignum.h). */
module Compact {
  import opened Quotients

  const TWO24: nat := 0x100_0000
  const SIGN: nat := 0x80_0000

  type uint32 = x: int | 0 <= x < 0x1_0000_0000

  function Pow256(k: nat): (p: nat)
    ensures p >= 1
  {
    if k == 0 then 1 else 256 * Pow256(k - 1)
  }

  /** The bytes `n` takes without leading zeros (BN_num_bytes). */
  function NumBytes(n: nat): nat {
    if n == 0 then 0 else 1 + NumBytes(n / 256)
  }

  /** `n` moved up by `k` bytes. */
  function Up(n: nat, k: nat): nat {
    var p := Pow256(k);
    n * p
  }

  /** `n` moved down by `k` bytes. */
  function Down(n: nat, k: nat): nat {
    Quotient(n, Pow256(k))
  }

  function Quotient(n: nat, d: nat): nat
    requires d > 0
  {
    n / d
  }

  /** `n` moved by whole bytes so that byte `s` of it becomes byte 3. */
  function Shifted(n: nat, s: nat): nat {
    if s <= 3 then Up(n, 3 - s) else Down(n, s - 3)
  }

  /** The exponent a number gets: its bytes, and one more where its top bit would read as a sign. */
  function Exponent(n: nat): nat {
    var s := NumBytes(n);
    if Shifted(n, s) >= SIGN then s + 1 else s
  }

  function Mantissa(n: nat): nat {
    Shifted(n, Exponent(n))
  }

  function Magnitude(e: nat, m: nat): nat {
    if e <= 3 then Down(m, 3 - e) else Up(m, e - 3)
  }

  function Abs(v: int): nat {
    if v < 0 then -v else v
  }

  function Signed(negative: bool, n: nat): int {
    var i: int := n;
    if negative then -i else i
  }

  /** The number a compact value stands for. */
  function Decode(c: uint32): int {
    Signed(c / SIGN % 2 == 1, Magnitude(c / TWO24, c % SIGN))
  }

  /** The compact value of a number. The exponent has eight bits, so a number of 255 bytes or more wraps around. */
  function Encode(v: int): (c: nat) {
    Exponent(Abs(v)) % 256 * TWO24 + (if v < 0 then SIGN else 0) + Mantissa(Abs(v))
  }

  // ---- powers and lengths ------------------------------------------------------

  lemma {:induction false} PowAdd(a: nat, b: nat)
    ensures Pow256(a + b) == Pow256(a) * Pow256(b)
  {
    if a > 0 {
      PowAdd(a - 1, b);
      assert 256 * (Pow256(a - 1) * Pow256(b)) == (256 * Pow256(a - 1)) * Pow256(b);
    }
  }

  lemma {:induction false} PowMonotone(a: nat, b: nat)
    requires a <= b
    ensures Pow256(a) <= Pow256(b)
  {
    if a < b {
      PowMonotone(a, b - 1);
    }
  }

  lemma {:induction false} NumBytesBounds(n: nat)
    requires n > 0
    ensures NumBytes(n) > 0 && Pow256(NumBytes(n) - 1) <= n < Pow256(NumBytes(n))
  {
    if n >= 256 {
      NumBytesBounds(n / 256);
    }
  }

  lemma NumBytesIs(n: nat, s: nat)
    requires s > 0 && Pow256(s - 1) <= n < Pow256(s)
    ensures NumBytes(n) == s
  {
    NumBytesBounds(n);
    var t := NumBytes(n);
    if t < s {
      PowMonotone(t, s - 1);
    } else if t > s {
      PowMonotone(s, t - 1);
    }
  }

  lemma SmallPowers()
    ensures Pow256(0) == 1 && Pow256(1) == 256 && Pow256(2) == 65536 && Pow256(3) == TWO24
  {
    assert Pow256(1) == 256 * Pow256(0);
    assert Pow256(2) == 256 * Pow256(1);
    assert Pow256(3) == 256 * Pow256(2);
  }

  // ---- the shape of an encoding ------------------------------------------------------

  /** The top three bytes of a positive number. */
  lemma ShiftedBounds(n: nat)
    requires n > 0
    ensures 0x1_0000 <= Shifted(n, NumBytes(n)) < TWO24
  {
    NumBytesBounds(n);
    var s := NumBytes(n);
    SmallPowers();
    if s <= 3 {
      assert s == 1 || s == 2 || s == 3;
    } else {
      var d := Pow256(s - 3);
      PowAdd(2, s - 3);
      PowAdd(3, s - 3);
      DivBounds(n, d, 0x1_0000, TWO24);
    }
  }

  /** Dropping the lowest mantissa byte and raising the exponent is one move. */
  lemma ShiftedOneMore(n: nat, s: nat)
    requires s > 0
    ensures Shifted(n, s) / 256 == Shifted(n, s + 1)
  {
    if s < 3 {
      assert Pow256(3 - s) == 256 * Pow256(2 - s);
      assert n * (256 * Pow256(2 - s)) == 256 * (n * Pow256(2 - s));
    } else if s == 3 {
      SmallPowers();
    } else {
      DivTwice(n, Pow256(s - 3));
    }
  }

  lemma MantissaBounds(n: nat)
    requires n > 0
    ensures 0x8000 <= Mantissa(n) < SIGN
    ensures NumBytes(n) <= Exponent(n) <= NumBytes(n) + 1
  {
    hide Shifted, NumBytes;
    ShiftedBounds(n);
    NumBytesBounds(n);
    ShiftedOneMore(n, NumBytes(n));
  }

  // ---- rounding ------------------------------------------------------

  /** The number that encoding and decoding `n` leaves. */
  function RoundDown(n: nat): nat {
    Magnitude(Exponent(n), Mantissa(n))
  }

  lemma DownOfUp(n: nat, k: nat)
    ensures Down(Up(n, k), k) == n
  {
    DivOfMultiple(n, Pow256(k));
  }

  lemma UpOfDown(n: nat, k: nat)
    ensures Up(Down(n, k), k) == n - n % Pow256(k)
  {
    var d := Pow256(k);
    assert n == d * (n / d) + n % d;
    assert (n / d) * d == d * (n / d);
  }

  /** Rounding cuts the bytes below the mantissa and nothing else. */
  lemma RoundDownIs(n: nat)
    ensures Exponent(n) <= 3 ==> RoundDown(n) == n
    ensures Exponent(n) > 3 ==> RoundDown(n) == n - n % Pow256(Exponent(n) - 3)
  {
    hide Exponent, Up, Down, Pow256;
    var e := Exponent(n);
    if e <= 3 {
      DownOfUp(n, 3 - e);
    } else {
      UpOfDown(n, e - 3);
    }
  }

  /** Less than one part in 2^15 is lost, and never anything gained. */
  lemma RoundingLoss(n: nat)
    requires n > 0
    ensures RoundDown(n) <= n
    ensures n * 0x8000 < RoundDown(n) * 0x8001
  {
    hide Exponent, Down, Pow256;
    RoundDownIs(n);
    MantissaBounds(n);
    var e := Exponent(n);
    if e > 3 {
      var d := Pow256(e - 3);
      var m := Mantissa(n);
      assert RoundDown(n) == m * d;
      MulMonotone(0x8000, m, d);
      assert n % d < d;
    }
  }

  lemma ShiftedMonotone(n: nat, k: nat, s: nat)
    requires n <= k
    ensures Shifted(n, s) <= Shifted(k, s)
  {
    if s <= 3 {
      MulMonotone(n, k, Pow256(3 - s));
    } else {
      DivMonotone(n, k, Pow256(s - 3));
    }
  }

  lemma NumBytesMonotone(n: nat, k: nat)
    requires 0 < n <= k
    ensures NumBytes(n) <= NumBytes(k)
  {
    hide Pow256;
    NumBytesBounds(n);
    NumBytesBounds(k);
    var s, t := NumBytes(k), NumBytes(n) - 1;
    if s <= t {
      PowMonotone(s, t);
    }
  }

  lemma ExponentMonotone(n: nat, k: nat)
    requires 0 < n <= k
    ensures Exponent(n) <= Exponent(k)
  {
    hide Shifted, NumBytes;
    NumBytesMonotone(n, k);
    MantissaBounds(n);
    MantissaBounds(k);
    if NumBytes(n) == NumBytes(k) {
      ShiftedMonotone(n, k, NumBytes(n));
    }
  }

  lemma ZeroMoved(k: nat)
    ensures Up(0, k) == 0 && Down(0, k) == 0
  {
    hide Pow256;
    assert 0 * Pow256(k) == 0;
    DivBounds(0, Pow256(k), 0, 1);
  }

  lemma ZeroIsZero()
    ensures Exponent(0) == 0 && Mantissa(0) == 0 && RoundDown(0) == 0 && Encode(0) == 0
  {
    hide Up, Down, Pow256;
    ZeroMoved(3);
    assert Shifted(0, 0) == 0;
  }

  lemma EncodeFits(v: int)
    ensures Encode(v) < 0x1_0000_0000
    ensures Mantissa(Abs(v)) < SIGN
  {
    hide Exponent, Mantissa;
    if v == 0 {
      ZeroIsZero();
    } else {
      MantissaBounds(Abs(v));
    }
  }

  /** What decoding an encoding gives: the sign is kept and the size is rounded down. */
  lemma DecodeEncode(v: int)
    requires Exponent(Abs(v)) < 256
    ensures Encode(v) < 0x1_0000_0000
    ensures Decode(Encode(v)) == Signed(v < 0, RoundDown(Abs(v)))
  {
    hide Exponent, Mantissa, Magnitude;
    EncodeFits(v);
    var e, m := Exponent(Abs(v)), Mantissa(Abs(v));
    var c := Encode(v);
    Fields(e, v < 0, m, c);
  }

  /** The three fields of a compact value. */
  lemma Fields(e: nat, negative: bool, m: nat, c: nat)
    requires e < 256 && m < SIGN
    requires c == e * TWO24 + (if negative then SIGN else 0) + m
    ensures c < 0x1_0000_0000
    ensures c / TWO24 == e && c / SIGN % 2 == (if negative then 1 else 0) && c % SIGN == m
  {
    assert c / SIGN == 2 * e + (if negative then 1 else 0);
  }

  /** A target stored in compact form loses less than one part in 2^15 and is never raised. */
  lemma CompactLoss(n: nat)
    requires n > 0 && Exponent(n) < 256
    ensures Encode(n) < 0x1_0000_0000
    ensures Decode(Encode(n)) <= n && n * 0x8000 < Decode(Encode(n)) * 0x8001
  {
    hide Exponent, RoundDown, Decode, Encode;
    DecodeEncode(n);
    RoundingLoss(n);
  }

  /** Encoding does not reorder targets. */
  lemma EncodeMonotone(n: nat, k: nat)
    requires n <= k && Exponent(k) < 256
    ensures Encode(n) <= Encode(k)
  {
    hide Exponent, Shifted, NumBytes;
    if n == 0 {
      ZeroIsZero();
    } else {
      MantissaBounds(n);
      MantissaBounds(k);
      ExponentMonotone(n, k);
      if Exponent(n) == Exponent(k) {
        ShiftedMonotone(n, k, Exponent(n));
      }
    }
  }

  // ---- values that come from decoding ------------------------------------------------------

  /** The exponent and mantissa an encoder would have written. */
  predicate Normal(e: nat, m: nat) {
    0x8000 <= m < SIGN && (e < 3 ==> m % Pow256(3 - e) == 0)
  }

  lemma NormalSmall(e: nat, m: nat)
    requires Normal(e, m) && e <= 3
    ensures var v := Magnitude(e, m); v > 0 && Exponent(v) == e && Mantissa(v) == m
  {
    SmallPowers();
    if e == 3 {
      NumBytesIs(m, if m >= 0x1_0000 then 3 else 2);
    } else if e == 2 {
      NumBytesIs(m / 256, if m / 256 >= 256 then 2 else 1);
    } else if e == 1 {
      NumBytesIs(m / 65536, 1);
    }
  }

  lemma NormalLarge(e: nat, m: nat)
    requires Normal(e, m) && e > 3
    ensures var v := Magnitude(e, m); v > 0 && Exponent(v) == e && Mantissa(v) == m
  {
    hide Shifted, NumBytes, Up, Down, Pow256;
    var v := Magnitude(e, m);
    var s := if m >= 0x1_0000 then e else e - 1;
    SmallPowers();
    UpHasBytes(m, if m >= 0x1_0000 then 3 else 2, e - 3);
    assert NumBytes(v) == s;
    ShiftedOfUp(m, e);
    if s == e - 1 {
      ShiftedOfUpBefore(m, e);
    }
  }

  lemma ShiftedOfUp(m: nat, e: nat)
    requires e > 3
    ensures Shifted(Up(m, e - 3), e) == m
  {
    DownOfUp(m, e - 3);
  }

  lemma ShiftedOfUpBefore(m: nat, e: nat)
    requires e > 3
    ensures Shifted(Up(m, e - 3), e - 1) == 256 * m
  {
    var d := Pow256(e - 4);
    assert Pow256(e - 3) == 256 * d;
    assert m * (256 * d) == (256 * m) * d;
    if e == 4 {
      assert Up(Up(m, 1), 0) == Up(m, 1);
    } else {
      assert Up(m, e - 3) == Up(256 * m, e - 4);
      DownOfUp(256 * m, e - 4);
    }
  }

  /** Moving up `k` bytes adds `k` bytes. */
  lemma UpHasBytes(m: nat, s: nat, k: nat)
    requires s > 0 && Pow256(s - 1) <= m < Pow256(s)
    ensures Up(m, k) > 0 && NumBytes(Up(m, k)) == s + k
  {
    hide NumBytes;
    var d := Pow256(k);
    PowAdd(s - 1, k);
    PowAdd(s, k);
    MulMonotone(Pow256(s - 1), m, d);
    MulMonotone(m + 1, Pow256(s), d);
    assert (m + 1) * d == m * d + d;
    NumBytesIs(m * d, s + k);
  }

  lemma UpIsMultiple(m: nat, k: nat, j: nat)
    requires j <= k
    ensures Up(m, k) % Pow256(j) == 0
  {
    var d := Pow256(j);
    var q := m * Pow256(k - j);
    PowAdd(k - j, j);
    assert m * (Pow256(k - j) * d) == q * d;
    ProductMod(q, d);
  }

  lemma NumBytesSmall(m: nat)
    requires 0 < m < TWO24
    ensures 1 <= NumBytes(m) <= 3
  {
    SmallPowers();
    NumBytesIs(m, if m >= 0x1_0000 then 3 else if m >= 0x100 then 2 else 1);
  }

  /** Encoding what was decoded rounds nothing off. */
  lemma DecodedIsExact(e: nat, m: nat)
    requires m < SIGN
    ensures var v := Magnitude(e, m); RoundDown(v) == v && Exponent(v) <= (if e <= 3 then 3 else e)
  {
    hide Shifted, NumBytes, Up, Down, Pow256, RoundDown;
    var v := Magnitude(e, m);
    RoundDownIs(v);
    if v == 0 {
      ZeroIsZero();
    } else if e <= 3 {
      DownShrinks(m, 3 - e);
      ExponentSmall(v);
    } else {
      UpExponent(m, e - 3);
      if Exponent(v) > 3 {
        UpIsMultiple(m, e - 3, Exponent(v) - 3);
      }
    }
  }

  lemma DownShrinks(m: nat, k: nat)
    ensures Down(m, k) <= m
  {
    hide Pow256;
    var d := Pow256(k);
    MulMonotone(1, d, m + 1);
    DivBounds(m, d, 0, m + 1);
  }

  lemma ExponentSmall(v: nat)
    requires 0 < v < SIGN
    ensures Exponent(v) <= 3
  {
    hide NumBytes, Pow256;
    NumBytesSmall(v);
    SmallPowers();
    if NumBytes(v) == 3 {
      assert Shifted(v, 3) == v;
    }
  }

  lemma UpExponent(m: nat, k: nat)
    requires m < SIGN && Up(m, k) > 0 && k > 0
    ensures Exponent(Up(m, k)) <= k + 3
  {
    hide Shifted, NumBytes, Pow256;
    var v := Up(m, k);
    if m == 0 {
      ZeroMoved(k);
    }
    NumBytesSmall(m);
    NumBytesBounds(m);
    UpHasBytes(m, NumBytes(m), k);
    ShiftedOfUp(m, k + 3);
  }

  lemma EncodedIsNormal(n: nat)
    requires n > 0
    ensures Normal(Exponent(n), Mantissa(n))
  {
    hide Exponent, Pow256;
    MantissaBounds(n);
    var e := Exponent(n);
    if e < 3 {
      UpIsMultiple(n, 3 - e, 3 - e);
    }
  }

  lemma NormalIsKept(e: nat, m: nat)
    requires Normal(e, m)
    ensures var v := Magnitude(e, m); v > 0 && Exponent(v) == e && Mantissa(v) == m
  {
    hide *;
    if e <= 3 {
      NormalSmall(e, m);
    } else {
      NormalLarge(e, m);
    }
  }

  /** One round of encoding and decoding is enough: a second changes nothing. */
  lemma Idempotent(v: int)
    requires Exponent(Abs(v)) < 256
    ensures Encode(v) < 0x1_0000_0000 && Encode(Decode(Encode(v))) == Encode(v)
  {
    hide Exponent, Mantissa, Magnitude, Normal, Decode;
    DecodeEncode(v);
    if v == 0 {
      ZeroIsZero();
    } else {
      EncodedIsNormal(Abs(v));
      NormalIsKept(Exponent(Abs(v)), Mantissa(Abs(v)));
    }
  }

  lemma Recoded(e: nat, negative: bool, m: nat)
    requires e < 256 && m < SIGN
    ensures var v := Magnitude(e, m);
      Encode(Signed(negative, v)) ==
      if v == 0 then 0 else Exponent(v) * TWO24 + (if negative then SIGN else 0) + Mantissa(v)
  {
    hide Exponent, Mantissa, Magnitude;
    DecodedIsExact(e, m);
    ZeroIsZero();
  }

  /** The compact values that survive decoding and encoding are zero and those with a normal mantissa. */
  lemma CanonicalIff(c: uint32)
    ensures Encode(Decode(c)) == c <==> c == 0 || Normal(c / TWO24, c % SIGN)
  {
    hide Exponent, Mantissa, Magnitude, Normal, Encode;
    var e, m, negative := c / TWO24, c % SIGN, c / SIGN % 2 == 1;
    assert c == e * TWO24 + (if negative then SIGN else 0) + m;
    var v := Magnitude(e, m);
    Recoded(e, negative, m);
    DecodedIsExact(e, m);
    if Normal(e, m) {
      NormalIsKept(e, m);
    } else if c == 0 {
      ZeroIsZero();
    } else if v > 0 && Encode(Decode(c)) == c {
      EncodedIsNormal(v);
      MantissaBounds(v);
      Fields(Exponent(v), negative, Mantissa(v), c);
    }
  }

  /** Among the targets a compact value can stand for, encoding picks the greatest not above `n`. */
  lemma EncodesGreatestBelow(n: nat, c: uint32)
    requires Exponent(n) < 256 && Decode(c) <= n
    ensures Encode(n) < 0x1_0000_0000 && Decode(c) <= Decode(Encode(n)) <= n
  {
    hide Exponent, Mantissa, Magnitude, RoundDown;
    DecodeEncode(n);
    RoundDownIs(n);
    if n > 0 {
      RoundingLoss(n);
    } else {
      ZeroIsZero();
    }
    if Decode(c) > 0 {
      DecodedIsExact(c / TWO24, c % SIGN);
      RoundDownMonotone(Decode(c), n);
    }
  }

  lemma MagnitudeMonotone(e: nat, a: nat, b: nat)
    requires a <= b
    ensures Magnitude(e, a) <= Magnitude(e, b)
  {
    hide Pow256;
    if e <= 3 {
      DivMonotone(a, b, Pow256(3 - e));
    } else {
      MulMonotone(a, b, Pow256(e - 3));
    }
  }

  lemma RoundDownMonotone(v: nat, n: nat)
    requires 0 < v <= n
    ensures RoundDown(v) <= RoundDown(n)
  {
    hide Exponent, Magnitude, Shifted;
    ExponentMonotone(v, n);
    if Exponent(v) == Exponent(n) {
      ShiftedMonotone(v, n, Exponent(v));
      MagnitudeMonotone(Exponent(v), Mantissa(v), Mantissa(n));
    } else {
      MantissaBounds(v);
      MantissaBounds(n);
      ExponentApart(Exponent(v), Mantissa(v), Exponent(n), Mantissa(n));
    }
  }

  /** A full mantissa one byte lower is below the smallest mantissa. */
  lemma ExponentApart(e: nat, m: nat, f: nat, k: nat)
    requires e < f && m < SIGN && 0x8000 <= k
    ensures Magnitude(e, m) <= Magnitude(f, k)
  {
    SmallPowers();
    if f <= 3 {
      SmallExponentApart(e, m, f, k);
    } else {
      var d := Pow256(f - 4);
      assert Pow256(f - 3) == 256 * d;
      assert k * (256 * d) == (256 * k) * d;
      MulMonotone(m, 256 * k, d);
      if e <= 3 {
        DownShrinks(m, 3 - e);
        MulMonotone(1, d, m);
      } else {
        PowMonotone(e - 3, f - 4);
        MulMonotone(Pow256(e - 3), d, m);
      }
    }
  }

  lemma SmallExponentApart(e: nat, m: nat, f: nat, k: nat)
    requires e < f <= 3 && m < SIGN && 0x8000 <= k
    ensures Magnitude(e, m) <= Magnitude(f, k)
  {
    hide Pow256;
    SmallPowers();
    assert m / TWO24 == 0;
    assert m / 65536 <= k / 256;
    assert m / 256 <= k;
  }

  // ---- the object ------------------------------------------------------

  /** An arbitrary-precision number. */
  class CBigNum {
    var value: int

    constructor ()
      ensures value == 0
    {
      value := 0;
    }

    method SetCompact(nCompact: uint32)
      modifies this
      ensures value == Decode(nCompact)
    {
      var nSize := nCompact / TWO24;
      var fNegative := nCompact / SIGN % 2 == 1;
      var nWord: nat := nCompact % SIGN;
      if nSize <= 3 {
        nWord := Down(nWord, 3 - nSize);
        value := nWord;
      } else {
        value := nWord;
        value := Up(nWord, nSize - 3);
      }
      if fNegative {
        value := -value;
      }
    }

    method GetCompact() returns (nCompact: uint32)
      ensures nCompact == Encode(value)
    {
      hide Exponent, Mantissa, NumBytes, Pow256;
      EncodeFits(value);
      var n := Abs(value);
      var nSize := NumBytes(n);
      var c: nat;
      if nSize <= 3 {
        c := Up(n, 3 - nSize);
      } else {
        c := Down(n, nSize - 3);
      }
      assert c == Shifted(n, nSize);
      ExponentSplit(n);
      if c >= SIGN {
        c := c / 256;
        nSize := nSize + 1;
      }
      nCompact := nSize % 256 * TWO24 + c + (if value < 0 then SIGN else 0);
    }
  }

  /** The two outcomes of normalising a mantissa. */
  lemma ExponentSplit(n: nat)
    ensures var s := NumBytes(n);
      if Shifted(n, s) >= SIGN then Exponent(n) == s + 1 && Mantissa(n) == Shifted(n, s) / 256
      else Exponent(n) == s && Mantissa(n) == Shifted(n, s)
  {
    hide Shifted, NumBytes;
    if n == 0 {
      ZeroIsZero();
      ZeroHasNoBytes();
    } else {
      NumBytesBounds(n);
      ShiftedOneMore(n, NumBytes(n));
    }
  }

  lemma ZeroHasNoBytes()
    ensures NumBytes(0) == 0 && Shifted(0, 0) == 0
  {
    ZeroMoved(3);
  }
}
