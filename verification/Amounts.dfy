/** The compressed form of amounts (CTxOutCompressor in src/main.cpp). */
module Amounts {

  function Pow10(e: nat): (p: nat)
    ensures p >= 1
  {
    if e == 0 then 1 else 10 * Pow10(e - 1)
  }

  /** The decimal zeros at the end of `n`, at most 9 of them. */
  function Zeros(n: nat): (e: nat)
    requires n > 0
    ensures e <= 9
  {
    ZerosUpTo(n, 9)
  }

  function ZerosUpTo(n: nat, max: nat): (e: nat)
    requires n > 0
    ensures e <= max
  {
    if max == 0 || n % 10 != 0 then 0 else 1 + ZerosUpTo(n / 10, max - 1)
  }

  function Drop(n: nat, e: nat): nat {
    if e == 0 then n else Drop(n / 10, e - 1)
  }

  function Compressed(n: nat): nat {
    if n == 0 then 0
    else
      DropIs(n, 9);
      var e := Zeros(n);
      var m := Drop(n, e);
      if e < 9 then 1 + (m / 10 * 9 + m % 10 - 1) * 10 + e else 1 + (m - 1) * 10 + 9
  }

  function Decompressed(x: nat): nat {
    if x == 0 then 0
    else
      var e := (x - 1) % 10;
      var y := (x - 1) / 10;
      (if e < 9 then y / 9 * 10 + y % 9 + 1 else y + 1) * Pow10(e)
  }

  lemma {:induction false} DropIs(n: nat, max: nat)
    requires n > 0
    ensures var e := ZerosUpTo(n, max);
      Drop(n, e) > 0 && Drop(n, e) * Pow10(e) == n && (e < max ==> Drop(n, e) % 10 != 0)
  {
    if max > 0 && n % 10 == 0 {
      DropIs(n / 10, max - 1);
      var e := ZerosUpTo(n / 10, max - 1);
      var m := Drop(n / 10, e);
      assert m * (10 * Pow10(e)) == 10 * (m * Pow10(e));
    }
  }

  /** Zeros put on are the zeros found. */
  lemma {:induction false} ZerosOf(m: nat, e: nat, max: nat)
    requires m > 0 && e <= max && (e < max ==> m % 10 != 0)
    ensures m * Pow10(e) > 0 && ZerosUpTo(m * Pow10(e), max) == e && Drop(m * Pow10(e), e) == m
  {
    if e > 0 {
      ZerosOf(m, e - 1, max - 1);
      var n := m * Pow10(e - 1);
      TenTimes(m, Pow10(e - 1));
      assert m * Pow10(e) == 10 * n;
      assert ZerosUpTo(10 * n, max) == 1 + ZerosUpTo(n, max - 1);
    } else {
      assert m * Pow10(0) == m;
    }
  }

  lemma TenTimes(m: nat, p: nat)
    ensures m * (10 * p) == 10 * (m * p)
    ensures (10 * (m * p)) % 10 == 0 && (10 * (m * p)) / 10 == m * p
  {
  }

  /** Decompressing undoes compressing, for every amount. */
  lemma DecompressCompress(n: nat)
    ensures Decompressed(Compressed(n)) == n
  {
    if n > 0 {
      DropIs(n, 9);
      var e := Zeros(n);
      var m := Drop(n, e);
      var y := if e < 9 then m / 10 * 9 + m % 10 - 1 else m - 1;
      assert Compressed(n) == 1 + y * 10 + (if e < 9 then e else 9);
      Split(y, e);
      if e < 9 {
        SplitNine(m / 10, m % 10 - 1);
      }
    }
  }

  lemma Split(y: nat, e: nat)
    requires e <= 9
    ensures (y * 10 + e) % 10 == e && (y * 10 + e) / 10 == y
  {
  }

  lemma SplitNine(q: nat, r: nat)
    requires r < 9
    ensures (q * 9 + r) % 9 == r && (q * 9 + r) / 9 == q
  {
  }

  /** Compressing undoes decompressing, for every code: no two codes mean the same amount. */
  lemma CompressDecompress(x: nat)
    ensures Compressed(Decompressed(x)) == x
  {
    if x > 0 {
      var e := (x - 1) % 10;
      var y := (x - 1) / 10;
      var m := if e < 9 then y / 9 * 10 + y % 9 + 1 else y + 1;
      ZerosOf(m, e, 9);
      if e < 9 {
        assert m / 10 == y / 9 && m % 10 == y % 9 + 1;
      }
    }
  }

  const UINT64 := 0x1_0000_0000_0000_0000

  /** The code of an amount below a hundredth of the 64-bit range is in that range. */
  lemma Fits(n: nat)
    requires n < UINT64 / 100
    ensures Compressed(n) < UINT64
  {
    if n > 0 {
      DropIs(n, 9);
      var e := Zeros(n);
      var m := Drop(n, e);
      MulAtLeast(m, Pow10(e));
    }
  }

  lemma MulAtLeast(m: nat, p: nat)
    requires p >= 1
    ensures m <= m * p
  {
    assert m * p == m + m * (p - 1);
  }

  method CompressAmount(nAmount: nat) returns (x: nat)
    ensures x == Compressed(nAmount)
  {
    if nAmount == 0 {
      return 0;
    }
    var n, e := nAmount, 0;
    while n % 10 == 0 && e < 9
      invariant 0 < n <= nAmount && 0 <= e <= 9
      invariant e + ZerosUpTo(n, 9 - e) == Zeros(nAmount)
      invariant Drop(n, ZerosUpTo(n, 9 - e)) == Drop(nAmount, Zeros(nAmount))
      decreases 9 - e
    {
      n := n / 10;
      e := e + 1;
    }
    if e < 9 {
      var d := n % 10;
      assert 1 <= d <= 9;
      n := n / 10;
      return 1 + (n * 9 + d - 1) * 10 + e;
    } else {
      return 1 + (n - 1) * 10 + 9;
    }
  }

  lemma MoveTen(n: nat, p: nat)
    ensures n * (10 * p) == (n * 10) * p
  {
  }

  lemma WrapTen(a: nat)
    ensures a % UINT64 * 10 % UINT64 == a * 10 % UINT64
  {
    assert a == UINT64 * (a / UINT64) + a % UINT64;
  }

  /** The multiplications wrap around in 64 bits: a code above those of 64-bit amounts gives the amount modulo 2^64. */
  method DecompressAmount(code: nat) returns (n: nat)
    requires code < UINT64
    ensures n == Decompressed(code) % UINT64
  {
    if code == 0 {
      return 0;
    }
    var x := code - 1;
    var e := x % 10;
    x := x / 10;
    if e < 9 {
      var d := x % 9 + 1;
      x := x / 9;
      n := x * 10 + d;
    } else {
      n := x + 1;
    }
    ghost var whole := n;
    while e != 0
      invariant 0 <= e <= 9 && whole * Pow10(e) == Decompressed(code)
      invariant n == whole % UINT64
      decreases e
    {
      MoveTen(whole, Pow10(e - 1));
      WrapTen(whole);
      n := n * 10 % UINT64;
      whole := whole * 10;
      e := e - 1;
    }
  }
}
