/** 32-bit words and their exclusive or, bit by bit. */
module Words {
  import opened Quotients

  type word = x: int | 0 <= x < 0x1_0000_0000

  /** The exclusive or of the last `n` bits. */
  function XorLow(n: nat, a: nat, b: nat): (r: nat)
    ensures r < Pow2(n)
  {
    if n == 0 then 0 else 2 * XorLow(n - 1, a / 2, b / 2) + if a % 2 == b % 2 then 0 else 1
  }

  function Xor(a: word, b: word): word {
    Pow32();
    XorLow(32, a, b)
  }

  lemma Pow32()
    ensures Pow2(32) == 0x1_0000_0000
  {
    assert Pow2(8) == 256;
    assert Pow2(16) == 65536;
    assert Pow2(24) == 0x100_0000;
  }

  function Bit(a: nat, k: nat): nat {
    a / Pow2(k) % 2
  }

  lemma HalfFirst(n: nat, p: nat)
    requires p > 0
    ensures n / (2 * p) == n / 2 / p
  {
    var q := n / 2 / p;
    var h := n / 2;
    assert h == p * q + h % p;
    assert n == 2 * h + n % 2;
    assert q * (2 * p) == 2 * (p * q);
    assert (q + 1) * (2 * p) == 2 * (p * q) + 2 * p;
    DivIs(n, 2 * p, q);
  }

  lemma BitNext(a: nat, k: nat)
    requires k > 0
    ensures Bit(a, k) == Bit(a / 2, k - 1)
  {
    HalfFirst(a, Pow2(k - 1));
  }

  lemma BitFirst(a: nat)
    ensures Bit(a, 0) == a % 2
  {
  }

  /** A bit of the exclusive or is set exactly where the two differ. */
  lemma {:induction false} XorLowBit(n: nat, a: nat, b: nat, k: nat)
    requires k < n
    ensures Bit(XorLow(n, a, b), k) == 1 <==> Bit(a, k) != Bit(b, k)
  {
    var x := XorLow(n, a, b);
    assert x / 2 == XorLow(n - 1, a / 2, b / 2) && x % 2 == if a % 2 == b % 2 then 0 else 1;
    hide Bit, XorLow, Pow2;
    if k == 0 {
      BitFirst(x);
      BitFirst(a);
      BitFirst(b);
    } else {
      BitNext(x, k);
      BitNext(a, k);
      BitNext(b, k);
      XorLowBit(n - 1, a / 2, b / 2, k - 1);
    }
  }

  lemma BitRange(a: nat, k: nat)
    ensures 0 <= Bit(a, k) <= 1
  {
  }

  /** Numbers with the same bits are the same. */
  lemma {:induction false} SameBits(n: nat, a: nat, b: nat)
    requires a < Pow2(n) && b < Pow2(n) && forall k :: 0 <= k < n ==> Bit(a, k) == Bit(b, k)
    ensures a == b
  {
    if n > 0 {
      forall k | 0 <= k < n - 1
        ensures Bit(a / 2, k) == Bit(b / 2, k)
      {
        BitNext(a, k + 1);
        BitNext(b, k + 1);
      }
      assert Bit(a, 0) == Bit(b, 0);
      BitFirst(a);
      BitFirst(b);
      SameBits(n - 1, a / 2, b / 2);
    }
  }

  /** What a word with these bits is. */
  ghost predicate Differs(x: word, a: word, b: word) {
    forall k :: 0 <= k < 32 ==> (Bit(x, k) == 1 <==> Bit(a, k) != Bit(b, k))
  }

  lemma XorIs(x: word, a: word, b: word)
    ensures x == Xor(a, b) <==> Differs(x, a, b)
  {
    Pow32();
    var y := Xor(a, b);
    forall k | 0 <= k < 32
      ensures Bit(y, k) == 1 <==> Bit(a, k) != Bit(b, k)
    {
      XorLowBit(32, a, b, k);
    }
    if Differs(x, a, b) {
      forall k | 0 <= k < 32
        ensures Bit(x, k) == Bit(y, k)
      {
        BitRange(x, k);
        BitRange(y, k);
      }
      SameBits(32, x, y);
    }
    hide Bit, Xor, XorLow;
  }

  /** Nothing is left of a word against itself. */
  lemma XorSelf(a: word)
    ensures Xor(a, a) == 0
  {
    forall k | 0 <= k < 32
      ensures Bit(0, k) == 0
    {
      DivBounds(0, Pow2(k), 0, 1);
    }
    XorIs(0, a, a);
    hide Bit, Xor, XorLow;
  }

  /** Twice the same word restores the other. */
  lemma XorTwice(a: word, b: word)
    ensures Xor(a, Xor(a, b)) == b
  {
    hide Bit, Xor, XorLow;
    XorIs(Xor(a, b), a, b);
    forall k | 0 <= k < 32
      ensures Bit(b, k) == 1 <==> Bit(a, k) != Bit(Xor(a, b), k)
    {
      BitRange(a, k);
      BitRange(b, k);
      BitRange(Xor(a, b), k);
    }
    XorIs(b, a, Xor(a, b));
  }
}
