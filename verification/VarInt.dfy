/** The variable-length integers of src/serialize.h: base 128, most significant digit first, the high bit
    set on all but the last, and one subtracted from every digit but the last. */
module VarInt {
  import opened Basics

  /** The lowest digit, with the mark that another follows. */
  function Digit(n: nat, last: bool): byte {
    (n % 128 + if last then 0 else 128) as byte
  }

  /** The digits of `n`; `last` when its lowest digit ends the number. */
  function Digits(n: nat, last: bool): (s: seq<byte>)
    ensures |s| >= 1
  {
    (if n > 0x7F then Digits(n / 128 - 1, false) else []) + [Digit(n, last)]
  }

  /** What WriteVarInt writes. */
  function Bytes(n: nat): seq<byte> {
    Digits(n, true)
  }

  /** ReadVarInt, having read `n` so far. */
  function Parse(n: nat, s: seq<byte>): Option<(nat, seq<byte>)>
    decreases |s|
  {
    if s == [] then None
    else
      var m := n * 128 + s[0] % 128;
      if s[0] >= 128 then Parse(m + 1, s[1..]) else Some((m, s[1..]))
  }

  lemma {:induction false} ParseDigits(n: nat, rest: seq<byte>)
    ensures Parse(0, Digits(n, false) + rest) == Parse(n + 1, rest)
  {
    var d := (n % 128 + 128) as byte;
    if n > 0x7F {
      var high := Digits(n / 128 - 1, false);
      ParseDigits(n / 128 - 1, [d] + rest);
      assert Digits(n, false) + rest == high + ([d] + rest);
      assert ([d] + rest)[1..] == rest;
    } else {
      assert Digits(n, false) + rest == [d] + rest;
      assert ([d] + rest)[1..] == rest;
    }
  }

  /** Reading what was written gives the number, and what follows it. */
  lemma RoundTrip(n: nat, rest: seq<byte>)
    ensures Parse(0, Bytes(n) + rest) == Some((n, rest))
  {
    hide Parse;
    var d := (n % 128) as byte;
    ParseLast(n / 128, d, rest);
    if n > 0x7F {
      ParseDigits(n / 128 - 1, [d] + rest);
      assert Bytes(n) + rest == Digits(n / 128 - 1, false) + ([d] + rest);
    } else {
      assert Bytes(n) + rest == [d] + rest;
    }
  }

  lemma ParseLast(n: nat, d: byte, rest: seq<byte>)
    requires d < 128
    ensures Parse(n, [d] + rest) == Some((n * 128 + d as nat, rest))
  {
    assert ([d] + rest)[1..] == rest;
  }

  /** The digits written for a number whose lowest digit was read as `d`. */
  lemma LowestDigit(n: nat, d: byte)
    ensures Digits(n * 128 + d % 128, d < 128) == (if n == 0 then [] else Digits(n - 1, false)) + [d]
  {
    var m := n * 128 + d % 128;
    assert m / 128 == n && m % 128 == d % 128;
  }

  lemma {:induction false} ParsedDigits(n: nat, s: seq<byte>)
    requires Parse(n, s).Some?
    ensures var (m, rest) := Parse(n, s).value;
      (if n == 0 then [] else Digits(n - 1, false)) + s == Bytes(m) + rest
    decreases |s|
  {
    hide Digits;
    LowestDigit(n, s[0]);
    assert s == [s[0]] + s[1..];
    if s[0] >= 128 {
      ParsedDigits(n * 128 + s[0] % 128 + 1, s[1..]);
    }
  }

  /** Every number has exactly one encoding: whatever parses is what would be written. */
  lemma Unique(s: seq<byte>)
    requires Parse(0, s).Some?
    ensures s == Bytes(Parse(0, s).value.0) + Parse(0, s).value.1
  {
    ParsedDigits(0, s);
    assert [] + s == s;
  }

  // ---- the loops ---------------------------------------------------------------------------------

  function Pow128(k: nat): (p: nat)
    ensures p >= 1
  {
    if k == 0 then 1 else 128 * Pow128(k - 1)
  }

  /** A number below 128^k takes at most k digits. */
  lemma {:induction false} DigitsFit(n: nat, last: bool, k: nat)
    requires 1 <= k && n < Pow128(k)
    ensures |Digits(n, last)| <= k
    decreases k
  {
    if n > 0x7F {
      DigitsFit(n / 128 - 1, false, k - 1);
    }
  }

  /** Five places are enough for 32 bits and ten for 64, as (bits + 6) / 7 gives. */
  lemma Widths()
    ensures 0x1_0000_0000 <= Pow128(5) && 0x1_0000_0000_0000_0000 <= Pow128(10)
  {
    assert Pow128(2) == 128 * Pow128(1) && Pow128(4) == 128 * Pow128(3);
    assert Pow128(6) == 128 * Pow128(5) && Pow128(8) == 128 * Pow128(7) && Pow128(10) == 128 * Pow128(9);
  }

  /** The digits from the lowest up, as they land in the buffer. */
  function Backwards(n: nat, last: bool): seq<byte> {
    [Digit(n, last)] + if n > 0x7F then Backwards(n / 128 - 1, false) else []
  }

  lemma {:induction false} BackwardsIs(n: nat, last: bool)
    ensures Reversed(Backwards(n, last)) == Digits(n, last) && |Backwards(n, last)| == |Digits(n, last)|
  {
    if n > 0x7F {
      BackwardsIs(n / 128 - 1, false);
    }
    var d := Digit(n, last);
    assert Backwards(n, last)[1..] == if n > 0x7F then Backwards(n / 128 - 1, false) else [];
  }

  method GetSizeOfVarInt(n: nat) returns (nRet: nat)
    ensures nRet == |Bytes(n)|
  {
    nRet := 0;
    var m := n;
    while true
      invariant nRet + |Digits(m, nRet == 0)| == |Bytes(n)|
      decreases m
    {
      nRet := nRet + 1;
      if m <= 0x7F {
        break;
      }
      m := m / 128 - 1;
    }
  }

  /** Fills the buffer from the lowest digit up. */
  method FillDigits(n: nat, size: nat) returns (tmp: seq<byte>, len: nat)
    requires 1 <= size && n < Pow128(size)
    ensures |tmp| == size && len < size && tmp[..len + 1] == Backwards(n, true)
  {
    DigitsFit(n, true, size);
    BackwardsIs(n, true);
    hide Backwards, Digits, Pow128, Digit;
    ghost var all := Backwards(n, true);
    tmp := seq(size, _ => 0);
    len := 0;
    var m := n;
    assert tmp[..0] + all == all;
    while m > 0x7F
      invariant |tmp| == size && len < size && |all| <= size
      invariant tmp[..len] + Backwards(m, len == 0) == all
      decreases m
    {
      var d := Digit(m, len == 0);
      BackwardsNext(m, len == 0);
      FillOne(tmp, len, d, Backwards(m / 128 - 1, false), all);
      tmp := tmp[len := d];
      m := m / 128 - 1;
      len := len + 1;
    }
    BackwardsLast(m, len == 0);
    FillOne(tmp, len, Digit(m, len == 0), [], all);
    tmp := tmp[len := Digit(m, len == 0)];
  }

  lemma FillOne(tmp: seq<byte>, len: nat, d: byte, more: seq<byte>, all: seq<byte>)
    requires len < |tmp| && tmp[..len] + ([d] + more) == all
    ensures tmp[len := d][..len + 1] + more == all && len + 1 + |more| == |all|
    ensures more == [] ==> tmp[len := d][..len + 1] == all
  {
    assert tmp[len := d][..len + 1] == tmp[..len] + [d];
  }

  lemma BackwardsLast(m: nat, last: bool)
    requires m <= 0x7F
    ensures Backwards(m, last) == [Digit(m, last)] + []
  {
  }

  lemma BackwardsNext(m: nat, last: bool)
    requires m > 0x7F
    ensures Backwards(m, last) == [Digit(m, last)] + Backwards(m / 128 - 1, false)
    ensures |Backwards(m / 128 - 1, false)| >= 1
  {
  }

  /** Fills a buffer of `size` digits from the lowest up and sends it in reverse. For an n-bit type the
      buffer has (n + 6) / 7 places, which is always enough. */
  method WriteVarInt(n: nat, size: nat) returns (os: seq<byte>)
    requires 1 <= size && n < Pow128(size)
    ensures os == Bytes(n)
  {
    var tmp, len := FillDigits(n, size);
    BackwardsIs(n, true);
    ghost var all := tmp[..len + 1];
    assert all[..len + 1] == all;
    hide Backwards, Digits;
    os := [];
    assert [] + Reversed(all) == Reversed(all);
    var i := len;
    while i >= 0
      invariant -1 <= i <= len
      invariant Reversed(all) == os + Reversed(all[..i + 1])
    {
      ReversedAppend(all[..i], all[i]);
      assert all[..i + 1] == all[..i] + [all[i]];
      os := os + [tmp[i]];
      i := i - 1;
    }
    assert all[..0] == [];
  }

  method ReadVarInt(s: seq<byte>) returns (r: Option<(nat, seq<byte>)>)
    ensures r == Parse(0, s)
  {
    var n: nat := 0;
    var at := 0;
    assert s[0..] == s;
    while at < |s|
      invariant 0 <= at <= |s| && Parse(n, s[at..]) == Parse(0, s)
    {
      var chData := s[at];
      assert s[at..][1..] == s[at + 1..];
      n := n * 128 + chData as nat % 128;
      at := at + 1;
      if chData >= 128 {
        n := n + 1;
      } else {
        return Some((n, s[at..]));
      }
    }
    r := None;
  }
}
