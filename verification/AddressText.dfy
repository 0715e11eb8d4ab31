/** The text of addresses (CBitcoinAddress in src/base58.h): which letter it begins with on the test net. */
module AddressText {
  import opened Basics
  import opened Quotients
  import opened Base58

  // ---- the first digit of a number --------------------------------------------------

  function Power(base: nat, k: nat): nat {
    if k == 0 then 1 else Power(base, k - 1) * base
  }

  lemma MulAssoc(x: int, y: int, z: int)
    ensures x * y * z == x * (y * z)
  {
  }

  lemma {:induction false} PowerAdd(base: nat, m: nat, n: nat)
    ensures Power(base, m + n) == Power(base, m) * Power(base, n)
  {
    if n == 0 {
      assert Power(base, 0) == 1;
    } else {
      PowerAdd(base, m, n - 1);
      PowerNext(base, m + n);
      PowerNext(base, n);
      hide Power;
      assert m + n - 1 == m + (n - 1);
      MulAssoc(Power(base, m), Power(base, n - 1), base);
    }
  }

  lemma PowerNext(base: nat, k: nat)
    requires k > 0
    ensures Power(base, k) == Power(base, k - 1) * base
  {
  }

  lemma {:induction false} PowerGrows(base: nat, m: nat, n: nat)
    requires base >= 1 && m <= n
    ensures 1 <= Power(base, m) <= Power(base, n)
  {
    if m < n {
      PowerGrows(base, m, n - 1);
      MulMonotone(1, base, Power(base, n - 1));
    } else if n > 0 {
      PowerGrows(base, m - 1, n - 1);
      MulMonotone(1, base, Power(base, n - 1));
    }
  }

  /** A number lies between its first digit and the next one, at the place of that digit. */
  lemma {:induction false} FirstDigit(base: nat, s: seq<nat>)
    requires Below(base, s) && s != []
    ensures var p := Power(base, |s| - 1); s[0] * p <= Value(base, s) < (s[0] + 1) * p
  {
    var n := |s| - 1;
    if n == 0 {
      assert s[..0] == [];
    } else {
      var front := s[..n];
      assert s[n] in s && forall d :: d in front ==> d in s;
      FirstDigit(base, front);
      PowerNext(base, n);
      assert Value(base, s) == Value(base, front) * base + s[n];
      hide Power, Value;
      OneMore(s[0], Power(base, n - 1), Value(base, front), base, s[n]);
    }
  }

  lemma OneMore(a: nat, p: nat, v: nat, base: nat, d: nat)
    requires a * p <= v < (a + 1) * p && d < base
    ensures a * (p * base) <= v * base + d < (a + 1) * (p * base)
  {
    MulMonotone(a * p, v, base);
    MulMonotone(v + 1, (a + 1) * p, base);
    MulAssoc(a, p, base);
    MulAssoc(a + 1, p, base);
    assert (v + 1) * base == v * base + base;
  }

  // ---- the sizes that matter --------------------------------------------------

  lemma PowersOf58()
    ensures Power(58, 33) == 15599970876632771988160814054146447252125923204784443097088
    ensures Power(58, 34) == 904798310844700775313327215140493940623303545877497699631104
  {
    assert Power(58, 1) == 58 && Power(58, 2) == 3364 && Power(58, 3) == 195112;
    PowerAdd(58, 3, 3);
    PowerAdd(58, 6, 6);
    PowerAdd(58, 12, 12);
    PowerAdd(58, 24, 6);
    PowerAdd(58, 30, 3);
    PowerNext(58, 34);
  }

  lemma PowersOf256()
    ensures Power(256, 24) == 6277101735386680763835789423207666416102355444464034512896
  {
    assert Power(256, 1) == 256 && Power(256, 2) == 65536 && Power(256, 3) == 16777216;
    PowerAdd(256, 3, 3);
    PowerAdd(256, 6, 6);
    PowerAdd(256, 12, 12);
  }

  lemma Sizes()
    ensures 21 * Power(58, 33) < 111 * Power(256, 24) && 197 * Power(256, 24) < 20 * Power(58, 34)
  {
    PowersOf58();
    PowersOf256();
  }

  // ---- addresses --------------------------------------------------

  datatype Destination = NoDestination | KeyId(id: seq<byte>) | ScriptId(id: seq<byte>)

  /** Identifiers have 20 bytes. */
  predicate Sized(d: Destination) {
    d.NoDestination? || |d.id| == 20
  }

  const PUBKEY_ADDRESS: byte := 50
  const SCRIPT_ADDRESS: byte := 5
  const PUBKEY_ADDRESS_TEST: byte := 111
  const SCRIPT_ADDRESS_TEST: byte := 196

  /** The version byte and the data; an address made of no destination keeps what it was constructed with. */
  function AddressBytes(d: Destination, fTestNet: bool): seq<byte> {
    match d
    case NoDestination => [0]
    case KeyId(id) => [if fTestNet then PUBKEY_ADDRESS_TEST else PUBKEY_ADDRESS] + id
    case ScriptId(id) => [if fTestNet then SCRIPT_ADDRESS_TEST else SCRIPT_ADDRESS] + id
  }

  function TextOf(hash: (seq<byte>, nat) -> byte, d: Destination, fTestNet: bool): string {
    EncodedCheck(hash, AddressBytes(d, fTestNet))
  }

  /** The value of 25 bytes that begin with 111 or 196. */
  lemma ValueOfTestNet(b: seq<byte>)
    requires |b| == 25 && (b[0] == 111 || b[0] == 196)
    ensures 21 * Power(58, 33) < Value(256, b) < 20 * Power(58, 34)
  {
    FirstDigit(256, b);
    Sizes();
    PowerGrows(256, 0, 24);
    hide Power, Value;
    MulMonotone(111, b[0] as int, Power(256, 24));
    MulMonotone(b[0] as int + 1, 197, Power(256, 24));
  }

  lemma NoZerosInFront(b: seq<byte>)
    requires b != [] && b[0] != 0
    ensures Encoded(b) == Text(Digits(58, Value(256, b)))
  {
    var digits := Digits(58, Value(256, b));
    assert Leading(b) == 0 && Zeros(0) + digits == digits;
  }

  /** Text that begins with M has M's digit in front. */
  lemma FirstLetter(digits: seq<nat>)
    requires Below(58, digits) && digits != []
    ensures Text(digits) != [] && (Text(digits)[0] == 'M' ==> digits[0] == 20)
  {
    assert digits[0] in digits;
    IndexOfChar(digits[0]);
    assert Index('M') == 20;
  }

  /** Bytes that begin with 111 or 196, 25 of them, do not begin with M as text. */
  lemma NoM(b: seq<byte>)
    requires |b| == 25 && (b[0] == 111 || b[0] == 196)
    ensures Encoded(b) != [] && Encoded(b)[0] != 'M'
  {
    hide Power, Value, Digits, Encoded, Text;
    var n := Value(256, b);
    var digits := Digits(58, n);
    NoZerosInFront(b);
    ValueOfTestNet(b);
    ValueOfDigits(58, n);
    PowerGrows(58, 0, 33);
    SomeDigit(n);
    FirstDigit(58, digits);
    FirstLetter(digits);
    if digits[0] == 20 {
      MMeansBounds(n, |digits|);
      assert false;
    }
  }

  lemma SomeDigit(n: nat)
    requires n > 0
    ensures Digits(58, n) != [] && Below(58, Digits(58, n))
  {
  }

  /** A number whose first base-58 digit is that of M. */
  lemma MMeansBounds(n: nat, k: nat)
    requires k >= 1 && 20 * Power(58, k - 1) <= n < 21 * Power(58, k - 1)
    ensures n < 21 * Power(58, 33) || n >= 20 * Power(58, 34)
  {
    if k <= 34 {
      PowerGrows(58, k - 1, 33);
    } else {
      PowerGrows(58, 34, k - 1);
    }
  }

  /** No address on the test net has a text that begins with M, as all grant addresses do. */
  lemma TestNetText(hash: (seq<byte>, nat) -> byte, d: Destination)
    requires Sized(d)
    ensures TextOf(hash, d, true) != "" && TextOf(hash, d, true)[0] != 'M'
  {
    var v := AddressBytes(d, true);
    var b := v + Checksum(hash, v);
    if d.NoDestination? {
      assert b[0] == 0 && Leading(b) > 0;
      var digits := Converted(256, 58, b);
      assert digits[0] == 0 && Below(58, digits);
      IndexOfChar(0);
    } else {
      NoM(b);
    }
  }
}
