/** Base-58 text (src/base58.h) over mathematical integers. */
module Base58 {
  import opened Basics
  import opened Quotients

  // ---- positional notation ------------------------------------------------------

  /** The number a list of digits stands for, most significant first. */
  function Value(base: nat, s: seq<nat>): nat {
    if s == [] then 0 else Value(base, s[..|s| - 1]) * base + s[|s| - 1]
  }

  function Digits(base: nat, n: nat): (s: seq<nat>)
    requires base >= 2
    ensures forall d :: d in s ==> d < base
    ensures s != [] ==> s[0] != 0
    ensures n > 0 ==> s != []
    decreases n
  {
    if n == 0 then []
    else
      Shrinks(n, base);
      Digits(base, n / base) + [n % base]
  }

  lemma Shrinks(n: nat, base: nat)
    requires base >= 2 && n > 0
    ensures n / base < n
    ensures n / base * base + n % base == n
    ensures n < base ==> n / base == 0
  {
    MulMonotone(2, base, n);
    assert n * base == base * n;
    DivBounds(n, base, 0, n);
    assert n == base * (n / base) + n % base;
    if n < base {
      DivBounds(n, base, 0, 1);
    }
  }

  function Zeros(k: nat): (s: seq<nat>)
    ensures |s| == k && forall d :: d in s ==> d == 0
  {
    seq(k, _ => 0)
  }

  function Leading(s: seq<nat>): (k: nat)
    ensures k <= |s| && (k < |s| ==> s[k] != 0)
    ensures forall i :: 0 <= i < k ==> s[i] == 0
  {
    if s == [] || s[0] != 0 then 0 else 1 + Leading(s[1..])
  }

  predicate Below(base: nat, s: seq<nat>) {
    forall d :: d in s ==> d < base
  }

  /** A list of digits in another base, with as many zeros in front. */
  function Converted(from: nat, to: nat, s: seq<nat>): seq<nat>
    requires to >= 2
  {
    Zeros(Leading(s)) + Digits(to, Value(from, s))
  }

  lemma {:induction false} ValueOfDigits(base: nat, n: nat)
    requires base >= 2
    ensures Value(base, Digits(base, n)) == n
    decreases n
  {
    if n > 0 {
      Shrinks(n, base);
      ValueOfDigits(base, n / base);
      var s := Digits(base, n);
      assert s[..|s| - 1] == Digits(base, n / base);
    }
  }

  lemma {:induction false} ZerosInFront(base: nat, k: nat, s: seq<nat>)
    ensures Value(base, Zeros(k) + s) == Value(base, s)
  {
    var t := Zeros(k) + s;
    if s != [] {
      assert t[..|t| - 1] == Zeros(k) + s[..|s| - 1];
      ZerosInFront(base, k, s[..|s| - 1]);
    } else if k > 0 {
      assert t == Zeros(k) && t[..|t| - 1] == Zeros(k - 1) + [];
      ZerosInFront(base, k - 1, []);
    }
  }

  lemma LeadingIs(k: nat, s: seq<nat>)
    requires s != [] ==> s[0] != 0
    ensures Leading(Zeros(k) + s) == k
  {
    var t := Zeros(k) + s;
    assert forall i :: 0 <= i < k ==> t[i] == 0;
    assert k < |t| ==> t[k] == s[0];
  }

  lemma Split(base: nat, t: seq<nat>, d: nat)
    requires base >= 2 && d < base
    ensures Value(base, t + [d]) == Value(base, t) * base + d
    ensures Value(base, t + [d]) / base == Value(base, t) && Value(base, t + [d]) % base == d
  {
    var s := t + [d];
    assert s[..|s| - 1] == t;
    var v, n := Value(base, t), Value(base, s);
    assert (v + 1) * base == v * base + base;
    DivBounds(n, base, v, v + 1);
    assert n == base * (n / base) + n % base;
    assert base * v == v * base;
  }

  lemma OneMoreDigit(base: nat, t: seq<nat>, d: nat)
    requires base >= 2 && d < base
    requires t == Zeros(Leading(t)) + Digits(base, Value(base, t))
    ensures t + [d] == Zeros(Leading(t + [d])) + Digits(base, Value(base, t + [d]))
  {
    hide Leading, Value;
    var s, v := t + [d], Value(base, t);
    Split(base, t, d);
    if v == 0 && d == 0 {
      assert s == Zeros(|s|) + [];
      LeadingIs(|s|, []);
    } else {
      var u := Digits(base, v) + [d];
      if v == 0 {
        Shrinks(d, base);
      }
      assert Value(base, s) > 0 && Digits(base, Value(base, s)) == u;
      assert s == Zeros(Leading(t)) + u;
      LeadingIs(Leading(t), u);
    }
  }

  /** Digits are determined by the number they stand for, but for the zeros in front. */
  lemma {:induction false} DigitsOfValue(base: nat, s: seq<nat>)
    requires base >= 2 && Below(base, s)
    ensures s == Zeros(Leading(s)) + Digits(base, Value(base, s))
  {
    if s != [] {
      var t, d := s[..|s| - 1], s[|s| - 1];
      assert s == t + [d];
      assert d in s && forall x :: x in t ==> x in s;
      DigitsOfValue(base, t);
      OneMoreDigit(base, t, d);
    }
  }

  /** Converting there and back gives the same digits, zeros in front included. */
  lemma ConvertBack(from: nat, to: nat, s: seq<nat>)
    requires from >= 2 && to >= 2 && Below(from, s)
    ensures Converted(to, from, Converted(from, to, s)) == s
  {
    var v := Value(from, s);
    LeadingIs(Leading(s), Digits(to, v));
    ZerosInFront(to, Leading(s), Digits(to, v));
    ValueOfDigits(to, v);
    DigitsOfValue(from, s);
  }

  // ---- characters ------------------------------------------------------

  /** Digits, then capitals without I and O, then small letters without l. */
  function Char(i: nat): char
    requires i < 58
  {
    if i < 9 then '1' + i as char
    else if i < 17 then 'A' + (i - 9) as char
    else if i < 22 then 'J' + (i - 17) as char
    else if i < 33 then 'P' + (i - 22) as char
    else if i < 44 then 'a' + (i - 33) as char
    else 'm' + (i - 44) as char
  }

  const ALPHABET := "123456789" + "ABCDEFGH" + "JKLMN" + "PQRSTUVWXYZ" + "abcdefghijk" + "mnopqrstuvwxyz"

  /** `Char` runs through the alphabet of the source, in order. */
  lemma AlphabetIs()
    ensures |ALPHABET| == 58 && forall i :: 0 <= i < 58 ==> ALPHABET[i] == Char(i)
  {
    forall i | 0 <= i < 58 ensures ALPHABET[i] == Char(i) {
      LetterIs(i);
    }
  }

  lemma LetterIs(i: nat)
    requires i < 58
    ensures |ALPHABET| == 58 && ALPHABET[i] == Char(i)
  {
  }

  predicate IsSpace(c: char) {
    c == ' ' || '\t' <= c <= '\r'
  }

  /** The white space of isspace: space, tab, line feed, vertical tab, form feed and carriage return. */
  lemma SpacesAre(c: char)
    ensures IsSpace(c) <==> c as int in [0x20, 0x09, 0x0A, 0x0B, 0x0C, 0x0D]
  {
  }

  /** The position of a character in the alphabet, or 58 (strchr). */
  function Index(c: char): nat {
    if '1' <= c <= '9' then (c - '1') as nat
    else if 'A' <= c <= 'H' then (c - 'A') as nat + 9
    else if 'J' <= c <= 'N' then (c - 'J') as nat + 17
    else if 'P' <= c <= 'Z' then (c - 'P') as nat + 22
    else if 'a' <= c <= 'k' then (c - 'a') as nat + 33
    else if 'm' <= c <= 'z' then (c - 'm') as nat + 44
    else 58
  }

  lemma IndexOfChar(i: nat)
    requires i < 58
    ensures Index(Char(i)) == i && !IsSpace(Char(i)) && (i == 0 <==> Char(i) == '1')
  {
  }

  lemma CharOfIndex(c: char)
    requires Index(c) < 58
    ensures Char(Index(c)) == c
  {
  }

  /** The position found is the place in the alphabet, and characters without one are not in it. */
  lemma IndexInAlphabet(c: char)
    ensures Index(c) <= |ALPHABET| == 58
    ensures if Index(c) < 58 then ALPHABET[Index(c)] == c else c !in ALPHABET
  {
    hide Index, Char;
    AlphabetIs();
    if Index(c) < 58 {
      CharOfIndex(c);
    } else {
      forall i | 0 <= i < 58 ensures ALPHABET[i] != c {
        IndexOfChar(i);
      }
    }
    IndexBound(c);
  }

  lemma IndexBound(c: char)
    ensures Index(c) <= 58
  {
  }

  function Text(s: seq<nat>): (r: string)
    requires Below(58, s)
    ensures |r| == |s|
  {
    seq(|s|, i requires 0 <= i < |s| => assert s[i] in s; Char(s[i]))
  }

  predicate Letters(s: string) {
    forall i :: 0 <= i < |s| ==> Index(s[i]) < 58
  }

  function Indices(s: string): (r: seq<nat>)
    requires Letters(s)
    ensures |r| == |s| && Below(58, r)
  {
    seq(|s|, i requires 0 <= i < |s| => Index(s[i]))
  }

  lemma IndicesOfText(s: seq<nat>)
    requires Below(58, s)
    ensures Letters(Text(s)) && Indices(Text(s)) == s
  {
    var t := Text(s);
    forall i | 0 <= i < |s| ensures Index(t[i]) == s[i] < 58 {
      assert s[i] in s;
      IndexOfChar(s[i]);
    }
    assert Letters(t);
  }

  lemma TextOfIndices(s: string)
    requires Letters(s)
    ensures Text(Indices(s)) == s
  {
    forall i | 0 <= i < |s| ensures Text(Indices(s))[i] == s[i] {
      CharOfIndex(s[i]);
    }
  }

  // ---- what text stands for ------------------------------------------------------

  predicate Spaces(s: string) {
    forall i :: 0 <= i < |s| ==> IsSpace(s[i])
  }

  /** The leading blanks. */
  function Blank(s: string): (n: nat)
    ensures n <= |s| && Spaces(s[..n]) && (n < |s| ==> !IsSpace(s[n]))
  {
    if s == [] || !IsSpace(s[0]) then 0
    else
      assert s[..1 + Blank(s[1..])] == [s[0]] + s[1..][..Blank(s[1..])];
      1 + Blank(s[1..])
  }

  /** The leading letters of the alphabet. */
  function Word(s: string): (n: nat)
    ensures n <= |s| && Letters(s[..n]) && (n < |s| ==> Index(s[n]) == 58)
  {
    if s == [] || Index(s[0]) == 58 then 0
    else
      assert s[..1 + Word(s[1..])] == [s[0]] + s[1..][..Word(s[1..])];
      1 + Word(s[1..])
  }

  function Encoded(b: seq<byte>): string {
    Text(Converted(256, 58, b))
  }

  /** The letters between the blanks. */
  function Core(s: string): (r: string)
    ensures Letters(r)
  {
    var t := s[Blank(s)..];
    t[..Word(t)]
  }

  /** Text is letters with blanks around them. */
  predicate WellFormed(s: string) {
    var t := s[Blank(s)..];
    Spaces(t[Word(t)..])
  }

  function Decoded(s: string): Option<seq<byte>> {
    if WellFormed(s) then Some(Bytes(Converted(58, 256, Indices(Core(s))))) else None
  }

  function Bytes(s: seq<nat>): (r: seq<byte>)
    requires Below(256, s)
    ensures r == s
  {
    assert forall i :: 0 <= i < |s| ==> s[i] in s;
    s
  }

  /** Encoding any bytes, zeros in front included, and decoding the text gives the bytes back. */
  lemma EncodeThenDecode(b: seq<byte>)
    ensures Decoded(Encoded(b)) == Some(b)
  {
    hide Converted, Text, Indices;
    var d := Converted(256, 58, b);
    ConvertedBelow(256, 58, b);
    IndicesOfText(d);
    LettersOnly(Text(d));
    assert Below(256, b);
    ConvertBack(256, 58, b);
  }

  lemma ConvertedBelow(from: nat, to: nat, s: seq<nat>)
    requires to >= 2
    ensures Below(to, Converted(from, to, s))
  {
  }

  lemma LettersOnly(s: string)
    requires Letters(s)
    ensures WellFormed(s) && Core(s) == s
  {
    LetterIsNoSpace(s);
    assert Blank(s) == 0;
    assert s[0..] == s;
    assert Word(s) == |s|;
  }

  lemma LetterIsNoSpace(s: string)
    requires Letters(s)
    ensures forall i :: 0 <= i < |s| ==> !IsSpace(s[i])
  {
  }

  /** Decoding any text that is accepted and encoding the bytes gives its letters back. */
  lemma DecodeThenEncode(s: string)
    ensures match Decoded(s)
      case Some(b) => WellFormed(s) && Encoded(b) == Core(s)
      case None => !WellFormed(s)
  {
    hide Converted, Text, Indices, WellFormed, Core;
    if WellFormed(s) {
      ConvertBack(58, 256, Indices(Core(s)));
      TextOfIndices(Core(s));
      ConvertedBelow(58, 256, Indices(Core(s)));
    }
  }

  // ---- the loops ------------------------------------------------------

  lemma TextAppend(a: seq<nat>, b: seq<nat>)
    requires Below(58, a) && Below(58, b)
    ensures Below(58, a + b) && Text(a + b) == Text(a) + Text(b)
  {
  }

  /** One division step moves the last digit from the number to the text. */
  lemma DigitMoves(bn: nat, str: string)
    requires bn > 0
    ensures bn % 58 < 58
    ensures Text(Digits(58, bn)) + Reversed(str) == Text(Digits(58, bn / 58)) + Reversed(str + [Char(bn % 58)])
  {
    hide Text;
    Shrinks(bn, 58);
    var a, c := Digits(58, bn / 58), bn % 58;
    assert Digits(58, bn) == a + [c];
    TextAppend(a, [c]);
    TextOfOne(c);
    ReversedAppend(str, Char(c));
    assert Text(a) + [Char(c)] + Reversed(str) == Text(a) + ([Char(c)] + Reversed(str));
  }

  lemma TextOfOne(c: nat)
    requires c < 58
    ensures Below(58, [c]) && Text([c]) == [Char(c)]
  {
  }

  lemma ReversedZeros(str: string, k: nat)
    ensures Reversed(str + seq(k, _ => Char(0))) == Text(Zeros(k)) + Reversed(str)
  {
    var r := str + seq(k, _ => Char(0));
    assert forall i :: 0 <= i < |r| ==> Reversed(r)[i] == (Text(Zeros(k)) + Reversed(str))[i];
  }

  method EncodeBase58(b: seq<byte>) returns (str: string)
    ensures str == Encoded(b)
  {
    hide Text, Reversed, Value, Digits, Leading;
    var bn := Value(256, b);
    str := [];
    assert Text(Digits(58, bn)) + Reversed(str) == Text(Digits(58, bn));
    while bn > 0
      invariant Text(Digits(58, bn)) + Reversed(str) == Text(Digits(58, Value(256, b)))
    {
      DigitMoves(bn, str);
      Shrinks(bn, 58);
      str := str + [Char(bn % 58)];
      bn := bn / 58;
    }
    ZeroHasNoDigits();
    assert Reversed(str) == Text(Digits(58, Value(256, b)));
    ghost var digits := str;
    var p := 0;
    while p < |b| && b[p] == 0
      invariant p <= |b| && forall i :: 0 <= i < p ==> b[i] == 0
      invariant str == digits + seq(p, _ => Char(0))
    {
      str := str + [Char(0)];
      p := p + 1;
    }
    assert p == Leading(b);
    ReversedZeros(digits, p);
    TextAppend(Zeros(p), Digits(58, Value(256, b)));
    str := Reversed(str);
  }

  lemma ZeroHasNoDigits()
    ensures Digits(58, 0) == [] && Text([]) == []
  {
  }

  /** The bytes of a number, least significant first, and a sign byte where the top bit is set (getvch). */
  function GetVch(n: nat): seq<byte> {
    var d := Bytes(Digits(256, n));
    Reversed(d) + if n > 0 && d[0] >= 0x80 then [0] else []
  }

  method DecodeBase58(s: string) returns (r: Option<seq<byte>>)
    ensures r == Decoded(s)
  {
    var psz := 0;
    while psz < |s| && IsSpace(s[psz])
      invariant psz <= |s| && forall i :: 0 <= i < psz ==> IsSpace(s[i])
    {
      psz := psz + 1;
    }
    BlankIs(s, psz);
    var text := s[psz..];
    r := DecodeText(text);
  }

  lemma BlankIs(s: string, n: nat)
    requires n <= |s| && (forall i :: 0 <= i < n ==> IsSpace(s[i])) && (n < |s| ==> !IsSpace(s[n]))
    ensures Blank(s) == n
  {
    var k := Blank(s);
    assert forall i :: 0 <= i < k ==> s[..k][i] == s[i];
  }

  lemma WordIs(s: string, n: nat)
    requires n <= |s| && Letters(s[..n]) && (n < |s| ==> Index(s[n]) == 58)
    ensures Word(s) == n
  {
    hide Index;
    var k := Word(s);
    assert forall i :: 0 <= i < k ==> s[..k][i] == s[i];
    assert forall i :: 0 <= i < n ==> s[..n][i] == s[i];
  }

  lemma NextLetter(t: string, p: nat)
    requires p < |t| && Letters(t[..p]) && Index(t[p]) < 58
    ensures Letters(t[..p + 1])
    ensures Value(58, Indices(t[..p + 1])) == Value(58, Indices(t[..p])) * 58 + Index(t[p])
  {
    var a, b := Indices(t[..p]), Indices(t[..p + 1]);
    assert b[..p] == a;
  }

  /** The text after its leading blanks. */
  method DecodeText(t: string) returns (r: Option<seq<byte>>)
    ensures r == if Spaces(t[Word(t)..]) then Some(Bytes(Converted(58, 256, Indices(t[..Word(t)])))) else None
  {
    hide Value, Indices, Converted, Word;
    var bn: nat := 0;
    var p := 0;
    assert Indices(t[..0]) == [] && Value(58, []) == 0 by {
      assert |Indices(t[..0])| == 0;
      EmptyIsZero();
    }
    while p < |t| && Index(t[p]) < 58
      invariant p <= |t| && Letters(t[..p]) && bn == Value(58, Indices(t[..p]))
    {
      NextLetter(t, p);
      bn := bn * 58 + Index(t[p]);
      p := p + 1;
    }
    WordIs(t, p);
    var q := p;
    while q < |t| && IsSpace(t[q])
      invariant p <= q <= |t| && forall i :: p <= i < q ==> IsSpace(t[i])
    {
      q := q + 1;
    }
    if q < |t| {
      assert t[p..][q - p] == t[q];
      return None;
    }
    var b := ToBytes(t, p, bn);
    r := Some(b);
  }

  lemma EmptyIsZero()
    ensures Value(58, []) == 0
  {
  }

  /** The number as bytes, with a zero byte for every leading zero letter. */
  method ToBytes(t: string, n: nat, bn: nat) returns (b: seq<byte>)
    requires n == Word(t) && bn == Value(58, Indices(t[..n]))
    ensures b == Bytes(Converted(58, 256, Indices(t[..n])))
  {
    hide Value, Digits, Word, Reversed;
    var vchTmp := GetVch(bn);
    var d: seq<byte> := Bytes(Digits(256, bn));
    if |vchTmp| >= 2 && vchTmp[|vchTmp| - 1] == 0 && vchTmp[|vchTmp| - 2] >= 0x80 {
      vchTmp := vchTmp[..|vchTmp| - 1];
    }
    ZeroBytes();
    assert vchTmp == Reversed(d);
    var nLeadingZeros := 0;
    while nLeadingZeros < |t| && t[nLeadingZeros] == Char(0)
      invariant nLeadingZeros <= n
      invariant forall i :: 0 <= i < nLeadingZeros ==> t[i] == Char(0)
    {
      IndexOfChar(0);
      nLeadingZeros := nLeadingZeros + 1;
    }
    LeadingLetters(t, n, nLeadingZeros);
    b := Zeros(nLeadingZeros) + Reversed(vchTmp);
    assert Reversed(Reversed(d)) == d;
  }

  lemma ZeroBytes()
    ensures Digits(256, 0) == []
  {
  }

  lemma IndexZero(c: char)
    ensures Index(c) == 0 <==> c == Char(0)
  {
  }

  lemma LeadingIndices(u: string, k: nat)
    requires Letters(u) && k <= |u|
    requires (forall i :: 0 <= i < k ==> u[i] == Char(0)) && (k < |u| ==> u[k] != Char(0))
    ensures Leading(Indices(u)) == k
  {
    hide Leading, Index, Char;
    var s := Indices(u);
    IndexZero(Char(0));
    if k < |u| {
      IndexZero(u[k]);
    }
    LeadingIs(k, s[k..]);
    assert s == Zeros(k) + s[k..];
  }

  lemma LeadingLetters(t: string, n: nat, k: nat)
    requires n == Word(t) && k <= n
    requires (forall i :: 0 <= i < k ==> t[i] == Char(0)) && (k < |t| ==> t[k] != Char(0))
    ensures Leading(Indices(t[..n])) == k
  {
    hide Leading, Index, Char, Word;
    LeadingIndices(t[..n], k);
  }

  // ---- text with a checksum ------------------------------------------------------

  /** The first four bytes of the double hash. */
  function Checksum(hash: (seq<byte>, nat) -> byte, b: seq<byte>): seq<byte> {
    [hash(b, 0), hash(b, 1), hash(b, 2), hash(b, 3)]
  }

  function EncodedCheck(hash: (seq<byte>, nat) -> byte, b: seq<byte>): string {
    Encoded(b + Checksum(hash, b))
  }

  method DecodeBase58Check(hash: (seq<byte>, nat) -> byte, s: string) returns (r: Option<seq<byte>>)
    ensures match r
      case Some(b) => WellFormed(s) && Core(s) == Encoded(b + [hash(b, 0), hash(b, 1), hash(b, 2), hash(b, 3)])
      case None => !WellFormed(s) || forall b :: Core(s) != EncodedCheck(hash, b)
  {
    hide Encoded, Decoded, WellFormed, Core;
    var d := DecodeBase58(s);
    DecodeThenEncode(s);
    if d.None? {
      return None;
    }
    var v := d.value;
    if |v| < 4 {
      forall b ensures Core(s) != EncodedCheck(hash, b) {
        SameText(v, b + Checksum(hash, b));
      }
      return None;
    }
    var n := |v| - 4;
    if Checksum(hash, v[..n]) != v[n..] {
      forall b ensures Core(s) != EncodedCheck(hash, b) {
        SameText(v, b + Checksum(hash, b));
        OnlySplit(hash, v, b);
      }
      return None;
    }
    assert v == v[..n] + v[n..];
    r := Some(v[..n]);
  }

  lemma OnlySplit(hash: (seq<byte>, nat) -> byte, v: seq<byte>, b: seq<byte>)
    requires |v| >= 4 && Checksum(hash, v[..|v| - 4]) != v[|v| - 4..]
    ensures v != b + Checksum(hash, b)
  {
    var w := b + Checksum(hash, b);
    assert w[..|w| - 4] == b && w[|w| - 4..] == Checksum(hash, b);
  }

  /** Different bytes have different text. */
  lemma SameText(a: seq<byte>, b: seq<byte>)
    ensures Encoded(a) == Encoded(b) <==> a == b
  {
    hide Encoded, Decoded;
    EncodeThenDecode(a);
    EncodeThenDecode(b);
  }
}
