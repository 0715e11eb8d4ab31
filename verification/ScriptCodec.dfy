/** The compact form of output scripts (CScriptCompressor in src/script.h and src/script.cpp). */
module ScriptCodec {
  import opened Basics
  import VarInt

  const OP_DUP: byte := 0x76
  const OP_EQUAL: byte := 0x87
  const OP_EQUALVERIFY: byte := 0x88
  const OP_HASH160: byte := 0xa9
  const OP_CHECKSIG: byte := 0xac
  const SPECIAL_SCRIPTS := 6

  type Bytes = seq<byte>

  /** The elliptic curve: which 65 bytes are a public key, and the full key behind a parity and an x. */
  datatype Curve = Curve(isKey: Bytes -> bool, expand: (byte, Bytes) -> Option<Bytes>)

  /** A full key is what its parity and its x expand to. */
  ghost predicate Lawful(curve: Curve) {
    forall key: Bytes :: curve.isKey(key) && |key| == 65 && key[0] == 0x04 ==>
      curve.expand(key[64] % 2, key[1..33]) == Some(key)
  }

  predicate IsToKeyID(s: Bytes) {
    |s| == 25 && s[0] == OP_DUP && s[1] == OP_HASH160 && s[2] == 20 && s[23] == OP_EQUALVERIFY && s[24] == OP_CHECKSIG
  }

  predicate IsToScriptID(s: Bytes) {
    |s| == 23 && s[0] == OP_HASH160 && s[1] == 20 && s[22] == OP_EQUAL
  }

  predicate IsToCompressedKey(s: Bytes) {
    |s| == 35 && s[0] == 33 && s[34] == OP_CHECKSIG && (s[1] == 0x02 || s[1] == 0x03)
  }

  predicate IsToFullKey(s: Bytes, curve: Curve) {
    |s| == 67 && s[0] == 65 && s[66] == OP_CHECKSIG && s[1] == 0x04 && curve.isKey(s[1..66])
  }

  function Compress(s: Bytes, curve: Curve): Option<Bytes> {
    if IsToKeyID(s) then Some([0x00] + s[3..23])
    else if IsToScriptID(s) then Some([0x01] + s[2..22])
    else if IsToCompressedKey(s) then Some([s[1]] + s[2..34])
    else if IsToFullKey(s, curve) then Some([0x04 + s[65] % 2] + s[2..34])
    else None
  }

  function SpecialSize(nSize: nat): nat {
    if nSize == 0 || nSize == 1 then 20 else if 2 <= nSize <= 5 then 32 else 0
  }

  /** The script of a special form; nothing when the key does not expand. */
  function Decompress(nSize: nat, body: Bytes, curve: Curve): Option<Bytes>
    requires nSize < SPECIAL_SCRIPTS && |body| == SpecialSize(nSize)
  {
    if nSize == 0 then Some([OP_DUP, OP_HASH160, 20] + body + [OP_EQUALVERIFY, OP_CHECKSIG])
    else if nSize == 1 then Some([OP_HASH160, 20] + body + [OP_EQUAL])
    else if nSize == 2 || nSize == 3 then Some([33, nSize as byte] + body + [OP_CHECKSIG])
    else
      match curve.expand((nSize - 4) as byte, body)
      case None => None
      case Some(key) => Some([65] + key + [OP_CHECKSIG])
  }

  /** Decompressing a compressed script gives the script. */
  lemma DecompressCompress(s: Bytes, curve: Curve)
    requires Lawful(curve) && Compress(s, curve).Some?
    ensures var c := Compress(s, curve).value;
      && c != [] && c[0] < 6 && |c| == 1 + SpecialSize(c[0] as nat)
      && Decompress(c[0] as nat, c[1..], curve) == Some(s)
  {
    var c := Compress(s, curve).value;
    if IsToKeyID(s) {
      assert s == [OP_DUP, OP_HASH160, 20] + s[3..23] + [OP_EQUALVERIFY, OP_CHECKSIG];
    } else if IsToScriptID(s) {
      assert s == [OP_HASH160, 20] + s[2..22] + [OP_EQUAL];
    } else if IsToCompressedKey(s) {
      assert s == [33, s[1]] + s[2..34] + [OP_CHECKSIG];
    } else {
      var key := s[1..66];
      assert key[64] == s[65] && key[1..33] == s[2..34] && key[0] == s[1];
      assert curve.expand(key[64] % 2, key[1..33]) == Some(key);
      assert s == [65] + key + [OP_CHECKSIG];
    }
  }

  /** What Serialize writes. */
  function Written(s: Bytes, curve: Curve): Bytes {
    match Compress(s, curve)
    case Some(c) => c
    case None => VarInt.Bytes(|s| + SPECIAL_SCRIPTS) + s
  }

  /** Unserialize into an empty script; a special form that does not decompress leaves it empty. */
  function Read(s: Bytes, curve: Curve): Option<(Bytes, Bytes)> {
    match VarInt.Parse(0, s)
    case None => None
    case Some((nSize, rest)) =>
      if nSize < SPECIAL_SCRIPTS then
        var size := SpecialSize(nSize);
        if |rest| < size then None
        else
          var script := Decompress(nSize, rest[..size], curve);
          Some((if script.Some? then script.value else [], rest[size..]))
      else if |rest| < nSize - SPECIAL_SCRIPTS then None
      else Some((rest[..nSize - SPECIAL_SCRIPTS], rest[nSize - SPECIAL_SCRIPTS..]))
  }

  lemma SpecialBack(s: Bytes, rest: Bytes, curve: Curve)
    requires Lawful(curve) && Compress(s, curve).Some?
    ensures Read(Compress(s, curve).value + rest, curve) == Some((s, rest))
  {
    DecompressCompress(s, curve);
    var c := Compress(s, curve).value;
    var body := c[1..] + rest;
    VarInt.RoundTrip(c[0] as nat, body);
    assert VarInt.Bytes(c[0] as nat) == [c[0]];
    assert c + rest == [c[0]] + body;
    assert body[..|c| - 1] == c[1..] && body[|c| - 1..] == rest;
    hide Compress, Decompress, VarInt.Parse, Lawful;
  }

  lemma PlainBack(s: Bytes, rest: Bytes, curve: Curve)
    ensures Read(VarInt.Bytes(|s| + SPECIAL_SCRIPTS) + s + rest, curve) == Some((s, rest))
  {
    VarInt.RoundTrip(|s| + SPECIAL_SCRIPTS, s + rest);
    assert VarInt.Bytes(|s| + SPECIAL_SCRIPTS) + s + rest == VarInt.Bytes(|s| + SPECIAL_SCRIPTS) + (s + rest);
    assert (s + rest)[..|s|] == s && (s + rest)[|s|..] == rest;
    hide Decompress, VarInt.Parse, VarInt.Digits;
  }

  /** Every script comes back, and what follows it. */
  lemma RoundTrip(s: Bytes, rest: Bytes, curve: Curve)
    requires Lawful(curve)
    ensures Read(Written(s, curve) + rest, curve) == Some((s, rest))
  {
    hide Read, Compress, Lawful, VarInt.Digits;
    match Compress(s, curve) {
      case Some(c) => SpecialBack(s, rest, curve);
      case None => PlainBack(s, rest, curve);
    }
  }

  /** GetSerializeSize of the compressor. */
  method GetSerializeSize(s: Bytes, curve: Curve) returns (n: nat)
    ensures n == |Written(s, curve)|
  {
    var c := Compress(s, curve);
    if c.Some? {
      return |c.value|;
    }
    var size := VarInt.GetSizeOfVarInt(|s| + SPECIAL_SCRIPTS);
    n := |s| + size;
  }
}
