/**
 * The canonical JSON encoder and the digest format of the SDK's utilities.
 *
 * `JSONEncoder.causableCanonical` is a Foundation encoder configured with
 * sorted keys and no extra whitespace. It is modelled on a JSON document
 * value: `Render` writes a document as text with the members of every object
 * in ascending key order, and `CanonicalBytes` is the UTF-8 form of that text.
 * Objects are maps, so the order in which a document was assembled cannot
 * reach the output. The hash function and the text of non-integral numbers
 * come from outside the model (`Primitives`).
 */
module Codec {
  import opened Wrappers
  import opened Hex

  /** A JSON document, as the encoder writes it and the decoder reads it. */
  datatype Json =
    | JNull
    | JBool(b: bool)
    | JInt(i: int)       // a number the encoder wrote from an integer
    | JDouble(d: real)   // a number the encoder wrote from a `Double`
    | JString(s: string)
    | JArray(items: seq<Json>)
    | JObject(members: map<string, Json>)

  type Digest32 = d: seq<Byte> | |d| == 32 witness seq(32, _ => 0)

  /**
   * What the model takes as given: the 256-bit hash (SHA-256 in the
   * source) and the text `JSONEncoder` writes for a finite `Double`, which
   * is its `description` with a trailing ".0" dropped (3.0 is written "3",
   * 1e20 is written "1e+20").
   */
  datatype Primitives = Primitives(hash: seq<Byte> -> Digest32, formatDouble: real -> string)

  // ---------------------------------------------------------------------------
  // Key order
  // ---------------------------------------------------------------------------

  /** Lexicographic order on strings by code point. */
  predicate StrLess(a: string, b: string)
    decreases |a|
  {
    if a == [] then b != []
    else if b == [] then false
    else if a[0] != b[0] then a[0] < b[0]
    else StrLess(a[1..], b[1..])
  }

  lemma {:induction false} StrLessIrreflexive(a: string)
    ensures !StrLess(a, a)
  {
    if a != [] {
      StrLessIrreflexive(a[1..]);
    }
  }

  lemma {:induction false} StrLessTransitive(a: string, b: string, c: string)
    requires StrLess(a, b) && StrLess(b, c)
    ensures StrLess(a, c)
  {
    if a != [] && b != [] && c != [] && a[0] == b[0] && b[0] == c[0] {
      StrLessTransitive(a[1..], b[1..], c[1..]);
    }
  }

  lemma {:induction false} StrLessTotal(a: string, b: string)
    requires a != b
    ensures StrLess(a, b) || StrLess(b, a)
  {
    if a != [] && b != [] && a[0] == b[0] {
      assert a == [a[0]] + a[1..] && b == [b[0]] + b[1..];
      StrLessTotal(a[1..], b[1..]);
    }
  }

  lemma {:induction false} StrLessAsymmetric(a: string, b: string)
    requires StrLess(a, b)
    ensures !StrLess(b, a)
  {
    if a != [] && b != [] && a[0] == b[0] {
      StrLessAsymmetric(a[1..], b[1..]);
    }
  }

  predicate IsLeast(k: string, ks: set<string>) {
    k in ks && forall j :: j in ks && j != k ==> StrLess(k, j)
  }

  lemma {:induction false} LeastExists(ks: set<string>)
    requires ks != {}
    ensures exists k :: IsLeast(k, ks)
    decreases |ks|
  {
    var x :| x in ks;
    var rest := ks - {x};
    if rest == {} {
      assert ks == {x};
      assert IsLeast(x, ks);
    } else {
      LeastExists(rest);
      var m :| IsLeast(m, rest);
      if StrLess(x, m) {
        forall j | j in ks && j != x ensures StrLess(x, j) {
          if j != m {
            StrLessTransitive(x, m, j);
          }
        }
        assert IsLeast(x, ks);
      } else {
        StrLessTotal(x, m);
        assert IsLeast(m, ks);
      }
    }
  }

  lemma LeastUnique(ks: set<string>)
    ensures forall k1, k2 :: IsLeast(k1, ks) && IsLeast(k2, ks) ==> k1 == k2
  {
    forall k1, k2 | IsLeast(k1, ks) && IsLeast(k2, ks) ensures k1 == k2 {
      if k1 != k2 {
        StrLessAsymmetric(k1, k2);
      }
    }
  }

  /** The least key of a non-empty key set. */
  function MinKey(ks: set<string>): (k: string)
    requires ks != {}
    ensures k in ks && forall j :: j in ks && j != k ==> StrLess(k, j)
  {
    LeastExists(ks);
    LeastUnique(ks);
    var k :| IsLeast(k, ks);
    k
  }

  /** The keys of an object in the order `.sortedKeys` writes them. */
  function SortedKeys(ks: set<string>): (r: seq<string>)
    ensures |r| == |ks|
    ensures forall k :: k in r <==> k in ks
    ensures forall i, j :: 0 <= i < j < |r| ==> StrLess(r[i], r[j])
    decreases |ks|
  {
    if ks == {} then []
    else
      var k := MinKey(ks);
      var rest := SortedKeys(ks - {k});
      [k] + rest
  }

  // ---------------------------------------------------------------------------
  // Text
  // ---------------------------------------------------------------------------

  function DigitChar(d: int): char
    requires 0 <= d < 10
  {
    ('0' as int + d) as char
  }

  function NatText(n: nat): (s: string)
    ensures |s| >= 1
  {
    if n < 10 then [DigitChar(n)] else NatText(n / 10) + [DigitChar(n % 10)]
  }

  /** Decimal text of an integer, as `JSONEncoder` writes an `Int`. */
  function IntText(n: int): string {
    if n < 0 then "-" + NatText(-n) else NatText(n)
  }

  predicate IsIntegral(r: real) {
    r == r.Floor as real
  }

  /** The escape sequence the encoder writes for one character of a string. */
  function EscapeChar(c: char): string {
    if c == '"' then "\\\""
    else if c == '\\' then "\\\\"
    else if c == '/' then "\\/"
    else if c == '\n' then "\\n"
    else if c == '\r' then "\\r"
    else if c == '\t' then "\\t"
    else if c as int == 0x08 then "\\b"
    else if c as int == 0x0C then "\\f"
    else if c as int < 0x20 then "\\u00" + HexString([c as int])
    else [c]
  }

  function Escape(s: string): string {
    if s == [] then "" else EscapeChar(s[0]) + Escape(s[1..])
  }

  function Quote(s: string): string {
    "\"" + Escape(s) + "\""
  }

  function Join(parts: seq<string>): string {
    if parts == [] then ""
    else if |parts| == 1 then parts[0]
    else parts[0] + "," + Join(parts[1..])
  }

  /**
   * The text the canonical encoder writes: no whitespace, integers in
   * decimal, doubles as `fmt` writes them, object members in ascending key
   * order.
   */
  function Render(j: Json, fmt: real -> string): string
    decreases j
  {
    match j
    case JNull => "null"
    case JBool(b) => if b then "true" else "false"
    case JInt(i) => IntText(i)
    case JDouble(d) => fmt(d)
    case JString(s) => Quote(s)
    case JArray(items) =>
      "[" + Join(seq(|items|, i requires 0 <= i < |items| => Render(items[i], fmt))) + "]"
    case JObject(m) =>
      var keys := SortedKeys(m.Keys);
      "{" + Join(seq(|keys|, i requires 0 <= i < |keys| => Quote(keys[i]) + ":" + Render(m[keys[i]], fmt))) + "}"
  }

  /** The members of an object as the encoder lists them, key order ascending. */
  function MemberTexts(m: map<string, Json>, fmt: real -> string): (r: seq<string>)
  {
    var keys := SortedKeys(m.Keys);
    seq(|keys|, i requires 0 <= i < |keys| => Quote(keys[i]) + ":" + Render(m[keys[i]], fmt))
  }

  /**
   * An object is written as its members in strictly ascending key order,
   * every key exactly once.
   */
  lemma ObjectMembersSorted(m: map<string, Json>, fmt: real -> string)
    ensures Render(JObject(m), fmt) == "{" + Join(MemberTexts(m, fmt)) + "}"
    ensures var keys := SortedKeys(m.Keys);
      && |MemberTexts(m, fmt)| == |m|
      && (forall k :: k in m <==> k in keys)
      && (forall a, b :: 0 <= a < b < |keys| ==> StrLess(keys[a], keys[b]))
      && (forall a :: 0 <= a < |keys| ==> MemberTexts(m, fmt)[a] == Quote(keys[a]) + ":" + Render(m[keys[a]], fmt))
  {
  }

  /** The object built from a list of (key, value) members declared in some order. */
  function ObjectOf(members: seq<(string, Json)>): Json
    requires DistinctKeys(members)
  {
    JObject(map i | 0 <= i < |members| :: members[i].0 := members[i].1)
  }

  predicate DistinctKeys(members: seq<(string, Json)>) {
    forall i, j :: 0 <= i < |members| && 0 <= j < |members| && i != j ==> members[i].0 != members[j].0
  }

  /**
   * Declaration order does not matter: two member lists with the same
   * members and no repeated key produce the same bytes.
   */
  lemma DeclarationOrderIrrelevant(ms1: seq<(string, Json)>, ms2: seq<(string, Json)>, fmt: real -> string)
    requires DistinctKeys(ms1) && DistinctKeys(ms2)
    requires forall p :: p in ms1 <==> p in ms2
    ensures Render(ObjectOf(ms1), fmt) == Render(ObjectOf(ms2), fmt)
  {
    var m1 := ObjectOf(ms1).members;
    var m2 := ObjectOf(ms2).members;
    forall k | k in m1 ensures k in m2 && m2[k] == m1[k] {
      var i :| 0 <= i < |ms1| && ms1[i].0 == k && m1[k] == ms1[i].1;
      assert ms1[i] in ms2;
      var j :| 0 <= j < |ms2| && ms2[j] == ms1[i];
      assert m2[k] == ms2[j].1;
    }
    forall k | k in m2 ensures k in m1 {
      var j :| 0 <= j < |ms2| && ms2[j].0 == k;
      assert ms2[j] in ms1;
    }
    assert m1 == m2;
  }

  // ---------------------------------------------------------------------------
  // UTF-8 and digests
  // ---------------------------------------------------------------------------

  /** The UTF-8 bytes of one Unicode scalar value. */
  function Utf8Char(c: char): (r: seq<Byte>)
    ensures 1 <= |r| <= 4
    ensures (c as int < 0x80) <==> |r| == 1
    ensures |r| == 1 ==> r[0] == c as int
  {
    var n := c as int;
    if n < 0x80 then [n]
    else if n < 0x800 then [0xC0 + n / 64, 0x80 + n % 64]
    else if n < 0x10000 then [0xE0 + n / 4096, 0x80 + (n / 64) % 64, 0x80 + n % 64]
    else [0xF0 + n / 262144, 0x80 + (n / 4096) % 64, 0x80 + (n / 64) % 64, 0x80 + n % 64]
  }

  /** `String.data(using: .utf8)`. */
  function Utf8(s: string): (r: seq<Byte>)
    ensures |r| >= |s|
  {
    if s == [] then [] else Utf8Char(s[0]) + Utf8(s[1..])
  }

  lemma {:induction false} Utf8Append(a: string, b: string)
    ensures Utf8(a + b) == Utf8(a) + Utf8(b)
  {
    if a != [] {
      assert (a + b)[1..] == a[1..] + b;
      Utf8Append(a[1..], b);
    } else {
      assert a + b == b;
    }
  }

  /** ASCII text is its own byte string, one byte per character. */
  lemma {:induction false} Utf8Ascii(s: string)
    requires forall i :: 0 <= i < |s| ==> s[i] as int < 0x80
    ensures |Utf8(s)| == |s|
    ensures forall i :: 0 <= i < |s| ==> Utf8(s)[i] == s[i] as int
  {
    if s != [] {
      Utf8Ascii(s[1..]);
    }
  }

  /** The payload bits of a byte once its marker bits `marker` are taken off. */
  function Bits(b: Byte, marker: int): int {
    b as int - marker
  }

  /** A UTF-8 continuation byte, `10xxxxxx`. */
  predicate IsContinuation(b: Byte) {
    0x80 <= b < 0xC0
  }

  /**
   * The first scalar value of a byte string and the number of bytes it
   * takes, when they are well-formed UTF-8: no overlong form, no surrogate,
   * nothing above U+10FFFF.
   */
  function DecodeScalar(b: seq<Byte>): (r: Option<(char, nat)>)
    ensures r.Some? ==> 1 <= r.value.1 <= |b| && r.value.1 <= 4
  {
    if |b| == 0 then None
    else if b[0] < 0x80 then Some((b[0] as char, 1))
    else if 0xC2 <= b[0] <= 0xDF && |b| >= 2 && IsContinuation(b[1]) then
      Some(((Bits(b[0], 0xC0) * 64 + Bits(b[1], 0x80)) as char, 2))
    else if 0xE0 <= b[0] <= 0xEF && |b| >= 3 && IsContinuation(b[1]) && IsContinuation(b[2]) then
      var v := Bits(b[0], 0xE0) * 4096 + Bits(b[1], 0x80) * 64 + Bits(b[2], 0x80);
      if v < 0x800 || 0xD800 <= v <= 0xDFFF then None else Some((v as char, 3))
    else if 0xF0 <= b[0] <= 0xF4 && |b| >= 4 && IsContinuation(b[1]) && IsContinuation(b[2]) && IsContinuation(b[3]) then
      var v := Bits(b[0], 0xF0) * 262144 + Bits(b[1], 0x80) * 4096 + Bits(b[2], 0x80) * 64 + Bits(b[3], 0x80);
      if v < 0x10000 || v > 0x10FFFF then None else Some((v as char, 4))
    else None
  }

  /** `String(data:encoding: .utf8)`: the text, or nothing for bytes that are not UTF-8. */
  function Utf8Decode(b: seq<Byte>): Option<string>
    decreases |b|
  {
    if b == [] then Some("")
    else match DecodeScalar(b)
      case None => None
      case Some((c, n)) =>
        match Utf8Decode(b[n..])
        case None => None
        case Some(rest) => Some([c] + rest)
  }

  /** The encoding of one scalar value is read back as that scalar, whatever follows it. */
  lemma DecodeScalarOfChar(c: char, rest: seq<Byte>)
    ensures DecodeScalar(Utf8Char(c) + rest) == Some((c, |Utf8Char(c)|))
  {
    var n := c as int;
    if n < 0x80 {
    } else if n < 0x800 {
      DecodeTwoBytes(c, rest);
    } else if n < 0x10000 {
      DecodeThreeBytes(c, rest);
    } else {
      DecodeFourBytes(c, rest);
    }
  }

  lemma DecodeTwoBytes(c: char, rest: seq<Byte>)
    requires 0x80 <= c as int < 0x800
    ensures DecodeScalar(Utf8Char(c) + rest) == Some((c, 2))
  {
    var n := c as int;
    var b := Utf8Char(c) + rest;
    assert b[0] == 0xC0 + n / 64 && b[1] == 0x80 + n % 64;
    assert Bits(b[0], 0xC0) * 64 + Bits(b[1], 0x80) == n;
  }

  lemma DecodeThreeBytes(c: char, rest: seq<Byte>)
    requires 0x800 <= c as int < 0x10000
    ensures DecodeScalar(Utf8Char(c) + rest) == Some((c, 3))
  {
    var n := c as int;
    var b := Utf8Char(c) + rest;
    assert b[0] == 0xE0 + n / 4096 && b[1] == 0x80 + (n / 64) % 64 && b[2] == 0x80 + n % 64;
    assert (n / 4096) * 64 + (n / 64) % 64 == n / 64;
    assert Bits(b[0], 0xE0) * 4096 + Bits(b[1], 0x80) * 64 + Bits(b[2], 0x80) == n;
  }

  lemma DecodeFourBytes(c: char, rest: seq<Byte>)
    requires 0x10000 <= c as int
    ensures DecodeScalar(Utf8Char(c) + rest) == Some((c, 4))
  {
    var n := c as int;
    var b := Utf8Char(c) + rest;
    assert b[0] == 0xF0 + n / 262144 && b[1] == 0x80 + (n / 4096) % 64;
    assert b[2] == 0x80 + (n / 64) % 64 && b[3] == 0x80 + n % 64;
    assert (n / 262144) * 64 + (n / 4096) % 64 == n / 4096;
    assert (n / 4096) * 64 + (n / 64) % 64 == n / 64;
    assert Bits(b[0], 0xF0) * 262144 + Bits(b[1], 0x80) * 4096 + Bits(b[2], 0x80) * 64 + Bits(b[3], 0x80) == n;
  }

  /** Decoding gives back every text the encoder wrote. */
  lemma {:induction false} Utf8RoundTrip(s: string)
    ensures Utf8Decode(Utf8(s)) == Some(s)
  {
    if s != [] {
      var head := Utf8Char(s[0]);
      var tail := Utf8(s[1..]);
      DecodeScalarOfChar(s[0], tail);
      assert (head + tail)[|head|..] == tail;
      Utf8RoundTrip(s[1..]);
      assert [s[0]] + s[1..] == s;
    }
  }

  /** A scalar the decoder reads is encoded as exactly the bytes it read. */
  lemma EncodeDecodedScalar(b: seq<Byte>)
    requires DecodeScalar(b).Some?
    ensures Utf8Char(DecodeScalar(b).value.0) == b[..DecodeScalar(b).value.1]
  {
    var (c, k) := DecodeScalar(b).value;
    var n := c as int;
    if k == 2 {
      assert n == Bits(b[0], 0xC0) * 64 + Bits(b[1], 0x80);
      assert n / 64 == Bits(b[0], 0xC0) && n % 64 == Bits(b[1], 0x80);
    } else if k == 3 {
      assert n == Bits(b[0], 0xE0) * 4096 + Bits(b[1], 0x80) * 64 + Bits(b[2], 0x80);
      assert n / 64 == Bits(b[0], 0xE0) * 64 + Bits(b[1], 0x80);
      assert n / 4096 == Bits(b[0], 0xE0);
    } else if k == 4 {
      assert n == Bits(b[0], 0xF0) * 262144 + Bits(b[1], 0x80) * 4096 + Bits(b[2], 0x80) * 64 + Bits(b[3], 0x80);
      assert n / 64 == Bits(b[0], 0xF0) * 4096 + Bits(b[1], 0x80) * 64 + Bits(b[2], 0x80);
      assert n / 4096 == Bits(b[0], 0xF0) * 64 + Bits(b[1], 0x80);
      assert n / 262144 == Bits(b[0], 0xF0);
    }
  }

  /** Whatever the decoder accepts, the encoder writes back byte for byte. */
  lemma {:induction false} Utf8DecodeSound(b: seq<Byte>)
    requires Utf8Decode(b).Some?
    ensures Utf8(Utf8Decode(b).value) == b
    decreases |b|
  {
    if b != [] {
      var (c, k) := DecodeScalar(b).value;
      EncodeDecodedScalar(b);
      Utf8DecodeSound(b[k..]);
      var s := Utf8Decode(b).value;
      assert s[0] == c && s[1..] == Utf8Decode(b[k..]).value;
      assert b == b[..k] + b[k..];
    }
  }

  /** The bytes the canonical encoder produces for a document. */
  function CanonicalBytes(j: Json, fmt: real -> string): seq<Byte> {
    Utf8(Render(j, fmt))
  }

  /** `DigestUtils.computeDigestBytes`: the raw 32-byte hash. */
  function ComputeDigestBytes(hash: seq<Byte> -> Digest32, data: seq<Byte>): (d: seq<Byte>)
    ensures |d| == 32
  {
    hash(data)
  }

  /** `DigestUtils.computeDigest`: "b3:" and the lower-case hex of the hash. */
  function ComputeDigest(hash: seq<Byte> -> Digest32, data: seq<Byte>): (s: string)
    ensures |s| == 3 + 64
    ensures s[..3] == "b3:"
    ensures forall i :: 3 <= i < |s| ==> IsLowerHex(s[i])
  {
    "b3:" + HexString(ComputeDigestBytes(hash, data))
  }

  /** The hex part of a digest decodes back to the raw digest bytes. */
  lemma DigestHexDecodes(hash: seq<Byte> -> Digest32, data: seq<Byte>)
    ensures StrictHex(ComputeDigest(hash, data)[3..]) == Some(ComputeDigestBytes(hash, data))
  {
    var d := ComputeDigestBytes(hash, data);
    assert ComputeDigest(hash, data)[3..] == HexString(d);
    StrictRoundTrip(d);
  }
}
