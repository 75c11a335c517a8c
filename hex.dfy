/**
 * Hexadecimal text for byte strings.
 *
 * The SDK carries two hex decoders with the same Swift signature
 * `Data.init?(hexString:)`: the public one next to the digest utilities,
 * which rejects odd-length input and accepts every character that Swift's
 * `Character.hexDigitValue` accepts, and a second one beside the signer,
 * which parses consecutive two-character chunks with `UInt8(_:radix: 16)`
 * and silently ignores a trailing odd character. Both are modelled here,
 * with the single encoder `hexString` they share.
 */
module Hex {
  import opened Wrappers

  type Byte = x: int | 0 <= x < 256

  // ---------------------------------------------------------------------------
  // Encoding: `map { String(format: "%02x", $0) }.joined()`
  // ---------------------------------------------------------------------------

  predicate IsLowerHex(c: char) {
    '0' <= c <= '9' || 'a' <= c <= 'f'
  }

  /** The lower-case hex digit `%x` prints for a nibble. */
  function HexChar(n: int): (c: char)
    requires 0 <= n < 16
    ensures IsLowerHex(c)
  {
    if n < 10 then ('0' as int + n) as char else ('a' as int + n - 10) as char
  }

  /** `Data.hexString`: two lower-case hex digits per byte, high nibble first. */
  function HexString(d: seq<Byte>): (s: string)
    ensures |s| == 2 * |d|
    ensures forall i :: 0 <= i < |s| ==> IsLowerHex(s[i])
  {
    if d == [] then "" else [HexChar(d[0] / 16), HexChar(d[0] % 16)] + HexString(d[1..])
  }

  /** Characters 2k and 2k+1 of `hexString` are the two nibbles of byte k. */
  lemma {:induction false} HexStringAt(d: seq<Byte>, k: nat)
    requires k < |d|
    ensures |HexString(d)| == 2 * |d|
    ensures HexString(d)[2 * k] == HexChar(d[k] / 16)
    ensures HexString(d)[2 * k + 1] == HexChar(d[k] % 16)
  {
    if k > 0 {
      HexStringAt(d[1..], k - 1);
    }
  }

  lemma {:induction false} HexStringAppend(a: seq<Byte>, b: seq<Byte>)
    ensures HexString(a + b) == HexString(a) + HexString(b)
  {
    if a != [] {
      assert (a + b)[1..] == a[1..] + b;
      HexStringAppend(a[1..], b);
    } else {
      assert a + b == b;
    }
  }

  // ---------------------------------------------------------------------------
  // Digit values
  // ---------------------------------------------------------------------------

  /**
   * Swift's `Character.hexDigitValue`: ASCII digits and letters a-f / A-F,
   * and their full-width compatibility forms (U+FF10.., U+FF21.., U+FF41..).
   */
  function HexDigitValue(c: char): (v: Option<int>)
    ensures v.Some? ==> 0 <= v.value < 16
  {
    var n := c as int;
    if 0x30 <= n <= 0x39 then Some(n - 0x30)
    else if 0x41 <= n <= 0x46 then Some(n - 0x41 + 10)
    else if 0x61 <= n <= 0x66 then Some(n - 0x61 + 10)
    else if 0xFF10 <= n <= 0xFF19 then Some(n - 0xFF10)
    else if 0xFF21 <= n <= 0xFF26 then Some(n - 0xFF21 + 10)
    else if 0xFF41 <= n <= 0xFF46 then Some(n - 0xFF41 + 10)
    else None
  }

  /**
   * A digit as `UInt8(_:radix: 16)` reads it: ASCII only, letters in
   * either case.
   */
  function RadixDigit(c: char): (v: Option<int>)
    ensures v.Some? ==> 0 <= v.value < 16
  {
    var n := c as int;
    if 0x30 <= n <= 0x39 then Some(n - 0x30)
    else if 0x41 <= n <= 0x46 then Some(n - 0x41 + 10)
    else if 0x61 <= n <= 0x66 then Some(n - 0x61 + 10)
    else None
  }

  lemma HexCharValue(n: int)
    requires 0 <= n < 16
    ensures HexDigitValue(HexChar(n)) == Some(n)
    ensures RadixDigit(HexChar(n)) == Some(n)
  {
  }

  // ---------------------------------------------------------------------------
  // The strict decoder (Utils.swift)
  // ---------------------------------------------------------------------------

  predicate AllHexDigits(s: string) {
    forall i :: 0 <= i < |s| ==> HexDigitValue(s[i]).Some?
  }

  function Nibble(c: char): int
    requires HexDigitValue(c).Some?
  {
    HexDigitValue(c).value
  }

  /** The bytes of an even-length all-hex string, one per character pair. */
  function PairBytes(s: string): (d: seq<Byte>)
    requires |s| % 2 == 0 && AllHexDigits(s)
    ensures |d| == |s| / 2
  {
    if s == [] then [] else [16 * Nibble(s[0]) + Nibble(s[1])] + PairBytes(s[2..])
  }

  /** Byte k of `PairBytes`, as the decoder computes it from characters 2k, 2k+1. */
  function StrictPairAt(s: string, k: nat): Byte
    requires 2 * k + 1 < |s| && AllHexDigits(s)
  {
    16 * Nibble(s[2 * k]) + Nibble(s[2 * k + 1])
  }

  lemma {:induction false} PairBytesAt(s: string, k: nat)
    requires |s| % 2 == 0 && AllHexDigits(s) && k < |s| / 2
    ensures PairBytes(s)[k] == StrictPairAt(s, k)
  {
    if k > 0 {
      PairBytesAt(s[2..], k - 1);
    }
  }

  lemma {:induction false} PairBytesSnoc(s: string, a: char, b: char)
    requires |s| % 2 == 0 && AllHexDigits(s + [a, b])
    ensures AllHexDigits(s)
    ensures HexDigitValue(a).Some? && HexDigitValue(b).Some?
    ensures PairBytes(s + [a, b]) == PairBytes(s) + [16 * Nibble(a) + Nibble(b)]
  {
    assert forall i :: 0 <= i < |s| ==> (s + [a, b])[i] == s[i];
    assert (s + [a, b])[|s|] == a && (s + [a, b])[|s| + 1] == b;
    if s != [] {
      assert (s + [a, b])[2..] == s[2..] + [a, b];
      PairBytesSnoc(s[2..], a, b);
    }
  }

  /** What `Data.init?(hexString:)` in Utils.swift returns. */
  function StrictHex(s: string): Option<seq<Byte>> {
    if |s| % 2 != 0 || !AllHexDigits(s) then None else Some(PairBytes(s))
  }

  /**
   * The loop of Utils.swift: odd length is refused up front; then every
   * character must be a hex digit; an even character starts a byte with its
   * value shifted by four, an odd one completes and appends it.
   */
  method DecodeHexStrict(s: string) returns (r: Option<seq<Byte>>)
    ensures r == StrictHex(s)
  {
    if |s| % 2 != 0 {
      return None;
    }
    var data: seq<Byte> := [];
    var indexIsEven := true;
    var currentByte: Byte := 0;
    var i := 0;
    ghost var pairs := 0;
    while i < |s|
      invariant 0 <= i <= |s| && 2 * pairs <= |s|
      invariant i == if indexIsEven then 2 * pairs else 2 * pairs + 1
      invariant forall j :: 0 <= j < i ==> HexDigitValue(s[j]).Some?
      invariant data == DecodedPairs(s, pairs)
      invariant !indexIsEven ==> currentByte == 16 * Nibble(s[i - 1])
    {
      var value := HexDigitValue(s[i]);
      if value.None? {
        assert s[i] in s;
        return None;
      }
      if indexIsEven {
        currentByte := value.value * 16;
      } else {
        currentByte := currentByte + value.value;
        data := data + [currentByte];
        pairs := pairs + 1;
      }
      indexIsEven := !indexIsEven;
      i := i + 1;
    }
    DecodedAllPairs(s, pairs);
    assert s[..2 * pairs] == s;
    r := if indexIsEven then Some(data) else None;
  }

  /** The first `n` bytes the strict decoder appends, one per character pair. */
  ghost function DecodedPairs(s: string, n: nat): seq<Byte>
    requires 2 * n <= |s| && forall j :: 0 <= j < 2 * n ==> HexDigitValue(s[j]).Some?
  {
    if n == 0 then [] else DecodedPairs(s, n - 1) + [16 * Nibble(s[2 * n - 2]) + Nibble(s[2 * n - 1])]
  }

  /** The decoder's pairs so far are `PairBytes` of the prefix they came from. */
  lemma {:induction false} DecodedAllPairs(s: string, n: nat)
    requires 2 * n <= |s| && forall j :: 0 <= j < 2 * n ==> HexDigitValue(s[j]).Some?
    ensures AllHexDigits(s[..2 * n]) && DecodedPairs(s, n) == PairBytes(s[..2 * n])
  {
    if n > 0 {
      DecodedAllPairs(s, n - 1);
      EvenPrefixStep(s, 2 * (n - 1));
    }
  }

  /** One completed pair extends the bytes decoded so far. */
  lemma EvenPrefixStep(s: string, m: nat)
    requires m % 2 == 0 && m + 2 <= |s|
    requires forall j :: 0 <= j < m + 2 ==> HexDigitValue(s[j]).Some?
    ensures AllHexDigits(s[..m]) && AllHexDigits(s[..m + 2])
    ensures PairBytes(s[..m + 2]) == PairBytes(s[..m]) + [16 * Nibble(s[m]) + Nibble(s[m + 1])]
  {
    assert s[..m + 2] == s[..m] + [s[m], s[m + 1]];
    PairBytesSnoc(s[..m], s[m], s[m + 1]);
  }

  /** `StrictHex` refuses exactly odd lengths and non-digits, and reads pairs otherwise. */
  lemma StrictHexMeaning(s: string)
    ensures StrictHex(s).None? <==> |s| % 2 == 1 || exists i :: 0 <= i < |s| && HexDigitValue(s[i]).None?
    ensures StrictHex(s).Some? ==> |StrictHex(s).value| == |s| / 2
    ensures StrictHex(s).Some? ==> forall k :: 0 <= k < |s| / 2 ==> StrictHex(s).value[k] == StrictPairAt(s, k)
  {
    if StrictHex(s).Some? {
      forall k | 0 <= k < |s| / 2 ensures StrictHex(s).value[k] == StrictPairAt(s, k) {
        PairBytesAt(s, k);
      }
    }
  }

  /** Round trip of the strict decoder on the encoder's output. */
  lemma {:induction false} StrictRoundTrip(d: seq<Byte>)
    ensures StrictHex(HexString(d)) == Some(d)
  {
    var s := HexString(d);
    forall i | 0 <= i < |s| ensures HexDigitValue(s[i]).Some? {
      HexStringAt(d, i / 2);
      if i % 2 == 0 {
        assert s[i] == s[2 * (i / 2)];
        HexCharValue(d[i / 2] / 16);
      } else {
        assert s[i] == s[2 * (i / 2) + 1];
        HexCharValue(d[i / 2] % 16);
      }
    }
    PairsOfHexString(d);
  }

  lemma {:induction false} PairsOfHexString(d: seq<Byte>)
    requires AllHexDigits(HexString(d))
    ensures PairBytes(HexString(d)) == d
  {
    if d != [] {
      var s := HexString(d);
      assert s[2..] == HexString(d[1..]);
      HexCharValue(d[0] / 16);
      HexCharValue(d[0] % 16);
      assert AllHexDigits(s[2..]) by {
        forall i | 0 <= i < |s[2..]| ensures HexDigitValue(s[2..][i]).Some? {
          assert s[2..][i] == s[i + 2];
        }
      }
      PairsOfHexString(d[1..]);
      assert d == [d[0]] + d[1..];
    }
  }

  // ---------------------------------------------------------------------------
  // The lenient decoder (Signer.swift)
  // ---------------------------------------------------------------------------

  /**
   * `UInt8(String([a, b]), radix: 16)`. Swift's integer parser accepts a
   * leading sign: "+f" is 15, "-0" is 0, and "-1" overflows to nil.
   */
  function ParseByte(a: char, b: char): (r: Option<Byte>)
  {
    if a == '+' then
      (if RadixDigit(b).Some? then Some(RadixDigit(b).value) else None)
    else if a == '-' then
      (if RadixDigit(b) == Some(0) then Some(0) else None)
    else if RadixDigit(a).Some? && RadixDigit(b).Some? then
      Some(16 * RadixDigit(a).value + RadixDigit(b).value)
    else None
  }

  /** The chunk the lenient decoder reads for byte k. */
  function LenientPairAt(s: string, k: nat): Option<Byte>
    requires 2 * k + 1 < |s|
  {
    ParseByte(s[2 * k], s[2 * k + 1])
  }

  /** What `Data.init?(hexString:)` in Signer.swift returns. */
  function LenientHex(s: string): (r: Option<seq<Byte>>)
    ensures r.Some? ==> |r.value| == |s| / 2
  {
    if |s| < 2 then Some([])
    else match ParseByte(s[0], s[1])
      case None => None
      case Some(b) =>
        match LenientHex(s[2..])
        case None => None
        case Some(rest) => Some([b] + rest)
  }

  lemma {:induction false} LenientHexSnoc(s: string, a: char, b: char)
    requires |s| % 2 == 0
    ensures LenientHex(s + [a, b]) ==
      match LenientHex(s)
      case None => None
      case Some(d) =>
        match ParseByte(a, b)
        case None => None
        case Some(x) => Some(d + [x])
  {
    if |s| >= 2 {
      assert (s + [a, b])[2..] == s[2..] + [a, b];
      assert (s + [a, b])[0] == s[0] && (s + [a, b])[1] == s[1];
      LenientHexSnoc(s[2..], a, b);
      match ParseByte(s[0], s[1])
      case None =>
      case Some(y) =>
        match LenientHex(s[2..])
        case None =>
        case Some(rest) =>
          match ParseByte(a, b)
          case None =>
          case Some(x) => assert [y] + (rest + [x]) == ([y] + rest) + [x];
    } else {
      assert s == [];
      assert s + [a, b] == [a, b];
      assert [a, b][2..] == [];
      assert [a, b][0] == a && [a, b][1] == b;
      assert LenientHex([a, b][2..]) == Some([]);
      match ParseByte(a, b)
      case None =>
      case Some(x) => assert [x] + [] == [] + [x];
    }
  }

  lemma {:induction false} LenientHexAt(s: string, k: nat)
    requires LenientHex(s).Some? && k < |s| / 2
    ensures LenientPairAt(s, k) == Some(LenientHex(s).value[k])
  {
    if k > 0 {
      LenientHexAt(s[2..], k - 1);
    }
  }

  lemma {:induction false} LenientHexNone(s: string)
    requires LenientHex(s).None?
    ensures exists k :: 0 <= k < |s| / 2 && LenientPairAt(s, k).None?
  {
    if ParseByte(s[0], s[1]).Some? {
      LenientHexNone(s[2..]);
      var k :| 0 <= k < |s[2..]| / 2 && LenientPairAt(s[2..], k).None?;
      assert LenientPairAt(s, k + 1).None?;
    } else {
      assert LenientPairAt(s, 0).None?;
    }
  }

  /**
   * The loop of Signer.swift: `count / 2` chunks of two characters, each
   * parsed as a base-16 byte; the first chunk that fails ends the decoding
   * with nil. A trailing odd character is never read.
   */
  method DecodeHexLenient(s: string) returns (r: Option<seq<Byte>>)
    ensures r == LenientHex(s)
    ensures r.Some? ==> |r.value| == |s| / 2
    ensures r.Some? ==> forall k :: 0 <= k < |s| / 2 ==> LenientPairAt(s, k) == Some(r.value[k])
    ensures r.None? <==> exists k :: 0 <= k < |s| / 2 && LenientPairAt(s, k).None?
  {
    var len := |s| / 2;
    var data: seq<Byte> := [];
    var index := 0;
    for n := 0 to len
      invariant index == 2 * n
      invariant LenientHex(s[..index]) == Some(data)
    {
      var nextIndex := index + 2;
      var byte := ParseByte(s[index], s[index + 1]);
      assert s[..nextIndex] == s[..index] + [s[index], s[index + 1]];
      LenientHexSnoc(s[..index], s[index], s[index + 1]);
      if byte.None? {
        assert LenientPairAt(s, n).None?;
        LenientPrefixFails(s, nextIndex);
        return None;
      }
      data := data + [byte.value];
      index := nextIndex;
    }
    LenientDropsTail(s, index);
    r := Some(data);
    forall k | 0 <= k < |s| / 2 ensures LenientPairAt(s, k) == Some(data[k]) {
      LenientHexAt(s, k);
    }
  }

  /** A failing chunk anywhere in an even prefix makes the whole decoding fail. */
  lemma {:induction false} LenientPrefixFails(s: string, m: nat)
    requires m % 2 == 0 && m <= |s| && LenientHex(s[..m]).None?
    ensures LenientHex(s).None?
  {
    if m >= 2 {
      assert s[..m][2..] == s[2..][..m - 2];
      assert s[..m][0] == s[0] && s[..m][1] == s[1];
      if ParseByte(s[0], s[1]).Some? {
        LenientPrefixFails(s[2..], m - 2);
      }
    }
  }

  /** Everything past the last full chunk is ignored. */
  lemma {:induction false} LenientDropsTail(s: string, m: nat)
    requires m % 2 == 0 && m <= |s| && |s| - m < 2
    ensures LenientHex(s) == LenientHex(s[..m])
  {
    if m >= 2 {
      assert s[..m][2..] == s[2..][..m - 2];
      assert s[..m][0] == s[0] && s[..m][1] == s[1];
      LenientDropsTail(s[2..], m - 2);
    }
  }

  /** A trailing odd character is silently dropped by the lenient decoder. */
  lemma LenientIgnoresOddTail(s: string)
    requires |s| % 2 == 1
    ensures LenientHex(s) == LenientHex(s[..|s| - 1])
    ensures StrictHex(s).None?
  {
    LenientDropsTail(s, |s| - 1);
  }

  /** Round trip of the lenient decoder on the encoder's output. */
  lemma {:induction false} LenientRoundTrip(d: seq<Byte>)
    ensures LenientHex(HexString(d)) == Some(d)
  {
    if d != [] {
      var s := HexString(d);
      assert s[2..] == HexString(d[1..]);
      HexCharValue(d[0] / 16);
      HexCharValue(d[0] % 16);
      LenientRoundTrip(d[1..]);
      assert d == [d[0]] + d[1..];
    }
  }

  /** The two decoders disagree on "123": the strict one refuses it, the lenient one reads 0x12. */
  lemma DecodersDisagreeOnOddLength()
    ensures StrictHex("123") == None
    ensures LenientHex("123") == Some([0x12])
  {
    var s := "123";
    assert s[0] == '1' && s[1] == '2' && s[2..] == "3";
    assert ParseByte('1', '2') == Some(0x12);
    assert LenientHex("3") == Some([]);
    assert [0x12] + [] == [0x12];
  }
}
