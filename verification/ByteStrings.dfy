/**
  Byte strings as the Go services handle them: Go strings are byte sequences, hashes are
  byte slices, and the text that travels inside a proof is hexadecimal, UTF-8 or raw.
  SHA-256 is a parameter of everything that hashes: any function to 32-byte strings.
 */
module ByteStrings {
  import opened Sequences

  type byte = b: int | 0 <= b < 256

  type Bytes = seq<byte>

  type Hash32 = b: Bytes | |b| == 32 witness seq(32, i => 0 as byte)

  /** A hash function; the results hold for every one, so for SHA-256 as well. */
  type Hasher = Bytes -> Hash32

  datatype Option<+T> = None | Some(value: T)

  /** The bytes of an ASCII literal of the source. */
  function Ascii(s: string): Bytes {
    seq(|s|, i requires 0 <= i < |s| => s[i] as int % 128)
  }

  predicate IsAscii(b: Bytes) {
    forall i :: 0 <= i < |b| ==> b[i] < 128
  }

  lemma AsciiIsAscii(s: string)
    ensures IsAscii(Ascii(s))
  {
  }

  // ---------- hexadecimal text (Go's encoding/hex) ----------

  function HexChar(v: int): byte
    requires 0 <= v < 16
  {
    if v < 10 then 48 + v else 87 + v
  }

  /** The value of a hexadecimal digit of either case, or -1. */
  function HexVal(c: byte): (v: int)
    ensures -1 <= v < 16
  {
    if 48 <= c <= 57 then c - 48
    else if 97 <= c <= 102 then c - 87
    else if 65 <= c <= 70 then c - 55
    else -1
  }

  /** hex.EncodeToString */
  function HexEncode(b: Bytes): Bytes {
    if b == [] then [] else [HexChar(b[0] / 16), HexChar(b[0] % 16)] + HexEncode(b[1..])
  }

  datatype Decoded = Decoded(bytes: Bytes, ok: bool)

  /** hex.DecodeString: on malformed input the bytes decoded so far come back with the error. */
  function HexDecode(s: Bytes): Decoded {
    if |s| < 2 then
      Decoded([], s == [])
    else if HexVal(s[0]) < 0 || HexVal(s[1]) < 0 then
      Decoded([], false)
    else
      var rest := HexDecode(s[2..]);
      Decoded([16 * HexVal(s[0]) + HexVal(s[1])] + rest.bytes, rest.ok)
  }

  predicate IsHex(s: Bytes) {
    HexDecode(s).ok
  }

  lemma HexDigits(v: int)
    requires 0 <= v < 16
    ensures HexVal(HexChar(v)) == v && HexChar(v) < 128
  {
  }

  lemma {:induction false} HexRoundTrip(b: Bytes)
    ensures HexDecode(HexEncode(b)) == Decoded(b, true)
    ensures |HexEncode(b)| == 2 * |b|
    ensures IsAscii(HexEncode(b))
  {
    if b != [] {
      HexRoundTrip(b[1..]);
      HexDigits(b[0] / 16);
      HexDigits(b[0] % 16);
      assert HexEncode(b)[2..] == HexEncode(b[1..]);
      assert b == [b[0]] + b[1..];
    }
  }

  lemma {:induction false} HexEncodeInjective(a: Bytes, b: Bytes)
    requires HexEncode(a) == HexEncode(b)
    ensures a == b
  {
    HexRoundTrip(a);
    HexRoundTrip(b);
  }

  lemma {:induction false} HexLength(s: Bytes)
    ensures IsHex(s) ==> |s| == 2 * |HexDecode(s).bytes|
    ensures IsHex(s) ==> IsAscii(s)
    ensures 2 * |HexDecode(s).bytes| <= |s|
  {
    if |s| >= 2 {
      HexLength(s[2..]);
      assert IsHex(s) && IsAscii(s[2..]) ==> forall i :: 2 <= i < |s| ==> s[i] == s[2..][i - 2];
    }
  }

  /** One step of decoding. */
  lemma HexStep(s: Bytes)
    requires |s| >= 2
    ensures IsHex(s) <==> HexVal(s[0]) >= 0 && HexVal(s[1]) >= 0 && IsHex(s[2..])
    ensures HexVal(s[0]) >= 0 && HexVal(s[1]) >= 0 ==>
              HexDecode(s).bytes == [16 * HexVal(s[0]) + HexVal(s[1])] + HexDecode(s[2..]).bytes
  {
  }

  /** A text of even length in front is decoded on its own; what follows it likewise. */
  lemma {:induction false} HexConcat(a: Bytes, b: Bytes)
    requires |a| % 2 == 0
    ensures IsHex(a + b) <==> IsHex(a) && IsHex(b)
    ensures IsHex(a) ==> HexDecode(a + b).bytes == HexDecode(a).bytes + HexDecode(b).bytes
  {
    if a == [] {
      assert a + b == b;
    } else {
      HexStep(a);
      HexStep(a + b);
      assert (a + b)[2..] == a[2..] + b;
      HexConcat(a[2..], b);
      if HexVal(a[0]) >= 0 && HexVal(a[1]) >= 0 {
        Regroup([16 * HexVal(a[0]) + HexVal(a[1])], HexDecode(a[2..]).bytes, HexDecode(b).bytes);
      }
    }
  }

  /** 0 to 9 and a to f. */
  predicate IsLowerDigit(c: byte) {
    48 <= c <= 57 || 97 <= c <= 102
  }

  predicate AllLower(s: Bytes) {
    forall i :: 0 <= i < |s| ==> IsLowerDigit(s[i])
  }

  lemma OneLowerByte(c: byte, d: byte)
    requires IsLowerDigit(c) && IsLowerDigit(d)
    ensures HexVal(c) >= 0 && HexVal(d) >= 0
    ensures var b := 16 * HexVal(c) + HexVal(d); 0 <= b < 256 && [HexChar(b / 16), HexChar(b % 16)] == [c, d]
  {
  }

  lemma EncodedFront(s: Bytes, b: Bytes)
    requires |s| >= 2 && b != []
    ensures s == HexEncode(b) <==> s[0] == HexChar(b[0] / 16) && s[1] == HexChar(b[0] % 16) && s[2..] == HexEncode(b[1..])
  {
    assert s == [s[0], s[1]] + s[2..];
  }

  lemma DecodedFront(s: Bytes, b: Bytes)
    requires |s| >= 2 && b != [] && IsLowerDigit(s[0]) && IsLowerDigit(s[1])
    ensures HexDecode(s) == Decoded(b, true) <==>
              s[0] == HexChar(b[0] / 16) && s[1] == HexChar(b[0] % 16) && HexDecode(s[2..]) == Decoded(b[1..], true)
  {
    OneLowerByte(s[0], s[1]);
    HexDigits(b[0] / 16);
    HexDigits(b[0] % 16);
    assert b == [b[0]] + b[1..];
  }

  /** The encoding is the one text in lower-case digits that decodes to the bytes. */
  lemma {:induction false} HexIsLower(s: Bytes, b: Bytes)
    ensures s == HexEncode(b) <==> AllLower(s) && HexDecode(s) == Decoded(b, true)
    decreases |s|
  {
    if |s| >= 2 && b != [] {
      HexIsLower(s[2..], b[1..]);
      LowerSplits(s);
      EncodedFront(s, b);
      if IsLowerDigit(s[0]) && IsLowerDigit(s[1]) {
        DecodedFront(s, b);
      }
    }
  }

  lemma LowerSplits(s: Bytes)
    requires |s| >= 2
    ensures AllLower(s) <==> IsLowerDigit(s[0]) && IsLowerDigit(s[1]) && AllLower(s[2..])
  {
    assert s == [s[0], s[1]] + s[2..];
  }

  function LowerCase(c: byte): byte {
    if 65 <= c <= 90 then c + 32 else c
  }

  /** Digits of either case are read alike, and nothing else is a digit. */
  lemma HexValOfCases(c: byte)
    ensures HexVal(c) == HexVal(LowerCase(c)) && (HexVal(c) >= 0 <==> IsLowerDigit(LowerCase(c)))
  {
  }

  function LowerText(s: Bytes): Bytes {
    seq(|s|, i requires 0 <= i < |s| => LowerCase(s[i]))
  }

  /** Upper-case digits are read like lower-case ones. */
  lemma {:induction false} HexIgnoresCase(s: Bytes)
    ensures HexDecode(LowerText(s)) == HexDecode(s)
  {
    if |s| >= 2 {
      HexValOfCases(s[0]);
      HexValOfCases(s[1]);
      assert LowerText(s)[2..] == LowerText(s[2..]);
      HexIgnoresCase(s[2..]);
    }
  }

  /** A text is hexadecimal if and only if it has an even number of characters, all of them digits. */
  lemma {:induction false} HexTexts(s: Bytes)
    ensures IsHex(s) <==> |s| % 2 == 0 && forall i :: 0 <= i < |s| ==> IsLowerDigit(LowerCase(s[i]))
  {
    if |s| >= 2 {
      HexTexts(s[2..]);
      assert s == [s[0], s[1]] + s[2..];
    }
  }

  /** Of a malformed text, the longest part in front that is well-formed is decoded. */
  lemma {:induction false} HexOfMalformed(s: Bytes)
    ensures var n := 2 * |HexDecode(s).bytes|;
            && n <= |s| && HexDecode(s[..n]) == Decoded(HexDecode(s).bytes, true)
            && (n + 2 <= |s| ==> !IsHex(s[n..n + 2]))
  {
    HexLength(s);
    if |s| >= 2 && HexVal(s[0]) >= 0 && HexVal(s[1]) >= 0 {
      HexOfMalformed(s[2..]);
      var n := 2 * |HexDecode(s[2..]).bytes|;
      assert s[..n + 2][2..] == s[2..][..n];
      assert n + 4 <= |s| ==> s[n + 2..n + 4] == s[2..][n..n + 2];
    } else {
      assert s[..0] == [];
      if |s| >= 2 {
        assert s[0..2][0] == s[0] && s[0..2][1] == s[1];
      }
    }
  }

  // ---------- UTF-8 inside JSON (Go's encoding/json) ----------

  predicate InRange(s: Bytes, i: nat, lo: int, hi: int) {
    i < |s| && lo <= s[i] <= hi
  }

  /** The length of the well-formed UTF-8 encoding `s` starts with, or 0 when there is none. */
  function RuneLength(s: Bytes): (n: nat)
    requires s != []
    ensures n <= |s| && n <= 4
    ensures s[0] < 128 ==> n == 1
  {
    var b := s[0];
    if b < 0x80 then 1
    else if b < 0xC2 then 0
    else if b <= 0xDF then if InRange(s, 1, 0x80, 0xBF) then 2 else 0
    else if b <= 0xEF then
      var lo, hi := if b == 0xE0 then 0xA0 else 0x80, if b == 0xED then 0x9F else 0xBF;
      if InRange(s, 1, lo, hi) && InRange(s, 2, 0x80, 0xBF) then 3 else 0
    else if b <= 0xF4 then
      var lo, hi := if b == 0xF0 then 0x90 else 0x80, if b == 0xF4 then 0x8F else 0xBF;
      if InRange(s, 1, lo, hi) && InRange(s, 2, 0x80, 0xBF) && InRange(s, 3, 0x80, 0xBF) then 4 else 0
    else 0
  }

  predicate IsUtf8(s: Bytes) {
    s == [] || (RuneLength(s) > 0 && IsUtf8(s[RuneLength(s)..]))
  }

  /** What a reader gets of a Go string that was sent as JSON: every byte that does not belong
      to a well-formed encoding has become the replacement character U+FFFD. */
  function JsonText(s: Bytes): Bytes {
    if s == [] then []
    else if RuneLength(s) == 0 then [0xEF, 0xBF, 0xBD] + JsonText(s[1..])
    else s[..RuneLength(s)] + JsonText(s[RuneLength(s)..])
  }

  /** JSON transport is faithful exactly on well-formed UTF-8. */
  lemma {:induction false} JsonFaithful(s: Bytes)
    ensures JsonText(s) == s <==> IsUtf8(s)
    ensures |JsonText(s)| >= |s|
    ensures |JsonText(s)| == |s| ==> IsUtf8(s)
  {
    if s != [] {
      var n := RuneLength(s);
      if n == 0 {
        JsonFaithful(s[1..]);
      } else {
        JsonFaithful(s[n..]);
        assert s == s[..n] + s[n..];
        if JsonText(s) == s {
          assert JsonText(s)[n..] == JsonText(s[n..]);
        }
      }
    }
  }

  lemma {:induction false} AsciiIsUtf8(s: Bytes)
    requires IsAscii(s)
    ensures IsUtf8(s)
  {
    if s != [] {
      AsciiIsUtf8(s[1..]);
    }
  }

  /** An ASCII literal in front keeps a text well-formed. */
  lemma PrefixedIsUtf8(prefix: string, s: Bytes)
    requires IsUtf8(s)
    ensures IsUtf8(Ascii(prefix) + s)
  {
    AsciiIsAscii(prefix);
    AsciiIsUtf8(Ascii(prefix));
    Utf8Concat(Ascii(prefix), s);
  }

  /** Hexadecimal text survives JSON. */
  lemma JsonHex(s: Bytes)
    requires IsHex(s)
    ensures JsonText(s) == s
  {
    HexLength(s);
    AsciiIsUtf8(s);
    JsonFaithful(s);
  }

  /** A well-formed start is recognised whatever follows. */
  lemma RuneLengthStays(a: Bytes, b: Bytes)
    requires a != [] && RuneLength(a) > 0
    ensures RuneLength(a + b) == RuneLength(a)
    ensures (a + b)[RuneLength(a)..] == a[RuneLength(a)..] + b
  {
    forall i, lo, hi | InRange(a, i, lo, hi)
      ensures InRange(a + b, i, lo, hi)
    {
    }
  }

  /** Two well-formed texts one after the other are well-formed. */
  lemma {:induction false} Utf8Concat(a: Bytes, b: Bytes)
    requires IsUtf8(a) && IsUtf8(b)
    ensures IsUtf8(a + b)
  {
    if a == [] {
      assert a + b == b;
    } else {
      Utf8Concat(a[RuneLength(a)..], b);
      RuneLengthStays(a, b);
    }
  }

  // ---------- substring search (Go's strings package) ----------

  predicate HasAt(s: Bytes, sub: Bytes, i: int) {
    0 <= i && i + |sub| <= |s| && s[i..i + |sub|] == sub
  }

  /** strings.Index restricted to positions from `from` on: the first occurrence, or -1. */
  function IndexFrom(s: Bytes, sub: Bytes, from: nat): (r: int)
    ensures r >= 0 ==> from <= r && HasAt(s, sub, r) && forall j :: from <= j < r ==> !HasAt(s, sub, j)
    ensures r < 0 ==> r == -1 && forall j :: from <= j ==> !HasAt(s, sub, j)
    decreases |s| - from
  {
    if from + |sub| > |s| then -1
    else if s[from..from + |sub|] == sub then from
    else IndexFrom(s, sub, from + 1)
  }

  function Index(s: Bytes, sub: Bytes): int {
    IndexFrom(s, sub, 0)
  }

  /** strings.Contains */
  predicate Contains(s: Bytes, sub: Bytes) {
    Index(s, sub) >= 0
  }
}
