/** Well-formed UTF-8, as section 3 of RFC 3629 defines it: the encodings of Unicode scalar values. */
module Utf8 {
  import opened ByteStrings

  predicate IsScalar(c: int) {
    0 <= c <= 0x10FFFF && !(0xD800 <= c <= 0xDFFF)
  }

  /** The encoding of a scalar value. */
  function Encode(c: int): Bytes
    requires IsScalar(c)
  {
    if c < 0x80 then [c]
    else if c < 0x800 then [0xC0 + c / 0x40, 0x80 + c % 0x40]
    else if c < 0x10000 then [0xE0 + c / 0x1000, 0x80 + c / 0x40 % 0x40, 0x80 + c % 0x40]
    else [0xF0 + c / 0x40000, 0x80 + c / 0x1000 % 0x40, 0x80 + c / 0x40 % 0x40, 0x80 + c % 0x40]
  }

  lemma TwoBytes(b0: int, b1: int) returns (c: int)
    requires 0xC2 <= b0 <= 0xDF && 0x80 <= b1 <= 0xBF
    ensures 0x80 <= c < 0x800 && Encode(c) == [b0, b1]
  {
    c := (b0 - 0xC0) * 0x40 + (b1 - 0x80);
  }

  lemma ThreeBytes(b0: int, b1: int, b2: int) returns (c: int)
    requires 0xE0 <= b0 <= 0xEF && 0x80 <= b1 <= 0xBF && 0x80 <= b2 <= 0xBF
    requires (b0 == 0xE0 ==> b1 >= 0xA0) && (b0 == 0xED ==> b1 <= 0x9F)
    ensures 0x800 <= c < 0x10000 && IsScalar(c) && Encode(c) == [b0, b1, b2]
  {
    c := (b0 - 0xE0) * 0x1000 + (b1 - 0x80) * 0x40 + (b2 - 0x80);
  }

  /** The digits of a number to the base 64. */
  lemma FourDigits(d0: int, d1: int, d2: int, d3: int)
    requires 0 <= d0 < 8 && 0 <= d1 < 0x40 && 0 <= d2 < 0x40 && 0 <= d3 < 0x40
    ensures var c := d0 * 0x40000 + d1 * 0x1000 + d2 * 0x40 + d3;
            c / 0x40000 == d0 && c / 0x1000 % 0x40 == d1 && c / 0x40 % 0x40 == d2 && c % 0x40 == d3
  {
    var c := d0 * 0x40000 + d1 * 0x1000 + d2 * 0x40 + d3;
    assert c / 0x1000 == d0 * 0x40 + d1;
    assert c / 0x40 == (d0 * 0x40 + d1) * 0x40 + d2;
  }

  lemma FourBytes(b0: int, b1: int, b2: int, b3: int) returns (c: int)
    requires 0xF0 <= b0 <= 0xF4 && 0x80 <= b1 <= 0xBF && 0x80 <= b2 <= 0xBF && 0x80 <= b3 <= 0xBF
    requires (b0 == 0xF0 ==> b1 >= 0x90) && (b0 == 0xF4 ==> b1 <= 0x8F)
    ensures 0x10000 <= c && IsScalar(c) && Encode(c) == [b0, b1, b2, b3]
  {
    c := (b0 - 0xF0) * 0x40000 + (b1 - 0x80) * 0x1000 + (b2 - 0x80) * 0x40 + (b3 - 0x80);
    FourDigits(b0 - 0xF0, b1 - 0x80, b2 - 0x80, b3 - 0x80);
  }

  /** What is recognised at the start of a text is the encoding of a scalar value ... */
  lemma RuneIsEncoded(s: Bytes) returns (c: int)
    requires s != [] && RuneLength(s) > 0
    ensures IsScalar(c) && Encode(c) == s[..RuneLength(s)]
  {
    var n := RuneLength(s);
    if n == 1 {
      c := s[0];
    } else if n == 2 {
      c := TwoBytes(s[0], s[1]);
    } else if n == 3 {
      c := ThreeBytes(s[0], s[1], s[2]);
    } else {
      c := FourBytes(s[0], s[1], s[2], s[3]);
    }
  }

  /** ... and the encoding of every scalar value is recognised. */
  lemma EncodedIsRune(c: int)
    requires IsScalar(c)
    ensures RuneLength(Encode(c)) == |Encode(c)|
  {
  }

  predicate AllScalar(scalars: seq<int>) {
    forall i :: 0 <= i < |scalars| ==> IsScalar(scalars[i])
  }

  function EncodeAll(scalars: seq<int>): Bytes
    requires AllScalar(scalars)
  {
    if scalars == [] then [] else Encode(scalars[0]) + EncodeAll(scalars[1..])
  }

  lemma {:induction false} Decode(s: Bytes) returns (scalars: seq<int>)
    requires IsUtf8(s)
    ensures AllScalar(scalars) && EncodeAll(scalars) == s
  {
    scalars := [];
    if s != [] {
      var c := RuneIsEncoded(s);
      var rest := Decode(s[RuneLength(s)..]);
      scalars := [c] + rest;
      assert scalars[1..] == rest;
      assert s == s[..RuneLength(s)] + s[RuneLength(s)..];
    }
  }

  lemma {:induction false} EncodedIsUtf8(scalars: seq<int>)
    requires AllScalar(scalars)
    ensures IsUtf8(EncodeAll(scalars))
  {
    if scalars != [] {
      EncodedIsUtf8(scalars[1..]);
      EncodedIsRune(scalars[0]);
      var e, rest := Encode(scalars[0]), EncodeAll(scalars[1..]);
      RuneLengthStays(e, rest);
      assert e[|e|..] + rest == rest;
    }
  }

  /** Well-formed is exactly what encodes a text of scalar values; so, exactly these Go strings survive
      JSON. */
  lemma Utf8EncodesScalars(s: Bytes)
    ensures IsUtf8(s) <==> exists scalars :: AllScalar(scalars) && EncodeAll(scalars) == s
    ensures JsonText(s) == s <==> exists scalars :: AllScalar(scalars) && EncodeAll(scalars) == s
  {
    JsonFaithful(s);
    if IsUtf8(s) {
      var scalars := Decode(s);
    }
    if scalars :| AllScalar(scalars) && EncodeAll(scalars) == s {
      EncodedIsUtf8(scalars);
    }
  }
}
