/** UTF-16 code units of a text, as used by the UCS2 payload of an SMS.

    Text is a Dafny `string`: a sequence of Unicode scalar values, which is what
    ranging over a Go string yields. The encoding and its inverse follow section 2
    of RFC 2781. */
module Utf16 {

  type CodeUnit = u: int | 0 <= u < 0x1_0000
  type Octet = b: int | 0 <= b < 256

  predicate IsSupplementary(c: char) { c as int >= 0x1_0000 }

  /** Number of UTF-16 code units of one character. */
  function UnitLen(c: char): nat { if IsSupplementary(c) then 2 else 1 }

  /** Number of UTF-16 code units of a text. */
  function Units(s: string): nat {
    if s == [] then 0 else UnitLen(s[0]) + Units(s[1..])
  }

  function EncodeChar(c: char): seq<CodeUnit> {
    if IsSupplementary(c) then
      var v := c as int - 0x1_0000;
      [0xD800 + v / 0x400, 0xDC00 + v % 0x400]
    else
      [c as int]
  }

  function Encode(s: string): seq<CodeUnit> {
    if s == [] then [] else EncodeChar(s[0]) + Encode(s[1..])
  }

  datatype Decoded = Plain(text: string) | Malformed

  /** The RFC 2781 decoder: a high surrogate must be followed by a low one, and a low
      surrogate never stands alone. */
  function Decode(u: seq<CodeUnit>): Decoded {
    if u == [] then Plain("")
    else if 0xD800 <= u[0] < 0xDC00 then
      if |u| >= 2 && 0xDC00 <= u[1] < 0xE000 then
        var hi: int, lo: int := u[0] - 0xD800, u[1] - 0xDC00;
        Prepend((0x1_0000 + hi * 0x400 + lo) as char, Decode(u[2..]))
      else Malformed
    else if 0xDC00 <= u[0] < 0xE000 then Malformed
    else Prepend(u[0] as char, Decode(u[1..]))
  }

  function Prepend(c: char, rest: Decoded): Decoded {
    match rest
    case Plain(t) => Plain([c] + t)
    case Malformed => Malformed
  }

  lemma {:induction false} DecodeEncode(s: string)
    ensures Decode(Encode(s)) == Plain(s)
  {
    if s != [] {
      var e, rest := EncodeChar(s[0]), Encode(s[1..]);
      DecodeEncode(s[1..]);
      assert [s[0]] + s[1..] == s;
      if IsSupplementary(s[0]) {
        assert (e + rest)[2..] == rest;
      } else {
        assert (e + rest)[1..] == rest;
      }
    }
  }

  lemma {:induction false} EncodeLength(s: string)
    ensures |Encode(s)| == Units(s)
  {
    if s != [] { EncodeLength(s[1..]); }
  }

  lemma {:induction false} UnitsAppend(s: string, t: string)
    ensures Units(s + t) == Units(s) + Units(t)
  {
    if s == [] {
      assert s + t == t;
    } else {
      assert (s + t)[1..] == s[1..] + t;
      UnitsAppend(s[1..], t);
    }
  }

  lemma {:induction false} UnitsBounds(s: string)
    ensures |s| <= Units(s) <= 2 * |s|
  {
    if s != [] { UnitsBounds(s[1..]); }
  }

  /** Big-endian octets of code units: the loop of `ucs2Bytes`. */
  function BigEndian(u: seq<CodeUnit>): seq<Octet> {
    if u == [] then [] else [u[0] / 256, u[0] % 256] + BigEndian(u[1..])
  }

  datatype UnitsResult = SomeUnits(units: seq<CodeUnit>) | OddOctets

  function FromBigEndian(b: seq<Octet>): UnitsResult {
    if b == [] then SomeUnits([])
    else if |b| == 1 then OddOctets
    else match FromBigEndian(b[2..])
      case SomeUnits(u) =>
        var hi: int := b[0];
        SomeUnits([hi * 256 + b[1]] + u)
      case OddOctets => OddOctets
  }

  lemma {:induction false} BigEndianRoundTrip(u: seq<CodeUnit>)
    ensures FromBigEndian(BigEndian(u)) == SomeUnits(u)
    ensures |BigEndian(u)| == 2 * |u|
  {
    if u != [] {
      BigEndianRoundTrip(u[1..]);
      var b := BigEndian(u);
      assert b[2..] == BigEndian(u[1..]);
      assert [u[0]] + u[1..] == u;
    }
  }

  lemma {:induction false} BigEndianAppend(u: seq<CodeUnit>, v: seq<CodeUnit>)
    ensures BigEndian(u + v) == BigEndian(u) + BigEndian(v)
  {
    if u == [] {
      assert u + v == v;
    } else {
      assert (u + v)[1..] == u[1..] + v;
      BigEndianAppend(u[1..], v);
    }
  }

  /** The UCS2 payload of a text. */
  function Ucs2(s: string): seq<Octet> { BigEndian(Encode(s)) }

  /** The receiver's reading of a UCS2 payload. */
  function FromUcs2(b: seq<Octet>): Decoded {
    match FromBigEndian(b)
    case SomeUnits(u) => Decode(u)
    case OddOctets => Malformed
  }

  /** A UCS2 payload takes two octets per code unit and reads back as the text. */
  lemma {:induction false} Ucs2RoundTrip(s: string)
    ensures FromUcs2(Ucs2(s)) == Plain(s)
    ensures |Ucs2(s)| == 2 * Units(s)
  {
    DecodeEncode(s);
    EncodeLength(s);
    BigEndianRoundTrip(Encode(s));
  }

  /** `ucs2Bytes`: the octets of every UTF-16 code unit, high octet first. */
  method Ucs2Bytes(s: string) returns (b: seq<Octet>)
    ensures b == Ucs2(s)
    ensures FromUcs2(b) == Plain(s) && |b| == 2 * Units(s)
  {
    var u16 := Encode(s);
    b := [];
    for i := 0 to |u16|
      invariant b == BigEndian(u16[..i])
    {
      assert u16[..i + 1] == u16[..i] + [u16[i]];
      BigEndianAppend(u16[..i], [u16[i]]);
      b := b + [u16[i] / 256, u16[i] % 256];
    }
    assert u16[..|u16|] == u16;
    Ucs2RoundTrip(s);
  }
}
