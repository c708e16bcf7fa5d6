/** IPv4 addresses as 32-bit numbers, their texts, and network masks. */
module Ipv4 {
  import Utf16
  import opened Text

  type Octet = Utf16.Octet
  type Addr = n: int | 0 <= n < 0x1_0000_0000 witness 0

  // ----- Octets and texts -----

  function Octets(v: Addr): (r: seq<Octet>)
    ensures |r| == 4
  { [v / 0x100_0000, v / 0x1_0000 % 0x100, v / 0x100 % 0x100, v % 0x100] }

  function Value(o: seq<Octet>): Addr
    requires |o| == 4
  {
    var a: int, b: int, c: int, d: int := o[0], o[1], o[2], o[3];
    a * 0x100_0000 + b * 0x1_0000 + c * 0x100 + d
  }

  lemma {:induction false} OctetsRoundTrip(v: Addr)
    ensures Value(Octets(v)) == v
  {
    var a, b, c := v / 0x100_0000, v / 0x1_0000, v / 0x100;
    assert b / 0x100 == a && c / 0x100 == b;
  }

  function Texts(o: seq<Octet>): (r: seq<string>)
    ensures |r| == |o|
  { seq(|o|, i requires 0 <= i < |o| => Decimal(o[i])) }

  /** `net.IP.String`. */
  function Dotted(v: Addr): string { Join(Texts(Octets(v)), '.') }

  /** One field of a dotted quad; leading zeros are refused. */
  predicate IsOctet(f: string) {
    f != "" && AllDigits(f) && (|f| > 1 ==> f[0] != '0') && DecimalValue(f) < 256
  }

  /** The dotted quads of `net.ParseIP`. */
  function ParseAddr(s: string): Option<Addr> {
    var f := Split(s, '.');
    if |f| == 4 && IsOctet(f[0]) && IsOctet(f[1]) && IsOctet(f[2]) && IsOctet(f[3]) then
      Some(Value([DecimalValue(f[0]), DecimalValue(f[1]), DecimalValue(f[2]), DecimalValue(f[3])]))
    else None
  }

  /** `isIPv4Addr`: any integers from 0 to 255, signs and leading zeros included. */
  predicate LooksLikeAddr(s: string) {
    var f := Split(s, '.');
    |f| == 4 && forall i :: 0 <= i < |f| ==> Atoi(f[i]).Number? && 0 <= Atoi(f[i]).n <= 255
  }

  lemma {:induction false} DecimalCanonical(n: nat)
    ensures n > 0 ==> Decimal(n)[0] != '0'
    ensures |Decimal(n)| > 1 ==> n >= 10
  {
    if n >= 10 { DecimalCanonical(n / 10); }
  }

  lemma {:induction false} DecimalIsOctet(n: Octet)
    ensures IsOctet(Decimal(n)) && DecimalValue(Decimal(n)) == n
    ensures Lacks(Decimal(n), '.') && Lacks(Decimal(n), '/') && Lacks(Decimal(n), ',') && Lacks(Decimal(n), '"')
  {
    DecimalRoundTrip(n);
    DecimalCanonical(n);
    assert forall i :: 0 <= i < |Decimal(n)| ==> IsDigit(Decimal(n)[i]);
  }

  lemma {:induction false} DottedRoundTrip(v: Addr)
    ensures ParseAddr(Dotted(v)) == Some(v)
  {
    var o := Octets(v);
    var f := Texts(o);
    forall i | 0 <= i < 4 ensures IsOctet(f[i]) && DecimalValue(f[i]) == o[i] && Lacks(f[i], '.') {
      DecimalIsOctet(o[i]);
    }
    SplitJoin(f, '.');
    OctetsRoundTrip(v);
    assert [DecimalValue(f[0]), DecimalValue(f[1]), DecimalValue(f[2]), DecimalValue(f[3])] == o;
  }

  lemma {:induction false} DottedCharacters(v: Addr, c: char)
    requires c != '.' && !IsDigit(c)
    ensures Lacks(Dotted(v), c)
  {
    var f := Texts(Octets(v));
    forall i | 0 <= i < |f| ensures Lacks(f[i], c) {
      DecimalRoundTrip(Octets(v)[i]);
    }
    JoinLacks(f, '.', c);
  }

  /** The strict reading is the printed form and nothing else. */
  lemma {:induction false} DecimalOfValue(f: string)
    requires f != "" && AllDigits(f) && (|f| > 1 ==> f[0] != '0')
    ensures Decimal(DecimalValue(f)) == f && (f[0] != '0' ==> DecimalValue(f) > 0)
  {
    var last := f[|f| - 1];
    if |f| == 1 {
      assert f[..0] == "" && f == [last];
    } else {
      DecimalOfValue(f[..|f| - 1]);
      assert f == f[..|f| - 1] + [last];
      var v: int := DecimalValue(f[..|f| - 1]);
      assert (10 * v + DigitValue(last)) / 10 == v && (10 * v + DigitValue(last)) % 10 == DigitValue(last);
    }
  }

  lemma {:induction false} ValueRoundTrip(o: seq<Octet>)
    requires |o| == 4
    ensures Octets(Value(o)) == o
  {
    var v: int := Value(o);
    var a: int, b: int, c: int := o[0], o[1], o[2];
    assert v / 0x100 == a * 0x1_0000 + b * 0x100 + c;
    assert v / 0x1_0000 == a * 0x100 + b;
    assert v / 0x100_0000 == a;
  }

  lemma {:induction false} ParsedIsDotted(s: string)
    requires ParseAddr(s).Some?
    ensures s == Dotted(ParseAddr(s).value)
  {
    var f := Split(s, '.');
    var o: seq<Octet> := [DecimalValue(f[0]), DecimalValue(f[1]), DecimalValue(f[2]), DecimalValue(f[3])];
    ValueRoundTrip(o);
    forall i | 0 <= i < 4 ensures Decimal(o[i]) == f[i] {
      DecimalOfValue(f[i]);
    }
    assert Texts(o) == f;
    JoinSplit(s, '.');
  }

  lemma {:induction false} ParsedLooksLikeAddr(s: string)
    requires ParseAddr(s).Some?
    ensures LooksLikeAddr(s)
  {
    var f := Split(s, '.');
    assert forall i :: 0 <= i < 4 ==> IsOctet(f[i]) && IsDigit(f[i][0]);
  }

  // ----- Masks -----

  function Pow2(n: nat): (r: int)
    ensures r >= 1
  { if n == 0 then 1 else 2 * Pow2(n - 1) }

  lemma {:induction false} Pow2Order(m: nat, n: nat)
    requires m < n
    ensures 2 * Pow2(m) <= Pow2(n)
  {
    if m + 1 < n { Pow2Order(m, n - 1); }
  }

  lemma {:induction false} Pow2Of32()
    ensures Pow2(32) == 0x1_0000_0000 && Pow2(8) == 256 && Pow2(2) == 4 && Pow2(3) == 8 && Pow2(4) == 16
  {
    assert Pow2(4) == 16;
    assert Pow2(8) == 256;
    assert Pow2(12) == 4096;
    assert Pow2(16) == 65536;
    assert Pow2(20) == 1048576;
    assert Pow2(24) == 0x100_0000;
    assert Pow2(28) == 0x1000_0000;
  }

  /** The number whose `w` bits start with `ones` ones and end in zeros. */
  function PrefixMask(ones: nat, w: nat): int
    requires ones <= w
  { Pow2(w) - Pow2(w - ones) }

  function LeadingOnes(v: int, w: nat): (r: nat)
    ensures r <= w
  { if w == 0 || v < Pow2(w - 1) then 0 else 1 + LeadingOnes(v - Pow2(w - 1), w - 1) }

  /** `net.IPMask.Size` on four octets: the prefix length, if the mask is one. */
  function MaskLength(mask: Addr): Option<nat> {
    var n := LeadingOnes(mask, 32);
    if mask == PrefixMask(n, 32) then Some(n) else None
  }

  /** The bits of `v`, highest first. */
  function Bits(v: int, w: nat): (r: seq<bool>)
    ensures |r| == w
  {
    if w == 0 then []
    else [v >= Pow2(w - 1)] + Bits(if v >= Pow2(w - 1) then v - Pow2(w - 1) else v, w - 1)
  }

  /** No one follows a zero. */
  predicate Contiguous(bits: seq<bool>) {
    forall i, j :: 0 <= i < j < |bits| && bits[j] ==> bits[i]
  }

  lemma {:induction false} LeadingOnesOfPrefix(ones: nat, w: nat)
    requires ones <= w
    ensures LeadingOnes(PrefixMask(ones, w), w) == ones
  {
    if ones > 0 {
      LeadingOnesOfPrefix(ones - 1, w - 1);
      if ones < w { Pow2Order(w - ones, w); }
    }
  }

  predicate NoOne(bits: seq<bool>) { forall i :: 0 <= i < |bits| ==> !bits[i] }

  lemma {:induction false} BitsCons(top: bool, rest: seq<bool>)
    ensures NoOne([top] + rest) <==> !top && NoOne(rest)
    ensures Contiguous([top] + rest) <==> if top then Contiguous(rest) else NoOne(rest)
  {
    var all := [top] + rest;
    assert all[0] == top && all[1..] == rest;
    assert forall i :: 0 < i < |all| ==> all[i] == rest[i - 1];
    assert forall i :: 0 <= i < |rest| ==> all[i + 1] == rest[i];
    if top && Contiguous(rest) {
      forall i, j | 0 <= i < j < |all| && all[j] ensures all[i] {
        if i > 0 { assert rest[j - 1] && rest[i - 1] == all[i]; }
      }
    }
    if Contiguous(all) {
      if top {
        forall i, j | 0 <= i < j < |rest| && rest[j] ensures rest[i] {
          assert all[j + 1] && all[i + 1];
        }
      }
    }
  }

  lemma {:induction false} ZeroIffNoOne(v: int, w: nat)
    requires 0 <= v < Pow2(w)
    ensures v == 0 <==> NoOne(Bits(v, w))
  {
    if w > 0 {
      var top := v >= Pow2(w - 1);
      var rest := if top then v - Pow2(w - 1) else v;
      BitsCons(top, Bits(rest, w - 1));
      ZeroIffNoOne(rest, w - 1);
    }
  }

  lemma {:induction false} PrefixIffContiguous(v: int, w: nat)
    requires 0 <= v < Pow2(w)
    ensures v == PrefixMask(LeadingOnes(v, w), w) <==> Contiguous(Bits(v, w))
  {
    if w > 0 {
      var top := v >= Pow2(w - 1);
      var rest := if top then v - Pow2(w - 1) else v;
      BitsCons(top, Bits(rest, w - 1));
      if top {
        PrefixIffContiguous(rest, w - 1);
      } else {
        ZeroIffNoOne(rest, w - 1);
        assert LeadingOnes(v, w) == 0;
      }
    }
  }

  /** A mask has a length exactly if its bits are contiguous, and the length expands back to it. */
  lemma {:induction false} MaskLengthExact(mask: Addr)
    ensures MaskLength(mask).Some? <==> Contiguous(Bits(mask, 32))
    ensures forall n: nat | n <= 32 :: MaskLength(mask) == Some(n) <==> mask == PrefixMask(n, 32)
  {
    Pow2Of32();
    PrefixIffContiguous(mask, 32);
    forall n: nat | n <= 32 && mask == PrefixMask(n, 32) ensures MaskLength(mask) == Some(n) {
      LeadingOnesOfPrefix(n, 32);
    }
  }

  // ----- Networks -----

  datatype Cidr = Cidr(ip: Addr, ones: nat)

  /** `net.ParseCIDR` on IPv4 text. */
  function ParseCidr(s: string): (r: Option<Cidr>)
    ensures r.Some? ==> r.value.ones <= 32
  {
    var f := Split(s, '/');
    if |f| == 2 && ParseAddr(f[0]).Some? && f[1] != "" && AllDigits(f[1]) && DecimalValue(f[1]) <= 32 then
      Some(Cidr(ParseAddr(f[0]).value, DecimalValue(f[1])))
    else None
  }

  function CidrText(ip: Addr, ones: nat): string { Dotted(ip) + ['/'] + Decimal(ones) }

  lemma {:induction false} CidrRoundTrip(ip: Addr, ones: nat)
    requires ones <= 32
    ensures ParseCidr(CidrText(ip, ones)) == Some(Cidr(ip, ones))
  {
    DottedCharacters(ip, '/');
    DottedRoundTrip(ip);
    DecimalRoundTrip(ones);
    assert Lacks(Decimal(ones), '/');
    SplitField(Dotted(ip), Decimal(ones), '/');
    SplitField(Decimal(ones), "", '/');
  }

  lemma {:induction false} DottedTrimmed(v: Addr)
    ensures Trim(Dotted(v)) == Dotted(v)
  {
    var s := Dotted(v);
    forall i | 0 <= i < |s| ensures !IsSpace(s[i]) {
      assert !Lacks(s, s[i]);
      if IsSpace(s[i]) { DottedCharacters(v, s[i]); }
    }
    TrimTrimmed(s);
  }

  lemma {:induction false} CidrTextTrimmed(ip: Addr, ones: nat)
    ensures Trim(CidrText(ip, ones)) == CidrText(ip, ones)
  {
    DecimalRoundTrip(ones);
    DecimalRoundTrip(Octets(ip)[0]);
    var t := CidrText(ip, ones);
    assert t[0] == Decimal(Octets(ip)[0])[0];
    assert t[|t| - 1] == Decimal(ones)[|Decimal(ones)| - 1];
    TrimTrimmed(t);
  }

  lemma {:induction false} ParsedCidrTrimmed(s: string)
    requires ParseCidr(s).Some?
    ensures Trim(s) == s
  {
    var f := Split(s, '/');
    JoinSplit(s, '/');
    ParsedIsDotted(f[0]);
    DecimalRoundTrip(Octets(ParseCidr(s).value.ip)[0]);
    assert s[0] == f[0][0] && IsDigit(s[0]);
    assert s[|s| - 1] == f[1][|f[1]| - 1] && IsDigit(s[|s| - 1]);
    TrimTrimmed(s);
  }

  /** How many addresses a network has. */
  function Span(ones: nat): int
    requires ones <= 32
  { Pow2(32 - ones) }

  /** The top `ones` of the `w` bits of `v`, the others cleared. */
  function TopBits(v: int, w: nat, ones: nat): (r: int)
    requires 0 <= v < Pow2(w) && ones <= w
    ensures 0 <= r <= v < r + Pow2(w - ones) <= Pow2(w)
    decreases ones
  {
    if ones == 0 then 0
    else if v >= Pow2(w - 1) then Pow2(w - 1) + TopBits(v - Pow2(w - 1), w - 1, ones - 1)
    else TopBits(v, w - 1, ones - 1)
  }

  /** The network address: `ip` under its mask. The whole network lies in the address space. */
  function Base(ip: Addr, ones: nat): (r: Addr)
    requires ones <= 32
    ensures r <= ip < r + Span(ones) <= 0x1_0000_0000
  {
    Pow2Of32();
    TopBits(ip, 32, ones)
  }

  /** The highest network of each length starts at its own mask. */
  lemma {:induction false} TopNetwork(v: int, w: nat, ones: nat)
    requires 0 <= v < Pow2(w) && ones <= w && PrefixMask(ones, w) <= v
    ensures TopBits(v, w, ones) == PrefixMask(ones, w)
    decreases ones
  {
    if ones > 0 {
      if ones < w { Pow2Order(w - ones, w); }
      TopNetwork(v - Pow2(w - 1), w - 1, ones - 1);
    }
  }

  /** Two addresses share a network exactly if the second lies in the span of the first's. */
  lemma {:induction false} TopBitsSame(v: int, u: int, w: nat, ones: nat)
    requires 0 <= v < Pow2(w) && 0 <= u < Pow2(w) && ones <= w
    ensures TopBits(u, w, ones) == TopBits(v, w, ones) <==>
      TopBits(v, w, ones) <= u < TopBits(v, w, ones) + Pow2(w - ones)
    decreases ones
  {
    if ones > 0 {
      var top := Pow2(w - 1);
      if v >= top && u >= top {
        TopBitsSame(v - top, u - top, w - 1, ones - 1);
      } else if v < top && u < top {
        TopBitsSame(v, u, w - 1, ones - 1);
      }
    }
  }

  lemma {:induction false} SameNetwork(v: Addr, u: Addr, ones: nat)
    requires ones <= 32
    ensures Base(u, ones) == Base(v, ones) <==> Base(v, ones) <= u < Base(v, ones) + Span(ones)
  {
    Pow2Of32();
    TopBitsSame(v, u, 32, ones);
  }
}
