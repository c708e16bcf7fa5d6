/** The SMS-SUBMIT PDU of one concatenated segment, a decoder for it, and the round trip.

    Layout: section 9.2.2.2 of 3GPP TS 23.040 (SMS-SUBMIT), section 9.1.2.5 (addresses) and
    section 9.2.3.24.1 (8-bit concatenation header). */
module SmsPdu {
  import opened Text
  import opened Utf16

  // ----- Hexadecimal -----

  function HexDigit(n: nat): char
    requires n < 16
  { if n < 10 then ('0' as int + n) as char else ('A' as int + n - 10) as char }

  function HexValue(c: char): Option<nat> {
    if '0' <= c <= '9' then Some(c as int - '0' as int)
    else if 'A' <= c <= 'F' then Some(c as int - 'A' as int + 10)
    else if 'a' <= c <= 'f' then Some(c as int - 'a' as int + 10)
    else None
  }

  /** `strings.ToUpper(hex.EncodeToString(b))`. */
  function Hex(b: seq<Octet>): string {
    if b == [] then "" else [HexDigit(b[0] / 16), HexDigit(b[0] % 16)] + Hex(b[1..])
  }

  function FromHex(s: string): Option<seq<Octet>> {
    if s == "" then Some([])
    else if |s| == 1 then None
    else match (HexValue(s[0]), HexValue(s[1]), FromHex(s[2..]))
      case (Some(hi), Some(lo), Some(rest)) =>
        if hi < 16 && lo < 16 then Some([hi * 16 + lo] + rest) else None
      case _ => None
  }

  lemma {:induction false} HexRoundTrip(b: seq<Octet>)
    ensures FromHex(Hex(b)) == Some(b)
    ensures |Hex(b)| == 2 * |b|
  {
    if b != [] {
      HexRoundTrip(b[1..]);
      assert Hex(b)[2..] == Hex(b[1..]);
      assert [b[0]] + b[1..] == b;
    }
  }

  // ----- Addresses -----

  /** Two digits per octet, the first in the low half; a filler of ones ends an odd count. */
  function SemiOctets(digits: string): seq<Octet>
    requires AllDigits(digits)
  {
    if digits == "" then []
    else
      var first: int := DigitValue(digits[0]);
      if |digits| == 1 then [0xF0 + first]
      else
        var second: int := DigitValue(digits[1]);
        [second * 16 + first] + SemiOctets(digits[2..])
  }

  function ReadDigits(octets: seq<Octet>, count: nat): Option<string> {
    if count == 0 then (if octets == [] then Some("") else None)
    else if octets == [] || octets[0] % 16 > 9 then None
    else
      var first := ('0' as int + octets[0] % 16) as char;
      if count == 1 then (if octets[0] / 16 == 0xF && |octets| == 1 then Some([first]) else None)
      else if octets[0] / 16 > 9 then None
      else match ReadDigits(octets[1..], count - 2)
        case Some(rest) => Some([first, ('0' as int + octets[0] / 16) as char] + rest)
        case None => None
  }

  lemma {:induction false} ReadOne(c: char)
    requires IsDigit(c)
    ensures SemiOctets([c]) == [0xF0 + DigitValue(c)] && ReadDigits(SemiOctets([c]), 1) == Some([c])
  {
    var first: int := DigitValue(c);
    assert (0xF0 + first) / 16 == 0xF && (0xF0 + first) % 16 == first;
  }

  lemma {:induction false} ReadTwo(c: char, d: char, rest: seq<Octet>, count: nat)
    requires IsDigit(c) && IsDigit(d)
    ensures
      var first: int, second: int := DigitValue(c), DigitValue(d);
      ReadDigits([second * 16 + first] + rest, count + 2) ==
        match ReadDigits(rest, count)
        case Some(more) => Some([c, d] + more)
        case None => None
  {
    var first: int, second: int := DigitValue(c), DigitValue(d);
    assert (second * 16 + first) / 16 == second && (second * 16 + first) % 16 == first;
    assert ([second * 16 + first] + rest)[1..] == rest;
  }

  lemma {:induction false} AddressRoundTrip(digits: string)
    requires AllDigits(digits)
    ensures ReadDigits(SemiOctets(digits), |digits|) == Some(digits)
    ensures |SemiOctets(digits)| == (|digits| + 1) / 2
  {
    hide ReadDigits;
    if digits == "" {
      ReadNone();
    } else if |digits| == 1 {
      ReadOne(digits[0]);
      assert digits == [digits[0]];
    } else {
      AddressRoundTrip(digits[2..]);
      ReadTwo(digits[0], digits[1], SemiOctets(digits[2..]), |digits| - 2);
      assert [digits[0], digits[1]] + digits[2..] == digits;
    }
  }

  lemma {:induction false} ReadNone()
    ensures ReadDigits([], 0) == Some("")
  {
  }

  /** Type-of-address octet: international numbers are written with a plus sign. */
  function Toa(number: string): Octet { if HasPrefix(number, "+") then 0x91 else 0x81 }

  function Digits(number: string): string { if HasPrefix(number, "+") then number[1..] else number }

  /** The number a receiver shows for digits and type of address. */
  function Shown(digits: string, toa: Octet): string { if toa == 0x91 then "+" + digits else digits }

  datatype Address = Address(digits: string, toa: Octet, octets: seq<Octet>) | BadAddress

  function Padded(digits: string): string { if |digits| % 2 != 0 then digits + "F" else digits }

  /** Octets still to come when `i` characters of the padded number are done. */
  function Remaining(digits: string, i: nat): seq<Octet>
    requires AllDigits(digits)
  { if i <= |digits| then SemiOctets(digits[i..]) else [] }

  lemma {:induction false} NextOctet(digits: string, i: nat)
    requires AllDigits(digits) && i % 2 == 0 && i < |Padded(digits)|
    ensures i + 1 < |Padded(digits)|
    ensures
      var hi, lo := HexValue(Padded(digits)[i]), HexValue(Padded(digits)[i + 1]);
      && hi.Some? && lo.Some? && hi.value < 16 && lo.value < 16
      && Remaining(digits, i) == [lo.value * 16 + hi.value] + Remaining(digits, i + 2)
  {
    assert i < |digits|;
    if i + 1 < |digits| {
      assert digits[i..][2..] == digits[i + 2..];
    }
  }

  lemma {:induction false} NothingRemains(digits: string)
    requires AllDigits(digits)
    ensures forall i: nat :: i >= |digits| ==> Remaining(digits, i) == []
  {
  }

  /** The packing loop of `semiOctetAddress`; its parse errors cannot happen on digits. */
  method PackDigits(number: string) returns (encoded: seq<Octet>)
    requires AllDigits(number)
    ensures encoded == SemiOctets(number)
  {
    var padded := Padded(number);
    ghost var goal, rest := SemiOctets(number), Remaining(number, 0);
    assert number[0..] == number;
    var i := 0;
    encoded := [];
    assert |padded| >= |number| && |padded| % 2 == 0;
    NothingRemains(number);
    hide SemiOctets, Remaining, HexValue, Padded, AllDigits;
    while i < |padded|
      invariant 0 <= i <= |padded| && i % 2 == 0
      invariant rest == Remaining(number, i)
      invariant encoded + rest == goal
      decreases |padded| - i
    {
      NextOctet(number, i);
      var hi, lo := HexValue(padded[i]), HexValue(padded[i + 1]);
      var octet: Octet := lo.value * 16 + hi.value;
      encoded := encoded + [octet];
      rest := rest[1..];
      i := i + 2;
    }
  }

  /** `semiOctetAddress`: reads back as the trimmed number; rejects exactly the numbers that are
      not digits after one optional plus sign. */
  method SemiOctetAddress(to: string) returns (a: Address)
    ensures a.BadAddress? <==> Digits(Trim(to)) == "" || !AllDigits(Digits(Trim(to)))
    ensures a.Address? ==>
      && AllDigits(a.digits) && a.octets == SemiOctets(a.digits)
      && ReadDigits(a.octets, |a.digits|) == Some(a.digits)
      && Shown(a.digits, a.toa) == Trim(to)
      && a.digits == Digits(Trim(to)) && a.toa == Toa(Trim(to)) == if "+" <= Trim(to) then 0x91 else 0x81
  {
    var number, toa := Trim(to), 0x81;
    if HasPrefix(number, "+") {
      toa := 0x91;
      assert number == "+" + number[1..];
      number := number[1..];
    }
    if number == "" || !AllDigits(number) {
      return BadAddress;
    }
    var encoded := PackDigits(number);
    AddressRoundTrip(number);
    return Address(number, toa, encoded);
  }

  // ----- The TPDU -----

  datatype Submit = Submit(digits: string, toa: Octet, ref: Octet, total: Octet, sequence: Octet, text: string)

  /** A receiver's reading of a PDU: SMSC length, first octet (SMS-SUBMIT, no validity period,
      header present), reference, address, protocol, UCS2 coding, and user data that starts
      with the concatenation element. */
  function ReadSubmit(p: seq<Octet>): Option<Submit> {
    if |p| < 5 || p[0] != 0 || p[1] % 4 != 1 || (p[1] / 8) % 4 != 0 || (p[1] / 64) % 2 != 1 then None
    else
      var count: nat := p[3];
      var a := 5 + (count + 1) / 2;
      if |p| < a + 3 || p[a + 1] != 0x08 || |p| != a + 3 + p[a + 2] then None
      else
        var data := p[a + 3..];
        if |data| < 6 || data[0] != 5 || data[1] != 0 || data[2] != 3 then None
        else match (ReadDigits(p[5..a], count), FromUcs2(data[6..]))
          case (Some(digits), Plain(text)) => Some(Submit(digits, p[4], data[3], data[4], data[5], text))
          case _ => None
  }

  function ReadPdu(pdu: string): Option<Submit> {
    match FromHex(pdu)
    case Some(octets) => ReadSubmit(octets)
    case None => None
  }

  datatype Build = Pdu(pdu: string, tpduLength: nat) | InvalidDestination | InvalidSequence | TooLong

  lemma {:induction false} ReadSubmitFields(p: seq<Octet>, head: seq<Octet>, addr: seq<Octet>, mid: seq<Octet>,
        payload: seq<Octet>, digits: string, text: string)
    requires p == head + addr + mid + payload
    requires |head| == 5 && |mid| == 3 && AllDigits(digits) && |digits| < 256
    requires head[0] == 0 && head[1] == 0x41 && head[3] == |digits|
    requires addr == SemiOctets(digits)
    requires mid[1] == 0x08 && mid[2] == |payload|
    requires |payload| >= 6 && payload[..3] == [5, 0, 3] && FromUcs2(payload[6..]) == Plain(text)
    ensures ReadSubmit(p) == Some(Submit(digits, head[4], payload[3], payload[4], payload[5], text))
  {
    AddressRoundTrip(digits);
    hide SemiOctets, FromUcs2, ReadDigits, AllDigits;
    var a := 5 + (|digits| + 1) / 2;
    assert p[..5] == head && p[5..a] == addr;
    assert p[a..a + 3] == mid && p[a + 3..] == payload;
    ReadSubmitSlices(p, a, payload, digits, text);
  }

  lemma {:induction false} ReadSubmitSlices(p: seq<Octet>, a: nat, payload: seq<Octet>, digits: string, text: string)
    requires a >= 5 && |p| == a + 3 + |payload|
    requires a == 5 + (p[3] as nat + 1) / 2
    requires p[0] == 0 && p[1] == 0x41 && p[3] == |digits|
    requires ReadDigits(p[5..a], |digits|) == Some(digits)
    requires p[a + 1] == 0x08 && p[a + 2] == |payload| && p[a + 3..] == payload
    requires |payload| >= 6 && payload[..3] == [5, 0, 3] && FromUcs2(payload[6..]) == Plain(text)
    ensures ReadSubmit(p) == Some(Submit(digits, p[4], payload[3], payload[4], payload[5], text))
  {
    hide FromUcs2, ReadDigits;
    assert payload[0] == payload[..3][0] && payload[1] == payload[..3][1] && payload[2] == payload[..3][2];
  }

  /** `buildConcatUCS2PDU`: fails exactly in its three error cases; otherwise the PDU decodes to
      everything that went in, and the announced length leaves out the SMSC octet. The address
      length octet holds the digit count only below 256 digits. */
  method BuildConcatUCS2Pdu(to: string, text: string, ref: Octet, total: Octet, sequence: Octet) returns (r: Build)
    ensures r.InvalidDestination? <==> Digits(Trim(to)) == "" || !AllDigits(Digits(Trim(to)))
    ensures r.InvalidSequence? <==> !r.InvalidDestination? && !(2 <= total && 1 <= sequence <= total)
    ensures r.TooLong? <==>
      !r.InvalidDestination? && 2 <= total && 1 <= sequence <= total && 6 + 2 * Units(text) > 140
    ensures r.Pdu? && |Digits(Trim(to))| < 256 ==>
      && ReadPdu(r.pdu) == Some(Submit(Digits(Trim(to)), Toa(Trim(to)), ref, total, sequence, text))
    ensures r.Pdu? ==> FromHex(r.pdu).Some? && r.tpduLength == |FromHex(r.pdu).value| - 1
  {
    var address := SemiOctetAddress(to);
    if address.BadAddress? {
      return InvalidDestination;
    }
    if total < 2 || sequence == 0 || sequence > total {
      return InvalidSequence;
    }
    var body := Ucs2Bytes(text);
    if 6 + |body| > 140 {
      return TooLong;
    }
    hide Trim, AllDigits, SemiOctets, Ucs2, FromUcs2, Units, ReadDigits;
    var pdu := Assemble(address, body, ref, total, sequence, text);
    HexRoundTrip(pdu);
    hide Hex, FromHex, ReadSubmit;
    return Pdu(Hex(pdu), |pdu| - 1);
  }

  /** The octets of the PDU, SMSC octet first. */
  method Assemble(address: Address, body: seq<Octet>, ref: Octet, total: Octet, sequence: Octet, ghost text: string)
    returns (pdu: seq<Octet>)
    requires address.Address? && AllDigits(address.digits) && address.octets == SemiOctets(address.digits)
    requires |body| <= 134 && FromUcs2(body) == Plain(text)
    ensures |pdu| > 0
    ensures |address.digits| < 256 ==>
      ReadSubmit(pdu) == Some(Submit(address.digits, address.toa, ref, total, sequence, text))
  {
    var udh: seq<Octet> := [0x05, 0x00, 0x03, ref, total, sequence];
    var payload := udh + body;
    var head: seq<Octet> := [0x00, 0x41, 0x00, |address.digits| % 256, address.toa];
    var mid: seq<Octet> := [0x00, 0x08, |payload|];
    pdu := head + address.octets + mid + payload;
    hide ReadSubmit, FromUcs2, SemiOctets, AllDigits;
    if |address.digits| < 256 {
      assert payload[6..] == body;
      ReadSubmitFields(pdu, head, address.octets, mid, payload, address.digits, text);
    }
  }
}
