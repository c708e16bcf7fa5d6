/** `SendSMS`: the serial dialogue, and what a receiver reassembles from the submitted PDUs. */
module SmsSend {
  import opened Text
  import opened Utf16
  import opened SmsSegments
  import opened SmsPdu

  /** What the modem answers. `submit(k)` is the message reference of the k-th `AT+CMGS`, if it
      is accepted. */
  datatype Modem = Modem(connects: bool, acceptsMode: bool, acceptsCharset: bool, submit: nat -> Option<int>)

  /** One `AT+CMGS` dialogue: in PDU mode its argument is a length, in text mode an address. */
  datatype Submission =
    | PduMode(tpduLength: nat, pdu: string)
    | TextMode(charset: Encoding, address: string, payload: string)   // after `AT+CSCS`

  datatype Outcome =
    | Sent(refs: seq<int>, encoding: Encoding, segments: nat)
    | Rejected       // by a check of the daemon
    | ModemFailed    // by an answer of the modem

  /** `^\+?[0-9]{5,20}$`. */
  predicate IsSmsNumber(s: string) { AllDigits(Digits(s)) && 5 <= |Digits(s)| <= 20 }

  /** The concatenation reference drawn from a 32-bit counter. */
  function ConcatRef(counter: nat): Octet { if counter % 256 == 0 then 1 else counter % 256 }

  /** Consecutive multipart messages get different references, except across each multiple of
      256, where zero is replaced by the value that follows it. */
  lemma {:induction false} ConsecutiveReferences(counter: nat)
    ensures ConcatRef(counter) == ConcatRef(counter + 1) <==> counter % 256 == 0
    ensures ConcatRef(counter) > 0 && (counter % 256 > 0 ==> ConcatRef(counter) == counter % 256)
  {
    if counter % 256 == 255 {
      assert (counter + 1) % 256 == 0;
    } else {
      assert (counter + 1) % 256 == counter % 256 + 1;
    }
  }

  // ----- The receiver -----

  datatype Message = Message(number: string, toa: Octet, ref: Octet, text: string)

  /** PDUs of one concatenated message, in order: same destination, reference and total, numbered
      from one; their texts joined. */
  function Reassemble(got: seq<Option<Submit>>): Option<Message> {
    if got == [] || got[0].None? then None
    else
      var first := got[0].value;
      match JoinParts(got, first, 1)
      case Some(text) =>
        if first.total == |got| then Some(Message(Shown(first.digits, first.toa), first.toa, first.ref, text))
        else None
      case None => None
  }

  function JoinParts(got: seq<Option<Submit>>, first: Submit, next: nat): Option<string> {
    if got == [] then Some("")
    else match (got[0], JoinParts(got[1..], first, next + 1))
      case (Some(s), Some(rest)) =>
        if s == first.(sequence := s.sequence, text := s.text) && s.sequence == next then Some(s.text + rest)
        else None
      case _ => None
  }

  /** What segment `k` of a message has to carry. */
  function Segment(parts: seq<string>, number: string, ref: Octet, k: nat): Submit
    requires k < |parts| < 256
  { Submit(Digits(number), Toa(number), ref, |parts|, k + 1, parts[k]) }

  function Segments(parts: seq<string>, number: string, ref: Octet): (all: seq<Option<Submit>>)
    requires |parts| < 256
    ensures |all| == |parts| && forall k :: 0 <= k < |parts| ==> all[k] == Some(Segment(parts, number, ref, k))
  { seq(|parts|, k requires 0 <= k < |parts| => Some(Segment(parts, number, ref, k))) }

  lemma {:induction false} JoinPartsIsFlatten(parts: seq<string>, number: string, ref: Octet, k: nat)
    requires k <= |parts| < 256 && parts != []
    ensures JoinParts(Segments(parts, number, ref)[k..], Segment(parts, number, ref, 0), k + 1)
         == Some(Flatten(parts[k..]))
    decreases |parts| - k
  {
    if k < |parts| {
      var got := Segments(parts, number, ref);
      JoinPartsIsFlatten(parts, number, ref, k + 1);
      assert got[k..][1..] == got[k + 1..] && parts[k..][1..] == parts[k + 1..];
    }
  }

  lemma {:induction false} ReassembleSegments(parts: seq<string>, number: string, ref: Octet)
    requires parts != [] && |parts| < 256
    ensures Reassemble(Segments(parts, number, ref)) == Some(Message(number, Toa(number), ref, Flatten(parts)))
  {
    hide JoinParts, Flatten, Shown, Digits, Toa, Segments;
    var got := Segments(parts, number, ref);
    JoinPartsIsFlatten(parts, number, ref, 0);
    assert got[0..] == got && parts[0..] == parts;
    ShownIsNumber(number);
    var first := Segment(parts, number, ref, 0);
    assert got[0] == Some(first);
    assert JoinParts(got, first, 1) == Some(Flatten(parts));
  }

  lemma {:induction false} ShownIsNumber(number: string)
    ensures Shown(Digits(number), Toa(number)) == number
  {
    assert HasPrefix(number, "+") ==> number == "+" + number[1..];
  }

  /** What a receiver reads from each submission. */
  function Reads(log: seq<Submission>): (all: seq<Option<Submit>>)
    ensures |all| == |log|
  {
    seq(|log|, i requires 0 <= i < |log| => if log[i].PduMode? then ReadPdu(log[i].pdu) else None)
  }

  /** The length given to `AT+CMGS` counts the octets after the SMSC octet. */
  ghost predicate AnnouncesLength(s: Submission) {
    s.PduMode? && FromHex(s.pdu).Some? && s.tpduLength == |FromHex(s.pdu).value| - 1
  }

  /** One segment: encoded without any guard firing. */
  method EncodeSegment(number: string, parts: seq<string>, ref: Octet, k: nat) returns (s: Submission)
    requires IsSmsNumber(number) && IsTrimmed(number)
    requires k < |parts| < 256 && 2 <= |parts| && Units(parts[k]) <= SEGMENT_UNITS
    ensures s.PduMode? && ReadPdu(s.pdu) == Some(Segment(parts, number, ref, k)) && AnnouncesLength(s)
  {
    TrimTrimmed(number);
    var built := BuildConcatUCS2Pdu(number, parts[k], ref, |parts|, k + 1);
    s := PduMode(built.tpduLength, built.pdu);
  }

  lemma {:induction false} ReadsNext(log: seq<Submission>, s: Submission)
    requires s.PduMode?
    ensures Reads(log + [s]) == Reads(log) + [ReadPdu(s.pdu)]
  {
  }

  /** The submission loop: what was submitted is a prefix of the segments, complete unless the
      modem refused the last one. */
  method SubmitSegments(number: string, parts: seq<string>, ref: Octet, modem: Modem)
    returns (refs: seq<int>, log: seq<Submission>)
    requires IsSmsNumber(number) && IsTrimmed(number) && 2 <= |parts| < 256
    requires forall k :: 0 <= k < |parts| ==> Units(parts[k]) <= SEGMENT_UNITS
    ensures |refs| <= |log| <= |parts|
    ensures Reads(log) == Segments(parts, number, ref)[..|log|]
    ensures forall k :: 0 <= k < |log| ==> AnnouncesLength(log[k])
    ensures forall k :: 0 <= k < |refs| ==> modem.submit(k) == Some(refs[k])
    ensures |refs| < |parts| ==> |log| == |refs| + 1 && modem.submit(|refs|) == None
  {
    refs, log := [], [];
    assert Reads([]) == [];
    hide IsSmsNumber, IsTrimmed, Segments, Segment, ReadPdu, Reads, AnnouncesLength, Units;
    for i := 0 to |parts|
      invariant |log| == |refs| == i
      invariant Reads(log) == Segments(parts, number, ref)[..i]
      invariant forall k :: 0 <= k < i ==> AnnouncesLength(log[k])
      invariant forall k :: 0 <= k < i ==> modem.submit(k) == Some(refs[k])
    {
      var s := EncodeSegment(number, parts, ref, i);
      ReadsNext(log, s);
      ghost var all := Segments(parts, number, ref);
      assert all[..i + 1] == all[..i] + [all[i]];
      log := log + [s];
      match modem.submit(i) {
        case None => return;
        case Some(mr) => refs := refs + [mr];
      }
    }
  }

  /** The multipart branch. On the destinations and bodies the service lets through, none of the
      daemon's own guards fires; the submissions made are the leading segments of the greedy
      split; and a complete run reassembles to the number, its type of address and the body. */
  method SendMultipart(number: string, body: string, counter: nat, modem: Modem)
    returns (r: Outcome, log: seq<Submission>)
    requires IsSmsNumber(number) && IsTrimmed(number) && NeedsMultipart(body)
    ensures |body| <= 1000 ==> !r.Rejected?
    ensures forall k :: 0 <= k < |log| ==> AnnouncesLength(log[k])
    ensures r.Sent? ==>
      && Reassemble(Reads(log)) == Some(Message(number, Toa(number), ConcatRef(counter), body))
      && r.encoding == Ucs2Text && r.segments == |log| == |r.refs| >= 2
      && EstimatedSegments(body) <= r.segments
      && (!HasSupplementary(body) ==> EstimatedSegments(body) == r.segments)
    ensures r.Sent? ==> forall k :: 0 <= k < |log| ==> modem.submit(k) == Some(r.refs[k])
    ensures !r.Sent? && log != [] ==> modem.submit(|log| - 1) == None
    ensures r.ModemFailed? && log == [] ==> !modem.acceptsMode
  {
    var parts := SplitUCS2Units(body, SEGMENT_UNITS);
    UnitsBounds(body);
    EstimateIsLowerBound(parts, body);
    SegmentCount(parts, body);
    CeilDivBounds(Units(body), SEGMENT_UNITS);
    if |body| <= 1000 { MultipartCount(parts, body); }
    log := [];
    if |parts| > 255 {
      return Rejected, log;
    }
    if !modem.acceptsMode {
      return ModemFailed, log;
    }
    var ref := ConcatRef(counter);
    forall k | 0 <= k < |parts| ensures Units(parts[k]) <= SEGMENT_UNITS {
      PieceFits(parts, body, SEGMENT_UNITS, k);
    }
    var refs: seq<int>;
    refs, log := SubmitSegments(number, parts, ref, modem);
    if |refs| < |parts| {
      return ModemFailed, log;
    }
    assert Segments(parts, number, ref)[..|parts|] == Segments(parts, number, ref);
    ReassembleSegments(parts, number, ref);
    return Sent(refs, Ucs2Text, |parts|), log;
  }

  // ----- A single message -----

  /** What the modem transmits for a text-mode submission: in the GSM character set printable ASCII as it
      stands, in the other hexadecimal code units. */
  function TextModeReads(s: Submission): Option<(string, string)>
    requires s.TextMode?
  {
    if s.charset == Gsm7 then
      if forall c :: c in s.address + s.payload ==> ' ' <= c <= '~' then Some((s.address, s.payload)) else None
    else match (FromHex(s.address), FromHex(s.payload))
      case (Some(a), Some(p)) => (
        match (FromUcs2(a), FromUcs2(p))
        case (Plain(to), Plain(text)) => Some((to, text))
        case _ => None)
      case _ => None
  }

  /** Twelve codes of printable ASCII are other characters in the default alphabet of section 6.2.1 of
      3GPP TS 23.038, which `AT+CSCS="GSM"` names. */
  const OTHER_CODES := "$@[\\]^_`{|}~"
  const OTHER_CHARACTERS := "\U{A4}\U{A1}\U{C4}\U{D6}\U{D1}\U{DC}\U{A7}\U{BF}\U{E4}\U{F6}\U{F1}\U{FC}"

  function InAlphabet(c: char): char { Looked(c, OTHER_CODES, OTHER_CHARACTERS) }

  function Looked(c: char, codes: string, characters: string): char
    requires |codes| == |characters|
  {
    if codes == "" then c
    else if c == codes[0] then characters[0]
    else Looked(c, codes[1..], characters[1..])
  }

  function AlphabetReads(payload: string): string {
    seq(|payload|, i requires 0 <= i < |payload| => InAlphabet(payload[i]))
  }

  lemma {:induction false} LookedExact(c: char, codes: string, characters: string)
    requires |codes| == |characters| && forall k :: 0 <= k < |codes| ==> characters[k] > '~' >= codes[k]
    ensures Looked(c, codes, characters) == c <==> c !in codes
  {
    if codes != "" {
      LookedExact(c, codes[1..], characters[1..]);
      assert codes == [codes[0]] + codes[1..];
    }
  }

  /** In that alphabet a single message of printable ASCII is read as it was written exactly if it has none
      of the twelve. */
  lemma {:induction false} GsmAlphabetExact(payload: string)
    ensures AlphabetReads(payload) == payload <==> forall c :: c in payload ==> c !in OTHER_CODES
  {
    forall i | 0 <= i < |payload| ensures InAlphabet(payload[i]) == payload[i] <==> payload[i] !in OTHER_CODES {
      LookedExact(payload[i], OTHER_CODES, OTHER_CHARACTERS);
    }
    var read := AlphabetReads(payload);
    assert forall i :: 0 <= i < |payload| ==> read[i] == InAlphabet(payload[i]);
    hide InAlphabet;
    if forall c :: c in payload ==> c !in OTHER_CODES {
      assert forall i :: 0 <= i < |payload| ==> payload[i] in payload;
    }
  }

  /** The numbers that are accepted: five to twenty digits, with or without a plus. */
  lemma {:induction false} SmsNumberExact(s: string)
    ensures IsSmsNumber(s) <==>
      exists d: string :: AllDigits(d) && 5 <= |d| <= 20 && (s == d || s == "+" + d)
  {
    if IsSmsNumber(s) {
      assert AllDigits(Digits(s)) && (s == Digits(s) || s == "+" + Digits(s));
    }
    if d: string :| AllDigits(d) && 5 <= |d| <= 20 && (s == d || s == "+" + d) {
      if s == "+" + d {
        assert s[1..] == d;
      } else {
        assert IsDigit(d[0]);
      }
    }
  }

  /** `SendSMS`: the daemon rejects exactly bad destinations and blank bodies (and bodies of more
      than 255 segments, beyond the service limit). A body of printable ASCII of at most 160 characters, or
      of at most 70 code units, goes out as one text-mode submission that reads back as destination and
      body; any other as concatenated PDUs that reassemble to them. */
  method SendSMS(to: string, body: string, counter: nat, modem: Modem)
    returns (r: Outcome, log: seq<Submission>)
    ensures !IsSmsNumber(Trim(to)) || Trim(body) == "" ==> r.Rejected? && log == []
    ensures r.Rejected? && |body| <= 1000 ==> !IsSmsNumber(Trim(to)) || Trim(body) == ""
    ensures r.Sent? ==> log != []
    ensures r.Sent? ==> (log[0].TextMode? <==>
      if forall c :: c in body ==> ' ' <= c <= '~' then |body| <= 160 else Units(body) <= 70)
    ensures r.Sent? && log[0].PduMode? ==>
      && r.encoding == Ucs2Text
      && Reassemble(Reads(log)) ==
           Some(Message(Trim(to), if "+" <= Trim(to) then 0x91 else 0x81, ConcatRef(counter), body))
    ensures r.Sent? && log[0].TextMode? ==>
      && |log| == 1 && TextModeReads(log[0]) == Some((Trim(to), body))
      && r.encoding == log[0].charset && (r.encoding == Gsm7 <==> forall c :: c in body ==> ' ' <= c <= '~')
      && |r.refs| == 1 && modem.submit(0) == Some(r.refs[0])
    ensures r.Sent? ==> r.segments == |r.refs| == |log| && EstimatedSegments(body) <= r.segments
    // with a modem that accepts everything, what is not rejected is sent
    ensures modem.connects && modem.acceptsMode && modem.acceptsCharset && (forall k: nat :: modem.submit(k).Some?) ==>
      r.Sent? || r.Rejected?
  {
    var number := Trim(to);
    if !IsSmsNumber(number) || Trim(body) == "" {
      return Rejected, [];
    }
    TrimIsTrimmed(to);
    var encoding := DetectEncoding(body);
    OneMessageExact(body);
    if !modem.connects {
      return ModemFailed, [];
    }
    if (encoding == Gsm7 && |body| > 160) || (encoding == Ucs2Text && Units(body) > 70) {
      r, log := SendMultipart(number, body, counter, modem);
      return;
    }
    hide NeedsMultipart, SmsEncoding;
    if !modem.acceptsMode || !modem.acceptsCharset {
      return ModemFailed, [];
    }
    var s := EncodeText(number, body, encoding);
    log := [s];
    match modem.submit(0) {
      case None => return ModemFailed, log;
      case Some(mr) => return Sent([mr], encoding, 1), log;
    }
  }

  /** The text-mode branch: address and payload in the charset. */
  method EncodeText(number: string, body: string, encoding: Encoding) returns (s: Submission)
    requires IsSmsNumber(number)
    requires encoding == Gsm7 ==> forall c :: c in body ==> ' ' <= c <= '~'
    ensures s.TextMode? && s.charset == encoding && TextModeReads(s) == Some((number, body))
  {
    if encoding == Gsm7 {
      NumberIsPrintable(number);
      return TextMode(Gsm7, number, body);
    }
    var a := Ucs2Bytes(number);
    var p := Ucs2Bytes(body);
    HexRoundTrip(a);
    HexRoundTrip(p);
    s := TextMode(Ucs2Text, Hex(a), Hex(p));
  }

  lemma {:induction false} NumberIsPrintable(number: string)
    requires IsSmsNumber(number)
    ensures forall c :: c in number ==> ' ' <= c <= '~'
  {
    forall c | c in number ensures ' ' <= c <= '~' {
      var i :| 0 <= i < |number| && number[i] == c;
      if HasPrefix(number, "+") && i > 0 { assert Digits(number)[i - 1] == c; }
      if !HasPrefix(number, "+") { assert Digits(number)[i] == c; }
    }
  }
}
