/** The IPv4 configuration that the modem reports for a PDP context (`+CGCONTRDP`, section
    10.1.23 of 3GPP TS 27.007), and the host-side check of static RNDIS parameters. */
module PdpConfig {
  import opened Ipv4
  import opened Text

  // ----- The local address -----

  function OctetOf(f: string): Option<Octet> {
    match Atoi(f)
    case Number(n) => if 0 <= n <= 255 then Some(n) else None
    case _ => None
  }

  /** What a local address says: CIDR text, or eight octets of which the last four are the mask. */
  function LocalOf(raw: string): (r: Option<Cidr>)
    ensures r.Some? ==> r.value.ones <= 32
  {
    var text := Trim(raw);
    if '/' in text then ParseCidr(text)
    else
      var f := Split(text, '.');
      if |f| == 8 && forall i :: 0 <= i < |f| ==> OctetOf(f[i]).Some? then
        var mask := MaskLength(OctetsAt(f, 4));
        if mask.Some? then Some(Cidr(OctetsAt(f, 0), mask.value)) else None
      else None
  }

  /** Four octets among the fields. */
  function OctetsAt(f: seq<string>, k: nat): Addr
    requires k + 4 <= |f| && forall i :: 0 <= i < |f| ==> OctetOf(f[i]).Some?
  { Value([OctetOf(f[k]).value, OctetOf(f[k + 1]).value, OctetOf(f[k + 2]).value, OctetOf(f[k + 3]).value]) }

  /** `parseCGCONTRDPIPv4Local`. */
  method ParseLocal(raw: string) returns (r: Option<string>)
    ensures r == match LocalOf(raw) case None => None case Some(c) => Some(CidrText(c.ip, c.ones))
  {
    hide MaskLength, Split, Trim, ParseAddr, Dotted, Decimal, Atoi;
    var text := Trim(raw);
    if '/' in text {
      var c := ParseCidr(text);
      return if c.None? then None else Some(CidrText(c.value.ip, c.value.ones));
    }
    var octets := Split(text, '.');
    if |octets| != 8 {
      return None;
    }
    var vals: seq<Octet> := [];
    for i := 0 to |octets|
      invariant |vals| == i && forall k :: 0 <= k < i ==> OctetOf(octets[k]) == Some(vals[k])
    {
      var n := OctetOf(octets[i]);
      if n.None? {
        return None;
      }
      vals := vals + [n.value];
    }
    assert vals[..4] == [vals[0], vals[1], vals[2], vals[3]];
    assert vals[4..] == [vals[4], vals[5], vals[6], vals[7]];
    var ones := MaskLength(Value(vals[4..]));
    r := if ones.None? then None else Some(CidrText(Value(vals[..4]), ones.value));
  }

  /** An address and its mask, as the modem writes them. */
  function EightOctets(ip: Addr, mask: Addr): string { Join(Texts(Octets(ip) + Octets(mask)), '.') }

  lemma {:induction false} EightOctetsFields(ip: Addr, mask: Addr)
    ensures Split(EightOctets(ip, mask), '.') == Texts(Octets(ip) + Octets(mask))
    ensures forall c :: c != '.' && !IsDigit(c) ==> Lacks(EightOctets(ip, mask), c)
    ensures IsTrimmed(EightOctets(ip, mask))
  {
    var o := Octets(ip) + Octets(mask);
    var f := Texts(o);
    forall i | 0 <= i < 8 ensures Lacks(f[i], '.') && AllDigits(f[i]) && f[i] != "" {
      DecimalIsOctet(o[i]);
    }
    SplitJoin(f, '.');
    forall c | c != '.' && !IsDigit(c) ensures Lacks(EightOctets(ip, mask), c) {
      JoinLacks(f, '.', c);
    }
    var s := EightOctets(ip, mask);
    forall i | 0 <= i < |s| ensures IsDigit(s[i]) || s[i] == '.' {
      assert !Lacks(s, s[i]);
    }
  }

  lemma {:induction false} OctetOfDecimal(n: Octet)
    ensures OctetOf(Decimal(n)) == Some(n)
  {
    AtoiDecimal(n);
  }

  lemma {:induction false} OctetsOfTexts(ip: Addr, mask: Addr)
    ensures var f := Texts(Octets(ip) + Octets(mask));
      && |f| == 8 && (forall i :: 0 <= i < |f| ==> OctetOf(f[i]).Some?)
      && OctetsAt(f, 0) == ip && OctetsAt(f, 4) == mask
  {
    var o := Octets(ip) + Octets(mask);
    var f := Texts(o);
    forall i | 0 <= i < 8 ensures OctetOf(f[i]) == Some(o[i]) {
      OctetOfDecimal(o[i]);
    }
    OctetsRoundTrip(ip);
    OctetsRoundTrip(mask);
    hide Octets, Value, OctetOf, Texts;
    assert [OctetOf(f[0]).value, OctetOf(f[1]).value, OctetOf(f[2]).value, OctetOf(f[3]).value] == Octets(ip);
    assert [OctetOf(f[4]).value, OctetOf(f[5]).value, OctetOf(f[6]).value, OctetOf(f[7]).value] == Octets(mask);
  }

  lemma {:induction false} LocalOfEightOctets(ip: Addr, mask: Addr)
    ensures LocalOf(EightOctets(ip, mask)) ==
      if MaskLength(mask).Some? then Some(Cidr(ip, MaskLength(mask).value)) else None
  {
    EightOctetsFields(ip, mask);
    assert Lacks(EightOctets(ip, mask), '/');
    TrimTrimmed(EightOctets(ip, mask));
    OctetsOfTexts(ip, mask);
    hide EightOctets, Split, Trim, Octets, OctetsAt, OctetOf, MaskLength, Texts;
  }

  /** The other form says what it says. */
  lemma {:induction false} LocalOfCidr(ip: Addr, ones: nat)
    requires ones <= 32
    ensures LocalOf(CidrText(ip, ones)) == Some(Cidr(ip, ones))
  {
    CidrRoundTrip(ip, ones);
    CidrTextTrimmed(ip, ones);
    var d := Dotted(ip);
    assert CidrText(ip, ones)[|d|] == '/';
    hide ParseCidr, Trim, Dotted, Decimal;
  }

  /** Eight octets are accepted exactly if the mask is contiguous; the prefix then expands back to
      the mask, and the emitted text reads as that address and prefix. */
  lemma {:induction false} EightOctetsExact(ip: Addr, mask: Addr)
    ensures LocalOf(EightOctets(ip, mask)).Some? <==> Contiguous(Bits(mask, 32))
    ensures LocalOf(EightOctets(ip, mask)).Some? ==>
      var c := LocalOf(EightOctets(ip, mask)).value;
      c.ip == ip && PrefixMask(c.ones, 32) == mask && ParseCidr(CidrText(c.ip, c.ones)) == Some(c)
  {
    LocalOfEightOctets(ip, mask);
    MaskLengthExact(mask);
    hide EightOctets, LocalOf, Bits, Contiguous, PrefixMask, CidrText, ParseCidr;
    if MaskLength(mask).Some? {
      CidrRoundTrip(ip, MaskLength(mask).value);
    }
  }

  predicate IsEightOctets(raw: string) {
    var f := Split(Trim(raw), '.');
    '/' !in Trim(raw) && |f| == 8 && forall i :: 0 <= i < |f| ==> OctetOf(f[i]).Some?
  }

  /** The same of any text of eight octets, signs, zeros and outer white space included. */
  lemma {:induction false} EightFieldsExact(raw: string)
    requires IsEightOctets(raw)
    ensures var f := Split(Trim(raw), '.');
      && (LocalOf(raw).Some? <==> Contiguous(Bits(OctetsAt(f, 4), 32)))
      && (LocalOf(raw).Some? ==>
        LocalOf(raw).value.ip == OctetsAt(f, 0) && PrefixMask(LocalOf(raw).value.ones, 32) == OctetsAt(f, 4))
  {
    MaskLengthExact(OctetsAt(Split(Trim(raw), '.'), 4));
    hide Bits, Contiguous, PrefixMask, OctetsAt, OctetOf, Trim, Split;
  }

  // ----- Comma-separated rows -----

  function IndexOf(s: string, c: char): (i: nat)
    ensures i <= |s| && Lacks(s[..i], c) && (i < |s| ==> s[i] == c)
  {
    if s == "" || s[0] == c then 0
    else
      assert forall k :: 0 < k < |s| ==> s[k] == s[1..][k - 1];
      1 + IndexOf(s[1..], c)
  }

  lemma {:induction false} TrimLeftShorter(s: string)
    ensures |TrimLeft(s)| <= |s|
  {
    if s != "" && IsSpace(s[0]) { TrimLeftShorter(s[1..]); }
  }

  function Prepend(f: string, rest: Option<seq<string>>): Option<seq<string>> {
    if rest.None? then None else Some([f] + rest.value)
  }

  /** `csv.Reader.Read` on one line, leading space trimmed; `None` is an error. */
  function ReadCsv(line: string): Option<seq<string>> { if line == "" then None else ReadFields(line) }

  function ReadFields(line: string): Option<seq<string>>
    decreases |line|
  {
    TrimLeftShorter(line);
    var l := TrimLeft(line);
    if l != "" && l[0] == '"' then ReadQuoted("", l[1..])
    else
      var i := IndexOf(l, ',');
      if '"' in l[..i] then None
      else if i == |l| then Some([l])
      else Prepend(l[..i], ReadFields(l[i + 1..]))
  }

  /** The rest of a quoted field, then the rest of the row. */
  function ReadQuoted(field: string, l: string): Option<seq<string>>
    decreases |l|
  {
    var i := IndexOf(l, '"');
    if i == |l| then None
    else if i + 1 == |l| then Some([field + l[..i]])
    else if l[i + 1] == '"' then ReadQuoted(field + l[..i] + "\"", l[i + 2..])
    else if l[i + 1] == ',' then Prepend(field + l[..i], ReadFields(l[i + 2..]))
    else None
  }

  datatype Field = Quoted(text: string) | Bare(text: string)

  predicate Printable(f: Field) {
    match f
    case Quoted(t) => Lacks(t, '"')
    case Bare(t) => t != "" && !IsSpace(t[0]) && Lacks(t, '"') && Lacks(t, ',')
  }

  function PrintField(f: Field): string { if f.Quoted? then "\"" + f.text + "\"" else f.text }

  function PrintRow(fields: seq<Field>): string
    requires fields != []
  {
    if |fields| == 1 then PrintField(fields[0]) else PrintField(fields[0]) + "," + PrintRow(fields[1..])
  }

  function FieldTexts(fields: seq<Field>): (r: seq<string>)
    ensures |r| == |fields|
  { seq(|fields|, i requires 0 <= i < |fields| => fields[i].text) }

  lemma {:induction false} IndexOfIs(s: string, c: char, n: nat)
    requires n < |s| && s[n] == c && Lacks(s[..n], c)
    ensures IndexOf(s, c) == n
  {
    if n > 0 {
      assert s[..n][0] == s[0];
      assert s[1..][..n - 1] == s[..n][1..];
      IndexOfIs(s[1..], c, n - 1);
    }
  }

  lemma {:induction false} IndexOfAfter(field: string, c: char, rest: string)
    requires Lacks(field, c)
    ensures IndexOf(field + [c] + rest, c) == |field|
  {
    assert (field + [c] + rest)[..|field|] == field;
    IndexOfIs(field + [c] + rest, c, |field|);
  }

  lemma {:induction false} CsvRoundTrip(fields: seq<Field>)
    requires fields != [] && forall i :: 0 <= i < |fields| ==> Printable(fields[i])
    ensures ReadFields(PrintRow(fields)) == Some(FieldTexts(fields)) && PrintRow(fields) != ""
  {
    var f := fields[0];
    if |fields| > 1 {
      CsvRoundTrip(fields[1..]);
      FieldThenRest(f, PrintRow(fields[1..]), FieldTexts(fields[1..]));
      assert FieldTexts(fields) == [f.text] + FieldTexts(fields[1..]);
    } else {
      LastField(f);
      assert FieldTexts(fields) == [f.text];
    }
  }

  lemma {:induction false} FieldThenRest(f: Field, rest: string, texts: seq<string>)
    requires Printable(f) && ReadFields(rest) == Some(texts)
    ensures ReadFields(PrintField(f) + "," + rest) == Some([f.text] + texts)
  {
    if f.Quoted? {
      QuotedFirst(f.text, rest);
      QuotedThenRest(f.text, rest);
    } else {
      BareThenRest(f.text, rest);
    }
  }

  lemma {:induction false} QuotedFirst(text: string, rest: string)
    ensures ReadFields("\"" + text + "\"" + "," + rest) == ReadQuoted("", text + ['"'] + ("," + rest))
  {
    var l := "\"" + text + "\"" + "," + rest;
    hide ReadQuoted, IndexOf;
    assert l[1..] == text + ['"'] + ("," + rest);
    assert TrimLeft(l) == l;
  }

  lemma {:induction false} BareThenRest(text: string, rest: string)
    requires Printable(Bare(text))
    ensures ReadFields(text + "," + rest) == Prepend(text, ReadFields(rest))
  {
    var l := text + "," + rest;
    assert l == text + [','] + rest;
    IndexOfAfter(text, ',', rest);
    hide IndexOf, ReadQuoted;
    assert TrimLeft(l) == l;
    assert l[..|text|] == text && l[|text| + 1..] == rest;
  }

  lemma {:induction false} QuotedThenRest(text: string, rest: string)
    requires Lacks(text, '"')
    ensures ReadQuoted("", text + ['"'] + ("," + rest)) == Prepend(text, ReadFields(rest))
  {
    var tail := text + ['"'] + ("," + rest);
    IndexOfAfter(text, '"', "," + rest);
    hide IndexOf, ReadFields;
    assert "" + tail[..|text|] == text && tail[|text| + 2..] == rest && tail[|text| + 1] == ',';
  }

  lemma {:induction false} LastField(f: Field)
    requires Printable(f)
    ensures ReadFields(PrintField(f)) == Some([f.text])
  {
    var l := PrintField(f);
    if f.Quoted? {
      var tail := f.text + ['"'] + "";
      IndexOfAfter(f.text, '"', "");
      assert l[1..] == tail;
      assert "" + tail[..|f.text|] == f.text && |tail| == |f.text| + 1;
      assert TrimLeft(l) == l;
      assert ReadQuoted("", tail) == Some([f.text]);
    } else {
      assert TrimLeft(l) == l;
      var i := IndexOf(l, ',');
      assert i == |l| && l[..i] == l;
    }
  }

  // ----- Rows of the answer -----

  datatype Error = BadRow | BadLocal | NoGateway | NoRow

  datatype IpConfig = IpConfig(address: string, gateway: string, dns: seq<string>, mtu: int)

  datatype Row = Ignored | Faulty(error: Error) | Usable(cfg: IpConfig)

  const PREFIX := "+CGCONTRDP:"

  predicate UsableAddr(s: string) { LooksLikeAddr(s) && s != "0.0.0.0" }

  function ServerAt(parts: seq<string>, i: nat): seq<string> {
    if i < |parts| && UsableAddr(Trim(parts[i])) then [Trim(parts[i])] else []
  }

  function MtuOf(parts: seq<string>): int {
    if |parts| > 11 then
      match Atoi(Trim(parts[11]))
      case Number(n) => if n > 0 then n else 0
      case _ => 0
    else 0
  }

  /** What one line contributes for context `cid`. */
  function RowOf(line: string, cid: int): Row {
    var l := Trim(line);
    if !HasPrefix(l, PREFIX) then Ignored
    else match ReadCsv(Trim(l[|PREFIX|..]))
      case None => Faulty(BadRow)
      case Some(parts) => RowOfFields(parts, cid)
  }

  function RowOfFields(parts: seq<string>, cid: int): Row {
    if |parts| < 5 then Faulty(BadRow)
    else if Atoi(Trim(parts[0])) != Number(cid) then Ignored
    else match LocalOf(parts[3])
      case None => Faulty(BadLocal)
      case Some(c) =>
        if !UsableAddr(Trim(parts[4])) then Faulty(NoGateway)
        else Usable(IpConfig(CidrText(c.ip, c.ones), Trim(parts[4]),
          ServerAt(parts, 5) + ServerAt(parts, 6), MtuOf(parts)))
  }

  /** White space around a column is no part of it. */
  lemma {:induction false} SpacedColumns(parts: seq<string>, clean: seq<string>, cid: int)
    requires |parts| == |clean| && forall i :: 0 <= i < |parts| ==> clean[i] == Trim(parts[i])
    ensures RowOfFields(parts, cid) == RowOfFields(clean, cid)
  {
    forall i | 0 <= i < |parts| ensures Trim(clean[i]) == clean[i] {
      TrimIsTrimmed(parts[i]);
    }
    if |parts| >= 5 { SpacedLocal(parts[3]); }
    hide Trim, Atoi, LocalOf, UsableAddr, CidrText;
  }

  lemma {:induction false} SpacedLocal(raw: string)
    ensures LocalOf(Trim(raw)) == LocalOf(raw)
  {
    TrimIsTrimmed(raw);
    hide Trim, ParseCidr, Split, OctetOf, MaskLength, OctetsAt;
  }

  datatype Answer = Config(cfg: IpConfig) | Failed(error: Error)

  /** The first usable row; without one, the first fault. */
  function ParseRows(lines: seq<string>, cid: int): Answer {
    if lines == [] then Failed(NoRow)
    else match RowOf(lines[0], cid)
      case Usable(cfg) => Config(cfg)
      case Ignored => ParseRows(lines[1..], cid)
      case Faulty(e) => if ParseRows(lines[1..], cid).Config? then ParseRows(lines[1..], cid) else Failed(e)
  }

  /** `ParseCGCONTRDP`. */
  method ParseCgcontrdp(response: string, cid0: int) returns (r: Answer)
    ensures r == ParseRows(Split(response, '\n'), if cid0 <= 0 then 1 else cid0)
  {
    var cid := if cid0 <= 0 then 1 else cid0;
    var lines := Split(response, '\n');
    hide RowOf, Split;
    var firstErr: Option<Error> := None;
    assert lines[0..] == lines;
    for i := 0 to |lines|
      invariant ParseRows(lines, cid) == (
        var rest := ParseRows(lines[i..], cid);
        if rest.Config? || firstErr.None? then rest else Failed(firstErr.value))
    {
      assert lines[i..][1..] == lines[i + 1..];
      var row := ReadRow(lines[i], cid);
      match row {
        case Ignored =>
        case Faulty(e) =>
          firstErr := if firstErr.None? then Some(e) else firstErr;
        case Usable(cfg) =>
          return Config(cfg);
      }
    }
    r := Failed(if firstErr.Some? then firstErr.value else NoRow);
  }

  /** The body of the loop of `ParseCGCONTRDP`. */
  method ReadRow(line0: string, cid: int) returns (r: Row)
    ensures r == RowOf(line0, cid)
  {
    hide ReadCsv, Trim, LocalOf, LooksLikeAddr, CidrText, Atoi;
    var line := Trim(line0);
    if !HasPrefix(line, PREFIX) {
      return Ignored;
    }
    var read := ReadCsv(Trim(line[|PREFIX|..]));
    if read.None? || |read.value| < 5 {
      return Faulty(BadRow);
    }
    var parts := read.value;
    if Atoi(Trim(parts[0])) != Number(cid) {
      return Ignored;
    }
    var address := ParseLocal(parts[3]);
    if address.None? {
      return Faulty(BadLocal);
    }
    var gateway := Trim(parts[4]);
    if !LooksLikeAddr(gateway) || gateway == "0.0.0.0" {
      return Faulty(NoGateway);
    }
    var dns: seq<string> := [];
    for idx := 5 to 7
      invariant dns == (if idx > 5 then ServerAt(parts, 5) else []) + (if idx > 6 then ServerAt(parts, 6) else [])
    {
      dns := dns + ServerAt(parts, idx);
    }
    r := Usable(IpConfig(address.value, gateway, dns, MtuOf(parts)));
  }

  /** Which row is taken: the first usable one, wherever faults and other contexts stand. */
  lemma {:induction false} FirstUsableRow(lines: seq<string>, cid: int)
    ensures ParseRows(lines, cid).Config? <==> exists i :: 0 <= i < |lines| && RowOf(lines[i], cid).Usable?
    ensures forall i :: (0 <= i < |lines| && RowOf(lines[i], cid).Usable?
      && forall k :: 0 <= k < i ==> !RowOf(lines[k], cid).Usable?) ==>
        ParseRows(lines, cid) == Config(RowOf(lines[i], cid).cfg)
  {
    hide RowOf;
    if lines != [] {
      FirstUsableRow(lines[1..], cid);
      var rest := lines[1..];
      assert forall i :: 0 <= i < |rest| ==> rest[i] == lines[i + 1];
      forall i | 0 <= i < |lines| && RowOf(lines[i], cid).Usable?
          && (forall k :: 0 <= k < i ==> !RowOf(lines[k], cid).Usable?)
        ensures ParseRows(lines, cid) == Config(RowOf(lines[i], cid).cfg)
      {
        if i > 0 {
          assert RowOf(rest[i - 1], cid).Usable?;
          assert forall k :: 0 <= k < i - 1 ==> !RowOf(rest[k], cid).Usable?;
        }
      }
    }
  }

  /** Without a usable row the first fault is the error, and without a fault that no row is for the context. */
  lemma {:induction false} FirstFault(lines: seq<string>, cid: int)
    requires forall i :: 0 <= i < |lines| ==> !RowOf(lines[i], cid).Usable?
    ensures (forall i :: 0 <= i < |lines| ==> RowOf(lines[i], cid).Ignored?) ==> ParseRows(lines, cid) == Failed(NoRow)
    ensures forall i :: (0 <= i < |lines| && RowOf(lines[i], cid).Faulty?
      && forall k :: 0 <= k < i ==> RowOf(lines[k], cid).Ignored?) ==>
        ParseRows(lines, cid) == Failed(RowOf(lines[i], cid).error)
  {
    hide RowOf;
    if lines != [] {
      var rest := lines[1..];
      FirstFault(rest, cid);
      FirstUsableRow(rest, cid);
      forall i | 0 <= i < |lines| && RowOf(lines[i], cid).Faulty?
          && (forall k :: 0 <= k < i ==> RowOf(lines[k], cid).Ignored?)
        ensures ParseRows(lines, cid) == Failed(RowOf(lines[i], cid).error)
      {
        if i > 0 {
          assert rest[i - 1] == lines[i] && RowOf(lines[0], cid).Ignored?;
          assert forall k :: 0 <= k < i - 1 ==> rest[k] == lines[k + 1];
        }
      }
    }
  }

  // ----- What a modem reports is what the host is told -----

  /** The further columns of a row up to the MTU. */
  datatype Further = Further(pcscf1: string, pcscf2: string, signalling: nat, lipa: nat, mtu: nat)

  datatype Report = Report(bearer: nat, apn: string, ip: Addr, mask: Addr, gateway: Addr, dns1: Addr, dns2: Addr,
                           further: Option<Further>)

  /** No text of the report has a quote in it. */
  predicate Plain(p: Report) {
    && Lacks(p.apn, '"')
    && (p.further.Some? ==> Lacks(p.further.value.pcscf1, '"') && Lacks(p.further.value.pcscf2, '"'))
  }

  function ReportFields(cid: nat, p: Report): seq<Field> {
    [Bare(Decimal(cid)), Bare(Decimal(p.bearer)), Quoted(p.apn), Quoted(EightOctets(p.ip, p.mask)),
     Quoted(Dotted(p.gateway)), Quoted(Dotted(p.dns1)), Quoted(Dotted(p.dns2))] + FurtherFields(p.further)
  }

  function FurtherFields(further: Option<Further>): seq<Field> {
    match further
    case None => []
    case Some(f) =>
      [Quoted(f.pcscf1), Quoted(f.pcscf2), Bare(Decimal(f.signalling)), Bare(Decimal(f.lipa)), Bare(Decimal(f.mtu))]
  }

  /** The row as 3GPP TS 27.007 prints it. */
  function ReportLine(cid: nat, p: Report): string { PREFIX + " " + PrintRow(ReportFields(cid, p)) }

  function Known(a: Addr): seq<string> { if a == 0 then [] else [Dotted(a)] }

  lemma {:induction false} DottedUsable(v: Addr)
    ensures UsableAddr(Dotted(v)) <==> v != 0
    ensures Trim(Dotted(v)) == Dotted(v) && Lacks(Dotted(v), '"')
  {
    DottedRoundTrip(v);
    DottedRoundTrip(0);
    ParsedLooksLikeAddr(Dotted(v));
    DottedCharacters(v, '"');
    DottedTrimmed(v);
    assert Dotted(0) == "0.0.0.0" by { ZeroDotted(); }
  }

  lemma {:induction false} ZeroDotted()
    ensures Dotted(0) == "0.0.0.0"
  {
    assert Texts(Octets(0)) == ["0", "0", "0", "0"];
    assert Join(["0", "0"], '.') == "0.0";
    assert Join(["0", "0", "0"], '.') == "0.0.0";
  }

  lemma {:induction false} RowEnds(fields: seq<Field>)
    requires fields != [] && PrintField(fields[|fields| - 1]) != ""
    ensures var last := PrintField(fields[|fields| - 1]);
      PrintRow(fields) != "" && PrintRow(fields)[|PrintRow(fields)| - 1] == last[|last| - 1]
  {
    if |fields| > 1 { RowEnds(fields[1..]); }
  }

  lemma {:induction false} QuotedField(text: string)
    requires Lacks(text, '"')
    ensures Printable(Quoted(text))
  {
  }

  lemma {:induction false} FurtherPrintable(p: Report)
    requires Plain(p)
    ensures forall f :: f in FurtherFields(p.further) ==> Printable(f)
  {
    if p.further.Some? {
      var f := p.further.value;
      NumberField(f.signalling);
      NumberField(f.lipa);
      NumberField(f.mtu);
      hide Decimal, Lacks, Trim, Printable;
      QuotedField(f.pcscf1);
      QuotedField(f.pcscf2);
    }
  }

  lemma {:induction false} FieldEnds(f: Field)
    requires f.Quoted? || exists n: nat :: f.text == Decimal(n)
    ensures PrintField(f) != "" && !IsSpace(PrintField(f)[|PrintField(f)| - 1])
  {
    if f.Bare? {
      var n: nat :| f.text == Decimal(n);
      DecimalRoundTrip(n);
      assert IsDigit(f.text[|f.text| - 1]);
    }
  }

  /** The row ends with a quote or a digit. */
  lemma {:induction false} ReportEnds(cid: nat, p: Report)
    ensures var row := PrintRow(ReportFields(cid, p)); row != "" && !IsSpace(row[|row| - 1])
  {
    hide PrintRow, EightOctets, Dotted, Decimal, PrintField;
    var fields := ReportFields(cid, p);
    if p.further.Some? { assert fields[|fields| - 1].text == Decimal(p.further.value.mtu); }
    FieldEnds(fields[|fields| - 1]);
    hide ReportFields;
    RowEnds(fields);
  }

  lemma {:induction false} ReportPrintable(cid: nat, p: Report)
    requires Plain(p)
    ensures forall i :: 0 <= i < |ReportFields(cid, p)| ==> Printable(ReportFields(cid, p)[i])
  {
    ReportHeadPrintable(cid, p);
    FurtherPrintable(p);
    hide Printable, FurtherFields, EightOctets, Dotted, Decimal, Plain;
  }

  lemma {:induction false} ReportHeadPrintable(cid: nat, p: Report)
    requires Lacks(p.apn, '"')
    ensures forall i :: 0 <= i < 7 ==> Printable(ReportFields(cid, p)[i])
  {
    NumberField(cid);
    NumberField(p.bearer);
    EightOctetsFields(p.ip, p.mask);
    DottedUsable(p.gateway);
    DottedUsable(p.dns1);
    DottedUsable(p.dns2);
    hide EightOctets, Dotted, Decimal, UsableAddr, Lacks, Trim, Printable, Split, Texts, IsTrimmed;
    QuotedField(p.apn);
    QuotedField(EightOctets(p.ip, p.mask));
    QuotedField(Dotted(p.gateway));
    QuotedField(Dotted(p.dns1));
    QuotedField(Dotted(p.dns2));
  }

  lemma {:induction false} NumberField(n: nat)
    ensures Printable(Bare(Decimal(n))) && Trim(Decimal(n)) == Decimal(n)
  {
    DecimalRoundTrip(n);
    var d := Decimal(n);
    assert forall i :: 0 <= i < |d| ==> IsDigit(d[i]);
    TrimTrimmed(d);
  }

  /** A line of the answer, cut as the parser cuts it. */
  lemma {:induction false} RowOfLine(row: string)
    requires row != "" && IsTrimmed(row)
    ensures HasPrefix(Trim(PREFIX + " " + row), PREFIX) && Trim(Trim(PREFIX + " " + row)[|PREFIX|..]) == row
  {
    var line := PREFIX + " " + row;
    assert line[0] == '+' && line[|line| - 1] == row[|row| - 1];
    TrimTrimmed(line);
    assert line[|PREFIX|..] == " " + row + "";
    hide Trim;
    TrimSurrounded(" ", row, "");
  }

  lemma {:induction false} ReportLineParts(cid: nat, p: Report, asked: int)
    requires Plain(p)
    ensures RowOf(ReportLine(cid, p), asked) == RowOfFields(FieldTexts(ReportFields(cid, p)), asked)
  {
    var fields := ReportFields(cid, p);
    var row := PrintRow(fields);
    ReportPrintable(cid, p);
    CsvRoundTrip(fields);
    ReportEnds(cid, p);
    assert row[0] == Decimal(cid)[0] && !IsSpace(row[0]) by { NumberField(cid); }
    RowOfLine(row);
    hide ReadFields, PrintRow, FieldTexts, ReportFields, Trim, RowOfFields, Decimal;
  }

  lemma {:induction false} FieldsUnderstood(cid: nat, bearer: string, apn: string, local: string, gateway: string,
        dns1: string, dns2: string, more: seq<string>)
    requires cid <= MAX_INT
    requires Trim(gateway) == gateway && Trim(dns1) == dns1 && Trim(dns2) == dns2
    ensures var parts := [Decimal(cid), bearer, apn, local, gateway, dns1, dns2] + more;
      RowOfFields(parts, cid) ==
      match LocalOf(local)
      case None => Faulty(BadLocal)
      case Some(c) =>
        if !UsableAddr(gateway) then Faulty(NoGateway)
        else Usable(IpConfig(CidrText(c.ip, c.ones), gateway,
          (if UsableAddr(dns1) then [dns1] else []) + (if UsableAddr(dns2) then [dns2] else []), MtuOf(parts)))
  {
    AtoiDecimal(cid);
    NumberField(cid);
    hide Decimal, Trim, Atoi, LocalOf, UsableAddr, CidrText, MtuOf;
    var parts := [Decimal(cid), bearer, apn, local, gateway, dns1, dns2] + more;
    assert ServerAt(parts, 5) == if UsableAddr(dns1) then [dns1] else [];
    assert ServerAt(parts, 6) == if UsableAddr(dns2) then [dns2] else [];
  }

  lemma {:induction false} ReportTexts(cid: nat, p: Report)
    ensures FieldTexts(ReportFields(cid, p)) == [Decimal(cid), Decimal(p.bearer), p.apn, EightOctets(p.ip, p.mask),
      Dotted(p.gateway), Dotted(p.dns1), Dotted(p.dns2)] + FieldTexts(FurtherFields(p.further))
  {
    hide Decimal, EightOctets, Dotted;
  }

  /** The MTU is the twelfth column, where there is one that fits the machine's integers. */
  lemma {:induction false} MtuColumn(seven: seq<string>, further: Option<Further>)
    requires |seven| == 7
    ensures MtuOf(seven + FieldTexts(FurtherFields(further))) ==
      if further.Some? && further.value.mtu <= MAX_INT then further.value.mtu else 0
  {
    if further.Some? {
      AtoiDecimal(further.value.mtu);
      NumberField(further.value.mtu);
      hide Decimal, Atoi, Trim;
      var parts := seven + FieldTexts(FurtherFields(further));
      assert |parts| == 12 && parts[11] == FieldTexts(FurtherFields(further))[4] == Decimal(further.value.mtu);
    }
  }

  lemma {:induction false} KnownServer(a: Addr)
    ensures Known(a) == if UsableAddr(Dotted(a)) then [Dotted(a)] else []
    ensures UsableAddr(Dotted(a)) <==> a != 0
    ensures Trim(Dotted(a)) == Dotted(a)
  {
    DottedUsable(a);
    hide UsableAddr, Dotted;
  }

  /** The row for a context yields what the modem meant: the address with the prefix of its mask, the gateway,
      the name servers and the MTU; it is refused exactly for a mask with holes or a gateway 0.0.0.0. Asked for
      another context, it is passed over. */
  lemma {:induction false} ReportUnderstood(cid: nat, p: Report, asked: int)
    requires asked <= MAX_INT && Plain(p)
    ensures RowOf(ReportLine(cid, p), asked) == (
      if cid != asked then Ignored
      else if MaskLength(p.mask).None? then Faulty(BadLocal)
      else if p.gateway == 0 then Faulty(NoGateway)
      else Usable(IpConfig(CidrText(p.ip, MaskLength(p.mask).value), Dotted(p.gateway), Known(p.dns1) + Known(p.dns2),
        if p.further.Some? && p.further.value.mtu <= MAX_INT then p.further.value.mtu else 0)))
    ensures MaskLength(p.mask).Some? <==> Contiguous(Bits(p.mask, 32))
  {
    hide *;
    ReportLineParts(cid, p, asked);
    ReportTexts(cid, p);
    MaskLengthExact(p.mask);
    var seven := [Decimal(cid), Decimal(p.bearer), p.apn, EightOctets(p.ip, p.mask), Dotted(p.gateway),
      Dotted(p.dns1), Dotted(p.dns2)];
    var more := FieldTexts(FurtherFields(p.further));
    if cid == asked {
      LocalOfEightOctets(p.ip, p.mask);
      KnownServer(p.gateway);
      KnownServer(p.dns1);
      KnownServer(p.dns2);
      MtuColumn(seven, p.further);
      FieldsUnderstood(cid, Decimal(p.bearer), p.apn, EightOctets(p.ip, p.mask), Dotted(p.gateway),
        Dotted(p.dns1), Dotted(p.dns2), more);
    } else {
      OtherContext(cid, seven + more, asked);
    }
  }

  lemma {:induction false} OtherContext(cid: nat, parts: seq<string>, asked: int)
    requires |parts| >= 5 && parts[0] == Decimal(cid) && cid != asked <= MAX_INT
    ensures RowOfFields(parts, asked) == Ignored
  {
    AtoiDecimal(cid);
    NumberField(cid);
    hide Decimal, Atoi, Trim;
  }

  // ----- Static RNDIS parameters -----

  datatype StaticCheck = StaticOk | NotIpv4 | Not24 | WrongGateway | HostIsGateway

  /** `validateFM350RNDISStaticConfig`: the address on a /24 whose first address is the gateway. */
  function ValidateStatic(addrCidr: string, gateway: string): StaticCheck {
    match ParseCidr(Trim(addrCidr))
    case None => NotIpv4
    case Some(c) =>
      if c.ones != 24 then Not24
      else
        var o := Octets(c.ip);
        var want := Value([o[0], o[1], o[2], 1]);
        match ParseAddr(Trim(gateway))
        case None => WrongGateway
        case Some(g) => if g != want then WrongGateway else if c.ip == g then HostIsGateway else StaticOk
  }

  /** The first address of the /24 of `ip`. */
  predicate IsPeerOf(gateway: Addr, ip: Addr) { gateway / 256 == ip / 256 && gateway % 256 == 1 }

  /** The parameters read as `ip` on a /24, and as the gateway `g` written the way addresses are printed. */
  predicate StaticFits(addrCidr: string, gateway: string, ip: Addr, g: Addr) {
    && ParseCidr(Trim(addrCidr)) == Some(Cidr(ip, 24)) && Trim(gateway) == Dotted(g)
    && IsPeerOf(g, ip) && g != ip
  }

  /** Of all texts exactly those are accepted that name an address on a /24 and, as a canonical dotted quad,
      the first address of that network, which is not the host's own. */
  lemma {:induction false} StaticExact(addrCidr: string, gateway: string)
    ensures ValidateStatic(addrCidr, gateway) == StaticOk <==>
      exists ip: Addr, g: Addr :: StaticFits(addrCidr, gateway, ip, g)
  {
    hide ParseCidr, ParseAddr, Dotted, Trim, Octets, Value;
    if ValidateStatic(addrCidr, gateway) == StaticOk {
      var ip, g := ParseCidr(Trim(addrCidr)).value.ip, ParseAddr(Trim(gateway)).value;
      PeerValue(ip);
      ParsedIsDotted(Trim(gateway));
      assert StaticFits(addrCidr, gateway, ip, g);
    }
    forall ip: Addr, g: Addr | StaticFits(addrCidr, gateway, ip, g)
      ensures ValidateStatic(addrCidr, gateway) == StaticOk
    {
      PeerValue(ip);
      DottedRoundTrip(g);
    }
  }

  /** The same of texts as the report emits them. */
  lemma {:induction false} ReportedStatic(ip: Addr, ones: nat, gateway: Addr)
    requires ones <= 32
    ensures ValidateStatic(CidrText(ip, ones), Dotted(gateway)) == StaticOk <==>
      ones == 24 && IsPeerOf(gateway, ip) && gateway != ip
  {
    CidrRoundTrip(ip, ones);
    CidrTextTrimmed(ip, ones);
    DottedRoundTrip(gateway);
    DottedUsable(gateway);
    hide CidrText, ParseCidr, ParseAddr, Dotted, Trim, Octets, Value;
    PeerValue(ip);
  }

  lemma {:induction false} ZeroPrefix(s: string)
    requires AllDigits(s)
    ensures AllDigits("0" + s) && DecimalValue("0" + s) == DecimalValue(s)
    decreases |s|
  {
    if s == "" {
      assert "0"[..0] == "";
    } else {
      var front := s[..|s| - 1];
      ZeroPrefix(front);
      assert ("0" + s)[..|s|] == "0" + front;
    }
  }

  lemma {:induction false} LooseOctet(c: char, f: string)
    requires (c == '+' || c == '0') && IsOctet(f)
    ensures !IsOctet([c] + f) && Atoi([c] + f) == Number(DecimalValue(f))
  {
    var head := [c] + f;
    assert head[1..] == f;
    ZeroPrefix(f);
    if c == '0' { assert head == "0" + f; }
  }

  lemma {:induction false} LooseFields(c: char, s: string, f: string)
    requires Split([c] + s, '.') == [[c] + f] + Split(s, '.')[1..] && f == Split(s, '.')[0]
    requires IsOctet(f) && !IsOctet([c] + f) && Atoi([c] + f) == Number(DecimalValue(f)) && LooksLikeAddr(s)
    ensures LooksLikeAddr([c] + s) && ParseAddr([c] + s).None?
  {
    var fs, ls := Split(s, '.'), Split([c] + s, '.');
    hide Split, Atoi;
    assert |ls| == 4 && forall i :: 1 <= i < 4 ==> ls[i] == fs[i];
  }

  /** A leading zero or plus sign passes for an address, but does not parse as one. */
  lemma {:induction false} LooseAddr(c: char, s: string)
    requires (c == '+' || c == '0') && ParseAddr(s).Some?
    ensures LooksLikeAddr([c] + s) && ParseAddr([c] + s).None?
  {
    var f, t := Split(s, '.'), [c] + s;
    assert t[1..] == s;
    assert Split(t, '.') == [[c] + f[0]] + f[1..];
    LooseOctet(c, f[0]);
    ParsedLooksLikeAddr(s);
    hide LooksLikeAddr, IsOctet, Atoi, DecimalValue;
    LooseFields(c, s, f[0]);
  }

  /** So a gateway that the modem writes in such a way is reported as usable, and refused on the host
      where its canonical form is accepted. */
  lemma {:induction false} LooseGateway(c: char, ip: Addr, g: Addr)
    requires (c == '+' || c == '0') && IsPeerOf(g, ip) && g != ip
    ensures UsableAddr([c] + Dotted(g))
    ensures ValidateStatic(CidrText(ip, 24), Dotted(g)) == StaticOk
    ensures ValidateStatic(CidrText(ip, 24), [c] + Dotted(g)) == WrongGateway
  {
    DottedRoundTrip(g);
    LooseAddr(c, Dotted(g));
    DottedUsable(g);
    ReportedStatic(ip, 24, g);
    CidrRoundTrip(ip, 24);
    CidrTextTrimmed(ip, 24);
    LooseTrimmed(c, Dotted(g));
    DottedRoundTrip(0);
    ZeroDotted();
    hide CidrText, ParseCidr, ParseAddr, Dotted, Trim, LooksLikeAddr;
  }

  lemma {:induction false} LooseTrimmed(c: char, s: string)
    requires (c == '+' || c == '0') && s != "" && Trim(s) == s
    ensures Trim([c] + s) == [c] + s
  {
    var lead, tail := TrimParts(s);
    TrimTrimmed([c] + s);
  }

  lemma {:induction false} PeerValue(ip: Addr)
    ensures var o := Octets(ip); Value([o[0], o[1], o[2], 1]) == ip / 256 * 256 + 1
  {
    OctetsRoundTrip(ip);
  }
}
