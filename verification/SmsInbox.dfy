/** `ListSMS` from the serial port to the list of messages: which stored messages, and which ways the
    answer may be cut on the port, come through. */
module SmsInbox {
  import opened SerialRead
  import opened SmsListing
  import opened Text
  import UrcQueue

  datatype Inbox = Shown(messages: seq<Message>) | CmsFailed(code: int, raw: string) | NotListed

  // ----- Modem errors -----

  const CMS_ERROR := "+CMS ERROR:"

  predicate IsCms(line: string) { HasPrefix(Trim(line), CMS_ERROR) }

  function CmsOf(lines: seq<string>): Option<Inbox> {
    if lines == [] then None
    else if IsCms(lines[0]) then
      var raw := Trim(Trim(lines[0])[|CMS_ERROR|..]);
      Some(CmsFailed(AtoiIgnored(raw), raw))
    else CmsOf(lines[1..])
  }

  /** `parseCMSError`. */
  method ParseCmsError(resp: string) returns (r: Option<Inbox>)
    ensures r == CmsOf(Split(resp, '\n'))
  {
    var lines := Split(resp, '\n');
    assert lines[0..] == lines;
    hide IsCms, Split, Trim, AtoiIgnored;
    for i := 0 to |lines|
      invariant CmsOf(lines) == CmsOf(lines[i..])
    {
      assert lines[i..][1..] == lines[i + 1..];
      if IsCms(lines[i]) {
        var raw := CmsText(lines[i]);
        return Some(CmsFailed(AtoiIgnored(raw), raw));
      }
    }
    r := None;
  }

  function CmsText(line: string): string
    requires IsCms(line)
  { Trim(Trim(line)[|CMS_ERROR|..]) }

  lemma {:induction false} CmsTextOf(text: string)
    requires text != "" && IsTrimmed(text)
    ensures var line := "+CMS ERROR: " + text; IsCms(line) && CmsText(line) == text
  {
    var line := "+CMS ERROR: " + text;
    assert line[0] == '+' && line[|line| - 1] == text[|text| - 1];
    TrimTrimmed(line);
    hide Trim;
    assert line[|CMS_ERROR|..] == " " + text + "" && line[..|CMS_ERROR|] == CMS_ERROR;
    TrimSurrounded(" ", text, "");
  }

  lemma {:induction false} DecimalTrimmed(n: nat)
    ensures Decimal(n) != "" && IsTrimmed(Decimal(n)) && Lacks(Decimal(n), '\r') && Lacks(Decimal(n), '\n')
  {
    DecimalRoundTrip(n);
    assert forall i :: 0 <= i < |Decimal(n)| ==> IsDigit(Decimal(n)[i]);
  }

  /** The error line as the modem prints it gives its number, or the largest integer if it is larger. */
  lemma {:induction false} CmsCode(n: nat)
    ensures CmsOf(["+CMS ERROR: " + Decimal(n)]) ==
      Some(CmsFailed(if n <= MAX_INT then n else MAX_INT, Decimal(n)))
  {
    DecimalTrimmed(n);
    AtoiDecimal(n);
    CmsTextOf(Decimal(n));
    hide Trim, Decimal, Atoi, IsCms, IsTrimmed;
  }

  // ----- The command -----

  /** What an answer to `AT+CMGL` is taken for. */
  function InboxOf(raw: string): Inbox {
    var clean := UrcQueue.Stripped(raw);
    var cms := CmsOf(Split(clean, '\n'));
    if cms.Some? then cms.value else Shown(ParseLines(UrcQueue.Lines(clean)))
  }

  /** What `AT+CMGL` yields when the port answers in these reads. */
  function ListingOf(port: seq<Read>): Inbox { if Got(port) == "" then NotListed else InboxOf(Got(port)) }

  /** `ListSMS`: the port opens, text mode is set, the two commands after it may fail, and the answer
      to `AT+CMGL` is read and parsed. */
  method ListSms(q: UrcQueue.Queue, opens: bool, mode: seq<Read>, charset: seq<Read>, indications: seq<Read>,
        listing: seq<Read>)
    returns (r: Inbox)
    requires q.Valid()
    modifies q
    ensures q.Valid()
    ensures var answer := Got(mode);
      r == if opens && answer != "" && Contains(UrcQueue.Stripped(answer), "OK") then ListingOf(listing)
           else NotListed
  {
    hide UrcQueue.Stripped, UrcQueue.Lines, Got, CmsOf, ParseLines, Split, Contains, UrcQueue.Urcs;
    if !opens {
      return NotListed;
    }
    var resp := SendRaw(q, mode);
    if resp.None? || !Contains(resp.value, "OK") {
      return NotListed;
    }
    resp := SendRaw(q, charset);
    resp := SendRaw(q, indications);
    resp := SendRaw(q, listing);
    if resp.None? {
      return NotListed;
    }
    var cms := ParseCmsError(resp.value);
    if cms.Some? {
      return cms.value;
    }
    var messages := ParseCmgl(resp.value);
    r := Shown(messages);
  }

  // ----- Modem errors in a filtered answer -----

  lemma {:induction false} CmsIff(lines: seq<string>)
    ensures CmsOf(lines).Some? <==> exists i :: 0 <= i < |lines| && IsCms(lines[i])
    ensures CmsOf(lines).Some? ==> CmsOf(lines).value.CmsFailed?
  {
    hide IsCms, Trim, AtoiIgnored;
    if lines != [] {
      CmsIff(lines[1..]);
      assert forall i :: 0 <= i < |lines[1..]| ==> lines[1..][i] == lines[i + 1];
      if i :| 0 <= i < |lines| && IsCms(lines[i]) {
        if i > 0 { assert IsCms(lines[1..][i - 1]); }
      }
    }
  }

  lemma {:induction false} CmsInContent(lines: seq<string>)
    ensures (exists i :: 0 <= i < |lines| && IsCms(lines[i])) <==> exists l :: l in UrcQueue.Content(lines) && IsCms(l)
  {
    if lines != [] {
      CmsInContent(lines[1..]);
      CmsTrimmed(lines[0]);
      hide IsCms, Trim;
      var first, rest := lines[0], UrcQueue.Content(lines[1..]);
      assert UrcQueue.Content(lines) == (if Trim(first) == "" then [] else [Trim(first)]) + rest;
      assert forall i :: 0 <= i < |lines[1..]| ==> lines[1..][i] == lines[i + 1];
      if i :| 0 <= i < |lines| && IsCms(lines[i]) {
        if i > 0 {
          assert IsCms(lines[1..][i - 1]);
          var l :| l in rest && IsCms(l);
          assert l in UrcQueue.Content(lines);
        } else {
          assert Trim(first) in UrcQueue.Content(lines) && IsCms(Trim(first));
        }
      }
      if l :| l in UrcQueue.Content(lines) && IsCms(l) {
        if l in rest {
          var i :| 0 <= i < |lines[1..]| && IsCms(lines[1..][i]);
          assert IsCms(lines[i + 1]);
        } else {
          assert l == Trim(first) && IsCms(lines[0]);
        }
      }
    }
  }

  lemma {:induction false} CmsTrimmed(line: string)
    ensures IsCms(Trim(line)) == IsCms(line)
    ensures IsCms(line) ==> Trim(line) != "" && !UrcQueue.IsUrc(line) && !UrcQueue.IsUrc(Trim(line))
  {
    TrimIsTrimmed(line);
    var t := Trim(line);
    if IsCms(line) {
      assert t[2] == 'M' && t[3] == 'S' && t[..11] == CMS_ERROR;
      assert t[4] == ' ';
      assert "+CMTI:"[3] == 'T' && "+CMT:"[3] == 'T' && "+CDS:"[2] == 'D';
    }
  }

  lemma {:induction false} CmsSurvivesFilter(lines: seq<string>)
    ensures (exists l :: l in lines && IsCms(l)) <==> exists l :: l in UrcQueue.Filter(lines, false) && IsCms(l)
  {
    if lines != [] {
      CmsSurvivesFilter(lines[1..]);
      CmsTrimmed(lines[0]);
      hide IsCms, UrcQueue.IsUrc, Trim;
      assert forall l :: l in lines <==> l == lines[0] || l in lines[1..];
      var rest := UrcQueue.Filter(lines[1..], false);
      assert UrcQueue.Filter(lines, false) == (if UrcQueue.IsUrc(lines[0]) == false then [lines[0]] else []) + rest;
      if l :| l in lines && IsCms(l) {
        if l == lines[0] {
          assert l in UrcQueue.Filter(lines, false);
        } else {
          var k :| k in rest && IsCms(k);
          assert k in UrcQueue.Filter(lines, false);
        }
      }
    }
  }

  /** An answer fails with a modem error exactly if one of its lines is one. */
  lemma {:induction false} CmsOfStripped(raw: string)
    ensures CmsOf(Split(UrcQueue.Stripped(raw), '\n')).Some?
      <==> exists i :: 0 <= i < |UrcQueue.Lines(raw)| && IsCms(UrcQueue.Lines(raw)[i])
    ensures CmsOf(Split(UrcQueue.Stripped(raw), '\n')).Some? ==>
      CmsOf(Split(UrcQueue.Stripped(raw), '\n')).value.CmsFailed?
  {
    hide *;
    var clean := UrcQueue.Stripped(raw);
    StrippedSplits(raw);
    UrcQueue.StripConserves(raw);
    CmsIff(Split(clean, '\n'));
    CmsInContent(UrcQueue.Lines(clean));
    CmsInContent(UrcQueue.Lines(raw));
    CmsSurvivesFilter(UrcQueue.Content(UrcQueue.Lines(raw)));
  }

  /** So an answer is listed exactly if no line is a modem error, as the lines the filter keeps parse. */
  lemma {:induction false} InboxOfLines(raw: string)
    ensures var lines := UrcQueue.Lines(raw);
      if exists i :: 0 <= i < |lines| && IsCms(lines[i]) then InboxOf(raw).CmsFailed?
      else InboxOf(raw) == Shown(ParseLines(UrcQueue.Kept(lines)))
  {
    CmsOfStripped(raw);
    ParseStripped(raw);
    hide UrcQueue.Stripped, UrcQueue.Lines, UrcQueue.Kept, CmsOf, Split, IsCms, ParseLines;
  }

  // ----- An answer cut short -----

  /** The first lines of a text, the last of them perhaps in part. */
  predicate IsCutOf(lines: seq<string>, cut: seq<string>) {
    if lines == [] then cut == [""]
    else if |cut| <= 1 then cut != [] && cut[0] <= lines[0]
    else cut[0] == lines[0] && IsCutOf(lines[1..], cut[1..])
  }

  /** Cutting CRLF text gives its first lines and a part of the next. */
  lemma {:induction false} CutLines(lines: seq<string>, t: string)
    requires forall i :: 0 <= i < |lines| ==> Lacks(lines[i], '\r') && Lacks(lines[i], '\n')
    requires t <= CrLf(lines)
    ensures IsCutOf(lines, UrcQueue.Lines(t))
    ensures t == CrLf(lines) ==> |UrcQueue.Lines(t)| == |lines| + 1
  {
    if lines == [] {
      WithoutLacks("", '\r');
      SplitField("", "", '\n');
    } else {
      var l, after := lines[0], CrLf(lines[1..]);
      assert CrLf(lines) == l + "\r\n" + after;
      hide CrLf, Split, Without;
      if |t| < |l| + 2 {
        var part := CutHead(l, after, t);
      } else {
        var rest := CutBehind(l, after, t);
        CutLines(lines[1..], rest);
        CrLfEnd(l, rest);
        SplitField(l, Without(rest, '\r'), '\n');
        var cut := UrcQueue.Lines(rest);
        assert UrcQueue.Lines(t) == [l] + cut && ([l] + cut)[1..] == cut;
        hide IsCutOf;
        CutNext(lines, cut);
      }
    }
  }

  lemma {:induction false} CutNext(lines: seq<string>, cut: seq<string>)
    requires lines != [] && cut != [] && IsCutOf(lines[1..], cut)
    ensures IsCutOf(lines, [lines[0]] + cut)
  {
    assert ([lines[0]] + cut)[1..] == cut;
  }

  lemma {:induction false} CutHead(l: string, after: string, t: string) returns (part: string)
    requires t <= l + "\r\n" + after && |t| < |l| + 2 && Lacks(l, '\r') && Lacks(l, '\n')
    ensures part <= l && Split(Without(t, '\r'), '\n') == [part]
  {
    hide Split, Without;
    part := l[..if |t| <= |l| then |t| else |l|];
    assert t == part || t == part + "\r";
    CutFirst(part, t);
  }

  lemma {:induction false} CutBehind(l: string, after: string, t: string) returns (rest: string)
    requires t <= l + "\r\n" + after && |t| >= |l| + 2
    ensures rest <= after && t == l + "\r\n" + rest && (t == l + "\r\n" + after ==> rest == after)
  {
    rest := t[|l| + 2..];
    assert (l + "\r\n" + after)[|l| + 2..] == after;
    assert t == t[..|l| + 2] + rest && t[..|l| + 2] == (l + "\r\n" + after)[..|l| + 2];
    assert (l + "\r\n" + after)[..|l| + 2] == l + "\r\n";
  }

  lemma {:induction false} CutFirst(part: string, t: string)
    requires Lacks(part, '\r') && Lacks(part, '\n') && (t == part || t == part + "\r")
    ensures Split(Without(t, '\r'), '\n') == [part]
  {
    WithoutLacks(part, '\r');
    WithoutAppend(part, "\r", '\r');
    assert Without("\r", '\r') == "" by { assert "\r"[1..] == ""; }
    assert part + "" == part;
    SplitField(part, "", '\n');
  }

  /** What a cut answer has: `k` whole messages, then nothing but parts of blank line and result code,
      or a part of the next header, or that header and a part of its body. */
  predicate IsCutAt(ms: seq<Listed>, k: nat, rest: seq<string>) {
    || (k == |ms| && forall i :: 0 <= i < |rest| ==> rest[i] <= "OK")
    || (k < |ms| && rest == [])
    || (k < |ms| && |rest| == 1 && rest[0] <= HeaderLine(ms[k]))
    || (k < |ms| && |rest| == 2 && rest[0] == HeaderLine(ms[k]) && rest[1] <= ms[k].body)
  }

  /** The whole messages of a cut listing, and what is left of the next. */
  lemma {:induction false} CutListing(ms: seq<Listed>, cut: seq<string>) returns (k: nat, rest: seq<string>)
    requires IsCutOf(ListingLines(ms), cut)
    ensures k <= |ms| && IsCutAt(ms, k, rest) && cut == MessageLines(ms[..k]) + rest
    ensures |cut| == |ListingLines(ms)| + 1 ==> k == |ms|
  {
    hide HeaderLine;
    assert MessageLines([]) == [] && ms[..0] == [];
    k, rest := 0, cut;
    if ms == [] {
      assert ListingLines(ms) == ["", "OK"];
      CutEnd(cut);
    } else {
      var h, b, more := HeaderLine(ms[0]), ms[0].body, ListingLines(ms[1..]);
      assert ListingLines(ms) == [h, b] + more;
      CutPair(h, b, more, cut);
      if |cut| > 2 {
        var j;
        j, rest := CutListing(ms[1..], cut[2..]);
        k := j + 1;
        NextMessage(ms, j);
        assert cut == [h, b] + cut[2..];
        NextCut(ms, j, rest);
      }
    }
  }

  lemma {:induction false} CutEnd(cut: seq<string>)
    requires IsCutOf(["", "OK"], cut)
    ensures forall i :: 0 <= i < |cut| ==> cut[i] <= "OK"
  {
    assert ["", "OK"] == ["", "OK"] + [];
    CutPair("", "OK", [], cut);
    if |cut| > 2 {
      assert cut == cut[..2] + cut[2..];
    }
  }

  lemma {:induction false} CutPair(h: string, b: string, more: seq<string>, cut: seq<string>)
    requires IsCutOf([h, b] + more, cut)
    ensures cut != []
    ensures |cut| == 1 ==> cut[0] <= h
    ensures |cut| == 2 ==> cut[0] == h && cut[1] <= b
    ensures |cut| > 2 ==> cut[..2] == [h, b] && IsCutOf(more, cut[2..])
  {
    var lines := [h, b] + more;
    assert lines[1..] == [b] + more && ([b] + more)[1..] == more;
    if |cut| > 1 { assert cut[1..][0] == cut[1] && cut[1..][1..] == cut[2..]; }
  }

  lemma {:induction false} NextMessage(ms: seq<Listed>, j: nat)
    requires j < |ms|
    ensures MessageLines(ms[..j + 1]) == [HeaderLine(ms[0]), ms[0].body] + MessageLines(ms[1..][..j])
  {
    hide HeaderLine;
    assert ms[..j + 1][1..] == ms[1..][..j];
  }

  lemma {:induction false} NextCut(ms: seq<Listed>, j: nat, rest: seq<string>)
    requires j < |ms| && IsCutAt(ms[1..], j, rest)
    ensures IsCutAt(ms, j + 1, rest)
  {
    hide HeaderLine;
  }

  lemma {:induction false} ResponseIsLines(ms: seq<Listed>)
    ensures CrLf([""] + ListingLines(ms)) == Response(ms)
  {
    hide ListingLines;
    assert ([""] + ListingLines(ms))[1..] == ListingLines(ms);
    assert "" + "\r\n" == "\r\n";
  }

  lemma {:induction false} CutShape(ms: seq<Listed>, raw: string) returns (k: nat, rest: seq<string>)
    requires raw <= Response(ms)
    ensures k <= |ms| && IsCutAt(ms, k, rest)
    ensures UrcQueue.Lines(raw) == [""] + MessageLines(ms[..k]) + rest
    ensures raw == Response(ms) ==> k == |ms|
  {
    var listing := ListingLines(ms);
    var lines := [""] + listing;
    ListingIsOneLineEach(ms);
    ResponseIsLines(ms);
    hide Response, CrLf, UrcQueue.Lines, HeaderLine, ListingLines;
    CutLines(lines, raw);
    var cut := UrcQueue.Lines(raw);
    assert lines[1..] == listing;
    if |cut| == 1 {
      k, rest := 0, [];
      assert ms[..0] == [] && MessageLines([]) == [];
      assert cut == [""] + [] + [];
    } else {
      k, rest := CutListing(ms, cut[1..]);
      assert cut == [""] + cut[1..];
    }
  }

  // ----- What a cut answer is taken for -----

  lemma {:induction false} MessageLineAt(ms: seq<Listed>, k: nat)
    requires k <= |ms|
    ensures |MessageLines(ms)| == 2 * |ms|
    ensures k < |ms| ==> MessageLines(ms)[2 * k] == HeaderLine(ms[k]) && MessageLines(ms)[2 * k + 1] == ms[k].body
  {
    hide HeaderLine;
    if ms != [] {
      MessageLineAt(ms[1..], if k > 0 then k - 1 else 0);
      assert MessageLines(ms) == [HeaderLine(ms[0]), ms[0].body] + MessageLines(ms[1..]);
    }
  }

  predicate ReadsAs(line: string, m: Message) { HeaderReads(line) == Some(m) }

  /** The lines of the last message have arrived: its body as a whole or, if it has none, enough of its
      header to read the same. */
  predicate Arrived(ms: seq<Listed>, lines: seq<string>) {
    ms == [] ||
    (var m := ms[|ms| - 1];
     if m.body != "" then |lines| > 2 * |ms| && lines[2 * |ms|] == m.body
     else |lines| >= 2 * |ms| && ReadsAs(lines[2 * |ms| - 1], m))
  }

  /** Bodies that neither the filter nor the error check takes for something else. */
  predicate IsPlain(m: Listed) { !LooksLikeUrc(m) && !IsCms(m.body) }

  predicate HasCms(lines: seq<string>) { exists i :: 0 <= i < |lines| && IsCms(lines[i]) }

  lemma {:induction false} HasCmsAppend(a: seq<string>, b: seq<string>)
    ensures HasCms(a + b) <==> HasCms(a) || HasCms(b)
  {
    hide IsCms;
    assert forall i :: 0 <= i < |a| ==> (a + b)[i] == a[i];
    assert forall i :: 0 <= i < |b| ==> (a + b)[|a| + i] == b[i];
  }

  lemma {:induction false} HeaderPartIsNoCms(m: Listed, part: string)
    requires part <= HeaderLine(m)
    ensures !IsCms(part)
  {
    assert HeaderLine(m)[..6] == TAG;
    hide HeaderLine, IsCms;
    TagPartIsNoCms(HeaderLine(m), part);
  }

  lemma {:induction false} TagPartIsNoCms(header: string, part: string)
    requires |header| >= 6 && header[..6] == TAG && part <= header
    ensures !IsCms(part)
  {
    if part == "" {
      TrimTrimmed("");
    } else {
      assert part[0] == header[..6][0] && TrimLeft(part) == part;
      var tail := TrimRightIsPrefix(part);
      hide TrimLeft, TrimRight;
      assert Trim(part) <= part;
      assert |part| > 3 ==> part[3] == header[..6][3];
      assert CMS_ERROR[3] == 'S';
    }
  }

  lemma {:induction false} QuietLine(line: string)
    requires line <= "OK"
    ensures !IsCms(line) && !UrcQueue.IsUrc(line) && HeaderReads(line).None?
  {
    var lead, tail := TrimParts(line);
    assert |Trim(line)| <= 2;
  }

  lemma {:induction false} QuietLines(lines: seq<string>)
    requires forall i :: 0 <= i < |lines| ==> lines[i] <= "OK"
    ensures !HasCms(lines) && UrcQueue.Kept(lines) == lines && ParseLines(lines) == []
  {
    if lines == [] {
      ParseCases("", "", []);
    } else {
      QuietLine(lines[0]);
      QuietLines(lines[1..]);
      hide IsCms, UrcQueue.IsUrc, ParseLines, HeaderReads;
      assert lines == [lines[0]] + lines[1..];
      HasCmsAppend([lines[0]], lines[1..]);
      if |lines| > 1 {
        SplitFirst(lines, lines[0], lines[1..]);
      } else {
        ParseCases(lines[0], "", []);
        assert lines == [lines[0]];
      }
    }
  }

  lemma {:induction false} PairHasCms(m: Listed)
    ensures HasCms([HeaderLine(m), m.body]) <==> IsCms(m.body)
  {
    HeaderPartIsNoCms(m, HeaderLine(m));
    hide IsCms, HeaderLine;
    var pair := [HeaderLine(m), m.body];
    assert pair[0] == HeaderLine(m) && pair[1] == m.body;
  }

  predicate SomeCms(ms: seq<Listed>) { exists i :: 0 <= i < |ms| && IsCms(ms[i].body) }

  lemma {:induction false} SomeCmsCons(ms: seq<Listed>)
    requires ms != []
    ensures SomeCms(ms) <==> IsCms(ms[0].body) || SomeCms(ms[1..])
  {
    hide IsCms;
    assert forall i :: 0 <= i < |ms[1..]| ==> ms[1..][i] == ms[i + 1];
    if i :| 0 <= i < |ms| && IsCms(ms[i].body) {
      if i > 0 { assert IsCms(ms[1..][i - 1].body); }
    }
    if i :| 0 <= i < |ms[1..]| && IsCms(ms[1..][i].body) {
      assert IsCms(ms[i + 1].body);
    }
  }

  lemma {:induction false} MessagesHaveCms(ms: seq<Listed>)
    ensures HasCms(MessageLines(ms)) <==> SomeCms(ms)
  {
    hide IsCms, HeaderLine;
    if ms != [] {
      MessagesHaveCms(ms[1..]);
      PairHasCms(ms[0]);
      SomeCmsCons(ms);
      HasCmsAppend([HeaderLine(ms[0]), ms[0].body], MessageLines(ms[1..]));
      hide HasCms, SomeCms;
    }
  }

  /** What parsing makes of the piece after the whole messages. */
  lemma {:induction false} RestParses(ms: seq<Listed>, k: nat, rest: seq<string>)
    requires k <= |ms| && IsCutAt(ms, k, rest)
    ensures ParseLines(UrcQueue.Kept(rest)) ==
      if k == |ms| || rest == [] then []
      else if |rest| == 2 then [ms[k].(body := if UrcQueue.IsUrc(rest[1]) then "" else Trim(rest[1]))]
      else if UrcQueue.IsUrc(rest[0]) || HeaderReads(rest[0]).None? then [] else [HeaderReads(rest[0]).value]
    ensures HasCms(rest) <==> k < |ms| && |rest| == 2 && IsCms(rest[1])
  {
    hide IsCms, UrcQueue.IsUrc, HeaderReads, ParseLines, UrcQueue.Kept, HeaderLine, Trim;
    if k == |ms| || rest == [] {
      QuietLines(rest);
    } else if |rest| == 1 {
      HeaderPartIsNoCms(ms[k], rest[0]);
      RestOne(rest[0]);
      assert rest == [rest[0]];
    } else {
      HeaderPartIsNoCms(ms[k], rest[0]);
      RestTwo(ms[k], rest[1]);
      assert rest == [HeaderLine(ms[k]), rest[1]];
      assert HasCms(rest) <==> IsCms(rest[1]);
    }
  }

  lemma {:induction false} RestOne(part: string)
    ensures ParseLines(UrcQueue.Kept([part])) ==
      if UrcQueue.IsUrc(part) || HeaderReads(part).None? then [] else [HeaderReads(part).value]
  {
    hide ParseLines, HeaderReads, UrcQueue.IsUrc;
    ParseCases(part, "", []);
    assert [part][1..] == [];
    assert UrcQueue.Kept([part]) == if UrcQueue.IsUrc(part) then [] else [part];
  }

  lemma {:induction false} RestTwo(m: Listed, part: string)
    ensures ParseLines(UrcQueue.Kept([HeaderLine(m), part])) ==
      [m.(body := if UrcQueue.IsUrc(part) then "" else Trim(part))]
  {
    HeaderIsNotUrc(m);
    HeaderRoundTrip(m);
    ParseCases(HeaderLine(m), part, []);
    hide ParseLines, ParseHeader, Trim, HeaderLine, UrcQueue.IsUrc;
    KeptPair(HeaderLine(m), part, []);
    assert [HeaderLine(m), part] + [] == [HeaderLine(m), part];
    assert UrcQueue.Kept([]) == [];
    assert [HeaderLine(m)] + [] + [] == [HeaderLine(m)];
    assert [HeaderLine(m)] + [part] + [] == [HeaderLine(m), part];
  }

  // ----- Which inboxes come through -----

  predicate AllPlain(ms: seq<Listed>) { forall i :: 0 <= i < |ms| ==> IsPlain(ms[i]) }

  predicate NoUrc(ms: seq<Listed>) { forall i :: 0 <= i < |ms| ==> !LooksLikeUrc(ms[i]) }

  lemma {:induction false} PlainSplits(ms: seq<Listed>, k: nat)
    requires k <= |ms|
    ensures AllPlain(ms) <==> NoUrc(ms[..k]) && !SomeCms(ms[..k]) && AllPlain(ms[k..])
  {
    hide LooksLikeUrc, IsCms;
    assert forall i :: 0 <= i < k ==> ms[..k][i] == ms[i];
    assert forall i :: 0 <= i < |ms| - k ==> ms[k..][i] == ms[k + i];
    if NoUrc(ms[..k]) && !SomeCms(ms[..k]) && AllPlain(ms[k..]) {
      forall i | 0 <= i < |ms| ensures IsPlain(ms[i]) {
        if i < k { assert ms[..k][i] == ms[i]; } else { assert ms[k..][i - k] == ms[i]; }
      }
    }
  }

  /** A cut answer with a notification among its whole messages is not understood. */
  lemma {:induction false} CutWithUrc(ms: seq<Listed>, k: nat, rest: seq<string>)
    requires k <= |ms| && !NoUrc(ms[..k])
    ensures ParseLines(UrcQueue.Kept(MessageLines(ms[..k]) + rest)) != ms
  {
    hide LooksLikeUrc, ParseLines, UrcQueue.Kept, HeaderLine, MessageLines;
    var before := ms[..k];
    var u := FirstUrc(before);
    assert before[..u] == ms[..u] && before[u] == ms[u];
    MessageAround(before, u, rest);
    SwallowedBody(ms, u, MessageLines(before[u + 1..]) + rest);
  }

  lemma {:induction false} MessageAround(ms: seq<Listed>, u: nat, rest: seq<string>)
    requires u < |ms|
    ensures MessageLines(ms) + rest
      == MessageLines(ms[..u]) + ([HeaderLine(ms[u]), ms[u].body] + (MessageLines(ms[u + 1..]) + rest))
  {
    hide HeaderLine;
    var m, after := ms[u], ms[u + 1..];
    assert ms == ms[..u] + ([m] + after);
    MessageLinesAppend(ms[..u], [m] + after);
    assert ([m] + after)[1..] == after;
    assert MessageLines([m] + after) == [HeaderLine(m), m.body] + MessageLines(after);
  }

  lemma {:induction false} BlankFirst(lines: seq<string>)
    ensures HasCms([""] + lines) <==> HasCms(lines)
    ensures ParseLines(UrcQueue.Kept([""] + lines)) == ParseLines(UrcQueue.Kept(lines))
  {
    BlankIsNotUrc();
    QuietLine("");
    hide UrcQueue.IsUrc, IsCms, ParseLines;
    HasCmsAppend([""], lines);
    assert !HasCms([""]);
    UrcQueue.KeptAppend([""], lines);
    assert UrcQueue.Kept([""]) == [""] by { assert [""][1..] == []; }
    BlankTail(UrcQueue.Kept(lines));
  }

  lemma {:induction false} InboxIs(raw: string, ms: seq<Message>)
    ensures InboxOf(raw) == Shown(ms) <==>
      !HasCms(UrcQueue.Lines(raw)) && ParseLines(UrcQueue.Kept(UrcQueue.Lines(raw))) == ms
  {
    InboxOfLines(raw);
    hide InboxOf, UrcQueue.Lines, IsCms, ParseLines, UrcQueue.Kept;
  }

  lemma {:induction false} CutParses(ms: seq<Listed>, k: nat, rest: seq<string>)
    requires k <= |ms|
    ensures ParseLines(UrcQueue.Kept(MessageLines(ms[..k]) + rest)) == ms
      <==> NoUrc(ms[..k]) && ms[..k] + ParseLines(UrcQueue.Kept(rest)) == ms
  {
    hide UrcQueue.Kept, ParseLines, MessageLines, LooksLikeUrc;
    if NoUrc(ms[..k]) {
      KeptMessages(ms[..k], rest);
      ListingRoundTrip(ms[..k], UrcQueue.Kept(rest));
    } else {
      CutWithUrc(ms, k, rest);
    }
  }

  /** The lines of a cut answer, read as an inbox. */
  lemma {:induction false} CutInbox(ms: seq<Listed>, raw: string, k: nat, rest: seq<string>)
    requires k <= |ms| && UrcQueue.Lines(raw) == [""] + MessageLines(ms[..k]) + rest
    ensures InboxOf(raw) == Shown(ms) <==>
      && NoUrc(ms[..k]) && !SomeCms(ms[..k]) && !HasCms(rest)
      && ms[..k] + ParseLines(UrcQueue.Kept(rest)) == ms
  {
    hide *;
    var part := MessageLines(ms[..k]);
    assert UrcQueue.Lines(raw) == [""] + (part + rest);
    InboxIs(raw, ms);
    BlankFirst(part + rest);
    HasCmsAppend(part, rest);
    MessagesHaveCms(ms[..k]);
    CutParses(ms, k, rest);
  }

  lemma {:induction false} Rejoined(ms: seq<Listed>, k: nat, r: seq<Message>)
    requires k <= |ms|
    ensures ms[..k] + r == ms <==> r == ms[k..]
  {
    if ms[..k] + r == ms { assert r == (ms[..k] + r)[k..]; }
    assert ms[..k] + ms[k..] == ms;
  }

  /** Whether the piece after the whole messages completes the listing. */
  lemma {:induction false} LastPiece(ms: seq<Listed>, k: nat, rest: seq<string>)
    requires k <= |ms| && IsCutAt(ms, k, rest)
    ensures !HasCms(rest) && ParseLines(UrcQueue.Kept(rest)) == ms[k..]
      <==> AllPlain(ms[k..]) && Arrived(ms, [""] + MessageLines(ms[..k]) + rest)
  {
    var lines := [""] + MessageLines(ms[..k]) + rest;
    RestParses(ms, k, rest);
    MessageLineAt(ms[..k], k);
    if k == |ms| {
      WholeArrived(ms, rest);
      assert ms[..k] == ms && ms[k..] == [];
    } else {
      hide ParseLines, UrcQueue.Kept, HasCms, MessageLines, HeaderLine, HeaderReads, LooksLikeUrc, UrcQueue.IsUrc,
        IsCms, Trim;
      assert |lines| == 1 + 2 * k + |rest|;
      if k + 1 < |ms| {
        assert ms[k..][1] == ms[k + 1];
      } else {
        assert ms[k..] == [ms[k]];
        if |rest| == 1 {
          assert lines[2 * k + 1] == rest[0];
          HeaderPiece(ms[k], rest[0]);
        } else if |rest| == 2 {
          assert lines[2 * k + 1] == rest[0] && lines[2 * k + 2] == rest[1];
          BodyPiece(ms[k], rest[1]);
        }
      }
    }
  }

  lemma {:induction false} WholeArrived(ms: seq<Listed>, rest: seq<string>)
    ensures Arrived(ms, [""] + MessageLines(ms) + rest)
  {
    if ms != [] {
      var lines, k := [""] + MessageLines(ms) + rest, |ms| - 1;
      MessageLineAt(ms, k);
      LineInside(MessageLines(ms), rest, 2 * k);
      LineInside(MessageLines(ms), rest, 2 * k + 1);
      hide MessageLines, HeaderLine, Arrived;
      ArrivedIf(ms, lines);
    }
  }

  lemma {:induction false} ArrivedIf(ms: seq<Listed>, lines: seq<string>)
    requires ms != [] && |lines| > 2 * |ms|
    requires lines[2 * |ms| - 1] == HeaderLine(ms[|ms| - 1]) && lines[2 * |ms|] == ms[|ms| - 1].body
    ensures Arrived(ms, lines)
  {
    HeaderReadsAs(ms[|ms| - 1]);
    hide HeaderLine, ReadsAs;
  }

  lemma {:induction false} LineInside(lines: seq<string>, rest: seq<string>, i: nat)
    requires i < |lines|
    ensures ([""] + lines + rest)[i + 1] == lines[i]
  {
  }

  lemma {:induction false} HeaderReadsAs(m: Listed)
    ensures ReadsAs(HeaderLine(m), m.(body := "")) && (m.body == "" ==> ReadsAs(HeaderLine(m), m))
  {
    HeaderRoundTrip(m);
    hide HeaderLine, Trim, ParseHeader;
  }

  lemma {:induction false} HeaderPiece(m: Listed, part: string)
    ensures !UrcQueue.IsUrc(part) && ReadsAs(part, m) <==> IsPlain(m) && m.body == "" && ReadsAs(part, m)
  {
    HeaderHasNoBody(part);
    QuietLine("");
    TaggedIsNotUrc(part);
    hide UrcQueue.IsUrc, IsCms, HeaderReads;
  }

  lemma {:induction false} TaggedIsNotUrc(line: string)
    ensures HeaderReads(line).Some? ==> !UrcQueue.IsUrc(line)
  {
    var t := Trim(line);
    hide Trim, ParseHeader;
    if HasPrefix(t, TAG) {
      assert t[..6] == TAG;
      assert TAG[3] == 'G' && "+CMTI:"[3] == 'T' && "+CMT:"[3] == 'T' && "+CDS:"[3] == 'S';
    }
  }

  lemma {:induction false} BodyPiece(m: Listed, part: string)
    requires part <= m.body
    ensures !IsCms(part) && m.(body := if UrcQueue.IsUrc(part) then "" else Trim(part)) == m
      <==> IsPlain(m) && part == m.body
    ensures ReadsAs(HeaderLine(m), m.(body := ""))
  {
    HeaderRoundTrip(m);
    BlankIsNotUrc();
    TrimTrimmed(m.body);
    var lead, tail := TrimParts(part);
    hide UrcQueue.IsUrc, IsCms, Trim, HeaderLine, ParseHeader;
    assert |Trim(part)| <= |part| <= |m.body|;
  }

  /** An inbox is listed as the modem holds it exactly if, of the part of the answer that was read, the
      last message has arrived, and no body looks like a notification or a modem error. */
  lemma {:induction false} InboxExactly(ms: seq<Listed>, raw: string)
    requires raw <= Response(ms)
    ensures InboxOf(raw) == Shown(ms) <==> AllPlain(ms) && Arrived(ms, UrcQueue.Lines(raw))
    ensures raw == Response(ms) ==> Arrived(ms, UrcQueue.Lines(raw))
  {
    var k, rest := CutShape(ms, raw);
    CutInbox(ms, raw, k, rest);
    Rejoined(ms, k, ParseLines(UrcQueue.Kept(rest)));
    LastPiece(ms, k, rest);
    PlainSplits(ms, k);
    hide InboxOf, Response, UrcQueue.Lines, UrcQueue.Kept, ParseLines, MessageLines, IsCutAt, Arrived, HasCms, SomeCms,
      NoUrc, AllPlain;
    if raw == Response(ms) {
      WholeArrived(ms, rest);
      assert ms[..k] == ms;
    }
  }

  lemma {:induction false} ResponseNotEmpty(ms: seq<Listed>)
    ensures Response(ms) != ""
  {
  }

  /** However the port cuts the answer, with empty reads and failing ones, the listing is right exactly if no
      body looks like a notification or a modem error and the last message was read; and nothing of it is
      left on the port exactly if no read fails or completes a stop word before the end. */
  lemma {:induction false} ListedAndConsumed(ms: seq<Listed>, port: seq<Read>)
    requires Texts(port) == Response(ms)
    ensures ListingOf(port) == Shown(ms) <==> Got(port) != "" && AllPlain(ms) && Arrived(ms, UrcQueue.Lines(Got(port)))
    ensures ListingOf(port) == Shown(ms) && Got(port) == Response(ms)
      <==> AllPlain(ms) && forall k :: 0 < k <= |port| && Stops(port, k) ==> Texts(port[..k]) == Response(ms)
  {
    ResponseNotEmpty(ms);
    hide InboxOf, Response, Got, Texts, Stops, UrcQueue.Lines, Arrived, AllPlain;
    ReadToTheEnd(port);
    InboxExactly(ms, Got(port));
  }

  // ----- Three inboxes that do not come through -----

  /** One stored message that reads like a modem error makes the whole listing fail. */
  lemma {:induction false} CmsBodyFailsAll(ms: seq<Listed>, i: nat)
    requires i < |ms| && IsCms(ms[i].body)
    ensures InboxOf(Response(ms)).CmsFailed?
  {
    var k, rest := CutShape(ms, Response(ms));
    assert ms[..k] == ms;
    assert SomeCms(ms);
    hide Response, MessageLines, IsCms, IsCutAt, SomeCms;
    MessagesHaveCms(ms);
    assert UrcQueue.Lines(Response(ms)) == [""] + (MessageLines(ms) + rest);
    HasCmsAppend(MessageLines(ms), rest);
    BlankFirst(MessageLines(ms) + rest);
    InboxOfLines(Response(ms));
    hide InboxOf, UrcQueue.Lines;
  }

  /** An answer that is just a modem error fails with its number. */
  lemma {:induction false} CmsAnswer(n: nat)
    ensures InboxOf("\r\n+CMS ERROR: " + Decimal(n) + "\r\n") ==
      CmsFailed(if n <= MAX_INT then n else MAX_INT, Decimal(n))
  {
    var line := "+CMS ERROR: " + Decimal(n);
    assert "\r\n+CMS ERROR: " + Decimal(n) + "\r\n" == "\r\n" + line + "\r\n" + "";
    CmsLine(n);
    FirstLines(line, "");
    CmsCode(n);
    OneLineStripped(line);
    SplitField(line, "", '\n');
    hide UrcQueue.Lines, Trim, Join, Split, Decimal, CmsOf, ParseLines;
  }

  lemma {:induction false} CmsLine(n: nat)
    ensures var line := "+CMS ERROR: " + Decimal(n);
      Lacks(line, '\r') && Lacks(line, '\n') && IsTrimmed(line) && !UrcQueue.IsUrc(line)
  {
    var line := "+CMS ERROR: " + Decimal(n);
    DecimalTrimmed(n);
    CmsTextOf(Decimal(n));
    CmsTrimmed(line);
    hide Decimal, Trim, UrcQueue.IsUrc;
    assert line[|line| - 1] == Decimal(n)[|Decimal(n)| - 1];
  }

  lemma {:induction false} OneLineStripped(line: string)
    requires IsTrimmed(line) && line != "" && !UrcQueue.IsUrc(line)
    ensures Trim(Join(UrcQueue.Kept(["", line, ""]), '\n')) == line
  {
    assert Trim("") == "" && !UrcQueue.IsUrc("");
    assert ["", line, ""][1..] == [line, ""] && [line, ""][1..] == [""] && [""][1..] == [];
    hide Trim, UrcQueue.IsUrc;
    assert UrcQueue.Kept([line, ""]) == [line] + UrcQueue.Kept([""]) == [line, ""];
    assert UrcQueue.Kept(["", line, ""]) == [""] + UrcQueue.Kept([line, ""]) == ["", line, ""];
    assert Join(["", line, ""], '\n') == "" + ['\n'] + Join([line, ""], '\n') == "\n" + line + "\n";
    TrimSurrounded("\n", line, "\n");
  }

  lemma {:induction false} CmsExample(m: Listed)
    requires m.body == "+CMS ERROR: 38"
    ensures InboxOf(Response([m])).CmsFailed?
  {
    TrimTrimmed("+CMS ERROR: 38");
    assert IsCms(m.body);
    hide InboxOf, Response, IsCms;
    CmsBodyFailsAll([m], 0);
  }

  /** The answer up to the end of the first body. */
  function FirstBody(m: Listed): string { "\r\n" + HeaderLine(m) + "\r\n" + m.body }

  lemma {:induction false} FirstBodyStarts(ms: seq<Listed>)
    requires ms != []
    ensures FirstBody(ms[0]) < Response(ms)
    ensures UrcQueue.Lines(FirstBody(ms[0])) == ["", HeaderLine(ms[0]), ms[0].body]
  {
    var m := ms[0];
    HeaderIsOneLine(m, '\r');
    HeaderIsOneLine(m, '\n');
    FirstLines(HeaderLine(m), m.body);
    var more := ListingLines(ms[1..]);
    assert ListingLines(ms) == [HeaderLine(m), m.body] + more by { hide HeaderLine; }
    hide ListingLines, HeaderLine, UrcQueue.Lines;
    CrLfTwo(HeaderLine(m), m.body, more);
  }

  lemma {:induction false} CrLfTwo(h: string, b: string, more: seq<string>)
    ensures "\r\n" + h + "\r\n" + b < "\r\n" + CrLf([h, b] + more)
  {
    var lines := [h, b] + more;
    assert lines[1..] == [b] + more && ([b] + more)[1..] == more;
    assert CrLf(lines) == h + "\r\n" + (b + "\r\n" + CrLf(more));
    assert "\r\n" + CrLf(lines) == ("\r\n" + h + "\r\n" + b) + ("\r\n" + CrLf(more));
  }

  lemma {:induction false} FirstLines(h: string, b: string)
    requires Lacks(h, '\r') && Lacks(h, '\n') && Lacks(b, '\r') && Lacks(b, '\n')
    ensures UrcQueue.Lines("\r\n" + h + "\r\n" + b) == ["", h, b]
  {
    hide Split, Without;
    assert "\r\n" + h + "\r\n" + b == "" + "\r\n" + (h + "\r\n" + b);
    CrLfEnd("", h + "\r\n" + b);
    CrLfEnd(h, b);
    WithoutLacks(b, '\r');
    SplitField("", h + ['\n'] + b, '\n');
    SplitField(h, b, '\n');
    SplitField(b, "", '\n');
  }

  /** A first message with `OK` in its body, and a read that ends there: every other message is lost,
      and stays on the port for the next command. */
  lemma {:induction false} OkBodyCutsShort(ms: seq<Listed>, port: seq<Read>)
    requires |ms| > 1 && port != [] && Texts(port) == Response(ms)
    requires Contains(ms[0].body, "OK") && IsPlain(ms[0]) && port[0].text == FirstBody(ms[0])
    ensures ListingOf(port) == Shown(ms[..1]) && Got(port) != Response(ms)
  {
    var m := ms[0];
    FirstReadStops(port, "\r\n" + HeaderLine(m) + "\r\n", m.body);
    FirstBodyStarts(ms);
    FirstBodyStarts(ms[..1]);
    FirstBodyArrived(m);
    assert ms[..1] == [m] && FirstBody(m) != "";
    hide *;
    InboxExactly([m], FirstBody(m));
  }

  lemma {:induction false} FirstBodyArrived(m: Listed)
    ensures IsPlain(m) ==> AllPlain([m])
    ensures Arrived([m], ["", HeaderLine(m), m.body])
  {
    hide HeaderLine, LooksLikeUrc, IsCms, HeaderReads;
    if m.body == "" { HeaderReadsAs(m); }
  }

  lemma {:induction false} FirstReadStops(port: seq<Read>, before: string, body: string)
    requires port != [] && Contains(body, "OK") && port[0].text == before + body
    ensures Got(port) == before + body && Texts(port[..1]) == before + body
  {
    var i :| 0 <= i <= |body| && "OK" <= body[i..];
    var text := before + body;
    assert text[|before| + i..] == body[i..];
    assert Contains(text, "OK");
    hide Contains;
    TextsNext(port, 0);
    assert port[..0] == [] && "" + text == text;
    EndsAfter(port, 1);
    assert "OK" <= body[i..];
    assert text != "";
    TakenOnce(port, 1, Taken(port));
  }
}
