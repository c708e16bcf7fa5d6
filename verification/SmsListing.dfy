/** Reading a `+CMGL` listing (section 3.4.2 of 3GPP TS 27.005), and what survives the way
    through the notification filter. */
module SmsListing {
  import opened Text
  import UrcQueue

  datatype Message = Message(index: int, status: string, address: string, timestamp: string, body: string)

  // ----- Quoted comma-separated fields -----

  /** Fields of a line; a comma inside quotes does not separate. Quotes stay in the field. */
  function CsvFields(s: string, quoted: bool): (fields: seq<string>)
    ensures fields != []
  {
    if s == "" then [""]
    else
      var rest := CsvFields(s[1..], if s[0] == '"' then !quoted else quoted);
      if s[0] == ',' && !quoted then [""] + rest else [[s[0]] + rest[0]] + rest[1..]
  }

  function TrimAll(fields: seq<string>): seq<string> {
    seq(|fields|, i requires 0 <= i < |fields| => Trim(fields[i]))
  }

  /** `b` is a field under construction, `fields` the rest of the line. */
  function Pending(b: string, fields: seq<string>): seq<string>
    requires fields != []
  { [b + fields[0]] + fields[1..] }

  lemma {:induction false} NextChar(s: string, i: nat, quoted: bool, b: string)
    requires i < |s|
    ensures
      var now, next := CsvFields(s[i..], quoted), CsvFields(s[i + 1..], if s[i] == '"' then !quoted else quoted);
      Pending(b, now) == if s[i] == ',' && !quoted then [b] + Pending("", next) else Pending(b + [s[i]], next)
  {
    assert s[i..][1..] == s[i + 1..];
    var next := CsvFields(s[i + 1..], if s[i] == '"' then !quoted else quoted);
    var now := CsvFields(s[i..], quoted);
    assert b + ([s[i]] + next[0]) == (b + [s[i]]) + next[0];
    assert "" + next[0] == next[0] && b + "" == b;
    if s[i] == ',' && !quoted {
      assert now == [""] + next;
    } else {
      assert now == [[s[i]] + next[0]] + next[1..];
    }
  }

  lemma {:induction false} TrimAllCons(f: string, rest: seq<string>)
    ensures TrimAll([f] + rest) == [Trim(f)] + TrimAll(rest)
  {
  }

  /** Handing one element over from what remains to what is done. */
  lemma {:induction false} HandOver<T>(out: seq<T>, x: T, rest: seq<T>)
    ensures out + ([x] + rest) == (out + [x]) + rest
  {
  }

  /** `splitCSVQuoted`. */
  method SplitCsvQuoted(s: string) returns (out: seq<string>)
    ensures out == TrimAll(CsvFields(s, false))
  {
    out := [];
    var b, quoted := "", false;
    ghost var rest := CsvFields(s, false);
    assert s[0..] == s;
    NoPending(rest);
    FieldsOfNothing(quoted);
    hide CsvFields, Trim, TrimAll, Pending;
    for i := 0 to |s|
      invariant rest == CsvFields(s[i..], quoted)
      invariant out + TrimAll(Pending(b, rest)) == TrimAll(CsvFields(s, false))
    {
      NextChar(s, i, quoted, b);
      rest := CsvFields(s[i + 1..], if s[i] == '"' then !quoted else quoted);
      if s[i] == '"' {
        quoted := !quoted;
        b := b + [s[i]];
      } else if s[i] == ',' {
        if quoted {
          b := b + [s[i]];
        } else {
          TrimAllCons(b, Pending("", rest));
          HandOver(out, Trim(b), TrimAll(Pending("", rest)));
          out := out + [Trim(b)];
          b := "";
        }
      } else {
        b := b + [s[i]];
      }
    }
    FieldsOfNothing(quoted);
    LastField(b);
    assert s[|s|..] == "";
    out := out + [Trim(b)];
  }

  lemma {:induction false} NoPending(fields: seq<string>)
    requires fields != []
    ensures Pending("", fields) == fields
  {
    assert "" + fields[0] == fields[0];
  }

  lemma {:induction false} FieldsOfNothing(quoted: bool)
    ensures CsvFields("", quoted) == [""]
  {
  }

  lemma {:induction false} LastField(b: string)
    ensures TrimAll(Pending(b, [""])) == [Trim(b)]
  {
    assert b + "" == b;
  }

  // ----- Header and listing -----

  predicate InCutset(c: char) { c == '"' || c == ' ' }

  function UnquoteLeft(s: string): string {
    if s != "" && InCutset(s[0]) then UnquoteLeft(s[1..]) else s
  }

  function UnquoteRight(s: string): string {
    if s != "" && InCutset(s[|s| - 1]) then UnquoteRight(s[..|s| - 1]) else s
  }

  /** `strings.Trim(s, "\" ")`. */
  function Unquote(s: string): string { UnquoteRight(UnquoteLeft(s)) }

  /** `parseSMSHeader` on the fields of a listing header, which carries an index. */
  function HeaderOf(fields: seq<string>): Option<Message> {
    if |fields| < 4 then None
    else Some(Message(AtoiIgnored(Trim(fields[0])), Unquote(fields[1]), Unquote(fields[2]),
                      if |fields| > 4 then Unquote(fields[4]) else "", ""))
  }

  const TAG := "+CMGL:"

  function ParseHeader(line: string): Option<Message>
    requires HasPrefix(line, TAG)
  { HeaderOf(TrimAll(CsvFields(line[|TAG|..], false))) }

  /** A header line takes the line after it as its body, whatever that line looks like. */
  function ParseLines(lines: seq<string>): seq<Message> {
    if lines == [] then []
    else
      var line := Trim(lines[0]);
      if !HasPrefix(line, TAG) then ParseLines(lines[1..])
      else match ParseHeader(line)
        case None => ParseLines(lines[1..])
        case Some(msg) =>
          if |lines| > 1 then [msg.(body := Trim(lines[1]))] + ParseLines(lines[2..]) else [msg]
  }

  lemma {:induction false} ParseStep(lines: seq<string>, i: nat)
    requires i < |lines|
    ensures
      var line := Trim(lines[i]);
      ParseLines(lines[i..]) ==
        if !HasPrefix(line, TAG) || ParseHeader(line).None? then [] + ParseLines(lines[i + 1..])
        else if i + 1 < |lines| then
          [ParseHeader(line).value.(body := Trim(lines[i + 1]))] + ParseLines(lines[i + 2..])
        else [ParseHeader(line).value] + ParseLines(lines[i + 1..])
  {
    hide Trim, ParseHeader;
    var tail := lines[i..];
    assert tail[1..] == lines[i + 1..];
    if i + 1 < |lines| {
      assert tail[2..] == lines[i + 2..];
    } else {
      assert lines[i + 1..] == [];
    }
  }

  /** `parseSMSHeader` for a listing. */
  method ReadHeader(line: string) returns (r: Option<Message>)
    requires HasPrefix(line, TAG)
    ensures r == ParseHeader(line)
  {
    hide CsvFields, TrimAll, HeaderOf;
    var fields := SplitCsvQuoted(line[|TAG|..]);
    r := HeaderOf(fields);
  }

  /** One round of the loop of `ParseCMGL`: the messages it adds, none or one, and the next line. */
  method ParseRound(lines: seq<string>, i: nat) returns (found: seq<Message>, next: nat)
    requires i < |lines|
    ensures i < next <= |lines| && ParseLines(lines[i..]) == found + ParseLines(lines[next..])
  {
    ParseStep(lines, i);
    hide ParseHeader, Trim, HasPrefix, ParseLines;
    found, next := [], i + 1;
    var line := Trim(lines[i]);
    if HasPrefix(line, TAG) {
      var header := ReadHeader(line);
      if header.Some? {
        var msg := header.value;
        if i + 1 < |lines| {
          msg := msg.(body := Trim(lines[i + 1]));
          next := i + 2;
        }
        found := [msg];
      }
    }
  }

  /** `ParseCMGL`. */
  method ParseCmgl(resp: string) returns (out: seq<Message>)
    ensures out == ParseLines(UrcQueue.Lines(resp))
  {
    var lines := UrcQueue.Lines(resp);
    out := [];
    var i := 0;
    assert lines[0..] == lines && ParseLines([]) == [];
    hide UrcQueue.Lines, ParseLines;
    while i < |lines|
      invariant 0 <= i <= |lines|
      invariant out + ParseLines(lines[i..]) == ParseLines(lines)
    {
      var found, next := ParseRound(lines, i);
      assert out + (found + ParseLines(lines[next..])) == out + found + ParseLines(lines[next..]);
      out := out + found;
      i := next;
    }
    assert lines[i..] == [];
  }

  // ----- The modem's listing -----

  predicate IsPlainField(f: string) {
    && Lacks(f, '"') && Lacks(f, '\n') && Lacks(f, '\r')
    && (f != "" ==> f[0] != ' ' && f[|f| - 1] != ' ')
  }

  predicate IsPlainBody(b: string) { Lacks(b, '\n') && Lacks(b, '\r') && IsTrimmed(b) }

  predicate IsListable(m: Message) {
    && 0 <= m.index <= MAX_INT
    && IsPlainField(m.status) && IsPlainField(m.address) && IsPlainField(m.timestamp)
    && IsPlainBody(m.body)
  }

  /** What a modem can list: one-line fields and bodies. */
  type Listed = m: Message | IsListable(m) witness Message(0, "", "", "", "")

  function Quoted(f: string): string { "\"" + f + "\"" }

  function HeaderRest(m: Listed): string {
    " " + Decimal(m.index) + ","
      + (Quoted(m.status) + "," + (Quoted(m.address) + "," + (Quoted("") + "," + Quoted(m.timestamp))))
  }

  /** `+CMGL: <index>,<stat>,<address>,<alpha>,<timestamp>`; the alpha field is left empty. */
  function HeaderLine(m: Listed): string { TAG + HeaderRest(m) }

  function MessageLines(ms: seq<Listed>): seq<string>
  { if ms == [] then [] else [HeaderLine(ms[0]), ms[0].body] + MessageLines(ms[1..]) }

  lemma {:induction false} PlainField(f: string, rest: string)
    requires Lacks(f, '"') && Lacks(f, ',')
    ensures CsvFields(f + "," + rest, false) == [f] + CsvFields(rest, false)
  {
    var s := f + "," + rest;
    if f == "" {
      assert s[1..] == rest;
    } else {
      assert s[1..] == f[1..] + "," + rest;
      PlainField(f[1..], rest);
      assert [f[0]] + f[1..] == f;
    }
  }

  lemma {:induction false} InsideQuotes(f: string, rest: string)
    requires Lacks(f, '"')
    ensures CsvFields(f + "\"," + rest, true) == [f + "\""] + CsvFields(rest, false)
    ensures CsvFields(f + "\"", true) == [f + "\""]
  {
    var s, t := f + "\"," + rest, f + "\"";
    if f == "" {
      assert s == "\"," + rest && s[1..] == "," + rest && ("," + rest)[1..] == rest;
      assert CsvFields("," + rest, false) == [""] + CsvFields(rest, false);
      assert t == "\"" && t[1..] == "" && "\"" + "" == "\"";
    } else {
      assert s[1..] == f[1..] + "\"," + rest && t[1..] == f[1..] + "\"";
      InsideQuotes(f[1..], rest);
      assert [f[0]] + (f[1..] + "\"") == f + "\"";
    }
  }

  lemma {:induction false} QuotedField(f: string, rest: string)
    requires Lacks(f, '"')
    ensures CsvFields(Quoted(f) + "," + rest, false) == [Quoted(f)] + CsvFields(rest, false)
    ensures CsvFields(Quoted(f), false) == [Quoted(f)]
  {
    InsideQuotes(f, rest);
    assert (Quoted(f) + "," + rest)[1..] == f + "\"," + rest;
    assert Quoted(f)[1..] == f + "\"";
    assert "\"" + (f + "\"") == Quoted(f);
  }

  lemma {:induction false} UnquoteEnds(f: string)
    requires f != "" && !InCutset(f[0]) && !InCutset(f[|f| - 1])
    ensures UnquoteLeft("\"" + (f + "\"")) == f + "\""
    ensures UnquoteRight(f + "\"") == f
  {
    assert ("\"" + (f + "\""))[1..] == f + "\"";
    assert (f + "\"")[0] == f[0];
    assert (f + "\"")[..|f + "\""| - 1] == f;
  }

  lemma {:induction false} UnquoteQuoted(f: string)
    requires IsPlainField(f)
    ensures Unquote(Quoted(f)) == f
    ensures Trim(Quoted(f)) == Quoted(f)
  {
    TrimTrimmed(Quoted(f));
    hide Trim;
    assert Quoted(f) == "\"" + (f + "\"");
    if f == "" {
      assert Quoted(f) == "\"\"" && "\"\""[1..] == "\"" && "\""[1..] == "";
    } else {
      UnquoteEnds(f);
    }
  }

  lemma {:induction false} NumberField(n: nat)
    requires n <= MAX_INT
    ensures Lacks(" " + Decimal(n), '"') && Lacks(" " + Decimal(n), ',')
    ensures Trim(" " + Decimal(n)) == Decimal(n) && Trim(Decimal(n)) == Decimal(n)
    ensures AtoiIgnored(Decimal(n)) == n
  {
    var num := Decimal(n);
    DecimalRoundTrip(n);
    forall i | 0 <= i < |" " + num| ensures (" " + num)[i] != '"' && (" " + num)[i] != ',' {
      if i > 0 { assert IsDigit(num[i - 1]); }
    }
    assert IsDigit(num[0]) && IsDigit(num[|num| - 1]);
    TrimSurrounded(" ", num, "");
    assert " " + num + "" == " " + num;
    TrimTrimmed(num);
    AtoiDecimal(n);
  }

  lemma {:induction false} HeaderFields(m: Listed)
    ensures CsvFields(HeaderRest(m), false)
      == [" " + Decimal(m.index), Quoted(m.status), Quoted(m.address), Quoted(""), Quoted(m.timestamp)]
  {
    hide CsvFields, Quoted, Decimal;
    NumberField(m.index);
    var r3 := Quoted(m.timestamp);
    var r2 := Quoted("") + "," + r3;
    var r1 := Quoted(m.address) + "," + r2;
    var r0 := Quoted(m.status) + "," + r1;
    PlainField(" " + Decimal(m.index), r0);
    QuotedField(m.status, r1);
    QuotedField(m.address, r2);
    QuotedField("", r3);
    QuotedField(m.timestamp, "");
  }

  lemma {:induction false} HeaderRoundTrip(m: Listed)
    ensures Trim(HeaderLine(m)) == HeaderLine(m) && HasPrefix(HeaderLine(m), TAG)
    ensures ParseHeader(HeaderLine(m)) == Some(m.(body := ""))
  {
    HeaderEnds(m);
    HeaderFields(m);
    assert HeaderLine(m)[|TAG|..] == HeaderRest(m);
    hide CsvFields, HeaderRest, Quoted, Decimal, Trim, Unquote, AtoiIgnored;
    var fields := TrimAll(CsvFields(HeaderRest(m), false));
    NumberField(m.index);
    UnquoteQuoted(m.status);
    UnquoteQuoted(m.address);
    UnquoteQuoted(m.timestamp);
    assert fields[0] == Decimal(m.index) && fields[1] == Quoted(m.status)
      && fields[2] == Quoted(m.address) && fields[4] == Quoted(m.timestamp);
  }

  lemma {:induction false} HeaderEnds(m: Listed)
    ensures Trim(HeaderLine(m)) == HeaderLine(m) && HasPrefix(HeaderLine(m), TAG)
  {
    var line := HeaderLine(m);
    assert line[0] == '+' && line[|line| - 1] == '"';
    TrimTrimmed(line);
  }

  /** A column as a modem prints it: a number, or a text in quotes. */
  predicate IsColumn(c: string) {
    (Lacks(c, '"') && Lacks(c, ',')) || (|c| >= 2 && c == Quoted(c[1..|c| - 1]) && Lacks(c[1..|c| - 1], '"'))
  }

  lemma {:induction false} PlainLast(f: string)
    requires Lacks(f, '"') && Lacks(f, ',')
    ensures CsvFields(f, false) == [f]
  {
    if f != "" {
      PlainLast(f[1..]);
      assert [f[0]] + f[1..] == f;
    }
  }

  lemma {:induction false} ColumnFields(c: string, rest: string)
    requires IsColumn(c)
    ensures CsvFields(c, false) == [c]
    ensures CsvFields(c + [','] + rest, false) == [c] + CsvFields(rest, false)
  {
    if Lacks(c, '"') && Lacks(c, ',') {
      PlainLast(c);
      PlainField(c, rest);
    } else {
      QuotedField(c[1..|c| - 1], rest);
    }
  }

  /** Columns are read back whatever stands in their quotes. */
  lemma {:induction false} ColumnsRoundTrip(columns: seq<string>)
    requires columns != [] && forall c :: c in columns ==> IsColumn(c)
    ensures CsvFields(Join(columns, ','), false) == columns
  {
    if |columns| == 1 {
      ColumnFields(columns[0], "");
    } else {
      ColumnsRoundTrip(columns[1..]);
      ColumnFields(columns[0], Join(columns[1..], ','));
    }
  }

  function Columns(m: Listed): seq<string> {
    [" " + Decimal(m.index), Quoted(m.status), Quoted(m.address), Quoted("")]
  }

  lemma {:induction false} QuotedColumn(f: string)
    requires Lacks(f, '"')
    ensures IsColumn(Quoted(f))
  {
    assert Quoted(f)[1..|Quoted(f)| - 1] == f;
  }

  lemma {:induction false} ColumnsAre(m: Listed)
    ensures forall c :: c in Columns(m) ==> IsColumn(c)
  {
    NumberField(m.index);
    hide Decimal, Quoted;
    QuotedColumn(m.status);
    QuotedColumn(m.address);
    QuotedColumn("");
  }

  /** A header that ends before its timestamp is a message without one; without the alpha field, it is none. */
  lemma {:induction false} CutHeader(m: Listed, k: nat)
    requires 1 <= k <= 4
    ensures ParseHeader("+CMGL:" + Join(Columns(m)[..k], ',')) ==
      if k == 4 then Some(m.(timestamp := "", body := "")) else None
  {
    var columns := Columns(m)[..k];
    ColumnsAre(m);
    ColumnsRoundTrip(columns);
    var line := "+CMGL:" + Join(columns, ',');
    assert line[|TAG|..] == Join(columns, ',');
    hide CsvFields, Join, Quoted, Decimal, Trim, Unquote, AtoiIgnored, IsColumn;
    var fields := TrimAll(columns);
    assert ParseHeader(line) == HeaderOf(fields);
    if k == 4 {
      NumberField(m.index);
      UnquoteQuoted(m.status);
      UnquoteQuoted(m.address);
      assert fields[0] == Decimal(m.index) && fields[1] == Quoted(m.status) && fields[2] == Quoted(m.address);
    }
  }

  lemma {:induction false} ParseOne(header: string, body: string, m: Message, rest: seq<string>)
    requires Trim(header) == header && HasPrefix(header, TAG) && ParseHeader(header) == Some(m)
    ensures ParseLines([header, body] + rest) == [m.(body := Trim(body))] + ParseLines(rest)
  {
    var lines := [header, body] + rest;
    assert lines[2..] == rest;
  }

  /** White space around a header or a body is no part of the message. */
  lemma {:induction false} SpacedMessage(m: Listed, around: seq<string>, rest: seq<string>)
    requires |around| == 4 && forall i :: 0 <= i < 4 ==> AllSpace(around[i])
    ensures ParseLines([around[0] + HeaderLine(m) + around[1], around[2] + m.body + around[3]] + rest)
      == [m] + ParseLines(rest)
  {
    var header, body := around[0] + HeaderLine(m) + around[1], around[2] + m.body + around[3];
    HeaderRoundTrip(m);
    SpacesAround(HeaderLine(m), around[0], around[1]);
    SpacesAround(m.body, around[2], around[3]);
    var lines := [header, body] + rest;
    assert lines[2..] == rest && lines[0] == header && lines[1] == body;
    hide HeaderLine, ParseHeader, Trim;
    assert m.(body := "").(body := m.body) == m;
  }

  lemma {:induction false} SpacesAround(s: string, lead: string, tail: string)
    requires AllSpace(lead) && AllSpace(tail) && IsTrimmed(s)
    ensures Trim(lead + s + tail) == s
  {
    if s == "" {
      var all := lead + s + tail;
      TrimLeftOfSpaces(all, "");
      assert all + "" == all;
    } else {
      TrimSurrounded(lead, s, tail);
    }
  }

  /** Listed messages parse back one by one, whatever their bodies look like. */
  lemma {:induction false} ListingRoundTrip(ms: seq<Listed>, rest: seq<string>)
    ensures ParseLines(MessageLines(ms) + rest) == ms + ParseLines(rest)
  {
    hide ParseLines, ParseHeader, HeaderLine, Trim;
    if ms == [] {
      assert MessageLines(ms) + rest == rest;
    } else {
      var m, more := ms[0], MessageLines(ms[1..]) + rest;
      HeaderRoundTrip(m);
      TrimTrimmed(m.body);
      ListingRoundTrip(ms[1..], rest);
      assert MessageLines(ms) == [HeaderLine(m), m.body] + MessageLines(ms[1..]);
      hide MessageLines, IsListable, IsPlainBody, IsTrimmed, HasPrefix;
      assert MessageLines(ms) + rest == [HeaderLine(m), m.body] + more;
      ParseOne(HeaderLine(m), m.body, m.(body := ""), more);
      assert m.(body := "").(body := m.body) == m;
      HandOver([], m, ms[1..] + ParseLines(rest));
      assert ms == [m] + ms[1..];
    }
  }

  // ----- Through the notification filter -----

  predicate LooksLikeUrc(m: Listed) { UrcQueue.IsUrc(m.body) }

  lemma {:induction false} HeaderIsNotUrc(m: Listed)
    ensures !UrcQueue.IsUrc(HeaderLine(m))
  {
    HeaderRoundTrip(m);
    assert HeaderLine(m)[..6] == TAG;
    assert TAG[3] == 'G' && "+CMTI:"[3] == 'T' && "+CMT:"[3] == 'T' && "+CDS:"[3] == 'S';
  }

  lemma {:induction false} KeptMessages(ms: seq<Listed>, rest: seq<string>)
    requires forall i :: 0 <= i < |ms| ==> !LooksLikeUrc(ms[i])
    ensures UrcQueue.Kept(MessageLines(ms) + rest) == MessageLines(ms) + UrcQueue.Kept(rest)
  {
    hide UrcQueue.IsUrc, UrcQueue.Kept, HeaderLine;
    if ms == [] {
      assert MessageLines(ms) + rest == rest;
      assert MessageLines(ms) + UrcQueue.Kept(rest) == UrcQueue.Kept(rest);
    } else {
      var m, more := ms[0], MessageLines(ms[1..]) + rest;
      HeaderIsNotUrc(m);
      KeptMessages(ms[1..], rest);
      assert MessageLines(ms) + rest == [HeaderLine(m), m.body] + more;
      KeptPair(HeaderLine(m), m.body, more);
    }
  }

  lemma {:induction false} KeptPair(header: string, body: string, rest: seq<string>)
    requires !UrcQueue.IsUrc(header)
    ensures UrcQueue.Kept([header, body] + rest)
      == [header] + (if UrcQueue.IsUrc(body) then [] else [body]) + UrcQueue.Kept(rest)
  {
    var lines := [header, body] + rest;
    assert lines[1..] == [body] + rest && ([body] + rest)[1..] == rest;
  }

  /** The listing up to its final result code. */
  function ListingLines(ms: seq<Listed>): seq<string>
  { MessageLines(ms) + ["", "OK"] }

  lemma {:induction false} OkLinesParse()
    ensures ParseLines(["", "OK"]) == [] && ParseLines(["OK"]) == [] && UrcQueue.Kept(["", "OK"]) == ["", "OK"]
  {
    TrimTrimmed("OK");
    TrimTrimmed("");
    assert ["", "OK"][1..] == ["OK"];
  }

  /** After filtering, the listing reads back as it was exactly when no body looks like a
      notification: such a body is taken for one and the message swallows the next line. */
  lemma {:induction false} FilteredListing(ms: seq<Listed>)
    ensures ParseLines(UrcQueue.Kept(ListingLines(ms))) == ms
      <==> forall i :: 0 <= i < |ms| ==> !LooksLikeUrc(ms[i])
  {
    OkLinesParse();
    if forall i :: 0 <= i < |ms| ==> !LooksLikeUrc(ms[i]) {
      KeptMessages(ms, ["", "OK"]);
      ListingRoundTrip(ms, ["", "OK"]);
    } else {
      var k := FirstUrc(ms);
      SwallowedBody(ms, k, ListingLines(ms[k + 1..]));
      ListingAround(ms, k);
    }
  }

  lemma {:induction false} FirstUrc(ms: seq<Listed>) returns (k: nat)
    requires exists i :: 0 <= i < |ms| && LooksLikeUrc(ms[i])
    ensures k < |ms| && LooksLikeUrc(ms[k]) && forall i :: 0 <= i < k ==> !LooksLikeUrc(ms[i])
  {
    if LooksLikeUrc(ms[0]) {
      k := 0;
    } else {
      var rest := FirstUrc(ms[1..]);
      k := rest + 1;
    }
  }

  lemma {:induction false} MessageLinesAppend(a: seq<Listed>, b: seq<Listed>)
    ensures MessageLines(a + b) == MessageLines(a) + MessageLines(b)
  {
    if a == [] {
      assert a + b == b;
    } else {
      assert (a + b)[1..] == a[1..] + b;
      MessageLinesAppend(a[1..], b);
    }
  }

  lemma {:induction false} BlankIsNotUrc()
    ensures !UrcQueue.IsUrc("")
  {
  }

  lemma {:induction false} KeptIsNotUrc(lines: seq<string>)
    ensures forall i :: 0 <= i < |UrcQueue.Kept(lines)| ==> !UrcQueue.IsUrc(UrcQueue.Kept(lines)[i])
  {
    hide UrcQueue.IsUrc;
    if lines != [] { KeptIsNotUrc(lines[1..]); }
  }

  /** Whatever follows, a body that looks like a notification is removed, and the message before it
      swallows the next line or has none. */
  lemma {:induction false} SwallowedBody(ms: seq<Listed>, k: nat, rest: seq<string>)
    requires k < |ms| && LooksLikeUrc(ms[k]) && forall i :: 0 <= i < k ==> !LooksLikeUrc(ms[i])
    ensures ParseLines(UrcQueue.Kept(MessageLines(ms[..k]) + ([HeaderLine(ms[k]), ms[k].body] + rest))) != ms
  {
    var before, m, kept := ms[..k], ms[k], UrcQueue.Kept(rest);
    KeptMessages(before, [HeaderLine(m), m.body] + rest);
    HeaderIsNotUrc(m);
    KeptPair(HeaderLine(m), m.body, rest);
    KeptIsNotUrc(rest);
    hide ParseLines, HeaderLine, UrcQueue.Kept, MessageLines, UrcQueue.IsUrc;
    WrongBody(m, kept);
    ListingRoundTrip(before, [HeaderLine(m)] + kept);
    assert [HeaderLine(m)] + [] + kept == [HeaderLine(m)] + kept;
    var parsed := ParseLines([HeaderLine(m)] + kept);
    assert (before + parsed)[k] == parsed[0];
  }

  /** A header whose body is missing gets a body that is no notification. */
  lemma {:induction false} WrongBody(m: Listed, kept: seq<string>)
    requires forall i :: 0 <= i < |kept| ==> !UrcQueue.IsUrc(kept[i])
    ensures var parsed := ParseLines([HeaderLine(m)] + kept);
      parsed != [] && !UrcQueue.IsUrc(parsed[0].body)
  {
    BlankIsNotUrc();
    HeaderRoundTrip(m);
    hide ParseLines, ParseHeader, HeaderLine, Trim, UrcQueue.IsUrc;
    if kept == [] {
      ParseCases(HeaderLine(m), "", []);
      assert [HeaderLine(m)] + kept == [HeaderLine(m)];
    } else {
      ParseCases(HeaderLine(m), kept[0], kept[1..]);
      assert [HeaderLine(m)] + kept == [HeaderLine(m), kept[0]] + kept[1..];
      TrimmedUrc(kept[0]);
    }
  }

  lemma {:induction false} TrimmedUrc(line: string)
    ensures UrcQueue.IsUrc(Trim(line)) == UrcQueue.IsUrc(line)
  {
    TrimIsTrimmed(line);
  }

  lemma {:induction false} ListingAround(ms: seq<Listed>, k: nat)
    requires k < |ms|
    ensures ListingLines(ms) == MessageLines(ms[..k]) + ([HeaderLine(ms[k]), ms[k].body] + ListingLines(ms[k + 1..]))
  {
    hide HeaderLine;
    var before, m, after := ms[..k], ms[k], ms[k + 1..];
    assert ms == before + ([m] + after);
    MessageLinesAppend(before, [m] + after);
    assert ([m] + after)[1..] == after;
    assert MessageLines([m] + after) == [HeaderLine(m), m.body] + MessageLines(after);
  }

  // ----- The whole response -----

  function CrLf(lines: seq<string>): string {
    if lines == [] then "" else lines[0] + "\r\n" + CrLf(lines[1..])
  }

  /** The response to `AT+CMGL="ALL"`. */
  function Response(ms: seq<Listed>): string { "\r\n" + CrLf(ListingLines(ms)) }

  lemma {:induction false} CrLfEnd(l: string, rest: string)
    requires Lacks(l, '\r')
    ensures Without(l + "\r\n" + rest, '\r') == l + ['\n'] + Without(rest, '\r')
  {
    WithoutLacks(l, '\r');
    assert l + "\r\n" + rest == l + ("\r\n" + rest);
    WithoutAppend(l, "\r\n" + rest, '\r');
    WithoutAppend("\r\n", rest, '\r');
    assert "\r\n"[1..] == "\n" && "\n"[1..] == "";
    assert Without("\r\n", '\r') == "\n";
  }

  lemma {:induction false} CrLfLines(lines: seq<string>)
    requires forall i :: 0 <= i < |lines| ==> Lacks(lines[i], '\r') && Lacks(lines[i], '\n')
    ensures Split(Without(CrLf(lines), '\r'), '\n') == lines + [""]
  {
    hide Split, Without;
    if lines == [] {
      WithoutLacks("", '\r');
      SplitField("", "", '\n');
    } else {
      CrLfLines(lines[1..]);
      CrLfEnd(lines[0], CrLf(lines[1..]));
      SplitField(lines[0], Without(CrLf(lines[1..]), '\r'), '\n');
      assert lines + [""] == [lines[0]] + (lines[1..] + [""]);
    }
  }

  lemma {:induction false} DecimalIsOneLine(n: nat, c: char)
    requires !IsDigit(c)
    ensures Lacks(Decimal(n), c)
  {
    DecimalRoundTrip(n);
  }

  lemma {:induction false} HeaderIsOneLine(m: Listed, c: char)
    requires c == '\r' || c == '\n'
    ensures Lacks(HeaderLine(m), c)
  {
    DecimalIsOneLine(m.index, c);
    hide Decimal;
    var q3 := Quoted("") + "," + Quoted(m.timestamp);
    var q2 := Quoted(m.address) + "," + q3;
    var q1 := Quoted(m.status) + "," + q2;
    assert Lacks(q3, c);
    assert Lacks(q2, c);
    assert Lacks(q1, c);
    assert Lacks(" " + Decimal(m.index) + ",", c);
    assert HeaderRest(m) == " " + Decimal(m.index) + "," + q1;
  }

  lemma {:induction false} ListingIsOneLineEach(ms: seq<Listed>)
    ensures forall i :: 0 <= i < |ListingLines(ms)| ==>
      Lacks(ListingLines(ms)[i], '\r') && Lacks(ListingLines(ms)[i], '\n')
  {
    hide HeaderLine;
    if ms != [] {
      HeaderIsOneLine(ms[0], '\r');
      HeaderIsOneLine(ms[0], '\n');
      ListingIsOneLineEach(ms[1..]);
      assert ListingLines(ms) == [HeaderLine(ms[0]), ms[0].body] + ListingLines(ms[1..]);
    }
  }

  lemma {:induction false} ResponseLines(ms: seq<Listed>)
    ensures UrcQueue.Lines(Response(ms)) == [""] + ListingLines(ms) + [""]
  {
    ListingIsOneLineEach(ms);
    hide ListingLines;
    var lines := ListingLines(ms);
    CrLfLines(lines);
    assert Response(ms)[1..] == "\n" + CrLf(lines) && ("\n" + CrLf(lines))[1..] == CrLf(lines);
    assert Without(Response(ms), '\r') == "\n" + Without(CrLf(lines), '\r');
    SplitField("", Without(CrLf(lines), '\r'), '\n');
    assert "" + ['\n'] + Without(CrLf(lines), '\r') == "\n" + Without(CrLf(lines), '\r');
  }

  /** Printing a listing and parsing it gives the messages back, bodies that look like headers
      included. */
  lemma {:induction false} ParsePrinted(ms: seq<Listed>)
    ensures ParseLines(UrcQueue.Lines(Response(ms))) == ms
  {
    ResponseLines(ms);
    var tail := ["", "OK", ""];
    assert [""] + ListingLines(ms) + [""] == [""] + (MessageLines(ms) + tail);
    ListingRoundTrip(ms, tail);
    BlankTail(MessageLines(ms) + tail);
    OkLinesParse();
    assert tail[1..] == ["OK", ""] && ["OK", ""][1..] == [""] && [""][1..] == [];
    TrimTrimmed("");
    TrimTrimmed("OK");
    assert ParseLines([""]) == [];
    assert ParseLines(["OK", ""]) == [];
  }

  lemma {:induction false} BlankTail(lines: seq<string>)
    ensures ParseLines([""] + lines) == ParseLines(lines)
  {
    TrimTrimmed("");
    assert ([""] + lines)[1..] == lines;
  }

  // ----- White space around a response -----

  lemma {:induction false} ParseSkipsSpace(c: char, s: string)
    requires IsSpace(c)
    ensures ParseLines(Split([c] + s, '\n')) == ParseLines(Split(s, '\n'))
  {
    UrcQueue.SplitCons(c, s);
    var rest := Split(s, '\n');
    hide Split, ParseLines, Trim, IsSpace;
    if c == '\n' {
      BlankTail(rest);
    } else {
      UrcQueue.TrimLeadingSpace(c, rest[0]);
      SameFirst([c] + rest[0], rest[0], rest[1..]);
      assert [rest[0]] + rest[1..] == rest;
    }
  }

  lemma {:induction false} ParseSkipsLead(lead: string, s: string)
    requires AllSpace(lead)
    ensures ParseLines(Split(lead + s, '\n')) == ParseLines(Split(s, '\n'))
  {
    if lead == "" {
      assert lead + s == s;
    } else {
      assert AllSpace(lead[1..]) && IsSpace(lead[0]);
      hide *;
      assert lead + s == [lead[0]] + (lead[1..] + s);
      ParseSkipsSpace(lead[0], lead[1..] + s);
      ParseSkipsLead(lead[1..], s);
    }
  }

  lemma {:induction false} SameFirst(a: string, b: string, rest: seq<string>)
    requires Trim(a) == Trim(b)
    ensures ParseLines([a] + rest) == ParseLines([b] + rest)
  {
    assert ([a] + rest)[1..] == rest && ([b] + rest)[1..] == rest;
    if rest != [] {
      assert ([a] + rest)[1] == rest[0] && ([b] + rest)[1] == rest[0];
      assert ([a] + rest)[2..] == rest[1..] && ([b] + rest)[2..] == rest[1..];
    }
    hide Trim, ParseHeader;
  }

  /** One line, one line before others, or two lines before others. */
  lemma {:induction false} ParseCases(a: string, b: string, rest: seq<string>)
    ensures ParseLines([]) == []
    ensures ParseLines([a]) == if HeaderReads(a).Some? then [HeaderReads(a).value] else []
    ensures ParseLines([a, b] + rest) ==
      match HeaderReads(a)
      case None => ParseLines([b] + rest)
      case Some(m) => [m.(body := Trim(b))] + ParseLines(rest)
  {
    assert ([a, b] + rest)[1..] == [b] + rest && ([a, b] + rest)[2..] == rest;
    hide Trim, ParseHeader;
  }

  /** The message a line announces, before its body. */
  function HeaderReads(line: string): Option<Message> {
    if HasPrefix(Trim(line), TAG) then ParseHeader(Trim(line)) else None
  }

  lemma {:induction false} HeaderHasNoBody(line: string)
    ensures HeaderReads(line).Some? ==> HeaderReads(line).value.body == ""
  {
    hide Trim, CsvFields, TrimAll, Unquote, AtoiIgnored;
  }

  lemma {:induction false} BlankParsesToNothing()
    ensures Trim("") == "" && HeaderReads("").None? && ParseLines([""]) == []
  {
    TrimTrimmed("");
    BlankReadsNothing();
    ParseCases("", "", []);
  }

  /** One line with a space or a line end behind it. */
  lemma {:induction false} ParseExtendedOne(a: string, c: char)
    requires IsSpace(c)
    ensures ParseLines(UrcQueue.Extended([a], c)) == ParseLines([a])
  {
    BlankParsesToNothing();
    HeaderHasNoBody(a);
    UrcQueue.TrimTrailingSpace(c, a);
    ParseCases(a, "", []);
    hide ParseLines, Trim, HeaderReads, ParseHeader;
    assert [a, ""] + [] == [a] + [""] && [""] + [] == [""];
    SameFirst(a + [c], a, []);
    assert [a + [c]] + [] == [a + [c]] && [a] + [] == [a];
    assert [a][..0] == [];
  }

  /** A header and the last body with one behind it. */
  lemma {:induction false} ParseExtendedBody(a: string, b: string, c: char)
    requires IsSpace(c) && HeaderReads(a).Some?
    ensures ParseLines(UrcQueue.Extended([a, b], c)) == ParseLines([a, b])
  {
    BlankParsesToNothing();
    UrcQueue.TrimTrailingSpace(c, b);
    ParseCases(a, b, []);
    ParseCases(a, b, [""]);
    ParseCases(a, b + [c], []);
    hide ParseLines, Trim, HeaderReads, ParseHeader;
    assert [a, b] + [] == [a, b];
    assert UrcQueue.Extended([a, b], c) == if c == '\n' then [a, b] + [""] else [a, b + [c]] + [];
  }

  lemma {:induction false} ParseExtended(lines: seq<string>, c: char)
    requires lines != [] && IsSpace(c)
    ensures ParseLines(UrcQueue.Extended(lines, c)) == ParseLines(lines)
  {
    hide ParseLines, Trim, HeaderReads, ParseHeader;
    var a := lines[0];
    if |lines| == 1 {
      assert lines == [a];
      ParseExtendedOne(a, c);
    } else {
      var b, rest := lines[1], lines[2..];
      assert lines == [a, b] + rest && lines[1..] == [b] + rest;
      if HeaderReads(a).None? {
        ParseCases(a, b, rest);
        ExtendedTail(lines, c);
        ParseExtended(lines[1..], c);
        SplitFirst(UrcQueue.Extended(lines, c), a, UrcQueue.Extended(lines[1..], c));
      } else if rest == [] {
        assert lines == [a, b];
        ParseExtendedBody(a, b, c);
      } else {
        ParseCases(a, b, rest);
        ParseExtended(rest, c);
        ExtendedTail(lines, c);
        ExtendedTail(lines[1..], c);
        assert UrcQueue.Extended(lines, c) == [a, b] + UrcQueue.Extended(rest, c);
        ParseCases(a, b, UrcQueue.Extended(rest, c));
      }
    }
  }

  lemma {:induction false} SplitFirst(lines: seq<string>, a: string, rest: seq<string>)
    requires rest != [] && lines == [a] + rest && HeaderReads(a).None?
    ensures ParseLines(lines) == ParseLines(rest)
  {
    ParseCases(a, rest[0], rest[1..]);
    assert lines == [a, rest[0]] + rest[1..] && [rest[0]] + rest[1..] == rest;
  }

  lemma {:induction false} ExtendedTail(lines: seq<string>, c: char)
    requires |lines| >= 2
    ensures UrcQueue.Extended(lines, c) == [lines[0]] + UrcQueue.Extended(lines[1..], c)
    ensures UrcQueue.Extended(lines[1..], c) != []
  {
  }

  lemma {:induction false} BlankReadsNothing()
    ensures HeaderReads("").None?
  {
    TrimTrimmed("");
  }

  lemma {:induction false} ParseSkipsTail(s: string, tail: string)
    requires AllSpace(tail)
    ensures ParseLines(Split(s + tail, '\n')) == ParseLines(Split(s, '\n'))
    decreases |tail|
  {
    if tail == "" {
      assert s + tail == s;
    } else {
      var c := tail[0];
      assert s + tail == s + [c] + tail[1..];
      ParseSkipsTail(s + [c], tail[1..]);
      UrcQueue.SplitSnoc(s, c);
      ParseExtended(Split(s, '\n'), c);
    }
  }

  /** White space around a response does not matter to the parser. */
  lemma {:induction false} ParseOfTrim(s: string)
    ensures ParseLines(Split(Trim(s), '\n')) == ParseLines(Split(s, '\n'))
  {
    hide Split, ParseLines, Trim;
    var lead, tail := TrimParts(s);
    assert s == lead + (Trim(s) + tail);
    ParseSkipsLead(lead, Trim(s) + tail);
    ParseSkipsTail(Trim(s), tail);
  }

  lemma {:induction false} StrippedSplits(raw: string)
    ensures UrcQueue.Lines(UrcQueue.Stripped(raw)) == Split(Trim(Join(UrcQueue.Kept(UrcQueue.Lines(raw)), '\n')), '\n')
    ensures Split(UrcQueue.Stripped(raw), '\n') == UrcQueue.Lines(UrcQueue.Stripped(raw))
    ensures forall i :: 0 <= i < |UrcQueue.Kept(UrcQueue.Lines(raw))| ==>
      Lacks(UrcQueue.Kept(UrcQueue.Lines(raw))[i], '\n')
  {
    var lines := UrcQueue.Lines(raw);
    var kept := UrcQueue.Kept(lines);
    UrcQueue.LinesAreClean(raw);
    hide UrcQueue.Kept, Split, Trim, Join, Without;
    UrcQueue.KeptSubset(lines, '\n');
    UrcQueue.KeptSubset(lines, '\r');
    JoinLacks(kept, '\n', '\r');
    UrcQueue.TrimLacks(Join(kept, '\n'), '\r');
    WithoutLacks(UrcQueue.Stripped(raw), '\r');
  }

  /** Parsing what the filter hands on is parsing the lines it kept. */
  lemma {:induction false} ParseStripped(raw: string)
    ensures ParseLines(UrcQueue.Lines(UrcQueue.Stripped(raw))) == ParseLines(UrcQueue.Kept(UrcQueue.Lines(raw)))
  {
    var kept := UrcQueue.Kept(UrcQueue.Lines(raw));
    StrippedSplits(raw);
    hide UrcQueue.Lines, UrcQueue.Kept, UrcQueue.Stripped, Split, Trim;
    ParseOfTrim(Join(kept, '\n'));
    if kept != [] {
      SplitJoin(kept, '\n');
    } else {
      assert Split("", '\n') == [""] by { SplitField("", "", '\n'); }
      BlankTail([]);
      assert [""] + [] == [""];
    }
  }

  /** The whole response, filtered and parsed, is the listing the modem holds exactly when no stored
      body looks like a notification. */
  lemma {:induction false} FilteredResponse(ms: seq<Listed>)
    ensures ParseLines(UrcQueue.Lines(UrcQueue.Stripped(Response(ms)))) == ms
      <==> forall i :: 0 <= i < |ms| ==> !LooksLikeUrc(ms[i])
  {
    ParseStripped(Response(ms));
    ResponseLines(ms);
    BlankIsNotUrc();
    hide UrcQueue.Stripped, Response, ParseLines, UrcQueue.IsUrc;
    var lines := ListingLines(ms);
    UrcQueue.KeptAppend([""] + lines, [""]);
    UrcQueue.KeptAppend([""], lines);
    assert UrcQueue.Kept([""]) == [""] by { assert [""][1..] == []; }
    hide UrcQueue.Kept, ListingLines;
    BlankTail(UrcQueue.Kept(lines) + [""]);
    assert [""] + UrcQueue.Kept(lines) + [""] == [""] + (UrcQueue.Kept(lines) + [""]);
    BlankEnd(UrcQueue.Kept(lines));
    FilteredListing(ms);
  }

  lemma {:induction false} BlankEnd(lines: seq<string>)
    ensures ParseLines(lines + [""]) == ParseLines(lines)
  {
    if lines == [] {
      BlankTail([]);
      assert [""] + [] == [""] && [] + [""] == [""];
    } else {
      ParseExtended(lines, '\n');
    }
  }
}
