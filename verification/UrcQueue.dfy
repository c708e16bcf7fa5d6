/** Unsolicited SMS notifications that arrive inside command responses: they are taken out of
    the response and kept in a bounded queue. */
module UrcQueue {
  import opened Sequences
  import opened Text

  const CAPACITY := 128

  predicate IsUrc(line: string) {
    var t := Trim(line);
    HasPrefix(t, "+CMTI:") || HasPrefix(t, "+CMT:") || HasPrefix(t, "+CDS:")
  }

  /** A line is a notification exactly if one of the three result codes follows its leading white space. */
  lemma {:induction false} UrcExact(line: string)
    ensures IsUrc(line) <==> exists n :: (0 <= n <= |line| && AllSpace(line[..n])
      && ("+CMTI:" <= line[n..] || "+CMT:" <= line[n..] || "+CDS:" <= line[n..]))
  {
    var lead, tail := TrimParts(line);
    assert line[..|lead|] == lead && line[|lead|..] == Trim(line) + tail;
    hide Trim;
    forall n, tag | 0 <= n <= |line| && AllSpace(line[..n]) && tag in {"+CMTI:", "+CMT:", "+CDS:"} && tag <= line[n..]
      ensures HasPrefix(Trim(line), tag)
    {
      TrimKeepsTag(line[..n], line[n..], tag);
      assert line == line[..n] + line[n..];
    }
  }

  lemma {:induction false} TrimKeepsTag(lead: string, s: string, tag: string)
    requires AllSpace(lead) && tag <= s && tag != "" && IsTrimmed(tag)
    ensures tag <= Trim(lead + s)
  {
    TrimLeftOfSpaces(lead, s);
    TrimRightKeeps(s, tag);
  }

  lemma {:induction false} TrimRightKeeps(s: string, tag: string)
    requires tag <= s && tag != "" && IsTrimmed(tag)
    ensures tag <= TrimRight(s)
  {
    if IsSpace(s[|s| - 1]) {
      assert |s| > |tag|;
      TrimRightKeeps(s[..|s| - 1], tag);
    }
  }

  /** Lines of a response, carriage returns dropped. */
  function Lines(raw: string): (lines: seq<string>)
    ensures lines != []
  { Split(Without(raw, '\r'), '\n') }

  function Kept(lines: seq<string>): seq<string> {
    if lines == [] then []
    else (if IsUrc(lines[0]) then [] else [lines[0]]) + Kept(lines[1..])
  }

  function Urcs(lines: seq<string>): seq<string> {
    if lines == [] then []
    else (if IsUrc(lines[0]) then [Trim(lines[0])] else []) + Urcs(lines[1..])
  }

  /** The response handed to the caller. */
  function Stripped(raw: string): string { Trim(Join(Kept(Lines(raw)), '\n')) }

  lemma {:induction false} KeptAppend(a: seq<string>, b: seq<string>)
    ensures Kept(a + b) == Kept(a) + Kept(b)
    ensures Urcs(a + b) == Urcs(a) + Urcs(b)
  {
    if a == [] {
      assert a + b == b;
    } else {
      assert (a + b)[1..] == a[1..] + b;
      KeptAppend(a[1..], b);
    }
  }

  lemma {:induction false} KeptNext(lines: seq<string>, i: nat)
    requires i < |lines|
    ensures Kept(lines[..i + 1]) == Kept(lines[..i]) + (if IsUrc(lines[i]) then [] else [lines[i]])
    ensures Urcs(lines[..i + 1]) == Urcs(lines[..i]) + (if IsUrc(lines[i]) then [Trim(lines[i])] else [])
  {
    assert lines[..i + 1] == lines[..i] + [lines[i]];
    KeptAppend(lines[..i], [lines[i]]);
  }

  /** Notifications queued on one serial client. `seen` records every notification line since
      the queue was last drained. */
  class Queue {
    var items: seq<string>
    ghost var seen: seq<string>

    ghost predicate Valid()
      reads this
    { items == LastN(seen, CAPACITY) }

    constructor ()
      ensures Valid() && seen == []
    { items, seen := [], []; }

    /** One notification: the oldest makes room when the queue is full. */
    method Push(line: string)
      requires Valid()
      modifies this
      ensures Valid() && seen == old(seen) + [line]
    {
      if |items| >= 128 {
        items := items[|items| - 127..];
      }
      items := items + [line];
      seen := seen + [line];
    }

    /** `storeAndStripSMSURCs`. */
    method StoreAndStrip(raw: string) returns (clean: string)
      requires Valid()
      modifies this
      ensures Valid()
      ensures seen == old(seen) + Urcs(Lines(raw))
      ensures clean == Stripped(raw)
    {
      var lines := Lines(raw);
      var kept := [];
      for i := 0 to |lines|
        invariant Valid()
        invariant kept == Kept(lines[..i])
        invariant seen == old(seen) + Urcs(lines[..i])
      {
        KeptNext(lines, i);
        if IsUrc(lines[i]) {
          Push(Trim(lines[i]));
        } else {
          kept := kept + [lines[i]];
        }
      }
      assert lines[..|lines|] == lines;
      clean := Trim(Join(kept, '\n'));
    }

    /** `DrainSMSURCs`: the newest 128 of the notifications seen since the previous drain. */
    method Drain() returns (out: seq<string>)
      requires Valid()
      modifies this
      ensures Valid()
      ensures out == LastN(old(seen), 128) && seen == []
    {
      out := items;
      items, seen := [], [];
    }
  }

  // ----- What stripping keeps -----

  /** The lines that carry anything, without the white space around them. */
  function Content(lines: seq<string>): seq<string> {
    if lines == [] then []
    else (if Trim(lines[0]) == "" then [] else [Trim(lines[0])]) + Content(lines[1..])
  }

  function Filter(lines: seq<string>, urc: bool): seq<string> {
    if lines == [] then []
    else (if IsUrc(lines[0]) == urc then [lines[0]] else []) + Filter(lines[1..], urc)
  }

  lemma {:induction false} ContentCons(l: string, rest: seq<string>)
    ensures Content([l] + rest) == (if Trim(l) == "" then [] else [Trim(l)]) + Content(rest)
    ensures Filter([l] + rest, true) == (if IsUrc(l) then [l] else []) + Filter(rest, true)
    ensures Filter([l] + rest, false) == (if IsUrc(l) then [] else [l]) + Filter(rest, false)
  {
    assert ([l] + rest)[1..] == rest;
  }

  lemma {:induction false} ContentOfKept(lines: seq<string>)
    ensures Content(Kept(lines)) == Filter(Content(lines), false)
    ensures Urcs(lines) == Filter(Content(lines), true)
  {
    if lines != [] {
      var l, rest := lines[0], lines[1..];
      ContentOfKept(rest);
      TrimIsTrimmed(l);
      assert lines == [l] + rest;
      ContentCons(l, rest);
      ContentCons(l, Kept(rest));
      ContentCons(Trim(l), Content(rest));
      assert IsUrc(Trim(l)) == IsUrc(l);
      assert Kept(lines) == if IsUrc(l) then Kept(rest) else [l] + Kept(rest);
      assert Urcs(lines) == (if IsUrc(l) then [Trim(l)] else []) + Urcs(rest);
      if Trim(l) == "" {
        assert !IsUrc(l);
        assert Content(lines) == Content(rest);
      } else {
        assert Content(lines) == [Trim(l)] + Content(rest);
      }
    }
  }

  lemma {:induction false} ContentAppend(a: seq<string>, b: seq<string>)
    ensures Content(a + b) == Content(a) + Content(b)
  {
    if a == [] {
      assert a + b == b;
    } else {
      assert (a + b)[1..] == a[1..] + b;
      ContentAppend(a[1..], b);
    }
  }

  lemma {:induction false} TrimLeadingSpace(c: char, s: string)
    requires IsSpace(c)
    ensures Trim([c] + s) == Trim(s)
  {
    assert ([c] + s)[1..] == s;
  }

  lemma {:induction false} TrimTrailingSpace(c: char, s: string)
    requires IsSpace(c)
    ensures Trim(s + [c]) == Trim(s)
  {
    var lead := TrimLeftIsSuffix(s);
    var t := TrimLeft(s);
    if t == "" {
      assert s + [c] == (lead + [c]) + "";
      TrimLeftOfSpaces(lead + [c], "");
    } else {
      assert s + [c] == lead + (t + [c]);
      TrimLeftOfSpaces(lead, t + [c]);
      assert (t + [c])[..|t|] == t;
    }
  }

  lemma {:induction false} ContentSkipsLead(lead: string, s: string)
    requires AllSpace(lead)
    ensures Content(Split(lead + s, '\n')) == Content(Split(s, '\n'))
  {
    if lead == "" {
      assert lead + s == s;
    } else {
      ContentSkipsLead(lead[1..], s);
      assert (lead + s)[1..] == lead[1..] + s;
      var rest := Split(lead[1..] + s, '\n');
      if lead[0] == '\n' {
        assert ([""] + rest)[1..] == rest;
      } else {
        TrimLeadingSpace(lead[0], rest[0]);
        assert ([[lead[0]] + rest[0]] + rest[1..])[1..] == rest[1..];
      }
    }
  }

  /** `lines` with `c` written at the end. */
  function Extended(lines: seq<string>, c: char): seq<string>
    requires lines != []
  {
    if c == '\n' then lines + [""] else lines[..|lines| - 1] + [lines[|lines| - 1] + [c]]
  }

  lemma {:induction false} ExtendedFirst(d: char, rest: seq<string>, c: char)
    requires rest != []
    ensures Extended([""] + rest, c) == [""] + Extended(rest, c)
    ensures Extended([[d] + rest[0]] + rest[1..], c) == [[d] + Extended(rest, c)[0]] + Extended(rest, c)[1..]
  {
    if |rest| == 1 {
      assert [d] + (rest[0] + [c]) == ([d] + rest[0]) + [c];
    }
  }

  lemma {:induction false} SplitCons(d: char, t: string)
    ensures Split([d] + t, '\n')
      == if d == '\n' then [""] + Split(t, '\n') else [[d] + Split(t, '\n')[0]] + Split(t, '\n')[1..]
  {
    assert ([d] + t)[1..] == t;
  }

  lemma {:induction false} SplitSnoc(s: string, c: char)
    ensures Split(s + [c], '\n') == Extended(Split(s, '\n'), c)
  {
    if s == "" {
      SplitCons(c, "");
      assert s + [c] == [c] + "" && "" + [c] == [c] + "";
    } else {
      var d, t := s[0], s[1..];
      SplitSnoc(t, c);
      SplitCons(d, t);
      SplitCons(d, t + [c]);
      ExtendedFirst(d, Split(t, '\n'), c);
      assert s == [d] + t && s + [c] == [d] + (t + [c]);
    }
  }

  lemma {:induction false} ContentSkipsTail(s: string, tail: string)
    requires AllSpace(tail)
    ensures Content(Split(s + tail, '\n')) == Content(Split(s, '\n'))
    decreases |tail|
  {
    if tail == "" {
      assert s + tail == s;
    } else {
      var c := tail[0];
      assert s + tail == s + [c] + tail[1..];
      ContentSkipsTail(s + [c], tail[1..]);
      var a, b := Split(s, '\n'), Split(s + [c], '\n');
      var front, last := a[..|a| - 1], a[|a| - 1];
      assert a == front + [last];
      SplitSnoc(s, c);
      ContentAppend(a, [""]);
      ContentAppend(front, [last]);
      ContentAppend(front, [last + [c]]);
      TrimTrailingSpace(c, last);
    }
  }

  lemma {:induction false} ContentOfTrim(s: string)
    ensures Content(Split(Trim(s), '\n')) == Content(Split(s, '\n'))
  {
    var lead, tail := TrimParts(s);
    hide *;
    assert s == lead + (Trim(s) + tail);
    ContentSkipsLead(lead, Trim(s) + tail);
    ContentSkipsTail(Trim(s), tail);
  }

  lemma {:induction false} KeptSubset(lines: seq<string>, c: char)
    requires forall i :: 0 <= i < |lines| ==> Lacks(lines[i], c)
    ensures forall i :: 0 <= i < |Kept(lines)| ==> Lacks(Kept(lines)[i], c)
  {
    if lines != [] {
      KeptSubset(lines[1..], c);
    }
  }

  lemma {:induction false} SplitKeepsLacking(s: string, sep: char, c: char)
    requires Lacks(s, c)
    ensures forall i :: 0 <= i < |Split(s, sep)| ==> Lacks(Split(s, sep)[i], c)
  {
    if s != "" {
      assert Lacks(s[1..], c);
      SplitKeepsLacking(s[1..], sep, c);
      var rest := Split(s[1..], sep);
      forall i | 0 <= i < |Split(s, sep)| ensures Lacks(Split(s, sep)[i], c) {
        if s[0] != sep && i == 0 { assert Lacks(rest[0], c) && s[0] != c; }
      }
    }
  }

  lemma {:induction false} LinesAreClean(raw: string)
    ensures forall i :: 0 <= i < |Lines(raw)| ==> Lacks(Lines(raw)[i], '\n') && Lacks(Lines(raw)[i], '\r')
  {
    WithoutLacks(raw, '\r');
    SplitLacks(Without(raw, '\r'), '\n');
    SplitKeepsLacking(Without(raw, '\r'), '\n', '\r');
  }

  lemma {:induction false} TrimLacks(s: string, c: char)
    requires Lacks(s, c)
    ensures Lacks(Trim(s), c)
  {
    var lead, tail := TrimParts(s);
    forall i | 0 <= i < |Trim(s)| ensures Trim(s)[i] != c {
      assert s[|lead| + i] == Trim(s)[i];
    }
  }

  /** Conservation: the nonblank lines of the stripped response are, in order, exactly those of
      the raw one that are not notifications; the notifications are, in order, the others. */
  lemma {:induction false} StripConserves(raw: string)
    ensures Content(Lines(Stripped(raw))) == Filter(Content(Lines(raw)), false)
    ensures Urcs(Lines(raw)) == Filter(Content(Lines(raw)), true)
  {
    var kept := Kept(Lines(raw));
    LinesAreClean(raw);
    KeptSubset(Lines(raw), '\n');
    KeptSubset(Lines(raw), '\r');
    JoinLacks(kept, '\n', '\r');
    TrimLacks(Join(kept, '\n'), '\r');
    WithoutLacks(Stripped(raw), '\r');
    ContentOfTrim(Join(kept, '\n'));
    ContentOfKept(Lines(raw));
    if kept != [] {
      SplitJoin(kept, '\n');
    } else {
      assert Content([""]) == [];
    }
  }

  lemma {:induction false} NoUrcInFiltered(lines: seq<string>)
    ensures forall l :: l in Filter(lines, false) ==> !IsUrc(l)
  {
    if lines != [] { NoUrcInFiltered(lines[1..]); }
  }

  lemma {:induction false} ContentCovers(lines: seq<string>, i: nat)
    requires i < |lines| && IsUrc(lines[i])
    ensures Trim(lines[i]) in Content(lines)
  {
    if i > 0 {
      ContentCovers(lines[1..], i - 1);
    }
  }

  /** No line of a stripped response is a notification. */
  lemma {:induction false} StrippedHasNoUrc(raw: string)
    ensures forall i :: 0 <= i < |Lines(Stripped(raw))| ==> !IsUrc(Lines(Stripped(raw))[i])
  {
    var lines := Lines(Stripped(raw));
    StripConserves(raw);
    NoUrcInFiltered(Content(Lines(raw)));
    forall i | 0 <= i < |lines| ensures !IsUrc(lines[i]) {
      if IsUrc(lines[i]) {
        ContentCovers(lines, i);
        TrimIsTrimmed(lines[i]);
        assert IsUrc(Trim(lines[i]));
      }
    }
  }

  // ----- Whole runs -----

  datatype Event = Response(raw: string) | Drained

  /** All notifications of the responses since the last drain in `run`. */
  function Pending(run: seq<Event>): seq<string> {
    if run == [] then []
    else match run[|run| - 1]
      case Drained => []
      case Response(raw) => Pending(run[..|run| - 1]) + Urcs(Lines(raw))
  }

  /** What the drains of a run must deliver: each the newest 128 notifications pending. */
  function Delivered(run: seq<Event>): seq<seq<string>> {
    if run == [] then []
    else match run[|run| - 1]
      case Drained => Delivered(run[..|run| - 1]) + [LastN(Pending(run[..|run| - 1]), CAPACITY)]
      case Response(_) => Delivered(run[..|run| - 1])
  }

  lemma {:induction false} RunNext(run: seq<Event>, i: nat)
    requires i < |run|
    ensures match run[i]
      case Drained =>
        && Pending(run[..i + 1]) == []
        && Delivered(run[..i + 1]) == Delivered(run[..i]) + [LastN(Pending(run[..i]), CAPACITY)]
      case Response(raw) =>
        Pending(run[..i + 1]) == Pending(run[..i]) + Urcs(Lines(raw)) && Delivered(run[..i + 1]) == Delivered(run[..i])
  {
    assert run[..i + 1][..i] == run[..i];
  }

  /** Driving a queue through any run: every drain delivers, in order, the newest 128 notifications
      of the responses since the previous drain. */
  method Drive(run: seq<Event>) returns (drains: seq<seq<string>>)
    ensures drains == Delivered(run)
  {
    var q := new Queue();
    drains := [];
    for i := 0 to |run|
      invariant q.Valid() && fresh(q) && q.seen == Pending(run[..i])
      invariant drains == Delivered(run[..i])
    {
      RunNext(run, i);
      hide LastN, Pending, Delivered;
      match run[i] {
        case Response(raw) =>
          var _ := q.StoreAndStrip(raw);
        case Drained =>
          var out := q.Drain();
          drains := drains + [out];
      }
    }
    assert run[..|run|] == run;
  }
}
