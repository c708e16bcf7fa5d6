/** Whether an inbox is listed right however the port cuts the answer: a condition on the stored messages
    alone. */
module SmsCuts {
  import opened SerialRead
  import opened SmsInbox
  import opened SmsListing
  import opened Text
  import UrcQueue

  // ----- Lines of a prefix -----

  predicate OneLineEach(lines: seq<string>) {
    forall i :: 0 <= i < |lines| ==> Lacks(lines[i], '\r') && Lacks(lines[i], '\n')
  }

  lemma {:induction false} CrLfAppend(a: seq<string>, b: seq<string>)
    ensures CrLf(a + b) == CrLf(a) + CrLf(b)
  {
    if a == [] {
      assert a + b == b;
    } else {
      CrLfAppend(a[1..], b);
      assert (a + b)[1..] == a[1..] + b;
    }
  }

  lemma {:induction false} LineThen(l: string, rest: string)
    requires Lacks(l, '\r') && Lacks(l, '\n')
    ensures UrcQueue.Lines(l + "\r\n" + rest) == [l] + UrcQueue.Lines(rest)
  {
    hide Split, Without;
    CrLfEnd(l, rest);
    SplitField(l, Without(rest, '\r'), '\n');
  }

  lemma {:induction false} CrLfFirst(lines: seq<string>, t: string)
    requires lines != []
    ensures CrLf(lines) + t == lines[0] + "\r\n" + (CrLf(lines[1..]) + t)
  {
  }

  /** Whole lines in front of a text stay whole. */
  lemma {:induction false} LinesAfter(lines: seq<string>, t: string)
    requires OneLineEach(lines)
    ensures UrcQueue.Lines(CrLf(lines) + t) == lines + UrcQueue.Lines(t)
  {
    if lines == [] {
      assert CrLf(lines) + t == t;
    } else {
      CrLfFirst(lines, t);
      LineThen(lines[0], CrLf(lines[1..]) + t);
      LinesAfter(lines[1..], t);
      hide CrLf, UrcQueue.Lines;
      assert lines == [lines[0]] + lines[1..];
    }
  }

  /** Without the end of its last line a text has no more lines. */
  lemma {:induction false} LinesCut(lines: seq<string>, t: string)
    requires OneLineEach(lines) && t < CrLf(lines)
    ensures |UrcQueue.Lines(t)| <= |lines|
  {
    var l, after := lines[0], CrLf(lines[1..]);
    assert CrLf(lines) == l + "\r\n" + after;
    hide CrLf, Split, Without;
    if |t| < |l| + 2 {
      var part := CutHead(l, after, t);
    } else {
      var rest := CutBehind(l, after, t);
      assert OneLineEach(lines[1..]) && |rest| < |after|;
      LinesCut(lines[1..], rest);
      CrLfEnd(l, rest);
      SplitField(l, Without(rest, '\r'), '\n');
    }
  }

  lemma {:induction false} OneLine(part: string)
    requires Lacks(part, '\r') && Lacks(part, '\n')
    ensures UrcQueue.Lines(part) == [part] && UrcQueue.Lines(part + "\r") == [part]
  {
    hide Split, Without;
    CutFirst(part, part);
    CutFirst(part, part + "\r");
  }

  // ----- The last message in the answer -----

  /** The text before the header of the last message. */
  function Before(ms: seq<Listed>): string
    requires ms != []
  { CrLf([""] + MessageLines(ms[..|ms| - 1])) }

  function Last(ms: seq<Listed>): Listed
    requires ms != []
  { ms[|ms| - 1] }

  const ENDING := "\r\n\r\nOK\r\n"

  lemma {:induction false} ResponseParts(ms: seq<Listed>)
    requires ms != []
    ensures Response(ms) == Before(ms) + (HeaderLine(Last(ms)) + ("\r\n" + (Last(ms).body + ENDING)))
  {
    var front, m := ms[..|ms| - 1], Last(ms);
    assert ms == front + [m];
    MessageLinesAppend(front, [m]);
    ResponseIsLines(ms);
    hide HeaderLine, Response;
    assert [m][1..] == [];
    assert MessageLines([m]) == [HeaderLine(m), m.body] + [];
    var tail := [HeaderLine(m), m.body, "", "OK"];
    assert [""] + ListingLines(ms) == ([""] + MessageLines(front)) + tail;
    CrLfAppend([""] + MessageLines(front), tail);
    FourLines(HeaderLine(m), m.body);
  }

  lemma {:induction false} FourLines(h: string, b: string)
    ensures CrLf([h, b, "", "OK"]) == h + ("\r\n" + (b + ENDING))
  {
    assert [h, b, "", "OK"][1..] == [b, "", "OK"] && [b, "", "OK"][1..] == ["", "OK"];
    assert ["", "OK"][1..] == ["OK"] && ["OK"][1..] == [];
    assert CrLf(["OK"]) == "OK" + "\r\n" + "";
    assert CrLf(["", "OK"]) == "" + "\r\n" + ("OK" + "\r\n" + "");
    assert "\r\n" + CrLf(["", "OK"]) == ENDING;
    assert CrLf([b, "", "OK"]) == b + "\r\n" + CrLf(["", "OK"]);
  }

  lemma {:induction false} FrontLines(ms: seq<Listed>)
    requires ms != []
    ensures OneLineEach([""] + MessageLines(ms[..|ms| - 1])) && |[""] + MessageLines(ms[..|ms| - 1])| == 2 * |ms| - 1
  {
    var front := ms[..|ms| - 1];
    ListingIsOneLineEach(front);
    MessageLineAt(front, 0);
    hide HeaderLine;
    var lines := [""] + MessageLines(front);
    forall i | 0 <= i < |lines| ensures Lacks(lines[i], '\r') && Lacks(lines[i], '\n') {
      if i > 0 { assert lines[i] == ListingLines(front)[i - 1]; }
    }
  }

  /** A prefix that ends before the last header. */
  lemma {:induction false} EndsBefore(ms: seq<Listed>, raw: string)
    requires ms != [] && raw < Before(ms)
    ensures !Arrived(ms, UrcQueue.Lines(raw))
  {
    FrontLines(ms);
    LinesCut([""] + MessageLines(ms[..|ms| - 1]), raw);
    hide UrcQueue.Lines, MessageLines, ReadsAs;
  }

  /** What follows the messages before the last makes the lines from there on. */
  lemma {:induction false} ArrivedIn(ms: seq<Listed>, t: string)
    requires ms != []
    ensures var l, m := UrcQueue.Lines(t), Last(ms);
      Arrived(ms, UrcQueue.Lines(Before(ms) + t)) <==>
        if m.body != "" then |l| > 1 && l[1] == m.body else ReadsAs(l[0], m)
  {
    FrontLines(ms);
    var front := [""] + MessageLines(ms[..|ms| - 1]);
    LinesAfter(front, t);
    hide UrcQueue.Lines, MessageLines, ReadsAs, CrLf;
    var l := UrcQueue.Lines(t);
    assert (front + l)[2 * |ms| - 1] == l[0];
    assert |l| > 1 ==> (front + l)[2 * |ms|] == l[1];
  }

  /** A prefix that ends in the last header, or right after it. */
  lemma {:induction false} EndsInHeader(ms: seq<Listed>, i: nat)
    requires ms != [] && i <= |HeaderLine(Last(ms))|
    ensures Arrived(ms, UrcQueue.Lines(Before(ms) + HeaderLine(Last(ms))[..i]))
      <==> Last(ms).body == "" && ReadsAs(HeaderLine(Last(ms))[..i], Last(ms))
    ensures Arrived(ms, UrcQueue.Lines(Before(ms) + (HeaderLine(Last(ms)) + "\r"))) <==> Last(ms).body == ""
  {
    var h := HeaderLine(Last(ms));
    HeaderIsOneLine(Last(ms), '\r');
    HeaderIsOneLine(Last(ms), '\n');
    HeaderReadsAs(Last(ms));
    ArrivedIn(ms, h[..i]);
    ArrivedIn(ms, h + "\r");
    OneLine(h);
    OneLine(h[..i]);
    hide UrcQueue.Lines, HeaderLine, Before, Arrived, ReadsAs;
  }

  /** A prefix that ends behind the last header. */
  lemma {:induction false} EndsBehind(ms: seq<Listed>, t: string)
    requires ms != [] && t <= Last(ms).body + ENDING
    ensures Arrived(ms, UrcQueue.Lines(Before(ms) + (HeaderLine(Last(ms)) + ("\r\n" + t))))
      <==> Last(ms).body == "" || |t| >= |Last(ms).body|
  {
    var m := Last(ms);
    var h := HeaderLine(m);
    HeaderIsOneLine(m, '\r');
    HeaderIsOneLine(m, '\n');
    HeaderReadsAs(m);
    assert h + ("\r\n" + t) == h + "\r\n" + t;
    hide UrcQueue.Lines, HeaderLine, Before, Arrived, ReadsAs, CrLf;
    ArrivedIn(ms, h + ("\r\n" + t));
    LineThen(h, t);
    FirstIsBody(m.body, t);
  }

  lemma {:induction false} FirstIsBody(b: string, t: string)
    requires Lacks(b, '\r') && Lacks(b, '\n') && t <= b + ENDING
    ensures UrcQueue.Lines(t)[0] == b <==> |t| >= |b|
  {
    if |t| <= |b| {
      assert t == (b + ENDING)[..|t|] == b[..|t|];
      OneLine(t);
    } else if |t| == |b| + 1 {
      assert t == (b + ENDING)[..|t|] == b + "\r";
      OneLine(b);
    } else {
      var rest := t[|b| + 2..];
      assert t == (b + ENDING)[..|t|] && (b + ENDING)[..|b| + 2] == b + "\r\n";
      assert t == b + "\r\n" + rest;
      LineThen(b, rest);
    }
  }

  // ----- Inboxes that no cut can spoil -----

  /** No stop word stands in the answer before the end of the last body, or, where it is empty, before its
      header reads as it does. */
  predicate Quiet(ms: seq<Listed>) {
    ms == [] ||
    (var m, h := Last(ms), HeaderLine(Last(ms));
     if m.body != "" then !HasStop(Before(ms) + (h + ("\r\n" + m.body[..|m.body| - 1])))
     else forall i :: 0 <= i <= |h| && HasStop(Before(ms) + h[..i]) ==> ReadsAs(h[..i], m))
  }

  lemma {:induction false} StopStays(s: string, t: string)
    requires s <= t && HasStop(s)
    ensures HasStop(t)
  {
    ContainsStays(s, t, "OK");
    ContainsStays(s, t, "ERROR");
    ContainsStays(s, t, "+CMS ERROR:");
    hide Contains;
  }

  lemma {:induction false} ContainsStays(s: string, t: string, word: string)
    requires s <= t
    ensures Contains(s, word) ==> Contains(t, word)
  {
    if i :| 0 <= i <= |s| && word <= s[i..] {
      assert t[i..][..|s| - i] == s[i..];
    }
  }

  /** Every prefix that a stop word can end has the last message. */
  predicate StopsLate(ms: seq<Listed>) {
    forall n :: 0 <= n <= |Response(ms)| && HasStop(Response(ms)[..n]) ==>
      Arrived(ms, UrcQueue.Lines(Response(ms)[..n]))
  }

  /** A prefix of an answer, by the part of the last message in which it ends. */
  lemma {:induction false} PrefixParts(a: string, h: string, t: string, n: nat)
    requires n <= |a + (h + ("\r\n" + t))|
    ensures var whole := (a + (h + ("\r\n" + t)))[..n];
      && (n < |a| ==> whole < a)
      && (|a| <= n <= |a| + |h| ==> whole == a + h[..n - |a|])
      && (n == |a| + |h| + 1 ==> whole == a + (h + "\r"))
      && (n >= |a| + |h| + 2 ==> whole == a + (h + ("\r\n" + t[..n - |a| - |h| - 2])))
  {
    var whole := a + (h + ("\r\n" + t));
    if n < |a| {
      assert whole[..n] == a[..n];
    }
  }

  lemma {:induction false} ArrivedAt(ms: seq<Listed>, n: nat)
    requires ms != [] && n <= |Response(ms)|
    ensures var m, a, h := Last(ms), |Before(ms)|, |HeaderLine(Last(ms))|;
      Arrived(ms, UrcQueue.Lines(Response(ms)[..n])) <==>
        if m.body != "" then n >= a + h + 2 + |m.body|
        else n > a + h || (n >= a && ReadsAs(HeaderLine(m)[..n - a], m))
  {
    var m, u, h := Last(ms), Before(ms), HeaderLine(Last(ms));
    ResponseParts(ms);
    hide Response, Before, HeaderLine, UrcQueue.Lines, Arrived, ReadsAs;
    var t := m.body + ENDING;
    PrefixParts(u, h, t, n);
    if n < |u| {
      EndsBefore(ms, Response(ms)[..n]);
    } else if n <= |u| + |h| {
      EndsInHeader(ms, n - |u|);
    } else if n == |u| + |h| + 1 {
      EndsInHeader(ms, 0);
    } else {
      EndsBehind(ms, t[..n - |u| - |h| - 2]);
    }
  }

  lemma {:induction false} NothingReads(m: Listed)
    ensures !ReadsAs("", m)
  {
    TrimTrimmed("");
  }

  lemma {:induction false} QuietExact(ms: seq<Listed>)
    ensures StopsLate(ms) <==> Quiet(ms)
  {
    if ms != [] {
      if Last(ms).body != "" { QuietBody(ms); } else { QuietHeader(ms); }
    }
  }

  /** The last prefix without all of the last body. */
  lemma {:induction false} AllButOne(ms: seq<Listed>) returns (n: nat)
    requires ms != [] && Last(ms).body != ""
    ensures n == |Before(ms)| + |HeaderLine(Last(ms))| + 2 + |Last(ms).body| - 1 < |Response(ms)|
    ensures Quiet(ms) <==> !HasStop(Response(ms)[..n])
  {
    var m, u, h := Last(ms), Before(ms), HeaderLine(Last(ms));
    ResponseParts(ms);
    n := |u| + |h| + 2 + |m.body| - 1;
    PrefixParts(u, h, m.body + ENDING, n);
    assert (m.body + ENDING)[..|m.body| - 1] == m.body[..|m.body| - 1];
    hide Response, Before, HeaderLine, HasStop;
  }

  lemma {:induction false} QuietBody(ms: seq<Listed>)
    requires ms != [] && Last(ms).body != ""
    ensures StopsLate(ms) <==> Quiet(ms)
  {
    var n := AllButOne(ms);
    hide Quiet, Response, Before, HeaderLine, HasStop, UrcQueue.Lines, Arrived;
    var r := Response(ms);
    ArrivedAt(ms, n);
    forall k | 0 <= k <= |r| && HasStop(r[..k]) && Quiet(ms) ensures Arrived(ms, UrcQueue.Lines(r[..k])) {
      ArrivedAt(ms, k);
      if k <= n {
        assert r[..n][..k] == r[..k];
        StopStays(r[..k], r[..n]);
      }
    }
  }

  lemma {:induction false} QuietHeader(ms: seq<Listed>)
    requires ms != [] && Last(ms).body == ""
    ensures StopsLate(ms) <==> Quiet(ms)
  {
    var r, u, h := Response(ms), Before(ms), HeaderLine(Last(ms));
    if StopsLate(ms) {
      forall i | 0 <= i <= |h| && HasStop(u + h[..i]) ensures ReadsAs(h[..i], Last(ms)) {
        StopInHeader(ms, i);
      }
    }
    if Quiet(ms) {
      forall k | 0 <= k <= |r| && HasStop(r[..k]) ensures Arrived(ms, UrcQueue.Lines(r[..k])) {
        QuietArrives(ms, k);
      }
    }
    hide Response, Before, HeaderLine, HasStop, UrcQueue.Lines, Arrived, ReadsAs;
  }

  lemma {:induction false} StopInHeader(ms: seq<Listed>, i: nat)
    requires ms != [] && Last(ms).body == "" && StopsLate(ms)
    requires i <= |HeaderLine(Last(ms))| && HasStop(Before(ms) + HeaderLine(Last(ms))[..i])
    ensures ReadsAs(HeaderLine(Last(ms))[..i], Last(ms))
  {
    var m, u, h := Last(ms), Before(ms), HeaderLine(Last(ms));
    ResponseParts(ms);
    hide Response, Before, HeaderLine, HasStop, UrcQueue.Lines, Arrived, ReadsAs;
    PrefixParts(u, h, m.body + ENDING, |u| + i);
    ArrivedAt(ms, |u| + i);
    assert HasStop(Response(ms)[..|u| + i]);
    EndsInHeader(ms, i);
  }

  lemma {:induction false} QuietArrives(ms: seq<Listed>, k: nat)
    requires ms != [] && Last(ms).body == "" && Quiet(ms) && k <= |Response(ms)| && HasStop(Response(ms)[..k])
    ensures Arrived(ms, UrcQueue.Lines(Response(ms)[..k]))
  {
    var m, u, h := Last(ms), Before(ms), HeaderLine(Last(ms));
    ResponseParts(ms);
    NothingReads(m);
    hide Response, Before, HeaderLine, HasStop, UrcQueue.Lines, Arrived, ReadsAs;
    PrefixParts(u, h, m.body + ENDING, k);
    ArrivedAt(ms, k);
    if k < |u| {
      assert h[..0] == "" && u + h[..0] == u;
      StopStays(Response(ms)[..k], u + h[..0]);
    }
  }

  // ----- The theorem -----

  predicate NoFailure(port: seq<Read>) { forall i :: 0 <= i < |port| ==> !port[i].failed }

  lemma {:induction false} OneRead(text: string)
    requires text != ""
    ensures Texts([Read(text, false)]) == text && Got([Read(text, false)]) == text
  {
    var port := [Read(text, false)];
    assert port[..0] == [] && port[..1] == port;
    TextsNext(port, 0);
    assert "" + text == text;
    EndsAfter(port, 1);
    hide Ends, HasStop;
    assert IsTaken(port, 1);
    TakenOnce(port, 1, Taken(port));
  }

  /** A cut right behind a stop word, and what is read then. */
  lemma {:induction false} TwoReads(first: string, second: string)
    requires HasStop(first)
    ensures var port := [Read(first, false), Read(second, false)]; Texts(port) == first + second && Got(port) == first
  {
    NoStopInNone();
    var port := [Read(first, false), Read(second, false)];
    assert port[..0] == [] && port[..2] == port;
    TextsNext(port, 0);
    TextsNext(port, 1);
    assert "" + first == first;
    EndsAfter(port, 1);
    hide Ends, HasStop, Texts;
    assert IsTaken(port, 1);
    TakenOnce(port, 1, Taken(port));
  }

  /** An inbox is listed right however a port that does not fail cuts the answer, exactly if no body looks
      like a notification or a modem error and no stop word stands in it too early. */
  lemma {:induction false} EveryCut(ms: seq<Listed>)
    ensures (forall port :: Texts(port) == Response(ms) && NoFailure(port) ==> ListingOf(port) == Shown(ms))
      <==> AllPlain(ms) && Quiet(ms)
  {
    QuietExact(ms);
    var r := Response(ms);
    ResponseNotEmpty(ms);
    hide Response, Quiet, AllPlain, Arrived, UrcQueue.Lines, InboxOf, HasStop, Texts, Got;
    if AllPlain(ms) && StopsLate(ms) {
      forall port | Texts(port) == r && NoFailure(port) ensures ListingOf(port) == Shown(ms) {
        RightCut(ms, port);
      }
    }
    if forall port :: Texts(port) == r && NoFailure(port) ==> ListingOf(port) == Shown(ms) {
      OneRead(r);
      ListedAndConsumed(ms, [Read(r, false)]);
      assert ListingOf([Read(r, false)]) == Shown(ms);
      forall n | 0 <= n <= |r| && HasStop(r[..n]) ensures Arrived(ms, UrcQueue.Lines(r[..n])) {
        var port := [Read(r[..n], false), Read(r[n..], false)];
        TwoReads(r[..n], r[n..]);
        assert r[..n] + r[n..] == r;
        ListedAndConsumed(ms, port);
      }
    }
  }

  lemma {:induction false} RightCut(ms: seq<Listed>, port: seq<Read>)
    requires Texts(port) == Response(ms) && NoFailure(port) && AllPlain(ms) && StopsLate(ms)
    ensures ListingOf(port) == Shown(ms)
  {
    ResponseNotEmpty(ms);
    ListedAndConsumed(ms, port);
    ReadToTheEnd(port);
    NoStopInNone();
    hide Response, AllPlain, Arrived, UrcQueue.Lines, InboxOf, HasStop, Texts, Got;
    if Got(port) != Response(ms) {
      var n := |Got(port)|;
      assert Response(ms)[..n] == Got(port);
      assert HasStop(Got(port));
    }
  }
}
