/** Multipart segmentation of an SMS body, and the segment count the web page predicts. */
module SmsSegments {
  import opened Utf16

  /** UTF-16 code units that fit into one concatenated segment. */
  const SEGMENT_UNITS := 67

  function Flatten(parts: seq<string>): string {
    if parts == [] then "" else parts[0] + Flatten(parts[1..])
  }

  /** `parts` cut `body` into nonempty pieces of at most `max` units each. A piece is text, so
      a surrogate pair is never cut. One character wider than `max` stands alone. */
  ghost predicate IsSplit(parts: seq<string>, body: string, max: nat) {
    && Flatten(parts) == body
    && forall i :: 0 <= i < |parts| ==> parts[i] != "" && (Units(parts[i]) <= max || |parts[i]| == 1)
  }

  /** No piece could have taken the first character of the next one as well. */
  ghost predicate IsGreedy(parts: seq<string>, max: nat) {
    forall i, j :: 0 <= i < |parts| && 0 <= j < |parts| && j == i + 1 ==>
      parts[j] != "" && Units(parts[i]) + UnitLen(parts[j][0]) > max
  }

  lemma {:induction false} FlattenAppend(p: seq<string>, q: seq<string>)
    ensures Flatten(p + q) == Flatten(p) + Flatten(q)
  {
    if p == [] {
      assert p + q == q;
    } else {
      assert (p + q)[1..] == p[1..] + q;
      FlattenAppend(p[1..], q);
    }
  }

  lemma {:induction false} FlattenSnoc(p: seq<string>, piece: string)
    ensures Flatten(p + [piece]) == Flatten(p) + piece
  {
    FlattenAppend(p, [piece]);
    assert Flatten([piece]) == piece + Flatten([]);
  }

  /** A piece of admissible width that the previous one could not have started on. */
  ghost predicate Closable(out: seq<string>, part: string, max: nat) {
    && part != "" && (Units(part) <= max || |part| == 1)
    && (out != [] ==> Units(out[|out| - 1]) + UnitLen(part[0]) > max)
  }

  lemma {:induction false} ClosePiece(out: seq<string>, part: string, max: nat)
    requires IsSplit(out, Flatten(out), max) && IsGreedy(out, max) && Closable(out, part, max)
    ensures Flatten(out + [part]) == Flatten(out) + part
    ensures IsSplit(out + [part], Flatten(out + [part]), max) && IsGreedy(out + [part], max)
  {
    FlattenSnoc(out, part);
  }

  /** Pieces that are closed, and the open one behind them. */
  ghost predicate IsPartial(out: seq<string>, part: string, max: nat) {
    && IsSplit(out, Flatten(out), max) && IsGreedy(out, max)
    && (if part == "" then out == [] else Closable(out, part, max))
  }

  lemma {:induction false} OneUnit(c: char)
    ensures Units([c]) == UnitLen(c) && Units("") == 0
  {
    assert [c][1..] == [];
  }

  /** The open piece takes the next character. */
  lemma {:induction false} TakesNext(out: seq<string>, part: string, c: char, max: nat)
    requires IsPartial(out, part, max) && (part == "" || Units(part) + UnitLen(c) <= max)
    ensures IsPartial(out, part + [c], max) && Units(part + [c]) == Units(part) + UnitLen(c)
    ensures Flatten(out) + (part + [c]) == Flatten(out) + part + [c]
  {
    UnitsAppend(part, [c]);
    OneUnit(c);
  }

  /** It is closed, and the next character opens another. */
  lemma {:induction false} OpensNext(out: seq<string>, part: string, c: char, max: nat)
    requires IsPartial(out, part, max) && part != "" && Units(part) + UnitLen(c) > max
    ensures IsPartial(out + [part], [c], max) && Units([c]) == UnitLen(c)
    ensures Flatten(out + [part]) + [c] == Flatten(out) + part + [c]
  {
    ClosePiece(out, part, max);
    OneUnit(c);
    hide IsSplit, IsGreedy, Units;
  }

  /** Where the loop is: `taken` is cut into closed pieces and the open one, of `units` code units. */
  ghost predicate IsCut(out: seq<string>, part: string, units: nat, taken: string, max: nat) {
    IsPartial(out, part, max) && units == Units(part) && Flatten(out) + part == taken
  }

  lemma {:induction false} CutNext(out: seq<string>, part: string, units: nat, s: string, k: nat, max: nat)
    requires k < |s| && IsCut(out, part, units, s[..k], max)
    ensures if units + UnitLen(s[k]) > max && part != ""
      then IsCut(out + [part], [s[k]], UnitLen(s[k]), s[..k + 1], max)
      else IsCut(out, part + [s[k]], units + UnitLen(s[k]), s[..k + 1], max)
  {
    assert s[..k + 1] == s[..k] + [s[k]];
    hide IsPartial, Units, Flatten;
    if units + UnitLen(s[k]) > max && part != "" {
      OpensNext(out, part, s[k], max);
    } else {
      TakesNext(out, part, s[k], max);
    }
  }

  lemma {:induction false} CutDone(out: seq<string>, part: string, units: nat, s: string, max: nat)
    requires IsCut(out, part, units, s[..|s|], max)
    ensures var all := if part == "" then out else out + [part]; IsSplit(all, s, max) && IsGreedy(all, max)
  {
    assert s[..|s|] == s;
    if part != "" { ClosePiece(out, part, max); }
  }

  /** `splitUCS2Units`: close the current piece when the next character would overflow it. */
  method SplitUCS2Units(s: string, max: int) returns (out: seq<string>)
    ensures max <= 0 ==> out == []
    ensures max > 0 ==> IsSplit(out, s, max) && IsGreedy(out, max)
  {
    if max <= 0 {
      return [];
    }
    out := [];
    var part: string, units: nat := "", 0;
    NothingSplit(max);
    for k := 0 to |s|
      invariant IsCut(out, part, units, s[..k], max)
    {
      hide *;
      var n := UnitLen(s[k]);
      CutNext(out, part, units, s, k, max);
      if units + n > max && |part| > 0 {
        out := out + [part];
        part, units := "", 0;
        assert part + [s[k]] == [s[k]];
      }
      part := part + [s[k]];
      units := units + n;
    }
    CutDone(out, part, units, s, max);
    if |part| > 0 {
      out := out + [part];
    }
  }

  lemma {:induction false} NothingSplit(max: nat)
    ensures IsSplit([], "", max) && IsGreedy([], max) && Flatten([]) == "" && Units("") == 0
  {
  }

  /** With room for a surrogate pair, every piece really fits. */
  lemma {:induction false} PieceFits(parts: seq<string>, body: string, max: nat, i: nat)
    requires IsSplit(parts, body, max) && max >= 2 && i < |parts|
    ensures 0 < Units(parts[i]) <= max
  {
    UnitsBounds(parts[i]);
  }

  // ----- Optimality -----

  lemma {:induction false} UnitsMonotone(whole: string, piece: string, i: nat)
    requires i + |piece| <= |whole| && whole[i..i + |piece|] == piece
    ensures Units(piece) <= Units(whole)
  {
    var before, after := whole[..i], whole[i + |piece|..];
    assert whole == before + (piece + after);
    UnitsAppend(before, piece + after);
    UnitsAppend(piece, after);
  }

  /** Greedy pieces stay ahead: another split that still has `lead` to spend before the greedy
      text begins needs at least as many pieces. */
  lemma {:induction false} GreedyStaysAhead(greedy: seq<string>, other: seq<string>, lead: string, max: nat)
    requires IsSplit(greedy, Flatten(greedy), max) && IsGreedy(greedy, max)
    requires Flatten(other) == lead + Flatten(greedy)
    requires forall i :: 0 <= i < |other| ==> Units(other[i]) <= max
    ensures |greedy| <= |other|
    decreases |greedy| + |other|
  {
    if greedy != [] {
      var g, q := greedy[0], other[0];
      var text := Flatten(greedy);
      assert Flatten(other) == q + Flatten(other[1..]);
      assert text == g + Flatten(greedy[1..]);
      if |q| <= |lead| {
        assert Flatten(other[1..]) == lead[|q|..] + text by {
          assert (lead + text)[|q|..] == lead[|q|..] + text;
          assert (q + Flatten(other[1..]))[|q|..] == Flatten(other[1..]);
        }
        GreedyStaysAhead(greedy, other[1..], lead[|q|..], max);
      } else {
        var taken := |q| - |lead|;
        if taken > |g| {
          PieceTooLong(greedy, lead, q, Flatten(other[1..]), max);
        }
        assert Flatten(other[1..]) == g[taken..] + Flatten(greedy[1..]) by {
          assert (lead + text)[|q|..] == text[taken..];
          assert (q + Flatten(other[1..]))[|q|..] == Flatten(other[1..]);
        }
        GreedyStaysAhead(greedy[1..], other[1..], g[taken..], max);
      }
    }
  }

  /** A piece that swallows a whole greedy piece and one character more overflows. */
  lemma {:induction false} PieceTooLong(greedy: seq<string>, lead: string, q: string, rest: string, max: nat)
    requires greedy != [] && IsGreedy(greedy, max)
    requires lead + Flatten(greedy) == q + rest
    requires |q| > |lead| + |greedy[0]|
    ensures Units(q) > max
  {
    var g, tail := greedy[0], Flatten(greedy[1..]);
    assert Flatten(greedy) == g + tail;
    assert |tail| > 0;
    var next := greedy[1];
    assert tail[0] == next[0] by { assert greedy[1..][0] == next; }
    UnitsAppend(g, [next[0]]);
    assert Units(g + [next[0]]) > max;
    SwallowsMore(lead, g, tail, q, rest);
  }

  lemma {:induction false} SwallowsMore(lead: string, g: string, tail: string, q: string, rest: string)
    requires lead + (g + tail) == q + rest
    requires |q| > |lead| + |g| && |tail| > 0
    ensures Units(g + [tail[0]]) <= Units(q)
  {
    var swallowed := g + [tail[0]];
    assert q[|lead|..|lead| + |swallowed|] == swallowed by {
      forall i | 0 <= i < |swallowed| ensures q[|lead| + i] == swallowed[i] {
        assert (q + rest)[|lead| + i] == (lead + (g + tail))[|lead| + i];
      }
    }
    UnitsMonotone(q, swallowed, |lead|);
  }

  /** The greedy split is optimal among all splits into pieces that fit, empty pieces included. */
  lemma {:induction false} GreedyIsOptimal(greedy: seq<string>, other: seq<string>, body: string, max: nat)
    requires IsSplit(greedy, body, max) && IsGreedy(greedy, max)
    requires Flatten(other) == body && forall i :: 0 <= i < |other| ==> Units(other[i]) <= max
    ensures |greedy| <= |other|
  {
    assert "" + Flatten(greedy) == Flatten(other);
    GreedyStaysAhead(greedy, other, "", max);
  }

  // ----- The number of segments -----

  /** Pieces before the last that a supplementary character closed one unit early. */
  function EarlyClosed(parts: seq<string>, max: nat): nat {
    if |parts| <= 1 then 0
    else (if Units(parts[0]) < max then 1 else 0) + EarlyClosed(parts[1..], max)
  }

  function HasSupplementary(s: string): bool { exists i :: 0 <= i < |s| && IsSupplementary(s[i]) }

  /** Exact accounting: every piece but the last is full, or one unit short. */
  lemma {:induction false} UnitAccounting(parts: seq<string>, body: string, max: nat)
    requires IsSplit(parts, body, max) && IsGreedy(parts, max) && max >= 2 && parts != []
    ensures Units(body) == max * (|parts| - 1) - EarlyClosed(parts, max) + Units(parts[|parts| - 1])
    ensures EarlyClosed(parts, max) < |parts|
    ensures !HasSupplementary(body) ==> EarlyClosed(parts, max) == 0
  {
    PieceFits(parts, body, max, 0);
    if |parts| == 1 {
      assert parts[1..] == [];
      assert Flatten(parts) == parts[0];
    } else {
      var rest := Flatten(parts[1..]);
      assert body == parts[0] + rest;
      UnitsAppend(parts[0], rest);
      UnitAccounting(parts[1..], rest, max);
      assert parts[1..][0] == parts[1] && parts[1..][|parts| - 2] == parts[|parts| - 1];
      assert rest == parts[1] + Flatten(parts[2..]) by { assert parts[1..][1..] == parts[2..]; }
      assert body[|parts[0]|] == parts[1][0];
      assert HasSupplementary(rest) ==> HasSupplementary(body) by {
        if i :| 0 <= i < |rest| && IsSupplementary(rest[i]) {
          assert body[|parts[0]| + i] == rest[i];
        }
      }
      assert max * (|parts| - 1) == max * (|parts| - 2) + max;
    }
  }

  function CeilDiv(a: nat, b: nat): nat
    requires b > 0
  { (a + b - 1) / b }

  lemma {:induction false} CeilDivBounds(a: nat, b: nat)
    requires b > 0
    ensures a <= b * CeilDiv(a, b) < a + b
  {
  }

  /** The count lies between the totals for full and for one-short segments; and it is the
      full-segment total exactly when the last piece is wider than the units lost before it. */
  lemma {:induction false} SegmentCount(parts: seq<string>, body: string)
    requires IsSplit(parts, body, SEGMENT_UNITS) && IsGreedy(parts, SEGMENT_UNITS)
    ensures CeilDiv(Units(body), SEGMENT_UNITS) <= |parts| <= CeilDiv(Units(body), SEGMENT_UNITS - 1)
    ensures body != "" ==> parts != []
    ensures body != "" ==>
      (|parts| == CeilDiv(Units(body), SEGMENT_UNITS)
       <==> EarlyClosed(parts, SEGMENT_UNITS) < Units(parts[|parts| - 1]))
    ensures !HasSupplementary(body) ==> |parts| == CeilDiv(Units(body), SEGMENT_UNITS)
  {
    if parts != [] {
      var n, U := |parts|, Units(body);
      UnitAccounting(parts, body, SEGMENT_UNITS);
      PieceFits(parts, body, SEGMENT_UNITS, n - 1);
      CeilDivBounds(U, SEGMENT_UNITS);
      CeilDivBounds(U, SEGMENT_UNITS - 1);
    }
  }

  // ----- The number of segments, read off the text -----

  predicate IsTrail(u: CodeUnit) { 0xDC00 <= u < 0xE000 }

  /** Boundaries that fall inside a surrogate pair when code units are counted off in sixty-sevens, one
      fewer after each of those. */
  function BrokenPairs(u: seq<CodeUnit>): nat
    decreases |u|
  {
    if |u| <= SEGMENT_UNITS then 0
    else if IsTrail(u[SEGMENT_UNITS]) then 1 + BrokenPairs(u[SEGMENT_UNITS - 1..])
    else BrokenPairs(u[SEGMENT_UNITS..])
  }

  lemma {:induction false} EncodeAppend(s: string, t: string)
    ensures Encode(s + t) == Encode(s) + Encode(t)
  {
    if s == [] {
      assert s + t == t;
    } else {
      assert (s + t)[1..] == s[1..] + t;
      EncodeAppend(s[1..], t);
    }
  }

  lemma {:induction false} FirstUnits(s: string)
    requires s != ""
    ensures |Encode(s)| >= UnitLen(s[0]) && !IsTrail(Encode(s)[0])
    ensures IsSupplementary(s[0]) ==> IsTrail(Encode(s)[1])
  {
  }

  /** The boundary after a piece that was closed. */
  lemma {:induction false} BoundaryAfter(piece: string, rest: string)
    requires Units(piece) <= SEGMENT_UNITS && rest != "" && Units(piece) + UnitLen(rest[0]) > SEGMENT_UNITS
    ensures BrokenPairs(Encode(piece + rest)) ==
      (if Units(piece) < SEGMENT_UNITS then 1 else 0) + BrokenPairs(Encode(rest))
  {
    EncodeAppend(piece, rest);
    EncodeLength(piece);
    FirstUnits(rest);
    var a, b := Encode(piece), Encode(rest);
    hide Encode, Units;
    assert (a + b)[|a|..] == b;
  }

  /** The pieces closed early are as many as there are such boundaries. */
  lemma {:induction false} EarlyClosedExact(parts: seq<string>, body: string)
    requires IsSplit(parts, body, SEGMENT_UNITS) && IsGreedy(parts, SEGMENT_UNITS) && parts != []
    ensures EarlyClosed(parts, SEGMENT_UNITS) == BrokenPairs(Encode(body))
  {
    PieceFits(parts, body, SEGMENT_UNITS, 0);
    if |parts| == 1 {
      assert parts[1..] == [] && Flatten(parts) == parts[0];
      EncodeLength(body);
    } else {
      var rest := Flatten(parts[1..]);
      assert rest == parts[1] + Flatten(parts[2..]) by { assert parts[1..][1..] == parts[2..]; }
      assert parts[1..][0] == parts[1];
      hide Encode, Units, BrokenPairs;
      BoundaryAfter(parts[0], rest);
      EarlyClosedExact(parts[1..], rest);
    }
  }

  /** So the count is a closed form of the text: the one for full segments, with a unit added for every
      such boundary. */
  lemma {:induction false} CountFromText(parts: seq<string>, body: string)
    requires IsSplit(parts, body, SEGMENT_UNITS) && IsGreedy(parts, SEGMENT_UNITS)
    ensures |parts| == CeilDiv(Units(body) + BrokenPairs(Encode(body)), SEGMENT_UNITS)
  {
    if parts != [] {
      EarlyClosedExact(parts, body);
      UnitAccounting(parts, body, SEGMENT_UNITS);
      PieceFits(parts, body, SEGMENT_UNITS, |parts| - 1);
      hide Units, Encode, BrokenPairs, IsSplit, IsGreedy;
      CeilDivBounds(Units(body) + BrokenPairs(Encode(body)), SEGMENT_UNITS);
    }
  }

  // ----- The page's prediction -----

  datatype Encoding = Gsm7 | Ucs2Text

  /** `smsEncoding`: GSM text only for printable ASCII. */
  function SmsEncoding(body: string): Encoding {
    if exists i :: 0 <= i < |body| && !(0x20 <= body[i] as int <= 0x7E) then Ucs2Text else Gsm7
  }

  /** The loop of `smsEncoding`. */
  method DetectEncoding(body: string) returns (encoding: Encoding)
    ensures encoding == Gsm7 <==> forall c :: c in body ==> ' ' <= c <= '~'
    ensures encoding == SmsEncoding(body)
  {
    for i := 0 to |body|
      invariant forall j :: 0 <= j < i ==> ' ' <= body[j] <= '~'
    {
      if body[i] < ' ' || body[i] > '~' {
        assert body[i] in body;
        return Ucs2Text;
      }
    }
    encoding := Gsm7;
  }

  lemma {:induction false} PrintableExact(body: string)
    ensures SmsEncoding(body) == Gsm7 <==> forall c :: c in body ==> ' ' <= c <= '~'
  {
    assert forall i :: 0 <= i < |body| ==> body[i] in body;
    if c :| c in body && !(' ' <= c <= '~') {
      var i :| 0 <= i < |body| && body[i] == c;
      assert !(0x20 <= body[i] as int <= 0x7E);
    }
  }

  /** What one message holds: 160 characters of printable ASCII, or 70 code units. */
  lemma {:induction false} OneMessageExact(body: string)
    ensures NeedsMultipart(body) <==>
      if forall c :: c in body ==> ' ' <= c <= '~' then |body| > 160 else Units(body) > 70
  {
    PrintableExact(body);
  }

  predicate NeedsMultipart(body: string) {
    || (SmsEncoding(body) == Gsm7 && |body| > 160)
    || (SmsEncoding(body) == Ucs2Text && Units(body) > 70)
  }

  /** The closed form in `sms.js`. */
  function EstimatedSegments(body: string): nat {
    if SmsEncoding(body) == Gsm7 && |body| <= 160 then 1
    else if SmsEncoding(body) == Ucs2Text && Units(body) <= 70 then 1
    else CeilDiv(Units(body), SEGMENT_UNITS)
  }

  /** The prediction never exceeds the split that is sent, and equals it exactly when the last
      piece is wider than the units lost before it; always so without supplementary characters. */
  lemma {:induction false} EstimateIsLowerBound(parts: seq<string>, body: string)
    requires NeedsMultipart(body)
    requires IsSplit(parts, body, SEGMENT_UNITS) && IsGreedy(parts, SEGMENT_UNITS)
    ensures EstimatedSegments(body) <= |parts|
    ensures parts != []
    ensures EstimatedSegments(body) == |parts|
      <==> EarlyClosed(parts, SEGMENT_UNITS) < Units(parts[|parts| - 1])
    ensures !HasSupplementary(body) ==> EstimatedSegments(body) == |parts|
  {
    UnitsBounds(body);
    SegmentCount(parts, body);
  }

  /** The page could tell from the body alone: its count is the real one exactly if those boundaries need no
      further segment. */
  lemma {:induction false} EstimateExact(parts: seq<string>, body: string)
    requires NeedsMultipart(body)
    requires IsSplit(parts, body, SEGMENT_UNITS) && IsGreedy(parts, SEGMENT_UNITS)
    ensures EstimatedSegments(body) == |parts| <==>
      CeilDiv(Units(body) + BrokenPairs(Encode(body)), SEGMENT_UNITS) == CeilDiv(Units(body), SEGMENT_UNITS)
  {
    CountFromText(parts, body);
    UnitsBounds(body);
    hide Units, Encode, BrokenPairs, IsSplit, IsGreedy, CeilDiv;
  }

  /** A multipart body always yields at least two segments, and at most 31 within the
      service's limit of 1000 characters. */
  lemma {:induction false} MultipartCount(parts: seq<string>, body: string)
    requires NeedsMultipart(body) && |body| <= 1000
    requires IsSplit(parts, body, SEGMENT_UNITS) && IsGreedy(parts, SEGMENT_UNITS)
    ensures 2 <= |parts| <= 31
  {
    UnitsBounds(body);
    SegmentCount(parts, body);
    CeilDivBounds(Units(body), SEGMENT_UNITS);
    CeilDivBounds(Units(body), SEGMENT_UNITS - 1);
  }

  function Repeat(c: char, n: nat): string { seq(n, _ => c) }

  lemma {:induction false} UnitsOfRepeat(c: char, n: nat)
    ensures Units(Repeat(c, n)) == n * UnitLen(c)
  {
    if n > 0 {
      assert Repeat(c, n)[1..] == Repeat(c, n - 1);
      UnitsOfRepeat(c, n - 1);
    }
  }

  /** Sixty-seven emoji are 134 units: the page predicts 2 segments, every split needs 3. */
  lemma {:induction false} EstimateCanFallShort(parts: seq<string>)
    requires IsSplit(parts, Repeat('\U{1F600}', 67), SEGMENT_UNITS) && IsGreedy(parts, SEGMENT_UNITS)
    ensures EstimatedSegments(Repeat('\U{1F600}', 67)) == 2 && |parts| == 3
  {
    var c := '\U{1F600}';
    var body := Repeat(c, 67);
    UnitsOfRepeat(c, 67);
    assert SmsEncoding(body) == Ucs2Text by { assert !(0x20 <= body[0] as int <= 0x7E); }
    CeilDivBounds(134, SEGMENT_UNITS);
    CeilDivBounds(134, SEGMENT_UNITS - 1);
    SegmentCount(parts, body);
    hide SmsEncoding, Units, IsGreedy, Flatten, Repeat;
    if |parts| == 2 {
      FlattenTwo(parts);
      OddUnitsLeft(parts[0], parts[1]);
    }
  }

  lemma {:induction false} FlattenTwo(parts: seq<string>)
    requires |parts| == 2
    ensures Flatten(parts) == parts[0] + parts[1]
  {
    assert parts == [parts[0]] + [parts[1]];
    FlattenSnoc([parts[0]], parts[1]);
    FlattenSnoc([], parts[0]);
  }

  /** 67 emoji do not fall into two pieces of at most 67 units: each piece is even. */
  lemma {:induction false} OddUnitsLeft(a: string, b: string)
    requires a + b == Repeat('\U{1F600}', 67)
    ensures Units(a) > 67 || Units(b) > 67
  {
    var c := '\U{1F600}';
    assert a == Repeat(c, |a|) by { assert forall i :: 0 <= i < |a| ==> a[i] == (a + b)[i]; }
    assert b == Repeat(c, |b|) by { assert forall i :: 0 <= i < |b| ==> b[i] == (a + b)[|a| + i]; }
    UnitsOfRepeat(c, |a|);
    UnitsOfRepeat(c, |b|);
  }
}
