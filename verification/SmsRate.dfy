/** When the documented limit, ten submissions a minute, holds of every minute and not only of the
    limiter's own windows. */
module SmsRate {
  import opened SmsGuard
  import SmsSend

  // ----- By the windows -----

  /** An admission after the first of window `a` opens a minute that, with the next window `b`, has more
      than ten. */
  ghost predicate Overlap(a: seq<int>, b: seq<int>) {
    exists k :: 0 < k < |a| && CountIn(a, a[k]) + CountIn(b, a[k]) > RATE_MAX
  }

  /** Two windows in a row overlap in a minute of more than ten. */
  ghost predicate Crowded(ws: Windows) {
    match ws
    case NoWindow => false
    case Later(older, open) => Crowded(older) || (older.Later? && Overlap(older.open, open))
  }

  lemma {:induction false} CountMonotone(times: seq<int>, t: int, u: int)
    requires forall k :: 0 <= k < |times| && t <= times[k] < t + RATE_WINDOW ==> u <= times[k] < u + RATE_WINDOW
    ensures CountIn(times, t) <= CountIn(times, u)
  {
    if times != [] {
      CountMonotone(times[..|times| - 1], t, u);
    }
  }

  lemma {:induction false} CountSome(times: seq<int>, t: int) returns (k: nat)
    requires CountIn(times, t) > 0
    ensures k < |times| && t <= times[k] < t + RATE_WINDOW
    ensures forall j :: k < j < |times| ==> !(t <= times[j] < t + RATE_WINDOW)
  {
    k := |times| - 1;
    if !(t <= times[k] < t + RATE_WINDOW) {
      k := CountSome(times[..k], t);
    }
  }

  /** The first time in a sorted window that is not before `t`. */
  lemma {:induction false} FirstFrom(a: seq<int>, t: int) returns (k: nat)
    requires CountIn(a, t) > 0
    ensures k < |a| && t <= a[k] && forall j :: 0 <= j < k ==> a[j] < t
  {
    var last := CountSome(a, t);
    k := 0;
    while a[k] < t
      invariant k <= last && forall j :: 0 <= j < k ==> a[j] < t
      decreases last - k
    {
      k := k + 1;
    }
  }

  /** A minute that reaches into both of two windows sees no more than one that begins with an admission. */
  lemma {:induction false} OverlapAt(a: seq<int>, b: seq<int>, t: int)
    requires IsWindow(a) && IsWindow(b) && a[0] + RATE_WINDOW <= b[0] < t + RATE_WINDOW
    requires CountIn(a, t) + CountIn(b, t) > RATE_MAX
    ensures Overlap(a, b)
  {
    CountAtMost(b, t);
    var k := FirstFrom(a, t);
    CountMonotone(a, t, a[k]);
    CountMonotone(b, t, a[k]);
  }

  lemma {:induction false} CrowdedIsSeen(ws: Windows) returns (t: int)
    requires IsWindowed(ws) && Crowded(ws)
    ensures CountIn(Flatten(ws), t) > RATE_MAX
  {
    var older, open := ws.older, ws.open;
    if Crowded(older) {
      t := CrowdedIsSeen(older);
      CountAppend(Flatten(older), open, t);
    } else {
      var a := older.open;
      var k :| 0 < k < |a| && CountIn(a, a[k]) + CountIn(open, a[k]) > RATE_MAX;
      t := a[k];
      CountAppend(Flatten(older.older), a, t);
      CountAppend(Flatten(older), open, t);
    }
  }

  lemma {:induction false} SeenIsCrowded(ws: Windows, t: int)
    requires IsWindowed(ws) && CountIn(Flatten(ws), t) > RATE_MAX
    ensures Crowded(ws)
  {
    if ws.Later? {
      var older, open := ws.older, ws.open;
      CountAppend(Flatten(older), open, t);
      CountAtMost(open, t);
      if open[0] >= t + RATE_WINDOW {
        CountNone(open, t);
        SeenIsCrowded(older, t);
      } else if open[0] < t {
        CountOld(older, t);
      } else if older.Later? {
        CountAppend(Flatten(older.older), older.open, t);
        CountOld(older.older, t);
        OverlapAt(older.open, open, t);
      }
    }
  }

  /** In every run of a guard no minute sees more than nineteen admissions, and some minute sees more than ten
      exactly if two windows in a row overlap in one. */
  lemma {:induction false} AdmissionsPerMinute(g: Guard)
    requires g.Valid()
    ensures forall t :: CountIn(Admissions(g.trace), t) <= 19
    ensures (exists t :: CountIn(Admissions(g.trace), t) > 10) <==> Crowded(g.windows)
  {
    forall t ensures CountIn(Admissions(g.trace), t) <= 19 {
      RateBound(g.windows, t);
    }
    if Crowded(g.windows) {
      var t := CrowdedIsSeen(g.windows);
      assert CountIn(Admissions(g.trace), t) > RATE_MAX;
    } else {
      forall t ensures CountIn(Admissions(g.trace), t) <= RATE_MAX {
        if CountIn(Admissions(g.trace), t) > RATE_MAX { SeenIsCrowded(g.windows, t); }
      }
    }
  }

  ghost predicate OpensAt(ws: Windows, t: int) {
    ws.Later? && ((ws.open != [] && ws.open[0] == t) || OpensAt(ws.older, t))
  }

  lemma {:induction false} OpenedBefore(ws: Windows, t: int)
    requires IsWindowed(ws) && OpensAt(ws, t)
    ensures t <= ws.open[0]
  {
    if ws.open[0] != t { OpenedBefore(ws.older, t); }
  }

  /** The minute that begins with a window never sees more than ten. */
  lemma {:induction false} OwnMinute(ws: Windows, t: int)
    requires IsWindowed(ws) && OpensAt(ws, t)
    ensures CountIn(Flatten(ws), t) <= 10
  {
    CountAppend(Flatten(ws.older), ws.open, t);
    CountAtMost(ws.open, t);
    if ws.open[0] == t {
      CountOld(ws.older, t);
    } else {
      OpenedBefore(ws.older, t);
      OwnMinute(ws.older, t);
      CountNone(ws.open, t);
    }
  }

  // ----- By each admission -----

  /** The minute that ends at `now`. */
  function Past(now: int): int { now - RATE_WINDOW + 1 }

  /** Admissions of the last two windows in the past minute: what a caller can count before `Begin`. */
  function Recent(ws: Windows, now: int): nat {
    match ws
    case NoWindow => 0
    case Later(older, open) => CountIn(open, Past(now)) + (if older.Later? then CountIn(older.open, Past(now)) else 0)
  }

  /** The last two windows have all the admissions of the past minute. */
  lemma {:induction false} RecentIsAll(ws: Windows, now: int)
    requires IsWindowed(ws) && (ws.Later? ==> ws.open[0] <= now)
    ensures CountIn(Flatten(ws), Past(now)) == Recent(ws, now)
  {
    if ws.Later? {
      CountAppend(Flatten(ws.older), ws.open, Past(now));
      if ws.older.Later? {
        CountAppend(Flatten(ws.older.older), ws.older.open, Past(now));
        CountOld(ws.older.older, Past(now));
      }
    }
  }

  ghost predicate Sorted(times: seq<int>) { forall j, k :: 0 <= j <= k < |times| ==> times[j] <= times[k] }

  lemma {:induction false} FlattenSorted(ws: Windows)
    requires IsWindowed(ws)
    ensures Sorted(Flatten(ws))
    ensures ws.Later? ==> forall k :: 0 <= k < |Flatten(ws)| ==> Flatten(ws)[k] < ws.open[0] + RATE_WINDOW
  {
    if ws.Later? { FlattenSorted(ws.older); }
  }

  /** Whether the `i`th admission made an eleventh in the minute that it ended. */
  ghost predicate Exceeds(times: seq<int>, i: nat)
    requires i < |times|
  { CountIn(times[..i + 1], Past(times[i])) > RATE_MAX }

  /** Every minute stays within ten exactly if every minute that ends with an admission does. */
  lemma {:induction false} MinutesByAdmission(times: seq<int>)
    requires Sorted(times)
    ensures (exists t :: CountIn(times, t) > RATE_MAX) <==> exists i :: 0 <= i < |times| && Exceeds(times, i)
  {
    if t :| CountIn(times, t) > RATE_MAX {
      var i := CountSome(times, t);
      var front := times[..i + 1];
      assert times == front + times[i + 1..];
      CountAppend(front, times[i + 1..], t);
      CountNone(times[i + 1..], t);
      CountMonotone(front, t, Past(times[i]));
      assert Exceeds(times, i);
    }
    if i :| 0 <= i < |times| && Exceeds(times, i) {
      assert times == times[..i + 1] + times[i + 1..];
      CountAppend(times[..i + 1], times[i + 1..], Past(times[i]));
      assert CountIn(times, Past(times[i])) > RATE_MAX;
    }
  }

  lemma {:induction false} CountAll(times: seq<int>, t: int)
    requires forall k :: 0 <= k < |times| ==> t <= times[k] < t + RATE_WINDOW
    ensures CountIn(times, t) == |times|
  {
    if times != [] { CountAll(times[..|times| - 1], t); }
  }

  /** A full window lies in the past minute. */
  lemma {:induction false} FullIsRecent(ws: Windows, now: int)
    requires IsWindowed(ws) && WindowsPast(ws, now) && Full(ws, now)
    ensures CountIn(Flatten(ws), Past(now)) >= 10
  {
    CountAppend(Flatten(ws.older), ws.open, Past(now));
    CountAll(ws.open, Past(now));
  }

  lemma {:induction false} NewAdmission(ws: Windows, now: int)
    requires IsWindowed(ws) && WindowsPast(ws, now)
    ensures var times := Flatten(ws) + [now]; Exceeds(times, |times| - 1) <==> Recent(ws, now) >= RATE_MAX
  {
    var times := Flatten(ws) + [now];
    RecentIsAll(ws, now);
    CountAppend(Flatten(ws), [now], Past(now));
    assert CountIn([now], Past(now)) == 1;
    assert times[..|times|] == times;
    hide Recent, Flatten;
  }

  /** One request: it is refused only if the past minute had ten admissions, and an admission exceeds the limit
      exactly if it had. */
  method Begin(g: Guard, key: string, now: int) returns (d: Decision)
    requires g.Valid() && g.clock <= now
    modifies g
    ensures g.Valid() && g.clock == now
    ensures Admissions(g.trace) == if d.Admit? then Admissions(old(g.trace)) + [now] else Admissions(old(g.trace))
    ensures d.Admit? ==>
      (Exceeds(Admissions(g.trace), |Admissions(g.trace)| - 1) <==> Recent(old(g.windows), now) >= 10)
    ensures d.Limit? ==> CountIn(Admissions(old(g.trace)), now - 60_000_000_000 + 1) >= 10
  {
    if Full(g.windows, now) { FullIsRecent(g.windows, now); }
    NewAdmission(g.windows, now);
    ghost var before := g.trace;
    ghost var times := Admissions(before);
    assert times == Flatten(g.windows) && (times + [now])[..|times| + 1] == times + [now];
    hide *;
    d := g.Begin(key, now);
    ghost var e := if d.Admit? then Admitted(now) else if d.Limit? then Limited(now) else Replayed(key, now);
    Snoc(before, e, key);
  }

  // ----- Whole runs -----

  datatype Step = Begins(key: string, now: int) | Finishes(key: string, result: SmsSend.Outcome, at: int)

  function TimeOf(s: Step): int { if s.Begins? then s.now else s.at }

  predicate InOrder(steps: seq<Step>) {
    forall j, k :: 0 <= j <= k < |steps| ==> 0 <= TimeOf(steps[j]) <= TimeOf(steps[k])
  }

  /** The guard between two steps. */
  datatype Moment = Moment(windows: Windows, trace: seq<Event>)

  /** A step that admits although the last two windows have ten admissions of the past minute. */
  ghost predicate Overfills(before: Moment, after: Moment, s: Step) {
    s.Begins? && Admissions(after.trace) != Admissions(before.trace) && Recent(before.windows, s.now) >= RATE_MAX
  }

  ghost predicate SomeExceeds(times: seq<int>) { exists i :: 0 <= i < |times| && Exceeds(times, i) }

  ghost predicate SomeOverfills(run: seq<Moment>, steps: seq<Step>, n: nat)
    requires |run| > n && |steps| >= n
  { exists i :: 0 <= i < n && Overfills(run[i], run[i + 1], steps[i]) }

  lemma {:induction false} ExceedsSnoc(times: seq<int>, x: int)
    ensures SomeExceeds(times + [x]) <==> SomeExceeds(times) || Exceeds(times + [x], |times|)
  {
    var more := times + [x];
    hide CountIn;
    forall i | 0 <= i < |times| ensures Exceeds(more, i) == Exceeds(times, i) {
      assert more[..i + 1] == times[..i + 1];
    }
  }

  lemma {:induction false} OverfillsSnoc(run: seq<Moment>, m: Moment, steps: seq<Step>, n: nat)
    requires |run| == n + 1 && n < |steps|
    ensures SomeOverfills(run + [m], steps, n + 1) <==> SomeOverfills(run, steps, n) || Overfills(run[n], m, steps[n])
  {
    hide Overfills;
    var more := run + [m];
    assert more[n] == run[n] && more[n + 1] == m;
    if Overfills(run[n], m, steps[n]) { assert Overfills(more[n], more[n + 1], steps[n]); }
    if i :| 0 <= i < n && Overfills(run[i], run[i + 1], steps[i]) { assert Overfills(more[i], more[i + 1], steps[i]); }
  }

  /** One step of a run. */
  method Serve(g: Guard, s: Step)
    requires g.Valid() && g.clock <= TimeOf(s)
    modifies g
    ensures g.Valid() && g.clock <= TimeOf(s)
    ensures SomeExceeds(Admissions(g.trace)) <==>
      || SomeExceeds(Admissions(old(g.trace)))
      || Overfills(Moment(old(g.windows), old(g.trace)), Moment(g.windows, g.trace), s)
  {
    ghost var before := g.trace;
    hide Exceeds, Admissions, Recent, SomeExceeds;
    match s {
      case Begins(key, now) =>
        ExceedsSnoc(Admissions(before), now);
        var d := Begin(g, key, now);
        assert |Admissions(before) + [now]| != |Admissions(before)|;
      case Finishes(key, result, at) =>
        g.Finish(key, result, at);
        if key != "" { Snoc(before, Recorded(key, Entry(result, at)), key); }
    }
  }

  /** In any interleaving of requests, `run` being the moments it goes through, every minute stays within
      ten exactly if no step overfills. */
  method Drive(steps: seq<Step>) returns (g: Guard, ghost run: seq<Moment>)
    requires InOrder(steps)
    ensures fresh(g) && g.Valid() && |run| == |steps| + 1 && run[|steps|] == Moment(g.windows, g.trace)
    ensures (forall t :: CountIn(Admissions(g.trace), t) <= 10) <==>
      forall i :: 0 <= i < |steps| ==> !Overfills(run[i], run[i + 1], steps[i])
  {
    g := new Guard();
    run := [Moment(g.windows, g.trace)];
    for n := 0 to |steps|
      invariant fresh(g) && g.Valid() && (n < |steps| ==> g.clock <= TimeOf(steps[n]))
      invariant |run| == n + 1 && run[n] == Moment(g.windows, g.trace)
      invariant SomeExceeds(Admissions(g.trace)) <==> SomeOverfills(run, steps, n)
    {
      hide Guard.Valid, SomeExceeds, SomeOverfills, Overfills, Admissions;
      Serve(g, steps[n]);
      OverfillsSnoc(run, Moment(g.windows, g.trace), steps, n);
      run := run + [Moment(g.windows, g.trace)];
    }
    FlattenSorted(g.windows);
    MinutesByAdmission(Admissions(g.trace));
    hide Exceeds, CountIn, Overfills;
  }
}
