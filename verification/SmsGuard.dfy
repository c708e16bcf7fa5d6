/** The rate limit and the idempotency table in front of SMS submission. Times are nanoseconds
    of one nondecreasing clock. Requests overlap: each takes the guard's lock once before and
    once after its modem dialogue, so a run is any interleaving of `Begin` and `Finish`. */
module SmsGuard {
  import opened Text
  import SmsSend

  const RATE_WINDOW: int := 60_000_000_000
  const RATE_MAX: nat := 10
  const IDEM_TTL: int := 600_000_000_000

  datatype Entry = Entry(result: SmsSend.Outcome, at: int)

  datatype Event =
    | Admitted(now: int)
    | Limited(now: int)
    | Replayed(key: string, now: int)
    | Recorded(key: string, entry: Entry)

  datatype Decision = Admit | Limit | Replay(result: SmsSend.Outcome)

  /** Times of the admitted submissions. */
  function Admissions(trace: seq<Event>): seq<int> {
    if trace == [] then []
    else Admissions(trace[..|trace| - 1]) + (if trace[|trace| - 1].Admitted? then [trace[|trace| - 1].now] else [])
  }

  /** The latest success recorded under a key. */
  function LastSuccess(trace: seq<Event>, key: string): Option<Entry> {
    if trace == [] then None
    else match trace[|trace| - 1]
      case Recorded(k, e) => if k == key then Some(e) else LastSuccess(trace[..|trace| - 1], key)
      case _ => LastSuccess(trace[..|trace| - 1], key)
  }

  lemma {:induction false} Snoc(trace: seq<Event>, e: Event, key: string)
    ensures Admissions(trace + [e]) == Admissions(trace) + (if e.Admitted? then [e.now] else [])
    ensures LastSuccess(trace + [e], key) ==
      if e.Recorded? && e.key == key then Some(e.entry) else LastSuccess(trace, key)
  {
    assert (trace + [e])[..|trace|] == trace;
  }

  // ----- Rate windows -----

  /** Admissions grouped by the fixed window they were counted in, the open window last. */
  datatype Windows = NoWindow | Later(older: Windows, open: seq<int>)

  function Flatten(ws: Windows): seq<int> {
    match ws
    case NoWindow => []
    case Later(older, open) => Flatten(older) + open
  }

  /** A window opens with its first admission, lasts one minute and holds at most ten. */
  ghost predicate IsWindow(w: seq<int>) {
    && 1 <= |w| <= RATE_MAX && (forall k :: 0 <= k < |w| ==> w[0] <= w[k] < w[0] + RATE_WINDOW)
    && forall j, k :: 0 <= j <= k < |w| ==> w[j] <= w[k]
  }

  /** The next window opens a minute after the previous one at the earliest. */
  ghost predicate IsWindowed(ws: Windows) {
    match ws
    case NoWindow => true
    case Later(older, open) =>
      && IsWindow(open) && IsWindowed(older)
      && (older.Later? ==> older.open[0] + RATE_WINDOW <= open[0])
  }

  /** How many of the times lie in the minute that starts at `t`. */
  function CountIn(times: seq<int>, t: int): nat {
    if times == [] then 0
    else CountIn(times[..|times| - 1], t) + (if t <= times[|times| - 1] < t + 60_000_000_000 then 1 else 0)
  }

  lemma {:induction false} CountAppend(a: seq<int>, b: seq<int>, t: int)
    ensures CountIn(a + b, t) == CountIn(a, t) + CountIn(b, t)
  {
    if b == [] {
      assert a + b == a;
    } else {
      assert (a + b)[..|a + b| - 1] == a + b[..|b| - 1];
      CountAppend(a, b[..|b| - 1], t);
    }
  }

  lemma {:induction false} CountAtMost(times: seq<int>, t: int)
    ensures CountIn(times, t) <= |times|
    ensures times != [] && !(t <= times[0] < t + RATE_WINDOW) ==> CountIn(times, t) < |times|
  {
    if times != [] {
      CountAtMost(times[..|times| - 1], t);
    }
  }

  lemma {:induction false} CountNone(times: seq<int>, t: int)
    requires forall k :: 0 <= k < |times| ==> !(t <= times[k] < t + RATE_WINDOW)
    ensures CountIn(times, t) == 0
  {
    if times != [] {
      CountNone(times[..|times| - 1], t);
    }
  }

  lemma {:induction false} CountOld(ws: Windows, t: int)
    requires IsWindowed(ws) && (ws.Later? ==> ws.open[0] + RATE_WINDOW <= t)
    ensures CountIn(Flatten(ws), t) == 0
  {
    if ws.Later? {
      CountOld(ws.older, t);
      CountNone(ws.open, t);
      CountAppend(Flatten(ws.older), ws.open, t);
    }
  }

  /** Any minute, wherever it starts, sees at most nineteen admissions: it touches at most two
      windows, and when it touches two it misses the opening of the first. */
  lemma {:induction false} RateBound(ws: Windows, t: int)
    requires IsWindowed(ws)
    ensures CountIn(Flatten(ws), t) <= 2 * RATE_MAX - 1
  {
    if ws.Later? {
      var older, open := ws.older, ws.open;
      CountAppend(Flatten(older), open, t);
      CountAtMost(open, t);
      if open[0] >= t + RATE_WINDOW {
        CountNone(open, t);
        RateBound(older, t);
      } else if open[0] < t {
        CountOld(older, t);
      } else if older.Later? {
        CountAtMost(older.open, t);
        CountOld(older.older, t);
        CountAppend(Flatten(older.older), older.open, t);
      }
    }
  }

  /** The open window is younger than a minute. */
  predicate IsOpen(ws: Windows, now: int) { ws.Later? && ws.open != [] && now - ws.open[0] < RATE_WINDOW }

  /** The open window has no admission left. */
  predicate Full(ws: Windows, now: int) { IsOpen(ws, now) && |ws.open| == RATE_MAX }

  /** Admitting at `now`: into the open window, or opening the next. */
  function Admitting(ws: Windows, now: int): Windows {
    if IsOpen(ws, now) then Later(ws.older, ws.open + [now]) else Later(ws, [now])
  }

  ghost predicate WindowsPast(ws: Windows, clock: int) {
    ws.Later? ==> forall k :: 0 <= k < |ws.open| ==> ws.open[k] <= clock
  }

  lemma {:induction false} AdmittingWindowed(ws: Windows, now: int)
    requires IsWindowed(ws) && WindowsPast(ws, now) && !Full(ws, now)
    ensures IsWindowed(Admitting(ws, now)) && WindowsPast(Admitting(ws, now), now)
    ensures Flatten(Admitting(ws, now)) == Flatten(ws) + [now]
  {
  }

  // ----- Recorded successes -----

  type Table = map<string, Entry>

  function Expired(idem: Table, now: int): Table {
    map key | key in idem && now - idem[key].at <= IDEM_TTL :: idem[key]
  }

  predicate IsFresh(e: Option<Entry>, now: int) { e.Some? && now - e.value.at <= IDEM_TTL }

  /** At `clock`, the table has a key's latest success, or that success is too old. */
  predicate KeyCurrent(idem: Table, key: string, last: Option<Entry>, clock: int) {
    if key in idem then last == Some(idem[key]) else !IsFresh(last, clock)
  }

  ghost predicate IsCurrent(idem: Table, trace: seq<Event>, clock: int) {
    forall key :: KeyCurrent(idem, key, LastSuccess(trace, key), clock)
  }

  lemma {:induction false} ExpiredKey(idem: Table, key: string, last: Option<Entry>, clock: int, now: int)
    requires KeyCurrent(idem, key, last, clock) && clock <= now
    ensures KeyCurrent(Expired(idem, now), key, last, now)
    ensures key in Expired(idem, now) <==> IsFresh(last, now)
  {
  }

  lemma {:induction false} ExpiredIsCurrent(idem: Table, trace: seq<Event>, e: Event, clock: int, now: int)
    requires IsCurrent(idem, trace, clock) && !e.Recorded? && clock <= now
    ensures IsCurrent(Expired(idem, now), trace + [e], now)
    ensures forall key :: key in Expired(idem, now) <==> IsFresh(LastSuccess(trace, key), now)
  {
    hide LastSuccess, KeyCurrent, IsFresh, Expired;
    forall key ensures KeyCurrent(Expired(idem, now), key, LastSuccess(trace + [e], key), now)
      && (key in Expired(idem, now) <==> IsFresh(LastSuccess(trace, key), now))
    {
      Snoc(trace, e, key);
      ExpiredKey(idem, key, LastSuccess(trace, key), clock, now);
    }
  }

  lemma {:induction false} RecordedIsCurrent(idem: Table, trace: seq<Event>, key: string, entry: Entry, clock: int)
    requires IsCurrent(idem, trace, clock) && clock <= entry.at
    ensures IsCurrent(idem[key := entry], trace + [Recorded(key, entry)], entry.at)
  {
    hide LastSuccess;
    forall k ensures KeyCurrent(idem[key := entry], k, LastSuccess(trace + [Recorded(key, entry)], k), entry.at) {
      Snoc(trace, Recorded(key, entry), k);
      assert KeyCurrent(idem, k, LastSuccess(trace, k), clock);
    }
  }

  class Guard {
    var started: bool            // false while windowStart is the zero time
    var windowStart: int
    var windowCount: nat
    var idem: Table
    ghost var trace: seq<Event>
    ghost var windows: Windows
    ghost var clock: int         // time of the latest event

    /** The fixed-window counters describe the last window. */
    ghost predicate CountersValid()
      reads this
    {
      && started == windows.Later?
      && (started ==> windowCount == |windows.open| > 0 && windowStart == windows.open[0])
    }

    ghost predicate Valid()
      reads this
    {
      && IsWindowed(windows) && WindowsPast(windows, clock) && Flatten(windows) == Admissions(trace)
      && CountersValid()
      && IsCurrent(idem, trace, clock)
    }

    constructor ()
      ensures Valid() && trace == [] && windows == NoWindow && clock == 0
    {
      started, windowStart, windowCount, idem, trace, windows, clock := false, 0, 0, map[], [], NoWindow, 0;
    }

    /** The loop that drops expired keys. */
    method Expire(now: int)
      modifies this`idem
      ensures idem == Expired(old(idem), now)
    {
      var todo := idem.Keys;
      while todo != {}
        invariant todo <= old(idem).Keys
        invariant idem.Keys <= old(idem).Keys
        invariant forall key :: key in idem ==> idem[key] == old(idem)[key]
        invariant forall key :: key in old(idem) ==>
          (key in idem <==> key in todo || now - old(idem)[key].at <= IDEM_TTL)
        decreases todo
      {
        var key :| key in todo;
        if key in idem && now - idem[key].at > IDEM_TTL {
          idem := idem - {key};
        }
        todo := todo - {key};
      }
    }

    /** The fixed-window limiter. */
    method TakeSlot(now: int) returns (ok: bool)
      requires CountersValid() && IsWindowed(windows) && WindowsPast(windows, now)
      modifies this`started, this`windowStart, this`windowCount, this`windows
      ensures CountersValid() && IsWindowed(windows) && WindowsPast(windows, now)
      ensures ok == !Full(old(windows), now)
      ensures windows == if ok then Admitting(old(windows), now) else old(windows)
      ensures Flatten(windows) == Flatten(old(windows)) + (if ok then [now] else [])
    {
      if !Full(windows, now) { AdmittingWindowed(windows, now); }
      hide IsWindowed, WindowsPast, Flatten;
      if !started || now - windowStart >= RATE_WINDOW {
        started, windowStart, windowCount := true, now, 0;
      }
      if windowCount >= RATE_MAX {
        return false;
      }
      windowCount := windowCount + 1;
      windows := Admitting(windows, now);
      return true;
    }

    /** The first critical section of `SendSMS`. A recorded success no older than ten minutes is
        replayed, using no quota; otherwise the request is refused exactly when the current
        window, less than a minute old, already holds ten admissions. */
    method Begin(key: string, now: int) returns (d: Decision)
      requires Valid() && clock <= now
      modifies this
      ensures Valid() && clock == now
      ensures
        var hit, open := LastSuccess(old(trace), key), if old(windows).Later? then old(windows).open else [];
        if key != "" && hit.Some? && now - hit.value.at <= 600_000_000_000 then
          d == Replay(hit.value.result) && trace == old(trace) + [Replayed(key, now)] && windows == old(windows)
        else if |open| == 10 && now - open[0] < 60_000_000_000 then
          d == Limit && trace == old(trace) + [Limited(now)] && windows == old(windows)
        else
          d == Admit && trace == old(trace) + [Admitted(now)] && windows == Admitting(old(windows), now)
    {
      ghost var hit := key != "" && IsFresh(LastSuccess(trace, key), now);
      ghost var e := if hit then Replayed(key, now) else if Full(windows, now) then Limited(now) else Admitted(now);
      ExpiredIsCurrent(idem, trace, e, clock, now);
      Snoc(trace, e, key);
      if key in Expired(idem, now) { HitIsLatest(idem, trace, key, clock); }
      assert WindowsPast(windows, now);
      hide LastSuccess, Admissions, IsCurrent, IsWindowed, WindowsPast, Flatten, Admitting, Expired, IsFresh, Full;
      Expire(now);
      trace := trace + [e];
      clock := now;
      if key != "" && key in idem {
        return Replay(idem[key].result);
      }
      var ok := TakeSlot(now);
      return if ok then Admit else Limit;
    }

    /** The second critical section: a success is recorded under a nonempty key. */
    method Finish(key: string, result: SmsSend.Outcome, at: int)
      requires Valid() && clock <= at
      modifies this
      ensures Valid() && windows == old(windows) && old(clock) <= clock <= at
      ensures trace == old(trace) + (if key == "" then [] else [Recorded(key, Entry(result, at))])
    {
      if key != "" {
        var entry := Entry(result, at);
        RecordedIsCurrent(idem, trace, key, entry, clock);
        Snoc(trace, Recorded(key, entry), key);
        hide LastSuccess, Admissions, IsCurrent, IsWindowed, Flatten;
        clock := at;
        idem := idem[key := entry];
        trace := trace + [Recorded(key, entry)];
      }
    }
  }

  lemma {:induction false} HitIsLatest(idem: Table, trace: seq<Event>, key: string, clock: int)
    requires IsCurrent(idem, trace, clock) && key in idem
    ensures LastSuccess(trace, key) == Some(idem[key])
  {
    assert KeyCurrent(idem, key, LastSuccess(trace, key), clock);
  }

  /** One request without a key, admitted because the window has room. */
  method AdmitAnonymous(g: Guard, now: int, t: int)
    requires g.Valid() && g.clock <= now && !Full(g.windows, now)
    modifies g
    ensures g.Valid() && g.clock == now
    ensures g.windows == Admitting(old(g.windows), now)
    ensures CountIn(Admissions(g.trace), t)
      == CountIn(Admissions(old(g.trace)), t) + (if t <= now < t + RATE_WINDOW then 1 else 0)
  {
    Snoc(g.trace, Admitted(now), "");
    CountAppend(Admissions(g.trace), [now], t);
    assert CountIn([now], t) == if t <= now < t + RATE_WINDOW then 1 else 0;
    var _ := g.Begin("", now);
  }

  /** `n` of them at once. */
  method AdmitMany(g: Guard, n: nat, now: int, t: int)
    requires g.Valid() && g.clock <= now && IsOpen(g.windows, now) && |g.windows.open| + n <= RATE_MAX
    requires t <= now < t + RATE_WINDOW
    modifies g
    ensures g.Valid() && g.clock <= now && g.windows.Later?
    ensures |g.windows.open| == |old(g.windows.open)| + n && g.windows.open[0] == old(g.windows.open)[0]
    ensures CountIn(Admissions(g.trace), t) == CountIn(Admissions(old(g.trace)), t) + n
  {
    hide CountIn, Admissions, Guard.Valid;
    for i := 0 to n
      invariant g.Valid() && g.clock <= now && IsOpen(g.windows, now)
      invariant |g.windows.open| == |old(g.windows.open)| + i && g.windows.open[0] == old(g.windows.open)[0]
      invariant CountIn(Admissions(g.trace), t) == CountIn(Admissions(old(g.trace)), t) + i
    {
      AdmitAnonymous(g, now, t);
    }
  }

  /** Nineteen is reached: one request, nine more in the last second of its window, and ten as
      the next window opens. So "ten per minute" holds for the fixed windows only. */
  method Burst() returns (g: Guard)
    ensures g.Valid()
    ensures CountIn(Admissions(g.trace), 59_000_000_000) == 19
  {
    var t1: int, t2: int := 59_000_000_000, RATE_WINDOW;
    g := new Guard();
    assert CountIn(Admissions(g.trace), t1) == 0;
    hide CountIn, Admissions;
    AdmitAnonymous(g, 0, t1);
    AdmitMany(g, 9, t1, t1);
    AdmitAnonymous(g, t2, t1);
    AdmitMany(g, 9, t2, t1);
  }

  // ----- The request -----

  datatype Request = Request(to: string, body: string, key: string)

  datatype Reply = Invalid | RateLimited | Failed | Done(result: SmsSend.Outcome)

  /** `SendSMS` of the service for one request with no other in between: blank fields and bodies
      over 1000 characters never reach the guard, and only an admitted request reaches the
      modem. `answer` is what the modem dialogue returns, if it succeeds. */
  method SendSMS(g: Guard, req: Request, now: int, done: int, answer: Option<SmsSend.Outcome>)
    returns (reply: Reply, submitted: bool)
    requires g.Valid() && g.clock <= now <= done
    modifies g
    ensures g.Valid()
    ensures reply.Invalid? <==> Trim(req.to) == "" || Trim(req.body) == "" || |Trim(req.body)| > 1000
    ensures reply.Invalid? ==> g.trace == old(g.trace)
    ensures submitted <==> |Admissions(g.trace)| == |Admissions(old(g.trace))| + 1
    ensures !submitted ==> Admissions(g.trace) == Admissions(old(g.trace))
    ensures !reply.Invalid? && Trim(req.key) != "" ==>
      var hit := LastSuccess(old(g.trace), Trim(req.key));
      hit.Some? && now - hit.value.at <= 600_000_000_000 ==> reply == Done(hit.value.result) && !submitted
    ensures !reply.Invalid? && (Trim(req.key) == "" || !IsFresh(LastSuccess(old(g.trace), Trim(req.key)), now)) ==>
      (submitted <==> !reply.RateLimited?) && (reply.RateLimited? <==> Full(old(g.windows), now))
    ensures submitted && answer.Some? && Trim(req.key) != "" ==>
      LastSuccess(g.trace, Trim(req.key)) == Some(Entry(answer.value, done))
    ensures submitted ==> reply == if answer.Some? then Done(answer.value) else Failed
  {
    var to, body, key := Trim(req.to), Trim(req.body), Trim(req.key);
    submitted := false;
    if to == "" || body == "" || |body| > 1000 {
      return Invalid, false;
    }
    ghost var start := g.trace;
    var d := g.Begin(key, now);
    Snoc(start, g.trace[|start|], key);
    match d {
      case Replay(result) => return Done(result), false;
      case Limit => return RateLimited, false;
      case Admit =>
        submitted := true;
        if answer.None? {
          return Failed, true;
        }
        ghost var mid := g.trace;
        g.Finish(key, answer.value, done);
        if key != "" { Snoc(mid, g.trace[|mid|], key); }
        return Done(answer.value), true;
    }
  }
}
