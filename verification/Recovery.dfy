/** Failure recovery of the status poller: the fail streak, the rediscovery timer and the cooldown
    of the automatic USB reset, over whole runs. Polls and mode changes run one at a time (module
    `AtGate`); each clock reading of the code is a parameter. */
module Recovery {
  import opened Text

  datatype Err = Err(permission: bool, emptyAt: bool)

  datatype Answer = Good | Bad(err: Err)

  datatype Cause = EmptyAnswer | Due | ModeChange

  datatype Event =
    | PollOk(at: int)
    | PollAbsent(at: int)              // modem unplugged, or no AT client
    | PollFailed(at: int, err: Err)
    | Rediscovered(at: int, cause: Cause)
    | RetryFailed(at: int, err: Err)   // the second status read, after a rediscovery
    | HardReset(at: int)
    | ModeChanged(at: int)

  datatype Trace = Start | Then(before: Trace, event: Event)

  datatype Policy = Policy(resetCooldown: int, rediscoverEvery: int, failStreakMax: int)

  const DEFAULTS := Policy(60, 30, 3)

  // ----- Readings of a run -----

  /** Failed polls with no success, absent modem or reset since. */
  function Streak(t: Trace): nat {
    match t
    case Start => 0
    case Then(b, PollFailed(_, _)) => Streak(b) + 1
    case Then(_, PollOk(_)) => 0
    case Then(_, PollAbsent(_)) => 0
    case Then(_, HardReset(_)) => 0
    case Then(b, _) => Streak(b)
  }

  function LastReset(t: Trace): Option<int> {
    match t
    case Start => None
    case Then(_, HardReset(at)) => Some(at)
    case Then(b, _) => LastReset(b)
  }

  /** The latest rediscovery by the poller, forgotten when the USB mode changes. */
  function LastRediscovery(t: Trace): Option<int> {
    match t
    case Start => None
    case Then(b, Rediscovered(at, cause)) => if cause.ModeChange? then LastRediscovery(b) else Some(at)
    case Then(_, ModeChanged(_)) => None
    case Then(b, _) => LastRediscovery(b)
  }

  /** The error that stands at the end of a run, unless its last poll went well. */
  function StandingError(t: Trace): Option<Err> {
    match t
    case Then(_, PollFailed(_, e)) => Some(e)
    case Then(_, RetryFailed(_, e)) => Some(e)
    case _ => None
  }

  predicate Elapsed(since: Option<int>, now: int, span: int) { since.Some? ==> now - since.value >= span }

  function EventTime(e: Event): int { e.at }

  predicate NotBefore(t: Trace, at: int) { t.Then? ==> EventTime(t.event) <= at }

  /** The policy, as a condition on each event in the light of what came before. */
  predicate Legal(p: Policy, t: Trace) {
    match t
    case Start => true
    case Then(b, e) =>
      && Legal(p, b) && NotBefore(b, EventTime(e))
      && match e
         case HardReset(at) =>
           && Streak(b) >= p.failStreakMax && Elapsed(LastReset(b), at, p.resetCooldown)
           && StandingError(b).Some? && !StandingError(b).value.permission
         case Rediscovered(at, EmptyAnswer) =>
           StandingError(b).Some? && StandingError(b).value.emptyAt && !StandingError(b).value.permission
         case Rediscovered(at, Due) =>
           && Elapsed(LastRediscovery(b), at, p.rediscoverEvery)
           && StandingError(b).Some? && !StandingError(b).value.permission
         case Rediscovered(at, ModeChange) => b.Then? && b.event.ModeChanged?
         case _ => true
  }

  // ----- Theorems about legal runs -----

  function Resets(t: Trace): seq<int> {
    match t
    case Start => []
    case Then(b, HardReset(at)) => Resets(b) + [at]
    case Then(b, _) => Resets(b)
  }

  /** Rediscoveries by the poller since the USB mode last changed. */
  function Rediscoveries(t: Trace): seq<int> {
    match t
    case Start => []
    case Then(_, ModeChanged(_)) => []
    case Then(b, Rediscovered(at, cause)) => if cause.ModeChange? then Rediscoveries(b) else Rediscoveries(b) + [at]
    case Then(b, _) => Rediscoveries(b)
  }

  /** How often the port was rediscovered. */
  function Probes(t: Trace): nat {
    match t
    case Start => 0
    case Then(b, Rediscovered(_, _)) => Probes(b) + 1
    case Then(b, _) => Probes(b)
  }

  lemma {:induction false} ResetsInOrder(p: Policy, t: Trace)
    requires Legal(p, t)
    ensures LastReset(t) == if Resets(t) == [] then None else Some(Resets(t)[|Resets(t)| - 1])
    ensures forall i :: 0 <= i < |Resets(t)| ==> NotAfter(Resets(t)[i], t)
  {
    if t.Then? {
      ResetsInOrder(p, t.before);
      forall i | 0 <= i < |Resets(t)| ensures NotAfter(Resets(t)[i], t) {
        if i < |Resets(t.before)| { assert NotAfter(Resets(t.before)[i], t.before); }
      }
    }
  }

  predicate NotAfter(at: int, t: Trace) { t.Then? && at <= EventTime(t.event) }

  /** Two automatic resets are never closer than the cooldown. */
  lemma {:induction false} ResetsSpaced(p: Policy, t: Trace)
    requires Legal(p, t) && p.resetCooldown >= 0
    ensures forall i, j :: 0 <= i < j < |Resets(t)| ==> Resets(t)[j] - Resets(t)[i] >= p.resetCooldown
  {
    if t.Then? {
      ResetsSpaced(p, t.before);
      ResetsInOrder(p, t.before);
    }
  }

  /** So `n` resets take at least `n - 1` cooldowns. */
  lemma {:induction false} ResetRate(p: Policy, t: Trace)
    requires Legal(p, t) && p.resetCooldown >= 0 && Resets(t) != []
    ensures (|Resets(t)| - 1) * p.resetCooldown <= Resets(t)[|Resets(t)| - 1] - Resets(t)[0]
  {
    if !t.event.HardReset? {
      ResetRate(p, t.before);
    } else if Resets(t.before) != [] {
      ResetRate(p, t.before);
      ResetsInOrder(p, t.before);
      var n := |Resets(t.before)|;
      assert n * p.resetCooldown == (n - 1) * p.resetCooldown + p.resetCooldown;
    }
  }

  /** What a reset needs: enough consecutive failures, none forgiven by a success, an absent modem
      or another reset, and an error that is no matter of permissions. */
  lemma {:induction false} ResetNeeds(p: Policy, b: Trace, at: int)
    requires Legal(p, Then(b, HardReset(at)))
    ensures Streak(b) >= p.failStreakMax
    ensures StandingError(b).Some? && !StandingError(b).value.permission
    ensures exists failures :: FailuresOnly(b, failures) && |failures| >= p.failStreakMax
  {
    var failures := StreakFailures(b);
  }

  /** `failures` are the failed polls since the last success, absence or reset. */
  ghost predicate FailuresOnly(t: Trace, failures: seq<Event>) {
    match t
    case Start => failures == []
    case Then(b, e) =>
      match e
      case PollFailed(_, _) =>
        failures != [] && failures[|failures| - 1] == e && FailuresOnly(b, failures[..|failures| - 1])
      case PollOk(_) => failures == []
      case PollAbsent(_) => failures == []
      case HardReset(_) => failures == []
      case _ => FailuresOnly(b, failures)
  }

  lemma {:induction false} StreakFailures(t: Trace) returns (failures: seq<Event>)
    ensures FailuresOnly(t, failures) && |failures| == Streak(t)
  {
    failures := [];
    if t.Then? {
      match t.event {
        case PollOk(_) =>
        case PollAbsent(_) =>
        case HardReset(_) =>
        case PollFailed(_, _) =>
          var earlier := StreakFailures(t.before);
          failures := earlier + [t.event];
          assert failures[..|failures| - 1] == earlier;
        case _ =>
          failures := StreakFailures(t.before);
      }
    }
  }

  lemma {:induction false} RediscoveriesInOrder(p: Policy, t: Trace)
    requires Legal(p, t)
    ensures LastRediscovery(t) ==
      if Rediscoveries(t) == [] then None else Some(Rediscoveries(t)[|Rediscoveries(t)| - 1])
    ensures forall i :: 0 <= i < |Rediscoveries(t)| ==>
      NotAfter(Rediscoveries(t)[i], t) && Rediscoveries(t)[i] <= Rediscoveries(t)[|Rediscoveries(t)| - 1]
  {
    if t.Then? {
      RediscoveriesInOrder(p, t.before);
      forall i | 0 <= i < |Rediscoveries(t)|
        ensures NotAfter(Rediscoveries(t)[i], t) && Rediscoveries(t)[i] <= Rediscoveries(t)[|Rediscoveries(t)| - 1]
      {
        if i < |Rediscoveries(t.before)| { assert NotAfter(Rediscoveries(t.before)[i], t.before); }
      }
    }
  }

  /** A rediscovery closer than `rediscoverEvery` to any earlier one since the USB mode changed
      comes from an empty answer, or is part of a mode change itself. */
  lemma {:induction false} RediscoverySpaced(p: Policy, b: Trace, at: int, cause: Cause, i: nat)
    requires Legal(p, Then(b, Rediscovered(at, cause)))
    requires i < |Rediscoveries(b)| && at - Rediscoveries(b)[i] < p.rediscoverEvery
    ensures cause.EmptyAnswer? || cause.ModeChange?
    ensures cause.EmptyAnswer? ==> StandingError(b).Some? && StandingError(b).value.emptyAt
    ensures cause.ModeChange? ==> b.Then? && b.event.ModeChanged?
  {
    RediscoveriesInOrder(p, b);
  }

  // ----- The service -----

  /** Clock readings of one poll, in the order they are taken. */
  datatype Clock = Clock(poll: int, since: int, stamp: int, retried: int, cooldown: int, reset: int)

  predicate Ticks(c: Clock) { c.poll <= c.since <= c.stamp <= c.retried <= c.cooldown <= c.reset }

  class ModemService {
    const policy: Policy
    var atFailStreak: nat
    var lastResetAt: Option<int>
    var lastRediscover: Option<int>
    ghost var trace: Trace

    ghost predicate Valid()
      reads this
    {
      && Legal(policy, trace)
      && atFailStreak == Streak(trace)
      && lastResetAt == LastReset(trace)
      && lastRediscover == LastRediscovery(trace)
    }

    constructor (policy: Policy)
      ensures Valid() && trace == Start && this.policy == policy
    {
      this.policy := policy;
      atFailStreak, lastResetAt, lastRediscover, trace := 0, None, None, Start;
    }

    /** `pollStatus`. `present` is the USB check, `first` the status read. */
    method PollStatus(present: bool, first: Answer, retry: Answer, c: Clock)
      requires Valid() && Ticks(c) && NotBefore(trace, c.poll)
      modifies this
      ensures Valid()
      ensures !present ==> trace == Then(old(trace), PollAbsent(c.poll))
      ensures present && first.Good? ==> trace == Then(old(trace), PollOk(c.poll))
      ensures present && first.Bad? ==> trace == AfterFailure(policy, old(trace), first.err, retry, c)
      ensures !present || first.Good? ==> Probes(trace) == Probes(old(trace))
      ensures present && first.Bad? ==> Rediscovers(policy, old(trace), trace, first.err, retry, c)
    {
      if !present {
        atFailStreak := 0;
        trace := Then(trace, PollAbsent(c.poll));
      } else if first.Bad? {
        HandleAtFailure(first.err, retry, c);
      } else {
        atFailStreak := 0;
        trace := Then(trace, PollOk(c.poll));
      }
    }

    /** `handleATFailure`. */
    method HandleAtFailure(err: Err, retry: Answer, c: Clock)
      requires Valid() && Ticks(c) && NotBefore(trace, c.poll)
      modifies this
      ensures Valid()
      ensures trace == AfterFailure(policy, old(trace), err, retry, c)
      ensures Rediscovers(policy, old(trace), trace, err, retry, c)
    {
      FailureRediscovers(policy, trace, err, retry, c);
      hide Rediscovers;
      atFailStreak := atFailStreak + 1;
      trace := Then(trace, PollFailed(c.since, err));
      assert Valid();
      if err.permission {
        return;
      }
      var cause := err;
      if err.emptyAt || lastRediscover.None? || c.since - lastRediscover.value >= policy.rediscoverEvery {
        lastRediscover := Some(c.stamp);
        trace := Then(trace, Rediscovered(c.stamp, if err.emptyAt then EmptyAnswer else Due));
        assert Valid();
        if retry.Good? {
          atFailStreak := 0;
          trace := Then(trace, PollOk(c.retried));
          return;
        }
        trace := Then(trace, RetryFailed(c.retried, retry.err));
        assert Valid();
        if retry.err.permission {
          return;
        }
        cause := retry.err;
      }
      MaybeHardReset(cause, c.cooldown, c.reset);
    }

    /** `maybeHardResetLocked`: the cooldown starts even when the reset itself fails. */
    method MaybeHardReset(cause: Err, now: int, stamp: int)
      requires Valid() && now <= stamp && NotBefore(trace, now) && StandingError(trace) == Some(cause)
      modifies this
      ensures Valid()
      ensures trace == AfterReset(policy, old(trace), cause, now, stamp)
    {
      if cause.permission {
        return;
      }
      if atFailStreak < policy.failStreakMax {
        return;
      }
      if lastResetAt.Some? && now - lastResetAt.value < policy.resetCooldown {
        return;
      }
      lastResetAt := Some(stamp);
      atFailStreak := 0;
      trace := Then(trace, HardReset(stamp));
    }

    /** `SetUSBMode`, given the modem's reply: the next failing poll may rediscover at once. */
    method SetUSBMode(accepted: bool, at: int, rediscovered: int)
      requires Valid() && NotBefore(trace, at) && at <= rediscovered
      modifies this
      ensures Valid()
      ensures trace == if accepted then Then(Then(old(trace), ModeChanged(at)), Rediscovered(rediscovered, ModeChange))
                       else old(trace)
    {
      if accepted {
        lastRediscover := None;
        trace := Then(Then(trace, ModeChanged(at)), Rediscovered(rediscovered, ModeChange));
      }
    }
  }

  /** Whether the reset fires, and nothing else. */
  function AfterReset(p: Policy, t: Trace, cause: Err, now: int, stamp: int): Trace {
    if !cause.permission && Streak(t) >= p.failStreakMax && Elapsed(LastReset(t), now, p.resetCooldown)
    then Then(t, HardReset(stamp)) else t
  }

  /** The events of a failed poll. */
  function AfterFailure(p: Policy, t: Trace, err: Err, retry: Answer, c: Clock): Trace {
    var failed := Then(t, PollFailed(c.since, err));
    if err.permission then failed
    else if !err.emptyAt && !Elapsed(LastRediscovery(t), c.since, p.rediscoverEvery) then
      AfterReset(p, failed, err, c.cooldown, c.reset)
    else
      var probed := Then(failed, Rediscovered(c.stamp, if err.emptyAt then EmptyAnswer else Due));
      match retry
      case Good => Then(probed, PollOk(c.retried))
      case Bad(e) =>
        var again := Then(probed, RetryFailed(c.retried, e));
        if e.permission then again else AfterReset(p, again, e, c.cooldown, c.reset)
  }

  // ----- Rediscovery -----

  /** What a failed poll does about the port. It is rediscovered exactly if the error is no matter of permissions
      and the answer was empty or `rediscoverEvery` has passed since the last time; a good second read then
      ends the poll well. So the last time is always less than `rediscoverEvery` ago. */
  predicate Rediscovers(p: Policy, before: Trace, after: Trace, err: Err, retry: Answer, c: Clock) {
    var due := LastRediscovery(before).None? || c.since - LastRediscovery(before).value >= p.rediscoverEvery;
    var probes := !err.permission && (err.emptyAt || due);
    && Probes(after) == Probes(before) + (if probes then 1 else 0)
    && LastRediscovery(after) == (if probes then Some(c.stamp) else LastRediscovery(before))
    && (probes && retry.Good? ==> after.Then? && after.event == PollOk(c.retried) && Streak(after) == 0)
    && (!err.permission && p.rediscoverEvery > 0 && Ticks(c) ==>
          LastRediscovery(after).Some? && c.since - LastRediscovery(after).value < p.rediscoverEvery)
  }

  lemma {:induction false} FailureRediscovers(p: Policy, t: Trace, err: Err, retry: Answer, c: Clock)
    ensures Rediscovers(p, t, AfterFailure(p, t, err, retry, c), err, retry, c)
  {
    var failed := Then(t, PollFailed(c.since, err));
    var probed := Then(failed, Rediscovered(c.stamp, if err.emptyAt then EmptyAnswer else Due));
    assert LastRediscovery(failed) == LastRediscovery(t) && Probes(failed) == Probes(t);
    assert LastRediscovery(probed) == Some(c.stamp) && Probes(probed) == Probes(t) + 1;
    if retry.Bad? {
      var again := Then(probed, RetryFailed(c.retried, retry.err));
      assert LastRediscovery(again) == Some(c.stamp) && Probes(again) == Probes(probed);
    }
  }

  // ----- A modem that stays dead -----

  /** A poll of a modem that answers neither at first nor after a rediscovery, with no matter of permissions. */
  datatype DeadPoll = DeadPoll(err: Err, again: Err, clock: Clock)

  predicate IsDead(poll: DeadPoll) { !poll.err.permission && !poll.again.permission }

  function AfterPolls(p: Policy, t: Trace, polls: seq<DeadPoll>): Trace
    decreases |polls|
  {
    if polls == [] then t
    else
      var last := polls[|polls| - 1];
      AfterFailure(p, AfterPolls(p, t, polls[..|polls| - 1]), last.err, Bad(last.again), last.clock)
  }

  /** The `k`th poll from `t` on finds the streak long enough and the cooldown over. */
  predicate Ripe(p: Policy, t: Trace, polls: seq<DeadPoll>, k: nat)
    requires k < |polls|
  { Streak(t) + k + 1 >= p.failStreakMax && Elapsed(LastReset(t), polls[k].clock.cooldown, p.resetCooldown) }

  /** One dead poll resets, or only lengthens the streak. */
  lemma {:induction false} DeadPollStep(p: Policy, t: Trace, poll: DeadPoll)
    requires IsDead(poll)
    ensures var after := AfterFailure(p, t, poll.err, Bad(poll.again), poll.clock);
      if Ripe(p, t, [poll], 0) then Resets(after) == Resets(t) + [poll.clock.reset] && Streak(after) == 0
      else Resets(after) == Resets(t) && Streak(after) == Streak(t) + 1 && LastReset(after) == LastReset(t)
  {
    var failed := Then(t, PollFailed(poll.clock.since, poll.err));
    var probed := Then(failed, Rediscovered(poll.clock.stamp, if poll.err.emptyAt then EmptyAnswer else Due));
    var again := Then(probed, RetryFailed(poll.clock.retried, poll.again));
    assert Streak(again) == Streak(probed) == Streak(failed) == Streak(t) + 1;
    assert LastReset(again) == LastReset(probed) == LastReset(failed) == LastReset(t);
    assert Resets(again) == Resets(probed) == Resets(failed) == Resets(t);
  }

  lemma {:induction false} UnripeRun(p: Policy, t: Trace, polls: seq<DeadPoll>)
    requires forall i :: 0 <= i < |polls| ==> IsDead(polls[i])
    requires forall k :: 0 <= k < |polls| ==> !Ripe(p, t, polls, k)
    ensures var after := AfterPolls(p, t, polls);
      Resets(after) == Resets(t) && Streak(after) == Streak(t) + |polls| && LastReset(after) == LastReset(t)
    decreases |polls|
  {
    if polls != [] {
      var front, last := polls[..|polls| - 1], polls[|polls| - 1];
      assert forall k :: 0 <= k < |front| ==> Ripe(p, t, front, k) == Ripe(p, t, polls, k);
      UnripeRun(p, t, front);
      DeadPollStep(p, AfterPolls(p, t, front), last);
      assert !Ripe(p, t, polls, |front|);
    }
  }

  /** The first ripe poll resets. */
  lemma {:induction false} RipeResets(p: Policy, t: Trace, polls: seq<DeadPoll>, k: nat)
    requires forall i :: 0 <= i < |polls| ==> IsDead(polls[i])
    requires k < |polls| && Ripe(p, t, polls, k) && forall j :: 0 <= j < k ==> !Ripe(p, t, polls, j)
    ensures Resets(t) + [polls[k].clock.reset] <= Resets(AfterPolls(p, t, polls))
    decreases |polls|
  {
    var n := |polls| - 1;
    var front, last := polls[..n], polls[n];
    assert forall i :: 0 <= i < n ==> Ripe(p, t, front, i) == Ripe(p, t, polls, i);
    DeadPollStep(p, AfterPolls(p, t, front), last);
    if k < n {
      RipeResets(p, t, front, k);
    } else {
      UnripeRun(p, t, front);
      assert Ripe(p, AfterPolls(p, t, front), [last], 0);
    }
  }

  lemma {:induction false} FirstRipe(p: Policy, t: Trace, polls: seq<DeadPoll>) returns (k: nat)
    requires exists i :: 0 <= i < |polls| && Ripe(p, t, polls, i)
    ensures k < |polls| && Ripe(p, t, polls, k) && forall j :: 0 <= j < k ==> !Ripe(p, t, polls, j)
  {
    k := 0;
    while !Ripe(p, t, polls, k)
      invariant k < |polls| && forall j :: 0 <= j < k ==> !Ripe(p, t, polls, j)
      decreases |polls| - k
    {
      k := k + 1;
    }
  }

  /** A modem that stays dead is reset: a run of such polls resets it exactly if one of them is ripe, and
      first at the first ripe one; in particular if there are enough of them, the last past the cooldown. */
  lemma {:induction false} DeadModemIsReset(p: Policy, t: Trace, polls: seq<DeadPoll>)
    requires forall i :: 0 <= i < |polls| ==> IsDead(polls[i])
    ensures Resets(t) <= Resets(AfterPolls(p, t, polls))
    ensures Resets(t) < Resets(AfterPolls(p, t, polls)) <==> exists k :: 0 <= k < |polls| && Ripe(p, t, polls, k)
    ensures forall k :: (0 <= k < |polls| && Ripe(p, t, polls, k)
        && forall j :: 0 <= j < k ==> !Ripe(p, t, polls, j)) ==>
      Resets(t) + [polls[k].clock.reset] <= Resets(AfterPolls(p, t, polls))
  {
    forall k | 0 <= k < |polls| && Ripe(p, t, polls, k) && (forall j :: 0 <= j < k ==> !Ripe(p, t, polls, j))
      ensures Resets(t) + [polls[k].clock.reset] <= Resets(AfterPolls(p, t, polls))
    {
      RipeResets(p, t, polls, k);
    }
    if exists k :: 0 <= k < |polls| && Ripe(p, t, polls, k) {
      var k := FirstRipe(p, t, polls);
    } else {
      UnripeRun(p, t, polls);
    }
  }

  /** Polls at most `span` apart, from the check of one to the rediscovery of the next. */
  predicate Paced(polls: seq<DeadPoll>, span: int) {
    && (forall i :: 0 <= i < |polls| ==> Ticks(polls[i].clock) && !polls[i].err.permission)
    && forall i, j :: 0 <= i < |polls| && 0 <= j < |polls| && j == i + 1 ==>
         polls[j].clock.stamp - polls[i].clock.since <= span
  }

  lemma {:induction false} LastOfRediscoveries(t: Trace)
    ensures LastRediscovery(t) ==
      if Rediscoveries(t) == [] then None else Some(Rediscoveries(t)[|Rediscoveries(t)| - 1])
  {
    if t.Then? { LastOfRediscoveries(t.before); }
  }

  lemma {:induction false} OneMoreRediscovery(p: Policy, t: Trace, poll: DeadPoll)
    ensures var after := AfterFailure(p, t, poll.err, Bad(poll.again), poll.clock);
      Rediscoveries(after) == Rediscoveries(t) || Rediscoveries(after) == Rediscoveries(t) + [poll.clock.stamp]
  {
    var failed := Then(t, PollFailed(poll.clock.since, poll.err));
    var probed := Then(failed, Rediscovered(poll.clock.stamp, if poll.err.emptyAt then EmptyAnswer else Due));
    var again := Then(probed, RetryFailed(poll.clock.retried, poll.again));
    assert Rediscoveries(failed) == Rediscoveries(t);
    assert Rediscoveries(again) == Rediscoveries(probed) == Rediscoveries(t) + [poll.clock.stamp];
  }

  /** A failing poll that may search leaves a rediscovery less than `rediscoverEvery` before its check. */
  lemma {:induction false} DeadPollProbes(p: Policy, t: Trace, poll: DeadPoll)
    requires p.rediscoverEvery > 0 && Ticks(poll.clock) && !poll.err.permission
    ensures var before, after := Rediscoveries(t), Rediscoveries(AfterPolls(p, t, [poll]));
      && (after == before || after == before + [poll.clock.stamp])
      && after != [] && poll.clock.since - after[|after| - 1] < p.rediscoverEvery
  {
    var after := AfterFailure(p, t, poll.err, Bad(poll.again), poll.clock);
    assert AfterPolls(p, t, [poll]) == after by { assert [poll][..0] == []; }
    OneMoreRediscovery(p, t, poll);
    FailureRediscovers(p, t, poll.err, Bad(poll.again), poll.clock);
    LastOfRediscoveries(after);
    LastOfRediscoveries(t);
    hide AfterFailure, Rediscoveries, AfterPolls, LastRediscovery;
  }

  lemma {:induction false} PollAtATime(p: Policy, t: Trace, polls: seq<DeadPoll>)
    requires polls != []
    ensures var n := |polls| - 1;
      AfterPolls(p, t, polls) == AfterPolls(p, AfterPolls(p, t, polls[..n]), [polls[n]])
  {
    assert [polls[|polls| - 1]][..0] == [];
  }

  /** From index `first` on, successive times are less than `gap` apart. */
  predicate GapsBelow(times: seq<int>, first: int, gap: int) {
    forall i, j :: first <= j < |times| && i == j - 1 >= 0 ==> times[j] - times[i] < gap
  }

  /** While polls fail the search for the port goes on: from the first of them on, rediscoveries are never as
      much as `rediscoverEvery` and one poll apart. */
  lemma {:induction false} RediscoveryGoesOn(p: Policy, t: Trace, polls: seq<DeadPoll>, span: int)
    requires Paced(polls, span) && p.rediscoverEvery > 0 && polls != []
    ensures var after := Rediscoveries(AfterPolls(p, t, polls));
      && Rediscoveries(t) <= after && after != []
      && polls[|polls| - 1].clock.since - after[|after| - 1] < p.rediscoverEvery
      && GapsBelow(after, |Rediscoveries(AfterPolls(p, t, polls[..1]))|, p.rediscoverEvery + span)
    decreases |polls|
  {
    var n := |polls| - 1;
    var front, last := polls[..n], polls[n];
    PollAtATime(p, t, polls);
    DeadPollProbes(p, AfterPolls(p, t, front), last);
    if n == 0 {
      assert polls[..1] == polls && front == [];
    } else {
      assert front[..1] == polls[..1] && front[n - 1] == polls[n - 1];
      hide Rediscoveries, AfterPolls;
      RediscoveryGoesOn(p, t, front, span);
      assert last.clock.stamp - front[n - 1].clock.since <= span;
    }
  }
}
