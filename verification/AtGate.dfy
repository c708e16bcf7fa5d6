/** The AT work queue as an interleaving of threads. Every service operation is a program of lock
    operations and of the accesses that the locks protect; a step runs one action of one thread.

    Reader-writer locks count as exclusive here, and times and values are left to the modules
    that model the operations themselves. */
module AtGate {

  // ----- Locks, programs and states -----

  /** `Gate` is `atMu`, `Service` is `s.mu`; the others are never held while taking another lock,
      except that a serial command queues notifications. */
  datatype Lock = Gate | Service | Client | Cache | Urc | Inventory | History | SmsLimit

  function Rank(l: Lock): nat {
    match l
    case Gate => 0
    case Service => 1
    case Client => 2
    case _ => 3
  }

  datatype Action =
    | Acquire(l: Lock)
    | Release(l: Lock)
    | AtCommand         // write a command, read its response
    | Snapshot          // copy the poll cache
    | Store             // write the refreshed copy back
    | Invalidate        // change the cache in place

  datatype Program = Done | Do(first: Action, rest: Program)

  /** The cache, by the writes it reflects. */
  datatype Writes = Fresh | Write(before: Writes, thread: nat, refresh: bool)

  datatype Copy = NoCopy | Copy(writes: Writes)

  datatype Thread = Thread(program: Program, copy: Copy)

  /** `log` has every write ever made; `cache` only those that a reader of the cache sees. */
  datatype State = State(threads: seq<Thread>, owner: map<Lock, nat>, cache: Writes, log: Writes)

  predicate Enabled(st: State, t: nat)
    requires t < |st.threads|
  {
    match st.threads[t].program
    case Done => false
    case Do(Acquire(l), _) => l !in st.owner
    case Do(_, _) => true
  }

  function Step(st: State, t: nat): State
    requires t < |st.threads| && Enabled(st, t)
  {
    var me := st.threads[t];
    var next := me.(program := me.program.rest);
    match me.program.first
    case Acquire(l) => st.(threads := st.threads[t := next], owner := st.owner[l := t])
    case Release(l) => st.(threads := st.threads[t := next], owner := st.owner - {l})
    case AtCommand => st.(threads := st.threads[t := next])
    case Snapshot => st.(threads := st.threads[t := next.(copy := Copy(st.cache))])
    case Store =>
      var seen := if me.copy.Copy? then me.copy.writes else st.cache;
      st.(threads := st.threads[t := next.(copy := NoCopy)],
          cache := Write(seen, t, true), log := Write(st.log, t, true))
    case Invalidate =>
      st.(threads := st.threads[t := next],
          cache := Write(st.cache, t, false), log := Write(st.log, t, false))
  }

  // ----- The discipline -----

  datatype Position = Position(held: set<Lock>, midway: bool)

  datatype Check = Ok(at: Position) | Violation

  predicate Above(held: set<Lock>, l: Lock) { forall k :: k in held ==> Rank(k) < Rank(l) }

  /** Follow one program: locks in increasing rank, nothing released that is not held, serial
      commands and cache accesses under the gate, no command under the service lock, and the gate
      kept from snapshot to store. */
  function After(p: Program, at: Position): Check {
    match p
    case Done => Ok(at)
    case Do(Acquire(l), rest) =>
      if Above(at.held, l) then After(rest, at.(held := at.held + {l})) else Violation
    case Do(Release(l), rest) =>
      if l in at.held && (l == Gate ==> !at.midway) then After(rest, at.(held := at.held - {l})) else Violation
    case Do(AtCommand, rest) =>
      if {Gate, Client} <= at.held && Service !in at.held then After(rest, at) else Violation
    case Do(Snapshot, rest) =>
      if {Gate, Cache} <= at.held && !at.midway then After(rest, at.(midway := true)) else Violation
    case Do(Store, rest) =>
      if {Gate, Cache} <= at.held && at.midway then After(rest, at.(midway := false)) else Violation
    case Do(Invalidate, rest) =>
      if {Gate, Cache} <= at.held && !at.midway then After(rest, at) else Violation
  }

  const IDLE := Position({}, false)

  predicate Disciplined(p: Program) { After(p, IDLE) == Ok(IDLE) }

  function Held(st: State, t: nat): set<Lock> { set l | l in st.owner && st.owner[l] == t }

  function PositionOf(st: State, t: nat): Position
    requires t < |st.threads|
  { Position(Held(st, t), st.threads[t].copy.Copy?) }

  ghost predicate ThreadInv(st: State, t: nat)
    requires t < |st.threads|
  {
    && After(st.threads[t].program, PositionOf(st, t)) == Ok(IDLE)
    && (st.threads[t].copy.Copy? ==> Gate in Held(st, t) && st.threads[t].copy.writes == st.cache)
  }

  ghost predicate Inv(st: State) {
    && (forall l :: l in st.owner ==> st.owner[l] < |st.threads|)
    && (forall t :: 0 <= t < |st.threads| ==> ThreadInv(st, t))
    && st.cache == st.log
  }

  // ----- Safety -----

  lemma {:induction false} OthersKeepLocks(st: State, t: nat, u: nat)
    requires Inv(st) && t < |st.threads| && Enabled(st, t) && u < |st.threads| && u != t
    ensures Held(Step(st, t), u) == Held(st, u)
    ensures Step(st, t).threads[u] == st.threads[u]
  {
    var me := st.threads[t].program;
    assert ThreadInv(st, t);
    if me.first.Release? {
      assert me.first.l in Held(st, t);
    }
  }

  lemma {:induction false} MyLocks(st: State, t: nat)
    requires Inv(st) && t < |st.threads| && Enabled(st, t)
    ensures Held(Step(st, t), t) ==
      match st.threads[t].program.first
      case Acquire(l) => Held(st, t) + {l}
      case Release(l) => Held(st, t) - {l}
      case _ => Held(st, t)
  {
  }

  lemma {:induction false} ThreadInvKept(st: State, t: nat, u: nat)
    requires Inv(st) && t < |st.threads| && Enabled(st, t) && u < |st.threads|
    ensures ThreadInv(Step(st, t), u)
  {
    assert ThreadInv(st, t) && ThreadInv(st, u);
    if u == t {
      MyLocks(st, t);
    } else {
      OthersKeepLocks(st, t, u);
      if st.threads[u].copy.Copy? {
        assert Gate in Held(st, u);
        assert Gate !in Held(st, t);
      }
    }
  }

  /** Every step of every thread keeps the invariant: in particular no store ever drops a write
      that another thread made since the snapshot. */
  lemma {:induction false} StepKeepsInv(st: State, t: nat)
    requires Inv(st) && t < |st.threads| && Enabled(st, t)
    ensures Inv(Step(st, t))
  {
    var next := Step(st, t);
    assert ThreadInv(st, t);
    forall u | 0 <= u < |next.threads| ensures ThreadInv(next, u) {
      ThreadInvKept(st, t, u);
    }
  }

  predicate TouchesPort(a: Action) { a.AtCommand? || a.Snapshot? || a.Store? || a.Invalidate? }

  /** At most one thread is about to use the port or the cache, and it owns the gate. */
  lemma {:induction false} MutualExclusion(st: State, t: nat, u: nat)
    requires Inv(st) && t < |st.threads| && u < |st.threads|
    requires st.threads[t].program.Do? && TouchesPort(st.threads[t].program.first)
    requires st.threads[u].program.Do? && TouchesPort(st.threads[u].program.first)
    ensures Gate in st.owner && st.owner[Gate] == t == u
  {
    assert ThreadInv(st, t) && ThreadInv(st, u);
    assert Gate in Held(st, t) && Gate in Held(st, u);
  }

  /** No thread is at the port while it holds the service lock. */
  lemma {:induction false} NoServiceAtPort(st: State, t: nat)
    requires Inv(st) && t < |st.threads|
    requires st.threads[t].program.Do? && st.threads[t].program.first.AtCommand?
    ensures Service in st.owner ==> st.owner[Service] != t
  {
    assert ThreadInv(st, t);
    assert Service !in Held(st, t);
  }

  // ----- Progress -----

  /** Follow the chain of lock owners from a blocked thread: ranks rise, so it ends at a thread
      that can move. */
  lemma {:induction false} FindEnabled(st: State, t: nat) returns (e: nat)
    requires Inv(st) && t < |st.threads| && st.threads[t].program.Do?
    ensures e < |st.threads| && Enabled(st, e)
    decreases if st.threads[t].program.first.Acquire? then 4 - Rank(st.threads[t].program.first.l) else 5
  {
    if Enabled(st, t) {
      e := t;
    } else {
      var l := st.threads[t].program.first.l;
      var o := st.owner[l];
      assert ThreadInv(st, t) && ThreadInv(st, o);
      assert l in Held(st, o);
      if Enabled(st, o) {
        e := o;
      } else {
        assert Above(Held(st, o), st.threads[o].program.first.l);
        e := FindEnabled(st, o);
      }
    }
  }

  /** No reachable state is deadlocked: while any thread has work left, some thread can step. */
  lemma {:induction false} NoDeadlock(st: State)
    requires Inv(st) && exists t :: 0 <= t < |st.threads| && st.threads[t].program.Do?
    ensures exists e: nat :: e < |st.threads| && Enabled(st, e)
  {
    var t :| 0 <= t < |st.threads| && st.threads[t].program.Do?;
    var e := FindEnabled(st, t);
  }

  function Length(p: Program): nat { if p.Done? then 0 else 1 + Length(p.rest) }

  function Remaining(ts: seq<Thread>): nat {
    if ts == [] then 0 else Length(ts[0].program) + Remaining(ts[1..])
  }

  lemma {:induction false} RemainingUpdate(ts: seq<Thread>, t: nat, next: Thread)
    requires t < |ts|
    ensures Remaining(ts[t := next]) == Remaining(ts) - Length(ts[t].program) + Length(next.program)
  {
    var us := ts[t := next];
    if t == 0 {
      assert us[1..] == ts[1..];
    } else {
      assert us[1..] == ts[1..][t - 1 := next];
      RemainingUpdate(ts[1..], t - 1, next);
    }
  }

  lemma {:induction false} StepShrinks(st: State, t: nat)
    requires t < |st.threads| && Enabled(st, t)
    ensures Remaining(Step(st, t).threads) == Remaining(st.threads) - 1
  {
    RemainingUpdate(st.threads, t, Step(st, t).threads[t]);
  }

  lemma {:induction false} NothingRemains(ts: seq<Thread>)
    requires Remaining(ts) == 0
    ensures forall t :: 0 <= t < |ts| ==> ts[t].program.Done?
  {
    if ts != [] {
      NothingRemains(ts[1..]);
      forall t | 0 <= t < |ts| ensures ts[t].program.Done? {
        if t > 0 { assert ts[t] == ts[1..][t - 1]; }
      }
    }
  }

  /** Runs: any schedule of enabled threads. */
  datatype Run = Begin(threads: seq<Thread>) | Next(run: Run, t: nat)

  ghost predicate IsRun(r: Run) {
    match r
    case Begin(ts) => forall t :: 0 <= t < |ts| ==> Disciplined(ts[t].program) && ts[t].copy == NoCopy
    case Next(run, t) => IsRun(run) && t < |End(run).threads| && Enabled(End(run), t)
  }

  ghost function End(r: Run): State {
    match r
    case Begin(ts) => State(ts, map[], Fresh, Fresh)
    case Next(run, t) =>
      if t < |End(run).threads| && Enabled(End(run), t) then Step(End(run), t) else End(run)
  }

  function Steps(r: Run): nat { if r.Begin? then 0 else 1 + Steps(r.run) }

  function Initial(r: Run): seq<Thread> { if r.Begin? then r.threads else Initial(r.run) }

  /** In every interleaving of disciplined programs: the cache reflects every write in order; and
      the run is exactly over when all work is done, with no lock held, after as many steps as
      there were actions. */
  lemma {:induction false} EveryRun(r: Run)
    requires IsRun(r)
    ensures Inv(End(r)) && |End(r).threads| == |Initial(r)|
    ensures Remaining(End(r).threads) + Steps(r) == Remaining(Initial(r))
    ensures (forall e: nat :: e < |End(r).threads| ==> !Enabled(End(r), e)) <==> Steps(r) == Remaining(Initial(r))
    ensures Steps(r) == Remaining(Initial(r)) ==> End(r).owner == map[]
  {
    var st := End(r);
    match r {
      case Begin(ts) =>
        forall t | 0 <= t < |ts| ensures ThreadInv(st, t) {
          assert Held(st, t) == {};
        }
      case Next(run, t) =>
        EveryRun(run);
        StepKeepsInv(End(run), t);
        StepShrinks(End(run), t);
    }
    Finished(st);
  }

  lemma {:induction false} Finished(st: State)
    requires Inv(st)
    ensures (forall e: nat :: e < |st.threads| ==> !Enabled(st, e)) <==> Remaining(st.threads) == 0
    ensures Remaining(st.threads) == 0 ==> st.owner == map[]
  {
    if Remaining(st.threads) == 0 {
      NothingRemains(st.threads);
      forall t: nat | t < |st.threads| ensures Held(st, t) == {} {
        assert ThreadInv(st, t);
      }
      forall l ensures l !in st.owner {
        if l in st.owner { NotHeld(st, l); }
      }
    } else {
      SomeWork(st.threads);
      NoDeadlock(st);
    }
  }

  lemma {:induction false} NotHeld(st: State, l: Lock)
    requires l in st.owner
    ensures Held(st, st.owner[l]) != {}
  {
    assert l in Held(st, st.owner[l]);
  }

  lemma {:induction false} SomeWork(ts: seq<Thread>)
    requires Remaining(ts) > 0
    ensures exists t :: 0 <= t < |ts| && ts[t].program.Do?
  {
    if ts[0].program.Done? {
      SomeWork(ts[1..]);
      var t :| 0 <= t < |ts[1..]| && ts[1..][t].program.Do?;
      assert ts[t + 1] == ts[1..][t];
    }
  }

  // ----- The gate is needed -----

  function Append(p: Program, q: Program): Program {
    match p
    case Done => q
    case Do(a, rest) => Do(a, Append(rest, q))
  }

  function Locked(l: Lock, body: Program): Program {
    Do(Acquire(l), Append(body, Do(Release(l), Done)))
  }

  function One(a: Action): Program { Do(a, Done) }

  /** With the cache mutex alone, a store can drop another thread's invalidation. */
  lemma {:induction false} UngatedStoreLosesInvalidation() returns (st: State)
    ensures st.threads == [Thread(Done, NoCopy), Thread(Done, NoCopy)] && st.owner == map[]
    ensures st.log == Write(Write(Fresh, 1, false), 0, true) && st.cache == Write(Fresh, 0, true)
  {
    var poller := Append(Locked(Cache, One(Snapshot)), Locked(Cache, One(Store)));
    var setter := Locked(Cache, One(Invalidate));
    st := State([Thread(poller, NoCopy), Thread(setter, NoCopy)], map[], Fresh, Fresh);
    st := Step(Step(Step(st, 0), 0), 0);
    assert st.owner == map[] && st.cache == Fresh;
    st := Step(Step(Step(st, 1), 1), 1);
    assert st.owner == map[] && st.cache == Write(Fresh, 1, false);
    st := Step(Step(Step(st, 0), 0), 0);
  }
}
