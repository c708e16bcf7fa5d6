/** The service operations as programs for the AT gate. Each function is one operation with its
    branches and loop counts as parameters; every choice obeys the gate's discipline. */
module AtOperations {
  import opened AtGate

  // ----- Building blocks -----

  function Chain(ps: seq<Program>): Program { if ps == [] then Done else Append(ps[0], Chain(ps[1..])) }

  function Times(n: nat, p: Program): Program { if n == 0 then Done else Append(p, Times(n - 1, p)) }

  function When(b: bool, p: Program): Program { if b then p else Done }

  /** A short critical section that touches nothing modelled here. */
  function Brief(l: Lock): Program { Locked(l, Done) }

  /** One serial command whose response carries `urcs` notifications. */
  function Command(urcs: nat): Program { Locked(Client, Append(One(AtCommand), Times(urcs, Brief(Urc)))) }

  /** Serial commands, one per entry. */
  function Commands(urcs: seq<nat>): Program {
    if urcs == [] then Done else Append(Command(urcs[0]), Commands(urcs[1..]))
  }

  function CacheAccess(a: Action): Program { Locked(Cache, One(a)) }

  /** `SetPortName` of the tiered client: a changed name resets the cache. */
  function SetPort(changed: bool): Program {
    Chain([Brief(Client), Brief(Client), When(changed, CacheAccess(Invalidate))])
  }

  /** The cached part of a poll: snapshot, the commands that are due, store. */
  function Refresh(due: seq<nat>): Program {
    Append(CacheAccess(Snapshot), Append(Commands(due), CacheAccess(Store)))
  }

  /** `GetFullStatus`: connection check, fast commands, and unless the first of them fails the
      cached part. */
  function FullStatus(fast: seq<nat>, due: seq<nat>, answered: bool): Program {
    Chain([Brief(Client), Brief(Client), Commands(fast), When(answered, Refresh(due))])
  }

  /** `rediscoverATPort`. */
  function Rediscover(found: bool, changed: bool): Program {
    Chain([Brief(Client), Brief(Client), When(found, SetPort(changed))])
  }

  /** `buildInventoryLocked` under the service lock. */
  function BuildInventory(): Program { Locked(Service, Chain([Brief(Client), Brief(Inventory)])) }

  /** The end of a poll: port name, then a history sample or the port closed after a USB reset. */
  function Conclude(sample: bool): Program {
    Locked(Service, Chain([Brief(Client), if sample then Brief(History) else Brief(Client)]))
  }

  // ----- Operations -----

  datatype Operation =
    | PollAbsent
    | PollAnswered(fast: seq<nat>, due: seq<nat>)
    | PollFailed(fast: seq<nat>, retry: bool, found: bool, changed: bool, fast2: seq<nat>, due2: seq<nat>,
      answered2: bool)
    | Setter(commands: seq<nat>, accepted: bool)          // APN, radio mode
    | RawCommand(commands: seq<nat>)
    | SelectModem(switchPort: bool, changed: bool)
    | UsbReset(done: bool)
    | UsbMode(commands: seq<nat>, accepted: bool, found: bool, changed: bool, query: seq<nat>)
    | SendSms(admitted: bool, commands: seq<nat>, recorded: bool)
    | RndisConnect(activate: seq<nat>, active: bool, query: seq<nat>, queried: bool, waits: nat, wait: seq<nat>)
    | RndisDisconnect(commands: seq<nat>, accepted: bool)
    | ReadStatus                                          // `CachedStatus`

  /** What an operation does inside its gated section. */
  function GatedPart(op: Operation): Program {
    match op
    case PollAbsent => Brief(Service)
    case PollAnswered(fast, due) => Chain([Brief(Client), FullStatus(fast, due, true), Conclude(true)])
    case PollFailed(fast, retry, found, changed, fast2, due2, answered2) =>
      Chain([Brief(Client), FullStatus(fast, [], false), Conclude(false),
             When(retry, Rediscover(found, changed)), When(retry, FullStatus(fast2, due2, answered2)),
             When(retry, Conclude(answered2))])
    case Setter(commands, accepted) => Chain([Commands(commands), When(accepted, CacheAccess(Invalidate))])
    case RawCommand(commands) => Commands(commands)
    case SelectModem(_, changed) => Chain([Brief(Client), When(changed, SetPort(true)), When(changed, Brief(Client))])
    case UsbReset(done) => When(done, Brief(Client))
    case UsbMode(commands, accepted, found, changed, query) =>
      Chain([Commands(commands), When(accepted, Brief(Client)), When(accepted, CacheAccess(Invalidate)),
             When(accepted, Brief(Service)), When(accepted, Rediscover(found, changed)), Commands(query)])
    case SendSms(_, commands, _) => Commands(commands)
    case RndisConnect(activate, active, query, queried, _, _) =>
      Chain([Commands(activate), When(active, CacheAccess(Invalidate)), When(active, Commands(query)),
             When(active && queried, CacheAccess(Invalidate))])
    case RndisDisconnect(commands, accepted) => Chain([Commands(commands), When(accepted, CacheAccess(Invalidate))])
    case ReadStatus => Done
  }

  function ProgramOf(op: Operation): Program {
    var gated := Locked(Gate, GatedPart(op));
    match op
    case SelectModem(switchPort, _) => Chain([BuildInventory(), When(switchPort, gated), BuildInventory()])
    case SendSms(admitted, _, recorded) =>
      Chain([Brief(SmsLimit), When(admitted, gated), When(admitted && recorded, Brief(SmsLimit))])
    case RndisConnect(_, _, _, _, waits, wait) =>
      Chain([gated, Brief(Service), Times(waits, Locked(Gate, Commands(wait))), Brief(Service)])
    case RndisDisconnect(_, _) => Chain([BuildInventory(), Brief(Service), gated])
    case ReadStatus => Brief(Service)
    case _ => gated
  }

  /** A thread performs operations one after the other. */
  function ProgramOfAll(ops: seq<Operation>): Program {
    if ops == [] then Done else Append(ProgramOf(ops[0]), ProgramOfAll(ops[1..]))
  }

  // ----- Discipline -----

  lemma {:induction false} AfterAppend(p: Program, q: Program, at: Position)
    ensures After(Append(p, q), at) == match After(p, at) { case Ok(mid) => After(q, mid) case Violation => Violation }
  {
    match p {
      case Done =>
      case Do(a, rest) =>
        match a {
          case Acquire(l) => AfterAppend(rest, q, at.(held := at.held + {l}));
          case Release(l) => AfterAppend(rest, q, at.(held := at.held - {l}));
          case Snapshot => AfterAppend(rest, q, at.(midway := true));
          case Store => AfterAppend(rest, q, at.(midway := false));
          case _ => AfterAppend(rest, q, at);
        }
    }
  }

  /** `p` runs without violation from `at` and comes back to it. */
  predicate Returns(p: Program, at: Position) { After(p, at) == Ok(at) }

  lemma {:induction false} ReturnsAppend(p: Program, q: Program, at: Position)
    requires Returns(p, at) && Returns(q, at)
    ensures Returns(Append(p, q), at)
  {
    AfterAppend(p, q, at);
  }

  lemma {:induction false} ReturnsChain(ps: seq<Program>, at: Position)
    requires forall i :: 0 <= i < |ps| ==> Returns(ps[i], at)
    ensures Returns(Chain(ps), at)
  {
    if ps != [] {
      ReturnsChain(ps[1..], at);
      ReturnsAppend(ps[0], Chain(ps[1..]), at);
    }
  }

  lemma {:induction false} ReturnsTimes(n: nat, p: Program, at: Position)
    requires Returns(p, at)
    ensures Returns(Times(n, p), at)
  {
    if n > 0 {
      ReturnsTimes(n - 1, p, at);
      ReturnsAppend(p, Times(n - 1, p), at);
    }
  }

  /** The position inside a critical section. */
  function Inside(at: Position, l: Lock): Position { at.(held := at.held + {l}) }

  lemma {:induction false} LockedAfter(l: Lock, body: Program, at: Position, to: Position)
    requires Above(at.held, l) && to.held == at.held && (l == Gate ==> !to.midway)
    requires After(body, Inside(at, l)) == Ok(Inside(to, l))
    ensures After(Locked(l, body), at) == Ok(to)
  {
    AfterAppend(body, Do(Release(l), Done), Inside(at, l));
    assert l !in at.held;
    assert at.held + {l} - {l} == at.held;
  }

  lemma {:induction false} BriefReturns(l: Lock, at: Position)
    requires Above(at.held, l) && l != Gate
    ensures Returns(Brief(l), at)
  {
    LockedAfter(l, Done, at, at);
  }

  /** Holding the gate, possibly with a snapshot taken. */
  function Gated(midway: bool): Position { Position({Gate}, midway) }

  lemma {:induction false} CommandsReturn(urcs: seq<nat>, midway: bool)
    ensures Returns(Commands(urcs), Gated(midway))
  {
    if urcs != [] {
      var at := Gated(midway);
      var inside := Inside(at, Client);
      BriefReturns(Urc, inside);
      ReturnsTimes(urcs[0], Brief(Urc), inside);
      ReturnsAppend(One(AtCommand), Times(urcs[0], Brief(Urc)), inside);
      LockedAfter(Client, Append(One(AtCommand), Times(urcs[0], Brief(Urc))), at, at);
      CommandsReturn(urcs[1..], midway);
      ReturnsAppend(Command(urcs[0]), Commands(urcs[1..]), at);
    }
  }

  lemma {:induction false} InvalidateReturns()
    ensures Returns(CacheAccess(Invalidate), Gated(false))
  {
    LockedAfter(Cache, One(Invalidate), Gated(false), Gated(false));
  }

  lemma {:induction false} SetPortReturns(changed: bool)
    ensures Returns(SetPort(changed), Gated(false))
  {
    BriefReturns(Client, Gated(false));
    InvalidateReturns();
    ReturnsChain([Brief(Client), Brief(Client), When(changed, CacheAccess(Invalidate))], Gated(false));
  }

  /** Between snapshot and store the gate stays closed to every other thread. */
  lemma {:induction false} RefreshReturns(due: seq<nat>)
    ensures Returns(Refresh(due), Gated(false))
  {
    LockedAfter(Cache, One(Snapshot), Gated(false), Gated(true));
    CommandsReturn(due, true);
    LockedAfter(Cache, One(Store), Gated(true), Gated(false));
    AfterAppend(Commands(due), CacheAccess(Store), Gated(true));
    AfterAppend(CacheAccess(Snapshot), Append(Commands(due), CacheAccess(Store)), Gated(false));
  }

  lemma {:induction false} FullStatusReturns(fast: seq<nat>, due: seq<nat>, answered: bool)
    ensures Returns(FullStatus(fast, due, answered), Gated(false))
  {
    BriefReturns(Client, Gated(false));
    CommandsReturn(fast, false);
    RefreshReturns(due);
    ReturnsChain([Brief(Client), Brief(Client), Commands(fast), When(answered, Refresh(due))], Gated(false));
  }

  lemma {:induction false} RediscoverReturns(found: bool, changed: bool)
    ensures Returns(Rediscover(found, changed), Gated(false))
  {
    BriefReturns(Client, Gated(false));
    SetPortReturns(changed);
    ReturnsChain([Brief(Client), Brief(Client), When(found, SetPort(changed))], Gated(false));
  }

  lemma {:induction false} ConcludeReturns(sample: bool)
    ensures Returns(Conclude(sample), Gated(false))
  {
    var body := [Brief(Client), if sample then Brief(History) else Brief(Client)];
    BriefReturns(Client, Inside(Gated(false), Service));
    BriefReturns(History, Inside(Gated(false), Service));
    ReturnsChain(body, Inside(Gated(false), Service));
    LockedAfter(Service, Chain(body), Gated(false), Gated(false));
  }

  lemma {:induction false} BuildInventoryReturns()
    ensures Returns(BuildInventory(), IDLE)
  {
    var body := [Brief(Client), Brief(Inventory)];
    BriefReturns(Client, Inside(IDLE, Service));
    BriefReturns(Inventory, Inside(IDLE, Service));
    ReturnsChain(body, Inside(IDLE, Service));
    LockedAfter(Service, Chain(body), IDLE, IDLE);
  }

  /** The blocks that a gated section is chained from. */
  lemma {:induction false} BlocksReturn(commands: seq<nat>, b: bool)
    ensures Returns(Brief(Client), Gated(false)) && Returns(Brief(Service), Gated(false))
    ensures Returns(Commands(commands), Gated(false)) && Returns(CacheAccess(Invalidate), Gated(false))
    ensures Returns(SetPort(b), Gated(false)) && Returns(Conclude(b), Gated(false)) && Returns(Done, Gated(false))
  {
    BriefReturns(Client, Gated(false));
    BriefReturns(Service, Gated(false));
    CommandsReturn(commands, false);
    InvalidateReturns();
    SetPortReturns(b);
    ConcludeReturns(b);
  }

  lemma {:induction false} PollReturns(op: Operation)
    requires op.PollAnswered? || op.PollFailed?
    ensures Returns(GatedPart(op), Gated(false))
  {
    BlocksReturn([], true);
    BlocksReturn([], false);
    if op.PollAnswered? {
      FullStatusReturns(op.fast, op.due, true);
    } else {
      FullStatusReturns(op.fast, [], false);
      RediscoverReturns(op.found, op.changed);
      FullStatusReturns(op.fast2, op.due2, op.answered2);
      ConcludeReturns(op.answered2);
    }
    hide Returns, FullStatus, Rediscover, Conclude, Brief, Chain, Gated;
    if op.PollAnswered? {
      ReturnsChain([Brief(Client), FullStatus(op.fast, op.due, true), Conclude(true)], Gated(false));
    } else {
      ReturnsChain([Brief(Client), FullStatus(op.fast, [], false), Conclude(false),
                    When(op.retry, Rediscover(op.found, op.changed)),
                    When(op.retry, FullStatus(op.fast2, op.due2, op.answered2)),
                    When(op.retry, Conclude(op.answered2))], Gated(false));
    }
  }

  lemma {:induction false} UsbModeReturns(op: Operation)
    requires op.UsbMode?
    ensures Returns(GatedPart(op), Gated(false))
  {
    BlocksReturn(op.commands, true);
    BlocksReturn(op.query, true);
    RediscoverReturns(op.found, op.changed);
    hide Returns, Rediscover, Brief, Commands, CacheAccess, Chain, Gated;
    ReturnsChain([Commands(op.commands), When(op.accepted, Brief(Client)), When(op.accepted, CacheAccess(Invalidate)),
                  When(op.accepted, Brief(Service)), When(op.accepted, Rediscover(op.found, op.changed)),
                  Commands(op.query)],
                 Gated(false));
  }

  lemma {:induction false} RndisConnectReturns(op: Operation)
    requires op.RndisConnect?
    ensures Returns(GatedPart(op), Gated(false))
  {
    BlocksReturn(op.activate, true);
    BlocksReturn(op.query, true);
    hide Returns, Brief, Commands, CacheAccess, Chain, Gated;
    ReturnsChain([Commands(op.activate), When(op.active, CacheAccess(Invalidate)), When(op.active, Commands(op.query)),
                  When(op.active && op.queried, CacheAccess(Invalidate))], Gated(false));
  }

  lemma {:induction false} ControlReturns(op: Operation)
    requires !op.PollAnswered? && !op.PollFailed? && !op.UsbMode? && !op.RndisConnect?
    ensures Returns(GatedPart(op), Gated(false))
  {
    BlocksReturn(match op
      case Setter(commands, _) => commands
      case RawCommand(commands) => commands
      case SendSms(_, commands, _) => commands
      case RndisDisconnect(commands, _) => commands
      case _ => [], true);
    hide Returns, SetPort, Brief, Commands, CacheAccess, Chain, Gated;
    match op {
      case Setter(commands, accepted) =>
        ReturnsChain([Commands(commands), When(accepted, CacheAccess(Invalidate))], Gated(false));
      case SelectModem(_, changed) =>
        ReturnsChain([Brief(Client), When(changed, SetPort(true)), When(changed, Brief(Client))], Gated(false));
      case RndisDisconnect(commands, accepted) =>
        ReturnsChain([Commands(commands), When(accepted, CacheAccess(Invalidate))], Gated(false));
      case _ =>
    }
  }

  lemma {:induction false} ReturnsGated(body: Program)
    requires Returns(body, Gated(false))
    ensures Returns(Locked(Gate, body), IDLE)
  {
    assert Inside(IDLE, Gate) == Gated(false);
    LockedAfter(Gate, body, IDLE, IDLE);
  }

  lemma {:induction false} DoneReturns(at: Position)
    ensures Returns(Done, at)
  {
  }

  /** Every service operation, whatever its branches, obeys the discipline. */
  lemma {:induction false} OperationDisciplined(op: Operation)
    ensures Disciplined(ProgramOf(op))
  {
    hide After, GatedPart, Brief, BuildInventory, Locked, Times, Commands, Chain;
    var gated := Locked(Gate, GatedPart(op));
    match op {
      case PollAnswered(_, _) => PollReturns(op);
      case PollFailed(_, _, _, _, _, _, _) => PollReturns(op);
      case UsbMode(_, _, _, _, _) => UsbModeReturns(op);
      case RndisConnect(_, _, _, _, _, _) => RndisConnectReturns(op);
      case _ => ControlReturns(op);
    }
    ReturnsGated(GatedPart(op));
    BuildInventoryReturns();
    BriefReturns(Service, IDLE);
    BriefReturns(SmsLimit, IDLE);
    DoneReturns(IDLE);
    if op.RndisConnect? {
      CommandsReturn(op.wait, false);
      ReturnsGated(Commands(op.wait));
      ReturnsTimes(op.waits, Locked(Gate, Commands(op.wait)), IDLE);
    }
    match op {
      case SelectModem(switchPort, _) =>
        ReturnsChain([BuildInventory(), When(switchPort, gated), BuildInventory()], IDLE);
      case SendSms(admitted, _, recorded) =>
        ReturnsChain([Brief(SmsLimit), When(admitted, gated), When(admitted && recorded, Brief(SmsLimit))], IDLE);
      case RndisConnect(_, _, _, _, waits, wait) =>
        ReturnsChain([gated, Brief(Service), Times(waits, Locked(Gate, Commands(wait))), Brief(Service)], IDLE);
      case RndisDisconnect(_, _) =>
        ReturnsChain([BuildInventory(), Brief(Service), gated], IDLE);
      case _ =>
    }
  }

  lemma {:induction false} ThreadDisciplined(ops: seq<Operation>)
    ensures Disciplined(ProgramOfAll(ops))
  {
    if ops != [] {
      OperationDisciplined(ops[0]);
      ThreadDisciplined(ops[1..]);
      ReturnsAppend(ProgramOf(ops[0]), ProgramOfAll(ops[1..]), IDLE);
    }
  }

  /** Any number of threads, each with any list of operations. */
  function Threads(work: seq<seq<Operation>>): seq<Thread> {
    seq(|work|, i requires 0 <= i < |work| => Thread(ProgramOfAll(work[i]), NoCopy))
  }

  predicate AtPort(st: State, t: nat)
    requires t < |st.threads|
  { st.threads[t].program.Do? && st.threads[t].program.first.AtCommand? }

  predicate WaitsFor(st: State, t: nat, l: Lock)
    requires t < |st.threads|
  { st.threads[t].program.Do? && st.threads[t].program.first == Acquire(l) && l in st.owner }

  /** In every interleaving of the service's operations: the gate has one owner while the port or
      the cache is used, no write to the cache is lost, no thread is at the port while it holds the
      service lock, and until all work is done some thread can move. */
  lemma {:induction false} ServiceRun(r: Run, work: seq<seq<Operation>>)
    requires IsRun(r) && Initial(r) == Threads(work)
    ensures End(r).cache == End(r).log
    ensures forall t: nat, u: nat ::
      && t < |End(r).threads| && u < |End(r).threads|
      && End(r).threads[t].program.Do? && TouchesPort(End(r).threads[t].program.first)
      && End(r).threads[u].program.Do? && TouchesPort(End(r).threads[u].program.first)
      ==> t == u
    ensures forall t: nat :: t < |End(r).threads| && AtPort(End(r), t) && Service in End(r).owner ==>
      End(r).owner[Service] != t
    ensures Steps(r) < Remaining(Threads(work)) ==> exists e: nat :: e < |End(r).threads| && Enabled(End(r), e)
    ensures Steps(r) <= Remaining(Threads(work))
  {
    EveryRun(r);
    forall t: nat, u: nat |
      && t < |End(r).threads| && u < |End(r).threads|
      && End(r).threads[t].program.Do? && TouchesPort(End(r).threads[t].program.first)
      && End(r).threads[u].program.Do? && TouchesPort(End(r).threads[u].program.first)
      ensures t == u
    {
      MutualExclusion(End(r), t, u);
    }
    forall t: nat | t < |End(r).threads| && AtPort(End(r), t) && Service in End(r).owner
      ensures End(r).owner[Service] != t
    {
      NoServiceAtPort(End(r), t);
    }
  }

  /** The service's threads are a legitimate start of a run. */
  lemma {:induction false} ServiceStarts(work: seq<seq<Operation>>)
    ensures IsRun(Begin(Threads(work)))
  {
    forall t | 0 <= t < |work| ensures Disciplined(Threads(work)[t].program) {
      ThreadDisciplined(work[t]);
    }
  }

  // ----- What operations ask and write -----

  function Once(b: bool): nat { if b then 1 else 0 }

  function Count(p: Program, a: Action): nat { if p.Done? then 0 else Once(p.first == a) + Count(p.rest, a) }

  /** An access to port or cache that is counted. */
  predicate Counted(a: Action) { a.AtCommand? || a.Store? || a.Invalidate? }

  /** The serial commands an operation sends. */
  function Sends(op: Operation): nat {
    match op
    case PollAnswered(fast, due) => |fast| + |due|
    case PollFailed(fast, retry, _, _, fast2, due2, answered2) =>
      |fast| + (if retry then |fast2| + (if answered2 then |due2| else 0) else 0)
    case Setter(commands, _) => |commands|
    case RawCommand(commands) => |commands|
    case UsbMode(commands, _, _, _, query) => |commands| + |query|
    case SendSms(admitted, commands, _) => if admitted then |commands| else 0
    case RndisConnect(activate, active, query, _, waits, wait) =>
      |activate| + (if active then |query| else 0) + waits * |wait|
    case RndisDisconnect(commands, _) => |commands|
    case _ => 0
  }

  /** Only a poll that is answered, at once or on its retry, stores a refreshed copy of the cache. */
  predicate Stores(op: Operation) { op.PollAnswered? || (op.PollFailed? && op.retry && op.answered2) }

  /** The cache is changed in place for each setter, activation, session, deactivation and USB mode that the
      modem accepts, and for each AT port that becomes another one. */
  function Changes(op: Operation): nat {
    match op
    case Setter(_, accepted) => Once(accepted)
    case RndisDisconnect(_, accepted) => Once(accepted)
    case RndisConnect(_, active, _, queried, _, _) => Once(active) + Once(active && queried)
    case UsbMode(_, accepted, found, changed, _) => Once(accepted) + Once(accepted && found && changed)
    case PollFailed(_, retry, found, changed, _, _, _) => Once(retry && found && changed)
    case SelectModem(switchPort, changed) => Once(switchPort && changed)
    case _ => 0
  }

  function Promised(op: Operation, a: Action): nat {
    match a
    case AtCommand => Sends(op)
    case Store => Once(Stores(op))
    case Invalidate => Changes(op)
    case _ => 0
  }

  lemma {:induction false} CountAppend(p: Program, q: Program, a: Action)
    ensures Count(Append(p, q), a) == Count(p, a) + Count(q, a)
  {
    if p.Do? { CountAppend(p.rest, q, a); }
  }

  lemma {:induction false} CountLocked(l: Lock, body: Program, a: Action)
    requires Counted(a)
    ensures Count(Locked(l, body), a) == Count(body, a)
  {
    CountAppend(body, Do(Release(l), Done), a);
  }

  lemma {:induction false} CountTimes(n: nat, p: Program, a: Action)
    ensures Count(Times(n, p), a) == n * Count(p, a)
  {
    if n > 0 {
      CountTimes(n - 1, p, a);
      CountAppend(p, Times(n - 1, p), a);
      assert n * Count(p, a) == (n - 1) * Count(p, a) + Count(p, a);
    }
  }

  function CountAt(ps: seq<Program>, i: nat, a: Action): nat { if i < |ps| then Count(ps[i], a) else 0 }

  lemma {:induction false} CountChain(ps: seq<Program>, a: Action)
    requires |ps| <= 6
    ensures Count(Chain(ps), a) == CountAt(ps, 0, a) + CountAt(ps, 1, a) + CountAt(ps, 2, a)
      + CountAt(ps, 3, a) + CountAt(ps, 4, a) + CountAt(ps, 5, a)
  {
    if ps != [] {
      CountChain(ps[1..], a);
      CountAppend(ps[0], Chain(ps[1..]), a);
      hide Count;
    }
  }

  lemma {:induction false} CountBrief(a: Action)
    requires Counted(a)
    ensures forall l :: Count(Brief(l), a) == 0
    ensures Count(Done, a) == 0
  {
    forall l ensures Count(Brief(l), a) == 0 { CountLocked(l, Done, a); }
  }

  lemma {:induction false} CountCommands(urcs: seq<nat>, a: Action)
    requires Counted(a)
    ensures Count(Commands(urcs), a) == if a.AtCommand? then |urcs| else 0
  {
    if urcs != [] {
      var u := urcs[0];
      CountCommand(u, a);
      CountCommands(urcs[1..], a);
      CountAppend(Command(u), Commands(urcs[1..]), a);
      hide Count, Command;
    }
  }

  lemma {:induction false} CountCommand(u: nat, a: Action)
    requires Counted(a)
    ensures Count(Command(u), a) == Once(a.AtCommand?)
  {
    CountBrief(a);
    CountTimes(u, Brief(Urc), a);
    CountOne(AtCommand, a);
    CountAppend(One(AtCommand), Times(u, Brief(Urc)), a);
    CountLocked(Client, Append(One(AtCommand), Times(u, Brief(Urc))), a);
    hide Count, Times, Brief, One;
  }

  lemma {:induction false} CountOne(b: Action, a: Action)
    ensures Count(One(b), a) == Once(a == b)
  {
    assert Count(Done, a) == 0;
  }

  lemma {:induction false} CountAccess(b: Action, a: Action)
    requires Counted(a)
    ensures Count(CacheAccess(b), a) == Once(a == b)
  {
    CountOne(b, a);
    CountLocked(Cache, One(b), a);
    hide Count, One, Locked;
  }

  lemma {:induction false} CountRefresh(due: seq<nat>, a: Action)
    requires Counted(a)
    ensures Count(Refresh(due), a) == (if a.AtCommand? then |due| else 0) + Once(a.Store?)
  {
    CountAccess(Snapshot, a);
    CountAccess(Store, a);
    CountCommands(due, a);
    CountAppend(Commands(due), CacheAccess(Store), a);
    CountAppend(CacheAccess(Snapshot), Append(Commands(due), CacheAccess(Store)), a);
    hide Count, Commands, CacheAccess;
  }

  lemma {:induction false} CountFullStatus(fast: seq<nat>, due: seq<nat>, answered: bool, a: Action)
    requires Counted(a)
    ensures Count(FullStatus(fast, due, answered), a) ==
      (if a.AtCommand? then |fast| + (if answered then |due| else 0) else 0) + Once(a.Store? && answered)
  {
    CountBrief(a);
    CountCommands(fast, a);
    CountRefresh(due, a);
    CountChain([Brief(Client), Brief(Client), Commands(fast), When(answered, Refresh(due))], a);
    hide Count, Chain, Brief, Commands, Refresh;
  }

  lemma {:induction false} CountPort(found: bool, changed: bool, a: Action)
    requires Counted(a)
    ensures Count(SetPort(changed), a) == Once(a.Invalidate? && changed)
    ensures Count(Rediscover(found, changed), a) == Once(a.Invalidate? && found && changed)
  {
    CountBrief(a);
    CountAccess(Invalidate, a);
    CountChain([Brief(Client), Brief(Client), When(changed, CacheAccess(Invalidate))], a);
    CountChain([Brief(Client), Brief(Client), When(found, SetPort(changed))], a);
    hide Count, Chain, Brief, CacheAccess;
  }

  lemma {:induction false} CountService(sample: bool, a: Action)
    requires Counted(a)
    ensures Count(Conclude(sample), a) == Count(BuildInventory(), a) == 0
  {
    CountBrief(a);
    var end := [Brief(Client), if sample then Brief(History) else Brief(Client)];
    CountChain(end, a);
    CountChain([Brief(Client), Brief(Inventory)], a);
    CountLocked(Service, Chain(end), a);
    CountLocked(Service, Chain([Brief(Client), Brief(Inventory)]), a);
    hide Count, Chain, Brief, Locked;
  }

  lemma {:induction false} CountAnswered(fast: seq<nat>, due: seq<nat>, a: Action)
    requires Counted(a)
    ensures Count(GatedPart(PollAnswered(fast, due)), a) == Promised(PollAnswered(fast, due), a)
  {
    CountBrief(a);
    CountService(true, a);
    CountFullStatus(fast, due, true, a);
    hide Count, Chain, Brief, FullStatus, Conclude;
    CountChain([Brief(Client), FullStatus(fast, due, true), Conclude(true)], a);
  }

  lemma {:induction false} CountFailed(op: Operation, a: Action)
    requires Counted(a) && op.PollFailed?
    ensures Count(GatedPart(op), a) == Promised(op, a)
  {
    CountBrief(a);
    CountService(false, a);
    CountService(op.answered2, a);
    CountFullStatus(op.fast, [], false, a);
    CountFullStatus(op.fast2, op.due2, op.answered2, a);
    CountPort(op.found, op.changed, a);
    hide Count, Chain, Brief, FullStatus, Rediscover, Conclude;
    CountChain([Brief(Client), FullStatus(op.fast, [], false), Conclude(false),
                When(op.retry, Rediscover(op.found, op.changed)),
                When(op.retry, FullStatus(op.fast2, op.due2, op.answered2)),
                When(op.retry, Conclude(op.answered2))], a);
  }

  lemma {:induction false} CountUsbMode(op: Operation, a: Action)
    requires Counted(a) && op.UsbMode?
    ensures Count(GatedPart(op), a) == Promised(op, a)
  {
    CountBrief(a);
    CountAccess(Invalidate, a);
    CountCommands(op.commands, a);
    CountCommands(op.query, a);
    CountPort(op.found, op.changed, a);
    hide Count, Chain, Brief, Commands, Rediscover, CacheAccess;
    CountChain([Commands(op.commands), When(op.accepted, Brief(Client)), When(op.accepted, CacheAccess(Invalidate)),
                When(op.accepted, Brief(Service)), When(op.accepted, Rediscover(op.found, op.changed)),
                Commands(op.query)], a);
  }

  lemma {:induction false} CountRndisConnect(op: Operation, a: Action)
    requires Counted(a) && op.RndisConnect?
    ensures Count(GatedPart(op), a) == Promised(op.(waits := 0), a)
  {
    CountBrief(a);
    CountAccess(Invalidate, a);
    CountCommands(op.activate, a);
    CountCommands(op.query, a);
    hide Count, Chain, Brief, Commands, CacheAccess;
    CountChain([Commands(op.activate), When(op.active, CacheAccess(Invalidate)), When(op.active, Commands(op.query)),
                When(op.active && op.queried, CacheAccess(Invalidate))], a);
  }

  lemma {:induction false} CountSelect(op: Operation, a: Action)
    requires Counted(a) && op.SelectModem?
    ensures Count(GatedPart(op), a) == Promised(op.(switchPort := true), a)
  {
    CountBrief(a);
    CountPort(true, true, a);
    hide Count, Chain, Brief, SetPort;
    CountChain([Brief(Client), When(op.changed, SetPort(true)), When(op.changed, Brief(Client))], a);
  }

  lemma {:induction false} CountChange(op: Operation, a: Action)
    requires Counted(a) && (op.Setter? || op.RndisDisconnect?)
    ensures Count(GatedPart(op), a) == Promised(op, a)
  {
    CountBrief(a);
    CountAccess(Invalidate, a);
    CountCommands(op.commands, a);
    hide Count, Chain, Commands, CacheAccess;
    CountChain([Commands(op.commands), When(op.accepted, CacheAccess(Invalidate))], a);
  }

  /** The operation as if it got to its gated section, without waiting after it. */
  function Within(op: Operation): Operation {
    match op
    case SelectModem(_, changed) => SelectModem(true, changed)
    case SendSms(_, commands, recorded) => SendSms(true, commands, recorded)
    case RndisConnect(_, _, _, _, _, _) => op.(waits := 0)
    case _ => op
  }

  lemma {:induction false} CountGated(op: Operation, a: Action)
    requires Counted(a)
    ensures Count(GatedPart(op), a) == Promised(Within(op), a)
  {
    match op {
      case PollAnswered(fast, due) => CountAnswered(fast, due, a);
      case PollFailed(_, _, _, _, _, _, _) => CountFailed(op, a);
      case Setter(_, _) => CountChange(op, a);
      case RndisDisconnect(_, _) => CountChange(op, a);
      case RawCommand(commands) => CountCommands(commands, a);
      case SendSms(_, commands, _) => CountCommands(commands, a);
      case SelectModem(_, _) => CountSelect(op, a);
      case UsbMode(_, _, _, _, _) => CountUsbMode(op, a);
      case RndisConnect(_, _, _, _, _, _) => CountRndisConnect(op, a);
      case _ => CountBrief(a);
    }
    hide Count, Chain, Brief, Commands, SetPort, Rediscover, CacheAccess;
  }

  lemma {:induction false} AroundConnect(op: Operation, a: Action)
    requires Counted(a) && op.RndisConnect?
    ensures Count(ProgramOf(op), a) == Count(GatedPart(op), a) + op.waits * Count(Commands(op.wait), a)
  {
    var gated, wait := Locked(Gate, GatedPart(op)), Locked(Gate, Commands(op.wait));
    CountLocked(Gate, GatedPart(op), a);
    CountLocked(Gate, Commands(op.wait), a);
    CountTimes(op.waits, wait, a);
    CountBrief(a);
    hide Count, Chain, Brief, Commands, GatedPart, Times, Locked;
    CountChain([gated, Brief(Service), Times(op.waits, wait), Brief(Service)], a);
  }

  lemma {:induction false} AroundOthers(op: Operation, a: Action)
    requires Counted(a) && (op.SelectModem? || op.SendSms? || op.RndisDisconnect?)
    ensures var runs := (op.SelectModem? ==> op.switchPort) && (op.SendSms? ==> op.admitted);
      Count(ProgramOf(op), a) == if runs then Count(GatedPart(op), a) else 0
  {
    var gated := Locked(Gate, GatedPart(op));
    CountLocked(Gate, GatedPart(op), a);
    CountBrief(a);
    CountService(true, a);
    hide Count, Chain, Brief, Commands, GatedPart, BuildInventory, Locked;
    match op {
      case SelectModem(switchPort, _) =>
        CountChain([BuildInventory(), When(switchPort, gated), BuildInventory()], a);
      case SendSms(admitted, _, recorded) =>
        CountChain([Brief(SmsLimit), When(admitted, gated), When(admitted && recorded, Brief(SmsLimit))], a);
      case RndisDisconnect(_, _) =>
        CountChain([BuildInventory(), Brief(Service), gated], a);
    }
  }

  /** Every operation sends, stores and changes exactly what is promised of it. */
  lemma {:induction false} OperationCounts(op: Operation, a: Action)
    requires Counted(a)
    ensures Count(ProgramOf(op), a) == Promised(op, a)
  {
    CountGated(op, a);
    if op.RndisConnect? {
      AroundConnect(op, a);
      CountCommands(op.wait, a);
    } else if op.SelectModem? || op.SendSms? || op.RndisDisconnect? {
      AroundOthers(op, a);
    } else {
      CountLocked(Gate, GatedPart(op), a);
      CountBrief(a);
    }
    hide Count, Brief, Commands, GatedPart, Locked;
  }

  function PromisedOfAll(ops: seq<Operation>, a: Action): nat {
    if ops == [] then 0 else Promised(ops[0], a) + PromisedOfAll(ops[1..], a)
  }

  lemma {:induction false} ThreadCounts(ops: seq<Operation>, a: Action)
    requires Counted(a)
    ensures Count(ProgramOfAll(ops), a) == PromisedOfAll(ops, a)
  {
    if ops != [] {
      OperationCounts(ops[0], a);
      ThreadCounts(ops[1..], a);
      CountAppend(ProgramOf(ops[0]), ProgramOfAll(ops[1..]), a);
    }
  }

  /** The accesses to port and cache, in order. */
  function Accesses(p: Program): seq<Action> {
    match p
    case Done => []
    case Do(a, rest) => (if a.Acquire? || a.Release? then [] else [a]) + Accesses(rest)
  }

  function Asked(n: nat): seq<Action> { seq(n, _ => AtCommand) }

  lemma {:induction false} AccessesAppend(p: Program, q: Program)
    ensures Accesses(Append(p, q)) == Accesses(p) + Accesses(q)
  {
    if p.Do? { AccessesAppend(p.rest, q); }
  }

  lemma {:induction false} AccessesLocked(l: Lock, body: Program)
    ensures Accesses(Locked(l, body)) == Accesses(body)
  {
    AccessesAppend(body, Do(Release(l), Done));
  }

  lemma {:induction false} NoAccesses(n: nat, p: Program)
    requires Accesses(p) == []
    ensures Accesses(Times(n, p)) == []
  {
    if n > 0 {
      NoAccesses(n - 1, p);
      AccessesAppend(p, Times(n - 1, p));
    }
  }

  lemma {:induction false} AccessesCommands(urcs: seq<nat>)
    ensures Accesses(Commands(urcs)) == Asked(|urcs|)
  {
    if urcs != [] {
      var u := urcs[0];
      AccessesLocked(Urc, Done);
      NoAccesses(u, Brief(Urc));
      AccessesAppend(One(AtCommand), Times(u, Brief(Urc)));
      AccessesLocked(Client, Append(One(AtCommand), Times(u, Brief(Urc))));
      AccessesCommands(urcs[1..]);
      AccessesAppend(Command(u), Commands(urcs[1..]));
      assert Accesses(One(AtCommand)) == [AtCommand];
    }
  }

  lemma {:induction false} AccessesAccess(a: Action)
    requires !a.Acquire? && !a.Release?
    ensures Accesses(CacheAccess(a)) == [a]
  {
    AccessesLocked(Cache, One(a));
    assert Accesses(Done) == [];
  }

  /** What a poll stores was asked after its snapshot. */
  lemma {:induction false} RefreshOrder(due: seq<nat>)
    ensures Accesses(Refresh(due)) == [Snapshot] + Asked(|due|) + [Store]
  {
    AccessesAccess(Snapshot);
    AccessesAccess(Store);
    AccessesCommands(due);
    AccessesAppend(Commands(due), CacheAccess(Store));
    AccessesAppend(CacheAccess(Snapshot), Append(Commands(due), CacheAccess(Store)));
    hide Accesses, CacheAccess, Commands;
  }

  lemma {:induction false} AccessesChain(p: Program, rest: seq<Program>)
    ensures Accesses(Chain([p] + rest)) == Accesses(p) + Accesses(Chain(rest))
  {
    assert ([p] + rest)[1..] == rest;
    AccessesAppend(p, Chain(rest));
  }

  lemma {:induction false} AccessesWhen(b: bool, p: Program)
    ensures Accesses(When(b, p)) == if b then Accesses(p) else []
  {
  }

  /** A change follows the commands that the modem accepted. */
  lemma {:induction false} ChangeOrder(op: Operation)
    requires op.Setter? || op.RndisDisconnect?
    ensures Accesses(GatedPart(op)) == Asked(|op.commands|) + if op.accepted then [Invalidate] else []
  {
    var change := When(op.accepted, CacheAccess(Invalidate));
    AccessesAccess(Invalidate);
    AccessesCommands(op.commands);
    AccessesChain(change, []);
    AccessesChain(Commands(op.commands), [change]);
    assert Accesses(Chain([])) == [];
    assert [Commands(op.commands)] + [change] == [Commands(op.commands), change] && [change] + [] == [change];
    AccessesWhen(op.accepted, CacheAccess(Invalidate));
    hide Accesses, CacheAccess, Commands, Chain, When;
  }

  lemma {:induction false} AccessesFour(a: Program, b: Program, c: Program, d: Program)
    ensures Accesses(Chain([a, b, c, d])) == Accesses(a) + (Accesses(b) + (Accesses(c) + Accesses(d)))
  {
    AccessesChain(d, []);
    AccessesChain(c, [d]);
    AccessesChain(b, [c, d]);
    AccessesChain(a, [b, c, d]);
    assert Accesses(Chain([])) == [];
    hide Accesses, Chain;
    assert [d] + [] == [d] && [c] + [d] == [c, d] && [b] + [c, d] == [b, c, d] && [a] + [b, c, d] == [a, b, c, d];
  }

  /** An activated context outdates the session before it is queried, and its answer replaces it. */
  lemma {:induction false} ConnectOrder(op: Operation)
    requires op.RndisConnect?
    ensures Accesses(GatedPart(op)) == Asked(|op.activate|) + (
      if op.active then [Invalidate] + (Asked(|op.query|) + if op.queried then [Invalidate] else []) else [])
  {
    var change := CacheAccess(Invalidate);
    AccessesAccess(Invalidate);
    AccessesCommands(op.activate);
    AccessesCommands(op.query);
    AccessesFour(Commands(op.activate), When(op.active, change), When(op.active, Commands(op.query)),
                 When(op.active && op.queried, change));
    AccessesWhen(op.active, change);
    AccessesWhen(op.active, Commands(op.query));
    AccessesWhen(op.active && op.queried, change);
    hide Accesses, CacheAccess, Commands, Chain, When, Asked;
  }

  /** How often a thread has written, by a store or by a change in place. */
  function Made(w: Writes, t: nat, refresh: bool): nat {
    if w.Fresh? then 0 else Made(w.before, t, refresh) + Once(w.thread == t && w.refresh == refresh)
  }

  lemma {:induction false} StepWrites(st: State, u: nat, t: nat)
    requires u < |st.threads| && t < |st.threads| && Enabled(st, u)
    ensures var was, now := st.threads[t].program, Step(st, u).threads[t].program;
      && Made(Step(st, u).log, t, true) + Count(now, Store) == Made(st.log, t, true) + Count(was, Store)
      && Made(Step(st, u).log, t, false) + Count(now, Invalidate) == Made(st.log, t, false) + Count(was, Invalidate)
  {
  }

  /** In every run, what a thread has written and what its program still writes is what it had to write. */
  lemma {:induction false} RunWrites(r: Run, t: nat)
    requires IsRun(r) && t < |Initial(r)|
    ensures t < |End(r).threads|
    ensures var left, all := End(r).threads[t].program, Initial(r)[t].program;
      && Made(End(r).log, t, true) + Count(left, Store) == Count(all, Store)
      && Made(End(r).log, t, false) + Count(left, Invalidate) == Count(all, Invalidate)
  {
    if r.Next? {
      RunWrites(r.run, t);
      StepWrites(End(r.run), r.t, t);
      hide Made, Count;
    }
  }

  /** So when the work is done, the cache reflects exactly what the operations of each thread promise: every
      accepted change, and one store for every answered poll. */
  lemma {:induction false} ServiceWrites(r: Run, work: seq<seq<Operation>>, t: nat)
    requires IsRun(r) && Initial(r) == Threads(work) && t < |work|
    requires Steps(r) == Remaining(Threads(work))
    ensures Made(End(r).cache, t, true) == PromisedOfAll(work[t], Store)
    ensures Made(End(r).cache, t, false) == PromisedOfAll(work[t], Invalidate)
  {
    EveryRun(r);
    RunWrites(r, t);
    ThreadCounts(work[t], Store);
    ThreadCounts(work[t], Invalidate);
    NothingRemains(End(r).threads);
    hide ProgramOfAll, PromisedOfAll, IsRun, Remaining;
  }

  /** All the same the service lock can be kept for as long as a serial exchange takes: a listing waits under
      it for the client's mutex, which the thread at the port holds; and every reader of the status waits
      for the listing. */
  lemma {:induction false} ReaderWaitsForPort() returns (r: Run)
    ensures IsRun(r) && Initial(r) == Threads([[RawCommand([0])], [SelectModem(false, false)], [ReadStatus]])
    ensures var st := End(r);
      && |st.threads| == 3 && AtPort(st, 0)
      && WaitsFor(st, 1, Client) && st.owner[Client] == 0
      && WaitsFor(st, 2, Service) && st.owner[Service] == 1
  {
    var work := [[RawCommand([0])], [SelectModem(false, false)], [ReadStatus]];
    ServiceStarts(work);
    CommandStarts();
    ListingStarts();
    ReadingStarts();
    r := Begin(Threads(work));
    assert End(r) == State(Threads(work), map[], Fresh, Fresh);
    TwoSteps(End(r));
    hide ProgramOfAll, Threads, IsRun, End, Initial, Step, Enabled;
    r := Stepped(r, 0);
    r := Stepped(r, 0);
    r := Stepped(r, 1);
  }

  /** A thread takes gate and client mutex, another the service lock. */
  lemma {:induction false} TwoSteps(st: State)
    requires |st.threads| == 3 && st.owner == map[]
    requires var p := st.threads[0].program;
      p.Do? && p.first == Acquire(Gate) && p.rest.Do? && p.rest.first == Acquire(Client)
        && p.rest.rest.Do? && p.rest.rest.first == AtCommand
    requires var p := st.threads[1].program;
      p.Do? && p.first == Acquire(Service) && p.rest.Do? && p.rest.first == Acquire(Client)
    requires st.threads[2].program.Do? && st.threads[2].program.first == Acquire(Service)
    ensures Enabled(st, 0) && |Step(st, 0).threads| == 3 && Enabled(Step(st, 0), 0)
    ensures |Step(Step(st, 0), 0).threads| == 3 && Enabled(Step(Step(st, 0), 0), 1)
    ensures var end := Step(Step(Step(st, 0), 0), 1);
      && |end.threads| == 3 && AtPort(end, 0)
      && WaitsFor(end, 1, Client) && end.owner[Client] == 0 && WaitsFor(end, 2, Service) && end.owner[Service] == 1
  {
  }

  lemma {:induction false} Stepped(run: Run, t: nat) returns (r: Run)
    requires IsRun(run) && t < |End(run).threads| && Enabled(End(run), t)
    ensures r == Next(run, t) && IsRun(r) && End(r) == Step(End(run), t) && Initial(r) == Initial(run)
  {
    r := Next(run, t);
  }

  lemma {:induction false} CommandStarts()
    ensures var p := ProgramOfAll([RawCommand([0])]);
      p.Do? && p.first == Acquire(Gate) && p.rest.Do? && p.rest.first == Acquire(Client)
        && p.rest.rest.Do? && p.rest.rest.first == AtCommand
  {
    assert [RawCommand([0])][1..] == [];
    var c := Command(0);
    assert c.first == Acquire(Client) && c.rest.Do? && c.rest.first == AtCommand;
    assert Commands([0]) == Append(c, Done) by { assert [0][1..] == []; }
  }

  lemma {:induction false} ListingStarts()
    ensures var p := ProgramOfAll([SelectModem(false, false)]);
      p.Do? && p.first == Acquire(Service) && p.rest.Do? && p.rest.first == Acquire(Client)
  {
    assert [SelectModem(false, false)][1..] == [];
    var b := BuildInventory();
    assert b.first == Acquire(Service) && b.rest.Do? && b.rest.first == Acquire(Client);
  }

  lemma {:induction false} ReadingStarts()
    ensures var p := ProgramOfAll([ReadStatus]); p.Do? && p.first == Acquire(Service)
  {
  }
}
