/** The fan-out of status snapshots to subscribers with room for one unread frame each. A broadcast is
    one step; a frame stands for the JSON of its status. */
module SseHub {
  import opened Text

  /** `content` is everything but `UpdatedAt`. */
  datatype Status = Status(content: string, updatedAt: int)

  // ----- The story of one subscriber -----

  /** Joined when `at` frames had been broadcast; then frames offered, and taken or dropped, and reads. */
  datatype History = Joined(at: nat) | Offered(before: History, taken: bool) | Read(before: History)

  /** How many frames had been broadcast. */
  function Seen(h: History): nat {
    match h
    case Joined(at) => at
    case Offered(b, _) => Seen(b) + 1
    case Read(b) => Seen(b)
  }

  /** The frame waiting in the channel. */
  function Unread(h: History): Option<nat> {
    match h
    case Joined(at) => if at > 0 then Some(at - 1) else None
    case Offered(b, taken) => if taken then Some(Seen(b)) else Unread(b)
    case Read(_) => None
  }

  function Received(h: History): seq<nat> {
    match h
    case Joined(_) => []
    case Offered(b, _) => Received(b)
    case Read(b) => Received(b) + if Unread(b).Some? then [Unread(b).value] else []
  }

  /** Frames received or waiting. */
  function Sent(h: History): seq<nat> { Received(h) + if Unread(h).Some? then [Unread(h).value] else [] }

  function JoinedAt(h: History): nat {
    match h
    case Joined(at) => at
    case Offered(b, _) => JoinedAt(b)
    case Read(b) => JoinedAt(b)
  }

  /** The last frame before joining, or the first ever. */
  function First(h: History): nat { if JoinedAt(h) == 0 then 0 else JoinedAt(h) - 1 }

  /** A frame is taken exactly if the channel is empty; only a waiting frame can be read. */
  predicate Legal(h: History) {
    match h
    case Joined(_) => true
    case Offered(b, taken) => Legal(b) && (taken <==> Unread(b).None?)
    case Read(b) => Legal(b) && Unread(b).Some?
  }

  /** The frame that was waiting when frame `i` was broadcast. */
  function WaitingAt(h: History, i: nat): Option<nat> {
    match h
    case Joined(_) => None
    case Offered(b, _) => if Seen(b) == i then Unread(b) else WaitingAt(b, i)
    case Read(b) => WaitingAt(b, i)
  }

  predicate Increasing(s: seq<nat>) { forall i, j :: 0 <= i < j < |s| ==> s[i] < s[j] }

  lemma {:induction false} SentSteps(b: History)
    requires Legal(b)
    ensures Unread(b).None? ==> Sent(Offered(b, true)) == Sent(b) + [Seen(b)]
    ensures Sent(Offered(b, false)) == Sent(b)
    ensures Sent(Read(b)) == Sent(b)
    ensures Unread(b).Some? ==> Unread(b).value in Sent(b)
  {
    if Unread(b).Some? { assert Sent(b)[|Sent(b)| - 1] == Unread(b).value; }
  }

  lemma {:induction false} IncreasingNext(s: seq<nat>, n: nat)
    requires Increasing(s) && forall i :: i in s ==> i < n
    ensures Increasing(s + [n])
  {
    assert forall i :: 0 <= i < |s| ==> s[i] in s;
  }

  lemma {:induction false} OfferKeepsOrder(b: History, taken: bool)
    requires Legal(Offered(b, taken)) && Increasing(Sent(b)) && (forall i :: i in Sent(b) ==> First(b) <= i < Seen(b))
    requires (Seen(b) > First(b) ==> Sent(b) != [] && Sent(b)[0] == First(b)) && Seen(b) >= JoinedAt(b)
    ensures var h := Offered(b, taken);
      && Increasing(Sent(h)) && (forall i :: i in Sent(h) ==> First(h) <= i < Seen(h))
      && Sent(h) != [] && Sent(h)[0] == First(h)
  {
    SentSteps(b);
    if taken { IncreasingNext(Sent(b), Seen(b)); }
    assert JoinedAt(Offered(b, taken)) == JoinedAt(b) && Seen(Offered(b, taken)) == Seen(b) + 1;
    assert !taken ==> Sent(b) != [];
    hide Sent, Received, Unread, Increasing, Legal, Seen, JoinedAt;
  }

  /** Frames arrive in order, none twice, from the last one at subscription on. */
  lemma {:induction false} InOrder(h: History)
    requires Legal(h)
    ensures Increasing(Sent(h)) && (forall i :: i in Sent(h) ==> First(h) <= i < Seen(h))
    ensures Seen(h) > First(h) ==> Sent(h) != [] && Sent(h)[0] == First(h)
    ensures Seen(h) >= JoinedAt(h)
  {
    match h
    case Joined(_) =>
    case Offered(b, taken) =>
      InOrder(b);
      OfferKeepsOrder(b, taken);
      hide Sent, Received, Unread, Increasing;
    case Read(b) =>
      InOrder(b);
      SentSteps(b);
      hide Sent, Received, Unread, Increasing;
  }

  /** A frame is missed exactly if an earlier one was still unread when it was broadcast. */
  lemma {:induction false} MissedExactly(h: History, i: nat)
    requires Legal(h) && JoinedAt(h) <= i < Seen(h)
    ensures i !in Sent(h) <==> WaitingAt(h, i).Some?
    ensures WaitingAt(h, i).Some? ==> WaitingAt(h, i).value < i && WaitingAt(h, i).value in Sent(h)
  {
    match h
    case Offered(b, taken) =>
      InOrder(b);
      SentSteps(b);
      if Seen(b) != i { MissedExactly(b, i); }
    case Read(b) =>
      assert Sent(h) == Sent(b);
      MissedExactly(b, i);
  }

  /** A subscriber that has read everything shows the latest status exactly if nothing was waiting when
      that was broadcast: one that reads too late stays on an older status. */
  lemma {:induction false} CaughtUpExactly(h: History)
    requires Legal(h) && Unread(h).None? && Seen(h) > 0
    ensures Received(h) != []
    ensures Received(h)[|Received(h)| - 1] == Seen(h) - 1 <==> WaitingAt(h, Seen(h) - 1).None?
  {
    InOrder(h);
    assert Sent(h) == Received(h);
    var n := Seen(h) - 1;
    if JoinedAt(h) <= n {
      MissedExactly(h, n);
    } else {
      NothingOffered(h, n);
    }
    if n in Sent(h) { LastIsGreatest(Sent(h), n); }
  }

  lemma {:induction false} LastIsGreatest(s: seq<nat>, n: nat)
    requires Increasing(s) && n in s && forall x :: x in s ==> x <= n
    ensures s[|s| - 1] == n
  {
    assert s[|s| - 1] in s;
  }

  lemma {:induction false} NothingOffered(h: History, i: nat)
    requires i < JoinedAt(h)
    ensures WaitingAt(h, i) == None
    ensures Seen(h) >= JoinedAt(h)
  {
    match h
    case Joined(_) =>
    case Offered(b, _) => NothingOffered(b, i);
    case Read(b) => NothingOffered(b, i);
  }

  // ----- The hub -----

  class SseHub {
    var clients: map<nat, Option<Status>>    // subscriber to what its channel holds
    var last: Option<Status>
    var lastStatus: Status
    var hasLast: bool
    ghost var log: seq<Status>               // every broadcast
    ghost var story: map<nat, History>

    ghost predicate Valid()
      reads this
    {
      && (hasLast <==> log != []) && last == (if hasLast then Some(lastStatus) else None)
      && (hasLast ==> lastStatus == log[|log| - 1])
      && AllInStep(log, story, clients) && Changing(log)
    }

    constructor ()
      ensures Valid() && clients == map[] && log == []
    {
      clients, last, lastStatus, hasLast := map[], None, Status("", 0), false;
      log, story := [], map[];
    }

    /** `Subscribe`. */
    method Subscribe(c: nat)
      requires Valid() && c !in clients
      modifies this`clients, this`story
      ensures Valid() && story == old(story)[c := Joined(|log|)] && clients.Keys == old(clients.Keys) + {c}
    {
      clients := clients[c := last];
      story := story[c := Joined(|log|)];
    }

    /** The unsubscribe function: a second call does nothing. */
    method Unsubscribe(c: nat)
      requires Valid()
      modifies this`clients, this`story
      ensures Valid() && clients == old(clients) - {c} && story == old(story) - {c}
    {
      clients, story := clients - {c}, story - {c};
    }

    /** A subscriber takes what waits in its channel. */
    method Receive(c: nat) returns (frame: Option<Status>)
      requires Valid() && c in clients
      modifies this`clients, this`story
      ensures Valid() && clients.Keys == old(clients.Keys)
      ensures frame == match old(Unread(story[c])) case None => None case Some(i) => Some(log[i])
      ensures story == if frame.Some? then old(story)[c := Read(old(story)[c])] else old(story)
    {
      frame := clients[c];
      if frame.Some? {
        clients := clients[c := None];
        story := story[c := Read(story[c])];
      }
    }

    /** `broadcast`: a status that differs only in `UpdatedAt` is not sent again. */
    method Broadcast(status: Status, marshals: bool)
      requires Valid()
      modifies this
      ensures Valid() && clients.Keys == old(clients.Keys)
      ensures log ==
        if marshals && (old(log) == [] || old(log)[|old(log)| - 1].content != status.content) then old(log) + [status]
        else old(log)
      ensures story == if log == old(log) then old(story) else OfferedToAll(old(story))
    {
      hide AllInStep, Changing, Unread;
      if hasLast && lastStatus.content == status.content {
        return;
      }
      if !marshals {
        return;
      }
      Publish(status);
    }

    /** The second critical section of `broadcast`, and its sends. */
    method Publish(status: Status)
      requires Valid() && (log == [] || log[|log| - 1].content != status.content)
      modifies this
      ensures Valid() && clients.Keys == old(clients.Keys) && log == old(log) + [status]
      ensures story == OfferedToAll(old(story))
    {
      hide AllInStep, Changing, Offer, Unread;
      ChangingNext(log, status);
      lastStatus, hasLast, last := status, true, Some(status);
      log := log + [status];
      story := OfferedToAll(story);
      SendAll(status);
      AllOfferedInStep(old(log), old(story), old(clients), clients, status);
    }

    /** The sends of `broadcast`, in any order; a full channel drops the frame. */
    method SendAll(payload: Status)
      modifies this`clients
      ensures clients.Keys == old(clients.Keys)
      ensures forall c :: c in clients ==> clients[c] == Offer(old(clients)[c], payload)
    {
      var todo := clients.Keys;
      while todo != {}
        invariant todo <= clients.Keys == old(clients.Keys)
        invariant forall c :: c in clients ==>
          clients[c] == if c in todo then old(clients)[c] else Offer(old(clients)[c], payload)
        decreases |todo|
      {
        var c :| c in todo;
        if clients[c].None? {
          clients := clients[c := Some(payload)];
        }
        todo := todo - {c};
      }
    }
  }

  function Offer(channel: Option<Status>, payload: Status): Option<Status> {
    if channel.None? then Some(payload) else channel
  }

  /** A subscriber's story fits the broadcasts and what its channel holds. */
  ghost predicate InStep(log: seq<Status>, h: History, channel: Option<Status>) {
    && Legal(h) && Seen(h) == |log|
    && match Unread(h)
       case None => channel == None
       case Some(i) => i < |log| && channel == Some(log[i])
  }

  ghost predicate AllInStep(log: seq<Status>, story: map<nat, History>, clients: map<nat, Option<Status>>) {
    clients.Keys == story.Keys && forall c :: c in clients ==> InStep(log, story[c], clients[c])
  }

  /** Consecutive broadcasts differ in content. */
  ghost predicate Changing(log: seq<Status>) { forall i :: 0 <= i < |log| - 1 ==> log[i].content != log[i + 1].content }

  lemma {:induction false} ChangingNext(log: seq<Status>, s: Status)
    requires Changing(log) && (log == [] || log[|log| - 1].content != s.content)
    ensures Changing(log + [s])
  {
  }

  /** Every story, with one more frame offered. */
  ghost function OfferedToAll(story: map<nat, History>): map<nat, History> {
    map c | c in story :: Offered(story[c], Unread(story[c]).None?)
  }

  lemma {:induction false} OfferedInStep(log: seq<Status>, h: History, channel: Option<Status>, payload: Status)
    requires InStep(log, h, channel)
    ensures InStep(log + [payload], Offered(h, Unread(h).None?), Offer(channel, payload))
  {
  }

  lemma {:induction false} AllOfferedInStep(log: seq<Status>, story: map<nat, History>,
        clients: map<nat, Option<Status>>,
      after: map<nat, Option<Status>>, payload: Status)
    requires AllInStep(log, story, clients) && after.Keys == clients.Keys
    requires forall c :: c in clients ==> after[c] == Offer(clients[c], payload)
    ensures AllInStep(log + [payload], OfferedToAll(story), after)
  {
    forall c | c in after ensures InStep(log + [payload], OfferedToAll(story)[c], after[c]) {
      OfferedInStep(log, story[c], clients[c], payload);
    }
    hide InStep, Unread, Offer;
  }

  // ----- Whole runs -----

  datatype Event = Joins(c: nat) | Leaves(c: nat) | Reads(c: nat) | Ticks(status: Status, marshals: bool)

  /** `frames` are the broadcasts numbered `numbers`. */
  predicate AreFrames(log: seq<Status>, numbers: seq<nat>, frames: seq<Status>) {
    |numbers| == |frames| && forall k :: 0 <= k < |numbers| ==> numbers[k] < |log| && frames[k] == log[numbers[k]]
  }

  ghost predicate Tells(h: SseHub, got: map<nat, seq<Status>>)
    reads h
  {
    && h.Valid() && got.Keys == h.clients.Keys
    && forall c :: c in h.clients ==> AreFrames(h.log, Received(h.story[c]), got[c])
  }

  lemma {:induction false} JoinedFrames(log: seq<Status>)
    ensures AreFrames(log, Received(Joined(|log|)), [])
  {
  }

  lemma {:induction false} WaitingIsLogged(log: seq<Status>, h: History, channel: Option<Status>)
    requires InStep(log, h, channel)
    ensures Unread(h).Some? ==> Unread(h).value < |log|
  {
  }

  lemma {:induction false} FrameRead(log: seq<Status>, b: History, frames: seq<Status>)
    requires AreFrames(log, Received(b), frames) && Unread(b).Some? && Unread(b).value < |log|
    ensures AreFrames(log, Received(Read(b)), frames + [log[Unread(b).value]])
  {
  }

  lemma {:induction false} FramesStay(log: seq<Status>, more: seq<Status>, b: History, taken: bool, frames: seq<Status>)
    requires AreFrames(log, Received(b), frames)
    ensures AreFrames(log + more, Received(b), frames) && AreFrames(log + more, Received(Offered(b, taken)), frames)
  {
  }

  method ServeRead(h: SseHub, got0: map<nat, seq<Status>>, c: nat) returns (got: map<nat, seq<Status>>)
    requires Tells(h, got0) && c in h.clients
    modifies h`clients, h`story
    ensures Tells(h, got)
  {
    if Unread(h.story[c]).Some? {
      WaitingIsLogged(h.log, h.story[c], h.clients[c]);
      FrameRead(h.log, h.story[c], got0[c]);
    }
    hide AreFrames, Legal, Seen, Unread, Received, InStep;
    var frame := h.Receive(c);
    got := if frame.Some? then got0[c := got0[c] + [frame.value]] else got0;
  }

  method ServeTick(h: SseHub, got: map<nat, seq<Status>>, status: Status, marshals: bool)
    requires Tells(h, got)
    modifies h
    ensures Tells(h, got)
  {
    forall c | c in h.clients
      ensures AreFrames(h.log + [status], Received(h.story[c]), got[c])
      ensures AreFrames(h.log + [status], Received(Offered(h.story[c], Unread(h.story[c]).None?)), got[c])
    {
      FramesStay(h.log, [status], h.story[c], Unread(h.story[c]).None?, got[c]);
    }
    hide AreFrames, Legal, Seen, Unread, Received, InStep;
    h.Broadcast(status, marshals);
  }

  method Serve(h: SseHub, got0: map<nat, seq<Status>>, e: Event) returns (got: map<nat, seq<Status>>)
    requires Tells(h, got0)
    modifies h
    ensures Tells(h, got)
  {
    hide AreFrames, Legal, Seen, Unread, Received, InStep;
    got := got0;
    match e {
      case Joins(c) =>
        if c !in h.clients {
          JoinedFrames(h.log);
          h.Subscribe(c);
          got := got[c := []];
        }
      case Leaves(c) =>
        h.Unsubscribe(c);
        got := got - {c};
      case Reads(c) =>
        if c in h.clients {
          got := ServeRead(h, got, c);
        }
      case Ticks(status, marshals) =>
        ServeTick(h, got, status, marshals);
    }
  }

  /** In any run, the frames a subscriber has received are those its legal story tells, and two
      consecutive broadcasts differ in content. */
  method Drive(events: seq<Event>) returns (h: SseHub, got: map<nat, seq<Status>>)
    ensures fresh(h) && Tells(h, got)
  {
    h := new SseHub();
    got := map[];
    for k := 0 to |events|
      invariant fresh(h) && Tells(h, got)
    {
      got := Serve(h, got, events[k]);
    }
  }
}
