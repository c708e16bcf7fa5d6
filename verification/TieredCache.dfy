/** The three-rate status cache in front of the AT port. Fast radio values are asked on every
    poll; bearer data every 10 s; SIM, configuration and identity every 60 s, or sooner after a
    setter. Times are seconds of a nondecreasing clock; 0 is the zero time of a cache stamp.
    All operations here run one at a time: module `AtGate` shows that the service ensures it. */
module TieredCache {
  import opened Text

  const MEDIUM_INTERVAL := 10
  const SLOW_INTERVAL := 60
  const UNKNOWN_OPERATOR := "Unknown Operator"
  const DEFAULT_PDP_TYPE := "IPV4V6"

  // ----- Cached values and the modem's answers -----

  datatype Apn = Apn(cid: int, pdpType: string, apn: string, ip: string)

  datatype Pdp = Pdp(cid: int, ip: string, dns1: string, dns2: string, gateway: string)

  datatype Identity = Identity(manufacturer: string, model: string, firmware: string, imei: string)

  datatype Slow = Slow(sim: string, imsi: string, iccid: string, apn: Apn, rat: string, identity: Identity)

  datatype Medium = Medium(operator: string, copsAct: int, hasCopsAct: bool, tempC: real, pdp: Pdp)

  const NO_SLOW := Slow("", "", "", Apn(0, "", "", ""), "", Identity("", "", "", ""))
  const NO_MEDIUM := Medium("", 0, false, 0.0, Pdp(0, "", "", "", ""))

  /** Parsed answers of one slow round; `None` is a failed command, "" an answer without a value.
      `iccidAlt` answers the second ICCID command, sent when the first yields nothing. */
  datatype SlowAnswers = SlowAnswers(
    sim: Option<string>, imsi: Option<string>, iccid: Option<string>, iccidAlt: Option<string>,
    apn: Option<Apn>, rat: Option<string>,
    manufacturer: Option<string>, model: Option<string>, firmware: Option<string>, imei: Option<string>)

  datatype MediumAnswers = MediumAnswers(
    cops: Option<(string, int, bool)>, tempC: Option<real>, ip: Option<string>, dns: Option<(string, string)>)

  function Or(answer: Option<string>, kept: string): string {
    if answer.Some? && answer.value != "" then answer.value else kept
  }

  /** A slow round replaces what was answered and keeps the rest. */
  function SlowAfter(s: Slow, a: SlowAnswers): Slow {
    Slow(
      if a.sim.Some? then a.sim.value else s.sim,
      Or(a.imsi, s.imsi),
      if a.iccid.Some? then Or(a.iccid, Or(a.iccidAlt, s.iccid)) else s.iccid,
      if a.apn.Some? then a.apn.value else s.apn,
      if a.rat.Some? then a.rat.value else s.rat,
      Identity(Or(a.manufacturer, s.identity.manufacturer), Or(a.model, s.identity.model),
               Or(a.firmware, s.identity.firmware), Or(a.imei, s.identity.imei)))
  }

  function EffectiveCid(cid: int): int { if cid <= 0 then 1 else cid }

  /** A medium round; an answered address query also drops any gateway. */
  function MediumAfter(m: Medium, cid: int, a: MediumAnswers): Medium {
    var named := a.cops.Some? && a.cops.value.0 != ""
      && (a.cops.value.0 != UNKNOWN_OPERATOR || m.operator == "");
    Medium(
      if named then a.cops.value.0 else m.operator,
      if a.cops.Some? then a.cops.value.1 else m.copsAct,
      if a.cops.Some? then a.cops.value.2 else m.hasCopsAct,
      if a.tempC.Some? then a.tempC.value else m.tempC,
      Pdp(EffectiveCid(cid),
          if a.ip.Some? then a.ip.value else m.pdp.ip,
          if a.dns.Some? then a.dns.value.0 else m.pdp.dns1,
          if a.dns.Some? then a.dns.value.1 else m.pdp.dns2,
          if a.ip.Some? then "" else m.pdp.gateway))
  }

  // ----- What happened on the port -----

  datatype Event =
    | SlowRound(at: int, slow: SlowAnswers)
    | MediumRound(at: int, cid: int, medium: MediumAnswers)
    | PdpQueried(at: int, pdp: Pdp)          // the explicit query of a control path
    | SettingsChanged                        // APN or radio mode set
    | BearerUp
    | BearerDown(cid: int)
    | PortChanged                            // another port or USB composition

  datatype Trace = Start | Then(before: Trace, event: Event)

  /** The slow values a cache has to hold: all answers since the port last changed. */
  function SlowOf(t: Trace): Slow {
    match t
    case Start => NO_SLOW
    case Then(b, SlowRound(_, a)) => SlowAfter(SlowOf(b), a)
    case Then(_, PortChanged) => NO_SLOW
    case Then(b, _) => SlowOf(b)
  }

  function MediumOf(t: Trace): Medium {
    match t
    case Start => NO_MEDIUM
    case Then(b, MediumRound(_, cid, a)) => MediumAfter(MediumOf(b), cid, a)
    case Then(b, PdpQueried(_, pdp)) => MediumOf(b).(pdp := pdp)
    case Then(b, BearerDown(cid)) => MediumOf(b).(pdp := NO_MEDIUM.pdp.(cid := cid))
    case Then(_, PortChanged) => NO_MEDIUM
    case Then(b, _) => MediumOf(b)
  }

  // ----- What the cached values mean -----

  /** The latest value that an event told since the port last changed. */
  function Latest<T>(t: Trace, tells: Event -> Option<T>): Option<T> {
    match t
    case Start => None
    case Then(_, PortChanged) => None
    case Then(b, e) => if tells(e).Some? then tells(e) else Latest(b, tells)
  }

  function Known<T>(told: Option<T>, unknown: T): T { if told.Some? then told.value else unknown }

  /** An answer that carries a value. */
  function Valued(answer: Option<string>): Option<string> { if answer == Some("") then None else answer }

  function TellsSim(e: Event): Option<string> { if e.SlowRound? then e.slow.sim else None }

  function TellsImsi(e: Event): Option<string> { if e.SlowRound? then Valued(e.slow.imsi) else None }

  /** The second ICCID command counts where the first was answered without a value. */
  function TellsIccid(e: Event): Option<string> {
    if !e.SlowRound? || e.slow.iccid.None? then None
    else if e.slow.iccid.value != "" then e.slow.iccid
    else Valued(e.slow.iccidAlt)
  }

  function TellsApn(e: Event): Option<Apn> { if e.SlowRound? then e.slow.apn else None }

  function TellsRat(e: Event): Option<string> { if e.SlowRound? then e.slow.rat else None }

  function TellsManufacturer(e: Event): Option<string> { if e.SlowRound? then Valued(e.slow.manufacturer) else None }

  function TellsModel(e: Event): Option<string> { if e.SlowRound? then Valued(e.slow.model) else None }

  function TellsFirmware(e: Event): Option<string> { if e.SlowRound? then Valued(e.slow.firmware) else None }

  function TellsImei(e: Event): Option<string> { if e.SlowRound? then Valued(e.slow.imei) else None }

  lemma {:induction false} ConfigurationIsLatest(t: Trace)
    ensures SlowOf(t).sim == Known(Latest(t, TellsSim), "") && SlowOf(t).rat == Known(Latest(t, TellsRat), "")
    ensures SlowOf(t).apn == Known(Latest(t, TellsApn), NO_SLOW.apn)
  {
    if t.Then? { ConfigurationIsLatest(t.before); }
  }

  lemma {:induction false} CardIsLatest(t: Trace)
    ensures SlowOf(t).imsi == Known(Latest(t, TellsImsi), "") && SlowOf(t).iccid == Known(Latest(t, TellsIccid), "")
  {
    if t.Then? { CardIsLatest(t.before); }
  }

  lemma {:induction false} IdentityIsLatest(t: Trace)
    ensures var identity := SlowOf(t).identity;
      && identity.manufacturer == Known(Latest(t, TellsManufacturer), "")
      && identity.model == Known(Latest(t, TellsModel), "")
      && identity.firmware == Known(Latest(t, TellsFirmware), "")
      && identity.imei == Known(Latest(t, TellsImei), "")
  {
    if t.Then? { IdentityIsLatest(t.before); }
  }

  /** Every slow value is the latest that its command told on this port. A failed command keeps the value
      before; for card numbers and identity, so does an answer without a value. */
  lemma {:induction false} SlowIsLatest(t: Trace)
    ensures var s := SlowOf(t);
      && s.sim == Known(Latest(t, TellsSim), "") && s.imsi == Known(Latest(t, TellsImsi), "")
      && s.iccid == Known(Latest(t, TellsIccid), "") && s.rat == Known(Latest(t, TellsRat), "")
      && s.apn == Known(Latest(t, TellsApn), NO_SLOW.apn)
      && s.identity.manufacturer == Known(Latest(t, TellsManufacturer), "")
      && s.identity.model == Known(Latest(t, TellsModel), "")
      && s.identity.firmware == Known(Latest(t, TellsFirmware), "")
      && s.identity.imei == Known(Latest(t, TellsImei), "")
  {
    hide *;
    ConfigurationIsLatest(t);
    CardIsLatest(t);
    IdentityIsLatest(t);
  }

  function TellsName(e: Event): Option<string> {
    if e.MediumRound? && e.medium.cops.Some? && e.medium.cops.value.0 !in {"", UNKNOWN_OPERATOR}
    then Some(e.medium.cops.value.0) else None
  }

  function TellsUnknown(e: Event): Option<string> {
    if e.MediumRound? && e.medium.cops.Some? && e.medium.cops.value.0 == UNKNOWN_OPERATOR
    then Some(UNKNOWN_OPERATOR) else None
  }

  function TellsAct(e: Event): Option<(int, bool)> {
    if e.MediumRound? && e.medium.cops.Some? then Some((e.medium.cops.value.1, e.medium.cops.value.2)) else None
  }

  function TellsTemp(e: Event): Option<real> { if e.MediumRound? then e.medium.tempC else None }

  function TellsCid(e: Event): Option<int> {
    match e
    case MediumRound(_, cid, _) => Some(EffectiveCid(cid))
    case PdpQueried(_, pdp) => Some(pdp.cid)
    case BearerDown(cid) => Some(cid)
    case _ => None
  }

  function TellsIp(e: Event): Option<string> {
    match e
    case MediumRound(_, _, a) => a.ip
    case PdpQueried(_, pdp) => Some(pdp.ip)
    case BearerDown(_) => Some("")
    case _ => None
  }

  function TellsDns(e: Event): Option<(string, string)> {
    match e
    case MediumRound(_, _, a) => a.dns
    case PdpQueried(_, pdp) => Some((pdp.dns1, pdp.dns2))
    case BearerDown(_) => Some(("", ""))
    case _ => None
  }

  /** So is every other value, among medium rounds, explicit queries and deactivations. */
  lemma {:induction false} MediumIsLatest(t: Trace)
    ensures var m := MediumOf(t);
      && (m.copsAct, m.hasCopsAct) == Known(Latest(t, TellsAct), (0, false))
      && m.tempC == Known(Latest(t, TellsTemp), 0.0)
      && m.pdp.cid == Known(Latest(t, TellsCid), 0)
      && m.pdp.ip == Known(Latest(t, TellsIp), "")
      && (m.pdp.dns1, m.pdp.dns2) == Known(Latest(t, TellsDns), ("", ""))
  {
    if t.Then? { MediumIsLatest(t.before); }
  }

  /** The operator is the latest one named, and unknown only if none was named since the port changed. */
  lemma {:induction false} OperatorIsLatest(t: Trace)
    ensures MediumOf(t).operator ==
      if Latest(t, TellsName).Some? then Latest(t, TellsName).value else Known(Latest(t, TellsUnknown), "")
  {
    if t.Then? {
      OperatorIsLatest(t.before);
      LatestName(t.before);
    }
  }

  lemma {:induction false} LatestName(t: Trace)
    ensures Latest(t, TellsName) != Some("") && Latest(t, TellsName) != Some(UNKNOWN_OPERATOR)
    ensures Latest(t, TellsUnknown).Some? ==> Latest(t, TellsUnknown) == Some(UNKNOWN_OPERATOR)
  {
    if t.Then? { LatestName(t.before); }
  }

  // ----- Freshness -----

  predicate IsFresh(at: Option<int>, now: int, interval: int) { at.Some? && now - at.value < interval }

  /** Time of the latest slow round that no setter or port change has outdated. */
  function LastSlow(t: Trace): Option<int> {
    match t
    case Start => None
    case Then(_, SlowRound(at, _)) => Some(at)
    case Then(_, SettingsChanged) => None
    case Then(_, PortChanged) => None
    case Then(b, _) => LastSlow(b)
  }

  /** Time of the latest bearer address query that no bearer or port change has outdated. */
  function LastPdp(t: Trace): Option<int> {
    match t
    case Start => None
    case Then(_, MediumRound(at, _, _)) => Some(at)
    case Then(_, PdpQueried(at, _)) => Some(at)
    case Then(_, BearerUp) => None
    case Then(_, BearerDown(_)) => None
    case Then(_, PortChanged) => None
    case Then(b, _) => LastPdp(b)
  }

  /** Time of the latest operator and temperature query on this port. */
  function LastOperator(t: Trace): Option<int> {
    match t
    case Start => None
    case Then(_, MediumRound(at, _, _)) => Some(at)
    case Then(_, PortChanged) => None
    case Then(b, _) => LastOperator(b)
  }

  // ----- The client -----

  predicate IsDue(stamp: int, now: int, interval: int) { stamp == 0 || now - stamp >= interval }

  function AfterSlow(t: Trace, now: int, due: bool, a: SlowAnswers): Trace {
    if due then Then(t, SlowRound(now, a)) else t
  }

  /** What a poll does on the port: only the rounds that are due, the medium one for the context
      that is configured by then. */
  function AfterPoll(t: Trace, now: int, slowDue: bool, slow: SlowAnswers, mediumDue: bool,
        medium: MediumAnswers): Trace {
    var t1 := AfterSlow(t, now, slowDue, slow);
    if mediumDue then Then(t1, MediumRound(now, SlowOf(t1).apn.cid, medium)) else t1
  }

  datatype Poll = Poll(slow: Slow, apn: Apn, operator: string, medium: Medium)

  class TieredClient {
    var port: string
    var slow: Slow
    var medium: Medium
    var slowAt: int
    var mediumAt: int
    ghost var trace: Trace
    ghost var clock: int

    ghost predicate Valid()
      reads this
    {
      && clock >= MEDIUM_INTERVAL
      && slow == SlowOf(trace) && medium == MediumOf(trace)
      && slowAt <= clock && mediumAt <= clock
      && LastSlow(trace) == (if slowAt == 0 then None else Some(slowAt))
      && (mediumAt != 0 && clock - mediumAt < MEDIUM_INTERVAL ==> LastPdp(trace) == Some(mediumAt))
      && (LastPdp(trace).Some? ==> mediumAt == LastPdp(trace).value >= MEDIUM_INTERVAL)
      && medium.pdp.gateway == ""
    }

    constructor (name: string, now: int)
      requires now >= MEDIUM_INTERVAL
      ensures Valid() && trace == Start && clock == now && port == name
    {
      port, slow, medium, slowAt, mediumAt := name, NO_SLOW, NO_MEDIUM, 0, 0;
      trace, clock := Start, now;
    }

    /** `resetPollCache`, with the event that causes it. */
    method ResetPollCache()
      requires Valid()
      modifies this
      ensures Valid() && trace == Then(old(trace), PortChanged) && clock == old(clock) && port == old(port)
      ensures slowAt == mediumAt == 0
    {
      slow, medium, slowAt, mediumAt := NO_SLOW, NO_MEDIUM, 0, 0;
      trace := Then(trace, PortChanged);
    }

    /** `SetPortName`: a new nonempty name forgets everything learned from the old port. */
    method SetPortName(name: string)
      requires Valid()
      modifies this
      ensures Valid() && clock == old(clock)
      ensures port == if name == "" then old(port) else name
      ensures trace == if name == "" || name == old(port) then old(trace) else Then(old(trace), PortChanged)
      ensures (slowAt, mediumAt) == if name == "" || name == old(port) then (old(slowAt), old(mediumAt)) else (0, 0)
    {
      var current := port;
      if name != "" {
        port := name;
      }
      if name != "" && name != current {
        ResetPollCache();
      }
    }

    /** `SetUSBMode`, given the modem's reply. */
    method SetUSBMode(accepted: bool)
      requires Valid()
      modifies this
      ensures Valid() && clock == old(clock) && port == old(port)
      ensures trace == if accepted then Then(old(trace), PortChanged) else old(trace)
      ensures (slowAt, mediumAt) == if accepted then (0, 0) else (old(slowAt), old(mediumAt))
    {
      if accepted {
        ResetPollCache();
      }
    }

    /** `SetAPN` and `SetRATMode`, given the modem's reply. */
    method SetSettings(accepted: bool)
      requires Valid()
      modifies this
      ensures Valid() && clock == old(clock) && port == old(port)
      ensures trace == if accepted then Then(old(trace), SettingsChanged) else old(trace)
      ensures slowAt == (if accepted then 0 else old(slowAt)) && mediumAt == old(mediumAt)
    {
      if accepted {
        slowAt := 0;
        trace := Then(trace, SettingsChanged);
      }
    }

    /** `ActivatePDP`: shifting the stamp back makes the next poll query the bearer. */
    method ActivatePDP(accepted: bool)
      requires Valid()
      modifies this
      ensures Valid() && clock == old(clock) && port == old(port)
      ensures trace == if accepted then Then(old(trace), BearerUp) else old(trace)
      ensures mediumAt == old(mediumAt) - (if accepted then MEDIUM_INTERVAL else 0) && slowAt == old(slowAt)
    {
      if accepted {
        mediumAt := mediumAt - MEDIUM_INTERVAL;
        trace := Then(trace, BearerUp);
      }
    }

    /** `DeactivatePDP`: forgets the session at once, too. */
    method DeactivatePDP(cid: int, accepted: bool)
      requires Valid()
      modifies this
      ensures Valid() && clock == old(clock) && port == old(port)
      ensures trace == if accepted then Then(old(trace), BearerDown(if cid <= 0 then 1 else cid)) else old(trace)
      ensures mediumAt == old(mediumAt) - (if accepted then MEDIUM_INTERVAL else 0) && slowAt == old(slowAt)
    {
      if accepted {
        medium := medium.(pdp := NO_MEDIUM.pdp.(cid := EffectiveCid(cid)));
        mediumAt := mediumAt - MEDIUM_INTERVAL;
        trace := Then(trace, BearerDown(EffectiveCid(cid)));
      }
    }

    /** `QueryPDP`: a successful answer becomes the cached session, without its guessed gateway. */
    method QueryPDP(answer: Option<Pdp>, now: int) returns (session: Option<Pdp>)
      requires Valid() && clock <= now
      modifies this
      ensures Valid() && clock == now && port == old(port)
      ensures session == if answer.Some? then Some(answer.value.(gateway := "")) else None
      ensures trace == if answer.Some? then Then(old(trace), PdpQueried(now, session.value)) else old(trace)
      ensures mediumAt == (if answer.Some? then now else old(mediumAt)) && slowAt == old(slowAt)
    {
      clock := now;
      if answer.None? {
        return None;
      }
      var pdp := answer.value.(gateway := "");
      medium := medium.(pdp := pdp);
      mediumAt := now;
      trace := Then(trace, PdpQueried(now, pdp));
      return Some(pdp);
    }

    /** `refreshSlow` on the local copy of the cache. */
    method RefreshSlow(cached: Slow, a: SlowAnswers) returns (cache: Slow)
      ensures cache == SlowAfter(cached, a)
    {
      cache := cached;
      cache := cache.(sim := if a.sim.Some? then a.sim.value else cache.sim);
      cache := cache.(imsi := Or(a.imsi, cache.imsi));
      if a.iccid.Some? {
        if a.iccid.value != "" {
          cache := cache.(iccid := a.iccid.value);
        } else {
          cache := cache.(iccid := Or(a.iccidAlt, cache.iccid));
        }
      }
      cache := cache.(apn := if a.apn.Some? then a.apn.value else cache.apn);
      cache := cache.(rat := if a.rat.Some? then a.rat.value else cache.rat);
      var identity := cache.identity;
      identity := identity.(manufacturer := Or(a.manufacturer, identity.manufacturer));
      identity := identity.(model := Or(a.model, identity.model));
      identity := identity.(firmware := Or(a.firmware, identity.firmware));
      identity := identity.(imei := Or(a.imei, identity.imei));
      cache := cache.(identity := identity);
    }

    /** `refreshMedium` on the local copy; `cid` is the configured context. */
    method RefreshMedium(cached: Medium, cid: int, a: MediumAnswers) returns (cache: Medium)
      ensures cache == MediumAfter(cached, cid, a)
    {
      cache := cached;
      if a.cops.Some? {
        var (name, act, hasAct) := a.cops.value;
        if name != "" && (name != UNKNOWN_OPERATOR || cache.operator == "") {
          cache := cache.(operator := name);
        }
        cache := cache.(copsAct := act, hasCopsAct := hasAct);
      }
      if a.tempC.Some? {
        cache := cache.(tempC := a.tempC.value);
      }
      var pdp := cache.pdp.(cid := EffectiveCid(cid));
      if a.ip.Some? {
        pdp := pdp.(ip := a.ip.value, gateway := "");
      }
      if a.dns.Some? {
        pdp := pdp.(dns1 := a.dns.value.0, dns2 := a.dns.value.1);
      }
      cache := cache.(pdp := pdp);
    }

    /** `GetFullStatus`. `opens` and `csq` say whether the port opens and answers at all; the other
        fast queries only feed radio values and are left out. Every successful poll
        - asked the slow values less than 60 s ago, and after the last setter or port change;
        - asked the bearer address less than 10 s ago, and after the last bearer or port change;
        - returns all answers since the last port change, newest first. */
    method GetFullStatus(opens: bool, csq: bool, now: int, slowAnswers: SlowAnswers, mediumAnswers: MediumAnswers)
      returns (poll: Option<Poll>)
      requires Valid() && clock <= now
      modifies this
      ensures Valid() && clock == now && port == old(port)
      ensures poll.Some? <==> opens && csq
      ensures poll.None? ==> trace == old(trace)
      ensures poll.Some? ==>
        && LastSlow(trace).Some? && 0 <= now - LastSlow(trace).value < 60
        && LastPdp(trace).Some? && 0 <= now - LastPdp(trace).value < 10
        && poll.value.slow == SlowOf(trace) && poll.value.medium == MediumOf(trace)
        && poll.value.medium.pdp.gateway == ""
      // operator and temperature were asked less than 10 s ago, too, exactly if they were at entry or the
      // address was not
      ensures poll.Some? ==>
        (IsFresh(LastOperator(trace), now, MEDIUM_INTERVAL) <==>
          || IsFresh(old(LastOperator(trace)), now, MEDIUM_INTERVAL)
          || !IsFresh(old(LastPdp(trace)), now, MEDIUM_INTERVAL))
      ensures poll.Some? ==>
        var p := poll.value;
        && p.operator == (if Trim(p.medium.operator) == "" then "Unknown Operator" else p.medium.operator)
        && p.apn.cid == (if p.slow.apn.cid <= 0 then 1 else p.slow.apn.cid) && p.apn.apn == p.slow.apn.apn
        && p.apn.pdpType == (if p.slow.apn.pdpType == "" then "IPV4V6" else p.slow.apn.pdpType)
        && p.apn.ip == (if p.slow.apn.ip == "" then p.medium.pdp.ip else p.slow.apn.ip)
      // the port was asked for exactly what was not fresh, the slow values first and the bearer of the context
      // that is configured by then
      ensures poll.Some? ==>
        var slowFresh := old(LastSlow(trace)).Some? && now - old(LastSlow(trace)).value < 60;
        var pdpFresh := old(LastPdp(trace)).Some? && now - old(LastPdp(trace)).value < 10;
        var asked := if slowFresh then old(trace) else Then(old(trace), SlowRound(now, slowAnswers));
        && trace == (if pdpFresh then asked else Then(asked, MediumRound(now, poll.value.slow.apn.cid, mediumAnswers)))
        && (!pdpFresh ==> poll.value.medium.pdp.cid == poll.value.apn.cid)
        && mediumAt == if pdpFresh then old(mediumAt) else now
    {
      clock := now;
      if !opens || !csq {
        return None;
      }
      RefreshDue(now, slowAnswers, mediumAnswers);
      assert slow == SlowOf(trace) && medium == MediumOf(trace);
      hide SlowOf, MediumOf, AfterPoll, LastSlow, LastPdp, LastOperator;

      var operator := if Trim(medium.operator) == "" then UNKNOWN_OPERATOR else medium.operator;
      var apn := slow.apn.(cid := EffectiveCid(slow.apn.cid));
      if apn.pdpType == "" {
        apn := apn.(pdpType := DEFAULT_PDP_TYPE);
      }
      if apn.ip == "" {
        apn := apn.(ip := medium.pdp.ip);
      }
      TrimTrimmed("");
      return Some(Poll(slow, apn, operator, medium));
    }

    /** The cached part of a poll: refresh the local copy where it is due, slow values first
        because the bearer query uses the configured context, then store it. */
    method RefreshDue(now: int, slowAnswers: SlowAnswers, mediumAnswers: MediumAnswers)
      requires Valid() && clock == now
      modifies this
      ensures Valid() && clock == now && port == old(port)
      ensures slowAt != 0 && now - slowAt < SLOW_INTERVAL
      ensures mediumAt != 0 && now - mediumAt < MEDIUM_INTERVAL
      ensures mediumAt == if IsDue(old(mediumAt), now, MEDIUM_INTERVAL) then now else old(mediumAt)
      ensures trace == AfterPoll(old(trace), now, IsDue(old(slowAt), now, SLOW_INTERVAL), slowAnswers,
                                 IsDue(old(mediumAt), now, MEDIUM_INTERVAL), mediumAnswers)
    {
      var s, m, sAt, mAt := slow, medium, slowAt, mediumAt;
      if sAt == 0 || now - sAt >= SLOW_INTERVAL {
        s := RefreshSlow(s, slowAnswers);
        sAt := now;
        trace := Then(trace, SlowRound(now, slowAnswers));
      }
      if mAt == 0 || now - mAt >= MEDIUM_INTERVAL {
        m := RefreshMedium(m, s.apn.cid, mediumAnswers);
        mAt := now;
        trace := Then(trace, MediumRound(now, s.apn.cid, mediumAnswers));
      }
      slow, medium, slowAt, mediumAt := s, m, sAt, mAt;
    }
  }

  /** A control path that asks for the bearer every 9 s keeps the operator from being asked for any length
      of time: every poll in between succeeds, and `n` of them later it was asked `9 * n` s before. */
  method StarveOperator(n: nat, slowAnswers: SlowAnswers, mediumAnswers: MediumAnswers)
    returns (c: TieredClient, polls: seq<Option<Poll>>)
    ensures c.Valid() && c.clock == 100 + 9 * n && LastOperator(c.trace) == Some(100)
    ensures |polls| == n + 1 && forall i :: 0 <= i <= n ==> polls[i].Some?
  {
    c := new TieredClient("/dev/ttyUSB2", 100);
    var poll := c.GetFullStatus(true, true, 100, slowAnswers, mediumAnswers);
    polls := [poll];
    for i := 0 to n
      invariant c.Valid() && fresh(c) && c.clock == 100 + 9 * i
      invariant c.mediumAt == c.clock && LastOperator(c.trace) == Some(100)
      invariant |polls| == i + 1 && forall j :: 0 <= j <= i ==> polls[j].Some?
    {
      var session := c.QueryPDP(Some(NO_MEDIUM.pdp), 109 + 9 * i);
      poll := c.GetFullStatus(true, true, 109 + 9 * i, slowAnswers, mediumAnswers);
      polls := polls + [poll];
    }
  }
}
