/** The WAN facade: selecting a modem, connecting and disconnecting data sessions with rollback, and
    the overrides laid over the polled status. Every call that leaves the daemon has its outcome
    in a parameter; its effect on modem and host is recorded in ghost fields. A failed disconnect
    leaves the bearer up. */
module WanService {
  import opened Ipv4
  import opened PdpConfig
  import opened RndisConfig
  import opened Text
  import opened WanEndpoints

  datatype Counters = Counters(addrs: seq<string>, rx: nat, tx: nat)

  const NO_COUNTERS := Counters([], 0, 0)

  datatype WanInfo = WanInfo(iface: string, connected: bool, counters: Counters)

  datatype MbimCall = Connect(device: string, ok: bool) | Disconnect(device: string, ok: bool)

  /** What `ParseMBIMIPConfig` can make of an answer: an address it names has been parsed. */
  type Reply = c: IpConfig | c.address == "" || ParseCidr(c.address).Some?
    witness IpConfig("", "", [], 0)

  /** Outcomes of one MBIM connect; `answers` are the three `QueryIPConfig` calls. */
  datatype MbimEnv = MbimEnv(connects: bool, exposesIp: bool, answers: nat -> Option<Reply>,
    configures: bool, host: Env, rollsBack: bool)

  // ----- Overlay -----

  datatype Status = Status(wan: WanInfo, pdp: Session, apnIp: string)

  /** `decorateStatus`: session truth from the facade, live counters from the poller. */
  function Decorate(st: Status, wan: Option<WanInfo>, pdp: Option<Session>): Status {
    var shown :=
      if wan.None? then st.wan
      else if wan.value.connected && wan.value.iface != "" && st.wan.iface == wan.value.iface then
        wan.value.(counters := st.wan.counters)
      else wan.value;
    if pdp.None? then st.(wan := shown) else Status(shown, pdp.value, pdp.value.ip)
  }

  /** What is shown: the facade's session and PDP where it has them. Counters are live exactly without
      an override or for one that is connected on the polled interface; else those stored with it. */
  lemma {:induction false} DecorateExact(st: Status, wan: Option<WanInfo>, pdp: Option<Session>)
    ensures var d := Decorate(st, wan, pdp);
      && d.pdp == (if pdp.Some? then pdp.value else st.pdp) && d.apnIp == (if pdp.Some? then d.pdp.ip else st.apnIp)
      && (wan.None? ==> d.wan == st.wan)
      && (wan.Some? ==>
        && (d.wan.iface, d.wan.connected) == (wan.value.iface, wan.value.connected)
        && d.wan.counters ==
          if d.wan.connected && d.wan.iface != "" && d.wan.iface == st.wan.iface then st.wan.counters
          else wan.value.counters)
  {
  }

  // ----- Connecting over MBIM -----

  /** The first of three answers that is usable. */
  function Answered(answers: nat -> Option<Reply>, n: nat): (r: Option<Reply>)
    requires n <= 3
    ensures r.Some? ==> ParseCidr(r.value.address).Some?
    decreases 3 - n
  {
    if n == 3 then None
    else if answers(n).Some? && answers(n).value.address != "" then answers(n)
    else Answered(answers, n + 1)
  }

  predicate IsUsable(answer: Option<Reply>) { answer.Some? && answer.value.address != "" }

  /** It is the first of the three with an address, if one has. */
  lemma {:induction false} AnsweredExact(answers: nat -> Option<Reply>)
    ensures Answered(answers, 0) ==
      if IsUsable(answers(0)) then answers(0) else if IsUsable(answers(1)) then answers(1)
      else if IsUsable(answers(2)) then answers(2) else None
  {
    assert Answered(answers, 3) == None;
    assert Answered(answers, 2) == if IsUsable(answers(2)) then answers(2) else None;
    assert Answered(answers, 1) == if IsUsable(answers(1)) then answers(1) else Answered(answers, 2);
  }

  /** The session shown for a reported configuration. */
  function SessionOf(cfg: IpConfig): Session {
    Session(
      if ParseCidr(cfg.address).Some? then Dotted(ParseCidr(cfg.address).value.ip) else "", cfg.gateway,
      if |cfg.dns| > 0 then cfg.dns[0] else "", if |cfg.dns| > 1 then cfg.dns[1] else "")
  }

  lemma {:induction false} SessionExact(env: MbimEnv)
    ensures Answered(env.answers, 0).Some? ==>
      var cfg := Answered(env.answers, 0).value;
      ShowsReport(SessionOf(cfg), cfg)
  {
    hide Answered, ParseCidr, Dotted;
  }

  /** Whether `ConfigureStatic` succeeds. */
  predicate Configured(env: Env, cfg: IpConfig) {
    && env.ours && HostAccepts(cfg.address, cfg.gateway) && env.linkUp && env.addrSet
    && (Trim(cfg.gateway) == "" || env.routeSet)
  }

  datatype MbimFailure = NotConnected | NoIpConfig | CannotConfigure | HostFailed

  /** How far a connect gets; `None` is success. */
  function Failure(env: MbimEnv): Option<MbimFailure> {
    if !env.connects then Some(NotConnected)
    else if !env.exposesIp || Answered(env.answers, 0).None? then Some(NoIpConfig)
    else if !env.configures then Some(CannotConfigure)
    else if !Configured(env.host, Answered(env.answers, 0).value) then Some(HostFailed)
    else None
  }

  /** A connect succeeds exactly if every step does; of a gateway that is an address, or none, the host refuses
      the address 0.0.0.0 only. */
  lemma {:induction false} FailureExact(env: MbimEnv)
    ensures Failure(env).None? <==>
      && env.connects && env.exposesIp && Answered(env.answers, 0).Some? && env.configures
      && Configured(env.host, Answered(env.answers, 0).value)
    ensures Answered(env.answers, 0).Some? ==>
      var cfg := Answered(env.answers, 0).value;
      (Trim(cfg.gateway) == "" || ParseAddr(Trim(cfg.gateway)).Some?) ==>
        (Configured(env.host, cfg) <==>
          && env.host.ours && env.host.linkUp && env.host.addrSet && (Trim(cfg.gateway) == "" || env.host.routeSet)
          && ParseCidr(cfg.address).value.ip != 0)
  {
    if Answered(env.answers, 0).Some? {
      var cfg := Answered(env.answers, 0).value;
      ParsedCidrTrimmed(cfg.address);
      if Trim(cfg.gateway) == "" || ParseAddr(Trim(cfg.gateway)).Some? { HostAcceptsParsed(cfg.address, cfg.gateway); }
    }
    hide Answered, HostAccepts, ParseCidr, ParseAddr, Trim;
  }

  predicate SameExcept<V(==)>(before: map<string, V>, after: map<string, V>, k: string) {
    && (forall i :: i in after && i != k ==> i in before && after[i] == before[i])
    && (forall i :: i in before && i != k ==> i in after)
  }

  /** The default route of metric 100, of which a host has one. */
  datatype Route = Route(gateway: string, iface: string)

  /** The modem and the host: MBIM devices whose bearer is up, and what the interfaces have. */
  datatype World = World(bearers: set<string>, addrs: map<string, set<string>>, route: Option<Route>,
    leases: set<string>, servers: map<string, seq<string>>)

  function AddrsOn(w: World, iface: string): set<string> { if iface in w.addrs then w.addrs[iface] else {} }

  /** `ip addr replace`: the address joins those that are there. */
  function WithAddr(w: World, iface: string, cidr: string): World {
    w.(addrs := w.addrs[iface := AddrsOn(w, iface) + {cidr}])
  }

  /** What `ConfigureStatic` leaves behind; a failed route leaves the address. */
  function AfterStatic(w: World, iface: string, env: Env, cfg: IpConfig): World {
    if !env.ours || !HostAccepts(cfg.address, cfg.gateway) || !env.linkUp || !env.addrSet then w
    else
      var added := WithAddr(w, iface, Trim(cfg.address));
      if Trim(cfg.gateway) == "" || !env.routeSet then added
      else added.(route := Some(Route(Trim(cfg.gateway), iface)))
  }

  lemma {:induction false} StaticBesideBearers(w: World, iface: string, env: Env, cfg: IpConfig, b: set<string>)
    ensures AfterStatic(w.(bearers := b), iface, env, cfg) == AfterStatic(w, iface, env, cfg).(bearers := b)
  {
    hide HostAccepts, Trim;
  }

  /** Flushing an interface and taking it down removes its addresses and the route over it. */
  function Flushed(w: World, iface: string): World {
    w.(addrs := w.addrs - {iface}, leases := w.leases - {iface},
       route := if w.route.Some? && w.route.value.iface == iface then None else w.route)
  }

  /** No addresses and servers but those of the endpoint's interface are touched, and the default route is
      moved to that one at most. */
  predicate TouchesOnly(before: World, after: World, e: Endpoint) {
    if e.NoEndpoint? then after == before
    else
      && SameExcept(before.addrs, after.addrs, e.hostIface) && SameExcept(before.servers, after.servers, e.hostIface)
      && after.leases - {e.hostIface} == before.leases - {e.hostIface}
      && (after.route == before.route || (after.route.Some? && after.route.value.iface == e.hostIface))
  }

  /** A bearer that came up for a connect that failed is disconnected, on the same device. */
  predicate RolledBack(before: seq<MbimCall>, after: seq<MbimCall>, device: string, env: MbimEnv, ok: bool) {
    after == before + [Connect(device, env.connects)]
      + (if env.connects && !ok then [Disconnect(device, env.rollsBack)] else [])
  }

  /** The bearers that are up after a connect on `device`. */
  function BearersAfter(before: set<string>, device: string, env: MbimEnv, ok: bool): set<string> {
    if !env.connects then before else if ok || !env.rollsBack then before + {device} else before - {device}
  }

  lemma {:induction false} NamedEndpoint(s: Selection, modems: seq<Modem>, mode: Mode, iface: string)
    ensures var e := Resolve(s, modems, mode, iface);
      e.MbimEndpoint? ==> e.control == s.mbim && e.control != ""
  {
  }

  predicate DnsApplied(env: Env, cfg: IpConfig) { cfg.dns != [] && env.setsDns && env.dnsSet }

  /** A session shown outlives an MBIM connect that fails: the modem was not reached, or could not be
      disconnected again. */
  predicate OutlivesMbim(env: MbimEnv) { !env.connects || !env.rollsBack }

  /** A failing RNDIS connect has set an address at most. */
  lemma {:induction false} FailedEffects(env: Env, how: Option<Method>)
    requires !Outcome(env, how).0.Connected?
    ensures Outcome(env, how).1 == [] || (|Outcome(env, how).1| == 1 && Outcome(env, how).1[0].Address?)
  {
    hide Reported, ValidateStatic, HostAccepts;
  }

  function Applied(w: World, iface: string, effect: Effect): World {
    match effect
    case Address(cidr) => WithAddr(w, iface, cidr)
    case DefaultRoute(gateway) => w.(route := Some(Route(gateway, iface)))
    case Servers(dns) => w.(servers := w.servers[iface := dns])
    case Lease => w.(leases := w.leases + {iface})
  }

  /** The effects of an RNDIS connect on its interface. */
  function AppliedAll(w: World, iface: string, effects: seq<Effect>): World
    decreases |effects|
  {
    if effects == [] then w
    else Applied(AppliedAll(w, iface, effects[..|effects| - 1]), iface, effects[|effects| - 1])
  }

  lemma {:induction false} AppliedTouchesOnly(w: World, iface: string, effects: seq<Effect>)
    ensures TouchesOnly(w, AppliedAll(w, iface, effects), RndisEndpoint(iface))
    ensures AppliedAll(w, iface, effects).bearers == w.bearers
    decreases |effects|
  {
    if effects != [] { AppliedTouchesOnly(w, iface, effects[..|effects| - 1]); }
  }

  lemma {:induction false} AppliedOne(w: World, iface: string, effects: seq<Effect>)
    requires effects == [] || (|effects| == 1 && effects[0].Address?)
    ensures AppliedAll(w, iface, effects) == if effects == [] then w else WithAddr(w, iface, effects[0].cidr)
  {
    if effects != [] { assert effects[..0] == []; }
  }

  /** The AT port of a selection: the one asked for, or the preferred one of the modem chosen. */
  predicate ChosenPort(modems: seq<Modem>, openAt: string, req: SelectRequest, atPort: string) {
    && (req.atPort != "" ==> atPort == req.atPort)
    && (var m := Chosen(modems, req);
        m.Some? && m.value.id != "" && DistinctIds(modems) && req.atPort == "" ==>
          atPort == PreferredAt(m.value.atPorts, openAt))
  }

  // ----- What a session shown has to be -----

  /** Where a session shown comes from: the control device, what the modem reported, and whether the
      reported name servers were set on the host. */
  datatype Source = Source(control: string, reported: Reply, dnsApplied: bool)

  /** What is shown is what was reported: the address without its prefix, the gateway, the first two servers. */
  predicate ShowsReport(pdp: Session, cfg: IpConfig) {
    && ParseCidr(cfg.address).Some? && pdp.ip == Dotted(ParseCidr(cfg.address).value.ip)
    && pdp.gateway == cfg.gateway
    && pdp.dns1 == (if cfg.dns == [] then "" else cfg.dns[0])
    && pdp.dns2 == (if |cfg.dns| < 2 then "" else cfg.dns[1])
  }

  /** A session is real: what is shown is what was reported, the bearer is up, and the host has it: the
      address on the interface, the gateway as its default route, and the name servers where setting them
      worked. */
  predicate Real(iface: string, pdp: Session, src: Source, w: World, selected: string) {
    && src.control in w.bearers && src.control == selected && selected != ""
    && ShowsReport(pdp, src.reported)
    && Trim(src.reported.address) in AddrsOn(w, iface)
    && (Trim(src.reported.gateway) != "" ==> w.route == Some(Route(Trim(src.reported.gateway), iface)))
    && (src.dnsApplied ==> iface in w.servers && w.servers[iface] == src.reported.dns)
  }

  /** The world after `connectMBIM`. */
  function AfterMbim(w: World, device: string, hostIface: string, env: MbimEnv): World {
    var called := w.(bearers := BearersAfter(w.bearers, device, env, Failure(env).None?));
    if Failure(env).Some? && !Failure(env).value.HostFailed? then called
    else
      var cfg := Answered(env.answers, 0).value;
      var tried := AfterStatic(called, hostIface, env.host, cfg);
      if Failure(env).None? && DnsApplied(env.host, cfg) then tried.(servers := tried.servers[hostIface := cfg.dns])
      else tried
  }

  /** A connect that succeeds shows a real session. The host then has the servers shown exactly if there
      were some and setting them worked, or had them already. */
  lemma {:induction false} ConnectedIsReal(w: World, device: string, hostIface: string, env: MbimEnv)
    requires Failure(env).None? && device != ""
    ensures var cfg, after := Answered(env.answers, 0).value, AfterMbim(w, device, hostIface, env);
      && Real(hostIface, SessionOf(cfg), Source(device, cfg, DnsApplied(env.host, cfg)), after, device)
      && (hostIface in after.servers && after.servers[hostIface] == cfg.dns <==>
        DnsApplied(env.host, cfg) || (hostIface in w.servers && w.servers[hostIface] == cfg.dns))
  {
    hide HostAccepts, Trim, ParseCidr;
  }

  /** A connect that fails over a real session leaves it real exactly if it outlives that; an address set
      before the failure does not matter. */
  lemma {:induction false} FailedOverReal(w: World, hostIface: string, env: MbimEnv, iface: string, pdp: Session,
        src: Source, selected: string)
    requires Failure(env).Some? && Real(iface, pdp, src, w, selected)
    ensures Real(iface, pdp, src, AfterMbim(w, selected, hostIface, env), selected)
      <==> OutlivesMbim(env)
  {
    hide ShowsReport, Answered, HostAccepts, Trim, ParseCidr;
  }

  lemma {:induction false} MbimTouchesOnly(w: World, device: string, hostIface: string, env: MbimEnv)
    ensures TouchesOnly(w, AfterMbim(w, device, hostIface, env), MbimEndpoint(device, hostIface))
    ensures AfterMbim(w, device, hostIface, env).bearers == BearersAfter(w.bearers, device, env, Failure(env).None?)
  {
    hide Configured, Answered, HostAccepts, Trim;
  }

  function AfterRndis(w: World, iface: string, env: Env, how: Option<Method>): World {
    AppliedAll(w, iface, Outcome(env, how).1)
  }

  /** A failing RNDIS connect leaves a real session real, wherever it was. */
  lemma {:induction false} RndisFailedOverReal(w: World, hostIface: string, env: Env, how: Option<Method>,
        iface: string, pdp: Session, src: Source, selected: string)
    requires !Outcome(env, how).0.Connected? && Real(iface, pdp, src, w, selected)
    ensures Real(iface, pdp, src, AfterRndis(w, hostIface, env, how), selected)
  {
    FailedEffects(env, how);
    AppliedOne(w, hostIface, Outcome(env, how).1);
    hide Outcome, AppliedAll, ShowsReport, Trim, ParseCidr;
  }

  lemma {:induction false} AppliedNext(w: World, iface: string, effects: seq<Effect>, last: Effect)
    ensures AppliedAll(w, iface, effects + [last]) == Applied(AppliedAll(w, iface, effects), iface, last)
  {
    assert (effects + [last])[..|effects|] == effects;
  }

  /** What a successful RNDIS connect leaves on the interface: the address reported, its gateway as the default
      route and, where setting them works, its name servers; or a lease. */
  lemma {:induction false} RndisConfigured(w: World, iface: string, env: Env, how: Option<Method>)
    ensures Outcome(env, how).0 == Connected(Static) ==>
      var cfg, after := Reported(env).value, AfterRndis(w, iface, env, how);
      && Trim(cfg.address) in AddrsOn(after, iface) && after.route == Some(Route(Trim(cfg.gateway), iface))
      && (cfg.dns != [] && env.setsDns && env.dnsSet ==> iface in after.servers && after.servers[iface] == cfg.dns)
    ensures Outcome(env, how).0 == Connected(Dhcp) ==> iface in AfterRndis(w, iface, env, how).leases
  {
    EffectsExact(env, how);
    ConnectsExactly(env, how);
    var r, effects := Outcome(env, how).0, Outcome(env, how).1;
    assert r == Connected(Static) ==> Reported(env).Some?;
    hide Outcome, Reported, Trim, AppliedAll, Fits, Active, ParseCidr;
    if r == Connected(Static) {
      var cfg := Reported(env).value;
      StaticApplied(w, iface, Trim(cfg.address), Trim(cfg.gateway), cfg.dns);
      assert [Address(Trim(cfg.address)), DefaultRoute(Trim(cfg.gateway))] + []
        == [Address(Trim(cfg.address)), DefaultRoute(Trim(cfg.gateway))];
    } else if r == Connected(Dhcp) {
      var before := effects[..|effects| - 1];
      assert effects == before + [Lease];
      AppliedNext(w, iface, before, Lease);
    }
  }

  lemma {:induction false} StaticApplied(w: World, iface: string, cidr: string, gateway: string, dns: seq<string>)
    ensures var after := AppliedAll(w, iface, [Address(cidr), DefaultRoute(gateway)]);
      cidr in AddrsOn(after, iface) && after.route == Some(Route(gateway, iface))
    ensures var after := AppliedAll(w, iface, [Address(cidr), DefaultRoute(gateway)] + [Servers(dns)]);
      && cidr in AddrsOn(after, iface) && after.route == Some(Route(gateway, iface))
      && iface in after.servers && after.servers[iface] == dns
  {
    assert AppliedAll(w, iface, []) == w;
    AppliedNext(w, iface, [], Address(cidr));
    AppliedNext(w, iface, [Address(cidr)], DefaultRoute(gateway));
    AppliedNext(w, iface, [Address(cidr), DefaultRoute(gateway)], Servers(dns));
    assert [] + [Address(cidr)] == [Address(cidr)];
    assert [Address(cidr)] + [DefaultRoute(gateway)] == [Address(cidr), DefaultRoute(gateway)];
    hide AppliedAll;
  }

  function Cleared(w: World, device: string, iface: string, disconnects: bool, clears: bool): World {
    if !disconnects then w
    else
      var down := w.(bearers := w.bearers - {device});
      if iface != "" && clears then Flushed(down, iface).(servers := down.servers - {iface}) else down
  }

  // ----- Re-enumeration -----

  /** A USB device: its MBIM control nodes and its network interfaces. */
  datatype Usb = Usb(nodes: set<string>, ifaces: set<string>)

  /** The device leaves the bus and comes back: bearers are down and interfaces new. */
  function Reenumerated(w: World, usb: Usb): World {
    World(w.bearers - usb.nodes, w.addrs - usb.ifaces,
      if w.route.Some? && w.route.value.iface in usb.ifaces then None else w.route,
      w.leases - usb.ifaces, w.servers - usb.ifaces)
  }

  predicate Carries(usb: Usb, src: Source, iface: string) { src.control in usb.nodes || iface in usb.ifaces }

  /** A real session stays real exactly if the device does not carry it. */
  lemma {:induction false} ReenumeratedOverReal(w: World, usb: Usb, iface: string, pdp: Session, src: Source,
        selected: string)
    requires Real(iface, pdp, src, w, selected)
    ensures Real(iface, pdp, src, Reenumerated(w, usb), selected) <==> !Carries(usb, src, iface)
  {
    hide ShowsReport, Trim, ParseCidr;
  }

  predicate Succeeds(e: Endpoint, mbim: MbimEnv, rndis: Env, how: Option<Method>) {
    match e
    case NoEndpoint => false
    case MbimEndpoint(_, _) => Failure(mbim).None?
    case RndisEndpoint(_) => Outcome(rndis, how).0.Connected?
  }

  lemma {:induction false} NothingTouched(w: World)
    ensures TouchesOnly(w, w, NoEndpoint)
  {
  }

  lemma {:induction false} ExplicitMode(s: Selection, modems: seq<Modem>, iface: string)
    ensures !Resolve(s, modems, MbimMode, iface).RndisEndpoint? && !Resolve(s, modems, RndisMode, iface).MbimEndpoint?
  {
  }

  lemma {:induction false} RealIsSelected(iface: string, pdp: Session, src: Source, w: World, selected: string)
    requires Real(iface, pdp, src, w, selected)
    ensures selected != ""
  {
  }

  // ----- The service -----

  /** The state of the service that its promises are about. */
  datatype State = State(selection: Selection, wan: Option<WanInfo>, pdp: Option<Session>, source: Source,
    world: World) {
    predicate OnShow() { wan.Some? && wan.value.connected && pdp.Some? }

    predicate Honest() { OnShow() ==> Real(wan.value.iface, pdp.value, source, world, selection.mbim) }
  }

  class WanService {
    // selection (ModemService)
    var selection: Selection
    // polled status (ModemService)
    var polled: WanInfo
    // overrides
    var wan: Option<WanInfo>
    var pdp: Option<Session>

    ghost var world: World
    ghost var calls: seq<MbimCall>
    ghost var source: Source      // of the session shown

    /** The session shown at the HTTP boundary. */
    function Shown(): WanInfo
      reads this
    { Decorate(Status(polled, NO_SESSION, ""), wan, pdp).wan }

    predicate Marked()
      reads this
    { wan.Some? && wan.value.connected }

    /** A session is shown as connected, with its PDP. */
    predicate OnShow()
      reads this
    { Marked() && pdp.Some? }

    ghost function View(): State
      reads this
    { State(selection, wan, pdp, source, world) }

    /** What is shown is real. */
    ghost predicate Truth()
      reads this
    { View().Honest() }

    constructor ()
      ensures Truth() && wan == None && pdp == None && selection == Selection("", "", "")
    {
      selection, wan, pdp, polled := Selection("", "", ""), None, None, WanInfo("", false, NO_COUNTERS);
      world, calls, source := World({}, map[], None, {}, map[]), [], Source("", IpConfig("", "", [], 0), false);
    }

    /** `ListModems`: empty selections get defaults. */
    method ListModems(modems: seq<Modem>, openAt: string)
      modifies this`selection
      ensures selection == Defaults(old(selection), modems, openAt)
      ensures OnShow() && old(Truth()) ==> Truth()
      ensures old(selection.mbim) != "" ==> selection.mbim == old(selection.mbim)
    {
      selection := Defaults(selection, modems, openAt);
    }

    /** The loop of three queries. */
    method QueryIp(env: MbimEnv) returns (cfg: Option<Reply>)
      ensures cfg == Answered(env.answers, 0)
    {
      for attempt := 0 to 3
        invariant Answered(env.answers, 0) == Answered(env.answers, attempt)
      {
        var answer := env.answers(attempt);
        if answer.Some? && answer.value.address != "" {
          return answer;
        }
      }
      cfg := None;
    }

    method CallConnect(device: string, ok: bool)
      modifies this`world, this`calls
      ensures calls == old(calls) + [Connect(device, ok)]
      ensures world == old(world).(bearers := if ok then old(world.bearers) + {device} else old(world.bearers))
    {
      calls := calls + [Connect(device, ok)];
      world := world.(bearers := if ok then world.bearers + {device} else world.bearers);
    }

    method CallDisconnect(device: string, ok: bool)
      modifies this`world, this`calls
      ensures calls == old(calls) + [Disconnect(device, ok)]
      ensures world == old(world).(bearers := if ok then old(world.bearers) - {device} else old(world.bearers))
    {
      calls := calls + [Disconnect(device, ok)];
      world := world.(bearers := if ok then world.bearers - {device} else world.bearers);
    }

    /** `ConfigureStatic` of the network repository on one interface. */
    method ConfigureHost(env: Env, iface: string, cfg: IpConfig) returns (ok: bool)
      modifies this`world
      ensures ok == Configured(env, cfg) && world == AfterStatic(old(world), iface, env, cfg)
    {
      hide HostAccepts;
      if !env.ours || !HostAccepts(cfg.address, cfg.gateway) || !env.linkUp || !env.addrSet {
        return false;
      }
      world := WithAddr(world, iface, Trim(cfg.address));
      if Trim(cfg.gateway) != "" {
        if !env.routeSet {
          return false;
        }
        world := world.(route := Some(Route(Trim(cfg.gateway), iface)));
      }
      ok := true;
    }

    /** `connectMBIM`: on success the session reported is shown; a failure shows what was shown before, and
        disconnects the bearer if it came up. */
    method ConnectMbim(env: MbimEnv, device: string, hostIface: string) returns (ok: bool)
      modifies this`wan, this`pdp, this`world, this`calls, this`source
      ensures ok == Failure(env).None? && world == AfterMbim(old(world), device, hostIface, env)
      ensures RolledBack(old(calls), calls, device, env, ok)
      ensures env.connects && !ok ==>
        calls == old(calls) + [Connect(device, true), Disconnect(device, env.rollsBack)]
      ensures env.connects && !ok && env.rollsBack ==> world.bearers == old(world.bearers) - {device}
      ensures env.connects && (ok || !env.rollsBack) ==> world.bearers == old(world.bearers) + {device}
      ensures !env.connects ==> !ok && calls == old(calls) + [Connect(device, false)] && world == old(world)
      ensures ok ==>
        var cfg := Answered(env.answers, 0).value;
        && wan == Some(WanInfo(hostIface, true, NO_COUNTERS)) && pdp == Some(SessionOf(cfg))
        && pdp.value.ip == Dotted(ParseCidr(cfg.address).value.ip) && pdp.value.gateway == cfg.gateway
        && pdp.value.dns1 == (if cfg.dns == [] then "" else cfg.dns[0])
        && pdp.value.dns2 == (if |cfg.dns| < 2 then "" else cfg.dns[1])
        && source == Source(device, cfg, DnsApplied(env.host, cfg))
      ensures !ok ==> wan == old(wan) && pdp == old(pdp) && source == old(source)
    {
      SessionExact(env);
      hide Configured, SessionOf, Answered, DnsApplied, AfterStatic;
      CallConnect(device, env.connects);
      if !env.connects {
        return false;
      }
      if !env.exposesIp {
        CallDisconnect(device, env.rollsBack);
        return false;
      }
      var cfg := QueryIp(env);
      if cfg.None? {
        CallDisconnect(device, env.rollsBack);
        return false;
      }
      if !env.configures {
        CallDisconnect(device, env.rollsBack);
        return false;
      }
      StaticBesideBearers(world, hostIface, env.host, cfg.value, BearersAfter(old(world.bearers), device, env, false));
      StaticBesideBearers(world, hostIface, env.host, cfg.value, world.bearers);
      var done := ConfigureHost(env.host, hostIface, cfg.value);
      if !done {
        CallDisconnect(device, env.rollsBack);
        return false;
      }
      if DnsApplied(env.host, cfg.value) {
        world := world.(servers := world.servers[hostIface := cfg.value.dns]);
      }
      wan, pdp := Some(WanInfo(hostIface, true, NO_COUNTERS)), Some(SessionOf(cfg.value));
      source := Source(device, cfg.value, DnsApplied(env.host, cfg.value));
      ok := true;
    }

    /** `connectMBIM` on a resolved endpoint: what it means for the truth of the session shown. */
    method ConnectEndpoint(env: MbimEnv, e: Endpoint) returns (ok: bool)
      requires e.MbimEndpoint? && e.control == selection.mbim && e.control != ""
      modifies this`wan, this`pdp, this`world, this`calls, this`source
      ensures ok == Failure(env).None? && RolledBack(old(calls), calls, e.control, env, ok)
      ensures TouchesOnly(old(world), world, e) && world.bearers == BearersAfter(old(world.bearers), e.control, env, ok)
      ensures ok ==> e.control in world.bearers
      ensures !ok && env.connects && env.rollsBack ==> e.control !in world.bearers
      ensures !env.connects ==> world.bearers == old(world.bearers)
      ensures ok ==>
        OnShow() && Truth() && wan.value.iface == e.hostIface && Answered(env.answers, 0) == Some(source.reported)
      ensures ok ==> (e.hostIface in world.servers && world.servers[e.hostIface] == source.reported.dns <==>
        DnsApplied(env.host, source.reported)
        || (e.hostIface in old(world.servers) && old(world.servers)[e.hostIface] == source.reported.dns))
      ensures !ok ==> wan == old(wan) && pdp == old(pdp) && source == old(source)
      ensures !ok && old(Truth() && OnShow()) ==>
        (Truth() <==> OutlivesMbim(env))
    {
      MbimTouchesOnly(world, e.control, e.hostIface, env);
      if Failure(env).None? {
        ConnectedIsReal(world, e.control, e.hostIface, env);
      } else if OnShow() && Truth() {
        FailedOverReal(world, e.hostIface, env, wan.value.iface, pdp.value, source, selection.mbim);
      }
      hide Real, AfterMbim, SessionOf, DnsApplied, OutlivesMbim, TouchesOnly;
      ok := ConnectMbim(env, e.control, e.hostIface);
    }

    /** `MBIMConnect`. */
    method MbimConnect(modems: seq<Modem>, openAt: string, device: string, env: MbimEnv) returns (e: Endpoint, ok: bool)
      modifies this
      ensures selection == Defaults(old(selection), modems, openAt) && polled == old(polled)
      ensures e == Resolve(selection, modems, MbimMode, device) && Owns(modems, selection, e)
      ensures TouchesOnly(old(world), world, e)
      ensures ok <==> e.MbimEndpoint? && Failure(env).None?
      ensures ok ==>
        OnShow() && Truth() && wan.value.iface == e.hostIface && Answered(env.answers, 0) == Some(source.reported)
      ensures !ok ==> wan == old(wan) && pdp == old(pdp) && source == old(source)
      ensures old(Truth()) && !old(OnShow()) ==> Truth()
      ensures !ok && old(Truth() && OnShow()) ==>
        (Truth() <==> e.NoEndpoint? || OutlivesMbim(env))
      ensures !e.MbimEndpoint? ==> calls == old(calls)
      ensures e.MbimEndpoint? ==> RolledBack(old(calls), calls, e.control, env, ok)
      ensures e.MbimEndpoint? ==> world.bearers == BearersAfter(old(world.bearers), e.control, env, ok)
    {
      hide Resolve, Defaults, Failure, Real, TouchesOnly, RolledBack, OutlivesMbim, BearersAfter;
      NothingTouched(world);
      if OnShow() && Truth() { RealIsSelected(wan.value.iface, pdp.value, source, world, selection.mbim); }
      ListModems(modems, openAt);
      e := Resolve(selection, modems, MbimMode, device);
      ExplicitMode(selection, modems, device);
      ResolvedIsOwned(selection, modems, MbimMode, device);
      NamedEndpoint(selection, modems, MbimMode, device);
      if !e.MbimEndpoint? {
        return e, false;
      }
      ok := ConnectEndpoint(env, e);
    }

    /** The RNDIS branch of `ModemService.DataConnect` on a resolved interface. */
    method ConnectRndis(iface: string, env: Env, how: Option<Method>) returns (ok: bool)
      modifies this`world, this`polled
      ensures ok == Outcome(env, how).0.Connected? && world == AfterRndis(old(world), iface, env, how)
      ensures polled == if ok then old(polled).(iface := iface, connected := true) else old(polled)
    {
      hide Outcome, AppliedAll;
      world := AppliedAll(world, iface, Outcome(env, how).1);
      ok := Outcome(env, how).0.Connected?;
      if ok {
        polled := polled.(iface := iface, connected := true);
      }
    }

    /** The RNDIS branch of the facade's `DataConnect`: success ends any override. */
    method ConnectRndisEndpoint(e: Endpoint, env: Env, how: Option<Method>) returns (ok: bool)
      requires e.RndisEndpoint?
      modifies this`world, this`polled, this`wan, this`pdp
      ensures ok == Outcome(env, how).0.Connected? && world == AfterRndis(old(world), e.hostIface, env, how)
      ensures TouchesOnly(old(world), world, e) && world.bearers == old(world.bearers)
      ensures polled == if ok then old(polled).(iface := e.hostIface, connected := true) else old(polled)
      ensures ok ==> wan == None && pdp == None && Shown() == polled && Truth()
      ensures !ok ==> wan == old(wan) && pdp == old(pdp)
      ensures !ok && old(Truth()) ==> Truth()
    {
      AppliedTouchesOnly(world, e.hostIface, Outcome(env, how).1);
      if OnShow() && Truth() && !Outcome(env, how).0.Connected? {
        RndisFailedOverReal(world, e.hostIface, env, how, wan.value.iface, pdp.value, source, selection.mbim);
      }
      assert AfterRndis(world, e.hostIface, env, how).bearers == world.bearers;
      hide Outcome, AfterRndis, Real, TouchesOnly;
      ok := ConnectRndis(e.hostIface, env, how);
      if ok {
        wan, pdp := None, None;
      }
    }

    /** `DataConnect`: every host interface handed to RNDIS, static or DNS configuration belongs to the
        selected modem. */
    method DataConnect(modems: seq<Modem>, openAt: string, mode: Mode, iface: string, mbim: MbimEnv, rndis: Env,
          how: Option<Method>)
      returns (e: Endpoint, ok: bool)
      modifies this
      ensures selection == Defaults(old(selection), modems, openAt)
      ensures e == Resolve(selection, modems, mode, iface) && Owns(modems, selection, e)
      ensures TouchesOnly(old(world), world, e)
      ensures ok <==> Succeeds(e, mbim, rndis, how)
      ensures ok || (old(Truth()) && !old(OnShow())) ==> Truth()
      ensures !ok && old(Truth() && OnShow()) ==>
        (Truth() <==> (e.MbimEndpoint? ==> OutlivesMbim(mbim)))
      ensures !ok ==> wan == old(wan) && pdp == old(pdp)
      ensures !e.MbimEndpoint? ==> calls == old(calls) && world.bearers == old(world.bearers)
      ensures e.MbimEndpoint? ==> RolledBack(old(calls), calls, e.control, mbim, ok)
      ensures e.MbimEndpoint? ==> world.bearers == BearersAfter(old(world.bearers), e.control, mbim, ok)
      ensures e.MbimEndpoint? && ok ==>
        OnShow() && wan.value.iface == e.hostIface && Answered(mbim.answers, 0) == Some(source.reported)
      ensures polled ==
        if e.RndisEndpoint? && ok then old(polled).(iface := e.hostIface, connected := true) else old(polled)
      ensures e.RndisEndpoint? ==> world == AfterRndis(old(world), e.hostIface, rndis, how)
      ensures e.RndisEndpoint? && ok ==> wan == None && pdp == None && Shown() == polled
    {
      hide Resolve, Defaults, Failure, Outcome, Real, TouchesOnly, RolledBack, OutlivesMbim, BearersAfter, AfterRndis;
      NothingTouched(world);
      if OnShow() && Truth() { RealIsSelected(wan.value.iface, pdp.value, source, world, selection.mbim); }
      ListModems(modems, openAt);
      e := Resolve(selection, modems, mode, iface);
      ResolvedIsOwned(selection, modems, mode, iface);
      NamedEndpoint(selection, modems, mode, iface);
      match e {
        case NoEndpoint =>
          ok := false;
        case MbimEndpoint(_, _) =>
          ok := ConnectEndpoint(mbim, e);
        case RndisEndpoint(_) =>
          ok := ConnectRndisEndpoint(e, rndis, how);
      }
    }

    // ----- Disconnecting -----

    /** `MBIMDisconnect`: only the selected modem's own control node; its interface is cleared, with its
        name servers. */
    method MbimDisconnect(modems: seq<Modem>, openAt: string, device0: string, disconnects: bool, cleans: bool,
          clears: bool)
      returns (ok: bool, cleared: string)
      modifies this
      ensures selection == Defaults(old(selection), modems, openAt) && polled == old(polled)
      ensures var s, device := selection, if device0 == "" then selection.mbim else device0;
        var m := ModemById(modems, s.modem);
        if !OwnControl(modems, s, device) then
          !ok && cleared == "" && calls == old(calls) && wan == old(wan) && pdp == old(pdp) && world == old(world)
        else
          && calls == old(calls) + [Disconnect(device, disconnects)]
          && (disconnects ==>
            wan == Some(WanInfo(CleanupIface(s, m.value), false, NO_COUNTERS)) && pdp == Some(NO_SESSION))
          && (!disconnects ==> wan == old(wan) && pdp == old(pdp) && world == old(world))
          && cleared == (if disconnects && cleans then CleanupIface(s, m.value) else "")
          && (cleared != "" ==> (cleared in m.value.net <==> m.value.net != []))
          && world == Cleared(old(world), device, cleared, disconnects, clears)
          && (ok <==> disconnects && (cleared == "" || clears))
      ensures ok ==> !Marked() && selection.mbim !in world.bearers
      // nothing but the selected modem's own node is disconnected; what is cleared has nothing left
      ensures
        var device, m := if device0 == "" then selection.mbim else device0, ModemById(modems, selection.modem);
        var own := device != "" && device == selection.mbim && m.Some? && device in m.value.mbim;
        calls == old(calls) + if own then [Disconnect(device, disconnects)] else []
      ensures world.bearers == old(world.bearers) || world.bearers == old(world.bearers) - {selection.mbim}
      ensures ok && cleared != "" ==>
        && AddrsOn(world, cleared) == {} && cleared !in world.servers && cleared !in world.leases
        && (world.route.Some? ==> world.route.value.iface != cleared)
      ensures old(Truth()) ==> Truth()
    {
      hide Defaults, Real;
      if OnShow() && Truth() { RealIsSelected(wan.value.iface, pdp.value, source, world, selection.mbim); }
      ListModems(modems, openAt);
      var device := if device0 == "" then selection.mbim else device0;
      var selected := ModemById(modems, selection.modem);
      if device == "" || device != selection.mbim || selected.None? || device !in selected.value.mbim {
        assert !OwnControl(modems, selection, device);
        return false, "";
      }
      var hostIface := CleanupIface(selection, selected.value);
      CallDisconnect(device, disconnects);
      if !disconnects {
        return false, "";
      }
      cleared := if cleans then hostIface else "";
      if cleared != "" && clears {
        world := Flushed(world, cleared).(servers := world.servers - {cleared});
      }
      wan, pdp := Some(WanInfo(hostIface, false, NO_COUNTERS)), Some(NO_SESSION);
      ok := cleared == "" || clears;
    }

    /** The RNDIS branch of `DataDisconnect`: a failed teardown keeps what was shown before. */
    method RndisDisconnect(modems: seq<Modem>, openAt: string, iface: string, disconnects: bool,
          deactivates: Option<bool>)
      returns (e: Endpoint, ok: bool)
      modifies this
      ensures selection == Defaults(old(selection), modems, openAt)
      ensures e == Resolve(selection, modems, RndisMode, iface) && Owns(modems, selection, e) && !e.MbimEndpoint?
      ensures e.NoEndpoint? ==>
        !ok && wan == old(wan) && pdp == old(pdp) && polled == old(polled) && world == old(world)
      ensures !e.NoEndpoint? ==> world == if disconnects then Flushed(old(world), e.hostIface) else old(world)
      ensures !e.NoEndpoint? && !disconnects ==> !ok && Shown() == old(Shown()) && pdp == None
      ensures !e.NoEndpoint? && disconnects ==>
        wan == None && pdp == None && !Shown().connected && (ok <==> deactivates != Some(false))
      ensures !e.NoEndpoint? && disconnects ==>
        && AddrsOn(world, e.hostIface) == {} && e.hostIface !in world.leases
        && (world.route.Some? ==> world.route.value.iface != e.hostIface)
      ensures calls == old(calls) && world.bearers == old(world.bearers)
      ensures old(Truth()) ==> Truth()
    {
      hide Defaults, Real, Resolve;
      if OnShow() && Truth() { RealIsSelected(wan.value.iface, pdp.value, source, world, selection.mbim); }
      ListModems(modems, openAt);
      e := Resolve(selection, modems, RndisMode, iface);
      ExplicitMode(selection, modems, iface);
      ResolvedIsOwned(selection, modems, RndisMode, iface);
      if e.NoEndpoint? {
        return e, false;
      }
      var before := Shown();
      if disconnects {
        world := Flushed(world, e.hostIface);
      }
      polled := polled.(connected := false);
      if !disconnects {
        wan, pdp := Some(before), None;
        return e, false;
      }
      wan, pdp := None, None;
      ok := deactivates != Some(false);
    }

    /** `DataDisconnect`: a request for MBIM, or one without a definite node while an MBIM session is shown, is
        about the selected modem's bearer; any other about its RNDIS interface. */
    method DataDisconnect(modems: seq<Modem>, openAt: string, mode0: Mode, iface: string,
        disconnects: bool, cleans: bool, clears: bool, deactivates: Option<bool>) returns (ok: bool)
      modifies this
      ensures old(Truth()) ==> Truth()
      ensures ok ==> !Marked() && !Shown().connected
      ensures selection == Defaults(old(selection), modems, openAt)
      ensures var w, device := old(wan), if HasPrefix(iface, "/dev/cdc-wdm") then iface else selection.mbim;
        var m := ModemById(modems, selection.modem);
        var own := device != "" && device == selection.mbim && m.Some? && device in m.value.mbim;
        if mode0.MbimMode?
          || ((mode0.AutoMode? || iface == "")
              && w.Some? && w.value.connected && w.value.iface != "" && old(pdp).Some?) then
          && polled == old(polled) && calls == old(calls) + (if own then [Disconnect(device, disconnects)] else [])
          && (ok ==> own && disconnects && selection.mbim !in world.bearers)
        else
          calls == old(calls) && world.bearers == old(world.bearers)
    {
      hide Defaults, CleanupIface, ModemById;
      var ends := (mode0.AutoMode? || iface == "")
        && wan.Some? && wan.value.connected && wan.value.iface != "" && pdp.Some?;
      if mode0.MbimMode? || ends {
        DefaultsTwice(selection, modems, openAt);
        ListModems(modems, openAt);
        var device := if HasPrefix(iface, "/dev/cdc-wdm") then iface else selection.mbim;
        var cleared: string;
        ok, cleared := MbimDisconnect(modems, openAt, device, disconnects, cleans, clears);
      } else {
        var e: Endpoint;
        e, ok := RndisDisconnect(modems, openAt, iface, disconnects, deactivates);
      }
    }

    // ----- Resetting -----

    /** `USBReset` on request, and the reset of the poller: neither touches the overrides. */
    method UsbReset(present: bool, usb: Usb, done: bool) returns (ok: bool)
      modifies this`world
      ensures ok == (present && done) && world == if ok then Reenumerated(old(world), usb) else old(world)
      ensures ok ==> world.bearers == old(world.bearers) - usb.nodes
      ensures ok ==> forall i :: i in usb.ifaces ==> i !in world.addrs
      ensures old(Truth() && OnShow()) ==> (Truth() <==> !ok || !Carries(usb, source, wan.value.iface))
    {
      ok := present && done;
      if OnShow() && Truth() {
        ReenumeratedOverReal(world, usb, wan.value.iface, pdp.value, source, selection.mbim);
      }
      hide Real;
      if ok {
        world := Reenumerated(world, usb);
      }
    }

    /** `SetUSBMode`: an accepted mode re-enumerates the device, too. */
    method SetUsbMode(mode: int, hasAt: bool, accepted: bool, usb: Usb) returns (ok: bool)
      modifies this`world
      ensures ok == (mode > 0 && hasAt && accepted)
      ensures world == if ok then Reenumerated(old(world), usb) else old(world)
      ensures old(Truth() && OnShow()) ==> (Truth() <==> !ok || !Carries(usb, source, wan.value.iface))
    {
      if mode <= 0 || !hasAt {
        return false;
      }
      ok := UsbReset(true, usb, accepted);
    }

    // ----- Selecting -----

    /** `SelectModem` of the facade: endpoints of another modem are refused before anything is selected. */
    method SelectModem(modems: seq<Modem>, openAt: string, req: SelectRequest) returns (r: Selected)
      modifies this`selection, this`wan, this`pdp
      ensures r.Refused? ==> selection == Defaults(old(selection), modems, openAt) && wan == old(wan) && pdp == old(pdp)
      ensures r.Ok? ==> wan == None && pdp == None && Truth()
      ensures var m := Chosen(modems, req);
        m.Some? && m.value.id != "" && DistinctIds(modems) ==>
          && (r.Ok? <==> Consistent(modems, m.value, req))
          && (r.Ok? && NamedNodes(m.value) ==>
            && SelectionOf(selection, m.value)
            && (req.mbim != "" ==> selection.mbim == req.mbim) && (req.net != "" ==> selection.net == req.net))
      ensures r.Ok? ==> ChosenPort(modems, openAt, req, r.atPort)
      ensures r.Ok? && Chosen(modems, req).None? ==> selection.modem == "serial:" + req.atPort
      ensures r.Ok? && req.mbim != "" ==> ModemByPath(modems, req.mbim, Mbim).Some?
      ensures r.Ok? && req.net != "" ==> ModemByPath(modems, req.net, Net).Some?
      ensures old(Truth()) ==> Truth()
    {
      ListModems(modems, openAt);
      DefaultsTwice(old(selection), modems, openAt);
      hide Defaults, Chosen, Consistent, NamedNodes, DistinctIds, SelectionOf, ModemByPath, Real, ChosenPort;
      r := SelectOwned(modems, openAt, req);
      if r.Ok? {
        wan, pdp := None, None;
      }
    }

    /** The part of it that selects. */
    method SelectOwned(modems: seq<Modem>, openAt: string, req: SelectRequest) returns (r: Selected)
      requires Defaults(selection, modems, openAt) == selection
      modifies this`selection
      ensures r.Refused? ==> selection == old(selection)
      ensures var m := Chosen(modems, req);
        m.Some? && m.value.id != "" && DistinctIds(modems) ==>
          && (r.Ok? <==> Consistent(modems, m.value, req))
          && (r.Ok? && NamedNodes(m.value) ==>
            && SelectionOf(selection, m.value)
            && (req.mbim != "" ==> selection.mbim == req.mbim) && (req.net != "" ==> selection.net == req.net))
      ensures r.Ok? ==> ChosenPort(modems, openAt, req, r.atPort)
      ensures r.Ok? && Chosen(modems, req).None? ==> selection.modem == "serial:" + req.atPort
      ensures r.Ok? && req.mbim != "" ==> ModemByPath(modems, req.mbim, Mbim).Some?
      ensures r.Ok? && req.net != "" ==> ModemByPath(modems, req.net, Net).Some?
    {
      hide Defaults, ModemById, ModemByPath, Pick, Nodes, PreferredAt, SelectionOf, NamedNodes, DistinctIds, AtPortFits,
        OwnedBy, HasPrefix;
      DefaultsKeepModem(Choose(selection, SerialModem(req.atPort), req), modems, openAt);
      var target;
      target, r := Check(modems, req);
      if r.Refused? {
        return;
      }
      var id := if req.modemId == "" && req.atPort == "" && target.Some? then target.value.id else req.modemId;
      var m := Chosen(modems, req);
      if m.Some? && m.value.id != "" && DistinctIds(modems) {
        FoundById(modems, m.value);
        if NamedNodes(m.value) && Consistent(modems, m.value, req) {
          ChosenIsSelected(modems, selection, m.value, req, openAt);
        }
      }
      r := Select(modems, openAt, req.(modemId := id));
    }

    /** The ownership checks of the facade. */
    method Check(modems: seq<Modem>, req: SelectRequest) returns (target: Option<Modem>, r: Selected)
      ensures var m := Chosen(modems, req);
        m.Some? ==> (r.Ok? <==> OwnedBy(modems, m.value, req.mbim, Mbim) && OwnedBy(modems, m.value, req.net, Net))
      ensures r.Ok? && Chosen(modems, req).Some? ==> target == Chosen(modems, req)
      ensures req.modemId == "" && req.atPort == "" && req.mbim == "" && req.net == "" ==> target.None?
      ensures r.Ok? && req.modemId != "" ==> ModemById(modems, req.modemId).Some?
      ensures r.Ok? && req.mbim != "" ==> ModemByPath(modems, req.mbim, Mbim).Some?
      ensures r.Ok? && req.net != "" ==> ModemByPath(modems, req.net, Net).Some?
    {
      hide ModemById, ModemByPath;
      target := None;
      if req.modemId != "" {
        target := ModemById(modems, req.modemId);
        if target.None? {
          return target, Refused(UnknownModem);
        }
      } else if req.atPort != "" {
        target := ModemByPath(modems, req.atPort, At);
      }
      target, r := CheckPath(modems, req.mbim, Mbim, target);
      if r.Refused? {
        return;
      }
      target, r := CheckPath(modems, req.net, Net, target);
    }

    /** `validateDataPath`: the first data endpoint named may decide the modem. */
    method CheckPath(modems: seq<Modem>, path: string, kind: Kind, target0: Option<Modem>)
      returns (target: Option<Modem>, r: Selected)
      ensures target0.Some? ==> target == target0 && (r.Ok? <==> OwnedBy(modems, target0.value, path, kind))
      ensures target0.None? ==>
        && (r.Ok? <==> path == "" || ModemByPath(modems, path, kind).Some?)
        && (r.Ok? ==> target == if path == "" then None else ModemByPath(modems, path, kind))
      ensures r.Ok? && path != "" ==> ModemByPath(modems, path, kind).Some?
    {
      target, r := target0, Ok("");
      if path == "" {
        return;
      }
      var owner := ModemByPath(modems, path, kind);
      if owner.None? {
        return target, Refused(UnknownEndpoint);
      }
      if target.Some? && owner.value.id != target.value.id {
        return target, Refused(ForeignEndpoint);
      }
      target := if target.None? then owner else target;
    }

    /** `ModemService.SelectModem`. */
    method Select(modems: seq<Modem>, openAt: string, req: SelectRequest) returns (r: Selected)
      modifies this`selection
      ensures var s, m := Defaults(old(selection), modems, openAt), Meant(modems, req);
        if req.modemId == "" && req.atPort == "" && req.mbim == "" && req.net == "" then r.Refused? && selection == s
        else if req.modemId != "" && m.None? then r.Refused? && selection == s
        else if m.None? then
          && r.Ok?
          && selection ==
            Defaults(Selection(s.modem, Pick(req.mbim, s.mbim, []), Pick(req.net, s.net, [])), modems, openAt)
        else if !AtPortFits(m.value, req.atPort) then r.Refused? && selection == s
        else r.Ok? && selection == Defaults(Choose(s, m.value, req), modems, openAt)
      ensures var m := Meant(modems, req);
        r.Ok? ==> r.atPort == if req.atPort != "" || m.None? then req.atPort else PreferredAt(m.value.atPorts, openAt)
    {
      hide Defaults, ModemById, ModemByPath, Nodes, PreferredAt;
      ListModems(modems, openAt);
      if req.modemId == "" && req.atPort == "" && req.mbim == "" && req.net == "" {
        return Refused(NothingRequested);
      }
      var modem := Meant(modems, req);
      if req.modemId != "" && modem.None? {
        return Refused(UnknownModem);
      }
      var atPort := req.atPort;
      if modem.Some? {
        var m := modem.value;
        if atPort == "" {
          atPort := PreferredAt(m.atPorts, openAt);
        } else if m.atPorts != [] && atPort !in Nodes(m, At) && !HasPrefix(m.id, "serial:") {
          return Refused(ForeignAtPort);
        }
        selection := Choose(selection, m, req);
      } else {
        selection := Selection(selection.modem, Pick(req.mbim, selection.mbim, []), Pick(req.net, selection.net, []));
      }
      ListModems(modems, openAt);
      r := Ok(atPort);
    }
  }

  // ----- Whole runs -----

  /** One request at the boundary, or a reset by the poller, with what discovery shows and what the outside
      answers. */
  datatype Op =
    | Selects(modems: seq<Modem>, openAt: string, select: SelectRequest)
    | Connects(modems: seq<Modem>, openAt: string, mode: Mode, iface: string, mbim: MbimEnv, rndis: Env,
      how: Option<Method>)
    | ConnectsMbim(modems: seq<Modem>, openAt: string, device: string, mbim: MbimEnv)
    | Disconnects(modems: seq<Modem>, openAt: string, mode: Mode, iface: string,
        down: bool, cleans: bool, clears: bool, deactivates: Option<bool>)
    | DisconnectsMbim(modems: seq<Modem>, openAt: string, device: string, down: bool, cleans: bool, clears: bool)
    | ResetsUsb(present: bool, usb: Usb, done: bool)
    | PollerResets(usb: Usb, done: bool)
    | ChangesUsbMode(usbMode: int, hasAt: bool, accepted: bool, usb: Usb)

  /** What leaves a session shown that is no longer real: a connect that reaches the modem, fails and is
      rolled back; and a reset or mode change of the device that carries the session. */
  predicate Loses(s: State, op: Op) {
    s.OnShow() && match op
    case Connects(modems, openAt, mode, iface, mbim, _, _) =>
      Resolve(Defaults(s.selection, modems, openAt), modems, mode, iface).MbimEndpoint? && RollsBack(mbim)
    case ConnectsMbim(modems, openAt, device, mbim) =>
      Resolve(Defaults(s.selection, modems, openAt), modems, MbimMode, device).MbimEndpoint? && RollsBack(mbim)
    case ResetsUsb(present, usb, done) => present && done && Carries(usb, s.source, s.wan.value.iface)
    case PollerResets(usb, done) => done && Carries(usb, s.source, s.wan.value.iface)
    case ChangesUsbMode(usbMode, hasAt, accepted, usb) =>
      usbMode > 0 && hasAt && accepted && Carries(usb, s.source, s.wan.value.iface)
    case _ => false
  }

  predicate RollsBack(env: MbimEnv) { env.connects && Failure(env).Some? && env.rollsBack }

  /** Every step keeps what is shown true, but for exactly those. */
  method Serve(w: WanService, op: Op)
    modifies w
    ensures old(w.View()).Honest() ==> (w.View().Honest() <==> !Loses(old(w.View()), op))
  {
    hide Resolve, Defaults, Failure, Outcome, Real, Carries;
    match op {
      case Selects(modems, openAt, select) =>
        var r := w.SelectModem(modems, openAt, select);
      case Connects(modems, openAt, mode, iface, mbim, rndis, how) =>
        var e, ok := w.DataConnect(modems, openAt, mode, iface, mbim, rndis, how);
      case ConnectsMbim(modems, openAt, device, mbim) =>
        ExplicitMode(Defaults(w.selection, modems, openAt), modems, device);
        var e, ok := w.MbimConnect(modems, openAt, device, mbim);
      case Disconnects(modems, openAt, mode, iface, down, cleans, clears, deactivates) =>
        var ok := w.DataDisconnect(modems, openAt, mode, iface, down, cleans, clears, deactivates);
      case DisconnectsMbim(modems, openAt, device, down, cleans, clears) =>
        var ok, cleared := w.MbimDisconnect(modems, openAt, device, down, cleans, clears);
      case ResetsUsb(present, usb, done) =>
        var ok := w.UsbReset(present, usb, done);
      case PollerResets(usb, done) =>
        var ok := w.UsbReset(true, usb, done);
      case ChangesUsbMode(usbMode, hasAt, accepted, usb) =>
        var ok := w.SetUsbMode(usbMode, hasAt, accepted, usb);
    }
  }

  /** Any run of requests and resets, `run` being the states it goes through: what is shown is true up to the
      first step that loses it, and false right after that. */
  method Drive(ops: seq<Op>) returns (w: WanService, ghost run: seq<State>)
    ensures fresh(w) && |run| == |ops| + 1 && run[|ops|] == w.View()
    ensures forall k :: 0 <= k <= |ops| && (forall i :: 0 <= i < k ==> !Loses(run[i], ops[i])) ==> run[k].Honest()
    ensures forall k :: (0 <= k < |ops| && Loses(run[k], ops[k])
        && forall i :: 0 <= i < k ==> !Loses(run[i], ops[i])) ==>
      !run[k + 1].Honest()
  {
    w := new WanService();
    run := [w.View()];
    for n := 0 to |ops|
      invariant fresh(w) && |run| == n + 1 && run[n] == w.View() && run[0].Honest()
      invariant forall i :: 0 <= i < n && run[i].Honest() ==> (run[i + 1].Honest() <==> !Loses(run[i], ops[i]))
    {
      hide Loses, Real;
      Serve(w, ops[n]);
      run := run + [w.View()];
    }
    HonestUntilLost(run, ops);
  }

  lemma {:induction false} HonestUntilLost(run: seq<State>, ops: seq<Op>)
    requires |run| == |ops| + 1 && run[0].Honest()
    requires forall i :: 0 <= i < |ops| && run[i].Honest() ==> (run[i + 1].Honest() <==> !Loses(run[i], ops[i]))
    ensures forall k :: 0 <= k <= |ops| && (forall i :: 0 <= i < k ==> !Loses(run[i], ops[i])) ==> run[k].Honest()
  {
    hide Loses, Real;
    forall k | 0 <= k <= |ops| && (forall i :: 0 <= i < k ==> !Loses(run[i], ops[i])) ensures run[k].Honest() {
      var n := 0;
      while n < k
        invariant 0 <= n <= k && run[n].Honest()
      {
        n := n + 1;
      }
    }
  }

  /** A selected modem with its session up and shown. */
  method SetUp(modem: Modem, cfg: Reply, env: Env) returns (w: WanService)
    requires modem.id != "" && modem.mbim != [] && modem.net != [] && NamedNodes(modem)
    requires cfg.address != "" && Configured(env, cfg)
    ensures fresh(w) && w.OnShow() && w.Truth()
    ensures SelectionOf(w.selection, modem) && Defaults(w.selection, [modem], "") == w.selection
    ensures Resolve(w.selection, [modem], MbimMode, "") == MbimEndpoint(w.selection.mbim, w.selection.net)
  {
    var good := MbimEnv(true, true, _ => Some(cfg), true, env, true);
    w := new WanService();
    var r := w.SelectModem([modem], "", SelectRequest(modem.id, "", "", ""));
    AutoResolves(w.selection, [modem], modem);
    assert Chosen([modem], SelectRequest(modem.id, "", "", "")) == Some(modem);
    var e, ok := w.MbimConnect([modem], "", "", good);
    assert e == MbimEndpoint(w.selection.mbim, w.selection.net) && Answered(good.answers, 0) == Some(cfg) && ok;
  }

  /** A second connect that gets no IP configuration takes the bearer down and leaves the first session on
      show. */
  method ConnectedTwice(modem: Modem, cfg: Reply, env: Env) returns (w: WanService)
    requires modem.id != "" && modem.mbim != [] && modem.net != [] && NamedNodes(modem)
    requires cfg.address != "" && Configured(env, cfg)
    ensures !w.Truth() && w.Marked()
  {
    w := SetUp(modem, cfg, env);
    var bad := MbimEnv(true, true, _ => None, true, env, true);
    var again, worked := w.MbimConnect([modem], "", "", bad);
    assert Answered(bad.answers, 0) == None by { assert Answered(bad.answers, 2) == None; }
  }

  /** So does a reset of the modem, with nothing failing. */
  method ResetWhileConnected(modem: Modem, cfg: Reply, env: Env) returns (w: WanService)
    requires modem.id != "" && modem.mbim != [] && modem.net != [] && NamedNodes(modem)
    requires cfg.address != "" && Configured(env, cfg)
    ensures !w.Truth() && w.Marked()
  {
    w := SetUp(modem, cfg, env);
    var nodes := set node | node in modem.mbim;
    assert w.source.control in nodes;
    var ok := w.UsbReset(true, Usb(nodes, {}), true);
  }
}
