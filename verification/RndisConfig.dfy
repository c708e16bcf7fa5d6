/** Connecting the RNDIS interface: the address comes from the modem's own report or, where that is
    allowed, from DHCP. Each call that leaves the daemon has its outcome in `Env`; times are
    milliseconds. */
module RndisConfig {
  import opened Ipv4
  import opened PdpConfig
  import opened Text

  datatype Method = Auto | Dhcp | Static

  datatype Session = Session(ip: string, gateway: string, dns1: string, dns2: string)

  const NO_SESSION := Session("", "", "", "")

  /** What took place on the host network. */
  datatype Effect = Address(cidr: string) | DefaultRoute(gateway: string) | Servers(dns: seq<string>) | Lease

  /** One `+CGCONTRDP` query: how long it took and what it said. */
  datatype Reading = Reading(took: nat, answer: Answer)

  datatype Env = Env(
    hasAt: bool, activated: bool, pdp: Option<Session>,     // AT client; activation; session query
    reports: bool, answers: nat -> Reading,                 // the client can ask +CGCONTRDP; answers in order
    ours: bool, linkUp: bool, addrSet: bool, routeSet: bool,
    setsDns: bool, dnsSet: bool, leased: bool)

  datatype Result = Connected(via: Method) | BadMethod | NotActivated | NoConfig | StaticFailed | DhcpFailed

  const WAIT := 6000
  const POLL_INTERVAL := 500

  // ----- Waiting for the report -----

  datatype Waited = Got(cfg: IpConfig, attempt: nat) | Nothing(attempts: nat, elapsed: nat)

  predicate Complete(a: Answer) { a.Config? && a.cfg.address != "" && a.cfg.gateway != "" }

  /** Asking until an answer is complete or the deadline has passed. */
  function Poll(answers: nat -> Reading, n: nat, now: nat): Waited
    decreases if now < WAIT then WAIT - now else 0
  {
    var t := now + answers(n).took;
    if Complete(answers(n).answer) then Got(answers(n).answer.cfg, n)
    else if t >= WAIT then Nothing(n + 1, t)
    else Poll(answers, n + 1, t + POLL_INTERVAL)
  }

  /** The first complete answer is taken; giving up takes the full six seconds and finds none. No
      more than thirteen queries are made. */
  lemma {:induction false} PollExact(answers: nat -> Reading, n: nat, now: nat)
    requires n * POLL_INTERVAL <= now < WAIT + POLL_INTERVAL
    ensures match Poll(answers, n, now)
      case Got(cfg, k) =>
        && n <= k <= 12 && answers(k).answer == Config(cfg) && cfg.address != "" && cfg.gateway != ""
        && forall i :: n <= i < k && answers(i).answer.Config? ==>
             answers(i).answer.cfg.address == "" || answers(i).answer.cfg.gateway == ""
      case Nothing(k, elapsed) =>
        && n < k <= 13 && elapsed >= 6000
        && forall i :: n <= i < k && answers(i).answer.Config? ==>
             answers(i).answer.cfg.address == "" || answers(i).answer.cfg.gateway == ""
    decreases if now < WAIT then WAIT - now else 0
  {
    var t := now + answers(n).took;
    if !Complete(answers(n).answer) && t < WAIT {
      PollExact(answers, n + 1, t + POLL_INTERVAL);
    }
  }

  /** Queries that take no time are made thirteen times, half a second apart. */
  lemma {:induction false} InstantPolls(answers: nat -> Reading, n: nat)
    requires n <= 12 && forall i :: n <= i <= 12 ==> answers(i).took == 0 && !Complete(answers(i).answer)
    ensures Poll(answers, n, 500 * n) == Nothing(13, 6000)
    decreases 12 - n
  {
    hide Complete;
    if n < 12 { InstantPolls(answers, n + 1); }
  }

  /** `waitRNDISIPConfig`. */
  method WaitConfig(env: Env) returns (r: Option<IpConfig>)
    ensures r == Reported(env)
  {
    if !env.reports {
      return None;
    }
    var now: nat, n: nat := 0, 0;
    while true
      invariant Poll(env.answers, 0, 0) == Poll(env.answers, n, now)
      decreases if now < WAIT then WAIT - now else 0
    {
      var reading := env.answers(n);
      now := now + reading.took;
      if Complete(reading.answer) {
        return Some(reading.answer.cfg);
      }
      if now >= WAIT {
        break;
      }
      n, now := n + 1, now + POLL_INTERVAL;
    }
    r := None;
  }

  function Reported(env: Env): Option<IpConfig> {
    if !env.reports then None
    else match Poll(env.answers, 0, 0)
      case Got(cfg, _) => Some(cfg)
      case Nothing(_, _) => None
  }

  /** What is reported is the first complete answer, if the modem has one to give in time; it has if its first
      answer is complete. */
  lemma {:induction false} ReportedExact(env: Env)
    ensures Reported(env).Some? ==>
      var cfg := Reported(env).value;
      && env.reports && cfg.address != "" && cfg.gateway != ""
      && exists k :: 0 <= k <= 12 && env.answers(k).answer == Config(cfg)
           && forall i :: 0 <= i < k && env.answers(i).answer.Config? ==>
                env.answers(i).answer.cfg.address == "" || env.answers(i).answer.cfg.gateway == ""
    ensures env.reports && Complete(env.answers(0).answer) ==> Reported(env) == Some(env.answers(0).answer.cfg)
  {
    PollExact(env.answers, 0, 0);
  }

  // ----- Static parameters on the host -----

  /** The checks of `ConnectRNDISStatic` itself. */
  predicate HostAccepts(addrCidr: string, gateway: string) {
    var a, g := Trim(addrCidr), Trim(gateway);
    var slash := IndexOf(a, '/');
    && 0 < slash < |a| - 1 && UsableAddr(a[..slash])
    && Atoi(a[slash + 1..]).Number? && 0 <= Atoi(a[slash + 1..]).n <= 32
    && (g != "" ==> LooksLikeAddr(g))
  }

  lemma {:induction false} CidrHalves(a: string)
    requires ParseCidr(a).Some?
    ensures var slash, ip := IndexOf(a, '/'), ParseCidr(a).value.ip;
      && 0 < slash < |a| - 1 && a[..slash] == Dotted(ip)
      && a[slash + 1..] != "" && AllDigits(a[slash + 1..]) && DecimalValue(a[slash + 1..]) <= 32
  {
    var f := Split(a, '/');
    JoinSplit(a, '/');
    SplitLacks(a, '/');
    ParsedIsDotted(f[0]);
    hide Split, ParseAddr, Dotted, DecimalValue;
    assert a == f[0] + ['/'] + f[1];
    IndexOfAfter(f[0], '/', f[1]);
    assert a[..|f[0]|] == f[0] && a[|f[0]| + 1..] == f[1];
    DottedNotEmpty(ParseCidr(a).value.ip);
  }

  lemma {:induction false} DottedNotEmpty(v: Addr)
    ensures Dotted(v) != ""
  {
    DottedRoundTrip(v);
    assert Split("", '.') == [""];
  }

  lemma {:induction false} SmallNumber(s: string)
    requires s != "" && AllDigits(s) && DecimalValue(s) <= 32
    ensures Atoi(s).Number? && 0 <= Atoi(s).n <= 32
  {
    assert IsDigit(s[0]);
    hide DecimalValue;
  }

  /** Of an address with prefix, and no gateway or one that parses, the host refuses 0.0.0.0 only. */
  lemma {:induction false} HostAcceptsParsed(addrCidr: string, gateway: string)
    requires ParseCidr(Trim(addrCidr)).Some? && (Trim(gateway) == "" || ParseAddr(Trim(gateway)).Some?)
    ensures HostAccepts(addrCidr, gateway) <==> ParseCidr(Trim(addrCidr)).value.ip != 0
  {
    var a := Trim(addrCidr);
    CidrHalves(a);
    DottedUsable(ParseCidr(a).value.ip);
    if Trim(gateway) != "" { ParsedLooksLikeAddr(Trim(gateway)); }
    SmallNumber(a[IndexOf(a, '/') + 1..]);
    hide Trim, ParseAddr, Dotted, LooksLikeAddr, Split, DecimalValue;
  }

  /** So of what the repository lets through. */
  lemma {:induction false} HostAcceptsExact(addrCidr: string, gateway: string)
    requires ValidateStatic(addrCidr, gateway) == StaticOk
    ensures HostAccepts(addrCidr, gateway) <==> ParseCidr(Trim(addrCidr)).value.ip != 0
  {
    HostAcceptsParsed(addrCidr, gateway);
  }

  datatype Run = Run(ok: bool, effects: seq<Effect>)

  /** Applying `cfg` through the repository: checks first, then link, address and route; a failed
      route leaves the address in place. */
  function StaticRun(env: Env, cfg: IpConfig): Run {
    if !env.ours || ValidateStatic(cfg.address, cfg.gateway) != StaticOk || !HostAccepts(cfg.address, cfg.gateway)
       || !env.linkUp || !env.addrSet
    then Run(false, [])
    else if !env.routeSet then Run(false, [Address(Trim(cfg.address))])
    else Run(true, [Address(Trim(cfg.address)), DefaultRoute(Trim(cfg.gateway))])
  }

  function DnsRun(env: Env, cfg: IpConfig): seq<Effect> {
    if cfg.dns != [] && env.setsDns && env.dnsSet then [Servers(cfg.dns)] else []
  }

  // ----- Connecting -----

  /** The static attempt of a method: what the modem reported, if the method asks. */
  function Attempt(env: Env, m: Method): Option<IpConfig> { if m.Dhcp? then None else Reported(env) }

  predicate StaticWorks(env: Env, m: Method) { Attempt(env, m).Some? && StaticRun(env, Attempt(env, m).value).ok }

  function Outcome(env: Env, method0: Option<Method>): (Result, seq<Effect>) {
    if method0.None? then (BadMethod, [])
    else if env.hasAt && !env.activated then (NotActivated, [])
    else
      var m := method0.value;
      var tried := if Attempt(env, m).None? then [] else StaticRun(env, Attempt(env, m).value).effects;
      if StaticWorks(env, m) then (Connected(Static), tried + DnsRun(env, Attempt(env, m).value))
      else if m.Static? then (if Attempt(env, m).None? then NoConfig else StaticFailed, tried)
      else if env.ours && env.leased then (Connected(Dhcp), tried + [Lease])
      else (DhcpFailed, tried)
  }

  /** The session shown after a static connect. */
  function Shown(queried: Session, cfg: IpConfig): Session {
    Session(
      if queried.ip == "" then Split(cfg.address, '/')[0] else queried.ip, cfg.gateway,
      if |cfg.dns| > 0 then cfg.dns[0] else queried.dns1, if |cfg.dns| > 1 then cfg.dns[1] else queried.dns2)
  }

  function Queried(env: Env): Session {
    if env.hasAt && env.activated && env.pdp.Some? then env.pdp.value else NO_SESSION
  }

  lemma {:induction false} ShownKeepsIp(queried: Session, cfg: IpConfig)
    ensures queried.ip != "" ==> Shown(queried, cfg).ip == queried.ip
  {
  }

  lemma {:induction false} StaticIsReported(env: Env, method0: Option<Method>)
    ensures Outcome(env, method0).0 == Connected(Static) ==> method0.Some? && Reported(env).Some?
  {
    hide Reported, StaticRun, DnsRun;
  }

  /** The context is active, if there is an AT client to activate it. */
  predicate Active(env: Env) { env.hasAt ==> env.activated }

  /** The modem reported, in time, parameters that the repository and the host accept. */
  predicate Fits(env: Env) {
    && Reported(env).Some? && ValidateStatic(Reported(env).value.address, Reported(env).value.gateway) == StaticOk
    && ParseCidr(Trim(Reported(env).value.address)).value.ip != 0
  }

  lemma {:induction false} StaticWorksExact(env: Env, m: Method)
    ensures StaticWorks(env, m) <==> !m.Dhcp? && Fits(env) && HostWorks(env)
  {
    if Reported(env).Some? { StaticRunWorks(env, Reported(env).value); }
    hide Reported, StaticRun, ValidateStatic, ParseCidr, HostWorks;
  }

  /** What becomes of each method. */
  lemma {:induction false} OutcomeExact(env: Env, method0: Option<Method>)
    ensures Outcome(env, method0).0 ==
      match method0
      case None => BadMethod
      case Some(m) =>
        if !Active(env) then NotActivated
        else match m
          case Static =>
            if Fits(env) && HostWorks(env) then Connected(Static)
            else if Reported(env) == None then NoConfig else StaticFailed
          case Dhcp => if env.ours && env.leased then Connected(Dhcp) else DhcpFailed
          case Auto =>
            if Fits(env) && HostWorks(env) then Connected(Static)
            else if env.ours && env.leased then Connected(Dhcp) else DhcpFailed
  {
    if method0.Some? { StaticWorksExact(env, method0.value); }
    hide Reported, StaticRun, StaticWorks, DnsRun, Fits, HostWorks;
  }

  /** So when each way of connecting succeeds. */
  lemma {:induction false} ConnectsExactly(env: Env, method0: Option<Method>)
    ensures Outcome(env, method0).0 == Connected(Static) <==>
      && (method0 == Some(Auto) || method0 == Some(Static)) && Active(env) && Fits(env)
      && env.ours && env.linkUp && env.addrSet && env.routeSet
    ensures Outcome(env, method0).0 == Connected(Dhcp) <==>
      && (method0 == Some(Auto) || method0 == Some(Dhcp)) && Active(env)
      && Outcome(env, method0).0 != Connected(Static) && env.ours && env.leased
  {
    OutcomeExact(env, method0);
    hide Outcome, Reported, Fits, Active;
  }

  /** Every effect by its cause: the address reported, once it is accepted and set; the gateway and, where
      setting them works, the servers of a static connect; and a lease. */
  lemma {:induction false} EffectsExact(env: Env, method0: Option<Method>)
    ensures var r, effects := Outcome(env, method0).0, Outcome(env, method0).1;
      && (r == BadMethod || r == NotActivated || method0 == Some(Dhcp) ==>
            effects == if r == Connected(Dhcp) then [Lease] else [])
      && (r == Connected(Static) ==>
            var cfg := Reported(env).value;
            effects == [Address(Trim(cfg.address)), DefaultRoute(Trim(cfg.gateway))]
              + if cfg.dns != [] && env.setsDns && env.dnsSet then [Servers(cfg.dns)] else [])
      && (Active(env) && (method0 == Some(Auto) || method0 == Some(Static)) && r != Connected(Static) ==>
            effects ==
              (if Fits(env) && env.ours && env.linkUp && env.addrSet then [Address(Trim(Reported(env).value.address))]
               else []) + if r == Connected(Dhcp) then [Lease] else [])
  {
    if Reported(env).Some? {
      var cfg := Reported(env).value;
      StaticRunWorks(env, cfg);
      if ValidateStatic(cfg.address, cfg.gateway) == StaticOk { HostAcceptsExact(cfg.address, cfg.gateway); }
    }
    hide Reported, ValidateStatic, HostAccepts, ParseCidr, Trim;
  }

  class RndisService {
    var pdp: Session              // status.PDP
    var apnIp: string             // status.APN.IPAddr
    var wanMethod: Option<Method>
    ghost var host: seq<Effect>

    constructor ()
      ensures pdp == NO_SESSION && apnIp == "" && wanMethod == None && host == []
    { pdp, apnIp, wanMethod, host := NO_SESSION, "", None, []; }

    predicate Coherent()
      reads this
    { pdp.ip != "" ==> apnIp == pdp.ip }

    /** `cachePDPSession`. */
    method CachePdp(session: Session)
      modifies this`pdp, this`apnIp
      ensures pdp == session && apnIp == if session.ip != "" then session.ip else old(apnIp)
    {
      pdp := session;
      apnIp := if session.ip != "" then session.ip else apnIp;
    }

    /** `NetRepo.ConnectRNDISStatic` and the host commands below it. */
    method ConnectStatic(env: Env, cfg: IpConfig) returns (ok: bool)
      modifies this`host
      ensures ok == StaticRun(env, cfg).ok && host == old(host) + StaticRun(env, cfg).effects
    {
      hide ValidateStatic, HostAccepts;
      if !env.ours || ValidateStatic(cfg.address, cfg.gateway) != StaticOk {
        return false;
      }
      if !HostAccepts(cfg.address, cfg.gateway) || !env.linkUp || !env.addrSet {
        return false;
      }
      host := host + [Address(Trim(cfg.address))];
      if !env.routeSet {
        return false;
      }
      host := host + [DefaultRoute(Trim(cfg.gateway))];
      ok := true;
    }

    /** `configureRNDISDNS`: a failure is a warning only. */
    method ConfigureDns(env: Env, cfg: IpConfig)
      modifies this`host
      ensures host == old(host) + DnsRun(env, cfg)
    {
      if cfg.dns != [] && env.setsDns && env.dnsSet {
        host := host + [Servers(cfg.dns)];
      }
    }

    /** The branch of `connectRNDISConfigured` for reported parameters; `None` if it leaves the
        address to DHCP. */
    method TryReported(env: Env, m: Method, queried: Session) returns (r: Option<Result>)
      requires !m.Dhcp?
      modifies this
      ensures r == if StaticWorks(env, m) then Some(Connected(Static))
        else if m.Auto? then None else Some(if Reported(env).None? then NoConfig else StaticFailed)
      ensures host == old(host) + (if Reported(env).None? then [] else StaticRun(env, Reported(env).value).effects)
        + (if StaticWorks(env, m) then DnsRun(env, Reported(env).value) else [])
      ensures pdp == if StaticWorks(env, m) then Shown(queried, Reported(env).value) else old(pdp)
      ensures wanMethod == if StaticWorks(env, m) then Some(Static) else old(wanMethod)
      ensures apnIp == if StaticWorks(env, m) && pdp.ip != "" then pdp.ip else old(apnIp)
    {
      hide Reported, StaticRun, DnsRun, Split;
      var cfg := WaitConfig(env);
      if cfg.None? {
        return if m.Static? then Some(NoConfig) else None;
      }
      var ok := ConnectStatic(env, cfg.value);
      if !ok {
        return if m.Static? then Some(StaticFailed) else None;
      }
      CachePdp(Shown(queried, cfg.value));
      ConfigureDns(env, cfg.value);
      wanMethod := Some(Static);
      r := Some(Connected(Static));
    }

    /** `connectRNDISConfigured`. */
    method Connect(env: Env, method0: Option<Method>) returns (r: Result)
      modifies this
      ensures r == Outcome(env, method0).0 && host == old(host) + Outcome(env, method0).1
      // every method comes up exactly when it can, and does to the host just what it has to
      ensures r == Connected(Static) <==>
        && (method0 == Some(Auto) || method0 == Some(Static)) && Active(env) && Fits(env)
        && env.ours && env.linkUp && env.addrSet && env.routeSet
      ensures r == Connected(Dhcp) <==>
        && (method0 == Some(Auto) || method0 == Some(Dhcp)) && Active(env)
        && r != Connected(Static) && env.ours && env.leased
      ensures method0 == Some(Dhcp) ==> host == if r == Connected(Dhcp) then old(host) + [Lease] else old(host)
      ensures r == Connected(Static) ==>
        var cfg := Reported(env).value;
        host == old(host) + ([Address(Trim(cfg.address)), DefaultRoute(Trim(cfg.gateway))]
          + if cfg.dns != [] && env.setsDns && env.dnsSet then [Servers(cfg.dns)] else [])
      ensures method0 == None || (env.hasAt && !env.activated) ==> !r.Connected? && host == old(host)
      ensures r == Connected(Static) ==> pdp == Shown(Queried(env), Reported(env).value)
      ensures r != Connected(Static) ==>
        pdp == if method0.Some? && Queried(env).ip != "" then Queried(env) else old(pdp)
      ensures wanMethod == if r.Connected? then Some(r.via) else old(wanMethod)
      // a session that the modem answered with an address is the one shown
      ensures r.Connected? && env.hasAt && env.pdp.Some? && env.pdp.value.ip != "" ==> pdp.ip == env.pdp.value.ip
      // the address shown with the APN stays that of the session, and a known one is never forgotten
      ensures old(Coherent()) ==> Coherent()
      ensures old(apnIp) != "" ==> apnIp != ""
      ensures apnIp == old(apnIp) || apnIp == pdp.ip
    {
      if Reported(env).Some? { ShownKeepsIp(Queried(env), Reported(env).value); }
      StaticIsReported(env, method0);
      ConnectsExactly(env, method0);
      EffectsExact(env, method0);
      hide Active, Fits, Outcome, ParseCidr, Trim;
      hide Reported, StaticRun, StaticWorks, DnsRun, Shown;
      if method0.None? {
        return BadMethod;
      }
      if env.hasAt && !env.activated {
        return NotActivated;
      }
      var queried := Queried(env);
      if env.hasAt && queried.ip != "" {
        CachePdp(queried);
      }
      r := Configure(env, method0.value, queried);
    }

    /** The rest of it once the context is active: reported parameters, then a lease. */
    method Configure(env: Env, m: Method, queried: Session) returns (r: Result)
      requires env.hasAt ==> env.activated
      modifies this
      ensures r == Outcome(env, Some(m)).0 && host == old(host) + Outcome(env, Some(m)).1
      ensures pdp == if r == Connected(Static) then Shown(queried, Reported(env).value) else old(pdp)
      ensures wanMethod == if r.Connected? then Some(r.via) else old(wanMethod)
      ensures apnIp == if r == Connected(Static) && pdp.ip != "" then pdp.ip else old(apnIp)
    {
      hide Reported, StaticRun, DnsRun, Shown;
      if !m.Dhcp? {
        var tried := TryReported(env, m, queried);
        if tried.Some? {
          return tried.value;
        }
      }
      if !env.ours || !env.leased {
        return DhcpFailed;
      }
      host := host + [Lease];
      wanMethod := Some(Dhcp);
      r := Connected(Dhcp);
    }
  }

  // ----- What may touch the host -----

  /** Whatever the outcome, an address on the interface is one the modem reported in time, on a /24
      with its first address as gateway; and `static` never takes a lease. */
  lemma {:induction false} OnlyReportedAddresses(env: Env, method0: Option<Method>)
    ensures forall e :: e in Outcome(env, method0).1 && e.Address? ==>
      Reported(env).Some? && e.cidr == Trim(Reported(env).value.address)
        && ValidateStatic(Reported(env).value.address, Reported(env).value.gateway) == StaticOk
    ensures method0 == Some(Static) ==> Lease !in Outcome(env, method0).1
    ensures Outcome(env, method0).0 == Connected(Static) ==>
      Reported(env).Some? && Address(Trim(Reported(env).value.address)) in Outcome(env, method0).1
        && DefaultRoute(Trim(Reported(env).value.gateway)) in Outcome(env, method0).1
  {
    hide Reported, ValidateStatic, HostAccepts;
  }

  /** `auto` differs from `static` only in falling back to DHCP. */
  lemma {:induction false} AutoFallsBack(env: Env)
    ensures var s, a := Outcome(env, Some(Static)), Outcome(env, Some(Auto));
      if s.0 == Connected(Static) || s.0 == NotActivated then a == s
      else a == if env.ours && env.leased then (Connected(Dhcp), s.1 + [Lease]) else (DhcpFailed, s.1)
  {
    hide Reported, StaticRun, DnsRun;
  }

  predicate HostWorks(env: Env) { env.ours && env.linkUp && env.addrSet && env.routeSet }

  /** What a row for the context makes of itself. */
  function Understood(cid: nat, p: Report): Option<IpConfig> {
    match RowOf(ReportLine(cid, p), cid)
    case Usable(cfg) => Some(cfg)
    case _ => None
  }

  /** From the modem's row to the host: static RNDIS comes up exactly for a mask 255.255.255.0 and a
      gateway a.b.c.1 that is not the address itself, on a host whose commands work. */
  lemma {:induction false} StaticFromReport(env: Env, cid: nat, p: Report)
    requires cid <= MAX_INT && Plain(p)
    requires Reported(env) == Understood(cid, p)
    ensures Outcome(env, Some(Static)).0 == Connected(Static) <==>
      && (env.hasAt ==> env.activated) && p.mask == 0xFFFF_FF00
      && IsPeerOf(p.gateway, p.ip) && p.gateway != p.ip && p.ip != 0 && HostWorks(env)
  {
    hide *;
    UnderstoodExact(cid, p);
    ConnectsIff(env);
    if Understood(cid, p).Some? {
      var ones := MaskLength(p.mask).value;
      ReportedStatic(p.ip, ones, p.gateway);
      StaticRunWorks(env, Understood(cid, p).value);
      CidrRoundTrip(p.ip, ones);
      CidrTextTrimmed(p.ip, ones);
    }
  }

  lemma {:induction false} ConnectsIff(env: Env)
    ensures Outcome(env, Some(Static)).0 == Connected(Static) <==>
      (env.hasAt ==> env.activated) && Reported(env).Some? && StaticRun(env, Reported(env).value).ok
  {
    hide Reported, StaticRun, DnsRun;
  }

  /** What becomes of a row, and what its mask has to be for a /24. */
  lemma {:induction false} UnderstoodExact(cid: nat, p: Report)
    requires cid <= MAX_INT && Plain(p)
    ensures Understood(cid, p).Some? <==> MaskLength(p.mask).Some? && p.gateway != 0
    ensures Understood(cid, p).Some? ==>
      && Understood(cid, p).value.address == CidrText(p.ip, MaskLength(p.mask).value)
      && Understood(cid, p).value.gateway == Dotted(p.gateway)
    ensures MaskLength(p.mask) == Some(24) <==> p.mask == 0xFFFF_FF00
    ensures MaskLength(p.mask).Some? ==> MaskLength(p.mask).value <= 32
    ensures p.gateway == 0 ==> !IsPeerOf(p.gateway, p.ip)
  {
    ReportUnderstood(cid, p, cid);
    MaskLengthExact(p.mask);
    Mask24();
    MaskLengthBounds(p.mask);
    hide MaskLength, PrefixMask, Bits, Contiguous, RowOf, ReportLine, CidrText, Dotted;
  }

  lemma {:induction false} MaskLengthBounds(mask: Addr)
    ensures MaskLength(mask).Some? ==> MaskLength(mask).value <= 32
  {
  }

  lemma {:induction false} Mask24()
    ensures PrefixMask(24, 32) == 0xFFFF_FF00
  {
    Pow2Of32();
  }

  /** Whatever was reported, static works exactly if the texts fit, the address is not 0.0.0.0 and the host
      commands work. */
  lemma {:induction false} StaticRunWorks(env: Env, cfg: IpConfig)
    ensures StaticRun(env, cfg).ok <==>
      && ValidateStatic(cfg.address, cfg.gateway) == StaticOk && ParseCidr(Trim(cfg.address)).value.ip != 0
      && HostWorks(env)
  {
    if ValidateStatic(cfg.address, cfg.gateway) == StaticOk {
      HostAcceptsExact(cfg.address, cfg.gateway);
    }
    hide HostAccepts, ParseCidr, Trim;
  }

  /** The gateway and servers shown are those configured; the address shown is the configured one
      unless the session query named another. */
  lemma {:induction false} ShownExact(queried: Session, ip: Addr, ones: nat, cfg: IpConfig)
    requires ones <= 32 && cfg.address == CidrText(ip, ones)
    ensures Shown(queried, cfg).gateway == cfg.gateway
    ensures Shown(queried, cfg).dns1 == if cfg.dns == [] then queried.dns1 else cfg.dns[0]
    ensures Shown(queried, cfg).dns2 == if |cfg.dns| < 2 then queried.dns2 else cfg.dns[1]
    ensures Shown(queried, cfg).ip == Dotted(ip) <==> queried.ip == "" || queried.ip == Dotted(ip)
  {
    DottedCharacters(ip, '/');
    SplitField(Dotted(ip), Decimal(ones), '/');
    hide Dotted, Decimal;
  }
}
