/** The lifecycle of the software access point: addresses, forwarding, NAT and two daemons acquired
    step by step, with roll-back, stop and the clean-up after a dead daemon. The host is a value in
    a field of the manager; every command that can fail has its outcome in a parameter, and a failed
    command changes nothing. */
module Hotspot {
  import opened HotspotDhcp
  import opened Ipv4
  import opened Text

  datatype Rule =
    | Masquerade(base: Addr, ones: nat, uplink: string)
    | ForwardOut(base: Addr, ones: nat, wlan: string, uplink: string)
    | ForwardIn(base: Addr, ones: nat, wlan: string, uplink: string)
    | Foreign(text: string)

  datatype Daemon = Hostapd | Dnsmasq

  /** `forward` is the trimmed content of `ip_forward`; `table` the hotspot's nft table; `daemons` are those
      that this manager started. */
  datatype Host = Host(forward: string, rules: multiset<Rule>, table: Option<multiset<Rule>>,
    addrs: map<string, seq<string>>, daemons: set<Daemon>)

  function AddrsOf(h: Host, iface: string): seq<string> { if iface in h.addrs then h.addrs[iface] else [] }

  datatype Config = Config(wlan: string, lan: string)

  /** Outcomes of the commands that tear things down. */
  datatype Teardown = Teardown(flushes: bool, kills: bool, unloads: bool, unforwards: bool)

  const WORKS := Teardown(true, true, true, true)

  /** Outcomes of the commands of one start; `adds` are the three `iptables -A`. */
  datatype Env = Env(preflight: bool, mkdir: bool, linkUp: bool, addrAdd: bool,
    writesHostapd: bool, writesDnsmasq: bool,
    readsForward: bool, setsForward: bool, loads: bool, adds: nat -> bool,
    hostapdStarts: bool, hostapdStays: bool, dnsmasqStarts: bool, dnsmasqStartsPlain: bool, down: Teardown)

  datatype StartResult = Started | AlreadyRunning | Refused | NotSetUp | Failed

  const DHCP_START := "192.168.50.10"
  const DHCP_END := "192.168.50.200"

  // ----- NAT rules -----

  /** The network of the LAN text, if it is one. */
  function LanNetwork(lan: string): (r: Option<Cidr>)
    ensures r.Some? ==> r.value.ones <= 32
  { ParseCidr(Trim(lan)) }

  function Rules(wlan: string, uplink: string, lan: Cidr): (r: seq<Rule>)
    requires lan.ones <= 32
    ensures Distinct(r) && forall i :: 0 <= i < 3 ==> !r[i].Foreign?
  {
    var base := Base(lan.ip, lan.ones);
    [Masquerade(base, lan.ones, uplink), ForwardOut(base, lan.ones, wlan, uplink),
     ForwardIn(base, lan.ones, wlan, uplink)]
  }

  /** One copy of each of the three rules deleted, where there is one. */
  function Removed<T(!new)>(rules: multiset<T>, r: seq<T>): multiset<T>
    requires |r| == 3
  { Less(Less(Less(rules, r[0]), r[1]), r[2]) }

  function Less<T(!new)>(rules: multiset<T>, x: T): (m: multiset<T>)
    ensures m[x] == (if rules[x] > 0 then rules[x] - 1 else 0) && forall y :: y != x ==> m[y] == rules[y]
  { rules - multiset{x} }

  /** The first `k` rules added. */
  function Added<T(!new)>(rules: multiset<T>, r: seq<T>, k: nat): multiset<T>
    requires |r| == 3 && k <= 3
  { if k == 0 then rules else Added(rules, r, k - 1) + multiset{r[k - 1]} }

  predicate Distinct<T(==, !new)>(r: seq<T>) { |r| == 3 && r[0] != r[1] && r[1] != r[2] && r[0] != r[2] }

  lemma {:induction false} RemovedCopies<T(!new)>(rules: multiset<T>, r: seq<T>, x: T)
    requires Distinct(r)
    ensures Removed(rules, r)[x] == if x in r && rules[x] > 0 then rules[x] - 1 else rules[x]
  {
    hide Less;
  }

  lemma {:induction false} AddedCopies<T(!new)>(rules: multiset<T>, r: seq<T>, k: nat, x: T)
    requires Distinct(r) && k <= 3
    ensures Added(rules, r, k)[x] == rules[x] + if x in r[..k] then 1 else 0
  {
    if k > 0 {
      AddedCopies(rules, r, k - 1, x);
      assert r[..k] == r[..k - 1] + [r[k - 1]];
    }
  }

  lemma {:induction false} Copies<T(!new)>(rules: multiset<T>, r: seq<T>, k: nat, x: T)
    requires Distinct(r) && k <= 3
    ensures Removed(Added(rules, r, k), r)[x] == rules[x] <==> x !in r || x in r[..k] || x !in rules
  {
    AddedCopies(rules, r, k, x);
    RemovedCopies(Added(rules, r, k), r, x);
    hide Added, Removed;
  }

  lemma {:induction false} NotYetAdded<T(!new)>(r: seq<T>, k: nat, i: nat)
    requires Distinct(r) && k <= i < 3
    ensures r[i] !in r[..k]
  {
  }

  lemma {:induction false} PositionOf<T(!new)>(r: seq<T>, k: nat, x: T) returns (i: nat)
    requires Distinct(r) && k <= 3 && x in r && x !in r[..k]
    ensures k <= i < 3 && r[i] == x
  {
    assert forall j :: 0 <= j < k ==> r[j] in r[..k];
    i :| 0 <= i < 3 && r[i] == x;
  }

  /** Rolling back after `k` rules restores the rules exactly if the host had no copy of the others;
      in particular a complete set is always taken back. */
  lemma {:induction false} RollBackExact<T(!new)>(rules: multiset<T>, r: seq<T>, k: nat)
    requires Distinct(r) && k <= 3
    ensures Removed(Added(rules, r, k), r) == rules <==> forall i :: k <= i < 3 ==> r[i] !in rules
  {
    var after := Removed(Added(rules, r, k), r);
    if after == rules {
      forall i | k <= i < 3 ensures r[i] !in rules {
        Copies(rules, r, k, r[i]);
        NotYetAdded(r, k, i);
        hide Added, Removed;
      }
    } else if forall i :: k <= i < 3 ==> r[i] !in rules {
      forall x ensures after[x] == rules[x] {
        Copies(rules, r, k, x);
        if x in r && x !in r[..k] { var i := PositionOf(r, k, x); }
        hide Added, Removed, Distinct;
      }
      assert false;
    }
  }

  /** Rolling back never leaves more than there was. */
  lemma {:induction false} RollBackShrinks<T(!new)>(rules: multiset<T>, r: seq<T>, k: nat)
    requires Distinct(r) && k <= 3
    ensures Removed(Added(rules, r, k), r) <= rules
  {
    forall x ensures Removed(Added(rules, r, k), r)[x] <= rules[x] {
      AddedCopies(rules, r, k, x);
      RemovedCopies(Added(rules, r, k), r, x);
      if x in r[..k] { assert x in r; }
    }
    hide Added, Removed;
  }

  // ----- Rules of others -----

  /** The rules that are not the hotspot's. */
  ghost predicate ForeignKept(a: Host, b: Host) { forall t: string :: b.rules[Foreign(t)] == a.rules[Foreign(t)] }

  lemma {:induction false} SameForeign(a: Host, b: Host)
    requires b.rules == a.rules
    ensures ForeignKept(a, b)
  {
  }

  /** Rules and table are those that were there, or fewer of them. */
  predicate Shrunk(a: Host, b: Host) { b.rules <= a.rules && (b.table == a.table || b.table.None?) }

  predicate NatTakenBack(nft: bool, a: Host, b: Host, cfg: Config, uplink: string, env: Env)
    requires LanNetwork(cfg.lan).Some?
  {
    && Shrunk(a, b)
    && ((b.rules == a.rules && b.table == a.table) <==>
      NoLeftover(nft, a, Rules(cfg.wlan, uplink, LanNetwork(cfg.lan).value), AddedCount(env.adds)))
  }

  lemma {:induction false} ForeignChain(a: Host, b: Host, c: Host)
    requires b.rules == a.rules && ForeignKept(b, c)
    ensures ForeignKept(a, c)
  {
  }

  lemma {:induction false} ComesUpFrame(nft: bool, a: Host, b: Host, cfg: Config, env: Env)
    requires b.forward == a.forward
    ensures ComesUp(nft, a, cfg, env) == ComesUp(nft, b, cfg, env)
  {
  }

  lemma {:induction false} SparesFrame(nft: bool, a: Host, b: Host, c: Host, cfg: Config, uplink: string, env: Env)
    requires b == a.(addrs := b.addrs)
    ensures Spares(nft, a, cfg, uplink, env) == Spares(nft, b, cfg, uplink, env)
    ensures GivenBack(a, c) == GivenBack(b, c) && Shrunk(a, c) == Shrunk(b, c)
  {
    hide Rules, LanNetwork;
  }

  lemma {:induction false} ForeignFrame(a: Host, b: Host, c: Host)
    requires ForeignKept(a, b) && c.rules == b.rules
    ensures ForeignKept(a, c)
  {
  }

  lemma {:induction false} RemovedKeepsForeign(rules: multiset<Rule>, r: seq<Rule>)
    requires Distinct(r) && forall i :: 0 <= i < 3 ==> !r[i].Foreign?
    ensures forall t: string :: Removed(rules, r)[Foreign(t)] == rules[Foreign(t)]
  {
    forall t: string ensures Removed(rules, r)[Foreign(t)] == rules[Foreign(t)] {
      RemovedCopies(rules, r, Foreign(t));
    }
  }

  lemma {:induction false} AddedKeepsForeign(rules: multiset<Rule>, r: seq<Rule>, k: nat)
    requires Distinct(r) && k <= 3 && forall i :: 0 <= i < 3 ==> !r[i].Foreign?
    ensures forall t: string :: Added(rules, r, k)[Foreign(t)] == rules[Foreign(t)]
  {
    forall t: string ensures Added(rules, r, k)[Foreign(t)] == rules[Foreign(t)] {
      AddedCopies(rules, r, k, Foreign(t));
      hide Added;
    }
  }

  // ----- What lets a start get how far -----

  predicate Admitted(h: Host, cfg: Config, uplink: string, env: Env) {
    env.preflight && cfg.wlan != "" && uplink != "" && AddrsOf(h, cfg.wlan) == [] && AddrsOf(h, uplink) != []
  }

  /** The dnsmasq file can be made for the LAN. */
  predicate HasPool(lan: string) {
    ParseCidr(lan).Some? && PoolFor(ParseCidr(lan).value, DHCP_START, DHCP_END).Pool?
  }

  predicate SetsUp(cfg: Config, env: Env) {
    env.mkdir && env.linkUp && env.addrAdd && env.writesHostapd && HasPool(cfg.lan) && env.writesDnsmasq
  }

  /** A start that gets as far as NAT. */
  predicate ReachesNat(h: Host, cfg: Config, env: Env) {
    env.readsForward && (h.forward == "1" || env.setsForward) && LanNetwork(cfg.lan).Some?
  }

  function AddedCount(adds: nat -> bool): (k: nat)
    ensures k <= 3 && (k < 3 ==> !adds(k)) && forall i :: 0 <= i < k ==> adds(i)
  { if !adds(0) then 0 else if !adds(1) then 1 else if !adds(2) then 2 else 3 }

  /** Nothing that an earlier manager left on the host is taken down when the start fails: NAT is not
      reached, or there is no table, or there is no copy of a rule not yet added. */
  predicate Spares(nft: bool, h: Host, cfg: Config, uplink: string, env: Env) {
    ReachesNat(h, cfg, env) ==>
      NoLeftover(nft, h, Rules(cfg.wlan, uplink, LanNetwork(cfg.lan).value), AddedCount(env.adds))
  }

  predicate NoLeftover(nft: bool, h: Host, r: seq<Rule>, added: nat)
    requires |r| == 3
  { if nft then h.table.None? else forall i :: added <= i < 3 ==> r[i] !in h.rules }

  /** A start succeeds exactly if nothing refuses it and every step works. */
  lemma {:induction false} StartedExact(nft: bool, running: bool, h: Host, cfg: Config, uplink: string, env: Env)
    ensures ResultOf(nft, running, h, cfg, uplink, env) == Started <==>
      && !running && env.preflight && cfg.wlan != "" && uplink != ""
      && AddrsOf(h, cfg.wlan) == [] && AddrsOf(h, uplink) != []
      && env.mkdir && env.linkUp && env.addrAdd && env.writesHostapd && env.writesDnsmasq
      && ParseCidr(cfg.lan).Some? && PoolFor(ParseCidr(cfg.lan).value, DHCP_START, DHCP_END).Pool?
      && env.readsForward && (h.forward == "1" || env.setsForward)
      && (if nft then env.loads else env.adds(0) && env.adds(1) && env.adds(2))
      && env.hostapdStarts && env.hostapdStays && (env.dnsmasqStarts || env.dnsmasqStartsPlain)
  {
    if ParseCidr(cfg.lan).Some? { ParsedCidrTrimmed(cfg.lan); }
    hide ParseCidr, PoolFor, Trim;
  }

  /** How a start ends. */
  function ResultOf(nft: bool, running: bool, h: Host, cfg: Config, uplink: string, env: Env): StartResult {
    if running then AlreadyRunning
    else if !Admitted(h, cfg, uplink, env) then Refused
    else if !SetsUp(cfg, env) then NotSetUp
    else if ComesUp(nft, h, cfg, env) then Started else Failed
  }

  predicate ComesUp(nft: bool, h: Host, cfg: Config, env: Env) {
    env.readsForward && (h.forward == "1" || env.setsForward) && NatComesUp(nft, cfg, env)
  }

  predicate NatComesUp(nft: bool, cfg: Config, env: Env) {
    && LanNetwork(cfg.lan).Some? && (if nft then env.loads else env.adds(0) && env.adds(1) && env.adds(2))
    && env.hostapdStarts && env.hostapdStays && (env.dnsmasqStarts || env.dnsmasqStartsPlain)
  }

  /** The file makes `dnsmasq` serve the LAN on the access point: its pool, with the address given as gateway
      and name server. */
  predicate ServesLan(conf: string, wlan: string, lan: string) {
    ParseCidr(lan).Some? &&
    var n := ParseCidr(lan).value;
    var pool := PoolFor(n, "192.168.50.10", "192.168.50.200");
    pool.Pool? && (Lacks(wlan, '\n') ==> ReadConf(conf) == Some(Served(wlan, pool.start, pool.end, n.ip, n.ip)))
  }

  lemma {:induction false} ServesLanExact(wlan: string, lan: string, pool: Pool)
    requires ParseCidr(lan).Some? && pool == PoolFor(ParseCidr(lan).value, DHCP_START, DHCP_END) && pool.Pool?
    ensures var gw := ParseCidr(lan).value.ip;
      ServesLan(Unlines(ConfLines(wlan, gw, pool.start, pool.end, "dnsmasq.leases")), wlan, lan)
  {
    hide ParseCidr, PoolFor, Unlines, ConfLines, ReadConf;
    if Lacks(wlan, '\n') {
      ConfRoundTrip(wlan, ParseCidr(lan).value.ip, pool.start, pool.end, "dnsmasq.leases");
    }
  }

  // ----- The manager -----

  /** The NAT of one access point, on a host that was `before`. */
  predicate NatInPlace(nft: bool, before: Host, h: Host, wlan: string, uplink: string, lan: string) {
    LanNetwork(lan).Some? &&
    var r := Rules(wlan, uplink, LanNetwork(lan).value);
    if nft then h.table == Some(multiset(r)) && h.rules == before.rules
    else h.rules == Added(before.rules, r, 3) && h.table == before.table
  }

  // ----- What the rules do -----

  /** A forwarded packet; `reply` is the connection state RELATED or ESTABLISHED. */
  datatype Packet = Packet(src: Addr, dst: Addr, inIface: string, outIface: string, reply: bool)

  /** How the kernel applies one of the hotspot's rules: source or destination in the network, interfaces, and
      for the way back the state. */
  predicate Masquerades(r: Rule, p: Packet) {
    match r
    case Masquerade(base, ones, out) => ones <= 32 && Base(p.src, ones) == base && p.outIface == out
    case _ => false
  }

  predicate Accepts(r: Rule, p: Packet) {
    match r
    case ForwardOut(base, ones, in_, out) =>
      ones <= 32 && Base(p.src, ones) == base && p.inIface == in_ && p.outIface == out
    case ForwardIn(base, ones, in_, out) =>
      ones <= 32 && Base(p.dst, ones) == base && p.inIface == out && p.outIface == in_ && p.reply
    case _ => false
  }

  /** The rules of the host and of its table. */
  function InForce(h: Host): multiset<Rule> { h.rules + if h.table.Some? then h.table.value else multiset{} }

  ghost predicate Masqueraded(h: Host, p: Packet) { exists r :: r in InForce(h) && Masquerades(r, p) }

  ghost predicate Accepted(h: Host, p: Packet) { exists r :: r in InForce(h) && Accepts(r, p) }

  /** One packet on a host that was `kept`: it is masqueraded if it leaves the network `n` by the uplink, and
      accepted on its way from the access point or, as a reply, back to it; otherwise as it was. */
  ghost predicate IsShared(kept: Host, h: Host, n: Cidr, wlan: string, uplink: string, p: Packet)
    requires n.ones <= 32
  {
    var fromLan := Base(p.src, n.ones) == Base(n.ip, n.ones);
    var toLan := Base(p.dst, n.ones) == Base(n.ip, n.ones);
    && (Masqueraded(h, p) <==> Masqueraded(kept, p) || (fromLan && p.outIface == uplink))
    && (Accepted(h, p) <==>
          || Accepted(kept, p)
          || (fromLan && p.inIface == wlan && p.outIface == uplink)
          || (toLan && p.inIface == uplink && p.outIface == wlan && p.reply))
  }

  /** The LAN shares the uplink, and nothing else changes; an old table is gone. */
  ghost predicate SharesUplink(nft: bool, before: Host, h: Host, wlan: string, uplink: string, lan: string) {
    && ParseCidr(Trim(lan)).Some?
    && forall p: Packet ::
         IsShared(WithoutOld(nft, before), h, ParseCidr(Trim(lan)).value, wlan, uplink, p)
  }

  function WithoutOld(nft: bool, h: Host): Host { if nft then h.(table := None) else h }

  lemma {:induction false} InForceOf(nft: bool, before: Host, h: Host, wlan: string, uplink: string, lan: string)
    requires NatInPlace(nft, before, h, wlan, uplink, lan)
    ensures var kept := WithoutOld(nft, before);
      var r := Rules(wlan, uplink, LanNetwork(lan).value);
      forall x: Rule :: x in InForce(h) <==> x in InForce(kept) || x == r[0] || x == r[1] || x == r[2]
  {
    var r := Rules(wlan, uplink, LanNetwork(lan).value);
    if nft {
      assert forall x: Rule :: x in multiset(r) <==> x == r[0] || x == r[1] || x == r[2];
    } else {
      forall x: Rule ensures x in h.rules <==> x in before.rules || x == r[0] || x == r[1] || x == r[2] {
        AddedCopies(before.rules, r, 3, x);
        assert r[..3] == r;
      }
    }
    hide Rules, LanNetwork, Added;
  }

  /** NAT in place does that. */
  lemma {:induction false} NatShares(nft: bool, before: Host, h: Host, wlan: string, uplink: string, lan: string)
    requires NatInPlace(nft, before, h, wlan, uplink, lan)
    ensures SharesUplink(nft, before, h, wlan, uplink, lan)
  {
    InForceOf(nft, before, h, wlan, uplink, lan);
    var n, kept := LanNetwork(lan).value, WithoutOld(nft, before);
    hide NatInPlace, InForce, IsShared, Rules;
    forall p: Packet ensures IsShared(kept, h, n, wlan, uplink, p) {
      RulesShare(kept, h, n, wlan, uplink, p);
    }
  }

  lemma {:induction false} RulesShare(kept: Host, h: Host, n: Cidr, wlan: string, uplink: string, p: Packet)
    requires n.ones <= 32
    requires var r := Rules(wlan, uplink, n);
      forall x: Rule :: x in InForce(h) <==> x in InForce(kept) || x == r[0] || x == r[1] || x == r[2]
    ensures IsShared(kept, h, n, wlan, uplink, p)
  {
    var r := Rules(wlan, uplink, n);
    RulesDo(wlan, uplink, n, p);
    hide Rules, Masquerades, Accepts, InForce, Base;
    assert r[0] in InForce(h) && r[1] in InForce(h) && r[2] in InForce(h);
  }

  /** What each of the three rules does. */
  lemma {:induction false} RulesDo(wlan: string, uplink: string, n: Cidr, p: Packet)
    requires n.ones <= 32
    ensures var r := Rules(wlan, uplink, n);
      var fromLan := Base(p.src, n.ones) == Base(n.ip, n.ones);
      var toLan := Base(p.dst, n.ones) == Base(n.ip, n.ones);
      && (Masquerades(r[0], p) <==> fromLan && p.outIface == uplink) && !Accepts(r[0], p)
      && (Accepts(r[1], p) <==> fromLan && p.inIface == wlan && p.outIface == uplink) && !Masquerades(r[1], p)
      && (Accepts(r[2], p) <==> toLan && p.inIface == uplink && p.outIface == wlan && p.reply) && !Masquerades(r[2], p)
  {
    hide Base;
  }

  /** What a stop or a roll-back must give back. */
  predicate GivenBack(before: Host, h: Host) {
    h.forward == before.forward && h.rules == before.rules && h.table == before.table
  }

  /** After a session that began on `before` has ended: everything is given back, but an old nft table is
      gone with the session's own. */
  predicate Returned(nft: bool, before: Host, h: Host) {
    GivenBack(before.(table := if nft then None else before.table), h)
  }

  /** The host after a failed `applyNATLocked` that had added the first `added` rules. */
  function AfterFailedNat(nft: bool, before: Host, r: seq<Rule>, added: nat): Host
    requires |r| == 3 && added <= 3
  { if nft then before.(table := None) else before.(rules := Removed(Added(before.rules, r, added), r)) }

  /** It is as before exactly if nothing was left over on it that is taken along: the old table, or a copy
      of a rule not yet added. */
  lemma {:induction false} FailedNatExact(nft: bool, before: Host, r: seq<Rule>, added: nat)
    requires Distinct(r) && added <= 3
    ensures AfterFailedNat(nft, before, r, added) == before <==> NoLeftover(nft, before, r, added)
    ensures Shrunk(before, AfterFailedNat(nft, before, r, added))
  {
    RollBackExact(before.rules, r, added);
    RollBackShrinks(before.rules, r, added);
    hide Removed, Added, Distinct;
  }

  /** The host after `removeNATLocked` whose commands work. */
  function NatRemoved(nft: bool, h: Host, wlan: string, uplink: string, lan: string): Host
    requires LanNetwork(lan).Some?
  { if nft then h.(table := None) else h.(rules := Removed(h.rules, Rules(wlan, uplink, LanNetwork(lan).value))) }

  /** Removing the NAT that is in place gives the rules back; the table exactly if the session had none
      to replace. */
  lemma {:induction false} RemovalUndoesNat(nft: bool, before: Host, natted: Host, wlan: string, uplink: string,
        lan: string)
    requires NatInPlace(nft, before, natted, wlan, uplink, lan)
    ensures NatRemoved(nft, natted, wlan, uplink, lan) ==
      natted.(rules := before.rules, table := if nft then None else before.table)
  {
    RollBackExact(before.rules, Rules(wlan, uplink, LanNetwork(lan).value), 3);
    hide Removed, Added, Rules, LanNetwork;
  }

  class HotspotManager {
    const nft: bool             // nft is installed; otherwise iptables
    var hostapd: bool           // a supervised command is held
    var dnsmasq: bool
    var wlan: string
    var uplink: string
    var lan: string
    var running: bool
    var forwardingChanged: bool
    var forwardingPrev: string
    var host: Host
    ghost var before: Host      // the host when the running session was started
    ghost var conf: string      // the dnsmasq file

    /** Without a session nothing is held; a session holds exactly what it has to give back. */
    ghost predicate Valid()
      reads this
    {
      && host.forward != ""
      && (if running then Holds() else
            !hostapd && !dnsmasq && !forwardingChanged && wlan == "" && uplink == "" && lan == "")
    }

    /** Forwarding is on, with what is needed to turn it back. */
    predicate Forwarding(was: string)
      reads this
    {
      && host.forward == "1" && was != ""
      && (if forwardingChanged then forwardingPrev == was && was != "1" else was == "1")
    }

    ghost predicate Holds()
      reads this
    {
      && hostapd && dnsmasq && wlan != "" && uplink != ""
      && Forwarding(before.forward)
      && NatInPlace(nft, before, host, wlan, uplink, lan)
      && AddrsOf(host, wlan) == [lan]
    }

    constructor (nft: bool, host: Host)
      requires host.forward != ""
      ensures Valid() && !running && this.host == host && this.nft == nft
    {
      this.nft, this.host, this.before, this.conf := nft, host, host, "";
      hostapd, dnsmasq, running, forwardingChanged, forwardingPrev := false, false, false, false, "";
      wlan, uplink, lan := "", "", "";
    }

    /** `enableForwardingLocked`. */
    method EnableForwarding(readable: bool, settable: bool) returns (ok: bool)
      requires host.forward != "" && !forwardingChanged
      modifies this`host, this`forwardingChanged, this`forwardingPrev
      ensures ok <==> readable && (old(host.forward) == "1" || settable)
      ensures host == if ok then old(host).(forward := "1") else old(host)
      ensures if ok then Forwarding(old(host.forward)) else !forwardingChanged
    {
      if !readable {
        return false;
      }
      forwardingPrev, forwardingChanged := host.forward, false;
      if host.forward == "1" {
        return true;
      }
      if !settable {
        return false;
      }
      host := host.(forward := "1");
      forwardingChanged := true;
      ok := true;
    }

    /** `restoreForwardingLocked`: the previous value is written back, at most once. */
    method RestoreForwarding(works: bool) returns (ok: bool)
      requires forwardingChanged ==> forwardingPrev != ""
      modifies this`host, this`forwardingChanged, this`forwardingPrev
      ensures !forwardingChanged && ok == (works || !old(forwardingChanged))
      ensures host == if old(forwardingChanged) && works then old(host).(forward := old(forwardingPrev)) else old(host)
    {
      if !forwardingChanged {
        forwardingPrev := "";
        return true;
      }
      var prev := if forwardingPrev == "" then "0" else forwardingPrev;
      forwardingChanged, forwardingPrev := false, "";
      if works {
        host := host.(forward := prev);
      }
      ok := works;
    }

    /** `removeNATLocked`. */
    method RemoveNat(wlan: string, uplink: string, lan: string, works: bool) returns (ok: bool)
      modifies this`host
      ensures works && LanNetwork(lan).Some? ==> host == NatRemoved(nft, old(host), wlan, uplink, lan)
      ensures works && LanNetwork(lan).None? ==> host == if nft then old(host).(table := None) else old(host)
      ensures !works ==> host == old(host)
      ensures ok == if nft then works || old(host.table).None? else LanNetwork(lan).Some?
      ensures ForeignKept(old(host), host) && host == old(host).(rules := host.rules, table := host.table)
    {
      hide Removed, Rules, LanNetwork;
      if nft {
        ok := works || host.table.None?;
        host := if works then host.(table := None) else host;
        return;
      }
      var network := LanNetwork(lan);
      if network.None? {
        return false;
      }
      if works {
        RemovedKeepsForeign(host.rules, Rules(wlan, uplink, network.value));
        host := host.(rules := Removed(host.rules, Rules(wlan, uplink, network.value)));
      }
      ok := true;
    }

    /** The nft branch of `applyNATLocked`: a fresh table, loaded as a whole. */
    method LoadTable(r: seq<Rule>, unloads: bool, loads: bool)
      modifies this`host
      ensures unloads ==> host == old(host).(table := if loads then Some(multiset(r)) else None)
      ensures host == old(host).(table := host.table)
    {
      if unloads {
        host := host.(table := None);
      }
      if loads {
        assert multiset{} + multiset(r) == multiset(r);
        host := host.(table := Some((if host.table.None? then multiset{} else host.table.value) + multiset(r)));
      }
    }

    /** The iptables branch: three rules one by one, up to the first that fails. */
    method AddRules(r: seq<Rule>, adds: nat -> bool) returns (added: nat)
      requires |r| == 3
      modifies this`host
      ensures added <= 3 && host == old(host).(rules := Added(old(host.rules), r, added))
      ensures (added < 3 ==> !adds(added)) && forall i :: 0 <= i < added ==> adds(i)
    {
      added := 0;
      while added < 3 && adds(added)
        invariant added <= 3 && host == old(host).(rules := Added(old(host.rules), r, added))
        invariant forall i :: 0 <= i < added ==> adds(i)
      {
        host := host.(rules := host.rules + multiset{r[added]});
        added := added + 1;
      }
    }

    /** `applyNATLocked`: iptables rules already added are taken back when one fails. */
    method ApplyNat(wlan: string, uplink: string, lan: string, env: Env) returns (ok: bool, ghost added: nat)
      modifies this`host
      ensures added <= 3 && host == old(host).(rules := host.rules, table := host.table)
      ensures ForeignKept(old(host), host)
      ensures ok && env.down.unloads ==> NatInPlace(nft, old(host), host, wlan, uplink, lan)
      ensures ok && env.down.unloads ==> SharesUplink(nft, old(host), host, wlan, uplink, lan)
      ensures !ok && nft && env.down.unloads && LanNetwork(lan).Some? ==> host == old(host).(table := None)
      ensures LanNetwork(lan).None? ==> !ok && host == old(host)
      ensures !ok && !nft && env.down.unloads && LanNetwork(lan).Some? ==>
        var r := Rules(wlan, uplink, LanNetwork(lan).value);
        added == AddedCount(env.adds) && host == old(host).(rules := Removed(Added(old(host.rules), r, added), r))
      ensures LanNetwork(lan).Some? ==> (ok <==> if nft then env.loads else env.adds(0) && env.adds(1) && env.adds(2))
    {
      hide Removed, Added, Rules, LanNetwork, SharesUplink;
      added := 0;
      var network := LanNetwork(lan);
      if network.None? {
        return false, 0;
      }
      var r := Rules(wlan, uplink, network.value);
      if nft {
        LoadTable(r, env.down.unloads, env.loads);
        if env.loads && env.down.unloads { NatShares(nft, old(host), host, wlan, uplink, lan); }
        return env.loads, 0;
      }
      var n := AddRules(r, env.adds);
      added := n;
      AddedKeepsForeign(old(host.rules), r, n);
      ok := n == 3;
      if ok { NatShares(nft, old(host), host, wlan, uplink, lan); }
      if !ok {
        var removed := RemoveNat(wlan, uplink, lan, env.down.unloads);
      }
    }

    /** `cleanupPartialLocked`, and the end of `stopLocked`. */
    method CleanupPartial(wlan: string, down: Teardown) returns (ok: bool)
      requires forwardingChanged ==> forwardingPrev != ""
      modifies this`host, this`forwardingChanged, this`forwardingPrev
      ensures !forwardingChanged
      ensures host.rules == old(host.rules) && host.table == old(host.table) && host.daemons == old(host.daemons)
      ensures host.forward ==
        if old(forwardingChanged) && down.unforwards then old(forwardingPrev) else old(host.forward)
      ensures host.addrs == if wlan != "" && down.flushes then old(host.addrs)[wlan := []] else old(host.addrs)
    {
      if wlan != "" && down.flushes {
        host := host.(addrs := host.addrs[wlan := []]);
      }
      ok := RestoreForwarding(down.unforwards);
    }

    // ----- Starting -----

    /** The part of `Start` before forwarding: checks, the LAN address and the two files. */
    method Prepare(cfg: Config, uplink: string, env: Env) returns (r: Option<StartResult>)
      requires !running
      modifies this`host, this`conf
      ensures r == if !Admitted(old(host), cfg, uplink, env) then Some(Refused)
        else if !SetsUp(cfg, env) then Some(NotSetUp) else None
      ensures r == Some(Refused) ==> host == old(host)
      ensures r != Some(Refused) ==> cfg.wlan != "" && uplink != ""
      ensures r != Some(Refused) ==>
        AddrsOf(host, cfg.wlan) == if env.mkdir && env.linkUp && env.addrAdd then [cfg.lan] else []
      ensures host == old(host).(addrs := host.addrs)
      ensures r == None ==> ServesLan(conf, cfg.wlan, cfg.lan)
    {
      if !env.preflight || cfg.wlan == "" || uplink == ""
         || AddrsOf(host, cfg.wlan) != [] || AddrsOf(host, uplink) == []
      {
        return Some(Refused);
      }
      if !env.mkdir || !env.linkUp {
        return Some(NotSetUp);
      }
      if env.down.flushes {
        host := host.(addrs := host.addrs[cfg.wlan := []]);
      }
      if !env.addrAdd {
        return Some(NotSetUp);
      }
      host := host.(addrs := host.addrs[cfg.wlan := [cfg.lan]]);
      var written, pool := GenerateDnsmasqConf(cfg.wlan, cfg.lan, DHCP_START, DHCP_END, "dnsmasq.leases");
      if !env.writesHostapd || !written.Conf? || !env.writesDnsmasq {
        return Some(NotSetUp);
      }
      conf := written.text;
      ServesLanExact(cfg.wlan, cfg.lan, pool);
      r := None;
    }

    /** The two daemons; `dnsmasq` is tried a second way. */
    method Launch(env: Env) returns (ok: bool)
      modifies this`host
      ensures ok <==> env.hostapdStarts && env.hostapdStays && (env.dnsmasqStarts || env.dnsmasqStartsPlain)
      ensures ok ==> host == old(host).(daemons := old(host.daemons) + {Hostapd, Dnsmasq})
      ensures !ok ==> host == old(host).(daemons := host.daemons)
      ensures !ok && env.down.kills ==> host.daemons <= old(host.daemons)
    {
      if !env.hostapdStarts || !env.hostapdStays {
        return false;
      }
      host := host.(daemons := host.daemons + {Hostapd});
      if !env.dnsmasqStarts && !env.dnsmasqStartsPlain {
        if env.down.kills {
          host := host.(daemons := host.daemons - {Hostapd});
        }
        return false;
      }
      host := host.(daemons := host.daemons + {Dnsmasq});
      assert old(host.daemons) + {Hostapd} + {Dnsmasq} == old(host.daemons) + {Hostapd, Dnsmasq};
      ok := true;
    }

    /** From forwarding on: whatever fails, what was done is undone. */
    method BringUp(cfg: Config, uplink: string, env: Env) returns (ok: bool)
      requires host.forward != "" && !forwardingChanged && cfg.wlan != "" && uplink != ""
      requires AddrsOf(host, cfg.wlan) == [cfg.lan]
      modifies this`host, this`forwardingChanged, this`forwardingPrev
      ensures host.forward != "" && (ok <==> ComesUp(nft, old(host), cfg, env))
      ensures ok ==>
        && host.daemons == old(host.daemons) + {Hostapd, Dnsmasq} && AddrsOf(host, cfg.wlan) == [cfg.lan]
        && Forwarding(old(host.forward))
        && (env.down.unloads ==> NatInPlace(nft, old(host), host, cfg.wlan, uplink, cfg.lan))
      ensures ForeignKept(old(host), host)
      ensures !ok ==> !forwardingChanged && (env.down.unforwards ==> host.forward == old(host.forward))
      ensures !ok && env.down == WORKS ==>
        && AddrsOf(host, cfg.wlan) == [] && host.daemons <= old(host.daemons)
        && (GivenBack(old(host), host) <==> Spares(nft, old(host), cfg, uplink, env)) && Shrunk(old(host), host)
    {
      hide Rules, LanNetwork, Added, Removed;
      assert ForeignKept(host, host);
      ok := EnableForwarding(env.readsForward, env.setsForward);
      if !ok {
        var cleaned := CleanupPartial(cfg.wlan, env.down);
        return;
      }
      ghost var forwarded := host;
      ok := RunNat(cfg, uplink, env);
      if !ok {
        var cleaned := CleanupPartial(cfg.wlan, env.down);
      }
    }

    /** NAT and the two daemons; a failure of the daemons takes the NAT down. */
    method RunNat(cfg: Config, uplink: string, env: Env) returns (ok: bool)
      modifies this`host
      ensures ok <==> NatComesUp(nft, cfg, env)
      ensures host == old(host).(rules := host.rules, table := host.table, daemons := host.daemons)
      ensures ForeignKept(old(host), host)
      ensures ok ==>
        && host.daemons == old(host.daemons) + {Hostapd, Dnsmasq}
        && (env.down.unloads ==> NatInPlace(nft, old(host), host, cfg.wlan, uplink, cfg.lan))
      ensures !ok && env.down == WORKS ==>
        && host.daemons <= old(host.daemons)
        && (LanNetwork(cfg.lan).None? ==> host == old(host))
        && (LanNetwork(cfg.lan).Some? ==> NatTakenBack(nft, old(host), host, cfg, uplink, env))
    {
      hide Rules, LanNetwork, Added, Removed;
      ghost var added;
      ok, added := ApplyNat(cfg.wlan, uplink, cfg.lan, env);
      if !ok {
        if env.down == WORKS && LanNetwork(cfg.lan).Some? {
          FailedNatExact(nft, old(host), Rules(cfg.wlan, uplink, LanNetwork(cfg.lan).value), added);
        }
        return;
      }
      ghost var natted := host;
      ok := Launch(env);
      if !ok {
        if env.down == WORKS {
          SameNatHost(nft, old(host), natted, host, cfg.wlan, uplink, cfg.lan);
          RemovalUndoesNat(nft, old(host), host, cfg.wlan, uplink, cfg.lan);
        }
        var removed := RemoveNat(cfg.wlan, uplink, cfg.lan, env.down.unloads);
      }
    }

    /** `Start`. */
    method Start(cfg: Config, uplink: string, env: Env) returns (r: StartResult)
      requires Valid()
      modifies this
      ensures host.forward != "" && ForeignKept(old(host), host)
      ensures !r.Started? && env.down.unforwards ==> host.forward == old(host.forward)
      ensures r == ResultOf(nft, old(running), old(host), cfg, uplink, env)
      ensures r.AlreadyRunning? || r.Refused? ==> host == old(host)
      ensures !r.Started? ==> running == old(running) && before == old(before)
      // failing before forwarding touches addresses only, and leaves the one it added
      ensures r.NotSetUp? ==> host == old(host).(addrs := host.addrs)
      ensures r.NotSetUp? ==>
        AddrsOf(host, cfg.wlan) == if env.mkdir && env.linkUp && env.addrAdd then [cfg.lan] else []
      // failing from forwarding on gives everything back, exactly if it spares what was left over
      ensures r.Failed? && env.down == WORKS ==>
        && AddrsOf(host, cfg.wlan) == [] && host.daemons <= old(host.daemons)
        && (GivenBack(old(host), host) <==> Spares(nft, old(host), cfg, uplink, env)) && Shrunk(old(host), host)
      // success has everything in place
      ensures r.Started? ==>
        && running && this.wlan == cfg.wlan && this.uplink == uplink && this.lan == cfg.lan
        && host.daemons == old(host.daemons) + {Hostapd, Dnsmasq} && host.forward == "1"
        && AddrsOf(host, cfg.wlan) == [cfg.lan]
        && before == old(host)
        && (env.down.unloads ==> NatInPlace(nft, old(host), host, cfg.wlan, uplink, cfg.lan))
        && (env.down.unloads ==> SharesUplink(nft, old(host), host, cfg.wlan, uplink, cfg.lan))
        && ServesLan(conf, cfg.wlan, cfg.lan)
      ensures env.down == WORKS ==> Valid()
    {
      if SetsUp(cfg, env) { assert env.mkdir && env.linkUp && env.addrAdd; }
      hide NatInPlace, SharesUplink, ServesLan, LanNetwork, Admitted, SetsUp, ComesUp, Spares, GivenBack, Shrunk,
        ForeignKept;
      SameForeign(host, host);
      if running {
        return AlreadyRunning;
      }
      var early := Prepare(cfg, uplink, env);
      SameForeign(old(host), host);
      if early.Some? {
        return early.value;
      }
      var ok := Open(cfg, uplink, env, old(host));
      if ok && env.down.unloads { NatShares(nft, old(host), host, cfg.wlan, uplink, cfg.lan); }
      r := if ok then Started else Failed;
    }

    /** The rest of `Start` once the address and the files are there, on a host that was `was`. */
    method Open(cfg: Config, uplink: string, env: Env, ghost was: Host) returns (ok: bool)
      requires Valid() && !running && cfg.wlan != "" && uplink != "" && AddrsOf(host, cfg.wlan) == [cfg.lan]
      requires host == was.(addrs := host.addrs)
      modifies this
      ensures host.forward != "" && ForeignKept(was, host) && ok == ComesUp(nft, was, cfg, env) && conf == old(conf)
      ensures !ok && env.down.unforwards ==> host.forward == was.forward
      ensures !ok ==> !running && before == old(before)
      ensures !ok && env.down == WORKS ==>
        && AddrsOf(host, cfg.wlan) == [] && host.daemons <= was.daemons
        && (GivenBack(was, host) <==> Spares(nft, was, cfg, uplink, env)) && Shrunk(was, host)
      ensures ok ==>
        && running && this.wlan == cfg.wlan && this.uplink == uplink && this.lan == cfg.lan
        && host.daemons == was.daemons + {Hostapd, Dnsmasq} && host.forward == "1"
        && AddrsOf(host, cfg.wlan) == [cfg.lan]
        && before == was
        && (env.down.unloads ==> NatInPlace(nft, was, host, cfg.wlan, uplink, cfg.lan))
      ensures env.down == WORKS ==> Valid()
    {
      hide NatInPlace, LanNetwork, ComesUp, Spares, GivenBack, Shrunk, ForeignKept;
      ghost var prepared := host;
      ComesUpFrame(nft, was, host, cfg, env);
      SameNat(nft, was, host, cfg.wlan, uplink, cfg.lan);
      ok := BringUp(cfg, uplink, env);
      ForeignChain(was, prepared, host);
      SparesFrame(nft, was, prepared, host, cfg, uplink, env);
      if !ok {
        return;
      }
      hostapd, dnsmasq, running := true, true, true;
      this.wlan, this.uplink, this.lan := cfg.wlan, uplink, cfg.lan;
      before := was;
    }

    // ----- Stopping -----

    /** `stopLocked`: gives back what the session holds. */
    method StopLocked(down: Teardown) returns (ok: bool)
      requires Valid()
      modifies this
      ensures !running && !hostapd && !dnsmasq && !forwardingChanged && wlan == "" && uplink == "" && lan == ""
      ensures !old(running) ==> ok && host == old(host)
      ensures ForeignKept(old(host), host)
      ensures old(running) && down == WORKS ==>
        && Returned(nft, old(before), host) && AddrsOf(host, old(wlan)) == []
        && host.daemons == old(host.daemons) - {Hostapd, Dnsmasq}
      ensures down == WORKS ==> Valid()
    {
      hide NatInPlace, Returned, ForeignKept;
      SameForeign(host, host);
      if !running && !hostapd && !dnsmasq {
        return true;
      }
      if down.kills {
        host := host.(daemons := host.daemons - {Hostapd, Dnsmasq});
      }
      dnsmasq, hostapd := false, false;
      ghost var killed := host;
      SameNatHost(nft, before, old(host), host, wlan, uplink, lan);
      ok := Release(down);
      ForeignChain(old(host), killed, host);
      running, wlan, uplink, lan := false, "", "", "";
    }

    /** What `stopLocked` gives back once the daemons are down: NAT, address, forwarding. */
    method Release(down: Teardown) returns (ok: bool)
      requires running && wlan != "" && uplink != "" && host.forward != ""
      requires Forwarding(before.forward) && NatInPlace(nft, before, host, wlan, uplink, lan)
      modifies this`host, this`forwardingChanged, this`forwardingPrev
      ensures !forwardingChanged && host.forward != "" && host.daemons == old(host.daemons)
      ensures ForeignKept(old(host), host)
      ensures down == WORKS ==> Returned(nft, before, host) && AddrsOf(host, wlan) == []
    {
      hide NatInPlace, ForeignKept;
      ok := TakeNatDown(down);
      ghost var unnatted := host;
      var restored := CleanupPartial(wlan, down);
      ForeignFrame(old(host), unnatted, host);
      ok := ok && restored;
    }

    method TakeNatDown(down: Teardown) returns (ok: bool)
      requires NatInPlace(nft, before, host, wlan, uplink, lan)
      modifies this`host
      ensures host == old(host).(rules := host.rules, table := host.table) && ForeignKept(old(host), host)
      ensures down == WORKS ==> host.rules == before.rules && host.table == if nft then None else before.table
    {
      assert LanNetwork(lan).Some?;
      RemovalUndoesNat(nft, before, host, wlan, uplink, lan);
      hide *;
      ok := RemoveNat(wlan, uplink, lan, down.unloads);
    }

    /** `Stop`. */
    method Stop(down: Teardown) returns (ok: bool)
      requires Valid()
      modifies this
      ensures !running && (!old(running) ==> host == old(host)) && ForeignKept(old(host), host)
      ensures old(running) && down == WORKS ==>
        && Returned(nft, old(before), host) && AddrsOf(host, old(wlan)) == []
        && host.daemons == old(host.daemons) - {Hostapd, Dnsmasq}
      ensures down == WORKS ==> Valid()
    {
      ok := StopLocked(down);
    }

    /** `IsRunning`: a session with a dead daemon is cleaned up and no longer running. */
    method IsRunning(down: Teardown) returns (alive: bool)
      requires Valid()
      modifies this
      ensures alive == running && (alive <==> old(running) && {Hostapd, Dnsmasq} <= old(host.daemons))
      ensures alive || !old(running) ==> host == old(host)
      ensures ForeignKept(old(host), host)
      ensures old(running) && !alive && down == WORKS ==>
        && Returned(nft, old(before), host) && AddrsOf(host, old(wlan)) == []
        && host.daemons == old(host.daemons) - {Hostapd, Dnsmasq}
      ensures alive ==> before == old(before)
      ensures down == WORKS ==> Valid()
    {
      hide NatInPlace;
      if !running {
        return false;
      }
      if Hostapd !in host.daemons || Dnsmasq !in host.daemons {
        var ok := StopLocked(down);
        return false;
      }
      alive := true;
    }

    /** A daemon ends on its own. */
    method Die(d: Daemon)
      requires Valid()
      modifies this`host
      ensures Valid() && host == old(host).(daemons := old(host.daemons) - {d})
    {
      SameNatHost(nft, before, host, host.(daemons := host.daemons - {d}), wlan, uplink, lan);
      hide NatInPlace;
      host := host.(daemons := host.daemons - {d});
    }
  }

  lemma {:induction false} SameNat(nft: bool, a: Host, b: Host, wlan: string, uplink: string, lan: string)
    requires a.rules == b.rules && a.table == b.table
    ensures forall h: Host :: NatInPlace(nft, a, h, wlan, uplink, lan) <==> NatInPlace(nft, b, h, wlan, uplink, lan)
  {
    hide Rules, LanNetwork, Added;
  }

  lemma {:induction false} SameNatHost(nft: bool, before: Host, a: Host, b: Host, wlan: string, uplink: string,
        lan: string)
    requires a.rules == b.rules && a.table == b.table
    ensures NatInPlace(nft, before, a, wlan, uplink, lan) <==> NatInPlace(nft, before, b, wlan, uplink, lan)
  {
    hide Rules, LanNetwork, Added;
  }

  // ----- Whole runs -----

  datatype Event = Starts(cfg: Config, uplink: string, env: Env) | Stops | Checks | Dies(daemon: Daemon)

  /** What the host is without the session, if there is one. */
  ghost function Idle(h: HotspotManager): Host
    reads h
  { if h.running then h.before.(table := if h.nft then None else h.before.table) else h.host }

  /** What every run keeps: forwarding without the session, the rules of others at any time, and no daemon
      but those of a session. */
  ghost predicate Kept(initial: Host, h: HotspotManager)
    reads h
  {
    && h.Valid() && ForeignKept(initial, h.host) && h.host.daemons <= (if h.running then {Hostapd, Dnsmasq} else {})
    && Idle(h).forward == initial.forward && Shrunk(initial, Idle(h))
  }

  /** An event takes nothing down that was left over on the host before the run: a start that failed
      spares it, and one that succeeded replaced no table. */
  predicate Harmless(nft: bool, initial: Host, e: Event, r: Option<StartResult>) {
    e.Starts? ==>
      && (r == Some(Failed) ==> Spares(nft, initial, e.cfg, e.uplink, e.env))
      && (r == Some(Started) && nft ==> initial.table.None?)
  }

  lemma {:induction false} CleanIsHarmless(nft: bool, initial: Host, e: Event, r: Option<StartResult>)
    requires initial.table.None? && forall rule :: rule in initial.rules ==> rule.Foreign?
    ensures Harmless(nft, initial, e, r)
  {
    hide LanNetwork;
  }

  lemma {:induction false} ForeignThrough(a: Host, b: Host, c: Host)
    requires ForeignKept(a, b) && ForeignKept(b, c)
    ensures ForeignKept(a, c)
  {
  }

  lemma {:induction false} ShrunkThrough(a: Host, b: Host, c: Host)
    requires a.forward == b.forward == c.forward && Shrunk(a, b) && Shrunk(b, c)
    ensures Shrunk(a, c) && (GivenBack(a, c) <==> GivenBack(a, b) && GivenBack(b, c))
  {
  }

  lemma {:induction false} SameBack(a: Host, b: Host)
    ensures b == a.(addrs := b.addrs, daemons := b.daemons) ==> GivenBack(a, b)
  {
  }

  /** One event seen from the host without the session: `idle` before it, `next` after it. */
  lemma {:induction false} Evolves(nft: bool, initial: Host, idle: Host, next: Host, e: Event, r: Option<StartResult>)
    requires idle.forward == initial.forward && Shrunk(initial, idle) && (r.Some? <==> e.Starts?)
    requires r != Some(Failed) && r != Some(Started) ==> GivenBack(idle, next)
    requires r == Some(Failed) ==>
      && next.forward == idle.forward && Shrunk(idle, next)
      && (GivenBack(idle, next) <==> Spares(nft, idle, e.cfg, e.uplink, e.env))
    requires r == Some(Started) ==> GivenBack(idle.(table := if nft then None else idle.table), next)
    ensures next.forward == initial.forward && Shrunk(initial, next)
    ensures GivenBack(initial, next) <==> GivenBack(initial, idle) && Harmless(nft, initial, e, r)
  {
    hide Rules, LanNetwork;
    ShrunkThrough(initial, idle, next);
  }

  method Serve(initial: Host, h: HotspotManager, e: Event) returns (r: Option<StartResult>)
    requires Kept(initial, h) && (e.Starts? ==> e.env.down == WORKS)
    modifies h
    ensures Kept(initial, h)
    ensures r == if e.Starts? then Some(ResultOf(h.nft, old(h.running), old(h.host), e.cfg, e.uplink, e.env)) else None
    ensures GivenBack(initial, Idle(h)) <==> old(GivenBack(initial, Idle(h))) && Harmless(h.nft, initial, e, r)
  {
    hide HotspotManager.Valid, ForeignKept, Shrunk, GivenBack, Harmless, Spares, NatInPlace, Admitted, SetsUp, ComesUp,
      Rules;
    ghost var idle, was := Idle(h), h.host;
    SameForeign(h.host, h.host);
    SameBack(h.host, h.host);
    ghost var replaced := idle.(table := if h.nft then None else idle.table);
    SameBack(replaced, replaced);
    r := None;
    match e {
      case Starts(cfg, uplink, env) =>
        var result := h.Start(cfg, uplink, env);
        r := Some(result);
      case Stops =>
        var ok := h.Stop(WORKS);
      case Checks =>
        var alive := h.IsRunning(WORKS);
      case Dies(d) =>
        h.Die(d);
        SameForeign(was, h.host);
    }
    ForeignThrough(initial, was, h.host);
    SameBack(idle, Idle(h));
    Evolves(h.nft, initial, idle, Idle(h), e, r);
  }

  method Fresh(nft: bool, initial: Host) returns (h: HotspotManager)
    requires initial.forward != "" && initial.daemons == {}
    ensures fresh(h) && h.nft == nft && Kept(initial, h) && GivenBack(initial, Idle(h))
  {
    h := new HotspotManager(nft, initial);
    hide HotspotManager.Valid;
    SameForeign(initial, initial);
  }

  /** Over any sequence of starts, however they end, stops, checks and daemon deaths, whenever no
      session is running the host has the forwarding it started with and no daemon, the rules of others
      are untouched, and it has exactly its old rules and table exactly if every event was harmless. */
  method Drive(nft: bool, initial: Host, events: seq<Event>)
    returns (h: HotspotManager, results: seq<Option<StartResult>>)
    requires initial.forward != "" && initial.daemons == {}
    requires forall i :: 0 <= i < |events| && events[i].Starts? ==> events[i].env.down == WORKS
    ensures fresh(h) && h.nft == nft && Kept(initial, h) && |results| == |events|
    ensures GivenBack(initial, Idle(h)) <==>
      forall i :: 0 <= i < |events| ==> Harmless(nft, initial, events[i], results[i])
  {
    hide *;
    h := Fresh(nft, initial);
    results := [];
    for i := 0 to |events|
      invariant fresh(h) && h.nft == nft && Kept(initial, h) && |results| == i
      invariant GivenBack(initial, Idle(h)) <==>
        forall j :: 0 <= j < i ==> Harmless(nft, initial, events[j], results[j])
    {
      var r := Serve(initial, h, events[i]);
      results := results + [r];
    }
  }

  /** A start that fails on its files leaves the LAN address behind, so the next one on that
      interface is refused, although nothing is running. */
  method FailedFilesBlockTheNextStart(h: HotspotManager, cfg: Config, uplink: string, env: Env, next: Env)
    returns (first: StartResult, second: StartResult)
    requires h.Valid() && !h.running && AddrsOf(h.host, cfg.wlan) == []
    requires env.mkdir && env.linkUp && env.addrAdd && next.down == WORKS && env.down == WORKS
    modifies h
    ensures first.NotSetUp? ==> second.Refused? && !h.running
  {
    first := h.Start(cfg, uplink, env);
    second := h.Start(cfg, uplink, next);
  }
}
