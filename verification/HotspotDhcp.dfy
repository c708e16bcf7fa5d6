/** The LAN of the hotspot: which texts are accepted, the DHCP pool chosen around the gateway in
    `uint32` arithmetic, and the dnsmasq configuration that carries it. */
module HotspotDhcp {
  import opened Ipv4
  import opened Text

  // ----- Accepting a LAN -----

  datatype LanCheck = GoodLan(lan: Cidr) | LanRequired | NotIpv4 | TooSmall | NotAHost

  /** The LAN part of `ValidateHotspotConfig`. */
  function ValidateLan(text: string): LanCheck {
    if Trim(text) == "" then LanRequired
    else match ParseCidr(Trim(text))
      case None => NotIpv4
      case Some(lan) =>
        if lan.ones > 30 then TooSmall
        else if lan.ip == Base(lan.ip, lan.ones) || lan.ip == Last(lan) then NotAHost
        else GoodLan(lan)
  }

  /** The broadcast address. */
  function Last(lan: Cidr): Addr
    requires lan.ones <= 32
  { Base(lan.ip, lan.ones) + Span(lan.ones) - 1 }

  predicate IsHost(lan: Cidr, v: Addr)
    requires lan.ones <= 32
  { Base(lan.ip, lan.ones) < v < Last(lan) }

  lemma {:induction false} SpanCases(ones: nat)
    requires ones <= 30
    ensures Span(ones) == 4 || Span(ones) == 8 || Span(ones) >= 16
  {
    Pow2Of32();
    if ones < 28 { Pow2Order(4, 32 - ones); }
  }

  /** A LAN is accepted exactly if its text names one of the hosts of a network with room for another. */
  lemma {:induction false} AcceptedLan(text: string)
    ensures ValidateLan(text).GoodLan? <==>
      exists lan: Cidr :: ParseCidr(Trim(text)) == Some(lan) && lan.ones <= 30 && IsHost(lan, lan.ip)
    ensures ValidateLan(text).GoodLan? ==>
      var lan := ValidateLan(text).lan;
      ParseCidr(Trim(text)) == Some(lan) && exists v: Addr :: IsHost(lan, v) && v != lan.ip
  {
    if ParseCidr(Trim(text)).Some? {
      var lan := ParseCidr(Trim(text)).value;
      SameNetwork(lan.ip, lan.ip, lan.ones);
      if lan.ones <= 30 {
        SpanCases(lan.ones);
        hide Base, Span, ParseCidr, Trim;
        var first: Addr := Base(lan.ip, lan.ones) + 1;
        var second: Addr := Base(lan.ip, lan.ones) + 2;
        assert IsHost(lan, first) && IsHost(lan, second);
      }
    } else {
      BlankIsNoCidr();
    }
  }

  lemma {:induction false} BlankIsNoCidr()
    ensures ParseCidr("").None?
  {
  }

  // ----- The pool -----

  datatype Pool = Pool(start: Addr, end: Addr) | NoPool

  function Add32(a: Addr, b: Addr): Addr {
    var x: int, y: int := a, b;
    if x + y < 0x1_0000_0000 then x + y else x + y - 0x1_0000_0000
  }

  /** A requested end of the pool, if it can be used. */
  function Requested(lan: Cidr, raw: string): Option<Addr>
    requires lan.ones <= 32
  {
    match ParseAddr(Trim(raw))
    case None => None
    case Some(v) => if IsHost(lan, v) && v != lan.ip then Some(v) else None
  }

  /** A request is honoured if both ends are usable, in order, and not around the gateway. */
  predicate Honoured(lan: Cidr, start: string, end: string)
    requires lan.ones <= 32
  {
    var s, e := Requested(lan, start), Requested(lan, end);
    s.Some? && e.Some? && s.value <= e.value && !(s.value <= lan.ip <= e.value)
  }

  /** What a pool must be: hosts of the LAN, in order, without the gateway. */
  predicate Correct(lan: Cidr, r: Pool)
    requires lan.ones <= 32
  { r.Pool? && IsHost(lan, r.start) && IsHost(lan, r.end) && r.start <= r.end && !(r.start <= lan.ip <= r.end) }

  /** Where a derived pool may lie: from the tenth to the two hundredth address, as far as the
      LAN has them. */
  function Window(lan: Cidr): (Addr, Addr)
    requires lan.ones <= 30
  {
    SpanCases(lan.ones);
    var base: int, last: int := Base(lan.ip, lan.ones), Last(lan);
    (if base + 10 < last then base + 10 else base + 1, if base + 200 < last then base + 200 else last - 1)
  }

  predicate Free(lan: Cidr, start: int, end: int)
    requires lan.ones <= 30
  { Window(lan).0 <= start <= end <= Window(lan).1 && !(start <= lan.ip <= end) }

  /** The largest free stretch of the window; of two equal ones the upper. */
  ghost predicate IsLargest(lan: Cidr, r: Pool)
    requires lan.ones <= 30
  {
    && r.Pool? && Free(lan, r.start, r.end)
    && forall s: int, e: int :: Free(lan, s, e) ==>
      e - s < r.end - r.start || (e - s == r.end - r.start && s <= r.start)
  }

  predicate Wraps(lan: Cidr)
    requires lan.ones <= 32
  { Base(lan.ip, lan.ones) + 200 >= 0x1_0000_0000 }

  /** The pool as derived when no request is honoured. */
  function Derived(lan: Cidr): Pool
    requires lan.ones <= 30
  {
    SpanCases(lan.ones);
    DeriveFrom(Base(lan.ip, lan.ones), Last(lan), lan.ip)
  }

  function DeriveFrom(base: Addr, last: Addr, gw: Addr): Pool
    requires last - base >= 3
  {
    var start := if Add32(base, 10) > last - 1 then base + 1 else Add32(base, 10);
    var end := if Add32(base, 200) > last - 1 then last - 1 else Add32(base, 200);
    if start <= gw <= end then
      if end - gw >= gw - start && gw < end then Pool(gw + 1, end)
      else if gw > start then Pool(start, gw - 1)
      else NoPool
    else if start > end then NoPool
    else Pool(start, end)
  }

  /** The pool of a LAN for a request. */
  function PoolFor(lan: Cidr, start: string, end: string): Pool
    requires lan.ones <= 32
  {
    if lan.ones > 30 then NoPool
    else if Honoured(lan, start, end) then Pool(Requested(lan, start).value, Requested(lan, end).value)
    else Derived(lan)
  }

  /** A pool asked for is given exactly if it is a right one. */
  lemma {:induction false} RequestExact(lan: Cidr, s: Addr, e: Addr)
    requires lan.ones <= 30
    ensures PoolFor(lan, Dotted(s), Dotted(e)) == if Correct(lan, Pool(s, e)) then Pool(s, e) else Derived(lan)
  {
    DottedRoundTrip(s);
    DottedRoundTrip(e);
    DottedTrimmed(s);
    DottedTrimmed(e);
    hide Dotted, ParseAddr, Trim, Derived, Base, Span;
  }

  /** A derived pool is right exactly if `base + 200` does not wrap around, and is then the
      largest free stretch. */
  lemma {:induction false} DerivedExact(lan: Cidr)
    requires lan.ones <= 30
    ensures Correct(lan, Derived(lan)) <==> !Wraps(lan)
    ensures !Wraps(lan) ==> IsLargest(lan, Derived(lan))
  {
    SpanCases(lan.ones);
    hide Base, Span;
  }

  /** `hotspotDHCPRange` for the gateway and network of one CIDR text. */
  method DhcpRange(lan: Cidr, requestedStart: string, requestedEnd: string) returns (r: Pool)
    requires lan.ones <= 32
    ensures r == PoolFor(lan, requestedStart, requestedEnd)
    ensures lan.ones <= 30 ==> (Correct(lan, r) <==> Honoured(lan, requestedStart, requestedEnd) || !Wraps(lan))
  {
    var base: Addr, last: Addr, gw: Addr := Base(lan.ip, lan.ones), Last(lan), lan.ip;
    Pow2Of32();
    if last - base < 3 {
      if lan.ones <= 30 { SpanCases(lan.ones); }
      return NoPool;
    }
    assert lan.ones <= 30;
    SpanCases(lan.ones);
    DerivedExact(lan);
    hide Base, Span, ParseAddr, Trim, DeriveFrom;
    var s := Requested(lan, requestedStart);
    if s.Some? {
      var e := Requested(lan, requestedEnd);
      if e.Some? && s.value <= e.value && !(gw >= s.value && gw <= e.value) {
        return Pool(s.value, e.value);
      }
    }
    r := Derive(base, last, gw);
  }

  /** The part of `hotspotDHCPRange` that derives a pool. */
  method Derive(base: Addr, last: Addr, gw: Addr) returns (r: Pool)
    requires last - base >= 3
    ensures r == DeriveFrom(base, last, gw)
  {
    var firstHost: Addr, lastHost: Addr := base + 1, last - 1;
    var start := Add32(base, 10);
    if start > lastHost {
      start := firstHost;
    }
    var end := Add32(base, 200);
    if end > lastHost {
      end := lastHost;
    }
    if gw >= start && gw <= end {
      var left, right := gw - start, end - gw;
      if right >= left && gw < end {
        start := gw + 1;
      } else if gw > start {
        end := gw - 1;
      } else {
        return NoPool;
      }
    }
    if start > end {
      return NoPool;
    }
    r := Pool(start, end);
  }

  /** 255.255.255.249/29 is accepted, yet its derived pool is 0.0.0.2 to 0.0.0.192. */
  lemma {:induction false} WrappedPool()
    ensures
      var text := CidrText(0xFFFF_FFF9, 29);
      ValidateLan(text) == GoodLan(Cidr(0xFFFF_FFF9, 29)) && Derived(Cidr(0xFFFF_FFF9, 29)) == Pool(2, 192)
  {
    CidrRoundTrip(0xFFFF_FFF9, 29);
    CidrTextTrimmed(0xFFFF_FFF9, 29);
    hide CidrText, ParseCidr, Trim;
    TopNetworkBase();
    hide Base, Span;
  }

  lemma {:induction false} TopNetworkBase()
    ensures Base(0xFFFF_FFF9, 29) == 0xFFFF_FFF8 && Span(29) == 8
  {
    Pow2Of32();
    hide Pow2, TopBits;
    TopNetwork(0xFFFF_FFF9, 32, 29);
  }

  // ----- The dnsmasq configuration -----

  datatype Conf = Conf(text: string) | BadLan | NoRange

  function ConfLines(iface: string, gw: Addr, start: Addr, end: Addr, leaseFile: string): seq<string> {
    [ "interface=" + iface, "bind-interfaces", "except-interface=lo",
      "dhcp-range=" + Join([Dotted(start), Dotted(end), "12h"], ','),
      "dhcp-option=" + Join(["3", Dotted(gw)], ','), "dhcp-option=" + Join(["6", Dotted(gw)], ',')]
    + (if leaseFile == "" then [] else ["dhcp-leasefile=" + leaseFile]) + ["log-dhcp"]
  }

  function Unlines(lines: seq<string>): string {
    if lines == [] then "" else Unlines(lines[..|lines| - 1]) + lines[|lines| - 1] + "\n"
  }

  lemma {:induction false} UnlinesNext(lines: seq<string>, l: string)
    ensures Unlines(lines + [l]) == Unlines(lines) + l + "\n"
  {
    assert (lines + [l])[..|lines|] == lines;
  }

  /** `GenerateDnsmasqConf`. */
  method GenerateDnsmasqConf(iface: string, lanText: string, requestedStart: string, requestedEnd: string,
        leaseFile: string)
    returns (r: Conf, pool: Pool)
    ensures r.BadLan? <==> ParseCidr(lanText).None?
    ensures !r.BadLan? ==>
      var lan := ParseCidr(lanText).value;
      && pool == PoolFor(lan, requestedStart, requestedEnd) && (r.NoRange? <==> pool.NoPool?)
      && (lan.ones <= 30 ==> (Correct(lan, pool) <==> Honoured(lan, requestedStart, requestedEnd) || !Wraps(lan)))
      && (r.Conf? ==> r.text == Unlines(ConfLines(iface, lan.ip, pool.start, pool.end, leaseFile)))
  {
    pool := NoPool;
    var cidr := ParseCidr(lanText);
    if cidr.None? {
      return BadLan, pool;
    }
    var lan := cidr.value;
    pool := DhcpRange(lan, requestedStart, requestedEnd);
    if pool.NoPool? {
      return NoRange, pool;
    }
    var b := WriteConf(iface, lan.ip, pool.start, pool.end, leaseFile);
    r := Conf(b);
  }

  /** The string builder of `GenerateDnsmasqConf`. */
  method WriteConf(iface: string, gw: Addr, start: Addr, end: Addr, leaseFile: string) returns (b: string)
    ensures b == Unlines(ConfLines(iface, gw, start, end, leaseFile))
  {
    ghost var lines: seq<string> := [];
    b := "";
    b, lines := WriteLine(b, lines, "interface=" + iface);
    b, lines := WriteLine(b, lines, "bind-interfaces");
    b, lines := WriteLine(b, lines, "except-interface=lo");
    b, lines := WriteLine(b, lines, "dhcp-range=" + Join([Dotted(start), Dotted(end), "12h"], ','));
    b, lines := WriteLine(b, lines, "dhcp-option=" + Join(["3", Dotted(gw)], ','));
    b, lines := WriteLine(b, lines, "dhcp-option=" + Join(["6", Dotted(gw)], ','));
    hide Unlines, Join;
    if leaseFile != "" {
      b, lines := WriteLine(b, lines, "dhcp-leasefile=" + leaseFile);
    }
    b, lines := WriteLine(b, lines, "log-dhcp");
    assert lines == ConfLines(iface, gw, start, end, leaseFile);
  }

  method WriteLine(b: string, ghost lines: seq<string>, l: string) returns (b': string, ghost lines': seq<string>)
    requires b == Unlines(lines)
    ensures b' == Unlines(lines') && lines' == lines + [l]
  {
    UnlinesNext(lines, l);
    b', lines' := b + l + "\n", lines + [l];
  }

  // ----- What dnsmasq reads -----

  /** The values of the lines `key=value`, in order. */
  function Values(lines: seq<string>, key: string): seq<string> {
    if lines == [] then []
    else (if HasPrefix(lines[0], key + "=") then [lines[0][|key| + 1..]] else []) + Values(lines[1..], key)
  }

  datatype Served = Served(iface: string, start: Addr, end: Addr, router: Addr, dns: Addr)

  /** The service that a configuration asks for: one range, a router (option 3) and a name server
      (option 6). */
  function ReadConf(text: string): Option<Served> {
    var lines := Split(text, '\n');
    var interfaces, ranges := Values(lines, "interface"), Values(lines, "dhcp-range");
    var options := Values(lines, "dhcp-option");
    if |interfaces| != 1 || |ranges| != 1 || |options| != 2 then None
    else
      var range, router, dns := Split(ranges[0], ','), Split(options[0], ','), Split(options[1], ',');
      if |range| == 3 && |router| == 2 && |dns| == 2 && router[0] == "3" && dns[0] == "6"
         && ParseAddr(range[0]).Some? && ParseAddr(range[1]).Some? && ParseAddr(router[1]).Some?
         && ParseAddr(dns[1]).Some?
      then Some(Served(interfaces[0], ParseAddr(range[0]).value, ParseAddr(range[1]).value,
        ParseAddr(router[1]).value, ParseAddr(dns[1]).value))
      else None
  }

  lemma {:induction false} SplitUnlines(lines: seq<string>)
    requires forall i :: 0 <= i < |lines| ==> Lacks(lines[i], '\n')
    ensures Split(Unlines(lines), '\n') == lines + [""]
  {
    JoinUnlines(lines);
    SplitJoin(lines + [""], '\n');
  }

  lemma {:induction false} JoinUnlines(lines: seq<string>)
    ensures Unlines(lines) == Join(lines + [""], '\n')
  {
    if lines != [] {
      var n := |lines| - 1;
      JoinUnlines(lines[..n]);
      JoinSnoc(lines[..n] + [lines[n]], "", '\n');
      JoinLast(lines[..n], lines[n], '\n');
      assert lines[..n] + [lines[n]] == lines;
    }
  }

  lemma {:induction false} JoinSnoc(fields: seq<string>, last: string, sep: char)
    requires fields != []
    ensures Join(fields + [last], sep) == Join(fields, sep) + [sep] + last
  {
    if |fields| > 1 {
      JoinSnoc(fields[1..], last, sep);
      assert (fields + [last])[1..] == fields[1..] + [last];
    } else {
      assert (fields + [last])[1..] == [last];
    }
  }

  lemma {:induction false} JoinLast(fields: seq<string>, last: string, sep: char)
    ensures Join(fields + [last], sep) == Join(fields + [""], sep) + last
  {
    if fields != [] {
      JoinSnoc(fields, last, sep);
      JoinSnoc(fields, "", sep);
    }
  }

  lemma {:induction false} ValuesAppend(a: seq<string>, b: seq<string>, key: string)
    ensures Values(a + b, key) == Values(a, key) + Values(b, key)
  {
    if a == [] {
      assert a + b == b;
    } else {
      assert (a + b)[1..] == a[1..] + b;
      ValuesAppend(a[1..], b, key);
    }
  }

  lemma {:induction false} ValueOf(key: string, value: string)
    ensures Values([key + "=" + value], key) == [value]
  {
    var l := key + "=" + value;
    assert l == (key + "=") + value;
    assert l[|key| + 1..] == value;
    assert Values([l][1..], key) == [];
  }

  lemma {:induction false} FieldsReadBack(fields: seq<string>)
    requires fields != [] && forall i :: 0 <= i < |fields| ==> Lacks(fields[i], ',') && Lacks(fields[i], '\n')
    ensures Split(Join(fields, ','), ',') == fields && Lacks(Join(fields, ','), '\n')
  {
    SplitJoin(fields, ',');
    JoinLacks(fields, ',', '\n');
  }

  lemma {:induction false} AddrField(v: Addr)
    ensures Lacks(Dotted(v), ',') && Lacks(Dotted(v), '\n') && ParseAddr(Dotted(v)) == Some(v)
  {
    DottedCharacters(v, ',');
    DottedCharacters(v, '\n');
    DottedRoundTrip(v);
  }

  /** The lines of a configuration that carry a value. */
  function Head(iface: string, range: string, router: string, dns: string): seq<string> {
    ["interface=" + iface, "bind-interfaces", "except-interface=lo", "dhcp-range=" + range,
     "dhcp-option=" + router, "dhcp-option=" + dns]
  }

  function Tail(leaseFile: string): seq<string> {
    (if leaseFile == "" then [] else ["dhcp-leasefile=" + leaseFile]) + ["log-dhcp"]
  }

  lemma {:induction false} HeadValues(iface: string, range: string, router: string, dns: string)
    ensures Values(Head(iface, range, router, dns), "interface") == [iface]
    ensures Values(Head(iface, range, router, dns), "dhcp-range") == [range]
    ensures Values(Head(iface, range, router, dns), "dhcp-option") == [router, dns]
  {
    var h := Head(iface, range, router, dns);
    HeadValue(h, "interface");
    HeadValue(h, "dhcp-range");
    HeadValue(h, "dhcp-option");
    ValueOf("interface", iface);
    ValueOf("dhcp-range", range);
    ValueOf("dhcp-option", router);
    ValueOf("dhcp-option", dns);
    OtherKeys(iface, range, router, dns);
  }

  /** A list of six read one line at a time. */
  lemma {:induction false} HeadValue(h: seq<string>, key: string)
    requires |h| == 6
    ensures Values(h, key) == Values([h[0]], key) + Values([h[1]], key) + Values([h[2]], key) + Values([h[3]], key)
      + Values([h[4]], key) + Values([h[5]], key)
  {
    hide Values;
    ValuesAppend([h[0]], [h[1]], key);
    ValuesAppend([h[0]] + [h[1]], [h[2]], key);
    ValuesAppend([h[0]] + [h[1]] + [h[2]], [h[3]], key);
    ValuesAppend([h[0]] + [h[1]] + [h[2]] + [h[3]], [h[4]], key);
    ValuesAppend([h[0]] + [h[1]] + [h[2]] + [h[3]] + [h[4]], [h[5]], key);
    assert h == [h[0]] + [h[1]] + [h[2]] + [h[3]] + [h[4]] + [h[5]];
  }

  lemma {:induction false} NoValue(l: string, key: string)
    requires |l| > 0 && |key| > 0 && exists i :: 0 <= i < |l| && i < |key| && l[i] != key[i]
    ensures Values([l], key) == []
  {
    var i :| 0 <= i < |l| && i < |key| && l[i] != key[i];
    assert (key + "=")[i] == key[i];
    assert Values([l][1..], key) == [];
  }

  lemma {:induction false} OtherKeys(iface: string, range: string, router: string, dns: string)
    ensures forall l | l in {"bind-interfaces", "except-interface=lo", "dhcp-range=" + range, "dhcp-option=" + router,
      "dhcp-option=" + dns} ::
      Values([l], "interface") == []
    ensures forall l | l in {"interface=" + iface, "bind-interfaces", "except-interface=lo", "dhcp-option=" + router,
      "dhcp-option=" + dns} ::
      Values([l], "dhcp-range") == []
    ensures forall l | l in {"interface=" + iface, "bind-interfaces", "except-interface=lo", "dhcp-range=" + range} ::
      Values([l], "dhcp-option") == []
  {
    hide Values;
    forall l | l in {"bind-interfaces", "except-interface=lo", "dhcp-range=" + range, "dhcp-option=" + router,
      "dhcp-option=" + dns}
      ensures Values([l], "interface") == []
    {
      assert l[0] != "interface"[0];
      NoValue(l, "interface");
    }
    forall l | l in {"interface=" + iface, "bind-interfaces", "except-interface=lo", "dhcp-option=" + router,
      "dhcp-option=" + dns}
      ensures Values([l], "dhcp-range") == []
    {
      assert l[0] != "dhcp-range"[0] || l[5] != "dhcp-range"[5];
      NoValue(l, "dhcp-range");
    }
    forall l | l in {"interface=" + iface, "bind-interfaces", "except-interface=lo", "dhcp-range=" + range}
      ensures Values([l], "dhcp-option") == []
    {
      assert l[0] != "dhcp-option"[0] || l[5] != "dhcp-option"[5];
      NoValue(l, "dhcp-option");
    }
  }

  lemma {:induction false} TailValues(leaseFile: string, key: string)
    requires key == "interface" || key == "dhcp-range" || key == "dhcp-option"
    ensures Values(Tail(leaseFile) + [""], key) == []
  {
    var lease := "dhcp-leasefile=" + leaseFile;
    assert lease[0] != key[0] || lease[5] != key[5];
    NoValue(lease, key);
    assert "log-dhcp"[0] != key[0];
    NoValue("log-dhcp", key);
    assert Values([""], key) == [] by { assert [""][1..] == []; }
    hide Values;
    ValuesAppend(if leaseFile == "" then [] else [lease], ["log-dhcp"], key);
    ValuesAppend(Tail(leaseFile), [""], key);
    assert Values([], key) == [] by { ValuesAppend([], [], key); }
  }

  /** dnsmasq serves exactly the chosen pool, with the gateway as router and name server. */
  lemma {:induction false} ConfRoundTrip(iface: string, gw: Addr, start: Addr, end: Addr, leaseFile: string)
    requires Lacks(iface, '\n') && Lacks(leaseFile, '\n')
    ensures ReadConf(Unlines(ConfLines(iface, gw, start, end, leaseFile))) == Some(Served(iface, start, end, gw, gw))
  {
    AddrField(start);
    AddrField(end);
    AddrField(gw);
    FieldsReadBack([Dotted(start), Dotted(end), "12h"]);
    FieldsReadBack(["3", Dotted(gw)]);
    FieldsReadBack(["6", Dotted(gw)]);
    hide Dotted, ParseAddr, Join;
    var range := Join([Dotted(start), Dotted(end), "12h"], ',');
    var router, dns := Join(["3", Dotted(gw)], ','), Join(["6", Dotted(gw)], ',');
    var lines := ConfLines(iface, gw, start, end, leaseFile);
    LinesRead(iface, range, router, dns, leaseFile);
    assert lines == Head(iface, range, router, dns) + Tail(leaseFile);
    hide Values, Head, Tail, ConfLines;
  }

  lemma {:induction false} LacksAppend(s: string, t: string, c: char)
    requires Lacks(s, c) && Lacks(t, c)
    ensures Lacks(s + t, c)
  {
  }

  lemma {:induction false} LinesLack(iface: string, range: string, router: string, dns: string, leaseFile: string)
    requires forall l | l in {iface, range, router, dns, leaseFile} :: Lacks(l, '\n')
    ensures var lines := Head(iface, range, router, dns) + Tail(leaseFile);
      forall i :: 0 <= i < |lines| ==> Lacks(lines[i], '\n')
  {
    LacksAppend("interface=", iface, '\n');
    LacksAppend("dhcp-range=", range, '\n');
    LacksAppend("dhcp-option=", router, '\n');
    LacksAppend("dhcp-option=", dns, '\n');
    LacksAppend("dhcp-leasefile=", leaseFile, '\n');
    assert Lacks("bind-interfaces", '\n') && Lacks("except-interface=lo", '\n') && Lacks("log-dhcp", '\n');
    hide Lacks;
  }

  lemma {:induction false} LinesRead(iface: string, range: string, router: string, dns: string, leaseFile: string)
    requires forall l | l in {iface, range, router, dns, leaseFile} :: Lacks(l, '\n')
    ensures var lines := Split(Unlines(Head(iface, range, router, dns) + Tail(leaseFile)), '\n');
      && Values(lines, "interface") == [iface] && Values(lines, "dhcp-range") == [range]
      && Values(lines, "dhcp-option") == [router, dns]
  {
    var head, tail := Head(iface, range, router, dns), Tail(leaseFile);
    LinesLack(iface, range, router, dns, leaseFile);
    SplitUnlines(head + tail);
    HeadValues(iface, range, router, dns);
    TailValues(leaseFile, "interface");
    TailValues(leaseFile, "dhcp-range");
    TailValues(leaseFile, "dhcp-option");
    hide Values, Head, Tail, Unlines, Split;
    assert head + tail + [""] == head + (tail + [""]);
    ValuesAppend(head, tail + [""], "interface");
    ValuesAppend(head, tail + [""], "dhcp-range");
    ValuesAppend(head, tail + [""], "dhcp-option");
  }

  /** The LAN text is trimmed when it is validated but not here: an accepted text yields a
      configuration only if it has no white space around it. */
  lemma {:induction false} UntrimmedLanIsBad(text: string)
    requires ValidateLan(text).GoodLan?
    ensures ParseCidr(text).Some? <==> Trim(text) == text
  {
    if ParseCidr(text).Some? {
      ParsedCidrTrimmed(text);
    }
  }
}
