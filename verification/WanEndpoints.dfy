/** Which device nodes a data session may use: lookups over the discovered modems, the selection
    and its defaults, and the endpoint resolved from a request. Paths and names are compared as
    they stand; requests arrive with their texts trimmed and their modes parsed. */
module WanEndpoints {
  import opened Text

  datatype AtPort = AtPort(path: string, ready: bool)

  datatype Modem = Modem(id: string, atPorts: seq<AtPort>, mbim: seq<string>, net: seq<string>)

  datatype Kind = At | Mbim | Net

  /** The current selection; "" is none. */
  datatype Selection = Selection(modem: string, mbim: string, net: string)

  function Nodes(m: Modem, kind: Kind): seq<string> {
    match kind
    case At => seq(|m.atPorts|, i requires 0 <= i < |m.atPorts| => m.atPorts[i].path)
    case Mbim => m.mbim
    case Net => m.net
  }

  /** `modemByID`. */
  function ModemById(modems: seq<Modem>, id: string): (r: Option<Modem>)
    ensures r.Some? ==> r.value in modems && r.value.id == id
  {
    if modems == [] then None
    else if modems[0].id == id then Some(modems[0])
    else ModemById(modems[1..], id)
  }

  /** `modemByPath`. */
  function ModemByPath(modems: seq<Modem>, path: string, kind: Kind): (r: Option<Modem>)
    ensures r.Some? ==> r.value in modems && path in Nodes(r.value, kind)
  {
    if modems == [] then None
    else if path in Nodes(modems[0], kind) then Some(modems[0])
    else ModemByPath(modems[1..], path, kind)
  }

  predicate DistinctIds(modems: seq<Modem>) {
    forall i, j :: 0 <= i < j < |modems| ==> modems[i].id != modems[j].id
  }

  lemma {:induction false} FoundById(modems: seq<Modem>, m: Modem)
    requires DistinctIds(modems) && m in modems
    ensures ModemById(modems, m.id) == Some(m)
  {
    if modems[0] != m {
      assert m in modems[1..];
      FoundById(modems[1..], m);
    }
  }

  /** The `i`th modem is the first that has the path. */
  predicate FirstWith(modems: seq<Modem>, path: string, kind: Kind, i: int) {
    0 <= i < |modems| && path in Nodes(modems[i], kind) && forall k :: 0 <= k < i ==> path !in Nodes(modems[k], kind)
  }

  /** A path belongs to the first modem that has it, and to none exactly if no modem does. */
  lemma {:induction false} FoundByPath(modems: seq<Modem>, path: string, kind: Kind)
    ensures match ModemByPath(modems, path, kind)
      case Some(m) => exists i :: FirstWith(modems, path, kind, i) && m == modems[i]
      case None => forall i :: 0 <= i < |modems| ==> path !in Nodes(modems[i], kind)
  {
    hide Nodes;
    if modems != [] && path !in Nodes(modems[0], kind) {
      FoundByPath(modems[1..], path, kind);
      assert forall i :: 0 < i < |modems| ==> modems[i] == modems[1..][i - 1];
      if i :| FirstWith(modems[1..], path, kind, i) && ModemByPath(modems, path, kind) == Some(modems[1..][i]) {
        assert FirstWith(modems, path, kind, i + 1);
      }
    } else if modems != [] {
      assert FirstWith(modems, path, kind, 0);
    }
  }

  function FirstNode(modems: seq<Modem>, kind: Kind): string {
    if modems == [] then ""
    else if Nodes(modems[0], kind) != [] then Nodes(modems[0], kind)[0]
    else FirstNode(modems[1..], kind)
  }

  /** The defaults that `buildInventoryLocked` puts in place of empty selections. */
  function Defaults(s: Selection, modems: seq<Modem>, openAt: string): Selection {
    var owner := if openAt == "" then None else ModemByPath(modems, openAt, At);
    var modem :=
      if s.modem != "" then s.modem
      else if owner.Some? && owner.value.id != "" then owner.value.id
      else if modems != [] then modems[0].id
      else "";
    Selection(modem,
      if s.mbim == "" then FirstNode(modems, Mbim) else s.mbim,
      if s.net == "" then FirstNode(modems, Net) else s.net)
  }

  lemma {:induction false} DefaultsTwice(s: Selection, modems: seq<Modem>, openAt: string)
    ensures Defaults(Defaults(s, modems, openAt), modems, openAt) == Defaults(s, modems, openAt)
  {
  }

  /** The `i`th modem is the first with a node of the kind. */
  predicate FirstHaving(modems: seq<Modem>, kind: Kind, i: int) {
    0 <= i < |modems| && Nodes(modems[i], kind) != [] && forall k :: 0 <= k < i ==> Nodes(modems[k], kind) == []
  }

  lemma {:induction false} FirstNodeExact(modems: seq<Modem>, kind: Kind)
    ensures (exists i :: FirstHaving(modems, kind, i) && FirstNode(modems, kind) == Nodes(modems[i], kind)[0])
      || (FirstNode(modems, kind) == "" && forall i :: 0 <= i < |modems| ==> Nodes(modems[i], kind) == [])
  {
    hide Nodes;
    if modems != [] && Nodes(modems[0], kind) == [] {
      FirstNodeExact(modems[1..], kind);
      assert forall i :: 0 < i < |modems| ==> modems[i] == modems[1..][i - 1];
      if i :| FirstHaving(modems[1..], kind, i) && FirstNode(modems, kind) == Nodes(modems[1..][i], kind)[0] {
        assert FirstHaving(modems, kind, i + 1);
      }
    } else if modems != [] {
      assert FirstHaving(modems, kind, 0);
    }
  }

  /** Listing never changes a selection that is there. It fills an empty one with the first modem that has the
      open AT port, else with the first of all, and with the first node of the first modem that has one. */
  lemma {:induction false} DefaultsFill(s: Selection, modems: seq<Modem>, openAt: string)
    ensures var d := Defaults(s, modems, openAt);
      && (s.modem != "" ==> d.modem == s.modem)
      && (s.mbim != "" ==> d.mbim == s.mbim) && (s.net != "" ==> d.net == s.net)
    ensures s.modem == "" && (forall m :: m in modems ==> m.id != "") ==>
      var d, at := Defaults(s, modems, openAt), forall m :: m in modems ==> openAt !in Nodes(m, At);
      if modems == [] then d.modem == ""
      else if openAt == "" || at then d.modem == modems[0].id
      else exists i :: FirstWith(modems, openAt, At, i) && d.modem == modems[i].id
    ensures s.mbim == "" ==>
      || (exists i :: FirstHaving(modems, Mbim, i) && Defaults(s, modems, openAt).mbim == modems[i].mbim[0])
      || (Defaults(s, modems, openAt).mbim == "" && forall m :: m in modems ==> m.mbim == [])
    ensures s.net == "" ==>
      || (exists i :: FirstHaving(modems, Net, i) && Defaults(s, modems, openAt).net == modems[i].net[0])
      || (Defaults(s, modems, openAt).net == "" && forall m :: m in modems ==> m.net == [])
  {
    FirstNodeExact(modems, Mbim);
    FirstNodeExact(modems, Net);
    FoundByPath(modems, openAt, At);
    hide FirstNode, ModemByPath, FirstWith, FirstHaving;
    assert forall m: Modem :: Nodes(m, Mbim) == m.mbim && Nodes(m, Net) == m.net;
  }

  lemma {:induction false} DefaultsKeepModem(s: Selection, modems: seq<Modem>, openAt: string)
    ensures s.modem != "" ==> Defaults(s, modems, openAt).modem == s.modem
  {
  }

  // ----- Selecting a modem -----

  datatype SelectRequest = SelectRequest(modemId: string, atPort: string, mbim: string, net: string)

  datatype SelectError = NothingRequested | UnknownModem | UnknownEndpoint | ForeignEndpoint | ForeignAtPort

  datatype Selected = Ok(atPort: string) | Refused(error: SelectError)

  /** The modem a request is about, if discovery knows it. */
  function Chosen(modems: seq<Modem>, req: SelectRequest): Option<Modem> {
    if req.modemId != "" then ModemById(modems, req.modemId)
    else if req.atPort != "" then ModemByPath(modems, req.atPort, At)
    else if req.mbim != "" then ModemByPath(modems, req.mbim, Mbim)
    else if req.net != "" then ModemByPath(modems, req.net, Net)
    else None
  }

  /** The node selected after choosing a modem: the requested one, the previous one if it is on the
      modem, else the first; a modem without nodes of the kind leaves the selection alone. */
  function Pick(requested: string, previous: string, nodes: seq<string>): string {
    if requested != "" then requested
    else if nodes == [] || previous in nodes then previous
    else nodes[0]
  }

  function PreferredAt(ports: seq<AtPort>, preferred: string): (r: string)
    ensures if ports == [] then r == "" else exists p :: p in ports && p.path == r
    ensures preferred != "" && (exists p :: p in ports && p.path == preferred) ==> r == preferred
    ensures (!(preferred != "" && exists p :: p in ports && p.path == preferred)
        && exists p :: p in ports && p.ready) ==>
      exists p :: p in ports && p.path == r && p.ready
  {
    if preferred != "" && exists p :: p in ports && p.path == preferred then preferred
    else if exists i :: 0 <= i < |ports| && ports[i].ready then FirstReady(ports)
    else if ports != [] then ports[0].path
    else ""
  }

  function FirstReady(ports: seq<AtPort>): (r: string)
    requires exists i :: 0 <= i < |ports| && ports[i].ready
    ensures exists p :: p in ports && p.path == r && p.ready
  {
    if ports[0].ready then ports[0].path
    else
      assert exists i :: 0 <= i < |ports[1..]| && ports[1..][i].ready by {
        var i :| 0 <= i < |ports| && ports[i].ready;
        assert ports[1..][i - 1] == ports[i];
      }
      FirstReady(ports[1..])
  }

  /** The entry for a raw serial path that discovery does not know. */
  function SerialModem(atPort: string): Modem { Modem("serial:" + atPort, [AtPort(atPort, true)], [], []) }

  predicate OwnedBy(modems: seq<Modem>, m: Modem, path: string, kind: Kind) {
    path == "" || (ModemByPath(modems, path, kind).Some? && ModemByPath(modems, path, kind).value.id == m.id)
  }

  /** A request about modem `m` that names nothing of another modem. */
  predicate Consistent(modems: seq<Modem>, m: Modem, req: SelectRequest) {
    && OwnedBy(modems, m, req.mbim, Mbim) && OwnedBy(modems, m, req.net, Net)
    && AtPortFits(m, req.atPort)
  }

  /** The selection is about `m`: its nodes, wherever it has any. */
  predicate SelectionOf(s: Selection, m: Modem) {
    && s.modem == m.id && (m.mbim != [] ==> s.mbim in m.mbim) && (m.net != [] ==> s.net in m.net)
  }

  lemma {:induction false} SameId(modems: seq<Modem>, a: Modem, b: Modem)
    requires DistinctIds(modems) && a in modems && b in modems && a.id == b.id
    ensures a == b
  {
    var i :| 0 <= i < |modems| && modems[i] == a;
    var j :| 0 <= j < |modems| && modems[j] == b;
  }

  /** Requested nodes of a consistent request are nodes of the modem. */
  lemma {:induction false} OwnedNodes(modems: seq<Modem>, m: Modem, path: string, kind: Kind)
    requires DistinctIds(modems) && m in modems && OwnedBy(modems, m, path, kind) && path != ""
    ensures path in Nodes(m, kind)
  {
    SameId(modems, m, ModemByPath(modems, path, kind).value);
  }

  /** What choosing `m` leaves selected. */
  function Choose(s: Selection, m: Modem, req: SelectRequest): Selection {
    Selection(m.id, Pick(req.mbim, s.mbim, m.mbim), Pick(req.net, s.net, m.net))
  }

  lemma {:induction false} ChosenIsSelected(modems: seq<Modem>, s: Selection, m: Modem, req: SelectRequest,
        openAt: string)
    requires DistinctIds(modems) && m in modems && m.id != "" && NamedNodes(m) && Consistent(modems, m, req)
    ensures SelectionOf(Defaults(Choose(s, m, req), modems, openAt), m)
    ensures req.mbim != "" ==> Defaults(Choose(s, m, req), modems, openAt).mbim == req.mbim
    ensures req.net != "" ==> Defaults(Choose(s, m, req), modems, openAt).net == req.net
    ensures m.mbim != [] && req.mbim == "" && s.mbim in m.mbim ==>
      Defaults(Choose(s, m, req), modems, openAt).mbim == s.mbim
    ensures m.net != [] && req.net == "" && s.net in m.net ==> Defaults(Choose(s, m, req), modems, openAt).net == s.net
  {
    if req.mbim != "" { OwnedNodes(modems, m, req.mbim, Mbim); }
    if req.net != "" { OwnedNodes(modems, m, req.net, Net); }
  }

  /** The modem that `ModemService.SelectModem` makes of a request. */
  function Meant(modems: seq<Modem>, req: SelectRequest): Option<Modem> {
    if req.modemId != "" then ModemById(modems, req.modemId)
    else if req.atPort != "" then
      if ModemByPath(modems, req.atPort, At).Some? then ModemByPath(modems, req.atPort, At)
      else Some(SerialModem(req.atPort))
    else None
  }

  /** A path that a request names, and the modem found for it. */
  ghost predicate Finds(modems: seq<Modem>, path: string, kind: Kind, found: Option<Modem>) {
    match found
    case Some(m) => exists i :: FirstWith(modems, path, kind, i) && m == modems[i]
    case None => forall m :: m in modems ==> path !in Nodes(m, kind)
  }

  /** A request is about the modem with the identifier it names; without one, about the first modem with the AT
      port; without that, with the control node; without that, with the interface. */
  lemma {:induction false} ChosenExact(modems: seq<Modem>, req: SelectRequest)
    ensures var m := Chosen(modems, req);
      if req.modemId != "" then
        if m.Some? then m.value in modems && m.value.id == req.modemId
        else forall x :: x in modems ==> x.id != req.modemId
      else if req.atPort != "" then Finds(modems, req.atPort, At, m)
      else if req.mbim != "" then Finds(modems, req.mbim, Mbim, m)
      else if req.net != "" then Finds(modems, req.net, Net, m)
      else m == None
  {
    KnownById(modems, req.modemId);
    FoundByPath(modems, req.atPort, At);
    FoundByPath(modems, req.mbim, Mbim);
    FoundByPath(modems, req.net, Net);
    hide ModemById, ModemByPath, FirstWith, Nodes;
  }

  lemma {:induction false} KnownById(modems: seq<Modem>, id: string)
    ensures ModemById(modems, id).None? ==> forall m :: m in modems ==> m.id != id
  {
    if modems != [] { KnownById(modems[1..], id); }
  }

  /** The underlying selection takes that modem, where identifier or port name it; an AT port that discovery does
      not know stands for a modem of its own. */
  lemma {:induction false} MeantExact(modems: seq<Modem>, req: SelectRequest)
    ensures Meant(modems, req) ==
      if req.modemId == "" && req.atPort == "" then None
      else if Chosen(modems, req).Some? || req.modemId != "" then Chosen(modems, req)
      else Some(Modem("serial:" + req.atPort, [AtPort(req.atPort, true)], [], []))
  {
    hide ModemById, ModemByPath;
  }

  predicate AtPortFits(m: Modem, atPort: string) {
    atPort == "" || m.atPorts == [] || atPort in Nodes(m, At) || HasPrefix(m.id, "serial:")
  }

  /** A request fits a modem exactly if its nodes belong to that modem, and its AT port too, unless the modem has
      none or stands for a port of its own. */
  lemma {:induction false} ConsistentExact(modems: seq<Modem>, m: Modem, req: SelectRequest)
    requires DistinctIds(modems) && m in modems
    ensures Consistent(modems, m, req) <==>
      && (req.mbim == "" || exists i :: FirstWith(modems, req.mbim, Mbim, i) && modems[i] == m)
      && (req.net == "" || exists i :: FirstWith(modems, req.net, Net, i) && modems[i] == m)
      && (req.atPort == "" || m.atPorts == [] || (exists p :: p in m.atPorts && p.path == req.atPort)
          || "serial:" <= m.id)
  {
    OwnedExact(modems, m, req.mbim, Mbim);
    OwnedExact(modems, m, req.net, Net);
    PathsExact(m, req.atPort);
    hide OwnedBy, FirstWith, DistinctIds, Nodes;
  }

  lemma {:induction false} PathsExact(m: Modem, path: string)
    ensures path in Nodes(m, At) <==> exists p :: p in m.atPorts && p.path == path
  {
    var paths := Nodes(m, At);
    assert forall i :: 0 <= i < |m.atPorts| ==> paths[i] == m.atPorts[i].path;
    if p :| p in m.atPorts && p.path == path {
      var i :| 0 <= i < |m.atPorts| && m.atPorts[i] == p;
      assert paths[i] == path;
    }
  }

  lemma {:induction false} OwnedExact(modems: seq<Modem>, m: Modem, path: string, kind: Kind)
    requires DistinctIds(modems) && m in modems
    ensures OwnedBy(modems, m, path, kind) <==>
      path == "" || exists i :: FirstWith(modems, path, kind, i) && modems[i] == m
  {
    FoundByPath(modems, path, kind);
    var j :| 0 <= j < |modems| && modems[j] == m;
    hide ModemByPath, Nodes;
    if i :| FirstWith(modems, path, kind, i) {
      assert forall k :: FirstWith(modems, path, kind, k) ==> k == i;
      if modems[i].id == m.id { assert i == j; }
    }
  }

  predicate NamedNodes(m: Modem) { "" !in m.mbim && "" !in m.net }

  // ----- Endpoints -----

  datatype Mode = AutoMode | RndisMode | MbimMode

  datatype Endpoint = MbimEndpoint(control: string, hostIface: string) | RndisEndpoint(hostIface: string) | NoEndpoint

  /** The mode and node that `auto` stands for. */
  function ResolveAuto(s: Selection, selected: Option<Modem>, iface: string): (Mode, string) {
    if iface != "" && iface == s.mbim then (MbimMode, iface)
    else if iface != "" && selected.Some? && iface in selected.value.mbim then (MbimMode, iface)
    else if iface != "" && selected.Some? && iface in selected.value.net && selected.value.mbim != [] then
      (MbimMode, s.mbim)
    else if iface != "" then (RndisMode, iface)
    else if s.mbim != "" then (MbimMode, s.mbim)
    else (RndisMode, s.net)
  }

  /** `resolveDataEndpoint`. */
  function Resolve(s: Selection, modems: seq<Modem>, mode0: Mode, iface0: string): Endpoint {
    var selected := ModemById(modems, s.modem);
    var (mode, iface) := if mode0.AutoMode? then ResolveAuto(s, selected, iface0) else (mode0, iface0);
    if mode.MbimMode? then
      var control := if iface == "" then s.mbim else iface;
      if control == "" || control != s.mbim || selected.None? || control !in selected.value.mbim then NoEndpoint
      else
        var hostIface :=
          if s.net != "" && s.net in selected.value.net then s.net
          else if selected.value.net != [] then selected.value.net[0]
          else "";
        if hostIface == "" then NoEndpoint else MbimEndpoint(control, hostIface)
    else
      var hostIface := if iface == "" then s.net else iface;
      if hostIface == "" || hostIface != s.net || selected.None? || hostIface !in selected.value.net then NoEndpoint
      else RndisEndpoint(hostIface)
  }

  predicate Owns(modems: seq<Modem>, s: Selection, e: Endpoint) {
    var selected := ModemById(modems, s.modem);
    e.NoEndpoint? || (
      && selected.Some? && e.hostIface != "" && e.hostIface in selected.value.net
      && (e.MbimEndpoint? ==> e.control == s.mbim && e.control in selected.value.mbim)
      && (e.RndisEndpoint? ==> e.hostIface == s.net))
  }

  /** Whatever is asked for, a resolved endpoint consists of nodes of the selected modem. */
  lemma {:induction false} ResolvedIsOwned(s: Selection, modems: seq<Modem>, mode: Mode, iface: string)
    ensures Owns(modems, s, Resolve(s, modems, mode, iface))
  {
  }

  /** When the plain automatic connect finds an endpoint, on a selection as `SelectModem` leaves it:
      the modem needs a network interface, and a modem without MBIM nodes needs a selection without
      one, for a control node of an earlier modem is tried first and refused. */
  lemma {:induction false} AutoResolves(s: Selection, modems: seq<Modem>, m: Modem)
    requires ModemById(modems, s.modem) == Some(m) && NamedNodes(m)
    requires (m.mbim != [] ==> s.mbim in m.mbim) && (m.net != [] ==> s.net in m.net)
    ensures Resolve(s, modems, AutoMode, "") ==
      if m.net == [] then NoEndpoint
      else if m.mbim != [] then MbimEndpoint(s.mbim, s.net)
      else if s.mbim == "" then RndisEndpoint(s.net)
      else NoEndpoint
  {
  }

  /** An explicit RNDIS connect does not depend on the control node. */
  lemma {:induction false} RndisResolves(s: Selection, modems: seq<Modem>, m: Modem)
    requires ModemById(modems, s.modem) == Some(m) && NamedNodes(m) && (m.net != [] ==> s.net in m.net)
    ensures Resolve(s, modems, RndisMode, "") == if m.net == [] then NoEndpoint else RndisEndpoint(s.net)
  {
  }

  /** A control node can be named, or left to the selection. The endpoint exists exactly if it is the selected
      one, the selected modem's own, and that modem has an interface: the selected one if it is the modem's,
      else the first. */
  lemma {:induction false} MbimResolves(s: Selection, modems: seq<Modem>, iface: string)
    ensures var e, m := Resolve(s, modems, MbimMode, iface), ModemById(modems, s.modem);
      e.MbimEndpoint? ==>
        && m.Some? && (iface == "" || iface == s.mbim) && s.mbim in m.value.mbim && e.control == s.mbim
        && e.hostIface == if s.net != "" && s.net in m.value.net then s.net else m.value.net[0]
    ensures var e, m := Resolve(s, modems, MbimMode, iface), ModemById(modems, s.modem);
      (m.Some? && NamedNodes(m.value) && (iface == "" || iface == s.mbim)
        && s.mbim in m.value.mbim && m.value.net != []) ==> e.MbimEndpoint?
  {
  }

  /** What is named decides how it is connected: a control node, or an interface of a modem with control nodes,
      over MBIM; any other interface over RNDIS. */
  lemma {:induction false} NamedResolves(s: Selection, modems: seq<Modem>, m: Modem, iface: string)
    requires ModemById(modems, s.modem) == Some(m) && iface != ""
    ensures Resolve(s, modems, AutoMode, iface) ==
      if iface in m.mbim then Resolve(s, modems, MbimMode, iface)
      else if iface == s.mbim then NoEndpoint
      else if iface in m.net && m.mbim != [] then Resolve(s, modems, MbimMode, "")
      else Resolve(s, modems, RndisMode, iface)
    ensures Resolve(s, modems, RndisMode, iface) == if iface == s.net && iface in m.net then RndisEndpoint(iface)
      else NoEndpoint
  {
  }

  // ----- Clean-up after MBIM -----

  /** `device` is the selected control node, and the selected modem's. */
  predicate OwnControl(modems: seq<Modem>, s: Selection, device: string) {
    var m := ModemById(modems, s.modem);
    device != "" && device == s.mbim && m.Some? && device in m.value.mbim
  }

  /** The interface that `MBIMDisconnect` clears; "" is none. */
  function CleanupIface(s: Selection, selected: Modem): string {
    if (s.net == "" || s.net !in selected.net) && selected.net != [] then selected.net[0] else s.net
  }

  /** It belongs to the selected modem exactly if that modem has an interface, or none is selected
      and so none is cleared. */
  lemma {:induction false} CleanupOwned(s: Selection, selected: Modem)
    ensures CleanupIface(s, selected) == "" || CleanupIface(s, selected) in selected.net
      <==> selected.net != [] || s.net == ""
    ensures s.net in selected.net && s.net != "" ==> CleanupIface(s, selected) == s.net
  {
  }
}
