// Target-port resolution for backends picked by the load balancer, and validation of endpoints
// named by a caller, over the same endpoint resources.

module Endpoints {
  import opened Common

  datatype Mode = EndpointSliceMode | EndpointMode | BothMode | AutoMode

  datatype Source = Automatic | FromSlices | FromEndpoints

  /** A declared port; a slice may leave the number out. */
  datatype Port = Port(name: Option<string>, number: Option<int>)

  /** An endpoint slice, or a subset of a legacy endpoints object; missing lists count as empty. */
  datatype Group = Group(ports: seq<Port>, addresses: seq<string>)

  datatype ServicePort = ServicePort(name: Option<string>, port: int)

  datatype Cluster = Cluster(
    mode: Mode, services: map<string, seq<ServicePort>>, slices: map<string, seq<Group>>, endpoints: map<string, seq<Group>>)

  datatype Address = Address(ip: string, port: nat)

  datatype BackendRef = BackendRef(namespace: Option<string>, name: string, port: Option<int>)

  function GroupsIn(m: map<string, seq<Group>>, key: string): seq<Group> { if key in m then m[key] else [] }

  function AsU16(n: int): nat { n % 0x1_0000 }

  // ---------- Resolution ----------

  /** First port of that name that carries a number. */
  function NamedPort(ports: seq<Port>, name: string): Option<nat> {
    if ports == [] then None
    else if ports[0].name == Some(name) && ports[0].number.Some? then Some(AsU16(ports[0].number.value))
    else NamedPort(ports[1..], name)
  }

  function FindNamed(groups: seq<Group>, name: string): Option<nat> {
    if groups == [] then None
    else
      match NamedPort(groups[0].ports, name)
      case Some(p) => Some(p)
      case None => FindNamed(groups[1..], name)
  }

  function ServicePortFor(ports: seq<ServicePort>, port: int): Option<ServicePort> {
    if ports == [] then None else if ports[0].port == port then Some(ports[0]) else ServicePortFor(ports[1..], port)
  }

  /** The port name a backend reference stands for, when the service has several ports. */
  function PortName(c: Cluster, refPort: Option<int>, key: string): Option<string> {
    if refPort.None? || key !in c.services || |c.services[key]| <= 1 then None
    else
      match ServicePortFor(c.services[key], refPort.value)
      case None => None
      case Some(p) => if p.name == Some("") then None else p.name
  }

  function UsesSlices(c: Cluster, source: Source): bool {
    match source case FromSlices => true case FromEndpoints => false case Automatic => !c.mode.EndpointMode?
  }

  function Groups(c: Cluster, source: Source, key: string): seq<Group> {
    if UsesSlices(c, source) then GroupsIn(c.slices, key) else GroupsIn(c.endpoints, key)
  }

  function ResolveTargetPort(c: Cluster, addr: Address, refPort: Option<int>, key: string, source: Source): Address {
    match PortName(c, refPort, key)
    case None => addr
    case Some(name) =>
      match FindNamed(Groups(c, source, key), name)
      case None => addr
      case Some(p) => addr.(port := p)
  }

  /** The in-place form: the address is rewritten only if its port differs. */
  class BackendAddress {
    var address: Address

    constructor (a: Address)
      ensures address == a
    {
      address := a;
    }

    method Resolve(c: Cluster, refPort: Option<int>, key: string, source: Source)
      modifies this
      ensures address == ResolveTargetPort(c, old(address), refPort, key, source)
    {
      var name := PortName(c, refPort, key);
      if name.None? {
        return;
      }
      var groups := Groups(c, source, key);
      var resolved := FindNamed(groups, name.value);
      if resolved.Some? && address.port != resolved.value {
        address := address.(port := resolved.value);
      }
    }
  }

  // ---------- Validation ----------

  predicate Declares(ports: seq<Port>, port: nat) {
    ports != [] && (ports[0].number == Some(port) || Declares(ports[1..], port))
  }

  predicate GroupAccepts(g: Group, ip: string, port: nat) { Declares(g.ports, port) && ip in g.addresses }

  predicate AnyAccepts(groups: seq<Group>, ip: string, port: nat) {
    groups != [] && (GroupAccepts(groups[0], ip, port) || AnyAccepts(groups[1..], ip, port))
  }

  predicate Accepts(c: Cluster, key: string, ip: string, port: nat) {
    match c.mode
    case EndpointMode => AnyAccepts(GroupsIn(c.endpoints, key), ip, port)
    case BothMode => AnyAccepts(GroupsIn(c.slices, key), ip, port) || AnyAccepts(GroupsIn(c.endpoints, key), ip, port)
    case _ => AnyAccepts(GroupsIn(c.slices, key), ip, port)
  }

  function ServiceKey(r: BackendRef, routeNamespace: string): string {
    (if r.namespace.Some? then r.namespace.value else routeNamespace) + "/" + r.name
  }

  function EffectivePort(r: BackendRef, targetPort: Option<nat>): Option<nat> {
    if targetPort.Some? then targetPort else if r.port.Some? then Some(AsU16(r.port.value)) else None
  }

  /** Whether this reference lets the endpoint through. */
  predicate RefAccepts(c: Cluster, ip: string, targetPort: Option<nat>, r: BackendRef, routeNamespace: string) {
    var port := EffectivePort(r, targetPort);
    port.Some? && Accepts(c, ServiceKey(r, routeNamespace), ip, port.value)
  }

  /** `validate_endpoint_in_route`, from reference `i` on. */
  function Validate(c: Cluster, ip: string, targetPort: Option<nat>, refs: seq<BackendRef>, routeNamespace: string, i: nat): Option<(nat, nat)>
    requires i <= |refs|
    decreases |refs| - i
  {
    if i == |refs| then None
    else
      var port := EffectivePort(refs[i], targetPort);
      if port.Some? && Accepts(c, ServiceKey(refs[i], routeNamespace), ip, port.value) then Some((i, port.value))
      else Validate(c, ip, targetPort, refs, routeNamespace, i + 1)
  }

  /** The endpoint resources validation looks at. */
  function Considered(c: Cluster, key: string): seq<Group> {
    match c.mode
    case EndpointMode => GroupsIn(c.endpoints, key)
    case BothMode => GroupsIn(c.slices, key) + GroupsIn(c.endpoints, key)
    case _ => GroupsIn(c.slices, key)
  }

  // ---------- What resolution may change ----------

  lemma {:induction false} ServicePortFirst(ports: seq<ServicePort>, port: int)
    ensures match ServicePortFor(ports, port)
      case Some(p) => exists i :: 0 <= i < |ports| && ports[i] == p && p.port == port && forall j :: 0 <= j < i ==> ports[j].port != port
      case None => forall i :: 0 <= i < |ports| ==> ports[i].port != port
  {
    if ports != [] {
      ServicePortFirst(ports[1..], port);
      if ports[0].port == port {
        assert ports[0] == ServicePortFor(ports, port).value;
      } else {
        assert forall i :: 0 < i < |ports| ==> ports[i] == ports[1..][i - 1];
        match ServicePortFor(ports, port)
        case Some(p) =>
          var i :| 0 <= i < |ports| - 1 && ports[1..][i] == p && p.port == port && forall j :: 0 <= j < i ==> ports[1..][j].port != port;
          assert ports[i + 1] == p;
        case None =>
      }
    }
  }

  /** A name is looked up exactly for a service with several ports whose first port of that number has a non-empty name. */
  lemma PortNameIff(c: Cluster, refPort: Option<int>, key: string, name: string)
    ensures PortName(c, refPort, key) == Some(name) <==>
      refPort.Some? && key in c.services && |c.services[key]| > 1 && name != "" &&
      exists i :: 0 <= i < |c.services[key]| && c.services[key][i] == ServicePort(Some(name), refPort.value) &&
        forall j :: 0 <= j < i ==> c.services[key][j].port != refPort.value
  {
    hide ServicePortFor;
    if refPort.Some? && key in c.services {
      ServicePortFirst(c.services[key], refPort.value);
    }
  }

  lemma {:induction false} NamedPortFound(ports: seq<Port>, name: string)
    ensures match NamedPort(ports, name)
      case Some(p) => exists i :: 0 <= i < |ports| && ports[i].name == Some(name) && ports[i].number.Some? && p == AsU16(ports[i].number.value)
      case None => forall i :: 0 <= i < |ports| && ports[i].name == Some(name) ==> ports[i].number.None?
  {
    if ports != [] {
      NamedPortFound(ports[1..], name);
      match NamedPort(ports, name)
      case Some(p) =>
        if ports[0].name == Some(name) && ports[0].number.Some? {
          assert p == AsU16(ports[0].number.value);
        } else {
          var i :| 0 <= i < |ports| - 1 && ports[1..][i].name == Some(name) && ports[1..][i].number.Some? && p == AsU16(ports[1..][i].number.value);
          assert ports[i + 1] == ports[1..][i];
        }
      case None =>
        forall i | 0 <= i < |ports| && ports[i].name == Some(name) ensures ports[i].number.None? {
          assert i > 0 ==> ports[i] == ports[1..][i - 1];
        }
    }
  }

  /** Some group declares this port under this name. */
  ghost predicate DeclaredAs(groups: seq<Group>, name: string, port: nat) {
    exists g, p :: g in groups && p in g.ports && p.name == Some(name) && p.number.Some? && port == AsU16(p.number.value)
  }

  lemma {:induction false} FindNamedDeclared(groups: seq<Group>, name: string)
    ensures FindNamed(groups, name).Some? ==> DeclaredAs(groups, name, FindNamed(groups, name).value)
  {
    if groups != [] {
      NamedPortFound(groups[0].ports, name);
      FindNamedDeclared(groups[1..], name);
      if NamedPort(groups[0].ports, name).Some? {
        var i :| 0 <= i < |groups[0].ports| && groups[0].ports[i].name == Some(name) && groups[0].ports[i].number.Some? &&
          NamedPort(groups[0].ports, name).value == AsU16(groups[0].ports[i].number.value);
        assert groups[0] in groups && groups[0].ports[i] in groups[0].ports;
      }
    }
  }

  /** The IP is never touched, and the port only becomes one declared under the name of the matching service port. */
  lemma ResolutionIsNarrow(c: Cluster, addr: Address, refPort: Option<int>, key: string, source: Source)
    ensures var r := ResolveTargetPort(c, addr, refPort, key, source);
      r.ip == addr.ip &&
      (r.port != addr.port ==>
        PortName(c, refPort, key).Some? && DeclaredAs(Groups(c, source, key), PortName(c, refPort, key).value, r.port))
  {
    if PortName(c, refPort, key).Some? {
      FindNamedDeclared(Groups(c, source, key), PortName(c, refPort, key).value);
    }
  }

  // ---------- Resolved endpoints are accepted ----------

  lemma {:induction false} DeclaresIff(ports: seq<Port>, port: nat)
    ensures Declares(ports, port) <==> exists p :: p in ports && p.number == Some(port)
  {
    if ports != [] {
      DeclaresIff(ports[1..], port);
      assert ports == [ports[0]] + ports[1..];
    }
  }

  lemma {:induction false} AnyAcceptsIff(groups: seq<Group>, ip: string, port: nat)
    ensures AnyAccepts(groups, ip, port) <==> exists g :: g in groups && GroupAccepts(g, ip, port)
  {
    hide GroupAccepts;
    if groups != [] {
      AnyAcceptsIff(groups[1..], ip, port);
      assert groups == [groups[0]] + groups[1..];
    }
  }

  /** An endpoint is accepted exactly when one of the considered groups lists its address and declares its port. */
  lemma AcceptsIff(c: Cluster, key: string, ip: string, port: nat)
    ensures Accepts(c, key, ip, port) <==>
      exists g, p :: g in Considered(c, key) && ip in g.addresses && p in g.ports && p.number == Some(port)
  {
    AnyAcceptsIff(GroupsIn(c.slices, key), ip, port);
    AnyAcceptsIff(GroupsIn(c.endpoints, key), ip, port);
    forall g: Group ensures GroupAccepts(g, ip, port) <==> ip in g.addresses && exists p :: p in g.ports && p.number == Some(port) {
      DeclaresIff(g.ports, port);
    }
  }

  /** All groups declare the same ports, and every number fits 16 bits. */
  ghost predicate Uniform(groups: seq<Group>) {
    (forall g, h :: g in groups && h in groups ==> g.ports == h.ports) &&
    (forall g, p :: g in groups && p in g.ports && p.number.Some? ==> 0 <= p.number.value < 0x1_0000)
  }

  /** The address is one of the groups': an address and a declared port of the same group. */
  ghost predicate CameFrom(groups: seq<Group>, a: Address) {
    exists g :: g in groups && GroupAccepts(g, a.ip, a.port)
  }

  /** Resolution groups are among those validation considers. */
  lemma OwnGroupAccepts(c: Cluster, key: string, a: Address)
    requires CameFrom(Groups(c, Automatic, key), a)
    ensures Accepts(c, key, a.ip, a.port)
  {
    AnyAcceptsIff(Groups(c, Automatic, key), a.ip, a.port);
  }

  /** An address picked from the groups is accepted after its port has been resolved exactly when resolution leaves
      it alone, or some considered group lists its IP and declares the number that the port's name stands for. */
  lemma ResolvedAcceptedIff(c: Cluster, addr: Address, refPort: Option<int>, key: string)
    requires CameFrom(Groups(c, Automatic, key), addr)
    ensures var r := ResolveTargetPort(c, addr, refPort, key, Automatic);
      var name := PortName(c, refPort, key);
      Accepts(c, key, r.ip, r.port) <==>
        name.None? || FindNamed(Groups(c, Automatic, key), name.value) in {None, Some(addr.port)} ||
        exists g, p :: g in Considered(c, key) && addr.ip in g.addresses && p in g.ports &&
          p.number.Some? && FindNamed(Groups(c, Automatic, key), name.value) == Some(p.number.value)
  {
    hide Accepts, PortName, FindNamed, CameFrom, Considered;
    var r := ResolveTargetPort(c, addr, refPort, key, Automatic);
    OwnGroupAccepts(c, key, addr);
    AcceptsIff(c, key, r.ip, r.port);
  }

  /** With uniform groups, an address picked from them is accepted after its port has been resolved. */
  lemma ResolvedIsAccepted(c: Cluster, addr: Address, refPort: Option<int>, key: string)
    requires Uniform(Groups(c, Automatic, key)) && CameFrom(Groups(c, Automatic, key), addr)
    ensures var r := ResolveTargetPort(c, addr, refPort, key, Automatic); Accepts(c, key, r.ip, r.port)
  {
    var groups := Groups(c, Automatic, key);
    var r := ResolveTargetPort(c, addr, refPort, key, Automatic);
    ResolutionIsNarrow(c, addr, refPort, key, Automatic);
    var g :| g in groups && GroupAccepts(g, addr.ip, addr.port);
    if r.port != addr.port {
      var h, p :| h in groups && p in h.ports && p.name == PortName(c, refPort, key) && p.number.Some? && r.port == AsU16(p.number.value);
      assert p in g.ports && p.number == Some(r.port);
      DeclaresIff(g.ports, r.port);
    }
    assert GroupAccepts(g, r.ip, r.port);
    AnyAcceptsIff(groups, r.ip, r.port);
  }

  /** Without uniform groups it may be refused: another slice's port does not serve this address. */
  lemma MixedSlicesRefused()
    ensures exists c: Cluster, a: Address, key: string ::
      CameFrom(Groups(c, Automatic, key), a) && !Accepts(c, key, a.ip, ResolveTargetPort(c, a, Some(2), key, Automatic).port)
  {
    var web, admin := Port(Some("web"), Some(80)), Port(Some("admin"), Some(90));
    var first, second := Group([admin], ["b"]), Group([web], ["a"]);
    var c := Cluster(AutoMode, map["k" := [ServicePort(Some("web"), 1), ServicePort(Some("admin"), 2)]],
                     map["k" := [first, second]], map[]);
    var a := Address("a", 80);
    assert Groups(c, Automatic, "k")[1] == second && GroupAccepts(second, "a", 80);
    assert c.services["k"][1..] == [ServicePort(Some("admin"), 2)];
    assert PortName(c, Some(2), "k") == Some("admin");
    assert ResolveTargetPort(c, a, Some(2), "k", Automatic).port == 90;
    AnyAcceptsIff([first, second], "a", 90);
    DeclaresIff([web], 90);
  }

  // ---------- Routes ----------

  /** The least reference that accepts, with its effective port; an error only if none does. */
  lemma {:induction false} ValidateLeast(c: Cluster, ip: string, targetPort: Option<nat>, refs: seq<BackendRef>, routeNamespace: string, i: nat)
    requires i <= |refs|
    ensures match Validate(c, ip, targetPort, refs, routeNamespace, i)
      case Some((k, port)) =>
        i <= k < |refs| && RefAccepts(c, ip, targetPort, refs[k], routeNamespace) && EffectivePort(refs[k], targetPort) == Some(port) &&
        forall j :: i <= j < k ==> !RefAccepts(c, ip, targetPort, refs[j], routeNamespace)
      case None => forall j :: i <= j < |refs| ==> !RefAccepts(c, ip, targetPort, refs[j], routeNamespace)
    decreases |refs| - i
  {
    if i < |refs| {
      ValidateLeast(c, ip, targetPort, refs, routeNamespace, i + 1);
    }
  }

  /** A resolved backend of reference `k` passes the route's validation, at `k` or before. */
  lemma ResolvedPassesRoute(c: Cluster, addr: Address, refs: seq<BackendRef>, routeNamespace: string, k: nat)
    requires k < |refs|
    requires var groups := Groups(c, Automatic, ServiceKey(refs[k], routeNamespace)); Uniform(groups) && CameFrom(groups, addr)
    ensures var r := ResolveTargetPort(c, addr, refs[k].port, ServiceKey(refs[k], routeNamespace), Automatic);
      var v := Validate(c, r.ip, Some(r.port), refs, routeNamespace, 0); v.Some? && v.value.0 <= k && v.value.1 == r.port
  {
    hide Accepts, Uniform, CameFrom;
    var key := ServiceKey(refs[k], routeNamespace);
    var r := ResolveTargetPort(c, addr, refs[k].port, key, Automatic);
    ResolvedIsAccepted(c, addr, refs[k].port, key);
    assert RefAccepts(c, r.ip, Some(r.port), refs[k], routeNamespace);
    ValidateLeast(c, r.ip, Some(r.port), refs, routeNamespace, 0);
  }
}
