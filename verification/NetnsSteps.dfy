/**
The namespace network manager as a transition system.

A world is the manager's in-memory record next to the kernel. Each operation is a relation
between the world before and after it, with its result; when the kernel is reliable only
refused commands fail, otherwise any command may. `NetnsManager` runs the operations
command by command and meets these relations.
*/
module NetnsSteps {
  import opened Wrappers
  import opened IfaceNames
  import opened Tunnel
  import opened Kernel

  datatype NamespaceNetwork = NamespaceNetwork(
    bridge: IfName,
    prefix: string,
    gateway: Ipv4,
    vni: nat,
    vxlan: Option<IfName>,
    peers: map<string, PeerState>,
    ips: map<string, Ipv4>,
    veths: map<string, IfName>)

  datatype NetnsError = Command | Config
  datatype Outcome = Ok | Err(error: NetnsError)

  type Namespaces = map<string, NamespaceNetwork>

  /** The default namespace uses host networking and is never managed. */
  predicate IsDefault(namespace: string) {
    namespace == "" || namespace == "default"
  }

  /** The text after the last '/', or the whole text if there is none. */
  function PrefixLen(subnet: string): string {
    if subnet == "" then ""
    else if '/' in subnet[1..] then PrefixLen(subnet[1..])
    else if subnet[0] == '/' then subnet[1..]
    else subnet
  }

  /** What follows the last slash is the prefix length, whatever comes before it. */
  lemma {:induction false} PrefixLenIs(network: string, bits: string)
    requires '/' !in bits
    ensures PrefixLen(bits) == bits && PrefixLen(network + "/" + bits) == bits
  {
    var subnet := network + "/" + bits;
    if network == "" {
      assert subnet[1..] == bits;
    } else {
      assert subnet[1..] == network[1..] + "/" + bits;
      assert subnet[|network|] == '/' && subnet[1..][|network| - 1] == '/';
      PrefixLenIs(network[1..], bits);
    }
    assert bits != "" ==> forall c :: c in bits[1..] ==> c in bits;
  }

  datatype World = World(mem: Namespaces, k: KState)

  // ---------- what the operations need and what they leave ----------

  function FreshNetwork(n: string, subnet: string, gateway: Ipv4, vni: nat): NamespaceNetwork {
    NamespaceNetwork(BridgeFor(n), PrefixLen(subnet), gateway, vni, None, map[], map[], map[])
  }

  function BridgeSpace(n: string, prefix: string, gateway: Ipv4): Space {
    Space(map[Loopback := Link({IsUp}, EMPTY), BridgeFor(n) := Link({Address(gateway, prefix), IsUp}, EMPTY)],
          Some(gateway))
  }

  /** What the set-up commands need: no such network namespace, no bridge left on the host. */
  predicate BridgeFree(k: KState, n: string, prefix: string) {
    n !in k.spaces && BridgeFor(n) !in k.host && ValidPrefix(prefix)
  }

  predicate Creatable(k: KState, n: string, subnet: string, gateway: Option<Ipv4>) {
    gateway.Some? && BridgeFree(k, n, PrefixLen(subnet))
  }

  predicate VethFree(k: KState, n: string, svc: string) {
    && HasLink(k, n, BridgeFor(n))
    && VethHost(Short(svc)) !in k.host && VethContainer(Short(svc)) !in k.host
    && VethHost(Short(svc)) !in k.spaces[n].links && VethContainer(Short(svc)) !in k.spaces[n].links
  }

  function WithService(ns: NamespaceNetwork, svc: string, ip: Ipv4): NamespaceNetwork {
    ns.(ips := ns.ips[svc := ip], veths := ns.veths[svc := VethHost(Short(svc))])
  }

  function WithoutService(ns: NamespaceNetwork, svc: string): NamespaceNetwork {
    ns.(ips := ns.ips - {svc}, veths := ns.veths - {svc})
  }

  function VethLinks(links: map<IfName, Link>, bridge: IfName, svc: string, ip: Ipv4): map<IfName, Link> {
    links[VethHost(Short(svc)) := Link({Master(bridge), IsUp}, EMPTY)]
         [VethContainer(Short(svc)) := Link({Address(ip, "24"), IsUp, HardwareAddress(MacFor(ip))}, EMPTY)]
  }

  function WithVeth(k: KState, n: string, svc: string, ip: Ipv4): KState
    requires n in k.spaces
  {
    InSpace(k, n, k.spaces[n].(links := VethLinks(k.spaces[n].links, BridgeFor(n), svc, ip)))
  }

  predicate TunnelFree(k: KState, n: string, vni: nat) {
    && HasLink(k, n, BridgeFor(n))
    && VxlanFor(n) !in k.host && VxlanFor(n) !in k.spaces[n].links
    && vni < VNI_SIZE
  }

  function VxlanLink(n: string, vni: nat, local: Ipv4): Link {
    Link({VxlanConfig(vni, local, VXLAN_PORT), Master(BridgeFor(n)), IsUp}, EMPTY)
  }

  function WithVxlan(k: KState, n: string, vni: nat, local: Ipv4): (k': KState)
    requires n in k.spaces
    ensures HasLink(k', n, VxlanFor(n)) && TablesOf(k', n, VxlanFor(n)) == EMPTY
  {
    WithLink(k, n, VxlanFor(n), VxlanLink(n, vni, local))
  }

  function Listed(mem: Namespaces, active: seq<string>): Namespaces {
    map n | n in mem && n in active :: mem[n]
  }

  /** One command whose result the manager ignores. */
  ghost predicate Attempted(k: KState, c: Cmd, k': KState, reliable: bool) {
    if Effect(k, c).Some? then k' == Effect(k, c).value || (!reliable && k' == k) else k' == k
  }

  // ---------- the commands of the set-up chains ----------

  function BridgeCmds(n: string): seq<Cmd> {
    [LinkAdd(BridgeFor(n), {}), LinkMove(BridgeFor(n), n)]
  }

  function ConfigureCmds(n: string, prefix: string, gateway: Ipv4): seq<Cmd> {
    [LinkSet(n, BridgeFor(n), Address(gateway, prefix)), LinkSet(n, BridgeFor(n), IsUp),
     LinkSet(n, Loopback, IsUp), RouteAdd(n, gateway)]
  }

  function VethHostCmds(n: string, svc: string): seq<Cmd> {
    var host := VethHost(Short(svc));
    [VethAdd(host, VethContainer(Short(svc))), LinkMove(host, n), LinkSet(n, host, Master(BridgeFor(n))),
     LinkSet(n, host, IsUp)]
  }

  function VethContainerCmds(n: string, svc: string, ip: Ipv4): seq<Cmd> {
    var container := VethContainer(Short(svc));
    [LinkMove(container, n), LinkSet(n, container, Address(ip, "24")), LinkSet(n, container, IsUp),
     LinkSet(n, container, HardwareAddress(MacFor(ip)))]
  }

  function VethCmds(n: string, svc: string, ip: Ipv4): seq<Cmd> {
    VethHostCmds(n, svc) + VethContainerCmds(n, svc, ip)
  }

  function VxlanCmds(n: string, vni: nat, local: Ipv4): seq<Cmd> {
    var dev := VxlanFor(n);
    [LinkAdd(dev, {VxlanConfig(vni, local, VXLAN_PORT)}), LinkMove(dev, n), LinkSet(n, dev, Master(BridgeFor(n))),
     LinkSet(n, dev, IsUp)]
  }

  // ---------- the operations ----------

  datatype Op =
    | EnsureNamespace(n: string, subnet: string, gateway: Option<Ipv4>, vni: nat)
    | AddService(n: string, svc: string, ip: Ipv4)
    | RemoveService(n: string, svc: string)
    | DestroyNamespace(n: string)
    | EnsureTunnel(n: string, vni: nat, local: Ipv4, peers: seq<PeerInfo>)
    | RemoveTunnel(n: string)
    | GcNamespaces(active: seq<string>)

  /** A failed set-up that got as far as adding the network namespace leaves it behind. */
  ghost predicate EnsureStep(w: World, n: string, subnet: string, gateway: Option<Ipv4>, vni: nat,
                             r: Outcome, w': World, reliable: bool)
  {
    if IsDefault(n) || n in w.mem then r == Ok && w' == w
    else if gateway.None? then r == Err(Config) && w' == w
    else if r.Ok? then
      && Creatable(w.k, n, subnet, gateway)
      && w'.mem == w.mem[n := FreshNetwork(n, subnet, gateway.value, vni)]
      && w'.k == InSpace(w.k, n, BridgeSpace(n, PrefixLen(subnet), gateway.value))
    else
      && r == Err(Command) && w'.mem == w.mem && !(reliable && Creatable(w.k, n, subnet, gateway))
      && Extends(w.k, w'.k, n) && Frame(w.k, w'.k, n, {BridgeFor(n)})
      && (w'.k == w.k || n in w'.k.spaces)
      && (reliable ==> n in w'.k.spaces)
  }

  ghost predicate AddStep(w: World, n: string, svc: string, ip: Ipv4, r: Outcome, w': World, reliable: bool) {
    if IsDefault(n) || n !in w.mem then r == Err(Config) && w' == w
    else if svc in w.mem[n].veths then r == Ok && w' == w
    else if r.Ok? then
      && VethFree(w.k, n, svc)
      && w'.mem == w.mem[n := WithService(w.mem[n], svc, ip)]
      && w'.k == WithVeth(w.k, n, svc, ip)
    else
      && r == Err(Command) && w'.mem == w.mem && !(reliable && VethFree(w.k, n, svc))
      && Extends(w.k, w'.k, n) && Frame(w.k, w'.k, n, {VethHost(Short(svc)), VethContainer(Short(svc))})
      && Stopped(w.k, VethCmds(n, svc, ip), w'.k, reliable)
  }

  ghost predicate RemoveStep(w: World, n: string, svc: string, w': World, reliable: bool) {
    if IsDefault(n) || n !in w.mem || svc !in w.mem[n].veths then w' == w
    else
      && w'.mem == w.mem[n := WithoutService(w.mem[n], svc)]
      && Attempted(w.k, LinkDel(n, VethHost(Short(svc))), w'.k, reliable)
  }

  ghost predicate DestroyStep(w: World, n: string, w': World, reliable: bool) {
    if IsDefault(n) || n !in w.mem then w' == w
    else w'.mem == w.mem - {n} && Attempted(w.k, NetnsDel(n), w'.k, reliable)
  }

  function WithTunnel(ns: NamespaceNetwork, n: string, peers: seq<PeerInfo>): NamespaceNetwork {
    ns.(vxlan := Some(VxlanFor(n)), peers := Recorded(peers))
  }

  /** The kernel once the VXLAN device exists. */
  function DeviceReady(w: World, n: string, vni: nat, local: Ipv4): KState
    requires n in w.mem && n in w.k.spaces
  {
    if w.mem[n].vxlan.Some? then w.k else WithVxlan(w.k, n, vni, local)
  }

  /** The diff changes the tables of one device, to exactly the closed form when every command
      goes through and otherwise to something between. */
  ghost predicate TablesStep(k: KState, n: string, recorded: map<string, PeerState>, peers: seq<PeerInfo>,
                             k': KState, reliable: bool)
  {
    var dev := VxlanFor(n);
    && HasLink(k, n, dev) && HasLink(k', n, dev)
    && k' == WithTables(k, n, dev, TablesOf(k', n, dev))
    && Between(TablesOf(k, n, dev), Departed(recorded, peers), States(peers), TablesOf(k', n, dev))
    && (reliable ==> TablesOf(k', n, dev) == Updated(TablesOf(k, n, dev), Departed(recorded, peers), States(peers)))
  }

  ghost predicate TunnelStep(w: World, n: string, vni: nat, local: Ipv4, peers: seq<PeerInfo>,
                             r: Outcome, w': World, reliable: bool)
  {
    if IsDefault(n) then r == Ok && w' == w
    else if n !in w.mem then r == Err(Config) && w' == w
    else if r.Ok? then
      && n in w.k.spaces
      && (w.mem[n].vxlan.None? ==> TunnelFree(w.k, n, vni))
      && w'.mem == w.mem[n := WithTunnel(w.mem[n], n, peers)]
      && TablesStep(DeviceReady(w, n, vni, local), n, w.mem[n].peers, peers, w'.k, reliable)
    else
      && r == Err(Command) && w.mem[n].vxlan.None? && w'.mem == w.mem && !(reliable && TunnelFree(w.k, n, vni))
      && Extends(w.k, w'.k, n) && Frame(w.k, w'.k, n, {VxlanFor(n)})
      && Stopped(w.k, VxlanCmds(n, vni, local), w'.k, reliable)
  }

  ghost predicate UntunnelStep(w: World, n: string, w': World, reliable: bool) {
    if IsDefault(n) || n !in w.mem || w.mem[n].vxlan.None? then w' == w
    else
      && w'.mem == w.mem[n := w.mem[n].(vxlan := None, peers := map[])]
      && Attempted(w.k, LinkDel(n, w.mem[n].vxlan.value), w'.k, reliable)
  }

  ghost predicate GcStep(w: World, active: seq<string>, w': World, reliable: bool) {
    && w'.mem == Listed(w.mem, active)
    && w'.k.host == w.k.host
    && (forall m :: m in w'.k.spaces ==> m in w.k.spaces && w'.k.spaces[m] == w.k.spaces[m])
    && (forall m :: m in w.k.spaces && (m !in w.mem || m in active) ==> m in w'.k.spaces)
    && (reliable ==> forall m :: m in w'.k.spaces ==> m !in w.mem || m in active)
  }

  ghost predicate Step(w: World, op: Op, r: Outcome, w': World, reliable: bool) {
    match op
    case EnsureNamespace(n, subnet, gateway, vni) => EnsureStep(w, n, subnet, gateway, vni, r, w', reliable)
    case AddService(n, svc, ip) => AddStep(w, n, svc, ip, r, w', reliable)
    case RemoveService(n, svc) => r == Ok && RemoveStep(w, n, svc, w', reliable)
    case DestroyNamespace(n) => r == Ok && DestroyStep(w, n, w', reliable)
    case EnsureTunnel(n, vni, local, peers) => TunnelStep(w, n, vni, local, peers, r, w', reliable)
    case RemoveTunnel(n) => r == Ok && UntunnelStep(w, n, w', reliable)
    case GcNamespaces(active) => r == Ok && GcStep(w, active, w', reliable)
  }
}
