/**
The DesiredState message: what the agent does to its namespace networks when the server sends
the namespaces, services and remote peers that should exist.
*/
module DesiredState {
  import opened Wrappers
  import opened IfaceNames
  import opened Tunnel
  import opened Kernel
  import opened NetnsSteps
  import opened NetnsInvariants
  import opened NetnsExact

  /** Addresses are given as the result of parsing their text; `ip` is also None when empty. */
  datatype ServiceSpec = ServiceSpec(name: string, namespace: string, ip: Option<Ipv4>)
  datatype RemotePeer = RemotePeer(nodeId: string, endpoint: Option<Ipv4>, services: seq<(string, Option<Ipv4>)>)
  datatype NetworkConfig = NetworkConfig(namespace: string, subnet: string, gateway: Option<Ipv4>, vni: nat,
                                         remotePeers: seq<RemotePeer>)
  datatype Message = Message(networks: seq<NetworkConfig>, services: seq<ServiceSpec>)

  type Desired = map<string, ServiceSpec>

  // ---------- the operations a message performs ----------

  function EnsureOps(networks: seq<NetworkConfig>): seq<Op> {
    if networks == [] then []
    else
      var c := networks[|networks| - 1];
      EnsureOps(networks[..|networks| - 1]) + [EnsureNamespace(c.namespace, c.subnet, c.gateway, c.vni)]
  }

  predicate Networked(s: ServiceSpec) {
    !IsDefault(s.namespace) && s.ip.Some?
  }

  function AddOps(services: seq<ServiceSpec>): seq<Op> {
    if services == [] then []
    else
      var s := services[|services| - 1];
      AddOps(services[..|services| - 1]) + if Networked(s) then [AddService(s.namespace, s.name, s.ip.value)] else []
  }

  function Names(services: seq<ServiceSpec>): set<string> {
    set s | s in services :: s.name
  }

  function RemoveOps(previous: seq<ServiceSpec>, names: set<string>): seq<Op> {
    if previous == [] then []
    else
      var s := previous[|previous| - 1];
      RemoveOps(previous[..|previous| - 1], names)
      + if s.name in names then [] else [RemoveService(s.namespace, s.name)]
  }

  /** Remote services and peers whose addresses do not parse are left out. */
  function ParsedServices(services: seq<(string, Option<Ipv4>)>): seq<(string, Ipv4)> {
    if services == [] then []
    else
      var s := services[|services| - 1];
      ParsedServices(services[..|services| - 1]) + if s.1.Some? then [(s.0, s.1.value)] else []
  }

  function ParsedPeers(peers: seq<RemotePeer>): seq<PeerInfo> {
    if peers == [] then []
    else
      var p := peers[|peers| - 1];
      ParsedPeers(peers[..|peers| - 1]) +
      if p.endpoint.Some? then [PeerInfo(p.nodeId, PeerState(p.endpoint.value, ParsedServices(p.services)))] else []
  }

  /** Exactly the services whose address parses are passed on. */
  lemma {:induction false} ParsedServicesAre(services: seq<(string, Option<Ipv4>)>, name: string, ip: Ipv4)
    ensures (name, ip) in ParsedServices(services) <==> (name, Some(ip)) in services
  {
    if services != [] {
      var front, s := services[..|services| - 1], services[|services| - 1];
      assert services == front + [s];
      ParsedServicesAre(front, name, ip);
    }
  }

  /** The peer a remote peer with a parsed endpoint is passed on as. */
  predicate PassedAs(p: RemotePeer, q: PeerInfo) {
    && q.nodeId == p.nodeId && p.endpoint == Some(q.state.endpoint)
    && q.state.services == ParsedServices(p.services)
  }

  /** Exactly the peers whose endpoint parses are passed on. */
  lemma {:induction false} ParsedPeersAre(peers: seq<RemotePeer>, q: PeerInfo)
    ensures q in ParsedPeers(peers) <==> exists p :: p in peers && PassedAs(p, q)
  {
    if peers != [] {
      var front, p := peers[..|peers| - 1], peers[|peers| - 1];
      assert peers == front + [p];
      ParsedPeersAre(front, q);
      assert p in peers;
      if q in ParsedPeers(front) {
        var o :| o in front && PassedAs(o, q);
        assert o in peers;
      }
    }
  }

  function TunnelOpFor(c: NetworkConfig, local: Ipv4): Op {
    if c.remotePeers == [] then RemoveTunnel(c.namespace)
    else EnsureTunnel(c.namespace, c.vni, local, ParsedPeers(c.remotePeers))
  }

  function TunnelOps(networks: seq<NetworkConfig>, local: Ipv4): seq<Op> {
    if networks == [] then []
    else TunnelOps(networks[..|networks| - 1], local) + [TunnelOpFor(networks[|networks| - 1], local)]
  }

  function ActiveNames(networks: seq<NetworkConfig>): seq<string> {
    if networks == [] then []
    else ActiveNames(networks[..|networks| - 1]) + [networks[|networks| - 1].namespace]
  }

  /** Everything a message does, given an enumeration of the services desired before. */
  function Script(msg: Message, previous: seq<ServiceSpec>, local: Ipv4): seq<Op> {
    EnsureOps(msg.networks) + AddOps(msg.services) + RemoveOps(previous, Names(msg.services))
    + TunnelOps(msg.networks, local) + [GcNamespaces(ActiveNames(msg.networks))]
  }

  /** The new desired services: a later entry of the same name replaces an earlier one. */
  function DesiredOf(services: seq<ServiceSpec>): (m: Desired)
    ensures m.Keys == Names(services)
    ensures forall name :: name in m ==> m[name].name == name && m[name] in services
  {
    if services == [] then map[]
    else
      var front, s := services[..|services| - 1], services[|services| - 1];
      assert services == front + [s];
      DesiredOf(front)[s.name := s]
  }

  /** The last entry given for a name is the one desired. */
  lemma {:induction false} DesiredLast(services: seq<ServiceSpec>, i: nat)
    requires i < |services| && forall j :: i < j < |services| ==> services[j].name != services[i].name
    ensures services[i].name in DesiredOf(services) && DesiredOf(services)[services[i].name] == services[i]
  {
    if i < |services| - 1 {
      DesiredLast(services[..|services| - 1], i);
    }
  }

  /** The previously desired services outside the default namespace, in any order. */
  ghost predicate Enumerates(previous: seq<ServiceSpec>, desired: Desired) {
    forall s :: s in previous <==> s in desired.Values && !IsDefault(s.namespace)
  }

  // ---------- phase by phase ----------

  lemma {:induction false} MemAllConcat(mem: Namespaces, a: seq<Op>, b: seq<Op>)
    ensures MemAll(mem, a + b) == MemAll(MemAll(mem, a), b)
  {
    if b == [] {
      assert a + b == a;
    } else {
      assert (a + b)[..|a + b| - 1] == a + b[..|b| - 1];
      MemAllConcat(mem, a, b[..|b| - 1]);
    }
  }

  lemma MemAllSnoc(mem: Namespaces, a: seq<Op>, op: Op)
    ensures MemAll(mem, a + [op]) == MemOp(MemAll(mem, a), op)
  {
    assert (a + [op])[..|a|] == a;
  }

  /** Namespaces of the message that can be created. */
  function Openable(networks: seq<NetworkConfig>): set<string> {
    set c | c in networks && !IsDefault(c.namespace) && c.gateway.Some? :: c.namespace
  }

  function Active(networks: seq<NetworkConfig>): set<string> {
    set c | c in networks :: c.namespace
  }

  ghost predicate Bare(ns: NamespaceNetwork) {
    ns.veths == map[] && ns.ips == map[] && ns.vxlan == None && ns.peers == map[]
  }

  /** The namespaces a message opens, each as its first usable configuration says. */
  function Fresh(networks: seq<NetworkConfig>): (m: Namespaces)
    ensures m.Keys == Openable(networks)
    ensures forall n :: n in m ==> Bare(m[n])
  {
    if networks == [] then map[]
    else
      var front, c := networks[..|networks| - 1], networks[|networks| - 1];
      assert networks == front + [c];
      if IsDefault(c.namespace) || c.gateway.None? then Fresh(front)
      else map[c.namespace := FreshNetwork(c.namespace, c.subnet, c.gateway.value, c.vni)] + Fresh(front)
  }

  lemma FreshStep(m: Namespaces, added: Namespaces, mem: Namespaces, n: string, ns: NamespaceNetwork)
    requires m == added + mem
    ensures n in m ==> (map[n := ns] + added) + mem == m
    ensures n !in m ==> (map[n := ns] + added) + mem == m[n := ns]
  {
  }

  /** Opening namespaces adds fresh ones and changes none that exists. */
  lemma {:induction false} EnsurePhase(mem: Namespaces, networks: seq<NetworkConfig>)
    ensures MemAll(mem, EnsureOps(networks)) == Fresh(networks) + mem
  {
    if networks != [] {
      var front, c := networks[..|networks| - 1], networks[|networks| - 1];
      EnsurePhase(mem, front);
      MemAllSnoc(mem, EnsureOps(front), EnsureNamespace(c.namespace, c.subnet, c.gateway, c.vni));
      if !IsDefault(c.namespace) && c.gateway.Some? {
        FreshStep(MemAll(mem, EnsureOps(front)), Fresh(front), mem, c.namespace,
                  FreshNetwork(c.namespace, c.subnet, c.gateway.value, c.vni));
      }
    } else {
      assert map[] + mem == mem;
    }
  }

  /** Networked services of a namespace. */
  function Candidates(services: seq<ServiceSpec>, n: string): set<string> {
    set s | s in services && s.namespace == n && s.ip.Some? :: s.name
  }

  ghost predicate NonDefault(mem: Namespaces) {
    forall n :: n in mem ==> !IsDefault(n)
  }

  ghost predicate SameTunnel(a: NamespaceNetwork, b: NamespaceNetwork) {
    a.vxlan == b.vxlan && a.peers == b.peers
  }

  /** Nothing but the services differs. */
  ghost predicate SameButServices(a: NamespaceNetwork, b: NamespaceNetwork) {
    a.(ips := b.ips, veths := b.veths) == b
  }

  /** The part of a namespace that only its set-up decides. */
  ghost predicate SameConfig(a: NamespaceNetwork, b: NamespaceNetwork) {
    a.bridge == b.bridge && a.prefix == b.prefix && a.gateway == b.gateway && a.vni == b.vni
  }

  /** Addresses and veths are recorded for the same services, and no peers without a device. */
  ghost predicate Coherent(ns: NamespaceNetwork) {
    ns.ips.Keys == ns.veths.Keys && (ns.vxlan.None? ==> ns.peers == map[])
  }

  /** The address each networked service of a namespace is given: the first one listed for it. */
  function Addresses(services: seq<ServiceSpec>, n: string): (m: map<string, Ipv4>)
    ensures m.Keys == Candidates(services, n)
  {
    if services == [] then map[]
    else
      var front, s := services[..|services| - 1], services[|services| - 1];
      assert services == front + [s];
      if s.namespace == n && s.ip.Some? then map[s.name := s.ip.value] + Addresses(front, n) else Addresses(front, n)
  }

  /** One namespace after some services were added to it: what it had keeps its address. */
  ghost predicate Joined(ns: NamespaceNetwork, added: map<string, Ipv4>, ns': NamespaceNetwork) {
    SameButServices(ns', ns) && ns'.ips == added + ns.ips && ns'.veths.Keys == ns'.ips.Keys
  }

  lemma JoinedStep(ns: NamespaceNetwork, added: map<string, Ipv4>, ns': NamespaceNetwork, svc: string, ip: Ipv4)
    ensures Joined(ns, added, ns') && svc in ns'.veths ==> Joined(ns, map[svc := ip] + added, ns')
    ensures Joined(ns, added, ns') && svc !in ns'.veths ==>
              Joined(ns, map[svc := ip] + added, WithService(ns', svc, ip))
  {
  }

  lemma AddOpEffect(m: Namespaces, s: ServiceSpec, n: string)
    requires NonDefault(m) && Networked(s)
    ensures var m' := MemOp(m, AddService(s.namespace, s.name, s.ip.value));
            && m'.Keys == m.Keys
            && (n in m ==> m'[n] == if s.namespace != n || s.name in m[n].veths then m[n]
                                    else WithService(m[n], s.name, s.ip.value))
  {
  }

  lemma RemoveOpEffect(m: Namespaces, s: ServiceSpec, n: string)
    requires NonDefault(m)
    ensures var m' := MemOp(m, RemoveService(s.namespace, s.name));
            && m'.Keys == m.Keys
            && (n in m ==> m'[n] == if s.namespace != n || s.name !in m[n].veths then m[n]
                                    else WithoutService(m[n], s.name))
  {
  }

  lemma {:induction false} AddPhase(mem: Namespaces, services: seq<ServiceSpec>, n: string)
    requires NonDefault(mem) && (n in mem ==> Coherent(mem[n]))
    ensures var m := MemAll(mem, AddOps(services));
            m.Keys == mem.Keys && (n in mem ==> Joined(mem[n], Addresses(services, n), m[n]))
  {
    if services != [] {
      var front, s := services[..|services| - 1], services[|services| - 1];
      AddPhase(mem, front, n);
      if Networked(s) {
        MemAllSnoc(mem, AddOps(front), AddService(s.namespace, s.name, s.ip.value));
        AddOpEffect(MemAll(mem, AddOps(front)), s, n);
        if n in mem {
          JoinedStep(mem[n], Addresses(front, n), MemAll(mem, AddOps(front))[n], s.name, s.ip.value);
        }
      } else {
        assert AddOps(services) == AddOps(front);
      }
    } else {
      assert n in mem ==> map[] + mem[n].ips == mem[n].ips;
    }
  }

  function Gone(previous: seq<ServiceSpec>, names: set<string>, n: string): set<string> {
    set s | s in previous && s.namespace == n && s.name !in names :: s.name
  }

  lemma GoneSnoc(front: seq<ServiceSpec>, s: ServiceSpec, names: set<string>, n: string)
    ensures Gone(front + [s], names, n) ==
            Gone(front, names, n) + if s.namespace == n && s.name !in names then {s.name} else {}
  {
  }

  /** One namespace after some services were removed from it. */
  ghost predicate Left(ns: NamespaceNetwork, services: set<string>, ns': NamespaceNetwork) {
    SameButServices(ns', ns) && ns'.ips == ns.ips - services && ns'.veths.Keys == ns'.ips.Keys
  }

  lemma LeftStep(ns: NamespaceNetwork, services: set<string>, ns': NamespaceNetwork, svc: string)
    ensures Left(ns, services, ns') && svc !in ns'.veths ==> Left(ns, services + {svc}, ns')
    ensures Left(ns, services, ns') ==> Left(ns, services + {svc}, WithoutService(ns', svc))
  {
  }

  lemma {:induction false} RemovePhase(mem: Namespaces, previous: seq<ServiceSpec>, names: set<string>, n: string)
    requires NonDefault(mem) && (n in mem ==> Coherent(mem[n]))
    ensures var m := MemAll(mem, RemoveOps(previous, names));
            m.Keys == mem.Keys && (n in mem ==> Left(mem[n], Gone(previous, names, n), m[n]))
  {
    if previous != [] {
      var front, s := previous[..|previous| - 1], previous[|previous| - 1];
      RemovePhase(mem, front, names, n);
      assert previous == front + [s];
      GoneSnoc(front, s, names, n);
      if s.name in names {
        assert RemoveOps(previous, names) == RemoveOps(front, names);
      } else {
        MemAllSnoc(mem, RemoveOps(front, names), RemoveService(s.namespace, s.name));
        RemoveOpEffect(MemAll(mem, RemoveOps(front, names)), s, n);
        if n in mem {
          LeftStep(mem[n], Gone(front, names, n), MemAll(mem, RemoveOps(front, names))[n], s.name);
        }
      }
    }
  }

  /** The tunnel a message asks for in a namespace: the last configuration given for it. */
  ghost predicate TunnelAsAsked(ns: NamespaceNetwork, n: string, networks: seq<NetworkConfig>) {
    if networks == [] then true
    else
      var c := networks[|networks| - 1];
      if c.namespace != n then TunnelAsAsked(ns, n, networks[..|networks| - 1])
      else if c.remotePeers == [] then ns.vxlan == None && ns.peers == map[]
      else ns.vxlan == Some(VxlanFor(n)) && ns.peers == Recorded(ParsedPeers(c.remotePeers))
  }

  function Tunnelled(ns: NamespaceNetwork, c: NetworkConfig): NamespaceNetwork {
    if c.remotePeers == [] then ns.(vxlan := None, peers := map[])
    else WithTunnel(ns, c.namespace, ParsedPeers(c.remotePeers))
  }

  lemma TunnelOpEffect(m: Namespaces, c: NetworkConfig, local: Ipv4, n: string)
    requires NonDefault(m) && (n in m ==> Coherent(m[n]))
    ensures MemOp(m, TunnelOpFor(c, local)).Keys == m.Keys
    ensures n in m ==> MemOp(m, TunnelOpFor(c, local))[n] == if c.namespace == n then Tunnelled(m[n], c) else m[n]
  {
  }

  lemma {:induction false} TunnelPhase(mem: Namespaces, networks: seq<NetworkConfig>, local: Ipv4, n: string)
    requires NonDefault(mem) && (n in mem ==> Coherent(mem[n]))
    ensures var m := MemAll(mem, TunnelOps(networks, local));
            m.Keys == mem.Keys &&
            (n in mem ==>
               && m[n].(vxlan := mem[n].vxlan, peers := mem[n].peers) == mem[n]
               && Coherent(m[n])
               && TunnelAsAsked(m[n], n, networks))
  {
    if networks != [] {
      var front, c := networks[..|networks| - 1], networks[|networks| - 1];
      TunnelPhase(mem, front, local, n);
      MemAllSnoc(mem, TunnelOps(front, local), TunnelOpFor(c, local));
      TunnelOpEffect(MemAll(mem, TunnelOps(front, local)), c, local, n);
    }
  }

  lemma {:induction false} ActiveNamesAre(networks: seq<NetworkConfig>)
    ensures forall n :: n in ActiveNames(networks) <==> n in Active(networks)
  {
    if networks != [] {
      var front, c := networks[..|networks| - 1], networks[|networks| - 1];
      ActiveNamesAre(front);
      assert networks == front + [c];
    }
  }

  // ---------- the whole message ----------

  function MessageMem(mem: Namespaces, msg: Message, previous: seq<ServiceSpec>, local: Ipv4): Namespaces {
    MemAll(mem, Script(msg, previous, local))
  }

  lemma ScriptPhases(mem: Namespaces, msg: Message, previous: seq<ServiceSpec>, local: Ipv4)
    ensures var m1 := MemAll(mem, EnsureOps(msg.networks));
            var m2 := MemAll(m1, AddOps(msg.services));
            var m3 := MemAll(m2, RemoveOps(previous, Names(msg.services)));
            var m4 := MemAll(m3, TunnelOps(msg.networks, local));
            MessageMem(mem, msg, previous, local) == Listed(m4, ActiveNames(msg.networks))
  {
    var e, a := EnsureOps(msg.networks), AddOps(msg.services);
    var r, t := RemoveOps(previous, Names(msg.services)), TunnelOps(msg.networks, local);
    MemAllConcat(mem, e, a);
    MemAllConcat(mem, e + a, r);
    MemAllConcat(mem, e + a + r, t);
    MemAllSnoc(mem, e + a + r + t, GcNamespaces(ActiveNames(msg.networks)));
  }

  function IpsOf(mem: Namespaces, n: string): map<string, Ipv4> {
    if n in mem then mem[n].ips else map[]
  }

  function ServicesOf(mem: Namespaces, n: string): set<string> {
    if n in mem then mem[n].veths.Keys else {}
  }

  /** The record before tunnels are updated and namespaces collected. */
  function BeforeTunnels(mem: Namespaces, msg: Message, previous: seq<ServiceSpec>): Namespaces {
    MemAll(MemAll(MemAll(mem, EnsureOps(msg.networks)), AddOps(msg.services)), RemoveOps(previous, Names(msg.services)))
  }

  lemma ServicePhases(mem: Namespaces, msg: Message, previous: seq<ServiceSpec>, n: string)
    requires NonDefault(mem) && (n in mem ==> Coherent(mem[n]))
    ensures var m := BeforeTunnels(mem, msg, previous);
            && NonDefault(m) && m.Keys == mem.Keys + Openable(msg.networks)
            && (n in m ==>
                  && m[n].ips == (Addresses(msg.services, n) + IpsOf(mem, n)) - Gone(previous, Names(msg.services), n)
                  && Coherent(m[n]) && SameButServices(m[n], (Fresh(msg.networks) + mem)[n]))
  {
    var m1 := MemAll(mem, EnsureOps(msg.networks));
    EnsurePhase(mem, msg.networks);
    assert NonDefault(m1) && (n in m1 ==> Coherent(m1[n]));
    AddPhase(m1, msg.services, n);
    RemovePhase(MemAll(m1, AddOps(msg.services)), previous, Names(msg.services), n);
  }

  /** What a message leaves in the record, namespace by namespace. */
  lemma MessageEffect(mem: Namespaces, msg: Message, previous: seq<ServiceSpec>, local: Ipv4, n: string)
    requires NonDefault(mem) && (n in mem ==> Coherent(mem[n]))
    ensures var m := MessageMem(mem, msg, previous, local);
            && (n in m <==> n in mem.Keys + Openable(msg.networks) && n in Active(msg.networks))
            && (n in m ==>
                  && m[n].ips == (Addresses(msg.services, n) + IpsOf(mem, n)) - Gone(previous, Names(msg.services), n)
                  && Coherent(m[n]) && TunnelAsAsked(m[n], n, msg.networks)
                  && SameConfig(m[n], (Fresh(msg.networks) + mem)[n]))
  {
    ScriptPhases(mem, msg, previous, local);
    ServicePhases(mem, msg, previous, n);
    TunnelPhase(BeforeTunnels(mem, msg, previous), msg.networks, local, n);
    ActiveNamesAre(msg.networks);
  }

  /** Namespaces managed after a message: those it lists that were managed already or whose
      gateway it gives, the default namespace never among them. */
  lemma ManagedAfter(mem: Namespaces, msg: Message, previous: seq<ServiceSpec>, local: Ipv4)
    requires NonDefault(mem) && forall n :: n in mem ==> Coherent(mem[n])
    ensures var m := MessageMem(mem, msg, previous, local);
            && m.Keys == (mem.Keys + Openable(msg.networks)) * Active(msg.networks)
            && NonDefault(m) && forall n :: n in m ==> Coherent(m[n])
  {
    var m := MessageMem(mem, msg, previous, local);
    forall n
      ensures n in m <==> n in (mem.Keys + Openable(msg.networks)) * Active(msg.networks)
      ensures n in m ==> Coherent(m[n])
    {
      MessageEffect(mem, msg, previous, local, n);
    }
  }

  // ---------- configurations ----------

  predicate Configured(ns: NamespaceNetwork, c: NetworkConfig) {
    ns.prefix == PrefixLen(c.subnet) && Some(ns.gateway) == c.gateway && ns.vni == c.vni
  }

  predicate UniqueNamespaces(networks: seq<NetworkConfig>) {
    forall i, j :: 0 <= i < j < |networks| ==> networks[i].namespace != networks[j].namespace
  }

  lemma {:induction false} FreshIsConfigured(networks: seq<NetworkConfig>, c: NetworkConfig)
    requires UniqueNamespaces(networks) && c in networks && c.gateway.Some? && !IsDefault(c.namespace)
    ensures c.namespace in Fresh(networks) && Configured(Fresh(networks)[c.namespace], c)
  {
    var front, last := networks[..|networks| - 1], networks[|networks| - 1];
    assert networks == front + [last];
    var i :| 0 <= i < |networks| && networks[i] == c;
    if i < |front| {
      assert front[i] == c;
      FreshIsConfigured(front, c);
    } else {
      assert c.namespace !in Openable(front);
    }
  }

  /** With unique namespaces, a managed namespace has the subnet prefix, gateway and network identifier
      of the message if and only if it is new or had them already: a change is never applied. */
  lemma ConfigAppliedIff(mem: Namespaces, msg: Message, previous: seq<ServiceSpec>, local: Ipv4, c: NetworkConfig)
    requires NonDefault(mem) && (c.namespace in mem ==> Coherent(mem[c.namespace]))
    requires UniqueNamespaces(msg.networks) && c in msg.networks && c.gateway.Some?
    requires c.namespace in MessageMem(mem, msg, previous, local)
    ensures var n, m := c.namespace, MessageMem(mem, msg, previous, local);
            Configured(m[n], c) <==> n !in mem || Configured(mem[n], c)
  {
    MessageEffect(mem, msg, previous, local, c.namespace);
    FreshIsConfigured(msg.networks, c);
  }

  // ---------- services ----------

  /** The services a namespace should have. */
  function Wanted(desired: Desired, n: string): set<string> {
    set name | name in desired && desired[name].namespace == n && desired[name].ip.Some? :: name
  }

  ghost predicate Tracks(mem: Namespaces, desired: Desired) {
    forall n :: n in mem ==> mem[n].veths.Keys == Wanted(desired, n)
  }

  ghost predicate KeyedByName(desired: Desired) {
    forall name :: name in desired ==> desired[name].name == name
  }

  predicate UniqueNames(services: seq<ServiceSpec>) {
    forall i, j :: 0 <= i < j < |services| ==> services[i].name != services[j].name
  }

  lemma {:induction false} DesiredUnique(services: seq<ServiceSpec>, s: ServiceSpec)
    requires UniqueNames(services) && s in services
    ensures DesiredOf(services)[s.name] == s
  {
    var front, last := services[..|services| - 1], services[|services| - 1];
    assert services == front + [last];
    if s != last {
      var i :| 0 <= i < |services| && services[i] == s;
      assert front[i] == s && s.name != last.name;
      DesiredUnique(front, s);
    }
  }

  lemma WantedAreCandidates(services: seq<ServiceSpec>, n: string)
    requires UniqueNames(services)
    ensures Wanted(DesiredOf(services), n) == Candidates(services, n)
  {
    forall s | s in services
      ensures DesiredOf(services)[s.name] == s
    {
      DesiredUnique(services, s);
    }
  }

  /** The service keeps its namespace and an address wherever its old namespace stays managed. */
  ghost predicate Settled(mem: Namespaces, desired: Desired, m: Namespaces, s: ServiceSpec) {
    s.name in desired && desired[s.name].ip.Some? && desired[s.name].namespace in mem && desired[s.name].namespace in m
    ==> s.namespace == desired[s.name].namespace && s.ip.Some?
  }

  lemma GoneAre(previous: seq<ServiceSpec>, desired: Desired, names: set<string>, n: string)
    requires Enumerates(previous, desired) && KeyedByName(desired) && !IsDefault(n)
    ensures Gone(previous, names, n) == set name | name in desired && desired[name].namespace == n && name !in names
  {
    forall name | name in desired && desired[name].namespace == n && name !in names
      ensures name in Gone(previous, names, n)
    {
      assert desired[name] in desired.Values && desired[name] in previous;
    }
  }

  /** Previously wanted services that the message still names and the namespace still has. */
  function Survivors(mem: Namespaces, desired: Desired, msg: Message, n: string): set<string> {
    if n in mem then Wanted(desired, n) * Names(msg.services) else {}
  }

  lemma ServicesLeft(mem: Namespaces, desired: Desired, msg: Message, previous: seq<ServiceSpec>, local: Ipv4,
                     n: string)
    requires NonDefault(mem) && (n in mem ==> Coherent(mem[n]))
    requires KeyedByName(desired) && Enumerates(previous, desired) && Tracks(mem, desired)
    requires n in MessageMem(mem, msg, previous, local)
    ensures MessageMem(mem, msg, previous, local)[n].veths.Keys ==
            Candidates(msg.services, n) + Survivors(mem, desired, msg, n)
  {
    MessageEffect(mem, msg, previous, local, n);
    assert !IsDefault(n);
    GoneAre(previous, desired, Names(msg.services), n);
    assert Candidates(msg.services, n) <= Names(msg.services);
  }

  ghost predicate AllSettled(mem: Namespaces, desired: Desired, m: Namespaces, msg: Message, n: string) {
    forall s :: s in msg.services && s.name in desired && desired[s.name].namespace == n ==>
      Settled(mem, desired, m, s)
  }

  lemma SurvivorsSettled(mem: Namespaces, desired: Desired, m: Namespaces, msg: Message, n: string)
    requires UniqueNames(msg.services) && n in m
    ensures Survivors(mem, desired, msg, n) <= Candidates(msg.services, n) <==> AllSettled(mem, desired, m, msg, n)
  {
    if AllSettled(mem, desired, m, msg, n) {
      forall name | name in Survivors(mem, desired, msg, n)
        ensures name in Candidates(msg.services, n)
      {
        var s :| s in msg.services && s.name == name;
        assert Settled(mem, desired, m, s);
      }
    } else {
      var s :| s in msg.services && s.name in desired && desired[s.name].namespace == n && !Settled(mem, desired, m, s);
      assert s.name in Survivors(mem, desired, msg, n);
      OnlySpec(msg.services, s, n);
    }
  }

  lemma NamespaceConverges(mem: Namespaces, desired: Desired, msg: Message, previous: seq<ServiceSpec>, local: Ipv4,
                           n: string)
    requires NonDefault(mem) && (n in mem ==> Coherent(mem[n]))
    requires KeyedByName(desired) && Enumerates(previous, desired) && Tracks(mem, desired)
    requires UniqueNames(msg.services) && n in MessageMem(mem, msg, previous, local)
    ensures var m := MessageMem(mem, msg, previous, local);
            m[n].veths.Keys == Wanted(DesiredOf(msg.services), n) <==> AllSettled(mem, desired, m, msg, n)
  {
    ServicesLeft(mem, desired, msg, previous, local, n);
    WantedAreCandidates(msg.services, n);
    SurvivorsSettled(mem, desired, MessageMem(mem, msg, previous, local), msg, n);
    UnionIs(Candidates(msg.services, n), Survivors(mem, desired, msg, n));
  }

  lemma UnionIs(a: set<string>, b: set<string>)
    ensures a + b == a <==> b <= a
  {
    assert b <= a + b;
  }

  /** With unique names, a service that is not a candidate under its own spec is none at all. */
  lemma OnlySpec(services: seq<ServiceSpec>, s: ServiceSpec, n: string)
    requires UniqueNames(services) && s in services && !(s.namespace == n && s.ip.Some?)
    ensures s.name !in Candidates(services, n)
  {
    forall t | t in services && t.name == s.name
      ensures t == s
    {
      DesiredUnique(services, s);
      DesiredUnique(services, t);
    }
  }

  /** If every namespace had its desired services before a message with unique service names, then
      it has its newly desired services afterwards if and only if no surviving service of a
      namespace that stays managed moved to another namespace or lost its address. */
  lemma ServicesConverge(mem: Namespaces, desired: Desired, msg: Message, previous: seq<ServiceSpec>, local: Ipv4)
    requires NonDefault(mem) && forall n :: n in mem ==> Coherent(mem[n])
    requires KeyedByName(desired) && Enumerates(previous, desired) && Tracks(mem, desired)
    requires UniqueNames(msg.services)
    ensures var m := MessageMem(mem, msg, previous, local);
            Tracks(m, DesiredOf(msg.services)) <==> forall s :: s in msg.services ==> Settled(mem, desired, m, s)
  {
    var m := MessageMem(mem, msg, previous, local);
    forall n | n in m
      ensures m[n].veths.Keys == Wanted(DesiredOf(msg.services), n) <==> AllSettled(mem, desired, m, msg, n)
    {
      NamespaceConverges(mem, desired, msg, previous, local, n);
    }
  }

  // ---------- addresses ----------

  /** A surviving service whose address changes keeps the old one. */
  lemma AddressIsNeverUpdated(mem: Namespaces, msg: Message, previous: seq<ServiceSpec>, local: Ipv4, n: string,
                              svc: string)
    requires NonDefault(mem) && n in mem && Coherent(mem[n]) && svc in mem[n].veths
    requires n in Active(msg.networks) && svc in Names(msg.services)
    ensures var m := MessageMem(mem, msg, previous, local);
            n in m && svc in m[n].ips && m[n].ips[svc] == mem[n].ips[svc]
  {
    MessageEffect(mem, msg, previous, local, n);
  }

  lemma {:induction false} AddressIfUnique(services: seq<ServiceSpec>, s: ServiceSpec, n: string)
    requires UniqueNames(services) && s in services && s.namespace == n && s.ip.Some?
    ensures s.name in Addresses(services, n) && Addresses(services, n)[s.name] == s.ip.value
  {
    var front, last := services[..|services| - 1], services[|services| - 1];
    assert services == front + [last];
    var i :| 0 <= i < |services| && services[i] == s;
    if i < |front| {
      assert front[i] == s;
      AddressIfUnique(front, s, n);
    } else {
      assert s.name !in Candidates(front, n);
    }
  }

  /** With unique names, the recorded address of a networked service is the one of the message if and
      only if the service is new to its namespace or had that address already. */
  lemma AddressAgreesIff(mem: Namespaces, msg: Message, previous: seq<ServiceSpec>, local: Ipv4, s: ServiceSpec)
    requires NonDefault(mem) && (s.namespace in mem ==> Coherent(mem[s.namespace]))
    requires UniqueNames(msg.services) && s in msg.services && s.ip.Some?
    requires s.namespace in MessageMem(mem, msg, previous, local)
    ensures var n, m := s.namespace, MessageMem(mem, msg, previous, local);
            s.name in m[n].ips &&
            (m[n].ips[s.name] == s.ip.value <==>
             n !in mem || s.name !in mem[n].veths || mem[n].ips[s.name] == s.ip.value)
  {
    MessageEffect(mem, msg, previous, local, s.namespace);
    AddressIfUnique(msg.services, s, s.namespace);
    assert s.name in Names(msg.services);
  }

  /** The addresses the services of a namespace should have. */
  function WantedIps(desired: Desired, n: string): map<string, Ipv4> {
    map name | name in Wanted(desired, n) :: desired[name].ip.value
  }

  ghost predicate TracksAddresses(mem: Namespaces, desired: Desired) {
    forall n :: n in mem ==> mem[n].ips == WantedIps(desired, n)
  }

  lemma WantedAreAddresses(services: seq<ServiceSpec>, n: string)
    requires UniqueNames(services)
    ensures WantedIps(DesiredOf(services), n) == Addresses(services, n)
  {
    WantedAreCandidates(services, n);
    forall name | name in Wanted(DesiredOf(services), n)
      ensures DesiredOf(services)[name].ip.value == Addresses(services, n)[name]
    {
      AddressIfUnique(services, DesiredOf(services)[name], n);
    }
  }

  function SurvivorIps(mem: Namespaces, desired: Desired, msg: Message, n: string): map<string, Ipv4> {
    map name | name in Survivors(mem, desired, msg, n) :: desired[name].ip.value
  }

  lemma AddressesLeft(mem: Namespaces, desired: Desired, msg: Message, previous: seq<ServiceSpec>, local: Ipv4,
                      n: string)
    requires NonDefault(mem) && (n in mem ==> Coherent(mem[n]))
    requires KeyedByName(desired) && Enumerates(previous, desired) && TracksAddresses(mem, desired)
    requires n in MessageMem(mem, msg, previous, local)
    ensures MessageMem(mem, msg, previous, local)[n].ips ==
            Addresses(msg.services, n) + SurvivorIps(mem, desired, msg, n)
  {
    MessageEffect(mem, msg, previous, local, n);
    GoneAre(previous, desired, Names(msg.services), n);
    assert Candidates(msg.services, n) <= Names(msg.services);
    SurvivorsAre(mem, desired, msg, Gone(previous, Names(msg.services), n), n);
    KeptAddresses(Addresses(msg.services, n), IpsOf(mem, n), Gone(previous, Names(msg.services), n),
                  SurvivorIps(mem, desired, msg, n));
  }

  lemma SurvivorsAre(mem: Namespaces, desired: Desired, msg: Message, gone: set<string>, n: string)
    requires gone == set name | name in desired && desired[name].namespace == n && name !in Names(msg.services)
    requires n in mem ==> mem[n].ips == WantedIps(desired, n)
    ensures SurvivorIps(mem, desired, msg, n) == IpsOf(mem, n) - gone
  {
  }

  lemma KeptAddresses(added: map<string, Ipv4>, had: map<string, Ipv4>, gone: set<string>, kept: map<string, Ipv4>)
    requires added.Keys !! gone && kept == had - gone
    ensures (added + had) - gone == added + kept
  {
  }

  /** The service keeps its namespace and its address wherever its old namespace stays managed. */
  ghost predicate Unmoved(mem: Namespaces, desired: Desired, m: Namespaces, s: ServiceSpec) {
    s.name in desired && desired[s.name].ip.Some? && desired[s.name].namespace in mem && desired[s.name].namespace in m
    ==> s.namespace == desired[s.name].namespace && s.ip == desired[s.name].ip
  }

  ghost predicate AllUnmoved(mem: Namespaces, desired: Desired, m: Namespaces, msg: Message, n: string) {
    forall s :: s in msg.services && s.name in desired && desired[s.name].namespace == n ==>
      Unmoved(mem, desired, m, s)
  }

  ghost predicate Within(a: map<string, Ipv4>, b: map<string, Ipv4>) {
    forall k :: k in a ==> k in b && b[k] == a[k]
  }

  lemma OverrideIs(a: map<string, Ipv4>, b: map<string, Ipv4>)
    ensures a + b == a <==> Within(b, a)
  {
    if a + b == a {
      assert forall k :: k in b ==> k in a + b && (a + b)[k] == b[k];
    }
  }

  lemma SurvivorsUnmoved(mem: Namespaces, desired: Desired, m: Namespaces, msg: Message, n: string)
    requires UniqueNames(msg.services) && n in m
    ensures Within(SurvivorIps(mem, desired, msg, n), Addresses(msg.services, n)) <==>
            AllUnmoved(mem, desired, m, msg, n)
  {
    if AllUnmoved(mem, desired, m, msg, n) {
      forall name | name in Survivors(mem, desired, msg, n)
        ensures name in Addresses(msg.services, n) && Addresses(msg.services, n)[name] == desired[name].ip.value
      {
        var s :| s in msg.services && s.name == name;
        assert Unmoved(mem, desired, m, s);
        AddressIfUnique(msg.services, s, n);
      }
    } else {
      var s :| s in msg.services && s.name in desired && desired[s.name].namespace == n && !Unmoved(mem, desired, m, s);
      assert s.name in SurvivorIps(mem, desired, msg, n);
      if s.namespace == n && s.ip.Some? {
        AddressIfUnique(msg.services, s, n);
      } else {
        OnlySpec(msg.services, s, n);
      }
    }
  }

  lemma NamespaceAddressesConverge(mem: Namespaces, desired: Desired, msg: Message, previous: seq<ServiceSpec>,
                                   local: Ipv4, n: string)
    requires NonDefault(mem) && (n in mem ==> Coherent(mem[n]))
    requires KeyedByName(desired) && Enumerates(previous, desired) && TracksAddresses(mem, desired)
    requires UniqueNames(msg.services) && n in MessageMem(mem, msg, previous, local)
    ensures var m := MessageMem(mem, msg, previous, local);
            m[n].ips == WantedIps(DesiredOf(msg.services), n) <==> AllUnmoved(mem, desired, m, msg, n)
  {
    AddressesLeft(mem, desired, msg, previous, local, n);
    WantedAreAddresses(msg.services, n);
    SurvivorsUnmoved(mem, desired, MessageMem(mem, msg, previous, local), msg, n);
    OverrideIs(Addresses(msg.services, n), SurvivorIps(mem, desired, msg, n));
  }

  /** If every namespace had its desired services with their desired addresses before a message with
      unique service names, then it has the newly desired ones afterwards if and only if no surviving
      service of a namespace that stays managed changed its namespace or its address. */
  lemma AddressesConverge(mem: Namespaces, desired: Desired, msg: Message, previous: seq<ServiceSpec>, local: Ipv4)
    requires NonDefault(mem) && forall n :: n in mem ==> Coherent(mem[n])
    requires KeyedByName(desired) && Enumerates(previous, desired) && TracksAddresses(mem, desired)
    requires UniqueNames(msg.services)
    ensures var m := MessageMem(mem, msg, previous, local);
            TracksAddresses(m, DesiredOf(msg.services)) <==>
            forall s :: s in msg.services ==> Unmoved(mem, desired, m, s)
  {
    var m := MessageMem(mem, msg, previous, local);
    forall n | n in m
      ensures m[n].ips == WantedIps(DesiredOf(msg.services), n) <==> AllUnmoved(mem, desired, m, msg, n)
    {
      NamespaceAddressesConverge(mem, desired, msg, previous, local, n);
    }
  }

  // ---------- applying a message again ----------

  lemma {:induction false} AddNothing(m: Namespaces, services: seq<ServiceSpec>)
    requires forall s :: s in services && Networked(s) && s.namespace in m ==> s.name in m[s.namespace].veths
    ensures MemAll(m, AddOps(services)) == m
  {
    if services != [] {
      var front, s := services[..|services| - 1], services[|services| - 1];
      assert services == front + [s];
      AddNothing(m, front);
      if Networked(s) {
        MemAllSnoc(m, AddOps(front), AddService(s.namespace, s.name, s.ip.value));
      } else {
        assert AddOps(services) == AddOps(front);
      }
    }
  }

  lemma {:induction false} RemoveNothing(previous: seq<ServiceSpec>, names: set<string>)
    requires forall s :: s in previous ==> s.name in names
    ensures RemoveOps(previous, names) == []
  {
    if previous != [] {
      var front, s := previous[..|previous| - 1], previous[|previous| - 1];
      assert previous == front + [s];
      RemoveNothing(front, names);
    }
  }

  lemma {:induction false} AskedIsUnique(a: NamespaceNetwork, b: NamespaceNetwork, n: string,
                                         networks: seq<NetworkConfig>)
    requires n in Active(networks) && TunnelAsAsked(a, n, networks) && TunnelAsAsked(b, n, networks)
    ensures SameTunnel(a, b)
  {
    var front, c := networks[..|networks| - 1], networks[|networks| - 1];
    assert networks == front + [c];
    if c.namespace != n {
      AskedIsUnique(a, b, n, front);
    }
  }

  /** A record that already agrees with a message. */
  ghost predicate Settles(m: Namespaces, msg: Message) {
    && NonDefault(m)
    && Openable(msg.networks) <= m.Keys <= Active(msg.networks)
    && (forall n :: n in m ==> Coherent(m[n]) && TunnelAsAsked(m[n], n, msg.networks))
    && (forall s :: s in msg.services && Networked(s) && s.namespace in m ==> s.name in m[s.namespace].veths)
  }

  lemma MessageSettles(mem: Namespaces, msg: Message, previous: seq<ServiceSpec>, local: Ipv4)
    requires NonDefault(mem) && forall n :: n in mem ==> Coherent(mem[n])
    ensures Settles(MessageMem(mem, msg, previous, local), msg)
  {
    var m := MessageMem(mem, msg, previous, local);
    ManagedAfter(mem, msg, previous, local);
    forall n | n in m
      ensures TunnelAsAsked(m[n], n, msg.networks)
    {
      MessageEffect(mem, msg, previous, local, n);
    }
    forall s | s in msg.services && Networked(s) && s.namespace in m
      ensures s.name in m[s.namespace].veths
    {
      MessageEffect(mem, msg, previous, local, s.namespace);
      assert s.name in Names(msg.services);
    }
  }

  lemma TunnelFixed(m: Namespaces, networks: seq<NetworkConfig>, local: Ipv4, n: string)
    requires NonDefault(m) && n in m && n in Active(networks) && Coherent(m[n]) && TunnelAsAsked(m[n], n, networks)
    ensures n in MemAll(m, TunnelOps(networks, local)) && MemAll(m, TunnelOps(networks, local))[n] == m[n]
  {
    TunnelPhase(m, networks, local, n);
    AskedIsUnique(MemAll(m, TunnelOps(networks, local))[n], m[n], n, networks);
  }

  lemma TunnelsFixed(m: Namespaces, networks: seq<NetworkConfig>, local: Ipv4)
    requires NonDefault(m) && m.Keys <= Active(networks)
    requires forall n :: n in m ==> Coherent(m[n]) && TunnelAsAsked(m[n], n, networks)
    ensures MemAll(m, TunnelOps(networks, local)) == m
  {
    var m' := MemAll(m, TunnelOps(networks, local));
    forall n | n in m
      ensures n in m' && m'[n] == m[n]
    {
      TunnelFixed(m, networks, local, n);
    }
    TunnelPhase(m, networks, local, "");
  }

  lemma SettledIsFixed(m: Namespaces, msg: Message, previous: seq<ServiceSpec>, local: Ipv4)
    requires Settles(m, msg) && forall s :: s in previous ==> s.name in Names(msg.services)
    ensures MessageMem(m, msg, previous, local) == m
  {
    ScriptPhases(m, msg, previous, local);
    EnsurePhase(m, msg.networks);
    assert Fresh(msg.networks) + m == m;
    AddNothing(m, msg.services);
    RemoveNothing(previous, Names(msg.services));
    TunnelsFixed(m, msg.networks, local);
    ActiveNamesAre(msg.networks);
    assert Listed(m, ActiveNames(msg.networks)) == m;
  }

  /** Applying the same message again changes nothing in the manager. */
  lemma ReapplyingChangesNothing(mem: Namespaces, msg: Message, previous: seq<ServiceSpec>, again: seq<ServiceSpec>,
                                 local: Ipv4)
    requires NonDefault(mem) && forall n :: n in mem ==> Coherent(mem[n])
    requires Enumerates(again, DesiredOf(msg.services))
    ensures var m := MessageMem(mem, msg, previous, local);
            MessageMem(m, msg, again, local) == m
  {
    MessageSettles(mem, msg, previous, local);
    SettledIsFixed(MessageMem(mem, msg, previous, local), msg, again, local);
  }

  // ---------- runs of messages ----------

  datatype AgentState = AgentState(mem: Namespaces, desired: Desired)

  ghost predicate Delivery(a: AgentState, msg: Message, local: Ipv4, a': AgentState) {
    exists previous :: && Enumerates(previous, a.desired)
                       && a' == AgentState(MessageMem(a.mem, msg, previous, local), DesiredOf(msg.services))
  }

  ghost predicate Consistent(a: AgentState) {
    && NonDefault(a.mem) && (forall n :: n in a.mem ==> Coherent(a.mem[n]))
    && KeyedByName(a.desired) && Tracks(a.mem, a.desired)
  }

  /** A message whose gateways parse, whose service names are unique, and whose surviving services
      keep their namespace and an address. */
  ghost predicate Benign(a: AgentState, msg: Message) {
    && (forall c :: c in msg.networks ==> c.gateway.Some?)
    && UniqueNames(msg.services)
    && (forall s :: s in msg.services && s.name in a.desired && a.desired[s.name].ip.Some? ==>
          s.namespace == a.desired[s.name].namespace && s.ip.Some?)
  }

  lemma BenignIsSettled(a: AgentState, msg: Message, m: Namespaces)
    requires Benign(a, msg)
    ensures forall s :: s in msg.services ==> Settled(a.mem, a.desired, m, s)
  {
  }

  lemma AllOpenable(mem: Namespaces, networks: seq<NetworkConfig>)
    requires NonDefault(mem) && forall c :: c in networks ==> c.gateway.Some?
    ensures (mem.Keys + Openable(networks)) * Active(networks) == Active(networks) - {"", "default"}
  {
  }

  lemma DeliveryKeepsConsistent(a: AgentState, msg: Message, local: Ipv4, a': AgentState)
    requires Consistent(a) && Benign(a, msg) && Delivery(a, msg, local, a')
    ensures Consistent(a')
    ensures a'.mem.Keys == Active(msg.networks) - {"", "default"}
  {
    var previous :| && Enumerates(previous, a.desired)
                    && a' == AgentState(MessageMem(a.mem, msg, previous, local), DesiredOf(msg.services));
    ManagedAfter(a.mem, msg, previous, local);
    AllOpenable(a.mem, msg.networks);
    ServicesConverge(a.mem, a.desired, msg, previous, local);
    BenignIsSettled(a, msg, a'.mem);
  }

  datatype Delivered = Delivered(msg: Message, after: AgentState)

  const FRESH := AgentState(map[], map[])

  function LastState(run: seq<Delivered>): AgentState {
    if run == [] then FRESH else run[|run| - 1].after
  }

  ghost predicate BenignRun(run: seq<Delivered>, local: Ipv4) {
    run == [] ||
    var before, d := run[..|run| - 1], run[|run| - 1];
    && BenignRun(before, local)
    && Benign(LastState(before), d.msg) && Delivery(LastState(before), d.msg, local, d.after)
  }

  /** After any run of such messages: exactly the non-default namespaces of the last message are
      managed, and each has exactly the services desired for it. */
  lemma {:induction false} RunConverges(run: seq<Delivered>, local: Ipv4)
    requires BenignRun(run, local)
    ensures Consistent(LastState(run))
    ensures run != [] ==>
              LastState(run).mem.Keys == Active(run[|run| - 1].msg.networks) - {"", "default"}
  {
    if run != [] {
      var before, d := run[..|run| - 1], run[|run| - 1];
      RunConverges(before, local);
      DeliveryKeepsConsistent(LastState(before), d.msg, local, d.after);
    }
  }

  /** A benign message whose surviving services also keep their address. */
  ghost predicate Steady(a: AgentState, msg: Message) {
    && Benign(a, msg)
    && (forall s :: s in msg.services && s.name in a.desired && a.desired[s.name].ip.Some? ==>
          s.ip == a.desired[s.name].ip)
  }

  lemma SteadyIsUnmoved(a: AgentState, msg: Message, m: Namespaces)
    requires Steady(a, msg)
    ensures forall s :: s in msg.services ==> Unmoved(a.mem, a.desired, m, s)
  {
  }

  lemma DeliveryKeepsAddresses(a: AgentState, msg: Message, local: Ipv4, a': AgentState)
    requires Consistent(a) && TracksAddresses(a.mem, a.desired) && Steady(a, msg) && Delivery(a, msg, local, a')
    ensures TracksAddresses(a'.mem, a'.desired)
  {
    var previous :| && Enumerates(previous, a.desired)
                    && a' == AgentState(MessageMem(a.mem, msg, previous, local), DesiredOf(msg.services));
    AddressesConverge(a.mem, a.desired, msg, previous, local);
    SteadyIsUnmoved(a, msg, a'.mem);
  }

  ghost predicate SteadyRun(run: seq<Delivered>, local: Ipv4) {
    run == [] ||
    var before, d := run[..|run| - 1], run[|run| - 1];
    && SteadyRun(before, local)
    && Steady(LastState(before), d.msg) && Delivery(LastState(before), d.msg, local, d.after)
  }

  /** After any run of messages in which addresses do not change either, each managed namespace has
      exactly its desired services with exactly their desired addresses. */
  lemma {:induction false} RunKeepsAddresses(run: seq<Delivered>, local: Ipv4)
    requires SteadyRun(run, local)
    ensures Consistent(LastState(run)) && TracksAddresses(LastState(run).mem, LastState(run).desired)
  {
    if run != [] {
      var before, d := run[..|run| - 1], run[|run| - 1];
      RunKeepsAddresses(before, local);
      DeliveryKeepsConsistent(LastState(before), d.msg, local, d.after);
      DeliveryKeepsAddresses(LastState(before), d.msg, local, d.after);
    }
  }
}
