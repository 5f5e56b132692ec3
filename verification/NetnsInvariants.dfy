/**
What every operation of the namespace network manager keeps.
*/
module NetnsInvariants {
  import opened Wrappers
  import opened IfaceNames
  import opened Tunnel
  import opened Kernel
  import opened NetnsSteps

  // ---------- what the record means in the kernel ----------

  ghost predicate ServiceWired(ns: NamespaceNetwork, svc: string, links: map<IfName, Link>)
    requires svc in ns.veths && svc in ns.ips
  {
    var host, container := VethHost(Short(svc)), VethContainer(Short(svc));
    && ns.veths[svc] == host
    && host in links && container in links
    && {Master(ns.bridge), IsUp} <= links[host].attrs
    && {Address(ns.ips[svc], "24"), IsUp, HardwareAddress(MacFor(ns.ips[svc]))} <= links[container].attrs
  }

  ghost predicate DistinctShorts(services: set<string>) {
    forall s, t :: s in services && t in services && Short(s) == Short(t) ==> s == t
  }

  ghost predicate ServicesWired(ns: NamespaceNetwork, links: map<IfName, Link>) {
    && ns.ips.Keys == ns.veths.Keys
    && DistinctShorts(ns.veths.Keys)
    && forall svc :: svc in ns.veths ==> ServiceWired(ns, svc, links)
  }

  ghost predicate BridgeWired(n: string, ns: NamespaceNetwork, links: map<IfName, Link>) {
    && ns.bridge == BridgeFor(n) && ns.bridge in links
    && {Address(ns.gateway, ns.prefix), IsUp} <= links[ns.bridge].attrs
  }

  ghost predicate TunnelWired(n: string, ns: NamespaceNetwork, links: map<IfName, Link>) {
    match ns.vxlan
    case None => ns.peers == map[]
    case Some(dev) => dev == VxlanFor(n) && dev in links && {Master(BridgeFor(n)), IsUp} <= links[dev].attrs
  }

  /** Everything recorded for a namespace really is in the kernel. */
  ghost predicate Wired(n: string, ns: NamespaceNetwork, links: map<IfName, Link>) {
    BridgeWired(n, ns, links) && ServicesWired(ns, links) && TunnelWired(n, ns, links)
  }

  /** The invariant of every reachable world, whatever commands have failed. */
  ghost predicate Backed(w: World) {
    forall n :: n in w.mem ==> !IsDefault(n) && n in w.k.spaces && Wired(n, w.mem[n], w.k.spaces[n].links)
  }

  /** An operation on one namespace keeps the others backed. */
  lemma OthersBacked(w: World, w': World, n: string, ns': NamespaceNetwork)
    requires !IsDefault(n) && w'.mem == w.mem[n := ns'] && OnlyTouches(w.k, w'.k, n) && n in w'.k.spaces
    ensures Backed(w) && Wired(n, ns', w'.k.spaces[n].links) ==> Backed(w')
  {
  }

  lemma SameRecordBacked(w: World, w': World, n: string)
    requires Backed(w) && w'.mem == w.mem && Extends(w.k, w'.k, n)
    ensures Backed(w')
  {
    if n in w.mem {
      GrowsKeepsWired(n, w.mem[n], w.k.spaces[n].links, w'.k.spaces[n].links);
    }
  }

  // ---------- one namespace at a time ----------

  lemma ServicesGrow(ns: NamespaceNetwork, links: map<IfName, Link>, ns': NamespaceNetwork, links': map<IfName, Link>)
    requires ServicesWired(ns, links)
    requires ns'.bridge == ns.bridge && ns'.ips == ns.ips && ns'.veths == ns.veths
    requires forall svc :: svc in ns.veths ==>
               && Kept(links, links', VethHost(Short(svc))) && Kept(links, links', VethContainer(Short(svc)))
    ensures ServicesWired(ns', links')
  {
    forall svc | svc in ns'.veths
      ensures ServiceWired(ns', svc, links')
    {
      assert ServiceWired(ns, svc, links);
    }
  }

  ghost predicate Kept(links: map<IfName, Link>, links': map<IfName, Link>, l: IfName) {
    l in links ==> l in links' && links[l].attrs <= links'[l].attrs
  }

  lemma GrowsKeepsWired(n: string, ns: NamespaceNetwork, links: map<IfName, Link>, links': map<IfName, Link>)
    requires Wired(n, ns, links) && Grows(links, links')
    ensures Wired(n, ns, links')
  {
    ServicesGrow(ns, links, ns, links');
  }

  lemma OtherServiceStays(ns: NamespaceNetwork, links: map<IfName, Link>, s: string,
                          ns': NamespaceNetwork, links': map<IfName, Link>)
    requires s in ns.veths && s in ns.ips && ServiceWired(ns, s, links)
    requires s in ns'.veths && s in ns'.ips && ns'.veths[s] == ns.veths[s] && ns'.ips[s] == ns.ips[s]
    requires ns'.bridge == ns.bridge
    requires Kept(links, links', VethHost(Short(s))) && Kept(links, links', VethContainer(Short(s)))
    ensures ServiceWired(ns', s, links')
  {
  }

  lemma KeptOnAdd(links: map<IfName, Link>, bridge: IfName, svc: string, ip: Ipv4, short: string)
    requires short != Short(svc)
    ensures var links' := VethLinks(links, bridge, svc, ip);
            Kept(links, links', VethHost(short)) && Kept(links, links', VethContainer(short))
  {
  }

  lemma KeptOnDelete(links: map<IfName, Link>, deleted: string, links': map<IfName, Link>, short: string)
    requires short != deleted
    requires links' == links || links' == links - DeletedWith(VethHost(deleted))
    ensures Kept(links, links', VethHost(short)) && Kept(links, links', VethContainer(short))
  {
  }

  lemma NewShort(ns: NamespaceNetwork, links: map<IfName, Link>, svc: string)
    requires ServicesWired(ns, links) && svc !in ns.veths && VethHost(Short(svc)) !in links
    ensures DistinctShorts(ns.veths.Keys + {svc})
    ensures forall s :: s in ns.veths ==> Short(s) != Short(svc)
  {
    forall s | s in ns.veths
      ensures Short(s) != Short(svc)
    {
      assert ServiceWired(ns, s, links);
    }
  }

  lemma AddedIsWired(ns: NamespaceNetwork, links: map<IfName, Link>, svc: string, ip: Ipv4)
    requires svc !in ns.veths && VethHost(Short(svc)) !in links && VethContainer(Short(svc)) !in links
    ensures ServicesWired(ns, links) ==> ServicesWired(WithService(ns, svc, ip), VethLinks(links, ns.bridge, svc, ip))
  {
    if ServicesWired(ns, links) {
      var ns', links' := WithService(ns, svc, ip), VethLinks(links, ns.bridge, svc, ip);
      NewShort(ns, links, svc);
      assert ns'.veths.Keys == ns.veths.Keys + {svc};
      NewServiceIsWired(ns, links, svc, ip);
      forall s | s in ns'.veths && s != svc
        ensures ServiceWired(ns', s, links')
      {
        assert ServiceWired(ns, s, links);
        KeptOnAdd(links, ns.bridge, svc, ip, Short(s));
        OtherServiceStays(ns, links, s, ns', links');
      }
    }
  }

  lemma BridgeAndTunnelStay(n: string, ns: NamespaceNetwork, links: map<IfName, Link>, svc: string, ip: Ipv4)
    ensures var ns', links' := WithService(ns, svc, ip), VethLinks(links, ns.bridge, svc, ip);
            && (BridgeWired(n, ns, links) ==> BridgeWired(n, ns', links'))
            && (TunnelWired(n, ns, links) ==> TunnelWired(n, ns', links'))
  {
  }

  lemma WiredWithService(n: string, ns: NamespaceNetwork, links: map<IfName, Link>, svc: string, ip: Ipv4)
    requires svc !in ns.veths && VethHost(Short(svc)) !in links && VethContainer(Short(svc)) !in links
    ensures Wired(n, ns, links) ==> Wired(n, WithService(ns, svc, ip), VethLinks(links, ns.bridge, svc, ip))
  {
    AddedIsWired(ns, links, svc, ip);
    BridgeAndTunnelStay(n, ns, links, svc, ip);
  }

  lemma FreshIsWired(n: string, subnet: string, gateway: Ipv4, vni: nat)
    ensures Wired(n, FreshNetwork(n, subnet, gateway, vni), BridgeSpace(n, PrefixLen(subnet), gateway).links)
  {
  }

  lemma NewServiceIsWired(ns: NamespaceNetwork, links: map<IfName, Link>, svc: string, ip: Ipv4)
    ensures ServiceWired(WithService(ns, svc, ip), svc, VethLinks(links, ns.bridge, svc, ip))
  {
  }

  lemma RemovedIsWired(ns: NamespaceNetwork, links: map<IfName, Link>, svc: string, links': map<IfName, Link>)
    requires ServicesWired(ns, links) && svc in ns.veths
    requires links' == links || links' == links - DeletedWith(VethHost(Short(svc)))
    ensures ServicesWired(WithoutService(ns, svc), links')
  {
    var ns' := WithoutService(ns, svc);
    forall s | s in ns'.veths
      ensures ServiceWired(ns', s, links')
    {
      assert ServiceWired(ns, s, links);
      KeptOnDelete(links, Short(svc), links', Short(s));
      OtherServiceStays(ns, links, s, ns', links');
    }
  }

  lemma WiredWithoutService(n: string, ns: NamespaceNetwork, links: map<IfName, Link>, svc: string,
                            links': map<IfName, Link>)
    requires Wired(n, ns, links) && svc in ns.veths
    requires links' == links || links' == links - DeletedWith(VethHost(Short(svc)))
    ensures Wired(n, WithoutService(ns, svc), links')
  {
    RemovedIsWired(ns, links, svc, links');
  }

  lemma WiredWithoutTunnel(n: string, ns: NamespaceNetwork, links: map<IfName, Link>, links': map<IfName, Link>)
    requires Wired(n, ns, links)
    requires links' == links || links' == links - DeletedWith(VxlanFor(n))
    ensures Wired(n, ns.(vxlan := None, peers := map[]), links')
  {
    ServicesGrow(ns, links, ns.(vxlan := None, peers := map[]), links');
  }

  /** What an attempted deletion of a link leaves. */
  lemma DeletionAttempt(k: KState, n: string, dev: IfName, k': KState, reliable: bool)
    requires n in k.spaces && Attempted(k, LinkDel(n, dev), k', reliable)
    ensures OnlyTouches(k, k', n)
    ensures k'.spaces[n].links == k.spaces[n].links || k'.spaces[n].links == k.spaces[n].links - DeletedWith(dev)
    ensures reliable && dev in k.spaces[n].links ==> k'.spaces[n].links == k.spaces[n].links - DeletedWith(dev)
    ensures k'.host == k.host && k'.spaces[n].defaultRoute == k.spaces[n].defaultRoute
  {
  }

  // ---------- every operation keeps the record backed ----------

  lemma EnsureKeepsBacked(w: World, n: string, subnet: string, gateway: Option<Ipv4>, vni: nat,
                          r: Outcome, w': World, reliable: bool)
    requires EnsureStep(w, n, subnet, gateway, vni, r, w', reliable) && Backed(w)
    ensures Backed(w')
  {
    if w'.mem == w.mem {
      SameRecordBacked(w, w', n);
    } else {
      FreshIsWired(n, subnet, gateway.value, vni);
      OthersBacked(w, w', n, FreshNetwork(n, subnet, gateway.value, vni));
    }
  }

  lemma AddKeepsBacked(w: World, n: string, svc: string, ip: Ipv4, r: Outcome, w': World, reliable: bool)
    requires AddStep(w, n, svc, ip, r, w', reliable) && Backed(w)
    ensures Backed(w')
  {
    if w'.mem == w.mem {
      SameRecordBacked(w, w', n);
    } else {
      WiredWithService(n, w.mem[n], w.k.spaces[n].links, svc, ip);
      OthersBacked(w, w', n, WithService(w.mem[n], svc, ip));
    }
  }

  lemma RemoveKeepsBacked(w: World, n: string, svc: string, w': World, reliable: bool)
    requires RemoveStep(w, n, svc, w', reliable) && Backed(w)
    ensures Backed(w')
  {
    if n in w.mem && svc in w.mem[n].veths {
      var ns' := WithoutService(w.mem[n], svc);
      DeletionAttempt(w.k, n, VethHost(Short(svc)), w'.k, reliable);
      WiredWithoutService(n, w.mem[n], w.k.spaces[n].links, svc, w'.k.spaces[n].links);
      OthersBacked(w, w', n, ns');
    }
  }

  /** Readying the device and setting its tables adds at most the device itself. */
  lemma DeviceLinks(w: World, n: string, vni: nat, local: Ipv4, peers: seq<PeerInfo>, w': World, reliable: bool)
    requires n in w.mem && n in w.k.spaces
    requires TablesStep(DeviceReady(w, n, vni, local), n, w.mem[n].peers, peers, w'.k, reliable)
    ensures OnlyTouches(w.k, w'.k, n)
    ensures VxlanFor(n) in w'.k.spaces[n].links
    ensures w.mem[n].vxlan.None? ==> w'.k.spaces[n].links[VxlanFor(n)].attrs == VxlanLink(n, vni, local).attrs
    ensures w.mem[n].vxlan.Some? ==> w'.k.spaces[n].links[VxlanFor(n)].attrs == w.k.spaces[n].links[VxlanFor(n)].attrs
    ensures forall l :: l in w.k.spaces[n].links && l != VxlanFor(n) ==>
              l in w'.k.spaces[n].links && w'.k.spaces[n].links[l] == w.k.spaces[n].links[l]
    ensures forall l :: l in w'.k.spaces[n].links && l != VxlanFor(n) ==> l in w.k.spaces[n].links
    ensures w'.k.host == w.k.host && w'.k.spaces[n].defaultRoute == w.k.spaces[n].defaultRoute
  {
  }

  /** Exactly when the device carries the identifier and mesh address of an update that succeeds: it
      was created by it, or carried them already. A change is never applied to an existing device. */
  lemma DeviceConfigIff(w: World, n: string, vni: nat, local: Ipv4, peers: seq<PeerInfo>, w': World, reliable: bool)
    requires Backed(w) && n in w.mem && TunnelStep(w, n, vni, local, peers, Ok, w', reliable)
    ensures HasLink(w'.k, n, VxlanFor(n)) && (w.mem[n].vxlan.Some? ==> HasLink(w.k, n, VxlanFor(n)))
    ensures var config := VxlanConfig(vni, local, 4789);
            config in w'.k.spaces[n].links[VxlanFor(n)].attrs <==>
            w.mem[n].vxlan.None? || config in w.k.spaces[n].links[VxlanFor(n)].attrs
  {
    DeviceLinks(w, n, vni, local, peers, w', reliable);
  }

  lemma TunnelKeepsBacked(w: World, n: string, vni: nat, local: Ipv4, peers: seq<PeerInfo>,
                          r: Outcome, w': World, reliable: bool)
    requires TunnelStep(w, n, vni, local, peers, r, w', reliable) && Backed(w)
    ensures Backed(w')
  {
    if w'.mem == w.mem && r.Err? {
      SameRecordBacked(w, w', n);
    } else if n in w.mem {
      var ns, ns', links, links' := w.mem[n], WithTunnel(w.mem[n], n, peers), w.k.spaces[n].links, w'.k.spaces[n].links;
      DeviceLinks(w, n, vni, local, peers, w', reliable);
      ServicesGrow(ns, links, ns', links');
      assert Wired(n, ns', links');
      OthersBacked(w, w', n, ns');
    }
  }

  lemma UntunnelKeepsBacked(w: World, n: string, w': World, reliable: bool)
    requires UntunnelStep(w, n, w', reliable) && Backed(w)
    ensures Backed(w')
  {
    if n in w.mem && w.mem[n].vxlan.Some? {
      var ns' := w.mem[n].(vxlan := None, peers := map[]);
      DeletionAttempt(w.k, n, VxlanFor(n), w'.k, reliable);
      WiredWithoutTunnel(n, w.mem[n], w.k.spaces[n].links, w'.k.spaces[n].links);
      OthersBacked(w, w', n, ns');
    }
  }

  lemma StepKeepsBacked(w: World, op: Op, r: Outcome, w': World, reliable: bool)
    requires Step(w, op, r, w', reliable) && Backed(w)
    ensures Backed(w')
  {
    match op
    case EnsureNamespace(n, subnet, gateway, vni) => EnsureKeepsBacked(w, n, subnet, gateway, vni, r, w', reliable);
    case AddService(n, svc, ip) => AddKeepsBacked(w, n, svc, ip, r, w', reliable);
    case RemoveService(n, svc) => RemoveKeepsBacked(w, n, svc, w', reliable);
    case DestroyNamespace(n) =>
    case EnsureTunnel(n, vni, local, peers) => TunnelKeepsBacked(w, n, vni, local, peers, r, w', reliable);
    case RemoveTunnel(n) => UntunnelKeepsBacked(w, n, w', reliable);
    case GcNamespaces(_) =>
  }

  // ---------- routes ----------

  /** The loopback is up and the default route goes to the recorded gateway. */
  ghost predicate Routed(ns: NamespaceNetwork, space: Space) {
    && Loopback in space.links && IsUp in space.links[Loopback].attrs
    && space.defaultRoute == Some(ns.gateway)
  }

  ghost predicate AllRouted(w: World) {
    forall n :: n in w.mem ==> n in w.k.spaces && Routed(w.mem[n], w.k.spaces[n])
  }

  lemma OthersRouted(w: World, w': World, n: string, ns': NamespaceNetwork)
    requires w'.mem == w.mem[n := ns'] && OnlyTouches(w.k, w'.k, n) && n in w'.k.spaces
    ensures AllRouted(w) && Routed(ns', w'.k.spaces[n]) ==> AllRouted(w')
  {
  }

  lemma SameRecordRouted(w: World, w': World, n: string)
    requires w'.mem == w.mem && Extends(w.k, w'.k, n)
    ensures AllRouted(w) ==> AllRouted(w')
  {
  }

  lemma DeletionKeepsRoute(ns: NamespaceNetwork, space: Space, dev: IfName, space': Space)
    requires dev != Loopback && space'.defaultRoute == space.defaultRoute
    requires space'.links == space.links || space'.links == space.links - DeletedWith(dev)
    ensures Routed(ns, space) ==> Routed(ns, space')
  {
  }

  lemma TunnelKeepsRouted(w: World, n: string, vni: nat, local: Ipv4, peers: seq<PeerInfo>, r: Outcome, w': World,
                          reliable: bool)
    requires TunnelStep(w, n, vni, local, peers, r, w', reliable) && (n in w.mem ==> n in w.k.spaces)
    ensures AllRouted(w) ==> AllRouted(w')
  {
    if !IsDefault(n) && n in w.mem {
      if r.Ok? {
        DeviceLinks(w, n, vni, local, peers, w', reliable);
        OthersRouted(w, w', n, WithTunnel(w.mem[n], n, peers));
      } else {
        SameRecordRouted(w, w', n);
      }
    }
  }

  lemma EnsureKeepsRouted(w: World, n: string, subnet: string, gateway: Option<Ipv4>, vni: nat, r: Outcome, w': World,
                          reliable: bool)
    requires EnsureStep(w, n, subnet, gateway, vni, r, w', reliable)
    ensures AllRouted(w) ==> AllRouted(w')
  {
    if w'.mem == w.mem {
      SameRecordRouted(w, w', n);
    } else {
      OthersRouted(w, w', n, FreshNetwork(n, subnet, gateway.value, vni));
    }
  }

  lemma AddKeepsRouted(w: World, n: string, svc: string, ip: Ipv4, r: Outcome, w': World, reliable: bool)
    requires AddStep(w, n, svc, ip, r, w', reliable)
    ensures AllRouted(w) ==> AllRouted(w')
  {
    if w'.mem == w.mem {
      SameRecordRouted(w, w', n);
    } else {
      OthersRouted(w, w', n, WithService(w.mem[n], svc, ip));
    }
  }

  lemma RemoveKeepsRouted(w: World, n: string, svc: string, w': World, reliable: bool)
    requires RemoveStep(w, n, svc, w', reliable)
    ensures AllRouted(w) ==> AllRouted(w')
  {
    if w' != w && AllRouted(w) {
      DeletionAttempt(w.k, n, VethHost(Short(svc)), w'.k, reliable);
      DeletionKeepsRoute(w.mem[n], w.k.spaces[n], VethHost(Short(svc)), w'.k.spaces[n]);
      OthersRouted(w, w', n, WithoutService(w.mem[n], svc));
    }
  }

  lemma UntunnelKeepsRouted(w: World, n: string, w': World, reliable: bool)
    requires UntunnelStep(w, n, w', reliable)
    requires n in w.mem && w.mem[n].vxlan.Some? ==> w.mem[n].vxlan.value == VxlanFor(n)
    ensures AllRouted(w) ==> AllRouted(w')
  {
    if w' != w && AllRouted(w) {
      DeletionAttempt(w.k, n, VxlanFor(n), w'.k, reliable);
      DeletionKeepsRoute(w.mem[n], w.k.spaces[n], VxlanFor(n), w'.k.spaces[n]);
      OthersRouted(w, w', n, w.mem[n].(vxlan := None, peers := map[]));
    }
  }

  lemma StepKeepsRouted(w: World, op: Op, r: Outcome, w': World, reliable: bool)
    requires Step(w, op, r, w', reliable) && AllRouted(w)
    requires forall n :: n in w.mem && w.mem[n].vxlan.Some? ==> w.mem[n].vxlan.value == VxlanFor(n)
    ensures AllRouted(w')
  {
    match op
    case EnsureNamespace(n, subnet, gateway, vni) => EnsureKeepsRouted(w, n, subnet, gateway, vni, r, w', reliable);
    case AddService(n, svc, ip) => AddKeepsRouted(w, n, svc, ip, r, w', reliable);
    case RemoveService(n, svc) => RemoveKeepsRouted(w, n, svc, w', reliable);
    case EnsureTunnel(n, vni, local, peers) => TunnelKeepsRouted(w, n, vni, local, peers, r, w', reliable);
    case RemoveTunnel(n) => UntunnelKeepsRouted(w, n, w', reliable);
    case DestroyNamespace(_) =>
    case GcNamespaces(_) =>
  }

  /** An operation that reports an error has left the in-memory record exactly as it was. */
  lemma ErrorsAreAtomic(w: World, op: Op, r: Outcome, w': World, reliable: bool)
    requires Step(w, op, r, w', reliable) && r.Err?
    ensures w'.mem == w.mem
  {
  }

  // ---------- orphans ----------

  /** A network namespace the kernel has and the manager does not manage. */
  predicate Orphan(w: World, n: string) {
    n in w.k.spaces && n !in w.mem
  }

  lemma StepKeepsOrphans(w: World, op: Op, r: Outcome, w': World, reliable: bool, n: string)
    requires Step(w, op, r, w', reliable) && Orphan(w, n)
    ensures Orphan(w', n)
    ensures op.EnsureNamespace? && op.n == n && !IsDefault(n) ==> r.Err?
  {
  }

  // ---------- runs ----------

  datatype Event = Event(op: Op, result: Outcome, after: World)

  function Last(start: World, run: seq<Event>): World {
    if run == [] then start else run[|run| - 1].after
  }

  ghost predicate IsRun(start: World, run: seq<Event>, reliable: bool) {
    run == [] ||
    var before, e := run[..|run| - 1], run[|run| - 1];
    IsRun(start, before, reliable) && Step(Last(start, before), e.op, e.result, e.after, reliable)
  }

  /** In every reachable world, including runs where any command fails: the default namespace is
      unmanaged, addresses and veths are recorded for the same services, no tunnel means no peers,
      and everything recorded exists in the kernel as recorded. */
  lemma {:induction false} AlwaysBacked(start: World, run: seq<Event>, reliable: bool)
    requires Backed(start) && IsRun(start, run, reliable)
    ensures Backed(Last(start, run))
    ensures "" !in Last(start, run).mem && "default" !in Last(start, run).mem
  {
    if run != [] {
      var before, e := run[..|run| - 1], run[|run| - 1];
      AlwaysBacked(start, before, reliable);
      StepKeepsBacked(Last(start, before), e.op, e.result, e.after, reliable);
    }
  }

  lemma DevicesNamed(w: World)
    requires Backed(w)
    ensures forall n :: n in w.mem && w.mem[n].vxlan.Some? ==> w.mem[n].vxlan.value == VxlanFor(n)
  {
  }

  /** In every reachable world, including runs where any command fails, every managed namespace has its
      loopback up and its default route at the recorded gateway. */
  lemma {:induction false} AlwaysRouted(start: World, run: seq<Event>, reliable: bool)
    requires Backed(start) && AllRouted(start) && IsRun(start, run, reliable)
    ensures AllRouted(Last(start, run))
  {
    if run != [] {
      var before, e := run[..|run| - 1], run[|run| - 1];
      AlwaysRouted(start, before, reliable);
      AlwaysBacked(start, before, reliable);
      DevicesNamed(Last(start, before));
      StepKeepsRouted(Last(start, before), e.op, e.result, e.after, reliable);
    }
  }

  /** A network namespace the kernel has but the record does not - left by a failed deletion, a
      failed set-up or an earlier run of the agent - is never managed again: every later attempt
      to set it up fails, whatever happens in between. */
  lemma {:induction false} OrphansAreForever(start: World, run: seq<Event>, reliable: bool, n: string)
    requires IsRun(start, run, reliable) && Orphan(start, n) && !IsDefault(n)
    ensures Orphan(Last(start, run), n)
    ensures forall e :: e in run && e.op.EnsureNamespace? && e.op.n == n ==> e.result.Err?
  {
    if run != [] {
      var before, e := run[..|run| - 1], run[|run| - 1];
      OrphansAreForever(start, before, reliable, n);
      StepKeepsOrphans(Last(start, before), e.op, e.result, e.after, reliable, n);
      assert run == before + [e];
    }
  }

  /** Exactly when a set-up succeeds on a reliable kernel: there is nothing to do, or the gateway
      parses, the prefix is a number and the kernel has neither the namespace nor its bridge. */
  lemma SetupSucceedsIff(w: World, n: string, subnet: string, gateway: Option<Ipv4>, vni: nat, r: Outcome, w': World)
    requires EnsureStep(w, n, subnet, gateway, vni, r, w', true)
    ensures r.Ok? <==> IsDefault(n) || n in w.mem || Creatable(w.k, n, subnet, gateway)
  {
  }

  // ---------- where orphans come from ----------

  /** A set-up that fails on a reliable kernel although its gateway parses leaves an orphan. */
  lemma FailedSetupOrphans(w: World, n: string, subnet: string, gateway: Option<Ipv4>, vni: nat, w': World,
                           e: NetnsError)
    requires EnsureStep(w, n, subnet, gateway, vni, Err(e), w', true) && gateway.Some?
    ensures Orphan(w', n)
  {
  }

  /** Destroying a managed namespace orphans it exactly when the kernel did not delete it. */
  lemma DestroyOrphansIff(w: World, n: string, w': World, reliable: bool)
    requires Backed(w) && n in w.mem && DestroyStep(w, n, w', reliable)
    ensures Orphan(w', n) <==> w'.k == w.k
    ensures Orphan(w', n) ==> !reliable
  {
  }

  /** An agent that starts again knows none of the namespaces it managed, so all are orphans. */
  lemma RestartOrphans(w: World, n: string)
    requires Backed(w) && n in w.mem
    ensures Orphan(World(map[], w.k), n) && Backed(World(map[], w.k))
  {
  }

  /** A set-up that fails once on a reliable kernel, although its gateway parses, fails in every
      continuation of the run: no operation repairs it. */
  lemma {:induction false} SetupFailsForever(start: World, run: seq<Event>, i: nat)
    requires IsRun(start, run, true) && i < |run| && run[i].result.Err?
    requires run[i].op.EnsureNamespace? && run[i].op.gateway.Some?
    ensures Orphan(Last(start, run), run[i].op.n)
    ensures forall j :: i < j < |run| && run[j].op.EnsureNamespace? && run[j].op.n == run[i].op.n ==> run[j].result.Err?
  {
    var before, e, n := run[..|run| - 1], run[|run| - 1], run[i].op.n;
    if i == |run| - 1 {
      FailedSetupOrphans(Last(start, before), n, e.op.subnet, e.op.gateway, e.op.vni, e.after, e.result.error);
    } else {
      SetupFailsForever(start, before, i);
      assert !IsDefault(n) by {
        FailedIsNotDefault(start, run, i);
      }
      StepKeepsOrphans(Last(start, before), e.op, e.result, e.after, true, n);
    }
  }

  lemma {:induction false} FailedIsNotDefault(start: World, run: seq<Event>, i: nat)
    requires IsRun(start, run, true) && i < |run| && run[i].result.Err? && run[i].op.EnsureNamespace?
    ensures !IsDefault(run[i].op.n)
  {
    if i < |run| - 1 {
      FailedIsNotDefault(start, run[..|run| - 1], i);
    }
  }

  const NOTHING := World(map[], KState(map[], map[]))

  lemma FreshSetup(n: string, network: string, gateway: Ipv4, vni: nat) returns (w: World)
    requires !IsDefault(n)
    ensures EnsureStep(NOTHING, n, network + "/" + "24", Some(gateway), vni, Ok, w, false)
    ensures n in w.mem && n in w.k.spaces
  {
    var subnet := network + "/" + "24";
    PrefixLenIs(network, "24");
    w := World(map[n := FreshNetwork(n, subnet, gateway, vni)],
               InSpace(NOTHING.k, n, BridgeSpace(n, PrefixLen(subnet), gateway)));
  }

  /** A run in which a deletion fails and the namespace can then not be set up again. */
  lemma FailedDeletionRun(n: string, network: string, gateway: Ipv4, vni: nat) returns (run: seq<Event>)
    requires !IsDefault(n)
    ensures IsRun(NOTHING, run, false) && |run| == 3
    ensures run[0].result.Ok? && run[1].op == DestroyNamespace(n) && run[1].result.Ok?
    ensures run[2].op == run[0].op == EnsureNamespace(n, network + "/" + "24", Some(gateway), vni)
    ensures run[2].result.Err? && Orphan(Last(NOTHING, run), n)
  {
    var op := EnsureNamespace(n, network + "/" + "24", Some(gateway), vni);
    var w := FreshSetup(n, network, gateway, vni);
    var left := World(w.mem - {n}, w.k);
    var e0, e1, e2 := Event(op, Ok, w), Event(DestroyNamespace(n), Ok, left), Event(op, Err(Command), left);
    RunSnoc(NOTHING, [], e0, false);
    RunSnoc(NOTHING, [e0], e1, false);
    RunSnoc(NOTHING, [e0] + [e1], e2, false);
    run := [e0] + [e1] + [e2];
  }

  lemma RunSnoc(start: World, run: seq<Event>, e: Event, reliable: bool)
    requires IsRun(start, run, reliable) && Step(Last(start, run), e.op, e.result, e.after, reliable)
    ensures IsRun(start, run + [e], reliable) && Last(start, run + [e]) == e.after
  {
    assert (run + [e])[..|run|] == run;
  }
}
