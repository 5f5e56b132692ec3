/**
What the namespace network manager achieves on a reliable kernel: forwarding tables that are
exactly what the recorded peers need, and a kernel that holds what the record accounts for
and nothing else.
*/
module NetnsExact {
  import opened Wrappers
  import opened IfaceNames
  import opened Tunnel
  import opened Kernel
  import opened NetnsSteps
  import opened NetnsInvariants

  // ---------- tunnels ----------

  predicate HasDevice(w: World, n: string) {
    n in w.mem && (w.mem[n].vxlan.Some? ==> HasLink(w.k, n, VxlanFor(n)))
  }

  /** The part of the invariant that speaks of the record alone, and of its devices. */
  ghost predicate Shaped(w: World) {
    forall n :: n in w.mem ==>
      && !IsDefault(n) && w.mem[n].bridge == BridgeFor(n) && DistinctShorts(w.mem[n].veths.Keys)
      && (w.mem[n].vxlan.Some? ==> w.mem[n].vxlan.value == VxlanFor(n))
      && (w.mem[n].vxlan.None? ==> w.mem[n].peers == map[])
      && n in w.k.spaces && HasDevice(w, n)
  }

  lemma BackedIsShaped(w: World)
    requires Backed(w)
    ensures Shaped(w)
  {
  }

  /** The tunnel device of a managed namespace, as the diff sees it. */
  ghost function DeviceOf(w: World, n: string): Device
    requires HasDevice(w, n)
  {
    if w.mem[n].vxlan.None? then Down else Up(w.mem[n].peers, TablesOf(w.k, n, VxlanFor(n)))
  }

  /** A successful update on a reliable kernel is one step of the tunnel's transition system. */
  lemma TunnelRefines(w: World, n: string, vni: nat, local: Ipv4, peers: seq<PeerInfo>, r: Outcome, w': World)
    requires Shaped(w) && Shaped(w') && n in w.mem && n in w'.mem
    requires TunnelStep(w, n, vni, local, peers, r, w', true)
    ensures DeviceOf(w', n) == if r.Ok? then Next(DeviceOf(w, n), Update(peers)) else DeviceOf(w, n)
  {
    if r.Ok? && w.mem[n].vxlan.None? {
      assert w.mem[n].peers == map[];
      assert TablesOf(DeviceReady(w, n, vni, local), n, VxlanFor(n)) == EMPTY;
    }
  }

  ghost predicate TunnelsExact(w: World)
    requires Shaped(w)
  {
    forall n :: n in w.mem ==> Exact(DeviceOf(w, n))
  }

  /** The peer lists a run may deliver: distinct node ids, and staying peers unchanged. */
  predicate StableOp(w: World, op: Op) {
    op.EnsureTunnel? && op.n in w.mem ==> DistinctIds(op.peers) && Stable(w.mem[op.n].peers, op.peers)
  }

  /** Other namespaces, and links other than the device, do not matter to a device. */
  lemma SameDevice(w: World, w': World, n: string)
    requires HasDevice(w, n) && HasDevice(w', n)
    requires w'.mem[n].vxlan == w.mem[n].vxlan && w'.mem[n].peers == w.mem[n].peers
    requires w.mem[n].vxlan.Some? ==>
               w'.k.spaces[n].links[VxlanFor(n)].tables == w.k.spaces[n].links[VxlanFor(n)].tables
    ensures DeviceOf(w', n) == DeviceOf(w, n)
  {
  }

  lemma RemoveKeepsDevice(w: World, m: string, svc: string, w': World, n: string)
    requires RemoveStep(w, m, svc, w', true) && HasDevice(w, n) && HasDevice(w', n) && (m in w.mem ==> m in w.k.spaces)
    ensures DeviceOf(w', n) == DeviceOf(w, n)
  {
    if w' != w {
      DeletionAttempt(w.k, m, VethHost(Short(svc)), w'.k, true);
    }
    SameDevice(w, w', n);
  }

  lemma UntunnelKeepsDevice(w: World, m: string, w': World, n: string)
    requires UntunnelStep(w, m, w', true) && m != n
    requires HasDevice(w, n) && HasDevice(w', n) && (m in w.mem ==> m in w.k.spaces)
    ensures DeviceOf(w', n) == DeviceOf(w, n)
  {
    if w' != w {
      DeletionAttempt(w.k, m, w.mem[m].vxlan.value, w'.k, true);
    }
    SameDevice(w, w', n);
  }

  lemma EnsureKeepsDevice(w: World, m: string, subnet: string, gateway: Option<Ipv4>, vni: nat, r: Outcome, w': World,
                          n: string)
    requires EnsureStep(w, m, subnet, gateway, vni, r, w', true)
    requires HasDevice(w, n) && HasDevice(w', n) && n in w.k.spaces
    ensures DeviceOf(w', n) == DeviceOf(w, n)
  {
    SameDevice(w, w', n);
  }

  lemma AddKeepsDevice(w: World, m: string, svc: string, ip: Ipv4, r: Outcome, w': World, n: string)
    requires AddStep(w, m, svc, ip, r, w', true)
    requires HasDevice(w, n) && HasDevice(w', n) && n in w.k.spaces
    ensures DeviceOf(w', n) == DeviceOf(w, n)
  {
    SameDevice(w, w', n);
  }

  lemma OtherTunnelKeepsDevice(w: World, m: string, vni: nat, local: Ipv4, peers: seq<PeerInfo>, r: Outcome,
                               w': World, n: string)
    requires TunnelStep(w, m, vni, local, peers, r, w', true) && m != n
    requires HasDevice(w, n) && HasDevice(w', n) && n in w.k.spaces
    ensures DeviceOf(w', n) == DeviceOf(w, n)
  {
    if m in w.mem && r.Ok? && !IsDefault(m) {
      DeviceLinks(w, m, vni, local, peers, w', true);
    }
    SameDevice(w, w', n);
  }

  /** Every other operation leaves the device of a namespace it keeps as it was. */
  lemma OtherOpsKeepDevice(w: World, op: Op, r: Outcome, w': World, n: string)
    requires Step(w, op, r, w', true) && Shaped(w) && Shaped(w') && n in w.mem && n in w'.mem
    requires op.EnsureTunnel? || op.RemoveTunnel? ==> op.n != n
    ensures DeviceOf(w', n) == DeviceOf(w, n)
  {
    match op
    case EnsureNamespace(m, subnet, gateway, vni) => EnsureKeepsDevice(w, m, subnet, gateway, vni, r, w', n);
    case AddService(m, svc, ip) => AddKeepsDevice(w, m, svc, ip, r, w', n);
    case RemoveService(m, svc) => RemoveKeepsDevice(w, m, svc, w', n);
    case RemoveTunnel(m) => UntunnelKeepsDevice(w, m, w', n);
    case EnsureTunnel(m, vni, local, peers) => OtherTunnelKeepsDevice(w, m, vni, local, peers, r, w', n);
    case DestroyNamespace(_) => SameDevice(w, w', n);
    case GcNamespaces(_) => SameDevice(w, w', n);
  }

  lemma StepKeepsTunnelsExact(w: World, op: Op, r: Outcome, w': World)
    requires Step(w, op, r, w', true) && Shaped(w) && Shaped(w') && TunnelsExact(w) && StableOp(w, op)
    ensures TunnelsExact(w')
  {
    forall n | n in w'.mem
      ensures Exact(DeviceOf(w', n))
    {
      if n !in w.mem {
        assert w'.mem[n].vxlan.None?;
      } else if op.EnsureTunnel? && op.n == n {
        TunnelRefines(w, n, op.vni, op.local, op.peers, r, w');
        NoPeers(map[]);
        StableStep(w.mem[n].peers, op.peers);
      } else if op.RemoveTunnel? && op.n == n {
      } else {
        OtherOpsKeepDevice(w, op, r, w', n);
      }
    }
  }

  ghost predicate StableRun(start: World, run: seq<Event>) {
    run == [] ||
    (StableRun(start, run[..|run| - 1]) && StableOp(Last(start, run[..|run| - 1]), run[|run| - 1].op))
  }

  /** Over every run of manager operations on a reliable kernel in which peer lists are stable,
      every managed tunnel has exactly the entries its recorded peers need. */
  lemma {:induction false} TunnelsAlwaysExact(start: World, run: seq<Event>)
    requires Backed(start) && Shaped(start) && TunnelsExact(start) && IsRun(start, run, true) && StableRun(start, run)
    ensures Shaped(Last(start, run)) && TunnelsExact(Last(start, run))
  {
    AlwaysBacked(start, run, true);
    BackedIsShaped(Last(start, run));
    if run != [] {
      var before, e := run[..|run| - 1], run[|run| - 1];
      TunnelsAlwaysExact(start, before);
      StepKeepsTunnelsExact(Last(start, before), e.op, e.result, e.after);
    }
  }

  // ---------- no debris ----------

  function Shorts(veths: map<string, IfName>): set<string> {
    set svc | svc in veths :: Short(svc)
  }

  /** The links the record accounts for. */
  ghost predicate Accounts(ns: NamespaceNetwork, l: IfName) {
    match l
    case Loopback => true
    case Bridge(_) => l == ns.bridge
    case Vxlan(_) => ns.vxlan == Some(l)
    case VethHost(short) => short in Shorts(ns.veths)
    case VethContainer(short) => short in Shorts(ns.veths)
  }

  /** The kernel holds what the record accounts for and nothing else. */
  ghost predicate Clean(w: World) {
    && w.k.host == map[]
    && w.k.spaces.Keys == w.mem.Keys
    && forall n :: n in w.mem ==> LinksAccounted(w.mem[n], w.k.spaces[n].links)
  }

  ghost predicate LinksAccounted(ns: NamespaceNetwork, links: map<IfName, Link>) {
    forall l :: l in links <==> Accounts(ns, l)
  }

  /** What an operation needs of its arguments to go through on a clean, reliable kernel. */
  ghost predicate Fits(mem: Namespaces, op: Op) {
    match op
    case EnsureNamespace(_, subnet, gateway, _) => gateway.Some? ==> ValidPrefix(PrefixLen(subnet))
    case AddService(n, svc, _) => n in mem ==> DistinctShorts(mem[n].veths.Keys + {svc})
    case EnsureTunnel(_, vni, _, _) => vni < VNI_SIZE
    case _ => true
  }

  /** The effect of an operation on the record when it goes through. */
  function MemOp(mem: Namespaces, op: Op): Namespaces {
    match op
    case EnsureNamespace(n, subnet, gateway, vni) =>
      if IsDefault(n) || n in mem || gateway.None? then mem
      else mem[n := FreshNetwork(n, subnet, gateway.value, vni)]
    case AddService(n, svc, ip) =>
      if IsDefault(n) || n !in mem || svc in mem[n].veths then mem else mem[n := WithService(mem[n], svc, ip)]
    case RemoveService(n, svc) =>
      if IsDefault(n) || n !in mem || svc !in mem[n].veths then mem else mem[n := WithoutService(mem[n], svc)]
    case DestroyNamespace(n) => if IsDefault(n) then mem else mem - {n}
    case EnsureTunnel(n, _, _, peers) =>
      if IsDefault(n) || n !in mem then mem else mem[n := WithTunnel(mem[n], n, peers)]
    case RemoveTunnel(n) =>
      if IsDefault(n) || n !in mem || mem[n].vxlan.None? then mem
      else mem[n := mem[n].(vxlan := None, peers := map[])]
    case GcNamespaces(active) => Listed(mem, active)
  }

  lemma OneNamespaceClean(w: World, w': World, n: string, ns': NamespaceNetwork)
    ensures Clean(w) && CleanMove(w, w', n, ns') ==> Clean(w')
  {
  }

  lemma EnsureIsClean(w: World, n: string, subnet: string, gateway: Option<Ipv4>, vni: nat, r: Outcome, w': World)
    requires Clean(w) && EnsureStep(w, n, subnet, gateway, vni, r, w', true)
    requires gateway.Some? ==> ValidPrefix(PrefixLen(subnet))
    ensures Clean(w') && w'.mem == MemOp(w.mem, EnsureNamespace(n, subnet, gateway, vni))
  {
    if !IsDefault(n) && n !in w.mem && gateway.Some? {
      var ns' := FreshNetwork(n, subnet, gateway.value, vni);
      assert LinksAccounted(ns', w'.k.spaces[n].links);
      OneNamespaceClean(w, w', n, ns');
    }
  }

  /** A clean world seen from one managed namespace. */
  ghost predicate CleanAt(w: World, n: string) {
    && n in w.mem && n in w.k.spaces && !IsDefault(n) && w.k.host == map[]
    && LinksAccounted(w.mem[n], w.k.spaces[n].links)
    && w.mem[n].bridge == BridgeFor(n) && DistinctShorts(w.mem[n].veths.Keys)
    && (w.mem[n].vxlan.Some? ==> w.mem[n].vxlan.value == VxlanFor(n))
  }

  ghost predicate Tidy(w: World) {
    Clean(w) && Shaped(w)
  }

  lemma CleanIsCleanAt(w: World, n: string)
    ensures Tidy(w) && n in w.mem ==> CleanAt(w, n)
  {
  }

  /** One namespace moves from clean to clean and nothing else is touched. */
  ghost predicate CleanMove(w: World, w': World, n: string, ns': NamespaceNetwork) {
    && w'.mem == w.mem[n := ns'] && OnlyTouches(w.k, w'.k, n)
    && w'.k.host == map[] && n in w'.k.spaces && LinksAccounted(ns', w'.k.spaces[n].links)
  }

  lemma AddMoves(w: World, n: string, svc: string, ip: Ipv4, r: Outcome, w': World)
    requires n in w.mem && AddStep(w, n, svc, ip, r, w', true)
    requires svc !in w.mem[n].veths && DistinctShorts(w.mem[n].veths.Keys + {svc})
    ensures CleanAt(w, n) ==> r.Ok? && CleanMove(w, w', n, WithService(w.mem[n], svc, ip))
  {
    if CleanAt(w, n) {
      var ns, links := w.mem[n], w.k.spaces[n].links;
      ShortIsNew(ns, svc);
      NoDeviceLeft(ns, links, n);
      assert VethFree(w.k, n, svc) by {
        assert !Accounts(ns, VethHost(Short(svc))) && !Accounts(ns, VethContainer(Short(svc)));
      }
      AddedAccounted(ns, links, svc, ip);
    }
  }

  lemma AddIsClean(w: World, n: string, svc: string, ip: Ipv4, r: Outcome, w': World)
    requires AddStep(w, n, svc, ip, r, w', true)
    requires n in w.mem ==> !IsDefault(n) && DistinctShorts(w.mem[n].veths.Keys + {svc})
    ensures Tidy(w) ==> Clean(w') && w'.mem == MemOp(w.mem, AddService(n, svc, ip))
  {
    if n in w.mem && svc !in w.mem[n].veths {
      CleanIsCleanAt(w, n);
      AddMoves(w, n, svc, ip, r, w');
      OneNamespaceClean(w, w', n, WithService(w.mem[n], svc, ip));
    }
  }

  lemma ShortIsNew(ns: NamespaceNetwork, svc: string)
    requires DistinctShorts(ns.veths.Keys + {svc}) && svc !in ns.veths
    ensures Short(svc) !in Shorts(ns.veths)
  {
  }

  lemma AddedAccounted(ns: NamespaceNetwork, links: map<IfName, Link>, svc: string, ip: Ipv4)
    requires LinksAccounted(ns, links)
    ensures LinksAccounted(WithService(ns, svc, ip), VethLinks(links, ns.bridge, svc, ip))
  {
    assert Shorts(WithService(ns, svc, ip).veths) == Shorts(ns.veths) + {Short(svc)};
  }

  lemma RemoveMoves(w: World, n: string, svc: string, w': World)
    requires n in w.mem && RemoveStep(w, n, svc, w', true) && svc in w.mem[n].veths
    ensures CleanAt(w, n) ==> CleanMove(w, w', n, WithoutService(w.mem[n], svc))
  {
    if CleanAt(w, n) {
      DeletionAttempt(w.k, n, VethHost(Short(svc)), w'.k, true);
      RemovedAccounted(w.mem[n], w.k.spaces[n].links, svc);
    }
  }

  lemma RemoveIsClean(w: World, n: string, svc: string, w': World)
    requires RemoveStep(w, n, svc, w', true)
    ensures Tidy(w) ==> Clean(w')
    ensures w'.mem == MemOp(w.mem, RemoveService(n, svc))
  {
    if !IsDefault(n) && n in w.mem && svc in w.mem[n].veths {
      CleanIsCleanAt(w, n);
      RemoveMoves(w, n, svc, w');
      OneNamespaceClean(w, w', n, WithoutService(w.mem[n], svc));
    }
  }

  lemma RemovedAccounted(ns: NamespaceNetwork, links: map<IfName, Link>, svc: string)
    requires LinksAccounted(ns, links) && svc in ns.veths && DistinctShorts(ns.veths.Keys)
    ensures VethHost(Short(svc)) in links
    ensures LinksAccounted(WithoutService(ns, svc), links - DeletedWith(VethHost(Short(svc))))
  {
    assert Short(svc) in Shorts(ns.veths);
    assert Shorts(WithoutService(ns, svc).veths) == Shorts(ns.veths) - {Short(svc)};
  }

  lemma TunnelAccounted(ns: NamespaceNetwork, links: map<IfName, Link>, n: string, peers: seq<PeerInfo>,
                        links': map<IfName, Link>)
    requires LinksAccounted(ns, links) && VxlanFor(n) in links'
    requires ns.vxlan.Some? ==> ns.vxlan.value == VxlanFor(n)
    requires forall l :: l != VxlanFor(n) ==> (l in links' <==> l in links)
    ensures LinksAccounted(WithTunnel(ns, n, peers), links')
  {
    var ns' := WithTunnel(ns, n, peers);
    forall l
      ensures l in links' <==> Accounts(ns', l)
    {
      assert l in links <==> Accounts(ns, l);
    }
  }

  lemma NoDeviceLeft(ns: NamespaceNetwork, links: map<IfName, Link>, n: string)
    requires LinksAccounted(ns, links) && ns.bridge == BridgeFor(n)
    ensures BridgeFor(n) in links && (ns.vxlan.None? ==> VxlanFor(n) !in links)
  {
    assert Accounts(ns, BridgeFor(n));
    assert Accounts(ns, VxlanFor(n)) <==> ns.vxlan == Some(VxlanFor(n));
  }

  lemma NewLinksOnly(links: map<IfName, Link>, dev: IfName, links': map<IfName, Link>)
    requires forall l :: l in links && l != dev ==> l in links'
    requires forall l :: l in links' && l != dev ==> l in links
    ensures forall l :: l != dev ==> (l in links' <==> l in links)
  {
  }

  lemma TunnelMoves(w: World, n: string, vni: nat, local: Ipv4, peers: seq<PeerInfo>, r: Outcome, w': World)
    requires n in w.mem && TunnelStep(w, n, vni, local, peers, r, w', true) && vni < VNI_SIZE
    ensures CleanAt(w, n) ==> r.Ok? && CleanMove(w, w', n, WithTunnel(w.mem[n], n, peers))
  {
    if CleanAt(w, n) {
      var ns, links := w.mem[n], w.k.spaces[n].links;
      NoDeviceLeft(ns, links, n);
      DeviceLinks(w, n, vni, local, peers, w', true);
      NewLinksOnly(links, VxlanFor(n), w'.k.spaces[n].links);
      TunnelAccounted(ns, links, n, peers, w'.k.spaces[n].links);
    }
  }

  lemma TunnelIsClean(w: World, n: string, vni: nat, local: Ipv4, peers: seq<PeerInfo>, r: Outcome, w': World)
    requires TunnelStep(w, n, vni, local, peers, r, w', true) && vni < VNI_SIZE && (n in w.mem ==> !IsDefault(n))
    ensures Tidy(w) ==> Clean(w') && w'.mem == MemOp(w.mem, EnsureTunnel(n, vni, local, peers))
  {
    if n in w.mem {
      CleanIsCleanAt(w, n);
      TunnelMoves(w, n, vni, local, peers, r, w');
      MemTunnel(w.mem, n, vni, local, peers);
      OneNamespaceClean(w, w', n, WithTunnel(w.mem[n], n, peers));
    } else {
      assert w' == w;
    }
  }

  lemma MemTunnel(mem: Namespaces, n: string, vni: nat, local: Ipv4, peers: seq<PeerInfo>)
    requires n in mem && !IsDefault(n)
    ensures MemOp(mem, EnsureTunnel(n, vni, local, peers)) == mem[n := WithTunnel(mem[n], n, peers)]
  {
  }

  lemma UntunnelMoves(w: World, n: string, w': World)
    requires n in w.mem && UntunnelStep(w, n, w', true) && w.mem[n].vxlan.Some?
    ensures CleanAt(w, n) ==> CleanMove(w, w', n, w.mem[n].(vxlan := None, peers := map[]))
  {
    if CleanAt(w, n) {
      assert Accounts(w.mem[n], VxlanFor(n));
      DeletionAttempt(w.k, n, VxlanFor(n), w'.k, true);
    }
  }

  lemma UntunnelIsClean(w: World, n: string, w': World)
    requires UntunnelStep(w, n, w', true)
    ensures Tidy(w) ==> Clean(w')
    ensures w'.mem == MemOp(w.mem, RemoveTunnel(n))
  {
    if !IsDefault(n) && n in w.mem && w.mem[n].vxlan.Some? {
      CleanIsCleanAt(w, n);
      UntunnelMoves(w, n, w');
      OneNamespaceClean(w, w', n, w.mem[n].(vxlan := None, peers := map[]));
    }
  }

  lemma DestroyIsClean(w: World, n: string, w': World)
    requires Clean(w) && DestroyStep(w, n, w', true)
    ensures Clean(w') && w'.mem == MemOp(w.mem, DestroyNamespace(n))
  {
  }

  lemma GcIsClean(w: World, active: seq<string>, w': World)
    requires Clean(w) && GcStep(w, active, w', true)
    ensures Clean(w') && w'.mem == MemOp(w.mem, GcNamespaces(active))
  {
    assert w'.k.spaces.Keys == w'.mem.Keys;
  }

  /** On a reliable kernel with no debris, every operation that fits goes through, has its full
      effect on the record, and leaves no debris. */
  lemma StepIsClean(w: World, op: Op, r: Outcome, w': World)
    requires Step(w, op, r, w', true) && Shaped(w) && Clean(w) && Fits(w.mem, op)
    ensures Clean(w') && w'.mem == MemOp(w.mem, op)
  {
    assert Tidy(w);
    match op
    case EnsureNamespace(n, subnet, gateway, vni) => EnsureIsClean(w, n, subnet, gateway, vni, r, w');
    case AddService(n, svc, ip) => AddIsClean(w, n, svc, ip, r, w');
    case RemoveService(n, svc) => RemoveIsClean(w, n, svc, w');
    case DestroyNamespace(n) => DestroyIsClean(w, n, w');
    case EnsureTunnel(n, vni, local, peers) => TunnelIsClean(w, n, vni, local, peers, r, w');
    case RemoveTunnel(n) => UntunnelIsClean(w, n, w');
    case GcNamespaces(active) => GcIsClean(w, active, w');
  }

  // ---------- runs ----------

  function MemAll(mem: Namespaces, ops: seq<Op>): Namespaces {
    if ops == [] then mem else MemOp(MemAll(mem, ops[..|ops| - 1]), ops[|ops| - 1])
  }

  ghost predicate FitsAll(mem: Namespaces, ops: seq<Op>) {
    ops == [] ||
    (FitsAll(mem, ops[..|ops| - 1]) && Fits(MemAll(mem, ops[..|ops| - 1]), ops[|ops| - 1]))
  }

  function Ops(run: seq<Event>): seq<Op> {
    seq(|run|, i requires 0 <= i < |run| => run[i].op)
  }

  /** The identifier of a new device must fit 24 bits, on a clean, reliable kernel the only thing it needs. */
  lemma DeviceNeeds24Bits(w: World, n: string, vni: nat, local: Ipv4, peers: seq<PeerInfo>, r: Outcome, w': World)
    requires Clean(w) && Shaped(w) && n in w.mem && w.mem[n].vxlan.None?
    requires TunnelStep(w, n, vni, local, peers, r, w', true)
    ensures r.Ok? <==> vni < 16777216
  {
    CleanIsCleanAt(w, n);
    if vni < VNI_SIZE {
      TunnelMoves(w, n, vni, local, peers, r, w');
    }
  }

  /** A run of fitting operations on a reliable kernel with no debris: the record is the fold of
      the operations' effects and the kernel agrees with it exactly. */
  lemma {:induction false} RunIsClean(start: World, run: seq<Event>)
    requires Backed(start) && Clean(start) && IsRun(start, run, true) && FitsAll(start.mem, Ops(run))
    ensures Backed(Last(start, run)) && Clean(Last(start, run))
    ensures Last(start, run).mem == MemAll(start.mem, Ops(run))
  {
    AlwaysBacked(start, run, true);
    if run != [] {
      var before, e := run[..|run| - 1], run[|run| - 1];
      assert Ops(run)[..|run| - 1] == Ops(before);
      RunIsClean(start, before);
      BackedIsShaped(Last(start, before));
      StepIsClean(Last(start, before), e.op, e.result, e.after);
    }
  }
}
