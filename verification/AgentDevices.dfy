/**
What the tunnel device of a namespace is configured with after a message.
*/
module AgentDevices {
  import opened Wrappers
  import opened IfaceNames
  import opened Tunnel
  import opened Kernel
  import opened NetnsSteps
  import opened NetnsInvariants
  import opened NetnsExact
  import opened DesiredState
  import opened Agent
  import opened AgentRuns

  predicate HasTunnel(w: World, n: string) {
    n in w.mem && w.mem[n].vxlan.Some?
  }

  /** What is configured on the tunnel device of a namespace. */
  function Carried(w: World, n: string): set<Attr> {
    if HasTunnel(w, n) && HasLink(w.k, n, VxlanFor(n)) then w.k.spaces[n].links[VxlanFor(n)].attrs else {}
  }

  predicate SameDeviceLink(w: World, w': World, n: string) {
    && (HasTunnel(w', n) <==> HasTunnel(w, n))
    && Carried(w', n) == Carried(w, n)
  }

  /** An operation other than on the namespace's tunnel. */
  predicate Calm(op: Op, n: string) {
    op.EnsureTunnel? || op.RemoveTunnel? ==> op.n != n
  }

  lemma AddCarries(w: World, m: string, svc: string, ip: Ipv4, r: Outcome, w': World, n: string)
    requires AddStep(w, m, svc, ip, r, w', true) && w'.mem == MemOp(w.mem, AddService(m, svc, ip)) && n in w'.mem
    requires n in w.mem ==> n in w.k.spaces
    ensures SameDeviceLink(w, w', n)
  {
    assert m in w.mem && !IsDefault(m) ==> svc in w'.mem[m].veths;
  }

  lemma RemoveCarries(w: World, m: string, svc: string, w': World, n: string)
    requires RemoveStep(w, m, svc, w', true) && n in w'.mem && (m in w.mem ==> m in w.k.spaces)
    ensures SameDeviceLink(w, w', n)
  {
    if w' != w {
      DeletionAttempt(w.k, m, VethHost(Short(svc)), w'.k, true);
    }
  }

  lemma OtherTunnelCarries(w: World, m: string, vni: nat, local: Ipv4, peers: seq<PeerInfo>, r: Outcome, w': World,
                           n: string)
    requires TunnelStep(w, m, vni, local, peers, r, w', true) && m != n && n in w'.mem
    requires n in w.mem ==> n in w.k.spaces
    ensures SameDeviceLink(w, w', n)
  {
    if m in w.mem && r.Ok? && !IsDefault(m) {
      DeviceLinks(w, m, vni, local, peers, w', true);
    }
  }

  lemma UntunnelCarries(w: World, m: string, w': World, n: string)
    requires UntunnelStep(w, m, w', true) && m != n && n in w'.mem && (m in w.mem ==> m in w.k.spaces)
    ensures SameDeviceLink(w, w', n)
  {
    if w' != w {
      DeletionAttempt(w.k, m, w.mem[m].vxlan.value, w'.k, true);
    }
  }

  lemma CalmCarries(w: World, op: Op, r: Outcome, w': World, n: string)
    requires Step(w, op, r, w', true) && w'.mem == MemOp(w.mem, op) && Calm(op, n) && n in w'.mem
    requires forall m :: m in w.mem ==> m in w.k.spaces
    ensures SameDeviceLink(w, w', n)
  {
    match op
    case EnsureNamespace(_, _, _, _) =>
    case AddService(m, svc, ip) => AddCarries(w, m, svc, ip, r, w', n);
    case RemoveService(m, svc) => RemoveCarries(w, m, svc, w', n);
    case EnsureTunnel(m, vni, local, peers) => OtherTunnelCarries(w, m, vni, local, peers, r, w', n);
    case RemoveTunnel(m) => UntunnelCarries(w, m, w', n);
    case DestroyNamespace(_) =>
    case GcNamespaces(_) =>
  }

  /** A run of fitting operations, from a world without leftovers. */
  ghost predicate FittingRun(start: World, run: seq<Event>) {
    Backed(start) && Clean(start) && IsRun(start, run, true) && FitsAll(start.mem, Ops(run))
  }

  /** It keeps every world clean, step by step. */
  lemma CleanStep(start: World, run: seq<Event>)
    requires FittingRun(start, run) && run != []
    ensures var before, e := run[..|run| - 1], run[|run| - 1];
            var w := Last(start, before);
            && FittingRun(start, before) && Backed(w) && (forall m :: m in w.mem ==> m in w.k.spaces)
            && Step(w, e.op, e.result, e.after, true) && e.after.mem == MemOp(w.mem, e.op)
            && w.mem == MemAll(start.mem, Ops(before))
  {
    var before, e := run[..|run| - 1], run[|run| - 1];
    assert Ops(run)[..|run| - 1] == Ops(before);
    RunIsClean(start, before);
    BackedIsShaped(Last(start, before));
    StepIsClean(Last(start, before), e.op, e.result, e.after);
  }

  predicate Quiet(op: Op, n: string) {
    Calm(op, n) && !op.DestroyNamespace? && !op.GcNamespaces?
  }

  lemma QuietKeeps(mem: Namespaces, op: Op, n: string)
    requires Quiet(op, n)
    ensures n in mem ==> n in MemOp(mem, op)
  {
  }

  lemma {:induction false} QuietCarries(start: World, run: seq<Event>, n: string)
    requires FittingRun(start, run)
    requires forall i :: 0 <= i < |run| ==> Quiet(run[i].op, n)
    ensures n in start.mem ==> n in Last(start, run).mem
    ensures SameDeviceLink(start, Last(start, run), n)
  {
    if run != [] {
      var before, e := run[..|run| - 1], run[|run| - 1];
      CleanStep(start, run);
      assert forall i :: 0 <= i < |before| ==> before[i] == run[i];
      QuietCarries(start, before, n);
      QuietKeeps(Last(start, before).mem, e.op, n);
      if n in e.after.mem {
        CalmCarries(Last(start, before), e.op, e.result, e.after, n);
      }
    }
  }

  /** The device carries the identifier and mesh address exactly when it is new or carried them before. */
  ghost predicate Applied(w: World, w': World, n: string, config: Attr) {
    HasTunnel(w', n) && (config in Carried(w', n) <==> !HasTunnel(w, n) || config in Carried(w, n))
  }

  lemma TunnelApplies(w: World, n: string, vni: nat, local: Ipv4, peers: seq<PeerInfo>, r: Outcome, w': World)
    requires Backed(w) && n in w.mem && TunnelStep(w, n, vni, local, peers, r, w', true)
    requires w'.mem == MemOp(w.mem, EnsureTunnel(n, vni, local, peers))
    ensures Applied(w, w', n, VxlanConfig(vni, local, 4789))
  {
    assert r.Ok? by {
      if r.Err? {
        assert w'.mem[n].vxlan.Some?;
      }
    }
    DeviceConfigIff(w, n, vni, local, peers, w', true);
  }

  lemma AppliedAtLast(start: World, run: seq<Event>, n: string, vni: nat, local: Ipv4, peers: seq<PeerInfo>)
    requires FittingRun(start, run) && run != []
    requires run[|run| - 1].op == EnsureTunnel(n, vni, local, peers)
    requires n in MemAll(start.mem, Ops(run[..|run| - 1]))
    requires forall i :: 0 <= i < |run| - 1 ==> Quiet(run[i].op, n)
    ensures Applied(start, Last(start, run), n, VxlanConfig(vni, local, 4789))
  {
    var before, e := run[..|run| - 1], run[|run| - 1];
    CleanStep(start, run);
    QuietCarries(start, before, n);
    TunnelApplies(Last(start, before), n, vni, local, peers, e.result, e.after);
    AppliedStill(start, Last(start, before), e.after, n, VxlanConfig(vni, local, 4789));
  }

  lemma AppliedAfter(start: World, run: seq<Event>, n: string, config: Attr)
    requires FittingRun(start, run) && run != [] && Quiet(run[|run| - 1].op, n)
    requires Applied(start, Last(start, run[..|run| - 1]), n, config)
    ensures Applied(start, Last(start, run), n, config)
  {
    var before, e := run[..|run| - 1], run[|run| - 1];
    var w := Last(start, before);
    CleanStep(start, run);
    QuietKeeps(w.mem, e.op, n);
    CalmCarries(w, e.op, e.result, e.after, n);
    AppliedStill(start, w, e.after, n, config);
  }

  lemma FittingPrefix(start: World, run: seq<Event>)
    requires FittingRun(start, run) && run != []
    ensures FittingRun(start, run[..|run| - 1])
  {
    CleanStep(start, run);
  }

  lemma {:induction false} AppliedOnce(start: World, run: seq<Event>, j: nat, n: string, vni: nat, local: Ipv4,
                                       peers: seq<PeerInfo>)
    requires FittingRun(start, run) && j < |run|
    requires run[j].op == EnsureTunnel(n, vni, local, peers) && n in MemAll(start.mem, Ops(run)[..j])
    requires forall i :: 0 <= i < |run| && i != j ==> Quiet(run[i].op, n)
    ensures Applied(start, Last(start, run), n, VxlanConfig(vni, local, 4789))
  {
    var before := run[..|run| - 1];
    if j == |run| - 1 {
      assert Ops(run)[..j] == Ops(before);
      AppliedAtLast(start, run, n, vni, local, peers);
    } else {
      FittingPrefix(start, run);
      assert Ops(before)[..j] == Ops(run)[..j];
      assert forall i :: 0 <= i < |before| ==> before[i] == run[i];
      AppliedOnce(start, before, j, n, vni, local, peers);
      AppliedAfter(start, run, n, VxlanConfig(vni, local, 4789));
    }
  }

  lemma AppliedStill(start: World, w: World, w': World, n: string, config: Attr)
    ensures Applied(start, w, n, config) && SameDeviceLink(w, w', n) ==> Applied(start, w', n, config)
    ensures SameDeviceLink(start, w, n) && Applied(w, w', n, config) ==> Applied(start, w', n, config)
  {
  }

  lemma {:induction false} TunnelOpAt(networks: seq<NetworkConfig>, local: Ipv4, i: nat)
    requires i <= |networks|
    ensures |TunnelOps(networks, local)| == |networks|
    ensures i < |networks| ==> TunnelOps(networks, local)[i] == TunnelOpFor(networks[i], local)
    ensures TunnelOps(networks, local)[..i] == TunnelOps(networks[..i], local)
  {
    if networks == [] {
    } else {
      var front := networks[..|networks| - 1];
      if i == |networks| {
        TunnelOpAt(front, local, i - 1);
        assert networks[..i] == networks;
        assert TunnelOps(networks, local)[..i] == TunnelOps(networks, local);
      } else {
        TunnelOpAt(front, local, i);
        assert front[..i] == networks[..i];
        assert TunnelOps(networks, local)[..i] == TunnelOps(front, local)[..i];
      }
    }
  }

  predicate AllQuiet(ops: seq<Op>, n: string) {
    forall i :: 0 <= i < |ops| ==> Quiet(ops[i], n)
  }

  lemma {:induction false} EnsureQuiet(networks: seq<NetworkConfig>, n: string)
    ensures AllQuiet(EnsureOps(networks), n)
  {
    if networks != [] {
      EnsureQuiet(networks[..|networks| - 1], n);
    }
  }

  lemma {:induction false} AddQuiet(services: seq<ServiceSpec>, n: string)
    ensures AllQuiet(AddOps(services), n)
  {
    if services != [] {
      AddQuiet(services[..|services| - 1], n);
    }
  }

  lemma {:induction false} RemoveQuiet(previous: seq<ServiceSpec>, names: set<string>, n: string)
    ensures AllQuiet(RemoveOps(previous, names), n)
  {
    if previous != [] {
      RemoveQuiet(previous[..|previous| - 1], names, n);
    }
  }

  function ServiceOps(msg: Message, previous: seq<ServiceSpec>): seq<Op> {
    EnsureOps(msg.networks) + AddOps(msg.services) + RemoveOps(previous, Names(msg.services))
  }

  /** The operations of a message before the collection: only one is on the namespace's tunnel. */
  lemma OneTunnelOp(msg: Message, previous: seq<ServiceSpec>, local: Ipv4, i: nat, k: nat)
    requires UniqueNamespaces(msg.networks) && i < |msg.networks|
    requires k < |ServiceOps(msg, previous) + TunnelOps(msg.networks, local)|
    ensures var ops, j := ServiceOps(msg, previous) + TunnelOps(msg.networks, local), |ServiceOps(msg, previous)| + i;
            && j < |ops| && ops[j] == TunnelOpFor(msg.networks[i], local)
            && (k != j ==> Quiet(ops[k], msg.networks[i].namespace))
  {
    var n, first := msg.networks[i].namespace, ServiceOps(msg, previous);
    EnsureQuiet(msg.networks, n);
    AddQuiet(msg.services, n);
    RemoveQuiet(previous, Names(msg.services), n);
    assert AllQuiet(first, n);
    TunnelOpAt(msg.networks, local, i);
    if k >= |first| {
      TunnelOpAt(msg.networks, local, k - |first|);
    }
  }

  lemma ManagedAtTunnel(mem: Namespaces, msg: Message, previous: seq<ServiceSpec>, local: Ipv4, i: nat)
    requires NonDefault(mem) && (forall n :: n in mem ==> Coherent(mem[n])) && i < |msg.networks|
    requires msg.networks[i].namespace in MessageMem(mem, msg, previous, local)
    ensures var ops := ServiceOps(msg, previous) + TunnelOps(msg.networks, local);
            |ServiceOps(msg, previous)| + i < |ops| &&
            msg.networks[i].namespace in MemAll(mem, ops[..|ServiceOps(msg, previous)| + i])
  {
    var e, a := EnsureOps(msg.networks), AddOps(msg.services);
    var r, n := RemoveOps(previous, Names(msg.services)), msg.networks[i].namespace;
    ManagedAfter(mem, msg, previous, local);
    ServicePhases(mem, msg, previous, n);
    var m := BeforeTunnels(mem, msg, previous);
    MemAllConcat(mem, e, a);
    MemAllConcat(mem, e + a, r);
    TunnelOpAt(msg.networks, local, i);
    var ops := ServiceOps(msg, previous) + TunnelOps(msg.networks, local);
    assert ops[..|ServiceOps(msg, previous)| + i] == (e + a + r) + TunnelOps(msg.networks[..i], local);
    MemAllConcat(mem, e + a + r, TunnelOps(msg.networks[..i], local));
    TunnelPhase(m, msg.networks[..i], local, n);
  }

  lemma ScriptApplies(w: World, run: seq<Event>, msg: Message, previous: seq<ServiceSpec>, local: Ipv4, i: nat)
    requires FittingRun(w, run)
    requires Ops(run) == ServiceOps(msg, previous) + TunnelOps(msg.networks, local)
    requires UniqueNamespaces(msg.networks) && i < |msg.networks| && msg.networks[i].remotePeers != []
    requires msg.networks[i].namespace in MessageMem(w.mem, msg, previous, local)
    ensures Applied(w, Last(w, run), msg.networks[i].namespace, VxlanConfig(msg.networks[i].vni, local, 4789))
  {
    var c, j := msg.networks[i], |ServiceOps(msg, previous)| + i;
    BackedIsCoherent(w);
    ManagedAtTunnel(w.mem, msg, previous, local, i);
    OneTunnelOp(msg, previous, local, i, j);
    forall k | 0 <= k < |run| && k != j
      ensures Quiet(run[k].op, c.namespace)
    {
      OneTunnelOp(msg, previous, local, i, k);
      assert run[k].op == Ops(run)[k];
    }
    assert run[j].op == Ops(run)[j];
    AppliedOnce(w, run, j, c.namespace, c.vni, local, ParsedPeers(c.remotePeers));
  }

  lemma LastIsCollection(run: seq<Event>, ops: seq<Op>, op: Op)
    requires Ops(run) == ops + [op]
    ensures run != [] && Ops(run[..|run| - 1]) == ops && run[|run| - 1].op == op
  {
    assert |run| == |ops| + 1;
    assert Ops(run[..|run| - 1]) == Ops(run)[..|run| - 1];
    assert run[|run| - 1].op == Ops(run)[|run| - 1];
  }

  lemma RunApplies(w: World, run: seq<Event>, msg: Message, previous: seq<ServiceSpec>, local: Ipv4, i: nat)
    requires FittingRun(w, run)
    requires Ops(run) == Script(msg, previous, local)
    requires UniqueNamespaces(msg.networks) && i < |msg.networks| && msg.networks[i].remotePeers != []
    requires msg.networks[i].namespace in MessageMem(w.mem, msg, previous, local)
    requires msg.networks[i].namespace in Last(w, run).mem
    ensures Applied(w, Last(w, run), msg.networks[i].namespace, VxlanConfig(msg.networks[i].vni, local, 4789))
  {
    LastIsCollection(run, ServiceOps(msg, previous) + TunnelOps(msg.networks, local),
                     GcNamespaces(ActiveNames(msg.networks)));
    CleanStep(w, run);
    var before, e := run[..|run| - 1], run[|run| - 1];
    ScriptApplies(w, before, msg, previous, local, i);
    CalmCarries(Last(w, before), e.op, e.result, e.after, msg.networks[i].namespace);
  }

  /** After a good message, the tunnel device of a configuration with peers carries the network identifier
      of the message and the mesh address of the node if and only if the namespace had no device before or
      its device carried them already. */
  lemma MessageConfiguresDevice(w: World, desired: Desired, msg: Message, local: Ipv4, w': World, desired': Desired,
                                c: NetworkConfig)
    requires Backed(w) && Clean(w) && Handled(w, desired, msg, local, w', desired', true)
    requires WellFormed(msg) && NoClash(w.mem, msg) && UniqueNamespaces(msg.networks)
    requires c in msg.networks && c.remotePeers != [] && c.namespace in w'.mem
    ensures Applied(w, w', c.namespace, VxlanConfig(c.vni, local, 4789))
  {
    var previous :| Enumerates(previous, desired) && Performed(w, Script(msg, previous, local), w', true);
    var run: seq<Event> :| IsRun(w, run, true) && Ops(run) == Script(msg, previous, local) && Last(w, run) == w';
    BackedIsCoherent(w);
    ScriptFits(w.mem, msg, previous, local);
    RunIsClean(w, run);
    var i :| 0 <= i < |msg.networks| && msg.networks[i] == c;
    RunApplies(w, run, msg, previous, local, i);
  }
}
