/**
Whole runs of the agent: every message is handled by performing its script on the kernel, from a
kernel that holds nothing.
*/
module AgentRuns {
  import opened Wrappers
  import opened IfaceNames
  import opened Tunnel
  import opened Kernel
  import opened NetnsSteps
  import opened NetnsInvariants
  import opened NetnsExact
  import opened DesiredState
  import opened Agent

  datatype Handling = Handling(msg: Message, after: World, desired: Desired)

  function WorldAfter(run: seq<Handling>): World {
    if run == [] then NOTHING else run[|run| - 1].after
  }

  function DesiredAfter(run: seq<Handling>): Desired {
    if run == [] then map[] else run[|run| - 1].desired
  }

  function StateAfter(run: seq<Handling>): AgentState {
    AgentState(WorldAfter(run).mem, DesiredAfter(run))
  }

  /** Well-formed, without name clashes, with unique names and settled services. */
  ghost predicate Good(a: AgentState, msg: Message) {
    WellFormed(msg) && NoClash(a.mem, msg) && Benign(a, msg)
  }

  /** A run of the agent on a reliable kernel in which every message is good when it arrives. */
  ghost predicate GoodRun(run: seq<Handling>, local: Ipv4) {
    run == [] ||
    var before, h := run[..|run| - 1], run[|run| - 1];
    && GoodRun(before, local) && Good(StateAfter(before), h.msg)
    && Handled(WorldAfter(before), DesiredAfter(before), h.msg, local, h.after, h.desired, true)
  }

  // ---------- convergence ----------

  /** Handling a good message on a kernel without leftovers delivers it in full. */
  lemma HandledIsDelivered(w: World, desired: Desired, msg: Message, local: Ipv4, w': World, desired': Desired)
    requires Backed(w) && Clean(w) && Handled(w, desired, msg, local, w', desired', true)
    requires WellFormed(msg) && NoClash(w.mem, msg)
    ensures Backed(w') && Clean(w')
    ensures Delivery(AgentState(w.mem, desired), msg, local, AgentState(w'.mem, desired'))
  {
    var previous :| Enumerates(previous, desired) && Performed(w, Script(msg, previous, local), w', true);
    BackedIsCoherent(w);
    ScriptFits(w.mem, msg, previous, local);
    PerformedIsClean(w, Script(msg, previous, local), w');
    PerformedIsBacked(w, Script(msg, previous, local), w', true);
  }

  lemma BackedIsCoherent(w: World)
    requires Backed(w)
    ensures NonDefault(w.mem) && forall n :: n in w.mem ==> Coherent(w.mem[n])
  {
  }

  lemma PerformedIsBacked(start: World, ops: seq<Op>, w: World, reliable: bool)
    requires Backed(start) && Performed(start, ops, w, reliable)
    ensures Backed(w)
  {
    var run :| IsRun(start, run, reliable) && Ops(run) == ops && Last(start, run) == w;
    AlwaysBacked(start, run, reliable);
  }

  /** After every good run of the agent: the kernel holds exactly what the record accounts for, the
      managed namespaces are the non-default ones of the last message, and each has exactly its desired
      services. */
  lemma {:induction false} AgentConverges(run: seq<Handling>, local: Ipv4)
    requires GoodRun(run, local)
    ensures Backed(WorldAfter(run)) && Clean(WorldAfter(run)) && Consistent(StateAfter(run))
    ensures run != [] ==>
              WorldAfter(run).mem.Keys == Active(run[|run| - 1].msg.networks) - {"", "default"}
  {
    if run == [] {
      assert NOTHING.k.spaces.Keys == NOTHING.mem.Keys;
    } else {
      var before, h := run[..|run| - 1], run[|run| - 1];
      AgentConverges(before, local);
      HandledIsDelivered(WorldAfter(before), DesiredAfter(before), h.msg, local, h.after, h.desired);
      DeliveryKeepsConsistent(StateAfter(before), h.msg, local, StateAfter(run));
    }
  }

  /** In every message of the run, surviving services keep their address. */
  ghost predicate AddressesKept(run: seq<Handling>) {
    run == [] || (AddressesKept(run[..|run| - 1]) && Steady(StateAfter(run[..|run| - 1]), run[|run| - 1].msg))
  }

  /** Then each managed namespace also has exactly the desired addresses. */
  lemma {:induction false} AgentKeepsAddresses(run: seq<Handling>, local: Ipv4)
    requires GoodRun(run, local) && AddressesKept(run)
    ensures TracksAddresses(WorldAfter(run).mem, DesiredAfter(run))
  {
    if run != [] {
      var before, h := run[..|run| - 1], run[|run| - 1];
      AgentKeepsAddresses(before, local);
      AgentConverges(before, local);
      HandledIsDelivered(WorldAfter(before), DesiredAfter(before), h.msg, local, h.after, h.desired);
      DeliveryKeepsAddresses(StateAfter(before), h.msg, local, StateAfter(run));
    }
  }

  // ---------- tables ----------

  predicate StableMem(mem: Namespaces, op: Op) {
    op.EnsureTunnel? && op.n in mem ==> DistinctIds(op.peers) && Stable(mem[op.n].peers, op.peers)
  }

  ghost predicate StableAll(mem: Namespaces, ops: seq<Op>) {
    ops == [] ||
    (StableAll(mem, ops[..|ops| - 1]) && StableMem(MemAll(mem, ops[..|ops| - 1]), ops[|ops| - 1]))
  }

  lemma {:induction false} StableConcat(mem: Namespaces, a: seq<Op>, b: seq<Op>)
    requires StableAll(mem, a) && StableAll(MemAll(mem, a), b)
    ensures StableAll(mem, a + b)
  {
    if b == [] {
      assert a + b == a;
    } else {
      assert (a + b)[..|a + b| - 1] == a + b[..|b| - 1];
      StableConcat(mem, a, b[..|b| - 1]);
      MemAllConcat(mem, a, b[..|b| - 1]);
    }
  }

  lemma StableSnoc(mem: Namespaces, a: seq<Op>, op: Op)
    requires StableAll(mem, a) && StableMem(MemAll(mem, a), op)
    ensures StableAll(mem, a + [op])
  {
    assert (a + [op])[..|a|] == a;
  }

  predicate NoTunnel(ops: seq<Op>) {
    forall i :: 0 <= i < |ops| ==> !ops[i].EnsureTunnel?
  }

  lemma {:induction false} NoTunnelIsStable(mem: Namespaces, ops: seq<Op>)
    requires NoTunnel(ops)
    ensures StableAll(mem, ops)
  {
    if ops != [] {
      NoTunnelIsStable(mem, ops[..|ops| - 1]);
    }
  }

  lemma {:induction false} EnsureHasNoTunnel(networks: seq<NetworkConfig>)
    ensures NoTunnel(EnsureOps(networks))
  {
    if networks != [] {
      EnsureHasNoTunnel(networks[..|networks| - 1]);
    }
  }

  lemma {:induction false} AddHasNoTunnel(services: seq<ServiceSpec>)
    ensures NoTunnel(AddOps(services))
  {
    if services != [] {
      AddHasNoTunnel(services[..|services| - 1]);
    }
  }

  lemma {:induction false} RemoveHasNoTunnel(previous: seq<ServiceSpec>, names: set<string>)
    ensures NoTunnel(RemoveOps(previous, names))
  {
    if previous != [] {
      RemoveHasNoTunnel(previous[..|previous| - 1], names);
    }
  }

  lemma {:induction false} TunnelUntouched(mem: Namespaces, networks: seq<NetworkConfig>, local: Ipv4, n: string)
    requires NonDefault(mem) && n in mem && Coherent(mem[n]) && n !in Active(networks)
    ensures var m := MemAll(mem, TunnelOps(networks, local)); NonDefault(m) && n in m && m[n] == mem[n]
  {
    if networks != [] {
      var front, c := networks[..|networks| - 1], networks[|networks| - 1];
      assert networks == front + [c];
      TunnelUntouched(mem, front, local, n);
      MemAllSnoc(mem, TunnelOps(front, local), TunnelOpFor(c, local));
      TunnelOpEffect(MemAll(mem, TunnelOps(front, local)), c, local, n);
    }
  }

  /** Node ids are distinct and staying peers keep their endpoint and services. */
  predicate PeersStable(mem: Namespaces, c: NetworkConfig) {
    && DistinctIds(ParsedPeers(c.remotePeers))
    && (c.namespace in mem ==> Stable(mem[c.namespace].peers, ParsedPeers(c.remotePeers)))
  }

  predicate StablePeers(mem: Namespaces, networks: seq<NetworkConfig>) {
    UniqueNamespaces(networks) && forall i :: 0 <= i < |networks| ==> PeersStable(mem, networks[i])
  }

  lemma {:induction false} TunnelOpsStable(mem: Namespaces, networks: seq<NetworkConfig>, local: Ipv4)
    requires NonDefault(mem) && (forall n :: n in mem ==> Coherent(mem[n])) && StablePeers(mem, networks)
    ensures StableAll(mem, TunnelOps(networks, local))
  {
    if networks != [] {
      var front, c := networks[..|networks| - 1], networks[|networks| - 1];
      TunnelOpsStable(mem, front, local);
      assert c.namespace !in Active(front);
      if c.namespace in mem {
        TunnelUntouched(mem, front, local, c.namespace);
      }
      TunnelPhase(mem, front, local, "");
      assert PeersStable(mem, c);
      StableSnoc(mem, TunnelOps(front, local), TunnelOpFor(c, local));
    }
  }

  lemma PeersBeforeTunnels(mem: Namespaces, msg: Message, previous: seq<ServiceSpec>, c: NetworkConfig)
    requires NonDefault(mem) && (c.namespace in mem ==> Coherent(mem[c.namespace])) && PeersStable(mem, c)
    ensures PeersStable(BeforeTunnels(mem, msg, previous), c)
  {
    ServicePhases(mem, msg, previous, c.namespace);
  }

  lemma CoherentBeforeTunnels(mem: Namespaces, msg: Message, previous: seq<ServiceSpec>)
    requires NonDefault(mem) && forall n :: n in mem ==> Coherent(mem[n])
    ensures var m := BeforeTunnels(mem, msg, previous); NonDefault(m) && forall n :: n in m ==> Coherent(m[n])
  {
    ServicePhases(mem, msg, previous, "");
    var m := BeforeTunnels(mem, msg, previous);
    forall n | n in m
      ensures Coherent(m[n])
    {
      ServicePhases(mem, msg, previous, n);
    }
  }

  lemma ScriptStable(mem: Namespaces, msg: Message, previous: seq<ServiceSpec>, local: Ipv4)
    requires NonDefault(mem) && (forall n :: n in mem ==> Coherent(mem[n])) && StablePeers(mem, msg.networks)
    ensures StableAll(mem, Script(msg, previous, local))
  {
    var e, a := EnsureOps(msg.networks), AddOps(msg.services);
    var r, t := RemoveOps(previous, Names(msg.services)), TunnelOps(msg.networks, local);
    EnsureHasNoTunnel(msg.networks);
    AddHasNoTunnel(msg.services);
    RemoveHasNoTunnel(previous, Names(msg.services));
    NoTunnelIsStable(mem, e + a + r);
    MemAllConcat(mem, e, a);
    MemAllConcat(mem, e + a, r);
    var m := BeforeTunnels(mem, msg, previous);
    assert MemAll(mem, e + a + r) == m;
    CoherentBeforeTunnels(mem, msg, previous);
    forall i | 0 <= i < |msg.networks|
      ensures PeersStable(m, msg.networks[i])
    {
      PeersBeforeTunnels(mem, msg, previous, msg.networks[i]);
    }
    TunnelOpsStable(m, msg.networks, local);
    StableConcat(mem, e + a + r, t);
    StableSnoc(mem, e + a + r + t, GcNamespaces(ActiveNames(msg.networks)));
  }

  lemma {:induction false} StableOpsStableRun(start: World, run: seq<Event>)
    requires Backed(start) && Clean(start) && IsRun(start, run, true)
    requires FitsAll(start.mem, Ops(run)) && StableAll(start.mem, Ops(run))
    ensures NetnsExact.StableRun(start, run)
  {
    if run != [] {
      var before := run[..|run| - 1];
      assert Ops(run)[..|run| - 1] == Ops(before);
      StableOpsStableRun(start, before);
      RunIsClean(start, before);
    }
  }

  lemma HandledKeepsTables(w: World, desired: Desired, msg: Message, local: Ipv4, w': World, desired': Desired)
    requires Backed(w) && Clean(w) && Shaped(w) && TunnelsExact(w)
    requires Handled(w, desired, msg, local, w', desired', true)
    requires WellFormed(msg) && NoClash(w.mem, msg) && StablePeers(w.mem, msg.networks)
    ensures Shaped(w') && TunnelsExact(w')
  {
    var previous :| Enumerates(previous, desired) && Performed(w, Script(msg, previous, local), w', true);
    var run :| IsRun(w, run, true) && Ops(run) == Script(msg, previous, local) && Last(w, run) == w';
    BackedIsCoherent(w);
    ScriptFits(w.mem, msg, previous, local);
    ScriptStable(w.mem, msg, previous, local);
    StableOpsStableRun(w, run);
    TunnelsAlwaysExact(w, run);
  }

  ghost predicate PeersKept(run: seq<Handling>) {
    run == [] ||
    (PeersKept(run[..|run| - 1]) && StablePeers(WorldAfter(run[..|run| - 1]).mem, run[|run| - 1].msg.networks))
  }

  /** With stable peer lists as well, the forwarding tables of every managed namespace are exactly what
      its recorded peers need. */
  lemma {:induction false} AgentTablesExact(run: seq<Handling>, local: Ipv4)
    requires GoodRun(run, local) && PeersKept(run)
    ensures Shaped(WorldAfter(run)) && TunnelsExact(WorldAfter(run))
  {
    if run != [] {
      var before, h := run[..|run| - 1], run[|run| - 1];
      AgentTablesExact(before, local);
      AgentConverges(before, local);
      HandledKeepsTables(WorldAfter(before), DesiredAfter(before), h.msg, local, h.after, h.desired);
    }
  }

  // ---------- routes ----------

  /** Any run of the agent, whatever the messages are and whatever commands fail. */
  ghost predicate AnyRun(run: seq<Handling>, local: Ipv4, reliable: bool) {
    run == [] ||
    var before, h := run[..|run| - 1], run[|run| - 1];
    && AnyRun(before, local, reliable)
    && Handled(WorldAfter(before), DesiredAfter(before), h.msg, local, h.after, h.desired, reliable)
  }

  /** After every run of the agent, what is recorded is in the kernel as recorded, and every managed
      namespace has its loopback up and its default route at the recorded gateway. */
  lemma {:induction false} AgentStaysBacked(run: seq<Handling>, local: Ipv4, reliable: bool)
    requires AnyRun(run, local, reliable)
    ensures Backed(WorldAfter(run)) && AllRouted(WorldAfter(run))
  {
    if run != [] {
      var before, h := run[..|run| - 1], run[|run| - 1];
      AgentStaysBacked(before, local, reliable);
      HandledStaysBacked(WorldAfter(before), DesiredAfter(before), h.msg, local, h.after, h.desired, reliable);
    }
  }

  lemma HandledStaysBacked(w: World, desired: Desired, msg: Message, local: Ipv4, w': World, desired': Desired,
                           reliable: bool)
    requires Backed(w) && AllRouted(w) && Handled(w, desired, msg, local, w', desired', reliable)
    ensures Backed(w') && AllRouted(w')
  {
    var previous :| Enumerates(previous, desired) && Performed(w, Script(msg, previous, local), w', reliable);
    var run :| IsRun(w, run, reliable) && Ops(run) == Script(msg, previous, local) && Last(w, run) == w';
    AlwaysBacked(w, run, reliable);
    AlwaysRouted(w, run, reliable);
  }
}
