/**
The agent's DesiredState handler, run against the manager: it performs exactly the script of
the message, ignoring the results of the operations.
*/
module Agent {
  import opened Wrappers
  import opened IfaceNames
  import opened Tunnel
  import opened Kernel
  import opened NetnsSteps
  import opened NetnsInvariants
  import opened NetnsExact
  import opened NetnsManager
  import opened DesiredState

  // ---------- when the script of a message fits ----------

  /** Prefixes are numbers and network identifiers have 24 bits. */
  predicate WellFormed(msg: Message) {
    forall c :: c in msg.networks ==>
      c.vni < VNI_SIZE && (c.gateway.Some? ==> ValidPrefix(PrefixLen(c.subnet)))
  }

  /** No namespace would hold two services whose names share their first eight characters. */
  ghost predicate NoClash(mem: Namespaces, msg: Message) {
    forall n :: DistinctShorts(ServicesOf(mem, n) + Candidates(msg.services, n))
  }

  lemma {:induction false} FitsConcat(mem: Namespaces, a: seq<Op>, b: seq<Op>)
    requires FitsAll(mem, a) && FitsAll(MemAll(mem, a), b)
    ensures FitsAll(mem, a + b)
  {
    if b == [] {
      assert a + b == a;
    } else {
      assert (a + b)[..|a + b| - 1] == a + b[..|b| - 1];
      FitsConcat(mem, a, b[..|b| - 1]);
      MemAllConcat(mem, a, b[..|b| - 1]);
    }
  }

  lemma FitsSnoc(mem: Namespaces, a: seq<Op>, op: Op)
    requires FitsAll(mem, a) && Fits(MemAll(mem, a), op)
    ensures FitsAll(mem, a + [op])
  {
    assert (a + [op])[..|a|] == a;
  }

  lemma {:induction false} EnsureFits(mem: Namespaces, networks: seq<NetworkConfig>)
    requires forall c :: c in networks && c.gateway.Some? ==> ValidPrefix(PrefixLen(c.subnet))
    ensures FitsAll(mem, EnsureOps(networks))
  {
    if networks != [] {
      var front, c := networks[..|networks| - 1], networks[|networks| - 1];
      assert networks == front + [c];
      EnsureFits(mem, front);
      FitsSnoc(mem, EnsureOps(front), EnsureNamespace(c.namespace, c.subnet, c.gateway, c.vni));
    }
  }

  lemma {:induction false} AddFits(mem: Namespaces, services: seq<ServiceSpec>, all: seq<ServiceSpec>)
    requires NonDefault(mem) && services <= all && forall n :: n in mem ==> Coherent(mem[n])
    requires forall n :: n in mem ==> DistinctShorts(mem[n].veths.Keys + Candidates(all, n))
    ensures FitsAll(mem, AddOps(services))
  {
    if services != [] {
      var front, s := services[..|services| - 1], services[|services| - 1];
      assert services == front + [s];
      AddFits(mem, front, all);
      if Networked(s) {
        var n, m := s.namespace, MemAll(mem, AddOps(front));
        AddPhase(mem, front, n);
        assert all[|services| - 1] == s;
        assert forall i :: 0 <= i < |front| ==> front[i] == all[i];
        assert n in m ==> m[n].veths.Keys + {s.name} <= mem[n].veths.Keys + Candidates(all, n);
        FitsSnoc(mem, AddOps(front), AddService(n, s.name, s.ip.value));
      } else {
        assert AddOps(services) == AddOps(front);
      }
    }
  }

  lemma {:induction false} RemoveFits(mem: Namespaces, previous: seq<ServiceSpec>, names: set<string>)
    ensures FitsAll(mem, RemoveOps(previous, names))
  {
    if previous != [] {
      var front, s := previous[..|previous| - 1], previous[|previous| - 1];
      RemoveFits(mem, front, names);
      if s.name in names {
        assert RemoveOps(previous, names) == RemoveOps(front, names);
      } else {
        FitsSnoc(mem, RemoveOps(front, names), RemoveService(s.namespace, s.name));
      }
    }
  }

  lemma {:induction false} TunnelFits(mem: Namespaces, networks: seq<NetworkConfig>, local: Ipv4)
    requires forall c :: c in networks ==> c.vni < VNI_SIZE
    ensures FitsAll(mem, TunnelOps(networks, local))
  {
    if networks != [] {
      var front, c := networks[..|networks| - 1], networks[|networks| - 1];
      assert networks == front + [c];
      TunnelFits(mem, front, local);
      FitsSnoc(mem, TunnelOps(front, local), TunnelOpFor(c, local));
    }
  }

  /** On a clean and reliable kernel, no command of a well-formed message without name clashes is
      ever refused. */
  lemma ScriptFits(mem: Namespaces, msg: Message, previous: seq<ServiceSpec>, local: Ipv4)
    requires NonDefault(mem) && (forall n :: n in mem ==> Coherent(mem[n]))
    requires WellFormed(msg) && NoClash(mem, msg)
    ensures FitsAll(mem, Script(msg, previous, local))
  {
    var e, a := EnsureOps(msg.networks), AddOps(msg.services);
    var r, t := RemoveOps(previous, Names(msg.services)), TunnelOps(msg.networks, local);
    EnsureFits(mem, msg.networks);
    EnsurePhase(mem, msg.networks);
    var m := MemAll(mem, e);
    forall n | n in m
      ensures DistinctShorts(m[n].veths.Keys + Candidates(msg.services, n))
    {
      assert m[n].veths.Keys == ServicesOf(mem, n);
    }
    AddFits(m, msg.services, msg.services);
    FitsConcat(mem, e, a);
    RemoveFits(MemAll(mem, e + a), previous, Names(msg.services));
    FitsConcat(mem, e + a, r);
    TunnelFits(MemAll(mem, e + a + r), msg.networks, local);
    FitsConcat(mem, e + a + r, t);
    FitsSnoc(mem, e + a + r + t, GcNamespaces(ActiveNames(msg.networks)));
  }

  // ---------- the handler ----------

  /** A run that ends in the given world having performed the given operations. */
  ghost predicate Performed(start: World, ops: seq<Op>, w: World, reliable: bool) {
    exists run :: IsRun(start, run, reliable) && Ops(run) == ops && Last(start, run) == w
  }

  lemma PerformedNothing(w: World, reliable: bool)
    ensures Performed(w, [], w, reliable)
  {
    var none: seq<Event> := [];
    assert IsRun(w, none, reliable) && Ops(none) == [] && Last(w, none) == w;
  }

  lemma PerformedOneMore(start: World, ops: seq<Op>, w: World, op: Op, r: Outcome, w': World, reliable: bool)
    requires Performed(start, ops, w, reliable) && Step(w, op, r, w', reliable)
    ensures Performed(start, ops + [op], w', reliable)
  {
    var run :| IsRun(start, run, reliable) && Ops(run) == ops && Last(start, run) == w;
    var run' := run + [Event(op, r, w')];
    assert run'[..|run'| - 1] == run;
    assert Ops(run') == ops + [op] && Last(start, run') == w';
  }

  /** If every operation fits, a performed script has its full effect. */
  lemma PerformedIsClean(start: World, ops: seq<Op>, w: World)
    requires Backed(start) && Clean(start) && FitsAll(start.mem, ops) && Performed(start, ops, w, true)
    ensures Clean(w) && w.mem == MemAll(start.mem, ops)
  {
    var run :| IsRun(start, run, true) && Ops(run) == ops && Last(start, run) == w;
    RunIsClean(start, run);
  }

  /** What handling a message means: the new desired services, and the script performed for some
      enumeration of the earlier ones. */
  ghost predicate Handled(w: World, desired: Desired, msg: Message, local: Ipv4, w': World, desired': Desired,
                          reliable: bool)
  {
    && desired' == DesiredOf(msg.services)
    && exists previous :: Enumerates(previous, desired) && Performed(w, Script(msg, previous, local), w', reliable)
  }

  class AgentHandler {
    const manager: NamespaceNetworkManager
    var desired: Desired

    constructor (manager: NamespaceNetworkManager)
      ensures this.manager == manager && desired == map[]
    {
      this.manager := manager;
      desired := map[];
    }

    /** One manager operation, whose result is only logged. */
    method Perform(op: Op, ghost start: World, ghost ops: seq<Op>)
      requires Backed(manager.Now()) && Performed(start, ops, manager.Now(), manager.kernel.reliable)
      modifies manager, manager.kernel
      ensures Backed(manager.Now()) && Performed(start, ops + [op], manager.Now(), manager.kernel.reliable)
    {
      ghost var w := manager.Now();
      var r: Outcome;
      match op {
        case EnsureNamespace(n, subnet, gateway, vni) => r := manager.EnsureNamespace(n, subnet, gateway, vni);
        case AddService(n, svc, ip) =>
          var container;
          r, container := manager.AddService(n, svc, ip);
        case RemoveService(n, svc) => r := manager.RemoveService(n, svc);
        case DestroyNamespace(n) => r := manager.DestroyNamespace(n);
        case EnsureTunnel(n, vni, local, peers) => r := manager.EnsureVxlanTunnel(n, vni, local, peers);
        case RemoveTunnel(n) => r := manager.RemoveVxlanTunnel(n);
        case GcNamespaces(active) => r := manager.GcNamespaces(active);
      }
      StepKeepsBacked(w, op, r, manager.Now(), manager.kernel.reliable);
      PerformedOneMore(start, ops, w, op, r, manager.Now(), manager.kernel.reliable);
    }

    method EnsureNamespaces(networks: seq<NetworkConfig>, ghost start: World) returns (active: seq<string>)
      requires Backed(manager.Now()) && Performed(start, [], manager.Now(), manager.kernel.reliable)
      modifies manager, manager.kernel
      ensures Backed(manager.Now()) && Performed(start, EnsureOps(networks), manager.Now(), manager.kernel.reliable)
      ensures active == ActiveNames(networks)
    {
      active := [];
      for i := 0 to |networks|
        invariant Backed(manager.Now())
        invariant Performed(start, EnsureOps(networks[..i]), manager.Now(), manager.kernel.reliable)
        invariant active == ActiveNames(networks[..i])
      {
        var c := networks[i];
        Perform(EnsureNamespace(c.namespace, c.subnet, c.gateway, c.vni), start, EnsureOps(networks[..i]));
        active := active + [c.namespace];
        assert networks[..i + 1][..i] == networks[..i];
      }
      assert networks[..|networks|] == networks;
    }

    method AddServices(services: seq<ServiceSpec>, ghost start: World, ghost ops: seq<Op>)
      requires Backed(manager.Now()) && Performed(start, ops, manager.Now(), manager.kernel.reliable)
      modifies manager, manager.kernel
      ensures Backed(manager.Now()) && Performed(start, ops + AddOps(services), manager.Now(), manager.kernel.reliable)
    {
      assert ops + AddOps(services[..0]) == ops;
      for i := 0 to |services|
        invariant Backed(manager.Now())
        invariant Performed(start, ops + AddOps(services[..i]), manager.Now(), manager.kernel.reliable)
      {
        var s := services[i];
        assert services[..i + 1][..i] == services[..i];
        if Networked(s) {
          Perform(AddService(s.namespace, s.name, s.ip.value), start, ops + AddOps(services[..i]));
          assert ops + AddOps(services[..i + 1]) ==
            ops + AddOps(services[..i]) + [AddService(s.namespace, s.name, s.ip.value)];
        } else {
          assert AddOps(services[..i + 1]) == AddOps(services[..i]);
        }
      }
      assert services[..|services|] == services;
    }

    /** Replaces the desired services and returns those desired before, outside the default
        namespace, in no particular order. */
    method ReplaceDesired(services: seq<ServiceSpec>) returns (previous: seq<ServiceSpec>)
      modifies this
      ensures Enumerates(previous, old(desired)) && desired == DesiredOf(services)
    {
      previous := [];
      var names := set name | name in desired && !IsDefault(desired[name].namespace);
      ghost var done: set<string> := {};
      while names != {}
        invariant desired == old(desired) && names <= desired.Keys && done <= desired.Keys
        invariant done + names == set name | name in desired && !IsDefault(desired[name].namespace)
        invariant forall s :: s in previous <==> exists name :: name in done && desired[name] == s
        decreases names
      {
        var name :| name in names;
        previous := previous + [desired[name]];
        names, done := names - {name}, done + {name};
      }
      desired := map[];
      for i := 0 to |services|
        invariant desired == DesiredOf(services[..i])
      {
        desired := desired[services[i].name := services[i]];
        assert services[..i + 1][..i] == services[..i];
      }
      assert services[..|services|] == services;
    }

    method RemoveServices(previous: seq<ServiceSpec>, names: set<string>, ghost start: World, ghost ops: seq<Op>)
      requires Backed(manager.Now()) && Performed(start, ops, manager.Now(), manager.kernel.reliable)
      modifies manager, manager.kernel
      ensures Backed(manager.Now())
      ensures Performed(start, ops + RemoveOps(previous, names), manager.Now(), manager.kernel.reliable)
    {
      assert ops + RemoveOps(previous[..0], names) == ops;
      for i := 0 to |previous|
        invariant Backed(manager.Now())
        invariant Performed(start, ops + RemoveOps(previous[..i], names), manager.Now(), manager.kernel.reliable)
      {
        var s := previous[i];
        assert previous[..i + 1][..i] == previous[..i];
        if s.name !in names {
          Perform(RemoveService(s.namespace, s.name), start, ops + RemoveOps(previous[..i], names));
          assert ops + RemoveOps(previous[..i + 1], names) ==
            ops + RemoveOps(previous[..i], names) + [RemoveService(s.namespace, s.name)];
        } else {
          assert RemoveOps(previous[..i + 1], names) == RemoveOps(previous[..i], names);
        }
      }
      assert previous[..|previous|] == previous;
    }

    method UpdateTunnels(networks: seq<NetworkConfig>, local: Ipv4, ghost start: World, ghost ops: seq<Op>)
      requires Backed(manager.Now()) && Performed(start, ops, manager.Now(), manager.kernel.reliable)
      modifies manager, manager.kernel
      ensures Backed(manager.Now())
      ensures Performed(start, ops + TunnelOps(networks, local), manager.Now(), manager.kernel.reliable)
    {
      assert ops + TunnelOps(networks[..0], local) == ops;
      for i := 0 to |networks|
        invariant Backed(manager.Now())
        invariant Performed(start, ops + TunnelOps(networks[..i], local), manager.Now(), manager.kernel.reliable)
      {
        assert networks[..i + 1][..i] == networks[..i];
        Perform(TunnelOpFor(networks[i], local), start, ops + TunnelOps(networks[..i], local));
        assert ops + TunnelOps(networks[..i + 1], local) ==
          ops + TunnelOps(networks[..i], local) + [TunnelOpFor(networks[i], local)];
      }
      assert networks[..|networks|] == networks;
    }

    /** The namespace part of the DesiredState handler. It performs the script of the message; on a
        reliable kernel without debris, a well-formed message without name clashes is delivered in
        full and leaves no debris. */
    method HandleDesiredState(msg: Message, local: Ipv4) returns (ghost previous: seq<ServiceSpec>)
      requires Backed(manager.Now())
      modifies this, manager, manager.kernel
      ensures Backed(manager.Now()) && desired == DesiredOf(msg.services)
      ensures Enumerates(previous, old(desired))
      ensures Performed(old(manager.Now()), Script(msg, previous, local), manager.Now(), manager.kernel.reliable)
      ensures Handled(old(manager.Now()), old(desired), msg, local, manager.Now(), desired, manager.kernel.reliable)
      ensures var mem, mem' := old(manager.Now()).mem, manager.Now().mem;
              manager.kernel.reliable && old(Clean(manager.Now())) && WellFormed(msg) && NoClash(mem, msg) ==>
                && Clean(manager.Now())
                && Delivery(AgentState(mem, old(desired)), msg, local, AgentState(mem', desired))
    {
      ghost var start := manager.Now();
      PerformedNothing(start, manager.kernel.reliable);
      var active := EnsureNamespaces(msg.networks, start);
      ghost var ops := EnsureOps(msg.networks);
      AddServices(msg.services, start, ops);
      ops := ops + AddOps(msg.services);
      var before := ReplaceDesired(msg.services);
      previous := before;
      RemoveServices(before, Names(msg.services), start, ops);
      ops := ops + RemoveOps(before, Names(msg.services));
      UpdateTunnels(msg.networks, local, start, ops);
      ops := ops + TunnelOps(msg.networks, local);
      Perform(GcNamespaces(active), start, ops);
      assert ops + [GcNamespaces(active)] == Script(msg, before, local);
      if manager.kernel.reliable && Clean(start) && WellFormed(msg) && NoClash(start.mem, msg) {
        ScriptFits(start.mem, msg, before, local);
        PerformedIsClean(start, Script(msg, before, local), manager.Now());
      }
    }
  }
}
