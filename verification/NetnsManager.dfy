/**
The namespace network manager, run command by command against the kernel. Every operation
meets its relation in `NetnsSteps`.
*/
module NetnsManager {
  import opened Wrappers
  import opened IfaceNames
  import opened Tunnel
  import opened Kernel
  import opened NetnsSteps

  class NamespaceNetworkManager {
    var namespaces: Namespaces
    const kernel: System

    constructor (kernel: System)
      ensures this.kernel == kernel && namespaces == map[]
    {
      this.kernel := kernel;
      namespaces := map[];
    }

    function Now(): World
      reads this, kernel
    {
      World(namespaces, kernel.st)
    }

    method EnsureNamespace(n: string, subnet: string, gateway: Option<Ipv4>, vni: nat) returns (r: Outcome)
      modifies this, kernel
      ensures EnsureStep(old(Now()), n, subnet, gateway, vni, r, Now(), kernel.reliable)
    {
      if IsDefault(n) {
        return Ok;
      }
      if n in namespaces {
        return Ok;
      }
      if gateway.None? {
        return Err(Config);
      }
      var ok := SetUpSpace(n, PrefixLen(subnet), gateway.value);
      if !ok {
        return Err(Command);
      }
      namespaces := namespaces[n := FreshNetwork(n, subnet, gateway.value, vni)];
      return Ok;
    }

    /** All the commands of a set-up. A failure after the first one leaves the network namespace. */
    method SetUpSpace(n: string, prefix: string, gateway: Ipv4) returns (ok: bool)
      modifies kernel
      ensures ok ==>
                && BridgeFree(old(kernel.st), n, prefix)
                && kernel.st == InSpace(old(kernel.st), n, BridgeSpace(n, prefix, gateway))
      ensures !ok && kernel.reliable ==> n in kernel.st.spaces && !BridgeFree(old(kernel.st), n, prefix)
      ensures kernel.st == old(kernel.st) || n in kernel.st.spaces
      ensures Extends(old(kernel.st), kernel.st, n) && Frame(old(kernel.st), kernel.st, n, {BridgeFor(n)})
    {
      ConfigureCommands(kernel.st, n, prefix, gateway);
      ok := CreateSpace(n);
      if ok {
        ghost var k1 := kernel.st;
        ok := kernel.RunAll(ConfigureCmds(n, prefix, gateway), n, {BridgeFor(n)});
        FrameTwice(old(kernel.st), k1, kernel.st, n, {BridgeFor(n)});
      }
    }

    /** Creates the network namespace and moves a bridge into it. */
    method CreateSpace(n: string) returns (ok: bool)
      modifies kernel
      ensures Extends(old(kernel.st), kernel.st, n) && Frame(old(kernel.st), kernel.st, n, {BridgeFor(n)})
      ensures ok ==>
                && n !in old(kernel.st).spaces && BridgeFor(n) !in old(kernel.st).host
                && kernel.st == InSpace(old(kernel.st), n, BareSpace(n))
      ensures !ok && kernel.reliable ==>
                n in kernel.st.spaces && (n in old(kernel.st).spaces || BridgeFor(n) in old(kernel.st).host)
      ensures kernel.st == old(kernel.st) || n in kernel.st.spaces
    {
      CreateCommands(kernel.st, n);
      ghost var k := kernel.st;
      ok := kernel.Run(NetnsAdd(n));
      if ok {
        ConfinedExtends(k, NetnsAdd(n), n);
        ConfinedFrames(k, NetnsAdd(n), n, {BridgeFor(n)});
        ghost var k1 := kernel.st;
        ok := kernel.RunAll(BridgeCmds(n), n, {BridgeFor(n)});
        FrameTwice(k, k1, kernel.st, n, {BridgeFor(n)});
      }
    }

    /** Adds a service: a veth pair with the host end on the bridge and the container end
        carrying the assigned address. */
    method AddService(n: string, svc: string, ip: Ipv4) returns (r: Outcome, container: IfName)
      requires n in namespaces ==> HasLink(kernel.st, n, BridgeFor(n))
      modifies this, kernel
      ensures AddStep(old(Now()), n, svc, ip, r, Now(), kernel.reliable)
      ensures container == VethContainer(Short(svc))
    {
      container := VethContainer(Short(svc));
      if IsDefault(n) {
        return Err(Config), container;
      }
      if n !in namespaces {
        return Err(Config), container;
      }
      if svc in namespaces[n].veths {
        return Ok, container;
      }
      var ok := CreateVeth(n, svc, ip);
      if !ok {
        return Err(Command), container;
      }
      namespaces := namespaces[n := WithService(namespaces[n], svc, ip)];
      return Ok, container;
    }

    /** A failure leaves the effect of the commands before the one that failed. */
    method CreateVeth(n: string, svc: string, ip: Ipv4) returns (ok: bool)
      requires HasLink(kernel.st, n, BridgeFor(n))
      modifies kernel
      ensures ok ==> VethFree(old(kernel.st), n, svc) && kernel.st == WithVeth(old(kernel.st), n, svc, ip)
      ensures !ok ==> Stopped(old(kernel.st), VethCmds(n, svc, ip), kernel.st, kernel.reliable)
      ensures kernel.reliable && VethFree(old(kernel.st), n, svc) ==> ok
      ensures Extends(old(kernel.st), kernel.st, n)
      ensures Frame(old(kernel.st), kernel.st, n, {VethHost(Short(svc)), VethContainer(Short(svc))})
    {
      VethCommands(kernel.st, n, svc, ip);
      ok := kernel.RunAll(VethCmds(n, svc, ip), n, {VethHost(Short(svc)), VethContainer(Short(svc))});
    }

    method RemoveService(n: string, svc: string) returns (r: Outcome)
      modifies this, kernel
      ensures r == Ok && RemoveStep(old(Now()), n, svc, Now(), kernel.reliable)
    {
      if IsDefault(n) {
        return Ok;
      }
      if n !in namespaces {
        return Ok;
      }
      if svc in namespaces[n].veths {
        namespaces := namespaces[n := WithoutService(namespaces[n], svc)];
        var _ := kernel.Run(LinkDel(n, VethHost(Short(svc))));
      }
      return Ok;
    }

    method DestroyNamespace(n: string) returns (r: Outcome)
      modifies this, kernel
      ensures r == Ok && DestroyStep(old(Now()), n, Now(), kernel.reliable)
    {
      if IsDefault(n) {
        return Ok;
      }
      if n !in namespaces {
        return Ok;
      }
      namespaces := namespaces - {n};
      var _ := kernel.Run(NetnsDel(n));
      return Ok;
    }

    method RemoveVxlanTunnel(n: string) returns (r: Outcome)
      modifies this, kernel
      ensures r == Ok && UntunnelStep(old(Now()), n, Now(), kernel.reliable)
    {
      if IsDefault(n) {
        return Ok;
      }
      if n !in namespaces {
        return Ok;
      }
      if namespaces[n].vxlan.Some? {
        var vxlan := namespaces[n].vxlan.value;
        namespaces := namespaces[n := namespaces[n].(vxlan := None)];
        var _ := kernel.Run(LinkDel(n, vxlan));
        namespaces := namespaces[n := namespaces[n].(peers := map[])];
      }
      return Ok;
    }

    /** Removes every namespace not listed, in no particular order. */
    method GcNamespaces(active: seq<string>) returns (r: Outcome)
      requires forall n :: n in namespaces ==> !IsDefault(n)
      modifies this, kernel
      ensures r == Ok && GcStep(old(Now()), active, Now(), kernel.reliable)
    {
      var toRemove := set n | n in namespaces && n !in active;
      ghost var all, w := toRemove, Now();
      while toRemove != {}
        invariant toRemove <= all
        invariant namespaces == w.mem - (all - toRemove)
        invariant GcProgress(w.k, all, toRemove, kernel.st, kernel.reliable)
        decreases toRemove
      {
        var n :| n in toRemove;
        ghost var before := kernel.st;
        var _ := DestroyNamespace(n);
        GcProgressStep(w.k, all, toRemove, before, n, kernel.st, kernel.reliable);
        toRemove := toRemove - {n};
      }
      assert namespaces == Listed(w.mem, active);
      return Ok;
    }

    /** Sets up or updates the tunnel of a namespace: creates the device if needed, removes the
        entries of departed peers, then sets every entry of every listed peer. */
    method EnsureVxlanTunnel(n: string, vni: nat, local: Ipv4, peers: seq<PeerInfo>) returns (r: Outcome)
      requires n in namespaces ==> HasLink(kernel.st, n, BridgeFor(n))
      requires n in namespaces && namespaces[n].vxlan.Some? ==>
                 namespaces[n].vxlan == Some(VxlanFor(n)) && HasLink(kernel.st, n, VxlanFor(n))
      modifies this, kernel
      ensures TunnelStep(old(Now()), n, vni, local, peers, r, Now(), kernel.reliable)
    {
      if IsDefault(n) {
        return Ok;
      }
      if n !in namespaces {
        return Err(Config);
      }
      if namespaces[n].vxlan.None? {
        var ok := CreateDevice(n, vni, local);
        if !ok {
          return Err(Command);
        }
      }
      assert kernel.st == DeviceReady(old(Now()), n, vni, local);
      UpdatePeers(n, peers);
      return Ok;
    }

    method CreateDevice(n: string, vni: nat, local: Ipv4) returns (ok: bool)
      requires n in namespaces && HasLink(kernel.st, n, BridgeFor(n))
      modifies this, kernel
      ensures ok ==> TunnelFree(old(kernel.st), n, vni) && kernel.st == WithVxlan(old(kernel.st), n, vni, local)
      ensures ok ==> namespaces == old(namespaces)[n := old(namespaces)[n].(vxlan := Some(VxlanFor(n)))]
      ensures !ok ==>
                && namespaces == old(namespaces) && Extends(old(kernel.st), kernel.st, n)
                && Frame(old(kernel.st), kernel.st, n, {VxlanFor(n)})
                && Stopped(old(kernel.st), VxlanCmds(n, vni, local), kernel.st, kernel.reliable)
      ensures kernel.reliable && TunnelFree(old(kernel.st), n, vni) ==> ok
    {
      VxlanCommands(kernel.st, n, vni, local);
      ok := kernel.RunAll(VxlanCmds(n, vni, local), n, {VxlanFor(n)});
      if ok {
        namespaces := namespaces[n := namespaces[n].(vxlan := Some(VxlanFor(n)))];
      }
    }

    method UpdatePeers(n: string, peers: seq<PeerInfo>)
      requires n in namespaces && HasLink(kernel.st, n, VxlanFor(n))
      modifies this, kernel
      ensures namespaces == old(namespaces)[n := old(namespaces)[n].(peers := Recorded(peers))]
      ensures TablesStep(old(kernel.st), n, old(namespaces)[n].peers, peers, kernel.st, kernel.reliable)
    {
      ghost var k, recorded := kernel.st, namespaces[n].peers;
      RemoveDeparted(n, peers);
      ghost var k1 := kernel.st;
      SetListed(n, peers);
      StillListedOverwritten(recorded, peers);
      WholeDiff(k, n, recorded, peers, k1, kernel.st, kernel.reliable);
    }

    /** Removes the entries of recorded peers that are no longer listed. */
    method RemoveDeparted(n: string, peers: seq<PeerInfo>)
      requires n in namespaces && HasLink(kernel.st, n, VxlanFor(n))
      modifies this, kernel
      ensures var ns := old(namespaces)[n];
              namespaces == old(namespaces)[n := ns.(peers := StillListed(ns.peers, peers))]
      ensures TablesChange(old(kernel.st), n, kernel.st)
      ensures var t, t' := TablesOf(old(kernel.st), n, VxlanFor(n)), TablesOf(kernel.st, n, VxlanFor(n));
              var departed := Departed(old(namespaces)[n].peers, peers);
              RemovedOrLess(t, departed, t', kernel.reliable)
    {
      var current := namespaces[n].peers;
      ghost var k, recorded := kernel.st, current;
      ghost var t := TablesOf(k, n, VxlanFor(n));
      var ids := current.Keys;
      ghost var gone: set<string> := {};
      Nothing(t);
      SameTables(k, n);
      assert recorded - gone == recorded;
      assert StatesAt(recorded, gone) == {};
      while ids != {}
        invariant ids <= recorded.Keys && gone == (recorded.Keys - ids) - Ids(peers)
        invariant namespaces == old(namespaces) && current == recorded - gone
        invariant TablesChange(k, n, kernel.st)
        invariant RemovedOrLess(t, StatesAt(recorded, gone), TablesOf(kernel.st, n, VxlanFor(n)), kernel.reliable)
        decreases ids
      {
        var id :| id in ids;
        ids := ids - {id};
        if id !in Ids(peers) && id in current {
          var peer := current[id];
          current := current - {id};
          ghost var k1 := kernel.st;
          RemovePeerEntries(n, peer);
          TablesChangeTwice(k, n, k1, kernel.st);
          OneMoreGone(recorded, gone, id);
          RemovedMore(t, StatesAt(recorded, gone), TablesOf(k1, n, VxlanFor(n)), peer,
                      TablesOf(kernel.st, n, VxlanFor(n)), kernel.reliable);
          gone := gone + {id};
        }
      }
      assert gone == recorded.Keys - Ids(peers);
      assert recorded - gone == StillListed(recorded, peers);
      namespaces := namespaces[n := namespaces[n].(peers := current)];
    }

    /** Sets the entries of every listed peer and records it. */
    method SetListed(n: string, peers: seq<PeerInfo>)
      requires n in namespaces && HasLink(kernel.st, n, VxlanFor(n))
      modifies this, kernel
      ensures var ns := old(namespaces)[n];
              namespaces == old(namespaces)[n := ns.(peers := ns.peers + Recorded(peers))]
      ensures TablesChange(old(kernel.st), n, kernel.st)
      ensures var t, t' := TablesOf(old(kernel.st), n, VxlanFor(n)), TablesOf(kernel.st, n, VxlanFor(n));
              AddedOrLess(t, States(peers), t', kernel.reliable)
    {
      ghost var k := kernel.st;
      ghost var t := TablesOf(k, n, VxlanFor(n));
      Nothing(t);
      SameTables(k, n);
      var current := namespaces[n].peers;
      ghost var before := current;
      assert States(peers[..0]) == {} && before + Recorded(peers[..0]) == before;
      for i := 0 to |peers|
        invariant namespaces == old(namespaces) && current == before + Recorded(peers[..i])
        invariant TablesChange(k, n, kernel.st)
        invariant AddedOrLess(t, States(peers[..i]), TablesOf(kernel.st, n, VxlanFor(n)), kernel.reliable)
      {
        var peer := peers[i];
        ghost var k1 := kernel.st;
        SetPeerEntries(n, peer.state);
        current := current[peer.nodeId := peer.state];
        TablesChangeTwice(k, n, k1, kernel.st);
        OneMorePeer(before, peers, i);
        AddedMore(t, States(peers[..i]), TablesOf(k1, n, VxlanFor(n)), peer.state, TablesOf(kernel.st, n, VxlanFor(n)),
                  kernel.reliable);
      }
      assert peers[..|peers|] == peers;
      namespaces := namespaces[n := namespaces[n].(peers := current)];
    }

    method RemovePeerEntries(n: string, peer: PeerState)
      requires HasLink(kernel.st, n, VxlanFor(n))
      modifies kernel
      ensures TablesChange(old(kernel.st), n, kernel.st)
      ensures var t, t' := TablesOf(old(kernel.st), n, VxlanFor(n)), TablesOf(kernel.st, n, VxlanFor(n));
              RemovedOrLess(t, {peer}, t', kernel.reliable)
    {
      ghost var k := kernel.st;
      ghost var t := TablesOf(k, n, VxlanFor(n));
      DeleteFdb(n, ALL_ZEROS, peer.endpoint);
      NoServices(peer);
      for i := 0 to |peer.services|
        invariant TablesChange(k, n, kernel.st)
        invariant SomeRemoved(t, peer, i, TablesOf(kernel.st, n, VxlanFor(n)), kernel.reliable)
      {
        var ip := peer.services[i].1;
        ghost var k1 := kernel.st;
        DeleteFdb(n, MacFor(ip), peer.endpoint);
        ghost var k2 := kernel.st;
        DeleteNeigh(n, ip);
        TablesChangeTwice(k1, n, k2, kernel.st);
        TablesChangeTwice(k, n, k1, kernel.st);
        SomeRemovedStep(t, peer, i, TablesOf(k1, n, VxlanFor(n)), TablesOf(kernel.st, n, VxlanFor(n)), kernel.reliable);
      }
      SomeRemovedEnd(t, peer, TablesOf(kernel.st, n, VxlanFor(n)), kernel.reliable);
    }

    method SetPeerEntries(n: string, peer: PeerState)
      requires HasLink(kernel.st, n, VxlanFor(n))
      modifies kernel
      ensures TablesChange(old(kernel.st), n, kernel.st)
      ensures var t, t' := TablesOf(old(kernel.st), n, VxlanFor(n)), TablesOf(kernel.st, n, VxlanFor(n));
              AddedOrLess(t, {peer}, t', kernel.reliable)
    {
      ghost var k := kernel.st;
      ghost var t := TablesOf(k, n, VxlanFor(n));
      AppendFdb(n, ALL_ZEROS, peer.endpoint);
      NoServices(peer);
      for i := 0 to |peer.services|
        invariant TablesChange(k, n, kernel.st)
        invariant SomeAdded(t, peer, i, TablesOf(kernel.st, n, VxlanFor(n)), kernel.reliable)
      {
        var ip := peer.services[i].1;
        ghost var k1 := kernel.st;
        AppendFdb(n, MacFor(ip), peer.endpoint);
        ghost var k2 := kernel.st;
        ReplaceNeigh(n, ip);
        TablesChangeTwice(k1, n, k2, kernel.st);
        TablesChangeTwice(k, n, k1, kernel.st);
        SomeAddedStep(t, peer, i, TablesOf(k1, n, VxlanFor(n)), TablesOf(kernel.st, n, VxlanFor(n)), kernel.reliable);
      }
      SomeAddedEnd(t, peer, TablesOf(kernel.st, n, VxlanFor(n)), kernel.reliable);
    }

    // The four table commands, whose results are ignored.

    method DeleteFdb(n: string, mac: Mac, dst: Ipv4)
      requires HasLink(kernel.st, n, VxlanFor(n))
      modifies kernel
      ensures TablesChange(old(kernel.st), n, kernel.st)
      ensures var t, t' := TablesOf(old(kernel.st), n, VxlanFor(n)), TablesOf(kernel.st, n, VxlanFor(n));
              t'.neigh == t.neigh && (t'.fdb == t.fdb - {(mac, dst)} || (!kernel.reliable && t'.fdb == t.fdb))
    {
      SameTables(kernel.st, n);
      var _ := kernel.Run(FdbDel(n, VxlanFor(n), mac, dst));
    }

    method DeleteNeigh(n: string, ip: Ipv4)
      requires HasLink(kernel.st, n, VxlanFor(n))
      modifies kernel
      ensures TablesChange(old(kernel.st), n, kernel.st)
      ensures var t, t' := TablesOf(old(kernel.st), n, VxlanFor(n)), TablesOf(kernel.st, n, VxlanFor(n));
              t'.fdb == t.fdb && (t'.neigh == t.neigh - {ip} || (!kernel.reliable && t'.neigh == t.neigh))
    {
      SameTables(kernel.st, n);
      var _ := kernel.Run(NeighDel(n, VxlanFor(n), ip));
    }

    method AppendFdb(n: string, mac: Mac, dst: Ipv4)
      requires HasLink(kernel.st, n, VxlanFor(n))
      modifies kernel
      ensures TablesChange(old(kernel.st), n, kernel.st)
      ensures var t, t' := TablesOf(old(kernel.st), n, VxlanFor(n)), TablesOf(kernel.st, n, VxlanFor(n));
              t'.neigh == t.neigh && (t'.fdb == t.fdb + {(mac, dst)} || (!kernel.reliable && t'.fdb == t.fdb))
    {
      SameTables(kernel.st, n);
      var _ := kernel.Run(FdbAppend(n, VxlanFor(n), mac, dst));
    }

    method ReplaceNeigh(n: string, ip: Ipv4)
      requires HasLink(kernel.st, n, VxlanFor(n))
      modifies kernel
      ensures TablesChange(old(kernel.st), n, kernel.st)
      ensures var t, t' := TablesOf(old(kernel.st), n, VxlanFor(n)), TablesOf(kernel.st, n, VxlanFor(n));
              t'.fdb == t.fdb && (t'.neigh == t.neigh[ip := MacFor(ip)] || (!kernel.reliable && t'.neigh == t.neigh))
    {
      SameTables(kernel.st, n);
      var _ := kernel.Run(NeighReplace(n, VxlanFor(n), ip, MacFor(ip)));
    }
  }

  // ---------- garbage collection ----------

  ghost predicate GcProgress(k: KState, all: set<string>, left: set<string>, k': KState, reliable: bool) {
    && k'.host == k.host
    && (forall m :: m in k'.spaces ==> m in k.spaces && k'.spaces[m] == k.spaces[m])
    && (forall m :: m in k.spaces && m !in all ==> m in k'.spaces)
    && (reliable ==> forall m :: m in k'.spaces ==> m !in all || m in left)
  }

  lemma GcProgressStep(k: KState, all: set<string>, left: set<string>, k1: KState, n: string, k2: KState,
                       reliable: bool)
    requires n in left && left <= all && GcProgress(k, all, left, k1, reliable)
    requires Attempted(k1, NetnsDel(n), k2, reliable)
    ensures GcProgress(k, all, left - {n}, k2, reliable)
  {
  }

  // ---------- entry by entry ----------

  ghost predicate RemovedOrLess(t: Tables, ps: set<PeerState>, t': Tables, reliable: bool) {
    Between(t, ps, {}, t') && (reliable ==> t' == Removed(t, ps))
  }

  ghost predicate AddedOrLess(t: Tables, ps: set<PeerState>, t': Tables, reliable: bool) {
    Between(t, {}, ps, t') && (reliable ==> t' == Added(t, ps))
  }

  lemma RemovedMore(t: Tables, ps: set<PeerState>, t1: Tables, p: PeerState, t2: Tables, reliable: bool)
    requires RemovedOrLess(t, ps, t1, reliable) && RemovedOrLess(t1, {p}, t2, reliable)
    ensures RemovedOrLess(t, ps + {p}, t2, reliable)
  {
    RemovedTwice(t, ps, {p});
    BetweenRemoved(t, ps, t1, {p}, t2);
  }

  lemma AddedMore(t: Tables, ps: set<PeerState>, t1: Tables, p: PeerState, t2: Tables, reliable: bool)
    requires AddedOrLess(t, ps, t1, reliable) && AddedOrLess(t1, {p}, t2, reliable)
    ensures AddedOrLess(t, ps + {p}, t2, reliable)
  {
    AddedTwice(t, ps, {p});
    BetweenAdded(t, {}, ps, t1, {p}, t2);
  }

  lemma OneMorePeer(recorded: map<string, PeerState>, peers: seq<PeerInfo>, i: nat)
    requires i < |peers|
    ensures States(peers[..i + 1]) == States(peers[..i]) + {peers[i].state}
    ensures (recorded + Recorded(peers[..i]))[peers[i].nodeId := peers[i].state] == recorded + Recorded(peers[..i + 1])
  {
    assert peers[..i + 1] == peers[..i] + [peers[i]];
    assert peers[..i + 1][..i] == peers[..i];
    assert Recorded(peers[..i + 1]) == Recorded(peers[..i])[peers[i].nodeId := peers[i].state];
  }

  lemma OneMoreGone(recorded: map<string, PeerState>, gone: set<string>, id: string)
    requires id in recorded
    ensures StatesAt(recorded, gone + {id}) == StatesAt(recorded, gone) + {recorded[id]}
    ensures (recorded - gone) - {id} == recorded - (gone + {id})
  {
  }

  function StillListed(recorded: map<string, PeerState>, peers: seq<PeerInfo>): map<string, PeerState> {
    map id | id in recorded && id in Ids(peers) :: recorded[id]
  }

  /** Only the tables of the namespace's VXLAN device have changed. */
  ghost predicate TablesChange(k: KState, n: string, k': KState) {
    && HasLink(k, n, VxlanFor(n)) && HasLink(k', n, VxlanFor(n))
    && k' == WithTables(k, n, VxlanFor(n), TablesOf(k', n, VxlanFor(n)))
  }

  lemma SameTables(k: KState, n: string)
    requires HasLink(k, n, VxlanFor(n))
    ensures TablesChange(k, n, k)
  {
    var links := k.spaces[n].links;
    assert links[VxlanFor(n) := links[VxlanFor(n)]] == links;
  }

  lemma WithTablesTwice(k: KState, n: string, dev: IfName, t1: Tables, t2: Tables)
    requires HasLink(k, n, dev)
    ensures WithTables(WithTables(k, n, dev, t1), n, dev, t2) == WithTables(k, n, dev, t2)
  {
    var k1, link := WithTables(k, n, dev, t1), k.spaces[n].links[dev].(tables := t2);
    var space := k.spaces[n].(links := k.spaces[n].links[dev := link]);
    assert k1.spaces[n].links[dev := link] == k.spaces[n].links[dev := link];
    assert k1.spaces[n := space] == k.spaces[n := space];
  }

  lemma TablesChangeTwice(k: KState, n: string, k1: KState, k2: KState)
    requires TablesChange(k, n, k1) && TablesChange(k1, n, k2)
    ensures TablesChange(k, n, k2)
  {
    WithTablesTwice(k, n, VxlanFor(n), TablesOf(k1, n, VxlanFor(n)), TablesOf(k2, n, VxlanFor(n)));
  }

  lemma StillListedOverwritten(recorded: map<string, PeerState>, peers: seq<PeerInfo>)
    ensures StillListed(recorded, peers) + Recorded(peers) == Recorded(peers)
  {
  }

  /** Removing the departed and then setting the listed is the whole diff. */
  lemma WholeDiff(k: KState, n: string, recorded: map<string, PeerState>, peers: seq<PeerInfo>,
                  k1: KState, k2: KState, reliable: bool)
    requires TablesChange(k, n, k1) && TablesChange(k1, n, k2)
    requires var t, t1 := TablesOf(k, n, VxlanFor(n)), TablesOf(k1, n, VxlanFor(n));
             var departed := Departed(recorded, peers);
             RemovedOrLess(t, departed, t1, reliable)
    requires var t1, t2 := TablesOf(k1, n, VxlanFor(n)), TablesOf(k2, n, VxlanFor(n));
             AddedOrLess(t1, States(peers), t2, reliable)
    ensures TablesStep(k, n, recorded, peers, k2, reliable)
  {
    TablesChangeTwice(k, n, k1, k2);
    var t, t1, t2 := TablesOf(k, n, VxlanFor(n)), TablesOf(k1, n, VxlanFor(n)), TablesOf(k2, n, VxlanFor(n));
    RemoveThenAdd(t, Departed(recorded, peers), States(peers));
    BetweenAdded(t, Departed(recorded, peers), {}, t1, States(peers), t2);
    assert {} + States(peers) == States(peers);
  }

  lemma NoServices(peer: PeerState)
    ensures Fdb({Partial(peer, 0)}) == {(ALL_ZEROS, peer.endpoint)} && Ips({Partial(peer, 0)}) == {}
    ensures Fdb({}) == {} && Ips({}) == {}
  {
    OnePeer(Partial(peer, 0));
  }

  lemma Nothing(t: Tables)
    ensures Fdb({}) == {} && Ips({}) == {}
    ensures Removed(t, {}) == t && Added(t, {}) == t && Between(t, {}, {}, t)
  {
  }

  /** The entries of a peer's first services. */
  function Partial(peer: PeerState, i: nat): PeerState
    requires i <= |peer.services|
  {
    peer.(services := peer.services[..i])
  }

  lemma PartialStep(peer: PeerState, i: nat)
    requires i < |peer.services|
    ensures var ip := peer.services[i].1;
            && Fdb({Partial(peer, i + 1)}) == Fdb({Partial(peer, i)}) + {(MacFor(ip), peer.endpoint)}
            && Ips({Partial(peer, i + 1)}) == Ips({Partial(peer, i)}) + {ip}
  {
    var p, q := Partial(peer, i), Partial(peer, i + 1);
    assert q.services == p.services + [peer.services[i]];
    assert ServiceIps(q.services) == ServiceIps(p.services) + {peer.services[i].1};
    OnePeer(p);
    OnePeer(q);
  }

  lemma OnePeer(p: PeerState)
    ensures Fdb({p}) == PeerFdb(p) && Ips({p}) == PeerIps(p)
  {
  }

  ghost predicate SomeRemoved(t: Tables, peer: PeerState, i: nat, t': Tables, reliable: bool)
    requires i <= |peer.services|
  {
    RemovedOrLess(t, {Partial(peer, i)}, t', reliable)
  }

  ghost predicate SomeAdded(t: Tables, peer: PeerState, i: nat, t': Tables, reliable: bool)
    requires i <= |peer.services|
  {
    AddedOrLess(t, {Partial(peer, i)}, t', reliable)
  }

  /** What two attempted deletions may leave of a table. */
  ghost predicate LessEntry(t: Tables, e: (Mac, Ipv4), ip: Ipv4, t': Tables, reliable: bool) {
    && (t'.fdb == t.fdb - {e} || (!reliable && t'.fdb == t.fdb))
    && (t'.neigh == t.neigh - {ip} || (!reliable && t'.neigh == t.neigh))
  }

  ghost predicate MoreEntry(t: Tables, e: (Mac, Ipv4), ip: Ipv4, t': Tables, reliable: bool) {
    && (t'.fdb == t.fdb + {e} || (!reliable && t'.fdb == t.fdb))
    && (t'.neigh == t.neigh[ip := MacFor(ip)] || (!reliable && t'.neigh == t.neigh))
  }

  lemma SomeRemovedStep(t: Tables, peer: PeerState, i: nat, t1: Tables, t2: Tables, reliable: bool)
    requires i < |peer.services| && SomeRemoved(t, peer, i, t1, reliable)
    requires LessEntry(t1, (MacFor(peer.services[i].1), peer.endpoint), peer.services[i].1, t2, reliable)
    ensures SomeRemoved(t, peer, i + 1, t2, reliable)
  {
    PartialStep(peer, i);
    Nothing(t);
  }

  lemma SomeAddedStep(t: Tables, peer: PeerState, i: nat, t1: Tables, t2: Tables, reliable: bool)
    requires i < |peer.services| && SomeAdded(t, peer, i, t1, reliable)
    requires MoreEntry(t1, (MacFor(peer.services[i].1), peer.endpoint), peer.services[i].1, t2, reliable)
    ensures SomeAdded(t, peer, i + 1, t2, reliable)
  {
    PartialStep(peer, i);
    Nothing(t);
    NeighExtend(t.neigh, Ips({Partial(peer, i)}), peer.services[i].1);
  }

  lemma NeighExtend(m: map<Ipv4, Mac>, ips: set<Ipv4>, ip: Ipv4)
    ensures (m + Neigh(ips))[ip := MacFor(ip)] == m + Neigh(ips + {ip})
  {
  }

  lemma SomeRemovedEnd(t: Tables, peer: PeerState, t': Tables, reliable: bool)
    requires SomeRemoved(t, peer, |peer.services|, t', reliable)
    ensures RemovedOrLess(t, {peer}, t', reliable)
  {
    assert Partial(peer, |peer.services|) == peer;
  }

  lemma SomeAddedEnd(t: Tables, peer: PeerState, t': Tables, reliable: bool)
    requires SomeAdded(t, peer, |peer.services|, t', reliable)
    ensures AddedOrLess(t, {peer}, t', reliable)
  {
    assert Partial(peer, |peer.services|) == peer;
  }

  // ---------- the commands of a namespace's set-up ----------

  function BareSpace(n: string): Space {
    Space(map[Loopback := NEW_LINK, BridgeFor(n) := NEW_LINK], None)
  }

  lemma CreateCommands(k: KState, n: string)
    ensures Effect(k, NetnsAdd(n)).Some? <==> n !in k.spaces
    ensures n !in k.spaces ==>
            EffectAll(Effect(k, NetnsAdd(n)).value, BridgeCmds(n)) ==
            if BridgeFor(n) !in k.host then Some(InSpace(k, n, BareSpace(n))) else None
  {
    var cmds, bridge := BridgeCmds(n), BridgeFor(n);
    if n !in k.spaces {
      Chain2(InSpace(k, n, NEW_SPACE), cmds[0], cmds[1]);
      if bridge !in k.host {
        var k2 := k.(host := k.host[bridge := NEW_LINK]);
        MoveIn(k2, n, NEW_SPACE, bridge);
        assert k2.host - {bridge} == k.host;
        assert NEW_SPACE.links[bridge := NEW_LINK] == BareSpace(n).links;
      }
    }
  }

  lemma ConfigureCommands(k: KState, n: string, prefix: string, gateway: Ipv4)
    ensures EffectAll(InSpace(k, n, BareSpace(n)), ConfigureCmds(n, prefix, gateway)) ==
            if ValidPrefix(prefix) then Some(InSpace(k, n, BridgeSpace(n, prefix, gateway))) else None
  {
    var cmds, bridge, s0 := ConfigureCmds(n, prefix, gateway), BridgeFor(n), BareSpace(n);
    Chain4(InSpace(k, n, s0), cmds[0], cmds[1], cmds[2], cmds[3]);
    SetIn(k, n, s0, bridge, Address(gateway, prefix));
    if ValidPrefix(prefix) {
      var s1 := WithAttr(s0, bridge, Address(gateway, prefix));
      SetIn(k, n, s1, bridge, IsUp);
      var s2 := WithAttr(s1, bridge, IsUp);
      assert s2.links[bridge].attrs == {Address(gateway, prefix), IsUp};
      SetIn(k, n, s2, Loopback, IsUp);
      var s3 := WithAttr(s2, Loopback, IsUp);
      assert s3.links[Loopback].attrs == {IsUp};
      RouteIn(k, n, s3, gateway);
      assert s3.links == BridgeSpace(n, prefix, gateway).links;
    }
  }

  // ---------- the commands of a service's set-up ----------

  function HostEnd(k: KState, n: string, svc: string): KState
    requires n in k.spaces
  {
    var links := k.spaces[n].links[VethHost(Short(svc)) := Link({Master(BridgeFor(n)), IsUp}, EMPTY)];
    InSpace(k.(host := k.host[VethContainer(Short(svc)) := NEW_LINK]), n, k.spaces[n].(links := links))
  }

  lemma SameSpace(k: KState, n: string)
    requires n in k.spaces
    ensures InSpace(k, n, k.spaces[n]) == k
  {
  }

  lemma HostEndCommands(k: KState, n: string, svc: string)
    requires HasLink(k, n, BridgeFor(n))
    ensures var host, container := VethHost(Short(svc)), VethContainer(Short(svc));
            EffectAll(k, VethHostCmds(n, svc)) ==
            if host !in k.host && container !in k.host && host !in k.spaces[n].links
            then Some(HostEnd(k, n, svc)) else None
  {
    var cmds, host, container := VethHostCmds(n, svc), VethHost(Short(svc)), VethContainer(Short(svc));
    Chain4(k, cmds[0], cmds[1], cmds[2], cmds[3]);
    if host !in k.host && container !in k.host {
      var k1 := k.(host := k.host[host := NEW_LINK][container := NEW_LINK]);
      var s0 := k.spaces[n];
      SameSpace(k1, n);
      MoveIn(k1, n, s0, host);
      if host !in s0.links {
        var k2, s1 := k.(host := k.host[container := NEW_LINK]), s0.(links := s0.links[host := NEW_LINK]);
        assert k1.host - {host} == k2.host;
        SetIn(k2, n, s1, host, Master(BridgeFor(n)));
        var s2 := WithAttr(s1, host, Master(BridgeFor(n)));
        SetIn(k2, n, s2, host, IsUp);
        assert WithAttr(s2, host, IsUp).links[host].attrs == {Master(BridgeFor(n)), IsUp};
        var link := Link({Master(BridgeFor(n)), IsUp}, EMPTY);
        assert WithAttr(s2, host, IsUp).links == s0.links[host := link];
      }
    }
  }

  lemma ContainerEndCommands(k: KState, n: string, svc: string, ip: Ipv4)
    requires HasLink(k, n, BridgeFor(n)) && VethHost(Short(svc)) !in k.host && VethContainer(Short(svc)) !in k.host
    requires VethHost(Short(svc)) !in k.spaces[n].links
    ensures EffectAll(HostEnd(k, n, svc), VethContainerCmds(n, svc, ip)) ==
            if VethContainer(Short(svc)) !in k.spaces[n].links then Some(WithVeth(k, n, svc, ip)) else None
  {
    var cmds, container := VethContainerCmds(n, svc, ip), VethContainer(Short(svc));
    var k1 := HostEnd(k, n, svc);
    Chain4(k1, cmds[0], cmds[1], cmds[2], cmds[3]);
    var s0 := k1.spaces[n];
    SameSpace(k1, n);
    MoveIn(k1, n, s0, container);
    if container !in s0.links {
      var s1 := s0.(links := s0.links[container := NEW_LINK]);
      var k2 := k1.(host := k1.host - {container});
      SetIn(k2, n, s1, container, Address(ip, "24"));
      var s2 := WithAttr(s1, container, Address(ip, "24"));
      SetIn(k2, n, s2, container, IsUp);
      var s3 := WithAttr(s2, container, IsUp);
      SetIn(k2, n, s3, container, HardwareAddress(MacFor(ip)));
      var s4 := WithAttr(s3, container, HardwareAddress(MacFor(ip)));
      assert s4.links[container].attrs == {Address(ip, "24"), IsUp, HardwareAddress(MacFor(ip))};
      assert s4.links == VethLinks(k.spaces[n].links, BridgeFor(n), svc, ip);
      assert k2.host == k.host;
      assert InSpace(k2, n, s4) == WithVeth(k, n, svc, ip);
    }
  }

  lemma VethCommands(k: KState, n: string, svc: string, ip: Ipv4)
    requires HasLink(k, n, BridgeFor(n))
    ensures EffectAll(k, VethCmds(n, svc, ip)) == if VethFree(k, n, svc) then Some(WithVeth(k, n, svc, ip)) else None
  {
    HostEndCommands(k, n, svc);
    EffectConcat(k, VethHostCmds(n, svc), VethContainerCmds(n, svc, ip));
    if EffectAll(k, VethHostCmds(n, svc)).Some? {
      ContainerEndCommands(k, n, svc, ip);
    }
  }

  // ---------- the commands of a tunnel's set-up ----------

  lemma VxlanCommands(k: KState, n: string, vni: nat, local: Ipv4)
    requires HasLink(k, n, BridgeFor(n))
    ensures EffectAll(k, VxlanCmds(n, vni, local)) ==
            if TunnelFree(k, n, vni) then Some(WithVxlan(k, n, vni, local)) else None
  {
    var cmds, dev, bridge := VxlanCmds(n, vni, local), VxlanFor(n), BridgeFor(n);
    var config := VxlanConfig(vni, local, VXLAN_PORT);
    Chain4(k, cmds[0], cmds[1], cmds[2], cmds[3]);
    assert config in {config};
    assert (exists a | a in {config} :: !ValidAttr(a)) <==> vni >= VNI_SIZE by {
      if vni >= VNI_SIZE {
        assert !ValidAttr(config);
      }
    }
    if dev !in k.host && vni < VNI_SIZE {
      var k1 := k.(host := k.host[dev := Link({config}, EMPTY)]);
      var s0 := k.spaces[n];
      SameSpace(k1, n);
      MoveIn(k1, n, s0, dev);
      if dev !in s0.links {
        var s1 := s0.(links := s0.links[dev := Link({config}, EMPTY)]);
        assert k1.(host := k1.host - {dev}) == k;
        SetIn(k, n, s1, dev, Master(bridge));
        var s2 := WithAttr(s1, dev, Master(bridge));
        SetIn(k, n, s2, dev, IsUp);
        assert WithAttr(s2, dev, IsUp).links[dev].attrs == VxlanLink(n, vni, local).attrs;
        assert WithAttr(s2, dev, IsUp).links == s0.links[dev := VxlanLink(n, vni, local)];
      }
    }
  }
}
