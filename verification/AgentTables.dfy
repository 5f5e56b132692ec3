/**
The forwarding tables after a run of the agent, stated from the fields of its messages alone.
*/
module AgentTables {
  import opened Wrappers
  import opened IfaceNames
  import opened Tunnel
  import opened Kernel
  import opened NetnsSteps
  import opened NetnsInvariants
  import opened NetnsExact
  import opened DesiredState
  import opened Agent
  import opened AgentRuns

  predicate Offers(p: RemotePeer, ip: Ipv4) {
    exists s :: s in p.services && s.1 == Some(ip)
  }

  /** A peer of the configuration has the endpoint. */
  predicate Reaches(c: NetworkConfig, e: Ipv4) {
    exists p :: p in c.remotePeers && p.endpoint == Some(e)
  }

  /** A peer of the configuration has the endpoint and lists a service with the address. */
  predicate Advertises(c: NetworkConfig, e: Ipv4, ip: Ipv4) {
    exists p :: p in c.remotePeers && p.endpoint == Some(e) && Offers(p, ip)
  }

  /** A peer with a parsed endpoint lists a service with the address. */
  predicate Lists(c: NetworkConfig, ip: Ipv4) {
    exists p :: p in c.remotePeers && p.endpoint.Some? && Offers(p, ip)
  }

  /** Tables that hold exactly what a configuration lists: a replication entry for each parsed endpoint, a
      forwarding entry for each parsed address behind it, and a neighbour entry for each such address. */
  ghost predicate AsListed(c: NetworkConfig, t: Tables) {
    FdbAsListed(c, t.fdb) && NeighAsListed(c, t.neigh)
  }

  ghost predicate FdbAsListed(c: NetworkConfig, fdb: set<(Mac, Ipv4)>) {
    && (forall e :: (Mac(0, 0, 0, 0, 0, 0), e) in fdb <==> Reaches(c, e))
    && (forall ip, e :: (MacFor(ip), e) in fdb <==> Advertises(c, e, ip))
    && (forall m, e :: (m, e) in fdb ==> m == Mac(0, 0, 0, 0, 0, 0) || exists ip :: m == MacFor(ip))
  }

  ghost predicate NeighAsListed(c: NetworkConfig, neigh: map<Ipv4, Mac>) {
    && (forall ip :: ip in neigh <==> Lists(c, ip))
    && (forall ip :: ip in neigh ==> neigh[ip] == MacFor(ip))
  }

  lemma OffersIff(p: RemotePeer, q: PeerInfo, ip: Ipv4)
    requires PassedAs(p, q)
    ensures ip in PeerIps(q.state) <==> Offers(p, ip)
  {
    if s :| s in p.services && s.1 == Some(ip) {
      ParsedServicesAre(p.services, s.0, ip);
      assert (s.0, ip) in q.state.services;
    }
    if ip in PeerIps(q.state) {
      var s :| s in q.state.services && s.1 == ip;
      ParsedServicesAre(p.services, s.0, s.1);
      assert (s.0, Some(ip)) in p.services;
    }
  }

  lemma StateOf(c: NetworkConfig, p: RemotePeer) returns (q: PeerInfo)
    requires p in c.remotePeers && p.endpoint.Some?
    ensures PassedAs(p, q) && q.state in States(ParsedPeers(c.remotePeers))
  {
    q := PeerInfo(p.nodeId, PeerState(p.endpoint.value, ParsedServices(p.services)));
    ParsedPeersAre(c.remotePeers, q);
    assert q in ParsedPeers(c.remotePeers);
  }

  lemma PeerOf(c: NetworkConfig, st: PeerState) returns (p: RemotePeer, q: PeerInfo)
    requires st in States(ParsedPeers(c.remotePeers))
    ensures p in c.remotePeers && PassedAs(p, q) && q.state == st
  {
    q :| q in ParsedPeers(c.remotePeers) && q.state == st;
    ParsedPeersAre(c.remotePeers, q);
    p :| p in c.remotePeers && PassedAs(p, q);
  }

  lemma ReachesIff(c: NetworkConfig, e: Ipv4)
    ensures (ALL_ZEROS, e) in Fdb(States(ParsedPeers(c.remotePeers))) <==> Reaches(c, e)
  {
    var states := States(ParsedPeers(c.remotePeers));
    if p :| p in c.remotePeers && p.endpoint == Some(e) {
      var q := StateOf(c, p);
      assert (ALL_ZEROS, e) in PeerFdb(q.state);
    }
    if (ALL_ZEROS, e) in Fdb(states) {
      var st :| st in states && (ALL_ZEROS, e) in PeerFdb(st);
      var p, q := PeerOf(c, st);
    }
  }

  lemma AdvertisesIff(c: NetworkConfig, e: Ipv4, ip: Ipv4)
    ensures (MacFor(ip), e) in Fdb(States(ParsedPeers(c.remotePeers))) <==> Advertises(c, e, ip)
  {
    var states := States(ParsedPeers(c.remotePeers));
    if p :| p in c.remotePeers && p.endpoint == Some(e) && Offers(p, ip) {
      var q := StateOf(c, p);
      OffersIff(p, q, ip);
      assert (MacFor(ip), e) in PeerFdb(q.state);
    }
    if (MacFor(ip), e) in Fdb(states) {
      var st :| st in states && (MacFor(ip), e) in PeerFdb(st);
      var p, q := PeerOf(c, st);
      var other :| other in PeerIps(st) && MacFor(other) == MacFor(ip);
      OffersIff(p, q, ip);
    }
  }

  lemma ListsIff(c: NetworkConfig, ip: Ipv4)
    ensures ip in Ips(States(ParsedPeers(c.remotePeers))) <==> Lists(c, ip)
  {
    var states := States(ParsedPeers(c.remotePeers));
    if p :| p in c.remotePeers && p.endpoint.Some? && Offers(p, ip) {
      var q := StateOf(c, p);
      OffersIff(p, q, ip);
      assert ip in PeerIps(q.state);
    }
    if ip in Ips(states) {
      var st :| st in states && ip in PeerIps(st);
      var p, q := PeerOf(c, st);
      OffersIff(p, q, ip);
    }
  }

  lemma OnlyKnownMacs(states: set<PeerState>, m: Mac, e: Ipv4)
    requires (m, e) in Fdb(states)
    ensures m == ALL_ZEROS || exists ip :: m == MacFor(ip)
  {
    var st :| st in states && (m, e) in PeerFdb(st);
  }

  lemma FdbIsListed(c: NetworkConfig)
    ensures FdbAsListed(c, Fdb(States(ParsedPeers(c.remotePeers))))
  {
    var states := States(ParsedPeers(c.remotePeers));
    var fdb := Fdb(states);
    forall e
      ensures (Mac(0, 0, 0, 0, 0, 0), e) in fdb <==> Reaches(c, e)
    {
      ReachesIff(c, e);
    }
    forall ip, e
      ensures (MacFor(ip), e) in fdb <==> Advertises(c, e, ip)
    {
      AdvertisesIff(c, e, ip);
    }
    forall m, e | (m, e) in fdb
      ensures m == Mac(0, 0, 0, 0, 0, 0) || exists ip :: m == MacFor(ip)
    {
      OnlyKnownMacs(states, m, e);
    }
  }

  lemma NeighIsListed(c: NetworkConfig)
    ensures NeighAsListed(c, Neigh(Ips(States(ParsedPeers(c.remotePeers)))))
  {
    forall ip
      ensures ip in Ips(States(ParsedPeers(c.remotePeers))) <==> Lists(c, ip)
    {
      ListsIff(c, ip);
    }
  }

  lemma DesiredAsListed(c: NetworkConfig)
    ensures AsListed(c, Tunnel.Desired(States(ParsedPeers(c.remotePeers))))
  {
    FdbIsListed(c);
    NeighIsListed(c);
  }

  // The stability of peer lists, from one message to the next.

  predicate DistinctNodes(peers: seq<RemotePeer>) {
    forall i, j :: 0 <= i < j < |peers| ==> peers[i].nodeId != peers[j].nodeId
  }

  /** A node in both lists has the same endpoint and services in both. */
  predicate SameNodes(former: seq<RemotePeer>, peers: seq<RemotePeer>) {
    forall p, q :: p in former && q in peers && p.nodeId == q.nodeId ==> p == q
  }

  predicate FieldsStable(former: seq<NetworkConfig>, networks: seq<NetworkConfig>) {
    && UniqueNamespaces(networks)
    && (forall c :: c in networks ==> DistinctNodes(c.remotePeers))
    && (forall c, d :: c in networks && d in former && c.namespace == d.namespace ==>
          SameNodes(d.remotePeers, c.remotePeers))
  }

  function NetworksAfter(run: seq<Handling>): seq<NetworkConfig> {
    if run == [] then [] else run[|run| - 1].msg.networks
  }

  /** In every message of the run namespaces and node ids are unique, and a node that stays in a namespace
      keeps its endpoint and services. */
  ghost predicate MessagesStable(run: seq<Handling>) {
    run == [] ||
    (MessagesStable(run[..|run| - 1]) && FieldsStable(NetworksAfter(run[..|run| - 1]), run[|run| - 1].msg.networks))
  }

  lemma {:induction false} DistinctParsed(peers: seq<RemotePeer>)
    requires DistinctNodes(peers)
    ensures DistinctIds(ParsedPeers(peers))
  {
    if peers != [] {
      var front, p := peers[..|peers| - 1], peers[|peers| - 1];
      DistinctParsed(front);
      forall q | q in ParsedPeers(front)
        ensures q.nodeId != p.nodeId
      {
        ParsedPeersAre(front, q);
        var o :| o in front && PassedAs(o, q);
        var i :| 0 <= i < |front| && front[i] == o;
        assert peers[i].nodeId != peers[|peers| - 1].nodeId;
      }
    }
  }

  /** With unique namespaces, the tunnel asked for is that of the one configuration. */
  lemma {:induction false} AskedIs(ns: NamespaceNetwork, networks: seq<NetworkConfig>, c: NetworkConfig)
    requires UniqueNamespaces(networks) && c in networks && TunnelAsAsked(ns, c.namespace, networks)
    ensures c.remotePeers == [] ==> ns.vxlan == None && ns.peers == map[]
    ensures c.remotePeers != [] ==>
              ns.vxlan == Some(VxlanFor(c.namespace)) && ns.peers == Recorded(ParsedPeers(c.remotePeers))
  {
    var front, last := networks[..|networks| - 1], networks[|networks| - 1];
    assert networks == front + [last];
    var i :| 0 <= i < |networks| && networks[i] == c;
    if i < |front| {
      assert networks[i].namespace != networks[|networks| - 1].namespace && front[i] == c;
      AskedIs(ns, front, c);
    }
  }

  lemma RecordedIs(peers: seq<PeerInfo>, id: string) returns (q: PeerInfo)
    requires DistinctIds(peers) && id in Recorded(peers)
    ensures q in peers && q.nodeId == id && Recorded(peers)[id] == q.state
  {
    var i :| 0 <= i < |peers| && peers[i].nodeId == id;
    RecordedLast(peers, i);
    q := peers[i];
  }

  lemma StableFromFields(former: seq<RemotePeer>, peers: seq<RemotePeer>)
    requires DistinctNodes(former) && SameNodes(former, peers)
    ensures Stable(Recorded(ParsedPeers(former)), ParsedPeers(peers))
  {
    DistinctParsed(former);
    var recorded, parsed := Recorded(ParsedPeers(former)), ParsedPeers(peers);
    forall i | 0 <= i < |parsed| && parsed[i].nodeId in recorded
      ensures recorded[parsed[i].nodeId] == parsed[i].state
    {
      var q := RecordedIs(ParsedPeers(former), parsed[i].nodeId);
      ParsedPeersAre(former, q);
      ParsedPeersAre(peers, parsed[i]);
      var p :| p in former && PassedAs(p, q);
      var o :| o in peers && PassedAs(o, parsed[i]);
      assert p == o;
    }
  }

  /** What the record holds of a configuration's peers after its message. */
  ghost predicate RecordsPeers(mem: Namespaces, networks: seq<NetworkConfig>) {
    && mem.Keys <= Active(networks)
    && forall c :: c in networks && c.namespace in mem ==> PeersRecorded(mem[c.namespace], c)
  }

  ghost predicate PeersRecorded(ns: NamespaceNetwork, c: NetworkConfig) {
    && (c.remotePeers == [] ==> ns.vxlan == None && ns.peers == map[])
    && (c.remotePeers != [] ==>
          ns.vxlan == Some(VxlanFor(c.namespace)) && ns.peers == Recorded(ParsedPeers(c.remotePeers)))
  }

  lemma DeliveryRecords(a: AgentState, msg: Message, local: Ipv4, a': AgentState)
    requires NonDefault(a.mem) && (forall n :: n in a.mem ==> Coherent(a.mem[n])) && UniqueNamespaces(msg.networks)
    requires Delivery(a, msg, local, a')
    ensures RecordsPeers(a'.mem, msg.networks)
  {
    var previous :| && Enumerates(previous, a.desired)
                    && a' == AgentState(MessageMem(a.mem, msg, previous, local), DesiredOf(msg.services));
    MessageSettles(a.mem, msg, previous, local);
    forall c | c in msg.networks && c.namespace in a'.mem
      ensures PeersRecorded(a'.mem[c.namespace], c)
    {
      AskedIs(a'.mem[c.namespace], msg.networks, c);
    }
  }

  lemma PeersStableFrom(mem: Namespaces, former: seq<NetworkConfig>, networks: seq<NetworkConfig>, c: NetworkConfig)
    requires RecordsPeers(mem, former) && FieldsStable(former, networks) && c in networks
    requires forall d :: d in former ==> DistinctNodes(d.remotePeers)
    ensures PeersStable(mem, c)
  {
    DistinctParsed(c.remotePeers);
    if c.namespace in mem {
      var d :| d in former && d.namespace == c.namespace;
      assert PeersRecorded(mem[c.namespace], d);
      StableFromFields(d.remotePeers, c.remotePeers);
    }
  }

  lemma {:induction false} FieldsKeepPeers(run: seq<Handling>, local: Ipv4)
    requires GoodRun(run, local) && MessagesStable(run)
    ensures PeersKept(run) && RecordsPeers(WorldAfter(run).mem, NetworksAfter(run))
  {
    if run != [] {
      var before, h := run[..|run| - 1], run[|run| - 1];
      FieldsKeepPeers(before, local);
      AgentConverges(before, local);
      HandledIsDelivered(WorldAfter(before), DesiredAfter(before), h.msg, local, h.after, h.desired);
      DeliveryRecords(StateAfter(before), h.msg, local, StateAfter(run));
      StableFromMessages(before, h.msg.networks);
    }
  }

  lemma StableFromMessages(before: seq<Handling>, networks: seq<NetworkConfig>)
    requires MessagesStable(before) && RecordsPeers(WorldAfter(before).mem, NetworksAfter(before))
    requires FieldsStable(NetworksAfter(before), networks)
    ensures StablePeers(WorldAfter(before).mem, networks)
  {
    forall i | 0 <= i < |networks|
      ensures PeersStable(WorldAfter(before).mem, networks[i])
    {
      PeersStableFrom(WorldAfter(before).mem, NetworksAfter(before), networks, networks[i]);
    }
  }

  /** After every good run whose messages are stable: a configuration of the last message without peers has
      no tunnel device, and one with peers has a device whose tables hold exactly what it lists. */
  lemma AgentTablesFromMessages(run: seq<Handling>, local: Ipv4, c: NetworkConfig)
    requires GoodRun(run, local) && MessagesStable(run)
    requires c in NetworksAfter(run) && c.namespace != "" && c.namespace != "default"
    ensures var k, n := WorldAfter(run).k, c.namespace;
            && n in WorldAfter(run).mem && n in k.spaces
            && (c.remotePeers == [] ==> VxlanFor(n) !in k.spaces[n].links)
            && (c.remotePeers != [] ==> HasLink(k, n, VxlanFor(n)) && AsListed(c, TablesOf(k, n, VxlanFor(n))))
  {
    AgentConverges(run, local);
    FieldsKeepPeers(run, local);
    AgentTablesExact(run, local);
    assert c.namespace in Active(NetworksAfter(run));
    assert PeersRecorded(WorldAfter(run).mem[c.namespace], c);
    FieldsDistinct(run, c);
    DeviceFrom(WorldAfter(run), c);
    NoDeviceFrom(WorldAfter(run), c);
  }

  lemma FieldsDistinct(run: seq<Handling>, c: NetworkConfig)
    requires MessagesStable(run) && c in NetworksAfter(run)
    ensures DistinctNodes(c.remotePeers)
  {
  }

  lemma NoDeviceFrom(w: World, c: NetworkConfig)
    requires Clean(w) && c.namespace in w.mem && PeersRecorded(w.mem[c.namespace], c)
    ensures c.namespace in w.k.spaces
    ensures c.remotePeers == [] ==> VxlanFor(c.namespace) !in w.k.spaces[c.namespace].links
  {
    var n := c.namespace;
    assert LinksAccounted(w.mem[n], w.k.spaces[n].links);
    assert c.remotePeers == [] ==> !Accounts(w.mem[n], VxlanFor(n));
  }

  lemma DeviceFrom(w: World, c: NetworkConfig)
    requires Shaped(w) && TunnelsExact(w) && c.namespace in w.mem && PeersRecorded(w.mem[c.namespace], c)
    requires DistinctNodes(c.remotePeers)
    ensures var n := c.namespace;
            c.remotePeers != [] ==> HasLink(w.k, n, VxlanFor(n)) && AsListed(c, TablesOf(w.k, n, VxlanFor(n)))
  {
    if c.remotePeers != [] {
      assert Exact(DeviceOf(w, c.namespace));
      DistinctParsed(c.remotePeers);
      RecordedDistinct(ParsedPeers(c.remotePeers));
      DesiredAsListed(c);
    }
  }
}
