/**
The forwarding tables of one VXLAN device and the peer diff that maintains them.

A device has forwarding entries (a MAC address is reached through a tunnel endpoint) and
neighbour entries (an IP address has a MAC address). `Updated` states in closed form what
one diff leaves behind; the diff itself, command by command, is in `NetnsManager`.
*/
module Tunnel {
  type u8 = x: int | 0 <= x < 256

  datatype Ipv4 = Ipv4(o0: u8, o1: u8, o2: u8, o3: u8)
  datatype Mac = Mac(b0: u8, b1: u8, b2: u8, b3: u8, b4: u8, b5: u8)

  /** Destination of broadcast, unknown and multicast traffic: head-end replication. */
  const ALL_ZEROS := Mac(0, 0, 0, 0, 0, 0)

  /** The locally administered address every node derives for a namespace IP. Distinct service
      addresses never share one, and none of them is the replication entry. */
  function MacFor(ip: Ipv4): (m: Mac)
    ensures m != ALL_ZEROS
    ensures forall other: Ipv4 :: Mac(2, 0, other.o0, other.o1, other.o2, other.o3) == m <==> other == ip
  {
    Mac(2, 0, ip.o0, ip.o1, ip.o2, ip.o3)
  }

  datatype PeerState = PeerState(endpoint: Ipv4, services: seq<(string, Ipv4)>)
  datatype PeerInfo = PeerInfo(nodeId: string, state: PeerState)

  datatype Tables = Tables(fdb: set<(Mac, Ipv4)>, neigh: map<Ipv4, Mac>)

  const EMPTY := Tables({}, map[])

  // ---------- what a set of peers needs ----------

  function ServiceIps(services: seq<(string, Ipv4)>): set<Ipv4> {
    set s | s in services :: s.1
  }

  function ServiceFdb(services: seq<(string, Ipv4)>, endpoint: Ipv4): set<(Mac, Ipv4)> {
    set ip | ip in ServiceIps(services) :: (MacFor(ip), endpoint)
  }

  function PeerFdb(p: PeerState): set<(Mac, Ipv4)> {
    {(ALL_ZEROS, p.endpoint)} + ServiceFdb(p.services, p.endpoint)
  }

  function PeerIps(p: PeerState): set<Ipv4> {
    ServiceIps(p.services)
  }

  function Fdb(ps: set<PeerState>): set<(Mac, Ipv4)> {
    set p, e | p in ps && e in PeerFdb(p) :: e
  }

  function Ips(ps: set<PeerState>): set<Ipv4> {
    set p, ip | p in ps && ip in PeerIps(p) :: ip
  }

  function Neigh(ips: set<Ipv4>): map<Ipv4, Mac> {
    map ip | ip in ips :: MacFor(ip)
  }

  /** The tables a set of peers needs: nothing stale, nothing missing. */
  function Desired(ps: set<PeerState>): Tables {
    Tables(Fdb(ps), Neigh(Ips(ps)))
  }

  // ---------- the diff in closed form ----------

  function Ids(peers: seq<PeerInfo>): set<string> {
    set p | p in peers :: p.nodeId
  }

  function States(peers: seq<PeerInfo>): set<PeerState> {
    set p | p in peers :: p.state
  }

  /** What the manager records for a peer list: each entry overwrites an earlier one with the
      same node id. */
  function Recorded(peers: seq<PeerInfo>): (m: map<string, PeerState>)
    ensures m.Keys == Ids(peers)
  {
    if peers == [] then map[]
    else
      var front, last := peers[..|peers| - 1], peers[|peers| - 1];
      assert peers == front + [last];
      Recorded(front)[last.nodeId := last.state]
  }

  lemma {:induction false} RecordedLast(peers: seq<PeerInfo>, i: nat)
    requires i < |peers| && forall j :: i < j < |peers| ==> peers[j].nodeId != peers[i].nodeId
    ensures peers[i].nodeId in Recorded(peers) && Recorded(peers)[peers[i].nodeId] == peers[i].state
  {
    if i < |peers| - 1 {
      RecordedLast(peers[..|peers| - 1], i);
    }
  }

  function StatesAt(recorded: map<string, PeerState>, ids: set<string>): set<PeerState> {
    set id | id in ids && id in recorded :: recorded[id]
  }

  function Departed(recorded: map<string, PeerState>, peers: seq<PeerInfo>): set<PeerState> {
    StatesAt(recorded, recorded.Keys - Ids(peers))
  }

  function Staying(recorded: map<string, PeerState>, peers: seq<PeerInfo>): set<PeerState> {
    StatesAt(recorded, recorded.Keys * Ids(peers))
  }

  /** Entries of departed peers are removed first, then every entry of every listed peer is set. */
  function Updated(t: Tables, departed: set<PeerState>, listed: set<PeerState>): Tables {
    Tables(Fdb(listed) + (t.fdb - Fdb(departed)), (t.neigh - Ips(departed)) + Neigh(Ips(listed)))
  }

  function Removed(t: Tables, ps: set<PeerState>): Tables {
    Tables(t.fdb - Fdb(ps), t.neigh - Ips(ps))
  }

  function Added(t: Tables, ps: set<PeerState>): Tables {
    Tables(t.fdb + Fdb(ps), t.neigh + Neigh(Ips(ps)))
  }

  lemma RemovedTwice(t: Tables, a: set<PeerState>, b: set<PeerState>)
    ensures Removed(Removed(t, a), b) == Removed(t, a + b)
  {
    FdbUnion(a, b);
  }

  lemma AddedTwice(t: Tables, a: set<PeerState>, b: set<PeerState>)
    ensures Added(Added(t, a), b) == Added(t, a + b)
  {
    FdbUnion(a, b);
    NeighTwice(t.neigh, Ips(a), Ips(b));
    assert (t.fdb + Fdb(a)) + Fdb(b) == t.fdb + (Fdb(a) + Fdb(b));
  }

  lemma NeighTwice(m: map<Ipv4, Mac>, a: set<Ipv4>, b: set<Ipv4>)
    ensures (m + Neigh(a)) + Neigh(b) == m + Neigh(a + b)
  {
  }

  lemma RemoveThenAdd(t: Tables, departed: set<PeerState>, listed: set<PeerState>)
    ensures Added(Removed(t, departed), listed) == Updated(t, departed, listed)
  {
  }

  /** Tables some commands of a diff may have failed to change: nothing outside the departed
      peers is lost, nothing outside the listed peers appears, and a neighbour entry has the
      address it had or the one of its IP. */
  ghost predicate Between(t: Tables, departed: set<PeerState>, listed: set<PeerState>, t': Tables) {
    && t.fdb - Fdb(departed) <= t'.fdb <= t.fdb + Fdb(listed)
    && t.neigh.Keys - Ips(departed) <= t'.neigh.Keys
    && forall ip :: ip in t'.neigh ==> KeptOrSet(t, Ips(listed), t', ip)
  }

  predicate KeptOrSet(t: Tables, listed: set<Ipv4>, t': Tables, ip: Ipv4)
    requires ip in t'.neigh
  {
    || (ip in t.neigh && t'.neigh[ip] == t.neigh[ip])
    || (ip in listed && t'.neigh[ip] == MacFor(ip))
  }

  lemma BetweenRemoved(t: Tables, a: set<PeerState>, t1: Tables, b: set<PeerState>, t2: Tables)
    requires Between(t, a, {}, t1) && Between(t1, b, {}, t2)
    ensures Between(t, a + b, {}, t2)
  {
    FdbUnion(a, b);
  }

  lemma BetweenAdded(t: Tables, d: set<PeerState>, a: set<PeerState>, t1: Tables, b: set<PeerState>, t2: Tables)
    requires Between(t, d, a, t1) && Between(t1, {}, b, t2)
    ensures Between(t, d, a + b, t2)
  {
    FdbUnion(a, b);
  }

  // ---------- runs of updates and removals ----------

  datatype Device = Down | Up(recorded: map<string, PeerState>, tables: Tables)

  datatype TunnelOp = Update(peers: seq<PeerInfo>) | Remove

  function Next(d: Device, op: TunnelOp): Device {
    match op
    case Remove => Down
    case Update(peers) =>
      var recorded, t := if d.Up? then d.recorded else map[], if d.Up? then d.tables else EMPTY;
      Up(Recorded(peers), Updated(t, Departed(recorded, peers), States(peers)))
  }

  function Exec(ops: seq<TunnelOp>): Device {
    if ops == [] then Down else Next(Exec(ops[..|ops| - 1]), ops[|ops| - 1])
  }

  ghost predicate Exact(d: Device) {
    d.Up? ==> d.tables == Desired(d.recorded.Values)
  }

  predicate DistinctIds(peers: seq<PeerInfo>) {
    forall i, j :: 0 <= i < j < |peers| ==> peers[i].nodeId != peers[j].nodeId
  }

  /** Every peer that stays keeps its endpoint and its services. */
  predicate Stable(recorded: map<string, PeerState>, peers: seq<PeerInfo>) {
    forall i :: 0 <= i < |peers| && peers[i].nodeId in recorded ==> recorded[peers[i].nodeId] == peers[i].state
  }

  lemma {:induction false} RecordedListed(peers: seq<PeerInfo>, id: string)
    requires id in Recorded(peers)
    ensures Recorded(peers)[id] in States(peers)
  {
    var front, last := peers[..|peers| - 1], peers[|peers| - 1];
    assert peers == front + [last];
    if id != last.nodeId {
      RecordedListed(front, id);
    } else {
      assert last in peers;
    }
  }

  lemma RecordedDistinct(peers: seq<PeerInfo>)
    requires DistinctIds(peers)
    ensures Recorded(peers).Values == States(peers)
  {
    forall p | p in peers
      ensures p.state in Recorded(peers).Values
    {
      var i :| 0 <= i < |peers| && peers[i] == p;
      RecordedLast(peers, i);
    }
    forall id | id in Recorded(peers)
      ensures Recorded(peers)[id] in States(peers)
    {
      RecordedListed(peers, id);
    }
  }

  /** The exact condition for one diff, for any peer list: from exact tables it leaves exact tables
      if and only if every listed entry is one of the recorded peers', and every entry recorded for a
      staying peer is still needed or was also a departed peer's. */
  lemma ExactAfterUpdate(recorded: map<string, PeerState>, peers: seq<PeerInfo>)
    ensures var d, kept := Next(Up(recorded, Desired(recorded.Values)), Update(peers)), Recorded(peers).Values;
            var staying, departed := Staying(recorded, peers), Departed(recorded, peers);
            Exact(d) <==>
            && Fdb(States(peers)) <= Fdb(kept) && Fdb(staying) <= Fdb(kept) + Fdb(departed)
            && Ips(States(peers)) <= Ips(kept) && Ips(staying) <= Ips(kept) + Ips(departed)
  {
    var staying, departed, listed := Staying(recorded, peers), Departed(recorded, peers), States(peers);
    var kept := Recorded(peers).Values;
    forall p | p in kept
      ensures p in listed
    {
      var id :| id in Recorded(peers) && Recorded(peers)[id] == p;
      RecordedListed(peers, id);
    }
    assert recorded.Values == staying + departed;
    FdbUnion(staying, departed);
    FdbMonotone(kept, listed);
    SetsExact(Fdb(staying), Fdb(departed), Fdb(listed), Fdb(kept));
    NeighExact(Ips(staying), Ips(departed), Ips(listed), Ips(kept));
  }

  lemma FdbMonotone(a: set<PeerState>, b: set<PeerState>)
    requires a <= b
    ensures Fdb(a) <= Fdb(b) && Ips(a) <= Ips(b)
  {
  }

  /** With distinct node ids: if and only if every entry recorded for a staying peer is still listed
      or was also a departed peer's. */
  lemma ExactAfterDistinct(recorded: map<string, PeerState>, peers: seq<PeerInfo>)
    requires DistinctIds(peers)
    ensures var d := Next(Up(recorded, Desired(recorded.Values)), Update(peers));
            Exact(d) <==>
            && Fdb(Staying(recorded, peers)) <= Fdb(States(peers)) + Fdb(Departed(recorded, peers))
            && Ips(Staying(recorded, peers)) <= Ips(States(peers)) + Ips(Departed(recorded, peers))
  {
    RecordedDistinct(peers);
    ExactAfterUpdate(recorded, peers);
  }

  lemma SetsExact<T>(staying: set<T>, departed: set<T>, listed: set<T>, kept: set<T>)
    requires kept <= listed
    ensures listed + (staying + departed - departed) == kept <==> listed <= kept && staying <= kept + departed
  {
    if listed + (staying + departed - departed) == kept {
      forall x | x in staying ensures x in kept + departed {
        assert x in departed || x in listed + (staying + departed - departed);
      }
      forall x | x in listed ensures x in kept {
        assert x in listed + (staying + departed - departed);
      }
    }
  }

  lemma NeighExact(staying: set<Ipv4>, departed: set<Ipv4>, listed: set<Ipv4>, kept: set<Ipv4>)
    requires kept <= listed
    ensures (Neigh(staying + departed) - departed) + Neigh(listed) == Neigh(kept) <==>
            listed <= kept && staying <= kept + departed
  {
    var m := (Neigh(staying + departed) - departed) + Neigh(listed);
    assert m.Keys == listed + (staying + departed - departed);
    SetsExact(staying, departed, listed, kept);
    if m.Keys == kept {
      assert m.Keys == Neigh(kept).Keys;
    } else {
      assert Neigh(kept).Keys == kept;
    }
  }

  lemma FdbUnion(a: set<PeerState>, b: set<PeerState>)
    ensures Fdb(a + b) == Fdb(a) + Fdb(b) && Ips(a + b) == Ips(a) + Ips(b)
  {
  }

  /** A staying peer that drops a service no other peer mentions leaves its entries behind. */
  lemma DroppedServiceStaysBehind(recorded: map<string, PeerState>, peers: seq<PeerInfo>, id: string, ip: Ipv4)
    requires DistinctIds(peers) && id in recorded && id in Ids(peers) && ip in PeerIps(recorded[id])
    requires ip !in Ips(States(peers)) && ip !in Ips(Departed(recorded, peers))
    ensures var d := Next(Up(recorded, Desired(recorded.Values)), Update(peers));
            !Exact(d) && ip in d.tables.neigh
  {
    ExactAfterDistinct(recorded, peers);
    assert recorded[id] in Staying(recorded, peers) && recorded[id] in recorded.Values;
    assert ip in Ips(Staying(recorded, peers)) && ip in Ips(recorded.Values);
  }

  /** For instance, node "b" stays and drops its only service. */
  lemma DroppedServiceExample(ip: Ipv4, ep: Ipv4)
    ensures var recorded := map["b" := PeerState(ep, [("web", ip)])];
            var d := Next(Up(recorded, Desired(recorded.Values)), Update([PeerInfo("b", PeerState(ep, []))]));
            !Exact(d) && ip in d.tables.neigh
  {
    var recorded, peers := map["b" := PeerState(ep, [("web", ip)])], [PeerInfo("b", PeerState(ep, []))];
    assert recorded["b"].services[0] == ("web", ip);
    assert peers[0] == PeerInfo("b", PeerState(ep, []));
    DroppedServiceStaysBehind(recorded, peers, "b", ip);
  }

  predicate StableOp(d: Device, op: TunnelOp) {
    op.Update? ==> DistinctIds(op.peers) && (d.Up? ==> Stable(d.recorded, op.peers))
  }

  predicate StableRun(ops: seq<TunnelOp>) {
    ops == [] || (StableRun(ops[..|ops| - 1]) && StableOp(Exec(ops[..|ops| - 1]), ops[|ops| - 1]))
  }

  /** Over every run of tunnel updates and removals in which node ids are distinct and staying
      peers keep their endpoint and services, the tables are exactly what the recorded peers
      need after each call. */
  lemma {:induction false} StableRunIsExact(ops: seq<TunnelOp>)
    requires StableRun(ops)
    ensures Exact(Exec(ops))
  {
    if ops != [] {
      var before, op := ops[..|ops| - 1], ops[|ops| - 1];
      StableRunIsExact(before);
      var d := Exec(before);
      if op.Update? {
        var recorded := if d.Up? then d.recorded else map[];
        NoPeers(map[]);
        StableStep(recorded, op.peers);
      }
    }
  }

  lemma NoPeers(recorded: map<string, PeerState>)
    requires recorded == map[]
    ensures Desired(recorded.Values) == EMPTY
  {
  }

  lemma StableStep(recorded: map<string, PeerState>, peers: seq<PeerInfo>)
    requires DistinctIds(peers) && Stable(recorded, peers)
    ensures Exact(Next(Up(recorded, Desired(recorded.Values)), Update(peers)))
  {
    ExactAfterDistinct(recorded, peers);
    forall p | p in Staying(recorded, peers)
      ensures p in States(peers)
    {
      var id :| id in recorded && id in Ids(peers) && recorded[id] == p;
      var i :| 0 <= i < |peers| && peers[i].nodeId == id;
      assert peers[i].state == p;
    }
  }
}
