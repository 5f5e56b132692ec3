/**
The part of the kernel that the namespace network manager drives: network namespaces, the
interfaces inside them and on the host, and the forwarding tables of VXLAN devices.

A command is refused when it names something missing or creates something that exists; any
command may also fail for a reason outside the model. Either way a failed command changes
nothing.
*/
module Kernel {
  import opened Wrappers
  import opened IfaceNames
  import opened Tunnel

  datatype Attr =
    | IsUp
    | Master(bridge: IfName)
    | Address(ip: Ipv4, prefix: string)
    | HardwareAddress(mac: Mac)
    | VxlanConfig(vni: nat, local: Ipv4, port: nat)

  datatype Link = Link(attrs: set<Attr>, tables: Tables)

  datatype Space = Space(links: map<IfName, Link>, defaultRoute: Option<Ipv4>)

  /** Host interfaces, and network namespaces keyed by fleet namespace (the kernel's own name
      is "ekafleet-" followed by the key). */
  datatype KState = KState(host: map<IfName, Link>, spaces: map<string, Space>)

  datatype Cmd =
    | NetnsAdd(ns: string)
    | NetnsDel(ns: string)
    | LinkAdd(dev: IfName, attrs: set<Attr>)
    | VethAdd(dev: IfName, peer: IfName)
    | LinkMove(dev: IfName, ns: string)
    | LinkSet(ns: string, dev: IfName, attr: Attr)
    | LinkDel(ns: string, dev: IfName)
    | RouteAdd(ns: string, gateway: Ipv4)
    | FdbAppend(ns: string, dev: IfName, mac: Mac, dst: Ipv4)
    | FdbDel(ns: string, dev: IfName, mac: Mac, dst: Ipv4)
    | NeighReplace(ns: string, dev: IfName, ip: Ipv4, mac: Mac)
    | NeighDel(ns: string, dev: IfName, ip: Ipv4)

  const NEW_LINK := Link({}, EMPTY)
  const NEW_SPACE := Space(map[Loopback := NEW_LINK], None)

  /** RFC 7348 section 5: the VXLAN network identifier has 24 bits. */
  const VNI_SIZE := 0x100_0000
  const VXLAN_PORT := 4789

  predicate ValidPrefix(text: string) {
    && 0 < |text| <= 2
    && (forall c :: c in text ==> '0' <= c <= '9')
    && (|text| == 2 ==> text[0] < '3' || (text[0] == '3' && text[1] <= '2'))
  }

  predicate ValidAttr(a: Attr) {
    match a
    case Address(_, prefix) => ValidPrefix(prefix)
    case VxlanConfig(vni, _, _) => vni < VNI_SIZE
    case _ => true
  }

  predicate HasLink(k: KState, ns: string, dev: IfName) {
    ns in k.spaces && dev in k.spaces[ns].links
  }

  function WithLink(k: KState, ns: string, dev: IfName, link: Link): KState
    requires ns in k.spaces
  {
    k.(spaces := k.spaces[ns := k.spaces[ns].(links := k.spaces[ns].links[dev := link])])
  }

  function TablesOf(k: KState, ns: string, dev: IfName): Tables
    requires HasLink(k, ns, dev)
  {
    k.spaces[ns].links[dev].tables
  }

  function WithTables(k: KState, ns: string, dev: IfName, t: Tables): (k': KState)
    requires HasLink(k, ns, dev)
    ensures HasLink(k', ns, dev) && TablesOf(k', ns, dev) == t
  {
    WithLink(k, ns, dev, k.spaces[ns].links[dev].(tables := t))
  }

  /** Deleting one end of a veth pair deletes both. */
  function DeletedWith(dev: IfName): set<IfName> {
    match dev
    case VethHost(short) => {dev, VethContainer(short)}
    case VethContainer(short) => {dev, VethHost(short)}
    case _ => {dev}
  }

  function Effect(k: KState, c: Cmd): Option<KState> {
    match c
    case NetnsAdd(ns) =>
      if ns in k.spaces then None else Some(k.(spaces := k.spaces[ns := NEW_SPACE]))
    case NetnsDel(ns) =>
      if ns in k.spaces then Some(k.(spaces := k.spaces - {ns})) else None
    case LinkAdd(dev, attrs) =>
      if dev in k.host || exists a | a in attrs :: !ValidAttr(a) then None
      else Some(k.(host := k.host[dev := Link(attrs, EMPTY)]))
    case VethAdd(dev, peer) =>
      if dev in k.host || peer in k.host then None
      else Some(k.(host := k.host[dev := NEW_LINK][peer := NEW_LINK]))
    case LinkMove(dev, ns) =>
      if dev !in k.host || ns !in k.spaces || dev in k.spaces[ns].links then None
      else Some(WithLink(k, ns, dev, k.host[dev]).(host := k.host - {dev}))
    case LinkSet(ns, dev, attr) =>
      if !HasLink(k, ns, dev) || !ValidAttr(attr) || (attr.Master? && !HasLink(k, ns, attr.bridge)) then None
      else
        var link := k.spaces[ns].links[dev];
        Some(WithLink(k, ns, dev, link.(attrs := link.attrs + {attr})))
    case LinkDel(ns, dev) =>
      if !HasLink(k, ns, dev) then None
      else Some(k.(spaces := k.spaces[ns := k.spaces[ns].(links := k.spaces[ns].links - DeletedWith(dev))]))
    case RouteAdd(ns, gateway) =>
      if ns !in k.spaces || k.spaces[ns].defaultRoute.Some? then None
      else Some(k.(spaces := k.spaces[ns := k.spaces[ns].(defaultRoute := Some(gateway))]))
    case FdbAppend(ns, dev, mac, dst) =>
      if !HasLink(k, ns, dev) then None
      else
        var t := TablesOf(k, ns, dev);
        Some(WithTables(k, ns, dev, t.(fdb := t.fdb + {(mac, dst)})))
    case FdbDel(ns, dev, mac, dst) =>
      if !HasLink(k, ns, dev) || (mac, dst) !in TablesOf(k, ns, dev).fdb then None
      else
        var t := TablesOf(k, ns, dev);
        Some(WithTables(k, ns, dev, t.(fdb := t.fdb - {(mac, dst)})))
    case NeighReplace(ns, dev, ip, mac) =>
      if !HasLink(k, ns, dev) then None
      else
        var t := TablesOf(k, ns, dev);
        Some(WithTables(k, ns, dev, t.(neigh := t.neigh[ip := mac])))
    case NeighDel(ns, dev, ip) =>
      if !HasLink(k, ns, dev) || ip !in TablesOf(k, ns, dev).neigh then None
      else
        var t := TablesOf(k, ns, dev);
        Some(WithTables(k, ns, dev, t.(neigh := t.neigh - {ip})))
  }

  function EffectAll(k: KState, cmds: seq<Cmd>): Option<KState>
    decreases |cmds|
  {
    if cmds == [] then Some(k)
    else
      var next := Effect(k, cmds[0]);
      if next.None? then None else EffectAll(next.value, cmds[1..])
  }

  lemma {:induction false} EffectConcat(k: KState, a: seq<Cmd>, b: seq<Cmd>)
    ensures EffectAll(k, a + b) == if EffectAll(k, a).Some? then EffectAll(EffectAll(k, a).value, b) else None
    decreases |a|
  {
    if a == [] {
      assert a + b == b;
    } else {
      assert (a + b)[1..] == a[1..] + b;
      if Effect(k, a[0]).Some? {
        EffectConcat(Effect(k, a[0]).value, a[1..], b);
      }
    }
  }

  lemma EffectSnoc(k: KState, a: seq<Cmd>, c: Cmd)
    ensures EffectAll(k, a + [c]) == AndThen(EffectAll(k, a), c)
  {
    EffectConcat(k, a, [c]);
    assert [c][1..] == [];
    if EffectAll(k, a).Some? {
      var k1 := EffectAll(k, a).value;
      assert Effect(k1, c).Some? ==> EffectAll(Effect(k1, c).value, []) == Effect(k1, c);
    }
  }

  /** The chain failed at command `i`: the commands before it have taken effect. */
  ghost predicate StoppedAt(k: KState, cmds: seq<Cmd>, i: int, k': KState, reliable: bool) {
    && 0 <= i < |cmds| && EffectAll(k, cmds[..i]) == Some(k')
    && (reliable ==> Effect(k', cmds[i]).None?)
  }

  ghost predicate Stopped(k: KState, cmds: seq<Cmd>, k': KState, reliable: bool) {
    exists i :: StoppedAt(k, cmds, i, k', reliable)
  }

  /** A reliable kernel stops a chain at its first refused command. */
  lemma StoppedFirst(k: KState, cmds: seq<Cmd>, i: int, k': KState, j: int)
    requires StoppedAt(k, cmds, i, k', true)
    requires 0 <= j < |cmds| && EffectAll(k, cmds[..j]).Some? && EffectAll(k, cmds[..j + 1]).None?
    ensures i == j
  {
    assert cmds[..i + 1] == cmds[..i] + [cmds[i]];
    EffectSnoc(k, cmds[..i], cmds[i]);
    if i < j {
      assert cmds[..j] == cmds[..i + 1] + cmds[i + 1..j];
      EffectConcat(k, cmds[..i + 1], cmds[i + 1..j]);
    } else if j < i {
      assert cmds[..i] == cmds[..j + 1] + cmds[j + 1..i];
      EffectConcat(k, cmds[..j + 1], cmds[j + 1..i]);
    }
  }

  function AndThen(r: Option<KState>, c: Cmd): Option<KState> {
    if r.None? then None else Effect(r.value, c)
  }

  lemma Chain2(k: KState, a: Cmd, b: Cmd)
    ensures EffectAll(k, [a, b]) == AndThen(Effect(k, a), b)
  {
    assert [a, b][1..] == [b] && [b][1..] == [];
    if Effect(k, a).Some? {
      var k1 := Effect(k, a).value;
      assert EffectAll(k, [a, b]) == EffectAll(k1, [b]);
      assert Effect(k1, b).Some? ==> EffectAll(Effect(k1, b).value, []) == Effect(k1, b);
    }
  }

  lemma Chain3(k: KState, a: Cmd, b: Cmd, c: Cmd)
    ensures EffectAll(k, [a, b, c]) == AndThen(AndThen(Effect(k, a), b), c)
  {
    assert [a, b, c][1..] == [b, c];
    if Effect(k, a).Some? {
      Chain2(Effect(k, a).value, b, c);
    }
  }

  lemma Chain4(k: KState, a: Cmd, b: Cmd, c: Cmd, d: Cmd)
    ensures EffectAll(k, [a, b, c, d]) == AndThen(AndThen(AndThen(Effect(k, a), b), c), d)
  {
    assert [a, b, c, d][1..] == [b, c, d];
    if Effect(k, a).Some? {
      Chain3(Effect(k, a).value, b, c, d);
    }
  }

  function InSpace(k: KState, n: string, space: Space): KState {
    k.(spaces := k.spaces[n := space])
  }

  function WithAttr(space: Space, dev: IfName, attr: Attr): Space
    requires dev in space.links
  {
    var link := space.links[dev];
    space.(links := space.links[dev := link.(attrs := link.attrs + {attr})])
  }

  lemma SetIn(k: KState, n: string, space: Space, dev: IfName, attr: Attr)
    requires dev in space.links && (attr.Master? ==> attr.bridge in space.links)
    ensures Effect(InSpace(k, n, space), LinkSet(n, dev, attr)) ==
            if ValidAttr(attr) then Some(InSpace(k, n, WithAttr(space, dev, attr))) else None
  {
    var k' := InSpace(k, n, space);
    if ValidAttr(attr) {
      assert k'.spaces[n := WithAttr(space, dev, attr)] == k.spaces[n := WithAttr(space, dev, attr)];
    }
  }

  lemma MoveIn(k: KState, n: string, space: Space, dev: IfName)
    requires dev in k.host
    ensures Effect(InSpace(k, n, space), LinkMove(dev, n)) ==
            if dev in space.links then None
            else Some(InSpace(k.(host := k.host - {dev}), n, space.(links := space.links[dev := k.host[dev]])))
  {
    var space' := space.(links := space.links[dev := k.host[dev]]);
    assert InSpace(k, n, space).spaces[n := space'] == k.spaces[n := space'];
  }

  lemma RouteIn(k: KState, n: string, space: Space, gateway: Ipv4)
    requires space.defaultRoute.None?
    ensures Effect(InSpace(k, n, space), RouteAdd(n, gateway)) ==
            Some(InSpace(k, n, space.(defaultRoute := Some(gateway))))
  {
    var space' := space.(defaultRoute := Some(gateway));
    assert InSpace(k, n, space).spaces[n := space'] == k.spaces[n := space'];
  }

  /** A set-up command that works on the host and inside one network namespace. */
  predicate Confined(c: Cmd, n: string) {
    match c
    case LinkAdd(_, _) => true
    case VethAdd(_, _) => true
    case NetnsAdd(ns) => ns == n
    case LinkMove(_, ns) => ns == n
    case LinkSet(ns, _, _) => ns == n
    case RouteAdd(ns, _) => ns == n
    case _ => false
  }

  /** Links stay, keep what was configured on them and keep their tables. */
  ghost predicate Grows(links: map<IfName, Link>, links': map<IfName, Link>) {
    forall l :: l in links ==>
      l in links' && links[l].attrs <= links'[l].attrs && links'[l].tables == links[l].tables
  }

  /** A default route stays as well. */
  ghost predicate SpaceGrows(space: Space, space': Space) {
    Grows(space.links, space'.links) && (space.defaultRoute.Some? ==> space'.defaultRoute == space.defaultRoute)
  }

  /** Nothing but the given namespace has been touched, and no network namespace is gone. */
  ghost predicate OnlyTouches(k: KState, k': KState, n: string) {
    && (forall m :: m in k.spaces ==> m in k'.spaces)
    && (forall m :: m in k.spaces && m != n ==> k'.spaces[m] == k.spaces[m])
    && (forall m :: m in k'.spaces && m != n ==> m in k.spaces)
  }

  ghost predicate Extends(k: KState, k': KState, n: string) {
    OnlyTouches(k, k', n) && (n in k.spaces ==> SpaceGrows(k.spaces[n], k'.spaces[n]))
  }

  lemma ConfinedExtends(k: KState, c: Cmd, n: string)
    requires Confined(c, n) && Effect(k, c).Some?
    ensures Extends(k, Effect(k, c).value, n)
  {
  }

  /** The interfaces a set-up command creates or moves. */
  function Devices(c: Cmd): set<IfName> {
    match c
    case LinkAdd(dev, _) => {dev}
    case VethAdd(dev, peer) => {dev, peer}
    case LinkMove(dev, _) => {dev}
    case _ => {}
  }

  ghost predicate SameOutside<V>(a: map<IfName, V>, b: map<IfName, V>, devs: set<IfName>) {
    forall l :: l !in devs ==> (l in a <==> l in b)
  }

  /** Interfaces other than the given ones are where they were, on the host and in the namespace; a
      new namespace has only its loopback besides them. */
  ghost predicate Frame(k: KState, k': KState, n: string, devs: set<IfName>) {
    && SameOutside(k.host, k'.host, devs)
    && (n in k.spaces && n in k'.spaces ==> SameOutside(k.spaces[n].links, k'.spaces[n].links, devs))
    && (n !in k.spaces && n in k'.spaces ==> SameOutside(NEW_SPACE.links, k'.spaces[n].links, devs))
  }

  lemma ConfinedFrames(k: KState, c: Cmd, n: string, devs: set<IfName>)
    requires Confined(c, n) && Devices(c) <= devs && Effect(k, c).Some?
    ensures Frame(k, Effect(k, c).value, n, devs)
  {
  }

  lemma FrameTwice(k: KState, k1: KState, k2: KState, n: string, devs: set<IfName>)
    requires Frame(k, k1, n, devs) && Frame(k1, k2, n, devs)
    requires Extends(k, k1, n) && Extends(k1, k2, n)
    ensures Frame(k, k2, n, devs)
  {
  }

  /** The kernel as the agent sees it. A reliable one fails only the commands it refuses. */
  class System {
    var st: KState
    const reliable: bool

    constructor (initial: KState, reliable: bool)
      ensures st == initial && this.reliable == reliable
    {
      st := initial;
      this.reliable := reliable;
    }

    method Run(c: Cmd) returns (ok: bool)
      modifies this
      ensures ok ==> Effect(old(st), c) == Some(st)
      ensures !ok ==> st == old(st)
      ensures reliable && Effect(old(st), c).Some? ==> ok
    {
      var next := Effect(st, c);
      var glitch: bool := *;
      if next.Some? && (reliable || !glitch) {
        st := next.value;
        return true;
      }
      return false;
    }

    /** A chain of set-up commands, abandoned at the first that fails: what came before has taken
        effect and stays. */
    method RunAll(cmds: seq<Cmd>, ghost n: string, ghost devs: set<IfName>) returns (ok: bool)
      requires forall i :: 0 <= i < |cmds| ==> Confined(cmds[i], n) && Devices(cmds[i]) <= devs
      modifies this
      ensures ok ==> EffectAll(old(st), cmds) == Some(st)
      ensures !ok ==> Stopped(old(st), cmds, st, reliable)
      ensures reliable && EffectAll(old(st), cmds).Some? ==> ok
      ensures Extends(old(st), st, n) && Frame(old(st), st, n, devs)
    {
      ghost var k := st;
      for i := 0 to |cmds|
        invariant EffectAll(k, cmds[..i]) == Some(st)
        invariant Extends(k, st, n) && Frame(k, st, n, devs)
      {
        ghost var k1 := st;
        Continues(k, cmds, i, k1);
        ok := Run(cmds[i]);
        if !ok {
          assert StoppedAt(k, cmds, i, st, reliable);
          return;
        }
        ConfinedExtends(k1, cmds[i], n);
        ConfinedFrames(k1, cmds[i], n, devs);
        FrameTwice(k, k1, st, n, devs);
      }
      assert cmds[..|cmds|] == cmds;
      ok := true;
    }
  }

  lemma Continues(k: KState, cmds: seq<Cmd>, i: nat, k1: KState)
    requires i < |cmds| && EffectAll(k, cmds[..i]) == Some(k1)
    ensures EffectAll(k, cmds[..i + 1]) == Effect(k1, cmds[i])
    ensures Effect(k1, cmds[i]).None? ==> EffectAll(k, cmds).None?
  {
    CutCmds(cmds, i);
    EffectSnoc(k, cmds[..i], cmds[i]);
    EffectConcat(k, cmds[..i + 1], cmds[i + 1..]);
  }

  lemma CutCmds(cmds: seq<Cmd>, i: nat)
    requires i < |cmds|
    ensures cmds[..i + 1] == cmds[..i] + [cmds[i]] && cmds == cmds[..i + 1] + cmds[i + 1..]
  {
  }
}
