/**
What a refused veth pair leaves behind. The commands create both ends on the host and then move
them, so a name that is taken in the namespace strands the new pair on the host; from then on the
kernel refuses every pair with those names, for any namespace.
*/
module NetnsVeths {
  import opened Wrappers
  import opened IfaceNames
  import opened Tunnel
  import opened Kernel
  import opened NetnsSteps
  import opened NetnsInvariants
  import opened NetnsManager
  import opened NetnsExact

  // ---------- where a chain of veth commands stops ----------

  predicate Blocked(k: KState, short: string) {
    VethHost(short) in k.host || VethContainer(short) in k.host
  }

  function OnHost(k: KState, short: string): KState {
    k.(host := k.host[VethHost(short) := NEW_LINK][VethContainer(short) := NEW_LINK])
  }

  lemma FirstTwo(k: KState, n: string, svc: string, ip: Ipv4)
    requires HasLink(k, n, BridgeFor(n))
    ensures var cmds := VethCmds(n, svc, ip);
            && |cmds| == 8
            && EffectAll(k, cmds[..0]) == Some(k)
            && (Blocked(k, Short(svc)) ==> EffectAll(k, cmds[..1]).None?)
            && (!Blocked(k, Short(svc)) ==> EffectAll(k, cmds[..1]) == Some(OnHost(k, Short(svc))))
            && (!Blocked(k, Short(svc)) && VethHost(Short(svc)) in k.spaces[n].links ==> EffectAll(k, cmds[..2]).None?)
  {
    var cmds := VethCmds(n, svc, ip);
    assert cmds[..0] == [] && cmds[..1] == [] + [cmds[0]] && cmds[..2] == cmds[..1] + [cmds[1]];
    EffectSnoc(k, [], cmds[0]);
    EffectSnoc(k, cmds[..1], cmds[1]);
  }

  lemma FirstFive(k: KState, n: string, svc: string, ip: Ipv4)
    requires HasLink(k, n, BridgeFor(n)) && !Blocked(k, Short(svc)) && VethHost(Short(svc)) !in k.spaces[n].links
    requires VethContainer(Short(svc)) in k.spaces[n].links
    ensures var cmds := VethCmds(n, svc, ip);
            EffectAll(k, cmds[..4]) == Some(HostEnd(k, n, svc)) && EffectAll(k, cmds[..5]).None?
  {
    var cmds := VethCmds(n, svc, ip);
    assert cmds[..4] == VethHostCmds(n, svc) && cmds[..5] == cmds[..4] + [cmds[4]];
    HostEndCommands(k, n, svc);
    EffectSnoc(k, cmds[..4], cmds[4]);
  }

  /** What a refused pair leaves on a reliable kernel: nothing new when an end was on the host already,
      the whole pair on the host when the host end's name is taken in the namespace, and half of it
      otherwise. */
  lemma RefusedLeaves(k: KState, n: string, svc: string, ip: Ipv4, k': KState)
    requires HasLink(k, n, BridgeFor(n)) && !VethFree(k, n, svc) && Stopped(k, VethCmds(n, svc, ip), k', true)
    ensures k' == if Blocked(k, Short(svc)) then k
                  else if VethHost(Short(svc)) in k.spaces[n].links then OnHost(k, Short(svc))
                  else HostEnd(k, n, svc)
  {
    var cmds := VethCmds(n, svc, ip);
    var i :| StoppedAt(k, cmds, i, k', true);
    FirstTwo(k, n, svc, ip);
    if Blocked(k, Short(svc)) {
      StoppedFirst(k, cmds, i, k', 0);
    } else if VethHost(Short(svc)) in k.spaces[n].links {
      StoppedFirst(k, cmds, i, k', 1);
    } else {
      FirstFive(k, n, svc, ip);
      StoppedFirst(k, cmds, i, k', 4);
    }
  }

  /** Two services of one namespace whose names share their first eight characters cannot both be added,
      on any kernel; a reliable one then has the pair of the second stranded on the host. */
  lemma ClashingServiceRefused(w: World, n: string, svc: string, ip: Ipv4, other: string, r: Outcome, w': World,
                               reliable: bool)
    requires Backed(w) && AddStep(w, n, svc, ip, r, w', reliable)
    requires n in w.mem && other in w.mem[n].veths && svc !in w.mem[n].veths && Short(svc) == Short(other)
    ensures r == Err(Command) && w'.mem == w.mem
    ensures reliable ==> w'.k == if Blocked(w.k, Short(svc)) then w.k else OnHost(w.k, Short(svc))
  {
    assert ServiceWired(w.mem[n], other, w.k.spaces[n].links);
    if reliable {
      RefusedLeaves(w.k, n, svc, ip, w'.k);
    }
  }

  /** In plain text: with a service named by eight bytes `a` and anything after them in the namespace,
      another that starts with the same eight bytes is refused, and its pair is on the host. */
  lemma EightBytesClash(w: World, n: string, a: string, x: string, y: string, ip: Ipv4, r: Outcome, w': World)
    requires Backed(w) && AddStep(w, n, a + y, ip, r, w', true) && |a| == 8 && x != y
    requires n in w.mem && a + x in w.mem[n].veths && a + y !in w.mem[n].veths
    ensures r == Err(Command) && w'.mem == w.mem
    ensures Blocked(w'.k, a) && (!Blocked(w.k, a) ==> Stranded(w'.k, a))
  {
    assert (a + x)[..8] == a && (a + y)[..8] == a;
    ShortIff(a + x, a + y);
    ClashingServiceRefused(w, n, a + y, ip, a + x, r, w', true);
    assert Short(a + y) == a;
  }

  // ---------- the ledger of a reliable run ----------

  /** Both ends of a pair are among the links, or neither is. */
  predicate Ends(links: map<IfName, Link>, short: string, present: bool) {
    (VethHost(short) in links <==> present) && (VethContainer(short) in links <==> present)
  }

  ghost predicate HostLedger(host: map<IfName, Link>, refused: set<string>) {
    forall short :: Ends(host, short, short in refused)
  }

  ghost predicate SpaceLedger(ns: NamespaceNetwork, links: map<IfName, Link>) {
    forall short :: Ends(links, short, short in Shorts(ns.veths))
  }

  /** The pairs on the host are the refused ones, and those in a managed namespace the recorded ones. */
  ghost predicate Ledger(w: World, refused: set<string>) {
    && HostLedger(w.k.host, refused)
    && forall n :: n in w.mem && n in w.k.spaces ==> SpaceLedger(w.mem[n], w.k.spaces[n].links)
  }

  lemma OthersLedger(w: World, w': World, n: string, ns': NamespaceNetwork, refused: set<string>, refused': set<string>)
    requires w'.mem == w.mem[n := ns'] && OnlyTouches(w.k, w'.k, n) && n in w'.k.spaces
    ensures Ledger(w, refused) && HostLedger(w'.k.host, refused') && SpaceLedger(ns', w'.k.spaces[n].links) ==>
              Ledger(w', refused')
  {
  }

  lemma SameVeths(a: map<IfName, Link>, b: map<IfName, Link>, devs: set<IfName>, refused: set<string>)
    requires SameOutside(a, b, devs)
    requires forall short :: VethHost(short) !in devs && VethContainer(short) !in devs
    ensures HostLedger(a, refused) ==> HostLedger(b, refused)
    ensures forall ns :: SpaceLedger(ns, a) ==> SpaceLedger(ns, b)
  {
    forall ns | SpaceLedger(ns, a)
      ensures SpaceLedger(ns, b)
    {
      forall short
        ensures Ends(b, short, short in Shorts(ns.veths))
      {
        assert Ends(a, short, short in Shorts(ns.veths));
      }
    }
  }

  lemma AddedLedger(ns: NamespaceNetwork, links: map<IfName, Link>, svc: string, ip: Ipv4)
    ensures SpaceLedger(ns, links) ==> SpaceLedger(WithService(ns, svc, ip), VethLinks(links, ns.bridge, svc, ip))
  {
    assert Shorts(WithService(ns, svc, ip).veths) == Shorts(ns.veths) + {Short(svc)};
    if SpaceLedger(ns, links) {
      forall short
        ensures Ends(VethLinks(links, ns.bridge, svc, ip), short, short in Shorts(WithService(ns, svc, ip).veths))
      {
        assert Ends(links, short, short in Shorts(ns.veths));
      }
    }
  }

  lemma RemovedLedger(ns: NamespaceNetwork, links: map<IfName, Link>, svc: string)
    requires svc in ns.veths && DistinctShorts(ns.veths.Keys)
    ensures SpaceLedger(ns, links) ==> VethHost(Short(svc)) in links
    ensures SpaceLedger(ns, links) ==> SpaceLedger(WithoutService(ns, svc), links - DeletedWith(VethHost(Short(svc))))
  {
    assert Short(svc) in Shorts(ns.veths);
    assert Shorts(WithoutService(ns, svc).veths) == Shorts(ns.veths) - {Short(svc)};
    if SpaceLedger(ns, links) {
      assert Ends(links, Short(svc), true);
      forall short
        ensures Ends(links - DeletedWith(VethHost(Short(svc))), short, short in Shorts(WithoutService(ns, svc).veths))
      {
        assert Ends(links, short, short in Shorts(ns.veths));
      }
    }
  }

  lemma RefusedLedger(host: map<IfName, Link>, refused: set<string>, short: string)
    ensures HostLedger(host, refused) ==>
              HostLedger(host[VethHost(short) := NEW_LINK][VethContainer(short) := NEW_LINK], refused + {short})
  {
    if HostLedger(host, refused) {
      forall s
        ensures Ends(host[VethHost(short) := NEW_LINK][VethContainer(short) := NEW_LINK], s, s in refused + {short})
      {
        assert Ends(host, s, s in refused);
      }
    }
  }

  // ---------- every operation keeps the ledger ----------

  lemma EnsureLedger(w: World, n: string, subnet: string, gateway: Option<Ipv4>, vni: nat, r: Outcome, w': World,
                     refused: set<string>)
    requires EnsureStep(w, n, subnet, gateway, vni, r, w', true)
    ensures Ledger(w, refused) ==> Ledger(w', refused)
  {
    if !IsDefault(n) && n !in w.mem && gateway.Some? && Ledger(w, refused) {
      if r.Ok? {
        var ns' := FreshNetwork(n, subnet, gateway.value, vni);
        assert Shorts(ns'.veths) == {};
        assert SpaceLedger(ns', w'.k.spaces[n].links);
        OthersLedger(w, w', n, ns', refused, refused);
      } else {
        SameVeths(w.k.host, w'.k.host, {BridgeFor(n)}, refused);
      }
    }
  }

  /** What a refused addition leaves, in a world that keeps the ledger. */
  lemma RefusedAddition(w: World, n: string, svc: string, ip: Ipv4, w': World, refused: set<string>)
    requires n in w.mem && HasLink(w.k, n, BridgeFor(n)) && AddStep(w, n, svc, ip, Err(Command), w', true)
    requires !IsDefault(n) && svc !in w.mem[n].veths
    requires HostLedger(w.k.host, refused) && SpaceLedger(w.mem[n], w.k.spaces[n].links)
    ensures w'.mem == w.mem && w'.k.spaces == w.k.spaces && HostLedger(w'.k.host, refused + {Short(svc)})
    ensures Short(svc) in refused || Short(svc) in Shorts(w.mem[n].veths)
  {
    var short := Short(svc);
    assert Ends(w.k.host, short, short in refused);
    assert Ends(w.k.spaces[n].links, short, short in Shorts(w.mem[n].veths));
    RefusedLeaves(w.k, n, svc, ip, w'.k);
    RefusedLedger(w.k.host, refused, short);
    assert short in refused ==> refused + {short} == refused;
  }

  lemma AddLedger(w: World, n: string, svc: string, ip: Ipv4, r: Outcome, w': World, refused: set<string>)
    requires AddStep(w, n, svc, ip, r, w', true)
    requires n in w.mem ==> !IsDefault(n) && HasLink(w.k, n, BridgeFor(n)) && w.mem[n].bridge == BridgeFor(n)
    ensures Ledger(w, refused) ==> Ledger(w', refused + if r == Err(Command) then {Short(svc)} else {})
  {
    assert refused + {} == refused;
    if n in w.mem && svc !in w.mem[n].veths && Ledger(w, refused) {
      if r.Ok? {
        AddedLedger(w.mem[n], w.k.spaces[n].links, svc, ip);
        OthersLedger(w, w', n, WithService(w.mem[n], svc, ip), refused, refused);
      } else {
        RefusedAddition(w, n, svc, ip, w', refused);
      }
    }
  }

  lemma RemoveLedger(w: World, n: string, svc: string, w': World, refused: set<string>)
    requires RemoveStep(w, n, svc, w', true)
    requires n in w.mem ==> n in w.k.spaces && DistinctShorts(w.mem[n].veths.Keys)
    ensures Ledger(w, refused) ==> Ledger(w', refused)
  {
    if !IsDefault(n) && n in w.mem && svc in w.mem[n].veths && Ledger(w, refused) {
      DeletionAttempt(w.k, n, VethHost(Short(svc)), w'.k, true);
      RemovedLedger(w.mem[n], w.k.spaces[n].links, svc);
      OthersLedger(w, w', n, WithoutService(w.mem[n], svc), refused, refused);
    }
  }

  lemma TunnelLedger(w: World, n: string, vni: nat, local: Ipv4, peers: seq<PeerInfo>, r: Outcome, w': World,
                     refused: set<string>)
    requires TunnelStep(w, n, vni, local, peers, r, w', true) && (n in w.mem ==> n in w.k.spaces)
    ensures Ledger(w, refused) ==> Ledger(w', refused)
  {
    if !IsDefault(n) && n in w.mem && Ledger(w, refused) {
      var links, links' := w.k.spaces[n].links, w'.k.spaces[n].links;
      if r.Ok? {
        DeviceLinks(w, n, vni, local, peers, w', true);
        assert SameOutside(links, links', {VxlanFor(n)});
        SameVeths(links, links', {VxlanFor(n)}, refused);
        var ns' := WithTunnel(w.mem[n], n, peers);
        assert SpaceLedger(w.mem[n], links') ==> SpaceLedger(ns', links');
        OthersLedger(w, w', n, ns', refused, refused);
      } else {
        SameVeths(w.k.host, w'.k.host, {VxlanFor(n)}, refused);
        SameVeths(links, links', {VxlanFor(n)}, refused);
      }
    }
  }

  lemma UntunnelLedger(w: World, n: string, w': World, refused: set<string>)
    requires UntunnelStep(w, n, w', true)
    requires n in w.mem ==> n in w.k.spaces && (w.mem[n].vxlan.Some? ==> w.mem[n].vxlan.value == VxlanFor(n))
    ensures Ledger(w, refused) ==> Ledger(w', refused)
  {
    if !IsDefault(n) && n in w.mem && w.mem[n].vxlan.Some? && Ledger(w, refused) {
      DeletionAttempt(w.k, n, VxlanFor(n), w'.k, true);
      var links, links', ns' := w.k.spaces[n].links, w'.k.spaces[n].links, w.mem[n].(vxlan := None, peers := map[]);
      SameVeths(links, links', {VxlanFor(n)}, refused);
      assert SpaceLedger(w.mem[n], links') ==> SpaceLedger(ns', links');
      OthersLedger(w, w', n, ns', refused, refused);
    }
  }

  /** The name prefix an operation newly strands on the host, if it was a refused addition. */
  function RefusedBy(op: Op, r: Outcome): set<string> {
    if op.AddService? && r == Err(Command) then {Short(op.svc)} else {}
  }

  lemma StepKeepsLedger(w: World, op: Op, r: Outcome, w': World, refused: set<string>)
    requires Step(w, op, r, w', true) && Backed(w) && Ledger(w, refused)
    ensures Ledger(w', refused + RefusedBy(op, r))
  {
    assert refused + {} == refused;
    match op
    case EnsureNamespace(n, subnet, gateway, vni) => EnsureLedger(w, n, subnet, gateway, vni, r, w', refused);
    case AddService(n, svc, ip) => AddLedger(w, n, svc, ip, r, w', refused);
    case RemoveService(n, svc) => RemoveLedger(w, n, svc, w', refused);
    case DestroyNamespace(n) =>
    case EnsureTunnel(n, vni, local, peers) => TunnelLedger(w, n, vni, local, peers, r, w', refused);
    case RemoveTunnel(n) => UntunnelLedger(w, n, w', refused);
    case GcNamespaces(_) =>
  }

  /** The prefixes of the additions a run was refused. */
  function Refused(run: seq<Event>): set<string> {
    if run == [] then {}
    else Refused(run[..|run| - 1]) + RefusedBy(run[|run| - 1].op, run[|run| - 1].result)
  }

  lemma {:induction false} RunKeepsLedger(start: World, run: seq<Event>, refused: set<string>)
    requires Backed(start) && Ledger(start, refused) && IsRun(start, run, true)
    ensures Backed(Last(start, run)) && Ledger(Last(start, run), refused + Refused(run))
  {
    if run == [] {
      assert refused + {} == refused;
    } else {
      var before, e := run[..|run| - 1], run[|run| - 1];
      RunKeepsLedger(start, before, refused);
      AlwaysBacked(start, run, true);
      StepKeepsLedger(Last(start, before), e.op, e.result, e.after, refused + Refused(before));
      assert (refused + Refused(before)) + RefusedBy(e.op, e.result) == refused + Refused(run);
    }
  }

  // ---------- when an addition succeeds ----------

  /** In a world that keeps the ledger, on a reliable kernel: adding a service to a managed namespace
      succeeds if and only if it is recorded already, or no service of the namespace shares its first
      eight characters and no addition with them was refused before, in any namespace. */
  lemma AddSucceedsIff(w: World, n: string, svc: string, ip: Ipv4, r: Outcome, w': World, refused: set<string>)
    requires Backed(w) && Ledger(w, refused) && AddStep(w, n, svc, ip, r, w', true) && n in w.mem
    ensures r.Ok? <==>
            svc in w.mem[n].veths || (Short(svc) !in Shorts(w.mem[n].veths) && Short(svc) !in refused)
  {
    var short := Short(svc);
    assert Ends(w.k.host, short, short in refused);
    assert Ends(w.k.spaces[n].links, short, short in Shorts(w.mem[n].veths));
  }

  /** A world without leftovers keeps the ledger, with nothing refused. */
  lemma CleanIsLedger(w: World)
    requires Clean(w)
    ensures Ledger(w, {})
  {
    forall n | n in w.mem && n in w.k.spaces
      ensures SpaceLedger(w.mem[n], w.k.spaces[n].links)
    {
      forall short
        ensures Ends(w.k.spaces[n].links, short, short in Shorts(w.mem[n].veths))
      {
        assert Accounts(w.mem[n], VethHost(short)) <==> short in Shorts(w.mem[n].veths);
        assert Accounts(w.mem[n], VethContainer(short)) <==> short in Shorts(w.mem[n].veths);
      }
    }
  }

  lemma NothingRefused()
    ensures Backed(NOTHING) && Ledger(NOTHING, {})
  {
  }

  lemma ShortsIff(veths: map<string, IfName>, svc: string)
    ensures Short(svc) in Shorts(veths) <==> exists other :: other in veths && SameToVeths(svc, other)
  {
    if other :| other in veths && SameToVeths(svc, other) {
      ShortIff(svc, other);
      assert Short(other) in Shorts(veths);
    }
    if Short(svc) in Shorts(veths) {
      var other :| other in veths && Short(other) == Short(svc);
      ShortIff(svc, other);
    }
  }

  /** The event is a refused addition of a service whose veth names are those of `svc`. */
  predicate RefusedLike(e: Event, svc: string) {
    e.op.AddService? && e.result == Err(Command) && SameToVeths(svc, e.op.svc)
  }

  lemma {:induction false} RefusedIff(run: seq<Event>, svc: string)
    ensures Short(svc) in Refused(run) <==> exists i :: 0 <= i < |run| && RefusedLike(run[i], svc)
  {
    if run != [] {
      var before, e := run[..|run| - 1], run[|run| - 1];
      RefusedIff(before, svc);
      if e.op.AddService? {
        ShortIff(svc, e.op.svc);
      }
      assert forall i :: 0 <= i < |before| ==> before[i] == run[i];
      if i :| 0 <= i < |before| && RefusedLike(before[i], svc) {
        assert RefusedLike(run[i], svc);
      }
    }
  }

  /** Over every run of the manager on a reliable kernel: adding a service to a managed namespace succeeds
      if and only if it is recorded already, or no service of the namespace is the same to veth names and
      no addition of such a service was refused before, in any namespace. */
  lemma AdditionSucceedsIff(run: seq<Event>, n: string, svc: string, ip: Ipv4, r: Outcome, w': World)
    requires IsRun(NOTHING, run, true) && n in Last(NOTHING, run).mem
    requires AddStep(Last(NOTHING, run), n, svc, ip, r, w', true)
    ensures var veths := Last(NOTHING, run).mem[n].veths;
            r.Ok? <==>
            svc in veths ||
            (&& !(exists other :: other in veths && SameToVeths(svc, other))
             && !(exists i :: 0 <= i < |run| && RefusedLike(run[i], svc)))
  {
    NothingRefused();
    RunKeepsLedger(NOTHING, run, {});
    assert {} + Refused(run) == Refused(run);
    AddSucceedsIff(Last(NOTHING, run), n, svc, ip, r, w', Refused(run));
    ShortsIff(Last(NOTHING, run).mem[n].veths, svc);
    RefusedIff(run, svc);
  }

  lemma {:induction false} PrefixIsRun(start: World, run: seq<Event>, j: nat, reliable: bool)
    requires IsRun(start, run, reliable) && j < |run|
    ensures IsRun(start, run[..j], reliable)
    ensures Step(Last(start, run[..j]), run[j].op, run[j].result, run[j].after, reliable)
  {
    if j < |run| - 1 {
      var before := run[..|run| - 1];
      PrefixIsRun(start, before, j, reliable);
      assert before[..j] == run[..j];
    }
  }

  /** One refused addition makes every later addition that is the same to veth names fail, of any service
      to any namespace that does not have it already. */
  lemma ClashFailsForever(run: seq<Event>, i: nat, j: nat)
    requires IsRun(NOTHING, run, true) && i < j < |run|
    requires run[j].op.AddService? && RefusedLike(run[i], run[j].op.svc)
    ensures var mem, op := Last(NOTHING, run[..j]).mem, run[j].op;
            op.n in mem && op.svc !in mem[op.n].veths ==> run[j].result.Err?
  {
    PrefixIsRun(NOTHING, run, j, true);
    var e, before := run[j], run[..j];
    assert before[i] == run[i];
    if e.op.n in Last(NOTHING, before).mem {
      AdditionSucceedsIff(before, e.op.n, e.op.svc, e.op.ip, e.result, e.after);
    }
  }

  // ---------- a stranded pair stays, whatever fails ----------

  predicate Stranded(k: KState, short: string) {
    VethHost(short) in k.host && VethContainer(short) in k.host
  }

  lemma BlockedAtOnce(k: KState, n: string, svc: string, ip: Ipv4, k': KState, reliable: bool)
    requires Blocked(k, Short(svc)) && Stopped(k, VethCmds(n, svc, ip), k', reliable)
    ensures k' == k
  {
    var cmds := VethCmds(n, svc, ip);
    var i :| StoppedAt(k, cmds, i, k', reliable);
    if i == 0 {
      assert cmds[..0] == [];
    } else {
      assert cmds[..i] == cmds[..1] + cmds[1..i];
      EffectConcat(k, cmds[..1], cmds[1..i]);
      assert cmds[..1] == [] + [cmds[0]];
      EffectSnoc(k, [], cmds[0]);
    }
  }

  lemma FrameKeepsStranded(k: KState, k': KState, n: string, devs: set<IfName>, short: string)
    requires Frame(k, k', n, devs) && VethHost(short) !in devs && VethContainer(short) !in devs
    ensures Stranded(k, short) ==> Stranded(k', short)
  {
  }

  lemma AddKeepsStranded(w: World, n: string, svc: string, ip: Ipv4, r: Outcome, w': World, reliable: bool,
                         short: string)
    requires AddStep(w, n, svc, ip, r, w', reliable) && Stranded(w.k, short)
    ensures Stranded(w'.k, short)
    ensures Short(svc) == short && r.Ok? ==> w' == w
  {
    if r == Err(Command) && w' != w {
      if Short(svc) == short {
        BlockedAtOnce(w.k, n, svc, ip, w'.k, reliable);
      } else {
        FrameKeepsStranded(w.k, w'.k, n, {VethHost(Short(svc)), VethContainer(Short(svc))}, short);
      }
    }
  }

  predicate Has(w: World, n: string, svc: string) {
    n in w.mem && svc in w.mem[n].veths
  }

  /** No operation moves or deletes a stranded pair, on any kernel, and none records a service with its
      first eight characters. */
  lemma StepKeepsStranded(w: World, op: Op, r: Outcome, w': World, reliable: bool, short: string)
    requires Step(w, op, r, w', reliable) && Stranded(w.k, short)
    ensures Stranded(w'.k, short)
    ensures forall n, svc :: Short(svc) == short && Has(w', n, svc) ==> Has(w, n, svc)
  {
    match op
    case EnsureNamespace(n, _, gateway, _) =>
      if r == Err(Command) && w' != w {
        FrameKeepsStranded(w.k, w'.k, n, {BridgeFor(n)}, short);
      }
    case AddService(n, svc, ip) => AddKeepsStranded(w, n, svc, ip, r, w', reliable, short);
    case EnsureTunnel(n, _, _, _) =>
      if r == Err(Command) && w' != w {
        FrameKeepsStranded(w.k, w'.k, n, {VxlanFor(n)}, short);
      }
    case _ =>
  }

  /** So in every run, on any kernel, a stranded pair stays and keeps every service with its first eight
      characters from being recorded. */
  lemma {:induction false} StrandedForever(start: World, run: seq<Event>, reliable: bool, short: string)
    requires IsRun(start, run, reliable) && Stranded(start.k, short)
    ensures Stranded(Last(start, run).k, short)
    ensures forall n, svc :: Short(svc) == short && Has(Last(start, run), n, svc) ==> Has(start, n, svc)
  {
    if run != [] {
      var before, e := run[..|run| - 1], run[|run| - 1];
      StrandedForever(start, before, reliable, short);
      StepKeepsStranded(Last(start, before), e.op, e.result, e.after, reliable, short);
    }
  }
}
