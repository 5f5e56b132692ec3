/**
What a message with a name clash leaves: a service without network and a veth pair on the host.
*/
module AgentClashes {
  import opened Wrappers
  import opened IfaceNames
  import opened Tunnel
  import opened Kernel
  import opened NetnsSteps
  import opened NetnsInvariants
  import opened NetnsExact
  import opened NetnsVeths
  import opened DesiredState
  import opened Agent
  import opened AgentRuns

  lemma {:induction false} SuffixIsRun(start: World, run: seq<Event>, j: nat, reliable: bool)
    requires IsRun(start, run, reliable) && j <= |run|
    ensures IsRun(start, run[..j], reliable) && IsRun(Last(start, run[..j]), run[j..], reliable)
    ensures Last(Last(start, run[..j]), run[j..]) == Last(start, run)
  {
    if j == |run| {
      assert run[..j] == run && run[j..] == [];
    } else {
      var before := run[..|run| - 1];
      SuffixIsRun(start, before, j, reliable);
      SliceBefore(run, j);
    }
  }

  lemma SliceBefore(run: seq<Event>, j: nat)
    requires j < |run|
    ensures run[..|run| - 1][..j] == run[..j]
    ensures var tail := run[j..];
            |tail| > 0 && tail[..|tail| - 1] == run[..|run| - 1][j..] && tail[|tail| - 1] == run[|run| - 1]
  {
  }

  predicate SetsUp(ops: seq<Op>) {
    forall i :: 0 <= i < |ops| ==> ops[i].EnsureNamespace? || ops[i].AddService?
  }

  /** The service is not in its namespace, and its first eight characters are taken. */
  ghost predicate Barred(w: World, refused: set<string>, n: string, svc: string) {
    && n in w.mem && svc !in w.mem[n].veths
    && (Short(svc) in Shorts(w.mem[n].veths) || Short(svc) in refused)
  }

  /** The invariants a reliable run keeps. */
  ghost predicate Kept(w: World, refused: set<string>) {
    Backed(w) && Ledger(w, refused)
  }

  lemma KeptAfter(start: World, run: seq<Event>, refused: set<string>)
    ensures Kept(start, refused) && IsRun(start, run, true) ==> Kept(Last(start, run), refused + Refused(run))
  {
    if Kept(start, refused) && IsRun(start, run, true) {
      RunKeepsLedger(start, run, refused);
    }
  }

  lemma BarredEnsure(w: World, op: Op, r: Outcome, w': World, refused: set<string>, n: string, svc: string)
    requires op.EnsureNamespace? && EnsureStep(w, op.n, op.subnet, op.gateway, op.vni, r, w', true)
    ensures Barred(w, refused, n, svc) ==> Barred(w', refused, n, svc)
  {
  }

  lemma TakenIsRefused(w: World, n: string, svc: string, ip: Ipv4, r: Outcome, w': World, refused: set<string>)
    requires AddStep(w, n, svc, ip, r, w', true)
    ensures Kept(w, refused) && Barred(w, refused, n, svc) ==> r == Err(Command) && w'.mem == w.mem
  {
    if Kept(w, refused) && Barred(w, refused, n, svc) {
      AddSucceedsIff(w, n, svc, ip, r, w', refused);
    }
  }

  lemma OtherAddition(w: World, m: string, other: string, ip: Ipv4, r: Outcome, w': World, refused: set<string>,
                      n: string, svc: string)
    requires AddStep(w, m, other, ip, r, w', true) && (m != n || other != svc)
    ensures Barred(w, refused, n, svc) ==> Barred(w', refused, n, svc)
  {
    if Barred(w, refused, n, svc) && m == n && w'.mem != w.mem {
      assert Shorts(w'.mem[n].veths) == Shorts(w.mem[n].veths) + {Short(other)};
    }
  }

  lemma BarredWider(w: World, refused: set<string>, more: set<string>, n: string, svc: string)
    ensures Barred(w, refused, n, svc) ==> Barred(w, refused + more, n, svc)
  {
  }

  lemma BarredStep(w: World, op: Op, r: Outcome, w': World, refused: set<string>, n: string, svc: string)
    requires Step(w, op, r, w', true) && (op.EnsureNamespace? || op.AddService?)
    ensures Kept(w, refused) && Barred(w, refused, n, svc) ==>
              && Barred(w', refused + RefusedBy(op, r), n, svc)
              && (op.AddService? && op.n == n && op.svc == svc ==> Short(svc) in RefusedBy(op, r))
  {
    BarredWider(w', refused, RefusedBy(op, r), n, svc);
    if op.EnsureNamespace? {
      BarredEnsure(w, op, r, w', refused, n, svc);
    } else if op.n == n && op.svc == svc {
      TakenIsRefused(w, n, svc, op.ip, r, w', refused);
    } else {
      OtherAddition(w, op.n, op.svc, op.ip, r, w', refused, n, svc);
    }
  }

  ghost predicate Attempts(run: seq<Event>, n: string, svc: string) {
    exists i :: 0 <= i < |run| && run[i].op.AddService? && run[i].op.n == n && run[i].op.svc == svc
  }

  lemma AttemptsSnoc(run: seq<Event>, n: string, svc: string)
    requires run != []
    ensures var e := run[|run| - 1];
            Attempts(run, n, svc) ==>
              Attempts(run[..|run| - 1], n, svc) || (e.op.AddService? && e.op.n == n && e.op.svc == svc)
  {
  }

  lemma SetsUpSnoc(run: seq<Event>)
    requires run != [] && SetsUp(Ops(run))
    ensures SetsUp(Ops(run[..|run| - 1])) && (run[|run| - 1].op.EnsureNamespace? || run[|run| - 1].op.AddService?)
  {
    assert Ops(run)[|run| - 1] == run[|run| - 1].op;
    var before := Ops(run[..|run| - 1]);
    forall i | 0 <= i < |before|
      ensures before[i].EnsureNamespace? || before[i].AddService?
    {
      assert before[i] == Ops(run)[i];
    }
  }

  lemma {:induction false} BarredRun(start: World, run: seq<Event>, refused: set<string>, n: string, svc: string)
    requires IsRun(start, run, true) && SetsUp(Ops(run))
    ensures Kept(start, refused) && Barred(start, refused, n, svc) ==>
              && Barred(Last(start, run), refused + Refused(run), n, svc)
              && (Attempts(run, n, svc) ==> Short(svc) in Refused(run))
  {
    if run == [] {
      assert refused + {} == refused;
    } else {
      var before, e := run[..|run| - 1], run[|run| - 1];
      SetsUpSnoc(run);
      BarredRun(start, before, refused, n, svc);
      KeptAfter(start, before, refused);
      BarredStep(Last(start, before), e.op, e.result, e.after, refused + Refused(before), n, svc);
      assert (refused + Refused(before)) + RefusedBy(e.op, e.result) == refused + Refused(run);
      AttemptsSnoc(run, n, svc);
    }
  }

  lemma {:induction false} EnsureSetsUp(networks: seq<NetworkConfig>)
    ensures SetsUp(EnsureOps(networks))
  {
    if networks != [] {
      EnsureSetsUp(networks[..|networks| - 1]);
    }
  }

  lemma {:induction false} AddSetsUp(services: seq<ServiceSpec>, s: ServiceSpec)
    ensures SetsUp(AddOps(services))
    ensures s in services && Networked(s) ==> AddService(s.namespace, s.name, s.ip.value) in AddOps(services)
  {
    if services != [] {
      var front := services[..|services| - 1];
      assert services == front + [services[|services| - 1]];
      AddSetsUp(front, s);
    }
  }

  /** After the setting-up part of a script, a barred service has its pair stranded. */
  lemma SetupStrands(w: World, head: seq<Event>, msg: Message, refused: set<string>, s: ServiceSpec)
    requires IsRun(w, head, true) && Ops(head) == EnsureOps(msg.networks) + AddOps(msg.services)
    requires s in msg.services && Networked(s)
    ensures Kept(w, refused) && Barred(w, refused, s.namespace, s.name) ==>
              Stranded(Last(w, head).k, Short(s.name)) && !Has(Last(w, head), s.namespace, s.name)
  {
    EnsureSetsUp(msg.networks);
    AddSetsUp(msg.services, s);
    AttemptFound(head, s.namespace, s.name, s.ip.value);
    BarredRun(w, head, refused, s.namespace, s.name);
    KeptAfter(w, head, refused);
    if Kept(w, refused) && Barred(w, refused, s.namespace, s.name) {
      assert Ends(Last(w, head).k.host, Short(s.name), Short(s.name) in refused + Refused(head));
    }
  }

  lemma ScriptSplits(w: World, ops: seq<Op>, first: seq<Op>, w': World) returns (head: seq<Event>, tail: seq<Event>)
    requires Performed(w, ops, w', true) && first <= ops
    ensures IsRun(w, head, true) && Ops(head) == first
    ensures IsRun(Last(w, head), tail, true) && Last(Last(w, head), tail) == w'
  {
    var run :| IsRun(w, run, true) && Ops(run) == ops && Last(w, run) == w';
    SuffixIsRun(w, run, |first|, true);
    head, tail := run[..|first|], run[|first|..];
    assert Ops(head) == Ops(run)[..|first|];
  }

  lemma BarredIsRefused(w: World, desired: Desired, msg: Message, local: Ipv4, w': World, desired': Desired,
                        refused: set<string>, s: ServiceSpec)
    requires Kept(w, refused) && Handled(w, desired, msg, local, w', desired', true)
    requires s in msg.services && Networked(s) && Barred(w, refused, s.namespace, s.name)
    ensures Stranded(w'.k, Short(s.name)) && !Has(w', s.namespace, s.name)
  {
    var previous :| Enumerates(previous, desired) && Performed(w, Script(msg, previous, local), w', true);
    var first := EnsureOps(msg.networks) + AddOps(msg.services);
    assert first <= Script(msg, previous, local);
    var head, tail := ScriptSplits(w, Script(msg, previous, local), first, w');
    SetupStrands(w, head, msg, refused, s);
    StrandedForever(Last(w, head), tail, true, Short(s.name));
  }

  /** A message that names a new service while another service of the namespace is the same to veth names,
      as when a service is renamed: additions come before removals, so the addition is refused and the new
      pair is stranded on the host. The service does not get its network, and by `StrandedForever` neither
      it nor any other service with those eight bytes ever will. */
  lemma RenameIsRefused(w: World, desired: Desired, msg: Message, local: Ipv4, w': World, desired': Desired,
                        refused: set<string>, s: ServiceSpec, former: string)
    requires Kept(w, refused) && Handled(w, desired, msg, local, w', desired', true)
    requires s in msg.services && Networked(s) && s.namespace in w.mem
    requires former in w.mem[s.namespace].veths && s.name !in w.mem[s.namespace].veths && SameToVeths(s.name, former)
    ensures Stranded(w'.k, Short(s.name)) && !Has(w', s.namespace, s.name)
  {
    ShortsIff(w.mem[s.namespace].veths, s.name);
    BarredIsRefused(w, desired, msg, local, w', desired', refused, s);
  }

  /** In plain text, for any eight bytes `a`: a service `a + x` renamed to `a + y`. */
  lemma EightBytesRenamed(w: World, desired: Desired, msg: Message, local: Ipv4, w': World, desired': Desired,
                          refused: set<string>, n: string, ip: Ipv4, a: string, x: string, y: string)
    requires Kept(w, refused) && Handled(w, desired, msg, local, w', desired', true) && !IsDefault(n) && n in w.mem
    requires |a| == 8 && a + x in w.mem[n].veths && a + y !in w.mem[n].veths
    requires ServiceSpec(a + y, n, Some(ip)) in msg.services
    ensures Stranded(w'.k, a) && !Has(w', n, a + y)
  {
    assert (a + x)[..8] == a && (a + y)[..8] == a;
    RenameIsRefused(w, desired, msg, local, w', desired', refused, ServiceSpec(a + y, n, Some(ip)), a + x);
    assert Short(a + y) == a;
  }

  /** For instance, from "payments-v1" to "payments-v2". */
  lemma PaymentsRenamed(w: World, desired: Desired, msg: Message, local: Ipv4, w': World, desired': Desired,
                        refused: set<string>, n: string, ip: Ipv4)
    requires Kept(w, refused) && Handled(w, desired, msg, local, w', desired', true) && !IsDefault(n) && n in w.mem
    requires "payments" + "-v1" in w.mem[n].veths && "payments" + "-v2" !in w.mem[n].veths
    requires ServiceSpec("payments" + "-v2", n, Some(ip)) in msg.services
    ensures Stranded(w'.k, "payments") && !Has(w', n, "payments" + "-v2")
  {
    EightBytesRenamed(w, desired, msg, local, w', desired', refused, n, ip, "payments", "-v1", "-v2");
  }

  lemma AttemptFound(run: seq<Event>, n: string, svc: string, ip: Ipv4)
    requires AddService(n, svc, ip) in Ops(run)
    ensures Attempts(run, n, svc)
  {
    var i :| 0 <= i < |Ops(run)| && Ops(run)[i] == AddService(n, svc, ip);
    assert run[i].op == AddService(n, svc, ip);
  }
}
