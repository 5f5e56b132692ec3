# Verified model of the ekafleet agent

ekafleet runs an agent on every node. The agent receives the state a node should have and
brings the node there: network namespaces with bridges, veth pairs and VXLAN tunnels, health
probes, service certificates, rendered templates and system generations. This project models
the parts of the agent whose correctness is hard to see from one function, together with the
teaser computation of the documentation search page, and proves what they guarantee over all
inputs and over whole runs.

The system is modelled in its own form. Objects that are updated in place are classes whose
methods follow the agent's steps; each method is tied to a function or relation on values, and
the properties are proved about those, over every run.

| file | what it holds |
|---|---|
| `ProbeHistory.dfy`, `HealthChecker.dfy` | probe hysteresis with 32-bit counters; the interleavings of registrations, probe loops and stops |
| `IfaceNames.dfy` | interface names: the 64-bit rolling hash cut to 48 bits, and when names collide |
| `Tunnel.dfy` | forwarding tables of a VXLAN device and the peer diff in closed form |
| `Kernel.dfy` | network namespaces, links and tables; every command either takes effect or changes nothing |
| `NetnsSteps.dfy`, `NetnsManager.dfy` | the namespace network manager, as relations and as a class that runs the commands |
| `NetnsInvariants.dfy`, `NetnsExact.dfy` | what every operation keeps when commands fail, and what is achieved when they do not |
| `NetnsVeths.dfy` | what a refused veth pair leaves on the host, and which additions it blocks |
| `DesiredState.dfy`, `Agent.dfy` | the DesiredState message: convergence, idempotence, and the handler that performs it |
| `AgentRuns.dfy`, `AgentTables.dfy` | runs of the handler on the kernel from nothing: convergence, and the forwarding tables read off the messages |
| `AgentDevices.dfy`, `AgentClashes.dfy` | one message on the kernel: what a tunnel device is configured with, and what a name clash leaves |
| `Certificates.dfy` | the certificate request protocol between two requesters, the server and one key slot per service |
| `Template.dfy` | the template renderer against a grammar of segments |
| `Activation.dfy` | system generations: activation, pruning, rollback |
| `Text.dfy`, `Teaser.dfy` | splitting and joining text; the search result teaser: split, weights, best window, emphasis |

How some things are represented:

- The kernel is a value plus the effect of each command. A command that names something
  missing, creates something that exists, uses a malformed prefix length or a VXLAN network
  identifier of more than 24 bits (section 5 of RFC 7348) is refused. On an unreliable kernel
  any command may fail as well. A failed command changes nothing.
- Every section of the health checker that runs under the lock is one atomic step; ticks, and
  the outcome of each check, are the environment's choice.
- Addresses in messages are given as the result of parsing their text.
- A name is a sequence of bytes, one `char` each.
- `Backed` is the invariant of the manager. Where a method requires part of it, every
  operation has been shown to keep it (`NetnsInvariants.AlwaysBacked`), so the requirement is
  met in every reachable state.

## Where the code does less than its documentation says

Each of these follows the code. The first lemma named gives the exact condition; the others, if
any, an example or what follows.

- The tunnel diff is described as removing peers that are gone and adding or updating the
  current ones. A peer that stays but drops a service or changes endpoint keeps its old
  entries: `Tunnel.ExactAfterUpdate`, `Tunnel.DroppedServiceStaysBehind`.
- Setting up a namespace is described as idempotent. It succeeds only while the kernel does not
  have the namespace (`NetnsInvariants.SetupSucceedsIff`), so one failed set-up, failed deletion
  or restart makes every later one fail: `NetnsInvariants.SetupFailsForever`,
  `NetnsInvariants.DestroyOrphansIff`, `NetnsInvariants.FailedDeletionRun`,
  `NetnsInvariants.RestartOrphans`, `NetnsInvariants.OrphansAreForever`.
- Two services of a namespace whose names share eight characters cannot both be added, and the
  refused addition strands a veth pair on the host that blocks those eight characters in every
  namespace from then on: `NetnsVeths.AdditionSucceedsIff`, `NetnsVeths.ClashFailsForever`,
  `NetnsVeths.StrandedForever`. A message that renames "payments-v1" to "payments-v2" adds before it
  removes, so the new service never gets its network: `AgentClashes.RenameIsRefused`,
  `AgentClashes.PaymentsRenamed`.
- A changed subnet, gateway, network identifier or mesh address of a namespace that is set up is not
  applied: `DesiredState.ConfigAppliedIff`, `NetnsInvariants.DeviceConfigIff`,
  `AgentDevices.MessageConfiguresDevice`.
- A service whose address changes keeps the old one: `DesiredState.AddressAgreesIff`,
  `DesiredState.AddressesConverge`, `DesiredState.AddressIsNeverUpdated`.
- Liveness is described as suppressed until startup has passed. An insert made while a liveness
  check is under way breaks this, and nothing else does: `Health.GateStepIff`,
  `Health.GateRunIff`, `Health.GateIff`. A caller that registers a service with a startup probe
  twice can reach it: `Health.GateNeedsOneRegistration`. The DesiredState handler registers
  without a startup probe.
- A loop that runs a section while its service has no result stops for good, also when the
  initial result is yet to be inserted: `Health.LoopSurvivesIff`, `Health.InsertMayLoseRace`.
- A stop may be undone by a late insert: `Health.StopUndoneIff`, `Health.InsertMayOutliveStop`.
- A readiness probe is described as defaulting to the liveness probe. A service can become ready
  only through a readiness loop of its own: `Health.ReadyIff`, `Health.ReadinessHasNoDefault`,
  `Health.AliveButNeverReady`.
- A pending key is paired with whatever certificate arrives next for its service:
  `Certificates.PairedRightlyIff`, `Certificates.OverlapMispairs`.
- A key in a template is described as looked up in the metadata, then the environment. A key
  that starts with a function name is read as a call of that function: `Template.BareKeyIff`,
  `Template.SecretaryIsASecret`.
- A test activation is described as leaving the boot default alone. It does so only when it
  stops before the profile is set: `Activation.TestBecomesNewest`, `Activation.NewestStaysIff`.
- After a failed activate script, rolling back reports success and changes nothing:
  `Activation.RollbackRestoresIff`, `Activation.RollbackAfterFailedScript`.

## Model

| member | source | states |
|---|---|---|
| `ProbeHistory.RunIsLongestStreak` | src/agent/health.rs:315-331 | the run counted at the end of a history is the longest streak ending there, in both directions |
| `ProbeHistory.StatusStep` | src/agent/health.rs:315-331 | how one more check moves the status defined by "which threshold-length streak completed last" |
| `ProbeHistory.CheckRefines` | src/agent/health.rs:306-333 | counters that wrap at 2^32, message and status keep agreeing with the whole history after any check |
| `ProbeHistory.CountersRefineHistory` | src/agent/health.rs:306-333 | after every sequence of checks the stored counters, message and status equal the history specification |
| `ProbeHistory.UnknownMeansNoStreak` | src/agent/health.rs:306-333 | the status is unknown exactly when no threshold-length streak of either outcome ever completed |
| `ProbeHistory.ChangeHasStreak` | src/agent/health.rs:320-330 | every status change is decided by a full unbroken streak ending at that check |
| `ProbeHistory.FlapBound` | src/agent/health.rs:306-333 | status changes times the smaller threshold, plus the run that could still overturn the status, never exceed the number of checks |
| `HealthSections.UpdateProbeStatus` | src/agent/health.rs:306-333 | the field-by-field update extends whatever history the stored probe agrees with by one check |
| `HealthSections.HealthChecker.Insert` | src/agent/health.rs:87-132 | installs, for one service only, a result with both probes unknown and nothing counted, startup passed exactly when there is no startup probe, and the thresholds of the liveness probe with 3 for zero or no probe |
| `HealthSections.HealthChecker.StartupSection` | src/agent/health.rs:143-156 | only a passing check of a registered service sets the startup flag; the loop ends on success or removal |
| `HealthSections.HealthChecker.LivenessGate` | src/agent/health.rs:173-180 | exits exactly when the service is gone, and runs the check exactly when startup has passed |
| `HealthSections.HealthChecker.LivenessSection` | src/agent/health.rs:182-202 | applies the check to the liveness probe only, and ends exactly when the service is gone |
| `HealthSections.HealthChecker.ReadinessSection` | src/agent/health.rs:218-238 | applies the check to the readiness probe only, and ends exactly when the service is gone |
| `HealthSections.HealthChecker.StopChecking` | src/agent/health.rs:252-254 | removes the result of one service and no other |
| `Health.RunSection` | src/agent/health.rs:110-241 | the class's sections take exactly the steps of the transition system, in every state that agrees with the shared map |
| `Health.ResultStep` | src/agent/health.rs:110-254 | the only step that moves a stored probe is its own loop's check; every other step, of any service, leaves it and its thresholds alone |
| `Health.RegistrationSpawns` | src/agent/health.rs:110-241 | a registration spawns its insert and exactly one loop for each probe it has |
| `Health.InsertFromRegistration` | src/agent/health.rs:110-132 | in every run, an insert in flight carries the service and probes of the registration that spawned it |
| `Health.ThresholdsAreConfigured` | src/agent/health.rs:87-108 | in every run, a stored result has the thresholds of the liveness probe in the registration whose insert came last, with 3 for zero or no probe |
| `Health.ResultsRefineHistory` | src/agent/health.rs:78-249 | in every interleaving of inserts, loops, re-registrations and stops, both probes of every service equal the history specification over the outcomes applied since the latest insert, with the thresholds configured in that insert's registration |
| `Health.StartupPassedIff` | src/agent/health.rs:110-158 | in every run, the startup flag of a stored result is set exactly when its registration has no startup probe or a startup check has passed since its insert |
| `Health.ReportMeansPassingStreak` | src/agent/health.rs:274-287 | ready and alive are reported exactly when the last completed streak since the latest insert was a passing one, by the configured thresholds |
| `Health.GateStepIff` | src/agent/health.rs:110-205 | from a state in which no liveness outcome is stored or under way before startup has passed, a step of any kind breaks that exactly when it inserts a result with a startup probe while a liveness check is under way |
| `Health.GateIff` | src/agent/health.rs:172-193 | from any state: no run without an insert of the service stores a liveness outcome before startup has passed, if and only if none is stored and no check is under way |
| `Health.GateIffQuiet` | src/agent/health.rs:172-193 | the same condition, for the runs without a registration from a state without an insert in flight |
| `Health.GateRunIff` | src/agent/health.rs:134-205 | over every run with any number of registrations, the gate is safe in every state exactly when no insert of the service comes during a liveness check |
| `Health.OneRegistrationIsNotRacy` | src/agent/health.rs:110-205 | in a run with at most one registration no check is under way before the insert |
| `Health.LivenessWaitsForStartup` | src/agent/health.rs:172-180 | within one registration, in every reachable state before startup has passed, no liveness outcome is stored and no check is under way |
| `Health.StartupNeverUnpasses` | src/agent/health.rs:114-158 | from a state in which startup has passed, and over any run with any registrations, it stays passed in every state exactly when no result with a startup probe is inserted |
| `Health.PassedStaysPassed` | src/agent/health.rs:135-158 | within one registration, startup once passed stays passed in every state of every continuation |
| `Health.StopUndoneIff` | src/agent/health.rs:110-132 | from a state without a result, some run without a registration brings the result back if and only if an insert is still in flight |
| `Health.RetiredForever` | src/agent/health.rs:252-254 | a stopped service with no insert in flight stays unregistered, and its finished loops never come back |
| `Health.StopEndsLoops` | src/agent/health.rs:153-155 | after a stop without re-registration each loop takes at most one more step, which ends it |
| `Health.LoopSurvivesIff` | src/agent/health.rs:143-241 | a loop is still there after any run exactly when at each of its sections the service had a result (and, for the startup loop, the check failed) |
| `Health.UncheckedStaysUnchecked` | src/agent/health.rs:110-158 | a service whose loops are gone keeps its result unchanged in every run until it is stopped or registered again |
| `Health.ReadyIff` | src/agent/health.rs:207-241 | from any state, some run without a registration reports the service ready if and only if it is reported so now, or it has a readiness loop of its own and a result or an insert in flight |
| `Health.ReadinessHasNoDefault` | src/agent/health.rs:41-49 | in every run, a service registered without a readiness probe is never checked for readiness and never reported ready |
| `Health.AliveButNeverReady` | src/agent/health.rs:41-49 | a run that leaves a service alive and, however it goes on without a readiness probe, never ready |
| `Health.InsertMayLoseRace` | src/agent/health.rs:110-132 | a run in which the only loop exits before the insert, leaving a result that nothing checks |
| `Health.InsertMayOutliveStop` | src/agent/health.rs:114-131 | a run in which a stopped service comes back because its insert was still in flight |
| `Health.GateNeedsOneRegistration` | src/agent/health.rs:78-205 | a run in which a direct caller registers a service with a startup probe twice and liveness becomes healthy although startup has not passed |
| `IfaceNames.TruncatedHash` | src/agent/netns.rs:524-531 | the loop that wraps at 64 bits and cuts to 48 computes the exact base-31 polynomial of the name modulo 2^48 |
| `IfaceNames.Split` | src/agent/netns.rs:526-529 | the polynomial of a concatenation |
| `IfaceNames.Invertible` | src/agent/netns.rs:528-531 | multiplying by 31 loses nothing modulo 2^48 |
| `IfaceNames.ShowInjective` | src/agent/netns.rs:532-564 | bridge, VXLAN and veth names fit fifteen characters, and two of them are equal as text exactly when kind and hash or prefix agree |
| `IfaceNames.HexRoundTrip` | src/agent/netns.rs:532 | the digits of a number below 16^width are lower-case and read back as that number |
| `IfaceNames.IfaceNamesFor` | src/agent/netns.rs:524-564 | the name builders produce "br-" and "vx-" followed by twelve digits that read back as the polynomial of the name modulo 2^48; fifteen characters in all |
| `IfaceNames.Short` | src/agent/netns.rs:536-553 | the part of a service's name in its veth names is its first eight bytes, or the whole of a shorter name |
| `IfaceNames.ShortIff` | src/agent/netns.rs:536-553 | two services share their veth names exactly when they are equal, or both have eight bytes or more and the first eight agree |
| `IfaceNames.VethNamesFor` | src/agent/netns.rs:536-553 | the veth name builders produce "vh-" and "vc-" followed by the first eight bytes, or the whole of a shorter name |
| `IfaceNames.OneByteApart` | src/agent/netns.rs:524-564 | two names of equal length that differ in exactly one byte never share a bridge or VXLAN name |
| `IfaceNames.CollisionCondition` | src/agent/netns.rs:524-564 | names collide exactly when the polynomials agree modulo 2^48 |
| `IfaceNames.CollisionExists` | src/agent/netns.rs:524-533 | two different namespaces with one bridge name |
| `Tunnel.MacFor` | src/agent/netns.rs:570-573 | distinct addresses get distinct MAC addresses, none of them the replication entry |
| `Tunnel.Recorded` | src/agent/netns.rs:454-460 | the recorded peers are exactly the listed node ids |
| `Tunnel.RecordedLast` | src/agent/netns.rs:454-460 | the last entry given for a node id is the one recorded |
| `Tunnel.RemoveThenAdd` | src/agent/netns.rs:374-469 | removing departed peers and then adding every listed one leaves the closed form, also when peers share an endpoint or an address |
| `Tunnel.ExactAfterUpdate` | src/agent/netns.rs:374-469 | for any peer list, also one that names a node twice: from exact tables one diff leaves exact tables if and only if every listed entry is one of the recorded peers', and every entry recorded for a staying peer is still needed or was also a departed peer's |
| `Tunnel.ExactAfterDistinct` | src/agent/netns.rs:374-469 | with distinct node ids: if and only if every entry recorded for a staying peer is still listed or was also a departed peer's |
| `Tunnel.DroppedServiceStaysBehind` | src/agent/netns.rs:410-460 | a staying peer that drops an address no other peer mentions leaves its neighbour entry behind |
| `Tunnel.DroppedServiceExample` | src/agent/netns.rs:410-460 | the same for one peer and one service |
| `Tunnel.StableStep` | src/agent/netns.rs:374-469 | staying peers unchanged are enough for one exact update |
| `Tunnel.StableRunIsExact` | src/agent/netns.rs:320-496 | over every run of updates and removals with distinct node ids and unchanged staying peers, the tables are exactly what the recorded peers need |
| `Kernel.System.Run` | src/agent/netns.rs:581-596 | a command succeeds with its full effect or fails and changes nothing; a reliable kernel fails only what it refuses |
| `Kernel.System.RunAll` | src/agent/netns.rs:114-129 | a chain of set-up commands that fails leaves exactly the effect of the commands before the failed one, which on a reliable kernel is the first refused one; it never removes or reconfigures anything outside its namespace, and moves no interface it does not name |
| `NetnsSteps.PrefixLenIs` | src/agent/netns.rs:575-578 | what follows the last slash is taken as the prefix length, and text without a slash as a whole |
| `NetnsManager.NamespaceNetworkManager.constructor` | src/agent/netns.rs:80-86 | starts with nothing managed |
| `NetnsManager.NamespaceNetworkManager.EnsureNamespace` | src/agent/netns.rs:91-157 | success creates a configured bridge in a fresh network namespace and records it; failure leaves the record, and unless nothing happened it leaves the network namespace behind; a reliable kernel fails only if the namespace or bridge exists or the prefix is malformed, and then the namespace is there |
| `NetnsManager.NamespaceNetworkManager.SetUpSpace` | src/agent/netns.rs:114-129 | the seven commands together, when they are refused and what a failure leaves |
| `NetnsManager.NamespaceNetworkManager.CreateSpace` | src/agent/netns.rs:114-119 | either a network namespace holding just its bridge, or a failure that has added the network namespace or changed nothing |
| `NetnsManager.NamespaceNetworkManager.AddService` | src/agent/netns.rs:164-245 | success wires a veth pair with the assigned address and records it; an already recorded service is left alone; failure leaves the record, and the kernel with the effect of the commands before the failed one |
| `NetnsManager.NamespaceNetworkManager.CreateVeth` | src/agent/netns.rs:189-230 | the eight commands together add exactly one wired pair, and succeed on a reliable kernel exactly when its names are free; a failure leaves the effect of the commands before the failed one |
| `NetnsManager.NamespaceNetworkManager.RemoveService` | src/agent/netns.rs:248-278 | the service leaves the record whether or not its veth could be deleted |
| `NetnsManager.NamespaceNetworkManager.DestroyNamespace` | src/agent/netns.rs:281-301 | the namespace leaves the record whether or not the kernel deletes it |
| `NetnsManager.NamespaceNetworkManager.RemoveVxlanTunnel` | src/agent/netns.rs:475-496 | device and peers leave the record together |
| `NetnsManager.NamespaceNetworkManager.GcNamespaces` | src/agent/netns.rs:499-514 | exactly the managed namespaces not listed leave the record; no other network namespace is touched; on a reliable kernel they are gone |
| `NetnsManager.NamespaceNetworkManager.EnsureVxlanTunnel` | src/agent/netns.rs:320-472 | creates the device once, or fails with the effect of the commands before the failed one and the record unchanged; leaves the tables in the closed form of the diff and records exactly the listed peers; with failing commands nothing outside the departed is lost, nothing outside the listed appears, and every neighbour entry has its old MAC address or the one of its IP |
| `NetnsManager.NamespaceNetworkManager.CreateDevice` | src/agent/netns.rs:338-364 | the four commands attach a device with empty tables; a failure leaves the effect of the commands before the failed one and the record unchanged |
| `NetnsManager.NamespaceNetworkManager.UpdatePeers` | src/agent/netns.rs:374-469 | the whole diff as one change of one device's tables |
| `NetnsManager.NamespaceNetworkManager.RemoveDeparted` | src/agent/netns.rs:374-408 | in any order of the recorded peers, exactly the entries of the departed go |
| `NetnsManager.NamespaceNetworkManager.SetListed` | src/agent/netns.rs:410-469 | every entry of every listed peer is set and the peer recorded |
| `NetnsManager.NamespaceNetworkManager.RemovePeerEntries` | src/agent/netns.rs:380-401 | the entries of one peer, and no others, are removed |
| `NetnsManager.NamespaceNetworkManager.SetPeerEntries` | src/agent/netns.rs:411-452 | the entries of one peer, and no others, are added |
| `NetnsManager.CreateCommands` | src/agent/netns.rs:114-119 | when the creating commands are refused, and what they leave otherwise |
| `NetnsManager.ConfigureCommands` | src/agent/netns.rs:121-129 | when the configuring commands are refused, and what they leave otherwise |
| `NetnsManager.VethCommands` | src/agent/netns.rs:189-230 | the veth commands are refused exactly when a name is taken |
| `NetnsManager.VxlanCommands` | src/agent/netns.rs:342-363 | the device commands are refused exactly when the name is taken or the identifier has more than 24 bits |
| `NetnsManager.WholeDiff` | src/agent/netns.rs:374-469 | the two passes of the diff compose to the closed form, and to its bounds when commands fail |
| `NetnsInvariants.StepKeepsBacked` | src/agent/netns.rs:91-514 | every operation, whatever fails in it, keeps the record backed by the kernel |
| `NetnsInvariants.ErrorsAreAtomic` | src/agent/netns.rs:91-472 | an operation that reports an error has left the record exactly as it was |
| `NetnsInvariants.AlwaysBacked` | src/agent/netns.rs:91-514 | in every reachable state: neither "" nor "default" is managed, addresses and veths cover the same services, no device means no peers, and everything recorded exists in the kernel as recorded |
| `NetnsInvariants.AlwaysRouted` | src/agent/netns.rs:121-129 | in every reachable state, whatever fails, every managed namespace has its loopback up and its default route at the recorded gateway |
| `NetnsInvariants.StepKeepsOrphans` | src/agent/netns.rs:102-115 | no operation adopts or deletes a network namespace the record does not know, and setting it up fails |
| `NetnsInvariants.OrphansAreForever` | src/agent/netns.rs:91-157 | a network namespace the record does not know is never managed in any run, and every attempt to set it up fails |
| `NetnsInvariants.SetupSucceedsIff` | src/agent/netns.rs:91-157 | on a reliable kernel a set-up succeeds if and only if there is nothing to do or the gateway parses, the prefix is a number and neither namespace nor bridge exists |
| `NetnsInvariants.FailedSetupOrphans` | src/agent/netns.rs:114-129 | a set-up that fails on a reliable kernel although its gateway parses leaves such a namespace |
| `NetnsInvariants.SetupFailsForever` | src/agent/netns.rs:91-157 | a set-up that fails once on a reliable kernel, although its gateway parses, fails in every continuation of the run |
| `NetnsInvariants.DestroyOrphansIff` | src/agent/netns.rs:281-301 | destroying a managed namespace leaves such a namespace exactly when the kernel did not delete it, which needs an unreliable kernel |
| `NetnsInvariants.FailedDeletionRun` | src/agent/netns.rs:281-301 | a run that sets a namespace up, fails to delete it and can then not set it up again |
| `NetnsInvariants.RestartOrphans` | src/agent/netns.rs:80-86 | after a restart of the agent every namespace it managed is such a namespace |
| `NetnsInvariants.DeviceConfigIff` | src/agent/netns.rs:338-364 | after an update that succeeds, the device carries the given identifier, mesh address and port 4789 if and only if the update created it or it carried them already |
| `NetnsExact.TunnelRefines` | src/agent/netns.rs:320-472 | a tunnel update by the manager is one step of the tunnel's transition system |
| `NetnsExact.OtherOpsKeepDevice` | src/agent/netns.rs:91-514 | every other operation leaves a namespace's device and its tables as they were |
| `NetnsExact.TunnelsAlwaysExact` | src/agent/netns.rs:320-496 | over every run of manager operations with stable peer lists, every tunnel has exactly the entries its recorded peers need |
| `NetnsExact.StepIsClean` | src/agent/netns.rs:91-514 | on a reliable kernel without leftovers every operation whose arguments fit has its full effect on the record and leaves no leftovers |
| `NetnsExact.DeviceNeeds24Bits` | src/agent/netns.rs:339-363 | on a reliable kernel without leftovers a new device is created if and only if its identifier is below 2^24 |
| `NetnsExact.RunIsClean` | src/agent/netns.rs:91-514 | over every run of such operations the record is the fold of their effects and the kernel holds exactly the links it accounts for |
| `NetnsVeths.ClashingServiceRefused` | src/agent/netns.rs:164-230 | a second service of a namespace whose name shares its first eight characters with the first is refused on any kernel, and a reliable one then has its pair stranded on the host |
| `NetnsVeths.EightBytesClash` | src/agent/netns.rs:164-230 | in plain text: where a service named by eight bytes and anything after them is recorded, another that starts with the same eight bytes is refused, and its pair is on the host |
| `NetnsVeths.RefusedLeaves` | src/agent/netns.rs:189-230 | what a refused pair leaves on a reliable kernel: nothing new when an end is on the host already, the whole pair on the host when the host end's name is taken in the namespace, half of it otherwise |
| `NetnsVeths.StepKeepsLedger` | src/agent/netns.rs:91-514 | on a reliable kernel every operation keeps this ledger: the veth pairs on the host are those of refused additions, and those in a managed namespace the recorded ones |
| `NetnsVeths.AddSucceedsIff` | src/agent/netns.rs:164-245 | in a world with that ledger, adding a service to a managed namespace succeeds if and only if it is recorded, or no service there shares its first eight characters and none with them was refused before |
| `NetnsVeths.AdditionSucceedsIff` | src/agent/netns.rs:164-245 | over every run of the manager on a reliable kernel from nothing: an addition to a managed namespace succeeds if and only if the service is recorded, or no service there equals it in its first eight bytes and no addition of one that does was refused before, in any namespace |
| `NetnsVeths.CleanIsLedger` | src/agent/netns.rs:189-230 | a world without leftovers has the ledger with nothing refused |
| `NetnsVeths.ClashFailsForever` | src/agent/netns.rs:189-230 | in every such run one refused addition makes every later addition with the same first eight bytes fail, of any service to any namespace that does not have it |
| `NetnsVeths.StepKeepsStranded` | src/agent/netns.rs:91-514 | on any kernel no operation moves or deletes a veth pair stranded on the host, and none records a service with its first eight characters |
| `NetnsVeths.StrandedForever` | src/agent/netns.rs:91-514 | in every run on any kernel a stranded pair stays and keeps every service with its first eight characters from being recorded |
| `DesiredState.EnsurePhase` | src/agent/handlers.rs:77-96 | opening namespaces adds, for each one new, what its first usable configuration says, and changes none that exists |
| `DesiredState.AddPhase` | src/agent/handlers.rs:98-114 | each namespace gains exactly its networked services, each with the first address listed for it, and the ones it had keep their address |
| `DesiredState.RemovePhase` | src/agent/handlers.rs:119-146 | each namespace loses exactly its previously desired services that are no longer named |
| `DesiredState.TunnelPhase` | src/agent/handlers.rs:148-190 | each namespace ends with the tunnel of the last configuration given for it and is otherwise unchanged |
| `DesiredState.ParsedServicesAre` | src/agent/handlers.rs:162-169 | exactly the remote services whose address parses are passed on |
| `DesiredState.ParsedPeersAre` | src/agent/handlers.rs:157-176 | exactly the remote peers whose endpoint parses are passed on, with their node id, endpoint and parsed services |
| `DesiredState.DesiredOf` | src/agent/handlers.rs:128-131 | the desired services are keyed by their own names and taken from the message |
| `DesiredState.DesiredLast` | src/agent/handlers.rs:128-131 | the last entry given for a name is the one desired |
| `DesiredState.MessageEffect` | src/agent/handlers.rs:77-195 | what a message leaves in each namespace, in closed form: services with their addresses, tunnel, and the configuration it was set up with |
| `DesiredState.ConfigAppliedIff` | src/agent/handlers.rs:77-96 | with unique namespaces, a managed namespace has the prefix, gateway and network identifier of the message if and only if it is new or had them already |
| `DesiredState.ManagedAfter` | src/agent/handlers.rs:77-195 | the managed namespaces are those the message lists that were managed already or whose gateway parses |
| `DesiredState.NamespaceConverges` | src/agent/handlers.rs:98-146 | a namespace has its desired services if and only if no surviving service of it moved away or lost its address |
| `DesiredState.ServicesConverge` | src/agent/handlers.rs:98-146 | the same for all managed namespaces at once |
| `DesiredState.AddressIsNeverUpdated` | src/agent/netns.rs:181-184 | a surviving service keeps the address it had, whatever the message says |
| `DesiredState.AddressAgreesIff` | src/agent/handlers.rs:98-114 | with unique names, the recorded address of a networked service is the one of the message if and only if the service is new to its namespace or had that address already |
| `DesiredState.NamespaceAddressesConverge` | src/agent/handlers.rs:98-146 | a namespace has its desired services with their desired addresses if and only if no surviving service of it changed its namespace or address |
| `DesiredState.AddressesConverge` | src/agent/handlers.rs:98-146 | the same for all managed namespaces at once |
| `DesiredState.MessageSettles` | src/agent/handlers.rs:77-195 | a message leaves a record that agrees with it |
| `DesiredState.SettledIsFixed` | src/agent/handlers.rs:77-195 | a record that agrees with a message is not changed by it |
| `DesiredState.ReapplyingChangesNothing` | src/agent/handlers.rs:77-195 | applying the same message again changes nothing in the manager, in any order of the previous services |
| `DesiredState.RunConverges` | src/agent/handlers.rs:77-195 | after any run of messages with parsed gateways, unique names and settled services, exactly the non-default namespaces of the last message are managed and each has exactly its desired services |
| `DesiredState.RunKeepsAddresses` | src/agent/handlers.rs:77-195 | after any such run in which addresses do not change either, each managed namespace has exactly its desired services with exactly their desired addresses |
| `Agent.ScriptFits` | src/agent/handlers.rs:77-195 | no command of a well-formed message without name clashes is refused on a reliable kernel without leftovers |
| `Agent.PerformedIsClean` | src/agent/handlers.rs:77-195 | a performed script of fitting operations has its full effect |
| `Agent.AgentHandler.ReplaceDesired` | src/agent/handlers.rs:119-131 | replaces the desired services and returns the earlier ones outside the default namespace, all of them and no others |
| `Agent.AgentHandler.EnsureNamespaces` | src/agent/handlers.rs:77-96 | performs one set-up per configuration in order, carrying on after errors |
| `Agent.AgentHandler.AddServices` | src/agent/handlers.rs:98-114 | performs one addition per networked service in order, carrying on after errors |
| `Agent.AgentHandler.RemoveServices` | src/agent/handlers.rs:134-146 | removes exactly the previous services whose name the message lacks |
| `Agent.AgentHandler.UpdateTunnels` | src/agent/handlers.rs:148-190 | removes or updates one tunnel per configuration, leaving out addresses that do not parse |
| `Agent.AgentHandler.HandleDesiredState` | src/agent/handlers.rs:77-195 | performs exactly the script of the message and keeps the record backed whatever fails; on a reliable kernel without leftovers a well-formed message without clashes is delivered in full |
| `AgentRuns.HandledIsDelivered` | src/agent/handlers.rs:77-195 | handling a well-formed message without clashes on a reliable kernel without leftovers delivers it in full and leaves none |
| `AgentRuns.AgentConverges` | src/agent/handlers.rs:77-195 | after every run of such messages from nothing, with unique names and settled services: the kernel holds exactly what the record accounts for, the managed namespaces are those of the last message except "" and "default", and each has exactly its desired services |
| `AgentRuns.AgentStaysBacked` | src/agent/handlers.rs:77-195 | after every run of any messages, whatever commands fail, everything recorded is in the kernel as recorded, with loopbacks up and default routes in place |
| `AgentRuns.AgentKeepsAddresses` | src/agent/handlers.rs:77-195 | when addresses do not change either, each namespace also has exactly the desired addresses |
| `AgentRuns.AgentTablesExact` | src/agent/handlers.rs:148-190 | when peer lists are stable as well, the forwarding tables of every managed namespace are exactly what its recorded peers need |
| `AgentTables.AgentTablesFromMessages` | src/agent/handlers.rs:148-190 | from message fields alone: after a good run in which nodes that stay keep endpoint and services, a configuration of the last message without peers has no device; one with peers has a device whose tables hold a replication entry exactly for each parsed endpoint, a forwarding entry exactly for each parsed address behind a parsed endpoint, a neighbour entry exactly for each such address, and nothing else |
| `AgentTables.AdvertisesIff` | src/agent/handlers.rs:157-176 | an address is forwarded to an endpoint exactly when a listed peer with that endpoint lists a service with that address |
| `AgentTables.StableFromFields` | src/agent/netns.rs:374-469 | peer lists in which a node keeps its endpoint and services are stable for the diff |
| `AgentDevices.MessageConfiguresDevice` | src/agent/handlers.rs:148-190 | after a good message, the device of a configuration with peers carries the message's network identifier and the node's mesh address if and only if the namespace had no device before or its device carried them already |
| `AgentClashes.BarredIsRefused` | src/agent/handlers.rs:98-146 | a message that names a new service whose first eight bytes are held in its namespace, or were refused before, leaves it without network and its pair stranded on the host |
| `AgentClashes.RenameIsRefused` | src/agent/handlers.rs:98-146 | so does one that renames a service to a name with the same first eight bytes, because additions come before removals |
| `AgentClashes.EightBytesRenamed` | src/agent/handlers.rs:98-146 | the same in plain text, for any eight bytes and any two endings |
| `AgentClashes.PaymentsRenamed` | src/agent/handlers.rs:98-146 | the same from "payments-v1" to "payments-v2" |
| `Certificates.PendingKeyStore.Store` | src/agent/types.rs:110-112 | overwrites the slot of one service |
| `Certificates.PendingKeyStore.Take` | src/agent/types.rs:114-116 | returns what the slot held and empties it, touching no other |
| `Certificates.InstallReceivedSvid` | src/agent/helpers.rs:15-60 | takes the slot of the service it settles on and installs, as `DeliveryIff` spells out |
| `Certificates.DeliveryIff` | src/agent/helpers.rs:20-57 | what a delivered response does, by its fields and the slot: legacy for the named service, or the common name, or "unknown", exactly when that slot is empty; failed exactly when it has neither name nor readable certificate, or the slot is full and certificate or chain is not text; split with the slot's key otherwise; no other slot is touched |
| `Certificates.SlotEmptyIff` | src/agent/types.rs:110-116 | in every run, a slot is empty exactly when nothing was ever stored in it or a response for its service came after the last store |
| `Certificates.LegacyIff` | src/agent/helpers.rs:48-57 | in every run, the answer to a request for a named service is installed in the legacy form if and only if another response for that service came after the last key was stored for it |
| `Certificates.StepKeepsSound` | src/agent/handlers.rs:202-229 | storing, sending, answering, denying, receiving and responses pushed unasked, with or without a service name, all keep the protocol's invariant |
| `Certificates.InstallKeepsSound` | src/agent/helpers.rs:15-60 | whatever a response says and whoever asked for it, installing it keeps the invariant |
| `Certificates.AlwaysSound` | src/agent/mod.rs:284-332 | in every run a key is paired with at most one certificate and only for its own service, and stores equal takes plus overwrites plus pending keys |
| `Certificates.StepKeepsMatched` | src/agent/helpers.rs:29-47 | with at most one outstanding request per service and no stray response that takes a pending key, each outstanding request finds its own key in the slot |
| `Certificates.PairingIsRight` | src/agent/helpers.rs:29-47 | in every such run every split-installed certificate carries the public key of the key it is paired with |
| `Certificates.SlotHoldsKey` | src/agent/types.rs:110-116 | a stored key is still in its slot exactly when nothing was stored or received for its service since |
| `Certificates.PairedRightlyIff` | src/agent/helpers.rs:29-47 | an answer is paired with its own key if and only if nothing was stored or received for its service since that key was stored |
| `Certificates.OverlapMispairs` | src/agent/mod.rs:297-330 | a run in which handler and renewal overlap and a certificate is paired with the wrong key |
| `Certificates.OverlapThenLegacy` | src/agent/helpers.rs:48-57 | the same run continued: the second answer finds the slot empty and is installed in the legacy form |
| `Template.TrimText` | src/agent/template.rs:38 | the scan removes exactly the leading and trailing characters of a class |
| `Template.TrimIs` | src/agent/template.rs:99 | trimming undoes padding around any core |
| `Template.FunctionArgument` | src/agent/template.rs:96-101 | the argument of a function form, or none when the name does not match or nothing is left |
| `Template.EvaluateExpr` | src/agent/template.rs:52-93 | an expression has the value of the form it is read as |
| `Template.FindPair` | src/agent/template.rs:33-37 | finds the first brace pair, or none exactly when there is none |
| `Template.CutTemplate` | src/agent/template.rs:33-46 | cuts at the first opening pair and the first closing pair after it |
| `Template.CutIsUnique` | src/agent/template.rs:33-46 | a template has only one such cut |
| `Template.RenderTemplate` | src/agent/template.rs:29-50 | the loop terminates and computes the recursive rendering |
| `Template.RenderPrinted` | src/agent/template.rs:29-50 | rendering printed segments followed by any text is their meaning followed by the rendering of the text |
| `Template.RoundTrip` | src/agent/template.rs:29-50 | printing any proper segments and rendering gives the literals and the values of the trimmed expressions |
| `Template.UnclosedIsVerbatim` | src/agent/template.rs:42-46 | text without a closing pair is copied as it is, however many opening pairs it has |
| `Template.InertIsVerbatim` | src/agent/template.rs:42-49 | text in which no opening pair is closed is copied as it is |
| `Template.Parse` | src/agent/template.rs:29-50 | every template is the print of proper segments followed by inert text |
| `Template.RenderIsMeaning` | src/agent/template.rs:29-50 | every template renders to the meaning of its segments followed by its inert text; substituted values are never scanned again |
| `Template.DocumentedForms` | src/agent/template.rs:52-75 | with the name in double quotes, single quotes or bare, after any whitespace: `service` gives the first address, `services` a text that splits at its commas into all of them, `secret` the secret; each is empty when there is nothing to give |
| `Template.SpacedExpression` | src/agent/template.rs:37-41 | an expression is evaluated without the whitespace around it, and what follows it is rendered on its own |
| `Template.WhitespaceIs` | src/agent/template.rs:38 | the characters trimmed are the twenty-five with the Unicode property White_Space |
| `Template.DottedForms` | src/agent/template.rs:77-85 | a key after a meta or env prefix is looked up there and nowhere else, and is empty when missing |
| `Template.BareKeyIff` | src/agent/template.rs:87-92 | a key is looked up in the metadata, then the environment, in every context if and only if it has none of the other forms |
| `Template.BareKey` | src/agent/template.rs:87-92 | the metadata wins over the environment, and a key in neither is empty |
| `Template.SecretaryIsASecret` | src/agent/template.rs:72-75 | a bare key that is read as a secret |
| `Activation.System.CurrentGeneration` | src/agent/activation.rs:336-355 | the scan, in any directory order, finds the newest generation |
| `Activation.System.PreviousGenerationPath` | src/agent/activation.rs:420-437 | the path of the generation just before the newest, or none when that number is missing |
| `Activation.System.CurrentPath` | src/agent/activation.rs:320-333 | the running system's path, or the profile's own link when there is none |
| `Activation.System.SetSystemProfile` | src/agent/activation.rs:364-377 | appends a generation one above the newest |
| `Activation.System.PruneGenerations` | src/agent/activation.rs:240-262 | deletes what the count or age bound rejects, never the newest |
| `Activation.System.ActivateSystem` | src/agent/activation.rs:143-224 | every exit of an activation: which checks come first, what is appended when the script fails, when pruning happens |
| `Activation.System.RollbackSystem` | src/agent/activation.rs:293-317 | a rollback activates the previous generation without pruning, or fails when there is none |
| `Activation.NewerCount` | src/agent/activation.rs:250-252 | without gaps the number of newer generations is the distance to the newest |
| `Activation.AppendKeeps` | src/agent/activation.rs:364-377 | appending keeps generations gap-free and makes the former newest the rollback target |
| `Activation.PruneKeeps` | src/agent/activation.rs:240-262 | pruning by any policy keeps generations gap-free and the newest in place |
| `Activation.PruneKeepsTargetIff` | src/agent/activation.rs:240-262 | pruning leaves a rollback target if and only if it keeps at least two and the one before the newest is within the age bound |
| `Activation.TargetMeansTwo` | src/agent/activation.rs:420-437 | without gaps there is a rollback target exactly when there are two generations |
| `Activation.StepKeeps` | src/agent/activation.rs:143-317 | every activation and rollback, failed or not, keeps the profile gap-free, and gentle policies keep a target |
| `Activation.RunStaysSound` | src/agent/activation.rs:143-317 | in every run from a gap-free profile with its times in order, whatever fails and whatever is pruned, the surviving generations have no gaps |
| `Activation.RollbackAlwaysFinds` | src/agent/activation.rs:143-317 | in every run from a gap-free profile under policies that keep two generations and have no age bound, generations stay gap-free and rollback always finds its target once two exist |
| `Activation.RollbackSwaps` | src/agent/activation.rs:293-317 | one successful rollback exchanges the last two paths |
| `Activation.RollbacksAlternate` | src/agent/activation.rs:293-317 | any number of successful rollbacks alternates between the last two paths |
| `Activation.RollbackRestoresIff` | src/agent/activation.rs:165-174 | a rollback that reports success makes its target the newest generation if and only if the system was not already running the target or the target was newest already |
| `Activation.RollbackAfterFailedScript` | src/agent/activation.rs:186-196 | after a failed script, rolling back succeeds and leaves the failed system newest |
| `Activation.NewestStaysIff` | src/agent/activation.rs:143-224 | for every action, policy and outcome of the steps, an activation leaves the newest generation in place exactly when it stops before the profile is set; otherwise its path becomes the newest generation, also when the script fails |
| `Activation.SurvivesIff` | src/agent/activation.rs:186-217 | exactly which generations an activation leaves on a gap-free profile: all when it stops early; otherwise the new one, and of the others those for which, if it prunes, fewer than the kept number are newer and the age is within the bound |
| `Activation.LastOnesRemain` | src/agent/activation.rs:211-217 | with a count and no age bound, pruning leaves exactly the last ones, as many as it keeps and at least the new one |
| `Activation.ProfileBounded` | src/agent/activation.rs:143-317 | over whole runs, after an activation that prunes by count the profile holds at most the kept number plus one generation for each event since |
| `Activation.OutcomeIff` | src/agent/activation.rs:143-224 | which error an activation reports, by the first check that fails, which previous system it reports, and what the link to the running system is afterwards |
| `Activation.RollbackNeverPrunes` | src/agent/activation.rs:303-311 | a rollback deletes no generation and changes none |
| `Activation.TestBecomesNewest` | src/agent/activation.rs:127-135 | a test activation leaves the newest generation in place exactly then, and always leaves the same profile as a switch |
| `Text.JoinSplit` | docs/searcher.js:178-182 | joining what was split gives the text back |
| `Text.PartsAreFree` | docs/searcher.js:178-182 | no part contains the separator |
| `Text.SplitJoin` | src/agent/template.rs:54-59 | splitting at a character gives back the parts that were joined with it, when none holds it |
| `Teaser.PartPlaced` | docs/searcher.js:179-202 | every part of a joined text sits at the offset the running sum gives it |
| `Teaser.SentencePlaced` | docs/searcher.js:182-200 | the words of a sentence sit at their offsets, in order and apart |
| `Teaser.WordsArePlaced` | docs/searcher.js:177-202 | every word recorded by the nested split sits at its recorded offset in the text, in order and apart |
| `Teaser.WordsAreSpaceless` | docs/searcher.js:182-184 | recorded words contain no space |
| `Teaser.EveryWordRecorded` | docs/searcher.js:181-202 | every position of the text is in a recorded word, or is a space or the full stop of a sentence end |
| `Teaser.WordsWeigh` | docs/searcher.js:181-196 | read off the text: search terms weigh forty, the first word of the text or after a sentence end eight, all others two |
| `Teaser.WordWeights` | docs/searcher.js:183-196 | every word weighs something and exactly the search terms weigh forty |
| `Teaser.WeighSplit` | docs/searcher.js:182-200 | the inner loop records the non-empty words with the weight of a term, a first word or any other, and advances the offset |
| `Teaser.WeighWords` | docs/searcher.js:177-202 | the nested loops record all words, and a term is reported found exactly when one was |
| `Teaser.SumSlides` | docs/searcher.js:216-220 | sliding a window by one word changes its sum by the word that enters and the word that leaves |
| `Teaser.WindowWeights` | docs/searcher.js:208-220 | the running sums equal the direct sum of every window |
| `Teaser.BestWindow` | docs/searcher.js:222-234 | the backward scan picks the last window among those of largest sum, and the first window when no term was found |
| `Teaser.ChooseWindow` | docs/searcher.js:208-234 | the same stated over the words themselves |
| `Teaser.PushWord` | docs/searcher.js:240-253 | one word extends the covered slice to its end and is emphasised exactly if it is a term |
| `Teaser.MarkWindow` | docs/searcher.js:236-256 | without its tags the result is one contiguous slice of the body, from the first to the last word of the window, and exactly the terms are emphasised |
| `Teaser.StripRendered` | docs/searcher.js:245-256 | removing the emphasis tags from the joined pieces gives back their texts, when these hold no tag |
| `Teaser.EmphasesAreMarked` | docs/searcher.js:245-256 | the joined text emphasises exactly the marked pieces, each between an opening and a closing tag |
| `Teaser.MakeTeaser` | docs/searcher.js:161-257 | the returned text joins the marked slice under the last best window; of an escaped body, it is that slice without its tags, and what it emphasises is exactly the body text under the search terms; a body without words is its own teaser and a window of no words has an empty one |

## Left out

- Running commands and reading their output; only the effect of each command on the kernel and the profile is modelled.
- Kernel refusals other than missing or existing names, malformed prefix lengths and identifiers over 24 bits; they appear as commands that fail for any reason on an unreliable kernel.
- Interfaces of the host and kernel changes that do not come from the agent.
- A veth pair of which only one end was moved: deleting that end does not delete the end left on the host.
- Link attributes that do not appear in the record, such as the nolearning flag; routes other than the default one.
- Service names whose eighth byte lies inside a character: cutting such a name there stops the agent.
- The path of a network namespace (`netns_path`): one branch.
- The probes themselves, their intervals and timeouts.
- Health reports sent to the server: a copy of the modelled results.
- Parsing of IPv4 text, certificates and common names; key generation and signing; file installation of certificates.
- The rest of the DesiredState arm: supervisor reconciliation and sending status.
- Deploy, secret, DNS and policy messages: single updates of one table.
- The node's own identity and certificate.
- Writing rendered templates to files.
- Reading the retention policy from the environment.
- The flakes-only profile commands, and reuse of the newest generation when the same path is set twice.
- Lower-casing and stemming in the search page; lower-casing is taken to keep the length. The display code of the page.
- Server, scheduler, raft, gossip, mesh, proxy and command-line modules.
- NetnsManager.NamespaceNetworkManager.UpdatePeers: the two passes write the changed peer map back once each; no other code can see it in between because the lock is held.
- NetnsManager.NamespaceNetworkManager.EnsureVxlanTunnel: for a recorded device that something outside the agent has deleted, the outcome is not described.
