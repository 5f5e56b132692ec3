/**
The health checker: a map of results shared by spawned probe loops.

Every lock-held section is one atomic step. The class below runs the sections in place;
`Health` interleaves them, together with registrations, the spawned initial insert and
stops, and proves what holds in every interleaving.
*/
module HealthSections {
  import opened Wrappers
  import opened ProbeHistory

  datatype HealthCheckSpec = HealthCheckSpec(healthyThreshold: u32, unhealthyThreshold: u32)

  datatype ProbeConfig = ProbeConfig(
    liveness: Option<HealthCheckSpec>,
    readiness: Option<HealthCheckSpec>,
    startup: Option<HealthCheckSpec>)

  datatype HealthResult = HealthResult(
    liveness: Probe,
    readiness: Probe,
    startupPassed: bool,
    healthyThreshold: u32,
    unhealthyThreshold: u32)

  type Results = map<string, HealthResult>

  function Threshold(configured: u32): u32 {
    if configured > 0 then configured else 3
  }

  /** The result a registration installs; both probes use the liveness thresholds. */
  function InitialResult(probes: ProbeConfig): HealthResult {
    match probes.liveness
    case Some(spec) =>
      HealthResult(INITIAL_PROBE, INITIAL_PROBE, probes.startup.None?,
                   Threshold(spec.healthyThreshold), Threshold(spec.unhealthyThreshold))
    case None =>
      HealthResult(INITIAL_PROBE, INITIAL_PROBE, probes.startup.None?, 3, 3)
  }

  /** What a fresh result must be: both probes unknown with nothing counted, startup passed exactly when
      there is no startup probe, and the thresholds of the liveness probe, with 3 for zero or no probe. */
  predicate Fresh(r: HealthResult, probes: ProbeConfig) {
    && r.liveness == r.readiness == Probe(Unknown, "initializing", 0, 0)
    && (r.startupPassed <==> probes.startup.None?)
    && Configured(probes, r.healthyThreshold, r.unhealthyThreshold)
  }

  predicate Configured(probes: ProbeConfig, healthy: int, unhealthy: int) {
    match probes.liveness
    case None => healthy == 3 && unhealthy == 3
    case Some(spec) =>
      && healthy == (if spec.healthyThreshold == 0 then 3 else spec.healthyThreshold)
      && unhealthy == (if spec.unhealthyThreshold == 0 then 3 else spec.unhealthyThreshold)
  }

  // ---------- the lock-held sections as functions of the shared map ----------

  function StartupWrite(results: Results, svc: string, check: Check): Results {
    if svc in results && check.Passed? then results[svc := results[svc].(startupPassed := true)] else results
  }

  function LivenessWrite(results: Results, svc: string, check: Check): Results {
    if svc !in results then results
    else
      var r := results[svc];
      results[svc := r.(liveness := ApplyCheck(r.liveness, check, r.healthyThreshold, r.unhealthyThreshold))]
  }

  function ReadinessWrite(results: Results, svc: string, check: Check): Results {
    if svc !in results then results
    else
      var r := results[svc];
      results[svc := r.(readiness := ApplyCheck(r.readiness, check, r.healthyThreshold, r.unhealthyThreshold))]
  }

  /** What a probe loop does after a section: stop, wait for the next tick, or run the check. */
  datatype Next = Exit | Wait | RunCheck

  class HealthChecker {
    var results: Results

    constructor ()
      ensures results == map[]
    {
      results := map[];
    }

    method Insert(svc: string, probes: ProbeConfig)
      modifies this
      ensures svc in results && Fresh(results[svc], probes) && results == old(results)[svc := results[svc]]
    {
      results := results[svc := InitialResult(probes)];
    }

    method StartupSection(svc: string, check: Check) returns (next: Next)
      modifies this
      ensures results == StartupWrite(old(results), svc, check)
      ensures next == if svc in old(results) && check.Failed? then Wait else Exit
    {
      if svc !in results {
        return Exit;
      }
      if check.Passed? {
        results := results[svc := results[svc].(startupPassed := true)];
        return Exit;
      }
      return Wait;
    }

    method LivenessGate(svc: string) returns (next: Next)
      ensures next.Exit? <==> svc !in results
      ensures next.RunCheck? <==> svc in results && results[svc].startupPassed
    {
      if svc !in results {
        next := Exit;
      } else if !results[svc].startupPassed {
        next := Wait;
      } else {
        next := RunCheck;
      }
    }

    method LivenessSection(svc: string, check: Check) returns (next: Next)
      modifies this
      ensures results == LivenessWrite(old(results), svc, check)
      ensures next == if svc in old(results) then Wait else Exit
    {
      if svc !in results {
        return Exit;
      }
      var r := results[svc];
      var p := UpdateProbeStatus(check, r.liveness, r.healthyThreshold, r.unhealthyThreshold);
      results := results[svc := r.(liveness := p)];
      return Wait;
    }

    method ReadinessSection(svc: string, check: Check) returns (next: Next)
      modifies this
      ensures results == ReadinessWrite(old(results), svc, check)
      ensures next == if svc in old(results) then Wait else Exit
    {
      if svc !in results {
        return Exit;
      }
      var r := results[svc];
      var p := UpdateProbeStatus(check, r.readiness, r.healthyThreshold, r.unhealthyThreshold);
      results := results[svc := r.(readiness := p)];
      return Wait;
    }

    method StopChecking(svc: string)
      modifies this
      ensures results == old(results) - {svc}
    {
      results := results - {svc};
    }
  }

  /** The status update, field by field as the agent performs it. If the stored probe refines
      a history, the new one refines that history with the check appended. */
  method UpdateProbeStatus(check: Check, p: Probe, healthy: u32, unhealthy: u32) returns (r: Probe)
    ensures r == ApplyCheck(p, check, healthy, unhealthy)
    ensures 0 < healthy && 0 < unhealthy ==>
              forall h :: Refines(p, h, healthy, unhealthy) ==> Refines(r, h + [check], healthy, unhealthy)
  {
    var status, success, failure := p.status, p.success, p.failure;
    match check {
      case Passed(msg) =>
        success := (success + 1) % U32_SIZE;
        failure := 0;
        if success >= healthy {
          status := Healthy;
        }
      case Failed(msg) =>
        failure := (failure + 1) % U32_SIZE;
        success := 0;
        if failure >= unhealthy {
          status := Unhealthy;
        }
    }
    r := Probe(status, check.msg, success, failure);
    forall h | 0 < healthy && 0 < unhealthy && Refines(p, h, healthy, unhealthy)
      ensures Refines(r, h + [check], healthy, unhealthy)
    {
      CheckRefines(p, h, check, healthy, unhealthy);
    }
  }
}

module Health {
  import opened Wrappers
  import opened ProbeHistory
  import opened HealthSections

  /** A spawned job. A liveness loop is `checking` between its gate and its write. */
  datatype Task =
    | InsertTask(svc: string, probes: ProbeConfig)
    | StartupLoop(svc: string)
    | LivenessLoop(svc: string, checking: bool)
    | ReadinessLoop(svc: string)

  datatype State = State(results: Results, tasks: map<nat, Task>, nextId: nat)

  /** One atomic step: a registration, a stop, or one lock-held section of a spawned job.
      The check outcome is the environment's choice; sections that run no check ignore it. */
  datatype Event =
    | Register(svc: string, probes: ProbeConfig)
    | Stop(svc: string)
    | RunTask(id: nat, check: Check)

  const INITIAL := State(map[], map[], 0)

  /** What a registration spawns under a given id, when ids start at `first`. */
  function SpawnedAt(svc: string, probes: ProbeConfig, first: nat, id: nat): Option<Task> {
    if id == first then Some(InsertTask(svc, probes))
    else if id == first + 1 && probes.startup.Some? then Some(StartupLoop(svc))
    else if id == first + 2 && probes.liveness.Some? then Some(LivenessLoop(svc, false))
    else if id == first + 3 && probes.readiness.Some? then Some(ReadinessLoop(svc))
    else None
  }

  function Spawned(first: nat, svc: string, probes: ProbeConfig): map<nat, Task> {
    map id: nat | first <= id < first + 4 && SpawnedAt(svc, probes, first, id).Some?
      :: SpawnedAt(svc, probes, first, id).value
  }

  function Keep(s: State, results: Results): State {
    s.(results := results)
  }

  function Finish(s: State, id: nat, results: Results): State {
    s.(results := results, tasks := s.tasks - {id})
  }

  function Step(s: State, e: Event): State {
    match e
    case Register(svc, probes) => s.(tasks := s.tasks + Spawned(s.nextId, svc, probes), nextId := s.nextId + 4)
    case Stop(svc) => s.(results := s.results - {svc})
    case RunTask(id, check) =>
      if id !in s.tasks then s
      else
        match s.tasks[id]
        case InsertTask(svc, probes) => Finish(s, id, s.results[svc := InitialResult(probes)])
        case StartupLoop(svc) =>
          if svc in s.results && check.Failed? then s
          else Finish(s, id, StartupWrite(s.results, svc, check))
        case LivenessLoop(svc, checking) =>
          if svc !in s.results then Finish(s, id, s.results)
          else if checking then
            State(LivenessWrite(s.results, svc, check), s.tasks[id := LivenessLoop(svc, false)], s.nextId)
          else if s.results[svc].startupPassed then s.(tasks := s.tasks[id := LivenessLoop(svc, true)])
          else s
        case ReadinessLoop(svc) =>
          if svc in s.results then Keep(s, ReadinessWrite(s.results, svc, check))
          else Finish(s, id, s.results)
  }

  /** The lock-held sections of the checker, run on the shared map, take exactly the step of
      the transition system: same results, and the loop continues, or ends, as `Step` says. */
  method RunSection(hc: HealthChecker, task: Task, check: Check) returns (rest: Option<Task>)
    modifies hc
    ensures forall s: State, id: nat :: s.results == old(hc.results) && id in s.tasks && s.tasks[id] == task ==>
              Step(s, RunTask(id, check)) ==
              State(hc.results, if rest.Some? then s.tasks[id := rest.value] else s.tasks - {id}, s.nextId)
  {
    match task {
      case InsertTask(svc, probes) =>
        hc.Insert(svc, probes);
        rest := None;
      case StartupLoop(svc) =>
        var next := hc.StartupSection(svc, check);
        rest := if next.Exit? then None else Some(task);
      case LivenessLoop(svc, checking) =>
        if checking {
          var next := hc.LivenessSection(svc, check);
          rest := if next.Exit? then None else Some(LivenessLoop(svc, false));
        } else {
          var next := hc.LivenessGate(svc);
          rest := if next.Exit? then None else Some(LivenessLoop(svc, next.RunCheck?));
        }
      case ReadinessLoop(svc) =>
        var next := hc.ReadinessSection(svc, check);
        rest := if next.Exit? then None else Some(task);
    }
    forall s: State, id: nat | s.results == old(hc.results) && id in s.tasks && s.tasks[id] == task
      ensures Step(s, RunTask(id, check)).tasks == if rest.Some? then s.tasks[id := rest.value] else s.tasks - {id}
    {
    }
  }

  function Exec(s: State, run: seq<Event>): State {
    if run == [] then s else Step(Exec(s, run[..|run| - 1]), run[|run| - 1])
  }

  // ---------- what was applied to a service since its latest insert ----------

  datatype ProbeKind = Liveness | Readiness

  function ProbeOf(r: HealthResult, kind: ProbeKind): Probe {
    if kind.Liveness? then r.liveness else r.readiness
  }

  /** What `e` runs in `s`, if anything. */
  function Running(s: State, e: Event): Option<Task> {
    if e.RunTask? && e.id in s.tasks then Some(s.tasks[e.id]) else None
  }

  predicate Applies(s: State, e: Event, svc: string, kind: ProbeKind) {
    svc in s.results &&
    Running(s, e) == Some(if kind.Liveness? then LivenessLoop(svc, true) else ReadinessLoop(svc))
  }

  predicate Inserts(s: State, e: Event, svc: string) {
    Running(s, e).Some? && Running(s, e).value.InsertTask? && Running(s, e).value.svc == svc
  }

  /** Outcomes applied to the service's probe since its latest insert, read off the run. */
  ghost function Log(run: seq<Event>, svc: string, kind: ProbeKind): seq<Check> {
    if run == [] then []
    else
      var before, e := run[..|run| - 1], run[|run| - 1];
      var s := Exec(INITIAL, before);
      if Inserts(s, e, svc) then []
      else if Applies(s, e, svc, kind) then Log(before, svc, kind) + [e.check]
      else Log(before, svc, kind)
  }

  /** How one step moves a stored result, when it is not the insert of that result. */
  lemma ResultStep(s: State, e: Event, svc: string, kind: ProbeKind)
    requires svc in Step(s, e).results && !Inserts(s, e, svc)
    ensures svc in s.results
    ensures var r, r' := s.results[svc], Step(s, e).results[svc];
            && r'.healthyThreshold == r.healthyThreshold && r'.unhealthyThreshold == r.unhealthyThreshold
            && ProbeOf(r', kind) == if Applies(s, e, svc, kind)
                                    then ApplyCheck(ProbeOf(r, kind), e.check, r.healthyThreshold, r.unhealthyThreshold)
                                    else ProbeOf(r, kind)
  {
  }

  // ---------- the registration behind a result ----------

  /** The registration that spawned a job: the one made when its id was handed out. */
  ghost function SpawnedBy(run: seq<Event>, id: nat): Option<Event> {
    if run == [] then None
    else
      var before, e := run[..|run| - 1], run[|run| - 1];
      if e.Register? && Exec(INITIAL, before).nextId <= id < Exec(INITIAL, before).nextId + 4 then Some(e)
      else SpawnedBy(before, id)
  }

  /** The probes given in the registration whose insert came last. */
  ghost function LatestProbes(run: seq<Event>, svc: string): Option<ProbeConfig> {
    if run == [] then None
    else
      var before, e := run[..|run| - 1], run[|run| - 1];
      if !Inserts(Exec(INITIAL, before), e, svc) then LatestProbes(before, svc)
      else
        var r := SpawnedBy(before, e.id);
        if r.Some? && r.value.Register? then Some(r.value.probes) else None
  }

  lemma SpawnedIds(s: State, e: Event, id: nat)
    requires IdsBounded(s) && id in Step(s, e).tasks
    ensures e.Register? && s.nextId <= id < s.nextId + 4 ==>
              Step(s, e).tasks[id].InsertTask? ==> Step(s, e).tasks[id] == InsertTask(e.svc, e.probes)
    ensures !(e.Register? && s.nextId <= id < s.nextId + 4) ==>
              && id in s.tasks
              && (Step(s, e).tasks[id].InsertTask? ==> Step(s, e).tasks[id] == s.tasks[id])
  {
  }

  lemma {:induction false} AlwaysBounded(run: seq<Event>)
    ensures IdsBounded(Exec(INITIAL, run))
  {
    if run != [] {
      var before, e := run[..|run| - 1], run[|run| - 1];
      AlwaysBounded(before);
      if e.Register? {
        SpawnedTasks(Exec(INITIAL, before), e);
      }
    }
  }

  /** An insert in flight carries the service and the probes of the registration that spawned it. */
  lemma {:induction false} InsertFromRegistration(run: seq<Event>, id: nat)
    requires id in Exec(INITIAL, run).tasks && Exec(INITIAL, run).tasks[id].InsertTask?
    ensures var task := Exec(INITIAL, run).tasks[id];
            SpawnedBy(run, id) == Some(Register(task.svc, task.probes))
  {
    var before, e := run[..|run| - 1], run[|run| - 1];
    var s := Exec(INITIAL, before);
    AlwaysBounded(before);
    SpawnedIds(s, e, id);
    if !(e.Register? && s.nextId <= id < s.nextId + 4) {
      InsertFromRegistration(before, id);
    }
  }

  /** In every run, a stored result has the thresholds of the liveness probe in the registration whose
      insert came last. */
  lemma {:induction false} ThresholdsAreConfigured(run: seq<Event>, svc: string)
    requires svc in Exec(INITIAL, run).results
    ensures var r, probes := Exec(INITIAL, run).results[svc], LatestProbes(run, svc);
            probes.Some? && Configured(probes.value, r.healthyThreshold, r.unhealthyThreshold)
  {
    var before, e := run[..|run| - 1], run[|run| - 1];
    var s := Exec(INITIAL, before);
    if Inserts(s, e, svc) {
      InsertFromRegistration(before, e.id);
    } else {
      ResultStep(s, e, svc, Liveness);
      ThresholdsAreConfigured(before, svc);
    }
  }

  ghost predicate ResultRefines(r: HealthResult, kind: ProbeKind, log: seq<Check>) {
    && 0 < r.healthyThreshold && 0 < r.unhealthyThreshold
    && Refines(ProbeOf(r, kind), log, r.healthyThreshold, r.unhealthyThreshold)
  }

  lemma {:induction false} StoredRefines(run: seq<Event>, svc: string, kind: ProbeKind)
    requires svc in Exec(INITIAL, run).results
    ensures ResultRefines(Exec(INITIAL, run).results[svc], kind, Log(run, svc, kind))
  {
    var before, e := run[..|run| - 1], run[|run| - 1];
    var s := Exec(INITIAL, before);
    if Inserts(s, e, svc) {
      var r := InitialResult(s.tasks[e.id].probes);
      InitialRefines(r.healthyThreshold, r.unhealthyThreshold);
    } else {
      ResultStep(s, e, svc, kind);
      StoredRefines(before, svc, kind);
      if Applies(s, e, svc, kind) {
        var r := s.results[svc];
        CheckRefines(ProbeOf(r, kind), Log(before, svc, kind), e.check, r.healthyThreshold, r.unhealthyThreshold);
      }
    }
  }

  /** In every interleaving, the stored counters, message and status of both probes of every
      registered service equal the history specification over the outcomes applied since the
      latest insert, with the thresholds configured in that insert's registration. */
  lemma ResultsRefineHistory(run: seq<Event>, svc: string, kind: ProbeKind, healthy: nat, unhealthy: nat)
    requires svc in Exec(INITIAL, run).results
    requires LatestProbes(run, svc).Some? ==> Configured(LatestProbes(run, svc).value, healthy, unhealthy)
    ensures LatestProbes(run, svc).Some? && 0 < healthy && 0 < unhealthy
    ensures Refines(ProbeOf(Exec(INITIAL, run).results[svc], kind), Log(run, svc, kind), healthy, unhealthy)
  {
    StoredRefines(run, svc, kind);
    ThresholdsAreConfigured(run, svc);
  }

  /** `is_ready` and `is_alive`. */
  predicate ReportsHealthy(s: State, svc: string, kind: ProbeKind) {
    svc in s.results && ProbeOf(s.results[svc], kind).status == Healthy
  }

  /** True exactly when a registered service last completed a passing streak, of the configured length,
      since its latest insert. */
  lemma ReportMeansPassingStreak(run: seq<Event>, svc: string, kind: ProbeKind, healthy: nat, unhealthy: nat)
    requires LatestProbes(run, svc).Some? ==> Configured(LatestProbes(run, svc).value, healthy, unhealthy)
    ensures ReportsHealthy(Exec(INITIAL, run), svc, kind) <==>
            svc in Exec(INITIAL, run).results && CompletedLast(Log(run, svc, kind), true, healthy, unhealthy)
  {
    if svc in Exec(INITIAL, run).results {
      ResultsRefineHistory(run, svc, kind, healthy, unhealthy);
    }
  }

  // ---------- the startup flag ----------

  predicate PassesStartup(s: State, e: Event, svc: string) {
    svc in s.results && Running(s, e) == Some(StartupLoop(svc)) && e.check.Passed?
  }

  /** A startup check of the service has passed since its latest insert. */
  ghost predicate StartupSucceeded(run: seq<Event>, svc: string) {
    run != [] &&
    var before, e := run[..|run| - 1], run[|run| - 1];
    var s := Exec(INITIAL, before);
    !Inserts(s, e, svc) && (PassesStartup(s, e, svc) || StartupSucceeded(before, svc))
  }

  lemma FlagStep(s: State, e: Event, svc: string)
    requires svc in Step(s, e).results && !Inserts(s, e, svc)
    ensures svc in s.results
    ensures Step(s, e).results[svc].startupPassed <==> s.results[svc].startupPassed || PassesStartup(s, e, svc)
  {
  }

  /** In every run, the flag of a stored result is set exactly when its registration has no startup probe
      or a startup check has passed since its insert. */
  lemma {:induction false} StartupPassedIff(run: seq<Event>, svc: string)
    requires svc in Exec(INITIAL, run).results
    ensures LatestProbes(run, svc).Some?
    ensures Exec(INITIAL, run).results[svc].startupPassed <==>
            LatestProbes(run, svc).value.startup.None? || StartupSucceeded(run, svc)
  {
    ThresholdsAreConfigured(run, svc);
    var before, e := run[..|run| - 1], run[|run| - 1];
    var s := Exec(INITIAL, before);
    if Inserts(s, e, svc) {
      InsertFromRegistration(before, e.id);
    } else {
      FlagStep(s, e, svc);
      StartupPassedIff(before, svc);
    }
  }

  /** Exactly what a registration spawns: its insert, and one loop for each probe it has. */
  lemma RegistrationSpawns(s: State, svc: string, probes: ProbeConfig, task: Task)
    requires IdsBounded(s)
    ensures var s' := Step(s, Register(svc, probes));
            (exists id :: id in s'.tasks && id !in s.tasks && s'.tasks[id] == task) <==>
            || task == InsertTask(svc, probes)
            || (task == StartupLoop(svc) && probes.startup.Some?)
            || (task == LivenessLoop(svc, false) && probes.liveness.Some?)
            || (task == ReadinessLoop(svc) && probes.readiness.Some?)
  {
    var s' := Step(s, Register(svc, probes));
    var first := s.nextId;
    assert first !in s.tasks && first + 1 !in s.tasks && first + 2 !in s.tasks && first + 3 !in s.tasks;
    assert first in s'.tasks && s'.tasks[first] == InsertTask(svc, probes);
    assert probes.startup.Some? ==> first + 1 in s'.tasks && s'.tasks[first + 1] == StartupLoop(svc);
    assert probes.liveness.Some? ==> first + 2 in s'.tasks && s'.tasks[first + 2] == LivenessLoop(svc, false);
    assert probes.readiness.Some? ==> first + 3 in s'.tasks && s'.tasks[first + 3] == ReadinessLoop(svc);
  }

  // ---------- the startup gate ----------

  /** Nothing has been checked, and no check is under way, for the service's liveness probe. */
  ghost predicate LivenessUntouched(s: State, svc: string) {
    && LivenessLoop(svc, true) !in s.tasks.Values
    && (svc in s.results ==> s.results[svc].liveness == INITIAL_PROBE)
  }

  /** What the startup probe promises: no liveness outcome is stored before it has passed. */
  predicate GateKept(s: State, svc: string) {
    svc in s.results && !s.results[svc].startupPassed ==> s.results[svc].liveness == INITIAL_PROBE
  }

  /** Nor is a check under way that could still store one. */
  ghost predicate GateSafe(s: State, svc: string) {
    svc in s.results && !s.results[svc].startupPassed ==> LivenessUntouched(s, svc)
  }

  predicate StartupInsert(s: State, e: Event, svc: string) {
    Inserts(s, e, svc) && s.tasks[e.id].probes.startup.Some?
  }

  /** An insert of a result to be gated, while a check begun under an earlier result is under way. */
  ghost predicate RacyInsert(s: State, e: Event, svc: string) {
    StartupInsert(s, e, svc) && LivenessLoop(svc, true) in s.tasks.Values
  }

  lemma CheckingLoops(s: State, e: Event, svc: string)
    ensures Inserts(s, e, svc) ==>
              (LivenessLoop(svc, true) in Step(s, e).tasks.Values <==> LivenessLoop(svc, true) in s.tasks.Values)
    ensures LivenessLoop(svc, true) in Step(s, e).tasks.Values && LivenessLoop(svc, true) !in s.tasks.Values ==>
              svc in s.results && s.results[svc].startupPassed && Step(s, e).results == s.results
  {
    var s' := Step(s, e);
    if Inserts(s, e, svc) && LivenessLoop(svc, true) in s.tasks.Values {
      var id :| id in s.tasks && s.tasks[id] == LivenessLoop(svc, true);
      assert id in s'.tasks && s'.tasks[id] == LivenessLoop(svc, true);
    }
    if LivenessLoop(svc, true) in s'.tasks.Values && LivenessLoop(svc, true) !in s.tasks.Values {
      var id :| id in s'.tasks && s'.tasks[id] == LivenessLoop(svc, true);
      assert id in s.tasks ==> s.tasks[id] != LivenessLoop(svc, true);
    }
  }

  /** A step breaks a safe gate exactly when it is a racy insert. */
  lemma GateStepIff(s: State, e: Event, svc: string)
    requires GateSafe(s, svc)
    ensures GateSafe(Step(s, e), svc) <==> !RacyInsert(s, e, svc)
  {
    CheckingLoops(s, e, svc);
    if svc in Step(s, e).results && !Inserts(s, e, svc) {
      ResultStep(s, e, svc, Liveness);
    }
  }

  /** No insert of the service during a run from `s`. */
  ghost predicate NoInsert(s: State, run: seq<Event>, svc: string) {
    forall i :: 0 <= i < |run| ==> !Inserts(Exec(s, run[..i]), run[i], svc)
  }

  lemma NoInsertSnoc(s: State, run: seq<Event>, svc: string)
    requires run != [] && NoInsert(s, run, svc)
    ensures NoInsert(s, run[..|run| - 1], svc)
    ensures !Inserts(Exec(s, run[..|run| - 1]), run[|run| - 1], svc)
  {
    var before := run[..|run| - 1];
    forall i | 0 <= i < |before|
      ensures !Inserts(Exec(s, before[..i]), before[i], svc)
    {
      assert before[..i] == run[..i];
    }
  }

  lemma {:induction false} GateStaysSafe(s: State, run: seq<Event>, svc: string)
    requires GateSafe(s, svc) && NoInsert(s, run, svc)
    ensures GateSafe(Exec(s, run), svc)
  {
    if run != [] {
      NoInsertSnoc(s, run, svc);
      GateStaysSafe(s, run[..|run| - 1], svc);
      GateStepIff(Exec(s, run[..|run| - 1]), run[|run| - 1], svc);
    }
  }

  /** A gate that is not safe can be broken by one more section of a loop already running. */
  lemma UnsafeGateBreaks(s: State, svc: string) returns (run: seq<Event>)
    requires !GateSafe(s, svc)
    ensures NoInsert(s, run, svc) && NoRegister(run, svc) && !GateKept(Exec(s, run), svc)
  {
    if s.results[svc].liveness != INITIAL_PROBE {
      run := [];
    } else {
      var id :| id in s.tasks && s.tasks[id] == LivenessLoop(svc, true);
      run := [RunTask(id, Passed("ok"))];
      assert run[..0] == [];
    }
  }

  /** The exact condition for the startup gate, from any state: no run without an insert of the
      service stores a liveness outcome before startup has passed, if and only if none is stored
      now and no check is under way. */
  lemma GateIff(s: State, svc: string)
    ensures (forall run :: NoInsert(s, run, svc) ==> GateKept(Exec(s, run), svc)) <==> GateSafe(s, svc)
  {
    if GateSafe(s, svc) {
      forall run | NoInsert(s, run, svc)
        ensures GateKept(Exec(s, run), svc)
      {
        GateStaysSafe(s, run, svc);
      }
    } else {
      var run := UnsafeGateBreaks(s, svc);
    }
  }

  /** The same for the runs a caller controls: no insert is in flight and none is registered. */
  lemma GateIffQuiet(s: State, svc: string)
    requires IdsBounded(s) && !InsertPending(s, svc)
    ensures (forall run :: NoRegister(run, svc) ==> GateKept(Exec(s, run), svc)) <==> GateSafe(s, svc)
  {
    if GateSafe(s, svc) {
      forall run | NoRegister(run, svc)
        ensures GateKept(Exec(s, run), svc)
      {
        QuietHasNoInsert(s, run, svc);
        GateStaysSafe(s, run, svc);
      }
    } else {
      var run := UnsafeGateBreaks(s, svc);
    }
  }

  lemma {:induction false} QuietHasNoInsert(s: State, run: seq<Event>, svc: string)
    requires IdsBounded(s) && !InsertPending(s, svc) && NoRegister(run, svc)
    ensures IdsBounded(Exec(s, run)) && !InsertPending(Exec(s, run), svc) && NoInsert(s, run, svc)
  {
    if run != [] {
      var before, e := run[..|run| - 1], run[|run| - 1];
      QuietHasNoInsert(s, before, svc);
      QuietStep(Exec(s, before), e, svc);
      forall i | 0 <= i < |run|
        ensures !Inserts(Exec(s, run[..i]), run[i], svc)
      {
        assert i < |before| ==> before[..i] == run[..i] && before[i] == run[i];
      }
    }
  }

  lemma QuietStep(s: State, e: Event, svc: string)
    requires IdsBounded(s) && !InsertPending(s, svc) && !(e.Register? && e.svc == svc)
    ensures IdsBounded(Step(s, e)) && !InsertPending(Step(s, e), svc) && !Inserts(s, e, svc)
  {
    if e.Register? {
      SpawnedTasks(s, e);
    }
    assert forall id :: IsInsert(Step(s, e), id, svc) ==> IsInsert(s, id, svc);
    InsertIsPending(s, e, svc);
  }

  /** The gate is safe in every state of a run. */
  ghost predicate SafeThroughout(s: State, run: seq<Event>, svc: string) {
    GateSafe(Exec(s, run), svc) && (run == [] || SafeThroughout(s, run[..|run| - 1], svc))
  }

  /** No step of a run is a racy insert. */
  ghost predicate NeverRacy(s: State, run: seq<Event>, svc: string) {
    run == [] ||
    (NeverRacy(s, run[..|run| - 1], svc) && !RacyInsert(Exec(s, run[..|run| - 1]), run[|run| - 1], svc))
  }

  /** Over whole runs, with any number of registrations: the gate is safe in every state exactly
      when no insert of the service is racy. */
  lemma {:induction false} GateRunIff(s: State, run: seq<Event>, svc: string)
    requires GateSafe(s, svc)
    ensures SafeThroughout(s, run, svc) <==> NeverRacy(s, run, svc)
  {
    if run != [] {
      var before := run[..|run| - 1];
      GateRunIff(s, before, svc);
      if NeverRacy(s, before, svc) {
        GateStepIff(Exec(s, before), run[|run| - 1], svc);
      }
    }
  }

  // ---------- one registration is never racy ----------

  /** How many registrations of the service a run contains. */
  function Registrations(run: seq<Event>, svc: string): nat {
    if run == [] then 0
    else Registrations(run[..|run| - 1], svc) +
         if run[|run| - 1].Register? && run[|run| - 1].svc == svc then 1 else 0
  }

  predicate AllHaveStartup(run: seq<Event>, svc: string) {
    forall i :: 0 <= i < |run| && run[i].Register? && run[i].svc == svc ==> run[i].probes.startup.Some?
  }

  predicate IsInsert(s: State, id: nat, svc: string) {
    id in s.tasks && s.tasks[id].InsertTask? && s.tasks[id].svc == svc
  }

  ghost predicate InsertPending(s: State, svc: string) {
    exists id :: IsInsert(s, id, svc)
  }

  ghost predicate IdsBounded(s: State) {
    forall id :: id in s.tasks ==> id < s.nextId
  }

  ghost predicate OneInsert(s: State, svc: string) {
    forall i, j :: IsInsert(s, i, svc) && IsInsert(s, j, svc) ==> i == j
  }

  /** With at most one registration, no check is under way before the insert. */
  ghost predicate InsertComesFirst(s: State, svc: string, registrations: nat) {
    && IdsBounded(s)
    && OneInsert(s, svc)
    && (registrations == 0 ==> svc !in s.results && forall id :: id in s.tasks ==> s.tasks[id].svc != svc)
    && (InsertPending(s, svc) ==> svc !in s.results && LivenessLoop(svc, true) !in s.tasks.Values)
  }

  lemma {:induction false} OneRegistrationIsNotRacy(run: seq<Event>, svc: string)
    requires Registrations(run, svc) <= 1
    ensures InsertComesFirst(Exec(INITIAL, run), svc, Registrations(run, svc))
    ensures NeverRacy(INITIAL, run, svc)
  {
    if run != [] {
      var before, e := run[..|run| - 1], run[|run| - 1];
      OneRegistrationIsNotRacy(before, svc);
      var s, n := Exec(INITIAL, before), Registrations(before, svc);
      InsertIsPending(s, e, svc);
      if e.Register? {
        FirstAfterRegister(s, e, svc, n);
      } else {
        FirstAfterRun(s, e, svc, n);
      }
    }
  }

  lemma InsertIsPending(s: State, e: Event, svc: string)
    ensures Inserts(s, e, svc) ==> InsertPending(s, svc)
  {
    if Inserts(s, e, svc) {
      assert IsInsert(s, e.id, svc);
    }
  }

  lemma SpawnedTasks(s: State, e: Event)
    requires e.Register? && IdsBounded(s)
    ensures var s' := Step(s, e);
            && IdsBounded(s')
            && (forall id :: id in s.tasks ==> id in s'.tasks && s'.tasks[id] == s.tasks[id])
            && (forall id :: id in s'.tasks && id !in s.tasks ==>
                  && id >= s.nextId
                  && s'.tasks[id].svc == e.svc
                  && (s'.tasks[id].LivenessLoop? ==> !s'.tasks[id].checking)
                  && (s'.tasks[id].InsertTask? ==> id == s.nextId && s'.tasks[id].probes == e.probes))
  {
  }

  lemma FirstAfterRegister(s: State, e: Event, svc: string, n: nat)
    requires InsertComesFirst(s, svc, n) && e.Register? && (e.svc == svc ==> n == 0)
    ensures InsertComesFirst(Step(s, e), svc, n + if e.svc == svc then 1 else 0)
  {
    SpawnedTasks(s, e);
    CheckingLoops(s, e, svc);
    var s' := Step(s, e);
    assert forall id :: IsInsert(s, id, svc) ==> IsInsert(s', id, svc);
    assert forall id :: IsInsert(s', id, svc) && e.svc != svc ==> IsInsert(s, id, svc);
  }

  /** What a step other than a registration can do to the tasks of a service. */
  lemma RunKeepsTasks(s: State, e: Event, svc: string)
    requires !e.Register? && IdsBounded(s)
    ensures var s' := Step(s, e);
            && IdsBounded(s')
            && (forall id :: id in s'.tasks ==> id in s.tasks && s'.tasks[id].svc == s.tasks[id].svc)
            && (forall id :: id in s'.tasks && s'.tasks[id] != s.tasks[id] ==>
                  s.tasks[id].LivenessLoop? && s'.tasks[id].LivenessLoop?)
            && (Inserts(s, e, svc) ==> e.id !in s'.tasks && svc in s'.results)
  {
  }

  lemma FirstAfterRun(s: State, e: Event, svc: string, n: nat)
    requires InsertComesFirst(s, svc, n) && !e.Register?
    ensures InsertComesFirst(Step(s, e), svc, n)
  {
    var s' := Step(s, e);
    RunKeepsTasks(s, e, svc);
    CheckingLoops(s, e, svc);
    assert forall id :: IsInsert(s', id, svc) ==> IsInsert(s, id, svc);
    if Inserts(s, e, svc) {
      assert IsInsert(s, e.id, svc);
    } else if svc in s'.results {
      ResultStep(s, e, svc, Liveness);
    }
  }

  /** Within one registration, liveness is untouched in every reachable state until the startup
      probe has passed. */
  lemma LivenessWaitsForStartup(run: seq<Event>, svc: string)
    requires Registrations(run, svc) <= 1
    ensures GateSafe(Exec(INITIAL, run), svc)
  {
    OneRegistrationIsNotRacy(run, svc);
    GateRunIff(INITIAL, run, svc);
  }

  // ---------- startup never un-passes ----------

  predicate PassedIfPresent(s: State, svc: string) {
    svc in s.results ==> s.results[svc].startupPassed
  }

  lemma UnpassStepIff(s: State, e: Event, svc: string)
    requires PassedIfPresent(s, svc)
    ensures PassedIfPresent(Step(s, e), svc) <==> !StartupInsert(s, e, svc)
  {
  }

  ghost predicate PassedThroughout(s: State, run: seq<Event>, svc: string) {
    PassedIfPresent(Exec(s, run), svc) && (run == [] || PassedThroughout(s, run[..|run| - 1], svc))
  }

  ghost predicate NoStartupInsert(s: State, run: seq<Event>, svc: string) {
    run == [] ||
    (NoStartupInsert(s, run[..|run| - 1], svc) && !StartupInsert(Exec(s, run[..|run| - 1]), run[|run| - 1], svc))
  }

  /** From a state in which startup has passed, and over any run with any registrations, it stays
      passed in every state exactly when no result with a startup probe is inserted. */
  lemma {:induction false} StartupNeverUnpasses(s: State, run: seq<Event>, svc: string)
    requires PassedIfPresent(s, svc)
    ensures PassedThroughout(s, run, svc) <==> NoStartupInsert(s, run, svc)
  {
    if run != [] {
      var before := run[..|run| - 1];
      StartupNeverUnpasses(s, before, svc);
      if NoStartupInsert(s, before, svc) {
        UnpassStepIff(Exec(s, before), run[|run| - 1], svc);
      }
    }
  }

  lemma {:induction false} RegistrationsAdd(run: seq<Event>, more: seq<Event>, svc: string)
    ensures Registrations(run + more, svc) == Registrations(run, svc) + Registrations(more, svc)
  {
    if more == [] {
      assert run + more == run;
    } else {
      assert (run + more)[..|run + more| - 1] == run + more[..|more| - 1];
      RegistrationsAdd(run, more[..|more| - 1], svc);
    }
  }

  lemma {:induction false} NoneRegistered(run: seq<Event>, svc: string)
    requires Registrations(run, svc) == 0
    ensures NoRegister(run, svc)
  {
    if run != [] {
      NoneRegistered(run[..|run| - 1], svc);
    }
  }

  lemma {:induction false} NoInsertNoStartup(s: State, run: seq<Event>, svc: string)
    requires NoInsert(s, run, svc)
    ensures NoStartupInsert(s, run, svc)
  {
    if run != [] {
      NoInsertSnoc(s, run, svc);
      NoInsertNoStartup(s, run[..|run| - 1], svc);
    }
  }

  /** Within one registration, startup once passed stays passed in every continuation. */
  lemma PassedStaysPassed(run: seq<Event>, more: seq<Event>, svc: string)
    requires Registrations(run + more, svc) <= 1
    requires svc in Exec(INITIAL, run).results && Exec(INITIAL, run).results[svc].startupPassed
    ensures PassedThroughout(Exec(INITIAL, run), more, svc)
  {
    RegistrationsAdd(run, more, svc);
    OneRegistrationIsNotRacy(run, svc);
    NoneRegistered(more, svc);
    QuietHasNoInsert(Exec(INITIAL, run), more, svc);
    NoInsertNoStartup(Exec(INITIAL, run), more, svc);
    StartupNeverUnpasses(Exec(INITIAL, run), more, svc);
  }

  // ---------- after a stop ----------

  predicate NoRegister(run: seq<Event>, svc: string) {
    forall i :: 0 <= i < |run| ==> !(run[i].Register? && run[i].svc == svc)
  }

  /** The service is unregistered for good: no result, and no insert that could bring one back. */
  ghost predicate Retired(s: State, svc: string) {
    IdsBounded(s) && svc !in s.results && !InsertPending(s, svc)
  }

  /** The exact condition for a stop to last: from a state without a result, some run without a
      registration brings the result back if and only if an insert is still in flight. */
  lemma StopUndoneIff(s: State, svc: string)
    requires IdsBounded(s) && svc !in s.results
    ensures (exists run :: NoRegister(run, svc) && svc in Exec(s, run).results) <==> InsertPending(s, svc)
  {
    if InsertPending(s, svc) {
      var id :| IsInsert(s, id, svc);
      var run := [RunTask(id, Passed("ok"))];
      assert run[..0] == [];
      assert NoRegister(run, svc) && svc in Exec(s, run).results;
    } else {
      forall run | NoRegister(run, svc)
        ensures svc !in Exec(s, run).results
      {
        RetiredForever(s, run, svc);
      }
    }
  }

  lemma RetiredStep(s: State, e: Event, svc: string)
    requires Retired(s, svc) && !(e.Register? && e.svc == svc)
    ensures Retired(Step(s, e), svc)
    ensures forall id :: id < s.nextId && id !in s.tasks ==> id !in Step(s, e).tasks
    ensures s.nextId <= Step(s, e).nextId
    ensures Running(s, e).Some? && s.tasks[e.id].svc == svc ==> e.id !in Step(s, e).tasks
    ensures forall id :: id in s.tasks && id in Step(s, e).tasks ==> Step(s, e).tasks[id].svc == s.tasks[id].svc
  {
    if e.Register? {
      SpawnedTasks(s, e);
    }
    assert forall id :: IsInsert(Step(s, e), id, svc) ==> IsInsert(s, id, svc);
    InsertIsPending(s, e, svc);
  }

  lemma {:induction false} RetiredForever(s: State, run: seq<Event>, svc: string)
    requires Retired(s, svc) && NoRegister(run, svc)
    ensures Retired(Exec(s, run), svc)
    ensures forall id :: id < s.nextId && id !in s.tasks ==> id !in Exec(s, run).tasks
    ensures s.nextId <= Exec(s, run).nextId
  {
    if run != [] {
      RetiredForever(s, run[..|run| - 1], svc);
      RetiredStep(Exec(s, run[..|run| - 1]), run[|run| - 1], svc);
    }
  }

  /** After a stop with no re-registration (and no insert still in flight), each loop of the
      service takes at most one more step: that step ends it and it never runs again. */
  lemma {:induction false} StopEndsLoops(s: State, run: seq<Event>, svc: string, id: nat, i: nat)
    requires Retired(s, svc) && NoRegister(run, svc)
    requires id in s.tasks && s.tasks[id].svc == svc
    requires i < |run| && run[i].RunTask? && run[i].id == id
    ensures id !in Exec(s, run).tasks && svc !in Exec(s, run).results
  {
    RetiredForever(s, run, svc);
    var before, e := run[..|run| - 1], run[|run| - 1];
    var t := Exec(s, before);
    RetiredForever(s, before, svc);
    RetiredStep(t, e, svc);
    if i == |run| - 1 {
      SameService(s, before, svc, id);
    } else {
      StopEndsLoops(s, before, svc, id, i);
    }
  }

  lemma {:induction false} SameService(s: State, run: seq<Event>, svc: string, id: nat)
    requires Retired(s, svc) && NoRegister(run, svc)
    requires id in s.tasks && s.tasks[id].svc == svc
    ensures id in Exec(s, run).tasks ==> Exec(s, run).tasks[id].svc == svc
  {
    if run != [] {
      var before := run[..|run| - 1];
      RetiredForever(s, before, svc);
      SameService(s, before, svc, id);
      RetiredStep(Exec(s, before), run[|run| - 1], svc);
    }
  }

  // ---------- when a loop survives ----------

  predicate IsLoop(s: State, id: nat, svc: string) {
    id in s.tasks && !s.tasks[id].InsertTask? && s.tasks[id].svc == svc
  }

  /** What a loop needs to go on after its section: the service is registered, and a startup loop
      has not passed. */
  predicate GoesOn(s: State, e: Event, svc: string, startup: bool)
    requires e.RunTask?
  {
    svc in s.results && (startup ==> e.check.Failed?)
  }

  lemma LoopStepIff(s: State, e: Event, svc: string, id: nat)
    requires IdsBounded(s) && IsLoop(s, id, svc)
    ensures IdsBounded(Step(s, e))
    ensures var s', startup := Step(s, e), s.tasks[id].StartupLoop?;
            && (id in s'.tasks <==> (e.RunTask? && e.id == id ==> GoesOn(s, e, svc, startup)))
            && (id in s'.tasks ==> IsLoop(s', id, svc) && s'.tasks[id].StartupLoop? == startup)
  {
    if e.Register? {
      SpawnedTasks(s, e);
    }
  }

  lemma EndedStaysEnded(s: State, e: Event, id: nat)
    requires IdsBounded(s) && id < s.nextId && id !in s.tasks
    ensures IdsBounded(Step(s, e)) && id < Step(s, e).nextId && id !in Step(s, e).tasks
  {
    if e.Register? {
      SpawnedTasks(s, e);
    }
  }

  ghost predicate AlwaysGoesOn(s: State, run: seq<Event>, svc: string, id: nat, startup: bool) {
    forall i :: 0 <= i < |run| && run[i].RunTask? && run[i].id == id ==> GoesOn(Exec(s, run[..i]), run[i], svc, startup)
  }

  lemma AlwaysGoesOnSnoc(s: State, run: seq<Event>, svc: string, id: nat, startup: bool)
    requires run != []
    ensures var before, e := run[..|run| - 1], run[|run| - 1];
            AlwaysGoesOn(s, run, svc, id, startup) <==>
            && AlwaysGoesOn(s, before, svc, id, startup)
            && (e.RunTask? && e.id == id ==> GoesOn(Exec(s, before), e, svc, startup))
  {
    var before := run[..|run| - 1];
    assert forall i :: 0 <= i < |before| ==> before[..i] == run[..i] && before[i] == run[i];
    assert run[..|before|] == before;
    if AlwaysGoesOn(s, run, svc, id, startup) {
      forall i | 0 <= i < |before| && before[i].RunTask? && before[i].id == id
        ensures GoesOn(Exec(s, before[..i]), before[i], svc, startup)
      {
        assert run[i].RunTask? && run[i].id == id;
      }
    }
  }

  /** Exactly when a loop survives a run: at each of its sections the service is registered (and,
      for a startup loop, the check fails). So a loop is lost for good if and only if one of its
      sections finds no result, as when it runs before the spawned insert. */
  lemma {:induction false} LoopSurvivesIff(s: State, run: seq<Event>, svc: string, id: nat)
    requires IdsBounded(s) && IsLoop(s, id, svc)
    ensures var s', startup := Exec(s, run), s.tasks[id].StartupLoop?;
            && IdsBounded(s') && id < s'.nextId
            && (id in s'.tasks <==> AlwaysGoesOn(s, run, svc, id, startup))
            && (id in s'.tasks ==> IsLoop(s', id, svc) && s'.tasks[id].StartupLoop? == startup)
  {
    if run != [] {
      var before, e := run[..|run| - 1], run[|run| - 1];
      LoopSurvivesIff(s, before, svc, id);
      AlwaysGoesOnSnoc(s, run, svc, id, s.tasks[id].StartupLoop?);
      var t := Exec(s, before);
      if id in t.tasks {
        LoopStepIff(t, e, svc, id);
      } else {
        EndedStaysEnded(t, e, id);
      }
    }
  }

  // ---------- runs the design does not exclude ----------

  const SPEC := HealthCheckSpec(1, 1)
  const GATED := ProbeConfig(Some(SPEC), None, Some(SPEC))

  /** The liveness loop may run its first gate before the spawned insert: it exits, the insert
      then installs a result, and nothing is left to check the service. */
  lemma InsertMayLoseRace() returns (run: seq<Event>)
    ensures Registrations(run, "web") == 1
    ensures var s := Exec(INITIAL, run);
            "web" in s.results && s.results["web"].liveness.status == Unknown && s.tasks == map[]
  {
    var ok := Passed("ok");
    run := [Register("web", ProbeConfig(Some(SPEC), None, None))];
    Snoc([], run[0]);
    Snoc(run, RunTask(2, ok));
    Snoc(run + [RunTask(2, ok)], RunTask(0, ok));
    run := run + [RunTask(2, ok)] + [RunTask(0, ok)];
  }

  lemma Snoc(run: seq<Event>, e: Event)
    ensures Exec(INITIAL, run + [e]) == Step(Exec(INITIAL, run), e)
    ensures Registrations(run + [e], "web") ==
            Registrations(run, "web") + if e.Register? && e.svc == "web" then 1 else 0
  {
    assert (run + [e])[..|run|] == run;
  }

  /** A stop does not cancel an insert still in flight: the result comes back. */
  lemma InsertMayOutliveStop(probes: ProbeConfig, ok: Check) returns (run: seq<Event>)
    ensures Registrations(run, "web") == 1 && |run| == 3 && run[1] == Stop("web")
    ensures "web" in Exec(INITIAL, run).results
  {
    run := [Register("web", probes)];
    Snoc([], run[0]);
    Snoc(run, Stop("web"));
    Snoc(run + [Stop("web")], RunTask(0, ok));
    run := run + [Stop("web")] + [RunTask(0, ok)];
  }

  /** With no loop left for a service, its result stays as it is until it is stopped or
      registered again, whatever else runs. */
  lemma {:induction false} UncheckedStaysUnchecked(s: State, run: seq<Event>, svc: string)
    requires IdsBounded(s) && svc in s.results && forall id :: id in s.tasks ==> s.tasks[id].svc != svc
    requires NoRegister(run, svc)
    ensures var s' := Exec(s, run);
            && IdsBounded(s')
            && (forall id :: id in s'.tasks ==> s'.tasks[id].svc != svc)
            && (svc in s'.results ==> s'.results[svc] == s.results[svc])
  {
    if run != [] {
      var before, e := run[..|run| - 1], run[|run| - 1];
      UncheckedStaysUnchecked(s, before, svc);
      if e.Register? {
        SpawnedTasks(Exec(s, before), e);
      }
    }
  }

  // ---------- readiness needs its own loop ----------

  lemma {:induction false} ExecConcat(s: State, a: seq<Event>, b: seq<Event>)
    ensures Exec(s, a + b) == Exec(Exec(s, a), b)
  {
    if b == [] {
      assert a + b == a;
    } else {
      assert (a + b)[..|a + b| - 1] == a + b[..|b| - 1];
      ExecConcat(s, a, b[..|b| - 1]);
    }
  }

  /** One failing check and then `k` passing ones. */
  function Recover(id: nat, k: nat): seq<Event> {
    if k == 0 then [RunTask(id, Failed("down"))] else Recover(id, k - 1) + [RunTask(id, Passed("ok"))]
  }

  lemma {:induction false} RecoverRegistersNothing(id: nat, k: nat, svc: string)
    ensures NoRegister(Recover(id, k), svc)
  {
    if k > 0 {
      RecoverRegistersNothing(id, k - 1, svc);
    }
  }

  /** A readiness loop about to run, with a given count of passes and threshold. */
  predicate Counting(s: State, svc: string, id: nat, success: int, healthy: int) {
    && svc in s.results && id in s.tasks && s.tasks[id] == ReadinessLoop(svc)
    && s.results[svc].readiness.success == success && s.results[svc].healthyThreshold == healthy
  }

  lemma CountStep(s: State, svc: string, id: nat, check: Check, success: nat, healthy: nat)
    requires Counting(s, svc, id, success, healthy) && success + 1 < U32_SIZE
    ensures var s' := Step(s, RunTask(id, check));
            && Counting(s', svc, id, if check.Passed? then success + 1 else 0, healthy)
            && (check.Passed? && success + 1 >= healthy ==> s'.results[svc].readiness.status == Healthy)
  {
  }

  lemma FailStep(s: State, svc: string, id: nat, check: Check, success: nat, healthy: nat)
    requires Counting(s, svc, id, success, healthy) && check.Failed?
    ensures Counting(Step(s, RunTask(id, check)), svc, id, 0, healthy)
  {
  }

  lemma {:induction false} RecoverCounts(s: State, svc: string, id: nat, success: nat, healthy: nat, k: nat)
    requires Counting(s, svc, id, success, healthy) && k <= healthy < U32_SIZE
    ensures Counting(Exec(s, Recover(id, k)), svc, id, k, healthy)
    ensures 0 < k == healthy ==> Exec(s, Recover(id, k)).results[svc].readiness.status == Healthy
  {
    if k == 0 {
      assert Recover(id, 0)[..0] == [];
      FailStep(s, svc, id, Failed("down"), success, healthy);
    } else {
      RecoverCounts(s, svc, id, success, healthy, k - 1);
      assert Recover(id, k)[..|Recover(id, k)| - 1] == Recover(id, k - 1);
      CountStep(Exec(s, Recover(id, k - 1)), svc, id, Passed("ok"), k - 1, healthy);
    }
  }

  lemma LoopMakesReady(s: State, svc: string) returns (run: seq<Event>)
    requires svc in s.results && s.results[svc].healthyThreshold > 0 && ReadinessLoop(svc) in s.tasks.Values
    ensures NoRegister(run, svc) && ReportsHealthy(Exec(s, run), svc, Readiness)
  {
    var id :| id in s.tasks && s.tasks[id] == ReadinessLoop(svc);
    var healthy := s.results[svc].healthyThreshold;
    run := Recover(id, healthy);
    RecoverCounts(s, svc, id, s.results[svc].readiness.success, healthy, healthy);
    RecoverRegistersNothing(id, healthy, svc);
  }

  lemma InsertThenReady(s: State, svc: string) returns (run: seq<Event>)
    requires InsertPending(s, svc) && ReadinessLoop(svc) in s.tasks.Values
    ensures NoRegister(run, svc) && ReportsHealthy(Exec(s, run), svc, Readiness)
  {
    var id, loop :| IsInsert(s, id, svc) && loop in s.tasks && s.tasks[loop] == ReadinessLoop(svc);
    var insert := RunTask(id, Passed("ok"));
    var s1 := Step(s, insert);
    assert loop in s1.tasks && s1.tasks[loop] == ReadinessLoop(svc);
    var more := LoopMakesReady(s1, svc);
    run := [insert] + more;
    assert Exec(s, [insert]) == s1 by {
      assert [insert][..0] == [];
    }
    ExecConcat(s, [insert], more);
  }

  /** Without a readiness loop, a service that is not ready stays so until it is registered again. */
  ghost predicate Unready(s: State, svc: string) {
    IdsBounded(s) && ReadinessLoop(svc) !in s.tasks.Values && !ReportsHealthy(s, svc, Readiness)
  }

  lemma UnreadyStep(s: State, e: Event, svc: string)
    requires Unready(s, svc) && !(e.Register? && e.svc == svc)
    ensures Unready(Step(s, e), svc)
  {
    if e.Register? {
      SpawnedTasks(s, e);
    } else {
      RunKeepsTasks(s, e, svc);
    }
    if svc in Step(s, e).results && !Inserts(s, e, svc) {
      ResultStep(s, e, svc, Readiness);
    }
  }

  lemma {:induction false} UnreadyForever(s: State, run: seq<Event>, svc: string)
    requires Unready(s, svc) && NoRegister(run, svc)
    ensures Unready(Exec(s, run), svc)
  {
    if run != [] {
      UnreadyForever(s, run[..|run| - 1], svc);
      UnreadyStep(Exec(s, run[..|run| - 1]), run[|run| - 1], svc);
    }
  }

  /** A service that has a readiness loop, and a result or one in flight for the loop to write to. */
  ghost predicate ReadinessAlive(s: State, svc: string) {
    ReadinessLoop(svc) in s.tasks.Values && (svc in s.results || InsertPending(s, svc))
  }

  /** Exactly when a service can be reported ready without being registered again: it is reported so
      now, or it has a readiness loop of its own. The liveness probe does not enter. */
  lemma ReadyIff(s: State, svc: string)
    requires IdsBounded(s) && (svc in s.results ==> s.results[svc].healthyThreshold > 0)
    ensures (exists run :: NoRegister(run, svc) && ReportsHealthy(Exec(s, run), svc, Readiness)) <==>
            ReportsHealthy(s, svc, Readiness) || ReadinessAlive(s, svc)
  {
    if ReportsHealthy(s, svc, Readiness) {
      var none: seq<Event> := [];
      assert NoRegister(none, svc) && ReportsHealthy(Exec(s, none), svc, Readiness);
    } else if ReadinessAlive(s, svc) {
      var run;
      if svc in s.results {
        run := LoopMakesReady(s, svc);
      } else {
        run := InsertThenReady(s, svc);
      }
    } else {
      forall run | NoRegister(run, svc)
        ensures !ReportsHealthy(Exec(s, run), svc, Readiness)
      {
        if ReadinessLoop(svc) in s.tasks.Values {
          RetiredForever(s, run, svc);
        } else {
          UnreadyForever(s, run, svc);
        }
      }
    }
  }

  predicate NoReadinessProbe(run: seq<Event>, svc: string) {
    forall i :: 0 <= i < |run| && run[i].Register? && run[i].svc == svc ==> run[i].probes.readiness.None?
  }

  lemma SpawnsNoReadiness(s: State, e: Event, svc: string)
    requires Unready(s, svc) && e.Register? && (e.svc == svc ==> e.probes.readiness.None?)
    ensures Unready(Step(s, e), svc)
  {
    SpawnedTasks(s, e);
  }

  /** So a service registered without a readiness probe is never reported ready, whatever its
      liveness probe says. */
  lemma {:induction false} ReadinessHasNoDefault(run: seq<Event>, svc: string)
    requires NoReadinessProbe(run, svc)
    ensures Unready(Exec(INITIAL, run), svc)
    ensures svc in Exec(INITIAL, run).results ==> Exec(INITIAL, run).results[svc].readiness == INITIAL_PROBE
  {
    if run != [] {
      var before, e := run[..|run| - 1], run[|run| - 1];
      assert NoReadinessProbe(before, svc) by {
        assert forall i :: 0 <= i < |before| ==> before[i] == run[i];
      }
      ReadinessHasNoDefault(before, svc);
      if svc in Exec(INITIAL, run).results && !Inserts(Exec(INITIAL, before), e, svc) {
        ResultStep(Exec(INITIAL, before), e, svc, Readiness);
      }
      if e.Register? {
        SpawnsNoReadiness(Exec(INITIAL, before), e, svc);
      } else {
        UnreadyStep(Exec(INITIAL, before), e, svc);
      }
    }
  }

  const LIVENESS_ONLY := ProbeConfig(Some(SPEC), None, None)

  lemma FirstResult(ok: Check) returns (run: seq<Event>)
    ensures NoReadinessProbe(run, "web")
    ensures Exec(INITIAL, run) ==
            State(map["web" := InitialResult(LIVENESS_ONLY)], map[2 := LivenessLoop("web", false)], 4)
  {
    var r := Register("web", LIVENESS_ONLY);
    Snoc([], r);
    Snoc([r], RunTask(0, ok));
    run := [r] + [RunTask(0, ok)];
    assert Exec(INITIAL, run).tasks == map[2 := LivenessLoop("web", false)];
  }

  lemma OnePassIsAlive(s: State, ok: Check)
    requires ok.Passed?
    requires s == State(map["web" := InitialResult(LIVENESS_ONLY)], map[2 := LivenessLoop("web", false)], 4)
    ensures ReportsHealthy(Step(Step(s, RunTask(2, ok)), RunTask(2, ok)), "web", Liveness)
  {
  }

  lemma LivenessOnly() returns (run: seq<Event>)
    ensures NoReadinessProbe(run, "web") && ReportsHealthy(Exec(INITIAL, run), "web", Liveness)
  {
    var ok := Passed("ok");
    run := FirstResult(ok);
    OnePassIsAlive(Exec(INITIAL, run), ok);
    Snoc(run, RunTask(2, ok));
    run := run + [RunTask(2, ok)];
    Snoc(run, RunTask(2, ok));
    run := run + [RunTask(2, ok)];
  }

  lemma NoProbeEither(run: seq<Event>, more: seq<Event>, svc: string)
    requires NoReadinessProbe(run, svc) && NoReadinessProbe(more, svc)
    ensures NoReadinessProbe(run + more, svc)
  {
  }

  /** A run that leaves a service alive and, however it goes on, never ready. */
  lemma AliveButNeverReady() returns (run: seq<Event>)
    ensures ReportsHealthy(Exec(INITIAL, run), "web", Liveness)
    ensures forall more :: NoReadinessProbe(more, "web") ==>
              !ReportsHealthy(Exec(INITIAL, run + more), "web", Readiness)
  {
    run := LivenessOnly();
    forall more | NoReadinessProbe(more, "web")
      ensures !ReportsHealthy(Exec(INITIAL, run + more), "web", Readiness)
    {
      NoProbeEither(run, more, "web");
      ReadinessHasNoDefault(run + more, "web");
    }
  }

  // ---------- the gate and two registrations ----------

  /** Register, insert, pass the startup probe, open the liveness gate. */
  lemma OpenGate(r: Event, ok: Check) returns (run: seq<Event>)
    requires r == Register("web", GATED) && ok == Passed("ok")
    ensures Exec(INITIAL, run).tasks == map[2 := LivenessLoop("web", true)] && Exec(INITIAL, run).nextId == 4
    ensures Registrations(run, "web") == 1 && AllHaveStartup(run, "web")
  {
    Snoc([], r);
    Snoc([r], RunTask(0, ok));
    Snoc([r] + [RunTask(0, ok)], RunTask(1, ok));
    run := [r] + [RunTask(0, ok)] + [RunTask(1, ok)];
    assert Exec(INITIAL, run).tasks == map[2 := LivenessLoop("web", false)];
    Snoc(run, RunTask(2, ok));
    run := run + [RunTask(2, ok)];
  }

  lemma BypassSteps(s: State, r: Event, ok: Check)
    requires r == Register("web", GATED) && ok == Passed("ok")
    requires s.tasks == map[2 := LivenessLoop("web", true)] && s.nextId == 4
    ensures var s' := Step(Step(Step(s, r), RunTask(4, ok)), RunTask(2, ok));
            && "web" in s'.results && !s'.results["web"].startupPassed
            && s'.results["web"].liveness.status == Healthy
  {
    var s1 := Step(s, r);
    assert s1.tasks[2] == LivenessLoop("web", true);
    assert 4 in Spawned(4, "web", GATED) && s1.tasks[4] == InsertTask("web", GATED);
    var s2 := Step(s1, RunTask(4, ok));
    assert s2.tasks[2] == LivenessLoop("web", true) && s2.results["web"] == InitialResult(GATED);
  }

  /** With two registrations the gate can be bypassed: a check begun under the first result is
      written into the second one, whose startup probe has not passed. */
  lemma GateNeedsOneRegistration() returns (run: seq<Event>)
    ensures Registrations(run, "web") == 2 && AllHaveStartup(run, "web")
    ensures var s := Exec(INITIAL, run);
            && "web" in s.results && !s.results["web"].startupPassed
            && s.results["web"].liveness.status == Healthy
  {
    var r, ok := Register("web", GATED), Passed("ok");
    var open := OpenGate(r, ok);
    BypassSteps(Exec(INITIAL, open), r, ok);
    Snoc(open, r);
    Snoc(open + [r], RunTask(4, ok));
    Snoc(open + [r] + [RunTask(4, ok)], RunTask(2, ok));
    run := open + [r] + [RunTask(4, ok)] + [RunTask(2, ok)];
  }
}
