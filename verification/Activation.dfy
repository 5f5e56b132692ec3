/**
System activation: a profile of numbered generations and the link to the running system.

Setting the profile appends a generation. Pruning keeps the newest generations, or deletes
those older than a bound; the current (newest) one always stays.
*/
module Activation {
  import opened Wrappers

  datatype Generation = Generation(path: string, born: nat)
  type Profile = map<nat, Generation>

  /** `runLink` is the target of /run/current-system, if it exists; `clock` never runs back. */
  datatype Host = Host(profile: Profile, runLink: Option<string>, clock: nat)

  datatype Retention = Retention(keepLast: Option<nat>, olderThan: Option<nat>)

  datatype ActivationError = PathNotFound | ActivateScriptNotFound | ProfileFailed | ActivationFailed
  datatype Outcome = Activated(previous: Option<Target>) | Err(error: ActivationError)

  datatype Action = Switch | Boot | Test

  /** What the file system and the commands will say during one activation. */
  datatype Link = Relinked | Kept | Lost
  datatype Env = Env(toplevelExists: bool, scriptExists: bool, profileOk: bool, scriptOk: bool, link: Link,
                     pruneOk: bool, elapsed: nat)

  // ---------- generation numbers ----------

  predicate IsNewest(p: Profile, m: nat) {
    if p == map[] then m == 0 else m in p && forall n :: n in p ==> n <= m
  }

  lemma {:induction false} NewestExists(p: Profile) returns (m: nat)
    ensures IsNewest(p, m)
    decreases |p|
  {
    if p == map[] {
      m := 0;
    } else {
      var n :| n in p;
      var rest := p - {n};
      assert rest.Keys == p.Keys - {n};
      var r := NewestExists(rest);
      m := if rest == map[] || r < n then n else r;
      assert forall i :: i in p ==> i == n || i in rest;
    }
  }

  ghost function Newest(p: Profile): (m: nat)
    ensures IsNewest(p, m)
  {
    assert exists m: nat :: IsNewest(p, m) by {
      var m := NewestExists(p);
    }
    var m: nat :| IsNewest(p, m);
    m
  }

  /** The store path of the generation just before the newest, when its link exists. */
  ghost function PreviousPath(p: Profile): Option<string> {
    if Newest(p) <= 1 then None
    else if Newest(p) - 1 in p then Some(p[Newest(p) - 1].path)
    else None
  }

  /** What the current-system lookup reads: a store path from /run/current-system or, when that
      link is missing, the profile's own link, which names a generation link and no store path. */
  datatype Target = Store(path: string) | GenerationLink(n: nat)

  ghost function CurrentSystemPath(h: Host): Option<Target> {
    if h.runLink.Some? then Some(Store(h.runLink.value))
    else if h.profile == map[] then None
    else Some(GenerationLink(Newest(h.profile)))
  }

  // ---------- the operations ----------

  ghost function Appended(h: Host, path: string): Host {
    h.(profile := h.profile[Newest(h.profile) + 1 := Generation(path, h.clock)])
  }

  /** How many generations are newer. */
  function NewerThan(p: Profile, n: nat): nat {
    |set m | m in p && m > n|
  }

  /** Whether a policy keeps a generation other than the newest. */
  predicate Keeps(p: Profile, policy: Retention, clock: nat, n: nat)
    requires n in p
  {
    && (policy.keepLast.Some? ==> NewerThan(p, n) < policy.keepLast.value)
    && (policy.olderThan.Some? ==> clock <= p[n].born + policy.olderThan.value)
  }

  ghost function Pruned(h: Host, policy: Retention): Host {
    var p := h.profile;
    h.(profile := map n | n in p && (n == Newest(p) || Keeps(p, policy, h.clock, n)) :: p[n])
  }

  ghost function Relink(h: Host, path: string, link: Link): Host {
    match link
    case Relinked => h.(runLink := Some(path))
    case Kept => h
    case Lost => h.(runLink := None)
  }

  ghost function Tick(h: Host, env: Env): Host {
    h.(clock := h.clock + env.elapsed)
  }

  /** The host once the activate script has succeeded. */
  ghost function Finished(h: Host, toplevel: string, retention: Option<Retention>, env: Env): Host {
    var linked := Relink(Appended(h, toplevel), toplevel, env.link);
    if retention.Some? && env.pruneOk then Pruned(linked, retention.value) else linked
  }

  /** One activation. The action is passed to the activate script and changes nothing else. */
  ghost function Activate(h0: Host, toplevel: string, action: Action, retention: Option<Retention>, env: Env):
    (Host, Outcome)
  {
    var h := Tick(h0, env);
    var current := CurrentSystemPath(h);
    if toplevel == "" || !env.toplevelExists then (h, Err(PathNotFound))
    else if !env.scriptExists then (h, Err(ActivateScriptNotFound))
    else if current == Some(Store(toplevel)) then (h, Activated(current))
    else if !env.profileOk then (h, Err(ProfileFailed))
    else if !env.scriptOk then (Appended(h, toplevel), Err(ActivationFailed))
    else (Finished(h, toplevel, retention, env), Activated(current))
  }

  ghost function Rollback(h: Host, env: Env): (Host, Outcome) {
    var previous := PreviousPath(h.profile);
    if previous.None? then (h, Err(ActivationFailed)) else Activate(h, previous.value, Switch, None, env)
  }

  // ---------- the agent's code ----------

  lemma NewestIs(p: Profile, m: nat)
    requires IsNewest(p, m)
    ensures Newest(p) == m
  {
  }

  class System {
    var profile: Profile
    var runLink: Option<string>
    var clock: nat

    constructor ()
      ensures Now() == Host(map[], None, 0)
    {
      profile, runLink, clock := map[], None, 0;
    }

    function Now(): Host
      reads this
    {
      Host(profile, runLink, clock)
    }

    /** Scans the generation links in directory order. */
    method CurrentGeneration() returns (r: Option<nat>)
      ensures r == if Newest(profile) > 0 then Some(Newest(profile)) else None
    {
      var maxGen := 0;
      var entries := profile.Keys;
      while entries != {}
        invariant entries <= profile.Keys
        invariant maxGen == 0 || maxGen in profile
        invariant forall n :: n in profile && n !in entries ==> n <= maxGen
        decreases entries
      {
        var n :| n in entries;
        maxGen := if n > maxGen then n else maxGen;
        entries := entries - {n};
      }
      assert profile != map[] ==> exists n :: n in profile by {
        if profile.Keys == {} {
          assert profile == map[];
        }
      }
      assert IsNewest(profile, maxGen) || (maxGen == 0 && forall n :: n in profile ==> n == 0);
      if profile != map[] && maxGen == 0 {
        var n :| n in profile;
        assert n == 0;
      }
      NewestIs(profile, maxGen);
      r := if maxGen > 0 then Some(maxGen) else None;
    }

    method PreviousGenerationPath() returns (r: Option<string>)
      ensures r == PreviousPath(profile)
    {
      var gen := CurrentGeneration();
      var current := if gen.Some? then gen.value else 0;
      if current <= 1 {
        return None;
      }
      if current - 1 in profile {
        return Some(profile[current - 1].path);
      }
      return None;
    }

    method CurrentPath() returns (r: Option<Target>)
      ensures r == CurrentSystemPath(Now())
    {
      if runLink.Some? {
        return Some(Store(runLink.value));
      }
      if profile == map[] {
        return None;
      }
      var gen := CurrentGeneration();
      return Some(GenerationLink(if gen.Some? then gen.value else 0));
    }

    method SetSystemProfile(toplevel: string)
      modifies this`profile
      ensures Now() == Appended(old(Now()), toplevel)
    {
      var gen := CurrentGeneration();
      var next := (if gen.Some? then gen.value else 0) + 1;
      profile := profile[next := Generation(toplevel, clock)];
    }

    method PruneGenerations(policy: Retention)
      modifies this`profile
      ensures Now() == Pruned(old(Now()), policy)
    {
      if policy.keepLast.None? && policy.olderThan.None? {
        assert Pruned(Now(), policy).profile == profile;
        return;
      }
      var gen := CurrentGeneration();
      var current := if gen.Some? then gen.value else 0;
      profile := map n | n in profile && (n == current || Keeps(profile, policy, clock, n)) :: profile[n];
    }

    method ActivateSystem(toplevel: string, action: Action, retention: Option<Retention>, env: Env) returns (r: Outcome)
      modifies this
      ensures (Now(), r) == Activate(old(Now()), toplevel, action, retention, env)
    {
      clock := clock + env.elapsed;
      if toplevel == "" {
        return Err(PathNotFound);
      }
      if !env.toplevelExists {
        return Err(PathNotFound);
      }
      if !env.scriptExists {
        return Err(ActivateScriptNotFound);
      }
      var current := CurrentPath();
      if current == Some(Store(toplevel)) {
        return Activated(current);
      }
      if !env.profileOk {
        return Err(ProfileFailed);
      }
      SetSystemProfile(toplevel);
      if !env.scriptOk {
        return Err(ActivationFailed);
      }
      match env.link {
        case Relinked => runLink := Some(toplevel);
        case Kept =>
        case Lost => runLink := None;
      }
      if retention.Some? && env.pruneOk {
        PruneGenerations(retention.value);
      }
      return Activated(current);
    }

    method RollbackSystem(env: Env) returns (r: Outcome)
      modifies this
      ensures (Now(), r) == Rollback(old(Now()), env)
    {
      var previous := PreviousGenerationPath();
      if previous.None? {
        return Err(ActivationFailed);
      }
      r := ActivateSystem(previous.value, Switch, None, env);
    }
  }

  // ---------- generations have no gaps ----------

  ghost predicate GapFree(p: Profile) {
    && (forall n :: n in p ==> n >= 1)
    && (forall a, b: nat :: a in p && a <= b <= Newest(p) ==> b in p)
  }

  /** Newer generations were born later. */
  ghost predicate Aged(h: Host) {
    forall a, b :: a in h.profile && b in h.profile && a <= b ==>
      h.profile[a].born <= h.profile[b].born <= h.clock
  }

  /** The numbers above `a` up to `b`. */
  function Above(a: nat, b: nat): (r: set<nat>)
    requires a <= b
    ensures |r| == b - a && forall m :: m in r <==> a < m <= b
    decreases b
  {
    if a == b then {} else Above(a, b - 1) + {b}
  }

  lemma NewerCount(p: Profile, n: nat)
    requires GapFree(p) && n in p
    ensures NewerThan(p, n) == Newest(p) - n
  {
    assert (set m | m in p && m > n) == Above(n, Newest(p));
  }

  lemma AppendNewest(h: Host, path: string)
    ensures var p := Appended(h, path).profile;
            && p != map[] && Newest(p) == Newest(h.profile) + 1 && Newest(p) in p && p[Newest(p)].path == path
            && (h.profile != map[] ==> Newest(h.profile) in p && p[Newest(h.profile)] == h.profile[Newest(h.profile)])
  {
    var p, m := Appended(h, path).profile, Newest(h.profile);
    assert m + 1 in p;
    forall n | n in p
      ensures n <= m + 1
    {
      assert n == m + 1 || n in h.profile;
      assert h.profile != map[] ==> IsNewest(h.profile, m);
    }
    NewestIs(p, m + 1);
  }

  lemma AppendKeeps(h: Host, path: string)
    requires GapFree(h.profile)
    ensures var h' := Appended(h, path);
            && GapFree(h'.profile) && (Aged(h) ==> Aged(h'))
            && Newest(h'.profile) == Newest(h.profile) + 1
            && h'.profile[Newest(h'.profile)].path == path
            && (h.profile != map[] ==> PreviousPath(h'.profile) == Some(h.profile[Newest(h.profile)].path))
  {
    AppendNewest(h, path);
  }

  lemma PruneKeeps(h: Host, policy: Retention)
    requires GapFree(h.profile) && (policy.olderThan.Some? ==> Aged(h))
    ensures var h' := Pruned(h, policy);
            GapFree(h'.profile) && (Aged(h) ==> Aged(h')) && Newest(h'.profile) == Newest(h.profile)
  {
    var p, p' := h.profile, Pruned(h, policy).profile;
    if p == map[] {
      assert p' == map[];
    } else {
      assert Newest(p) in p';
    }
    NewestIs(p', Newest(p));
    forall a, b: nat | a in p' && a <= b <= Newest(p)
      ensures b in p'
    {
      NewerCount(p, a);
      NewerCount(p, b);
    }
  }

  /** Exactly when pruning leaves a rollback target: the policy keeps at least two generations and
      the one before the newest is within the age bound. */
  lemma PruneKeepsTargetIff(h: Host, policy: Retention)
    requires GapFree(h.profile) && (policy.olderThan.Some? ==> Aged(h)) && PreviousPath(h.profile).Some?
    ensures PreviousPath(Pruned(h, policy).profile).Some? <==>
            && (policy.keepLast.Some? ==> policy.keepLast.value >= 2)
            && (policy.olderThan.Some? ==> h.clock <= h.profile[Newest(h.profile) - 1].born + policy.olderThan.value)
  {
    PruneKeeps(h, policy);
    NewerCount(h.profile, Newest(h.profile) - 1);
  }

  lemma BelowNewest(p: Profile, n: nat)
    requires GapFree(p) && n in p && n < Newest(p)
    ensures Newest(p) > 1 && Newest(p) - 1 in p
  {
  }

  /** Without gaps, having a rollback target is having two generations. */
  lemma TargetMeansTwo(p: Profile)
    requires GapFree(p)
    ensures PreviousPath(p).Some? <==> |p| >= 2
  {
    var m := Newest(p);
    if m > 1 && m - 1 in p {
      assert {m - 1, m} <= p.Keys;
      SubsetSize({m - 1, m}, p.Keys);
    } else {
      assert p.Keys <= {m} by {
        forall n | n in p
          ensures n == m
        {
          if n < m {
            BelowNewest(p, n);
          }
        }
      }
      SubsetSize(p.Keys, {m});
    }
    assert |p| == |p.Keys|;
  }

  lemma {:induction false} SubsetSize(a: set<nat>, b: set<nat>)
    requires a <= b
    ensures |a| <= |b|
  {
    if a != {} {
      var x :| x in a;
      SubsetSize(a - {x}, b - {x});
    }
  }

  // ---------- runs ----------

  datatype Event =
    | DoActivate(toplevel: string, action: Action, retention: Option<Retention>, env: Env)
    | DoRollback(env: Env)

  ghost function Step(h: Host, e: Event): Host {
    match e
    case DoActivate(toplevel, action, retention, env) => Activate(h, toplevel, action, retention, env).0
    case DoRollback(env) => Rollback(h, env).0
  }

  ghost function Exec(h: Host, run: seq<Event>): Host {
    if run == [] then h else Step(Exec(h, run[..|run| - 1]), run[|run| - 1])
  }

  /** A policy that keeps at least two generations and has no age bound. */
  predicate Gentle(e: Event) {
    e.DoActivate? && e.retention.Some? ==>
      e.retention.value.olderThan.None? && (e.retention.value.keepLast.Some? ==> e.retention.value.keepLast.value >= 2)
  }

  /** Only an age bound needs generations whose times are in order. */
  ghost predicate Sound(h: Host, retention: Option<Retention>) {
    GapFree(h.profile) && (retention.Some? && retention.value.olderThan.Some? ==> Aged(h))
  }

  function PolicyOf(e: Event): Option<Retention> {
    if e.DoActivate? then e.retention else None
  }

  lemma TickKeeps(h: Host, env: Env)
    ensures Aged(h) ==> Aged(Tick(h, env))
  {
  }

  lemma LinkedKeeps(h: Host, toplevel: string, link: Link)
    requires GapFree(h.profile)
    ensures var h' := Relink(Appended(h, toplevel), toplevel, link);
            GapFree(h'.profile) && (Aged(h) ==> Aged(h'))
  {
    AppendKeeps(h, toplevel);
  }

  lemma FinishKeeps(h: Host, toplevel: string, retention: Option<Retention>, env: Env)
    requires Sound(h, retention)
    ensures var h' := Finished(h, toplevel, retention, env);
            GapFree(h'.profile) && (Aged(h) ==> Aged(h'))
  {
    LinkedKeeps(h, toplevel, env.link);
    if retention.Some? {
      PruneKeeps(Relink(Appended(h, toplevel), toplevel, env.link), retention.value);
    }
  }

  lemma FinishKeepsTarget(h: Host, toplevel: string, retention: Option<Retention>, env: Env)
    requires GapFree(h.profile) && h.profile != map[] && Gentle(DoActivate(toplevel, Switch, retention, env))
    ensures PreviousPath(Finished(h, toplevel, retention, env).profile).Some?
  {
    AppendKeeps(h, toplevel);
    if retention.Some? {
      PruneKeepsTargetIff(Relink(Appended(h, toplevel), toplevel, env.link), retention.value);
    }
  }

  /** What an activation can leave. */
  lemma ActivateCases(h: Host, toplevel: string, action: Action, retention: Option<Retention>, env: Env)
    ensures var h', h1 := Activate(h, toplevel, action, retention, env).0, Tick(h, env);
            h' == h1 || h' == Appended(h1, toplevel) || h' == Finished(h1, toplevel, retention, env)
  {
  }

  lemma ActivateKeeps(h: Host, toplevel: string, action: Action, retention: Option<Retention>, env: Env)
    requires Sound(h, retention)
    ensures var h' := Activate(h, toplevel, action, retention, env).0;
            GapFree(h'.profile) && (Aged(h) ==> Aged(h'))
  {
    ActivateCases(h, toplevel, action, retention, env);
    TickKeeps(h, env);
    AppendKeeps(Tick(h, env), toplevel);
    FinishKeeps(Tick(h, env), toplevel, retention, env);
  }

  lemma ActivateKeepsTarget(h: Host, toplevel: string, action: Action, retention: Option<Retention>, env: Env)
    requires GapFree(h.profile) && PreviousPath(h.profile).Some?
    requires Gentle(DoActivate(toplevel, action, retention, env))
    ensures PreviousPath(Activate(h, toplevel, action, retention, env).0.profile).Some?
  {
    ActivateCases(h, toplevel, action, retention, env);
    AppendKeeps(Tick(h, env), toplevel);
    FinishKeepsTarget(Tick(h, env), toplevel, retention, env);
  }

  lemma StepKeeps(h: Host, e: Event)
    requires Sound(h, PolicyOf(e))
    ensures GapFree(Step(h, e).profile) && (Aged(h) ==> Aged(Step(h, e)))
    ensures Gentle(e) && PreviousPath(h.profile).Some? ==> PreviousPath(Step(h, e).profile).Some?
  {
    match e
    case DoActivate(toplevel, action, retention, env) =>
      ActivateKeeps(h, toplevel, action, retention, env);
      if Gentle(e) && PreviousPath(h.profile).Some? {
        ActivateKeepsTarget(h, toplevel, action, retention, env);
      }
    case DoRollback(env) =>
      if PreviousPath(h.profile).Some? {
        ActivateKeeps(h, PreviousPath(h.profile).value, Switch, None, env);
        ActivateKeepsTarget(h, PreviousPath(h.profile).value, Switch, None, env);
      }
  }

  ghost predicate AllGentle(run: seq<Event>) {
    forall i :: 0 <= i < |run| ==> Gentle(run[i])
  }

  /** In every run from a gap-free profile with its times in order, whatever fails and whatever is
      pruned, the surviving generations have no gaps. */
  lemma {:induction false} RunStaysSound(h: Host, run: seq<Event>)
    requires GapFree(h.profile) && Aged(h)
    ensures GapFree(Exec(h, run).profile) && Aged(Exec(h, run))
  {
    if run != [] {
      RunStaysSound(h, run[..|run| - 1]);
      StepKeeps(Exec(h, run[..|run| - 1]), run[|run| - 1]);
    }
  }

  /** In every run under gentle policies from a gap-free profile, the generations stay gap-free, and
      once two exist rollback always finds its target. */
  lemma {:induction false} RollbackAlwaysFinds(h: Host, run: seq<Event>)
    requires GapFree(h.profile) && AllGentle(run)
    ensures GapFree(Exec(h, run).profile)
    ensures |h.profile| >= 2 ==> PreviousPath(Exec(h, run).profile).Some?
  {
    if run == [] {
      TargetMeansTwo(h.profile);
    } else {
      RollbackAlwaysFinds(h, run[..|run| - 1]);
      StepKeeps(Exec(h, run[..|run| - 1]), run[|run| - 1]);
    }
  }

  // ---------- rolling back ----------

  /** The newest generation is `b`, the one before it `a`, and the system runs `b`. */
  ghost predicate At(h: Host, a: string, b: string) {
    && Newest(h.profile) >= 2 && Newest(h.profile) - 1 in h.profile
    && h.profile[Newest(h.profile) - 1].path == a && h.profile[Newest(h.profile)].path == b
    && h.runLink == Some(b)
  }

  /** Everything a rollback needs succeeds. */
  predicate AllGood(env: Env) {
    env.toplevelExists && env.scriptExists && env.profileOk && env.scriptOk && env.link.Relinked?
  }

  lemma RollbackSwaps(h: Host, a: string, b: string, env: Env)
    requires At(h, a, b) && a != b && a != "" && AllGood(env)
    ensures At(Rollback(h, env).0, b, a) && Rollback(h, env).1 == Activated(Some(Store(b)))
  {
    var h1 := Tick(h, env);
    AppendNewest(h1, a);
  }

  ghost function Rollbacks(h: Host, envs: seq<Env>): Host {
    if envs == [] then h else Rollback(Rollbacks(h, envs[..|envs| - 1]), envs[|envs| - 1]).0
  }

  function Alternate(even: string, odd: string, k: nat): string {
    if k % 2 == 0 then even else odd
  }

  /** Successive successful rollbacks alternate between the last two paths; they never reach an
      older generation. */
  lemma {:induction false} RollbacksAlternate(h: Host, a: string, b: string, envs: seq<Env>)
    requires At(h, a, b) && a != b && a != "" && b != "" && forall e :: e in envs ==> AllGood(e)
    ensures At(Rollbacks(h, envs), Alternate(a, b, |envs|), Alternate(b, a, |envs|))
  {
    if envs != [] {
      var before, env := envs[..|envs| - 1], envs[|envs| - 1];
      RollbacksAlternate(h, a, b, before);
      assert env in envs;
      RollbackSwaps(Rollbacks(h, before), Alternate(a, b, |before|), Alternate(b, a, |before|), env);
      Flip(a, b, |before|);
      Flip(b, a, |before|);
    }
  }

  lemma Flip(even: string, odd: string, k: nat)
    ensures Alternate(even, odd, k + 1) == Alternate(odd, even, k)
  {
  }

  /** Exactly when a rollback that succeeds also restores the profile: unless the system already
      runs the target while the newest generation is something else. */
  lemma RollbackRestoresIff(h: Host, env: Env)
    requires Rollback(h, env).1.Activated?
    ensures var target := PreviousPath(h.profile).value;
            var h' := Rollback(h, env).0;
            h'.profile != map[] &&
            (h'.profile[Newest(h'.profile)].path == target <==>
             h.runLink != Some(target) || h.profile[Newest(h.profile)].path == target)
  {
    var target := PreviousPath(h.profile).value;
    var h1 := Tick(h, env);
    AppendNewest(h1, target);
  }

  /** After an activation whose script fails, rolling back reports success and does nothing: the
      failed system stays the newest generation, the one the machine boots. */
  lemma RollbackAfterFailedScript(h: Host, b: string, broken: string, action: Action, retention: Option<Retention>,
                                  env: Env, env': Env)
    requires Newest(h.profile) >= 1 && h.profile[Newest(h.profile)].path == b && h.runLink == Some(b)
    requires broken != "" && broken != b && b != ""
    requires env.toplevelExists && env.scriptExists && env.profileOk && !env.scriptOk && AllGood(env')
    ensures var failed := Activate(h, broken, action, retention, env).0;
            var (h', r) := Rollback(failed, env');
            && r == Activated(Some(Store(b))) && h'.profile == failed.profile
            && h'.profile[Newest(h'.profile)].path == broken
  {
    var h1 := Tick(h, env);
    AppendNewest(h1, broken);
  }

  /** The exits of an activation that leave the profile alone: the guards before it is set. */
  ghost predicate LeavesProfile(h: Host, toplevel: string, env: Env) {
    || toplevel == "" || !env.toplevelExists || !env.scriptExists || !env.profileOk
    || h.runLink == Some(toplevel)
  }

  lemma PruneKeepsNewest(h: Host, policy: Retention)
    requires h.profile != map[]
    ensures var p := Pruned(h, policy).profile;
            p != map[] && Newest(p) == Newest(h.profile) && p[Newest(p)] == h.profile[Newest(h.profile)]
  {
    var p := Pruned(h, policy).profile;
    assert Newest(h.profile) in p;
    NewestIs(p, Newest(h.profile));
  }

  /** Exactly when an activation leaves the newest generation in place, for every action, policy and
      outcome of its steps; in every other case its path becomes the newest generation, also when
      the activate script fails. */
  lemma NewestStaysIff(h: Host, toplevel: string, action: Action, retention: Option<Retention>, env: Env)
    ensures var p := Activate(h, toplevel, action, retention, env).0.profile;
            && (Newest(p) == Newest(h.profile) <==> LeavesProfile(h, toplevel, env))
            && (LeavesProfile(h, toplevel, env) ==> p == h.profile)
            && (!LeavesProfile(h, toplevel, env) ==>
                  p != map[] && Newest(p) == Newest(h.profile) + 1 && p[Newest(p)].path == toplevel)
  {
    var h1 := Tick(h, env);
    AppendNewest(h1, toplevel);
    if retention.Some? {
      PruneKeepsNewest(Relink(Appended(h1, toplevel), toplevel, env.link), retention.value);
    }
  }

  /** A test activation is documented to leave the boot default alone. It does so exactly when it
      stops before the profile is set, like any other action. */
  lemma TestBecomesNewest(h: Host, toplevel: string, retention: Option<Retention>, env: Env)
    ensures var p := Activate(h, toplevel, Test, retention, env).0.profile;
            && (Newest(p) == Newest(h.profile) <==> LeavesProfile(h, toplevel, env))
            && p == Activate(h, toplevel, Switch, retention, env).0.profile
  {
    NewestStaysIff(h, toplevel, Test, retention, env);
  }

  // ---------- what survives ----------

  /** The activation gets as far as pruning. */
  ghost predicate Prunes(h: Host, toplevel: string, retention: Option<Retention>, env: Env) {
    !LeavesProfile(h, toplevel, env) && env.scriptOk && retention.Some? && env.pruneOk
  }

  /** Within the bounds of a policy: fewer than the kept number of generations are newer, and the age, at
      the time the activation prunes, is within the bound. */
  predicate Within(policy: Retention, newest: nat, now: nat, n: nat, born: nat) {
    && (policy.keepLast.Some? ==> newest - n < policy.keepLast.value)
    && (policy.olderThan.Some? ==> now - born <= policy.olderThan.value)
  }

  lemma PrunedIs(h: Host, policy: Retention, n: nat)
    requires GapFree(h.profile) && n in h.profile
    ensures n in Pruned(h, policy).profile <==>
            n == Newest(h.profile) || Within(policy, Newest(h.profile), h.clock, n, h.profile[n].born)
  {
    NewerCount(h.profile, n);
  }

  lemma AppendedIs(h: Host, path: string, n: nat)
    requires GapFree(h.profile)
    ensures var p, newest := Appended(h, path).profile, Newest(h.profile) + 1;
            && GapFree(p) && Newest(p) == newest && newest in p && p[newest] == Generation(path, h.clock)
            && (n != newest ==> (n in p <==> n in h.profile))
            && (n in h.profile ==> n < newest && n in p && p[n] == h.profile[n])
  {
    AppendKeeps(h, path);
    assert n in h.profile ==> n <= Newest(h.profile);
  }

  lemma FinishedIs(h: Host, toplevel: string, retention: Option<Retention>, env: Env, n: nat)
    requires GapFree(h.profile)
    ensures var p, newest := Finished(h, toplevel, retention, env).profile, Newest(h.profile) + 1;
            && newest in p && p[newest] == Generation(toplevel, h.clock)
            && (n != newest ==>
                  (n in p <==>
                   && n in h.profile
                   && (retention.Some? && env.pruneOk ==>
                         Within(retention.value, newest, h.clock, n, h.profile[n].born))))
            && (n in p && n in h.profile ==> p[n] == h.profile[n])
  {
    AppendedIs(h, toplevel, n);
    var linked := Relink(Appended(h, toplevel), toplevel, env.link);
    if retention.Some? && n in linked.profile {
      PrunedIs(linked, retention.value, n);
    }
  }

  /** Exactly which generations an activation leaves, on a gap-free profile. One that stops early leaves
      them all. Otherwise it adds one above the newest, and if it prunes, an earlier generation survives
      if and only if it is within the policy. No surviving generation changes. */
  lemma SurvivesIff(h: Host, toplevel: string, action: Action, retention: Option<Retention>, env: Env, n: nat)
    requires GapFree(h.profile)
    ensures var p := Activate(h, toplevel, action, retention, env).0.profile;
            var newest, now := Newest(h.profile) + 1, h.clock + env.elapsed;
            && (LeavesProfile(h, toplevel, env) ==> p == h.profile)
            && (!LeavesProfile(h, toplevel, env) ==> newest in p && p[newest] == Generation(toplevel, now))
            && (!LeavesProfile(h, toplevel, env) && n != newest ==>
                  (n in p <==>
                   && n in h.profile
                   && (Prunes(h, toplevel, retention, env) ==>
                         Within(retention.value, newest, now, n, h.profile[n].born))))
            && (n in p && n in h.profile ==> p[n] == h.profile[n])
  {
    AppendedIs(Tick(h, env), toplevel, n);
    FinishedIs(Tick(h, env), toplevel, retention, env, n);
  }

  /** So a policy with a count and no age bound leaves exactly the last ones: as many as it keeps, at
      least the new one, and no more than there are. */
  lemma LastOnesRemain(h: Host, toplevel: string, action: Action, keep: nat, env: Env)
    requires GapFree(h.profile) && Prunes(h, toplevel, Some(Retention(Some(keep), None)), env)
    ensures var p := Activate(h, toplevel, action, Some(Retention(Some(keep), None)), env).0.profile;
            var newest := Newest(h.profile) + 1;
            && (forall n: nat :: n in p <==> n == newest || (n in h.profile && newest - n < keep))
            && |p| <= if keep > 1 then keep else 1
  {
    var p := Activate(h, toplevel, action, Some(Retention(Some(keep), None)), env).0.profile;
    var newest, size := Newest(h.profile) + 1, if keep > 1 then keep else 1;
    forall n: nat
      ensures n in p <==> n == newest || (n in h.profile && newest - n < keep)
    {
      SurvivesIff(h, toplevel, action, Some(Retention(Some(keep), None)), env, n);
    }
    CountAbove(h, p, newest, size);
  }

  lemma CountAbove(h: Host, p: Profile, newest: nat, size: nat)
    requires GapFree(h.profile) && newest == Newest(h.profile) + 1 && size >= 1
    requires forall n: nat :: n in p ==> n == newest || (n in h.profile && newest - n < size)
    ensures |p| <= size
  {
    var low := if newest > size then newest - size else 0;
    assert p.Keys <= Above(low, newest);
    SubsetSize(p.Keys, Above(low, newest));
    assert |p| == |p.Keys|;
  }

  lemma OneMoreAtMost(h: Host, e: Event)
    requires Sound(h, PolicyOf(e))
    ensures |Step(h, e).profile| <= |h.profile| + 1
  {
    match e
    case DoActivate(toplevel, action, retention, env) => ActivatedSize(h, toplevel, action, retention, env);
    case DoRollback(env) =>
      if PreviousPath(h.profile).Some? {
        ActivatedSize(h, PreviousPath(h.profile).value, Switch, None, env);
      }
  }

  lemma ActivatedSize(h: Host, toplevel: string, action: Action, retention: Option<Retention>, env: Env)
    requires GapFree(h.profile)
    ensures |Activate(h, toplevel, action, retention, env).0.profile| <= |h.profile| + 1
  {
    var p, newest := Activate(h, toplevel, action, retention, env).0.profile, Newest(h.profile) + 1;
    forall n | n in p
      ensures n in h.profile.Keys + {newest}
    {
      SurvivesIff(h, toplevel, action, retention, env, n);
    }
    SubsetSize(p.Keys, h.profile.Keys + {newest});
    assert |p| == |p.Keys| && |h.profile| == |h.profile.Keys|;
  }

  /** Over whole runs: after an activation that prunes by count, the profile holds at most the kept number
      plus one generation for each event since, however many came before. */
  lemma {:induction false} ProfileBounded(h: Host, run: seq<Event>, i: nat, keep: nat)
    requires GapFree(h.profile) && Aged(h) && i < |run| && run[i].DoActivate?
    requires run[i].retention == Some(Retention(Some(keep), None))
    requires Prunes(Exec(h, run[..i]), run[i].toplevel, run[i].retention, run[i].env)
    ensures |Exec(h, run).profile| <= (if keep > 1 then keep else 1) + |run| - 1 - i
  {
    var before, e := run[..|run| - 1], run[|run| - 1];
    RunStaysSound(h, before);
    if i == |run| - 1 {
      assert run[..i] == before;
      LastOnesRemain(Exec(h, before), e.toplevel, e.action, keep, e.env);
    } else {
      assert before[..i] == run[..i];
      ProfileBounded(h, before, i, keep);
      OneMoreAtMost(Exec(h, before), e);
    }
  }

  // ---------- outcomes ----------

  /** Which error an activation reports, by the first check that fails, and what it does to the link to
      the running system: only a successful script reaches it. */
  lemma OutcomeIff(h: Host, toplevel: string, action: Action, retention: Option<Retention>, env: Env)
    ensures var (h', r) := Activate(h, toplevel, action, retention, env);
            var there := toplevel != "" && env.toplevelExists;
            var current := h.runLink == Some(toplevel);
            && (r == Err(PathNotFound) <==> !there)
            && (r == Err(ActivateScriptNotFound) <==> there && !env.scriptExists)
            && (r == Err(ProfileFailed) <==> there && env.scriptExists && !current && !env.profileOk)
            && (r == Err(ActivationFailed) <==> there && env.scriptExists && !current && env.profileOk && !env.scriptOk)
            && (r.Activated? ==>
                  r.previous == if h.runLink.Some? then Some(Store(h.runLink.value))
                                else if h.profile == map[] then None
                                else Some(GenerationLink(Newest(h.profile))))
            && h'.runLink == (if !r.Activated? || current || env.link.Kept? then h.runLink
                              else if env.link.Lost? then None else Some(toplevel))
  {
    if retention.Some? {
      assert Pruned(Relink(Appended(Tick(h, env), toplevel), toplevel, env.link), retention.value).runLink ==
        Relink(Appended(Tick(h, env), toplevel), toplevel, env.link).runLink;
    }
  }

  /** A rollback deletes no generation. */
  lemma RollbackNeverPrunes(h: Host, env: Env, n: nat)
    requires GapFree(h.profile) && n in h.profile
    ensures n in Rollback(h, env).0.profile && Rollback(h, env).0.profile[n] == h.profile[n]
  {
    if PreviousPath(h.profile).Some? {
      SurvivesIff(h, PreviousPath(h.profile).value, Switch, None, env, n);
    }
  }
}
