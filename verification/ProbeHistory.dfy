/**
The hysteresis of one health probe: the counters and status that the agent keeps, and
what they mean in terms of the whole sequence of checks.

The counters are 32 bits wide and wrap, so a probe that has passed 2^32 times in a row
has a zero counter; the status is shown to be unaffected.
*/
module ProbeHistory {
  const U32_SIZE := 0x1_0000_0000
  type u32 = x: int | 0 <= x < U32_SIZE

  datatype Check = Passed(msg: string) | Failed(msg: string)
  datatype Status = Unknown | Healthy | Unhealthy
  datatype Probe = Probe(status: Status, message: string, success: u32, failure: u32)

  const INITIAL_PROBE := Probe(Unknown, "initializing", 0, 0)

  /** One application of a check to the stored counters and status. */
  function ApplyCheck(p: Probe, check: Check, healthy: u32, unhealthy: u32): Probe {
    match check
    case Passed(msg) =>
      var success := (p.success + 1) % U32_SIZE;
      Probe(if success >= healthy then Healthy else p.status, msg, success, 0)
    case Failed(msg) =>
      var failure := (p.failure + 1) % U32_SIZE;
      Probe(if failure >= unhealthy then Unhealthy else p.status, msg, 0, failure)
  }

  // ---------- the history specification ----------

  /** The `k` checks just before position `end` all had the given outcome. */
  ghost predicate Streak(h: seq<Check>, end: int, pass: bool, k: nat) {
    k <= end <= |h| && forall j :: end - k <= j < end ==> h[j].Passed? == pass
  }

  /** Some threshold-length streak of outcome `pass` was completed, and no
      threshold-length streak of the opposite outcome has been completed since. */
  ghost predicate CompletedLast(h: seq<Check>, pass: bool, k: nat, opposite: nat) {
    exists i :: Streak(h, i, pass, k) && NoneSince(h, i, !pass, opposite)
  }

  ghost predicate NoneSince(h: seq<Check>, i: int, pass: bool, k: nat) {
    forall j :: i < j <= |h| ==> !Streak(h, j, pass, k)
  }

  ghost function StatusOf(h: seq<Check>, healthy: nat, unhealthy: nat): Status {
    if CompletedLast(h, true, healthy, unhealthy) then Healthy
    else if CompletedLast(h, false, unhealthy, healthy) then Unhealthy
    else Unknown
  }

  /** Length of the unbroken run of the given outcome at the end of the history. */
  ghost function Run(h: seq<Check>, pass: bool): nat {
    if h == [] || h[|h| - 1].Passed? != pass then 0 else 1 + Run(h[..|h| - 1], pass)
  }

  ghost predicate Refines(p: Probe, h: seq<Check>, healthy: nat, unhealthy: nat) {
    && p.success == Run(h, true) % U32_SIZE
    && p.failure == Run(h, false) % U32_SIZE
    && p.message == (if h == [] then "initializing" else h[|h| - 1].msg)
    && p.status == StatusOf(h, healthy, unhealthy)
  }

  // ---------- facts about streaks ----------

  lemma {:induction false} RunIsLongestStreak(h: seq<Check>, pass: bool, k: nat)
    ensures Run(h, pass) <= |h|
    ensures Streak(h, |h|, pass, k) <==> k <= Run(h, pass)
  {
    if h != [] {
      var g := h[..|h| - 1];
      RunIsLongestStreak(g, pass, if k == 0 then 0 else k - 1);
      if k > 0 {
        assert Streak(h, |h|, pass, k) <==> h[|h| - 1].Passed? == pass && Streak(g, |g|, pass, k - 1);
      }
    }
  }

  lemma StreakPrefix(h: seq<Check>, c: Check, end: nat, pass: bool, k: nat)
    requires end <= |h|
    ensures Streak(h + [c], end, pass, k) <==> Streak(h, end, pass, k)
  {
    var h' := h + [c];
    assert forall j :: 0 <= j < end ==> h'[j] == h[j];
    if Streak(h', end, pass, k) {
      assert forall j :: end - k <= j < end ==> h[j] == h'[j];
    }
  }

  /** A streak completed now decides the status. */
  lemma DecidingCheck(h: seq<Check>, c: Check, healthy: nat, unhealthy: nat)
    requires 0 < healthy && 0 < unhealthy
    requires Streak(h + [c], |h| + 1, c.Passed?, if c.Passed? then healthy else unhealthy)
    ensures StatusOf(h + [c], healthy, unhealthy) == if c.Passed? then Healthy else Unhealthy
  {
    var h' := h + [c];
    if c.Failed? {
      assert forall i :: NoneSince(h', i, false, unhealthy) ==> i >= |h'|;
      assert !Streak(h', |h'|, true, healthy) by {
        assert !h'[|h'| - 1].Passed?;
      }
      assert !CompletedLast(h', true, healthy, unhealthy);
      assert CompletedLast(h', false, unhealthy, healthy);
    } else {
      assert CompletedLast(h', true, healthy, unhealthy);
    }
  }

  lemma CompletedLastPersists(h: seq<Check>, c: Check, pass: bool, k: nat, opposite: nat)
    requires !Streak(h + [c], |h| + 1, pass, k) && !Streak(h + [c], |h| + 1, !pass, opposite)
    ensures CompletedLast(h + [c], pass, k, opposite) <==> CompletedLast(h, pass, k, opposite)
  {
    var h' := h + [c];
    forall end: nat, v: bool, n: nat | end <= |h|
      ensures Streak(h', end, v, n) <==> Streak(h, end, v, n)
    {
      StreakPrefix(h, c, end, v, n);
    }
    if CompletedLast(h', pass, k, opposite) {
      var i :| Streak(h', i, pass, k) && NoneSince(h', i, !pass, opposite);
      assert i <= |h|;
      assert Streak(h, i, pass, k);
    }
    if CompletedLast(h, pass, k, opposite) {
      var i :| Streak(h, i, pass, k) && NoneSince(h, i, !pass, opposite);
      assert Streak(h', i, pass, k);
    }
  }

  /** How one more check moves the specified status. */
  lemma StatusStep(h: seq<Check>, c: Check, healthy: nat, unhealthy: nat)
    requires 0 < healthy && 0 < unhealthy
    ensures StatusOf(h + [c], healthy, unhealthy) ==
            if c.Passed? && Run(h, true) + 1 >= healthy then Healthy
            else if c.Failed? && Run(h, false) + 1 >= unhealthy then Unhealthy
            else StatusOf(h, healthy, unhealthy)
  {
    RunExtends(h, c);
    var h' := h + [c];
    RunIsLongestStreak(h', true, healthy);
    RunIsLongestStreak(h', false, unhealthy);
    if Streak(h', |h'|, true, healthy) || Streak(h', |h'|, false, unhealthy) {
      DecidingCheck(h, c, healthy, unhealthy);
    } else {
      CompletedLastPersists(h, c, true, healthy, unhealthy);
      CompletedLastPersists(h, c, false, unhealthy, healthy);
    }
  }

  lemma RunExtends(h: seq<Check>, c: Check)
    ensures Run(h + [c], c.Passed?) == Run(h, c.Passed?) + 1
    ensures Run(h + [c], !c.Passed?) == 0
  {
    assert (h + [c])[..|h|] == h;
  }

  /** A long enough run at the end of the history has already decided the status. */
  lemma LongRunDecided(h: seq<Check>, pass: bool, healthy: nat, unhealthy: nat)
    requires 0 < healthy && 0 < unhealthy
    requires Run(h, pass) >= if pass then healthy else unhealthy
    ensures StatusOf(h, healthy, unhealthy) == if pass then Healthy else Unhealthy
  {
    var g, c := h[..|h| - 1], h[|h| - 1];
    assert h == g + [c];
    StatusStep(g, c, healthy, unhealthy);
  }

  // ---------- refinement ----------

  lemma InitialRefines(healthy: nat, unhealthy: nat)
    requires 0 < healthy && 0 < unhealthy
    ensures Refines(INITIAL_PROBE, [], healthy, unhealthy)
  {
    assert forall i, pass, k: nat :: 0 < k ==> !Streak([], i, pass, k);
  }

  lemma WrappingIncrement(n: nat)
    ensures (n % U32_SIZE + 1) % U32_SIZE == (n + 1) % U32_SIZE
    ensures n + 1 < U32_SIZE ==> (n + 1) % U32_SIZE == n + 1
  {
  }

  /** The wrapping counters keep refining the history, check after check. */
  lemma CheckRefines(p: Probe, h: seq<Check>, c: Check, healthy: u32, unhealthy: u32)
    requires 0 < healthy && 0 < unhealthy
    requires Refines(p, h, healthy, unhealthy)
    ensures Refines(ApplyCheck(p, c, healthy, unhealthy), h + [c], healthy, unhealthy)
  {
    RunExtends(h, c);
    StatusStep(h, c, healthy, unhealthy);
    var pass := c.Passed?;
    WrappingIncrement(Run(h, pass));
    if Run(h, pass) >= if pass then healthy else unhealthy {
      // However the counter wraps, the status was decided before this check.
      LongRunDecided(h, pass, healthy, unhealthy);
    }
  }

  /** The stored status after any sequence of checks, starting from a fresh result. */
  function ApplyAll(h: seq<Check>, healthy: u32, unhealthy: u32): Probe {
    if h == [] then INITIAL_PROBE
    else ApplyCheck(ApplyAll(h[..|h| - 1], healthy, unhealthy), h[|h| - 1], healthy, unhealthy)
  }

  lemma {:induction false} CountersRefineHistory(h: seq<Check>, healthy: u32, unhealthy: u32)
    requires 0 < healthy && 0 < unhealthy
    ensures Refines(ApplyAll(h, healthy, unhealthy), h, healthy, unhealthy)
  {
    if h == [] {
      InitialRefines(healthy, unhealthy);
    } else {
      var g := h[..|h| - 1];
      CountersRefineHistory(g, healthy, unhealthy);
      CheckRefines(ApplyAll(g, healthy, unhealthy), g, h[|h| - 1], healthy, unhealthy);
      assert g + [h[|h| - 1]] == h;
    }
  }

  /** Unknown means exactly that no threshold-length streak was ever completed. */
  lemma {:induction false} UnknownMeansNoStreak(h: seq<Check>, healthy: nat, unhealthy: nat)
    requires 0 < healthy && 0 < unhealthy
    ensures StatusOf(h, healthy, unhealthy) == Unknown <==>
            forall i :: 0 <= i <= |h| ==> !Streak(h, i, true, healthy) && !Streak(h, i, false, unhealthy)
  {
    if h == [] {
      InitialRefines(healthy, unhealthy);
    } else {
      var g, c := h[..|h| - 1], h[|h| - 1];
      assert h == g + [c];
      UnknownMeansNoStreak(g, healthy, unhealthy);
      StatusStep(g, c, healthy, unhealthy);
      RunExtends(g, c);
      RunIsLongestStreak(h, true, healthy);
      RunIsLongestStreak(h, false, unhealthy);
      forall i: nat, pass: bool, k: nat | i <= |g|
        ensures Streak(h, i, pass, k) <==> Streak(g, i, pass, k)
      {
        StreakPrefix(g, c, i, pass, k);
      }
      assert StatusOf(g, healthy, unhealthy) != Unknown ==>
        exists i :: 0 <= i <= |g| && (Streak(g, i, true, healthy) || Streak(g, i, false, unhealthy));
    }
  }

  // ---------- stability ----------

  /** How often the status changed while the history was being recorded. */
  ghost function Transitions(h: seq<Check>, healthy: nat, unhealthy: nat): nat {
    if h == [] then 0
    else
      var g := h[..|h| - 1];
      Transitions(g, healthy, unhealthy) +
      if StatusOf(h, healthy, unhealthy) != StatusOf(g, healthy, unhealthy) then 1 else 0
  }

  /** Every status change is decided by a full unbroken streak ending at that check. */
  lemma ChangeHasStreak(h: seq<Check>, c: Check, healthy: nat, unhealthy: nat)
    requires 0 < healthy && 0 < unhealthy
    requires StatusOf(h + [c], healthy, unhealthy) != StatusOf(h, healthy, unhealthy)
    ensures Streak(h + [c], |h| + 1, c.Passed?, if c.Passed? then healthy else unhealthy)
    ensures StatusOf(h + [c], healthy, unhealthy) == if c.Passed? then Healthy else Unhealthy
  {
    StatusStep(h, c, healthy, unhealthy);
    RunExtends(h, c);
    RunIsLongestStreak(h + [c], c.Passed?, if c.Passed? then healthy else unhealthy);
  }

  /** The run at the end of the history that could still overturn the status. */
  ghost function Pending(h: seq<Check>, healthy: nat, unhealthy: nat): nat {
    match StatusOf(h, healthy, unhealthy)
    case Unknown => Run(h, true) + Run(h, false)
    case Healthy => Run(h, false)
    case Unhealthy => Run(h, true)
  }

  lemma PendingStep(g: seq<Check>, c: Check, healthy: nat, unhealthy: nat, m: nat)
    requires 0 < healthy && 0 < unhealthy && m <= healthy && m <= unhealthy
    ensures StatusOf(g + [c], healthy, unhealthy) == StatusOf(g, healthy, unhealthy) ==>
              Pending(g + [c], healthy, unhealthy) <= Pending(g, healthy, unhealthy) + 1
    ensures StatusOf(g + [c], healthy, unhealthy) != StatusOf(g, healthy, unhealthy) ==>
              Pending(g + [c], healthy, unhealthy) == 0 && m <= Pending(g, healthy, unhealthy) + 1
  {
    StatusStep(g, c, healthy, unhealthy);
    RunExtends(g, c);
  }

  lemma OneMore(t: nat, m: nat)
    ensures 0 * m == 0 && (t + 1) * m == t * m + m
  {
  }

  /** Flapping is bounded: each change costs at least the smaller threshold in checks. */
  lemma {:induction false} FlapBound(h: seq<Check>, healthy: nat, unhealthy: nat, m: nat)
    requires 0 < healthy && 0 < unhealthy && m <= healthy && m <= unhealthy
    ensures Transitions(h, healthy, unhealthy) * m + Pending(h, healthy, unhealthy) <= |h|
  {
    if h == [] {
      InitialRefines(healthy, unhealthy);
      OneMore(0, m);
    } else {
      var g, c := h[..|h| - 1], h[|h| - 1];
      FlapBound(g, healthy, unhealthy, m);
      assert h == g + [c];
      PendingStep(g, c, healthy, unhealthy, m);
      OneMore(Transitions(g, healthy, unhealthy), m);
    }
  }
}
