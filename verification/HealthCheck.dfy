/** One reconcile of a MachineHealthCheck, on the machines it watches. */
module HealthCheck {
  import opened HealthCheckSpec

  datatype Condition = Absent | IsTrue | IsFalse | Unknown

  /** The two conditions this controller writes. */
  datatype Conditions = Conditions(checkSucceeded: Condition, ownerRemediated: Condition)

  /** A machine under check: the conditions as the reconcile holds them, and as the API server stores them. */
  class CheckedMachine {
    const name: string
    const paused: bool
    var held: Conditions
    var stored: Conditions

    constructor (name: string, paused: bool, stored: Conditions)
      ensures this.name == name && this.paused == paused && this.stored == this.held == stored
    {
      this.name, this.paused := name, paused;
      this.stored, held := stored, stored;
    }
  }

  method MinDuration(durations: seq<int>) returns (m: int)
    ensures m == MinOf(durations)
  {
    if |durations| == 0 {
      return 0;
    }
    m := durations[0];
    for i := 1 to |durations|
      invariant m in durations
      invariant forall j | 0 <= j < i :: m <= durations[j]
    {
      if durations[i] < m {
        m := durations[i];
      }
    }
  }

  lemma {:induction false} DeadlinesSplit(us: seq<UnhealthyCondition>, node: seq<NodeCondition>, i: nat)
    requires i < |us|
    ensures NodeDeadlines(us[..i + 1], node) == NodeDeadlines(us[..i], node)
      + if Matches(us[i], node) then [FindCondition(node, us[i].kind).value.since + us[i].timeout] else []
  {
    hide Matches, FindCondition;
    assert us[..i + 1][1..] == us[1..][..i];
    if i > 0 {
      DeadlinesSplit(us[1..], node, i - 1);
      assert us[..i][1..] == us[1..][..i - 1];
    }
  }

  /** The loop of needsRemediation over the configured conditions, for a target with a node. */
  method CheckConditions(us: seq<UnhealthyCondition>, node: seq<NodeCondition>, now: int)
    returns (needs: bool, next: int)
    ensures needs == Passed(NodeDeadlines(us, node), now)
    ensures var ds := NodeDeadlines(us, node); !needs ==> next == if ds == [] then 0 else MinOf(ds) - now + SECOND
  {
    var checks: seq<int> := [];
    ghost var ds: seq<int> := [];
    for i := 0 to |us|
      invariant ds == NodeDeadlines(us[..i], node) && !Passed(ds, now)
      invariant |checks| == |ds| && forall j | 0 <= j < |ds| :: checks[j] == ds[j] - now + SECOND
    {
      DeadlinesSplit(us, node, i);
      var found := FindCondition(node, us[i].kind);
      if found.None? || found.value.status != us[i].status {
        continue;
      }
      var deadline := found.value.since + us[i].timeout;
      ds := ds + [deadline];
      if deadline < now {
        assert ds[|ds| - 1] == deadline;
        StaysPassed(us, node, i + 1, now);
        return true, 0;
      }
      var check := us[i].timeout - (now - found.value.since) + SECOND;
      if check > 0 {
        checks := checks + [check];
      }
    }
    assert us[..|us|] == us;
    var min := MinDuration(checks);
    ShiftedMin(ds, checks, now);
    return false, min;
  }

  lemma {:induction false} StaysPassed(us: seq<UnhealthyCondition>, node: seq<NodeCondition>, i: nat, now: int)
    requires i <= |us| && Passed(NodeDeadlines(us[..i], node), now)
    ensures Passed(NodeDeadlines(us, node), now)
    decreases |us| - i
  {
    if i == |us| {
      assert us[..i] == us;
    } else {
      DeadlinesSplit(us, node, i);
      var a, b := NodeDeadlines(us[..i], node), NodeDeadlines(us[..i + 1], node);
      var j :| 0 <= j < |a| && a[j] < now;
      assert b[j] == a[j];
      StaysPassed(us, node, i + 1, now);
    }
  }

  lemma ShiftedMin(ds: seq<int>, checks: seq<int>, now: int)
    requires |checks| == |ds| && forall j | 0 <= j < |ds| :: checks[j] == ds[j] - now + SECOND
    ensures MinOf(checks) == if ds == [] then 0 else MinOf(ds) - now + SECOND
  {
    if ds != [] {
      var i :| 0 <= i < |ds| && ds[i] == MinOf(ds);
      var j :| 0 <= j < |ds| && checks[j] == MinOf(checks);
      assert checks[i] == ds[i] - now + SECOND && checks[j] == ds[j] - now + SECOND;
    }
  }

  /** needsRemediation; it marks the condition of a machine that fails. */
  method NeedsRemediation(m: CheckedMachine, t: Target, c: Config, now: int) returns (needs: bool, next: int)
    modifies m`held
    ensures needs == Fails(t, c, now)
    ensures !needs ==> next == NextCheck(t, c, now)
    ensures m.held == if needs then old(m.held).(checkSucceeded := IsFalse) else old(m.held)
  {
    if t.failureReason || t.failureMessage || t.nodeMissing {
      m.held := m.held.(checkSucceeded := IsFalse);
      return true, 0;
    }
    if c.controlPlaneSince.None? || c.infraReadySince.None? {
      return false, 0;
    }
    if t.node.None? {
      if c.startupTimeout == 0 {
        return false, 0;
      }
      var since := t.created;
      if c.controlPlaneSince.value > since {
        since := c.controlPlaneSince.value;
      }
      if c.infraReadySince.value > since {
        since := c.infraReadySince.value;
      }
      assert Deadlines(t, c) == [since + c.startupTimeout];
      if since + c.startupTimeout < now {
        assert Deadlines(t, c)[0] < now;
        m.held := m.held.(checkSucceeded := IsFalse);
        return true, 0;
      }
      return false, c.startupTimeout - (now - since) + SECOND;
    }
    needs, next := CheckConditions(c.unhealthyConditions, t.node.value, now);
    if needs {
      m.held := m.held.(checkSucceeded := IsFalse);
    }
  }

  // ---------------------------------------------------------------- all targets

  /** Passing, with nothing pending, alive and with a node. */
  predicate IsHealthy(t: Target, c: Config, now: int) {
    !Fails(t, c, now) && NextCheck(t, c, now) <= 0 && !t.deleting && t.node.Some?
  }

  /** The machines whose targets fail, in order. */
  function FailingOnes(ms: seq<CheckedMachine>, ts: seq<Target>, c: Config, now: int): seq<CheckedMachine>
    requires |ms| == |ts|
  {
    if ts == [] then []
    else FailingOnes(ms[..|ms| - 1], ts[..|ts| - 1], c, now)
         + (if Fails(ts[|ts| - 1], c, now) then [ms[|ms| - 1]] else [])
  }

  function HealthyOnes(ms: seq<CheckedMachine>, ts: seq<Target>, c: Config, now: int): seq<CheckedMachine>
    requires |ms| == |ts|
  {
    if ts == [] then []
    else HealthyOnes(ms[..|ms| - 1], ts[..|ts| - 1], c, now)
         + (if IsHealthy(ts[|ts| - 1], c, now) then [ms[|ms| - 1]] else [])
  }

  lemma {:induction false} FailingExact(ms: seq<CheckedMachine>, ts: seq<Target>, c: Config,
                           now: int, m: CheckedMachine)
    requires |ms| == |ts|
    ensures m in FailingOnes(ms, ts, c, now) <==> exists i | 0 <= i < |ts| :: ms[i] == m && Fails(ts[i], c, now)
  {
    hide Fails;
    if ts != [] {
      var n := |ts| - 1;
      var front := FailingOnes(ms[..n], ts[..n], c, now);
      assert FailingOnes(ms, ts, c, now) == front + (if Fails(ts[n], c, now) then [ms[n]] else []);
      FailingExact(ms[..n], ts[..n], c, now, m);
      hide FailingOnes;
      assert forall i | 0 <= i < n :: ms[..n][i] == ms[i] && ts[..n][i] == ts[i];
      if m in front {
        var i :| 0 <= i < n && ms[..n][i] == m && Fails(ts[..n][i], c, now);
        assert ms[i] == m && Fails(ts[i], c, now);
      }
    }
  }

  lemma {:induction false} HealthyExact(ms: seq<CheckedMachine>, ts: seq<Target>, c: Config,
                           now: int, m: CheckedMachine)
    requires |ms| == |ts|
    ensures m in HealthyOnes(ms, ts, c, now) <==> exists i | 0 <= i < |ts| :: ms[i] == m && IsHealthy(ts[i], c, now)
  {
    hide IsHealthy;
    if ts != [] {
      var n := |ts| - 1;
      var front := HealthyOnes(ms[..n], ts[..n], c, now);
      assert HealthyOnes(ms, ts, c, now) == front + (if IsHealthy(ts[n], c, now) then [ms[n]] else []);
      HealthyExact(ms[..n], ts[..n], c, now, m);
      hide HealthyOnes;
      assert forall i | 0 <= i < n :: ms[..n][i] == ms[i] && ts[..n][i] == ts[i];
      if m in front {
        var i :| 0 <= i < n && ms[..n][i] == m && IsHealthy(ts[..n][i], c, now);
        assert ms[i] == m && IsHealthy(ts[i], c, now);
      }
    }
  }

  lemma {:induction false} CountsFit(ms: seq<CheckedMachine>, ts: seq<Target>, c: Config, now: int)
    requires |ms| == |ts|
    ensures |FailingOnes(ms, ts, c, now)| + |HealthyOnes(ms, ts, c, now)| <= |ts|
  {
    if ts != [] {
      hide Fails, NextCheck;
      CountsFit(ms[..|ts| - 1], ts[..|ts| - 1], c, now);
    }
  }

  lemma {:induction false} NextChecksSplit(ts: seq<Target>, c: Config, now: int, i: nat)
    requires i < |ts|
    ensures NextChecks(ts[..i + 1], c, now) == NextChecks(ts[..i], c, now)
      + if !Fails(ts[i], c, now) && 0 < NextCheck(ts[i], c, now) then [NextCheck(ts[i], c, now)] else []
  {
    hide Fails, NextCheck;
    assert ts[..i + 1][1..] == ts[1..][..i];
    if i > 0 {
      NextChecksSplit(ts[1..], c, now, i - 1);
      assert ts[..i][1..] == ts[1..][..i - 1];
    }
  }

  predicate Distinct(ms: seq<CheckedMachine>) {
    forall i, j | 0 <= i < j < |ms| :: ms[i] != ms[j]
  }

  /** Each list holds its machines and no others. */
  lemma ListsExact(ms: seq<CheckedMachine>, ts: seq<Target>, c: Config, now: int, i: nat)
    requires |ms| == |ts| && Distinct(ms) && i < |ms|
    ensures ms[i] in FailingOnes(ms, ts, c, now) <==> Fails(ts[i], c, now)
    ensures ms[i] in HealthyOnes(ms, ts, c, now) <==> IsHealthy(ts[i], c, now)
  {
    hide Fails, IsHealthy, FailingOnes, HealthyOnes;
    FailingExact(ms, ts, c, now, ms[i]);
    HealthyExact(ms, ts, c, now, ms[i]);
    if j :| 0 <= j < |ts| && ms[j] == ms[i] && Fails(ts[j], c, now) { assert i == j; }
    if j :| 0 <= j < |ts| && ms[j] == ms[i] && IsHealthy(ts[j], c, now) { assert i == j; }
  }

  lemma ListsWithin(ms: seq<CheckedMachine>, ts: seq<Target>, c: Config, now: int)
    requires |ms| == |ts|
    ensures forall k | 0 <= k < |FailingOnes(ms, ts, c, now)| :: FailingOnes(ms, ts, c, now)[k] in ms
    ensures forall k | 0 <= k < |HealthyOnes(ms, ts, c, now)| :: HealthyOnes(ms, ts, c, now)[k] in ms
  {
    hide Fails, IsHealthy, FailingOnes, HealthyOnes;
    var failing, healthy := FailingOnes(ms, ts, c, now), HealthyOnes(ms, ts, c, now);
    forall k | 0 <= k < |failing| ensures failing[k] in ms { FailingExact(ms, ts, c, now, failing[k]); }
    forall k | 0 <= k < |healthy| ensures healthy[k] in ms { HealthyExact(ms, ts, c, now, healthy[k]); }
  }

  function Marked(before: Conditions, t: Target, c: Config, now: int): Conditions {
    if Fails(t, c, now) then before.(checkSucceeded := IsFalse)
    else if IsHealthy(t, c, now) then before.(checkSucceeded := IsTrue)
    else before
  }

  /** healthCheckTargets: three lists, and the health condition of each machine. */
  method HealthCheckTargets(ms: seq<CheckedMachine>, ts: seq<Target>, c: Config, now: int)
    returns (healthy: seq<CheckedMachine>, unhealthy: seq<CheckedMachine>, nextChecks: seq<int>)
    requires |ms| == |ts| && Distinct(ms)
    modifies ms
    ensures healthy == HealthyOnes(ms, ts, c, now) && unhealthy == FailingOnes(ms, ts, c, now)
    ensures nextChecks == NextChecks(ts, c, now)
    ensures forall i | 0 <= i < |ms| ::
      ms[i].held == Marked(old(ms[i].held), ts[i], c, now) && ms[i].stored == old(ms[i].stored)
  {
    hide Fails, NextCheck;
    healthy, unhealthy, nextChecks := [], [], [];
    for i := 0 to |ms|
      invariant healthy == HealthyOnes(ms[..i], ts[..i], c, now) && unhealthy == FailingOnes(ms[..i], ts[..i], c, now)
      invariant nextChecks == NextChecks(ts[..i], c, now)
      invariant forall j | 0 <= j < |ms| ::
        && ms[j].held == (if j < i then Marked(old(ms[j].held), ts[j], c, now) else old(ms[j].held))
        && ms[j].stored == old(ms[j].stored)
    {
      NextChecksSplit(ts, c, now, i);
      assert ms[..i + 1][..i] == ms[..i] && ts[..i + 1][..i] == ts[..i];
      var needs, next := NeedsRemediation(ms[i], ts[i], c, now);
      if needs {
        unhealthy := unhealthy + [ms[i]];
      } else if next > 0 {
        nextChecks := nextChecks + [next];
      } else if !ts[i].deleting && ts[i].node.Some? {
        ms[i].held := ms[i].held.(checkSucceeded := IsTrue);
        healthy := healthy + [ms[i]];
      }
    }
    assert ms[..|ms|] == ms && ts[..|ts|] == ts;
  }

  // ---------------------------------------------------------------- remediation

  /**
   What marking for remediation does: start one, or start over after a finished one; never overwrite one in
   progress.
   */
  function Requested(before: Conditions): Conditions {
    if before.ownerRemediated.Absent? || before.ownerRemediated.IsTrue?
    then before.(ownerRemediated := IsFalse) else before
  }

  function Asked(m: CheckedMachine, before: Conditions): Conditions {
    if m.paused then before else Requested(before)
  }

  predicate NoneRefused(ms: seq<CheckedMachine>, refused: set<string>) {
    forall m | m in ms :: m.name !in refused
  }

  /** patchUnhealthyTargets without a remediation template; `refused` are the machines whose patch fails. */
  method PatchUnhealthyTargets(unhealthy: seq<CheckedMachine>, refused: set<string>) returns (errors: nat)
    modifies unhealthy
    ensures errors == 0 <==> NoneRefused(unhealthy, refused)
    ensures forall m | m in unhealthy ::
      m.held == Asked(m, old(m.held)) && m.stored == if m.name in refused then old(m.stored) else m.held
  {
    errors := 0;
    for i := 0 to |unhealthy|
      invariant errors == 0 <==> forall j | 0 <= j < i :: unhealthy[j].name !in refused
      invariant forall m | m in unhealthy ::
        if m in unhealthy[..i]
        then m.held == Asked(m, old(m.held)) && m.stored == if m.name in refused then old(m.stored) else m.held
        else m.held == old(m.held) && m.stored == old(m.stored)
    {
      var m := unhealthy[i];
      assert unhealthy[..i + 1] == unhealthy[..i] + [m];
      if !m.paused && (m.held.ownerRemediated.Absent? || m.held.ownerRemediated.IsTrue?) {
        m.held := m.held.(ownerRemediated := IsFalse);
      }
      if m.name in refused {
        errors := errors + 1;
      } else {
        m.stored := m.held;
      }
    }
    assert unhealthy[..|unhealthy|] == unhealthy;
  }

  /** patchHealthyTargets: store the conditions as they are held. */
  method PatchTargets(ms: seq<CheckedMachine>, refused: set<string>) returns (errors: nat)
    modifies ms
    ensures errors == 0 <==> NoneRefused(ms, refused)
    ensures forall m | m in ms ::
      m.held == old(m.held) && m.stored == if m.name in refused then old(m.stored) else m.held
  {
    errors := 0;
    for i := 0 to |ms|
      invariant errors == 0 <==> forall j | 0 <= j < i :: ms[j].name !in refused
      invariant forall m | m in ms ::
        m.held == old(m.held) && m.stored == if m in ms[..i] && m.name !in refused then m.held else old(m.stored)
    {
      assert ms[..i + 1] == ms[..i] + [ms[i]];
      if ms[i].name in refused {
        errors := errors + 1;
      } else {
        ms[i].stored := ms[i].held;
      }
    }
    assert ms[..|ms|] == ms;
  }

  datatype Result = Failed | Requeue | RequeueAfter(after: int) | Done

  /** The status of a MachineHealthCheck. */
  class HealthCheckStatus {
    var expectedMachines: nat
    var currentHealthy: nat
    var remediationsAllowed: int
    var remediationAllowed: Condition

    constructor ()
    {
      expectedMachines, currentHealthy, remediationsAllowed, remediationAllowed := 0, 0, 0, Absent;
    }
  }

  /** What the checks and, where it is allowed, the request for remediation make of a machine's conditions. */
  function Judged(m: CheckedMachine, before: Conditions, t: Target, c: Config, now: int, allowed: bool): Conditions {
    var marked := Marked(before, t, c, now);
    if allowed && Fails(t, c, now) then Asked(m, marked) else marked
  }

  ghost function HeldBy(ms: seq<CheckedMachine>): seq<Conditions>
    reads ms
  {
    seq(|ms|, i requires 0 <= i < |ms| reads ms => ms[i].held)
  }

  ghost function StoredFor(ms: seq<CheckedMachine>): seq<Conditions>
    reads ms
  {
    seq(|ms|, i requires 0 <= i < |ms| reads ms => ms[i].stored)
  }

  /**
   The conditions of every machine after a reconcile that gets to patching, given those held and stored before:
   a target that passed or failed is stored as judged, unless its patch was refused; one that is pending is
   not stored at all.
   */
  ghost predicate Patched(ms: seq<CheckedMachine>, ts: seq<Target>, c: Config, now: int,
                          refused: set<string>, allowed: bool,
                          held: seq<Conditions>, stored: seq<Conditions>)
    requires |ms| == |ts| == |held| == |stored|
    reads ms
  {
    forall i | 0 <= i < |ms| ::
      && ms[i].held == Judged(ms[i], held[i], ts[i], c, now, allowed)
      && ms[i].stored == if (Fails(ts[i], c, now) || IsHealthy(ts[i], c, now)) && ms[i].name !in refused
                         then ms[i].held else stored[i]
  }

  /**
   Asking for remediation, where it is allowed, and patching; the order in which machines are patched does
   not matter.
   */
  method PatchAll(ms: seq<CheckedMachine>, ts: seq<Target>, c: Config, now: int, failing: seq<CheckedMachine>,
                  healthy: seq<CheckedMachine>, allowed: bool, refused: set<string>,
                  ghost held: seq<Conditions>, ghost stored: seq<Conditions>)
    returns (clean: bool)
    requires |ms| == |ts| == |held| == |stored| && Distinct(ms)
    requires failing == FailingOnes(ms, ts, c, now) && healthy == HealthyOnes(ms, ts, c, now)
    requires forall i | 0 <= i < |ms| :: ms[i].held == Marked(held[i], ts[i], c, now) && ms[i].stored == stored[i]
    modifies ms
    ensures clean <==> NoneRefused(failing, refused) && NoneRefused(healthy, refused)
    ensures Patched(ms, ts, c, now, refused, allowed, held, stored)
  {
    ListsWithin(ms, ts, c, now);
    forall i | 0 <= i < |ms|
      ensures ms[i] in failing <==> Fails(ts[i], c, now)
      ensures ms[i] in healthy <==> IsHealthy(ts[i], c, now)
      ensures !(Fails(ts[i], c, now) && IsHealthy(ts[i], c, now))
    {
      ListsExact(ms, ts, c, now, i);
    }
    hide Fails, IsHealthy, FailingOnes, HealthyOnes, NoneRefused, Requested, Marked;
    var errors;
    if allowed {
      errors := PatchUnhealthyTargets(failing, refused);
    } else {
      errors := PatchTargets(failing, refused);
    }
    var more := PatchTargets(healthy, refused);
    clean := errors + more == 0;
  }

  /** The result of a reconcile: an error, a quick retry, the earliest pending check, or nothing more to do. */
  function ResultOf(clean: bool, allowed: bool, next: int): Result {
    if !clean then Failed else if !allowed then Requeue else if next > 0 then RequeueAfter(next) else Done
  }

  /** What a reconcile announces, and what it leaves to do. */
  method Conclude(status: HealthCheckStatus, a: Allowance, ms: seq<CheckedMachine>, ts: seq<Target>,
                  c: Config, now: int,
                  failing: seq<CheckedMachine>, healthy: seq<CheckedMachine>,
                  nextChecks: seq<int>, refused: set<string>,
                  ghost held: seq<Conditions>, ghost stored: seq<Conditions>)
    returns (result: Result)
    requires |ms| == |ts| == |held| == |stored| && Distinct(ms)
    requires failing == FailingOnes(ms, ts, c, now) && healthy == HealthyOnes(ms, ts, c, now)
    requires forall i | 0 <= i < |ms| :: ms[i].held == Marked(held[i], ts[i], c, now) && ms[i].stored == stored[i]
    modifies status`remediationsAllowed, status`remediationAllowed, ms
    ensures Patched(ms, ts, c, now, refused, a.allowed, held, stored)
    ensures status.remediationsAllowed == (if a.allowed then a.count else 0)
    ensures status.remediationAllowed == (if a.allowed then IsTrue else IsFalse)
    ensures result ==
      ResultOf(NoneRefused(failing, refused) && NoneRefused(healthy, refused), a.allowed, MinOf(nextChecks))
  {
    hide Marked, MinOf, FailingOnes, HealthyOnes, NoneRefused, Distinct;
    status.remediationsAllowed := if a.allowed then a.count else 0;
    status.remediationAllowed := if a.allowed then IsTrue else IsFalse;
    var clean := PatchAll(ms, ts, c, now, failing, healthy, a.allowed, refused, held, stored);
    var next := MinDuration(nextChecks);
    result := ResultOf(clean, a.allowed, next);
  }

  /** The decision part of reconcile, once the targets are known. */
  method Reconcile(status: HealthCheckStatus, limits: Limits, ms: seq<CheckedMachine>, ts: seq<Target>,
                   c: Config, now: int,
                   refused: set<string>)
    returns (result: Result)
    requires |ms| == |ts| && Distinct(ms)
    requires limits.range.Some? ==> RangePattern(limits.range.value)
    modifies status, ms
    ensures status.expectedMachines == |ts| && status.currentHealthy == |HealthyOnes(ms, ts, c, now)| <= |ts|
    ensures match AllowedRemediation(limits, |ts|, status.currentHealthy)
      case None =>
        && result == Failed && StoredFor(ms) == old(StoredFor(ms))
        && status.remediationsAllowed == old(status.remediationsAllowed)
        && status.remediationAllowed == old(status.remediationAllowed)
      case Some(a) =>
        var clean :=
          NoneRefused(FailingOnes(ms, ts, c, now), refused) && NoneRefused(HealthyOnes(ms, ts, c, now), refused);
        && Patched(ms, ts, c, now, refused, a.allowed, old(HeldBy(ms)), old(StoredFor(ms)))
        && status.remediationsAllowed == (if a.allowed then a.count else 0)
        && status.remediationAllowed == (if a.allowed then IsTrue else IsFalse)
        && var next := MinOf(NextChecks(ts, c, now));
           result == if !clean then Failed else if !a.allowed then Requeue
                     else if next > 0 then RequeueAfter(next) else Done
  {
    CountsFit(ms, ts, c, now);
    hide NextChecks, AllowedRemediation, RangePattern, MinOf, FailingOnes, HealthyOnes, Marked;
    hide NoneRefused, Distinct, Patched;
    ghost var held, stored := HeldBy(ms), StoredFor(ms);
    var healthy, unhealthy, nextChecks := HealthCheckTargets(ms, ts, c, now);
    assert StoredFor(ms) == stored;
    assert forall i | 0 <= i < |ms| :: ms[i].held == Marked(held[i], ts[i], c, now) && ms[i].stored == stored[i];
    hide HeldBy, StoredFor;
    status.expectedMachines, status.currentHealthy := |ts|, |healthy|;
    match AllowedRemediation(limits, |ts|, |healthy|)
    case None => result := Failed;
    case Some(a) =>
      result := Conclude(status, a, ms, ts, c, now, unhealthy, healthy, nextChecks, refused, held, stored);
  }

  /**
   What a reconcile makes of a machine's conditions. Remediation is requested exactly for unpaused failing
   targets, and never over one in progress; the check is marked as failed or as passed for good.
   */
  lemma JudgedExactly(m: CheckedMachine, before: Conditions, t: Target, c: Config, now: int, allowed: bool)
    ensures var after := Judged(m, before, t, c, now, allowed);
      && (after.ownerRemediated == if allowed && Fails(t, c, now) && !m.paused
            && (before.ownerRemediated.Absent? || before.ownerRemediated.IsTrue?)
          then IsFalse else before.ownerRemediated)
      && (Fails(t, c, now) ==> after.checkSucceeded == IsFalse)
      && (!Fails(t, c, now) ==>
            after.checkSucceeded == if IsHealthy(t, c, now) then IsTrue else before.checkSucceeded)
  {
    hide Fails, IsHealthy;
  }

  /** A target counts as healthy exactly if it has a node, is not being deleted, and will never fail as things are. */
  lemma HealthyForGood(t: Target, c: Config, now: int)
    ensures IsHealthy(t, c, now) <==>
      t.node.Some? && !t.deleting && forall later :: !Fails(t, c, later)
  {
    hide Fails, Deadlines, NextCheck;
    if !Fails(t, c, now) {
      forall later ensures Fails(t, c, later) <==>
          Deadlines(t, c) != [] && now + NextCheck(t, c, now) - SECOND < later {
        PassesUntil(t, c, now, later);
      }
      if Deadlines(t, c) != [] {
        PendingIsPositive(t, c, now);
        assert Fails(t, c, now + NextCheck(t, c, now));
      } else {
        NoDeadline(t, c, now);
      }
    }
  }

  lemma NoDeadline(t: Target, c: Config, now: int)
    requires Deadlines(t, c) == []
    ensures NextCheck(t, c, now) == 0
  {
  }

  /**
   The breaker over a whole reconcile: whenever it allows remediation, the failing targets, all of which may
   then be remediated, stay within the maximum, also together with the remediations it still announces.
   */
  lemma BreakerBoundsRemediation(limits: Limits, ms: seq<CheckedMachine>, ts: seq<Target>, c: Config, now: int)
    requires |ms| == |ts| && (limits.range.Some? ==> RangePattern(limits.range.value))
    ensures |FailingOnes(ms, ts, c, now)| + |HealthyOnes(ms, ts, c, now)| <= |ts|
    ensures var a := AllowedRemediation(limits, |ts|, |HealthyOnes(ms, ts, c, now)|);
      a.Some? && a.value.allowed ==>
        var failing := |FailingOnes(ms, ts, c, now)|;
        && Within(limits, |ts|, failing) && Within(limits, |ts|, failing + a.value.count)
  {
    hide AllowedRemediation, FailingOnes, HealthyOnes, Within, RangePattern;
    CountsFit(ms, ts, c, now);
    var healthy, failing := |HealthyOnes(ms, ts, c, now)|, |FailingOnes(ms, ts, c, now)|;
    BreakerWithin(limits, |ts|, healthy, failing);
  }

  /** A number of machines is within the maximum that the limits name. */
  ghost predicate Within(l: Limits, expected: int, k: int) {
    match l.range
    case Some(s) => forall min: nat, max: nat | s == FormatRange(min, max) :: k <= max
    case None =>
      match l.maxUnhealthy
      case Some(Int(n)) => k <= n
      case Some(Percent(p)) => 100 * k <= p * expected
      case _ => false
  }

  lemma BreakerWithin(l: Limits, expected: nat, healthy: nat, failing: nat)
    requires failing + healthy <= expected && (l.range.Some? ==> RangePattern(l.range.value))
    ensures var a := AllowedRemediation(l, expected, healthy);
      a.Some? && a.value.allowed ==> Within(l, expected, failing) && Within(l, expected, failing + a.value.count)
  {
    BreakerByLimit(l, expected, healthy);
    var a := AllowedRemediation(l, expected, healthy);
    if a.Some? {
      var (min, max) := Bounds(l, expected).value;
      BoundsNamed(l, expected, min, max);
      BreakerExact(l, expected, healthy, failing, min, max);
    }
    hide FormatRange, RangePattern;
  }
}
