/**
 When a health check target fails, when to look again, and when remediation is allowed
 (controllers/machinehealthcheck_targets.go, controllers/machinehealthcheck_controller.go).
 Times and durations are in nanoseconds.
 */
module HealthCheckSpec {
  import opened Basics
  import opened Fleet
  import Decimal

  const SECOND := 1_000_000_000

  datatype NodeCondition = NodeCondition(kind: string, status: string, since: int)
  datatype UnhealthyCondition = UnhealthyCondition(kind: string, status: string, timeout: int)

  /**
   What does not change while the targets are checked: since when the two cluster conditions are true, and
   the limits.
   */
  datatype Config = Config(
    controlPlaneSince: Option<int>, infraReadySince: Option<int>,
    startupTimeout: int, unhealthyConditions: seq<UnhealthyCondition>)

  /** A target: its machine's failure fields, creation time and deletion, and its node if it has one. */
  datatype Target = Target(
    failureReason: bool, failureMessage: bool, nodeMissing: bool, created: int, deleting: bool,
    node: Option<seq<NodeCondition>>)

  // ---------------------------------------------------------------- when a target fails

  /** Failures that need no waiting. */
  predicate FailsOutright(t: Target) { t.failureReason || t.failureMessage || t.nodeMissing }

  /** Nothing is held against a target until the cluster is up. */
  predicate Watched(c: Config) { c.controlPlaneSince.Some? && c.infraReadySince.Some? }

  /** getNodeCondition: the first of its type. */
  function FindCondition(conditions: seq<NodeCondition>, kind: string): Option<NodeCondition> {
    if conditions == [] then None
    else if conditions[0].kind == kind then Some(conditions[0])
    else FindCondition(conditions[1..], kind)
  }

  /** Whether the node is in the state that an unhealthy condition describes. */
  predicate Matches(u: UnhealthyCondition, node: seq<NodeCondition>) {
    var c := FindCondition(node, u.kind);
    c.Some? && c.value.status == u.status
  }

  function NodeDeadlines(us: seq<UnhealthyCondition>, node: seq<NodeCondition>): seq<int> {
    if us == [] then []
    else (if Matches(us[0], node) then [FindCondition(node, us[0].kind).value.since + us[0].timeout] else [])
         + NodeDeadlines(us[1..], node)
  }

  /** The times after which the target will fail if nothing changes. */
  function Deadlines(t: Target, c: Config): seq<int> {
    if !Watched(c) then []
    else match t.node
      case Some(node) => NodeDeadlines(c.unhealthyConditions, node)
      case None =>
        if c.startupTimeout == 0 then []
        else [Max(Max(t.created, c.controlPlaneSince.value), c.infraReadySince.value) + c.startupTimeout]
  }

  predicate Passed(deadlines: seq<int>, now: int) {
    exists i | 0 <= i < |deadlines| :: deadlines[i] < now
  }

  /** The target needs remediation at this time. */
  predicate Fails(t: Target, c: Config, now: int) {
    FailsOutright(t) || Passed(Deadlines(t, c), now)
  }

  /** The condition that an index finds is the first of its kind. */
  predicate FirstOfKind(node: seq<NodeCondition>, kind: string, i: nat)
    requires i < |node|
  {
    node[i].kind == kind && forall h | 0 <= h < i :: node[h].kind != kind
  }

  /** The node has been in the state that an unhealthy condition describes for longer than it allows. */
  predicate Overdue(u: UnhealthyCondition, node: seq<NodeCondition>, i: nat, now: int)
    requires i < |node|
  {
    FirstOfKind(node, u.kind, i) && node[i].status == u.status && u.timeout < now - node[i].since
  }

  lemma {:induction false} FindFirst(node: seq<NodeCondition>, kind: string)
    ensures FindCondition(node, kind).None? <==> forall i | 0 <= i < |node| :: node[i].kind != kind
    ensures FindCondition(node, kind).Some? ==>
      exists i | 0 <= i < |node| :: FirstOfKind(node, kind, i) && node[i] == FindCondition(node, kind).value
  {
    if node != [] {
      FindFirst(node[1..], kind);
      assert forall i | 1 <= i < |node| :: node[i] == node[1..][i - 1];
      if node[0].kind == kind {
        assert FirstOfKind(node, kind, 0);
      } else if FindCondition(node, kind).Some? {
        var i :| 0 <= i < |node[1..]| && FirstOfKind(node[1..], kind, i)
          && node[1..][i] == FindCondition(node[1..], kind).value;
        assert FirstOfKind(node, kind, i + 1);
      }
    }
  }

  lemma OverdueExact(u: UnhealthyCondition, node: seq<NodeCondition>, now: int)
    ensures (exists i | 0 <= i < |node| :: Overdue(u, node, i, now))
      <==> Matches(u, node) && FindCondition(node, u.kind).value.since + u.timeout < now
  {
    hide FindCondition;
    FindFirst(node, u.kind);
    if FindCondition(node, u.kind).Some? {
      var i :| 0 <= i < |node| && FirstOfKind(node, u.kind, i) && node[i] == FindCondition(node, u.kind).value;
      assert forall j | 0 <= j < |node| && FirstOfKind(node, u.kind, j) :: j == i;
      assert Matches(u, node) && node[i].since + u.timeout < now ==> Overdue(u, node, i, now);
    }
  }

  lemma {:induction false} NodeFailsExactly(us: seq<UnhealthyCondition>, node: seq<NodeCondition>, now: int)
    ensures Passed(NodeDeadlines(us, node), now)
      <==> exists j, i | 0 <= j < |us| && 0 <= i < |node| :: Overdue(us[j], node, i, now)
  {
    if us != [] {
      NodeFailsExactly(us[1..], node, now);
      OverdueExact(us[0], node, now);
      var here := if Matches(us[0], node) then [FindCondition(node, us[0].kind).value.since + us[0].timeout] else [];
      PassedAppend(here, NodeDeadlines(us[1..], node), now);
      hide Matches, FindCondition, Overdue, Passed;
      assert forall j | 1 <= j < |us| :: us[j] == us[1..][j - 1];
      if j, i :| 0 <= j < |us[1..]| && 0 <= i < |node| && Overdue(us[1..][j], node, i, now) {
        assert Overdue(us[j + 1], node, i, now);
      }
      assert here != [] ==> (Passed(here, now) <==> here[0] < now) by { PassedOne(here, now); }
    }
  }

  lemma PassedOne(ds: seq<int>, now: int)
    ensures |ds| == 1 ==> (Passed(ds, now) <==> ds[0] < now)
  {
  }

  lemma PassedAppend(a: seq<int>, b: seq<int>, now: int)
    ensures Passed(a + b, now) <==> Passed(a, now) || Passed(b, now)
    ensures !Passed([], now)
  {
    var s := a + b;
    if i :| 0 <= i < |a| && a[i] < now { assert s[i] < now; }
    if i :| 0 <= i < |b| && b[i] < now { assert s[|a| + i] < now; }
  }

  /**
   When a target needs remediation, in terms of what is observed: at once for a failure or a lost node;
   otherwise only in a cluster that is up, for a node in a state it was in for too long, or for a machine that
   has no node although machine, control plane and infrastructure are all older than the startup timeout.
   */
  lemma FailsExactly(t: Target, c: Config, now: int)
    ensures Fails(t, c, now) <==>
      || t.failureReason || t.failureMessage || t.nodeMissing
      || (&& c.controlPlaneSince.Some? && c.infraReadySince.Some?
          && match t.node
             case Some(node) =>
               exists j, i | 0 <= j < |c.unhealthyConditions| && 0 <= i < |node| ::
                 Overdue(c.unhealthyConditions[j], node, i, now)
             case None =>
               && c.startupTimeout != 0 && c.startupTimeout < now - t.created
               && c.startupTimeout < now - c.controlPlaneSince.value
               && c.startupTimeout < now - c.infraReadySince.value)
  {
    match t.node
    case Some(node) =>
      NodeFailsExactly(c.unhealthyConditions, node, now);
      hide NodeDeadlines;
      PassedAppend([], [], now);
    case None => PassedOne(Deadlines(t, c), now);
  }

  /** minDuration. */
  function MinOf(s: seq<int>): (m: int)
    ensures s != [] ==> m in s
    ensures forall i | 0 <= i < |s| :: m <= s[i]
  {
    if s == [] then 0
    else if |s| == 1 then s[0]
    else
      var rest := MinOf(s[1..]);
      assert forall i | 1 <= i < |s| :: s[i] == s[1..][i - 1];
      Min(s[0], rest)
  }

  /** How long until a passing target should be looked at again; zero if it has no deadline. */
  function NextCheck(t: Target, c: Config, now: int): int {
    if Deadlines(t, c) == [] then 0 else MinOf(Deadlines(t, c)) - now + SECOND
  }

  /** A passing target with a deadline always asks for a check, at least a second ahead. */
  lemma PendingIsPositive(t: Target, c: Config, now: int)
    requires !Fails(t, c, now) && Deadlines(t, c) != []
    ensures SECOND <= NextCheck(t, c, now)
  {
    var i :| 0 <= i < |Deadlines(t, c)| && Deadlines(t, c)[i] == MinOf(Deadlines(t, c));
  }

  // ---------------------------------------------------------------- the wake-up

  /** The positive next checks of the targets that pass, in order. */
  function NextChecks(ts: seq<Target>, c: Config, now: int): seq<int> {
    if ts == [] then []
    else (if !Fails(ts[0], c, now) && 0 < NextCheck(ts[0], c, now) then [NextCheck(ts[0], c, now)] else [])
         + NextChecks(ts[1..], c, now)
  }

  lemma {:induction false} NextChecksExact(ts: seq<Target>, c: Config, now: int, x: int)
    ensures x in NextChecks(ts, c, now)
      <==> exists k | 0 <= k < |ts| ::
        !Fails(ts[k], c, now) && Deadlines(ts[k], c) != [] && x == NextCheck(ts[k], c, now)
  {
    if ts != [] {
      if !Fails(ts[0], c, now) && Deadlines(ts[0], c) != [] { PendingIsPositive(ts[0], c, now); }
      hide Fails, Deadlines;
      NextChecksExact(ts[1..], c, now, x);
      if k :| 0 <= k < |ts| && !Fails(ts[k], c, now) && Deadlines(ts[k], c) != [] && x == NextCheck(ts[k], c, now) {
        assert k > 0 ==> ts[1..][k - 1] == ts[k];
      }
    }
  }

  /** Until its earliest deadline a passing target keeps passing; once it is over, it fails. */
  lemma PassesUntil(t: Target, c: Config, now: int, later: int)
    requires !Fails(t, c, now)
    ensures Fails(t, c, later) <==> Deadlines(t, c) != [] && now + NextCheck(t, c, now) - SECOND < later
  {
    var ds := Deadlines(t, c);
    hide Deadlines;
    if ds != [] {
      var i :| 0 <= i < |ds| && ds[i] == MinOf(ds);
    }
  }

  /**
   The wake-up is exact. With r the time after which the check is requeued, no passing target fails up to
   a second before it, and one does when it comes; without a requeue none ever does.
   */
  lemma WakeUpExact(ts: seq<Target>, c: Config, now: int, k: nat, later: int)
    requires k < |ts| && !Fails(ts[k], c, now)
    ensures var r := MinOf(NextChecks(ts, c, now));
      && 0 <= r
      && (Fails(ts[k], c, later) ==> 0 < r && now + r - SECOND < later)
      && (0 < r ==> exists j | 0 <= j < |ts| :: !Fails(ts[j], c, now) && Fails(ts[j], c, now + r))
  {
    hide Fails, Deadlines, NextCheck, NextChecks;
    var xs := NextChecks(ts, c, now);
    var r := MinOf(xs);
    PassesUntil(ts[k], c, now, later);
    if Deadlines(ts[k], c) != [] {
      NextChecksExact(ts, c, now, NextCheck(ts[k], c, now));
      PendingIsPositive(ts[k], c, now);
    }
    if xs != [] {
      NextChecksExact(ts, c, now, r);
      var j :| 0 <= j < |ts| && !Fails(ts[j], c, now) && Deadlines(ts[j], c) != [] && r == NextCheck(ts[j], c, now);
      PendingIsPositive(ts[j], c, now);
      PassesUntil(ts[j], c, now, now + r);
    }
  }

  // ---------------------------------------------------------------- the circuit breaker

  /** The pattern the API demands of an unhealthy range: two decimal numbers in brackets. */
  predicate RangePattern(s: string) {
    && |s| >= 2 && s[0] == '[' && s[|s| - 1] == ']'
    && var body := s[1..|s| - 1];
       var k := IndexOf(body, '-');
       k < |body| && Decimal.AllDigits(body[..k]) && Decimal.AllDigits(body[k + 1..])
  }

  /** getUnhealthyRange. */
  function UnhealthyRange(s: string): Option<(int, int)>
    requires RangePattern(s)
  {
    var body := s[1..|s| - 1];
    var k := IndexOf(body, '-');
    match (Decimal.ParseUint(body[..k], TWO_32), Decimal.ParseUint(body[k + 1..], TWO_32))
    case (Some(min), Some(max)) => if max < min then None else Some((min, max))
    case _ => None
  }

  /** A range with the given digits. */
  function RangeText(a: string, b: string): string { "[" + a + "-" + b + "]" }

  lemma RangeParts(a: string, b: string)
    requires Decimal.AllDigits(a) && Decimal.AllDigits(b)
    ensures var s := RangeText(a, b);
      && RangePattern(s)
      && var body := s[1..|s| - 1]; var k := IndexOf(body, '-');
         body[..k] == a && body[k + 1..] == b
  {
    var s := RangeText(a, b);
    var body := s[1..|s| - 1];
    assert body == a + "-" + b;
    var k := IndexOf(body, '-');
    assert body[|a|] == '-';
    assert forall i | 0 <= i < |a| :: Decimal.IsDigit(a[i]) && body[i] == a[i];
    assert k == |a|;
    assert body[..k] == a && body[k + 1..] == b;
  }

  /** A range as it is written. */
  function FormatRange(min: nat, max: nat): string { RangeText(Decimal.FormatNat(min), Decimal.FormatNat(max)) }

  /** Written out, a range reads back as it was, or is rejected for its order or its size. */
  lemma RangeRoundTrip(min: nat, max: nat)
    ensures RangePattern(FormatRange(min, max))
    ensures UnhealthyRange(FormatRange(min, max)) == if min <= max < TWO_32 then Some((min, max)) else None
  {
    Decimal.DigitsOfFormat(min);
    Decimal.DigitsOfFormat(max);
    RangeParts(Decimal.FormatNat(min), Decimal.FormatNat(max));
    hide Decimal.FormatNat, Decimal.Digits, RangePattern, IndexOf;
  }

  /** The limits a health check may carry; the range takes precedence. */
  datatype Limits = Limits(range: Option<string>, maxUnhealthy: Option<IntOrString>)

  /** Smallest and largest number of unhealthy machines for which remediation is allowed. */
  function Bounds(l: Limits, expected: int): Option<(int, int)>
    requires l.range.Some? ==> RangePattern(l.range.value)
  {
    match l.range
    case Some(s) => UnhealthyRange(s)
    case None =>
      match l.maxUnhealthy
      case None => None
      case Some(v) =>
        match ScaledValue(v, expected, false)
        case None => None
        case Some(max) => Some((0, max))
  }

  datatype Allowance = Allowance(allowed: bool, count: int)

  /** isAllowedRemediation; the count is converted to 32 bits. */
  function AllowedRemediation(l: Limits, expected: nat, healthy: nat): Option<Allowance>
    requires l.range.Some? ==> RangePattern(l.range.value)
    requires healthy <= expected
  {
    match Bounds(l, expected)
    case None => None
    case Some((min, max)) =>
      var unhealthy := expected - healthy;
      Some(Allowance(min <= unhealthy <= max, Wrap32(max - unhealthy)))
  }

  /** The smallest and the largest number of unhealthy machines that the limits name. */
  ghost predicate Named(l: Limits, expected: int, min: int, max: int) {
    match l.range
    case Some(s) =>
      exists a: string, b: string | Decimal.AllDigits(a) && Decimal.AllDigits(b) && s == RangeText(a, b) ::
        min == Decimal.Digits(a) <= max == Decimal.Digits(b) < TWO_32
    case None =>
      && min == 0
      && match l.maxUnhealthy
         case Some(Int(n)) => max == n
         case Some(Percent(p)) => 100 * max <= p * expected < 100 * (max + 1)
         case _ => false
  }

  lemma RangeReads(a: string, b: string)
    requires Decimal.AllDigits(a) && Decimal.AllDigits(b)
    ensures RangePattern(RangeText(a, b))
    ensures UnhealthyRange(RangeText(a, b)) ==
      if Decimal.Digits(a) <= Decimal.Digits(b) < TWO_32 then Some((Decimal.Digits(a), Decimal.Digits(b))) else None
  {
    RangeParts(a, b);
    hide RangeText, IndexOf, RangePattern, Decimal.Digits;
  }

  /** A range that matches the pattern is two numbers. */
  lemma RangeHasParts(s: string)
    requires RangePattern(s)
    ensures var body := s[1..|s| - 1]; var k := IndexOf(body, '-');
      Decimal.AllDigits(body[..k]) && Decimal.AllDigits(body[k + 1..]) && s == RangeText(body[..k], body[k + 1..])
  {
    var body := s[1..|s| - 1];
    var k := IndexOf(body, '-');
    hide IndexOf, Decimal.AllDigits;
    assert body[k] == '-' && s[0] == '[' && s[|s| - 1] == ']';
    var a, b := body[..k], body[k + 1..];
    assert body == a + "-" + b;
    assert s == "[" + body + "]";
    assert "[" + (a + "-" + b) + "]" == "[" + a + "-" + b + "]";
  }

  /** The bounds in use are those that the limits name; without any, or with a range out of order, there are none. */
  lemma BoundsNamed(l: Limits, expected: int, min: int, max: int)
    requires l.range.Some? ==> RangePattern(l.range.value)
    ensures Bounds(l, expected) == Some((min, max)) <==> Named(l, expected, min, max)
  {
    if l.range.Some? {
      var s := l.range.value;
      hide RangePattern, UnhealthyRange, RangeText, Decimal.Digits, Decimal.AllDigits;
      RangeHasParts(s);
      forall a: string, b: string | Decimal.AllDigits(a) && Decimal.AllDigits(b) && s == RangeText(a, b)
        ensures UnhealthyRange(s) == Some((min, max))
          <==> min == Decimal.Digits(a) <= max == Decimal.Digits(b) < TWO_32 {
        RangeReads(a, b);
      }
    }
  }

  /**
   The breaker: with remediation allowed, the unhealthy machines and the further remediations announced
   stay within the maximum that the limits name. The announced number is exact precisely while the distance to
   the maximum fits
   32 bits, and not negative precisely while its low 32 bits do; a range up to four billion wraps around.
   */
  lemma BreakerExact(l: Limits, expected: nat, healthy: nat, unhealthyTargets: nat, min: int, max: int)
    requires l.range.Some? ==> RangePattern(l.range.value)
    requires unhealthyTargets + healthy <= expected && Named(l, expected, min, max)
    ensures AllowedRemediation(l, expected, healthy).Some?
    ensures var a, room := AllowedRemediation(l, expected, healthy).value, max - (expected - healthy);
      && (a.allowed <==> min <= expected - healthy <= max)
      && (a.allowed ==>
            && unhealthyTargets <= max && unhealthyTargets + a.count <= max
            && (a.count == room <==> room < TWO_31)
            && (0 <= a.count <==> room % TWO_32 < TWO_31))
  {
    hide Bounds, Named;
    BoundsNamed(l, expected, min, max);
  }

  /** The decision for every kind of limit, in the numbers that the limit holds. */
  lemma BreakerByLimit(l: Limits, expected: nat, healthy: nat)
    requires healthy <= expected && (l.range.Some? ==> RangePattern(l.range.value))
    ensures var a, unhealthy := AllowedRemediation(l, expected, healthy), expected - healthy;
      match l.range
      case None =>
        (match l.maxUnhealthy
         case Some(Int(n)) => a == Some(Allowance(unhealthy <= n, Wrap32(n - unhealthy)))
         case Some(Percent(p)) => a.Some? && (a.value.allowed <==> 100 * unhealthy <= p * expected)
         case _ => a == None)
      case Some(s) =>
        forall min: nat, max: nat | s == FormatRange(min, max) ::
          a == if min <= max < TWO_32 then Some(Allowance(min <= unhealthy <= max, Wrap32(max - unhealthy))) else None
  {
    if l.range.Some? {
      forall min: nat, max: nat | l.range.value == FormatRange(min, max)
        ensures UnhealthyRange(l.range.value) == if min <= max < TWO_32 then Some((min, max)) else None {
        RangeRoundTrip(min, max);
      }
      hide UnhealthyRange, FormatRange;
    }
  }

  lemma BreakerWraps()
    ensures RangePattern(FormatRange(0, 0xFFFF_FFFF))
    ensures AllowedRemediation(Limits(Some(FormatRange(0, 0xFFFF_FFFF)), None), 3, 2) == Some(Allowance(true, -2))
  {
    hide FormatRange, RangePattern, UnhealthyRange;
    RangeRoundTrip(0, 0xFFFF_FFFF);
  }
}
