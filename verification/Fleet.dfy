/**
 A MachineDeployment and the values of its MachineSets: rollout budgets, replica annotations and
 sums over sets (controllers/mdutil/util.go).
 */
module Fleet {
  import opened Basics
  import Decimal

  // ---------------------------------------------------------------- deployments

  /** An intstr.IntOrString: a count, a percentage, or a string that does not parse as one. */
  datatype IntOrString = Int(n: int) | Percent(p: int) | Malformed

  datatype StrategyType = RollingUpdate | OnDelete | OtherStrategy

  /** The fields of a MachineDeployment that sizing decisions read. */
  datatype Deployment = Deployment(
    replicas: int,
    strategy: StrategyType,
    maxSurge: IntOrString,
    maxUnavailable: IntOrString,
    statusReplicas: int)

  /** intstr.GetScaledValueFromIntOrPercent. */
  function ScaledValue(v: IntOrString, total: int, roundUp: bool): Option<int> {
    match v
    case Int(n) => Some(n)
    case Percent(p) => Some(if roundUp then 0 - (0 - p * total) / 100 else p * total / 100)
    case Malformed => None
  }

  function ResolveFenceposts(surge: IntOrString, unavailable: IntOrString, desired: int): Option<(int, int)> {
    match (ScaledValue(surge, desired, true), ScaledValue(unavailable, desired, false))
    case (Some(s), Some(u)) => Some((s, if s == 0 && u == 0 then 1 else u))
    case _ => None
  }

  function MaxUnavailable(d: Deployment): int {
    if !d.strategy.RollingUpdate? || d.replicas == 0 then 0
    else match ResolveFenceposts(d.maxSurge, d.maxUnavailable, d.replicas)
      case Some((_, u)) => Min(u, d.replicas)
      case None => 0
  }

  function MaxSurge(d: Deployment): int {
    if !d.strategy.RollingUpdate? then 0
    else match ResolveFenceposts(d.maxSurge, d.maxUnavailable, d.replicas)
      case Some((s, _)) => s
      case None => 0
  }

  /** What the webhook checks of the rollout budgets: that they parse. It admits negative ones. */
  predicate Admitted(d: Deployment) {
    !d.maxSurge.Malformed? && !d.maxUnavailable.Malformed?
  }

  function MinAvailable(d: Deployment): int { d.replicas - MaxUnavailable(d) }

  /** Number of machines a rolling deployment may have at once; NewMSNewReplicas resolves maxSurge on its own. */
  function SurgeCap(d: Deployment): Option<int> {
    match ScaledValue(d.maxSurge, d.replicas, true)
    case Some(s) => Some(d.replicas + s)
    case None => None
  }

  /** Percentages round up for surge and down for unavailability, each to the nearest whole machine that way. */
  lemma RoundingExact(p: int, total: int)
    ensures var up := ScaledValue(Percent(p), total, true).value; 100 * (up - 1) < p * total <= 100 * up
    ensures var down := ScaledValue(Percent(p), total, false).value; 100 * down <= p * total < 100 * (down + 1)
  {
  }

  /**
   The cases documented with ResolveFenceposts, for every size: any surge percentage gives at least one
   surge machine, however small, and no surge at all gives at least one that may be missing.
   */
  lemma PercentagesResolve(surge: nat, unavailable: nat, desired: nat)
    requires 0 < desired
    ensures var r := ResolveFenceposts(Percent(surge), Percent(unavailable), desired);
      && r.Some? && (0 < r.value.0 <==> 0 < surge) && (surge == 0 ==> 1 <= r.value.1)
      && (0 < surge && unavailable * desired < 100 ==> r.value.1 == 0)
  {
    assert 0 < surge ==> 0 < surge * desired;
    assert 0 <= unavailable * desired;
  }

  /**
   The budgets of every deployment. They follow the two fields, except that both resolving to zero turns
   into one missing machine, and that a field that does not parse makes both zero.
   */
  lemma BudgetsResolve(d: Deployment)
    requires d.strategy.RollingUpdate?
    ensures Admitted(d) ==>
      var s, u := ScaledValue(d.maxSurge, d.replicas, true).value,
          ScaledValue(d.maxUnavailable, d.replicas, false).value;
      && MaxSurge(d) == s && SurgeCap(d) == Some(d.replicas + s)
      && (0 < d.replicas ==> MaxUnavailable(d) == if s == 0 && u == 0 then 1 else Min(u, d.replicas))
    ensures !Admitted(d) ==> MaxSurge(d) == MaxUnavailable(d) == 0
    ensures d.replicas == 0 ==> MaxUnavailable(d) == 0
    ensures 0 < d.replicas ==> (MaxSurge(d) == 0 && MaxUnavailable(d) == 0 <==> !Admitted(d))
  {
  }

  // ---------------------------------------------------------------- machine sets

  /** Annotation keys: the well-known ones of this controller, and all others by name. */
  datatype Key =
    | DesiredReplicas | MaxReplicas | Revision | RevisionHistory
    | LastAppliedConfig | ConversionData | DisableMachineCreate
    | OtherKey(name: string)

  type Annotations = map<Key, string>

  /** The stored state of a MachineSet: spec.replicas, status.replicas, status.availableReplicas and metadata. */
  datatype MS = MS(name: string, created: int, spec: int, status: int, avail: int, annotations: Annotations)

  /** What a set is created with. */
  datatype Birth = Birth(name: string, created: int, annotations: Annotations)

  /** A Go map read: the empty string for an absent key. */
  function Lookup(a: Annotations, key: Key): string {
    if key in a then a[key] else ""
  }

  /** The decimal strings a set's replica annotations should hold. */
  datatype Goal = Goal(desired: string, max: string)

  function GoalOf(d: Deployment): Goal {
    Goal(Decimal.Format(d.replicas), Decimal.Format(d.replicas + MaxSurge(d)))
  }

  predicate ReplicasAnnotationsNeedUpdate(a: Annotations, g: Goal) {
    Lookup(a, DesiredReplicas) != g.desired || Lookup(a, MaxReplicas) != g.max
  }

  function SetReplicasAnnotations(a: Annotations, g: Goal): Annotations {
    var b := if Lookup(a, DesiredReplicas) != g.desired then a[DesiredReplicas := g.desired] else a;
    if Lookup(b, MaxReplicas) != g.max then b[MaxReplicas := g.max] else b
  }

  /** Refreshing makes the annotations current, is idempotent, and touches no other key. */
  lemma RefreshIsExact(a: Annotations, g: Goal, key: Key)
    ensures !ReplicasAnnotationsNeedUpdate(SetReplicasAnnotations(a, g), g)
    ensures !ReplicasAnnotationsNeedUpdate(a, g) <==> SetReplicasAnnotations(a, g) == a
    ensures key != DesiredReplicas && key != MaxReplicas ==>
      Lookup(SetReplicasAnnotations(a, g), key) == Lookup(a, key)
  {
  }

  /** Current annotations are those from which the desired and the allowed size are read back. */
  lemma GoalRecorded(a: Annotations, d: Deployment)
    requires -TWO_31 <= d.replicas < TWO_31 && -TWO_31 <= d.replicas + MaxSurge(d) < TWO_31
    requires !ReplicasAnnotationsNeedUpdate(a, GoalOf(d))
    ensures Decimal.ParseInt(Lookup(a, DesiredReplicas), TWO_31) == Some(d.replicas)
    ensures Decimal.ParseInt(Lookup(a, MaxReplicas), TWO_31) == Some(d.replicas + MaxSurge(d))
  {
    hide MaxSurge, Decimal.ParseInt, Decimal.Format;
    Decimal.ParseFormat(d.replicas, TWO_31);
    Decimal.ParseFormat(d.replicas + MaxSurge(d), TWO_31);
  }

  function Resized(m: MS, n: int, g: Goal): MS {
    m.(spec := n, annotations := SetReplicasAnnotations(m.annotations, g))
  }

  /** A write to one set: what is stored afterwards and how many further writes the API server accepts. */
  datatype Patched = Patched(ms: MS, left: nat, ok: bool)

  /**
   scaleMachineSet. `accepts` is the number of writes that succeed before the first one fails, so that
   quantifying over it covers every point at which a pass can be cut short.
   */
  function ScaleTo(m: MS, n: int, g: Goal, accepts: nat): (r: Patched)
    ensures !r.ok ==> r.ms == m
  {
    if m.spec == n && !ReplicasAnnotationsNeedUpdate(m.annotations, g) then Patched(m, accepts, true)
    else if accepts == 0 then Patched(m, 0, false)
    else Patched(Resized(m, n, g), accepts - 1, true)
  }

  /**
   scaleMachineSet, as its callers may count on it: it fails only for want of a write and then leaves the set alone;
   otherwise the set has its size and current annotations, at the cost of one write if anything had to change.
   */
  lemma ScaleToExact(m: MS, n: int, g: Goal, accepts: nat, key: Key)
    ensures var r := ScaleTo(m, n, g, accepts);
      && (r.ok <==> 0 < accepts || (m.spec == n && !ReplicasAnnotationsNeedUpdate(m.annotations, g)))
      && (!r.ok ==> r.ms == m && r.left == 0)
      && (r.ok ==>
            && r.ms == m.(spec := n, annotations := r.ms.annotations)
            && !ReplicasAnnotationsNeedUpdate(r.ms.annotations, g)
            && r.left == accepts - (if r.ms == m then 0 else 1))
      && (key != DesiredReplicas && key != MaxReplicas ==>
            (key in r.ms.annotations <==> key in m.annotations)
            && Lookup(r.ms.annotations, key) == Lookup(m.annotations, key))
  {
  }

  // ---------------------------------------------------------------- sums over sets

  function SpecOf(m: MS): int { m.spec }
  function StatusOf(m: MS): int { m.status }
  function AvailOf(m: MS): int { m.avail }
  /** The machines a set may have at once. */
  function PeakOf(m: MS): int { Max(m.spec, m.status) }
  /** The available machines a set keeps once its controller has deleted down to spec. */
  function KeptOf(m: MS): int { Min(m.spec, m.avail) }
  /** Machines that spec asks for and that are not available. */
  function UnhealthyOf(m: MS): int { Max(0, m.spec - m.avail) }
  /** Machines still counted as available although spec no longer asks for them. */
  function LagOf(m: MS): int { Max(0, m.avail - m.spec) }

  /** The machines that exist, by the name of their set, as flags that tell which of them are being deleted. */
  type Machines = map<string, seq<bool>>

  function MachinesOf(ms: Machines, name: string): seq<bool> {
    if name in ms then ms[name] else []
  }

  /** The machines a set has or may have at once. */
  function RealOf(ms: Machines): MS -> int {
    (m: MS) => Max(PeakOf(m), |MachinesOf(ms, m.name)|)
  }

  /** Machines that neither spec nor status accounts for. */
  function HiddenOf(ms: Machines): MS -> int {
    (m: MS) => Max(0, |MachinesOf(ms, m.name)| - PeakOf(m))
  }

  function Sum(s: seq<MS>, f: MS -> int): int {
    if s == [] then 0 else f(s[0]) + Sum(s[1..], f)
  }

  lemma {:induction false} SumLe(s: seq<MS>, f: MS -> int, t: seq<MS>, g: MS -> int)
    requires |s| == |t| && forall i | 0 <= i < |s| :: f(s[i]) <= g(t[i])
    ensures Sum(s, f) <= Sum(t, g)
  {
    if s != [] {
      SumLe(s[1..], f, t[1..], g);
    }
  }

  lemma SumEq(s: seq<MS>, f: MS -> int, t: seq<MS>, g: MS -> int)
    requires |s| == |t| && forall i | 0 <= i < |s| :: f(s[i]) == g(t[i])
    ensures Sum(s, f) == Sum(t, g)
  {
    SumLe(s, f, t, g);
    SumLe(t, g, s, f);
  }

  lemma {:induction false} SumNonNegative(s: seq<MS>, f: MS -> int)
    requires forall i | 0 <= i < |s| :: 0 <= f(s[i])
    ensures 0 <= Sum(s, f)
    ensures Sum(s, f) == 0 <==> forall i | 0 <= i < |s| :: f(s[i]) == 0
  {
    if s != [] {
      SumNonNegative(s[1..], f);
      assert forall i | 1 <= i < |s| :: s[i] == s[1..][i - 1];
    }
  }

  lemma {:induction false} SumAppend(s: seq<MS>, t: seq<MS>, f: MS -> int)
    ensures Sum(s + t, f) == Sum(s, f) + Sum(t, f)
  {
    if s == [] {
      assert s + t == t;
    } else {
      assert (s + t)[1..] == s[1..] + t;
      SumAppend(s[1..], t, f);
    }
  }

  lemma SumPair(a: MS, b: MS, f: MS -> int)
    ensures Sum([a, b], f) == f(a) + f(b)
  {
    assert [a, b] == [a] + [b] && [a][1..] == [] && [b][1..] == [];
    SumAppend([a], [b], f);
  }

  lemma MultisetWithout<T>(s: seq<T>, k: nat)
    requires k < |s|
    ensures multiset(s[..k] + s[k + 1..]) == multiset(s) - multiset{s[k]}
  {
    assert s == s[..k] + [s[k]] + s[k + 1..];
  }

  lemma MultisetTail<T>(s: seq<T>)
    requires s != []
    ensures multiset(s[1..]) == multiset(s) - multiset{s[0]}
  {
    MultisetWithout(s, 0);
    assert s[..0] + s[1..] == s[1..];
  }

  lemma SumWithout(s: seq<MS>, k: nat, f: MS -> int)
    requires k < |s|
    ensures Sum(s[..k] + s[k + 1..], f) == Sum(s, f) - f(s[k])
  {
    SumAppend(s[..k], s[k + 1..], f);
    SumAppend(s[..k], s[k..], f);
    assert s[..k] + s[k..] == s && s[k..][1..] == s[k + 1..];
  }

  /** Where the head of one listing sits in another listing of the same elements. */
  lemma FindHead<T>(s: seq<T>, t: seq<T>) returns (k: nat)
    requires s != [] && multiset(s) == multiset(t)
    ensures k < |t| && t[k] == s[0] && multiset(s[1..]) == multiset(t[..k] + t[k + 1..])
  {
    assert s[0] in multiset(t);
    k :| 0 <= k < |t| && t[k] == s[0];
    MultisetTail(s);
    MultisetWithout(t, k);
  }

  /** Sums do not depend on the order in which sets are listed. */
  lemma {:induction false} SumPermuted(s: seq<MS>, t: seq<MS>, f: MS -> int)
    requires multiset(s) == multiset(t)
    ensures Sum(s, f) == Sum(t, f)
    decreases |s|
  {
    if s == [] {
      assert t == [] by { assert |multiset(t)| == 0; }
    } else {
      var k := FindHead(s, t);
      SumWithout(t, k, f);
      SumPermuted(s[1..], t[..k] + t[k + 1..], f);
    }
  }

  /**
   Available machines are those kept plus those lagging, and those asked for less the unhealthy plus those
   lagging.
   */
  lemma {:induction false} AvailableSplit(s: seq<MS>)
    ensures Sum(s, AvailOf) == Sum(s, KeptOf) + Sum(s, LagOf)
    ensures Sum(s, AvailOf) == Sum(s, SpecOf) - Sum(s, UnhealthyOf) + Sum(s, LagOf)
  {
    if s != [] { AvailableSplit(s[1..]); }
  }
}
