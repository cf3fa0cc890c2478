/**
 What one rolling-update pass does to the values of the sets (controllers/machinedeployment_rolling.go),
 and what each of its loops keeps. Old sets are listed oldest first.
 */
module RollingSpec {
  import opened Basics
  import opened Fleet

  // ---------------------------------------------------------------- one draining loop

  /**
   The loops over old sets: take the unhealthy replicas of each set, or whole sets. The loop of the
   OnDelete strategy takes whole sets too, and skips a negative size where the rolling update fails on it.
   */
  datatype Rule = Unhealthy | Whole | Excess

  function Quota(rule: Rule, m: MS): int {
    match rule
    case Unhealthy => if m.spec == 0 then 0 else m.spec - m.avail
    case Whole => m.spec
    case Excess => Max(0, m.spec)
  }

  /** What a set has to offer under a rule. */
  function OfferOf(rule: Rule): MS -> int {
    if rule.Unhealthy? then UnhealthyOf else SpecOf
  }

  /** A loop's result: the sets, replicas removed, writes left, and whether it ran without error. */
  datatype Sweep = Sweep(sets: seq<MS>, removed: int, left: nat, ok: bool)

  function Prepend(done: seq<MS>, removed: int, rest: Sweep): Sweep {
    Sweep(done + rest.sets, removed + rest.removed, rest.left, rest.ok)
  }

  /** One iteration: give up, or go on with this set as stored, the replicas taken and the writes left. */
  datatype Visit = Stop(left: nat) | Next(ms: MS, take: int, left: nat)

  /**
   A quota of zero skips the set. A negative one asks for more replicas than the set has, which the loop
   rejects; a failed write ends it too.
   */
  function VisitSet(rule: Rule, m: MS, g: Goal, budget: int, accepts: nat): Visit {
    var take := Min(budget, Quota(rule, m));
    if Quota(rule, m) == 0 then Next(m, 0, accepts)
    else if take < 0 then Stop(accepts)
    else
      var p := ScaleTo(m, m.spec - take, g, accepts);
      if p.ok then Next(p.ms, take, p.left) else Stop(p.left)
  }

  /** Oldest set first, take up to `budget` replicas. */
  function Drain(rule: Rule, sets: seq<MS>, g: Goal, budget: int, accepts: nat): (r: Sweep)
    ensures |r.sets| == |sets|
  {
    if sets == [] || budget <= 0 then Sweep(sets, 0, accepts, true)
    else match VisitSet(rule, sets[0], g, budget, accepts)
      case Stop(left) => Sweep(sets, 0, left, false)
      case Next(ms, take, left) => Prepend([ms], take, Drain(rule, sets[1..], g, budget - take, left))
  }

  predicate SpecsValid(sets: seq<MS>) {
    forall i | 0 <= i < |sets| :: 0 <= sets[i].spec && 0 <= sets[i].avail
  }

  predicate CaughtUp(sets: seq<MS>) {
    forall i | 0 <= i < |sets| :: sets[i].avail <= sets[i].spec
  }

  /** Same set, no larger: everything but spec and the replica annotations is untouched. */
  predicate Shrunk(before: MS, after: MS) {
    && 0 <= after.spec <= before.spec
    && after.name == before.name && after.created == before.created
    && after.status == before.status && after.avail == before.avail
  }

  predicate AllShrunk(before: seq<MS>, after: seq<MS>) {
    |before| == |after| && forall i | 0 <= i < |before| :: Shrunk(before[i], after[i])
  }

  lemma ShrunkPrepend(before: seq<MS>, first: MS, rest: seq<MS>)
    requires before != [] && Shrunk(before[0], first) && AllShrunk(before[1..], rest)
    ensures AllShrunk(before, [first] + rest)
    ensures Sum([first] + rest, SpecOf) == first.spec + Sum(rest, SpecOf)
  {
    assert ([first] + rest)[1..] == rest;
    forall i | 1 <= i < |before| ensures Shrunk(before[i], ([first] + rest)[i]) {
      assert before[i] == before[1..][i - 1] && ([first] + rest)[i] == rest[i - 1];
    }
  }

  lemma VisitShrinks(rule: Rule, m: MS, g: Goal, budget: int, accepts: nat)
    requires 0 <= m.spec && 0 <= m.avail && 0 < budget
    ensures 0 <= OfferOf(rule)(m) && (0 <= Quota(rule, m) ==> OfferOf(rule)(m) == Quota(rule, m))
    ensures var v := VisitSet(rule, m, g, budget, accepts);
      && (v.Next? ==> Shrunk(m, v.ms) && v.ms.spec == m.spec - v.take && v.take == Min(budget, OfferOf(rule)(m)))
      && (v.Next? ==> 0 <= Quota(rule, m))
      && v.left <= accepts && (0 < accepts ==> accepts - 1 <= v.left && (v.Next? <==> 0 <= Quota(rule, m)))
  {
  }

  /** The loop, one iteration at a time. */
  lemma DrainStep(rule: Rule, sets: seq<MS>, g: Goal, budget: int, accepts: nat)
    ensures sets == [] || budget <= 0 ==> Drain(rule, sets, g, budget, accepts) == Sweep(sets, 0, accepts, true)
    ensures sets != [] && 0 < budget ==>
      var v := VisitSet(rule, sets[0], g, budget, accepts);
      Drain(rule, sets, g, budget, accepts) ==
        if v.Stop? then Sweep(sets, 0, v.left, false)
        else Prepend([v.ms], v.take, Drain(rule, sets[1..], g, budget - v.take, v.left))
  {
    hide VisitSet;
  }

  /** Whatever cuts the loop short, it shrinks sets by exactly what it reports and never beyond its budget. */
  lemma {:induction false} DrainShrinks(rule: Rule, sets: seq<MS>, g: Goal, budget: int, accepts: nat)
    requires SpecsValid(sets)
    ensures var r := Drain(rule, sets, g, budget, accepts);
      && AllShrunk(sets, r.sets)
      && r.removed == Sum(sets, SpecOf) - Sum(r.sets, SpecOf)
      && 0 <= r.removed <= Max(0, budget)
  {
    hide Drain, VisitSet, Quota;
    DrainStep(rule, sets, g, budget, accepts);
    if sets != [] && budget > 0 {
      VisitShrinks(rule, sets[0], g, budget, accepts);
      var v := VisitSet(rule, sets[0], g, budget, accepts);
      if v.Next? {
        DrainShrinks(rule, sets[1..], g, budget - v.take, v.left);
        ShrunkPrepend(sets, v.ms, Drain(rule, sets[1..], g, budget - v.take, v.left).sets);
      }
    }
  }

  /** Annotations that the controllers do not refresh stay as they are. */
  lemma {:induction false} DrainKeepsKey(rule: Rule, sets: seq<MS>, g: Goal, budget: int, accepts: nat, k: nat,
                                         key: Key)
    requires k < |sets| && key != DesiredReplicas && key != MaxReplicas
    ensures var m := Drain(rule, sets, g, budget, accepts).sets[k];
      (key in m.annotations <==> key in sets[k].annotations)
      && Lookup(m.annotations, key) == Lookup(sets[k].annotations, key)
  {
    hide Quota, SetReplicasAnnotations, ReplicasAnnotationsNeedUpdate, ScaleTo, Drain;
    DrainStep(rule, sets, g, budget, accepts);
    if 0 < budget {
      var v := VisitSet(rule, sets[0], g, budget, accepts);
      ScaleToExact(sets[0], sets[0].spec - Min(budget, Quota(rule, sets[0])), g, accepts, key);
      if v.Next? && k > 0 { DrainKeepsKey(rule, sets[1..], g, budget - v.take, v.left, k - 1, key); }
    }
  }

  /** Only a set with something to offer is written, and then its annotations are refreshed along with its size. */
  lemma {:induction false} DrainTouches(rule: Rule, sets: seq<MS>, g: Goal, budget: int, accepts: nat, k: nat)
    requires SpecsValid(sets) && k < |sets|
    ensures var m := Drain(rule, sets, g, budget, accepts).sets[k];
      m != sets[k] ==> 0 < OfferOf(rule)(sets[k]) && !ReplicasAnnotationsNeedUpdate(m.annotations, g)
  {
    hide SetReplicasAnnotations, ReplicasAnnotationsNeedUpdate, ScaleTo, Drain;
    DrainStep(rule, sets, g, budget, accepts);
    if 0 < budget {
      var v := VisitSet(rule, sets[0], g, budget, accepts);
      ScaleToExact(sets[0], sets[0].spec - Min(budget, Quota(rule, sets[0])), g, accepts, DisableMachineCreate);
      hide Quota;
      if v.Next? && k > 0 { DrainTouches(rule, sets[1..], g, budget - v.take, v.left, k - 1); }
    }
  }

  /** Without writes the loop changes nothing. */
  lemma {:induction false} DrainNothing(rule: Rule, sets: seq<MS>, g: Goal, budget: int)
    requires SpecsValid(sets)
    ensures Drain(rule, sets, g, budget, 0).sets == sets && Drain(rule, sets, g, budget, 0).left == 0
  {
    hide Drain;
    DrainStep(rule, sets, g, budget, 0);
    if sets != [] && budget > 0 {
      var v := VisitSet(rule, sets[0], g, budget, 0);
      if v.Next? {
        assert v.ms == sets[0] && v.left == 0;
        DrainNothing(rule, sets[1..], g, budget - v.take);
        assert sets == [sets[0]] + sets[1..];
      }
    }
  }

  lemma OffersNonNegative(rule: Rule, sets: seq<MS>)
    requires SpecsValid(sets)
    ensures 0 <= Sum(sets, OfferOf(rule))
  {
    SumNonNegative(sets, OfferOf(rule));
  }

  /** Some set asks for more replicas than it has, and the budget lasts until it is reached. */
  predicate Blocked(rule: Rule, sets: seq<MS>, budget: int) {
    exists k | 0 <= k < |sets| :: BlockedAt(rule, sets, budget, k)
  }

  predicate BlockedAt(rule: Rule, sets: seq<MS>, budget: int, k: nat)
    requires k < |sets|
  {
    Quota(rule, sets[k]) < 0 && Sum(sets[..k], OfferOf(rule)) < budget
  }

  /** What stops the cleanup: a set that is not empty and more available than large, reached with budget left. */
  predicate StopsCleanup(sets: seq<MS>, budget: int, k: nat)
    requires k < |sets|
  {
    0 < sets[k].spec < sets[k].avail && Sum(sets[..k], UnhealthyOf) < budget
  }

  lemma BlockedExactly(sets: seq<MS>, budget: int)
    requires SpecsValid(sets)
    ensures Blocked(Unhealthy, sets, budget) <==> exists k | 0 <= k < |sets| :: StopsCleanup(sets, budget, k)
    ensures !Blocked(Whole, sets, budget) && !Blocked(Excess, sets, budget)
  {
    hide Sum;
    assert forall k | 0 <= k < |sets| :: BlockedAt(Unhealthy, sets, budget, k) <==> StopsCleanup(sets, budget, k);
  }

  lemma BlockedStep(rule: Rule, sets: seq<MS>, budget: int, take: int)
    requires sets != [] && SpecsValid(sets) && take == Min(budget, OfferOf(rule)(sets[0])) && 0 <= Quota(rule, sets[0])
    ensures Blocked(rule, sets, budget) <==> Blocked(rule, sets[1..], budget - take)
  {
    hide Quota, OfferOf;
    forall k | 1 <= k < |sets|
      ensures BlockedAt(rule, sets, budget, k) <==> BlockedAt(rule, sets[1..], budget - take, k - 1) {
      assert sets[..k][1..] == sets[1..][..k - 1] && sets[1..][k - 1] == sets[k];
      OffersNonNegative(rule, sets[1..][..k - 1]);
    }
    assert !BlockedAt(rule, sets, budget, 0);
    var rest, left := sets[1..], budget - take;
    if j :| 0 <= j < |rest| && BlockedAt(rule, rest, left, j) {
      assert BlockedAt(rule, sets, budget, j + 1);
    }
  }

  /**
   The loop never succeeds past a set that asks for more replicas than it has; and with a write for every set it
   fails for no other reason.
   */
  lemma {:induction false} DrainSucceeds(rule: Rule, sets: seq<MS>, g: Goal, budget: int, accepts: nat)
    requires SpecsValid(sets)
    ensures var r := Drain(rule, sets, g, budget, accepts);
      && (r.ok ==> !Blocked(rule, sets, budget))
      && (|sets| <= accepts ==> accepts - |sets| <= r.left <= accepts && (r.ok <==> !Blocked(rule, sets, budget)))
  {
    hide Drain, VisitSet, Quota, OfferOf, Blocked;
    DrainStep(rule, sets, g, budget, accepts);
    if sets == [] || budget <= 0 {
      NeverBlocked(rule, sets, budget);
    } else {
      VisitShrinks(rule, sets[0], g, budget, accepts);
      var v := VisitSet(rule, sets[0], g, budget, accepts);
      if v.Next? {
        BlockedStep(rule, sets, budget, v.take);
        DrainSucceeds(rule, sets[1..], g, budget - v.take, v.left);
      } else if 0 < accepts {
        BlockedFirst(rule, sets, budget);
      }
    }
  }

  lemma BlockedFirst(rule: Rule, sets: seq<MS>, budget: int)
    requires sets != [] && 0 < budget && Quota(rule, sets[0]) < 0
    ensures Blocked(rule, sets, budget)
  {
    assert BlockedAt(rule, sets, budget, 0);
  }

  /**
   Nothing blocks a loop without a budget, nor one that takes whole sets, nor one over sets no more available
   than large.
   */
  lemma NeverBlocked(rule: Rule, sets: seq<MS>, budget: int)
    requires SpecsValid(sets) && (sets == [] || budget <= 0 || !rule.Unhealthy? || CaughtUp(sets))
    ensures !Blocked(rule, sets, budget)
  {
    forall k | 0 <= k < |sets| ensures !BlockedAt(rule, sets, budget, k) {
      OffersNonNegative(rule, sets[..k]);
    }
  }

  /** A loop that succeeds takes all it may: the budget, or everything the rule offers. */
  lemma {:induction false} DrainTotal(rule: Rule, sets: seq<MS>, g: Goal, budget: int, accepts: nat)
    requires SpecsValid(sets) && Drain(rule, sets, g, budget, accepts).ok
    ensures Drain(rule, sets, g, budget, accepts).removed == Min(Max(0, budget), Sum(sets, OfferOf(rule)))
  {
    hide Drain, VisitSet, Quota, OfferOf;
    OffersNonNegative(rule, sets);
    DrainStep(rule, sets, g, budget, accepts);
    if sets != [] && budget > 0 {
      VisitShrinks(rule, sets[0], g, budget, accepts);
      var v := VisitSet(rule, sets[0], g, budget, accepts);
      OffersNonNegative(rule, sets[1..]);
      DrainTotal(rule, sets[1..], g, budget - v.take, v.left);
    }
  }

  /** What is left of the set at position k once every older set has been served and it has given up its offer. */
  function Share(rule: Rule, sets: seq<MS>, budget: int, k: nat): int
    requires k < |sets|
  {
    sets[k].spec - Min(OfferOf(rule)(sets[k]), Max(0, budget - Sum(sets[..k], OfferOf(rule))))
  }

  /**
   The loop in closed form: a loop that succeeds leaves every set its share, and one that is cut short leaves
   no set less.
   */
  lemma {:induction false} DrainShare(rule: Rule, sets: seq<MS>, g: Goal, budget: int, accepts: nat, k: nat)
    requires k < |sets| && SpecsValid(sets)
    ensures var r := Drain(rule, sets, g, budget, accepts);
      Share(rule, sets, budget, k) <= r.sets[k].spec && (r.ok ==> r.sets[k].spec == Share(rule, sets, budget, k))
  {
    hide Drain, VisitSet, Quota;
    OffersNonNegative(rule, sets[..k]);
    DrainStep(rule, sets, g, budget, accepts);
    assert 0 <= OfferOf(rule)(sets[k]);
    hide OfferOf;
    if budget > 0 {
      VisitShrinks(rule, sets[0], g, budget, accepts);
      var v, rest := VisitSet(rule, sets[0], g, budget, accepts), sets[1..];
      if k == 0 {
        assert sets[..k] == [];
      } else if v.Next? {
        assert sets[..k][1..] == rest[..k - 1];
        OffersNonNegative(rule, rest[..k - 1]);
        DrainShare(rule, rest, g, budget - v.take, v.left, k - 1);
      }
    }
  }

  // ---------------------------------------------------------------- the old sets of a pass

  /** The single allowance reconcileOldMachineSets computes before either loop runs. */
  function MaxScaledDown(newMS: MS, olds: seq<MS>, d: Deployment): int {
    Sum(olds, SpecOf) + newMS.spec - MinAvailable(d) - (newMS.spec - newMS.avail)
  }

  function ScaleDownOld(newMS: MS, olds: seq<MS>, d: Deployment, accepts: nat): Sweep {
    var available := Sum(olds, AvailOf) + newMS.avail;
    if available <= MinAvailable(d) then Sweep(olds, 0, accepts, true)
    else Drain(Whole, olds, GoalOf(d), available - MinAvailable(d), accepts)
  }

  function ReconcileOld(newMS: MS, olds: seq<MS>, d: Deployment, accepts: nat): Sweep {
    var allowance := MaxScaledDown(newMS, olds, d);
    if Sum(olds, SpecOf) == 0 || allowance <= 0 then Sweep(olds, 0, accepts, true)
    else
      var cleaned := Drain(Unhealthy, olds, GoalOf(d), allowance, accepts);
      if !cleaned.ok then cleaned
      else
        var drained := ScaleDownOld(newMS, cleaned.sets, d, cleaned.left);
        drained.(removed := cleaned.removed + drained.removed)
  }

  // ---------------------------------------------------------------- the new set of a pass

  /** NewMSNewReplicas, given the peak of all sets and the new set's size. */
  function NewReplicas(d: Deployment, peak: int, n: int): Option<int> {
    match d.strategy
    case RollingUpdate =>
      (match SurgeCap(d)
       case None => None
       case Some(cap) => Some(if peak >= cap then n else n + Min(cap - peak, d.replicas - n)))
    case OnDelete => Some(if peak >= d.replicas then n else n + d.replicas - peak)
    case OtherStrategy => None
  }

  function ReconcileNew(newMS: MS, olds: seq<MS>, d: Deployment, accepts: nat): Patched {
    if newMS.spec == d.replicas then Patched(newMS, accepts, true)
    else if newMS.spec > d.replicas then ScaleTo(newMS, d.replicas, GoalOf(d), accepts)
    else match NewReplicas(d, Sum(olds, PeakOf) + PeakOf(newMS), newMS.spec)
      case None => Patched(newMS, accepts, false)
      case Some(n) => ScaleTo(newMS, n, GoalOf(d), accepts)
  }

  /** The set getNewMachineSet creates when no set matches the template. */
  function Created(b: Birth, olds: seq<MS>, d: Deployment): Option<MS> {
    match NewReplicas(d, Sum(olds, PeakOf), 0)
    case None => None
    case Some(n) => Some(MS(b.name, b.created, n, 0, 0, b.annotations))
  }
}
