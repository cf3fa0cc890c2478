/** Availability through the old-set stage of a rolling-update pass, exactly. */
module Availability {
  import opened Basics
  import opened Fleet
  import opened RollingSpec
  import opened RollingSafety

  /** The promise: the machines kept available are at least what they were, or the minimum the deployment asks for. */
  predicate KeepsMinimum(newMS: MS, olds: seq<MS>, d: Deployment, accepts: nat) {
    Kept(newMS, ReconcileOld(newMS, olds, d, accepts).sets) >= Min(Kept(newMS, olds), MinAvailable(d))
  }

  /**
   When machines wrongly counted as available do no harm. If the allowance covers all unhealthy replicas, the
   second loop takes kept machines only: it must find no lag, nothing to take, or a new set that suffices alone.
   Otherwise the surplus it finds is lag beyond the unhealthy replicas left behind, and it must be used up on
   those of older sets and on the set's own before any kept machine is reached.
   */
  predicate LagHarmless(newMS: MS, olds: seq<MS>, d: Deployment) {
    if Sum(olds, UnhealthyOf) <= MaxScaledDown(newMS, olds, d) then
      || Lag(newMS, olds) == 0 || Sum(olds, AvailOf) + newMS.avail <= MinAvailable(d)
      || Sum(olds, KeptOf) == 0 || MinAvailable(d) <= KeptOf(newMS)
    else
      SurplusFound(newMS, olds, d) <= 0 || forall k | 0 <= k < |olds| :: Spared(newMS, olds, d, k)
  }

  /** What the second loop finds beyond the minimum where the first one has to leave unhealthy replicas behind. */
  function SurplusFound(newMS: MS, olds: seq<MS>, d: Deployment): int {
    Sum(olds, LagOf) - (Sum(olds, UnhealthyOf) - MaxScaledDown(newMS, olds, d))
  }

  predicate Spared(newMS: MS, olds: seq<MS>, d: Deployment, k: nat)
    requires k < |olds|
  {
    var unhealthy := UnhealthyOf(olds[k]);
    || KeptOf(olds[k]) == 0
    || SurplusFound(newMS, olds, d) + Min(MaxScaledDown(newMS, olds, d), Sum(olds[..k], UnhealthyOf) + unhealthy)
       <= Sum(olds[..k], SpecOf) + unhealthy
  }

  /** The sizes of a prefix after a cleanup that succeeds. */
  lemma {:induction false} CleanedPrefix(olds: seq<MS>, cleaned: seq<MS>, budget: int, k: nat)
    requires k <= |olds| == |cleaned| && SpecsValid(olds) && 0 <= budget
    requires forall i | 0 <= i < |olds| :: cleaned[i].spec == Share(Unhealthy, olds, budget, i)
    ensures 0 <= Sum(olds[..k], UnhealthyOf)
    ensures Sum(cleaned[..k], SpecOf) == Sum(olds[..k], SpecOf) - Min(budget, Sum(olds[..k], UnhealthyOf))
  {
    if k > 0 {
      CleanedPrefix(olds, cleaned, budget, k - 1);
      SumLast(olds, k, UnhealthyOf);
      SumLast(olds, k, SpecOf);
      SumLast(cleaned, k, SpecOf);
      hide Sum;
    }
  }

  lemma SumLast(s: seq<MS>, k: nat, f: MS -> int)
    requires 0 < k <= |s|
    ensures Sum(s[..k], f) == Sum(s[..k - 1], f) + f(s[k - 1])
  {
    SumAppend(s[..k - 1], [s[k - 1]], f);
    assert s[..k] == s[..k - 1] + [s[k - 1]] && [s[k - 1]][1..] == [];
  }

  /** The state the second loop starts from, once the first has succeeded. */
  lemma CleanedState(newMS: MS, olds: seq<MS>, d: Deployment, accepts: nat)
    requires SpecsValid(olds) && 0 < MaxScaledDown(newMS, olds, d)
    ensures var cleaned := Drain(Unhealthy, olds, GoalOf(d), MaxScaledDown(newMS, olds, d), accepts);
      && SpecsValid(cleaned.sets) && AllShrunk(olds, cleaned.sets)
      && Sum(cleaned.sets, KeptOf) == Sum(olds, KeptOf) && Sum(cleaned.sets, AvailOf) == Sum(olds, AvailOf)
      && (forall i | 0 <= i < |olds| :: KeptOf(cleaned.sets[i]) == KeptOf(olds[i]))
      && (cleaned.ok ==> forall i | 0 <= i < |olds| ::
            cleaned.sets[i].spec == Share(Unhealthy, olds, MaxScaledDown(newMS, olds, d), i))
  {
    hide Drain, GoalOf, MaxScaledDown, Share;
    var g, allowance := GoalOf(d), MaxScaledDown(newMS, olds, d);
    var cleaned := Drain(Unhealthy, olds, g, allowance, accepts);
    DrainShrinks(Unhealthy, olds, g, allowance, accepts);
    CleanupKeepsAvailable(olds, g, allowance, accepts);
    SumEq(olds, KeptOf, cleaned.sets, KeptOf);
    ShrunkKeeps(olds, cleaned.sets);
    forall i | 0 <= i < |olds| ensures cleaned.ok ==> cleaned.sets[i].spec == Share(Unhealthy, olds, allowance, i) {
      DrainShare(Unhealthy, olds, g, allowance, accepts, i);
    }
  }

  /** Cleaned of all unhealthy replicas, every old set has just its kept machines. */
  lemma AllCleaned(olds: seq<MS>, cleaned: seq<MS>, budget: int)
    requires |olds| == |cleaned| && SpecsValid(olds) && Sum(olds, UnhealthyOf) <= budget
    requires forall i | 0 <= i < |olds| :: cleaned[i].spec == Share(Unhealthy, olds, budget, i)
    ensures forall i | 0 <= i < |olds| :: cleaned[i].spec == KeptOf(olds[i])
    ensures Sum(cleaned, SpecOf) == Sum(olds, KeptOf)
  {
    hide Sum;
    forall i | 0 <= i < |olds| ensures cleaned[i].spec == KeptOf(olds[i]) { CleanedSet(olds, budget, i); }
    SumEq(cleaned, SpecOf, olds, KeptOf);
  }

  lemma CleanedSet(olds: seq<MS>, budget: int, i: nat)
    requires SpecsValid(olds) && Sum(olds, UnhealthyOf) <= budget && i < |olds|
    ensures Share(Unhealthy, olds, budget, i) == KeptOf(olds[i])
  {
    hide Sum;
    SumLast(olds, i + 1, UnhealthyOf);
    SumAppend(olds[..i + 1], olds[i + 1..], UnhealthyOf);
    SumNonNegative(olds[i + 1..], UnhealthyOf);
    assert olds[..i + 1] + olds[i + 1..] == olds;
  }

  /** A stage whose first loop has succeeded: the second loop's result, and what it keeps. */
  lemma AfterSecond(newMS: MS, olds: seq<MS>, d: Deployment, accepts: nat)
    requires SpecsValid(olds) && Sum(olds, SpecOf) != 0 && 0 < MaxScaledDown(newMS, olds, d)
    ensures var cleaned := Drain(Unhealthy, olds, GoalOf(d), MaxScaledDown(newMS, olds, d), accepts);
      var r := ReconcileOld(newMS, olds, d, accepts);
      && (!cleaned.ok ==> !r.ok && r.sets == cleaned.sets)
      && (cleaned.ok ==>
            && r.sets == ScaleDownOld(newMS, cleaned.sets, d, cleaned.left).sets
            && r.ok == ScaleDownOld(newMS, cleaned.sets, d, cleaned.left).ok)
  {
    hide Drain, GoalOf, ScaleDownOld;
  }

  lemma CoveredStage(newMS: MS, olds: seq<MS>, d: Deployment, cleaned: Sweep)
    requires SpecsValid(olds) && SpecsValid(cleaned.sets) && AllShrunk(olds, cleaned.sets)
    requires forall i | 0 <= i < |olds| :: cleaned.sets[i].spec == KeptOf(olds[i])
    requires Sum(cleaned.sets, SpecOf) == Sum(olds, KeptOf) && Sum(cleaned.sets, AvailOf) == Sum(olds, AvailOf)
    ensures var r, kept := ScaleDownOld(newMS, cleaned.sets, d, cleaned.left), Sum(olds, KeptOf);
      var most := Min(Max(0, Sum(olds, AvailOf) + newMS.avail - MinAvailable(d)), kept);
      kept - most <= Sum(r.sets, KeptOf) && (r.ok ==> Sum(r.sets, KeptOf) == kept - most)
  {
    hide ScaleDownOld, Sum, SpecsValid, AllShrunk, MinAvailable;
    SecondLoop(newMS, olds, d, cleaned);
    SecondShrinks(newMS, d, cleaned);
    AllKept(olds, cleaned.sets, ScaleDownOld(newMS, cleaned.sets, d, cleaned.left).sets);
  }

  lemma SecondShrinks(newMS: MS, d: Deployment, cleaned: Sweep)
    requires SpecsValid(cleaned.sets)
    ensures var r := ScaleDownOld(newMS, cleaned.sets, d, cleaned.left);
      && AllShrunk(cleaned.sets, r.sets) && SpecsValid(r.sets)
      && r.removed == Sum(cleaned.sets, SpecOf) - Sum(r.sets, SpecOf) <= Sum(cleaned.sets, SpecOf)
  {
    hide Drain, GoalOf, MinAvailable, Sum;
    var surplus := Sum(cleaned.sets, AvailOf) + newMS.avail - MinAvailable(d);
    DrainShrinks(Whole, cleaned.sets, GoalOf(d), surplus, cleaned.left);
    var r := ScaleDownOld(newMS, cleaned.sets, d, cleaned.left);
    ShrunkKeeps(cleaned.sets, r.sets);
    SumNonNegative(r.sets, SpecOf);
  }

  /** Sets cleaned of their unavailable replicas and then shrunk keep every replica available. */
  lemma AllKept(olds: seq<MS>, cleaned: seq<MS>, after: seq<MS>)
    requires AllShrunk(olds, cleaned) && AllShrunk(cleaned, after)
    requires forall i | 0 <= i < |olds| :: cleaned[i].spec == KeptOf(olds[i])
    ensures Sum(after, KeptOf) == Sum(after, SpecOf)
  {
    hide Sum;
    SumEq(after, KeptOf, after, SpecOf);
  }

  /** The allowance covers all unhealthy replicas. */
  lemma CoveredExactly(newMS: MS, olds: seq<MS>, d: Deployment, accepts: nat)
    requires SpecsValid(olds) && Sum(olds, SpecOf) != 0 && 0 < MaxScaledDown(newMS, olds, d)
    requires Sum(olds, UnhealthyOf) <= MaxScaledDown(newMS, olds, d)
    requires Drain(Unhealthy, olds, GoalOf(d), MaxScaledDown(newMS, olds, d), accepts).ok
    ensures LagHarmless(newMS, olds, d) ==> KeepsMinimum(newMS, olds, d, accepts)
    ensures ReconcileOld(newMS, olds, d, accepts).ok && KeepsMinimum(newMS, olds, d, accepts) ==>
      LagHarmless(newMS, olds, d)
  {
    hide Drain, GoalOf, MaxScaledDown, MaxUnavailable, ReconcileOld, ScaleDownOld, Share;
    var cleaned := Drain(Unhealthy, olds, GoalOf(d), MaxScaledDown(newMS, olds, d), accepts);
    CleanedState(newMS, olds, d, accepts);
    AllCleaned(olds, cleaned.sets, MaxScaledDown(newMS, olds, d));
    AfterSecond(newMS, olds, d, accepts);
    CoveredStage(newMS, olds, d, cleaned);
    AvailableSplit(olds);
    SumNonNegative(olds, KeptOf);
    SumNonNegative(olds, LagOf);
    hide Sum;
  }

  lemma SparedMeans(newMS: MS, olds: seq<MS>, d: Deployment, cleaned: seq<MS>, k: nat)
    requires k < |olds| == |cleaned| && SpecsValid(olds) && SpecsValid(cleaned)
    requires 0 < MaxScaledDown(newMS, olds, d) && KeptOf(cleaned[k]) == KeptOf(olds[k])
    requires forall i | 0 <= i < |olds| :: cleaned[i].spec == Share(Unhealthy, olds, MaxScaledDown(newMS, olds, d), i)
    ensures Spared(newMS, olds, d, k) <==> KeptOf(olds[k]) <= Share(Whole, cleaned, SurplusFound(newMS, olds, d), k)
  {
    hide MaxScaledDown;
    var allowance := MaxScaledDown(newMS, olds, d);
    CleanedPrefix(olds, cleaned, allowance, k);
    CleanedPrefix(olds, cleaned, allowance, k + 1);
    SumLast(olds, k + 1, UnhealthyOf);
    SumLast(olds, k + 1, SpecOf);
    SumLast(cleaned, k + 1, SpecOf);
    hide Sum, SurplusFound;
  }

  /** Where nothing falls and the sum does not, nothing changes. */
  lemma {:induction false} SumSame(s: seq<MS>, t: seq<MS>, f: MS -> int)
    requires |s| == |t| && forall i | 0 <= i < |s| :: f(t[i]) <= f(s[i])
    ensures Sum(t, f) <= Sum(s, f)
    ensures Sum(t, f) == Sum(s, f) ==> forall i | 0 <= i < |s| :: f(t[i]) == f(s[i])
  {
    if s != [] {
      SumSame(s[1..], t[1..], f);
      assert forall i | 1 <= i < |s| :: s[i] == s[1..][i - 1] && t[i] == t[1..][i - 1];
    }
  }

  /** The second loop with unhealthy replicas left behind: no kept machine is lost exactly if every set is spared. */
  lemma LeftBehindStage(newMS: MS, olds: seq<MS>, d: Deployment, cleaned: Sweep, surplus: int)
    requires SpecsValid(cleaned.sets) && |olds| == |cleaned.sets|
    requires forall i | 0 <= i < |olds| :: KeptOf(cleaned.sets[i]) == KeptOf(olds[i])
    requires surplus == Sum(cleaned.sets, AvailOf) + newMS.avail - MinAvailable(d)
    ensures var r := ScaleDownOld(newMS, cleaned.sets, d, cleaned.left);
      var spared := forall k | 0 <= k < |olds| :: KeptOf(olds[k]) <= Share(Whole, cleaned.sets, surplus, k);
      && Sum(r.sets, KeptOf) <= Sum(olds, KeptOf)
      && (surplus <= 0 || spared ==> Sum(r.sets, KeptOf) == Sum(olds, KeptOf))
      && (r.ok && Sum(r.sets, KeptOf) == Sum(olds, KeptOf) ==> surplus <= 0 || spared)
  {
    hide Drain, GoalOf, MaxUnavailable, Share, Sum;
    var g, r := GoalOf(d), ScaleDownOld(newMS, cleaned.sets, d, cleaned.left);
    SumEq(cleaned.sets, KeptOf, olds, KeptOf);
    if surplus > 0 {
      DrainShrinks(Whole, cleaned.sets, g, surplus, cleaned.left);
      forall k | 0 <= k < |olds|
        ensures Share(Whole, cleaned.sets, surplus, k) <= r.sets[k].spec
        ensures r.ok ==> r.sets[k].spec == Share(Whole, cleaned.sets, surplus, k)
      {
        DrainShare(Whole, cleaned.sets, g, surplus, cleaned.left, k);
      }
      SumSame(cleaned.sets, r.sets, KeptOf);
      if forall k | 0 <= k < |olds| :: KeptOf(olds[k]) <= Share(Whole, cleaned.sets, surplus, k) {
        SumLe(cleaned.sets, KeptOf, r.sets, KeptOf);
      }
    }
  }

  /** The allowance leaves unhealthy replicas behind. */
  lemma LeftBehindExactly(newMS: MS, olds: seq<MS>, d: Deployment, accepts: nat)
    requires SpecsValid(olds) && Sum(olds, SpecOf) != 0 && 0 < MaxScaledDown(newMS, olds, d)
    requires MaxScaledDown(newMS, olds, d) < Sum(olds, UnhealthyOf)
    requires Drain(Unhealthy, olds, GoalOf(d), MaxScaledDown(newMS, olds, d), accepts).ok
    ensures LagHarmless(newMS, olds, d) ==> KeepsMinimum(newMS, olds, d, accepts)
    ensures ReconcileOld(newMS, olds, d, accepts).ok && KeepsMinimum(newMS, olds, d, accepts) ==>
      LagHarmless(newMS, olds, d)
  {
    var surplus := SurplusFound(newMS, olds, d);
    AvailableSplit(olds);
    assert surplus == Sum(olds, AvailOf) + newMS.avail - MinAvailable(d);
    hide Drain, GoalOf, MaxScaledDown, MaxUnavailable, ReconcileOld, ScaleDownOld, Share, Spared, SurplusFound;
    var cleaned := Drain(Unhealthy, olds, GoalOf(d), MaxScaledDown(newMS, olds, d), accepts);
    CleanedState(newMS, olds, d, accepts);
    AfterSecond(newMS, olds, d, accepts);
    LeftBehindStage(newMS, olds, d, cleaned, surplus);
    forall k | 0 <= k < |olds|
      ensures Spared(newMS, olds, d, k) <==> KeptOf(olds[k]) <= Share(Whole, cleaned.sets, surplus, k)
    {
      SparedMeans(newMS, olds, d, cleaned.sets, k);
    }
    NothingToSpare(newMS, olds, d);
    hide Sum;
  }

  /** A surplus that is lag only means that fewer machines are kept than the minimum. */
  lemma NothingToSpare(newMS: MS, olds: seq<MS>, d: Deployment)
    requires MaxScaledDown(newMS, olds, d) < Sum(olds, UnhealthyOf)
    ensures Kept(newMS, olds) < MinAvailable(d)
  {
    AvailableSplit(olds);
    hide Sum, MaxUnavailable;
  }

  lemma NothingDone(newMS: MS, olds: seq<MS>, d: Deployment, accepts: nat)
    requires Sum(olds, SpecOf) == 0 || MaxScaledDown(newMS, olds, d) <= 0
    ensures KeepsMinimum(newMS, olds, d, accepts)
  {
  }

  /** Harmless lag keeps the promise however the stage is cut short, and a stage that succeeds keeps it only then. */
  lemma AvailabilityStage(newMS: MS, olds: seq<MS>, d: Deployment, accepts: nat)
    requires SpecsValid(olds) && Sum(olds, SpecOf) != 0 && 0 < MaxScaledDown(newMS, olds, d)
    ensures LagHarmless(newMS, olds, d) || Blocked(Unhealthy, olds, MaxScaledDown(newMS, olds, d))
      ==> KeepsMinimum(newMS, olds, d, accepts)
    ensures ReconcileOld(newMS, olds, d, accepts).ok ==>
      (KeepsMinimum(newMS, olds, d, accepts) <==> LagHarmless(newMS, olds, d))
  {
    hide Drain, GoalOf, MaxScaledDown, ReconcileOld, LagHarmless, Blocked, ScaleDownOld;
    var allowance := MaxScaledDown(newMS, olds, d);
    var cleaned := Drain(Unhealthy, olds, GoalOf(d), allowance, accepts);
    DrainSucceeds(Unhealthy, olds, GoalOf(d), allowance, accepts);
    AfterSecond(newMS, olds, d, accepts);
    if !cleaned.ok {
      CleanedState(newMS, olds, d, accepts);
    } else {
      hide KeepsMinimum;
      if Sum(olds, UnhealthyOf) <= allowance {
        CoveredExactly(newMS, olds, d, accepts);
      } else {
        LeftBehindExactly(newMS, olds, d, accepts);
      }
    }
  }

  ghost predicate AlwaysKeepsMinimum(newMS: MS, olds: seq<MS>, d: Deployment) {
    forall accepts: nat :: KeepsMinimum(newMS, olds, d, accepts)
  }

  /**
   Availability, exactly: the old-set stage keeps the promise, however many of its writes are accepted, if and only
   if it has nothing to do, its first loop fails on a set more available than large, or the lag is harmless.
   */
  lemma AvailabilityExactly(newMS: MS, olds: seq<MS>, d: Deployment)
    requires SpecsValid(olds)
    ensures AlwaysKeepsMinimum(newMS, olds, d) <==>
      || Sum(olds, SpecOf) == 0 || MaxScaledDown(newMS, olds, d) <= 0
      || Blocked(Unhealthy, olds, MaxScaledDown(newMS, olds, d)) || LagHarmless(newMS, olds, d)
  {
    hide KeepsMinimum, LagHarmless, Blocked, MaxScaledDown, ReconcileOld, Sum;
    if Sum(olds, SpecOf) == 0 || MaxScaledDown(newMS, olds, d) <= 0 {
      forall accepts: nat ensures KeepsMinimum(newMS, olds, d, accepts) {
        NothingDone(newMS, olds, d, accepts);
      }
    } else {
      forall accepts: nat
        ensures LagHarmless(newMS, olds, d) || Blocked(Unhealthy, olds, MaxScaledDown(newMS, olds, d))
          ==> KeepsMinimum(newMS, olds, d, accepts)
      {
        AvailabilityStage(newMS, olds, d, accepts);
      }
      ReconcileOldSucceeds(newMS, olds, d, 2 * |olds|);
      AvailabilityStage(newMS, olds, d, 2 * |olds|);
    }
  }

  /** Without lag the promise is always kept. */
  lemma NoLagKeepsMinimum(newMS: MS, olds: seq<MS>, d: Deployment, accepts: nat)
    requires SpecsValid(olds) && Lag(newMS, olds) == 0
    ensures KeepsMinimum(newMS, olds, d, accepts)
  {
    SumNonNegative(olds, LagOf);
    assert LagHarmless(newMS, olds, d);
    hide KeepsMinimum, LagHarmless;
    AvailabilityExactly(newMS, olds, d);
  }

  lemma ResizedSize(m: MS, n: int, g: Goal)
    ensures Resized(m, n, g) == m.(spec := n, annotations := Resized(m, n, g).annotations)
  {
  }

  /** A budget of one, with an empty set listed first, takes one replica of the second set. */
  lemma TakeOne(rule: Rule, gone: MS, m: MS, g: Goal, accepts: nat)
    requires gone.spec == 0 < Quota(rule, m) && 0 < accepts && rule != Excess
    ensures Drain(rule, [gone, m], g, 1, accepts)
      == Sweep([gone, Resized(m, m.spec - 1, g)], 1, accepts - 1, true)
  {
    hide Resized, ReplicasAnnotationsNeedUpdate, Drain;
    var after := Resized(m, m.spec - 1, g);
    assert [gone, m][1..] == [m] && [m][1..] == [];
    DrainStep(rule, [], g, 0, accepts - 1);
    DrainStep(rule, [m], g, 1, accepts);
    assert VisitSet(rule, m, g, 1, accepts) == Next(after, 1, accepts - 1);
    DrainStep(rule, [gone, m], g, 1, accepts);
    assert [gone] + [after] == [gone, after];
  }

  /**
   The lag matters: machines of an old set already scaled to zero, still reported available, make a
   pass of a deployment that tolerates no unavailability drop from three available machines to two,
   and remove two replicas on an allowance of one.
   */
  lemma LagBreaksAvailability()
    ensures var d := Deployment(3, RollingUpdate, Int(1), Int(0), 0);
      var empty := MS("new", 3, 0, 0, 0, map[]);
      var olds := [MS("gone", 1, 0, 1, 1, map[]), MS("old", 2, 4, 4, 3, map[])];
      var r := ReconcileOld(empty, olds, d, 4);
      && MinAvailable(d) == 3 && r.ok
      && Kept(empty, olds) == 3 && Kept(empty, r.sets) == 2
      && MaxScaledDown(empty, olds, d) == 1 && r.removed == 2 && !LagHarmless(empty, olds, d)
  {
    hide GoalOf;
    var d := Deployment(3, RollingUpdate, Int(1), Int(0), 0);
    var empty := MS("new", 3, 0, 0, 0, map[]);
    var gone, old0 := MS("gone", 1, 0, 1, 1, map[]), MS("old", 2, 4, 4, 3, map[]);
    var g := GoalOf(d);
    var old1 := Resized(old0, 3, g);
    var old2 := Resized(old1, 2, g);
    assert MaxUnavailable(d) == 0;
    hide Drain, Resized, MaxUnavailable;
    TakeOne(Unhealthy, gone, old0, g, 4);
    TakeOne(Whole, gone, old1, g, 3);
    ResizedSize(old0, 3, g);
    ResizedSize(old1, 2, g);
    SumPair(gone, old0, SpecOf);
    SumPair(gone, old1, AvailOf);
    assert ReconcileOld(empty, [gone, old0], d, 4) == Sweep([gone, old2], 2, 2, true);
    SumPair(gone, old0, KeptOf);
    SumPair(gone, old2, KeptOf);
    assert !KeepsMinimum(empty, [gone, old0], d, 4);
    hide KeepsMinimum, LagHarmless;
    AvailabilityStage(empty, [gone, old0], d, 4);
  }
}
