/** What the old-set stage of every rolling-update pass keeps: the composed scale-down budget, and availability. */
module RollingSafety {
  import opened Basics
  import opened Fleet
  import opened RollingSpec

  // ---------------------------------------------------------------- the two budgets

  /** Cleanup leaves every set at or above its available count, so nothing kept is lost and nothing new lags. */
  lemma {:induction false} CleanupKeepsAvailable(sets: seq<MS>, g: Goal, budget: int, accepts: nat)
    requires SpecsValid(sets)
    ensures var r := Drain(Unhealthy, sets, g, budget, accepts);
      forall i | 0 <= i < |sets| :: KeptOf(r.sets[i]) == KeptOf(sets[i]) && LagOf(r.sets[i]) == LagOf(sets[i])
  {
    hide Drain, VisitSet;
    DrainStep(Unhealthy, sets, g, budget, accepts);
    if sets != [] && budget > 0 {
      VisitShrinks(Unhealthy, sets[0], g, budget, accepts);
      var v := VisitSet(Unhealthy, sets[0], g, budget, accepts);
      if v.Next? {
        CleanupKeepsAvailable(sets[1..], g, budget - v.take, v.left);
        assert forall i | 1 <= i < |sets| :: sets[i] == sets[1..][i - 1];
      }
    }
  }

  lemma ShrunkKeeps(before: seq<MS>, after: seq<MS>)
    requires SpecsValid(before) && AllShrunk(before, after)
    ensures SpecsValid(after)
    ensures Sum(after, SpecOf) <= Sum(before, SpecOf)
    ensures Sum(after, PeakOf) <= Sum(before, PeakOf)
    ensures Sum(after, AvailOf) == Sum(before, AvailOf)
  {
    SumLe(after, SpecOf, before, SpecOf);
    SumLe(after, PeakOf, before, PeakOf);
    SumEq(after, AvailOf, before, AvailOf);
  }

  /** Whatever cuts it short, the old-set stage only shrinks old sets, by what it reports. */
  lemma ReconcileOldShrinks(newMS: MS, olds: seq<MS>, d: Deployment, accepts: nat)
    requires SpecsValid(olds)
    ensures var r := ReconcileOld(newMS, olds, d, accepts);
      && AllShrunk(olds, r.sets)
      && 0 <= r.removed == Sum(olds, SpecOf) - Sum(r.sets, SpecOf)
  {
    hide Drain;
    var allowance := MaxScaledDown(newMS, olds, d);
    var cleaned := Drain(Unhealthy, olds, GoalOf(d), allowance, accepts);
    DrainShrinks(Unhealthy, olds, GoalOf(d), allowance, accepts);
    ShrunkKeeps(olds, cleaned.sets);
    var available := Sum(cleaned.sets, AvailOf) + newMS.avail;
    DrainShrinks(Whole, cleaned.sets, GoalOf(d), available - MinAvailable(d), cleaned.left);
  }

  /**
   What both loops may remove beyond the allowance: the machines of old sets still counted as available
   beyond spec, less the unhealthy replicas that the first loop has to leave behind.
   */
  function Overrun(newMS: MS, olds: seq<MS>, d: Deployment): int {
    Max(0, Sum(olds, LagOf) - Max(0, Sum(olds, UnhealthyOf) - MaxScaledDown(newMS, olds, d)))
  }

  /** The first loop takes its share of the allowance, and the second what it finds beyond the minimum. */
  lemma StagesRemove(newMS: MS, olds: seq<MS>, d: Deployment, accepts: nat)
    requires SpecsValid(olds) && Sum(olds, SpecOf) != 0 && 0 < MaxScaledDown(newMS, olds, d)
    ensures var r, first := ReconcileOld(newMS, olds, d, accepts),
        Min(MaxScaledDown(newMS, olds, d), Sum(olds, UnhealthyOf));
      var surplus := Max(0, Sum(olds, AvailOf) + newMS.avail - MinAvailable(d));
      && (r.ok ==> r.removed == first + Min(surplus, Sum(olds, SpecOf) - first))
      && (r.removed <= first + surplus || r.removed <= MaxScaledDown(newMS, olds, d))
  {
    hide Drain, GoalOf, MaxUnavailable;
    var g, allowance := GoalOf(d), MaxScaledDown(newMS, olds, d);
    var cleaned := Drain(Unhealthy, olds, g, allowance, accepts);
    DrainShrinks(Unhealthy, olds, g, allowance, accepts);
    ShrunkKeeps(olds, cleaned.sets);
    if cleaned.ok {
      DrainTotal(Unhealthy, olds, g, allowance, accepts);
      SecondLoop(newMS, olds, d, cleaned);
    }
  }

  lemma SecondLoop(newMS: MS, olds: seq<MS>, d: Deployment, cleaned: Sweep)
    requires SpecsValid(cleaned.sets) && Sum(cleaned.sets, AvailOf) == Sum(olds, AvailOf)
    ensures var drained := ScaleDownOld(newMS, cleaned.sets, d, cleaned.left);
      var surplus := Max(0, Sum(olds, AvailOf) + newMS.avail - MinAvailable(d));
      drained.removed <= surplus && (drained.ok ==> drained.removed == Min(surplus, Sum(cleaned.sets, SpecOf)))
  {
    hide Drain, GoalOf;
    var g, surplus := GoalOf(d), Sum(cleaned.sets, AvailOf) + newMS.avail - MinAvailable(d);
    SumNonNegative(cleaned.sets, SpecOf);
    DrainShrinks(Whole, cleaned.sets, g, surplus, cleaned.left);
    if Drain(Whole, cleaned.sets, g, surplus, cleaned.left).ok {
      DrainTotal(Whole, cleaned.sets, g, surplus, cleaned.left);
    }
  }

  /** The first loop's share and the surplus the second one finds add up to the allowance and the overrun. */
  lemma TwoBudgets(allowance: int, unhealthy: int, lag: int)
    requires 0 < allowance && 0 <= unhealthy && 0 <= lag
    ensures Min(allowance, unhealthy) + Max(0, allowance - unhealthy + lag)
      == allowance + Max(0, lag - Max(0, unhealthy - allowance))
  {
  }

  /**
   The budget of the second loop is computed from scratch. In closed form, a stage that succeeds removes
   the allowance computed up front and the overrun, as far as there are old replicas; one that fails half-way
   removes no more.
   */
  lemma RemovedExactly(newMS: MS, olds: seq<MS>, d: Deployment, accepts: nat)
    requires SpecsValid(olds)
    ensures var r, allowance := ReconcileOld(newMS, olds, d, accepts), MaxScaledDown(newMS, olds, d);
      var most := if allowance <= 0 then 0 else Min(Sum(olds, SpecOf), allowance + Overrun(newMS, olds, d));
      r.removed <= most && (r.ok ==> r.removed == most)
  {
    RemovedAtMost(newMS, olds, d, accepts);
    SumNonNegative(olds, UnhealthyOf);
    SumNonNegative(olds, LagOf);
    AvailableSplit(olds);
    var allowance := MaxScaledDown(newMS, olds, d);
    if Sum(olds, SpecOf) != 0 && allowance > 0 {
      StagesRemove(newMS, olds, d, accepts);
      hide ReconcileOld, Sum, SpecsValid, MaxUnavailable;
      TwoBudgets(allowance, Sum(olds, UnhealthyOf), Sum(olds, LagOf));
    }
  }

  lemma RemovedAtMost(newMS: MS, olds: seq<MS>, d: Deployment, accepts: nat)
    requires SpecsValid(olds)
    ensures 0 <= ReconcileOld(newMS, olds, d, accepts).removed <= Sum(olds, SpecOf)
  {
    ReconcileOldShrinks(newMS, olds, d, accepts);
    hide ReconcileOld;
    SumNonNegative(ReconcileOld(newMS, olds, d, accepts).sets, SpecOf);
  }

  /**
   The two budgets compose exactly when the overrun is zero or there is nothing left to overrun into: the
   lagging machines are no more than the unhealthy replicas beyond the allowance. Where that holds, no
   failed prefix of the stage exceeds the allowance either.
   */
  lemma BudgetsCompose(newMS: MS, olds: seq<MS>, d: Deployment, accepts: nat)
    requires SpecsValid(olds)
    ensures var r, allowance := ReconcileOld(newMS, olds, d, accepts), MaxScaledDown(newMS, olds, d);
      var composes := allowance <= 0 || Sum(olds, SpecOf) <= allowance
        || Sum(olds, LagOf) <= Max(0, Sum(olds, UnhealthyOf) - allowance);
      && (composes ==> r.removed <= Max(0, allowance))
      && (r.ok ==> (r.removed <= Max(0, allowance) <==> composes))
  {
    hide ReconcileOld;
    RemovedExactly(newMS, olds, d, accepts);
  }

  lemma NoLagNoOverrun(newMS: MS, olds: seq<MS>, d: Deployment)
    requires CaughtUp(olds)
    ensures Overrun(newMS, olds, d) == 0
  {
    SumNonNegative(olds, LagOf);
  }

  /** So a stage that succeeds keeps just the old replicas that the new set's available machines do not replace. */
  lemma OldReplicasLeft(newMS: MS, olds: seq<MS>, d: Deployment, accepts: nat)
    requires SpecsValid(olds) && ReconcileOld(newMS, olds, d, accepts).ok
    ensures Sum(ReconcileOld(newMS, olds, d, accepts).sets, SpecOf)
      == if MaxScaledDown(newMS, olds, d) <= 0 then Sum(olds, SpecOf)
         else Max(0, MinAvailable(d) - newMS.avail - Overrun(newMS, olds, d))
  {
    RemovedExactly(newMS, olds, d, accepts);
    ReconcileOldShrinks(newMS, olds, d, accepts);
  }

  /** With two writes per old set, the stage fails exactly if its first loop reaches a set more available than large. */
  lemma ReconcileOldSucceeds(newMS: MS, olds: seq<MS>, d: Deployment, accepts: nat)
    requires SpecsValid(olds) && 2 * |olds| <= accepts
    ensures ReconcileOld(newMS, olds, d, accepts).ok
      <==> Sum(olds, SpecOf) == 0 || !Blocked(Unhealthy, olds, MaxScaledDown(newMS, olds, d))
  {
    hide Drain, GoalOf, Blocked;
    var g, allowance := GoalOf(d), MaxScaledDown(newMS, olds, d);
    var cleaned := Drain(Unhealthy, olds, g, allowance, accepts);
    DrainSucceeds(Unhealthy, olds, g, allowance, accepts);
    DrainShrinks(Unhealthy, olds, g, allowance, accepts);
    ShrunkKeeps(olds, cleaned.sets);
    if allowance <= 0 { NeverBlocked(Unhealthy, olds, allowance); }
    var surplus := Sum(cleaned.sets, AvailOf) + newMS.avail - MinAvailable(d);
    DrainSucceeds(Whole, cleaned.sets, g, surplus, cleaned.left);
    NeverBlocked(Whole, cleaned.sets, surplus);
  }

  /** Both, for old sets no more available than large. */
  lemma CaughtUpOldStage(newMS: MS, olds: seq<MS>, d: Deployment, accepts: nat)
    requires SpecsValid(olds) && CaughtUp(olds) && 2 * |olds| <= accepts
    ensures var r, old0 := ReconcileOld(newMS, olds, d, accepts), Sum(olds, SpecOf);
      && 0 <= old0 && r.ok
      && Sum(r.sets, SpecOf) ==
         if old0 == 0 || old0 + newMS.avail <= MinAvailable(d) then old0 else Max(0, MinAvailable(d) - newMS.avail)
  {
    hide ReconcileOld, Overrun, Blocked, MaxUnavailable;
    SumNonNegative(olds, SpecOf);
    ReconcileOldSucceeds(newMS, olds, d, accepts);
    NeverBlocked(Unhealthy, olds, MaxScaledDown(newMS, olds, d));
    OldReplicasLeft(newMS, olds, d, accepts);
    NoLagNoOverrun(newMS, olds, d);
    ReconcileOldShrinks(newMS, olds, d, accepts);
    SumNonNegative(ReconcileOld(newMS, olds, d, accepts).sets, SpecOf);
  }

  // ---------------------------------------------------------------- availability

  lemma {:induction false} KeptFallsByRemoved(before: seq<MS>, after: seq<MS>)
    requires AllShrunk(before, after)
    ensures Sum(before, KeptOf) - (Sum(before, SpecOf) - Sum(after, SpecOf)) <= Sum(after, KeptOf)
    ensures Sum(after, KeptOf) <= Sum(before, KeptOf)
  {
    if before != [] {
      assert AllShrunk(before[1..], after[1..]);
      KeptFallsByRemoved(before[1..], after[1..]);
    }
  }

  function Kept(newMS: MS, olds: seq<MS>): int { Sum(olds, KeptOf) + KeptOf(newMS) }

  function Lag(newMS: MS, olds: seq<MS>): int { Sum(olds, LagOf) + LagOf(newMS) }

  /**
   Availability, with no assumption on how far the statuses lag: after the old-set stage, or any prefix
   of it that a failure leaves behind, the machines kept available are at least what they were, or the
   minimum the deployment asks for less the machines wrongly counted as available.
   */
  lemma AvailabilityFloor(newMS: MS, olds: seq<MS>, d: Deployment, accepts: nat)
    requires SpecsValid(olds)
    ensures Kept(newMS, ReconcileOld(newMS, olds, d, accepts).sets)
      >= Min(Kept(newMS, olds), MinAvailable(d) - Lag(newMS, olds))
  {
    hide Drain, GoalOf;
    var g, allowance := GoalOf(d), MaxScaledDown(newMS, olds, d);
    if Sum(olds, SpecOf) != 0 && allowance > 0 {
      var cleaned := Drain(Unhealthy, olds, g, allowance, accepts);
      DrainShrinks(Unhealthy, olds, g, allowance, accepts);
      CleanupKeepsAvailable(olds, g, allowance, accepts);
      SumEq(olds, KeptOf, cleaned.sets, KeptOf);
      SumEq(olds, LagOf, cleaned.sets, LagOf);
      ShrunkKeeps(olds, cleaned.sets);
      AvailableSplit(cleaned.sets);
      var surplus := Sum(cleaned.sets, AvailOf) + newMS.avail - MinAvailable(d);
      DrainShrinks(Whole, cleaned.sets, g, surplus, cleaned.left);
      KeptFallsByRemoved(cleaned.sets, Drain(Whole, cleaned.sets, g, surplus, cleaned.left).sets);
    }
  }
}
