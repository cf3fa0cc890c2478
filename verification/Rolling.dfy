/** The rolling-update pass as the controller runs it, on API objects (controllers/machinedeployment_rolling.go). */
module Rolling {
  import opened Basics
  import opened Fleet
  import opened RollingSpec
  import opened RollingRuns
  import opened Objects
  import opened Cleanup
  import AnnotationSync

  lemma PrependMore(done: seq<MS>, removed: int, m: MS, take: int, rest: Sweep)
    ensures Prepend(done, removed, Prepend([m], take, rest)) == Prepend(done + [m], removed + take, rest)
  {
  }

  /** The result of a loop that has handled the first i sets and goes on with the others as they were. */
  ghost predicate Halfway(rule: Rule, all: Sweep, s: seq<MachineSet>, i: nat, start: seq<MS>, g: Goal, budget: int,
                          removed: int, accepts: nat)
    requires i <= |s| == |start|
    reads s
  {
    && Values(s[i..]) == start[i..]
    && all == Prepend(Values(s[..i]), removed, Drain(rule, start[i..], g, budget - removed, accepts))
  }

  lemma HalfwayStart(rule: Rule, s: seq<MachineSet>, g: Goal, budget: int, accepts: nat)
    ensures Halfway(rule, Drain(rule, Values(s), g, budget, accepts), s, 0, Values(s), g, budget, 0, accepts)
  {
    hide Drain, Values;
    assert s[0..] == s && Values(s)[0..] == Values(s);
  }

  lemma HalfwayHere(rule: Rule, all: Sweep, s: seq<MachineSet>, i: nat, start: seq<MS>, g: Goal, budget: int,
                    removed: int, accepts: nat)
    requires i < |s| == |start| && Halfway(rule, all, s, i, start, g, budget, removed, accepts)
    ensures s[i].Value() == start[i] && Values(s[i + 1..]) == start[i + 1..]
    ensures all == Prepend(Values(s[..i]), removed, Drain(rule, start[i..], g, budget - removed, accepts))
  {
    hide Drain;
    ValuesHead(s, i);
  }

  lemma HalfwayDone(rule: Rule, all: Sweep, s: seq<MachineSet>, i: nat, start: seq<MS>, g: Goal, budget: int,
                    removed: int, accepts: nat)
    requires i <= |s| == |start| && Halfway(rule, all, s, i, start, g, budget, removed, accepts)
    requires i == |s| || budget <= removed
    ensures all == Sweep(Values(s), removed, accepts, true)
  {
    hide Values;
    ValuesSplit(s, i);
  }

  lemma HalfwayStopped(rule: Rule, all: Sweep, s: seq<MachineSet>, i: nat, start: seq<MS>, g: Goal, budget: int,
                       removed: int, accepts: nat)
    requires i < |s| == |start| && removed < budget
    requires all == Prepend(Values(s[..i]), removed, Drain(rule, start[i..], g, budget - removed, accepts))
    requires s[i].Value() == start[i] && Values(s[i + 1..]) == start[i + 1..]
    requires VisitSet(rule, start[i], g, budget - removed, accepts).Stop?
    ensures all == Sweep(Values(s), removed, VisitSet(rule, start[i], g, budget - removed, accepts).left, false)
  {
    hide Values, VisitSet;
    ValuesSplit(s, i);
    ValuesHead(s, i);
  }

  lemma HalfwayNext(rule: Rule, all: Sweep, done: seq<MS>, i: nat, start: seq<MS>, g: Goal, budget: int,
                    removed: int, accepts: nat)
    requires i < |start| && removed < budget
    requires all == Prepend(done, removed, Drain(rule, start[i..], g, budget - removed, accepts))
    requires VisitSet(rule, start[i], g, budget - removed, accepts).Next?
    ensures var v := VisitSet(rule, start[i], g, budget - removed, accepts);
      all == Prepend(done + [v.ms], removed + v.take,
          Drain(rule, start[i + 1..], g, budget - (removed + v.take), v.left))
  {
    hide VisitSet, Drain;
    var v := VisitSet(rule, start[i], g, budget - removed, accepts);
    DrainStep(rule, start[i..], g, budget - removed, accepts);
    assert start[i..][1..] == start[i + 1..];
    PrependMore(done, removed, v.ms, v.take, Drain(rule, start[i + 1..], g, budget - removed - v.take, v.left));
  }

  /** One more set is handled, and the rest is as it was. */
  lemma HalfwayStep(rule: Rule, all: Sweep, s: seq<MachineSet>, i: nat, start: seq<MS>, g: Goal, budget: int,
                    removed: int, accepts: nat)
    requires i < |s| == |start| && removed < budget
    requires all == Prepend(Values(s[..i]), removed, Drain(rule, start[i..], g, budget - removed, accepts))
    requires Values(s[i + 1..]) == start[i + 1..]
    requires var v := VisitSet(rule, start[i], g, budget - removed, accepts); v.Next? && s[i].Value() == v.ms
    ensures var v := VisitSet(rule, start[i], g, budget - removed, accepts);
      Halfway(rule, all, s, i + 1, start, g, budget, removed + v.take, v.left)
  {
    HalfwayNext(rule, all, Values(s[..i]), i, start, g, budget, removed, accepts);
    hide VisitSet, Drain;
    ValuesAppend(s[..i], [s[i]]);
    assert s[..i + 1] == s[..i] + [s[i]];
    assert Values([s[i]]) == [s[i].Value()];
  }

  /** The body of the loop in cleanupUnhealthyReplicas, for one set and what is left of the budget. */
  method VisitUnhealthy(api: ApiServer, target: MachineSet, d: Deployment, budget: int) returns (take: int, ok: bool)
    requires 0 < budget
    modifies api, target
    ensures var v := VisitSet(Unhealthy, old(target.Value()), GoalOf(d), budget, old(api.accepts));
      && ok == v.Next? && api.accepts == v.left
      && (if ok then target.Value() == v.ms && take == v.take else target.Value() == old(target.Value()))
  {
    take, ok := 0, true;
    if target.replicas != 0 && target.replicas != target.available {
      take := Min(budget, target.replicas - target.available);
      var newReplicas := target.replicas - take;
      if newReplicas > target.replicas {
        ok := false;
      } else {
        ok := ScaleMachineSet(api, target, newReplicas, d);
      }
    }
  }

  /** The body of the loop in scaleDownOldMachineSetsForRollingUpdate. */
  method VisitWhole(api: ApiServer, target: MachineSet, d: Deployment, budget: int) returns (take: int, ok: bool)
    requires 0 < budget
    modifies api, target
    ensures var v := VisitSet(Whole, old(target.Value()), GoalOf(d), budget, old(api.accepts));
      && ok == v.Next? && api.accepts == v.left
      && (if ok then target.Value() == v.ms && take == v.take else target.Value() == old(target.Value()))
  {
    take, ok := 0, true;
    if target.replicas != 0 {
      take := Min(target.replicas, budget);
      var newReplicas := target.replicas - take;
      if newReplicas > target.replicas {
        ok := false;
      } else {
        ok := ScaleMachineSet(api, target, newReplicas, d);
      }
    }
  }

  /** The loop both stages share: visit the sets in order until the budget is used up. */
  method VisitAll(api: ApiServer, rule: Rule, sorted: seq<MachineSet>, d: Deployment, budget: int)
    returns (removed: int, ok: bool)
    requires DistinctNames(sorted) && !rule.Excess?
    modifies api, sorted
    ensures Sweep(Values(sorted), removed, api.accepts, ok)
      == Drain(rule, old(Values(sorted)), GoalOf(d), budget, old(api.accepts))
  {
    hide Drain, VisitSet, GoalOf, Values, Halfway;
    ghost var start, g := Values(sorted), GoalOf(d);
    ghost var all := Drain(rule, start, g, budget, api.accepts);
    HalfwayStart(rule, sorted, g, budget, api.accepts);
    removed := 0;
    var i := 0;
    while i < |sorted|
      invariant 0 <= i <= |sorted|
      invariant Halfway(rule, all, sorted, i, start, g, budget, removed, api.accepts)
    {
      if removed >= budget {
        break;
      }
      ghost var done, accepts := Values(sorted[..i]), api.accepts;
      HalfwayHere(rule, all, sorted, i, start, g, budget, removed, accepts);
      var take, visited;
      if rule.Unhealthy? {
        take, visited := VisitUnhealthy(api, sorted[i], d, budget - removed);
      } else {
        take, visited := VisitWhole(api, sorted[i], d, budget - removed);
      }
      assert Values(sorted[..i]) == done && Values(sorted[i + 1..]) == start[i + 1..];
      if !visited {
        HalfwayStopped(rule, all, sorted, i, start, g, budget, removed, accepts);
        return removed, false;
      }
      HalfwayStep(rule, all, sorted, i, start, g, budget, removed, accepts);
      removed := removed + take;
      i := i + 1;
    }
    HalfwayDone(rule, all, sorted, i, start, g, budget, removed, api.accepts);
    ok := true;
  }

  /** cleanupUnhealthyReplicas. */
  method CleanupUnhealthyReplicas(api: ApiServer, oldMSs: seq<MachineSet>, d: Deployment, maxCleanup: int)
    returns (sorted: seq<MachineSet>, removed: int, ok: bool)
    requires DistinctNames(oldMSs)
    modifies api, oldMSs
    ensures multiset(sorted) == multiset(oldMSs) && DistinctNames(sorted)
    ensures forall i | 0 <= i < |sorted| :: sorted[i] in oldMSs
    ensures OldestFirst(sorted) && multiset(old(Values(sorted))) == multiset(old(Values(oldMSs)))
    ensures Sweep(Values(sorted), removed, api.accepts, ok)
      == Drain(Unhealthy, old(Values(sorted)), GoalOf(d), maxCleanup, old(api.accepts))
  {
    sorted := Sort(oldMSs, ByCreation);
    SameElements(sorted, oldMSs);
    ValuesPermuted(sorted, oldMSs);
    hide Less, Drain, Values;
    assert forall i | 0 <= i < |sorted| :: sorted[i] in oldMSs;
    removed, ok := VisitAll(api, Unhealthy, sorted, d, maxCleanup);
  }

  /** scaleDownOldMachineSetsForRollingUpdate, on the list the cleanup has just sorted. */
  method ScaleDownOldMachineSets(api: ApiServer, newMS: MachineSet, oldMSs: seq<MachineSet>, d: Deployment)
    returns (removed: int, ok: bool)
    requires DistinctNames(oldMSs) && OldestFirst(oldMSs) && newMS !in oldMSs
    modifies api, oldMSs
    ensures newMS.Value() == old(newMS.Value())
    ensures Sweep(Values(oldMSs), removed, api.accepts, ok)
      == ScaleDownOld(old(newMS.Value()), old(Values(oldMSs)), d, old(api.accepts))
  {
    hide Drain, Less, CreatedBefore, MaxUnavailable;
    var available := Accumulate(oldMSs, AvailOf);
    available := available + newMS.available;
    var minAvailable := d.replicas - MaxUnavailable(d);
    if available <= minAvailable {
      return 0, true;
    }
    var sorted := Sort(oldMSs, ByCreation);
    SortedUnique(oldMSs, sorted);
    removed, ok := VisitAll(api, Whole, sorted, d, available - minAvailable);
  }

  /**
   reconcileOldMachineSets. The list is sorted only once something may be removed; `sorted` is the order
   in which the sets were visited.
   */
  method ReconcileOldMachineSets(api: ApiServer, newMS: MachineSet, oldMSs: seq<MachineSet>, d: Deployment)
    returns (sorted: seq<MachineSet>, removed: int, ok: bool)
    requires DistinctNames(oldMSs) && newMS !in oldMSs
    modifies api, oldMSs
    ensures multiset(sorted) == multiset(oldMSs) && forall i | 0 <= i < |sorted| :: sorted[i] in oldMSs
    ensures OldestFirst(sorted) || Values(sorted) == old(Values(sorted))
    ensures multiset(old(Values(sorted))) == multiset(old(Values(oldMSs)))
    ensures newMS.Value() == old(newMS.Value())
    ensures Sweep(Values(sorted), removed, api.accepts, ok)
      == ReconcileOld(old(newMS.Value()), old(Values(sorted)), d, old(api.accepts))
  {
    hide Drain, MaxUnavailable, Values, OldestFirst;
    var oldCount := Accumulate(oldMSs, SpecOf);
    var allowance := oldCount + newMS.replicas - (d.replicas - MaxUnavailable(d)) - (newMS.replicas - newMS.available);
    if oldCount == 0 || allowance <= 0 {
      return oldMSs, 0, true;
    }
    var cleaned;
    sorted, cleaned, ok := CleanupUnhealthyReplicas(api, oldMSs, d, allowance);
    SumPermuted(old(Values(sorted)), old(Values(oldMSs)), SpecOf);
    SameElements(sorted, oldMSs);
    if !ok {
      return sorted, cleaned, ok;
    }
    removed, ok := ScaleDownOldMachineSets(api, newMS, sorted, d);
    removed := cleaned + removed;
  }

  /** reconcileNewMachineSet. */
  method ReconcileNewMachineSet(api: ApiServer, newMS: MachineSet, oldMSs: seq<MachineSet>, d: Deployment)
    returns (ok: bool)
    requires newMS !in oldMSs
    modifies api, newMS
    ensures Patched(newMS.Value(), api.accepts, ok)
      == ReconcileNew(old(newMS.Value()), old(Values(oldMSs)), d, old(api.accepts))
  {
    hide GoalOf, SurgeCap, ScaleTo;
    if newMS.replicas == d.replicas {
      return true;
    }
    if newMS.replicas > d.replicas {
      ok := ScaleMachineSet(api, newMS, d.replicas, d);
      return;
    }
    var peak := Accumulate(oldMSs, PeakOf);
    peak := peak + Max(newMS.replicas, newMS.statusReplicas);
    match NewReplicas(d, peak, newMS.replicas)
    case None => ok := false;
    case Some(n) => ok := ScaleMachineSet(api, newMS, n, d);
  }

  /** What a set is created with: the deployment's annotations, its revision and the replica annotations. */
  ghost function BirthOf(origin: Origin, d: Deployment): Birth {
    var synced := AnnotationSync.SetAnnotations(origin.annotations, map[], origin.revision, false, GoalOf(d));
    Birth(origin.name, origin.now, synced.annotations)
  }

  /** Where a new set comes from: its name, the time, and the deployment's annotations and next revision. */
  datatype Origin = Origin(name: string, now: int, annotations: Annotations, revision: string)

  /**
   A set is born in sync: under its own name, without machines, with every annotation of the deployment that is
   meant for it, the next revision, and the replica annotations.
   */
  lemma BornInSync(origin: Origin, olds: seq<MS>, d: Deployment, maxOld: int)
    requires 0 <= maxOld < TWO_63 - 1 && origin.revision == AnnotationSync.NextRevision(maxOld)
    requires Created(BirthOf(origin, d), olds, d).Some?
    ensures var m := Created(BirthOf(origin, d), olds, d).value;
      && m.name == origin.name && m.created == origin.now && m.status == m.avail == 0
      && !AnnotationSync.AnyMissing(origin.annotations, m.annotations)
      && AnnotationSync.OwnRevision(m.annotations) == Some(maxOld + 1)
      && !ReplicasAnnotationsNeedUpdate(m.annotations, GoalOf(d))
  {
    AnnotationSync.RevisionRead(map[], 0);
    hide AnnotationSync.SetAnnotations, AnnotationSync.OwnRevision, AnnotationSync.NextRevision;
    hide AnnotationSync.AnyMissing, AnnotationSync.Copied, GoalOf, ReplicasAnnotationsNeedUpdate, NewReplicas;
    AnnotationSync.AfterSync(origin.annotations, map[], maxOld, false, GoalOf(d));
  }

  /** The part of getNewMachineSet that creates a set: it is sized and annotated before it is stored. */
  method CreateNewMachineSet(api: ApiServer, oldMSs: seq<MachineSet>, d: Deployment, origin: Origin)
    returns (newMS: MachineSet?)
    modifies api
    ensures Values(oldMSs) == old(Values(oldMSs))
    ensures var c := Created(BirthOf(origin, d), old(Values(oldMSs)), d);
      if c.Some? && 0 < old(api.accepts)
      then newMS != null && fresh(newMS) && newMS.Value() == c.value && api.accepts == old(api.accepts) - 1
      else newMS == null
  {
    newMS := null;
    var peak := Accumulate(oldMSs, PeakOf);
    match NewReplicas(d, peak, 0)
    case None =>
    case Some(n) =>
      var annotations, _ :=
        AnnotationSync.SetNewMachineSetAnnotations(origin.annotations, map[], origin.revision, false, GoalOf(d));
      var ok := api.Write();
      if ok {
        newMS := new MachineSet(MS(origin.name, origin.now, n, 0, 0, annotations));
      }
  }

  /** The order in which old sets are listed does not affect the new one. */
  lemma ListingIrrelevant(a: seq<MS>, b: seq<MS>, newMS: MS, d: Deployment, birth: Birth, accepts: nat)
    requires multiset(a) == multiset(b)
    ensures ReconcileNew(newMS, a, d, accepts) == ReconcileNew(newMS, b, d, accepts)
    ensures Created(birth, a, d) == Created(birth, b, d)
  {
    SumPermuted(a, b, PeakOf);
    hide NewReplicas;
  }

  /**
   The stages of rolloutRolling, from the point where the new set is known or missing and its other
   annotations are current. A set that could not be created ends the pass.
   */
  method RollStages(api: ApiServer, existing: MachineSet?, oldMSs: seq<MachineSet>, d: Deployment, origin: Origin)
    returns (newMS: MachineSet?, sorted: seq<MachineSet>, ok: bool)
    requires DistinctNames(oldMSs) && (existing != null ==> existing !in oldMSs)
    modifies api, existing, oldMSs
    ensures multiset(sorted) == multiset(oldMSs) && forall i | 0 <= i < |sorted| :: sorted[i] in oldMSs
    ensures OldestFirst(sorted) || Values(sorted) == old(Values(sorted))
    ensures (existing != null ==> newMS == existing) && (ok ==> newMS != null)
    ensures var before := Rollout(if existing != null then Some(old(existing.Value())) else None, old(Values(sorted)));
      var after := Rollout(if newMS != null then Some(newMS.Value()) else None, Values(sorted));
      Pass(after, ok) == RollingPass(before, d, BirthOf(origin, d), old(api.accepts))
  {
    hide Values, ReconcileNew, ReconcileOld, Created, OldestFirst, DistinctNames, BirthOf;
    newMS := existing;
    if newMS == null {
      newMS := CreateNewMachineSet(api, oldMSs, d, origin);
      if newMS == null {
        return newMS, oldMSs, false;
      }
    }
    ok := ReconcileNewMachineSet(api, newMS, oldMSs, d);
    if !ok {
      return newMS, oldMSs, false;
    }
    var removed;
    ghost var start, accepts, birth := old(Values(oldMSs)), old(api.accepts), BirthOf(origin, d);
    sorted, removed, ok := ReconcileOldMachineSets(api, newMS, oldMSs, d);
    if existing != null {
      ListingIrrelevant(start, old(Values(sorted)), old(existing.Value()), d, birth, accepts);
    } else {
      var c := Created(birth, start, d).value;
      ListingIrrelevant(start, old(Values(sorted)), c, d, birth, accepts - 1);
    }
  }

  /** The end of a pass: old sets are cleaned up once the statuses of all sets say that the rollout is complete. */
  method FinishPass(newMS: MachineSet, oldMSs: seq<MachineSet>, d: Deployment, history: History)
    returns (deleted: seq<MachineSet>, outcome: Outcome, alive: seq<MachineSet>)
    requires DistinctNames(oldMSs)
    ensures Finished(newMS, oldMSs, d, history, deleted, outcome, alive)
  {
    var status := CalculateStatus(newMS.Value(), Values(oldMSs), 0);
    deleted, outcome, alive := [], Done, [];
    if DeploymentComplete(d.replicas, status, 0) {
      deleted, outcome, alive := CleanupDeployment(oldMSs, history.limit, history.refused);
    }
  }

  /** The history limit of a deployment, and the sets whose deletion the API server refuses. */
  datatype History = History(limit: Option<int>, refused: set<string>)

  ghost predicate Finished(newMS: MachineSet, oldMSs: seq<MachineSet>, d: Deployment, history: History,
                           deleted: seq<MachineSet>, outcome: Outcome, alive: seq<MachineSet>)
    reads newMS, oldMSs, alive
  {
    if DeploymentComplete(d.replicas, CalculateStatus(newMS.Value(), Values(oldMSs), 0), 0)
    then CleanedUp(oldMSs, history.limit, history.refused, deleted, outcome, alive)
    else deleted == alive == [] && outcome == Done
  }

  /** What a finished pass deletes are old sets that are empty and reported so, and with a complete rollout only. */
  lemma FinishCollects(newMS: MachineSet, oldMSs: seq<MachineSet>, d: Deployment, history: History,
                       deleted: seq<MachineSet>, outcome: Outcome, alive: seq<MachineSet>, m: MachineSet)
    requires Finished(newMS, oldMSs, d, history, deleted, outcome, alive) && m in deleted
    requires forall i | 0 <= i < |oldMSs| :: 0 <= oldMSs[i].available <= oldMSs[i].statusReplicas
    ensures m in oldMSs && m.Value().spec == 0 && m.Value().status == 0
    ensures newMS.available == d.replicas && forall i | 0 <= i < |oldMSs| :: oldMSs[i].statusReplicas == 0
  {
    var n := Min(Surplus(|alive|, history.limit), |alive|);
    CandidatesExact(alive, n);
    CompleteMeansNoOldMachines(newMS.Value(), Values(oldMSs), d.replicas, 0, 0);
    hide Values;
    assert m in Candidates(alive, n);
    assert forall i | 0 <= i < |oldMSs| :: Values(oldMSs)[i].status == oldMSs[i].statusReplicas;
  }

  /** rolloutRolling. */
  method RolloutRolling(api: ApiServer, existing: MachineSet?, oldMSs: seq<MachineSet>, d: Deployment, origin: Origin,
                        history: History)
    returns (newMS: MachineSet?, sorted: seq<MachineSet>, staged: bool, deleted: seq<MachineSet>, outcome: Outcome,
             alive: seq<MachineSet>)
    requires DistinctNames(oldMSs) && (existing != null ==> existing !in oldMSs)
    modifies api, existing, oldMSs
    ensures multiset(sorted) == multiset(oldMSs) && forall i | 0 <= i < |sorted| :: sorted[i] in oldMSs
    ensures OldestFirst(sorted) || Values(sorted) == old(Values(sorted))
    ensures (existing != null ==> newMS == existing) && (staged ==> newMS != null)
    ensures var before := Rollout(if existing != null then Some(old(existing.Value())) else None, old(Values(sorted)));
      var after := Rollout(if newMS != null then Some(newMS.Value()) else None, Values(sorted));
      Pass(after, staged) == RollingPass(before, d, BirthOf(origin, d), old(api.accepts))
    ensures if staged then Finished(newMS, oldMSs, d, history, deleted, outcome, alive) else deleted == []
  {
    hide Values, RollingPass, OldestFirst, Finished, DistinctNames;
    newMS, sorted, staged := RollStages(api, existing, oldMSs, d, origin);
    deleted, outcome, alive := [], Done, [];
    if staged {
      deleted, outcome, alive := FinishPass(newMS, oldMSs, d, history);
    }
  }
}
