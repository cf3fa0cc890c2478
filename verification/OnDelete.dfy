/** The OnDelete pass as the controller runs it, on API objects (controllers/machinedeployment_rollout_ondelete.go). */
module OnDelete {
  import opened Basics
  import opened Fleet
  import opened RollingSpec
  import opened RollingRuns
  import opened OnDeleteSpec
  import opened Objects
  import opened Cleanup
  import opened Rolling

  /** mdutil.GetDeletingMachineCount. */
  method CountDeleting(flags: seq<bool>) returns (n: nat)
    ensures n == DeletingCount(flags)
  {
    n := 0;
    var i := 0;
    while i < |flags|
      invariant 0 <= i <= |flags|
      invariant n + DeletingCount(flags[i..]) == DeletingCount(flags)
    {
      assert flags[i..][1..] == flags[i + 1..];
      if flags[i] {
        n := n + 1;
      }
      i := i + 1;
    }
  }

  /** The body of the first loop, for one set. */
  method Adopt(api: ApiServer, ms: MachineSet, inv: Inventories, d: Deployment, amount: int)
    returns (newAmount: int, ok: bool)
    modifies api, ms
    ensures Adoption(ms.Value(), newAmount, api.accepts, ok)
      == AdoptSet(old(ms.Value()), inv, GoalOf(d), amount, old(api.accepts))
  {
    newAmount, ok := amount, true;
    if ms.replicas <= 0 {
      return;
    }
    if DisableMachineCreate !in ms.annotations {
      ok := api.Write();
      if !ok {
        return;
      }
      ms.annotations := ms.annotations[DisableMachineCreate := "true"];
    }
    match InventoryOf(inv, ms.name)
    case NoSelector =>
    case ListError => ok := false;
    case Machines(flags) =>
      var deleting := CountDeleting(flags);
      var updated := |flags| - deleting;
      newAmount := amount - (ms.replicas - updated);
      ok := ScaleMachineSet(api, ms, updated, d);
  }

  /** The first loop has handled the first i sets and goes on with the others as they were. */
  ghost predicate Adopting(all: Following, s: seq<MachineSet>, i: nat, start: seq<MS>, inv: Inventories, g: Goal,
                           amount: int, accepts: nat)
    requires i <= |s| == |start|
    reads s
  {
    && Values(s[i..]) == start[i..]
    && var rest := AdoptAll(start[i..], inv, g, amount, accepts);
       all == Following(Values(s[..i]) + rest.sets, rest.amount, rest.left, rest.ok)
  }

  lemma AdoptingStart(s: seq<MachineSet>, inv: Inventories, g: Goal, amount: int, accepts: nat)
    ensures Adopting(AdoptAll(Values(s), inv, g, amount, accepts), s, 0, Values(s), inv, g, amount, accepts)
  {
    hide AdoptAll, Values;
    assert s[0..] == s && Values(s)[0..] == Values(s);
  }

  lemma Joined(before: seq<MS>, ms: MS, after: seq<MS>)
    ensures before + ([ms] + after) == before + [ms] + after
  {
  }

  lemma AdoptingHere(all: Following, s: seq<MachineSet>, i: nat, start: seq<MS>, inv: Inventories, g: Goal,
                     amount: int, accepts: nat)
    requires i < |s| == |start| && Adopting(all, s, i, start, inv, g, amount, accepts)
    ensures s[i].Value() == start[i] && Values(s[i + 1..]) == start[i + 1..]
    ensures var a := AdoptSet(start[i], inv, g, amount, accepts);
      if a.ok then
        var rest := AdoptAll(start[i + 1..], inv, g, a.amount, a.left);
        all == Following(Values(s[..i]) + [a.ms] + rest.sets, rest.amount, rest.left, rest.ok)
      else all == Following(Values(s[..i]) + [a.ms] + start[i + 1..], a.amount, a.left, false)
  {
    hide AdoptSet, AdoptAll, Values;
    ValuesHead(s, i);
    var here, later := start[i..], start[i + 1..];
    assert here[0] == start[i] && here[1..] == later;
    var a := AdoptSet(start[i], inv, g, amount, accepts);
    AdoptStep(here, inv, g, amount, accepts, a, AdoptAll(later, inv, g, a.amount, a.left));
    Joined(Values(s[..i]), a.ms, if a.ok then AdoptAll(later, inv, g, a.amount, a.left).sets else later);
  }

  lemma AdoptingNext(all: Following, s: seq<MachineSet>, i: nat, start: seq<MS>, inv: Inventories, g: Goal,
                     amount: int, accepts: nat)
    requires i <= |s| == |start| && Values(s[i..]) == start[i..]
    requires var rest := AdoptAll(start[i..], inv, g, amount, accepts);
       all == Following(Values(s[..i]) + rest.sets, rest.amount, rest.left, rest.ok)
    ensures Adopting(all, s, i, start, inv, g, amount, accepts)
    ensures i == |s| ==> all == Following(Values(s), amount, accepts, true)
  {
    hide Values;
    if i == |s| { assert s[..i] == s; }
  }

  /** The first loop of reconcileOldMachineSetsOnDelete. */
  method FollowDeletions(api: ApiServer, oldMSs: seq<MachineSet>, inv: Inventories, d: Deployment, amount0: int)
    returns (amount: int, ok: bool)
    requires DistinctNames(oldMSs)
    modifies api, oldMSs
    ensures Following(Values(oldMSs), amount, api.accepts, ok)
      == AdoptAll(old(Values(oldMSs)), inv, GoalOf(d), amount0, old(api.accepts))
  {
    hide Values, AdoptAll, AdoptSet, GoalOf, Adopting;
    ghost var start, g := Values(oldMSs), GoalOf(d);
    ghost var all := AdoptAll(start, inv, g, amount0, api.accepts);
    amount := amount0;
    AdoptingStart(oldMSs, inv, g, amount, api.accepts);
    for i := 0 to |oldMSs|
      invariant Adopting(all, oldMSs, i, start, inv, g, amount, api.accepts)
    {
      AdoptingHere(all, oldMSs, i, start, inv, g, amount, api.accepts);
      ghost var done := Values(oldMSs[..i]);
      amount, ok := Adopt(api, oldMSs[i], inv, d, amount);
      assert Values(oldMSs[..i]) == done && Values(oldMSs[i + 1..]) == start[i + 1..];
      if !ok {
        ValuesAround(oldMSs, i);
        return;
      }
      ValuesTake(oldMSs, i);
      AdoptingNext(all, oldMSs, i + 1, start, inv, g, amount, api.accepts);
    }
    AdoptingDone(all, oldMSs, start, inv, g, amount, api.accepts);
    ok := true;
  }

  lemma AdoptingDone(all: Following, s: seq<MachineSet>, start: seq<MS>, inv: Inventories, g: Goal,
                       amount: int, accepts: nat)
    requires |s| == |start| && Adopting(all, s, |s|, start, inv, g, amount, accepts)
    ensures all == Following(Values(s), amount, accepts, true)
  {
    hide Values;
    assert s[..|s|] == s;
  }

  /** The body of the second loop, for one set and the amount still to go. */
  method VisitExcess(api: ApiServer, ms: MachineSet, d: Deployment, amount: int) returns (newAmount: int, ok: bool)
    requires 0 < amount
    modifies api, ms
    ensures var v := VisitSet(Excess, old(ms.Value()), GoalOf(d), amount, old(api.accepts));
      && ok == v.Next? && api.accepts == v.left
      && (if ok then ms.Value() == v.ms && newAmount == amount - v.take else ms.Value() == old(ms.Value()))
  {
    newAmount, ok := amount, true;
    if ms.replicas <= 0 {
      return;
    }
    var updated := ms.replicas;
    if updated >= amount {
      updated := updated - amount;
      newAmount := 0;
    } else {
      newAmount := amount - updated;
      updated := 0;
    }
    ok := ScaleMachineSet(api, ms, updated, d);
  }

  /** The second loop of reconcileOldMachineSetsOnDelete. */
  method DrainExcess(api: ApiServer, oldMSs: seq<MachineSet>, d: Deployment, amount0: int)
    returns (amount: int, ok: bool)
    requires DistinctNames(oldMSs)
    modifies api, oldMSs
    ensures var r := Drain(Excess, old(Values(oldMSs)), GoalOf(d), amount0, old(api.accepts));
      && Values(oldMSs) == r.sets && api.accepts == r.left && ok == r.ok
      && (ok ==> amount == amount0 - r.removed)
  {
    hide Drain, VisitSet, GoalOf, Values, Halfway;
    ghost var start, g := Values(oldMSs), GoalOf(d);
    ghost var all := Drain(Excess, start, g, amount0, api.accepts);
    HalfwayStart(Excess, oldMSs, g, amount0, api.accepts);
    amount := amount0;
    var i := 0;
    while i < |oldMSs|
      invariant 0 <= i <= |oldMSs|
      invariant Halfway(Excess, all, oldMSs, i, start, g, amount0, amount0 - amount, api.accepts)
    {
      if amount <= 0 {
        break;
      }
      ghost var done, accepts, removed := Values(oldMSs[..i]), api.accepts, amount0 - amount;
      HalfwayHere(Excess, all, oldMSs, i, start, g, amount0, removed, accepts);
      amount, ok := VisitExcess(api, oldMSs[i], d, amount);
      assert Values(oldMSs[..i]) == done && Values(oldMSs[i + 1..]) == start[i + 1..];
      if !ok {
        HalfwayStopped(Excess, all, oldMSs, i, start, g, amount0, removed, accepts);
        return;
      }
      HalfwayStep(Excess, all, oldMSs, i, start, g, amount0, removed, accepts);
      i := i + 1;
    }
    HalfwayDone(Excess, all, oldMSs, i, start, g, amount0, amount0 - amount, api.accepts);
    ok := true;
  }

  /** reconcileOldMachineSetsOnDelete. */
  method ReconcileOldMachineSetsOnDelete(api: ApiServer, newMS: MachineSet, oldMSs: seq<MachineSet>, inv: Inventories,
                                         d: Deployment)
    returns (ok: bool)
    requires DistinctNames(oldMSs) && newMS !in oldMSs
    modifies api, oldMSs
    ensures newMS.Value() == old(newMS.Value())
    ensures var r := FollowOld(old(newMS.Value()), old(Values(oldMSs)), inv, d, old(api.accepts));
      Values(oldMSs) == r.sets && api.accepts == r.left && ok == r.ok
  {
    hide AdoptAll, Drain, GoalOf, Values, FollowSum;
    var total := Accumulate(oldMSs, SpecOf);
    var amount := total + newMS.replicas - d.replicas;
    amount, ok := FollowDeletions(api, oldMSs, inv, d, amount);
    if ok {
      amount, ok := DrainExcess(api, oldMSs, d, amount);
    }
  }

  /** reconcileNewMachineSetOnDelete. */
  method ReconcileNewMachineSetOnDelete(api: ApiServer, newMS: MachineSet, oldMSs: seq<MachineSet>, d: Deployment)
    returns (ok: bool)
    requires newMS !in oldMSs
    modifies api, newMS
    ensures Patched(newMS.Value(), api.accepts, ok)
      == EnableNew(old(newMS.Value()), old(Values(oldMSs)), d, old(api.accepts))
  {
    hide ReconcileNew, Values;
    if DisableMachineCreate in newMS.annotations {
      ok := api.Write();
      if !ok {
        return;
      }
      newMS.annotations := newMS.annotations - {DisableMachineCreate};
    }
    ok := ReconcileNewMachineSet(api, newMS, oldMSs, d);
  }

  /** rolloutOnDelete, from the point where the new set is known or missing and its other annotations are current. */
  method RolloutOnDelete(api: ApiServer, existing: MachineSet?, oldMSs: seq<MachineSet>,
                           inv: Inventories, d: Deployment,
                         origin: Origin, history: History)
    returns (newMS: MachineSet?, staged: bool, deleted: seq<MachineSet>, outcome: Outcome, alive: seq<MachineSet>)
    requires DistinctNames(oldMSs) && (existing != null ==> existing !in oldMSs)
    modifies api, existing, oldMSs
    ensures (existing != null ==> newMS == existing) && (staged ==> newMS != null)
    ensures var before := Rollout(if existing != null then Some(old(existing.Value())) else None, old(Values(oldMSs)));
      var after := Rollout(if newMS != null then Some(newMS.Value()) else None, Values(oldMSs));
      Pass(after, staged) == OnDeletePass(before, inv, d, BirthOf(origin, d), old(api.accepts))
    ensures if staged then Finished(newMS, oldMSs, d, history, deleted, outcome, alive) else deleted == []
  {
    hide EnableNew, FollowOld, Values, Created, Finished, DistinctNames;
    newMS, staged, deleted, outcome, alive := existing, false, [], Done, [];
    if newMS == null {
      newMS := CreateNewMachineSet(api, oldMSs, d, origin);
      if newMS == null {
        return;
      }
    }
    staged := ReconcileNewMachineSetOnDelete(api, newMS, oldMSs, d);
    if staged {
      staged := ReconcileOldMachineSetsOnDelete(api, newMS, oldMSs, inv, d);
    }
    if staged {
      deleted, outcome, alive := FinishPass(newMS, oldMSs, d, history);
    }
  }
}
