/** When a rollout is complete, and which old sets are then deleted (controllers/machinedeployment_sync.go). */
module Cleanup {
  import opened Basics
  import opened Fleet
  import opened Objects

  // ---------------------------------------------------------------- completion

  datatype DeploymentStatus = DeploymentStatus(
    replicas: int, updated: int, available: int, unavailable: int, observedGeneration: int)

  /** calculateStatus, as far as the counts go. */
  function CalculateStatus(newMS: MS, olds: seq<MS>, observed: int): DeploymentStatus {
    var all := olds + [newMS];
    DeploymentStatus(
      Sum(all, StatusOf), newMS.status, Sum(all, AvailOf),
      Max(0, Sum(all, SpecOf) - Sum(all, AvailOf)), observed)
  }

  predicate DeploymentComplete(desired: int, s: DeploymentStatus, generation: int) {
    s.updated == desired && s.replicas == desired && s.available == desired && s.observedGeneration >= generation
  }

  /**
   A complete rollout has no machine outside the new set; and, once available counts are within reported
   ones, that is all it takes besides the new set being full and available and the deployment being observed.
   */
  lemma CompleteMeansNoOldMachines(newMS: MS, olds: seq<MS>, desired: int, observed: int, generation: int)
    requires forall i | 0 <= i < |olds| :: 0 <= olds[i].avail <= olds[i].status
    ensures DeploymentComplete(desired, CalculateStatus(newMS, olds, observed), generation)
      <==> newMS.status == newMS.avail == desired && generation <= observed
           && forall i | 0 <= i < |olds| :: olds[i].status == 0
  {
    SumAppend(olds, [newMS], StatusOf);
    SumAppend(olds, [newMS], AvailOf);
    assert [newMS][1..] == [];
    SumNonNegative(olds, StatusOf);
    SumNonNegative(olds, AvailOf);
  }

  // ---------------------------------------------------------------- cleanup

  /** Fully scaled down, and seen to be so by its controller. */
  predicate Removable(m: MachineSet)
    reads m
  {
    m.statusReplicas == 0 && m.replicas == 0 && m.generation <= m.observedGeneration && !m.deleting
  }

  /** mdutil.FilterMachineSets with the filter for sets that are not being deleted. */
  method FilterAlive(sets: seq<MachineSet>) returns (alive: seq<MachineSet>)
    ensures forall m :: m in alive <==> m in sets && !m.deleting
    ensures DistinctNames(sets) ==> DistinctNames(alive)
  {
    alive := [];
    for i := 0 to |sets|
      invariant forall m :: m in alive <==> m in sets[..i] && !m.deleting
      invariant DistinctNames(sets) ==> DistinctNames(alive)
    {
      assert sets[..i + 1] == sets[..i] + [sets[i]];
      if DistinctNames(sets) {
        forall m | m in alive ensures m.name != sets[i].name {
          var j :| 0 <= j < i && sets[j] == m;
        }
      }
      if !sets[i].deleting {
        alive := alive + [sets[i]];
      }
    }
    assert sets[..|sets|] == sets;
  }

  /** The removable sets among the first n, in order. */
  function Candidates(alive: seq<MachineSet>, n: nat): (r: seq<MachineSet>)
    requires n <= |alive|
    reads alive
  {
    if n == 0 then []
    else Candidates(alive, n - 1) + if Removable(alive[n - 1]) then [alive[n - 1]] else []
  }

  lemma {:induction false} CandidatesExact(alive: seq<MachineSet>, n: nat)
    requires n <= |alive|
    ensures forall m :: m in Candidates(alive, n) <==> m in alive[..n] && Removable(m)
  {
    if n > 0 {
      CandidatesExact(alive, n - 1);
      assert alive[..n] == alive[..n - 1] + [alive[n - 1]];
    }
  }

  /** The loop of cleanupDeployment: the first refusal of the API server ends it. */
  method DeleteOldest(alive: seq<MachineSet>, diff: nat, refused: set<string>)
    returns (deleted: seq<MachineSet>, ok: bool)
    requires diff <= |alive|
    ensures deleted <= Candidates(alive, diff)
    ensures ok <==> deleted == Candidates(alive, diff)
    ensures ok <==> forall m | m in Candidates(alive, diff) :: m.name !in refused
  {
    deleted, ok := [], true;
    for i := 0 to diff
      invariant deleted == Candidates(alive, i)
      invariant forall m | m in Candidates(alive, i) :: m.name !in refused
    {
      if Removable(alive[i]) {
        ghost var upTo := Candidates(alive, i + 1);
        assert upTo == deleted + [alive[i]] && upTo[|upTo| - 1] == alive[i];
        CandidatesGrow(alive, i + 1, diff);
        if alive[i].name in refused {
          assert Candidates(alive, diff)[|upTo| - 1] == alive[i];
          return deleted, false;
        }
        deleted := deleted + [alive[i]];
      }
    }
  }

  /** How a cleanup ends. A negative history limit asks for more sets than there are, and the loop runs off its list. */
  datatype Outcome = Done | Refused | OutOfRange

  /** The old sets beyond the history limit. */
  function Surplus(count: nat, limit: Option<int>): nat {
    if limit.Some? then Max(0, count - limit.value) else 0
  }

  /** The live old sets, oldest first. */
  ghost predicate AliveOf(oldMSs: seq<MachineSet>, alive: seq<MachineSet>)
    reads oldMSs
  {
    && (forall m | m in oldMSs :: m in alive <==> !m.deleting) && (forall m | m in alive :: m in oldMSs)
    && OldestFirst(alive) && DistinctNames(alive)
  }

  /**
   The removable sets among the surplus are deleted, up to the first refusal, with `refused` the sets whose
   deletion the API server refuses.
   */
  ghost predicate SurplusDeleted(alive: seq<MachineSet>, limit: Option<int>, refused: set<string>,
                                 deleted: seq<MachineSet>, outcome: Outcome)
    reads alive
  {
    var surplus := Surplus(|alive|, limit);
    var candidates := Candidates(alive, Min(surplus, |alive|));
    && deleted <= candidates
    && (outcome.Refused? <==> deleted != candidates)
    && (outcome.Refused? <==> exists m | m in candidates :: m.name in refused)
    && (outcome.OutOfRange? <==> !outcome.Refused? && |alive| < surplus)
  }

  ghost predicate CleanedUp(oldMSs: seq<MachineSet>, limit: Option<int>, refused: set<string>,
                            deleted: seq<MachineSet>, outcome: Outcome, alive: seq<MachineSet>)
    reads oldMSs, alive
  {
    AliveOf(oldMSs, alive) && SurplusDeleted(alive, limit, refused, deleted, outcome)
  }

  method DeleteSurplus(alive: seq<MachineSet>, limit: Option<int>, refused: set<string>)
    returns (deleted: seq<MachineSet>, outcome: Outcome)
    ensures SurplusDeleted(alive, limit, refused, deleted, outcome)
  {
    if limit.None? || |alive| - limit.value <= 0 {
      return [], Done;
    }
    hide Candidates;
    var diff, ok := |alive| - limit.value, true;
    deleted, ok := DeleteOldest(alive, Min(diff, |alive|), refused);
    outcome := if !ok then Refused else if diff > |alive| then OutOfRange else Done;
  }

  /** cleanupDeployment. */
  method CleanupDeployment(oldMSs: seq<MachineSet>, limit: Option<int>, refused: set<string>)
    returns (deleted: seq<MachineSet>, outcome: Outcome, alive: seq<MachineSet>)
    requires DistinctNames(oldMSs)
    ensures CleanedUp(oldMSs, limit, refused, deleted, outcome, alive)
  {
    var cleanable := FilterAlive(oldMSs);
    alive := Sort(cleanable, ByCreation);
    SameElements(alive, cleanable);
    hide OldestFirst, Less, DistinctNames, Values, SurplusDeleted;
    deleted, outcome := DeleteSurplus(alive, limit, refused);
  }

  lemma {:induction false} CandidatesGrow(alive: seq<MachineSet>, i: nat, n: nat)
    requires i <= n <= |alive|
    ensures Candidates(alive, i) <= Candidates(alive, n)
    decreases n - i
  {
    if i < n { CandidatesGrow(alive, i + 1, n); }
  }

  /**
   What a cleanup deletes: old sets that are scaled down, seen to be so and not being deleted yet, none without a
   history limit, and never one of the newest `limit` live ones, which were all created no earlier.
   */
  lemma NewestAreKept(oldMSs: seq<MachineSet>, limit: Option<int>, refused: set<string>, deleted: seq<MachineSet>,
                      outcome: Outcome, alive: seq<MachineSet>, m: MachineSet, k: nat)
    requires CleanedUp(oldMSs, limit, refused, deleted, outcome, alive) && m in deleted
    ensures m in oldMSs && m.replicas == m.statusReplicas == 0 && !m.deleting && m.generation <= m.observedGeneration
    ensures limit.Some? && limit.value < |alive|
    ensures |alive| - limit.value <= k < |alive| ==> alive[k] !in deleted && m.created <= alive[k].created
  {
    var n := Min(Surplus(|alive|, limit), |alive|);
    CandidatesExact(alive, n);
    hide Candidates;
    assert m in Candidates(alive, n);
    var i :| 0 <= i < n && alive[i] == m;
    if |alive| - limit.value <= k < |alive| {
      OldestFirstTimes(alive, i, k);
      assert alive[k] !in alive[..n];
    }
  }

  /**
   And what it does not leave behind: a cleanup that ends well has deleted every live old set that is removable and
   beyond the history limit, counted from the newest.
   */
  lemma SurplusIsGone(oldMSs: seq<MachineSet>, limit: int, refused: set<string>, deleted: seq<MachineSet>,
                      outcome: Outcome, alive: seq<MachineSet>, i: nat)
    requires CleanedUp(oldMSs, Some(limit), refused, deleted, outcome, alive) && outcome.Done?
    requires i < |alive| - limit && i < |alive|
    ensures alive[i].replicas == alive[i].statusReplicas == 0 && alive[i].generation <= alive[i].observedGeneration
      ==> alive[i] in deleted
  {
    var n := Min(Surplus(|alive|, Some(limit)), |alive|);
    CandidatesExact(alive, n);
    hide Candidates;
    assert alive[i] in alive[..n] && !alive[i].deleting;
  }
}
