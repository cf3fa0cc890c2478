/**
 Surge safety over whole runs, for both strategies, in terms of the machines that exist: passes of the deployment
 that may fail at any write, syncs and reports of the MachineSet controller, and edits of the template.
 */
module SurgeRuns {
  import opened Basics
  import opened Fleet
  import opened RollingSpec
  import opened RollingSafety
  import opened RollingRuns
  import opened OnDeleteSpec

  predicate Handled(d: Deployment) { (d.strategy.RollingUpdate? || d.strategy.OnDelete?) && 0 <= d.replicas }

  /** Number of machines the deployment may have at once. */
  function Cap(d: Deployment): Option<int> {
    if d.strategy.OnDelete? then Some(d.replicas) else SurgeCap(d)
  }

  function PassFrom(m: MS, olds: seq<MS>, inv: Inventories, d: Deployment, accepts: nat): Rollout {
    if d.strategy.OnDelete? then OnDeleteWith(m, olds, inv, d, accepts).state else PassWith(m, olds, d, accepts).state
  }

  /** One pass of either strategy. */
  function PassOf(s: Rollout, inv: Inventories, d: Deployment, b: Birth, accepts: nat): Rollout {
    if d.strategy.OnDelete? then OnDeletePass(s, inv, d, b, accepts).state else RollingPass(s, d, b, accepts).state
  }

  lemma PassSplit(s: Rollout, inv: Inventories, d: Deployment, b: Birth, accepts: nat)
    ensures PassOf(s, inv, d, b, accepts) ==
      if s.newMS.Some? then PassFrom(s.newMS.value, s.olds, inv, d, accepts)
      else if Created(b, s.olds, d).None? || accepts == 0 then s
      else PassFrom(Created(b, s.olds, d).value, s.olds, inv, d, accepts - 1)
  {
    hide OnDeleteWith, PassWith, Created;
  }

  // ---------------------------------------------------------------- the new set

  function NewStage(m: MS, olds: seq<MS>, d: Deployment, accepts: nat): Patched {
    if d.strategy.OnDelete? then EnableNew(m, olds, d, accepts) else ReconcileNew(m, olds, d, accepts)
  }

  /** The size up to which a pass may grow a set of size n, given the peak of all sets. */
  function Reach(n: int, peak: int, d: Deployment): int
    requires Cap(d).Some?
  {
    Max(n, Min(d.replicas, n + Max(0, Cap(d).value - peak)))
  }

  lemma NewStageMoves(m: MS, olds: seq<MS>, d: Deployment, accepts: nat)
    requires Handled(d) && Cap(d).Some? && 0 <= m.spec && 0 <= Sum(olds, PeakOf)
    ensures var p, reach := NewStage(m, olds, d, accepts), Reach(m.spec, Sum(olds, PeakOf) + PeakOf(m), d);
      && p.ms == m.(spec := p.ms.spec, annotations := p.ms.annotations) && 0 <= p.ms.spec <= reach
      && (p.ok ==> p.ms.spec == if m.spec < d.replicas then reach else d.replicas)
      && (!p.ok ==> p.ms.spec == m.spec)
  {
    hide GoalOf, SetReplicasAnnotations, ReplicasAnnotationsNeedUpdate;
    if d.strategy.OnDelete? { EnableNewMoves(m, olds, d, accepts); }
    hide EnableNew;
  }

  /** Some number of accepted writes takes a pass just through its first stage. */
  lemma NewStageWrites(m: MS, olds: seq<MS>, d: Deployment) returns (writes: nat)
    requires Handled(d) && Cap(d).Some?
    ensures var p := NewStage(m, olds, d, writes); p.ok && p.left == 0
  {
    if d.strategy.OnDelete? {
      EnableNewAfter(m, olds, d, 0);
      writes := EnableWrites(m, olds, d);
    } else {
      hide GoalOf, SetReplicasAnnotations, ReplicasAnnotationsNeedUpdate;
      writes := 1 - ReconcileNew(m, olds, d, 1).left;
    }
  }

  lemma CreatedReaches(b: Birth, olds: seq<MS>, d: Deployment)
    requires Handled(d) && Cap(d).Some? && 0 <= Sum(olds, PeakOf)
    ensures var c, old0 := Created(b, olds, d), Sum(olds, PeakOf);
      && c == Some(MS(b.name, b.created, Reach(0, old0, d), 0, 0, b.annotations))
      && Reach(Reach(0, old0, d), old0 + Reach(0, old0, d), d) == Reach(0, old0, d)
  {
  }

  // ---------------------------------------------------------------- one pass

  lemma {:induction false} RealSplit(s: seq<MS>, ms: Machines)
    ensures Sum(s, RealOf(ms)) == Sum(s, PeakOf) + Sum(s, HiddenOf(ms))
    ensures 0 <= Sum(s, HiddenOf(ms))
  {
    if s != [] { RealSplit(s[1..], ms); }
  }

  lemma PassFromReal(m: MS, olds: seq<MS>, inv: Inventories, ms: Machines, d: Deployment, accepts: nat)
    requires Handled(d) && Cap(d).Some? && 0 <= m.spec && 0 <= m.avail && SpecsValid(olds)
    requires d.strategy.OnDelete? ==> Listed(olds, inv, ms)
    ensures var t := PassFrom(m, olds, inv, d, accepts);
      && t.newMS == Some(NewStage(m, olds, d, accepts).ms)
      && SpecsValid(t.olds) && Sum(t.olds, RealOf(ms)) <= Sum(olds, RealOf(ms))
  {
    hide EnableNew, FollowOld, ReconcileNew, ReconcileOld, Listed, RealOf;
    var p := NewStage(m, olds, d, accepts);
    if d.strategy.OnDelete? {
      FollowOldWithin(p.ms, olds, inv, ms, d, p.left);
    } else {
      ReconcileOldShrinks(p.ms, olds, d, p.left);
      ShrunkReal(olds, ReconcileOld(p.ms, olds, d, p.left).sets, ms);
    }
  }

  lemma ShrunkReal(before: seq<MS>, after: seq<MS>, ms: Machines)
    requires AllShrunk(before, after) && SpecsValid(before)
    ensures SpecsValid(after) && Sum(after, RealOf(ms)) <= Sum(before, RealOf(ms))
  {
    SumLe(after, RealOf(ms), before, RealOf(ms));
  }

  /** Old sets are left alone where no writes are left. */
  lemma PassFromStops(m: MS, olds: seq<MS>, inv: Inventories, d: Deployment, accepts: nat)
    requires SpecsValid(olds) && NewStage(m, olds, d, accepts).left == 0
    ensures PassFrom(m, olds, inv, d, accepts).olds == olds
  {
    hide EnableNew, ReconcileNew, AdoptAll, Drain, GoalOf;
    var p, g := NewStage(m, olds, d, accepts), GoalOf(d);
    var amount := Sum(olds, SpecOf) + p.ms.spec - d.replicas;
    AdoptNothing(olds, inv, g, amount);
    DrainNothing(Excess, olds, g, AdoptAll(olds, inv, g, amount, 0).amount);
    DrainNothing(Unhealthy, olds, g, MaxScaledDown(p.ms, olds, d));
    DrainNothing(Whole, olds, g, Sum(olds, AvailOf) + p.ms.avail - MinAvailable(d));
  }

  /** The new set as a pass finds it, or as it is about to be created: no machines yet. */
  function NewOrNone(s: Rollout, b: Birth): MS {
    if s.newMS.Some? then s.newMS.value else MS(b.name, b.created, 0, 0, 0, b.annotations)
  }

  /** What a pass needs to know of the machines: listings are not above what a set may have, and a new name has none. */
  predicate Informed(s: Rollout, ms: Machines, inv: Inventories, d: Deployment, b: Birth) {
    && (d.strategy.OnDelete? ==> Listed(s.olds, inv, ms))
    && (s.newMS.None? ==> MachinesOf(ms, b.name) == [])
  }

  /** The machines that exist or may exist after a pass. */
  function RealAfter(s: Rollout, ms: Machines, inv: Inventories, d: Deployment, b: Birth, accepts: nat): int {
    Total(PassOf(s, inv, d, b, accepts), RealOf(ms))
  }

  function ReachOf(s: Rollout, d: Deployment, b: Birth): int
    requires Cap(d).Some?
  {
    Reach(NewOrNone(s, b).spec, Total(s, PeakOf), d)
  }

  lemma FromAtMost(m: MS, olds: seq<MS>, inv: Inventories, ms: Machines, d: Deployment, accepts: nat)
    requires Handled(d) && Cap(d).Some? && 0 <= m.spec && 0 <= m.avail && SpecsValid(olds)
    requires d.strategy.OnDelete? ==> Listed(olds, inv, ms)
    ensures var t := PassFrom(m, olds, inv, d, accepts);
      && Valid(t)
      && Total(t, RealOf(ms)) <= Sum(olds, RealOf(ms))
         + Max(RealOf(ms)(m), Reach(m.spec, Sum(olds, PeakOf) + PeakOf(m), d))
  {
    hide PassFrom, NewStage, Reach, Listed, Valid;
    SumNonNegative(olds, PeakOf);
    hide Sum;
    PassFromReal(m, olds, inv, ms, d, accepts);
    NewStageMoves(m, olds, d, accepts);
    ValidParts(PassFrom(m, olds, inv, d, accepts));
  }

  lemma FromReached(m: MS, olds: seq<MS>, inv: Inventories, ms: Machines, d: Deployment, accepts: nat)
    requires Handled(d) && Cap(d).Some? && 0 <= m.spec && 0 <= m.avail && SpecsValid(olds)
    requires d.strategy.OnDelete? ==> Listed(olds, inv, ms)
    requires NewStage(m, olds, d, accepts).left == 0
    ensures Total(PassFrom(m, olds, inv, d, accepts), RealOf(ms))
      == Sum(olds, RealOf(ms)) + RealOf(ms)(NewStage(m, olds, d, accepts).ms)
  {
    hide PassFrom, NewStage, Listed, Sum;
    PassFromReal(m, olds, inv, ms, d, accepts);
    PassFromStops(m, olds, inv, d, accepts);
  }

  /** The most a pass leaves. */
  lemma RealAtMost(s: Rollout, ms: Machines, inv: Inventories, d: Deployment, b: Birth, accepts: nat)
    requires Handled(d) && Cap(d).Some? && Valid(s) && Informed(s, ms, inv, d, b)
    ensures Valid(PassOf(s, inv, d, b, accepts))
    ensures RealAfter(s, ms, inv, d, b, accepts)
      <= Sum(s.olds, RealOf(ms)) + Max(RealOf(ms)(NewOrNone(s, b)), ReachOf(s, d, b))
  {
    hide PassOf, PassFrom, Created, Reach, Listed, Sum, Valid;
    ValidParts(s);
    SumNonNegative(s.olds, PeakOf);
    PassSplit(s, inv, d, b, accepts);
    CreatedReaches(b, s.olds, d);
    if s.newMS.Some? {
      FromAtMost(s.newMS.value, s.olds, inv, ms, d, accepts);
    } else if accepts > 0 {
      NewReaches(s, ms, inv, d, b);
      FromAtMost(Created(b, s.olds, d).value, s.olds, inv, ms, d, accepts - 1);
    }
  }

  /** A set about to be created has no machines, and is created at the size it may reach. */
  lemma NewReaches(s: Rollout, ms: Machines, inv: Inventories, d: Deployment, b: Birth)
    requires Handled(d) && Cap(d).Some? && Valid(s) && Informed(s, ms, inv, d, b) && s.newMS.None?
    ensures var c := Created(b, s.olds, d);
      && c.Some? && 0 <= c.value.spec == PeakOf(c.value) == RealOf(ms)(c.value) == ReachOf(s, d, b)
      && c.value.avail == 0
      && Reach(c.value.spec, Sum(s.olds, PeakOf) + PeakOf(c.value), d) == ReachOf(s, d, b)
      && RealOf(ms)(NewOrNone(s, b)) == 0
  {
    ValidParts(s);
    SumNonNegative(s.olds, PeakOf);
    CreatedReaches(b, s.olds, d);
    hide Created, Sum;
  }

  /** And some pass leaves that many, if it grows the new set and is then cut short. */
  lemma RealReached(s: Rollout, ms: Machines, inv: Inventories, d: Deployment, b: Birth) returns (accepts: nat)
    requires Handled(d) && Cap(d).Some? && Valid(s) && Informed(s, ms, inv, d, b)
    requires RealOf(ms)(NewOrNone(s, b)) < ReachOf(s, d, b)
    ensures RealAfter(s, ms, inv, d, b, accepts) == Sum(s.olds, RealOf(ms)) + ReachOf(s, d, b)
  {
    hide PassOf, PassFrom, NewStage, Created, Listed, Sum, Valid;
    ValidParts(s);
    SumNonNegative(s.olds, PeakOf);
    if s.newMS.Some? {
      var m := s.newMS.value;
      accepts := NewStageWrites(m, s.olds, d);
      NewStageMoves(m, s.olds, d, accepts);
      FromReached(m, s.olds, inv, ms, d, accepts);
    } else {
      NewReaches(s, ms, inv, d, b);
      var c := Created(b, s.olds, d).value;
      accepts := 1;
      NewStageMoves(c, s.olds, d, 0);
      NoWritesLeft(c, s.olds, d);
      FromReached(c, s.olds, inv, ms, d, 0);
    }
    PassSplit(s, inv, d, b, accepts);
  }

  lemma NoWritesLeft(m: MS, olds: seq<MS>, d: Deployment)
    ensures NewStage(m, olds, d, 0).left == 0
  {
  }

  ghost predicate MachinesBounded(s: Rollout, ms: Machines, inv: Inventories, d: Deployment, b: Birth)
    requires Cap(d).Some?
  {
    forall accepts: nat :: RealAfter(s, ms, inv, d, b, accepts) <= Max(Total(s, RealOf(ms)), Cap(d).value)
  }

  /**
   Exactly: no pass from here, however many of its writes are accepted, brings about more machines than the
   cap, or than there were, if and only if the new set cannot outgrow the machines it has, or can do so
   under the cap with every machine of the old sets counted.
   */
  lemma SurgeExactly(s: Rollout, ms: Machines, inv: Inventories, d: Deployment, b: Birth)
    requires Handled(d) && Cap(d).Some? && Valid(s) && Informed(s, ms, inv, d, b)
    ensures MachinesBounded(s, ms, inv, d, b) <==>
      || ReachOf(s, d, b) <= RealOf(ms)(NewOrNone(s, b))
      || Sum(s.olds, RealOf(ms)) + ReachOf(s, d, b) <= Cap(d).value
  {
    if s.newMS.None? { NewReaches(s, ms, inv, d, b); }
    hide RealAfter, ReachOf, Informed, Valid, Sum;
    var reach, old0 := ReachOf(s, d, b), Sum(s.olds, RealOf(ms));
    assert Total(s, RealOf(ms)) == old0 + if s.newMS.Some? then RealOf(ms)(NewOrNone(s, b)) else 0;
    if reach <= RealOf(ms)(NewOrNone(s, b)) || old0 + reach <= Cap(d).value {
      forall accepts: nat ensures RealAfter(s, ms, inv, d, b, accepts) <= Max(Total(s, RealOf(ms)), Cap(d).value) {
        RealAtMost(s, ms, inv, d, b, accepts);
      }
    } else {
      var accepts := RealReached(s, ms, inv, d, b);
      assert RealAfter(s, ms, inv, d, b, accepts) > Max(Total(s, RealOf(ms)), Cap(d).value);
    }
  }

  /** In general a pass exceeds the cap by no more than the machines that neither spec nor status accounts for. */
  lemma PassKeepsReal(s: Rollout, ms: Machines, inv: Inventories, d: Deployment, b: Birth, accepts: nat)
    requires Handled(d) && Cap(d).Some? && Valid(s) && Informed(s, ms, inv, d, b)
    ensures Valid(PassOf(s, inv, d, b, accepts))
    ensures RealAfter(s, ms, inv, d, b, accepts)
      <= Max(Total(s, RealOf(ms)), Cap(d).value + Total(s, HiddenOf(ms)))
  {
    hide RealAfter, Sum, Cap, Reach, Informed, Valid;
    RealAtMost(s, ms, inv, d, b, accepts);
    RealSplit(s.olds, ms);
    ReachWithin(NewOrNone(s, b).spec, Total(s, PeakOf), d);
    if s.newMS.None? { NewReaches(s, ms, inv, d, b); }
  }

  lemma ReachWithin(n: int, peak: int, d: Deployment)
    requires Cap(d).Some?
    ensures Reach(n, peak, d) <= n || Reach(n, peak, d) <= n + Cap(d).value - peak
  {
  }

  /**
   The hidden machines matter. An old set was scaled to one just after its controller had created two
   machines and reported none; the pass that follows grows the new set, and three machines are on the way
   where two are allowed.
   */
  lemma HiddenMachinesSurge(b: Birth)
    ensures var d := Deployment(2, RollingUpdate, Int(0), Int(1), 0);
      var s := Rollout(Some(MS("new", 2, 0, 0, 0, map[])), [MS("old", 1, 1, 0, 0, map[])]);
      var ms: Machines := map["old" := [false, false]];
      && Cap(d) == Some(2) && Total(s, RealOf(ms)) == 2 && Total(s, HiddenOf(ms)) == 1
      && exists accepts: nat :: RealAfter(s, ms, map[], d, b, accepts) == 3
  {
    var d := Deployment(2, RollingUpdate, Int(0), Int(1), 0);
    var s := Rollout(Some(MS("new", 2, 0, 0, 0, map[])), [MS("old", 1, 1, 0, 0, map[])]);
    var ms: Machines := map["old" := [false, false]];
    assert s.olds[1..] == [];
    assert Sum(s.olds, RealOf(ms)) == 2 && Sum(s.olds, HiddenOf(ms)) == 1 && Sum(s.olds, PeakOf) == 1;
    ValidParts(s);
    hide RealAfter;
    var accepts := RealReached(s, ms, map[], d, b);
  }

  // ---------------------------------------------------------------- runs

  /** The sets of a deployment and the machines that exist. */
  datatype World = World(rollout: Rollout, machines: Machines)

  /** A pass carries the deployment as it is then: its size, strategy and budgets may change from pass to pass. */
  datatype Step =
    | Passing(d: Deployment, birth: Birth, inv: Inventories, accepts: nat)
    | Drifting(next: World)
    | Regrouping(next: World)
    | Collecting(index: nat)

  /**
   What the MachineSet controller, users and failures do between passes: machines come and go and are
   reported, as far as any set had or was asked to have them.
   */
  predicate Drifted(w: World, v: World) {
    && Reported(w.rollout, v.rollout)
    && forall i | 0 <= i < |AllOf(w.rollout)| ::
         WithinReach(AllOf(w.rollout)[i], w.machines, AllOf(v.rollout)[i], v.machines)
  }

  predicate WithinReach(m: MS, ms: Machines, n: MS, ns: Machines) {
    n.status <= RealOf(ms)(m) && |MachinesOf(ns, n.name)| <= RealOf(ms)(m)
  }

  /** A set that is collected takes its machines with it: they are owned by it. */
  predicate StepsTo(w: World, step: Step, v: World) {
    match step
    case Passing(d, b, inv, accepts) =>
      v == World(PassOf(w.rollout, inv, d, b, accepts), w.machines) && Informed(w.rollout, w.machines, inv, d, b)
    case Drifting(next) => v == next && Drifted(w, v)
    case Regrouping(next) => v == next && Regrouped(w.rollout, v.rollout) && v.machines == w.machines
    case Collecting(k) => Collected(w.rollout, k, v.rollout) && v.machines == w.machines
  }

  predicate SurgeRun(worlds: seq<World>, steps: seq<Step>) {
    && |worlds| == |steps| + 1
    && forall i | 0 <= i < |steps| :: StepsTo(worlds[i], steps[i], worlds[i + 1])
  }

  /** The cap of a pass and the machines hidden from it stay within a bound. */
  predicate Bounded(w: World, step: Step, bound: int) {
    step.Passing? ==> Handled(step.d) && Cap(step.d).Some? && Cap(step.d).value + HiddenTotal(w) <= bound
  }

  function RealTotal(w: World): int { Total(w.rollout, RealOf(w.machines)) }
  function HiddenTotal(w: World): int { Total(w.rollout, HiddenOf(w.machines)) }
  /** The machines of all sets, a set's machines counted with each set of that name. */
  function MachineTotal(w: World): int { Total(w.rollout, CountOf(w.machines)) }
  function CountOf(ms: Machines): MS -> int { (m: MS) => |MachinesOf(ms, m.name)| }

  lemma DriftKeeps(w: World, v: World)
    requires Drifted(w, v) && Valid(w.rollout)
    ensures Valid(v.rollout) && RealTotal(v) <= RealTotal(w)
  {
    TotalIsSum(w.rollout, RealOf(w.machines));
    TotalIsSum(v.rollout, RealOf(v.machines));
    SumLe(AllOf(v.rollout), RealOf(v.machines), AllOf(w.rollout), RealOf(w.machines));
  }

  lemma StepKeeps(w: World, step: Step, v: World, bound: int)
    requires Valid(w.rollout) && StepsTo(w, step, v) && Bounded(w, step, bound)
    ensures Valid(v.rollout) && RealTotal(v) <= Max(RealTotal(w), bound)
  {
    hide PassOf, RealOf, HiddenOf, Informed, Valid, Cap, Handled;
    match step
    case Passing(d, b, inv, accepts) => PassKeepsReal(w.rollout, w.machines, inv, d, b, accepts);
    case Drifting(_) => DriftKeeps(w, v);
    case Regrouping(_) =>
      RegroupValid(w.rollout, v.rollout);
      RegroupKeeps(w.rollout, v.rollout, RealOf(w.machines));
    case Collecting(k) =>
      CollectKeeps(w.rollout, k, v.rollout, RealOf(w.machines));
      RealNonNegative(w.rollout.olds[k], w.machines);
  }

  lemma RealNonNegative(m: MS, ms: Machines)
    ensures 0 <= RealOf(ms)(m) && |MachinesOf(ms, m.name)| <= RealOf(ms)(m)
  {
  }

  /**
   Surge safety: in every run, of either strategy and under changes of the desired size and the budgets, the
   machines that exist stay within what there was at the start, or within the largest cap of a pass, exceeded
   by no more than the machines that were neither asked for nor reported when that pass started.
   */
  lemma {:induction false} SurgeSafety(worlds: seq<World>, steps: seq<Step>, k: nat, bound: int)
    requires SurgeRun(worlds, steps) && k < |worlds| && Valid(worlds[0].rollout)
    requires forall i | 0 <= i < |steps| :: Bounded(worlds[i], steps[i], bound)
    ensures Valid(worlds[k].rollout)
    ensures MachineTotal(worlds[k]) <= RealTotal(worlds[k]) <= Max(RealTotal(worlds[0]), bound)
  {
    hide StepsTo, Valid, Bounded, RealTotal, MachineTotal;
    MachinesWithin(worlds[k]);
    if k > 0 {
      SurgeSafety(worlds, steps, k - 1, bound);
      assert StepsTo(worlds[k - 1], steps[k - 1], worlds[k]);
      StepKeeps(worlds[k - 1], steps[k - 1], worlds[k], bound);
    }
  }

  lemma MachinesWithin(w: World)
    ensures MachineTotal(w) <= RealTotal(w)
  {
    SumLe(w.rollout.olds, CountOf(w.machines), w.rollout.olds, RealOf(w.machines));
  }

  // ---------------------------------------------------------------- the MachineSet controller

  /**
   One reconcile of a MachineSet: it lists the machines of its set, creates what is missing or deletes what is
   too much, and then reports the machines it had listed. The bound on what it creates is that of SyncAndReport.
   */
  ghost predicate Synced(w: World, i: nat, created: nat, v: World) {
    && Reported(w.rollout, v.rollout) && i < |AllOf(w.rollout)|
    && var m, n := AllOf(w.rollout)[i], AllOf(v.rollout)[i];
       var listed := |MachinesOf(w.machines, m.name)|;
       && n.status == listed && listed + created <= Max(listed, m.spec)
       && (forall j | 0 <= j < |AllOf(w.rollout)| && j != i ::
             AllOf(v.rollout)[j] == AllOf(w.rollout)[j] && AllOf(w.rollout)[j].name != m.name)
       && |MachinesOf(v.machines, m.name)| <= listed + created
       && forall name | name != m.name :: MachinesOf(v.machines, name) == MachinesOf(w.machines, name)
  }

  /** A sync is one of the steps a run admits. */
  lemma SyncDrifts(w: World, i: nat, created: nat, v: World)
    requires Synced(w, i, created, v)
    ensures Drifted(w, v)
  {
  }
}
