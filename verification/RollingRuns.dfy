/**
 Whole runs of a rolling update: passes that may fail at any write, status reports of the MachineSet
 controller and edits of the template, in any order.
 */
module RollingRuns {
  import opened Basics
  import opened Fleet
  import opened RollingSpec
  import opened RollingSafety

  /** The sets of a deployment: the one matching its template, if it exists, and the others. */
  datatype Rollout = Rollout(newMS: Option<MS>, olds: seq<MS>)

  function AllOf(s: Rollout): seq<MS> {
    s.olds + if s.newMS.Some? then [s.newMS.value] else []
  }

  function Total(s: Rollout, f: MS -> int): int {
    Sum(s.olds, f) + if s.newMS.Some? then f(s.newMS.value) else 0
  }

  lemma TotalIsSum(s: Rollout, f: MS -> int)
    ensures Total(s, f) == Sum(AllOf(s), f)
  {
    if s.newMS.Some? {
      SumAppend(s.olds, [s.newMS.value], f);
      assert [s.newMS.value][1..] == [];
    } else {
      assert AllOf(s) == s.olds;
    }
  }

  // ---------------------------------------------------------------- one pass

  datatype Pass = Pass(state: Rollout, ok: bool)

  function PassWith(newMS: MS, olds: seq<MS>, d: Deployment, accepts: nat): Pass {
    var p := ReconcileNew(newMS, olds, d, accepts);
    if !p.ok then Pass(Rollout(Some(p.ms), olds), false)
    else
      var r := ReconcileOld(p.ms, olds, d, p.left);
      Pass(Rollout(Some(p.ms), r.sets), r.ok)
  }

  /** rolloutRolling: find or create the new set, grow it, then shrink the old ones. */
  function RollingPass(s: Rollout, d: Deployment, b: Birth, accepts: nat): Pass {
    match s.newMS
    case Some(m) => PassWith(m, s.olds, d, accepts)
    case None =>
      match Created(b, s.olds, d)
      case None => Pass(s, false)
      case Some(m) => if accepts == 0 then Pass(s, false) else PassWith(m, s.olds, d, accepts - 1)
  }

  predicate Valid(s: Rollout) {
    SpecsValid(AllOf(s))
  }

  lemma ValidParts(s: Rollout)
    ensures Valid(s) <==>
      SpecsValid(s.olds) && (s.newMS.Some? ==> 0 <= s.newMS.value.spec && 0 <= s.newMS.value.avail)
  {
    var a := AllOf(s);
    assert s.newMS.Some? ==> a[|s.olds|] == s.newMS.value;
    assert forall i | 0 <= i < |s.olds| :: a[i] == s.olds[i];
  }

  /** The new set moves towards the desired size, never past it, and never lifts the peak over the cap. */
  lemma NewSetMoves(newMS: MS, olds: seq<MS>, d: Deployment, accepts: nat)
    requires d.strategy.RollingUpdate? && 0 <= newMS.spec
    ensures var p := ReconcileNew(newMS, olds, d, accepts);
      && p.ms == newMS.(spec := p.ms.spec, annotations := p.ms.annotations)
      && (newMS.spec <= p.ms.spec <= d.replicas || d.replicas <= p.ms.spec <= newMS.spec)
      && (p.ok ==> p.ms.spec <= d.replicas)
      && (SurgeCap(d).Some? ==>
            Sum(olds, PeakOf) + PeakOf(p.ms) <= Max(Sum(olds, PeakOf) + PeakOf(newMS), SurgeCap(d).value))
  {
    hide GoalOf, SetReplicasAnnotations;
  }

  /** Given a write, the new set is cut to the desired size, or grows by all the room left under the cap. */
  lemma NewSetFillsTheCap(newMS: MS, olds: seq<MS>, d: Deployment, accepts: nat)
    requires d.strategy.RollingUpdate? && 0 <= newMS.spec && 0 < accepts
    ensures var p := ReconcileNew(newMS, olds, d, accepts);
      && (p.ok <==> newMS.spec >= d.replicas || SurgeCap(d).Some?)
      && (p.ok ==> accepts - 1 <= p.left)
      && (p.ok ==> p.ms.spec == if newMS.spec >= d.replicas then d.replicas
            else Min(d.replicas, newMS.spec + Max(0, SurgeCap(d).value - Sum(olds, PeakOf) - PeakOf(newMS))))
  {
    hide GoalOf, SetReplicasAnnotations;
  }

  /** At the desired size nothing is written; otherwise size and annotations are refreshed together. */
  lemma NewSetWrites(newMS: MS, olds: seq<MS>, d: Deployment, accepts: nat)
    requires d.strategy.RollingUpdate?
    ensures var p := ReconcileNew(newMS, olds, d, accepts);
      && (newMS.spec == d.replicas ==> p == Patched(newMS, accepts, true))
      && (p.ok && newMS.spec != d.replicas ==> !ReplicasAnnotationsNeedUpdate(p.ms.annotations, GoalOf(d)))
  {
    hide GoalOf, SetReplicasAnnotations, ReplicasAnnotationsNeedUpdate, ScaleTo, Sum;
    ScaleToExact(newMS, d.replicas, GoalOf(d), accepts, DisableMachineCreate);
    if newMS.spec < d.replicas && SurgeCap(d).Some? {
      var n := NewReplicas(d, Sum(olds, PeakOf) + PeakOf(newMS), newMS.spec).value;
      ScaleToExact(newMS, n, GoalOf(d), accepts, DisableMachineCreate);
    }
  }

  // ---------------------------------------------------------------- what a pass keeps

  /** The facts about one pass with an existing new set that every run-level result rests on. */
  lemma PassKeeps(newMS: MS, olds: seq<MS>, d: Deployment, accepts: nat)
    requires d.strategy.RollingUpdate? && SpecsValid(olds) && 0 <= d.replicas && 0 <= newMS.spec && 0 <= newMS.avail
    ensures var q := PassWith(newMS, olds, d, accepts); var t := q.state;
      && t.newMS.Some? && SpecsValid(t.olds) && 0 <= t.newMS.value.spec && 0 <= t.newMS.value.avail
      && AllShrunk(olds, t.olds)
      && (q.ok ==> t.newMS.value.spec <= d.replicas)
      && (SurgeCap(d).Some? ==>
            Total(t, PeakOf) <= Max(Sum(olds, PeakOf) + PeakOf(newMS), SurgeCap(d).value))
      && Distance(t, d) <= Distance(Rollout(Some(newMS), olds), d)
  {
    NewSetMoves(newMS, olds, d, accepts);
    var p := ReconcileNew(newMS, olds, d, accepts);
    ReconcileOldShrinks(p.ms, olds, d, p.left);
    ShrunkKeeps(olds, ReconcileOld(p.ms, olds, d, p.left).sets);
    hide ReconcileNew, ReconcileOld, SurgeCap;
  }

  /** What a pass must leave available: the minimum asked for, and never more than the size the new set is cut to. */
  function Floor(d: Deployment): int { Min(d.replicas, MinAvailable(d)) }

  /**
   Availability over a whole pass: scaling the new set down to the desired size is safe too, since the
   new set alone then holds that many.
   */
  lemma PassKeepsAvailability(newMS: MS, olds: seq<MS>, d: Deployment, accepts: nat)
    requires d.strategy.RollingUpdate? && SpecsValid(olds) && 0 <= newMS.spec && 0 <= newMS.avail
    ensures Total(PassWith(newMS, olds, d, accepts).state, KeptOf)
      >= Min(Kept(newMS, olds), Floor(d) - Lag(newMS, olds))
  {
    NewSetMoves(newMS, olds, d, accepts);
    var p := ReconcileNew(newMS, olds, d, accepts);
    if p.ok {
      var r := ReconcileOld(p.ms, olds, d, p.left);
      AvailabilityFloor(p.ms, olds, d, p.left);
      hide ReconcileNew, ReconcileOld, MaxUnavailable;
      SumNonNegative(olds, LagOf);
      if newMS.spec > d.replicas && newMS.avail > d.replicas {
        ReconcileOldShrinks(p.ms, olds, d, p.left);
        SumNonNegative(r.sets, KeptOf);
      }
    }
  }

  /** How far a rollout is from its end: the new set's distance from the desired size, and the old replicas. */
  function Distance(s: Rollout, d: Deployment): int {
    var n := if s.newMS.Some? then s.newMS.value.spec else 0;
    Max(d.replicas - n, n - d.replicas) + Sum(s.olds, SpecOf)
  }

  /** A set about to be created obeys the same cap and has nothing available yet. */
  lemma CreatedKeeps(b: Birth, olds: seq<MS>, d: Deployment)
    requires d.strategy.RollingUpdate? && 0 <= d.replicas && Created(b, olds, d).Some?
    ensures SurgeCap(d).Some?
    ensures var m := Created(b, olds, d).value;
      && 0 <= m.spec <= d.replicas && m.status == m.avail == 0
      && Sum(olds, PeakOf) + PeakOf(m) <= Max(Sum(olds, PeakOf), SurgeCap(d).value)
      && m.spec == Min(d.replicas, Max(0, SurgeCap(d).value - Sum(olds, PeakOf)))
  {
  }

  /** Every rolling pass, also one that creates the new set or fails half-way. */
  lemma RollingPassKeeps(s: Rollout, d: Deployment, b: Birth, accepts: nat)
    requires d.strategy.RollingUpdate? && 0 <= d.replicas && Valid(s)
    ensures var q := RollingPass(s, d, b, accepts);
      && Valid(q.state)
      && (q.ok ==> q.state.newMS.Some? && q.state.newMS.value.spec <= d.replicas)
      && (SurgeCap(d).Some? ==> Total(q.state, PeakOf) <= Max(Total(s, PeakOf), SurgeCap(d).value))
      && Distance(q.state, d) <= Distance(s, d)
  {
    ValidParts(s);
    ValidParts(RollingPass(s, d, b, accepts).state);
    var c := Created(b, s.olds, d);
    hide SurgeCap, Created, PassWith;
    match s.newMS
    case Some(m) => PassKeeps(m, s.olds, d, accepts);
    case None =>
      if c.Some? && accepts > 0 {
        CreatedKeeps(b, s.olds, d);
        PassKeeps(c.value, s.olds, d, accepts - 1);
      }
  }

  /** And what it leaves available. */
  lemma RollingPassAvailability(s: Rollout, d: Deployment, b: Birth, accepts: nat)
    requires d.strategy.RollingUpdate? && 0 <= d.replicas && Valid(s)
    ensures Total(RollingPass(s, d, b, accepts).state, KeptOf) >= Min(Total(s, KeptOf), Floor(d) - Total(s, LagOf))
  {
    ValidParts(s);
    var c := Created(b, s.olds, d);
    hide Created, Floor, PassWith;
    match s.newMS
    case Some(m) => PassKeepsAvailability(m, s.olds, d, accepts);
    case None =>
      if c.Some? && accepts > 0 {
        CreatedKeeps(b, s.olds, d);
        PassKeepsAvailability(c.value, s.olds, d, accepts - 1);
      }
  }

  // ---------------------------------------------------------------- progress

  /** Every set has exactly the machines its spec asks for, all reported and available. */
  predicate Settled(s: Rollout) {
    forall i | 0 <= i < |AllOf(s)| :: SettledSet(AllOf(s)[i])
  }

  predicate SettledSet(m: MS) { 0 <= m.spec && m.status == m.avail == m.spec }

  /** Enough accepted writes for a pass not to fail: one to create, one for the new set, two per old set. */
  function WritesNeeded(s: Rollout): nat { 2 * |s.olds| + 2 }

  /** The budgets leave some room: neither is negative, and there is a surge machine, or one that may be missing. */
  predicate Room(d: Deployment) {
    && 0 <= d.replicas && SurgeCap(d).Some?
    && (0 < d.replicas ==>
          d.replicas <= SurgeCap(d).value && 0 <= MaxUnavailable(d)
          && d.replicas < SurgeCap(d).value + MaxUnavailable(d))
  }

  /** Of the deployments the webhook admits, those with machines have room exactly if no budget is negative. */
  lemma AdmittedRoom(d: Deployment)
    requires d.strategy.RollingUpdate? && 0 <= d.replicas && Admitted(d)
    ensures Room(d) <==> d.replicas == 0 || (0 <= MaxSurge(d) && 0 <= MaxUnavailable(d))
  {
    BudgetsResolve(d);
    hide MaxSurge, MaxUnavailable, SurgeCap, ScaledValue;
  }

  /**
   A rollout that cannot move: the new set is full or the sets use up the cap, and the old sets are empty or
   needed to keep the minimum. With a surge that does not parse no set grows, and a pass ends there.
   */
  predicate Stalled(s: Rollout, d: Deployment) {
    if s.newMS.None? then SurgeCap(d).None?
    else
      var n, old0 := s.newMS.value.spec, Sum(s.olds, SpecOf);
      if n < d.replicas then SurgeCap(d).None? || (SurgeCap(d).value <= n + old0 && Needed(n, old0, d))
      else n == d.replicas && Needed(n, old0, d)
  }

  predicate Needed(n: int, old0: int, d: Deployment) {
    old0 == 0 || old0 + n <= MinAvailable(d)
  }

  /** The sizes after a pass that starts settled and is not cut short. */
  lemma SettledPassSizes(newMS: MS, olds: seq<MS>, d: Deployment, accepts: nat)
    requires d.strategy.RollingUpdate? && 0 <= d.replicas && 2 * |olds| + 1 <= accepts
    requires SpecsValid(olds) && CaughtUp(olds) && Sum(olds, PeakOf) == Sum(olds, SpecOf) && SettledSet(newMS)
    ensures var t, n, old0 := PassWith(newMS, olds, d, accepts).state, newMS.spec, Sum(olds, SpecOf);
      && 0 <= old0 && t.newMS.Some?
      && (n < d.replicas && SurgeCap(d).None? ==> t == Rollout(Some(newMS), olds))
      && (n >= d.replicas || SurgeCap(d).Some? ==>
            && t.newMS.value.spec ==
               (if n >= d.replicas then d.replicas else Min(d.replicas, n + Max(0, SurgeCap(d).value - old0 - n)))
            && Sum(t.olds, SpecOf) == if Needed(n, old0, d) then old0 else Max(0, MinAvailable(d) - n))
  {
    hide ReconcileNew, ReconcileOld, SurgeCap, MaxUnavailable, Sum;
    NewSetMoves(newMS, olds, d, accepts);
    NewSetFillsTheCap(newMS, olds, d, accepts);
    var p := ReconcileNew(newMS, olds, d, accepts);
    CaughtUpOldStage(p.ms, olds, d, if p.ok then p.left else accepts);
    if !p.ok { NewSetUntouched(newMS, olds, d, accepts); }
  }

  lemma NewSetUntouched(newMS: MS, olds: seq<MS>, d: Deployment, accepts: nat)
    requires !ReconcileNew(newMS, olds, d, accepts).ok
    ensures ReconcileNew(newMS, olds, d, accepts).ms == newMS
  {
  }

  /**
   From a settled state, a pass that is not cut short gets strictly closer to the end exactly if it is not
   stalled.
   */
  lemma SettledPassExactly(newMS: MS, olds: seq<MS>, d: Deployment, accepts: nat)
    requires d.strategy.RollingUpdate? && 0 <= d.replicas && 2 * |olds| + 1 <= accepts
    requires SpecsValid(olds) && CaughtUp(olds) && Sum(olds, PeakOf) == Sum(olds, SpecOf) && SettledSet(newMS)
    ensures var s := Rollout(Some(newMS), olds);
      Distance(PassWith(newMS, olds, d, accepts).state, d) < Distance(s, d) <==> !Stalled(s, d)
  {
    hide PassWith, SurgeCap, MaxUnavailable, SpecsValid, CaughtUp, Sum;
    SettledPassSizes(newMS, olds, d, accepts);
  }

  /** With room, only a rollout that is at its end is stalled. */
  lemma RoomNoStall(s: Rollout, d: Deployment)
    requires d.strategy.RollingUpdate? && Room(d) && Valid(s) && Stalled(s, d)
    ensures Distance(s, d) == 0
  {
    ValidParts(s);
    SumNonNegative(s.olds, SpecOf);
    hide MaxUnavailable, SurgeCap;
    BudgetsResolve(d);
  }

  lemma SettledParts(s: Rollout)
    requires Settled(s)
    ensures Valid(s) && SpecsValid(s.olds) && CaughtUp(s.olds) && Sum(s.olds, PeakOf) == Sum(s.olds, SpecOf)
    ensures s.newMS.Some? ==> SettledSet(s.newMS.value)
  {
    forall i | 0 <= i < |s.olds| ensures SettledSet(s.olds[i]) { assert AllOf(s)[i] == s.olds[i]; }
    SumEq(s.olds, PeakOf, s.olds, SpecOf);
    if s.newMS.Some? { assert AllOf(s)[|s.olds|] == s.newMS.value; }
  }

  predicate MakesProgress(d: Deployment, s: Rollout, b: Birth, accepts: nat) {
    Distance(s, d) == 0 || Distance(RollingPass(s, d, b, accepts).state, d) < Distance(s, d)
  }

  lemma PassProgress(newMS: MS, olds: seq<MS>, d: Deployment, accepts: nat)
    requires d.strategy.RollingUpdate? && Room(d) && 2 * |olds| + 1 <= accepts
    requires SpecsValid(olds) && CaughtUp(olds) && Sum(olds, PeakOf) == Sum(olds, SpecOf) && SettledSet(newMS)
    ensures var s := Rollout(Some(newMS), olds);
      Distance(s, d) == 0 || Distance(PassWith(newMS, olds, d, accepts).state, d) < Distance(s, d)
  {
    var s := Rollout(Some(newMS), olds);
    RoomSize(d);
    ValidParts(s);
    hide PassWith, Room, Stalled, Distance, Valid, CaughtUp;
    SettledPassExactly(newMS, olds, d, accepts);
    if Stalled(s, d) { RoomNoStall(s, d); }
  }

  lemma RoomSize(d: Deployment)
    requires Room(d)
    ensures 0 <= d.replicas && SurgeCap(d).Some?
  {
  }

  lemma CreatedSome(b: Birth, olds: seq<MS>, d: Deployment)
    requires d.strategy.RollingUpdate? && SurgeCap(d).Some?
    ensures Created(b, olds, d).Some?
  {
  }

  lemma BornDistance(s: Rollout, d: Deployment, c: MS)
    requires s.newMS.None? && 0 <= c.spec <= d.replicas
    ensures Distance(Rollout(Some(c), s.olds), d) == Distance(s, d) - c.spec
  {
  }

  lemma BirthProgress(s: Rollout, d: Deployment, b: Birth, accepts: nat)
    requires d.strategy.RollingUpdate? && Room(d) && WritesNeeded(s) <= accepts && s.newMS.None?
    requires SpecsValid(s.olds) && CaughtUp(s.olds) && Sum(s.olds, PeakOf) == Sum(s.olds, SpecOf)
    ensures MakesProgress(d, s, b, accepts)
  {
    hide PassWith, Created, Room, SurgeCap, Distance, CaughtUp, Sum;
    RoomSize(d);
    CreatedSome(b, s.olds, d);
    var c := Created(b, s.olds, d).value;
    CreatedKeeps(b, s.olds, d);
    BornDistance(s, d, c);
    if c.spec == 0 {
      PassProgress(c, s.olds, d, accepts - 1);
    } else {
      PassKeeps(c, s.olds, d, accepts - 1);
    }
  }

  /** From a settled state one pass that is not cut short gets strictly closer to the end, unless it is there. */
  lemma SettledPassProgress(s: Rollout, d: Deployment, b: Birth, accepts: nat)
    requires d.strategy.RollingUpdate? && Room(d) && Settled(s) && WritesNeeded(s) <= accepts
    ensures MakesProgress(d, s, b, accepts)
  {
    SettledParts(s);
    hide PassWith, Room, Settled, Valid, Distance;
    match s.newMS
    case Some(m) =>
      assert s == Rollout(Some(m), s.olds);
      PassProgress(m, s.olds, d, accepts);
    case None => BirthProgress(s, d, b, accepts);
  }

  // ---------------------------------------------------------------- runs

  datatype Move =
    | Reconcile(birth: Birth, accepts: nat)
    | Observe(next: Rollout)
    | Retarget(next: Rollout)
    | Collect(index: nat)

  /** Only statuses differ between the two sets. */
  predicate SameSet(m: MS, n: MS) {
    n == m.(status := n.status, avail := n.avail) && 0 <= n.avail
  }

  /** Status reports of the MachineSet controller. */
  predicate Reported(s: Rollout, t: Rollout) {
    && |AllOf(s)| == |AllOf(t)| && s.newMS.Some? == t.newMS.Some?
    && forall i | 0 <= i < |AllOf(s)| :: SameSet(AllOf(s)[i], AllOf(t)[i])
  }

  /** A template edit changes which set is the new one, and nothing about any set. */
  predicate Regrouped(s: Rollout, t: Rollout) {
    multiset(AllOf(s)) == multiset(AllOf(t))
  }

  /** The cleanup that ends a pass deletes old sets that are empty and reported so. */
  predicate Collected(s: Rollout, k: nat, t: Rollout) {
    && k < |s.olds| && s.olds[k].spec == 0 && s.olds[k].status == 0
    && t == s.(olds := s.olds[..k] + s.olds[k + 1..])
  }

  predicate Moves(d: Deployment, s: Rollout, m: Move, t: Rollout) {
    match m
    case Reconcile(b, accepts) => t == RollingPass(s, d, b, accepts).state
    case Observe(next) => t == next && Reported(s, t)
    case Retarget(next) => t == next && Regrouped(s, t)
    case Collect(k) => Collected(s, k, t)
  }

  predicate Run(d: Deployment, states: seq<Rollout>, moves: seq<Move>) {
    && |states| == |moves| + 1
    && forall i | 0 <= i < |moves| :: Moves(d, states[i], moves[i], states[i + 1])
  }

  lemma RegroupKeeps(s: Rollout, t: Rollout, f: MS -> int)
    requires Regrouped(s, t)
    ensures Total(t, f) == Total(s, f)
  {
    TotalIsSum(s, f);
    TotalIsSum(t, f);
    SumPermuted(AllOf(s), AllOf(t), f);
  }

  lemma RegroupValid(s: Rollout, t: Rollout)
    requires Regrouped(s, t) && Valid(s)
    ensures Valid(t)
  {
    forall i | 0 <= i < |AllOf(t)| ensures 0 <= AllOf(t)[i].spec && 0 <= AllOf(t)[i].avail {
      assert AllOf(t)[i] in multiset(AllOf(t));
      assert AllOf(t)[i] in AllOf(s);
    }
  }

  lemma CollectKeeps(s: Rollout, k: nat, t: Rollout, f: MS -> int)
    requires Collected(s, k, t) && Valid(s)
    ensures Valid(t) && Total(t, f) == Total(s, f) - f(s.olds[k])
    ensures 0 <= s.olds[k].avail
  {
    ValidParts(s);
    ValidParts(t);
    SumWithout(s.olds, k, f);
  }

  lemma MoveKeepsValid(d: Deployment, s: Rollout, m: Move, t: Rollout)
    requires d.strategy.RollingUpdate? && 0 <= d.replicas && Valid(s) && Moves(d, s, m, t)
    ensures Valid(t)
  {
    hide RollingPass;
    match m
    case Reconcile(b, accepts) => RollingPassKeeps(s, d, b, accepts);
    case Observe(_) =>
    case Retarget(_) => RegroupValid(s, t);
    case Collect(k) => CollectKeeps(s, k, t, SpecOf);
  }

  /** No set ever gets a negative size. */
  lemma {:induction false} RunKeepsValid(d: Deployment, states: seq<Rollout>, moves: seq<Move>, k: nat)
    requires d.strategy.RollingUpdate? && 0 <= d.replicas
    requires Run(d, states, moves) && k < |states| && Valid(states[0])
    ensures Valid(states[k])
  {
    if k > 0 {
      RunKeepsValid(d, states, moves, k - 1);
      assert Moves(d, states[k - 1], moves[k - 1], states[k]);
      hide Moves, Valid;
      MoveKeepsValid(d, states[k - 1], moves[k - 1], states[k]);
    }
  }

  // ---------------------------------------------------------------- runs that stall

  /** Of the new set only machines it may have are reported, and available ones among them; old sets report anything. */
  predicate Plausible(s: Rollout, t: Rollout) {
    s.newMS.Some? && t.newMS.Some? ==> t.newMS.value.avail <= t.newMS.value.status <= PeakOf(s.newMS.value)
  }

  /** Stalled, with a new set that has no more machines than it asks for. */
  predicate Stuck(s: Rollout, d: Deployment) {
    Stalled(s, d)
    && (s.newMS.Some? ==> s.newMS.value.avail <= s.newMS.value.spec && s.newMS.value.status <= s.newMS.value.spec)
  }

  /** Same sets, apart from the annotations and the statuses. */
  predicate SameSizes(s: Rollout, t: Rollout) {
    && s.newMS.Some? == t.newMS.Some? && (s.newMS.Some? ==> s.newMS.value.spec == t.newMS.value.spec)
    && Sum(s.olds, SpecOf) == Sum(t.olds, SpecOf)
  }

  lemma SameSizesStalled(s: Rollout, t: Rollout, d: Deployment)
    requires SameSizes(s, t)
    ensures Stalled(s, d) <==> Stalled(t, d)
    ensures Distance(s, d) == Distance(t, d)
  {
    hide SurgeCap, MaxUnavailable;
  }

  lemma StuckPass(s: Rollout, d: Deployment, b: Birth, accepts: nat)
    requires d.strategy.RollingUpdate? && Valid(s) && Stuck(s, d)
    ensures SameSizes(s, RollingPass(s, d, b, accepts).state) && Stuck(RollingPass(s, d, b, accepts).state, d)
  {
    ValidParts(s);
    SumNonNegative(s.olds, SpecOf);
    var t := RollingPass(s, d, b, accepts).state;
    if s.newMS.Some? {
      var m := s.newMS.value;
      SumLe(s.olds, SpecOf, s.olds, PeakOf);
      NewSetStays(m, s.olds, d, accepts);
      hide ReconcileNew, SurgeCap, MaxUnavailable;
    }
  }

  lemma NewSetStays(m: MS, olds: seq<MS>, d: Deployment, accepts: nat)
    requires d.strategy.RollingUpdate? && m.spec <= d.replicas && Sum(olds, SpecOf) <= Sum(olds, PeakOf)
    requires m.spec < d.replicas ==> SurgeCap(d).None? || SurgeCap(d).value <= m.spec + Sum(olds, SpecOf)
    ensures var p := ReconcileNew(m, olds, d, accepts);
      && p.ms == m.(annotations := p.ms.annotations)
      && (p.ok ==> m.spec == d.replicas || SurgeCap(d).Some?)
  {
    hide GoalOf, SetReplicasAnnotations;
  }

  lemma StuckMove(d: Deployment, s: Rollout, m: Move, t: Rollout)
    requires d.strategy.RollingUpdate? && Valid(s) && Stuck(s, d) && Moves(d, s, m, t) && !m.Retarget?
    requires m.Observe? ==> Plausible(s, t)
    ensures SameSizes(s, t) && Stuck(t, d)
  {
    hide RollingPass, Stalled;
    match m
    case Reconcile(b, accepts) => StuckPass(s, d, b, accepts);
    case Observe(_) =>
      ReportKeepsSizes(s, t);
      SameSizesStalled(s, t, d);
      assert s.newMS.Some? ==> AllOf(s)[|s.olds|] == s.newMS.value && AllOf(t)[|s.olds|] == t.newMS.value;
    case Collect(k) =>
      SumWithout(s.olds, k, SpecOf);
      SameSizesStalled(s, t, d);
  }

  lemma ReportKeepsSizes(s: Rollout, t: Rollout)
    requires Reported(s, t)
    ensures SameSizes(s, t) && |s.olds| == |t.olds|
  {
    assert forall i | 0 <= i < |s.olds| :: AllOf(s)[i] == s.olds[i] && AllOf(t)[i] == t.olds[i];
    assert s.newMS.Some? ==> AllOf(s)[|s.olds|] == s.newMS.value && AllOf(t)[|s.olds|] == t.newMS.value;
    SumEq(s.olds, SpecOf, t.olds, SpecOf);
  }

  /**
   A stalled rollout stays where it is, whatever passes, reports and cleanups follow, until the template is
   edited: no pass, with any number of accepted writes, changes a size.
   */
  lemma {:induction false} StalledForGood(d: Deployment, states: seq<Rollout>, moves: seq<Move>, k: nat)
    requires d.strategy.RollingUpdate? && 0 <= d.replicas
    requires Run(d, states, moves) && k < |states| && Valid(states[0]) && Stuck(states[0], d)
    requires forall i | 0 <= i < |moves| :: Ordinary(states[i], moves[i], states[i + 1])
    ensures Stuck(states[k], d) && Distance(states[k], d) == Distance(states[0], d)
  {
    if k > 0 {
      StalledForGood(d, states, moves, k - 1);
      RunKeepsValid(d, states, moves, k - 1);
      var s, m, t := states[k - 1], moves[k - 1], states[k];
      assert Moves(d, s, m, t) && Ordinary(s, m, t);
      hide Moves, Stuck, Valid;
      StuckMove(d, s, m, t);
      SameSizesStalled(s, t, d);
    }
  }

  /** Not a template edit, and no report of machines the new set cannot have. */
  predicate Ordinary(s: Rollout, m: Move, t: Rollout) {
    !m.Retarget? && (m.Observe? ==> Plausible(s, t))
  }

  function SettledAt(b: Birth, n: int): MS { MS(b.name, b.created, n, n, n, b.annotations) }

  /** Where a deployment without room gets stuck, whatever the names and annotations of its sets. */
  function StuckState(d: Deployment, a: Birth, b: Birth): Rollout {
    if SurgeCap(d).None? then
      if d.replicas == 0 then Rollout(None, [SettledAt(b, 1)]) else Rollout(Some(SettledAt(a, 0)), [])
    else if SurgeCap(d).value < d.replicas then Rollout(Some(SettledAt(a, Max(0, SurgeCap(d).value))), [])
    else if MaxUnavailable(d) < 0 then Rollout(Some(SettledAt(a, d.replicas)), [SettledAt(b, -MaxUnavailable(d))])
    else Rollout(Some(SettledAt(a, 0)), [SettledAt(b, d.replicas)])
  }

  lemma NoRoomStuck(d: Deployment, a: Birth, b: Birth)
    requires d.strategy.RollingUpdate? && 0 <= d.replicas && !Room(d)
    ensures var s := StuckState(d, a, b); Settled(s) && Stuck(s, d) && 0 < Distance(s, d)
  {
    hide SurgeCap, MaxUnavailable;
    var s := StuckState(d, a, b);
    if s.olds != [] {
      assert s.olds[1..] == [];
      assert Sum(s.olds, SpecOf) == s.olds[0].spec;
    }
  }

  /** An admitted deployment that gets stuck: three machines and a surge of minus one. */
  lemma NegativeSurgeStalls(a: Birth, b: Birth)
    ensures var d := Deployment(3, RollingUpdate, Int(-1), Int(0), 0);
      var s := Rollout(Some(SettledAt(a, 0)), [SettledAt(b, 3)]);
      Admitted(d) && !Room(d) && Settled(s) && Stuck(s, d) && Distance(s, d) == 6
  {
    assert [SettledAt(b, 3)][1..] == [];
  }

  /** Exactly: every settled state makes progress if and only if the budgets leave room. */
  lemma ProgressExactly(d: Deployment)
    requires d.strategy.RollingUpdate? && 0 <= d.replicas
    ensures Room(d) <==> forall s: Rollout, b: Birth, accepts: nat
      | Settled(s) && WritesNeeded(s) <= accepts :: MakesProgress(d, s, b, accepts)
  {
    hide RollingPass, Settled, Room, Stuck, StuckState;
    if Room(d) {
      forall s: Rollout, b: Birth, accepts: nat | Settled(s) && WritesNeeded(s) <= accepts
        ensures MakesProgress(d, s, b, accepts)
      {
        SettledPassProgress(s, d, b, accepts);
      }
    } else {
      var b := Birth("", 0, map[]);
      var s := StuckState(d, b, b);
      NoRoomStuck(d, b, b);
      SettledParts(s);
      StuckPass(s, d, b, WritesNeeded(s));
      SameSizesStalled(s, RollingPass(s, d, b, WritesNeeded(s)).state, d);
      assert !MakesProgress(d, s, b, WritesNeeded(s));
    }
  }

  // ---------------------------------------------------------------- availability over runs

  /** No machine that spec asks for is lost between passes, and passes start with at most `lag` unreported deletions. */
  predicate Undisturbed(states: seq<Rollout>, moves: seq<Move>, lag: nat)
    requires |states| == |moves| + 1
  {
    forall i | 0 <= i < |moves| :: UndisturbedMove(states[i], moves[i], states[i + 1], lag)
  }

  predicate UndisturbedMove(s: Rollout, m: Move, t: Rollout, lag: nat) {
    && (m.Reconcile? ==> Total(s, LagOf) <= lag)
    && (m.Observe? ==> NoLoss(AllOf(s), AllOf(t)))
  }

  predicate NoLoss(before: seq<MS>, after: seq<MS>) {
    |before| == |after| && forall j | 0 <= j < |before| :: KeptOf(before[j]) <= after[j].avail
  }

  lemma MoveKeepsAvailability(d: Deployment, s: Rollout, m: Move, t: Rollout, lag: nat)
    requires d.strategy.RollingUpdate? && 0 <= d.replicas
    requires Valid(s) && Moves(d, s, m, t) && UndisturbedMove(s, m, t, lag)
    ensures Total(t, KeptOf) >= Min(Total(s, KeptOf), Floor(d) - lag)
  {
    hide Floor, RollingPass;
    match m
    case Reconcile(b, accepts) => RollingPassAvailability(s, d, b, accepts);
    case Observe(_) =>
      TotalIsSum(s, KeptOf);
      TotalIsSum(t, KeptOf);
      SumLe(AllOf(s), KeptOf, AllOf(t), KeptOf);
    case Retarget(_) => RegroupKeeps(s, t, KeptOf);
    case Collect(k) => CollectKeeps(s, k, t, KeptOf);
  }

  /**
   Availability over runs: while machines do not fail on their own, a rolling update never takes the
   kept-available machines below the floor, or below where they started if that was lower. Machines wrongly
   counted as available when a pass starts are all that can be missing, and passes do not add them up.
   */
  lemma {:induction false} AvailabilitySafety(d: Deployment, states: seq<Rollout>, moves: seq<Move>, k: nat, lag: nat)
    requires d.strategy.RollingUpdate? && 0 <= d.replicas
    requires Run(d, states, moves) && k < |states| && Valid(states[0]) && Undisturbed(states, moves, lag)
    ensures Total(states[k], KeptOf) >= Min(Total(states[0], KeptOf), Floor(d) - lag)
  {
    hide Moves, UndisturbedMove, Floor, Valid, Total;
    if k > 0 {
      AvailabilitySafety(d, states, moves, k - 1, lag);
      RunKeepsValid(d, states, moves, k - 1);
      assert Moves(d, states[k - 1], moves[k - 1], states[k]);
      assert UndisturbedMove(states[k - 1], moves[k - 1], states[k], lag);
      MoveKeepsAvailability(d, states[k - 1], moves[k - 1], states[k], lag);
    }
  }

  // ---------------------------------------------------------------- runs that end

  /** A pass that starts settled and is not cut short. */
  predicate Counts(s: Rollout, m: Move) {
    m.Reconcile? && Settled(s) && WritesNeeded(s) <= m.accepts
  }

  /** The passes that count among the first k moves of a run. */
  function SettledPasses(states: seq<Rollout>, moves: seq<Move>, k: nat): nat
    requires |states| == |moves| + 1 && k <= |moves|
  {
    if k == 0 then 0 else SettledPasses(states, moves, k - 1) + if Counts(states[k - 1], moves[k - 1]) then 1 else 0
  }

  lemma DistanceNonNegative(s: Rollout, d: Deployment)
    requires Valid(s)
    ensures 0 <= Distance(s, d)
    ensures Distance(s, d) == 0 ==>
      Sum(s.olds, SpecOf) == 0 && (if s.newMS.Some? then s.newMS.value.spec else 0) == d.replicas
  {
    ValidParts(s);
    SumNonNegative(s.olds, SpecOf);
  }

  lemma MoveKeepsDistance(d: Deployment, s: Rollout, m: Move, t: Rollout)
    requires d.strategy.RollingUpdate? && Room(d) && Valid(s) && Moves(d, s, m, t) && !m.Retarget?
    ensures Distance(t, d) <= Distance(s, d)
    ensures Counts(s, m) && 0 < Distance(s, d) ==> Distance(t, d) < Distance(s, d)
  {
    hide RollingPass, Settled;
    match m
    case Reconcile(b, accepts) =>
      RollingPassKeeps(s, d, b, accepts);
      if Settled(s) && WritesNeeded(s) <= accepts { SettledPassProgress(s, d, b, accepts); }
    case Observe(_) =>
      ReportKeepsSizes(s, t);
      SameSizesStalled(s, t, d);
    case Collect(k) => SumWithout(s.olds, k, SpecOf);
  }

  lemma FallStep(start: int, passes: int, before: int, after: int, counts: bool)
    requires 0 <= before <= Max(0, start - passes) && after <= before && (counts && 0 < before ==> after < before)
    ensures after <= Max(0, start - (passes + if counts then 1 else 0))
  {
  }

  lemma {:induction false} DistanceFalls(d: Deployment, states: seq<Rollout>, moves: seq<Move>, k: nat)
    requires d.strategy.RollingUpdate? && Room(d) && Run(d, states, moves) && Valid(states[0]) && k <= |moves|
    requires forall i | 0 <= i < k :: !moves[i].Retarget?
    ensures Distance(states[k], d) <= Max(0, Distance(states[0], d) - SettledPasses(states, moves, k))
  {
    hide Room, Valid, Counts, Distance, Moves;
    if k > 0 {
      var s, m, t := states[k - 1], moves[k - 1], states[k];
      assert Moves(d, s, m, t);
      hide Run;
      DistanceFalls(d, states, moves, k - 1);
      RoomSize(d);
      RunKeepsValid(d, states, moves, k - 1);
      DistanceNonNegative(s, d);
      MoveKeepsDistance(d, s, m, t);
      var passes := SettledPasses(states, moves, k - 1);
      FallStep(Distance(states[0], d), passes, Distance(s, d), Distance(t, d), Counts(s, m));
    }
  }

  /**
   Progress: however passes fail and statuses change, a run with no template edit and at least as many
   settled passes as its start was far from the end is at the end.
   */
  lemma RolloutEnds(d: Deployment, states: seq<Rollout>, moves: seq<Move>, k: nat)
    requires d.strategy.RollingUpdate? && Room(d) && Run(d, states, moves) && Valid(states[0]) && k <= |moves|
    requires forall i | 0 <= i < k :: !moves[i].Retarget?
    ensures var last := states[k];
      && Distance(last, d) <= Max(0, Distance(states[0], d) - SettledPasses(states, moves, k))
      && (Distance(states[0], d) <= SettledPasses(states, moves, k) ==>
            Sum(last.olds, SpecOf) == 0 && (if last.newMS.Some? then last.newMS.value.spec else 0) == d.replicas)
  {
    hide Room, Valid, Distance, Moves, SettledPasses, Sum;
    RoomSize(d);
    DistanceFalls(d, states, moves, k);
    RunKeepsValid(d, states, moves, k);
    DistanceNonNegative(states[k], d);
  }
}
