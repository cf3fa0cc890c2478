/**
 The OnDelete strategy: old sets follow the machines their users delete, and the new set takes over what
 they give up (controllers/machinedeployment_rollout_ondelete.go).
 */
module OnDeleteSpec {
  import opened Basics
  import opened Fleet
  import opened RollingSpec
  import opened RollingSafety
  import opened RollingRuns
  import Decimal

  /** What listing a set's machines yields: a selector that does not convert, an API error, or deletion flags. */
  datatype Inventory = NoSelector | ListError | Machines(deleting: seq<bool>)

  /** The machines of each set, by name. A set that is not mentioned has none. */
  type Inventories = map<string, Inventory>

  function InventoryOf(inv: Inventories, name: string): Inventory {
    if name in inv then inv[name] else Machines([])
  }

  function DeletingCount(flags: seq<bool>): (n: nat)
    ensures n <= |flags|
  {
    if flags == [] then 0 else (if flags[0] then 1 else 0) + DeletingCount(flags[1..])
  }

  function LiveCount(flags: seq<bool>): nat { |flags| - DeletingCount(flags) }

  /** What an old set keeps: its live machines, or its size where those are not known. */
  function Follow(m: MS, inv: Inventories): int {
    if m.spec <= 0 then m.spec
    else match InventoryOf(inv, m.name)
      case Machines(flags) => LiveCount(flags)
      case _ => m.spec
  }

  /** Live are the machines that are not being deleted. */
  lemma {:induction false} LiveExact(flags: seq<bool>)
    ensures LiveCount(flags) == multiset(flags)[false] && DeletingCount(flags) == multiset(flags)[true]
  {
    if flags != [] {
      LiveExact(flags[1..]);
      assert flags == [flags[0]] + flags[1..];
    }
  }

  /** An old set of positive size keeps exactly its machines that are not being deleted, if they can be listed. */
  lemma FollowExactly(m: MS, inv: Inventories)
    ensures 0 < m.spec && m.name !in inv ==> Follow(m, inv) == 0
    ensures 0 < m.spec && m.name in inv && inv[m.name].Machines? ==>
      Follow(m, inv) == multiset(inv[m.name].deleting)[false]
    ensures m.spec <= 0 || (m.name in inv && !inv[m.name].Machines?) ==> Follow(m, inv) == m.spec
  {
    if m.name in inv && inv[m.name].Machines? { LiveExact(inv[m.name].deleting); }
  }

  function FollowSum(sets: seq<MS>, inv: Inventories): int {
    if sets == [] then 0 else Follow(sets[0], inv) + FollowSum(sets[1..], inv)
  }

  // ---------------------------------------------------------------- the first loop

  /** One iteration: the set as stored, the amount still to scale down, the writes left, and whether to go on. */
  datatype Adoption = Adoption(ms: MS, amount: int, left: nat, ok: bool)

  function Disabled(m: MS): MS { m.(annotations := m.annotations[DisableMachineCreate := "true"]) }

  function AdoptSet(m: MS, inv: Inventories, g: Goal, amount: int, accepts: nat): Adoption {
    if m.spec <= 0 then Adoption(m, amount, accepts, true)
    else
      var marked := DisableMachineCreate in m.annotations;
      if !marked && accepts == 0 then Adoption(m, amount, 0, false)
      else
        var m1, left := if marked then m else Disabled(m), if marked then accepts else accepts - 1;
        match InventoryOf(inv, m.name)
        case NoSelector => Adoption(m1, amount, left, true)
        case ListError => Adoption(m1, amount, left, false)
        case Machines(flags) =>
          var p := ScaleTo(m1, LiveCount(flags), g, left);
          Adoption(p.ms, amount - (m.spec - LiveCount(flags)), p.left, p.ok)
  }

  datatype Following = Following(sets: seq<MS>, amount: int, left: nat, ok: bool)

  function AdoptAll(sets: seq<MS>, inv: Inventories, g: Goal, amount: int, accepts: nat): (r: Following)
    ensures |r.sets| == |sets|
  {
    if sets == [] then Following([], amount, accepts, true)
    else
      var a := AdoptSet(sets[0], inv, g, amount, accepts);
      if !a.ok then Following([a.ms] + sets[1..], a.amount, a.left, false)
      else
        var rest := AdoptAll(sets[1..], inv, g, a.amount, a.left);
        Following([a.ms] + rest.sets, rest.amount, rest.left, rest.ok)
  }

  // ---------------------------------------------------------------- the old sets of a pass

  /** reconcileOldMachineSetsOnDelete: follow deletions, then drain whatever still exceeds the desired size. */
  function FollowOld(newMS: MS, olds: seq<MS>, inv: Inventories, d: Deployment, accepts: nat): (r: Following)
    ensures |r.sets| == |olds|
  {
    var followed := AdoptAll(olds, inv, GoalOf(d), Sum(olds, SpecOf) + newMS.spec - d.replicas, accepts);
    if !followed.ok then followed
    else
      var w := Drain(Excess, followed.sets, GoalOf(d), followed.amount, followed.left);
      Following(w.sets, followed.amount - w.removed, w.left, w.ok)
  }

  /** The first loop, one set at a time. */
  lemma AdoptStep(sets: seq<MS>, inv: Inventories, g: Goal, amount: int, accepts: nat, a: Adoption, rest: Following)
    requires sets != [] && a == AdoptSet(sets[0], inv, g, amount, accepts)
    requires rest == AdoptAll(sets[1..], inv, g, a.amount, a.left)
    ensures AdoptAll(sets, inv, g, amount, accepts) ==
      if a.ok then Following([a.ms] + rest.sets, rest.amount, rest.left, rest.ok)
      else Following([a.ms] + sets[1..], a.amount, a.left, false)
    ensures ([a.ms] + rest.sets)[1..] == rest.sets && ([a.ms] + sets[1..])[1..] == sets[1..]
  {
    hide AdoptSet;
  }

  lemma {:induction false} AdoptTracks(sets: seq<MS>, inv: Inventories, g: Goal, amount: int, accepts: nat)
    requires SpecsValid(sets) && AdoptAll(sets, inv, g, amount, accepts).ok
    ensures var r := AdoptAll(sets, inv, g, amount, accepts);
      && SpecsValid(r.sets)
      && r.amount - Sum(r.sets, SpecOf) == amount - Sum(sets, SpecOf)
      && Sum(r.sets, SpecOf) == FollowSum(sets, inv)
  {
    if sets != [] {
      var a := AdoptSet(sets[0], inv, g, amount, accepts);
      assert a.ms.spec == Follow(sets[0], inv) && a.amount - a.ms.spec == amount - sets[0].spec
        && a.ms.avail == sets[0].avail;
      var rest := AdoptAll(sets[1..], inv, g, a.amount, a.left);
      assert AdoptAll(sets, inv, g, amount, accepts).sets == [a.ms] + rest.sets;
      hide AdoptSet, Follow, AdoptAll;
      AdoptTracks(sets[1..], inv, g, a.amount, a.left);
      assert ([a.ms] + rest.sets)[1..] == rest.sets;
    }
  }

  /**
   The first loop in closed form: the set at position k keeps exactly its machines that are not being deleted, is
   told not to create more, and nothing else about it changes.
   */
  lemma {:induction false} AdoptExact(sets: seq<MS>, inv: Inventories, g: Goal, amount: int, accepts: nat, k: nat)
    requires k < |sets| && AdoptAll(sets, inv, g, amount, accepts).ok
    ensures var m := AdoptAll(sets, inv, g, amount, accepts).sets[k];
      && m == sets[k].(spec := Follow(sets[k], inv), annotations := m.annotations)
      && (0 < sets[k].spec ==> DisableMachineCreate in m.annotations)
      && (0 < sets[k].spec && DisableMachineCreate !in sets[k].annotations ==>
            Lookup(m.annotations, DisableMachineCreate) == "true")
      && (0 < sets[k].spec && sets[k].name in inv && inv[sets[k].name].Machines? ==>
            m.spec == multiset(inv[sets[k].name].deleting)[false])
  {
    FollowExactly(sets[k], inv);
    var a := AdoptSet(sets[0], inv, g, amount, accepts);
    if k > 0 {
      hide AdoptSet, Follow;
      AdoptExact(sets[1..], inv, g, a.amount, a.left, k - 1);
    }
  }

  /**
   Conservation: in a stage that succeeds the amount to scale down equals the total size less the desired
   size at every point where it is read, so the total ends at the desired size, or at what the new set
   and the live machines of the old ones add up to if that is less.
   */
  lemma FollowOldTotal(newMS: MS, olds: seq<MS>, inv: Inventories, d: Deployment, accepts: nat)
    requires SpecsValid(olds) && FollowOld(newMS, olds, inv, d, accepts).ok
    ensures var r := FollowOld(newMS, olds, inv, d, accepts);
      && r.amount == Sum(r.sets, SpecOf) + newMS.spec - d.replicas
      && Sum(r.sets, SpecOf) + newMS.spec == Max(newMS.spec, Min(d.replicas, newMS.spec + FollowSum(olds, inv)))
  {
    hide AdoptAll, GoalOf, Drain, FollowSum;
    var g, amount := GoalOf(d), Sum(olds, SpecOf) + newMS.spec - d.replicas;
    var followed := AdoptAll(olds, inv, g, amount, accepts);
    AdoptTracks(olds, inv, g, amount, accepts);
    SumNonNegative(followed.sets, SpecOf);
    DrainShrinks(Excess, followed.sets, g, followed.amount, followed.left);
    DrainTotal(Excess, followed.sets, g, followed.amount, followed.left);
  }

  // ---------------------------------------------------------------- one pass

  /** reconcileNewMachineSetOnDelete: the new set may create machines again, then grows as in a rolling update. */
  function EnableNew(newMS: MS, olds: seq<MS>, d: Deployment, accepts: nat): Patched {
    if DisableMachineCreate !in newMS.annotations then ReconcileNew(newMS, olds, d, accepts)
    else if accepts == 0 then Patched(newMS, 0, false)
    else ReconcileNew(newMS.(annotations := newMS.annotations - {DisableMachineCreate}), olds, d, accepts - 1)
  }

  function OnDeleteWith(newMS: MS, olds: seq<MS>, inv: Inventories, d: Deployment, accepts: nat): Pass {
    var p := EnableNew(newMS, olds, d, accepts);
    if !p.ok then Pass(Rollout(Some(p.ms), olds), false)
    else
      var r := FollowOld(p.ms, olds, inv, d, p.left);
      Pass(Rollout(Some(p.ms), r.sets), r.ok)
  }

  /** rolloutOnDelete: find or create the new set, grow it, then let the old ones follow deletions. */
  function OnDeletePass(s: Rollout, inv: Inventories, d: Deployment, b: Birth, accepts: nat): Pass {
    match s.newMS
    case Some(m) => OnDeleteWith(m, s.olds, inv, d, accepts)
    case None =>
      match Created(b, s.olds, d)
      case None => Pass(s, false)
      case Some(m) => if accepts == 0 then Pass(s, false) else OnDeleteWith(m, s.olds, inv, d, accepts - 1)
  }

  lemma EnableNewMoves(newMS: MS, olds: seq<MS>, d: Deployment, accepts: nat)
    requires d.strategy.OnDelete? && 0 <= newMS.spec && 0 <= Sum(olds, PeakOf)
    ensures var p := EnableNew(newMS, olds, d, accepts);
      && p.ms == newMS.(spec := p.ms.spec, annotations := p.ms.annotations)
      && (newMS.spec <= p.ms.spec <= d.replicas || d.replicas <= p.ms.spec <= newMS.spec)
      && (!p.ok ==> p.ms.spec == newMS.spec)
      && (p.ok ==> p.ms.spec == if newMS.spec >= d.replicas then d.replicas
            else newMS.spec + Max(0, d.replicas - Sum(olds, PeakOf) - PeakOf(newMS)))
  {
    hide GoalOf, SetReplicasAnnotations;
  }

  lemma EnabledToCreate(newMS: MS, olds: seq<MS>, d: Deployment, accepts: nat)
    requires d.strategy.OnDelete? && EnableNew(newMS, olds, d, accepts).ok
    ensures DisableMachineCreate !in EnableNew(newMS, olds, d, accepts).ms.annotations
  {
    hide GoalOf, SetReplicasAnnotations, ReplicasAnnotationsNeedUpdate, ScaleTo, Sum;
    var m := newMS.(annotations := newMS.annotations - {DisableMachineCreate});
    var marked := DisableMachineCreate in newMS.annotations;
    var from, left := if marked then m else newMS, if marked then accepts - 1 else accepts;
    ScaleToExact(from, d.replicas, GoalOf(d), left, DisableMachineCreate);
    if newMS.spec < d.replicas {
      var n := NewReplicas(d, Sum(olds, PeakOf) + PeakOf(newMS), newMS.spec).value;
      ScaleToExact(from, n, GoalOf(d), left, DisableMachineCreate);
    }
  }

  /** After a pass that succeeds only the new set creates machines; the old ones that had any are told not to. */
  lemma CreationSwitched(newMS: MS, olds: seq<MS>, inv: Inventories, d: Deployment, accepts: nat, k: nat)
    requires d.strategy.OnDelete? && OnDeleteWith(newMS, olds, inv, d, accepts).ok && k < |olds|
    ensures var t := OnDeleteWith(newMS, olds, inv, d, accepts).state;
      && t.newMS.Some? && DisableMachineCreate !in t.newMS.value.annotations
      && |t.olds| == |olds| && (0 < olds[k].spec ==> DisableMachineCreate in t.olds[k].annotations)
  {
    hide EnableNew, AdoptAll, Drain, GoalOf;
    EnabledToCreate(newMS, olds, d, accepts);
    var p, g := EnableNew(newMS, olds, d, accepts), GoalOf(d);
    var amount := Sum(olds, SpecOf) + p.ms.spec - d.replicas;
    AdoptExact(olds, inv, g, amount, p.left, k);
    var followed := AdoptAll(olds, inv, g, amount, p.left);
    DrainKeepsKey(Excess, followed.sets, g, followed.amount, followed.left, k, DisableMachineCreate);
  }

  lemma CreatedOnDelete(b: Birth, olds: seq<MS>, d: Deployment)
    requires d.strategy.OnDelete? && 0 <= d.replicas && 0 <= Sum(olds, PeakOf)
    ensures var c := Created(b, olds, d);
      c.Some? && c.value == MS(b.name, b.created, Max(0, d.replicas - Sum(olds, PeakOf)), 0, 0, b.annotations)
  {
  }

  lemma WithTotal(newMS: MS, olds: seq<MS>, inv: Inventories, d: Deployment, accepts: nat)
    requires d.strategy.OnDelete? && 0 <= d.replicas && 0 <= newMS.spec && SpecsValid(olds)
    requires OnDeleteWith(newMS, olds, inv, d, accepts).ok
    ensures var t := OnDeleteWith(newMS, olds, inv, d, accepts).state;
      && t.newMS.Some? && 0 <= t.newMS.value.spec <= d.replicas
      && (newMS.spec < d.replicas ==>
            t.newMS.value.spec == newMS.spec + Max(0, d.replicas - Sum(olds, PeakOf) - PeakOf(newMS)))
      && (newMS.spec >= d.replicas ==> t.newMS.value.spec == d.replicas)
      && Total(t, SpecOf) == Min(d.replicas, t.newMS.value.spec + FollowSum(olds, inv))
  {
    hide EnableNew, FollowOld, FollowSum;
    SumNonNegative(olds, PeakOf);
    EnableNewMoves(newMS, olds, d, accepts);
    var p := EnableNew(newMS, olds, d, accepts);
    FollowOldTotal(p.ms, olds, inv, d, p.left);
    FollowNonNegative(olds, inv);
  }

  /**
   A whole pass that succeeds: the new set stays within the desired size, and the total is the desired
   size, or the new set and the live machines of the old ones if that is less.
   */
  lemma OnDeleteTotal(s: Rollout, inv: Inventories, d: Deployment, b: Birth, accepts: nat)
    requires d.strategy.OnDelete? && 0 <= d.replicas && Valid(s) && OnDeletePass(s, inv, d, b, accepts).ok
    ensures var t := OnDeletePass(s, inv, d, b, accepts).state;
      && t.newMS.Some? && 0 <= t.newMS.value.spec <= d.replicas
      && Total(t, SpecOf) == Min(d.replicas, t.newMS.value.spec + FollowSum(s.olds, inv))
  {
    hide OnDeleteWith, FollowSum, Created;
    ValidParts(s);
    SumNonNegative(s.olds, PeakOf);
    CreatedOnDelete(b, s.olds, d);
    match s.newMS
    case Some(m) => WithTotal(m, s.olds, inv, d, accepts);
    case None => WithTotal(Created(b, s.olds, d).value, s.olds, inv, d, accepts - 1);
  }

  lemma {:induction false} FollowNonNegative(sets: seq<MS>, inv: Inventories)
    requires SpecsValid(sets)
    ensures 0 <= FollowSum(sets, inv)
  {
    if sets != [] { FollowNonNegative(sets[1..], inv); }
  }

  /** Every set is as its spec says: reported, and with as many live machines. */
  predicate AtRest(s: Rollout, inv: Inventories) {
    && (forall i | 0 <= i < |s.olds| :: PeakOf(s.olds[i]) == s.olds[i].spec == Follow(s.olds[i], inv))
    && (s.newMS.Some? ==> PeakOf(s.newMS.value) == s.newMS.value.spec)
  }

  lemma {:induction false} AtRestSums(sets: seq<MS>, inv: Inventories)
    requires forall i | 0 <= i < |sets| :: PeakOf(sets[i]) == sets[i].spec == Follow(sets[i], inv)
    ensures FollowSum(sets, inv) == Sum(sets, PeakOf) == Sum(sets, SpecOf)
  {
    if sets != [] { AtRestSums(sets[1..], inv); }
  }

  lemma WithRestores(newMS: MS, olds: seq<MS>, inv: Inventories, d: Deployment, accepts: nat)
    requires d.strategy.OnDelete? && 0 <= d.replicas && 0 <= newMS.spec == PeakOf(newMS) && SpecsValid(olds)
    requires forall i | 0 <= i < |olds| :: PeakOf(olds[i]) == olds[i].spec == Follow(olds[i], inv)
    requires OnDeleteWith(newMS, olds, inv, d, accepts).ok
    ensures Total(OnDeleteWith(newMS, olds, inv, d, accepts).state, SpecOf) == d.replicas
  {
    hide OnDeleteWith, FollowSum, Total;
    SumNonNegative(olds, PeakOf);
    AtRestSums(olds, inv);
    hide Follow, Sum;
    WithTotal(newMS, olds, inv, d, accepts);
  }

  /** From rest, one pass that succeeds brings the total to exactly the desired size, in whichever direction. */
  lemma OnDeleteRestores(s: Rollout, inv: Inventories, d: Deployment, b: Birth, accepts: nat)
    requires d.strategy.OnDelete? && 0 <= d.replicas && Valid(s) && AtRest(s, inv)
    requires OnDeletePass(s, inv, d, b, accepts).ok
    ensures Total(OnDeletePass(s, inv, d, b, accepts).state, SpecOf) == d.replicas
  {
    hide OnDeleteWith, Created, Follow, Total;
    ValidParts(s);
    SumNonNegative(s.olds, PeakOf);
    CreatedOnDelete(b, s.olds, d);
    match s.newMS
    case Some(m) => WithRestores(m, s.olds, inv, d, accepts);
    case None => WithRestores(Created(b, s.olds, d).value, s.olds, inv, d, accepts - 1);
  }

  // ---------------------------------------------------------------- the peak of a pass

  /** No old set is found to have more live machines than it has or may have at once. */
  predicate Listed(sets: seq<MS>, inv: Inventories, ms: Machines) {
    forall i | 0 <= i < |sets| :: Follow(sets[i], inv) <= RealOf(ms)(sets[i])
  }

  lemma AdoptOneWithin(m: MS, inv: Inventories, ms: Machines, g: Goal, amount: int, accepts: nat)
    requires 0 <= m.spec && 0 <= m.avail && Follow(m, inv) <= RealOf(ms)(m)
    ensures var a := AdoptSet(m, inv, g, amount, accepts);
      0 <= a.ms.spec && 0 <= a.ms.avail && RealOf(ms)(a.ms) <= RealOf(ms)(m)
  {
    hide SetReplicasAnnotations, ReplicasAnnotationsNeedUpdate;
  }

  lemma {:induction false} AdoptWithin(sets: seq<MS>, inv: Inventories, ms: Machines, g: Goal,
                           amount: int, accepts: nat)
    requires SpecsValid(sets) && Listed(sets, inv, ms)
    ensures var r := AdoptAll(sets, inv, g, amount, accepts);
      SpecsValid(r.sets) && forall i | 0 <= i < |sets| :: RealOf(ms)(r.sets[i]) <= RealOf(ms)(sets[i])
  {
    hide AdoptSet, AdoptAll, Follow, RealOf;
    if sets == [] {
      assert AdoptAll(sets, inv, g, amount, accepts).sets == sets;
    } else {
      AdoptOneWithin(sets[0], inv, ms, g, amount, accepts);
      var a := AdoptSet(sets[0], inv, g, amount, accepts);
      AdoptStep(sets, inv, g, amount, accepts, a, AdoptAll(sets[1..], inv, g, a.amount, a.left));
      AdoptWithin(sets[1..], inv, ms, g, a.amount, a.left);
      assert forall i | 1 <= i < |sets| :: sets[i] == sets[1..][i - 1];
    }
  }

  lemma FollowOldWithin(newMS: MS, olds: seq<MS>, inv: Inventories, ms: Machines, d: Deployment, accepts: nat)
    requires SpecsValid(olds) && Listed(olds, inv, ms)
    ensures var r := FollowOld(newMS, olds, inv, d, accepts);
      SpecsValid(r.sets) && Sum(r.sets, RealOf(ms)) <= Sum(olds, RealOf(ms))
  {
    hide AdoptAll, Drain, GoalOf, Listed;
    var g, amount := GoalOf(d), Sum(olds, SpecOf) + newMS.spec - d.replicas;
    var followed := AdoptAll(olds, inv, g, amount, accepts);
    AdoptWithin(olds, inv, ms, g, amount, accepts);
    SumLe(followed.sets, RealOf(ms), olds, RealOf(ms));
    if followed.ok {
      var w := Drain(Excess, followed.sets, g, followed.amount, followed.left);
      DrainShrinks(Excess, followed.sets, g, followed.amount, followed.left);
      SumLe(w.sets, RealOf(ms), followed.sets, RealOf(ms));
    }
  }

  /** What following its deletions adds to a set's peak. */
  function Rise(m: MS, inv: Inventories): int { Max(Follow(m, inv), m.status) - PeakOf(m) }

  predicate Unlisted(m: MS, inv: Inventories) { 0 < m.spec && InventoryOf(inv, m.name).ListError? }

  /** The most that following deletions, set by set up to the first listing error, adds to the peak of all sets. */
  function Climb(sets: seq<MS>, inv: Inventories): nat {
    if sets == [] || Unlisted(sets[0], inv) then 0 else Max(0, Rise(sets[0], inv) + Climb(sets[1..], inv))
  }

  /** The writes it takes to let one set follow. */
  function WritesOf(m: MS, inv: Inventories, g: Goal): nat {
    if m.spec <= 0 then 0
    else
      var marked := DisableMachineCreate in m.annotations;
      (if marked then 0 else 1)
      + match InventoryOf(inv, m.name)
        case Machines(flags) => if ScaleTo(if marked then m else Disabled(m), LiveCount(flags), g, 0).ok then 0 else 1
        case _ => 0
  }

  lemma AdoptOne(m: MS, inv: Inventories, g: Goal, amount: int, more: nat)
    requires !Unlisted(m, inv)
    ensures var a := AdoptSet(m, inv, g, amount, WritesOf(m, inv, g) + more);
      && a.ok && a.left == more && a.amount == amount - (m.spec - Follow(m, inv))
      && PeakOf(a.ms) == PeakOf(m) + Rise(m, inv)
  {
    hide SetReplicasAnnotations, ReplicasAnnotationsNeedUpdate, LiveCount;
  }

  lemma {:induction false} AdoptNothing(sets: seq<MS>, inv: Inventories, g: Goal, amount: int)
    ensures AdoptAll(sets, inv, g, amount, 0).sets == sets && AdoptAll(sets, inv, g, amount, 0).left == 0
  {
    if sets != [] {
      var a := AdoptSet(sets[0], inv, g, amount, 0);
      assert a.ms == sets[0] && a.left == 0;
      hide AdoptSet;
      AdoptNothing(sets[1..], inv, g, a.amount);
      assert sets == [sets[0]] + sets[1..];
    }
  }

  lemma AdoptPeak(m: MS, inv: Inventories, g: Goal, amount: int, accepts: nat)
    ensures var a := AdoptSet(m, inv, g, amount, accepts);
      && PeakOf(a.ms) == PeakOf(m) + (if a.ok then Rise(m, inv) else 0) && (a.ok ==> !Unlisted(m, inv))
  {
    hide SetReplicasAnnotations, ReplicasAnnotationsNeedUpdate, LiveCount;
  }

  lemma {:induction false} ClimbBounds(sets: seq<MS>, inv: Inventories, g: Goal, amount: int, accepts: nat)
    ensures Sum(AdoptAll(sets, inv, g, amount, accepts).sets, PeakOf) <= Sum(sets, PeakOf) + Climb(sets, inv)
  {
    if sets != [] {
      AdoptPeak(sets[0], inv, g, amount, accepts);
      var a := AdoptSet(sets[0], inv, g, amount, accepts);
      hide AdoptSet, AdoptAll, Rise, Unlisted;
      AdoptStep(sets, inv, g, amount, accepts, a, AdoptAll(sets[1..], inv, g, a.amount, a.left));
      ClimbBounds(sets[1..], inv, g, a.amount, a.left);
    }
  }

  lemma ClimbStep(sets: seq<MS>, inv: Inventories, g: Goal, amount: int, more: nat)
    requires sets != [] && !Unlisted(sets[0], inv)
    requires var r := AdoptAll(sets[1..], inv, g, amount - (sets[0].spec - Follow(sets[0], inv)), more);
      Sum(r.sets, PeakOf) == Sum(sets[1..], PeakOf) + Climb(sets[1..], inv) && (r.ok ==> r.left == 0)
    ensures var r := AdoptAll(sets, inv, g, amount, WritesOf(sets[0], inv, g) + more);
      && Sum(r.sets, PeakOf) == Sum(sets, PeakOf) + Rise(sets[0], inv) + Climb(sets[1..], inv)
      && (r.ok ==> r.left == 0)
  {
    hide AdoptAll, AdoptSet, Rise, Unlisted, WritesOf, Follow, Climb;
    var m, accepts := sets[0], WritesOf(sets[0], inv, g) + more;
    AdoptOne(m, inv, g, amount, more);
    var a := AdoptSet(m, inv, g, amount, accepts);
    AdoptStep(sets, inv, g, amount, accepts, a, AdoptAll(sets[1..], inv, g, a.amount, a.left));
  }

  /** And some number of accepted writes stops the loop just there. */
  lemma {:induction false} ClimbReached(sets: seq<MS>, inv: Inventories, g: Goal, amount: int) returns (accepts: nat)
    ensures var r := AdoptAll(sets, inv, g, amount, accepts);
      Sum(r.sets, PeakOf) == Sum(sets, PeakOf) + Climb(sets, inv) && (r.ok ==> r.left == 0)
  {
    hide AdoptAll, Rise, Unlisted, WritesOf, Follow, Sum;
    if Climb(sets, inv) == 0 {
      accepts := 0;
      AdoptNothing(sets, inv, g, amount);
    } else {
      var more := ClimbReached(sets[1..], inv, g, amount - (sets[0].spec - Follow(sets[0], inv)));
      accepts := WritesOf(sets[0], inv, g) + more;
      ClimbStep(sets, inv, g, amount, more);
    }
  }

  lemma FollowOldPeak(newMS: MS, olds: seq<MS>, inv: Inventories, d: Deployment, accepts: nat)
    requires SpecsValid(olds)
    ensures Sum(FollowOld(newMS, olds, inv, d, accepts).sets, PeakOf) <= Sum(olds, PeakOf) + Climb(olds, inv)
  {
    hide AdoptAll, Drain, GoalOf, Climb;
    var g, amount := GoalOf(d), Sum(olds, SpecOf) + newMS.spec - d.replicas;
    var followed := AdoptAll(olds, inv, g, amount, accepts);
    ClimbBounds(olds, inv, g, amount, accepts);
    if followed.ok {
      AdoptTracks(olds, inv, g, amount, accepts);
      var w := Drain(Excess, followed.sets, g, followed.amount, followed.left);
      DrainShrinks(Excess, followed.sets, g, followed.amount, followed.left);
      ShrunkKeeps(followed.sets, w.sets);
    }
  }

  lemma FollowOldReaches(newMS: MS, olds: seq<MS>, inv: Inventories, d: Deployment) returns (accepts: nat)
    requires SpecsValid(olds)
    ensures Sum(FollowOld(newMS, olds, inv, d, accepts).sets, PeakOf) == Sum(olds, PeakOf) + Climb(olds, inv)
  {
    hide AdoptAll, Drain, GoalOf, Climb;
    var g, amount := GoalOf(d), Sum(olds, SpecOf) + newMS.spec - d.replicas;
    accepts := ClimbReached(olds, inv, g, amount);
    var followed := AdoptAll(olds, inv, g, amount, accepts);
    if followed.ok {
      AdoptTracks(olds, inv, g, amount, accepts);
      DrainNothing(Excess, followed.sets, g, followed.amount);
    }
  }

  /** The writes it takes to bring the new set to its size. */
  function EnableWrites(newMS: MS, olds: seq<MS>, d: Deployment): int { 2 - EnableNew(newMS, olds, d, 2).left }

  lemma EnableNewAfter(newMS: MS, olds: seq<MS>, d: Deployment, more: nat)
    requires d.strategy.OnDelete?
    ensures 0 <= EnableWrites(newMS, olds, d)
    ensures var p := EnableNew(newMS, olds, d, EnableWrites(newMS, olds, d) + more);
      p == Patched(EnableNew(newMS, olds, d, 2).ms, more, true)
  {
    hide GoalOf, SetReplicasAnnotations, ReplicasAnnotationsNeedUpdate;
  }

  /** The peak of the new set once it has been brought to its size, given the peak of all sets. */
  function GrownPeak(m: MS, peak: int, d: Deployment): int {
    Max(if m.spec >= d.replicas then d.replicas else m.spec + Max(0, d.replicas - peak), m.status)
  }

  function PeakAfter(newMS: MS, olds: seq<MS>, inv: Inventories, d: Deployment, accepts: nat): int {
    Total(OnDeleteWith(newMS, olds, inv, d, accepts).state, PeakOf)
  }

  lemma PeakAfterAtMost(newMS: MS, olds: seq<MS>, inv: Inventories, d: Deployment, accepts: nat)
    requires d.strategy.OnDelete? && 0 <= newMS.spec && SpecsValid(olds)
    ensures var peak := Sum(olds, PeakOf) + PeakOf(newMS);
      PeakAfter(newMS, olds, inv, d, accepts) <=
        Max(peak, Sum(olds, PeakOf) + GrownPeak(newMS, peak, d) + Climb(olds, inv))
  {
    hide EnableNew, FollowOld, Climb;
    SumNonNegative(olds, PeakOf);
    EnableNewMoves(newMS, olds, d, accepts);
    var p := EnableNew(newMS, olds, d, accepts);
    FollowOldPeak(p.ms, olds, inv, d, p.left);
  }

  lemma PeakAfterReached(newMS: MS, olds: seq<MS>, inv: Inventories, d: Deployment) returns (accepts: nat)
    requires d.strategy.OnDelete? && 0 <= newMS.spec && SpecsValid(olds)
    ensures var peak := Sum(olds, PeakOf) + PeakOf(newMS);
      PeakAfter(newMS, olds, inv, d, accepts) == Sum(olds, PeakOf) + GrownPeak(newMS, peak, d) + Climb(olds, inv)
  {
    hide EnableNew, FollowOld, Climb;
    SumNonNegative(olds, PeakOf);
    EnableNewAfter(newMS, olds, d, 0);
    var writes := EnableWrites(newMS, olds, d);
    var more := FollowOldReaches(EnableNew(newMS, olds, d, writes).ms, olds, inv, d);
    accepts := writes + more;
    EnableNewAfter(newMS, olds, d, more);
    EnableNewMoves(newMS, olds, d, accepts);
  }

  // ---------------------------------------------------------------- the surge bound

  /** The surge cap of OnDelete is the desired size itself: no pass, and no prefix of one, lifts the peak over it. */
  ghost predicate SurgeHolds(s: Rollout, inv: Inventories, d: Deployment, b: Birth) {
    forall accepts: nat :: PassPeak(s, inv, d, b, accepts) <= Max(Total(s, PeakOf), d.replicas)
  }

  function PassPeak(s: Rollout, inv: Inventories, d: Deployment, b: Birth, accepts: nat): int {
    Total(OnDeletePass(s, inv, d, b, accepts).state, PeakOf)
  }

  /** What is left under the bound once the new set has been brought to its size. */
  function Headroom(s: Rollout, d: Deployment): int {
    var old0 := Sum(s.olds, PeakOf);
    Max(Total(s, PeakOf), d.replicas) - old0
    - if s.newMS.Some? then GrownPeak(s.newMS.value, Total(s, PeakOf), d) else Max(0, d.replicas - old0)
  }

  /**
   Exactly: the bound holds for every pass from here, however many of its writes are accepted, if and only
   if following deletions never adds more to the peak than the new set has left under the bound. Where all
   sets are reported as large as they are, that is nothing.
   */
  lemma OnDeleteSurgeExactly(s: Rollout, inv: Inventories, d: Deployment, b: Birth)
    requires d.strategy.OnDelete? && 0 <= d.replicas && Valid(s)
    ensures 0 <= Headroom(s, d)
    ensures SurgeHolds(s, inv, d, b) <==> Climb(s.olds, inv) <= Headroom(s, d)
  {
    hide OnDeleteWith, Climb, Created, Sum, GrownPeak, Headroom, Valid;
    ValidParts(s);
    HeadroomIs(s, d, b);
    var m := NewSetOf(s, d, b);
    if Climb(s.olds, inv) <= Headroom(s, d) {
      forall accepts: nat ensures PassPeak(s, inv, d, b, accepts) <= Max(Total(s, PeakOf), d.replicas) {
        PeakAfterAtMost(m, s.olds, inv, d, if s.newMS.Some? then accepts else Max(0, accepts - 1));
      }
    } else {
      var accepts := PeakAfterReached(m, s.olds, inv, d);
      assert PassPeak(s, inv, d, b, if s.newMS.Some? then accepts else accepts + 1) > Max(Total(s, PeakOf), d.replicas);
    }
  }

  /** The new set, as found or as created. */
  function NewSetOf(s: Rollout, d: Deployment, b: Birth): MS
    requires d.strategy.OnDelete?
  {
    if s.newMS.Some? then s.newMS.value else Created(b, s.olds, d).value
  }

  lemma HeadroomIs(s: Rollout, d: Deployment, b: Birth)
    requires d.strategy.OnDelete? && 0 <= d.replicas && Valid(s)
    ensures var m, old0, bound := NewSetOf(s, d, b), Sum(s.olds, PeakOf), Max(Total(s, PeakOf), d.replicas);
      && 0 <= m.spec && old0 + PeakOf(m) <= bound
      && 0 <= Headroom(s, d) == bound - old0 - GrownPeak(m, old0 + PeakOf(m), d)
      && (s.newMS.None? ==> Created(b, s.olds, d) == Some(m))
  {
    ValidParts(s);
    SumNonNegative(s.olds, PeakOf);
    CreatedOnDelete(b, s.olds, d);
    hide Sum, Created;
  }

  /** Nothing is added where no old set has more live machines than spec or status account for. */
  lemma {:induction false} NoClimb(sets: seq<MS>, inv: Inventories)
    requires Listed(sets, inv, map[])
    ensures Climb(sets, inv) == 0
  {
    if sets != [] { NoClimb(sets[1..], inv); }
  }

  /** So the bound holds wherever every live machine is asked for or reported. */
  lemma OnDeleteSurge(s: Rollout, inv: Inventories, d: Deployment, b: Birth, accepts: nat)
    requires d.strategy.OnDelete? && 0 <= d.replicas && Valid(s) && Listed(s.olds, inv, map[])
    ensures PassPeak(s, inv, d, b, accepts) <= Max(Total(s, PeakOf), d.replicas)
  {
    hide PassPeak, Total, Climb, Headroom, Listed, Valid;
    NoClimb(s.olds, inv);
    OnDeleteSurgeExactly(s, inv, d, b);
  }

  /** It fails for an old set scaled down to one while three machines live: the peak doubles, at two writes. */
  lemma AdoptionSurges(b: Birth)
    ensures var d := Deployment(2, OnDelete, Int(0), Int(0), 0);
      var old0 := MS("old", 1, 1, 1, 1, map[DisableMachineCreate := "true"]);
      var s := Rollout(Some(MS("new", 2, 1, 1, 1, map[])), [old0]);
      var inv: Inventories := map["old" := Machines([false, false, false])];
      Total(s, PeakOf) == 2 && PassPeak(s, inv, d, b, 2) == 4
  {
    var d := Deployment(2, OnDelete, Int(0), Int(0), 0);
    var new0 := MS("new", 2, 1, 1, 1, map[]);
    var old0 := MS("old", 1, 1, 1, 1, map[DisableMachineCreate := "true"]);
    var inv: Inventories := map["old" := Machines([false, false, false])];
    var g := GoalOf(d);
    assert g.desired != "" by { Decimal.DigitsOfFormat(2); }
    hide GoalOf;
    assert [old0][1..] == [];
    var grown, old1 := Resized(new0, 1, g), Resized(old0, 3, g);
    assert Sum([old0], PeakOf) == 1 && Sum([old0], SpecOf) == 1;
    assert ReplicasAnnotationsNeedUpdate(new0.annotations, g) by { assert Lookup(map[], DesiredReplicas) == ""; }
    assert ScaleTo(new0, 1, g, 2) == Patched(grown, 1, true);
    assert NewReplicas(d, 2, 1) == Some(1);
    assert EnableNew(new0, [old0], d, 2) == Patched(grown, 1, true);
    assert LiveCount([false, false, false]) == 3 by { assert DeletingCount([false]) == 0; }
    assert AdoptSet(old0, inv, g, 0, 1) == Adoption(old1, 2, 0, true);
    assert AdoptAll([old0], inv, g, 0, 1) == Following([old1], 2, 0, true);
    DrainNothing(Excess, [old1], g, 2);
    hide Drain, AdoptAll, AdoptSet, EnableNew;
    assert [old1][1..] == [];
    assert FollowOld(grown, [old0], inv, d, 1).sets == [old1];
  }

  // ---------------------------------------------------------------- the end of a rollout

  /** Every machine of an old set is gone or being deleted. */
  predicate AllDeleted(sets: seq<MS>, inv: Inventories) {
    forall i | 0 <= i < |sets| ::
      sets[i].spec == 0 || (0 < sets[i].spec && DeletedOf(InventoryOf(inv, sets[i].name)))
  }

  predicate DeletedOf(listed: Inventory) { listed.Machines? && false !in listed.deleting }

  lemma {:induction false} NothingFollows(sets: seq<MS>, inv: Inventories)
    requires AllDeleted(sets, inv)
    ensures FollowSum(sets, inv) == 0
  {
    if sets != [] {
      FollowExactly(sets[0], inv);
      NothingFollows(sets[1..], inv);
    }
  }

  /**
   Once no old machine lives, a pass that succeeds empties the old sets; and if no old set is reported to have
   machines, it also brings the new set to the desired size.
   */
  lemma DeletedPass(s: Rollout, inv: Inventories, d: Deployment, b: Birth, accepts: nat)
    requires d.strategy.OnDelete? && 0 <= d.replicas && Valid(s) && AllDeleted(s.olds, inv)
    requires OnDeletePass(s, inv, d, b, accepts).ok
    ensures var t := OnDeletePass(s, inv, d, b, accepts).state;
      && Valid(t) && t.newMS.Some? && Sum(t.olds, SpecOf) == 0
      && (Sum(s.olds, PeakOf) == 0 && (s.newMS.Some? ==> s.newMS.value.status <= s.newMS.value.spec) ==>
            t.newMS.value.spec == d.replicas)
  {
    ValidParts(s);
    NothingFollows(s.olds, inv);
    SumNonNegative(s.olds, PeakOf);
    CreatedOnDelete(b, s.olds, d);
    hide OnDeleteWith, FollowSum, Created, AllDeleted, Sum, Valid;
    match s.newMS
    case Some(m) => DeletedWith(m, s.olds, inv, d, accepts);
    case None => DeletedWith(Created(b, s.olds, d).value, s.olds, inv, d, accepts - 1);
  }

  lemma DeletedWith(newMS: MS, olds: seq<MS>, inv: Inventories, d: Deployment, accepts: nat)
    requires d.strategy.OnDelete? && 0 <= d.replicas && 0 <= newMS.spec && 0 <= newMS.avail && SpecsValid(olds)
    requires FollowSum(olds, inv) == 0 && OnDeleteWith(newMS, olds, inv, d, accepts).ok
    ensures var t := OnDeleteWith(newMS, olds, inv, d, accepts).state;
      && Valid(t) && t.newMS.Some? && Sum(t.olds, SpecOf) == 0
      && (Sum(olds, PeakOf) == 0 && newMS.status <= newMS.spec ==> t.newMS.value.spec == d.replicas)
  {
    hide OnDeleteWith, Sum, Valid, FollowSum, SpecsValid;
    WithTotal(newMS, olds, inv, d, accepts);
    WithValid(newMS, olds, inv, d, accepts);
  }

  lemma WithValid(newMS: MS, olds: seq<MS>, inv: Inventories, d: Deployment, accepts: nat)
    requires d.strategy.OnDelete? && 0 <= d.replicas && 0 <= newMS.spec && 0 <= newMS.avail && SpecsValid(olds)
    requires OnDeleteWith(newMS, olds, inv, d, accepts).ok
    ensures Valid(OnDeleteWith(newMS, olds, inv, d, accepts).state)
  {
    hide EnableNew, AdoptAll, Drain, GoalOf;
    SumNonNegative(olds, PeakOf);
    EnableNewMoves(newMS, olds, d, accepts);
    var p, g := EnableNew(newMS, olds, d, accepts), GoalOf(d);
    var amount := Sum(olds, SpecOf) + p.ms.spec - d.replicas;
    AdoptTracks(olds, inv, g, amount, p.left);
    var followed := AdoptAll(olds, inv, g, amount, p.left);
    DrainShrinks(Excess, followed.sets, g, followed.amount, followed.left);
    ShrunkKeeps(followed.sets, Drain(Excess, followed.sets, g, followed.amount, followed.left).sets);
    ValidParts(OnDeleteWith(newMS, olds, inv, d, accepts).state);
  }

  /**
   An OnDelete rollout ends: once its users have deleted every old machine, two passes that succeed, with the
   deletions reported in between, leave the new set at the desired size and the old ones empty.
   */
  lemma OnDeleteEnds(d: Deployment, s: Rollout, inv: Inventories, b: Birth, accepts: nat,
                     reported: Rollout, inv2: Inventories, b2: Birth, accepts2: nat)
    requires d.strategy.OnDelete? && 0 <= d.replicas && Valid(s) && AllDeleted(s.olds, inv)
    requires OnDeletePass(s, inv, d, b, accepts).ok && Reported(OnDeletePass(s, inv, d, b, accepts).state, reported)
    requires forall i | 0 <= i < |reported.olds| :: reported.olds[i].status == 0
    requires reported.newMS.Some? ==> reported.newMS.value.status <= reported.newMS.value.spec
    requires OnDeletePass(reported, inv2, d, b2, accepts2).ok
    ensures var t := OnDeletePass(reported, inv2, d, b2, accepts2).state;
      t.newMS.Some? && t.newMS.value.spec == d.replicas && Sum(t.olds, SpecOf) == 0
  {
    hide OnDeletePass, AllDeleted;
    DeletedPass(s, inv, d, b, accepts);
    var mid := OnDeletePass(s, inv, d, b, accepts).state;
    ReportKeepsSizes(mid, reported);
    MidEmpty(mid, reported, inv2);
    DeletedPass(reported, inv2, d, b2, accepts2);
  }

  lemma MidEmpty(mid: Rollout, reported: Rollout, inv: Inventories)
    requires Valid(mid) && Sum(mid.olds, SpecOf) == 0 && Reported(mid, reported)
    requires forall i | 0 <= i < |reported.olds| :: reported.olds[i].status == 0
    ensures Valid(reported) && AllDeleted(reported.olds, inv) && Sum(reported.olds, PeakOf) == 0
  {
    ValidParts(mid);
    SumNonNegative(mid.olds, SpecOf);
    ReportKeepsSizes(mid, reported);
    forall i | 0 <= i < |reported.olds| ensures reported.olds[i].spec == 0 {
      assert AllOf(mid)[i] == mid.olds[i] && AllOf(reported)[i] == reported.olds[i];
      assert SameSet(AllOf(mid)[i], AllOf(reported)[i]);
    }
    SumNonNegative(reported.olds, PeakOf);
    forall i | 0 <= i < |AllOf(reported)| ensures 0 <= AllOf(reported)[i].spec && 0 <= AllOf(reported)[i].avail {
      assert SameSet(AllOf(mid)[i], AllOf(reported)[i]);
    }
  }
}
