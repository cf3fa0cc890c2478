/**
 Scaling a deployment outside of a rollout: a single active set, a saturated new set, or proportional shares
 (scale in controllers/machinedeployment_sync.go), and where repeated passes lead.
 */
module ScaleSpec {
  import opened Basics
  import opened Fleet
  import opened Objects
  import opened RollingRuns
  import opened ProportionalSpec
  import Decimal

  // ---------------------------------------------------------------- one pass

  /** IsSaturated: the new set has the desired size, knows it, and has all of it available. */
  predicate Saturated(s: Rollout, d: Deployment) {
    && s.newMS.Some?
    && var m := s.newMS.value;
       && m.spec == m.avail == d.replicas
       && Decimal.ParseInt(Lookup(m.annotations, DesiredReplicas), TWO_31) == Some(d.replicas)
  }

  /** The set FindOneActiveOrLatest returns: the only active one, or without any the new one, or else the newest. */
  predicate OneActiveOrLatest(s: Rollout, m: MS) {
    var active := Active(AllOf(s));
    if active != [] then active == [m]
    else if s.newMS.Some? then s.newMS == Some(m)
    else m in s.olds && forall i | 0 <= i < |s.olds| :: !Less(NewestFirst, s.olds[i], m)
  }

  /**
   A set is saturated exactly if it has the desired size and that many machines available, and the desired size is
   what was last recorded on it; with current annotations the recording adds nothing.
   */
  lemma SaturatedExactly(m: MS, olds: seq<MS>, d: Deployment, n: int)
    requires -TWO_31 <= n < TWO_31 && Lookup(m.annotations, DesiredReplicas) == Decimal.Format(n)
    ensures Saturated(Rollout(Some(m), olds), d) <==> m.spec == d.replicas && m.avail == d.replicas && n == d.replicas
    ensures 0 <= d.replicas < TWO_31 && !ReplicasAnnotationsNeedUpdate(m.annotations, GoalOf(d)) ==> n == d.replicas
  {
    hide MaxSurge, Decimal.ParseInt, Decimal.Format;
    Decimal.ParseFormat(n, TWO_31);
    Decimal.FormatInjective(n, d.replicas);
  }

  /** Without an active set, the one chosen is the new one, or else no other was created later. */
  lemma LatestIsNewest(s: Rollout, m: MS, i: nat)
    requires OneActiveOrLatest(s, m) && i < |AllOf(s)|
    ensures 0 < AllOf(s)[i].spec ==> m == AllOf(s)[i]
    ensures m.spec <= 0 && s.newMS.None? ==> AllOf(s)[i].created <= m.created
    ensures m.spec <= 0 && s.newMS.Some? ==> m == s.newMS.value
  {
    var all := AllOf(s);
    ActiveExact(all, all[i]);
    ActiveExact(all, m);
    assert s.newMS.None? ==> all == s.olds;
  }

  /** What a pass sets out to do. */
  datatype Plan = Nothing | Single(target: MS) | Emptying(order: seq<MS>) | Shares(order: seq<MS>)

  function AllSets(s: Rollout): seq<MS> { Active(AllOf(s)) }

  /** The plan follows the branches of scale; ties in the sort by size may be listed either way. */
  predicate Planned(s: Rollout, d: Deployment, plan: Plan) {
    match plan
    case Nothing => AllOf(s) == [] || (2 <= |AllSets(s)| && !Saturated(s, d) && !d.strategy.RollingUpdate?)
    case Single(m) => |AllSets(s)| <= 1 && OneActiveOrLatest(s, m)
    case Emptying(order) =>
      && 2 <= |AllSets(s)| && Saturated(s, d)
      && multiset(order) == multiset(Active(s.olds)) && Sorted(NewestFirst, order)
    case Shares(order) =>
      && 2 <= |AllSets(s)| && !Saturated(s, d) && d.strategy.RollingUpdate?
      && multiset(order) == multiset(AllSets(s)) && AllDivisible(order, d)
      && (0 < ToAdd(order, d) ==> Sorted(BySizeNewer, order)) && (ToAdd(order, d) < 0 ==> Sorted(BySizeOlder, order))
  }

  /** The sets a plan resizes, in order. */
  function Targets(plan: Plan, d: Deployment): seq<MS> {
    match plan
    case Nothing => []
    case Single(m) => if m.spec == d.replicas then [] else [m]
    case Emptying(order) => order
    case Shares(order) => order
  }

  function Sizes(plan: Plan, d: Deployment): (r: seq<int>)
    requires plan.Shares? ==> AllDivisible(plan.order, d)
    ensures |r| == |Targets(plan, d)|
  {
    match plan
    case Nothing => []
    case Single(m) => if m.spec == d.replicas then [] else [d.replicas]
    case Emptying(order) => seq(|order|, _ => 0)
    case Shares(order) => FinalSizes(order, d)
  }

  /** The writes of a pass. */
  function Scaled(plan: Plan, d: Deployment, accepts: nat): Resizing
    requires plan.Shares? ==> AllDivisible(plan.order, d)
  {
    Resize(Targets(plan, d), Sizes(plan, d), GoalOf(d), accepts)
  }

  /** The sets before become those after, and all others stay. */
  predicate Replaced(s: Rollout, before: seq<MS>, after: seq<MS>, t: Rollout) {
    multiset(AllOf(t)) + multiset(before) == multiset(AllOf(s)) + multiset(after)
  }

  /** One pass of scale, whatever cuts it short. */
  predicate ScalePass(s: Rollout, d: Deployment, plan: Plan, accepts: nat, t: Rollout, ok: bool) {
    && Planned(s, d, plan)
    && var r := Scaled(plan, d, accepts);
       Replaced(s, Targets(plan, d), r.sets, t) && ok == r.ok
  }

  // ---------------------------------------------------------------- counting

  function ActiveOf(m: MS): int { if 0 < m.spec then 1 else 0 }

  lemma {:induction false} ActiveCount(sets: seq<MS>)
    ensures |Active(sets)| == Sum(sets, ActiveOf)
  {
    if sets != [] { ActiveCount(sets[1..]); }
  }

  lemma Cancel<T>(a: multiset<T>, b: multiset<T>, c: multiset<T>)
    requires a + c == b + c
    ensures a == b
  {
    forall x ensures a[x] == b[x] { assert (a + c)[x] == (b + c)[x]; }
  }

  lemma SumReplaced(s: Rollout, before: seq<MS>, after: seq<MS>, t: Rollout, f: MS -> int)
    requires Replaced(s, before, after, t)
    ensures Sum(AllOf(t), f) == Sum(AllOf(s), f) - Sum(before, f) + Sum(after, f)
  {
    hide Sum;
    assert multiset(AllOf(t) + before) == multiset(AllOf(s) + after);
    SumPermuted(AllOf(t) + before, AllOf(s) + after, f);
    SumAppend(AllOf(t), before, f);
    SumAppend(AllOf(s), after, f);
  }

  lemma FromReplaced(s: Rollout, before: seq<MS>, after: seq<MS>, t: Rollout, m: MS)
    requires Replaced(s, before, after, t) && m in AllOf(t)
    ensures m in AllOf(s) || m in after
  {
    assert m in multiset(AllOf(t));
    assert m in multiset(AllOf(s)) + multiset(after);
  }

  /** Sizes and number of the active sets. */
  function TotalSize(s: Rollout): int { Sum(AllOf(s), SpecOf) }
  function Count(s: Rollout): int { Sum(AllOf(s), ActiveOf) }

  predicate SizesValid(s: Rollout) { forall i | 0 <= i < |AllOf(s)| :: 0 <= AllOf(s)[i].spec }

  /** Every set is empty, or recorded against the current size and scaled without overflow. */
  predicate AllSteady(s: Rollout, d: Deployment) {
    && 0 < d.replicas && 0 < d.replicas + MaxSurge(d) < TWO_31
    && forall i | 0 <= i < |AllOf(s)| :: AllOf(s)[i].spec == 0 || SteadySet(AllOf(s)[i], d)
  }

  lemma Measures(s: Rollout)
    requires SizesValid(s)
    ensures |AllSets(s)| == Count(s) && Sum(AllSets(s), SpecOf) == TotalSize(s)
  {
    ActiveCount(AllOf(s));
    ActiveSum(AllOf(s));
  }

  // ---------------------------------------------------------------- what one pass leads to

  lemma {:induction false} AllActive(sets: seq<MS>)
    ensures Sum(Active(sets), ActiveOf) == |Active(sets)|
  {
    if sets != [] {
      AllActive(sets[1..]);
      var first := if 0 < sets[0].spec then [sets[0]] else [];
      SumAppend(first, Active(sets[1..]), ActiveOf);
      assert first != [] ==> first[1..] == [];
    }
  }

  /** A listing of the active sets has their total and their number. */
  lemma ListingMeasures(sets: seq<MS>, order: seq<MS>)
    requires multiset(order) == multiset(Active(sets)) && forall i | 0 <= i < |sets| :: 0 <= sets[i].spec
    ensures Sum(order, SpecOf) == Sum(sets, SpecOf) && Sum(order, ActiveOf) == Sum(sets, ActiveOf) == |order|
    ensures forall i | 0 <= i < |order| :: order[i] in sets && 0 < order[i].spec
  {
    SumPermuted(order, Active(sets), SpecOf);
    SumPermuted(order, Active(sets), ActiveOf);
    ActiveSum(sets);
    ActiveCount(sets);
    AllActive(sets);
    SameElements(order, Active(sets));
    forall i | 0 <= i < |order| ensures order[i] in sets && 0 < order[i].spec {
      assert order[i] in Active(sets);
      ActiveExact(sets, order[i]);
    }
  }

  lemma AllZero(sets: seq<MS>)
    requires forall i | 0 <= i < |sets| :: sets[i].spec == 0
    ensures Sum(sets, SpecOf) == 0 && Sum(sets, ActiveOf) == 0
  {
    SumNonNegative(sets, SpecOf);
    SumNonNegative(sets, ActiveOf);
  }

  lemma OldsValid(s: Rollout)
    requires SizesValid(s)
    ensures forall i | 0 <= i < |s.olds| :: 0 <= s.olds[i].spec
  {
    assert forall i | 0 <= i < |s.olds| :: AllOf(s)[i] == s.olds[i];
  }

  /** A saturated new set stays, and the old ones are emptied. */
  lemma EmptyingLeads(s: Rollout, d: Deployment, order: seq<MS>, accepts: nat, t: Rollout)
    requires SizesValid(s) && ScalePass(s, d, Emptying(order), accepts, t, true)
    ensures TotalSize(t) == d.replicas && SizesValid(t) && (0 < d.replicas ==> Count(t) == 1)
  {
    hide Active, AllSets, GoalOf, Resize, Sum, Sorted;
    var r := Scaled(Emptying(order), d, accepts);
    OldsValid(s);
    ListingMeasures(s.olds, order);
    EmptiedSets(order, d, accepts);
    hide Scaled;
    TotalIsSum(s, SpecOf);
    TotalIsSum(s, ActiveOf);
    SumReplaced(s, order, r.sets, t, SpecOf);
    SumReplaced(s, order, r.sets, t, ActiveOf);
    forall i | 0 <= i < |AllOf(t)| ensures 0 <= AllOf(t)[i].spec {
      FromReplaced(s, order, r.sets, t, AllOf(t)[i]);
    }
  }

  lemma {:induction false} ActiveKept(sets: seq<MS>)
    requires forall i | 0 <= i < |sets| :: 0 <= sets[i].spec && 0 <= sets[i].avail
    ensures Sum(Active(sets), KeptOf) == Sum(sets, KeptOf)
  {
    if sets != [] {
      ActiveKept(sets[1..]);
      if 0 < sets[0].spec {
        assert Active(sets)[1..] == Active(sets[1..]);
      } else {
        assert Active(sets) == Active(sets[1..]);
      }
    }
  }

  lemma {:induction false} EmptiedKept(order: seq<MS>, sizes: seq<int>, g: Goal, accepts: nat)
    requires |order| == |sizes|
    requires forall i | 0 <= i < |order| :: 0 <= order[i].spec && 0 <= order[i].avail && sizes[i] == 0
    ensures 0 <= Sum(Resize(order, sizes, g, accepts).sets, KeptOf)
  {
    if order != [] {
      var p := ScaleTo(order[0], 0, g, accepts);
      EmptiedKept(order[1..], sizes[1..], g, p.left);
      SumNonNegative(order, KeptOf);
      hide SetReplicasAnnotations, ReplicasAnnotationsNeedUpdate;
      var rest := Resize(order[1..], sizes[1..], g, p.left).sets;
      assert ([p.ms] + rest)[1..] == rest;
    }
  }

  /**
   Old sets are emptied safely: however far such a pass gets, as many machines as desired are kept available,
   because the new set alone has them.
   */
  lemma EmptyingKeepsAvailable(s: Rollout, d: Deployment, order: seq<MS>, accepts: nat, t: Rollout, ok: bool)
    requires Valid(s) && ScalePass(s, d, Emptying(order), accepts, t, ok)
    ensures Total(t, KeptOf) >= d.replicas
  {
    ValidParts(s);
    ActiveKept(s.olds);
    SumPermuted(order, Active(s.olds), KeptOf);
    SameElements(order, Active(s.olds));
    forall i | 0 <= i < |order| ensures 0 <= order[i].spec && 0 <= order[i].avail {
      ActiveExact(s.olds, order[i]);
    }
    hide GoalOf, Sum, Active, Resize, Sorted;
    EmptiedKept(order, Sizes(Emptying(order), d), GoalOf(d), accepts);
    SumReplaced(s, order, Scaled(Emptying(order), d, accepts).sets, t, KeptOf);
    TotalIsSum(s, KeptOf);
    TotalIsSum(t, KeptOf);
  }

  lemma EmptiedSets(order: seq<MS>, d: Deployment, accepts: nat)
    requires Scaled(Emptying(order), d, accepts).ok
    ensures var sets := Scaled(Emptying(order), d, accepts).sets;
      Sum(sets, SpecOf) == 0 && Sum(sets, ActiveOf) == 0 && forall i | 0 <= i < |sets| :: sets[i].spec == 0
  {
    var r := Scaled(Emptying(order), d, accepts);
    forall k | 0 <= k < |order| ensures r.sets[k].spec == 0 {
      ResizeExact(order, Sizes(Emptying(order), d), GoalOf(d), accepts, k);
    }
    hide Resize, GoalOf;
    AllZero(r.sets);
  }

  lemma SingleScaled(d: Deployment, m: MS, accepts: nat)
    requires Scaled(Single(m), d, accepts).ok
    ensures var before, r := Targets(Single(m), d), Scaled(Single(m), d, accepts);
      && (forall i | 0 <= i < |r.sets| :: r.sets[i].spec == d.replicas)
      && Sum(r.sets, SpecOf) - Sum(before, SpecOf) == d.replicas - m.spec
      && Sum(r.sets, ActiveOf) - Sum(before, ActiveOf) == (if d.replicas > 0 then 1 else 0) - ActiveOf(m)
  {
    hide GoalOf;
    if m.spec != d.replicas {
      var r := Scaled(Single(m), d, accepts);
      ResizeExact([m], [d.replicas], GoalOf(d), accepts, 0);
      hide Scaled, Resize;
      assert r.sets == [r.sets[0]] && [r.sets[0]][1..] == [] && [m][1..] == [];
    }
  }

  /** A single set that is all there is, brought to a size. */
  lemma SingleSizes(s: Rollout, d: Deployment, m: MS, accepts: nat, t: Rollout)
    requires SizesValid(s) && 0 <= d.replicas && TotalSize(s) == m.spec && ScalePass(s, d, Single(m), accepts, t, true)
    ensures TotalSize(t) == d.replicas && SizesValid(t)
    ensures Count(t) == Count(s) - ActiveOf(m) + if d.replicas > 0 then 1 else 0
  {
    hide Planned, GoalOf, SizesValid, Resize, Sum, Scaled, Targets;
    var before, r := Targets(Single(m), d), Scaled(Single(m), d, accepts);
    SingleScaled(d, m, accepts);
    SumReplaced(s, before, r.sets, t, SpecOf);
    SumReplaced(s, before, r.sets, t, ActiveOf);
    ReplacedValid(s, before, r.sets, t);
  }

  lemma ReplacedValid(s: Rollout, before: seq<MS>, after: seq<MS>, t: Rollout)
    requires SizesValid(s) && Replaced(s, before, after, t) && forall i | 0 <= i < |after| :: 0 <= after[i].spec
    ensures SizesValid(t)
  {
    forall i | 0 <= i < |AllOf(t)| ensures 0 <= AllOf(t)[i].spec {
      FromReplaced(s, before, after, t, AllOf(t)[i]);
    }
  }

  /** Several active sets are shared among only by a rolling update; another strategy leaves them as they are. */
  lemma OnlyRollingShares(s: Rollout, d: Deployment, plan: Plan, accepts: nat, t: Rollout, ok: bool)
    requires !d.strategy.RollingUpdate? && 2 <= |AllSets(s)| && !Saturated(s, d)
    requires ScalePass(s, d, plan, accepts, t, ok)
    ensures ok && multiset(AllOf(t)) == multiset(AllOf(s))
  {
    hide AllSets, Saturated;
    assert plan.Nothing?;
    assert Scaled(plan, d, accepts) == Resizing([], accepts, true);
    Cancel(multiset(AllOf(t)), multiset(AllOf(s)), multiset([]));
  }

  /** A single set of the desired size is left alone, whatever its annotations say. */
  lemma SingleIdle(d: Deployment, m: MS, accepts: nat)
    ensures Scaled(Single(m), d, accepts) == Resizing([], accepts, true) <==> m.spec == d.replicas
  {
  }

  /** Without any active set, one pass brings the new set, or else the newest, to the desired size. */
  lemma ScaleFromZero(s: Rollout, d: Deployment, plan: Plan, accepts: nat, t: Rollout)
    requires SizesValid(s) && TotalSize(s) == 0 && AllOf(s) != [] && 0 <= d.replicas
    requires ScalePass(s, d, plan, accepts, t, true)
    ensures plan.Single? && TotalSize(t) == d.replicas && plan.target in AllOf(s)
    ensures if s.newMS.Some? then plan.target == s.newMS.value
      else forall i | 0 <= i < |s.olds| :: s.olds[i].created <= plan.target.created
  {
    NoneActive(s);
    var m := plan.target;
    ChosenSize(s, m);
    if s.newMS.Some? { assert AllOf(s)[|s.olds|] == m; } else { assert AllOf(s) == s.olds; }
    forall i | 0 <= i < |AllOf(s)| ensures s.newMS.None? ==> AllOf(s)[i].created <= m.created {
      LatestIsNewest(s, m, i);
    }
    hide ScalePass, TotalSize, SizesValid;
    SingleSizes(s, d, m, accepts, t);
  }

  lemma NoneActive(s: Rollout)
    requires SizesValid(s) && TotalSize(s) == 0
    ensures AllSets(s) == []
  {
    Measures(s);
    SumNonNegative(AllOf(s), SpecOf);
    if AllSets(s) != [] { ActiveExact(AllOf(s), AllSets(s)[0]); }
  }

  /** A single active set is brought to the desired size. */
  lemma SingleLeads(s: Rollout, d: Deployment, m: MS, accepts: nat, t: Rollout)
    requires 0 < d.replicas && SizesValid(s) && Count(s) == 1 && ScalePass(s, d, Single(m), accepts, t, true)
    ensures Count(t) == 1 && TotalSize(t) == d.replicas && SizesValid(t)
  {
    Measures(s);
    ChosenSize(s, m);
    assert AllSets(s) == [m] && m in AllSets(s);
    ActiveExact(AllOf(s), m);
    hide ScalePass, TotalSize, Count, SizesValid;
    SingleSizes(s, d, m, accepts, t);
  }

  /** The chosen set is all there is. */
  lemma ChosenSize(s: Rollout, m: MS)
    requires SizesValid(s) && |AllSets(s)| <= 1 && OneActiveOrLatest(s, m)
    ensures TotalSize(s) == m.spec
  {
    Measures(s);
    if AllSets(s) == [] {
      assert m in AllOf(s) by {
        if s.newMS.Some? { assert AllOf(s)[|s.olds|] == m; } else { assert AllOf(s) == s.olds; }
      }
      var k :| 0 <= k < |AllOf(s)| && AllOf(s)[k] == m;
      ActiveExact(AllOf(s), m);
    } else {
      assert AllSets(s) == [m] && [m][1..] == [];
    }
  }

  /** The sets to share among are recorded against the current size. */
  lemma OrderSteady(s: Rollout, d: Deployment, order: seq<MS>)
    requires SizesValid(s) && AllSteady(s, d) && multiset(order) == multiset(AllSets(s))
    ensures Steady(order, d) && Sum(order, SpecOf) == TotalSize(s) && |order| == Count(s)
    ensures Sum(order, ActiveOf) == Count(s)
  {
    hide SteadySet, Sum, MaxSurge;
    ListingMeasures(AllOf(s), order);
    forall i | 0 <= i < |order| ensures SteadySet(order[i], d) {
      var k :| 0 <= k < |AllOf(s)| && AllOf(s)[k] == order[i];
    }
  }

  /** Shares at the allowed size: nothing is written. */
  lemma IdleShares(s: Rollout, d: Deployment, order: seq<MS>, accepts: nat)
    requires SizesValid(s) && AllSteady(s, d) && Planned(s, d, Shares(order)) && TotalSize(s) == AllowedSize(d)
    ensures Scaled(Shares(order), d, accepts) == Resizing(order, accepts, true)
  {
    hide SteadySet, MaxSurge, FinalSizes, Resize, AllowedSize, GoalOf, Sum;
    OrderSteady(s, d, order);
    IdlePass(order, d, accepts);
  }

  lemma SameMeasures(s: Rollout, d: Deployment, t: Rollout)
    requires multiset(AllOf(t)) == multiset(AllOf(s))
    ensures TotalSize(t) == TotalSize(s) && Count(t) == Count(s)
    ensures (SizesValid(s) ==> SizesValid(t)) && (AllSteady(s, d) ==> AllSteady(t, d))
  {
    hide SteadySet, MaxSurge;
    SumPermuted(AllOf(t), AllOf(s), SpecOf);
    SumPermuted(AllOf(t), AllOf(s), ActiveOf);
    SameElements(AllOf(t), AllOf(s));
    forall i | 0 <= i < |AllOf(t)| ensures exists k | 0 <= k < |AllOf(s)| :: AllOf(s)[k] == AllOf(t)[i] {
      assert AllOf(t)[i] in AllOf(s);
    }
  }

  /** Shares above the allowed size: the excess goes, or a set does. */
  lemma SharesLead(s: Rollout, d: Deployment, order: seq<MS>, accepts: nat, t: Rollout)
    requires SizesValid(s) && AllSteady(s, d) && AllowedSize(d) < TotalSize(s)
    requires ScalePass(s, d, Shares(order), accepts, t, true)
    ensures SizesValid(t) && AllSteady(t, d) && AllowedSize(d) <= TotalSize(t)
    ensures Count(t) <= Count(s) && (TotalSize(t) == AllowedSize(d) || Count(t) < Count(s))
  {
    hide SteadySet, MaxSurge, FinalSizes, Resize, AllowedSize, GoalOf, Sum, Active, AllSets, Sorted, Divisible;
    OrderSteady(s, d, order);
    var r := Scaled(Shares(order), d, accepts);
    forall k | 0 <= k < |order| ensures 0 <= r.sets[k].spec && (r.sets[k].spec == 0 || SteadySet(r.sets[k], d)) {
      SteadySets(order, d, accepts, k);
    }
    ExcessShrinks(order, d, accepts, Active(r.sets));
    ActiveSum(r.sets);
    ActiveCount(r.sets);
    SumReplaced(s, order, r.sets, t, SpecOf);
    SumReplaced(s, order, r.sets, t, ActiveOf);
    forall i | 0 <= i < |AllOf(t)|
      ensures 0 <= AllOf(t)[i].spec && (AllOf(t)[i].spec == 0 || SteadySet(AllOf(t)[i], d))
    {
      FromReplaced(s, order, r.sets, t, AllOf(t)[i]);
    }
  }

  // ---------------------------------------------------------------- runs

  /** A pass, and the statuses reported before the next one. */
  datatype ScaleStep = ScaleStep(plan: Plan, accepts: nat, mid: Rollout)

  predicate ScalesTo(s: Rollout, d: Deployment, step: ScaleStep, t: Rollout) {
    ScalePass(s, d, step.plan, step.accepts, step.mid, true) && Reported(step.mid, t)
  }

  lemma ReportKeepsMeasures(s: Rollout, d: Deployment, t: Rollout)
    requires Reported(s, t)
    ensures TotalSize(t) == TotalSize(s) && Count(t) == Count(s)
    ensures (SizesValid(s) ==> SizesValid(t)) && (AllSteady(s, d) ==> AllSteady(t, d))
  {
    SumEq(AllOf(t), SpecOf, AllOf(s), SpecOf);
    SumEq(AllOf(t), ActiveOf, AllOf(s), ActiveOf);
    hide MaxSurge, GoalOf, Sum;
    forall i | 0 <= i < |AllOf(t)| ensures SteadySet(AllOf(t)[i], d) <==> SteadySet(AllOf(s)[i], d) {
      assert SameSet(AllOf(s)[i], AllOf(t)[i]);
    }
  }

  /** Where a run of passes stands after k of them, with n active sets at the start. */
  predicate Converging(s: Rollout, d: Deployment, k: nat, n: int) {
    && SizesValid(s) && 1 <= Count(s)
    && (2 <= Count(s) ==>
          AllSteady(s, d) && AllowedSize(d) <= TotalSize(s) && (TotalSize(s) == AllowedSize(d) || Count(s) + k <= n))
    && (Count(s) == 1 ==> TotalSize(s) == d.replicas || 1 + k <= n)
  }

  lemma SomeActive(s: Rollout)
    requires SizesValid(s)
    ensures 0 <= Count(s) && (0 < TotalSize(s) ==> 1 <= Count(s))
  {
    SumNonNegative(AllOf(s), SpecOf);
    SumNonNegative(AllOf(s), ActiveOf);
  }

  /** How many active sets each plan is for. */
  lemma PlanCount(s: Rollout, d: Deployment, plan: Plan)
    requires d.strategy.RollingUpdate? && SizesValid(s) && Planned(s, d, plan)
    ensures if plan.Nothing? then Count(s) == 0 else if plan.Single? then Count(s) <= 1 else 2 <= Count(s)
  {
    Measures(s);
  }

  /** Shares at or above the allowed size. */
  lemma SharesConverge(s: Rollout, d: Deployment, order: seq<MS>, accepts: nat, t: Rollout)
    requires SizesValid(s) && AllSteady(s, d) && 0 < AllowedSize(d) <= TotalSize(s)
    requires ScalePass(s, d, Shares(order), accepts, t, true)
    ensures SizesValid(t) && AllSteady(t, d) && AllowedSize(d) <= TotalSize(t) && 1 <= Count(t) <= Count(s)
    ensures if TotalSize(s) == AllowedSize(d) then TotalSize(t) == AllowedSize(d) && Count(t) == Count(s)
      else TotalSize(t) == AllowedSize(d) || Count(t) < Count(s)
  {
    hide AllSteady, AllowedSize, TotalSize, Count, SizesValid, AllSets, FinalSizes, Resize, Planned;
    if TotalSize(s) == AllowedSize(d) {
      IdleShares(s, d, order, accepts);
      Cancel(multiset(AllOf(t)), multiset(AllOf(s)), multiset(order));
      SameMeasures(s, d, t);
    } else {
      SharesLead(s, d, order, accepts, t);
    }
    SomeActive(t);
  }

  lemma PassConverges(s: Rollout, d: Deployment, plan: Plan, accepts: nat, t: Rollout, k: nat, n: int)
    requires d.strategy.RollingUpdate? && 0 < d.replicas && 0 < AllowedSize(d)
    requires Converging(s, d, k, n) && ScalePass(s, d, plan, accepts, t, true)
    ensures Converging(t, d, k + 1, n)
  {
    hide AllSteady, AllowedSize, TotalSize, Count, SizesValid, Planned, Replaced, Scaled;
    PlanCount(s, d, plan);
    hide ScalePass;
    match plan
    case Nothing =>
    case Single(m) => SingleLeads(s, d, m, accepts, t);
    case Emptying(order) => EmptyingLeads(s, d, order, accepts, t);
    case Shares(order) => SharesConverge(s, d, order, accepts, t);
  }

  lemma StepConverges(s: Rollout, d: Deployment, step: ScaleStep, t: Rollout, k: nat, n: int)
    requires d.strategy.RollingUpdate? && 0 < d.replicas && 0 < AllowedSize(d)
    requires Converging(s, d, k, n) && ScalesTo(s, d, step, t)
    ensures Converging(t, d, k + 1, n)
  {
    hide AllSteady, AllowedSize, TotalSize, Count, SizesValid, Reported, ScalePass;
    PassConverges(s, d, step.plan, step.accepts, step.mid, k, n);
    ReportKeepsMeasures(step.mid, d, t);
  }

  lemma Start(s: Rollout, d: Deployment)
    requires SizesValid(s) && AllSteady(s, d) && AllowedSize(d) <= TotalSize(s)
    ensures 0 < d.replicas && 0 < AllowedSize(d) && Converging(s, d, 0, Count(s))
  {
    assert 0 < AllowedSize(d);
    hide AllowedSize, TotalSize, Count, SizesValid;
    SomeActive(s);
  }

  lemma Converged(s: Rollout, d: Deployment, k: nat, n: int)
    requires Converging(s, d, k, n) && n <= k
    ensures if Count(s) == 1 then TotalSize(s) == d.replicas else TotalSize(s) == AllowedSize(d)
  {
    hide AllSteady, AllowedSize, TotalSize, Count, SizesValid;
  }

  /**
   Convergence: from active sets recorded against the current size, with a total no lower than the allowed
   size, at most as many passes as there are active sets bring the total exactly to the desired size, if one
   active set is left, and exactly to the allowed size otherwise; whatever is reported in between, whenever the
   new set becomes saturated, and whatever order ties are sorted in.
   */
  lemma {:induction false} ScaleConverges(d: Deployment, states: seq<Rollout>, steps: seq<ScaleStep>, k: nat)
    requires d.strategy.RollingUpdate? && |states| == |steps| + 1 && k < |states|
    requires SizesValid(states[0]) && AllSteady(states[0], d) && AllowedSize(d) <= TotalSize(states[0])
    requires forall i | 0 <= i < |steps| :: ScalesTo(states[i], d, steps[i], states[i + 1])
    ensures Converging(states[k], d, k, Count(states[0]))
    ensures Count(states[0]) <= k ==>
      if Count(states[k]) == 1 then TotalSize(states[k]) == d.replicas else TotalSize(states[k]) == AllowedSize(d)
  {
    hide AllSteady, AllowedSize, TotalSize, Count, SizesValid, ScalesTo, Converging;
    Start(states[0], d);
    if k > 0 {
      ScaleConverges(d, states, steps, k - 1);
      StepConverges(states[k - 1], d, steps[k - 1], states[k], k - 1, Count(states[0]));
    }
    if Count(states[0]) <= k { Converged(states[k], d, k, Count(states[0])); }
  }

  // ---------------------------------------------------------------- where convergence starts

  lemma {:induction false} ActiveMultiplicity(sets: seq<MS>, m: MS)
    requires 0 < m.spec
    ensures multiset(Active(sets))[m] == multiset(sets)[m]
  {
    if sets != [] {
      ActiveMultiplicity(sets[1..], m);
      assert sets == [sets[0]] + sets[1..];
    }
  }

  /** After a pass over all active sets, every active set is one it resized. */
  lemma ActiveReplaced(s: Rollout, order: seq<MS>, after: seq<MS>, t: Rollout, m: MS)
    requires Replaced(s, order, after, t) && multiset(order) == multiset(AllSets(s)) && m in AllOf(t) && 0 < m.spec
    ensures m in after
  {
    ActiveMultiplicity(AllOf(s), m);
    hide Active;
    assert (multiset(AllOf(t)) + multiset(order))[m] == (multiset(AllOf(s)) + multiset(after))[m];
    assert 0 < multiset(AllOf(t))[m];
    assert m in multiset(after);
  }

  /**
   One pass that shares among any active sets of sane shares, growing or shrinking, leads to where convergence
   starts.
   */
  lemma FirstShares(s: Rollout, d: Deployment, order: seq<MS>, accepts: nat, t: Rollout)
    requires SizesValid(s) && AllScalable(order, d) && 0 < d.replicas && 0 < d.replicas + MaxSurge(d) < TWO_31
    requires forall i | 0 <= i < |order| :: FinalSizes(order, d)[i] * (d.replicas + MaxSurge(d)) < TWO_31
    requires ScalePass(s, d, Shares(order), accepts, t, true)
    ensures SizesValid(t) && AllSteady(t, d) && AllowedSize(d) <= TotalSize(t)
  {
    hide SteadySet, MaxSurge, FinalSizes, Resize, AllowedSize, GoalOf, Sum, Active, Sorted, Divisible, Scalable;
    var r := Scaled(Shares(order), d, accepts);
    FirstPassSteadies(order, d, accepts, Active(r.sets));
    FirstPassSizes(order, d, accepts);
    OrderMeasures(s, order);
    SumReplaced(s, order, r.sets, t, SpecOf);
    ReplacedValid(s, order, r.sets, t);
    ActiveSum(r.sets);
    forall i | 0 <= i < |AllOf(t)| ensures AllOf(t)[i].spec == 0 || SteadySet(AllOf(t)[i], d) {
      var m := AllOf(t)[i];
      if 0 < m.spec {
        ActiveReplaced(s, order, r.sets, t, m);
        ActiveExact(r.sets, m);
        assert m in Active(r.sets);
      }
    }
  }

  lemma FirstPassSizes(order: seq<MS>, d: Deployment, accepts: nat)
    requires order != [] && AllScalable(order, d) && Resize(order, FinalSizes(order, d), GoalOf(d), accepts).ok
    ensures forall k | 0 <= k < |order| :: 0 <= Resize(order, FinalSizes(order, d), GoalOf(d), accepts).sets[k].spec
  {
    ProportionalTotal(order, d);
    hide FinalSizes, GoalOf, Resize;
    forall k | 0 <= k < |order| ensures 0 <= Resize(order, FinalSizes(order, d), GoalOf(d), accepts).sets[k].spec {
      ResizeExact(order, FinalSizes(order, d), GoalOf(d), accepts, k);
    }
  }

  lemma OrderMeasures(s: Rollout, order: seq<MS>)
    requires SizesValid(s) && multiset(order) == multiset(AllSets(s))
    ensures Sum(order, SpecOf) == TotalSize(s) && |order| == |AllSets(s)|
  {
    hide Active;
    Measures(s);
    SumPermuted(order, AllSets(s), SpecOf);
    assert |multiset(order)| == |multiset(AllSets(s))|;
  }

  // ---------------------------------------------------------------- fixed points

  lemma {:induction false} NoWriteNoChange(sets: seq<MS>, sizes: seq<int>, g: Goal, k: nat)
    requires |sets| == |sizes| && k < |sets|
    ensures Resize(sets, sizes, g, 0).ok ==> sizes[k] == sets[k].spec
  {
    if k > 0 { NoWriteNoChange(sets[1..], sizes[1..], g, k - 1); }
  }

  /** Where passes stop writing. */
  predicate AtRest(s: Rollout, d: Deployment) {
    if Count(s) == 1 then TotalSize(s) == d.replicas else !Saturated(s, d) && TotalSize(s) == AllowedSize(d)
  }

  /**
   A pass writes nothing if and only if a single active set has the desired size, or several have the allowed size
   and the new one is not saturated.
   */
  lemma RestExactly(s: Rollout, d: Deployment, plan: Plan, accepts: nat)
    requires d.strategy.RollingUpdate? && Planned(s, d, plan)
    requires SizesValid(s) && AllSteady(s, d) && AllowedSize(d) <= TotalSize(s)
    ensures AtRest(s, d) ==> Scaled(plan, d, accepts) == Resizing(Targets(plan, d), accepts, true)
    ensures Scaled(plan, d, 0).ok ==> AtRest(s, d)
  {
    assert 0 < d.replicas && 0 < AllowedSize(d);
    PlanSaturated(s, d, plan);
    hide AllSteady, AllowedSize, TotalSize, Count, SizesValid, Saturated, Resize, Planned;
    PlanCount(s, d, plan);
    SomeActive(s);
    match plan
    case Nothing =>
    case Single(m) => SingleRests(s, d, m, accepts);
    case Emptying(order) => EmptyingWrites(s, d, order);
    case Shares(order) =>
      if TotalSize(s) == AllowedSize(d) {
        IdleShares(s, d, order, accepts);
      } else {
        SharesWrite(s, d, order);
      }
  }

  lemma PlanSaturated(s: Rollout, d: Deployment, plan: Plan)
    requires Planned(s, d, plan)
    ensures (plan.Emptying? ==> Saturated(s, d)) && (plan.Shares? ==> !Saturated(s, d) && AllDivisible(plan.order, d))
  {
  }

  lemma SingleRests(s: Rollout, d: Deployment, m: MS, accepts: nat)
    requires Planned(s, d, Single(m)) && SizesValid(s) && Count(s) == 1
    ensures TotalSize(s) == d.replicas ==> Scaled(Single(m), d, accepts) == Resizing([], accepts, true)
    ensures Scaled(Single(m), d, 0).ok ==> TotalSize(s) == d.replicas
  {
    Measures(s);
    ChosenSize(s, m);
  }

  lemma EmptyingWrites(s: Rollout, d: Deployment, order: seq<MS>)
    requires Planned(s, d, Emptying(order)) && SizesValid(s)
    ensures !Scaled(Emptying(order), d, 0).ok
  {
    OldsValid(s);
    ListingMeasures(s.olds, order);
    Measures(s);
    TotalIsSum(s, ActiveOf);
    hide Active, GoalOf, Resize, Sum, Sorted;
    NoWriteNoChange(order, Sizes(Emptying(order), d), GoalOf(d), 0);
  }

  lemma SharesWrite(s: Rollout, d: Deployment, order: seq<MS>)
    requires Planned(s, d, Shares(order)) && SizesValid(s) && AllSteady(s, d)
    requires AllowedSize(d) < TotalSize(s)
    ensures !Scaled(Shares(order), d, 0).ok
  {
    hide SteadySet, MaxSurge, FinalSizes, Resize, AllowedSize, GoalOf, Sum, Sorted, Divisible;
    Measures(s);
    OrderSteady(s, d, order);
    SteadyPass(order, d, 0);
    ListingMeasures(AllOf(s), order);
    NoWriteNoChange(order, FinalSizes(order, d), GoalOf(d), 0);
  }

  /** Scaling to zero takes one pass, from any sane shares. */
  lemma ScaleToZero(s: Rollout, d: Deployment, plan: Plan, accepts: nat, t: Rollout)
    requires d.strategy.RollingUpdate? && d.replicas == 0 && SizesValid(s) && ScalePass(s, d, plan, accepts, t, true)
    requires plan.Shares? ==> AllScalable(plan.order, d)
    ensures TotalSize(t) == 0
  {
    assert plan.Nothing? ==> TotalSize(s) == 0;
    hide TotalSize, SizesValid, Resize, GoalOf;
    match plan
    case Nothing => SameMeasures(s, d, t);
    case Emptying(order) => EmptyingLeads(s, d, order, accepts, t);
    case Single(m) =>
      ChosenSize(s, m);
      SingleSizes(s, d, m, accepts, t);
    case Shares(order) => SharesToZero(s, d, order, accepts, t);
  }

  lemma SharesToZero(s: Rollout, d: Deployment, order: seq<MS>, accepts: nat, t: Rollout)
    requires d.replicas == 0 && SizesValid(s) && AllScalable(order, d)
    requires ScalePass(s, d, Shares(order), accepts, t, true)
    ensures TotalSize(t) == 0
  {
    hide Scalable, MaxSurge, FinalSizes, Resize, AllowedSize, GoalOf, Sum, Active, Sorted, Divisible;
    ListingMeasures(AllOf(s), order);
    var r := Scaled(Shares(order), d, accepts);
    forall k | 0 <= k < |order| ensures r.sets[k].spec == 0 {
      ProportionalToZero(order, d, k);
      ResizeExact(order, FinalSizes(order, d), GoalOf(d), accepts, k);
    }
    AllZero(r.sets);
    SumReplaced(s, order, r.sets, t, SpecOf);
  }

  // ---------------------------------------------------------------- scaling and surge

  lemma SinglePeak(d: Deployment, m: MS, accepts: nat)
    requires Scaled(Single(m), d, accepts).ok
    ensures Sum(Scaled(Single(m), d, accepts).sets, PeakOf) - Sum(Targets(Single(m), d), PeakOf)
      == (if m.spec == d.replicas then PeakOf(m) else Max(d.replicas, m.status)) - PeakOf(m)
  {
    hide GoalOf;
    if m.spec != d.replicas {
      var r := Scaled(Single(m), d, accepts);
      ResizeExact([m], [d.replicas], GoalOf(d), accepts, 0);
      hide Scaled, Resize;
      assert r.sets == [r.sets[0]] && [r.sets[0]][1..] == [] && [m][1..] == [];
    }
  }

  /**
   A pass looks at sizes only. Bringing a single active set to the desired size keeps what specs ask for and
   statuses report within a bound, or within what that was, if and only if the set has that many already or the
   machines that other sets still report leave room for them.
   */
  lemma SingleSurgeExactly(s: Rollout, d: Deployment, m: MS, accepts: nat, t: Rollout, bound: int)
    requires ScalePass(s, d, Single(m), accepts, t, true)
    ensures Total(t, PeakOf) <= Max(Total(s, PeakOf), bound) <==>
      d.replicas <= PeakOf(m) || Total(s, PeakOf) - PeakOf(m) + d.replicas <= bound
  {
    hide Planned, GoalOf, Resize, Sum, Scaled, Targets, Total;
    SinglePeak(d, m, accepts);
    SumReplaced(s, Targets(Single(m), d), Scaled(Single(m), d, accepts).sets, t, PeakOf);
    TotalIsSum(s, PeakOf);
    TotalIsSum(t, PeakOf);
  }
}
