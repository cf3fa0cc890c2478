/** One pass of scale as the controller runs it, on API objects (controllers/machinedeployment_sync.go). */
module Scaling {
  import opened Basics
  import opened Fleet
  import opened Objects
  import opened RollingRuns
  import opened ProportionalSpec
  import opened Proportional
  import opened ScaleSpec
  import Decimal

  // ---------------------------------------------------------------- all sets of a deployment

  function AllObjects(newMS: MachineSet?, oldMSs: seq<MachineSet>): seq<MachineSet> {
    oldMSs + if newMS != null then [newMS] else []
  }

  ghost function RolloutOf(newMS: MachineSet?, oldMSs: seq<MachineSet>): Rollout
    reads newMS, oldMSs
  {
    Rollout(if newMS != null then Some(newMS.Value()) else None, Values(oldMSs))
  }

  lemma AllValues(newMS: MachineSet?, oldMSs: seq<MachineSet>)
    ensures Values(AllObjects(newMS, oldMSs)) == AllOf(RolloutOf(newMS, oldMSs))
  {
    ValuesAppend(oldMSs, if newMS != null then [newMS] else []);
  }

  lemma WithoutDistinct(all: seq<MachineSet>, k: nat)
    requires k < |all| && DistinctNames(all)
    ensures var rest := all[..k] + all[k + 1..];
      DistinctNames(rest) && all[k] !in rest && forall m | m in all && m != all[k] :: m in rest
  {
    var rest := all[..k] + all[k + 1..];
    forall i | 0 <= i < |rest| ensures rest[i] == all[if i < k then i else i + 1] {}
    forall m | m in all && m != all[k] ensures m in rest {
      var i :| 0 <= i < |all| && all[i] == m;
      assert rest[if i < k then i else i - 1] == m;
    }
  }

  lemma Pick(all: seq<MachineSet>, k: nat, picked: seq<MachineSet>, rest: seq<MachineSet>)
    requires k < |all| && picked != [] && all[k] == picked[0]
    requires multiset(all[..k] + all[k + 1..]) == multiset(picked[1..] + rest)
    ensures multiset(all) == multiset(picked + rest)
  {
    MultisetWithout(all, k);
    assert picked + rest == [picked[0]] + (picked[1..] + rest);
    assert all[k] in multiset(all);
  }

  /** The sets that are not picked. */
  lemma {:induction false} Rest(all: seq<MachineSet>, picked: seq<MachineSet>) returns (rest: seq<MachineSet>)
    requires DistinctNames(all) && DistinctNames(picked) && forall i | 0 <= i < |picked| :: picked[i] in all
    ensures multiset(all) == multiset(picked + rest)
    ensures forall i | 0 <= i < |rest| :: rest[i] in all && rest[i] !in picked
    decreases |picked|
  {
    if picked == [] {
      rest := all;
      assert picked + rest == all;
    } else {
      var k :| 0 <= k < |all| && all[k] == picked[0];
      var others := all[..k] + all[k + 1..];
      WithoutDistinct(all, k);
      forall i | 0 <= i < |picked[1..]| ensures picked[1..][i] in others {
        assert picked[1..][i] == picked[i + 1] && picked[i + 1].name != picked[0].name;
      }
      assert DistinctNames(picked[1..]) by {
        assert forall i | 0 <= i < |picked[1..]| :: picked[1..][i] == picked[i + 1];
      }
      hide DistinctNames;
      rest := Rest(others, picked[1..]);
      Pick(all, k, picked, rest);
      forall i | 0 <= i < |rest| ensures rest[i] in all && rest[i] !in picked {
        assert rest[i] in others && rest[i] !in picked[1..];
        assert picked == [picked[0]] + picked[1..];
      }
    }
  }

  /** Listing the picked sets and the rest, in whichever order, lists all of them. */
  lemma SplitValues(all: seq<MachineSet>, picked: seq<MachineSet>, order: seq<MachineSet>, rest: seq<MachineSet>)
    requires multiset(all) == multiset(picked + rest) && multiset(order) == multiset(picked)
    ensures multiset(Values(all)) == multiset(Values(order)) + multiset(Values(rest))
  {
    hide Values;
    assert multiset(all) == multiset(order + rest);
    ValuesPermuted(all, order + rest);
    ValuesAppend(order, rest);
  }

  /** The same for the values of a deployment's sets. */
  lemma Joined(newMS: MachineSet?, oldMSs: seq<MachineSet>, picked: seq<MachineSet>, order: seq<MachineSet>,
               rest: seq<MachineSet>)
    requires multiset(AllObjects(newMS, oldMSs)) == multiset(picked + rest) && multiset(order) == multiset(picked)
    ensures multiset(AllOf(RolloutOf(newMS, oldMSs))) == multiset(Values(order)) + multiset(Values(rest))
  {
    hide Values;
    AllValues(newMS, oldMSs);
    SplitValues(AllObjects(newMS, oldMSs), picked, order, rest);
  }

  /** All sets, as those picked and the rest. */
  lemma SetAside(newMS: MachineSet?, oldMSs: seq<MachineSet>, picked: seq<MachineSet>) returns (rest: seq<MachineSet>)
    requires DistinctNames(AllObjects(newMS, oldMSs)) && DistinctNames(picked)
    requires forall i | 0 <= i < |picked| :: picked[i] in AllObjects(newMS, oldMSs)
    ensures multiset(AllObjects(newMS, oldMSs)) == multiset(picked + rest)
    ensures forall i | 0 <= i < |rest| :: rest[i] !in picked
    ensures multiset(AllOf(RolloutOf(newMS, oldMSs))) == multiset(Values(picked)) + multiset(Values(rest))
  {
    hide Values, DistinctNames, AllObjects, RolloutOf, AllOf;
    rest := Rest(AllObjects(newMS, oldMSs), picked);
    Joined(newMS, oldMSs, picked, picked, rest);
  }

  // ---------------------------------------------------------------- which set, or sets

  /** mdutil.FilterActiveMachineSets. */
  method FilterActive(sets: seq<MachineSet>) returns (active: seq<MachineSet>)
    ensures Values(active) == Active(Values(sets))
    ensures forall i | 0 <= i < |active| :: active[i] in sets
    ensures DistinctNames(sets) ==> DistinctNames(active)
  {
    hide Values, Active;
    active := [];
    ActiveNone(sets);
    for i := 0 to |sets|
      invariant Values(active) == Active(Values(sets[..i]))
      invariant forall j | 0 <= j < |active| :: active[j] in sets[..i]
      invariant DistinctNames(sets) ==> DistinctNames(active)
    {
      ActiveNext(sets, active, i);
      assert sets[..i + 1] == sets[..i] + [sets[i]];
      if sets[i].replicas > 0 {
        active := active + [sets[i]];
      }
    }
    assert sets[..|sets|] == sets;
  }

  lemma ActiveNone(sets: seq<MachineSet>)
    ensures Values([]) == Active(Values(sets[..0]))
  {
  }

  lemma ActiveNext(sets: seq<MachineSet>, active: seq<MachineSet>, i: nat)
    requires i < |sets| && Values(active) == Active(Values(sets[..i]))
    requires forall j | 0 <= j < |active| :: active[j] in sets[..i]
    ensures Active(Values(sets[..i + 1])) == Values(if sets[i].replicas > 0 then active + [sets[i]] else active)
    ensures DistinctNames(sets) ==> forall m | m in active :: m.name != sets[i].name
  {
    ValuesTake(sets, i);
    ActiveAppend(Values(sets[..i]), sets[i].Value());
    ValuesAppend(active, [sets[i]]);
    assert Values([sets[i]]) == [sets[i].Value()];
    if DistinctNames(sets) {
      forall m | m in active ensures m.name != sets[i].name {
        var j :| 0 <= j < i && sets[j] == m;
      }
    }
  }

  lemma {:induction false} ActiveAppend(s: seq<MS>, m: MS)
    ensures Active(s + [m]) == Active(s) + if 0 < m.spec then [m] else []
  {
    var last := if 0 < m.spec then [m] else [];
    if s == [] {
      assert s + [m] == [m] && [m][1..] == [] && last + [] == last && [] + last == last;
    } else {
      ActiveAppend(s[1..], m);
      var first := if 0 < s[0].spec then [s[0]] else [];
      assert (s + [m])[1..] == s[1..] + [m] && (s + [m])[0] == s[0];
      assert Active(s) == first + Active(s[1..]) && Active(s + [m]) == first + Active(s[1..] + [m]);
      hide Active;
      assert first + (Active(s[1..]) + last) == first + Active(s[1..]) + last;
    }
  }

  lemma {:induction false} ActiveCounts(s: seq<MS>, m: MS)
    ensures multiset(Active(s))[m] == if 0 < m.spec then multiset(s)[m] else 0
  {
    if s != [] {
      ActiveCounts(s[1..], m);
      assert s == [s[0]] + s[1..];
    }
  }

  lemma ActivePermuted(s: seq<MS>, t: seq<MS>)
    requires multiset(s) == multiset(t)
    ensures multiset(Active(s)) == multiset(Active(t))
  {
    forall m ensures multiset(Active(s))[m] == multiset(Active(t))[m] {
      ActiveCounts(s, m);
      ActiveCounts(t, m);
    }
  }

  /** The old sets newest first, and all active sets. */
  ghost predicate Listed(newMS: MachineSet?, oldMSs: seq<MachineSet>, olds: seq<MachineSet>, active: seq<MachineSet>)
    reads newMS, oldMSs, olds, active
  {
    && multiset(olds) == multiset(oldMSs) && Sorted(NewestFirst, Values(olds)) && DistinctNames(olds)
    && multiset(Values(active)) == multiset(AllSets(RolloutOf(newMS, oldMSs))) && DistinctNames(active)
    && forall i | 0 <= i < |active| :: active[i] in AllObjects(newMS, oldMSs)
  }

  method ListSets(newMS: MachineSet?, oldMSs: seq<MachineSet>) returns (olds: seq<MachineSet>, active: seq<MachineSet>)
    requires DistinctNames(AllObjects(newMS, oldMSs))
    ensures Listed(newMS, oldMSs, olds, active)
  {
    hide Values, Active, Sorted, DistinctNames, RolloutOf, AllSets, AllObjects;
    OldNames(newMS, oldMSs);
    olds := Sort(oldMSs, NewestFirst);
    DistinctAnew(newMS, oldMSs, olds);
    active := FilterActive(AllObjects(newMS, olds));
    ListedAnew(newMS, oldMSs, olds);
    ElementsAnew(newMS, oldMSs, olds, active);
  }

  /** mdutil.FindOneActiveOrLatest; it sorts the old sets in place, newest first. */
  method FindOneActiveOrLatest(newMS: MachineSet?, oldMSs: seq<MachineSet>)
    returns (found: MachineSet?, olds: seq<MachineSet>, active: seq<MachineSet>)
    requires DistinctNames(AllObjects(newMS, oldMSs))
    ensures Listed(newMS, oldMSs, olds, active)
    ensures found == null <==> AllObjects(newMS, oldMSs) == [] || 2 <= |active|
    ensures found != null ==>
      found in AllObjects(newMS, oldMSs) && OneActiveOrLatest(RolloutOf(newMS, oldMSs), found.Value())
  {
    hide Listed, DistinctNames, AllObjects, RolloutOf, OneActiveOrLatest;
    olds, active := ListSets(newMS, oldMSs);
    found := Choose(newMS, oldMSs, olds, active);
  }

  method Choose(newMS: MachineSet?, oldMSs: seq<MachineSet>, olds: seq<MachineSet>, active: seq<MachineSet>)
    returns (found: MachineSet?)
    requires Listed(newMS, oldMSs, olds, active)
    ensures found == null <==> AllObjects(newMS, oldMSs) == [] || 2 <= |active|
    ensures found != null ==>
      found in AllObjects(newMS, oldMSs) && OneActiveOrLatest(RolloutOf(newMS, oldMSs), found.Value())
  {
    hide Values, Active, Sorted, OneActiveOrLatest, RolloutOf, AllSets, DistinctNames;
    if newMS == null && |oldMSs| == 0 {
      return null;
    }
    if |active| == 1 {
      OnlyActive(newMS, oldMSs, active);
      return active[0];
    }
    if |active| >= 2 {
      return null;
    }
    Latest(newMS, oldMSs, olds, active);
    found := if newMS != null then newMS else olds[0];
  }

  lemma OldNames(newMS: MachineSet?, oldMSs: seq<MachineSet>)
    requires DistinctNames(AllObjects(newMS, oldMSs))
    ensures DistinctNames(oldMSs) && (newMS != null ==> newMS !in oldMSs)
  {
    assert forall i | 0 <= i < |oldMSs| :: AllObjects(newMS, oldMSs)[i] == oldMSs[i];
    assert newMS != null ==> AllObjects(newMS, oldMSs)[|oldMSs|] == newMS;
  }

  /** Listing the old sets in another order lists the same sets. */
  lemma ListedAnew(newMS: MachineSet?, oldMSs: seq<MachineSet>, olds: seq<MachineSet>)
    requires multiset(olds) == multiset(oldMSs)
    ensures multiset(Active(Values(AllObjects(newMS, olds)))) == multiset(AllSets(RolloutOf(newMS, oldMSs)))
  {
    hide Values, Active;
    var tail := if newMS != null then [newMS] else [];
    assert multiset(olds + tail) == multiset(oldMSs + tail);
    ValuesPermuted(olds + tail, oldMSs + tail);
    AllValues(newMS, oldMSs);
    ActivePermuted(Values(AllObjects(newMS, olds)), Values(AllObjects(newMS, oldMSs)));
  }

  lemma ElementsAnew(newMS: MachineSet?, oldMSs: seq<MachineSet>, olds: seq<MachineSet>, active: seq<MachineSet>)
    requires multiset(olds) == multiset(oldMSs) && forall i | 0 <= i < |active| :: active[i] in AllObjects(newMS, olds)
    ensures forall i | 0 <= i < |active| :: active[i] in AllObjects(newMS, oldMSs)
  {
    SameElements(olds, oldMSs);
  }

  lemma DistinctAnew(newMS: MachineSet?, oldMSs: seq<MachineSet>, olds: seq<MachineSet>)
    requires multiset(olds) == multiset(oldMSs) && DistinctNames(AllObjects(newMS, oldMSs)) && DistinctNames(olds)
    ensures DistinctNames(AllObjects(newMS, olds))
  {
    SameElements(olds, oldMSs);
    if newMS != null {
      forall i | 0 <= i < |olds| ensures olds[i].name != newMS.name {
        assert olds[i] in oldMSs;
        var k :| 0 <= k < |oldMSs| && oldMSs[k] == olds[i];
        assert AllObjects(newMS, oldMSs)[k] == oldMSs[k] && AllObjects(newMS, oldMSs)[|oldMSs|] == newMS;
      }
    }
  }

  lemma OnlyActive(newMS: MachineSet?, oldMSs: seq<MachineSet>, active: seq<MachineSet>)
    requires |active| == 1 && multiset(Values(active)) == multiset(AllSets(RolloutOf(newMS, oldMSs)))
    ensures OneActiveOrLatest(RolloutOf(newMS, oldMSs), active[0].Value())
  {
    var s := RolloutOf(newMS, oldMSs);
    assert Values(active) == [active[0].Value()];
    hide Values, Active;
    SameElements(Values(active), AllSets(s));
    assert AllSets(s)[0] in Values(active);
  }

  lemma Latest(newMS: MachineSet?, oldMSs: seq<MachineSet>, olds: seq<MachineSet>, active: seq<MachineSet>)
    requires active == [] && AllObjects(newMS, oldMSs) != [] && multiset(olds) == multiset(oldMSs)
    requires multiset(Values(active)) == multiset(AllSets(RolloutOf(newMS, oldMSs)))
    requires Sorted(NewestFirst, Values(olds))
    ensures newMS == null ==> olds != [] && olds[0] in oldMSs
    ensures var found := if newMS != null then newMS else olds[0];
      OneActiveOrLatest(RolloutOf(newMS, oldMSs), found.Value())
  {
    var s := RolloutOf(newMS, oldMSs);
    hide Active, Less, Values;
    SameElements(Values(active), AllSets(s));
    SameElements(olds, oldMSs);
    ValuesPermuted(olds, oldMSs);
    SameElements(Values(olds), Values(oldMSs));
    if newMS == null {
      assert Values(olds)[0] == olds[0].Value();
      forall i | 0 <= i < |s.olds| ensures !Less(NewestFirst, s.olds[i], olds[0].Value()) {
        assert s.olds[i] in Values(olds);
        var k :| 0 <= k < |olds| && Values(olds)[k] == s.olds[i];
        assert k > 0 ==> !Less(NewestFirst, Values(olds)[k], Values(olds)[0]);
        LessOrder(NewestFirst, s.olds[i], s.olds[i], s.olds[i]);
      }
      assert Values(olds)[0] in Values(oldMSs);
    }
  }

  // ---------------------------------------------------------------- scale

  /** mdutil.IsSaturated. */
  method IsSaturated(newMS: MachineSet?, ghost oldMSs: seq<MachineSet>, d: Deployment) returns (saturated: bool)
    ensures saturated == Saturated(RolloutOf(newMS, oldMSs), d) && (saturated ==> newMS != null)
  {
    if newMS == null {
      return false;
    }
    var desired := Decimal.ParseInt(Lookup(newMS.annotations, DesiredReplicas), TWO_31);
    if desired.None? {
      return false;
    }
    saturated := newMS.replicas == d.replicas && desired.value == d.replicas && newMS.available == d.replicas;
  }

  /** The loop that empties the active old sets beside a saturated new one. */
  method EmptySets(api: ApiServer, order: seq<MachineSet>, d: Deployment) returns (ok: bool)
    requires DistinctNames(order)
    modifies api, order
    ensures Resizing(Values(order), api.accepts, ok)
      == Resize(old(Values(order)), seq(|order|, _ => 0), GoalOf(d), old(api.accepts))
  {
    hide Values, Resize, ScaleTo, GoalOf, Written;
    ghost var start, g, sizes := Values(order), GoalOf(d), seq(|order|, _ => 0);
    ghost var all := Resize(start, sizes, g, api.accepts);
    WrittenStart(order, sizes, g, api.accepts);
    for i := 0 to |order|
      invariant Written(all, order, i, start, sizes, g, api.accepts)
    {
      WrittenHere(all, order, i, start, sizes, g, api.accepts);
      ghost var done := Values(order[..i]);
      var scaled := ScaleMachineSet(api, order[i], 0, d);
      assert Values(order[..i]) == done && Values(order[i + 1..]) == start[i + 1..];
      if !scaled {
        ValuesAround(order, i);
        return false;
      }
      ValuesTake(order, i);
      WrittenNext(all, order, i + 1, start, sizes, g, api.accepts);
    }
    WrittenAll(all, order, start, sizes, g, api.accepts);
    ok := true;
  }

  /** Sets other than those resized are left alone, so the pass is the one the plan describes. */
  lemma PassDone(s: Rollout, d: Deployment, plan: Plan, accepts: nat, t: Rollout, ok: bool,
                 before: seq<MS>, after: seq<MS>, rest: seq<MS>, left: nat)
    requires Planned(s, d, plan) && before == Targets(plan, d) && Resizing(after, left, ok) == Scaled(plan, d, accepts)
    requires multiset(AllOf(s)) == multiset(before) + multiset(rest)
    requires multiset(AllOf(t)) == multiset(after) + multiset(rest)
    ensures ScalePass(s, d, plan, accepts, t, ok)
  {
    hide Planned, Scaled, Targets;
  }

  /** Bringing the only active set, or the latest, to the desired size. */
  method ScaleOne(api: ApiServer, found: MachineSet, newMS: MachineSet?, oldMSs: seq<MachineSet>, d: Deployment)
    returns (ok: bool)
    requires DistinctNames(AllObjects(newMS, oldMSs)) && found in AllObjects(newMS, oldMSs)
    requires |AllSets(RolloutOf(newMS, oldMSs))| <= 1 && OneActiveOrLatest(RolloutOf(newMS, oldMSs), found.Value())
    modifies api, found
    ensures ScalePass(old(RolloutOf(newMS, oldMSs)), d, Single(old(found.Value())), old(api.accepts),
                      RolloutOf(newMS, oldMSs), ok)
  {
    ghost var s, m, accepts := RolloutOf(newMS, oldMSs), found.Value(), api.accepts;
    assert Planned(s, d, Single(m));
    ghost var rest := SetAside(newMS, oldMSs, [found]);
    ValuesOne(found);
    hide Planned, GoalOf, RolloutOf, AllOf, Values, AllObjects, Scaled;
    if found.replicas == d.replicas {
      Unscaled(s, d, Single(m), accepts);
      return true;
    }
    ghost var others := Values(rest);
    ok := ScaleMachineSet(api, found, d.replicas, d);
    assert Values(rest) == others;
    ValuesOne(found);
    Joined(newMS, oldMSs, [found], [found], rest);
    OneWrite(m, d, accepts);
    PassDone(s, d, Single(m), accepts, RolloutOf(newMS, oldMSs), ok, [m], [found.Value()], others, api.accepts);
  }

  lemma ValuesOne(m: MachineSet)
    ensures Values([m]) == [m.Value()]
  {
  }

  lemma Unscaled(s: Rollout, d: Deployment, plan: Plan, accepts: nat)
    requires Planned(s, d, plan) && Targets(plan, d) == [] && !plan.Shares?
    ensures ScalePass(s, d, plan, accepts, s, true)
  {
    hide Planned;
  }

  lemma OneWrite(m: MS, d: Deployment, accepts: nat)
    requires m.spec != d.replicas
    ensures var p := ScaleTo(m, d.replicas, GoalOf(d), accepts);
      Scaled(Single(m), d, accepts) == Resizing([p.ms], p.left, p.ok)
  {
    var sets, sizes, g := [m], [d.replicas], GoalOf(d);
    hide GoalOf, ScaleTo;
    assert Targets(Single(m), d) == sets && Sizes(Single(m), d) == sizes;
    var p := ScaleTo(m, d.replicas, g, accepts);
    assert sets[1..] == [] && sizes[1..] == [] && Resize([], [], g, p.left) == Resizing([], p.left, true);
    assert Resize(sets, sizes, g, accepts) ==
      if p.ok then Resizing([p.ms] + [], p.left, true) else Resizing(sets, p.left, false);
  }

  /** Emptying the old sets beside a saturated new one, newest first. */
  method EmptyOlds(api: ApiServer, newMS: MachineSet?, oldMSs: seq<MachineSet>, olds: seq<MachineSet>, d: Deployment)
    returns (ok: bool, ghost plan: Plan)
    requires DistinctNames(AllObjects(newMS, oldMSs)) && multiset(olds) == multiset(oldMSs) && DistinctNames(olds)
    requires Sorted(NewestFirst, Values(olds)) && 2 <= |AllSets(RolloutOf(newMS, oldMSs))|
    requires Saturated(RolloutOf(newMS, oldMSs), d)
    modifies api, oldMSs
    ensures ScalePass(old(RolloutOf(newMS, oldMSs)), d, plan, old(api.accepts), RolloutOf(newMS, oldMSs), ok)
  {
    var order := FilterActive(olds);
    plan := Emptying(Values(order));
    EmptyingPlanned(newMS, oldMSs, olds, order, d);
    ActiveOlds(newMS, oldMSs, olds, order);
    hide *;
    ok := EmptyListed(api, newMS, oldMSs, order, d);
  }

  lemma ActiveOlds(newMS: MachineSet?, oldMSs: seq<MachineSet>, olds: seq<MachineSet>, order: seq<MachineSet>)
    requires multiset(olds) == multiset(oldMSs) && forall i | 0 <= i < |order| :: order[i] in olds
    ensures forall i | 0 <= i < |order| :: order[i] in oldMSs && order[i] in AllObjects(newMS, oldMSs)
  {
    SameElements(olds, oldMSs);
  }

  method EmptyListed(api: ApiServer, newMS: MachineSet?, oldMSs: seq<MachineSet>, order: seq<MachineSet>, d: Deployment)
    returns (ok: bool)
    requires DistinctNames(AllObjects(newMS, oldMSs)) && DistinctNames(order)
    requires forall i | 0 <= i < |order| :: order[i] in AllObjects(newMS, oldMSs)
    requires Planned(RolloutOf(newMS, oldMSs), d, Emptying(Values(order)))
    modifies api, order
    ensures ScalePass(old(RolloutOf(newMS, oldMSs)), d, Emptying(old(Values(order))), old(api.accepts),
                      RolloutOf(newMS, oldMSs), ok)
  {
    hide GoalOf, Values, Resize, Planned, RolloutOf, AllOf, DistinctNames, Scaled, AllObjects, ScalePass;
    ghost var s, accepts, before := RolloutOf(newMS, oldMSs), api.accepts, Values(order);
    ghost var rest := SetAside(newMS, oldMSs, order);
    ghost var others := Values(rest);
    ok := EmptySets(api, order, d);
    assert Values(rest) == others;
    Joined(newMS, oldMSs, order, order, rest);
    EmptyingScaled(before, d, accepts);
    PassDone(s, d, Emptying(before), accepts, RolloutOf(newMS, oldMSs), ok, before, Values(order), others, api.accepts);
  }

  lemma EmptyingScaled(order: seq<MS>, d: Deployment, accepts: nat)
    ensures Scaled(Emptying(order), d, accepts) == Resize(order, seq(|order|, _ => 0), GoalOf(d), accepts)
  {
    hide Resize, GoalOf;
  }

  lemma EmptyingPlanned(newMS: MachineSet?, oldMSs: seq<MachineSet>, olds: seq<MachineSet>, order: seq<MachineSet>,
                        d: Deployment)
    requires multiset(olds) == multiset(oldMSs) && Sorted(NewestFirst, Values(olds))
    requires Values(order) == Active(Values(olds))
    requires 2 <= |AllSets(RolloutOf(newMS, oldMSs))| && Saturated(RolloutOf(newMS, oldMSs), d)
    ensures Planned(RolloutOf(newMS, oldMSs), d, Emptying(Values(order)))
  {
    hide Active, Values, Sorted, Saturated, AllSets, AllOf;
    ActiveSorted(Values(olds));
    ValuesPermuted(olds, oldMSs);
    ActivePermuted(Values(olds), Values(oldMSs));
  }

  lemma {:induction false} ActiveSorted(s: seq<MS>)
    requires Sorted(NewestFirst, s)
    ensures Sorted(NewestFirst, Active(s))
  {
    hide Less;
    if s != [] {
      assert Sorted(NewestFirst, s[1..]) by { assert forall i | 0 <= i < |s[1..]| :: s[1..][i] == s[i + 1]; }
      ActiveSorted(s[1..]);
      forall j | 0 <= j < |Active(s[1..])| ensures !Less(NewestFirst, Active(s[1..])[j], s[0]) {
        ActiveExact(s[1..], Active(s[1..])[j]);
        var k :| 0 <= k < |s[1..]| && s[1..][k] == Active(s[1..])[j];
        assert s[k + 1] == s[1..][k];
      }
    }
  }

  /** Sharing what there is to add or remove among all active sets. */
  method ScaleShares(api: ApiServer, newMS: MachineSet?, oldMSs: seq<MachineSet>, active: seq<MachineSet>,
                     d: Deployment)
    returns (ok: bool, ghost plan: Plan)
    requires DistinctNames(AllObjects(newMS, oldMSs)) && DistinctNames(active)
    requires forall i | 0 <= i < |active| :: active[i] in AllObjects(newMS, oldMSs)
    requires multiset(Values(active)) == multiset(AllSets(RolloutOf(newMS, oldMSs))) && AllDivisible(Values(active), d)
    requires d.strategy.RollingUpdate?
    requires 2 <= |AllSets(RolloutOf(newMS, oldMSs))| && !Saturated(RolloutOf(newMS, oldMSs), d)
    modifies api, active
    ensures ScalePass(old(RolloutOf(newMS, oldMSs)), d, plan, old(api.accepts), RolloutOf(newMS, oldMSs), ok)
  {
    hide Active, Saturated, GoalOf, Values, Resize, Less, FinalSizes, Divisible, ToAdd, DistinctNames, RolloutOf, AllOf;
    ghost var s, accepts := RolloutOf(newMS, oldMSs), api.accepts;
    hide AllObjects;
    ghost var rest := SetAside(newMS, oldMSs, active);
    ghost var others := Values(rest);
    var order;
    order, ok := ScaleProportionally(api, active, d);
    ghost var before := old(Values(order));
    plan := Shares(before);
    assert Values(rest) == others;
    Joined(newMS, oldMSs, active, order, rest);
    PassDone(s, d, plan, accepts, RolloutOf(newMS, oldMSs), ok, before, Values(order), others, api.accepts);
  }

  /** scale. The plan says which sets were to be resized; a pass that is cut short has resized some of them. */
  method Scale(api: ApiServer, newMS: MachineSet?, oldMSs: seq<MachineSet>, d: Deployment)
    returns (ok: bool, ghost plan: Plan)
    requires DistinctNames(AllObjects(newMS, oldMSs)) && AllDivisible(AllSets(RolloutOf(newMS, oldMSs)), d)
    modifies api, newMS, oldMSs
    ensures ScalePass(old(RolloutOf(newMS, oldMSs)), d, plan, old(api.accepts), RolloutOf(newMS, oldMSs), ok)
  {
    hide Active, Saturated, GoalOf, Values, Less, Divisible, OneActiveOrLatest, DistinctNames;
    ghost var s := RolloutOf(newMS, oldMSs);
    var found, olds, active := FindOneActiveOrLatest(newMS, oldMSs);
    SameElements(Values(active), AllSets(s));
    if found != null {
      plan := Single(found.Value());
      ok := ScaleOne(api, found, newMS, oldMSs, d);
      return;
    }
    AllValues(newMS, oldMSs);
    var saturated := IsSaturated(newMS, oldMSs, d);
    if saturated {
      ok, plan := EmptyOlds(api, newMS, oldMSs, olds, d);
      return;
    }
    if d.strategy.RollingUpdate? && |active| >= 2 {
      ListingDivisible(AllSets(s), Values(active), d);
      ok, plan := ScaleShares(api, newMS, oldMSs, active, d);
      return;
    }
    ok, plan := true, Nothing;
    Unscaled(s, d, plan, api.accepts);
  }
}
