/** The proportional branch of scale, on API objects (controllers/machinedeployment_sync.go). */
module Proportional {
  import opened Basics
  import opened Fleet
  import opened Objects
  import opened ProportionalSpec

  /** The first loop has estimated the first sets and goes on with the others. */
  ghost predicate Midway(sets: seq<MS>, d: Deployment, toAdd: int, done: seq<int>, added: int) {
    && AllDivisible(sets, d) && |done| <= |sets|
    && var rest := Estimate(sets[|done|..], d, toAdd, added);
       Estimate(sets, d, toAdd, 0) == Estimates(done + rest.sizes, rest.added)
  }

  lemma MidwayStart(sets: seq<MS>, d: Deployment, toAdd: int)
    requires AllDivisible(sets, d)
    ensures Midway(sets, d, toAdd, [], 0)
  {
    hide Estimate;
    assert sets[0..] == sets;
  }

  lemma MidwayStep(sets: seq<MS>, d: Deployment, toAdd: int, done: seq<int>, added: int)
    requires Midway(sets, d, toAdd, done, added) && |done| < |sets|
    ensures Divisible(sets[|done|], d)
    ensures var m := sets[|done|];
      var p := if toAdd != 0 then Proportion(m, d, toAdd, added) else 0;
      Midway(sets, d, toAdd, done + [m.spec + p], added + p)
  {
    hide Proportion, Divisible;
    var rest := sets[|done|..];
    assert rest[1..] == sets[|done| + 1..];
    assert Divisible(rest[0], d);
    var p := if toAdd != 0 then Proportion(rest[0], d, toAdd, added) else 0;
    var e := Estimate(rest[1..], d, toAdd, added + p);
    assert Estimate(rest, d, toAdd, added) == Estimates([rest[0].spec + p] + e.sizes, e.added);
    assert done + ([rest[0].spec + p] + e.sizes) == done + [rest[0].spec + p] + e.sizes;
  }

  lemma MidwayDone(sets: seq<MS>, d: Deployment, toAdd: int, done: seq<int>, added: int)
    requires Midway(sets, d, toAdd, done, added) && |done| == |sets|
    ensures AllDivisible(sets, d) && Estimate(sets, d, toAdd, 0) == Estimates(done, added)
  {
  }

  /** The first loop: sizes by name, and the replicas added. */
  method EstimateSizes(order: seq<MachineSet>, d: Deployment, toAdd: int)
    returns (nameToSize: map<string, int>, added: int)
    requires DistinctNames(order) && AllDivisible(Values(order), d)
    ensures var e := Estimate(Values(order), d, toAdd, 0);
      && added == e.added
      && forall i | 0 <= i < |order| :: order[i].name in nameToSize && nameToSize[order[i].name] == e.sizes[i]
  {
    hide Values, Proportion, Estimate, Divisible, Midway;
    ghost var sets := Values(order);
    ghost var done: seq<int> := [];
    nameToSize, added := map[], 0;
    MidwayStart(sets, d, toAdd);
    for i := 0 to |order|
      invariant |done| == i && Midway(sets, d, toAdd, done, added)
      invariant forall j | 0 <= j < i :: order[j].name in nameToSize && nameToSize[order[j].name] == done[j]
    {
      var ms := order[i];
      assert ms.Value() == sets[i];
      MidwayStep(sets, d, toAdd, done, added);
      var proportion := if toAdd != 0 then Proportion(ms.Value(), d, toAdd, added) else 0;
      nameToSize := nameToSize[ms.name := ms.replicas + proportion];
      added := added + proportion;
      done := done + [ms.replicas + proportion];
    }
    MidwayDone(sets, d, toAdd, done, added);
  }

  /** The second loop has written the first i sets and goes on with the others as they were. */
  ghost predicate Written(all: Resizing, s: seq<MachineSet>, i: nat, start: seq<MS>, sizes: seq<int>,
                          g: Goal, accepts: nat)
    requires i <= |s| == |start| == |sizes|
    reads s
  {
    && Values(s[i..]) == start[i..]
    && var rest := Resize(start[i..], sizes[i..], g, accepts);
       all == Resizing(Values(s[..i]) + rest.sets, rest.left, rest.ok)
  }

  lemma WrittenStart(s: seq<MachineSet>, sizes: seq<int>, g: Goal, accepts: nat)
    requires |s| == |sizes|
    ensures Written(Resize(Values(s), sizes, g, accepts), s, 0, Values(s), sizes, g, accepts)
  {
    hide Resize, Values;
    assert s[0..] == s && Values(s)[0..] == Values(s) && sizes[0..] == sizes;
  }

  lemma WrittenHere(all: Resizing, s: seq<MachineSet>, i: nat, start: seq<MS>, sizes: seq<int>, g: Goal, accepts: nat)
    requires i < |s| == |start| == |sizes| && Written(all, s, i, start, sizes, g, accepts)
    ensures s[i].Value() == start[i] && Values(s[i + 1..]) == start[i + 1..]
    ensures var p := ScaleTo(start[i], sizes[i], g, accepts);
      if p.ok then
        var rest := Resize(start[i + 1..], sizes[i + 1..], g, p.left);
        all == Resizing(Values(s[..i]) + [p.ms] + rest.sets, rest.left, rest.ok)
      else all == Resizing(Values(s[..i]) + [start[i]] + start[i + 1..], p.left, false)
  {
    hide ScaleTo;
    ValuesHead(s, i);
    ValuesSplit(s, i);
    hide Values;
    assert start[i..][1..] == start[i + 1..] && sizes[i..][1..] == sizes[i + 1..];
    var p := ScaleTo(start[i], sizes[i], g, accepts);
    if p.ok {
      var rest := Resize(start[i + 1..], sizes[i + 1..], g, p.left);
      assert Resize(start[i..], sizes[i..], g, accepts) == Resizing([p.ms] + rest.sets, rest.left, rest.ok);
      assert Values(s[..i]) + ([p.ms] + rest.sets) == Values(s[..i]) + [p.ms] + rest.sets;
    }
  }

  lemma WrittenNext(all: Resizing, s: seq<MachineSet>, i: nat, start: seq<MS>, sizes: seq<int>, g: Goal, accepts: nat)
    requires i <= |s| == |start| == |sizes| && Values(s[i..]) == start[i..]
    requires var rest := Resize(start[i..], sizes[i..], g, accepts);
       all == Resizing(Values(s[..i]) + rest.sets, rest.left, rest.ok)
    ensures Written(all, s, i, start, sizes, g, accepts)
  {
  }

  lemma WrittenAll(all: Resizing, s: seq<MachineSet>, start: seq<MS>, sizes: seq<int>, g: Goal, accepts: nat)
    requires |s| == |start| == |sizes| && Written(all, s, |s|, start, sizes, g, accepts)
    ensures all == Resizing(Values(s), accepts, true)
  {
    hide Values;
    assert s[..|s|] == s;
  }

  /** The second loop: write every set's size, stopping at the first refusal. */
  method UpdateSets(api: ApiServer, order: seq<MachineSet>, nameToSize: map<string, int>,
                     ghost sizes: seq<int>, d: Deployment)
    returns (ok: bool)
    requires DistinctNames(order) && |sizes| == |order|
    requires forall i | 0 <= i < |order| :: order[i].name in nameToSize && nameToSize[order[i].name] == sizes[i]
    modifies api, order
    ensures Resizing(Values(order), api.accepts, ok) == Resize(old(Values(order)), sizes, GoalOf(d), old(api.accepts))
  {
    hide Values, Resize, ScaleTo, GoalOf, Written;
    ghost var start, g := Values(order), GoalOf(d);
    ghost var all := Resize(start, sizes, g, api.accepts);
    WrittenStart(order, sizes, g, api.accepts);
    for i := 0 to |order|
      invariant Written(all, order, i, start, sizes, g, api.accepts)
    {
      WrittenHere(all, order, i, start, sizes, g, api.accepts);
      ghost var done := Values(order[..i]);
      ghost var p := ScaleTo(start[i], sizes[i], g, api.accepts);
      var scaled := ScaleMachineSet(api, order[i], nameToSize[order[i].name], d);
      assert Values(order[..i]) == done && Values(order[i + 1..]) == start[i + 1..];
      if !scaled {
        ValuesAround(order, i);
        return false;
      }
      ValuesTake(order, i);
      WrittenNext(all, order, i + 1, start, sizes, g, api.accepts);
    }
    WrittenAll(all, order, start, sizes, g, api.accepts);
    ok := true;
  }

  /** Adding or removing the leftover at the first, largest set. */
  method AbsorbLeftover(order: seq<MachineSet>, sizes: map<string, int>, leftover: int) returns (r: map<string, int>)
    requires order != [] && DistinctNames(order) && forall i | 0 <= i < |order| :: order[i].name in sizes
    ensures forall i | 0 <= i < |order| ::
      && order[i].name in r
      && r[order[i].name] == if i == 0 then Max(0, sizes[order[0].name] + leftover) else sizes[order[i].name]
  {
    var largest := order[0].name;
    r := sizes[largest := sizes[largest] + leftover];
    if r[largest] < 0 {
      r := r[largest := 0];
    }
  }

  /** The sizes to write, by name. */
  method ComputeSizes(order: seq<MachineSet>, d: Deployment, toAdd: int) returns (nameToSize: map<string, int>)
    requires DistinctNames(order) && AllDivisible(Values(order), d) && toAdd == ToAdd(Values(order), d)
    ensures forall i | 0 <= i < |order| ::
      order[i].name in nameToSize && nameToSize[order[i].name] == FinalSizes(Values(order), d)[i]
  {
    hide Values, Divisible, Estimate, AllowedSize;
    var added;
    nameToSize, added := EstimateSizes(order, d, toAdd);
    if |order| > 0 && toAdd != 0 {
      nameToSize := AbsorbLeftover(order, nameToSize, toAdd - added);
    }
  }

  /**
   The order in which sets are scaled: larger first, and among equals newer first when growing, older when
   shrinking.
   */
  method SortForScaling(active: seq<MachineSet>, d: Deployment, toAdd: int) returns (order: seq<MachineSet>)
    requires DistinctNames(active) && toAdd == ToAdd(Values(active), d)
    ensures multiset(order) == multiset(active) && DistinctNames(order)
    ensures forall i | 0 <= i < |order| :: order[i] in active
    ensures multiset(Values(order)) == multiset(Values(active)) && ToAdd(Values(order), d) == toAdd
    ensures (toAdd > 0 ==> Sorted(BySizeNewer, Values(order))) && (toAdd < 0 ==> Sorted(BySizeOlder, Values(order)))
  {
    hide Values, Less, AllowedSize;
    order := active;
    if toAdd > 0 {
      order := Sort(active, BySizeNewer);
    } else if toAdd < 0 {
      order := Sort(active, BySizeOlder);
    }
    Listing(active, order, d);
  }

  /** The proportional branch of scale, on the active sets; `order` is the order they were sorted in. */
  method ScaleProportionally(api: ApiServer, active: seq<MachineSet>, d: Deployment)
    returns (order: seq<MachineSet>, ok: bool)
    requires DistinctNames(active) && AllDivisible(Values(active), d)
    modifies api, active
    ensures multiset(order) == multiset(active) && forall i | 0 <= i < |order| :: order[i] in active
    ensures var before := old(Values(order)); var toAdd := ToAdd(before, d);
      && AllDivisible(before, d)
      && multiset(before) == multiset(old(Values(active)))
      && (toAdd > 0 ==> Sorted(BySizeNewer, before)) && (toAdd < 0 ==> Sorted(BySizeOlder, before))
      && Resizing(Values(order), api.accepts, ok) == Resize(before, FinalSizes(before, d), GoalOf(d), old(api.accepts))
  {
    hide Values, Less, Divisible, Resize, MaxSurge, GoalOf, FinalSizes;
    var total := Accumulate(active, SpecOf);
    var allowed := if d.replicas > 0 then d.replicas + MaxSurge(d) else 0;
    var toAdd := allowed - total;
    order := SortForScaling(active, d, toAdd);
    ListingDivisible(Values(active), Values(order), d);
    var nameToSize := ComputeSizes(order, d, toAdd);
    ok := UpdateSets(api, order, nameToSize, FinalSizes(Values(order), d), d);
  }

  /** Another listing of the same sets has the same total. */
  lemma Listing(s: seq<MachineSet>, t: seq<MachineSet>, d: Deployment)
    requires multiset(s) == multiset(t)
    ensures multiset(Values(t)) == multiset(Values(s)) && ToAdd(Values(t), d) == ToAdd(Values(s), d)
    ensures forall i | 0 <= i < |t| :: t[i] in s
  {
    hide Values, AllowedSize;
    SameElements(s, t);
    ValuesPermuted(s, t);
    SumPermuted(Values(s), Values(t), SpecOf);
  }

  /** And is as fit to be scaled. */
  lemma ListingDivisible(s: seq<MS>, t: seq<MS>, d: Deployment)
    requires multiset(s) == multiset(t) && AllDivisible(s, d)
    ensures AllDivisible(t, d)
  {
    hide Divisible;
    SameElements(s, t);
    forall i | 0 <= i < |t| ensures Divisible(t[i], d) {
      assert t[i] in s;
    }
  }
}
