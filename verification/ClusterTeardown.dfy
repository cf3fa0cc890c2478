/**
 Deleting a Cluster: its descendants, its control plane, its infrastructure, its finalizer
 (controllers/cluster_controller.go).
 */
module ClusterTeardown {

  /** A descendant: what it is, whether the cluster owns it, and whether it is being deleted already. */
  datatype Child = Child(name: string, controlPlane: bool, owned: bool, deleting: bool)

  /** What exists when a pass runs: the listed objects by kind, the two referenced objects, and the finalizer. */
  datatype World = World(
    pools: seq<Child>, deployments: seq<Child>, sets: seq<Child>, machines: seq<Child>,
    controlPlane: bool, infra: bool, finalizer: bool)

  /** Which references the cluster has; they do not change while it is deleted. */
  datatype References = References(controlPlane: bool, infra: bool)

  // ---------------------------------------------------------------- descendants

  function Keep(s: seq<Child>, p: Child -> bool): (r: seq<Child>)
    ensures forall c :: c in r <==> c in s && p(c)
  {
    if s == [] then [] else (if p(s[0]) then [s[0]] else []) + Keep(s[1..], p)
  }

  function IsControlPlane(c: Child): bool { c.controlPlane }
  function IsWorker(c: Child): bool { !c.controlPlane }
  function IsOwned(c: Child): bool { c.owned }
  function IsUndeleted(c: Child): bool { !c.deleting }

  /** Machines split into workers and control plane without loss or overlap. */
  lemma {:induction false} MachinesSplit(machines: seq<Child>)
    ensures multiset(Keep(machines, IsWorker)) + multiset(Keep(machines, IsControlPlane)) == multiset(machines)
    ensures forall c :: !(c in Keep(machines, IsWorker) && c in Keep(machines, IsControlPlane))
  {
    if machines != [] {
      MachinesSplit(machines[1..]);
      assert machines == [machines[0]] + machines[1..];
    }
  }

  datatype Descendants = Descendants(
    pools: seq<Child>, deployments: seq<Child>, sets: seq<Child>, workers: seq<Child>, controlPlaneMachines: seq<Child>)

  /** listDescendants: control plane machines count only where no control plane provider looks after them. */
  function ListDescendants(w: World, r: References, poolsEnabled: bool): Descendants {
    Descendants(
      if poolsEnabled then w.pools else [], w.deployments, w.sets, Keep(w.machines, IsWorker),
      if r.controlPlane then [] else Keep(w.machines, IsControlPlane))
  }

  function Length(d: Descendants): nat {
    |d.deployments| + |d.sets| + |d.controlPlaneMachines| + |d.workers| + |d.pools|
  }

  /** filterOwnedDescendants: pools, deployments, sets and workers first, control plane machines last. */
  function OwnedDescendants(d: Descendants): seq<Child> {
    Keep(d.pools, IsOwned) + Keep(d.deployments, IsOwned) + Keep(d.sets, IsOwned) + Keep(d.workers, IsOwned)
    + Keep(d.controlPlaneMachines, IsOwned)
  }

  method Append(owned: seq<Child>, list: seq<Child>) returns (r: seq<Child>)
    ensures r == owned + Keep(list, IsOwned)
  {
    r := owned;
    for i := 0 to |list|
      invariant r + Keep(list[i..], IsOwned) == owned + Keep(list, IsOwned)
    {
      assert list[i..][1..] == list[i + 1..];
      if list[i].owned {
        r := r + [list[i]];
      }
    }
  }

  method FilterOwnedDescendants(d: Descendants, poolsEnabled: bool) returns (owned: seq<Child>)
    requires !poolsEnabled ==> d.pools == []
    ensures owned == OwnedDescendants(d)
  {
    assert Keep([], IsOwned) == [];
    hide Keep;
    owned := [];
    if poolsEnabled {
      owned := Append(owned, d.pools);
    }
    assert owned == Keep(d.pools, IsOwned);
    owned := Append(owned, d.deployments);
    owned := Append(owned, d.sets);
    owned := Append(owned, d.workers);
    owned := Append(owned, d.controlPlaneMachines);
  }

  /** In every delete sequence control plane machines come last, and everything in it is owned and listed. */
  lemma ControlPlaneLast(w: World, r: References, poolsEnabled: bool, i: nat, j: nat)
    requires forall c | c in w.pools + w.deployments + w.sets :: !c.controlPlane
    requires var owned := OwnedDescendants(ListDescendants(w, r, poolsEnabled));
      i < j < |owned| && owned[i].controlPlane
    ensures OwnedDescendants(ListDescendants(w, r, poolsEnabled))[j].controlPlane && !r.controlPlane
  {
    hide Keep;
    var d := ListDescendants(w, r, poolsEnabled);
    var last := Keep(d.controlPlaneMachines, IsOwned);
    var front := Keep(d.pools, IsOwned) + Keep(d.deployments, IsOwned)
      + Keep(d.sets, IsOwned) + Keep(d.workers, IsOwned);
    assert OwnedDescendants(d) == front + last;
    forall k | 0 <= k < |front| ensures !front[k].controlPlane {
      assert front[k] in Keep(d.pools, IsOwned) || front[k] in Keep(d.deployments, IsOwned)
        || front[k] in Keep(d.sets, IsOwned) || front[k] in Keep(d.workers, IsOwned);
    }
    LastPart(front, last, i, j);
    assert last[j - |front|] in d.controlPlaneMachines;
  }

  lemma LastPart(front: seq<Child>, last: seq<Child>, i: nat, j: nat)
    requires i < j < |front + last| && (front + last)[i].controlPlane
    requires forall k | 0 <= k < |front| :: !front[k].controlPlane
    ensures |front| <= j && (front + last)[j] == last[j - |front|]
  {
  }

  // ---------------------------------------------------------------- one pass

  datatype Answer = GetFailed | DeleteFailed | Accepted

  /** The answers a pass gets from outside: listing, refused deletions, and the two referenced objects. */
  datatype Inputs = Inputs(
    listed: bool, poolsEnabled: bool, refused: set<string>, controlPlane: Answer, infra: Answer, finalPatch: bool)

  datatype Event = DeleteChild(child: Child) | DeleteControlPlane | DeleteInfra | RemoveFinalizer

  function Children(w: World, r: References, i: Inputs): seq<Child> {
    Keep(OwnedDescendants(ListDescendants(w, r, i.poolsEnabled)), IsUndeleted)
  }

  function ChildEvents(s: seq<Child>): (e: seq<Event>)
    ensures |e| == |s| && forall k | 0 <= k < |s| :: e[k] == DeleteChild(s[k])
  {
    if s == [] then [] else [DeleteChild(s[0])] + ChildEvents(s[1..])
  }

  predicate AnyRefused(s: seq<Child>, refused: set<string>) {
    exists k | 0 <= k < |s| :: s[k].name in refused
  }

  /** Whether a pass gets past the descendants. */
  predicate Childless(w: World, r: References, i: Inputs) {
    i.listed && !AnyRefused(Children(w, r, i), i.refused) && Length(ListDescendants(w, r, i.poolsEnabled)) == 0
  }

  /** Only once no descendant is left: control plane, then infrastructure, then the finalizer. */
  function OwnDeletions(w: World, r: References, i: Inputs): seq<Event> {
    if r.controlPlane && i.controlPlane.GetFailed? then []
    else if r.controlPlane && w.controlPlane then [DeleteControlPlane]
    else if r.infra && i.infra.GetFailed? then []
    else if r.infra && w.infra then [DeleteInfra]
    else if i.finalPatch then [RemoveFinalizer] else []
  }

  function Requests(w: World, r: References, i: Inputs): seq<Event> {
    if !i.listed then []
    else ChildEvents(Children(w, r, i)) + if Childless(w, r, i) then OwnDeletions(w, r, i) else []
  }

  function AfterPass(w: World, r: References, i: Inputs): World {
    w.(finalizer := w.finalizer && RemoveFinalizer !in Requests(w, r, i))
  }

  /** The loop over children: deletions already under way are skipped, and a refusal is remembered. */
  method DeleteChildren(children: seq<Child>, refused: set<string>) returns (requests: seq<Event>, failed: bool)
    ensures requests == ChildEvents(Keep(children, IsUndeleted))
    ensures failed == AnyRefused(Keep(children, IsUndeleted), refused)
  {
    hide Keep, AnyRefused;
    requests, failed := [], false;
    ghost var done: seq<Child> := [];
    NoneYet(children, refused);
    for k := 0 to |children|
      invariant requests == ChildEvents(done) && failed == AnyRefused(done, refused)
      invariant done + Keep(children[k..], IsUndeleted) == Keep(children, IsUndeleted)
    {
      var child := children[k];
      KeepNext(children, k);
      if !child.deleting {
        RefusedAppend(done, child, refused);
        assert done + ([child] + Keep(children[k + 1..], IsUndeleted))
          == done + [child] + Keep(children[k + 1..], IsUndeleted);
        done := done + [child];
        requests := requests + [DeleteChild(child)];
        if child.name in refused {
          failed := true;
        }
      } else {
        assert [] + Keep(children[k + 1..], IsUndeleted) == Keep(children[k + 1..], IsUndeleted);
      }
    }
    assert children[|children|..] == [] && done + [] == done;
    KeepNothing();
  }

  lemma NoneYet(children: seq<Child>, refused: set<string>)
    ensures !AnyRefused([], refused)
    ensures [] + Keep(children[0..], IsUndeleted) == Keep(children, IsUndeleted)
  {
    assert children[0..] == children;
  }

  lemma KeepNothing()
    ensures Keep([], IsUndeleted) == []
  {
  }

  lemma KeepNext(s: seq<Child>, k: nat)
    requires k < |s|
    ensures Keep(s[k..], IsUndeleted) == (if s[k].deleting then [] else [s[k]]) + Keep(s[k + 1..], IsUndeleted)
  {
    assert s[k..][1..] == s[k + 1..];
  }

  lemma RefusedAppend(s: seq<Child>, c: Child, refused: set<string>)
    ensures AnyRefused(s + [c], refused) <==> AnyRefused(s, refused) || c.name in refused
  {
    if k :| 0 <= k < |s| && s[k].name in refused { assert (s + [c])[k] == s[k]; }
    if c.name in refused { assert (s + [c])[|s|] == c; }
  }

  // ---------------------------------------------------------------- what one pass asks for

  /**
   No descendant is left that deletion waits for: no pool, as far as pools are known, no deployment, no set, and no
   machine but those a control plane provider looks after.
   */
  predicate NoneLeft(w: World, r: References, poolsEnabled: bool) {
    && (poolsEnabled ==> w.pools == []) && w.deployments == [] && w.sets == []
    && forall c | c in w.machines :: c.controlPlane && r.controlPlane
  }

  lemma NoneLeftExactly(w: World, r: References, poolsEnabled: bool)
    ensures Length(ListDescendants(w, r, poolsEnabled)) == 0 <==> NoneLeft(w, r, poolsEnabled)
  {
    var d := ListDescendants(w, r, poolsEnabled);
    hide Keep;
    if NoneLeft(w, r, poolsEnabled) {
      KeepNone(w.machines, IsWorker);
      if !r.controlPlane { KeepNone(w.machines, IsControlPlane); }
    }
    if Length(d) == 0 {
      assert d.pools == [] && d.deployments == [] && d.sets == [];
      forall c | c in w.machines ensures c.controlPlane && r.controlPlane {
        assert c !in d.workers && c !in d.controlPlaneMachines;
      }
    }
  }

  /** A child to be deleted: owned, not being deleted yet, and not left to a control plane provider. */
  predicate ToDelete(c: Child, w: World, r: References, poolsEnabled: bool) {
    && c.owned && !c.deleting
    && (|| (poolsEnabled && c in w.pools) || c in w.deployments || c in w.sets
        || (c in w.machines && !(c.controlPlane && r.controlPlane)))
  }

  lemma ChildrenExactly(w: World, r: References, i: Inputs, c: Child)
    ensures c in Children(w, r, i) <==> ToDelete(c, w, r, i.poolsEnabled)
  {
    hide Keep;
    var d := ListDescendants(w, r, i.poolsEnabled);
    assert c in OwnedDescendants(d) <==>
      c in Keep(d.pools, IsOwned) || c in Keep(d.deployments, IsOwned) || c in Keep(d.sets, IsOwned)
      || c in Keep(d.workers, IsOwned) || c in Keep(d.controlPlaneMachines, IsOwned);
  }

  /** The control plane object was looked for and is not there, or there never was one. */
  predicate ControlPlaneGone(w: World, r: References, i: Inputs) {
    r.controlPlane ==> !w.controlPlane && !i.controlPlane.GetFailed?
  }

  predicate InfraGone(w: World, r: References, i: Inputs) { r.infra ==> !w.infra && !i.infra.GetFailed? }

  /** When each request is due, in terms of what a pass observes. */
  predicate Due(e: Event, w: World, r: References, i: Inputs) {
    && i.listed
    && match e
       case DeleteChild(c) => ToDelete(c, w, r, i.poolsEnabled)
       case DeleteControlPlane =>
         NoneLeft(w, r, i.poolsEnabled) && r.controlPlane && w.controlPlane && !i.controlPlane.GetFailed?
       case DeleteInfra =>
         && NoneLeft(w, r, i.poolsEnabled) && ControlPlaneGone(w, r, i)
         && r.infra && w.infra && !i.infra.GetFailed?
       case RemoveFinalizer =>
         NoneLeft(w, r, i.poolsEnabled) && ControlPlaneGone(w, r, i) && InfraGone(w, r, i) && i.finalPatch
  }

  /** A pass makes exactly the requests that are due. */
  lemma RequestsExactly(w: World, r: References, i: Inputs, e: Event)
    ensures e in Requests(w, r, i) <==> Due(e, w, r, i)
  {
    NoneLeftExactly(w, r, i.poolsEnabled);
    var children, own := Children(w, r, i), if Childless(w, r, i) then OwnDeletions(w, r, i) else [];
    if Length(ListDescendants(w, r, i.poolsEnabled)) == 0 { NoDescendantsNoChildren(w, r, i); }
    if e.DeleteChild? {
      ChildrenExactly(w, r, i, e.child);
      if e.child in children {
        var k :| 0 <= k < |children| && children[k] == e.child;
        assert ChildEvents(children)[k] == e;
      }
    }
    hide Keep, Children, ListDescendants, NoneLeft, ToDelete;
    assert e in ChildEvents(children) <==> e.DeleteChild? && e.child in children;
    assert e.DeleteChild? ==> e !in own;
  }

  class Cluster {
    const references: References
    var finalizer: bool

    constructor (references: References)
      ensures finalizer && this.references == references
    {
      this.references, finalizer := references, true;
    }

    /** reconcileDelete, with the deferred patch that stores the result. */
    method ReconcileDelete(w: World, i: Inputs) returns (requests: seq<Event>)
      requires w.finalizer == finalizer
      modifies this
      ensures requests == Requests(w, references, i)
      ensures finalizer == AfterPass(w, references, i).finalizer
    {
      hide Keep;
      if !i.listed {
        return [];
      }
      var descendants := ListDescendants(w, references, i.poolsEnabled);
      var children := FilterOwnedDescendants(descendants, i.poolsEnabled);
      var failed;
      requests, failed := DeleteChildren(children, i.refused);
      if failed || Length(descendants) > 0 {
        return;
      }
      if references.controlPlane {
        if i.controlPlane.GetFailed? {
          return;
        }
        if w.controlPlane {
          requests := requests + [DeleteControlPlane];
          return;
        }
      }
      if references.infra {
        if i.infra.GetFailed? {
          return;
        }
        if w.infra {
          requests := requests + [DeleteInfra];
          return;
        }
      }
      if i.finalPatch {
        finalizer := false;
        requests := requests + [RemoveFinalizer];
      }
    }
  }

  // ---------------------------------------------------------------- runs

  datatype Step = Pass(inputs: Inputs) | Outside(next: World)

  predicate Fewer(s: seq<Child>, t: seq<Child>) {
    |t| <= |s| && forall c | c in t :: exists b | b in s :: b.name == c.name && b.controlPlane == c.controlPlane
  }

  /** Others remove objects and mark them as deleting; nothing is created again and the finalizer is left alone. */
  predicate OutsideMay(w: World, t: World) {
    && Fewer(w.pools, t.pools) && Fewer(w.deployments, t.deployments)
    && Fewer(w.sets, t.sets) && Fewer(w.machines, t.machines)
    && (t.controlPlane ==> w.controlPlane) && (t.infra ==> w.infra) && t.finalizer == w.finalizer
  }

  /** Without its finalizer the cluster is gone, and no further pass runs. The pool feature does not come and go. */
  predicate Steps(r: References, poolsEnabled: bool, w: World, s: Step, t: World) {
    match s
    case Pass(i) => w.finalizer && i.poolsEnabled == poolsEnabled && t == AfterPass(w, r, i)
    case Outside(next) => t == next && OutsideMay(w, t)
  }

  predicate Run(r: References, poolsEnabled: bool, worlds: seq<World>, steps: seq<Step>) {
    && |worlds| == |steps| + 1
    && forall k | 0 <= k < |steps| :: Steps(r, poolsEnabled, worlds[k], steps[k], worlds[k + 1])
  }

  function Logged(r: References, w: World, s: Step): seq<Event> {
    match s case Pass(i) => Requests(w, r, i) case Outside(_) => []
  }

  function Log(r: References, worlds: seq<World>, steps: seq<Step>): seq<Event>
    requires |worlds| == |steps| + 1
  {
    if steps == [] then []
    else Log(r, worlds[..|steps|], steps[..|steps| - 1]) + Logged(r, worlds[|steps| - 1], steps[|steps| - 1])
  }

  function Rank(e: Event): nat {
    match e
    case DeleteChild(_) => 0 case DeleteControlPlane => 1 case DeleteInfra => 2 case RemoveFinalizer => 3
  }

  /** What a request of this rank implies about all later worlds. */
  predicate Behind(rank: nat, r: References, poolsEnabled: bool, w: World) {
    && (1 <= rank ==> NoneLeft(w, r, poolsEnabled))
    && (2 <= rank ==> !(r.controlPlane && w.controlPlane))
    && (3 <= rank ==> !(r.infra && w.infra) && !w.finalizer)
  }

  predicate Ordered(log: seq<Event>, r: References, poolsEnabled: bool, w: World) {
    && (forall k | 0 <= k < |log| :: Behind(Rank(log[k]), r, poolsEnabled, w))
    && (forall j, k | 0 <= j < k < |log| :: Rank(log[j]) <= Rank(log[k]))
  }

  predicate NotBelow(log: seq<Event>, r: References, poolsEnabled: bool, w: World) {
    forall k, q: nat | 0 <= k < |log| && q < 3 && Behind(q, r, poolsEnabled, w) :: q <= Rank(log[k])
  }

  /** With no descendants there are no children to delete. */
  lemma NoDescendantsNoChildren(w: World, r: References, i: Inputs)
    requires Length(ListDescendants(w, r, i.poolsEnabled)) == 0
    ensures Children(w, r, i) == []
  {
    var d := ListDescendants(w, r, i.poolsEnabled);
    assert d.pools == [] && d.deployments == [] && d.sets == [] && d.workers == [] && d.controlPlaneMachines == [];
    assert OwnedDescendants(d) == [];
  }

  lemma OnlyChildren(log: seq<Event>, r: References, poolsEnabled: bool, w: World, t: World)
    requires forall k | 0 <= k < |log| :: log[k].DeleteChild?
    requires log != [] ==> !NoneLeft(w, r, poolsEnabled)
    ensures Ordered(log, r, poolsEnabled, t) && NotBelow(log, r, poolsEnabled, w)
  {
    hide NoneLeft;
  }

  lemma OnlyOwn(w: World, r: References, i: Inputs, t: World)
    requires w.finalizer && t == w.(finalizer := RemoveFinalizer !in OwnDeletions(w, r, i))
    requires NoneLeft(w, r, i.poolsEnabled) && NoneLeft(t, r, i.poolsEnabled)
    ensures Ordered(OwnDeletions(w, r, i), r, i.poolsEnabled, t)
    ensures NotBelow(OwnDeletions(w, r, i), r, i.poolsEnabled, w)
  {
    hide NoneLeft;
  }

  lemma PassIsOrdered(w: World, r: References, i: Inputs)
    requires w.finalizer
    ensures Ordered(Requests(w, r, i), r, i.poolsEnabled, AfterPass(w, r, i))
    ensures NotBelow(Requests(w, r, i), r, i.poolsEnabled, w)
  {
    hide Keep, Children, AnyRefused, ListDescendants, Ordered, NotBelow, OwnDeletions, Length, Childless;
    var t := AfterPass(w, r, i);
    assert NoneLeft(t, r, i.poolsEnabled) == NoneLeft(w, r, i.poolsEnabled);
    hide NoneLeft;
    if NoneLeft(w, r, i.poolsEnabled) { NoChildren(w, r, i); }
    if Childless(w, r, i) {
      ChildlessMeans(w, r, i);
      assert Requests(w, r, i) == OwnDeletions(w, r, i);
      OnlyOwn(w, r, i, t);
    } else {
      OnlyChildren(Requests(w, r, i), r, i.poolsEnabled, w, t);
    }
  }

  lemma NoChildren(w: World, r: References, i: Inputs)
    requires NoneLeft(w, r, i.poolsEnabled)
    ensures ChildEvents(Children(w, r, i)) == []
  {
    hide Keep, NoneLeft, ListDescendants, Children;
    NoneLeftExactly(w, r, i.poolsEnabled);
    NoDescendantsNoChildren(w, r, i);
  }

  lemma ChildlessMeans(w: World, r: References, i: Inputs)
    requires Childless(w, r, i)
    ensures i.listed && NoneLeft(w, r, i.poolsEnabled)
  {
    hide Keep, NoneLeft, ListDescendants, Children, AnyRefused;
    NoneLeftExactly(w, r, i.poolsEnabled);
  }

  lemma {:induction false} KeepNone(s: seq<Child>, p: Child -> bool)
    requires forall c | c in s :: !p(c)
    ensures Keep(s, p) == []
  {
    if s != [] {
      assert s[0] in s;
      KeepNone(s[1..], p);
    }
  }

  lemma OutsideKeeps(rank: nat, r: References, poolsEnabled: bool, w: World, t: World)
    requires Behind(rank, r, poolsEnabled, w) && OutsideMay(w, t)
    ensures Behind(rank, r, poolsEnabled, t)
  {
    if 1 <= rank {
      forall c | c in t.machines ensures c.controlPlane && r.controlPlane {
        var b :| b in w.machines && b.name == c.name && b.controlPlane == c.controlPlane;
      }
    }
  }

  lemma OrderedAppend(before: seq<Event>, added: seq<Event>, r: References, poolsEnabled: bool, w: World, t: World)
    requires Ordered(before, r, poolsEnabled, w) && Ordered(added, r, poolsEnabled, t)
    requires NotBelow(added, r, poolsEnabled, w)
    requires forall q: nat | Behind(q, r, poolsEnabled, w) :: Behind(q, r, poolsEnabled, t)
    requires w.finalizer || added == []
    ensures Ordered(before + added, r, poolsEnabled, t)
  {
    hide NoneLeft;
    var log := before + added;
    forall k | 0 <= k < |log| ensures Behind(Rank(log[k]), r, poolsEnabled, t) {
      assert log[k] == if k < |before| then before[k] else added[k - |before|];
    }
    forall j, k | 0 <= j < k < |log| ensures Rank(log[j]) <= Rank(log[k]) {
      if j < |before| <= k {
        assert log[j] == before[j] && log[k] == added[k - |before|] && Behind(Rank(before[j]), r, poolsEnabled, w);
      }
    }
  }

  /**
   Teardown order over every run in which nothing is created again: children first, the control plane only
   once no descendant is counted, the infrastructure only once the control plane object is gone, and the
   finalizer only when all of them are.
   */
  lemma {:induction false} TeardownOrder(r: References, poolsEnabled: bool, worlds: seq<World>, steps: seq<Step>)
    requires Run(r, poolsEnabled, worlds, steps)
    ensures Ordered(Log(r, worlds, steps), r, poolsEnabled, worlds[|steps|])
  {
    if steps != [] {
      var n := |steps| - 1;
      var w, t := worlds[n], worlds[n + 1];
      assert Steps(r, poolsEnabled, w, steps[n], t) && worlds[..n + 1][n] == w;
      TeardownOrder(r, poolsEnabled, worlds[..n + 1], steps[..n]);
      hide Keep, NoneLeft, Requests;
      match steps[n] {
        case Pass(i) =>
          PassIsOrdered(w, r, i);
          AfterPassKeeps(w, r, i, poolsEnabled);
        case Outside(_) =>
          forall q: nat | Behind(q, r, poolsEnabled, w) ensures Behind(q, r, poolsEnabled, t) {
            OutsideKeeps(q, r, poolsEnabled, w, t);
          }
      }
      OrderedAppend(Log(r, worlds[..n + 1], steps[..n]), Logged(r, w, steps[n]), r, poolsEnabled, w, t);
    }
  }

  lemma AfterPassKeeps(w: World, r: References, i: Inputs, poolsEnabled: bool)
    ensures forall q: nat | Behind(q, r, poolsEnabled, w) :: Behind(q, r, poolsEnabled, AfterPass(w, r, i))
  {
    assert NoneLeft(AfterPass(w, r, i), r, poolsEnabled) == NoneLeft(w, r, poolsEnabled);
  }
}
