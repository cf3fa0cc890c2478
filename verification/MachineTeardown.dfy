/** Deleting a Machine: hooks, drain, infrastructure, bootstrap, node, finalizer (controllers/machine_controller.go). */
module MachineTeardown {
  import opened Basics

  // ---------------------------------------------------------------- may the node be deleted?

  /** The control plane object of the cluster, as a pass finds it. */
  datatype ControlPlane = NoReference | Missing | Unreadable | Deleting | ExternallyManaged | SelfManaged

  datatype NodeVerdict = Allowed | NotAllowed | CheckFailed

  /**
   What isDeleteNodeAllowed looks at; `members` is the number of active control plane machines, if they can
   be listed.
   */
  datatype NodeFacts = NodeFacts(
    clusterDeleting: bool, hasNodeRef: bool, controlPlane: ControlPlane, members: Option<nat>)

  /** isDeleteNodeAllowed. */
  function IsDeleteNodeAllowed(f: NodeFacts): NodeVerdict {
    if f.clusterDeleting || !f.hasNodeRef then NotAllowed
    else match f.controlPlane
      case Unreadable => CheckFailed
      case Deleting => NotAllowed
      case ExternallyManaged => Allowed
      case _ => if f.members.None? then CheckFailed else if f.members.value == 0 then NotAllowed else Allowed
  }

  /** The cluster and its control plane stay, and the control plane is managed elsewhere or has a member left. */
  predicate ClusterStays(f: NodeFacts) {
    && !f.clusterDeleting && f.hasNodeRef && !f.controlPlane.Deleting? && !f.controlPlane.Unreadable?
    && (f.controlPlane.ExternallyManaged? || (f.members.Some? && 0 < f.members.value))
  }

  /** Something that has to be read to decide about the node could not be read. */
  predicate Undecided(f: NodeFacts) {
    && !f.clusterDeleting && f.hasNodeRef
    && (f.controlPlane.Unreadable?
        || (f.members.None? && !f.controlPlane.Deleting? && !f.controlPlane.ExternallyManaged?))
  }

  /** A node is touched only while its cluster and control plane stay, and never once no control plane is left. */
  lemma NodeDeletionGuard(f: NodeFacts)
    ensures IsDeleteNodeAllowed(f).Allowed? <==> ClusterStays(f)
    ensures IsDeleteNodeAllowed(f).CheckFailed? <==> Undecided(f)
  {
  }

  // ---------------------------------------------------------------- one pass

  /** What exists, and which hooks are set, when a pass runs. A missing bootstrap reference counts as gone. */
  datatype World = World(infra: bool, bootstrap: bool, preDrainHook: bool, preTerminateHook: bool, finalizer: bool)

  datatype Drain = Drained | DrainRetry | DrainFailed
  datatype Deletion = GetFailed | DeleteFailed | Requested

  /** The answers a pass gets from outside. */
  datatype Inputs = Inputs(
    facts: NodeFacts, drainExempt: bool, drainPatch: bool, drain: Drain, deletePatch: bool,
    infra: Deletion, bootstrap: Deletion, finalPatch: bool)

  datatype Event = DrainNode | DeleteInfra | DeleteBootstrap | DeleteNode | RemoveFinalizer

  /** Past the hooks and the drain, with the machine patched: what reconcileDelete does before any deletion. */
  predicate Cleared(w: World, i: Inputs) {
    !IsDeleteNodeAllowed(i.facts).CheckFailed? && Prepared(w, i) && !w.preTerminateHook && i.deletePatch
  }

  /** The node need not be drained, or has been. */
  predicate Prepared(w: World, i: Inputs) {
    IsDeleteNodeAllowed(i.facts).Allowed? ==> !w.preDrainHook && (i.drainExempt || (i.drainPatch && i.drain.Drained?))
  }

  function Drains(w: World, i: Inputs): seq<Event> {
    if IsDeleteNodeAllowed(i.facts).Allowed? && !w.preDrainHook && !i.drainExempt && i.drainPatch
    then [DrainNode] else []
  }

  /** The requests a pass makes, in order. */
  function Requests(w: World, i: Inputs): seq<Event> {
    Drains(w, i) + if Cleared(w, i) then Deletions(w, i) else []
  }

  /** One deletion at a time: each waits for the object before it to be seen gone. */
  function Deletions(w: World, i: Inputs): seq<Event> {
    if i.infra.GetFailed? then []
    else if w.infra then [DeleteInfra]
    else if i.bootstrap.GetFailed? then []
    else if w.bootstrap then [DeleteBootstrap]
    else
      (if IsDeleteNodeAllowed(i.facts).Allowed? then [DeleteNode] else [])
      + (if i.finalPatch then [RemoveFinalizer] else [])
  }

  function AfterPass(w: World, i: Inputs): World {
    w.(finalizer := w.finalizer && RemoveFinalizer !in Requests(w, i))
  }

  // ---------------------------------------------------------------- the controller

  datatype Condition = Unset | IsTrue | IsFalse

  /** The condition of the pre-drain hook after a pass, where the node may be touched at all. */
  function HookMark(before: Condition, hook: bool, i: Inputs): Condition {
    if !IsDeleteNodeAllowed(i.facts).Allowed? then before else if hook then IsFalse else IsTrue
  }

  /** The draining condition after a pass: set once a drain is tried, and true only once one succeeded. */
  function DrainMark(before: Condition, hook: bool, i: Inputs): Condition {
    if !IsDeleteNodeAllowed(i.facts).Allowed? || hook || i.drainExempt then before
    else if i.drainPatch && i.drain.Drained? then IsTrue
    else if before.Unset? || (i.drainPatch && i.drain.DrainFailed?) then IsFalse
    else before
  }

  /** The three conditions a pass sets. */
  datatype Conditions = Conditions(preDrain: Condition, draining: Condition, preTerminate: Condition)

  /** The conditions as a pass holds them at its end. */
  function HeldAfter(held: Conditions, w: World, i: Inputs): Conditions {
    if IsDeleteNodeAllowed(i.facts).CheckFailed? then held
    else Conditions(
      HookMark(held.preDrain, w.preDrainHook, i), DrainMark(held.draining, w.preDrainHook, i),
      if !Prepared(w, i) then held.preTerminate else if w.preTerminateHook then IsFalse else IsTrue)
  }

  /** What is stored before the deferred patch: as of the patch before the deletions, or of the one before the drain. */
  function StoredEarly(held: Conditions, stored: Conditions, w: World, i: Inputs): Conditions {
    if Cleared(w, i) then HeldAfter(held, w, i)
    else if Drains(w, i) != [] then
      Conditions(IsTrue, if held.draining.Unset? then IsFalse else held.draining, held.preTerminate)
    else stored
  }

  class Machine {
    var preDrainHook: bool
    var preTerminateHook: bool
    var finalizer: bool
    var held: Conditions
    var stored: Conditions

    constructor (preDrainHook: bool, preTerminateHook: bool)
      ensures finalizer && held == stored == Conditions(Unset, Unset, Unset)
    {
      this.preDrainHook, this.preTerminateHook, finalizer := preDrainHook, preTerminateHook, true;
      held, stored := Conditions(Unset, Unset, Unset), Conditions(Unset, Unset, Unset);
    }

    ghost function View(infra: bool, bootstrap: bool): World
      reads this
    {
      World(infra, bootstrap, preDrainHook, preTerminateHook, finalizer)
    }

    /**
     reconcileDeleteExternal: request deletion of an object that exists; gone means there is nothing left to
     wait for.
     */
    static method ReconcileDeleteExternal(present: bool, answer: Deletion, kind: Event)
      returns (requests: seq<Event>, gone: bool)
      ensures requests == if present && !answer.GetFailed? then [kind] else []
      ensures gone <==> !present && !answer.GetFailed?
    {
      if answer.GetFailed? {
        return [], false;
      }
      requests := if present then [kind] else [];
      gone := !present;
    }

    /** The hook and drain part of reconcileDelete. */
    method PrepareNode(i: Inputs) returns (requests: seq<Event>, proceed: bool)
      modifies this`held, this`stored
      ensures requests == Drains(View(false, false), i)
      ensures proceed <==> Prepared(View(false, false), i)
      ensures held == Conditions(HookMark(old(held.preDrain), preDrainHook, i),
                                 DrainMark(old(held.draining), preDrainHook, i), old(held.preTerminate))
      ensures stored == if requests == [] then old(stored)
        else Conditions(IsTrue, if old(held.draining.Unset?) then IsFalse else old(held.draining),
                        old(held.preTerminate))
    {
      requests := [];
      if IsDeleteNodeAllowed(i.facts).Allowed? {
        if preDrainHook {
          held := held.(preDrain := IsFalse);
          return [], false;
        }
        held := held.(preDrain := IsTrue);
        if !i.drainExempt {
          if held.draining == Unset {
            held := held.(draining := IsFalse);
          }
          if !i.drainPatch {
            return [], false;
          }
          stored := held;
          requests := [DrainNode];
          if !i.drain.Drained? {
            if i.drain.DrainFailed? {
              held := held.(draining := IsFalse);
            }
            return requests, false;
          }
          held := held.(draining := IsTrue);
        }
      }
      proceed := true;
    }

    /** The body of reconcileDelete. */
    method DeletePass(infra: bool, bootstrap: bool, i: Inputs) returns (requests: seq<Event>)
      modifies this
      ensures requests == Requests(old(View(infra, bootstrap)), i)
      ensures View(infra, bootstrap) == AfterPass(old(View(infra, bootstrap)), i)
      ensures held == HeldAfter(old(held), old(View(infra, bootstrap)), i)
      ensures stored == StoredEarly(old(held), old(stored), old(View(infra, bootstrap)), i)
    {
      hide Deletions, IsDeleteNodeAllowed, HookMark, DrainMark;
      if IsDeleteNodeAllowed(i.facts).CheckFailed? {
        return [];
      }
      var proceed;
      requests, proceed := PrepareNode(i);
      if !proceed {
        return;
      }
      if preTerminateHook {
        held := held.(preTerminate := IsFalse);
        return;
      }
      held := held.(preTerminate := IsTrue);
      if !i.deletePatch {
        return;
      }
      stored := held;
      var more := DeleteObjects(infra, bootstrap, i);
      requests := requests + more;
    }

    /** reconcileDelete, with the deferred patch that stores the conditions and the removal of the finalizer. */
    method ReconcileDelete(infra: bool, bootstrap: bool, i: Inputs) returns (requests: seq<Event>)
      modifies this
      ensures requests == Requests(old(View(infra, bootstrap)), i)
      ensures View(infra, bootstrap) == AfterPass(old(View(infra, bootstrap)), i)
      ensures held == HeldAfter(old(held), old(View(infra, bootstrap)), i)
      ensures stored == if i.finalPatch then held
        else StoredEarly(old(held), old(stored), old(View(infra, bootstrap)), i)
    {
      hide Requests, AfterPass, HeldAfter, StoredEarly;
      requests := DeletePass(infra, bootstrap, i);
      if i.finalPatch {
        stored := held;
      }
    }

    /** The deletions at the end of reconcileDelete, and the stored removal of the finalizer. */
    method DeleteObjects(infra: bool, bootstrap: bool, i: Inputs) returns (requests: seq<Event>)
      modifies this`finalizer
      ensures requests == Deletions(old(View(infra, bootstrap)), i)
      ensures finalizer == (old(finalizer) && RemoveFinalizer !in requests)
    {
      var gone;
      requests, gone := ReconcileDeleteExternal(infra, i.infra, DeleteInfra);
      if !gone {
        return;
      }
      requests, gone := ReconcileDeleteExternal(bootstrap, i.bootstrap, DeleteBootstrap);
      if !gone {
        return;
      }
      if IsDeleteNodeAllowed(i.facts).Allowed? {
        requests := [DeleteNode];
      }
      if i.finalPatch {
        finalizer := false;
        requests := requests + [RemoveFinalizer];
      }
    }
  }

  // ---------------------------------------------------------------- what one pass may ask for

  /**
   Deletions may start: it is known whether the node may go; neither hook is set, as far as it matters; where the
   node may go it was drained or is exempt from that; and the machine could be patched.
   */
  predicate MayDelete(w: World, i: Inputs) {
    && !Undecided(i.facts) && !w.preTerminateHook && i.deletePatch
    && (ClusterStays(i.facts) ==> !w.preDrainHook && (i.drainExempt || (i.drainPatch && i.drain.Drained?)))
  }

  /** The infrastructure was looked for and is not there. */
  predicate InfraGone(w: World, i: Inputs) { !w.infra && !i.infra.GetFailed? }

  predicate BootstrapGone(w: World, i: Inputs) { !w.bootstrap && !i.bootstrap.GetFailed? }

  /** When each request is due, in terms of what a pass observes. */
  predicate Due(e: Event, w: World, i: Inputs) {
    match e
    case DrainNode => ClusterStays(i.facts) && !w.preDrainHook && !i.drainExempt && i.drainPatch
    case DeleteInfra => MayDelete(w, i) && w.infra && !i.infra.GetFailed?
    case DeleteBootstrap => MayDelete(w, i) && InfraGone(w, i) && w.bootstrap && !i.bootstrap.GetFailed?
    case DeleteNode => MayDelete(w, i) && InfraGone(w, i) && BootstrapGone(w, i) && ClusterStays(i.facts)
    case RemoveFinalizer => MayDelete(w, i) && InfraGone(w, i) && BootstrapGone(w, i) && i.finalPatch
  }

  lemma DeletionsExactly(w: World, i: Inputs, e: Event)
    ensures multiset(Deletions(w, i))[e] <= 1
    ensures e in Deletions(w, i) <==>
      match e
      case DrainNode => false
      case DeleteInfra => w.infra && !i.infra.GetFailed?
      case DeleteBootstrap => InfraGone(w, i) && w.bootstrap && !i.bootstrap.GetFailed?
      case DeleteNode => InfraGone(w, i) && BootstrapGone(w, i) && IsDeleteNodeAllowed(i.facts).Allowed?
      case RemoveFinalizer => InfraGone(w, i) && BootstrapGone(w, i) && i.finalPatch
  {
    hide IsDeleteNodeAllowed;
  }

  /** A pass makes exactly the requests that are due, and none of them twice. */
  lemma RequestsExactly(w: World, i: Inputs, e: Event)
    ensures e in Requests(w, i) <==> Due(e, w, i)
    ensures multiset(Requests(w, i))[e] <= 1
  {
    NodeDeletionGuard(i.facts);
    DeletionsExactly(w, i, e);
    hide IsDeleteNodeAllowed, ClusterStays, Undecided, Deletions;
    var more := if Cleared(w, i) then Deletions(w, i) else [];
    assert Requests(w, i) == Drains(w, i) + more;
    assert multiset(Requests(w, i)) == multiset(Drains(w, i)) + multiset(more);
  }

  /**
   Nothing but a drain is requested before the API server has stored that the hooks are clear and, where the node
   had to be drained, that it was. A hook that holds a pass up is marked, and nothing is requested.
   */
  lemma StoredBeforeDeletion(held: Conditions, stored: Conditions, w: World, i: Inputs)
    ensures var early, after := StoredEarly(held, stored, w, i), HeldAfter(held, w, i);
      && ((exists e | e in Requests(w, i) :: !e.DrainNode?) ==>
            && early.preTerminate == IsTrue
            && (ClusterStays(i.facts) ==> early.preDrain == IsTrue && (i.drainExempt || early.draining == IsTrue)))
      && (DrainNode in Requests(w, i) ==> early.preDrain == IsTrue && early.draining != Unset)
      && (ClusterStays(i.facts) && w.preDrainHook ==> after.preDrain == IsFalse && Requests(w, i) == [])
      && (!ClusterStays(i.facts) && !Undecided(i.facts) && w.preTerminateHook ==>
            after.preTerminate == IsFalse && Requests(w, i) == [])
      && (after.preTerminate == IsTrue && held.preTerminate != IsTrue ==> !w.preTerminateHook)
      && (after.draining == IsTrue && held.draining != IsTrue ==> DrainNode in Requests(w, i) && i.drain.Drained?)
      && (DrainNode in Requests(w, i) ==>
            && (i.drain.Drained? ==> after.draining == IsTrue) && (i.drain.DrainFailed? ==> after.draining == IsFalse)
            && (i.drain.DrainRetry? ==> after.draining == early.draining))
      && (Undecided(i.facts) ==> after == held && early == stored)
  {
    NodeDeletionGuard(i.facts);
    RequestsExactly(w, i, DrainNode);
    if e :| e in Requests(w, i) && !e.DrainNode? { RequestsExactly(w, i, e); }
    hide IsDeleteNodeAllowed, ClusterStays, Undecided, Deletions;
  }

  // ---------------------------------------------------------------- runs

  /** A request together with the pass that made it. */
  datatype Entry = Entry(event: Event, world: World, inputs: Inputs)

  datatype Step = Pass(inputs: Inputs) | Outside(next: World)

  /** Others may set and clear hooks and remove objects; nothing is created again and the finalizer is left alone. */
  predicate OutsideMay(w: World, next: World) {
    && (next.infra ==> w.infra) && (next.bootstrap ==> w.bootstrap) && next.finalizer == w.finalizer
  }

  /** Without its finalizer the machine is gone, and no further pass runs. */
  predicate Steps(w: World, s: Step, next: World) {
    match s
    case Pass(i) => w.finalizer && next == AfterPass(w, i)
    case Outside(n) => next == n && OutsideMay(w, n)
  }

  function Logged(w: World, s: Step): seq<Entry> {
    match s
    case Pass(i) => seq(|Requests(w, i)|, k requires 0 <= k < |Requests(w, i)| => Entry(Requests(w, i)[k], w, i))
    case Outside(_) => []
  }

  predicate Run(worlds: seq<World>, steps: seq<Step>) {
    && |worlds| == |steps| + 1
    && forall k | 0 <= k < |steps| :: Steps(worlds[k], steps[k], worlds[k + 1])
  }

  /** All requests of a run, in order. */
  function Log(worlds: seq<World>, steps: seq<Step>): seq<Entry>
    requires |worlds| == |steps| + 1
  {
    if steps == [] then []
    else Log(worlds[..|steps|], steps[..|steps| - 1]) + Logged(worlds[|steps| - 1], steps[|steps| - 1])
  }

  function Rank(e: Event): nat {
    match e
    case DrainNode => 0 case DeleteInfra => 0 case DeleteBootstrap => 1 case DeleteNode => 2 case RemoveFinalizer => 3
  }

  /** What had to be true in the pass that made a request. */
  predicate Justified(e: Entry) { e.world.finalizer && Due(e.event, e.world, e.inputs) }

  /** What a request of this rank implies about all later worlds. */
  predicate Behind(rank: nat, w: World) {
    (1 <= rank ==> !w.infra) && (2 <= rank ==> !w.bootstrap) && (3 <= rank ==> !w.finalizer)
  }

  /** A log whose requests are justified, in order, and have left the world behind them as they say. */
  predicate Ordered(log: seq<Entry>, w: World) {
    && (forall k | 0 <= k < |log| :: Justified(log[k]) && Behind(Rank(log[k].event), w))
    && (forall j, k | 0 <= j < k < |log| && !log[k].event.DrainNode? :: Rank(log[j].event) <= Rank(log[k].event))
  }

  /** No request of the log is ranked below what the world has already left behind. */
  predicate NotBelow(log: seq<Entry>, w: World) {
    forall k, r: nat | 0 <= k < |log| && !log[k].event.DrainNode? && r < 3 && Behind(r, w) :: r <= Rank(log[k].event)
  }

  lemma PassIsOrdered(w: World, i: Inputs)
    requires w.finalizer
    ensures Ordered(Logged(w, Pass(i)), AfterPass(w, i)) && NotBelow(Logged(w, Pass(i)), w)
  {
    forall e | e in Requests(w, i) ensures Due(e, w, i) { RequestsExactly(w, i, e); }
    hide Due, IsDeleteNodeAllowed, Cleared;
  }

  lemma OrderedAppend(before: seq<Entry>, added: seq<Entry>, w: World, t: World)
    requires Ordered(before, w) && Ordered(added, t) && NotBelow(added, w)
    requires (t.infra ==> w.infra) && (t.bootstrap ==> w.bootstrap) && (t.finalizer ==> w.finalizer)
    requires w.finalizer || added == []
    ensures Ordered(before + added, t)
  {
    hide Justified;
    var log := before + added;
    forall k | 0 <= k < |log| ensures Justified(log[k]) && Behind(Rank(log[k].event), t) {
      assert log[k] == if k < |before| then before[k] else added[k - |before|];
    }
    forall j, k | 0 <= j < k < |log| && !log[k].event.DrainNode? ensures Rank(log[j].event) <= Rank(log[k].event) {
      if j < |before| <= k {
        assert log[j] == before[j] && log[k] == added[k - |before|] && Behind(Rank(before[j].event), w);
      }
    }
  }

  /**
   Teardown order over every run, with hooks set and cleared at will and passes failing anywhere: every
   request is justified in its own pass, and apart from drains the requests come in order: infrastructure,
   then bootstrap data once that is gone, then the node once both are, and the finalizer last.
   */
  lemma {:induction false} TeardownOrder(worlds: seq<World>, steps: seq<Step>)
    requires Run(worlds, steps)
    ensures Ordered(Log(worlds, steps), worlds[|steps|])
  {
    if steps != [] {
      var n := |steps| - 1;
      var w, t := worlds[n], worlds[n + 1];
      assert Steps(w, steps[n], t) && worlds[..n + 1][n] == w;
      TeardownOrder(worlds[..n + 1], steps[..n]);
      if steps[n].Pass? { PassIsOrdered(w, steps[n].inputs); }
      OrderedAppend(Log(worlds[..n + 1], steps[..n]), Logged(w, steps[n]), w, t);
    }
  }
}
