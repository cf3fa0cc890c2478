/** Choosing which machines of a set to delete (controllers/machineset_delete_policy.go). */
module DeletePolicy {
  import opened Basics

  /** The fields of a Machine that deletion priorities read; `created` is absent for the zero time. */
  datatype Machine = Machine(
    id: int, deleting: bool, annotated: bool, hasNode: bool, failed: bool, created: Option<int>)

  datatype Policy = RandomPolicy | NewestPolicy | OldestPolicy | NoPolicy | UnsupportedPolicy

  const MUST_DELETE := 100.0
  const BETTER_DELETE := 50.0
  const COULD_DELETE := 20.0
  const MUST_NOT_DELETE := 0.0

  /** One reading of the clock, and the saturating curve that maps an age to a priority. */
  datatype Ageing = Ageing(now: int, curve: int -> real)

  /** What the exponential guarantees: it stays in range and never falls with age. It may reach its limit. */
  ghost predicate Saturating(a: Ageing) {
    && (forall t | 0 <= t :: MUST_NOT_DELETE <= a.curve(t) <= MUST_DELETE)
    && (forall t, u | 0 <= t <= u :: a.curve(t) <= a.curve(u))
  }

  predicate Flawed(m: Machine) { m.annotated || !m.hasNode || m.failed }

  function OldestPriority(m: Machine, a: Ageing): real {
    if m.deleting || Flawed(m) then MUST_DELETE
    else if m.created.None? || a.now < m.created.value then MUST_NOT_DELETE
    else a.curve(a.now - m.created.value)
  }

  function NewestPriority(m: Machine, a: Ageing): real {
    if m.deleting || Flawed(m) then MUST_DELETE else MUST_DELETE - OldestPriority(m, a)
  }

  function RandomPriority(m: Machine): real {
    if m.deleting then MUST_DELETE else if Flawed(m) then BETTER_DELETE else COULD_DELETE
  }

  /** getDeletePriorityFunc: no policy means Random, an unknown one is an error. */
  function PriorityFunc(p: Policy, a: Ageing): Option<Machine -> real> {
    match p
    case RandomPolicy => Some(RandomPriority)
    case NoPolicy => Some(RandomPriority)
    case NewestPolicy => Some((m: Machine) => NewestPriority(m, a))
    case OldestPolicy => Some((m: Machine) => OldestPriority(m, a))
    case UnsupportedPolicy => None
  }

  /** What every priority function promises: nothing outranks a machine that is being deleted. */
  ghost predicate DeletingFirst(f: Machine -> real) {
    forall m :: f(m) <= MUST_DELETE && (m.deleting ==> f(m) == MUST_DELETE)
  }

  /**
   Policies rank as documented: first the machines that are being deleted, annotated for deletion, without a node
   or failed, then by age in the right direction.
   */
  lemma PoliciesRank(p: Policy, a: Ageing, m: Machine, n: Machine)
    requires Saturating(a) && PriorityFunc(p, a).Some?
    ensures var f := PriorityFunc(p, a).value;
      var flawed, sound := m.annotated || !m.hasNode || m.failed, !m.annotated && m.hasNode && !m.failed;
      && DeletingFirst(f)
      && (m.deleting || flawed ==> f(m) >= f(n) || n.deleting)
      && (p.RandomPolicy? || p.NoPolicy? ==>
            && (m.deleting && !n.deleting ==> f(m) > f(n))
            && (flawed && !n.deleting && !n.annotated && n.hasNode && !n.failed ==> f(m) > f(n)))
      && (!m.deleting && !n.deleting && sound && !n.annotated && n.hasNode && !n.failed
          && m.created.Some? && n.created.Some? && m.created.value <= n.created.value <= a.now ==>
          (p.OldestPolicy? ==> f(n) <= f(m)) && (p.NewestPolicy? ==> f(m) <= f(n)))
      && (!m.deleting && sound && (m.created.None? || a.now < m.created.value) ==>
          (p.OldestPolicy? ==> f(m) <= f(n)) && (p.NewestPolicy? ==> f(n) <= f(m)))
  {
    var f := PriorityFunc(p, a).value;
    forall x ensures 0.0 <= f(x) <= MUST_DELETE && (x.deleting ==> f(x) == MUST_DELETE) {
      if x.created.Some? && x.created.value <= a.now {
        assert 0.0 <= a.curve(a.now - x.created.value) <= MUST_DELETE;
      }
    }
    if m.created.Some? && n.created.Some? && m.created.value <= n.created.value <= a.now {
      assert a.curve(a.now - n.created.value) <= a.curve(a.now - m.created.value);
    }
  }

  /** Only a policy that is not known has no priorities. */
  lemma PolicyKnown(p: Policy, a: Ageing)
    ensures PriorityFunc(p, a).None? <==> p.UnsupportedPolicy?
  {
  }

  // ---------------------------------------------------------------- sorting in place

  predicate HighToLow(s: seq<Machine>, f: Machine -> real) {
    forall i, j | 0 <= i < j < |s| :: f(s[j]) <= f(s[i])
  }

  method Swap(a: array<Machine>, i: nat, j: nat)
    requires i < a.Length && j < a.Length
    modifies a
    ensures a[..] == old(a[..])[i := old(a[j])][j := old(a[i])]
    ensures multiset(a[..]) == old(multiset(a[..]))
  {
    a[i], a[j] := a[j], a[i];
  }

  /** sort.Sort over sortableMachines: by Less and Swap only. */
  method SortMachines(a: array<Machine>, f: Machine -> real)
    modifies a
    ensures multiset(a[..]) == old(multiset(a[..]))
    ensures HighToLow(a[..], f)
  {
    var i := 0;
    while i < a.Length
      invariant 0 <= i <= a.Length
      invariant multiset(a[..]) == old(multiset(a[..]))
      invariant forall p, q | 0 <= p < i && p < q < a.Length :: f(a[q]) <= f(a[p])
    {
      var best := i;
      for j := i + 1 to a.Length
        invariant i <= best < a.Length
        invariant forall q | i <= q < j :: f(a[q]) <= f(a[best])
      {
        if f(a[best]) < f(a[j]) {
          best := j;
        }
      }
      Swap(a, i, best);
      i := i + 1;
    }
  }

  /** getMachinesToDeletePrioritized. */
  method GetMachinesToDelete(a: array<Machine>, diff: int, f: Machine -> real) returns (victims: seq<Machine>)
    modifies a
    ensures multiset(a[..]) == old(multiset(a[..]))
    ensures |victims| == Min(Max(diff, 0), a.Length) && victims == a[..|victims|]
    ensures forall i, j | 0 <= i < |victims| <= j < a.Length :: f(a[j]) <= f(a[i])
    ensures 0 < diff < a.Length ==> HighToLow(a[..], f)
  {
    if diff >= a.Length {
      return a[..];
    } else if diff <= 0 {
      return [];
    }
    SortMachines(a, f);
    victims := a[..diff];
  }
}
