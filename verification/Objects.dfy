/** MachineSets as the mutable API objects the controllers hold, and the in-place orders they sort them by. */
module Objects {
  import opened Fleet

  /** The API server, as far as a pass can tell: how many writes it accepts before refusing one. */
  class ApiServer {
    var accepts: nat

    constructor (accepts: nat)
      ensures this.accepts == accepts
    {
      this.accepts := accepts;
    }

    method Write() returns (ok: bool)
      modifies this
      ensures ok <==> 0 < old(accepts)
      ensures accepts == if ok then old(accepts) - 1 else 0
    {
      ok := 0 < accepts;
      accepts := if ok then accepts - 1 else 0;
    }
  }

  class MachineSet {
    const name: string
    const created: int
    var replicas: int
    var statusReplicas: int
    var available: int
    var annotations: Annotations
    var generation: int
    var observedGeneration: int
    var deleting: bool

    constructor (m: MS)
      ensures Value() == m && !deleting
    {
      generation, observedGeneration, deleting := 1, 0, false;
      name, created := m.name, m.created;
      replicas, statusReplicas, available, annotations := m.spec, m.status, m.avail, m.annotations;
    }

    function Value(): MS
      reads this
    {
      MS(name, created, replicas, statusReplicas, available, annotations)
    }
  }

  function Values(s: seq<MachineSet>): (r: seq<MS>)
    reads s
    ensures |r| == |s|
    ensures forall i {:trigger r[i]} | 0 <= i < |s| :: r[i] == s[i].Value()
  {
    if s == [] then [] else [s[0].Value()] + Values(s[1..])
  }

  /** Names are unique within a namespace, so equally named sets are the same set. */
  predicate DistinctNames(s: seq<MachineSet>) {
    forall i, j | 0 <= i < j < |s| :: s[i].name != s[j].name
  }

  lemma {:induction false} ValuesAppend(s: seq<MachineSet>, t: seq<MachineSet>)
    ensures Values(s + t) == Values(s) + Values(t)
  {
    if s == [] {
      assert s + t == t;
    } else {
      assert (s + t)[1..] == s[1..] + t;
      ValuesAppend(s[1..], t);
    }
  }

  /** Taking values commutes with splitting a list. */
  lemma ValuesSplit(s: seq<MachineSet>, k: nat)
    requires k <= |s|
    ensures Values(s) == Values(s[..k]) + Values(s[k..])
  {
    hide Values;
    ValuesAppend(s[..k], s[k..]);
    assert s == s[..k] + s[k..];
  }

  lemma ValuesHead(s: seq<MachineSet>, k: nat)
    requires k < |s|
    ensures Values(s[k..]) == [s[k].Value()] + Values(s[k + 1..])
  {
    assert s[k..][1..] == s[k + 1..];
  }

  lemma ValuesAround(s: seq<MachineSet>, i: nat)
    requires i < |s|
    ensures Values(s) == Values(s[..i]) + [s[i].Value()] + Values(s[i + 1..])
  {
    ValuesSplit(s, i);
    ValuesHead(s, i);
  }

  lemma ValuesTake(s: seq<MachineSet>, i: nat)
    requires i < |s|
    ensures Values(s[..i + 1]) == Values(s[..i]) + [s[i].Value()]
  {
    ValuesAppend(s[..i], [s[i]]);
    assert s[..i + 1] == s[..i] + [s[i]];
  }

  lemma ValuesWithout(s: seq<MachineSet>, k: nat)
    requires k < |s|
    ensures multiset(Values(s[..k] + s[k + 1..])) == multiset(Values(s)) - multiset{s[k].Value()}
  {
    ValuesSplit(s, k);
    ValuesHead(s, k);
    ValuesAppend(s[..k], s[k + 1..]);
  }

  lemma {:induction false} ValuesPermuted(s: seq<MachineSet>, t: seq<MachineSet>)
    requires multiset(s) == multiset(t)
    ensures multiset(Values(s)) == multiset(Values(t))
    decreases |s|
  {
    hide Values;
    if s == [] {
      assert t == [] by { assert |multiset(t)| == 0; }
      assert Values(s) == [] == Values(t);
    } else {
      var k := FindHead(s, t);
      var u, x := t[..k] + t[k + 1..], s[0].Value();
      assert multiset(Values(u)) == multiset(Values(t)) - multiset{x} by { ValuesWithout(t, k); }
      assert multiset(Values(s[1..])) == multiset(Values(s)) - multiset{x} by {
        ValuesWithout(s, 0);
        assert s[..0] + s[1..] == s[1..];
      }
      assert x == Values(s)[0] == Values(t)[k];
      ValuesPermuted(s[1..], u);
      Restore(multiset(Values(s)), multiset(Values(t)), x);
    }
  }

  lemma Restore<T>(a: multiset<T>, b: multiset<T>, x: T)
    requires x in a && x in b && a - multiset{x} == b - multiset{x}
    ensures a == b
  {
    assert a == a - multiset{x} + multiset{x};
    assert b == b - multiset{x} + multiset{x};
  }

  // ---------------------------------------------------------------- sorting

  /** The sort.Interface implementations: creation time and its reverse, and size with the newer or older set first. */
  datatype Order = ByCreation | NewestFirst | BySizeNewer | BySizeOlder

  /** Go's string order. */
  predicate LexLess(a: string, b: string) {
    b != [] && (a == [] || a[0] < b[0] || (a[0] == b[0] && LexLess(a[1..], b[1..])))
  }

  predicate CreatedBefore(a: int, aName: string, b: int, bName: string) {
    if a == b then LexLess(aName, bName) else a < b
  }

  predicate Less(order: Order, a: MS, b: MS) {
    match order
    case ByCreation => CreatedBefore(a.created, a.name, b.created, b.name)
    case NewestFirst => CreatedBefore(b.created, b.name, a.created, a.name)
    case BySizeNewer => if a.spec == b.spec then b.created < a.created else a.spec > b.spec
    case BySizeOlder => if a.spec == b.spec then a.created < b.created else a.spec > b.spec
  }

  lemma {:induction false} LexOrder(a: string, b: string, c: string)
    ensures !(LexLess(a, b) && LexLess(b, a))
    ensures LexLess(a, b) && LexLess(b, c) ==> LexLess(a, c)
    ensures LexLess(a, b) || LexLess(b, a) || a == b
  {
    if a != [] && b != [] {
      LexOrder(a[1..], b[1..], if c != [] then c[1..] else c);
      assert a == [a[0]] + a[1..] && b == [b[0]] + b[1..];
    }
  }

  lemma LessOrder(order: Order, a: MS, b: MS, c: MS)
    ensures !(Less(order, a, b) && Less(order, b, a))
    ensures Less(order, a, b) && Less(order, b, c) ==> Less(order, a, c)
    ensures (order.ByCreation? || order.NewestFirst?) && a.name != b.name ==> Less(order, a, b) || Less(order, b, a)
  {
    LexOrder(a.name, b.name, c.name);
    LexOrder(c.name, b.name, a.name);
  }

  /** Go's order on strings: a prefix comes first, and otherwise the first difference decides. */
  lemma {:induction false} LexExactly(a: string, b: string, k: nat)
    requires k <= |a| && k <= |b| && a[..k] == b[..k]
    requires k == |a| || k == |b| || a[k] != b[k]
    ensures LexLess(a, b) <==> k < |b| && (k == |a| || a[k] < b[k])
  {
    if k > 0 {
      assert a[0] == a[..k][0] == b[..k][0] == b[0];
      assert a[1..][..k - 1] == a[..k][1..] == b[..k][1..] == b[1..][..k - 1];
      LexExactly(a[1..], b[1..], k - 1);
    }
  }

  /** What sort.Sort guarantees, and all that the passes rely on. */
  predicate Sorted(order: Order, s: seq<MS>) {
    forall i, j | 0 <= i < j < |s| :: !Less(order, s[j], s[i])
  }

  lemma InsertKeepsSorted(order: Order, s: seq<MS>, x: MS, p: nat)
    requires p <= |s| && Sorted(order, s)
    requires forall i | 0 <= i < p :: !Less(order, x, s[i])
    requires p < |s| ==> Less(order, x, s[p])
    ensures Sorted(order, s[..p] + [x] + s[p..])
  {
    forall j | p <= j < |s| ensures !Less(order, s[j], x) {
      LessOrder(order, x, s[p], x);
      LessOrder(order, s[j], x, s[p]);
    }
  }

  /** Sorted by creation; the fields this order reads never change, so neither does being sorted. */
  predicate OldestFirst(s: seq<MachineSet>) {
    forall i, j | 0 <= i < j < |s| :: !CreatedBefore(s[j].created, s[j].name, s[i].created, s[i].name)
  }

  /** Earlier in such a listing means created earlier, or at the same time with a smaller name. */
  lemma OldestFirstTimes(s: seq<MachineSet>, i: nat, j: nat)
    requires OldestFirst(s) && DistinctNames(s) && i < j < |s|
    ensures s[i].created <= s[j].created
    ensures s[i].created == s[j].created ==> LexLess(s[i].name, s[j].name)
  {
    LexOrder(s[i].name, s[j].name, "");
    assert !CreatedBefore(s[j].created, s[j].name, s[i].created, s[i].name);
  }

  /** What each order lists first: the older, the newer, or the larger and then the newer or the older. */
  lemma SortedMeans(order: Order, s: seq<MS>, i: nat, j: nat)
    requires Sorted(order, s) && i < j < |s|
    ensures order.ByCreation? ==>
      s[i].created <= s[j].created && (s[i].created == s[j].created ==> !LexLess(s[j].name, s[i].name))
    ensures order.NewestFirst? ==>
      s[j].created <= s[i].created && (s[i].created == s[j].created ==> !LexLess(s[i].name, s[j].name))
    ensures order.BySizeNewer? ==>
      s[j].spec <= s[i].spec && (s[i].spec == s[j].spec ==> s[j].created <= s[i].created)
    ensures order.BySizeOlder? ==>
      s[j].spec <= s[i].spec && (s[i].spec == s[j].spec ==> s[i].created <= s[j].created)
  {
    assert !Less(order, s[j], s[i]);
  }

  lemma SortedHeads(s: seq<MachineSet>, t: seq<MachineSet>)
    requires s != [] && multiset(s) == multiset(t) && OldestFirst(s) && OldestFirst(t) && DistinctNames(s)
    ensures t != [] && s[0] == t[0]
  {
    var k := FindHead(s, t);
    assert t[0] in multiset(s);
    var i :| 0 <= i < |s| && s[i] == t[0];
    if i > 0 && k > 0 {
      LexOrder(s[0].name, s[i].name, "");
      assert false;
    }
  }

  /** A sorted listing of sets with distinct names is the only one, so sorting twice changes nothing. */
  lemma {:induction false} SortedUnique(s: seq<MachineSet>, t: seq<MachineSet>)
    requires multiset(s) == multiset(t) && OldestFirst(s) && OldestFirst(t) && DistinctNames(s)
    ensures s == t
    decreases |s|
  {
    if s == [] {
      assert t == [] by { assert |multiset(t)| == 0; }
    } else {
      SortedHeads(s, t);
      hide CreatedBefore;
      MultisetTail(s);
      MultisetTail(t);
      SortedUnique(s[1..], t[1..]);
      assert s == [s[0]] + s[1..] && t == [t[0]] + t[1..];
    }
  }

  method Insert(t: seq<MachineSet>, x: MachineSet, order: Order) returns (u: seq<MachineSet>)
    requires Sorted(order, Values(t))
    ensures multiset(u) == multiset(t) + multiset{x}
    ensures Sorted(order, Values(u))
    ensures DistinctNames(t) && (forall m | m in t :: m.name != x.name) ==> DistinctNames(u)
  {
    hide Values, Less;
    var p := 0;
    while p < |t| && !Less(order, x.Value(), t[p].Value())
      invariant 0 <= p <= |t|
      invariant forall j | 0 <= j < p :: !Less(order, x.Value(), t[j].Value())
    {
      p := p + 1;
    }
    u := t[..p] + [x] + t[p..];
    InsertKeepsSorted(order, Values(t), x.Value(), p);
    Inserted(t, x, p);
    InsertedValues(t, x, p);
    if DistinctNames(t) && forall m | m in t :: m.name != x.name { InsertedNames(t, x, p); }
  }

  lemma Inserted<T>(t: seq<T>, x: T, p: nat)
    requires p <= |t|
    ensures multiset(t[..p] + [x] + t[p..]) == multiset(t) + multiset{x}
  {
    assert t == t[..p] + t[p..];
  }

  lemma InsertedValues(t: seq<MachineSet>, x: MachineSet, p: nat)
    requires p <= |t|
    ensures Values(t[..p] + [x] + t[p..]) == Values(t)[..p] + [x.Value()] + Values(t)[p..]
  {
    ValuesSplit(t, p);
    ValuesAppend(t[..p] + [x], t[p..]);
    ValuesAppend(t[..p], [x]);
    assert Values([x]) == [x.Value()];
  }

  lemma InsertedNames(t: seq<MachineSet>, x: MachineSet, p: nat)
    requires p <= |t| && DistinctNames(t) && forall m | m in t :: m.name != x.name
    ensures DistinctNames(t[..p] + [x] + t[p..])
  {
    var u := t[..p] + [x] + t[p..];
    forall i, j | 0 <= i < j < |u| ensures u[i].name != u[j].name {
      assert i < p ==> u[i] == t[i];
      assert i > p ==> u[i] == t[i - 1];
      assert j < p ==> u[j] == t[j];
      assert j > p ==> u[j] == t[j - 1];
    }
  }

  lemma SameElements<T>(s: seq<T>, t: seq<T>)
    requires multiset(s) == multiset(t)
    ensures |s| == |t| && forall x :: x in s <==> x in t
  {
    assert |s| == |multiset(s)| && |t| == |multiset(t)|;
    assert forall x :: x in s <==> x in multiset(s);
    assert forall x :: x in t <==> x in multiset(t);
  }

  /** sort.Sort over one of the orders. Callers learn that the result is sorted, not which of the ties comes first. */
  method Sort(s: seq<MachineSet>, order: Order) returns (t: seq<MachineSet>)
    ensures multiset(t) == multiset(s)
    ensures DistinctNames(s) ==> DistinctNames(t)
    ensures Sorted(order, Values(t))
    ensures order.ByCreation? ==> OldestFirst(t)
  {
    hide Values, Less;
    t := [];
    var i := 0;
    while i < |s|
      invariant 0 <= i <= |s|
      invariant multiset(t) == multiset(s[..i])
      invariant DistinctNames(s) ==> DistinctNames(t)
      invariant Sorted(order, Values(t))
    {
      SameElements(t, s[..i]);
      assert s[..i + 1] == s[..i] + [s[i]];
      t := Insert(t, s[i], order);
      i := i + 1;
    }
    assert s[..i] == s;
    if order.ByCreation? { SortedByCreation(t); }
  }

  lemma SortedByCreation(t: seq<MachineSet>)
    requires Sorted(ByCreation, Values(t))
    ensures OldestFirst(t)
  {
    hide Values;
    forall i, j | 0 <= i < j < |t| ensures !CreatedBefore(t[j].created, t[j].name, t[i].created, t[i].name) {
      assert !Less(ByCreation, Values(t)[j], Values(t)[i]);
    }
  }

  // ---------------------------------------------------------------- loops over sets

  /** GetReplicaCountForMachineSets and its siblings: one pass that adds up a field. */
  method Accumulate(s: seq<MachineSet>, f: MS -> int) returns (total: int)
    ensures total == Sum(Values(s), f)
  {
    total := 0;
    var i := 0;
    while i < |s|
      invariant 0 <= i <= |s|
      invariant total + Sum(Values(s[i..]), f) == Sum(Values(s), f)
    {
      assert Values(s[i..])[1..] == Values(s[i + 1..]);
      total := total + f(s[i].Value());
      i := i + 1;
    }
  }

  /** scaleMachineSet: nothing to do, or one write of the size and both replica annotations. */
  method ScaleMachineSet(api: ApiServer, ms: MachineSet, newScale: int, d: Deployment) returns (ok: bool)
    modifies api, ms
    ensures Patched(ms.Value(), api.accepts, ok) == ScaleTo(old(ms.Value()), newScale, GoalOf(d), old(api.accepts))
  {
    var goal := GoalOf(d);
    if ms.replicas == newScale && !ReplicasAnnotationsNeedUpdate(ms.annotations, goal) {
      return true;
    }
    ok := api.Write();
    if ok {
      ms.replicas := newScale;
      ms.annotations := SetReplicasAnnotations(ms.annotations, goal);
    }
  }
}
