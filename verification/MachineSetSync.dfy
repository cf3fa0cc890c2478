/** Creating or deleting the difference between the machines a set has and those it should have. */
module MachineSetSync {
  import opened Basics
  import opened Fleet
  import opened DeletePolicy

  // ---------------------------------------------------------------- counting

  function Count(s: seq<Machine>, p: Machine -> bool): (n: nat)
    ensures n <= |s|
  {
    if s == [] then 0 else (if p(s[0]) then 1 else 0) + Count(s[1..], p)
  }

  function IsLive(m: Machine): bool { !m.deleting }
  function IsDeleting(m: Machine): bool { m.deleting }

  lemma {:induction false} CountAppend(s: seq<Machine>, t: seq<Machine>, p: Machine -> bool)
    ensures Count(s + t, p) == Count(s, p) + Count(t, p)
  {
    if s == [] {
      assert s + t == t;
    } else {
      assert (s + t)[1..] == s[1..] + t;
      CountAppend(s[1..], t, p);
    }
  }

  lemma {:induction false} CountAllOrNone(s: seq<Machine>, p: Machine -> bool)
    ensures Count(s, p) == |s| <==> forall i | 0 <= i < |s| :: p(s[i])
    ensures Count(s, p) == 0 <==> forall i | 0 <= i < |s| :: !p(s[i])
  {
    if s != [] {
      CountAllOrNone(s[1..], p);
      assert forall i | 1 <= i < |s| :: s[i] == s[1..][i - 1];
    }
  }

  lemma {:induction false} CountPermuted(s: seq<Machine>, t: seq<Machine>, p: Machine -> bool)
    requires multiset(s) == multiset(t)
    ensures Count(s, p) == Count(t, p)
    decreases |s|
  {
    if s == [] {
      assert t == [] by { assert |multiset(t)| == 0; }
    } else {
      var k := FindHead(s, t);
      CountPermuted(s[1..], t[..k] + t[k + 1..], p);
      CountAppend(t[..k], t[k + 1..], p);
      CountAppend(t[..k], t[k..], p);
      assert t[..k] + t[k..] == t && t[k..][1..] == t[k + 1..];
    }
  }

  /** Victims and kept machines together are all machines. */
  lemma CountSplit(all: seq<Machine>, order: seq<Machine>, k: nat, p: Machine -> bool)
    requires multiset(order) == multiset(all) && k <= |all|
    ensures |order| == |all|
    ensures Count(order[..k], p) + Count(order[k..], p) == Count(all, p)
  {
    assert |multiset(order)| == |multiset(all)|;
    CountPermuted(order, all, p);
    CountAppend(order[..k], order[k..], p);
    assert order[..k] + order[k..] == order;
  }

  lemma {:induction false} LiveOrDeleting(s: seq<Machine>)
    ensures Count(s, IsLive) + Count(s, IsDeleting) == |s|
  {
    if s != [] { LiveOrDeleting(s[1..]); }
  }

  // ---------------------------------------------------------------- how many live machines are left

  /** A possible outcome of the sort: some listing of the machines from high to low priority. */
  predicate Outcome(all: seq<Machine>, order: seq<Machine>, f: Machine -> real) {
    multiset(order) == multiset(all) && HighToLow(order, f)
  }

  /** Live machines that rank as high as deleting ones. */
  function Tied(f: Machine -> real): Machine -> bool { (m: Machine) => !m.deleting && f(m) == MUST_DELETE }

  function Top(f: Machine -> real): Machine -> bool { (m: Machine) => f(m) == MUST_DELETE }

  /**
   Whatever the policy and the order of ties, deleting the surplus leaves at least the desired number of
   machines, less those that were already being deleted.
   */
  lemma NeverTooMany(all: seq<Machine>, order: seq<Machine>, f: Machine -> real, spec: nat)
    requires Outcome(all, order, f) && spec <= |all|
    ensures |order| == |all|
    ensures Count(order[|all| - spec..], IsLive) >= spec - Count(all, IsDeleting)
  {
    hide Count, HighToLow;
    var k := |all| - spec;
    CountSplit(all, order, k, IsDeleting);
    LiveOrDeleting(order[k..]);
  }

  /** A deleting machine that is kept means that every victim ranks at the top. */
  lemma KeptDeleting(order: seq<Machine>, f: Machine -> real, k: nat, j: nat)
    requires HighToLow(order, f) && DeletingFirst(f) && k <= j < |order| && order[j].deleting
    ensures Count(order[..k], Top(f)) == k && Count(order[k..], Top(f)) >= 1
    ensures forall i | 0 <= i < k :: f(order[i]) == MUST_DELETE
  {
    CountAllOrNone(order[..k], Top(f));
    CountAllOrNone(order[k..], Top(f));
    assert order[k..][j - k] == order[j];
  }

  lemma {:induction false} TopIsTiedOrDeleting(s: seq<Machine>, f: Machine -> real)
    requires DeletingFirst(f)
    ensures Count(s, Top(f)) == Count(s, Tied(f)) + Count(s, IsDeleting)
  {
    if s != [] { TopIsTiedOrDeleting(s[1..], f); }
  }

  /** Deleting machines cannot crowd out live ones: no surplus, none deleting, no ties, or room for all ties. */
  predicate TiesHarmless(all: seq<Machine>, f: Machine -> real, k: nat) {
    || k == 0 || Count(all, IsDeleting) == 0 || Count(all, Tied(f)) == 0
    || Count(all, IsDeleting) + Count(all, Tied(f)) <= k
  }

  /** Where ties are harmless, a deleting machine is kept only if no live one is a victim. */
  lemma NoLiveVictim(all: seq<Machine>, order: seq<Machine>, f: Machine -> real, k: nat)
    requires Outcome(all, order, f) && DeletingFirst(f) && k <= |all| && TiesHarmless(all, f, k)
    ensures |order| == |all|
    ensures Count(order[k..], IsDeleting) == 0 || Count(order[..k], IsLive) == 0
    ensures Count(order[..k], IsLive) + Count(order[k..], IsLive) == Count(all, IsLive)
  {
    hide Count, HighToLow;
    CountSplit(all, order, k, IsLive);
    CountSplit(all, order, k, IsDeleting);
    CountSplit(all, order, k, Tied(f));
    var victims, kept := order[..k], order[k..];
    LiveOrDeleting(victims);
    CountAllOrNone(kept, IsDeleting);
    if j :| 0 <= j < |kept| && kept[j].deleting {
      KeptDeleting(order, f, k, k + j);
      TopIsTiedOrDeleting(victims, f);
      TopIsTiedOrDeleting(kept, f);
    }
  }

  lemma HarmlessIsEnough(all: seq<Machine>, order: seq<Machine>, f: Machine -> real, spec: nat)
    requires Outcome(all, order, f) && DeletingFirst(f) && spec <= |all| && TiesHarmless(all, f, |all| - spec)
    ensures |order| == |all|
    ensures Count(order[|all| - spec..], IsLive) == Min(Count(all, IsLive), spec)
  {
    hide Count, Outcome, TiesHarmless, DeletingFirst;
    var k := |all| - spec;
    NoLiveVictim(all, order, f, k);
    LiveOrDeleting(order[k..]);
  }

  // ---------------------------------------------------------------- the condition is exact

  function Insert(s: seq<Machine>, m: Machine, f: Machine -> real): seq<Machine> {
    if s == [] || f(s[0]) <= f(m) then [m] + s else [s[0]] + Insert(s[1..], m, f)
  }

  function Sorted(s: seq<Machine>, f: Machine -> real): seq<Machine> {
    if s == [] then [] else Insert(Sorted(s[1..], f), s[0], f)
  }

  lemma {:induction false} InsertAdds(s: seq<Machine>, m: Machine, f: Machine -> real)
    ensures multiset(Insert(s, m, f)) == multiset(s) + multiset{m}
    ensures forall x | x in Insert(s, m, f) :: x == m || x in s
  {
    if s != [] && f(s[0]) > f(m) {
      InsertAdds(s[1..], m, f);
      assert s == [s[0]] + s[1..];
    }
  }

  lemma {:induction false} InsertSorts(s: seq<Machine>, m: Machine, f: Machine -> real)
    requires HighToLow(s, f)
    ensures HighToLow(Insert(s, m, f), f)
  {
    if s != [] && f(s[0]) > f(m) {
      InsertSorts(s[1..], m, f);
      InsertAdds(s[1..], m, f);
      var rest := Insert(s[1..], m, f);
      forall i | 0 <= i < |rest| ensures f(rest[i]) <= f(s[0]) {
        assert rest[i] in rest;
      }
    }
  }

  /** There always is an outcome. */
  lemma {:induction false} SomeOutcome(s: seq<Machine>, f: Machine -> real)
    ensures Outcome(s, Sorted(s, f), f)
  {
    if s != [] {
      SomeOutcome(s[1..], f);
      InsertSorts(Sorted(s[1..], f), s[0], f);
      InsertAdds(Sorted(s[1..], f), s[0], f);
      MultisetTail(s);
    }
  }

  lemma SwapTied(s: seq<Machine>, f: Machine -> real, i: nat, j: nat)
    requires HighToLow(s, f) && i < |s| && j < |s| && f(s[i]) == f(s[j])
    ensures var t := s[i := s[j]][j := s[i]]; HighToLow(t, f) && multiset(t) == multiset(s)
  {
    var t := s[i := s[j]][j := s[i]];
    forall p, q | 0 <= p < q < |s| ensures f(t[q]) <= f(t[p]) {
      assert f(t[p]) == f(s[p]) && f(t[q]) == f(s[q]);
    }
  }

  /** Machines of top priority come first. */
  lemma {:induction false} TopPrefix(s: seq<Machine>, f: Machine -> real)
    requires HighToLow(s, f) && DeletingFirst(f)
    ensures forall i | 0 <= i < |s| :: i < Count(s, Top(f)) <==> f(s[i]) == MUST_DELETE
  {
    if s != [] {
      assert forall i | 1 <= i < |s| :: s[i] == s[1..][i - 1];
      TopPrefix(s[1..], f);
      if f(s[0]) < MUST_DELETE { CountAllOrNone(s[1..], Top(f)); }
    }
  }

  /** Any two machines of equal priority can end up first and last among their equals. */
  lemma Rearranged(s: seq<Machine>, f: Machine -> real, x: nat, y: nat, last: nat) returns (order: seq<Machine>)
    requires HighToLow(s, f) && x < |s| && y < |s| && x != y && 0 < last < |s|
    requires f(s[0]) == f(s[x]) == f(s[y]) == f(s[last])
    ensures HighToLow(order, f) && multiset(order) == multiset(s) && |order| == |s|
    ensures order[0] == s[x] && order[last] == s[y]
  {
    SwapTied(s, f, 0, x);
    var t := s[0 := s[x]][x := s[0]];
    var y' := if y == 0 then x else y;
    SwapTied(t, f, y', last);
    order := t[y' := t[last]][last := t[y']];
  }

  /** Where ties can hurt, some outcome of the sort deletes a live machine and keeps a deleting one. */
  lemma HarmfulOutcome(all: seq<Machine>, f: Machine -> real, k: nat) returns (order: seq<Machine>)
    requires DeletingFirst(f) && k <= |all| && !TiesHarmless(all, f, k)
    ensures Outcome(all, order, f) && |order| == |all|
    ensures Count(order[..k], IsLive) > 0 && Count(order[k..], IsDeleting) > 0
  {
    var s := Sorted(all, f);
    SomeOutcome(all, f);
    CountSplit(all, s, 0, IsLive);
    CountPermuted(s, all, IsDeleting);
    CountPermuted(s, all, Tied(f));
    TopIsTiedOrDeleting(s, f);
    TopPrefix(s, f);
    hide Count, HighToLow, Sorted;
    var last := Count(s, Top(f)) - 1;
    CountAllOrNone(s, Tied(f));
    CountAllOrNone(s, IsDeleting);
    var x :| 0 <= x < |s| && Tied(f)(s[x]);
    var y :| 0 <= y < |s| && s[y].deleting;
    order := Rearranged(s, f, x, y, last);
    CountAllOrNone(order[..k], IsLive);
    CountAllOrNone(order[k..], IsDeleting);
    assert order[..k][0] == s[x] && order[k..][last - k] == s[y];
  }

  /**
   No over-deletion, exactly: every outcome of the sort leaves as many live machines as there can and
   should be, if and only if ties between live and deleting machines are harmless.
   */
  lemma OverDeletionExactly(all: seq<Machine>, f: Machine -> real, spec: nat)
    requires DeletingFirst(f) && spec <= |all|
    ensures TiesHarmless(all, f, |all| - spec) <==>
      forall order: seq<Machine> | Outcome(all, order, f) ::
        LeftAlive(order, |all| - spec) == Min(Count(all, IsLive), spec)
  {
    var k := |all| - spec;
    hide Count, HighToLow;
    if TiesHarmless(all, f, k) {
      forall order: seq<Machine> | Outcome(all, order, f) ensures LeftAlive(order, k) == Min(Count(all, IsLive), spec) {
        HarmlessIsEnough(all, order, f, spec);
      }
    } else {
      var order := HarmfulOutcome(all, f, k);
      CountSplit(all, order, k, IsLive);
      LiveOrDeleting(order[k..]);
      assert LeftAlive(order, k) < Min(Count(all, IsLive), spec);
    }
  }

  /** Live machines that are not among the first k. */
  function LeftAlive(order: seq<Machine>, k: nat): nat {
    if k <= |order| then Count(order[k..], IsLive) else 0
  }

  /** Under the Random policy, and without a policy, no live machine ties with a deleting one. */
  lemma RandomNeverOverDeletes(all: seq<Machine>, order: seq<Machine>, spec: nat)
    requires Outcome(all, order, RandomPriority) && spec <= |all|
    ensures LeftAlive(order, |all| - spec) == Min(Count(all, IsLive), spec)
  {
    CountAllOrNone(all, Tied(RandomPriority));
    HarmlessIsEnough(all, order, RandomPriority, spec);
  }

  /** Nor is a healthy machine chosen while a flawed or deleting one is kept. */
  lemma RandomSparesHealthy(order: seq<Machine>, i: nat, j: nat)
    requires HighToLow(order, RandomPriority) && i < j < |order|
    requires !order[i].deleting && !order[i].annotated && order[i].hasNode && !order[i].failed
    ensures !order[j].deleting && !order[j].annotated && order[j].hasNode && !order[j].failed
  {
    assert RandomPriority(order[j]) <= RandomPriority(order[i]);
  }

  /** Under Oldest it can happen: one of two surplus-free machines is deleting, the other has no node yet. */
  lemma OldestCanOverDelete(a: Ageing)
    ensures var f := (m: Machine) => OldestPriority(m, a);
      var going, starting := Machine(1, true, false, true, false, Some(0)),
          Machine(2, false, false, false, false, Some(0));
      && Outcome([going, starting], [starting, going], f)
      && Count([going, starting], IsLive) == 1 && LeftAlive([starting, going], 1) == 0
  {
    var going, starting := Machine(1, true, false, true, false, Some(0)),
        Machine(2, false, false, false, false, Some(0));
    assert [starting, going][1..] == [going] && [going, starting][1..] == [starting];
  }

  // ---------------------------------------------------------------- syncReplicas

  /** Creating a machine: a template that cannot be cloned ends the loop, a refused creation does not. */
  datatype Creation = CloneFailed | CreateRefused | Succeeded

  /** Machines created by the attempts from i on, up to n. */
  function CreatedFrom(attempts: nat -> Creation, i: nat, n: nat): nat
    requires i <= n
    decreases n - i
  {
    if i == n || attempts(i).CloneFailed? then 0
    else (if attempts(i).Succeeded? then 1 else 0) + CreatedFrom(attempts, i + 1, n)
  }

  lemma {:induction false} AllCreated(attempts: nat -> Creation, i: nat, n: nat)
    requires i <= n
    ensures CreatedFrom(attempts, i, n) <= n - i
    ensures CreatedFrom(attempts, i, n) == n - i <==> forall j: nat | i <= j < n :: attempts(j).Succeeded?
    decreases n - i
  {
    if i < n { AllCreated(attempts, i + 1, n); }
  }

  /** The attempts from i up to k that succeed. */
  function Successes(attempts: nat -> Creation, i: nat, k: nat): set<nat> {
    set j: nat | i <= j < k && attempts(j).Succeeded?
  }

  lemma SuccessesNext(attempts: nat -> Creation, i: nat, k: nat)
    requires i < k
    ensures |Successes(attempts, i, k)|
      == (if attempts(i).Succeeded? then 1 else 0) + |Successes(attempts, i + 1, k)|
  {
    var later := Successes(attempts, i + 1, k);
    assert i !in later;
    assert Successes(attempts, i, k) == if attempts(i).Succeeded? then later + {i} else later;
  }

  /** The machines created are the successful attempts before the first template that cannot be cloned. */
  lemma {:induction false} CreatedExactly(attempts: nat -> Creation, i: nat, k: nat, n: nat)
    requires i <= k <= n && forall j: nat | i <= j < k :: !attempts(j).CloneFailed?
    requires k < n ==> attempts(k).CloneFailed?
    ensures CreatedFrom(attempts, i, n) == |Successes(attempts, i, k)|
    decreases k - i
  {
    if i < k {
      CreatedExactly(attempts, i + 1, k, n);
      SuccessesNext(attempts, i, k);
      hide Successes;
    } else {
      assert Successes(attempts, i, k) == {};
    }
  }

  method CreateMachines(n: nat, attempts: nat -> Creation) returns (created: nat, ok: bool)
    ensures created <= n
    ensures created == CreatedFrom(attempts, 0, n)
    ensures ok <==> created == n
  {
    AllCreated(attempts, 0, n);
    created, ok := 0, true;
    var i := 0;
    while i < n
      invariant 0 <= i <= n
      invariant created + CreatedFrom(attempts, i, n) == CreatedFrom(attempts, 0, n)
      invariant ok <==> created == i
      invariant created <= i
    {
      match attempts(i) {
        case CloneFailed => return created, false;
        case CreateRefused => ok := false;
        case Succeeded => created := created + 1;
      }
      i := i + 1;
    }
  }

  /** The victims the API server does delete. */
  function Accepted(victims: seq<Machine>, refused: set<int>): seq<Machine> {
    if victims == [] then []
    else (if victims[0].id in refused then [] else [victims[0]]) + Accepted(victims[1..], refused)
  }

  lemma {:induction false} AcceptedAll(victims: seq<Machine>, refused: set<int>)
    ensures |Accepted(victims, refused)| <= |victims|
    ensures Accepted(victims, refused) == victims <==> forall i | 0 <= i < |victims| :: victims[i].id !in refused
    ensures forall m :: m in Accepted(victims, refused) <==> m in victims && m.id !in refused
  {
    if victims != [] {
      AcceptedAll(victims[1..], refused);
      assert victims == [victims[0]] + victims[1..];
    }
  }

  lemma AcceptedNext(victims: seq<Machine>, refused: set<int>, i: nat)
    requires i < |victims|
    ensures Accepted(victims[i..], refused)
      == (if victims[i].id in refused then [] else [victims[i]]) + Accepted(victims[i + 1..], refused)
  {
    assert victims[i..][1..] == victims[i + 1..];
  }

  method DeleteMachines(victims: seq<Machine>, refused: set<int>) returns (deleted: seq<Machine>, ok: bool)
    ensures deleted == Accepted(victims, refused)
    ensures ok <==> deleted == victims
  {
    hide Accepted;
    deleted, ok := [], true;
    assert victims[0..] == victims && deleted + Accepted(victims, refused) == Accepted(victims, refused);
    for i := 0 to |victims|
      invariant deleted + Accepted(victims[i..], refused) == Accepted(victims, refused)
      invariant ok <==> forall j | 0 <= j < i :: victims[j].id !in refused
    {
      AcceptedNext(victims, refused, i);
      ghost var rest := Accepted(victims[i + 1..], refused);
      if victims[i].id in refused {
        assert [] + rest == rest;
        ok := false;
      } else {
        assert deleted + ([victims[i]] + rest) == deleted + [victims[i]] + rest;
        deleted := deleted + [victims[i]];
      }
    }
    AcceptedAll(victims, refused);
    AcceptedAll(victims[|victims|..], refused);
  }

  /**
   syncReplicas: create what is missing, or delete the surplus in order of priority. Machines already being
   deleted count towards the total. The machine list is left in the order it was sorted in. `waited` tells
   whether the changes show up in the cache in time, which is waited for where all of them were accepted.
   */
  method SyncReplicas(machines: array<Machine>, spec: int, policy: Policy, a: Ageing, creationDisabled: bool,
                      attempts: nat -> Creation, refused: set<int>, waited: bool)
    returns (created: nat, deleted: seq<Machine>, ok: bool)
    modifies machines
    ensures multiset(machines[..]) == old(multiset(machines[..]))
    ensures machines.Length + created <= Max(machines.Length, spec)
    ensures machines.Length < spec ==>
      && deleted == []
      && (if creationDisabled then created == 0 && ok
          else && created == CreatedFrom(attempts, 0, spec - machines.Length)
               && (ok <==> machines.Length + created == spec && waited))
    ensures spec <= machines.Length ==> created == 0
    ensures spec == machines.Length ==> deleted == [] && ok
    ensures spec < machines.Length ==> (policy.UnsupportedPolicy? ==> deleted == [] && !ok)
    ensures spec < machines.Length && !policy.UnsupportedPolicy? ==>
      var surplus := Min(machines.Length - spec, machines.Length);
      && deleted == Accepted(machines[..surplus], refused)
      && (ok <==> deleted == machines[..surplus] && waited)
      && (0 < spec ==> Outcome(old(machines[..]), machines[..], PriorityFunc(policy, a).value))
  {
    created, deleted, ok := 0, [], true;
    var diff := machines.Length - spec;
    if diff < 0 {
      if !creationDisabled {
        created, ok := CreateMachines(-diff, attempts);
        ok := ok && waited;
      }
    } else if diff > 0 {
      match PriorityFunc(policy, a)
      case None => ok := false;
      case Some(f) =>
        var victims := GetMachinesToDelete(machines, diff, f);
        assert machines[..machines.Length] == machines[..];
        deleted, ok := DeleteMachines(victims, refused);
        ok := ok && waited;
    }
  }

  /** The end of a reconcile: sync the machines that were listed, then report their number, whatever the sync did. */
  method SyncAndReport(machines: array<Machine>, spec: int, policy: Policy, a: Ageing, creationDisabled: bool,
                       attempts: nat -> Creation, refused: set<int>, waited: bool)
    returns (created: nat, deleted: seq<Machine>, ok: bool, status: nat)
    modifies machines
    ensures multiset(machines[..]) == old(multiset(machines[..]))
    ensures status == machines.Length && status + created <= Max(status, spec)
  {
    created, deleted, ok := SyncReplicas(machines, spec, policy, a, creationDisabled, attempts, refused, waited);
    status := machines.Length;
  }

  /**
   What one pass that reports no error leaves, as the machines that are neither deleted nor being deleted:
   under Random exactly as many as there can and should be; under any policy no fewer than the desired
   number less those that were being deleted already. The list is sorted unless all or none are deleted.
   */
  lemma LiveAfterSync(all: seq<Machine>, order: seq<Machine>, policy: Policy, a: Ageing, spec: nat)
    requires !policy.UnsupportedPolicy? && spec <= |all| && multiset(order) == multiset(all)
    requires 0 < spec < |all| ==> Outcome(all, order, PriorityFunc(policy, a).value)
    ensures var left := LeftAlive(order, |all| - spec);
      && left >= spec - Count(all, IsDeleting)
      && (policy.RandomPolicy? || policy.NoPolicy? ==> left == Min(Count(all, IsLive), spec))
  {
    hide Count, Outcome;
    LeftAtLeast(all, order, spec);
    if 0 < spec < |all| {
      if policy.RandomPolicy? || policy.NoPolicy? {
        RandomNeverOverDeletes(all, order, spec);
      }
    } else {
      LeftAtEnds(all, order, spec);
    }
  }

  lemma LeftAtLeast(all: seq<Machine>, order: seq<Machine>, spec: nat)
    requires spec <= |all| && multiset(order) == multiset(all)
    ensures LeftAlive(order, |all| - spec) >= spec - Count(all, IsDeleting)
  {
    hide Count;
    CountSplit(all, order, |all| - spec, IsDeleting);
    LiveOrDeleting(order[|all| - spec..]);
  }

  lemma LeftAtEnds(all: seq<Machine>, order: seq<Machine>, spec: nat)
    requires (spec == 0 || spec == |all|) && multiset(order) == multiset(all)
    ensures LeftAlive(order, |all| - spec) == Min(Count(all, IsLive), spec)
  {
    CountSplit(all, order, |all| - spec, IsLive);
    LiveOrDeleting(all);
    assert spec == 0 ==> order[|all| - spec..] == [];
    assert spec == |all| ==> order[..|all| - spec] == [];
  }
}
