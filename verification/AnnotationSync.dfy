/**
 Syncing the new set's annotations, revision and rollout settings with its deployment
 (controllers/mdutil/util.go, getNewMachineSet in controllers/machinedeployment_sync.go).
 */
module AnnotationSync {
  import opened Basics
  import opened Fleet
  import Decimal

  // ---------------------------------------------------------------- copying

  /** annotationsToSkip. */
  predicate SkipCopy(key: Key) {
    key.LastAppliedConfig? || key.Revision? || key.RevisionHistory?
    || key.DesiredReplicas? || key.MaxReplicas? || key.ConversionData?
  }

  /** A deployment annotation that the set does not carry yet. */
  predicate Missing(dep: Annotations, ms: Annotations, key: Key) {
    key in dep && !SkipCopy(key) && Lookup(ms, key) != dep[key]
  }

  /** The set's annotations once the given keys have been looked at. */
  function CopiedSoFar(dep: Annotations, ms: Annotations, done: set<Key>): Annotations {
    map k | k in ms.Keys + done && (k in ms || Missing(dep, ms, k)) ::
      if k in done && Missing(dep, ms, k) then dep[k] else ms[k]
  }

  function Copied(dep: Annotations, ms: Annotations): Annotations { CopiedSoFar(dep, ms, dep.Keys) }

  ghost predicate AnyMissing(dep: Annotations, ms: Annotations) {
    exists k :: Missing(dep, ms, k)
  }

  lemma CopyOneMore(dep: Annotations, ms: Annotations, done: set<Key>, k: Key)
    requires k in dep && k !in done && done <= dep.Keys
    ensures var r := CopiedSoFar(dep, ms, done);
      && Lookup(r, k) == Lookup(ms, k)
      && CopiedSoFar(dep, ms, done + {k}) == if Missing(dep, ms, k) then r[k := dep[k]] else r
  {
  }

  /** copyDeploymentAnnotationsToMachineSet: a loop over the deployment's annotations in no particular order. */
  method CopyAnnotations(dep: Annotations, ms: Annotations) returns (r: Annotations, changed: bool)
    ensures r == Copied(dep, ms) && changed == AnyMissing(dep, ms)
  {
    r, changed := ms, false;
    var todo := dep.Keys;
    CopiedAtEnds(dep, ms);
    hide CopiedSoFar;
    while todo != {}
      invariant todo <= dep.Keys
      invariant r == CopiedSoFar(dep, ms, dep.Keys - todo)
      invariant if changed then AnyMissing(dep, ms) else NoneMissing(dep, ms, dep.Keys - todo)
      decreases todo
    {
      var k :| k in todo;
      ghost var done := dep.Keys - todo;
      CopyOneMore(dep, ms, done, k);
      if !SkipCopy(k) && Lookup(r, k) != dep[k] {
        assert Missing(dep, ms, k);
        r := r[k := dep[k]];
        changed := true;
      }
      todo := todo - {k};
      assert dep.Keys - todo == done + {k};
    }
    assert dep.Keys - todo == dep.Keys;
  }

  ghost predicate NoneMissing(dep: Annotations, ms: Annotations, keys: set<Key>) {
    forall k | k in keys :: !Missing(dep, ms, k)
  }

  lemma CopiedAtEnds(dep: Annotations, ms: Annotations)
    ensures CopiedSoFar(dep, ms, dep.Keys - dep.Keys) == ms
  {
    assert dep.Keys - dep.Keys == {};
  }

  /** Copying reaches a fixed point at once and never touches the keys it skips, so it cannot loop through them. */
  lemma CopySettles(dep: Annotations, ms: Annotations, key: Key)
    ensures !AnyMissing(dep, Copied(dep, ms)) && Copied(dep, Copied(dep, ms)) == Copied(dep, ms)
    ensures key in {LastAppliedConfig, Revision, RevisionHistory, DesiredReplicas, MaxReplicas, ConversionData} ==>
      Lookup(Copied(dep, ms), key) == Lookup(ms, key) && (key in Copied(dep, ms) <==> key in ms)
    ensures (key.OtherKey? || key.DisableMachineCreate?) && key in dep ==> Lookup(Copied(dep, ms), key) == dep[key]
    ensures key !in dep ==> Lookup(Copied(dep, ms), key) == Lookup(ms, key)
    ensures !AnyMissing(dep, ms) ==> Copied(dep, ms) == ms
  {
    var c := Copied(dep, ms);
    forall k ensures !Missing(dep, c, k) {
      assert Missing(dep, ms, k) ==> c[k] == dep[k];
    }
    assert Copied(dep, c) == c;
    if !AnyMissing(dep, ms) {
      assert forall k :: !Missing(dep, ms, k);
      assert c == ms;
    }
  }

  // ---------------------------------------------------------------- revisions

  /** mdutil.Revision of an object with these annotations: no annotation counts as zero. */
  function RevisionOf(a: Annotations): Option<int> {
    if Revision in a then Decimal.ParseInt(a[Revision], TWO_63) else Some(0)
  }

  /**
   A revision is read back as it was written, and a set without one is at revision zero. What does not parse is no
   revision, except that an empty one counts as zero where the set's own is read.
   */
  lemma RevisionRead(a: Annotations, n: int)
    ensures Revision !in a ==> RevisionOf(a) == OwnRevision(a) == Some(0)
    ensures Revision in a && a[Revision] == Decimal.Format(n) && -TWO_63 <= n < TWO_63 ==>
      RevisionOf(a) == OwnRevision(a) == Some(n)
    ensures RevisionOf(a).None? <==> Revision in a && Decimal.ParseInt(a[Revision], TWO_63).None?
    ensures OwnRevision(a).None? <==>
      Revision in a && a[Revision] != "" && Decimal.ParseInt(a[Revision], TWO_63).None?
  {
    if -TWO_63 <= n < TWO_63 { Decimal.ParseFormat(n, TWO_63); }
    hide Decimal.Format;
  }

  /** MaxRevision: unparsable revisions are skipped. */
  method MaxRevision(sets: seq<Annotations>) returns (max: int)
    ensures 0 <= max < TWO_63
    ensures forall i | 0 <= i < |sets| && RevisionOf(sets[i]).Some? :: RevisionOf(sets[i]).value <= max
    ensures max == 0 || exists i | 0 <= i < |sets| :: RevisionOf(sets[i]) == Some(max)
  {
    max := 0;
    for j := 0 to |sets|
      invariant 0 <= max < TWO_63
      invariant forall i | 0 <= i < j && RevisionOf(sets[i]).Some? :: RevisionOf(sets[i]).value <= max
      invariant max == 0 || exists i | 0 <= i < j :: RevisionOf(sets[i]) == Some(max)
    {
      var r := RevisionOf(sets[j]);
      if r.Some? && max < r.value {
        max := r.value;
      }
    }
  }

  /** Appending to the comma-separated history; a history whose first entry is empty is overwritten. */
  function AppendHistory(history: string, revision: string): string {
    if history == "" || history[0] == ',' then revision else history + "," + revision
  }

  // ---------------------------------------------------------------- SetNewMachineSetAnnotations

  datatype Synced = Synced(annotations: Annotations, changed: bool)

  /** The revision the set has before the sync; unset or empty counts as zero. */
  function OwnRevision(a: Annotations): Option<int> {
    var s := Lookup(a, Revision);
    match Decimal.ParseInt(s, TWO_63)
    case Some(n) => Some(n)
    case None => if s == "" then Some(0) else None
  }

  /** Revision and history, given the copied annotations and whether copying changed anything. */
  function Revise(c: Annotations, copied: bool, own: int, next: int, newRevision: string): Synced {
    var c1 := if own < next then c[Revision := newRevision] else c;
    var changed := copied || own < next;
    Synced(if Revision in c && changed
           then c1[RevisionHistory := AppendHistory(Lookup(c1, RevisionHistory), c[Revision])] else c1,
           changed)
  }

  ghost function SetAnnotations(dep: Annotations, ms: Annotations, newRevision: string, exists_: bool, g: Goal): Synced
  {
    var c := Copied(dep, ms);
    match (OwnRevision(c), Decimal.ParseInt(newRevision, TWO_63))
    case (Some(own), Some(next)) =>
      var r := Revise(c, AnyMissing(dep, ms), own, next, newRevision);
      if !exists_ && ReplicasAnnotationsNeedUpdate(r.annotations, g)
      then Synced(SetReplicasAnnotations(r.annotations, g), true) else r
    case _ => Synced(c, false)
  }

  method SetNewMachineSetAnnotations(dep: Annotations, ms: Annotations, newRevision: string, exists_: bool, g: Goal)
    returns (r: Annotations, changed: bool)
    ensures Synced(r, changed) == SetAnnotations(dep, ms, newRevision, exists_, g)
  {
    r, changed := CopyAnnotations(dep, ms);
    var hadRevision, oldRevision := Revision in r, Lookup(r, Revision);
    var own := Decimal.ParseInt(oldRevision, TWO_63);
    if own.None? && oldRevision != "" {
      return r, false;
    }
    var next := Decimal.ParseInt(newRevision, TWO_63);
    if next.None? {
      return r, false;
    }
    if (if own.Some? then own.value else 0) < next.value {
      r := r[Revision := newRevision];
      changed := true;
    }
    if hadRevision && changed {
      r := r[RevisionHistory := AppendHistory(Lookup(r, RevisionHistory), oldRevision)];
    }
    if !exists_ && ReplicasAnnotationsNeedUpdate(r, g) {
      r := SetReplicasAnnotations(r, g);
      changed := true;
    }
  }

  // ---------------------------------------------------------------- getNewMachineSet, for a set that exists

  /** The settings of a set that a sync may rewrite, and those its deployment asks for. */
  datatype Settings = Settings(annotations: Annotations, minReady: int, policy: string)
  datatype Wanted = Wanted(annotations: Annotations, minReady: int, policy: Option<string>)

  /** The revision the new set should have, given the largest among the old ones. */
  function NextRevision(maxOld: int): string { Decimal.Format(Wrap64(maxOld + 1)) }

  /** The settings besides annotations that a sync has to rewrite. */
  predicate Stale(want: Wanted, ms: Settings) {
    ms.minReady != want.minReady || (want.policy.Some? && ms.policy != want.policy.value)
  }

  /** One sync: the settings afterwards, and whether they had to be written, which ends the pass early. */
  ghost function Sync(want: Wanted, ms: Settings, maxOld: int, g: Goal): (Settings, bool) {
    var s := SetAnnotations(want.annotations, ms.annotations, NextRevision(maxOld), true, g);
    if s.changed || Stale(want, ms)
    then (Settings(s.annotations, want.minReady, if want.policy.Some? then want.policy.value else ms.policy), true)
    else (ms, false)
  }

  lemma ReviseExact(c: Annotations, copied: bool, own: int, next: int, newRevision: string, key: Key)
    requires OwnRevision(c) == Some(own) && Decimal.ParseInt(newRevision, TWO_63) == Some(next)
    ensures var r := Revise(c, copied, own, next, newRevision);
      && OwnRevision(r.annotations) == Some(Max(own, next))
      && (key != Revision && key != RevisionHistory ==> Lookup(r.annotations, key) == Lookup(c, key))
      && (!r.changed ==> r.annotations == c && next <= own && !copied)
  {
    hide Decimal.ParseInt;
  }

  /**
   The history of revisions: a sync that changes anything appends the revision the set had, after a comma if there
   is a history already, and otherwise the history stays.
   */
  lemma HistoryGrows(dep: Annotations, ms: Annotations, maxOld: int, g: Goal)
    requires 0 <= maxOld < TWO_63
    ensures var s := SetAnnotations(dep, ms, NextRevision(maxOld), true, g);
      var history := Lookup(ms, RevisionHistory);
      Lookup(s.annotations, RevisionHistory) ==
        if !s.changed || Revision !in ms then history
        else if history == "" || history[0] == ',' then ms[Revision]
        else history + "," + ms[Revision]
  {
    CopySettles(dep, ms, Revision);
    CopySettles(dep, ms, RevisionHistory);
    Decimal.ParseFormat(Wrap64(maxOld + 1), TWO_63);
    hide Decimal.ParseInt, Decimal.Format, Copied, AnyMissing;
  }

  lemma OwnRevisionLookup(a: Annotations, b: Annotations)
    requires Lookup(a, Revision) == Lookup(b, Revision)
    ensures OwnRevision(a) == OwnRevision(b)
  {
  }

  /**
   After a sync the set's revision is the larger of its own and one more than the old sets' largest, no
   annotation of the deployment is missing, and "unchanged" is reported truthfully. With a revision of its
   own that does not parse, the annotations are copied all the same and "unchanged" is reported regardless.
   */
  lemma AfterSync(dep: Annotations, ms: Annotations, maxOld: int, exists_: bool, g: Goal)
    requires 0 <= maxOld < TWO_63
    ensures var s := SetAnnotations(dep, ms, NextRevision(maxOld), exists_, g);
      && !AnyMissing(dep, s.annotations)
      && (OwnRevision(ms).None? ==> OwnRevision(s.annotations).None? && s == Synced(Copied(dep, ms), false))
      && (OwnRevision(ms).Some? ==>
            && OwnRevision(s.annotations) == Some(Max(OwnRevision(ms).value, Wrap64(maxOld + 1)))
            && (!s.changed ==> s.annotations == ms)
            && (!exists_ ==> !ReplicasAnnotationsNeedUpdate(s.annotations, g)))
  {
    var c, next, rev := Copied(dep, ms), Wrap64(maxOld + 1), NextRevision(maxOld);
    CopySettles(dep, ms, Revision);
    OwnRevisionLookup(ms, c);
    Decimal.ParseFormat(next, TWO_63);
    if OwnRevision(c).Some? {
      var own := OwnRevision(c).value;
      var r := Revise(c, AnyMissing(dep, ms), own, next, rev);
      var s := SetAnnotations(dep, ms, rev, exists_, g);
      ReviseExact(c, AnyMissing(dep, ms), own, next, rev, Revision);
      RefreshIsExact(r.annotations, g, Revision);
      hide Decimal.ParseInt, Decimal.Format, Copied, Revise, SetReplicasAnnotations, ReplicasAnnotationsNeedUpdate;
      OwnRevisionLookup(s.annotations, r.annotations);
      forall k ensures !Missing(dep, s.annotations, k) {
        assert !Missing(dep, c, k);
        ReviseExact(c, AnyMissing(dep, ms), own, next, rev, k);
        RefreshIsExact(r.annotations, g, k);
      }
    }
  }

  /**
   An annotation of the deployment stays missing after a sync if and only if one was, the set's revision does
   not parse, and nothing else has to be written: the copy is then dropped.
   */
  lemma MissingAfterSync(want: Wanted, ms: Settings, maxOld: int, g: Goal)
    requires 0 <= maxOld < TWO_63
    ensures AnyMissing(want.annotations, Sync(want, ms, maxOld, g).0.annotations)
      <==> OwnRevision(ms.annotations).None? && AnyMissing(want.annotations, ms.annotations) && !Stale(want, ms)
  {
    hide SetAnnotations, OwnRevision, AnyMissing, NextRevision, Copied;
    AfterSync(want.annotations, ms.annotations, maxOld, true, g);
  }

  /**
   Settling: whatever the first sync had to write, a second one with the same inputs writes nothing, so
   at most one pass per change ends early without a new set.
   */
  lemma SyncSettles(want: Wanted, ms: Settings, maxOld: int, g: Goal)
    requires 0 <= maxOld < TWO_63
    ensures var once := Sync(want, ms, maxOld, g).0; Sync(want, once, maxOld, g) == (once, false)
  {
    hide SetAnnotations, OwnRevision, AnyMissing, NextRevision, Copied;
    var once := Sync(want, ms, maxOld, g).0;
    AfterSync(want.annotations, ms.annotations, maxOld, true, g);
    AfterSync(want.annotations, once.annotations, maxOld, true, g);
    if OwnRevision(ms.annotations).Some? {
      Unchanged(want.annotations, once.annotations, maxOld, g);
    }
  }

  /** A sync brings the settings the deployment asks for, whatever becomes of the annotations. */
  lemma SyncApplies(want: Wanted, ms: Settings, maxOld: int, g: Goal)
    ensures var t := Sync(want, ms, maxOld, g).0;
      && t.minReady == want.minReady
      && t.policy == (if want.policy.Some? then want.policy.value else ms.policy)
  {
    hide SetAnnotations;
  }

  lemma Unchanged(dep: Annotations, ms: Annotations, maxOld: int, g: Goal)
    requires 0 <= maxOld < TWO_63 && OwnRevision(ms).Some? && Wrap64(maxOld + 1) <= OwnRevision(ms).value
    requires !AnyMissing(dep, ms)
    ensures SetAnnotations(dep, ms, NextRevision(maxOld), true, g) == Synced(ms, false)
  {
    CopySettles(dep, ms, Revision);
    Decimal.ParseFormat(Wrap64(maxOld + 1), TWO_63);
    hide Decimal.ParseInt, Decimal.Format, Copied, AnyMissing;
  }

  /** A set that has just been created is in sync already. */
  lemma CreatedIsSynced(want: Wanted, maxOld: int, g: Goal)
    requires 0 <= maxOld < TWO_63 - 1
    ensures var a := SetAnnotations(want.annotations, map[], NextRevision(maxOld), false, g).annotations;
      var ms := Settings(a, want.minReady, if want.policy.Some? then want.policy.value else "");
      && OwnRevision(a) == Some(maxOld + 1)
      && !ReplicasAnnotationsNeedUpdate(a, g)
      && Sync(want, ms, maxOld, g) == (ms, false)
  {
    var a := SetAnnotations(want.annotations, map[], NextRevision(maxOld), false, g).annotations;
    assert OwnRevision(map[]) == Some(0);
    AfterSync(want.annotations, map[], maxOld, false, g);
    Unchanged(want.annotations, a, maxOld, g);
    hide SetAnnotations, OwnRevision;
  }

  /**
   The new set's revision ends up above every old one, exactly when it parses and the largest old revision
   leaves room for a larger int64; otherwise the increment wraps around.
   */
  lemma NewestRevision(want: Wanted, ms: Settings, maxOld: int, g: Goal)
    requires 0 <= maxOld < TWO_63
    ensures var own := OwnRevision(Sync(want, ms, maxOld, g).0.annotations);
      own.Some? && maxOld < own.value <==> OwnRevision(ms.annotations).Some? && maxOld < TWO_63 - 1
  {
    hide SetAnnotations, OwnRevision, NextRevision, Copied, AnyMissing;
    AfterSync(want.annotations, ms.annotations, maxOld, true, g);
    if OwnRevision(ms.annotations).Some? && maxOld == TWO_63 - 1 { OwnBelow(ms.annotations); }
  }

  lemma OwnBelow(a: Annotations)
    requires OwnRevision(a).Some?
    ensures OwnRevision(a).value < TWO_63
  {
  }
}
