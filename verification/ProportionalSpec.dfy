/**
 Proportional scaling of all active sets at once: shares with rounding, a running allowance and a
 leftover for the largest set (controllers/machinedeployment_sync.go, controllers/mdutil/util.go).
 */
module ProportionalSpec {
  import opened Basics
  import opened Fleet
  import opened Objects
  import Decimal

  // ---------------------------------------------------------------- shares

  lemma DivUnique(x: int, m: int, q: int, r: int)
    requires 0 < m && 0 <= r < m && x == q * m + r
    ensures x / m == q
  {
    var d := x / m - q;
    assert d * m == (x / m) * m - q * m == r - x % m;
    assert d >= 1 ==> d * m >= m;
    assert d <= -1 ==> d * m <= -m;
  }

  /** integer.RoundToInt32 of a quotient: to the nearest integer, halves away from zero. */
  function RoundDiv(num: int, den: int): int
    requires den != 0
  {
    var n, m := if num < 0 then -num else num, if den < 0 then -den else den;
    var q := (2 * n + m) / (2 * m);
    if (num < 0) == (den < 0) then q else -q
  }

  lemma RoundNearest(num: int, den: int)
    requires 0 <= num && 0 < den
    ensures var q := RoundDiv(num, den); 0 <= q && 2 * (q * den - num) <= den && 2 * (num - q * den) < den
  {
    var q, r := (2 * num + den) / (2 * den), (2 * num + den) % (2 * den);
    assert 2 * num + den == (2 * den) * q + r;
    assert (2 * den) * q == 2 * (q * den);
  }

  lemma RoundDivWhole(k: int, den: int)
    requires 0 <= k && 0 < den
    ensures RoundDiv(k * den, den) == k
  {
    assert 0 <= k * den;
    assert 2 * (k * den) + den == k * (2 * den) + den;
    DivUnique(2 * (k * den) + den, 2 * den, k, den);
  }

  /** Rounding does not depend on the signs: halves go away from zero. */
  lemma RoundSigns(num: int, den: int)
    requires den != 0
    ensures RoundDiv(-num, den) == RoundDiv(num, -den) == -RoundDiv(num, den)
  {
  }

  /** The size the deployment had when the set was last scaled, or its current size if that is not recorded. */
  function AnnotatedReplicas(m: MS, d: Deployment): int {
    match Decimal.ParseInt(Lookup(m.annotations, MaxReplicas), TWO_31)
    case Some(n) => n
    case None => d.statusReplicas
  }

  /** It is read back as it was written, and where there is nothing to read the deployment's status stands in. */
  lemma RecordedOrReported(m: MS, d: Deployment, n: int)
    ensures -TWO_31 <= n < TWO_31 && Lookup(m.annotations, MaxReplicas) == Decimal.Format(n) ==>
      AnnotatedReplicas(m, d) == n
    ensures Decimal.ParseInt(Lookup(m.annotations, MaxReplicas), TWO_31).None? ==>
      AnnotatedReplicas(m, d) == d.statusReplicas
  {
    hide Decimal.ParseInt, Decimal.Format;
    if -TWO_31 <= n < TWO_31 { Decimal.ParseFormat(n, TWO_31); }
  }

  /** The code divides by the annotated size and counts on it not being zero. */
  predicate Divisible(m: MS, d: Deployment) {
    d.replicas == 0 || AnnotatedReplicas(m, d) != 0
  }

  /** getMachineSetFraction; the product is an int32 product. */
  function Fraction(m: MS, d: Deployment): int
    requires Divisible(m, d)
  {
    if d.replicas == 0 then -m.spec
    else RoundDiv(Wrap32(m.spec * (d.replicas + MaxSurge(d))), AnnotatedReplicas(m, d)) - m.spec
  }

  /** A sane share: recorded against a positive size, computed without overflow. */
  predicate Scalable(m: MS, d: Deployment) {
    && 0 < m.spec
    && (d.replicas == 0 ||
        (0 < AnnotatedReplicas(m, d) && 0 <= m.spec * (d.replicas + MaxSurge(d)) < TWO_31))
  }

  predicate AllScalable(sets: seq<MS>, d: Deployment) {
    forall i | 0 <= i < |sets| :: Scalable(sets[i], d)
  }

  predicate AllDivisible(sets: seq<MS>, d: Deployment) {
    forall i | 0 <= i < |sets| :: Divisible(sets[i], d)
  }

  lemma FractionAtLeast(m: MS, d: Deployment)
    requires Scalable(m, d)
    ensures -m.spec <= Fraction(m, d)
  {
    hide MaxSurge;
    if d.replicas != 0 {
      RoundNearest(Wrap32(m.spec * (d.replicas + MaxSurge(d))), AnnotatedReplicas(m, d));
      hide RoundDiv;
    }
  }

  /**
   Proportionality: with its fraction a set has its share of the new size, as its old size was a share of the
   annotated one, rounded to the nearest integer.
   */
  lemma ShareIsNearest(m: MS, d: Deployment)
    requires Scalable(m, d) && d.replicas != 0
    ensures var n, a, size := m.spec * (d.replicas + MaxSurge(d)), AnnotatedReplicas(m, d), m.spec + Fraction(m, d);
      0 <= size && 2 * (size * a - n) <= a && 2 * (n - size * a) < a
  {
    hide MaxSurge;
    var n, a := m.spec * (d.replicas + MaxSurge(d)), AnnotatedReplicas(m, d);
    RoundNearest(n, a);
    hide RoundDiv;
    assert Wrap32(n) == n;
  }

  /** GetProportion. */
  function Proportion(m: MS, d: Deployment, toAdd: int, added: int): int
    requires Divisible(m, d)
  {
    if m.spec == 0 || toAdd == 0 || toAdd == added then 0
    else if toAdd > 0 then Min(Fraction(m, d), toAdd - added)
    else Max(Fraction(m, d), toAdd - added)
  }

  // ---------------------------------------------------------------- one pass

  function AllowedSize(d: Deployment): int {
    if d.replicas > 0 then d.replicas + MaxSurge(d) else 0
  }

  datatype Estimates = Estimates(sizes: seq<int>, added: int)

  /** The first loop: a size for every set, and the replicas added so far. */
  function Estimate(sets: seq<MS>, d: Deployment, toAdd: int, added: int): (e: Estimates)
    requires AllDivisible(sets, d)
    ensures |e.sizes| == |sets|
  {
    if sets == [] then Estimates([], added)
    else
      var p := if toAdd != 0 then Proportion(sets[0], d, toAdd, added) else 0;
      var rest := Estimate(sets[1..], d, toAdd, added + p);
      Estimates([sets[0].spec + p] + rest.sizes, rest.added)
  }

  function ToAdd(sets: seq<MS>, d: Deployment): int { AllowedSize(d) - Sum(sets, SpecOf) }

  /** The sizes written by the second loop: the first, largest set absorbs the leftover, down to zero. */
  function FinalSizes(sets: seq<MS>, d: Deployment): (r: seq<int>)
    requires AllDivisible(sets, d)
    ensures |r| == |sets|
  {
    var toAdd := ToAdd(sets, d);
    var e := Estimate(sets, d, toAdd, 0);
    if sets == [] || toAdd == 0 then e.sizes
    else [Max(0, e.sizes[0] + toAdd - e.added)] + e.sizes[1..]
  }

  datatype Resizing = Resizing(sets: seq<MS>, left: nat, ok: bool)

  /** Writing the sizes stops at the first refused write. */
  function Resize(sets: seq<MS>, sizes: seq<int>, g: Goal, accepts: nat): (r: Resizing)
    requires |sets| == |sizes|
    ensures |r.sets| == |sets|
  {
    if sets == [] then Resizing([], accepts, true)
    else
      var p := ScaleTo(sets[0], sizes[0], g, accepts);
      if !p.ok then Resizing(sets, p.left, false)
      else
        var rest := Resize(sets[1..], sizes[1..], g, p.left);
        Resizing([p.ms] + rest.sets, rest.left, rest.ok)
  }

  // ---------------------------------------------------------------- the total

  function SumInts(s: seq<int>): int {
    if s == [] then 0 else s[0] + SumInts(s[1..])
  }

  lemma {:induction false} EstimateSum(sets: seq<MS>, d: Deployment, toAdd: int, added: int)
    requires AllDivisible(sets, d)
    ensures var e := Estimate(sets, d, toAdd, added); SumInts(e.sizes) == Sum(sets, SpecOf) + e.added - added
  {
    if sets != [] {
      var p := if toAdd != 0 then Proportion(sets[0], d, toAdd, added) else 0;
      EstimateSum(sets[1..], d, toAdd, added + p);
    }
  }

  /** In the direction of scaling, the replicas added never pass the number to add, and no size goes negative. */
  lemma {:induction false} EstimateStaysInside(sets: seq<MS>, d: Deployment, toAdd: int, added: int)
    requires AllScalable(sets, d)
    requires if toAdd > 0 then added <= toAdd else toAdd <= added
    ensures var e := Estimate(sets, d, toAdd, added);
      && (if toAdd > 0 then e.added <= toAdd else toAdd <= e.added)
      && forall i | 0 <= i < |sets| :: 0 <= e.sizes[i]
  {
    if sets != [] {
      FractionAtLeast(sets[0], d);
      hide Fraction;
      var p := if toAdd != 0 then Proportion(sets[0], d, toAdd, added) else 0;
      EstimateStaysInside(sets[1..], d, toAdd, added + p);
    }
  }

  /** Estimated sizes of all sets but the largest. */
  function Others(sets: seq<MS>, d: Deployment): int
    requires AllDivisible(sets, d) && sets != []
  {
    SumInts(Estimate(sets, d, ToAdd(sets, d), 0).sizes[1..])
  }

  /**
   The total after a proportional pass: the allowed size, unless the other sets alone exceed it, in which
   case the largest is emptied. Scaling up always lands on the allowed size, so the clamp never fires.
   */
  lemma ProportionalTotal(sets: seq<MS>, d: Deployment)
    requires sets != [] && AllScalable(sets, d)
    ensures var r := FinalSizes(sets, d);
      && (forall i | 0 <= i < |r| :: 0 <= r[i])
      && SumInts(r) == Max(AllowedSize(d), Others(sets, d))
      && (0 <= ToAdd(sets, d) ==> SumInts(r) == AllowedSize(d))
  {
    hide Fraction, MaxSurge;
    var toAdd := ToAdd(sets, d);
    var e := Estimate(sets, d, toAdd, 0);
    EstimateSum(sets, d, toAdd, 0);
    EstimateStaysInside(sets, d, toAdd, 0);
    assert FinalSizes(sets, d)[1..] == e.sizes[1..];
    if toAdd == 0 { NothingToAdd(sets, d, 0); }
    SumIntsNonNegative(e.sizes);
    SumIntsNonNegative(e.sizes[1..]);
  }

  lemma {:induction false} SumIntsNonNegative(s: seq<int>)
    requires forall i | 0 <= i < |s| :: 0 <= s[i]
    ensures 0 <= SumInts(s)
  {
    if s != [] { SumIntsNonNegative(s[1..]); }
  }

  lemma {:induction false} NothingToAdd(sets: seq<MS>, d: Deployment, added: int)
    requires AllDivisible(sets, d)
    ensures Estimate(sets, d, 0, added).added == added
    ensures forall i | 0 <= i < |sets| :: Estimate(sets, d, 0, added).sizes[i] == sets[i].spec
  {
    if sets != [] { NothingToAdd(sets[1..], d, added); }
  }

  /** Scaling to zero empties every set in one pass. */
  lemma {:induction false} ScalingToZero(sets: seq<MS>, d: Deployment, toAdd: int, added: int)
    requires AllScalable(sets, d) && d.replicas == 0
    requires toAdd - added == -Sum(sets, SpecOf) && (sets != [] ==> toAdd < 0)
    ensures Estimate(sets, d, toAdd, added).added == toAdd
    ensures forall i | 0 <= i < |sets| :: Estimate(sets, d, toAdd, added).sizes[i] == 0
  {
    if sets != [] {
      SumNonNegative(sets[1..], SpecOf);
      ScalingToZero(sets[1..], d, toAdd, added - sets[0].spec);
      assert Proportion(sets[0], d, toAdd, added) == -sets[0].spec;
    }
  }

  lemma ProportionalToZero(sets: seq<MS>, d: Deployment, k: nat)
    requires AllScalable(sets, d) && d.replicas == 0 && k < |sets|
    ensures FinalSizes(sets, d)[k] == 0
  {
    SumNonNegative(sets, SpecOf);
    ScalingToZero(sets, d, ToAdd(sets, d), 0);
  }

  // ---------------------------------------------------------------- how much is added

  function FractionSum(sets: seq<MS>, d: Deployment): int
    requires AllDivisible(sets, d)
  {
    if sets == [] then 0 else Fraction(sets[0], d) + FractionSum(sets[1..], d)
  }

  /** Reached or passed in the direction of scaling. */
  predicate Past(toAdd: int, x: int) {
    if toAdd > 0 then toAdd <= x else x <= toAdd
  }

  /** Some run of leading sets, taking their full fractions, uses up all there is to add. */
  predicate Reached(sets: seq<MS>, d: Deployment, toAdd: int, added: int)
    requires AllDivisible(sets, d)
  {
    exists k | 0 <= k <= |sets| :: Past(toAdd, added + FractionSum(sets[..k], d))
  }

  lemma ReachedStep(sets: seq<MS>, d: Deployment, toAdd: int, added: int)
    requires sets != [] && AllDivisible(sets, d)
    ensures Reached(sets, d, toAdd, added)
      <==> Past(toAdd, added) || Reached(sets[1..], d, toAdd, added + Fraction(sets[0], d))
  {
    hide Fraction, Past;
    assert FractionSum(sets[..0], d) == 0;
    forall k | 1 <= k <= |sets|
      ensures FractionSum(sets[..k], d) == Fraction(sets[0], d) + FractionSum(sets[1..][..k - 1], d) {
      assert sets[..k][1..] == sets[1..][..k - 1];
    }
    if k :| 0 <= k <= |sets| && Past(toAdd, added + FractionSum(sets[..k], d)) {
      if k > 0 { assert Past(toAdd, added + Fraction(sets[0], d) + FractionSum(sets[1..][..k - 1], d)); }
    }
    if j :| 0 <= j <= |sets[1..]| && Past(toAdd, added + Fraction(sets[0], d) + FractionSum(sets[1..][..j], d)) {
      assert Past(toAdd, added + FractionSum(sets[..j + 1], d));
    }
  }

  /**
   The first loop in closed form: everything, if some run of leading fractions reaches it; otherwise all
   fractions.
   */
  lemma {:induction false} AddedExactly(sets: seq<MS>, d: Deployment, toAdd: int, added: int)
    requires AllDivisible(sets, d) && toAdd != 0 && forall i | 0 <= i < |sets| :: sets[i].spec != 0
    requires added == toAdd || !Past(toAdd, added)
    ensures Estimate(sets, d, toAdd, added).added
      == if Reached(sets, d, toAdd, added) then toAdd else added + FractionSum(sets, d)
  {
    if sets == [] {
      assert FractionSum(sets[..0], d) == 0;
    } else {
      ReachedStep(sets, d, toAdd, added);
      var p := Proportion(sets[0], d, toAdd, added);
      hide Fraction, Reached;
      AddedExactly(sets[1..], d, toAdd, added + p);
      if added == toAdd {
        AlreadyThere(sets[1..], d, toAdd);
      } else if p != Fraction(sets[0], d) {
        AlreadyThere(sets[1..], d, toAdd);
        Overshot(sets[1..], d, toAdd, added + Fraction(sets[0], d));
      }
    }
  }

  lemma AlreadyThere(sets: seq<MS>, d: Deployment, toAdd: int)
    requires AllDivisible(sets, d)
    ensures Reached(sets, d, toAdd, toAdd)
  {
    assert FractionSum(sets[..0], d) == 0 && Past(toAdd, toAdd + FractionSum(sets[..0], d));
  }

  lemma Overshot(sets: seq<MS>, d: Deployment, toAdd: int, x: int)
    requires AllDivisible(sets, d) && Past(toAdd, x)
    ensures Reached(sets, d, toAdd, x)
  {
    assert FractionSum(sets[..0], d) == 0 && Past(toAdd, x + FractionSum(sets[..0], d));
  }

  function Abs(x: int): int { if x < 0 then -x else x }

  /**
   The code's comment has the absolute value of the replicas added bounded by that of the replicas to
   add. Exactly: some run of leading fractions reaches the target, or all fractions together stay inside.
   */
  lemma CommentHoldsExactly(sets: seq<MS>, d: Deployment)
    requires AllDivisible(sets, d) && ToAdd(sets, d) != 0 && forall i | 0 <= i < |sets| :: sets[i].spec != 0
    ensures var toAdd := ToAdd(sets, d);
      Abs(Estimate(sets, d, toAdd, 0).added) <= Abs(toAdd)
      <==> Reached(sets, d, toAdd, 0) || Abs(FractionSum(sets, d)) <= Abs(toAdd)
  {
    AddedExactly(sets, d, ToAdd(sets, d), 0);
  }

  lemma {:induction false} EstimatePrefix(sets: seq<MS>, d: Deployment, toAdd: int, added: int, k: nat)
    requires AllDivisible(sets, d) && toAdd != 0 && k < |sets|
    ensures Estimate(sets, d, toAdd, added).sizes[k]
      == sets[k].spec + Proportion(sets[k], d, toAdd, Estimate(sets[..k], d, toAdd, added).added)
  {
    hide Proportion;
    if k == 0 {
      assert sets[..0] == [];
    } else {
      var p := Proportion(sets[0], d, toAdd, added);
      EstimatePrefix(sets[1..], d, toAdd, added + p, k - 1);
      assert sets[..k][1..] == sets[1..][..k - 1];
    }
  }

  /**
   Every size but the first in closed form: the set keeps its size once the sets before it have used up what
   there is to add, and otherwise takes its fraction as far as that goes.
   */
  lemma SizeExactly(sets: seq<MS>, d: Deployment, k: nat)
    requires AllDivisible(sets, d) && ToAdd(sets, d) != 0 && 1 <= k < |sets|
    requires forall i | 0 <= i < |sets| :: sets[i].spec != 0
    ensures var toAdd := ToAdd(sets, d);
      var room := toAdd - FractionSum(sets[..k], d);
      FinalSizes(sets, d)[k] == sets[k].spec +
        if Reached(sets[..k], d, toAdd, 0) then 0
        else if toAdd > 0 then Min(Fraction(sets[k], d), room) else Max(Fraction(sets[k], d), room)
  {
    var toAdd := ToAdd(sets, d);
    EstimatePrefix(sets, d, toAdd, 0, k);
    AddedExactly(sets[..k], d, toAdd, 0);
    if !Reached(sets[..k], d, toAdd, 0) { NotPast(sets[..k], d, toAdd); }
    hide Fraction, Estimate, Reached, AllowedSize, FractionSum;
  }

  lemma NotPast(sets: seq<MS>, d: Deployment, toAdd: int)
    requires AllDivisible(sets, d) && !Reached(sets, d, toAdd, 0)
    ensures !Past(toAdd, FractionSum(sets, d))
  {
    assert sets[..|sets|] == sets && !Past(toAdd, 0 + FractionSum(sets[..|sets|], d));
  }

  /**
   No size goes negative, exactly: of the sets that take a fraction, none loses more than it has, either by
   its fraction or because little enough is left to remove. The first set is never negative.
   */
  lemma NonNegativeExactly(sets: seq<MS>, d: Deployment, k: nat)
    requires AllDivisible(sets, d) && k < |sets| && forall i | 0 <= i < |sets| :: 0 < sets[i].spec
    ensures var toAdd := ToAdd(sets, d);
      0 <= FinalSizes(sets, d)[k] <==>
        || k == 0 || toAdd == 0 || Reached(sets[..k], d, toAdd, 0) || -sets[k].spec <= Fraction(sets[k], d)
        || (toAdd < 0 && -sets[k].spec <= toAdd - FractionSum(sets[..k], d))
  {
    var toAdd := ToAdd(sets, d);
    if toAdd == 0 {
      NothingToAdd(sets, d, 0);
    } else if k > 0 {
      SizeExactly(sets, d, k);
      if !Reached(sets[..k], d, toAdd, 0) { NotPast(sets[..k], d, toAdd); }
      hide Fraction, FinalSizes, Reached, AllowedSize, FractionSum;
    }
  }

  /** It fails for annotations recorded against a larger deployment: six replicas leave, two were to be added. */
  lemma CommentFails()
    ensures var d := Deployment(10, RollingUpdate, Int(0), Int(1), 0);
      var a := MS("a", 1, 4, 4, 4, map[MaxReplicas := "40"]);
      var b := MS("b", 2, 4, 4, 4, map[MaxReplicas := "40"]);
      && AllScalable([a, b], d) && ToAdd([a, b], d) == 2
      && Estimate([a, b], d, 2, 0).added == -6
      && FinalSizes([a, b], d) == [9, 1]
  {
    var d := Deployment(10, RollingUpdate, Int(0), Int(1), 0);
    var a := MS("a", 1, 4, 4, 4, map[MaxReplicas := "40"]);
    var b := MS("b", 2, 4, 4, 4, map[MaxReplicas := "40"]);
    assert "40"[..1] == "4" && Decimal.Digits("4") == 4 && Decimal.Digits("40") == 40;
    assert AnnotatedReplicas(a, d) == AnnotatedReplicas(b, d) == 40;
    assert MaxSurge(d) == 0;
    assert Fraction(a, d) == Fraction(b, d) == -3;
    hide Fraction, Decimal.ParseInt;
    SumPair(a, b, SpecOf);
    assert [a, b][1..] == [b] && [b][1..] == [];
    assert Estimate([b], d, 2, -3) == Estimates([1], -6);
  }

  lemma HundredThousand()
    ensures Decimal.ParseInt("100000", TWO_31) == Some(100000)
  {
    Decimal.ParseFormat(100000, TWO_31);
    assert Decimal.FormatNat(10) == "10" && Decimal.FormatNat(100) == "100" && Decimal.FormatNat(1000) == "1000";
    assert Decimal.FormatNat(10000) == "10000" && Decimal.FormatNat(100000) == "100000";
  }

  /** Overflow of the 32-bit product is not harmless: a set of thirty thousand replicas is sent below zero. */
  lemma OverflowGoesNegative()
    ensures var d := Deployment(100000, RollingUpdate, Int(0), Int(1), 0);
      var a := MS("a", 1, 60000, 60000, 60000, map[MaxReplicas := "100000"]);
      var b := MS("b", 2, 30000, 30000, 30000, map[MaxReplicas := "100000"]);
      AllDivisible([a, b], d) && FinalSizes([a, b], d)[1] == -12950
  {
    var d := Deployment(100000, RollingUpdate, Int(0), Int(1), 0);
    var a := MS("a", 1, 60000, 60000, 60000, map[MaxReplicas := "100000"]);
    var b := MS("b", 2, 30000, 30000, 30000, map[MaxReplicas := "100000"]);
    assert MaxSurge(d) == 0;
    HundredThousand();
    assert AnnotatedReplicas(a, d) == AnnotatedReplicas(b, d) == 100000 by { hide Decimal.ParseInt, MaxSurge; }
    hide AnnotatedReplicas, MaxSurge, Decimal.ParseInt;
    assert Fraction(a, d) == -42950 && Fraction(b, d) == -42950;
    hide Fraction;
    SumPair(a, b, SpecOf);
    assert ToAdd([a, b], d) == 10000;
    assert [a, b][1..] == [b] && [b][1..] == [];
    assert Estimate([b], d, 10000, -42950) == Estimates([-12950], -85900);
  }

  // ---------------------------------------------------------------- exact shares

  lemma ExactFraction(m: MS, d: Deployment, size: int)
    requires Scalable(m, d) && d.replicas != 0 && 0 <= size
    requires m.spec * (d.replicas + MaxSurge(d)) == size * AnnotatedReplicas(m, d)
    ensures Fraction(m, d) == size - m.spec
  {
    hide MaxSurge;
    var a := AnnotatedReplicas(m, d);
    RoundDivWhole(size, a);
    hide RoundDiv;
    assert Wrap32(size * a) == size * a;
  }

  /** Sizes in the same proportion as the sets, all recorded against one size. */
  predicate InProportion(sets: seq<MS>, d: Deployment, sizes: seq<int>, recorded: int) {
    && |sizes| == |sets|
    && forall i | 0 <= i < |sets| ::
      && AnnotatedReplicas(sets[i], d) == recorded && 0 <= sizes[i]
      && sets[i].spec * (d.replicas + MaxSurge(d)) == sizes[i] * recorded
  }

  /** Such sizes all differ from the present ones in the same direction. */
  lemma SameDirection(spec: int, size: int, allowed: int, recorded: int)
    requires 0 < spec && 0 < recorded && spec * allowed == size * recorded
    ensures (recorded < allowed ==> spec < size) && (allowed < recorded ==> size < spec)
  {
    assert recorded < allowed ==> spec * recorded < spec * allowed;
    assert allowed < recorded ==> spec * allowed < spec * recorded;
    assert size <= spec ==> size * recorded <= spec * recorded;
    assert spec <= size ==> spec * recorded <= size * recorded;
  }

  lemma SumProducts(a: int, b: int, n: int, x: int, y: int, m: int)
    requires a * n == x * m && b * n == y * m
    ensures (a + b) * n == (x + y) * m
  {
  }

  lemma {:induction false} ProportionSums(sets: seq<MS>, d: Deployment, sizes: seq<int>, recorded: int)
    requires AllScalable(sets, d) && d.replicas != 0 && 0 < recorded && InProportion(sets, d, sizes, recorded)
    ensures Sum(sets, SpecOf) * (d.replicas + MaxSurge(d)) == SumInts(sizes) * recorded
    ensures var n := d.replicas + MaxSurge(d);
      && (recorded < n ==> Sum(sets, SpecOf) <= SumInts(sizes) && (sets != [] ==> Sum(sets, SpecOf) < SumInts(sizes)))
      && (n < recorded ==> SumInts(sizes) <= Sum(sets, SpecOf) && (sets != [] ==> SumInts(sizes) < Sum(sets, SpecOf)))
  {
    hide MaxSurge, AnnotatedReplicas;
    if sets != [] {
      var n := d.replicas + MaxSurge(d);
      ProportionSums(sets[1..], d, sizes[1..], recorded);
      SameDirection(sets[0].spec, sizes[0], n, recorded);
      hide InProportion, Scalable;
      SumProducts(sets[0].spec, Sum(sets[1..], SpecOf), n, sizes[0], SumInts(sizes[1..]), recorded);
    }
  }

  /** A fraction that leads towards the target and not past it is taken whole. */
  lemma TakesShare(m: MS, d: Deployment, size: int, toAdd: int, added: int)
    requires Divisible(m, d) && m.spec != 0 && Fraction(m, d) == size - m.spec && toAdd != 0
    requires if toAdd > 0 then 0 < size - m.spec <= toAdd - added else toAdd - added <= size - m.spec < 0
    ensures Proportion(m, d, toAdd, added) == size - m.spec
  {
    hide Fraction;
  }

  /** The first of such sets, and the others. */
  lemma HeadMoves(sets: seq<MS>, d: Deployment, sizes: seq<int>, recorded: int)
    requires sets != [] && AllScalable(sets, d) && d.replicas != 0 && 0 < recorded
    requires InProportion(sets, d, sizes, recorded)
    ensures AllScalable(sets[1..], d) && InProportion(sets[1..], d, sizes[1..], recorded)
    ensures 0 < sets[0].spec && Fraction(sets[0], d) == sizes[0] - sets[0].spec
    ensures var n, more := d.replicas + MaxSurge(d), SumInts(sizes[1..]) - Sum(sets[1..], SpecOf);
      && (recorded < n ==> sets[0].spec < sizes[0] && 0 <= more)
      && (n < recorded ==> sizes[0] < sets[0].spec && more <= 0)
  {
    hide MaxSurge, AnnotatedReplicas;
    ExactFraction(sets[0], d, sizes[0]);
    ProportionSums(sets[1..], d, sizes[1..], recorded);
    SameDirection(sets[0].spec, sizes[0], d.replicas + MaxSurge(d), recorded);
  }

  lemma EstimateStep(sets: seq<MS>, d: Deployment, toAdd: int, added: int)
    requires AllDivisible(sets, d) && sets != [] && toAdd != 0
    ensures var p := Proportion(sets[0], d, toAdd, added);
      var rest := Estimate(sets[1..], d, toAdd, added + p);
      Estimate(sets, d, toAdd, added) == Estimates([sets[0].spec + p] + rest.sizes, rest.added)
  {
    hide Proportion;
  }

  lemma {:induction false} ExactEstimates(sets: seq<MS>, d: Deployment, sizes: seq<int>, recorded: int, toAdd: int,
                                          added: int)
    requires AllScalable(sets, d) && d.replicas != 0 && 0 < recorded && InProportion(sets, d, sizes, recorded)
    requires added + SumInts(sizes) - Sum(sets, SpecOf) == toAdd
    requires 0 < toAdd <==> recorded < d.replicas + MaxSurge(d)
    requires toAdd < 0 <==> d.replicas + MaxSurge(d) < recorded
    requires toAdd != 0
    ensures Estimate(sets, d, toAdd, added) == Estimates(sizes, toAdd)
  {
    assert |sizes| == |sets|;
    hide Fraction, MaxSurge, AnnotatedReplicas, InProportion, Scalable, Proportion;
    if sets != [] {
      assert SumInts(sizes) == sizes[0] + SumInts(sizes[1..]);
      assert Sum(sets, SpecOf) == sets[0].spec + Sum(sets[1..], SpecOf);
      hide Sum, SumInts;
      HeadMoves(sets, d, sizes, recorded);
      TakesShare(sets[0], d, sizes[0], toAdd, added);
      EstimateStep(sets, d, toAdd, added);
      hide Estimate;
      ExactEstimates(sets[1..], d, sizes[1..], recorded, toAdd, added + sizes[0] - sets[0].spec);
      assert sizes == [sizes[0]] + sizes[1..];
    } else {
      assert sizes == [];
    }
  }

  /**
   Scaling is proportional: sets that make up the recorded size, and whose shares of the allowed size are whole,
   get exactly those shares, whether the deployment grows or shrinks and in whatever order they are listed.
   */
  lemma ExactShares(sets: seq<MS>, d: Deployment, sizes: seq<int>, recorded: int)
    requires AllScalable(sets, d) && 0 < d.replicas && 0 < recorded && InProportion(sets, d, sizes, recorded)
    requires sets != [] && Sum(sets, SpecOf) == recorded
    ensures FinalSizes(sets, d) == sizes
  {
    var n := d.replicas + MaxSurge(d);
    ProportionSums(sets, d, sizes, recorded);
    hide MaxSurge, AnnotatedReplicas;
    Cancelled(recorded, n, SumInts(sizes));
    if n == recorded {
      NothingToAdd(sets, d, 0);
      forall i | 0 <= i < |sets| ensures FinalSizes(sets, d)[i] == sizes[i] {
        Cancelled(recorded, sets[i].spec, sizes[i]);
      }
    } else {
      ExactEstimates(sets, d, sizes, recorded, n - recorded, 0);
      hide Fraction, Estimate;
      assert sizes == [sizes[0]] + sizes[1..];
    }
  }

  lemma Cancelled(a: int, x: int, y: int)
    requires 0 < a && (a * x == y * a || x * a == y * a)
    ensures x == y
  {
    assert (x - y) * a == 0;
    assert x < y ==> (y - x) * a >= a;
    assert y < x ==> (x - y) * a >= a;
  }

  // ---------------------------------------------------------------- convergence

  lemma RefreshedFraction(m: MS, d: Deployment)
    requires 0 < d.replicas && 0 < d.replicas + MaxSurge(d) < TWO_31 && SteadySet(m, d)
    ensures Scalable(m, d) && Fraction(m, d) == 0
  {
    hide MaxSurge, RoundDiv, AnnotatedReplicas, Wrap32;
    var n := d.replicas + MaxSurge(d);
    RecordedSize(m, d);
    WholeShare(m.spec, n);
  }

  lemma RecordedSize(m: MS, d: Deployment)
    requires 0 <= d.replicas + MaxSurge(d) < TWO_31 && !ReplicasAnnotationsNeedUpdate(m.annotations, GoalOf(d))
    ensures AnnotatedReplicas(m, d) == d.replicas + MaxSurge(d)
  {
    hide MaxSurge, Decimal.ParseInt, Decimal.Format;
    Decimal.ParseFormat(d.replicas + MaxSurge(d), TWO_31);
  }

  lemma WholeShare(spec: int, n: int)
    requires 0 <= spec && 0 < n && spec * n < TWO_31
    ensures 0 <= spec * n && RoundDiv(Wrap32(spec * n), n) == spec
  {
    hide RoundDiv;
    RoundDivWhole(spec, n);
    var product := spec * n;
    assert 0 <= product;
    WrapSmall(product);
  }

  lemma WrapSmall(x: int)
    requires 0 <= x < TWO_31
    ensures Wrap32(x) == x
  {
  }

  /** Sets that a proportional pass handles without overflow, recorded against the current size. */
  predicate Steady(sets: seq<MS>, d: Deployment) {
    && 0 < d.replicas && 0 < d.replicas + MaxSurge(d) < TWO_31
    && forall i | 0 <= i < |sets| :: SteadySet(sets[i], d)
  }

  predicate SteadySet(m: MS, d: Deployment) {
    && 0 < m.spec && m.spec * (d.replicas + MaxSurge(d)) < TWO_31
    && !ReplicasAnnotationsNeedUpdate(m.annotations, GoalOf(d))
  }

  lemma {:induction false} SteadyEstimates(sets: seq<MS>, d: Deployment, toAdd: int)
    requires Steady(sets, d)
    ensures AllScalable(sets, d)
    ensures Estimate(sets, d, toAdd, 0).added == 0
    ensures forall i | 0 <= i < |sets| :: Estimate(sets, d, toAdd, 0).sizes[i] == sets[i].spec
  {
    if sets != [] {
      RefreshedFraction(sets[0], d);
      hide Fraction, MaxSurge, SteadySet, AnnotatedReplicas;
      SteadyEstimates(sets[1..], d, toAdd);
      assert forall i | 1 <= i < |sets| :: sets[i] == sets[1..][i - 1];
    }
  }

  /** With current annotations the whole difference goes to the first set, and every other keeps its size. */
  lemma SteadyPass(sets: seq<MS>, d: Deployment, k: nat)
    requires Steady(sets, d) && k < |sets|
    ensures AllScalable(sets, d)
    ensures FinalSizes(sets, d)[k] == if k == 0 then Max(0, sets[0].spec + ToAdd(sets, d)) else sets[k].spec
  {
    hide Estimate, MaxSurge, Fraction, Steady, SteadySet, AllowedSize, AnnotatedReplicas;
    SteadyEstimates(sets, d, ToAdd(sets, d));
    assert AllDivisible(sets, d);
    assert 0 < sets[0].spec by { assert Scalable(sets[0], d); }
    hide Scalable, Divisible;
  }

  lemma {:induction false} NothingToWrite(sets: seq<MS>, sizes: seq<int>, g: Goal, accepts: nat)
    requires |sets| == |sizes| && forall i | 0 <= i < |sets| ::
      sizes[i] == sets[i].spec && !ReplicasAnnotationsNeedUpdate(sets[i].annotations, g)
    ensures Resize(sets, sizes, g, accepts) == Resizing(sets, accepts, true)
  {
    if sets != [] { NothingToWrite(sets[1..], sizes[1..], g, accepts); }
  }

  /**
   A pass over sets of the allowed size with current annotations writes nothing: scaling has reached a fixed
   point.
   */
  lemma IdlePass(sets: seq<MS>, d: Deployment, accepts: nat)
    requires Steady(sets, d) && Sum(sets, SpecOf) == AllowedSize(d)
    ensures AllScalable(sets, d)
    ensures Resize(sets, FinalSizes(sets, d), GoalOf(d), accepts) == Resizing(sets, accepts, true)
  {
    SteadyEstimates(sets, d, 0);
    var g, sizes := GoalOf(d), FinalSizes(sets, d);
    forall i | 0 <= i < |sets|
      ensures sizes[i] == sets[i].spec && !ReplicasAnnotationsNeedUpdate(sets[i].annotations, g) {
      SteadyPass(sets, d, i);
      assert SteadySet(sets[i], d);
    }
    hide FinalSizes, MaxSurge, GoalOf, Steady, SteadySet, ReplicasAnnotationsNeedUpdate, Scalable;
    NothingToWrite(sets, sizes, g, accepts);
  }

  /** A pass that succeeds gives every set its size and the current annotations, and changes nothing else. */
  lemma {:induction false} ResizeExact(sets: seq<MS>, sizes: seq<int>, g: Goal, accepts: nat, k: nat)
    requires |sets| == |sizes| && k < |sets| && Resize(sets, sizes, g, accepts).ok
    ensures var m := Resize(sets, sizes, g, accepts).sets[k];
      && m == sets[k].(spec := sizes[k], annotations := m.annotations)
      && !ReplicasAnnotationsNeedUpdate(m.annotations, g)
  {
    var p := ScaleTo(sets[0], sizes[0], g, accepts);
    if k > 0 { ResizeExact(sets[1..], sizes[1..], g, p.left, k - 1); }
  }

  function Excess(sets: seq<MS>, d: Deployment): int { Max(0, Sum(sets, SpecOf) - AllowedSize(d)) }

  /** FilterActiveMachineSets. */
  function Active(sets: seq<MS>): (r: seq<MS>)
    ensures |r| <= |sets|
  {
    if sets == [] then [] else (if 0 < sets[0].spec then [sets[0]] else []) + Active(sets[1..])
  }

  lemma {:induction false} ActiveExact(sets: seq<MS>, m: MS)
    ensures m in Active(sets) <==> m in sets && 0 < m.spec
  {
    if sets != [] {
      ActiveExact(sets[1..], m);
      assert sets == [sets[0]] + sets[1..];
    }
  }

  lemma {:induction false} ActiveSum(sets: seq<MS>)
    requires forall i | 0 <= i < |sets| :: 0 <= sets[i].spec
    ensures Sum(Active(sets), SpecOf) == Sum(sets, SpecOf)
    ensures (exists i | 0 <= i < |sets| :: sets[i].spec == 0) ==> |Active(sets)| < |sets|
  {
    if sets != [] {
      ActiveSum(sets[1..]);
      var first := if 0 < sets[0].spec then [sets[0]] else [];
      SumAppend(first, Active(sets[1..]), SpecOf);
      assert first != [] ==> first[1..] == [];
      assert forall i | 1 <= i < |sets| :: sets[i] == sets[1..][i - 1];
    }
  }

  /** One proportional pass over the active sets `s`, as sorted for scaling down, leads to the active sets `t`. */
  predicate PassLeadsTo(s: seq<MS>, d: Deployment, accepts: nat, t: seq<MS>) {
    && AllDivisible(s, d) && Sorted(BySizeOlder, s)
    && var r := Resize(s, FinalSizes(s, d), GoalOf(d), accepts);
       r.ok && multiset(t) == multiset(Active(r.sets))
  }

  lemma {:induction false} SumSizes(sets: seq<MS>, sizes: seq<int>)
    requires |sets| == |sizes| && forall i | 0 <= i < |sets| :: sets[i].spec == sizes[i]
    ensures Sum(sets, SpecOf) == SumInts(sizes)
  {
    if sets != [] { SumSizes(sets[1..], sizes[1..]); }
  }

  /** The total a steady pass leads to. */
  lemma SteadyTotal(s: seq<MS>, d: Deployment)
    requires Steady(s, d) && s != [] && AllowedSize(d) <= Sum(s, SpecOf)
    ensures AllScalable(s, d)
    ensures SumInts(FinalSizes(s, d)) == Sum(s, SpecOf) - Min(s[0].spec, Excess(s, d))
  {
    SteadyEstimates(s, d, ToAdd(s, d));
    ProportionalTotal(s, d);
    var e := Estimate(s, d, ToAdd(s, d), 0);
    hide Estimate, MaxSurge, Fraction, FinalSizes, Scalable, Steady;
    SumSizes(s[1..], e.sizes[1..]);
    assert Sum(s, SpecOf) == s[0].spec + Sum(s[1..], SpecOf);
  }

  lemma MulMonotone(a: int, b: int, c: int)
    requires a <= b && 0 <= c
    ensures a * c <= b * c
  {
  }

  lemma SteadySpec(s: seq<MS>, d: Deployment, k: nat)
    requires Steady(s, d) && k < |s| && AllowedSize(d) <= Sum(s, SpecOf)
    ensures AllScalable(s, d) && 0 <= FinalSizes(s, d)[k] <= s[k].spec
  {
    SteadyPass(s, d, k);
    assert 0 < s[k].spec;
    hide FinalSizes, MaxSurge, Scalable, Steady;
  }

  /** Every set after a steady pass, before the empty ones are dropped. */
  lemma SteadySets(s: seq<MS>, d: Deployment, accepts: nat, k: nat)
    requires Steady(s, d) && k < |s| && AllowedSize(d) <= Sum(s, SpecOf) && AllDivisible(s, d)
    requires Resize(s, FinalSizes(s, d), GoalOf(d), accepts).ok
    ensures var m := Resize(s, FinalSizes(s, d), GoalOf(d), accepts).sets[k];
      && 0 <= m.spec == FinalSizes(s, d)[k]
      && (m.spec == 0 || SteadySet(m, d))
  {
    SteadySpec(s, d, k);
    var sizes, g, n := FinalSizes(s, d), GoalOf(d), d.replicas + MaxSurge(d);
    hide FinalSizes, MaxSurge, GoalOf, Scalable, ReplicasAnnotationsNeedUpdate, Divisible;
    assert s[k].spec * n < TWO_31 && 0 < n;
    hide Steady;
    ResizeExact(s, sizes, g, accepts, k);
    MulMonotone(sizes[k], s[k].spec, n);
  }

  /**
   One steady pass at or above the allowed size removes from the largest set, and from no other, as much
   of the excess as that set has: either the excess is gone or a set is.
   */
  lemma ExcessShrinks(s: seq<MS>, d: Deployment, accepts: nat, t: seq<MS>)
    requires Steady(s, d) && s != [] && AllowedSize(d) <= Sum(s, SpecOf) && PassLeadsTo(s, d, accepts, t)
    ensures Steady(t, d) && AllowedSize(d) <= Sum(t, SpecOf)
    ensures forall i | 0 <= i < |s| :: s[i].spec <= s[0].spec
    ensures Sum(t, SpecOf) == Sum(s, SpecOf) - Min(s[0].spec, Excess(s, d))
    ensures |t| <= |s| && (Excess(t, d) == 0 || |t| < |s|)
  {
    LargestFirst(s);
    SteadyTotal(s, d);
    SteadyAfter(s, d, accepts, t);
    hide FinalSizes, Resize, GoalOf, Scalable, Active, Excess, Less, AllowedSize, SteadySet;
    var r := Resize(s, FinalSizes(s, d), GoalOf(d), accepts);
    forall k | 0 <= k < |s| ensures 0 <= r.sets[k].spec && r.sets[k].spec == FinalSizes(s, d)[k] {
      SteadySets(s, d, accepts, k);
    }
    SumSizes(r.sets, FinalSizes(s, d));
    ActiveSum(r.sets);
    SumPermuted(t, Active(r.sets), SpecOf);
    SameElements(t, Active(r.sets));
    ExcessOrSet(s, d, t, r.sets);
  }

  lemma LargestFirst(s: seq<MS>)
    requires Sorted(BySizeOlder, s)
    ensures forall i | 0 <= i < |s| :: s[i].spec <= s[0].spec
  {
    forall i | 0 <= i < |s| ensures s[i].spec <= s[0].spec {
      assert i > 0 ==> !Less(BySizeOlder, s[i], s[0]);
    }
  }

  lemma ExcessOrSet(s: seq<MS>, d: Deployment, t: seq<MS>, after: seq<MS>)
    requires Steady(s, d) && s != [] && AllowedSize(d) <= Sum(s, SpecOf) && AllScalable(s, d)
    requires |after| == |s| && after[0].spec == FinalSizes(s, d)[0]
    requires Sum(t, SpecOf) == Sum(s, SpecOf) - Min(s[0].spec, Excess(s, d))
    requires |t| <= |s| && (after[0].spec == 0 ==> |t| < |s|)
    ensures AllowedSize(d) <= Sum(t, SpecOf) && (Excess(t, d) == 0 || |t| < |s|)
  {
    SteadyPass(s, d, 0);
    hide FinalSizes, MaxSurge, Scalable, Steady;
  }

  lemma SteadyAfter(s: seq<MS>, d: Deployment, accepts: nat, t: seq<MS>)
    requires Steady(s, d) && s != [] && AllowedSize(d) <= Sum(s, SpecOf) && PassLeadsTo(s, d, accepts, t)
    ensures Steady(t, d)
  {
    hide FinalSizes, Resize, MaxSurge, GoalOf, Less, SteadySet;
    var r := Resize(s, FinalSizes(s, d), GoalOf(d), accepts);
    forall k | 0 <= k < |s| ensures 0 <= r.sets[k].spec && (r.sets[k].spec == 0 || SteadySet(r.sets[k], d)) {
      SteadySets(s, d, accepts, k);
    }
    ActiveSteady(r.sets, d, t);
  }

  /**
   Any first pass over sane shares, growing or shrinking, leaves the active sets with current annotations
   and a total no lower than the allowed size, which is where convergence starts.
   */
  lemma FirstPassSteadies(s: seq<MS>, d: Deployment, accepts: nat, t: seq<MS>)
    requires s != [] && AllScalable(s, d) && 0 < d.replicas && 0 < d.replicas + MaxSurge(d) < TWO_31
    requires forall i | 0 <= i < |s| :: FinalSizes(s, d)[i] * (d.replicas + MaxSurge(d)) < TWO_31
    requires var r := Resize(s, FinalSizes(s, d), GoalOf(d), accepts); r.ok && multiset(t) == multiset(Active(r.sets))
    ensures Steady(t, d) && AllowedSize(d) <= Sum(t, SpecOf)
  {
    ProportionalTotal(s, d);
    var sizes, n, g := FinalSizes(s, d), d.replicas + MaxSurge(d), GoalOf(d);
    hide FinalSizes, MaxSurge, GoalOf, Scalable, AllowedSize, ReplicasAnnotationsNeedUpdate;
    var r := Resize(s, sizes, g, accepts);
    forall k | 0 <= k < |s|
      ensures 0 <= r.sets[k].spec == sizes[k] && (r.sets[k].spec == 0 || SteadySet(r.sets[k], d)) {
      ResizeExact(s, sizes, g, accepts, k);
      assert sizes[k] * n < TWO_31;
    }
    hide Resize, SteadySet;
    ActiveSteady(r.sets, d, t);
    SumSizes(r.sets, sizes);
  }

  lemma ActiveSteady(after: seq<MS>, d: Deployment, t: seq<MS>)
    requires multiset(t) == multiset(Active(after))
    requires forall k | 0 <= k < |after| :: 0 <= after[k].spec && (after[k].spec == 0 || SteadySet(after[k], d))
    ensures Sum(t, SpecOf) == Sum(after, SpecOf)
    ensures forall i | 0 <= i < |t| :: SteadySet(t[i], d)
  {
    hide SteadySet, Active;
    ActiveSum(after);
    SumPermuted(t, Active(after), SpecOf);
    SameElements(t, Active(after));
    forall i | 0 <= i < |t| ensures SteadySet(t[i], d) {
      assert t[i] in Active(after);
      ActiveExact(after, t[i]);
      var k :| 0 <= k < |after| && after[k] == t[i];
    }
  }
}
