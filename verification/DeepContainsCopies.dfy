/** Comparing a value with a fresh copy of itself: DeepContains returns exactly when the value has no cycle that avoids
    addressable pointers, slices, maps and interfaces. */
module DeepContainsCopies {
  import opened Basics
  import opened Paths
  import opened DeepContains
  import opened DeepContainsProofs
  import opened DeepContainsTermination
  import opened DeepContainsReturns

  ghost predicate Images(xs: seq<Id>, ys: seq<Id>, copy: Id -> Id) {
    |xs| == |ys| && forall i :: 0 <= i < |xs| ==> ys[i] == copy(xs[i])
  }

  /** `y` is a copy of `x` in new storage, its parts copied by `copy`; functions are nil and visible scalars not NaN. */
  ghost predicate CopyOf(x: Shape, y: Shape, copy: Id -> Id) {
    match (x, y)
    case (Array(xs), Array(ys)) => Images(xs, ys, copy)
    case (Struct(xs), Struct(ys)) => Images(xs, ys, copy)
    case (Slice(isNil, d, xs), Slice(isNil', d', ys)) =>
      isNil == isNil' && Images(xs, ys, copy) && if isNil then xs == [] else d != d'
    case (Map(isNil, d, xs), Map(isNil', d', ys)) =>
      && isNil == isNil' && (if isNil then xs == [] else d != d')
      && |xs| == |ys| && forall i :: 0 <= i < |xs| ==> ys[i] == (xs[i].0, copy(xs[i].1))
    case (Interface(e), Interface(e')) => if e.None? then e'.None? else e' == Some(copy(e.value))
    case (Ptr(t, e), Ptr(t', e')) => if e.None? then e'.None? else t != t' && e' == Some(copy(e.value))
    case (Func(isNil), Func(isNil')) => isNil && isNil'
    case (Scalar(v, _, hidden, nan), Scalar(v', _, _, nan')) => v == v' && (hidden || (!nan && !nan'))
    case _ => false
  }

  function CopyPairs(s: set<Id>, copy: Id -> Id): set<(Id, Id)> { set i | i in s :: (i, copy(i)) }

  /** The cells in `s`, which holds all their parts, have fresh copies: at places of their own. */
  ghost predicate FreshCopy(h: Heap, s: set<Id>, copy: Id -> Id) {
    && (forall i :: i in s ==> i in h && copy(i) in h && h[i].typ == h[copy(i)].typ && CopyOf(h[i].shape, h[copy(i)].shape, copy))
    && (forall i, c :: i in s && c in Children(h[i].shape) ==> c in s)
    && UniqueKeys(h, CopyPairs(s, copy))
  }

  lemma FindAt(entries: seq<(int, Id)>, i: nat)
    requires i < |entries| && DistinctKeys(entries)
    ensures Find(entries, entries[i].0) == Some(entries[i].1)
  {
    var r := Find(entries, entries[i].0);
    assert r.Some?;
    var j :| 0 <= j < |entries| && entries[j] == (entries[i].0, r.value);
    assert i == j;
  }

  /** The step goes on to exactly the given parts with their copies. */
  ghost predicate GoesThrough(step: Step, parts: seq<Id>, copy: Id -> Id) {
    match step
    case Stop(result) => result && parts == []
    case Go(pairs) => |pairs| == |parts| && forall j :: 0 <= j < |parts| ==> pairs[j] == Some((parts[j], copy(parts[j])))
  }

  lemma CopyMapExpands(x: Shape, y: Shape, copy: Id -> Id)
    requires x.Map? && SameForm(x, y) && CopyOf(x, y, copy) && DistinctKeys(x.entries)
    ensures GoesThrough(Expand(x, y), Children(x), copy)
  {
    if !x.isNil {
      forall j | 0 <= j < |x.entries| ensures Find(x.entries, y.entries[j].0) == Some(x.entries[j].1) {
        FindAt(x.entries, j);
      }
    }
  }

  lemma CopySliceExpands(x: Shape, y: Shape, copy: Id -> Id)
    requires x.Slice? && SameForm(x, y) && CopyOf(x, y, copy)
    ensures GoesThrough(Expand(x, y), Children(x), copy)
  {}

  lemma CopyFlatExpands(x: Shape, y: Shape, copy: Id -> Id)
    requires !x.Map? && !x.Slice? && SameForm(x, y) && CopyOf(x, y, copy)
    ensures GoesThrough(Expand(x, y), Children(x), copy)
  {}

  /** Comparing a cell with its copy goes on to exactly its parts with theirs. */
  lemma CopyExpands(h: Heap, s: set<Id>, copy: Id -> Id, i: Id)
    requires WellFormed(h) && FreshCopy(h, s, copy) && i in s
    ensures SameForm(h[i].shape, h[copy(i)].shape)
    ensures GoesThrough(Expand(h[i].shape, h[copy(i)].shape), Children(h[i].shape), copy)
  {
    var x, y := h[i].shape, h[copy(i)].shape;
    assert SameForm(x, y) && CopyOf(x, y, copy);
    if x.Map? {
      CopyMapExpands(x, y, copy);
    } else if x.Slice? {
      CopySliceExpands(x, y, copy);
    } else {
      CopyFlatExpands(x, y, copy);
    }
  }

  lemma CopyGoesOn(h: Heap, s: set<Id>, copy: Id -> Id, i: Id, f: bool, v: Spot)
    requires WellFormed(h) && FreshCopy(h, s, copy) && i in s
    ensures GoesOn(h, (i, copy(i), f), v) <==>
            v.0 in Children(h[i].shape) && v.1 == copy(v.0) && v.2 == ChildAddressable(h[i].shape, f)
  {
    CopyExpands(h, s, copy, i);
    var step, parts := Expand(h[i].shape, h[copy(i)].shape), Children(h[i].shape);
    if step.Go? {
      if Some((v.0, v.1)) in step.pairs {
        var j :| 0 <= j < |step.pairs| && step.pairs[j] == Some((v.0, v.1));
        assert v.0 == parts[j] && v.1 == copy(parts[j]);
      }
      if v.0 in parts && v.1 == copy(v.0) {
        var j :| 0 <= j < |parts| && parts[j] == v.0;
        assert step.pairs[j] == Some((v.0, v.1));
      }
    }
  }

  lemma CopyIsContained(h: Heap, s: set<Id>, copy: Id -> Id, x: Id)
    requires WellFormed(h) && FreshCopy(h, s, copy) && x in s
    ensures PairClosed(h, CopyPairs(s, copy)) && Contains(h, x, copy(x))
  {
    var all := CopyPairs(s, copy);
    forall p | p in all ensures StepsInto(h, all, p) && Holds(h, all, p.0, p.1) {
      CopyExpands(h, s, copy, p.0);
      var step, parts := Expand(h[p.0].shape, h[p.1].shape), Children(h[p.0].shape);
      if step.Go? {
        forall j | 0 <= j < |step.pairs| ensures step.pairs[j].Some? && step.pairs[j].value in all {
          assert parts[j] in parts;
        }
      }
    }
    assert (x, copy(x)) in all && Consistent(h, all);
  }

  /** A step from a cell of the value into a part: what a slice or pointer leads to is addressable, what a map or interface
      holds is not, and the parts of arrays and structs are as these are. */
  ghost predicate PartStep(h: Heap, s: set<Id>, u: Place, v: Place) {
    u.0 in s && u.0 in h && v.0 in Children(h[u.0].shape) &&
    var x := h[u.0].shape;
    v.1 == (x.Slice? || x.Ptr? || ((x.Array? || x.Struct?) && u.1))
  }

  /** A step out of anything but an addressable pointer, slice, map or interface. */
  ghost predicate BarePartStep(h: Heap, s: set<Id>, u: Place, v: Place) {
    PartStep(h, s, u, v) && !(u.1 && (h[u.0].shape.Map? || h[u.0].shape.Slice? || h[u.0].shape.Ptr? || h[u.0].shape.Interface?))
  }

  ghost function Parts(h: Heap, s: set<Id>): (Place, Place) -> bool { (u: Place, v: Place) => PartStep(h, s, u, v) }
  ghost function BareParts(h: Heap, s: set<Id>): (Place, Place) -> bool { (u: Place, v: Place) => BarePartStep(h, s, u, v) }

  /** No part of the value is on a cycle that the visited set does not record. */
  ghost predicate NoBareCycle(h: Heap, s: set<Id>, x: Id) {
    forall u :: Reach(Parts(h, s), (x, false), u) ==> !Leads(BareParts(h, s), u, u)
  }

  lemma SpotsOfPlaces(h: Heap, s: set<Id>, copy: Id -> Id, x: Id)
    requires WellFormed(h) && FreshCopy(h, s, copy) && x in s && CyclesRecordedFrom(h, (x, copy(x), false))
    ensures NoBareCycle(h, s, x)
  {
    var spot := (u: Place) => (u.0, copy(u.0), u.1);
    var parts, bare, steps, bareSteps := Parts(h, s), BareParts(h, s), Steps(h), BareSteps(h);
    forall a, b | parts(a, b) ensures steps(spot(a), spot(b)) { CopyGoesOn(h, s, copy, a.0, a.1, spot(b)); }
    forall a, b | bare(a, b) ensures bareSteps(spot(a), spot(b)) { CopyGoesOn(h, s, copy, a.0, a.1, spot(b)); }
    forall u | Reach(parts, (x, false), u) ensures !Leads(bare, u, u) {
      if u != (x, false) { MapPath(parts, steps, spot, (x, false), u); }
      assert Reach(steps, (x, copy(x), false), spot(u));
      if Leads(bare, u, u) { MapPath(bare, bareSteps, spot, u, u); }
    }
  }

  ghost predicate IsCopySpot(s: set<Id>, copy: Id -> Id, u: Spot) { u.0 in s && u.1 == copy(u.0) }

  lemma SpotStepIsPart(h: Heap, s: set<Id>, copy: Id -> Id, a: Spot, b: Spot)
    requires WellFormed(h) && FreshCopy(h, s, copy) && IsCopySpot(s, copy, a) && GoesOn(h, a, b)
    ensures IsCopySpot(s, copy, b) && PartStep(h, s, (a.0, a.2), (b.0, b.2))
    ensures GoesOnBare(h, a, b) ==> BarePartStep(h, s, (a.0, a.2), (b.0, b.2))
  {
    CopyGoesOn(h, s, copy, a.0, a.2, b);
  }

  lemma PlacesOfSpots(h: Heap, s: set<Id>, copy: Id -> Id, x: Id)
    requires WellFormed(h) && FreshCopy(h, s, copy) && x in s && NoBareCycle(h, s, x)
    ensures CyclesRecordedFrom(h, (x, copy(x), false))
  {
    var place, within := (u: Spot) => (u.0, u.2), (u: Spot) => IsCopySpot(s, copy, u);
    var parts, bare, steps, bareSteps := Parts(h, s), BareParts(h, s), Steps(h), BareSteps(h);
    forall a, b | within(a) && steps(a, b) ensures within(b) && parts(place(a), place(b)) { SpotStepIsPart(h, s, copy, a, b); }
    forall a, b | within(a) && bareSteps(a, b) ensures within(b) && bare(place(a), place(b)) { SpotStepIsPart(h, s, copy, a, b); }
    var start: Spot := (x, copy(x), false);
    forall v | Reach(steps, start, v) ensures !Leads(bareSteps, v, v) {
      if v != start { MapWithin(steps, parts, within, place, start, v); }
      assert within(v) && Reach(parts, (x, false), place(v));
      if Leads(bareSteps, v, v) { MapWithin(bareSteps, bare, within, place, v, v); }
    }
  }

  /** DeepContains of a value without functions and NaNs and a fresh copy of it returns if and only if every cycle reached
      from the value passes through an addressable pointer, slice, map or interface. */
  lemma CopyReturnsIff(h: Heap, s: set<Id>, copy: Id -> Id, x: Id)
    requires WellFormed(h) && FreshCopy(h, s, copy) && x in s
    ensures (exists fuel :: Bounded(h, fuel, x, copy(x), false, {}).Some?) <==> NoBareCycle(h, s, x)
  {
    CopyIsContained(h, s, copy, x);
    ReturnsIff(h, CopyPairs(s, copy), x, copy(x));
    if CyclesRecordedFrom(h, (x, copy(x), false)) {
      SpotsOfPlaces(h, s, copy, x);
    }
    if NoBareCycle(h, s, x) {
      PlacesOfSpots(h, s, copy, x);
    }
  }
}
