/** When DeepContains returns. The recursion is followed level by level, without assuming that it ends. */
module DeepContainsTermination {
  import opened Basics
  import opened Paths
  import opened DeepContains

  ghost predicate BothIn(h: Heap, pairs: seq<Option<(Id, Id)>>) {
    forall i :: 0 <= i < |pairs| && pairs[i].Some? ==> pairs[i].value.0 in h && pairs[i].value.1 in h
  }

  /** The recursion cut off after `fuel` levels; None means it has not returned by then. */
  ghost function Bounded(h: Heap, fuel: nat, a: Id, b: Id, f: bool, visited: set<Visit>): Option<(bool, set<Visit>)>
    requires WellFormed(h) && a in h && b in h
    decreases fuel, 0
  {
    if fuel == 0 then None
    else if h[a].typ != h[b].typ then Some((false, visited))
    else if Recorded(h, a, f) && VisitOf(h, a, b) in visited then Some((true, visited))
    else
      ExpandStays(h, a, b);
      var visited' := if Recorded(h, a, f) then visited + {VisitOf(h, a, b)} else visited;
      match Expand(h[a].shape, h[b].shape)
      case Stop(result) => Some((result, visited'))
      case Go(pairs) => BoundedAll(h, fuel - 1, pairs, ChildAddressable(h[a].shape, f), visited')
  }

  ghost function BoundedAll(h: Heap, fuel: nat, pairs: seq<Option<(Id, Id)>>, f: bool, visited: set<Visit>)
    : Option<(bool, set<Visit>)>
    requires WellFormed(h)
    requires BothIn(h, pairs)
    decreases fuel, |pairs|
  {
    if pairs == [] then Some((true, visited))
    else if pairs[0].None? then Some((false, visited))
    else
      match Bounded(h, fuel, pairs[0].value.0, pairs[0].value.1, f, visited)
      case None => None
      case Some(first) => if !first.0 then Some(first) else BoundedAll(h, fuel, pairs[1..], f, first.1)
  }

  /** Where a ranking exists the cut-off recursion, once it returns, returns what Deep says. */
  lemma {:induction false} BoundedAgrees(h: Heap, k: Ranking, fuel: nat, a: Id, b: Id, f: bool, visited: set<Visit>)
    requires WellFormed(h) && Ranked(h, k) && a in h && b in h
    ensures Bounded(h, fuel, a, b, f, visited).Some? ==> Bounded(h, fuel, a, b, f, visited).value == Deep(h, k, a, b, f, visited)
    decreases fuel, 0
  {
    if fuel > 0 && h[a].typ == h[b].typ && !(Recorded(h, a, f) && VisitOf(h, a, b) in visited) {
      ExpandStays(h, a, b);
      var step := Expand(h[a].shape, h[b].shape);
      if step.Go? {
        var f' := ChildAddressable(h[a].shape, f);
        if Recorded(h, a, f) {
          BoundedAllAgrees(h, k, fuel - 1, step.pairs, f', visited + {VisitOf(h, a, b)}, k.limit);
        } else {
          BoundedAllAgrees(h, k, fuel - 1, step.pairs, f', visited, k.rank(a, f));
        }
      }
    }
  }

  lemma {:induction false} BoundedAllAgrees(h: Heap, k: Ranking, fuel: nat, pairs: seq<Option<(Id, Id)>>, f: bool,
                                            visited: set<Visit>, bound: nat)
    requires WellFormed(h) && Ranked(h, k) && PairsBelow(h, k, pairs, f, bound)
    ensures BoundedAll(h, fuel, pairs, f, visited).Some? ==>
            BoundedAll(h, fuel, pairs, f, visited).value == DeepAll(h, k, pairs, f, visited, bound)
    decreases fuel, |pairs|
  {
    if pairs != [] && pairs[0].Some? {
      BoundedAgrees(h, k, fuel, pairs[0].value.0, pairs[0].value.1, f, visited);
      var first := Deep(h, k, pairs[0].value.0, pairs[0].value.1, f, visited);
      BoundedAllAgrees(h, k, fuel, pairs[1..], f, first.1, bound);
    }
  }

  lemma {:induction false} BoundedGrows(h: Heap, fuel: nat, a: Id, b: Id, f: bool, visited: set<Visit>)
    requires WellFormed(h) && a in h && b in h && Bounded(h, fuel, a, b, f, visited).Some?
    ensures visited <= Bounded(h, fuel, a, b, f, visited).value.1
    decreases fuel, 0
  {
    if h[a].typ == h[b].typ && !(Recorded(h, a, f) && VisitOf(h, a, b) in visited) {
      ExpandStays(h, a, b);
      var step := Expand(h[a].shape, h[b].shape);
      if step.Go? {
        var visited' := if Recorded(h, a, f) then visited + {VisitOf(h, a, b)} else visited;
        BoundedAllGrows(h, fuel - 1, step.pairs, ChildAddressable(h[a].shape, f), visited');
      }
    }
  }

  lemma {:induction false} BoundedAllGrows(h: Heap, fuel: nat, pairs: seq<Option<(Id, Id)>>, f: bool, visited: set<Visit>)
    requires WellFormed(h) && BothIn(h, pairs) && BoundedAll(h, fuel, pairs, f, visited).Some?
    ensures visited <= BoundedAll(h, fuel, pairs, f, visited).value.1
    decreases fuel, |pairs|
  {
    if pairs != [] && pairs[0].Some? {
      var p := pairs[0].value;
      BoundedGrows(h, fuel, p.0, p.1, f, visited);
      var first := Bounded(h, fuel, p.0, p.1, f, visited).value;
      if first.0 { BoundedAllGrows(h, fuel, pairs[1..], f, first.1); }
    }
  }

  lemma {:induction false} MoreFuel(h: Heap, fuel: nat, more: nat, a: Id, b: Id, f: bool, visited: set<Visit>)
    requires WellFormed(h) && a in h && b in h && fuel <= more && Bounded(h, fuel, a, b, f, visited).Some?
    ensures Bounded(h, more, a, b, f, visited) == Bounded(h, fuel, a, b, f, visited)
    decreases fuel, 0
  {
    if h[a].typ == h[b].typ && !(Recorded(h, a, f) && VisitOf(h, a, b) in visited) {
      ExpandStays(h, a, b);
      var step := Expand(h[a].shape, h[b].shape);
      if step.Go? {
        var visited' := if Recorded(h, a, f) then visited + {VisitOf(h, a, b)} else visited;
        MoreFuelAll(h, fuel - 1, more - 1, step.pairs, ChildAddressable(h[a].shape, f), visited');
      }
    }
  }

  lemma {:induction false} MoreFuelAll(h: Heap, fuel: nat, more: nat, pairs: seq<Option<(Id, Id)>>, f: bool, visited: set<Visit>)
    requires WellFormed(h) && fuel <= more
    requires BothIn(h, pairs)
    requires BoundedAll(h, fuel, pairs, f, visited).Some?
    ensures BoundedAll(h, more, pairs, f, visited) == BoundedAll(h, fuel, pairs, f, visited)
    decreases fuel, |pairs|
  {
    if pairs != [] && pairs[0].Some? {
      var p := pairs[0].value;
      MoreFuel(h, fuel, more, p.0, p.1, f, visited);
      var first := Bounded(h, fuel, p.0, p.1, f, visited).value;
      if first.0 {
        MoreFuelAll(h, fuel, more, pairs[1..], f, first.1);
      }
    }
  }

  // ---- The graph of comparisons ----

  /** A pair of cells and whether they are reached as addressable values. */
  type Spot = (Id, Id, bool)

  /** Comparing `u` goes on to compare `v`. */
  ghost predicate GoesOn(h: Heap, u: Spot, v: Spot) {
    && u.0 in h && u.1 in h && h[u.0].typ == h[u.1].typ && SameForm(h[u.0].shape, h[u.1].shape)
    && var step := Expand(h[u.0].shape, h[u.1].shape);
       step.Go? && Some((v.0, v.1)) in step.pairs && v.2 == ChildAddressable(h[u.0].shape, u.2)
  }

  /** And leaves no trace in the visited set. */
  ghost predicate GoesOnBare(h: Heap, u: Spot, v: Spot) { GoesOn(h, u, v) && !Recorded(h, u.0, u.2) }

  ghost function Steps(h: Heap): (Spot, Spot) -> bool { (u, v) => GoesOn(h, u, v) }
  ghost function BareSteps(h: Heap): (Spot, Spot) -> bool { (u, v) => GoesOnBare(h, u, v) }

  function Spots(h: Heap): set<Spot> { set a, b, f | a in h.Keys && b in h.Keys && f in {true, false} :: (a, b, f) }

  /** From `u` on, every cycle passes through a pair that the visited set records. */
  ghost predicate CyclesRecordedFrom(h: Heap, u: Spot) {
    forall v :: Reach(Steps(h), u, v) ==> !Leads(BareSteps(h), v, v)
  }

  ghost function Left(h: Heap, u: Spot): nat { |Ahead(BareSteps(h), Spots(h), u)| }

  lemma NextSpot(h: Heap, u: Spot, v: Spot)
    requires WellFormed(h) && GoesOn(h, u, v) && CyclesRecordedFrom(h, u)
    ensures v in Spots(h) && CyclesRecordedFrom(h, v) && (!Recorded(h, u.0, u.2) ==> Left(h, v) < Left(h, u))
    ensures Left(h, v) <= |Spots(h)|
  {
    ExpandStays(h, u.0, u.1);
    var steps := Steps(h);
    assert steps(u, v);
    forall w | Reach(steps, v, w) ensures !Leads(BareSteps(h), w, w) {
      StepThenReach(steps, u, v, w);
    }
    assert Reach(steps, v, v);
    if !Recorded(h, u.0, u.2) {
      assert BareSteps(h)(u, v);
      AheadShrinks(BareSteps(h), Spots(h), u, v);
    }
    SubsetSize(Ahead(BareSteps(h), Spots(h), v), Spots(h));
  }

  // ---- It returns where every cycle is recorded ----

  ghost predicate SpotsBelow(h: Heap, pairs: seq<Option<(Id, Id)>>, f: bool, bound: nat) {
    forall i :: 0 <= i < |pairs| && pairs[i].Some? ==>
      var u := (pairs[i].value.0, pairs[i].value.1, f);
      u in Spots(h) && CyclesRecordedFrom(h, u) && Left(h, u) < bound
  }

  lemma NextSpots(h: Heap, a: Id, b: Id, f: bool, pairs: seq<Option<(Id, Id)>>, f': bool, bound: nat)
    requires WellFormed(h) && a in h && b in h && h[a].typ == h[b].typ && CyclesRecordedFrom(h, (a, b, f))
    requires Expand(h[a].shape, h[b].shape) == Go(pairs) && f' == ChildAddressable(h[a].shape, f)
    requires bound == if Recorded(h, a, f) then |Spots(h)| + 1 else Left(h, (a, b, f))
    ensures SpotsBelow(h, pairs, f', bound)
  {
    forall i | 0 <= i < |pairs| && pairs[i].Some?
      ensures var u := (pairs[i].value.0, pairs[i].value.1, f');
              u in Spots(h) && CyclesRecordedFrom(h, u) && Left(h, u) < bound
    {
      assert pairs[i] == Some((pairs[i].value.0, pairs[i].value.1));
      NextSpot(h, (a, b, f), (pairs[i].value.0, pairs[i].value.1, f'));
    }
  }

  lemma {:induction false} Returns(h: Heap, a: Id, b: Id, f: bool, visited: set<Visit>) returns (fuel: nat)
    requires WellFormed(h) && a in h && b in h && CyclesRecordedFrom(h, (a, b, f))
    ensures Bounded(h, fuel, a, b, f, visited).Some?
    decreases Visits(h) - visited, 2 * Left(h, (a, b, f)) + 1, 0
  {
    fuel := 1;
    if h[a].typ == h[b].typ && !(Recorded(h, a, f) && VisitOf(h, a, b) in visited) {
      ExpandStays(h, a, b);
      var step := Expand(h[a].shape, h[b].shape);
      if step.Go? {
        var f' := ChildAddressable(h[a].shape, f);
        var bound := if Recorded(h, a, f) then |Spots(h)| + 1 else Left(h, (a, b, f));
        NextSpots(h, a, b, f, step.pairs, f', bound);
        var visited' := if Recorded(h, a, f) then visited + {VisitOf(h, a, b)} else visited;
        if Recorded(h, a, f) { FewerLeft(h, a, b, visited); }
        fuel := ReturnsAll(h, step.pairs, f', visited', bound);
        OneLevelMore(h, fuel, a, b, f, visited, visited');
        fuel := fuel + 1;
      }
    }
  }

  lemma FewerLeft(h: Heap, a: Id, b: Id, visited: set<Visit>)
    requires a in h && b in h && VisitOf(h, a, b) !in visited
    ensures Visits(h) - (visited + {VisitOf(h, a, b)}) < Visits(h) - visited
  {
    assert VisitOf(h, a, b) in Visits(h) - visited;
  }

  lemma OneLevelMore(h: Heap, fuel: nat, a: Id, b: Id, f: bool, visited: set<Visit>, visited': set<Visit>)
    requires WellFormed(h) && a in h && b in h && h[a].typ == h[b].typ && !(Recorded(h, a, f) && VisitOf(h, a, b) in visited)
    requires visited' == if Recorded(h, a, f) then visited + {VisitOf(h, a, b)} else visited
    requires var step := Expand(h[a].shape, h[b].shape);
             step.Go? && BothIn(h, step.pairs) && BoundedAll(h, fuel, step.pairs, ChildAddressable(h[a].shape, f), visited').Some?
    ensures Bounded(h, fuel + 1, a, b, f, visited).Some?
  {}

  lemma {:induction false} ReturnsAll(h: Heap, pairs: seq<Option<(Id, Id)>>, f: bool, visited: set<Visit>, bound: nat)
    returns (fuel: nat)
    requires WellFormed(h) && BothIn(h, pairs) && SpotsBelow(h, pairs, f, bound)
    ensures BoundedAll(h, fuel, pairs, f, visited).Some?
    decreases Visits(h) - visited, 2 * bound, |pairs|
  {
    fuel := 0;
    if pairs != [] && pairs[0].Some? {
      var p := pairs[0].value;
      fuel := Returns(h, p.0, p.1, f, visited);
      var first := Bounded(h, fuel, p.0, p.1, f, visited).value;
      if first.0 {
        BoundedGrows(h, fuel, p.0, p.1, f, visited);
        var later := ReturnsAll(h, pairs[1..], f, first.1, bound);
        var enough := if later > fuel then later else fuel;
        MoreFuel(h, fuel, enough, p.0, p.1, f, visited);
        MoreFuelAll(h, later, enough, pairs[1..], f, first.1);
        fuel := enough;
      }
    }
  }
}
