/** Exactly when DeepContains returns on contained values, and when its termination measure exists. */
module DeepContainsReturns {
  import opened Basics
  import opened Paths
  import opened DeepContains
  import opened DeepContainsProofs
  import opened DeepContainsTermination

  // ---- Whatever is contained is never found not to be ----

  lemma {:induction false} NeverFalse(h: Heap, r: set<(Id, Id)>, fuel: nat, a: Id, b: Id, f: bool, visited: set<Visit>)
    requires WellFormed(h) && Consistent(h, r) && (a, b) in r && a in h && b in h && Bounded(h, fuel, a, b, f, visited).Some?
    ensures Bounded(h, fuel, a, b, f, visited).value.0
    decreases fuel, 0
  {
    assert Holds(h, r, a, b);
    if !(Recorded(h, a, f) && VisitOf(h, a, b) in visited) {
      ExpandStays(h, a, b);
      var step := Expand(h[a].shape, h[b].shape);
      if step.Go? {
        var visited' := if Recorded(h, a, f) then visited + {VisitOf(h, a, b)} else visited;
        NeverFalseAll(h, r, fuel - 1, step.pairs, ChildAddressable(h[a].shape, f), visited');
      }
    }
  }

  lemma {:induction false} NeverFalseAll(h: Heap, r: set<(Id, Id)>, fuel: nat, pairs: seq<Option<(Id, Id)>>, f: bool,
                                         visited: set<Visit>)
    requires WellFormed(h) && Consistent(h, r) && BothIn(h, pairs) && BoundedAll(h, fuel, pairs, f, visited).Some?
    requires forall i :: 0 <= i < |pairs| ==> pairs[i].Some? && pairs[i].value in r
    ensures BoundedAll(h, fuel, pairs, f, visited).value.0
    decreases fuel, |pairs|
  {
    if pairs != [] {
      var p := pairs[0].value;
      NeverFalse(h, r, fuel, p.0, p.1, f, visited);
      var first := Bounded(h, fuel, p.0, p.1, f, visited).value;
      NeverFalseAll(h, r, fuel, pairs[1..], f, first.1);
    }
  }

  // ---- What a comparison that returned true went through ----

  /** For each spot compared to its end, with how many levels were left at most. */
  type Tour = map<Spot, nat>

  ghost predicate SpotRecorded(h: Heap, u: Spot) { u.0 in h && u.1 in h && h[u.0].typ == h[u.1].typ && Recorded(h, u.0, u.2) }

  /** Cut short by the visited set. */
  ghost predicate CutShort(h: Heap, visited: set<Visit>, u: Spot) { SpotRecorded(h, u) && VisitOf(h, u.0, u.1) in visited }

  ghost predicate Toured(h: Heap, tour: Tour, visited: set<Visit>, u: Spot, fuel: nat) {
    (u in tour && tour[u] <= fuel) || CutShort(h, visited, u)
  }

  /** From `u`, compared with `n` levels left, the tour went on to every next spot with fewer. */
  ghost predicate WentOn(h: Heap, tour: Tour, visited: set<Visit>, u: Spot, n: nat) {
    forall v :: GoesOn(h, u, v) ==> n > 0 && Toured(h, tour, visited, v, n - 1)
  }

  ghost predicate KeyInTour(h: Heap, tour: Tour, key: Visit) {
    exists u :: u in tour && SpotRecorded(h, u) && VisitOf(h, u.0, u.1) == key
  }

  /** The tour stayed in `all`, went on from everywhere, and recorded every new visit. */
  ghost predicate Complete(h: Heap, all: set<(Id, Id)>, tour: Tour, visited: set<Visit>, visited': set<Visit>) {
    && visited <= visited' && (forall u :: u in tour ==> (u.0, u.1) in all)
    && (forall u :: u in tour ==> WentOn(h, tour, visited', u, tour[u]))
    && (forall key :: key in visited' && key !in visited ==> KeyInTour(h, tour, key))
  }

  function Merge(a: Tour, b: Tour): Tour {
    map u | u in a.Keys + b.Keys :: if u in a && (u in b ==> a[u] <= b[u]) then a[u] else b[u]
  }

  lemma TouredMore(h: Heap, a: Tour, b: Tour, visited: set<Visit>, later: set<Visit>, u: Spot, fuel: nat)
    requires (Toured(h, a, visited, u, fuel) || Toured(h, b, visited, u, fuel)) && visited <= later
    ensures Toured(h, Merge(a, b), later, u, fuel)
  {}

  lemma MergeComplete(h: Heap, all: set<(Id, Id)>, a: Tour, b: Tour, v0: set<Visit>, v1: set<Visit>, v2: set<Visit>)
    requires Complete(h, all, a, v0, v1) && Complete(h, all, b, v1, v2)
    ensures Complete(h, all, Merge(a, b), v0, v2)
  {
    var m := Merge(a, b);
    forall u | u in m ensures WentOn(h, m, v2, u, m[u]) {
      var fromA := u in a && m[u] == a[u];
      forall v | GoesOn(h, u, v) ensures m[u] > 0 && Toured(h, m, v2, v, m[u] - 1) {
        if fromA {
          assert WentOn(h, a, v1, u, a[u]);
          TouredMore(h, a, b, v1, v2, v, m[u] - 1);
        } else {
          assert WentOn(h, b, v2, u, b[u]);
          TouredMore(h, a, b, v2, v2, v, m[u] - 1);
        }
      }
    }
    forall key | key in v2 && key !in v0 ensures KeyInTour(h, m, key) {
      var t := if key in v1 then a else b;
      assert KeyInTour(h, t, key);
      var u :| u in t && SpotRecorded(h, u) && VisitOf(h, u.0, u.1) == key;
      assert u in m;
    }
  }

  lemma {:induction false} TourOf(h: Heap, all: set<(Id, Id)>, fuel: nat, a: Id, b: Id, f: bool, visited: set<Visit>) returns (tour: Tour)
    requires WellFormed(h) && PairClosed(h, all) && (a, b) in all && a in h && b in h
    requires Bounded(h, fuel, a, b, f, visited).Some? && Bounded(h, fuel, a, b, f, visited).value.0
    ensures Complete(h, all, tour, visited, Bounded(h, fuel, a, b, f, visited).value.1)
    ensures Toured(h, tour, visited, (a, b, f), fuel)
    decreases fuel, 0
  {
    tour := map[];
    if !(Recorded(h, a, f) && VisitOf(h, a, b) in visited) {
      ExpandStays(h, a, b);
      var step := Expand(h[a].shape, h[b].shape);
      var visited' := if Recorded(h, a, f) then visited + {VisitOf(h, a, b)} else visited;
      var final := Bounded(h, fuel, a, b, f, visited).value.1;
      if step.Go? {
        assert StepsInto(h, all, (a, b));
        tour := TourOfAll(h, all, fuel - 1, step.pairs, ChildAddressable(h[a].shape, f), visited');
      }
      AddSpot(h, all, tour, (a, b, f), fuel, visited, visited', final);
      tour := Merge(tour, map[(a, b, f) := fuel]);
    }
  }

  lemma AddSpot(h: Heap, all: set<(Id, Id)>, tour: Tour, u: Spot, fuel: nat, visited: set<Visit>, visited': set<Visit>, final: set<Visit>)
    requires u.0 in h && u.1 in h && h[u.0].typ == h[u.1].typ && (u.0, u.1) in all
    requires visited' == if Recorded(h, u.0, u.2) then visited + {VisitOf(h, u.0, u.1)} else visited
    requires Complete(h, all, tour, visited', final) && WentOn(h, tour, final, u, fuel)
    ensures Complete(h, all, Merge(tour, map[u := fuel]), visited, final)
  {
    var m := Merge(tour, map[u := fuel]);
    forall w | w in m ensures WentOn(h, m, final, w, m[w]) {
      if w in tour { assert WentOn(h, tour, final, w, tour[w]); }
      forall v | GoesOn(h, w, v) ensures m[w] > 0 && Toured(h, m, final, v, m[w] - 1) {
        TouredMore(h, tour, map[u := fuel], final, final, v, m[w] - 1);
      }
    }
    forall key | key in final && key !in visited ensures KeyInTour(h, m, key) {
      if key in visited' {
        assert u in m && SpotRecorded(h, u) && VisitOf(h, u.0, u.1) == key;
      } else {
        assert KeyInTour(h, tour, key);
        var w :| w in tour && SpotRecorded(h, w) && VisitOf(h, w.0, w.1) == key;
        assert w in m;
      }
    }
  }

  ghost predicate AllToured(h: Heap, tour: Tour, visited: set<Visit>, pairs: seq<Option<(Id, Id)>>, f: bool, fuel: nat) {
    forall i :: 0 <= i < |pairs| ==>
      pairs[i].Some? && Toured(h, tour, visited, (pairs[i].value.0, pairs[i].value.1, f), fuel)
  }

  lemma {:induction false} TourOfAll(h: Heap, all: set<(Id, Id)>, fuel: nat, pairs: seq<Option<(Id, Id)>>, f: bool,
                                     visited: set<Visit>)
    returns (tour: Tour)
    requires WellFormed(h) && PairClosed(h, all) && AllIn(all, pairs) && BothIn(h, pairs)
    requires BoundedAll(h, fuel, pairs, f, visited).Some? && BoundedAll(h, fuel, pairs, f, visited).value.0
    ensures Complete(h, all, tour, visited, BoundedAll(h, fuel, pairs, f, visited).value.1)
    ensures AllToured(h, tour, BoundedAll(h, fuel, pairs, f, visited).value.1, pairs, f, fuel)
    decreases fuel, |pairs|
  {
    tour := map[];
    if pairs != [] {
      var p, rest := pairs[0].value, pairs[1..];
      var first := Bounded(h, fuel, p.0, p.1, f, visited).value;
      var a := TourOf(h, all, fuel, p.0, p.1, f, visited);
      var b := TourOfAll(h, all, fuel, rest, f, first.1);
      var final := BoundedAll(h, fuel, rest, f, first.1).value.1;
      tour := Merge(a, b);
      MergeComplete(h, all, a, b, visited, first.1, final);
      forall i | 0 <= i < |pairs|
        ensures pairs[i].Some? && Toured(h, tour, final, (pairs[i].value.0, pairs[i].value.1, f), fuel)
      {
        if i == 0 {
          TouredMore(h, a, b, visited, final, (p.0, p.1, f), fuel);
        } else {
          assert pairs[i] == rest[i - 1];
          TouredMore(h, a, b, final, final, (pairs[i].value.0, pairs[i].value.1, f), fuel);
        }
      }
    }
  }

  // ---- Exactly when it returns ----

  ghost predicate OnTour(all: set<(Id, Id)>, tour: Tour, u: Spot) { u in tour && (u.0, u.1) in all }

  /** Without a swapped revisit a tour from an empty visited set is closed, and falls on every step between unrecorded
      spots. */
  lemma TourCloses(h: Heap, all: set<(Id, Id)>, tour: Tour, final: set<Visit>, u: Spot, v: Spot)
    requires PairClosed(h, all) && UniqueKeys(h, all) && Complete(h, all, tour, {}, final) && OnTour(all, tour, u) && GoesOn(h, u, v)
    ensures OnTour(all, tour, v) && (!SpotRecorded(h, v) ==> tour[v] < tour[u])
  {
    assert WentOn(h, tour, final, u, tour[u]);
    assert StepsInto(h, all, (u.0, u.1));
    var pairs := Expand(h[u.0].shape, h[u.1].shape).pairs;
    var i :| 0 <= i < |pairs| && pairs[i] == Some((v.0, v.1));
    assert pairs[i].value in all;
    if CutShort(h, final, v) {
      assert KeyInTour(h, tour, VisitOf(h, v.0, v.1));
      var w :| w in tour && SpotRecorded(h, w) && VisitOf(h, w.0, w.1) == VisitOf(h, v.0, v.1);
      assert SameKey(h, (v.0, v.1), (w.0, w.1));
      assert w == v;
    }
  }

  /** A bare step between unrecorded spots: what a bare loop is made of. */
  ghost predicate GoesOnUnseen(h: Heap, u: Spot, v: Spot) { GoesOnBare(h, u, v) && !SpotRecorded(h, v) }

  lemma LoopIsUnseen(h: Heap, v: Spot, unseen: (Spot, Spot) -> bool)
    requires Leads(BareSteps(h), v, v) && forall a, b :: unseen(a, b) <==> GoesOnUnseen(h, a, b)
    ensures Leads(unseen, v, v)
  {
    var path :| IsPath(BareSteps(h), path, v, v);
    forall i | 0 <= i < |path| - 1 ensures unseen(path[i], path[i + 1]) {
      assert BareSteps(h)(path[i], path[i + 1]);
      var next := if i + 1 < |path| - 1 then i + 1 else 0;
      assert BareSteps(h)(path[next], path[next + 1]) && path[next] == path[i + 1];
    }
    assert IsPath(unseen, path, v, v);
  }

  lemma TourHasNoLoop(h: Heap, all: set<(Id, Id)>, tour: Tour, final: set<Visit>, u: Spot, v: Spot)
    requires PairClosed(h, all) && UniqueKeys(h, all) && Complete(h, all, tour, {}, final) && OnTour(all, tour, u)
    requires Reach(Steps(h), u, v)
    ensures !Leads(BareSteps(h), v, v)
  {
    var steps, within := Steps(h), (w: Spot) => OnTour(all, tour, w);
    forall a, b | within(a) && steps(a, b) ensures within(b) { TourCloses(h, all, tour, final, a, b); }
    if u != v {
      var path :| IsPath(steps, path, u, v);
      StaysWithin(steps, within, path, u, v);
    }
    if Leads(BareSteps(h), v, v) {
      var unseen, rank := (a: Spot, b: Spot) => GoesOnUnseen(h, a, b), (w: Spot) => if w in tour then tour[w] else 0;
      LoopIsUnseen(h, v, unseen);
      forall a, b | within(a) && unseen(a, b) ensures within(b) && rank(b) < rank(a) {
        TourCloses(h, all, tour, final, a, b);
      }
      var path :| IsPath(unseen, path, v, v);
      AlongPath(unseen, within, rank, path, v, v);
    }
  }

  /** On contained values between which no pair comes back swapped, DeepContains returns if and only if every cycle of the
      comparisons it goes on to passes through a pair that the visited set records. */
  lemma ReturnsIff(h: Heap, all: set<(Id, Id)>, x: Id, y: Id)
    requires WellFormed(h) && PairClosed(h, all) && UniqueKeys(h, all) && (x, y) in all && x in h && y in h && Contains(h, x, y)
    ensures (exists fuel :: Bounded(h, fuel, x, y, false, {}).Some?) <==> CyclesRecordedFrom(h, (x, y, false))
  {
    if CyclesRecordedFrom(h, (x, y, false)) {
      var fuel := Returns(h, x, y, false, {});
    }
    if fuel: nat :| Bounded(h, fuel, x, y, false, {}).Some? {
      var r :| (x, y) in r && Consistent(h, r);
      NeverFalse(h, r, fuel, x, y, false, {});
      var tour := TourOf(h, all, fuel, x, y, false, {});
      forall v | Reach(Steps(h), (x, y, false), v) ensures !Leads(BareSteps(h), v, v) {
        TourHasNoLoop(h, all, tour, Bounded(h, fuel, x, y, false, {}).value.1, (x, y, false), v);
      }
    }
  }

  // ---- When every comparison on a heap returns ----

  /** A cell and whether it is reached as an addressable value. */
  type Place = (Id, bool)

  /** A step into a part that leaves no trace in the visited set. */
  ghost predicate BareStep(h: Heap, u: Place, v: Place) {
    && u.0 in h && v.0 in h && !Recorded(h, u.0, u.1)
    && v.0 in Children(h[u.0].shape) && v.1 == ChildAddressable(h[u.0].shape, u.1)
  }

  ghost function PlaceSteps(h: Heap): (Place, Place) -> bool { (u, v) => BareStep(h, u, v) }

  function Places(h: Heap): set<Place> { set i, f | i in h.Keys && f in {true, false} :: (i, f) }

  /** Every cycle of the heap passes through an addressable pointer, slice, map or interface. */
  ghost predicate CyclesRecorded(h: Heap) { forall u :: !Leads(PlaceSteps(h), u, u) }

  lemma SpotsFollowPlaces(h: Heap, u: Spot)
    requires WellFormed(h) && CyclesRecorded(h)
    ensures CyclesRecordedFrom(h, u)
  {
    var bare, places, place := BareSteps(h), PlaceSteps(h), (w: Spot) => (w.0, w.2);
    forall a, b | bare(a, b) ensures places(place(a), place(b)) {
      ExpandStays(h, a.0, a.1);
    }
    forall v | Reach(Steps(h), u, v) ensures !Leads(bare, v, v) {
      if Leads(bare, v, v) { MapPath(bare, places, place, v, v); }
    }
  }

  lemma BuildRanking(h: Heap) returns (k: Ranking)
    requires WellFormed(h) && CyclesRecorded(h)
    ensures Ranked(h, k)
  {
    var steps := PlaceSteps(h);
    k := Ranking((i, f) => |Ahead(steps, Places(h), (i, f))|, |Places(h)| + 1);
    forall i, f | i in h ensures k.rank(i, f) < k.limit {
      SubsetSize(Ahead(steps, Places(h), (i, f)), Places(h));
    }
    forall i, f, c | i in h && !Recorded(h, i, f) && c in Children(h[i].shape)
      ensures k.rank(c, ChildAddressable(h[i].shape, f)) < k.rank(i, f)
    {
      assert steps((i, f), (c, ChildAddressable(h[i].shape, f)));
      AheadShrinks(steps, Places(h), (i, f), (c, ChildAddressable(h[i].shape, f)));
    }
  }

  /** The termination measure of the recursion exists exactly when every cycle of the heap is recorded. */
  lemma RankingIff(h: Heap)
    requires WellFormed(h)
    ensures (exists k :: Ranked(h, k)) <==> CyclesRecorded(h)
  {
    if k :| Ranked(h, k) {
      var steps, within, rank := PlaceSteps(h), (u: Place) => u.0 in h, (u: Place) => k.rank(u.0, u.1);
      forall u ensures !Leads(steps, u, u) {
        if path :| IsPath(steps, path, u, u) {
          assert steps(path[0], path[0 + 1]);
          AlongPath(steps, within, rank, path, u, u);
        }
      }
    }
    if CyclesRecorded(h) {
      var k := BuildRanking(h);
    }
  }

  /** On every heap whose cycles are all recorded DeepContains returns, from any visited set, and what it returns depends
      on no ranking. */
  lemma AlwaysReturns(h: Heap, a: Id, b: Id, f: bool, visited: set<Visit>)
    requires WellFormed(h) && CyclesRecorded(h) && a in h && b in h
    ensures exists fuel :: Bounded(h, fuel, a, b, f, visited).Some?
    ensures forall k, fuel :: Ranked(h, k) && Bounded(h, fuel, a, b, f, visited).Some? ==>
              Bounded(h, fuel, a, b, f, visited).value == Deep(h, k, a, b, f, visited)
  {
    SpotsFollowPlaces(h, (a, b, f));
    var fuel := Returns(h, a, b, f, visited);
    forall k, fuel | Ranked(h, k) && Bounded(h, fuel, a, b, f, visited).Some?
      ensures Bounded(h, fuel, a, b, f, visited).value == Deep(h, k, a, b, f, visited)
    {
      BoundedAgrees(h, k, fuel, a, b, f, visited);
    }
  }

  // ---- A heap on which it does not ----

  /** Two maps of type map[K]interface{} that each hold themselves: no cell on the cycle is addressable. */
  ghost predicate SelfMaps(h: Heap, m: Id, i: Id, n: Id, j: Id) {
    && {m, i, n, j} <= h.Keys && h[m].typ == h[n].typ && h[i].typ == h[j].typ
    && (exists key, d, d' :: d != d' && h[m].shape == Map(false, d, [(key, i)]) && h[n].shape == Map(false, d', [(key, j)]))
    && h[i].shape == Interface(Some(m)) && h[j].shape == Interface(Some(n))
  }

  lemma SelfMapStep(h: Heap, fuel: nat, m: Id, i: Id, n: Id, j: Id, visited: set<Visit>)
    requires WellFormed(h) && SelfMaps(h, m, i, n, j) && fuel > 0
    ensures Bounded(h, fuel - 1, i, j, false, visited).None? ==> Bounded(h, fuel, m, n, false, visited).None?
    ensures Bounded(h, fuel - 1, m, n, false, visited).None? ==> Bounded(h, fuel, i, j, false, visited).None?
  {
    var key, d, d' :| d != d' && h[m].shape == Map(false, d, [(key, i)]) && h[n].shape == Map(false, d', [(key, j)]);
    assert [(key, i)][0] == (key, i);
    assert Find([(key, i)], key) == Some(i);
    assert ZipEntries([(key, i)], [(key, j)]) == [Some((i, j))];
    assert Expand(h[m].shape, h[n].shape) == Go([Some((i, j))]);
    assert Expand(h[i].shape, h[j].shape) == Go([Some((m, n))]);
  }

  /** However long it runs, DeepContains on two such maps has not returned. */
  lemma {:induction false} SelfMapsNeverReturn(h: Heap, fuel: nat, m: Id, i: Id, n: Id, j: Id)
    requires WellFormed(h) && SelfMaps(h, m, i, n, j)
    ensures Bounded(h, fuel, m, n, false, {}).None? && Bounded(h, fuel, i, j, false, {}).None?
    decreases fuel
  {
    if fuel > 0 {
      SelfMapsNeverReturn(h, fuel - 1, m, i, n, j);
      SelfMapStep(h, fuel, m, i, n, j, {});
    }
  }

  /** Two maps that hold themselves under one key: 0 and 2 are the maps, 1 and 3 the interfaces they hold. */
  function SelfCell(i: Id): Cell {
    if i % 2 == 0 then Cell(i, 1, false, Map(false, 1000 + i, [(7, i + 1)])) else Cell(i, 2, false, Interface(Some(i - 1)))
  }

  const SELF_MAPS: Heap := map i: Id | i < 4 :: SelfCell(i)

  lemma SelfMapsWellFormed()
    ensures WellFormed(SELF_MAPS)
  {
    forall i | i in SELF_MAPS ensures SELF_MAPS[i] == SelfCell(i) && forall c :: c in Children(SelfCell(i).shape) ==> c in SELF_MAPS {
      if i % 2 == 0 { assert Children(SelfCell(i).shape) == [i + 1]; }
    }
  }

  lemma SelfMapsExample(fuel: nat)
    ensures WellFormed(SELF_MAPS) && Bounded(SELF_MAPS, fuel, 0, 2, false, {}).None?
  {
    SelfMapsWellFormed();
    SelfMapsThere();
    SelfMapsNeverReturn(SELF_MAPS, fuel, 0, 1, 2, 3);
  }

  lemma SelfMapsThere()
    ensures SelfMaps(SELF_MAPS, 0, 1, 2, 3)
  {
    assert SELF_MAPS[0].shape == Map(false, 1000, [(7, 1)]) && SELF_MAPS[2].shape == Map(false, 1002, [(7, 3)]);
  }
}
