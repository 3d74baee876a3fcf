/** When DeepContains is an order. */
module DeepContainsOrder {
  import opened Basics
  import opened Paths
  import opened DeepContains
  import opened DeepContainsProofs

  // ---- Reflexivity ----

  /** One level of a self-comparison: the same slice, map or pointer is accepted unread, so only arrays, structs and
      interfaces are opened; a function must be nil and a visible scalar must not be NaN. */
  ghost predicate SelfLevel(h: Heap, s: set<Id>, i: Id) {
    i in h &&
    match h[i].shape
    case Array(es) => forall j :: 0 <= j < |es| ==> es[j] in s
    case Struct(fs) => forall j :: 0 <= j < |fs| ==> fs[j] in s
    case Interface(e) => e.Some? ==> e.value in s
    case Func(isNil) => isNil
    case Scalar(_, _, hidden, nan) => hidden || !nan
    case _ => true
  }

  ghost predicate SelfOk(h: Heap, s: set<Id>) { forall i :: i in s ==> SelfLevel(h, s, i) }

  lemma SelfHolds(h: Heap, s: set<Id>, i: Id)
    requires SelfOk(h, s) && i in s
    ensures Holds(h, set j | j in s :: (j, j), i, i)
  {
    var r := set j | j in s :: (j, j);
    assert SelfLevel(h, s, i);
    var step := Expand(h[i].shape, h[i].shape);
    if step.Go? && h[i].shape.Interface? {
      assert step.pairs == [Some((h[i].shape.elem.value, h[i].shape.elem.value))];
    }
  }

  lemma SelfOkContains(h: Heap, s: set<Id>, x: Id)
    requires SelfOk(h, s) && x in s
    ensures Contains(h, x, x)
  {
    var r := set j | j in s :: (j, j);
    forall p | p in r ensures Holds(h, r, p.0, p.1) {
      SelfHolds(h, s, p.0);
    }
    assert (x, x) in r;
  }

  /** Comparing `u` with itself opens `v`. */
  ghost predicate Opens(h: Heap, u: Id, v: Id) {
    u in h &&
    match h[u].shape
    case Array(es) => v in es
    case Struct(fs) => v in fs
    case Interface(e) => e == Some(v)
    case _ => false
  }

  ghost function Opening(h: Heap): (Id, Id) -> bool { (u: Id, v: Id) => Opens(h, u, v) }

  /** Neither a non-nil function nor a visible NaN. */
  ghost predicate EqualsItself(h: Heap, i: Id) {
    i in h && (h[i].shape.Func? ==> h[i].shape.isNil) && (h[i].shape.Scalar? ==> h[i].shape.hidden || !h[i].shape.nan)
  }

  /** A value deeply contains itself exactly when nothing reached from it through arrays, structs and interfaces is a non-nil
      function or a visible NaN. */
  lemma ReflexiveIff(h: Heap, x: Id)
    ensures Contains(h, x, x) <==> forall v :: Reach(Opening(h), x, v) ==> EqualsItself(h, v)
  {
    var opens := Opening(h);
    if r :| (x, x) in r && Consistent(h, r) {
      var s := Diagonal(r);
      DiagonalOk(h, r);
      var within := (i: Id) => i in s;
      forall a, b | within(a) && opens(a, b) ensures within(b) {
        assert SelfLevel(h, s, a);
      }
      forall v | Reach(opens, x, v) ensures EqualsItself(h, v) {
        if v != x {
          var path :| IsPath(opens, path, x, v);
          StaysWithin(opens, within, path, x, v);
        }
        assert SelfLevel(h, s, v);
      }
    }
    if forall v :: Reach(opens, x, v) ==> EqualsItself(h, v) {
      OpenedIsSelfOk(h, x);
    }
  }

  lemma OpenedIsSelfOk(h: Heap, x: Id)
    requires forall v :: Reach(Opening(h), x, v) ==> EqualsItself(h, v)
    ensures Contains(h, x, x)
  {
    var opens := Opening(h);
    var s := set v | v in h.Keys && Reach(opens, x, v);
    forall i | i in s ensures SelfLevel(h, s, i) {
      assert EqualsItself(h, i);
      forall v | opens(i, v) ensures v in s {
        ReachThenStep(opens, x, i, v);
        assert EqualsItself(h, v);
      }
      match h[i].shape
      case Array(es) => forall j | 0 <= j < |es| ensures es[j] in s { assert opens(i, es[j]); }
      case Struct(fs) => forall j | 0 <= j < |fs| ensures fs[j] in s { assert opens(i, fs[j]); }
      case Interface(e) => assert e.Some? ==> opens(i, e.value);
      case _ =>
    }
    assert Reach(opens, x, x) && EqualsItself(h, x);
    SelfOkContains(h, s, x);
  }

  /** DeepContains(x, x) is true of every value without functions and NaNs. */
  lemma PlainIsReflexive(h: Heap, k: Ranking, x: Id)
    requires WellFormed(h) && Ranked(h, k) && x in h
    requires forall i :: i in h ==> !h[i].shape.Func? && (h[i].shape.Scalar? ==> !h[i].shape.nan)
    ensures Deep(h, k, x, x, false, {}).0
  {
    forall i | i in h.Keys ensures SelfLevel(h, h.Keys, i) {
      if h[i].shape.Interface? && h[i].shape.elem.Some? {
        assert h[i].shape.elem.value in Children(h[i].shape);
      }
    }
    SelfOkContains(h, h.Keys, x);
    Completeness(h, k, x, x);
  }

  /** `x` compared with itself where it is not addressable: only what is not addressable is opened, so nothing is recorded. */
  lemma {:induction false} SelfCompared(h: Heap, k: Ranking, x: Id, visited: set<Visit>)
    requires WellFormed(h) && Ranked(h, k) && x in h
    ensures var r := Deep(h, k, x, x, false, visited);
            r.1 == visited && (r.0 ==> EqualsItself(h, x) && forall v :: Opens(h, x, v) ==> v in h && Deep(h, k, v, v, false, visited).0)
    decreases 2 * k.rank(x, false) + 1, 0
  {
    ExpandStays(h, x, x);
    var step := Expand(h[x].shape, h[x].shape);
    if step.Go? {
      SelfExpands(h, x);
      SelfComparedAll(h, k, step.pairs, visited, k.rank(x, false));
    }
  }

  /** A self-comparison goes on to each opened part and itself, none of them addressable. */
  lemma SelfExpands(h: Heap, x: Id)
    requires WellFormed(h) && x in h && Expand(h[x].shape, h[x].shape).Go?
    ensures var pairs := Expand(h[x].shape, h[x].shape).pairs;
            && (forall i :: 0 <= i < |pairs| ==> pairs[i].Some? && pairs[i].value.0 == pairs[i].value.1)
            && (forall v: Id :: Opens(h, x, v) ==> Some((v, v)) in pairs)
    ensures !ChildAddressable(h[x].shape, false) && !h[x].shape.Func? && !h[x].shape.Scalar?
  {
    var pairs := Expand(h[x].shape, h[x].shape).pairs;
    match h[x].shape
    case Array(es) => forall v | v in es ensures Some((v, v)) in pairs { PairedWithItself(es, v); }
    case Struct(fs) => forall v | v in fs ensures Some((v, v)) in pairs { PairedWithItself(fs, v); }
    case Interface(e) => assert pairs[0] == Some((e.value, e.value));
  }

  lemma PairedWithItself(parts: seq<Id>, v: Id)
    requires v in parts
    ensures Some((v, v)) in Zip(parts, parts)
  {
    var i :| 0 <= i < |parts| && parts[i] == v;
    assert Zip(parts, parts)[i] == Some((v, v));
  }

  lemma {:induction false} SelfComparedAll(h: Heap, k: Ranking, pairs: seq<Option<(Id, Id)>>, visited: set<Visit>, bound: nat)
    requires WellFormed(h) && Ranked(h, k) && PairsBelow(h, k, pairs, false, bound)
    requires forall i :: 0 <= i < |pairs| ==> pairs[i].Some? && pairs[i].value.0 == pairs[i].value.1
    ensures var r := DeepAll(h, k, pairs, false, visited, bound);
            r.1 == visited && (r.0 ==> forall i :: 0 <= i < |pairs| ==> Deep(h, k, pairs[i].value.0, pairs[i].value.0, false, visited).0)
    decreases 2 * bound, |pairs|
  {
    if pairs != [] {
      SelfCompared(h, k, pairs[0].value.0, visited);
      SelfComparedAll(h, k, pairs[1..], visited, bound);
      assert forall i :: 0 < i < |pairs| ==> pairs[i] == pairs[1..][i - 1];
    }
  }

  /** So is the answer, on every heap. */
  lemma {:induction false} ReflexiveAnswerIff(h: Heap, k: Ranking, x: Id)
    requires WellFormed(h) && Ranked(h, k) && x in h
    ensures Deep(h, k, x, x, false, {}).0 <==> forall v :: Reach(Opening(h), x, v) ==> EqualsItself(h, v)
  {
    var opens, within := Opening(h), (i: Id) => i in h && Deep(h, k, i, i, false, {}).0;
    if Deep(h, k, x, x, false, {}).0 {
      forall a, b | within(a) && opens(a, b) ensures within(b) { SelfCompared(h, k, a, {}); }
      forall v | Reach(opens, x, v) ensures EqualsItself(h, v) {
        if v != x {
          var path :| IsPath(opens, path, x, v);
          StaysWithin(opens, within, path, x, v);
        }
        assert within(v);
        SelfCompared(h, k, v, {});
      }
    } else if Contains(h, x, x) {
      Completeness(h, k, x, x);
    }
    ReflexiveIff(h, x);
  }

  function Diagonal(r: set<(Id, Id)>): set<Id> { set p: (Id, Id) | p in r && p.0 == p.1 :: p.0 }

  lemma DiagonalOk(h: Heap, r: set<(Id, Id)>)
    requires Consistent(h, r)
    ensures SelfOk(h, Diagonal(r))
  {
    var s := Diagonal(r);
    forall i | i in s ensures SelfLevel(h, s, i) {
      assert (i, i) in r;
      assert Holds(h, r, i, i);
      var step := Expand(h[i].shape, h[i].shape);
      if step.Go? {
        forall j | 0 <= j < |step.pairs| && step.pairs[j].Some? && step.pairs[j].value.0 == step.pairs[j].value.1
          ensures step.pairs[j].value.0 in s
        {
          assert step.pairs[j].value in r;
        }
        if h[i].shape.Interface? {
          assert step.pairs[0].value.0 in s;
        }
        if h[i].shape.Array? {
          assert forall j :: 0 <= j < |step.pairs| ==> step.pairs[j].value.0 == h[i].shape.elems[j];
        }
        if h[i].shape.Struct? {
          assert forall j :: 0 <= j < |step.pairs| ==> step.pairs[j].value.0 == h[i].shape.fields[j];
        }
      }
    }
  }

  // ---- Transitivity ----

  ghost predicate ReferenceFree(h: Heap) {
    forall i :: i in h ==> !h[i].shape.Ptr? && !h[i].shape.Interface? && !h[i].shape.Func?
  }

  /** Nil slices and maps are empty, and equal data pointers mean the same elements, seen alike. */
  ghost predicate Aliased(h: Heap) {
    && (forall i :: i in h && h[i].shape.Slice? && h[i].shape.isNil ==> h[i].shape.elems == [])
    && (forall i :: i in h && h[i].shape.Map? && h[i].shape.isNil ==> h[i].shape.entries == [])
    && (forall i, j, n :: (i in h && j in h && h[i].typ == h[j].typ && h[i].readOnly == h[j].readOnly
                           && h[i].shape.Slice? && h[j].shape.Slice? && h[i].shape.data == h[j].shape.data && 0 <= n < |h[i].shape.elems| && n < |h[j].shape.elems|)
          ==> h[i].shape.elems[n] == h[j].shape.elems[n])
    && (forall i, j :: (i in h && j in h && h[i].typ == h[j].typ && h[i].readOnly == h[j].readOnly
                        && h[i].shape.Map? && h[j].shape.Map? && h[i].shape.data == h[j].shape.data)
          ==> h[i].shape.entries == h[j].shape.entries)
  }

  /** Both read-only or both not. */
  ghost predicate SeenAlike(h: Heap, a: Id, b: Id) { a in h && b in h && h[a].readOnly == h[b].readOnly }

  ghost function AlikePairs(h: Heap, r: set<(Id, Id)>): set<(Id, Id)> { set p | p in r && SeenAlike(h, p.0, p.1) }

  /** From a pair seen alike the comparison goes on to pairs seen alike. */
  lemma StaysAlike(h: Heap, a: Id, b: Id, i: nat)
    requires WellFormed(h) && Flagged(h) && SeenAlike(h, a, b) && h[a].typ == h[b].typ
    requires var step := Expand(h[a].shape, h[b].shape); step.Go? && i < |step.pairs| && step.pairs[i].Some?
    ensures var p := Expand(h[a].shape, h[b].shape).pairs[i].value; SeenAlike(h, p.0, p.1)
  {
    ExpandStays(h, a, b);
    var p := Expand(h[a].shape, h[b].shape).pairs[i].value;
    if h[a].shape.Struct? {
      assert p == (h[a].shape.fields[i], h[b].shape.fields[i]);
    }
  }

  lemma AlikeIsConsistent(h: Heap, r: set<(Id, Id)>)
    requires WellFormed(h) && Flagged(h) && Consistent(h, r)
    ensures Consistent(h, AlikePairs(h, r))
  {
    var t := AlikePairs(h, r);
    forall p | p in t ensures Holds(h, t, p.0, p.1) {
      assert Holds(h, r, p.0, p.1);
      var step := Expand(h[p.0].shape, h[p.1].shape);
      if step.Go? {
        forall i | 0 <= i < |step.pairs| ensures step.pairs[i].Some? && step.pairs[i].value in t {
          StaysAlike(h, p.0, p.1, i);
        }
      }
    }
  }

  function Compose(r: set<(Id, Id)>, q: set<(Id, Id)>): set<(Id, Id)> {
    r + q + set p: (Id, Id), s: (Id, Id) | p in r && s in q && p.1 == s.0 :: (p.0, s.1)
  }

  lemma Composed(r: set<(Id, Id)>, q: set<(Id, Id)>, x: Id, y: Id, z: Id)
    requires (x, y) in r && (y, z) in q
    ensures (x, z) in Compose(r, q)
  {
    var p, s := (x, y), (y, z);
    assert p.1 == s.0;
  }

  lemma SliceStep(h: Heap, r: set<(Id, Id)>, q: set<(Id, Id)>, x: Id, y: Id, z: Id)
    requires WellFormed(h) && Aliased(h) && Holds(h, r, x, y) && Holds(h, q, y, z) && h[x].shape.Slice?
    requires SeenAlike(h, x, y) && SeenAlike(h, y, z)
    ensures Holds(h, Compose(r, q), x, z)
  {
    var t := Compose(r, q);
    assert SameForm(h[x].shape, h[z].shape);
    var step := Expand(h[x].shape, h[z].shape);
    var xs, ys, zs := h[x].shape.elems, h[y].shape.elems, h[z].shape.elems;
    if !h[z].shape.isNil {
      assert |zs| <= |ys| && (|ys| > 0 ==> |ys| <= |xs|);
      if step.Go? {
        forall i | 0 <= i < |zs| ensures (xs[i], zs[i]) in t {
          var left, right := Expand(h[x].shape, h[y].shape), Expand(h[y].shape, h[z].shape);
          if left.Go? { assert left.pairs[i].value in r; }
          if right.Go? { assert right.pairs[i].value in q; }
          if left.Go? && right.Go? { Composed(r, q, xs[i], ys[i], zs[i]); }
        }
      }
    }
  }

  lemma MapStep(h: Heap, r: set<(Id, Id)>, q: set<(Id, Id)>, x: Id, y: Id, z: Id)
    requires WellFormed(h) && Aliased(h) && Holds(h, r, x, y) && Holds(h, q, y, z) && h[x].shape.Map?
    requires SeenAlike(h, x, y) && SeenAlike(h, y, z)
    ensures Holds(h, Compose(r, q), x, z)
  {
    var t := Compose(r, q);
    assert SameForm(h[x].shape, h[z].shape);
    var step := Expand(h[x].shape, h[z].shape);
    var xs, ys, zs := h[x].shape.entries, h[y].shape.entries, h[z].shape.entries;
    if !h[z].shape.isNil {
      assert |zs| <= |ys| && (|ys| > 0 ==> |ys| <= |xs|);
      if step.Go? {
        var left, right := Expand(h[x].shape, h[y].shape), Expand(h[y].shape, h[z].shape);
        forall i | 0 <= i < |zs| ensures step.pairs[i].Some? && step.pairs[i].value in t {
          MapEntry(r, q, xs, ys, zs, left, right, i);
        }
      }
    }
  }

  /** One key of `z` followed through `y` to `x`. */
  lemma MapEntry(r: set<(Id, Id)>, q: set<(Id, Id)>, xs: seq<(int, Id)>, ys: seq<(int, Id)>, zs: seq<(int, Id)>,
                 left: Step, right: Step, i: nat)
    requires i < |zs| && DistinctKeys(ys)
    requires if left.Stop? then xs == ys else
             left.pairs == ZipEntries(xs, ys) && forall j :: 0 <= j < |ys| ==> left.pairs[j].Some? && left.pairs[j].value in r
    requires if right.Stop? then ys == zs else
             right.pairs == ZipEntries(ys, zs) && forall j :: 0 <= j < |zs| ==> right.pairs[j].Some? && right.pairs[j].value in q
    requires left.Go? || right.Go?
    ensures ZipEntries(xs, zs)[i].Some? && ZipEntries(xs, zs)[i].value in Compose(r, q)
  {
    var key, zv := zs[i].0, zs[i].1;
    if right.Go? {
      assert right.pairs[i].Some? && right.pairs[i].value in q;
      var yv := Find(ys, key).value;
      assert (yv, zv) in q;
      if left.Go? {
        var j :| 0 <= j < |ys| && ys[j] == (key, yv);
        assert left.pairs[j].Some? && left.pairs[j].value in r;
        Composed(r, q, Find(xs, key).value, yv, zv);
      }
    } else {
      assert left.pairs[i].Some? && left.pairs[i].value in r;
    }
  }

  lemma FlatStep(h: Heap, r: set<(Id, Id)>, q: set<(Id, Id)>, x: Id, y: Id, z: Id)
    requires WellFormed(h) && Flagged(h) && Holds(h, r, x, y) && Holds(h, q, y, z) && SeenAlike(h, x, y) && SeenAlike(h, y, z)
    requires h[x].shape.Array? || h[x].shape.Struct? || h[x].shape.Scalar?
    ensures Holds(h, Compose(r, q), x, z)
  {
    var t := Compose(r, q);
    assert SameForm(h[x].shape, h[z].shape);
    var step := Expand(h[x].shape, h[z].shape);
    if step.Go? {
      var left, right := Expand(h[x].shape, h[y].shape).pairs, Expand(h[y].shape, h[z].shape).pairs;
      forall i | 0 <= i < |step.pairs| ensures step.pairs[i].value in t {
        assert left[i].value in r && right[i].value in q;
        Composed(r, q, left[i].value.0, left[i].value.1, right[i].value.1);
      }
    }
  }

  lemma HoldsMore(h: Heap, r: set<(Id, Id)>, more: set<(Id, Id)>, a: Id, b: Id)
    requires Holds(h, r, a, b) && r <= more
    ensures Holds(h, more, a, b)
  {}

  lemma ComposedHolds(h: Heap, r: set<(Id, Id)>, q: set<(Id, Id)>, x: Id, y: Id, z: Id)
    requires WellFormed(h) && Flagged(h) && ReferenceFree(h) && Aliased(h) && Holds(h, r, x, y) && Holds(h, q, y, z)
    requires SeenAlike(h, x, y) && SeenAlike(h, y, z)
    ensures Holds(h, Compose(r, q), x, z)
  {
    match h[x].shape
    case Slice(_, _, _) => SliceStep(h, r, q, x, y, z);
    case Map(_, _, _) => MapStep(h, r, q, x, y, z);
    case _ => FlatStep(h, r, q, x, y, z);
  }

  lemma Decomposed(r: set<(Id, Id)>, q: set<(Id, Id)>, p: (Id, Id)) returns (y: Id)
    requires p in Compose(r, q) && p !in r && p !in q
    ensures (p.0, y) in r && (y, p.1) in q
  {
    var u: (Id, Id), v: (Id, Id) :| u in r && v in q && u.1 == v.0 && p == (u.0, v.1);
    y := u.1;
  }

  lemma ComposeConsistent(h: Heap, r: set<(Id, Id)>, q: set<(Id, Id)>)
    requires WellFormed(h) && Flagged(h) && ReferenceFree(h) && Aliased(h) && Consistent(h, r) && Consistent(h, q)
    requires (forall p :: p in r ==> SeenAlike(h, p.0, p.1)) && (forall p :: p in q ==> SeenAlike(h, p.0, p.1))
    ensures Consistent(h, Compose(r, q))
  {
    var t := Compose(r, q);
    forall p | p in t ensures Holds(h, t, p.0, p.1) {
      if p in r {
        HoldsMore(h, r, t, p.0, p.1);
      } else if p in q {
        HoldsMore(h, q, t, p.0, p.1);
      } else {
        var y := Decomposed(r, q, p);
        ComposedHolds(h, r, q, p.0, y, p.1);
      }
    }
  }

  /** On values without pointers, interfaces and functions, containment is transitive, with all its relaxations: zero
      scalars, nil or shorter slices, fewer map keys, shared storage, unexported fields. Values compared are seen alike: they
      start as values taken from interfaces, which are not read-only. */
  lemma Transitive(h: Heap, a: Id, b: Id, c: Id)
    requires WellFormed(h) && Flagged(h) && ReferenceFree(h) && Aliased(h) && Contains(h, a, b) && Contains(h, b, c)
    requires SeenAlike(h, a, b) && SeenAlike(h, b, c)
    ensures Contains(h, a, c)
  {
    var r :| (a, b) in r && Consistent(h, r);
    var q :| (b, c) in q && Consistent(h, q);
    AlikeIsConsistent(h, r);
    AlikeIsConsistent(h, q);
    ComposeConsistent(h, AlikePairs(h, r), AlikePairs(h, q));
    Composed(AlikePairs(h, r), AlikePairs(h, q), a, b, c);
  }

  /** So the answers of DeepContains compose wherever neither comparison comes back to a pair swapped. */
  lemma AnswersCompose(h: Heap, k: Ranking, a: Id, b: Id, c: Id, first: set<(Id, Id)>, second: set<(Id, Id)>)
    requires WellFormed(h) && Flagged(h) && Ranked(h, k) && ReferenceFree(h) && Aliased(h) && SeenAlike(h, a, b) && SeenAlike(h, b, c)
    requires PairClosed(h, first) && UniqueKeys(h, first) && PairClosed(h, second) && UniqueKeys(h, second)
    requires (a, b) in first && (b, c) in second && a in h && b in h && c in h
    requires Deep(h, k, a, b, false, {}).0 && Deep(h, k, b, c, false, {}).0
    ensures Deep(h, k, a, c, false, {}).0
  {
    ExactWithUniqueKeys(h, k, first, a, b);
    ExactWithUniqueKeys(h, k, second, b, c);
    Transitive(h, a, b, c);
    Completeness(h, k, a, c);
  }

  /** With pointers it is not: a nil pointer contains, and is contained in, every pointer of its type, also where
      what the one points to does not contain what the other points to. */
  lemma NilBreaksTransitivity(h: Heap, p: Id, nil: Id, q: Id)
    requires p in h && nil in h && q in h && h[p].typ == h[nil].typ == h[q].typ
    requires h[p].shape.Ptr? && h[nil].shape.Ptr? && h[q].shape.Ptr? && h[nil].shape.elem == None
    ensures Contains(h, p, nil) && Contains(h, nil, q)
    ensures (h[p].shape.target != h[q].shape.target && h[p].shape.elem.Some? && h[q].shape.elem.Some?
             && !Contains(h, h[p].shape.elem.value, h[q].shape.elem.value)) ==> !Contains(h, p, q)
  {
    assert Consistent(h, {(p, nil)}) && (p, nil) in {(p, nil)};
    assert Consistent(h, {(nil, q)}) && (nil, q) in {(nil, q)};
    if r :| (p, q) in r && Consistent(h, r) {
      assert Holds(h, r, p, q);
      var step := Expand(h[p].shape, h[q].shape);
      if step.Go? { assert step.pairs[0].value in r; }
    }
  }
}
