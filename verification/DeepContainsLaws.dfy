/** Laws of DeepContains and the inputs that break them. */
module DeepContainsLaws {
  import opened Basics
  import opened DeepContains
  import opened DeepContainsOrder

  // ---- A swapped revisit ----

  /** The heap of x = S{&A, &B} and y = S{&B, &A} for a struct S with two pointers to slices of one type. */
  ghost predicate Crossed(h: Heap, x: Id, y: Id, p: Id, q: Id, a: Id, b: Id) {
    && {x, y, p, q, a, b} <= h.Keys
    && h[x].typ == h[y].typ && h[x].shape == Struct([p, q]) && h[y].shape == Struct([q, p])
    && h[p].typ == h[q].typ && h[p].shape.Ptr? && h[q].shape.Ptr? && h[p].shape.target != h[q].shape.target
    && h[p].shape.elem == Some(a) && h[q].shape.elem == Some(b)
    && h[a].typ == h[b].typ && h[a].shape.Slice? && h[b].shape.Slice?
  }

  lemma DeepAllOne(h: Heap, k: Ranking, p: (Id, Id), f: bool, visited: set<Visit>, bound: nat)
    requires WellFormed(h) && Ranked(h, k) && PairsBelow(h, k, [Some(p)], f, bound) && p.0 in h && p.1 in h
    ensures DeepAll(h, k, [Some(p)], f, visited, bound) == Deep(h, k, p.0, p.1, f, visited)
  {
    var pairs := [Some(p)];
    assert pairs[0].value == p && |pairs[1..]| == 0;
    var first := Deep(h, k, p.0, p.1, f, visited);
    assert first.0 ==> DeepAll(h, k, pairs[1..], f, first.1, bound) == (true, first.1);
  }

  lemma DeepAllTwo(h: Heap, k: Ranking, p: (Id, Id), q: (Id, Id), f: bool, visited: set<Visit>, bound: nat)
    requires WellFormed(h) && Ranked(h, k) && PairsBelow(h, k, [Some(p), Some(q)], f, bound)
    requires p.0 in h && p.1 in h && q.0 in h && q.1 in h
    requires Deep(h, k, p.0, p.1, f, visited).0
    ensures DeepAll(h, k, [Some(p), Some(q)], f, visited, bound) == Deep(h, k, q.0, q.1, f, Deep(h, k, p.0, p.1, f, visited).1)
  {
    var pairs := [Some(p), Some(q)];
    assert pairs[1..] == [Some(q)] && pairs[1].value == q;
    assert PairsBelow(h, k, [Some(q)], f, bound) by {
      assert k.rank(pairs[1].value.0, f) < bound;
    }
    DeepAllOne(h, k, q, f, Deep(h, k, p.0, p.1, f, visited).1, bound);
  }

  lemma PointerStep(h: Heap, k: Ranking, p: Id, q: Id, a: Id, b: Id, visited: set<Visit>)
    requires WellFormed(h) && Ranked(h, k) && p in h && q in h && a in h && b in h
    requires h[p].typ == h[q].typ && h[p].shape.Ptr? && h[q].shape.Ptr? && h[p].shape.target != h[q].shape.target
    requires h[p].shape.elem == Some(a) && h[q].shape.elem == Some(b)
    ensures Deep(h, k, p, q, false, visited) == Deep(h, k, a, b, true, visited)
  {
    ExpandStays(h, p, q);
    assert Expand(h[p].shape, h[q].shape) == Go([Some((a, b))]);
    assert a in Children(h[p].shape);
    assert k.rank(a, ChildAddressable(h[p].shape, false)) < k.rank(p, false);
    DeepAllOne(h, k, (a, b), true, visited, k.rank(p, false));
  }

  /** Two structs of two fields: the second fields are compared after the first. */
  lemma StructStep(h: Heap, k: Ranking, x: Id, y: Id, p: Id, q: Id, p': Id, q': Id, visited: set<Visit>)
    requires WellFormed(h) && Ranked(h, k) && x in h && y in h && p in h && q in h && p' in h && q' in h
    requires h[x].typ == h[y].typ && h[x].shape == Struct([p, q]) && h[y].shape == Struct([p', q'])
    requires Deep(h, k, p, p', false, visited).0
    ensures Deep(h, k, x, y, false, visited) == Deep(h, k, q, q', false, Deep(h, k, p, p', false, visited).1)
  {
    ExpandStays(h, x, y);
    assert Zip([p, q], [p', q']) == [Some((p, p')), Some((q, q'))];
    assert p in Children(h[x].shape) && q in Children(h[x].shape);
    assert k.rank(p, ChildAddressable(h[x].shape, false)) < k.rank(x, false);
    assert k.rank(q, ChildAddressable(h[x].shape, false)) < k.rank(x, false);
    DeepAllTwo(h, k, (p, p'), (q, q'), false, visited, k.rank(x, false));
  }

  /** Once A was compared with B, B against A is answered from the visited set. */
  lemma SwapAnswersTrue(h: Heap, k: Ranking, x: Id, y: Id, p: Id, q: Id, a: Id, b: Id)
    requires WellFormed(h) && Ranked(h, k) && Crossed(h, x, y, p, q, a, b) && Deep(h, k, a, b, true, {}).0
    ensures Deep(h, k, x, y, false, {}).0
  {
    var visited := Deep(h, k, a, b, true, {}).1;
    assert VisitOf(h, a, b) in visited;
    assert Deep(h, k, b, a, true, visited) == (true, visited);
    PointerStep(h, k, p, q, a, b, {});
    PointerStep(h, k, q, p, b, a, visited);
    StructStep(h, k, x, y, p, q, q, p, {});
  }

  lemma SwapNeedsBoth(h: Heap, x: Id, y: Id, p: Id, q: Id, a: Id, b: Id)
    requires Crossed(h, x, y, p, q, a, b) && Contains(h, x, y)
    ensures Contains(h, b, a)
  {
    var r :| (x, y) in r && Consistent(h, r);
    assert Holds(h, r, x, y);
    var pairs := Zip([p, q], [q, p]);
    assert pairs[1].value in r;
    assert Holds(h, r, q, p);
    assert Expand(h[q].shape, h[p].shape) == Go([Some((b, a))]);
    assert [Some((b, a))][0].value in r;
  }

  /** Whenever the slice A contains B but B does not contain A, DeepContains(S{&A, &B}, S{&B, &A}) is true although the
      second field of the one does not contain that of the other. */
  lemma SwapIsUnsound(h: Heap, k: Ranking, x: Id, y: Id, p: Id, q: Id, a: Id, b: Id)
    requires WellFormed(h) && Ranked(h, k) && Crossed(h, x, y, p, q, a, b)
    requires Deep(h, k, a, b, true, {}).0 && !Contains(h, b, a)
    ensures Deep(h, k, x, y, false, {}).0 && !Contains(h, x, y)
  {
    SwapAnswersTrue(h, k, x, y, p, q, a, b);
    if Contains(h, x, y) {
      SwapNeedsBoth(h, x, y, p, q, a, b);
    }
  }

  /** A = []int{1} and B = []int{} make such a heap. */
  const SWAPPED: Heap := map[
    0 := Cell(1, 1, false, Struct([1, 2])), 3 := Cell(2, 1, false, Struct([2, 1])),
    1 := Cell(3, 2, false, Ptr(100, Some(4))), 2 := Cell(4, 2, false, Ptr(200, Some(5))),
    4 := Cell(100, 3, false, Slice(false, 1000, [6])), 5 := Cell(200, 3, false, Slice(false, 2000, [])),
    6 := Cell(1000, 4, false, Scalar(1, true, false, false))]

  function SwappedRank(i: Id, f: bool): nat {
    if i == 0 || i == 3 then 3 else if i == 1 || i == 2 then 2 else if i == 4 || i == 5 then 1 else 0
  }

  lemma SwappedChildren(i: Id, c: Id)
    requires i in SWAPPED && c in Children(SWAPPED[i].shape)
    ensures c in SWAPPED && forall f :: SwappedRank(c, ChildAddressable(SWAPPED[i].shape, f)) < SwappedRank(i, f)
  {}

  lemma SwappedForms(i: Id, j: Id)
    requires i in SWAPPED && j in SWAPPED && SWAPPED[i].typ == SWAPPED[j].typ
    ensures SameForm(SWAPPED[i].shape, SWAPPED[j].shape) && !SWAPPED[i].shape.Map?
  {}

  lemma SwappedIsWellFormed()
    ensures WellFormed(SWAPPED)
  {
    forall i, c | i in SWAPPED && c in Children(SWAPPED[i].shape) ensures c in SWAPPED {
      SwappedChildren(i, c);
    }
    forall i, j | i in SWAPPED && j in SWAPPED && SWAPPED[i].typ == SWAPPED[j].typ
      ensures SameForm(SWAPPED[i].shape, SWAPPED[j].shape)
    {
      SwappedForms(i, j);
    }
    forall i | i in SWAPPED ensures !SWAPPED[i].shape.Map? {
      SwappedForms(i, i);
    }
  }

  lemma SwappedIsRanked(k: Ranking)
    requires k == Ranking(SwappedRank, 4)
    ensures Ranked(SWAPPED, k)
  {
    forall i, f, c | i in SWAPPED && !Recorded(SWAPPED, i, f) && c in Children(SWAPPED[i].shape)
      ensures k.rank(c, ChildAddressable(SWAPPED[i].shape, f)) < k.rank(i, f)
    {
      SwappedChildren(i, c);
    }
  }

  /** A slice does not contain a longer one. */
  lemma ShorterSlice(h: Heap, a: Id, b: Id)
    requires a in h && b in h && h[a].shape.Slice? && h[b].shape.Slice? && !h[b].shape.isNil
    requires |h[a].shape.elems| < |h[b].shape.elems|
    ensures !Contains(h, a, b)
  {
    forall r | (a, b) in r ensures !Consistent(h, r) {
      assert !Holds(h, r, a, b);
    }
  }

  lemma EmptySlice(h: Heap, k: Ranking, a: Id, b: Id)
    requires WellFormed(h) && Ranked(h, k) && a in h && b in h && h[a].typ == h[b].typ
    requires h[a].shape.Slice? && h[b].shape.Slice? && h[b].shape.elems == []
    ensures Deep(h, k, a, b, true, {}).0
  {
    assert Zip(h[a].shape.elems, []) == [];
  }

  lemma SwappedIsCrossed()
    ensures Crossed(SWAPPED, 0, 3, 1, 2, 4, 5)
  {}

  lemma SwappedSlices(k: Ranking)
    requires WellFormed(SWAPPED) && Ranked(SWAPPED, k)
    ensures Deep(SWAPPED, k, 4, 5, true, {}).0 && !Contains(SWAPPED, 5, 4)
  {
    EmptySlice(SWAPPED, k, 4, 5);
    ShorterSlice(SWAPPED, 5, 4);
  }

  lemma SwapExample(k: Ranking)
    requires k == Ranking(SwappedRank, 4)
    ensures WellFormed(SWAPPED) && Ranked(SWAPPED, k)
    ensures Deep(SWAPPED, k, 0, 3, false, {}).0 && !Contains(SWAPPED, 0, 3)
  {
    SwappedIsWellFormed();
    SwappedIsRanked(k);
    SwappedIsCrossed();
    SwappedSlices(k);
    SwapIsUnsound(SWAPPED, k, 0, 3, 1, 2, 4, 5);
  }

  /** The same cells and a nil pointer of their type: &[]int{} contains nil, nil contains &[]int{1}, and &[]int{} does not. */
  const WITH_NIL: Heap := SWAPPED[7 := Cell(5, 2, false, Ptr(0, None))]

  lemma NilPointerExample()
    ensures Contains(WITH_NIL, 2, 7) && Contains(WITH_NIL, 7, 1) && !Contains(WITH_NIL, 2, 1)
  {
    ShorterSlice(WITH_NIL, 5, 4);
    NilBreaksTransitivity(WITH_NIL, 2, 7, 1);
  }

  // ---- A place seen in two ways ----

  /** The heap of x = S{&V, &V} and y = S{&W, &W}, the first field not exported: `v` and `w` are the slices seen through it,
      `v'` and `w'` the same slices seen through the second. */
  ghost predicate Veiled(h: Heap, x: Id, y: Id, p: Id, p': Id, q: Id, q': Id, v: Id, v': Id, w: Id, w': Id) {
    && {x, y, p, p', q, q', v, v', w, w'} <= h.Keys
    && h[x].typ == h[y].typ && h[x].shape == Struct([p, p']) && h[y].shape == Struct([q, q'])
    && h[p].typ == h[q].typ == h[p'].typ == h[q'].typ
    && (exists t, u :: t != u && h[p].shape == Ptr(t, Some(v)) && h[p'].shape == Ptr(t, Some(v'))
                       && h[q].shape == Ptr(u, Some(w)) && h[q'].shape == Ptr(u, Some(w')))
    && h[v].typ == h[v'].typ == h[w].typ == h[w'].typ && h[v].addr == h[v'].addr && h[w].addr == h[w'].addr
    && h[v].shape.Slice? && h[v'].shape.Slice?
  }

  lemma VeiledAnswersTrue(h: Heap, k: Ranking, x: Id, y: Id, p: Id, p': Id, q: Id, q': Id, v: Id, v': Id, w: Id, w': Id)
    requires WellFormed(h) && Ranked(h, k) && Veiled(h, x, y, p, p', q, q', v, v', w, w') && Deep(h, k, v, w, true, {}).0
    ensures Deep(h, k, x, y, false, {}).0
  {
    var visited := Deep(h, k, v, w, true, {}).1;
    assert VisitOf(h, v, w) in visited && VisitOf(h, v, w) == VisitOf(h, v', w');
    assert Deep(h, k, v', w', true, visited) == (true, visited);
    PointerStep(h, k, p, q, v, w, {});
    PointerStep(h, k, p', q', v', w', visited);
    StructStep(h, k, x, y, p, p', q, q', {});
  }

  lemma VeiledNeedsBoth(h: Heap, x: Id, y: Id, p: Id, p': Id, q: Id, q': Id, v: Id, v': Id, w: Id, w': Id)
    requires Veiled(h, x, y, p, p', q, q', v, v', w, w') && Contains(h, x, y)
    ensures Contains(h, v', w')
  {
    var r :| (x, y) in r && Consistent(h, r);
    assert Holds(h, r, x, y);
    assert Zip([p, p'], [q, q'])[1].value in r;
    assert Holds(h, r, p', q');
    assert Expand(h[p'].shape, h[q'].shape) == Go([Some((v', w'))]);
    assert [Some((v', w'))][0].value in r;
  }

  /** Behind an unexported field everything is accepted, and the visited set does not remember through which field a place
      was seen: the exported field is then answered unread, though nothing is swapped and the two values share nothing. */
  lemma HiddenIsUnsound(h: Heap, k: Ranking, x: Id, y: Id, p: Id, p': Id, q: Id, q': Id, v: Id, v': Id, w: Id, w': Id)
    requires WellFormed(h) && Ranked(h, k) && Veiled(h, x, y, p, p', q, q', v, v', w, w')
    requires Deep(h, k, v, w, true, {}).0 && !Contains(h, v', w')
    ensures Deep(h, k, x, y, false, {}).0 && !Contains(h, x, y)
  {
    VeiledAnswersTrue(h, k, x, y, p, p', q, q', v, v', w, w');
    if Contains(h, x, y) {
      VeiledNeedsBoth(h, x, y, p, p', q, q', v, v', w, w');
    }
  }

  /** V = []int{1} and W = []int{2} make such a heap. From 2 on an even number is seen through the unexported field, the next
      odd one is the same place seen through the exported one. */
  function HiddenShape(i: Id): Shape {
    if i < 2 then Struct([2 + 2 * i, 3 + 2 * i])
    else if i < 6 then Ptr(if i < 4 then 100 else 200, Some(i + 4))
    else if i < 10 then Slice(false, if i < 8 then 1000 else 2000, [i + 4])
    else Scalar(if i < 12 then 1 else 2, true, i % 2 == 0, false)
  }

  function HiddenCell(i: Id): Cell {
    var kind := if i < 2 then 1 else if i < 6 then 2 else if i < 10 then 3 else 4;
    var addr := if i < 6 then i else if i < 8 then 100 else if i < 10 then 200 else if i < 12 then 1000 else 2000;
    Cell(addr, kind, i >= 2 && i % 2 == 0, HiddenShape(i))
  }

  const HIDDEN: Heap := map i: Id | i < 14 :: HiddenCell(i)

  function HiddenRank(i: Id, f: bool): nat { if i < 2 then 3 else if i < 6 then 2 else if i < 10 then 1 else 0 }

  lemma HiddenChildren(i: Id, c: Id)
    requires i in HIDDEN && c in Children(HIDDEN[i].shape)
    ensures c in HIDDEN && forall f :: HiddenRank(c, ChildAddressable(HIDDEN[i].shape, f)) < HiddenRank(i, f)
    ensures (HIDDEN[i].readOnly ==> HIDDEN[c].readOnly) && (!HIDDEN[i].shape.Struct? ==> HIDDEN[c].readOnly == HIDDEN[i].readOnly)
  {
    assert HIDDEN[i] == HiddenCell(i);
  }

  lemma HiddenForms(i: Id, j: Id)
    requires i in HIDDEN && j in HIDDEN && HIDDEN[i].typ == HIDDEN[j].typ
    ensures SameForm(HIDDEN[i].shape, HIDDEN[j].shape) && !HIDDEN[i].shape.Map?
  {
    assert HIDDEN[i] == HiddenCell(i) && HIDDEN[j] == HiddenCell(j);
  }

  lemma HiddenIsWellFormed(k: Ranking)
    requires k == Ranking(HiddenRank, 4)
    ensures WellFormed(HIDDEN) && Ranked(HIDDEN, k)
  {
    forall i, c | i in HIDDEN && c in Children(HIDDEN[i].shape) ensures c in HIDDEN { HiddenChildren(i, c); }
    forall i, j | i in HIDDEN && j in HIDDEN && HIDDEN[i].typ == HIDDEN[j].typ
      ensures SameForm(HIDDEN[i].shape, HIDDEN[j].shape)
    {
      HiddenForms(i, j);
    }
    forall i | i in HIDDEN ensures !HIDDEN[i].shape.Map? { HiddenForms(i, i); }
    forall i, f, c | i in HIDDEN && !Recorded(HIDDEN, i, f) && c in Children(HIDDEN[i].shape)
      ensures k.rank(c, ChildAddressable(HIDDEN[i].shape, f)) < k.rank(i, f)
    {
      HiddenChildren(i, c);
    }
  }

  /** One-element slices whose elements are hidden are accepted; of visible ones the values must agree. */
  lemma OneElement(h: Heap, k: Ranking, a: Id, b: Id, c: Id, d: Id)
    requires WellFormed(h) && Ranked(h, k) && a in h && b in h && c in h && d in h && h[a].typ == h[b].typ && h[c].typ == h[d].typ
    requires h[a].shape.Slice? && h[a].shape.elems == [c] && h[b].shape.Slice? && !h[b].shape.isNil && h[b].shape.elems == [d]
    requires h[a].shape.data != h[b].shape.data && h[c].shape.Scalar? && h[d].shape.Scalar?
    ensures h[c].shape.hidden ==> Deep(h, k, a, b, true, {}).0
    ensures !Expand(h[c].shape, h[d].shape).result ==> !Contains(h, a, b)
  {
    ExpandStays(h, a, b);
    var pairs := [Some((c, d))];
    assert Zip([c], [d]) == pairs;
    assert Expand(h[a].shape, h[b].shape) == Go(pairs);
    var visited := {VisitOf(h, a, b)};
    assert {} + visited == visited;
    DeepAllOne(h, k, (c, d), true, visited, k.limit);
    forall r | (a, b) in r && Consistent(h, r) ensures Expand(h[c].shape, h[d].shape).result {
      assert Holds(h, r, a, b) && pairs[0].value in r;
      assert Holds(h, r, c, d);
    }
  }

  lemma HiddenIsVeiled()
    ensures Veiled(HIDDEN, 0, 1, 2, 3, 4, 5, 6, 7, 8, 9)
  {
    assert HIDDEN[2].shape == Ptr(100, Some(6)) && HIDDEN[3].shape == Ptr(100, Some(7));
    assert HIDDEN[4].shape == Ptr(200, Some(8)) && HIDDEN[5].shape == Ptr(200, Some(9));
  }

  lemma HiddenFields(i: Id, n: nat)
    requires i in HIDDEN && HIDDEN[i].shape.Struct? && n < |HIDDEN[i].shape.fields|
    ensures HIDDEN[i].shape.fields[n] in HIDDEN && HIDDEN[HIDDEN[i].shape.fields[n]].readOnly == (n == 0)
  {
    assert HIDDEN[i] == HiddenCell(i);
    var c := HIDDEN[i].shape.fields[n];
    assert c == 2 + 2 * i + n && HIDDEN[c] == HiddenCell(c);
  }

  lemma HiddenIsFlagged()
    ensures Flagged(HIDDEN)
  {
    forall i, c | i in HIDDEN && c in Children(HIDDEN[i].shape) && c in HIDDEN
      ensures (HIDDEN[i].readOnly ==> HIDDEN[c].readOnly) && (!HIDDEN[i].shape.Struct? ==> HIDDEN[c].readOnly == HIDDEN[i].readOnly)
    {
      HiddenChildren(i, c);
    }
    forall i, n: nat | i in HIDDEN && HIDDEN[i].shape.Struct? && n < |HIDDEN[i].shape.fields|
      ensures HIDDEN[i].shape.fields[n] in HIDDEN && HIDDEN[HIDDEN[i].shape.fields[n]].readOnly == (n == 0)
    {
      HiddenFields(i, n);
    }
    forall i | i in HIDDEN && HIDDEN[i].shape.Scalar? ensures HIDDEN[i].shape.hidden == HIDDEN[i].readOnly {
      assert HIDDEN[i] == HiddenCell(i);
    }
  }

  lemma HiddenAccepted(k: Ranking)
    requires WellFormed(HIDDEN) && Ranked(HIDDEN, k)
    ensures Deep(HIDDEN, k, 6, 8, true, {}).0
  {
    OneElement(HIDDEN, k, 6, 8, 10, 12);
  }

  lemma VisibleDiffer(k: Ranking)
    requires WellFormed(HIDDEN) && Ranked(HIDDEN, k)
    ensures !Contains(HIDDEN, 7, 9)
  {
    OneElement(HIDDEN, k, 7, 9, 11, 13);
  }

  lemma HiddenExample(k: Ranking)
    requires k == Ranking(HiddenRank, 4)
    ensures WellFormed(HIDDEN) && Flagged(HIDDEN) && Ranked(HIDDEN, k)
    ensures Deep(HIDDEN, k, 0, 1, false, {}).0 && !Contains(HIDDEN, 0, 1)
  {
    HiddenIsFlagged();
    HiddenIsWellFormed(k);
    HiddenIsVeiled();
    HiddenAccepted(k);
    VisibleDiffer(k);
    HiddenIsUnsound(HIDDEN, k, 0, 1, 2, 3, 4, 5, 6, 7, 8, 9);
  }
}
