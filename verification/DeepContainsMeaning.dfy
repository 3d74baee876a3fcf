/** What containment means kind by kind, and the relaxations that let unset parts of a template be ignored. */
module DeepContainsMeaning {
  import opened Basics
  import opened Paths
  import opened DeepContains
  import opened DeepContainsProofs
  import opened DeepContainsOrder

  ghost predicate EachContains(h: Heap, xs: seq<Id>, ys: seq<Id>) {
    |ys| <= |xs| && forall i :: 0 <= i < |ys| ==> Contains(h, xs[i], ys[i])
  }

  /** Every key of `ys` is in `xs`, with a value that contains its own. */
  ghost predicate KeysContain(h: Heap, xs: seq<(int, Id)>, ys: seq<(int, Id)>) {
    forall j :: 0 <= j < |ys| ==> KeyContains(h, xs, ys[j].0, ys[j].1)
  }

  ghost predicate KeyContains(h: Heap, xs: seq<(int, Id)>, key: int, b: Id) {
    exists i :: 0 <= i < |xs| && xs[i].0 == key && Contains(h, xs[i].1, b)
  }

  /** One level, by kind. A nil or shorter `b` asks for less, the same storage is not read, and a zero scalar, or one that
      was reached through an unexported field, asks for nothing. */
  ghost predicate ContainsLevel(h: Heap, a: Shape, b: Shape) {
    match (a, b)
    case (Array(xs), Array(ys)) => EachContains(h, xs, ys)
    case (Struct(xs), Struct(ys)) => EachContains(h, xs, ys)
    case (Slice(_, p, xs), Slice(isNil, q, ys)) => isNil || (|ys| <= |xs| && (p == q || EachContains(h, xs, ys)))
    case (Map(_, p, xs), Map(isNil, q, ys)) => isNil || (|ys| <= |xs| && (p == q || KeysContain(h, xs, ys)))
    case (Interface(x), Interface(y)) => x.None? || y.None? || Contains(h, x.value, y.value)
    case (Ptr(p, x), Ptr(q, y)) => p == q || x.None? || y.None? || Contains(h, x.value, y.value)
    case (Func(isNil), Func(isNil')) => isNil && isNil'
    case (Scalar(v, _, hidden, nan), Scalar(w, zeroable, hidden', nan')) =>
      (zeroable && w == 0 && !nan') || hidden || hidden' || (v == w && !nan && !nan')
    case _ => false
  }

  // ---- Containment unfolds ----

  ghost function AllContained(h: Heap): set<(Id, Id)> {
    set a, b | a in h.Keys && b in h.Keys && Contains(h, a, b) :: (a, b)
  }

  lemma HoldsMore(h: Heap, r: set<(Id, Id)>, more: set<(Id, Id)>, a: Id, b: Id)
    requires Holds(h, r, a, b) && r <= more
    ensures Holds(h, more, a, b)
  {}

  /** All contained pairs together are a consistent relation. */
  lemma AllIsConsistent(h: Heap)
    ensures Consistent(h, AllContained(h))
  {
    var all := AllContained(h);
    forall p | p in all ensures Holds(h, all, p.0, p.1) {
      var r :| (p.0, p.1) in r && Consistent(h, r);
      ConsistentWithin(h, r);
      HoldsMore(h, r, all, p.0, p.1);
    }
  }

  lemma ConsistentWithin(h: Heap, r: set<(Id, Id)>)
    requires Consistent(h, r)
    ensures r <= AllContained(h)
  {
    forall p | p in r ensures p in AllContained(h) {
      assert Holds(h, r, p.0, p.1);
      assert (p.0, p.1) in r && Contains(h, p.0, p.1);
    }
  }

  lemma Unfolds(h: Heap, a: Id, b: Id)
    ensures Contains(h, a, b) <==> Holds(h, AllContained(h), a, b)
  {
    AllIsConsistent(h);
    var all := AllContained(h);
    if Holds(h, all, a, b) {
      var more := all + {(a, b)};
      forall p | p in more ensures Holds(h, more, p.0, p.1) { HoldsMore(h, all, more, p.0, p.1); }
      assert (a, b) in more && Consistent(h, more);
    }
    if Contains(h, a, b) {
      var r :| (a, b) in r && Consistent(h, r);
      ConsistentWithin(h, r);
      HoldsMore(h, r, all, a, b);
    }
  }

  ghost predicate PairsContained(h: Heap, pairs: seq<Option<(Id, Id)>>) {
    forall i :: 0 <= i < |pairs| ==> pairs[i].Some? && Contains(h, pairs[i].value.0, pairs[i].value.1)
  }

  lemma StepUnfolds(h: Heap, a: Id, b: Id)
    requires WellFormed(h) && a in h && b in h && h[a].typ == h[b].typ
    ensures Contains(h, a, b) <==>
            match Expand(h[a].shape, h[b].shape)
            case Stop(result) => result
            case Go(pairs) => PairsContained(h, pairs)
  {
    Unfolds(h, a, b);
    ExpandStays(h, a, b);
    var step := Expand(h[a].shape, h[b].shape);
    if step.Go? {
      forall i | 0 <= i < |step.pairs| && step.pairs[i].Some?
        ensures step.pairs[i].value in AllContained(h) <==> Contains(h, step.pairs[i].value.0, step.pairs[i].value.1)
      {
        assert step.pairs[i].value.0 in h && step.pairs[i].value.1 in h;
      }
    }
  }

  lemma EntriesUnfold(h: Heap, xs: seq<(int, Id)>, ys: seq<(int, Id)>)
    requires DistinctKeys(xs)
    ensures PairsContained(h, ZipEntries(xs, ys)) <==> KeysContain(h, xs, ys)
  {
    var pairs := ZipEntries(xs, ys);
    forall j | 0 <= j < |ys|
      ensures pairs[j].Some? && Contains(h, pairs[j].value.0, pairs[j].value.1) <==> KeyContains(h, xs, ys[j].0, ys[j].1)
    {
      var found := Find(xs, ys[j].0);
      if found.Some? {
        var i :| 0 <= i < |xs| && xs[i] == (ys[j].0, found.value);
        assert forall i' :: 0 <= i' < |xs| && xs[i'].0 == ys[j].0 ==> i' == i;
      }
    }
  }

  lemma ElementsUnfold(h: Heap, xs: seq<Id>, ys: seq<Id>)
    requires |xs| >= |ys|
    ensures PairsContained(h, Zip(xs, ys)) <==> EachContains(h, xs, ys)
  {
    assert forall i :: 0 <= i < |ys| ==> Zip(xs, ys)[i] == Some((xs[i], ys[i]));
  }

  /** Containment of any two values, by their kinds and the containment of their parts. */
  lemma ContainsIff(h: Heap, a: Id, b: Id)
    requires WellFormed(h) && a in h && b in h
    ensures Contains(h, a, b) <==> h[a].typ == h[b].typ && ContainsLevel(h, h[a].shape, h[b].shape)
  {
    if h[a].typ != h[b].typ {
      Unfolds(h, a, b);
    } else {
      StepUnfolds(h, a, b);
      assert SameForm(h[a].shape, h[b].shape);
      LevelUnfolds(h, h[a].shape, h[b].shape);
    }
  }

  lemma LevelUnfolds(h: Heap, x: Shape, y: Shape)
    requires SameForm(x, y) && (x.Map? ==> DistinctKeys(x.entries))
    ensures ContainsLevel(h, x, y) <==> match Expand(x, y) case Stop(result) => result case Go(pairs) => PairsContained(h, pairs)
  {
    match x
    case Array(xs) => ElementsUnfold(h, xs, y.elems);
    case Struct(xs) => ElementsUnfold(h, xs, y.fields);
    case Slice(_, _, xs) => if |y.elems| <= |xs| { ElementsUnfold(h, xs, y.elems); }
    case Map(_, _, xs) => EntriesUnfold(h, xs, y.entries);
    case Interface(e) => OnePair(h, e, y.elem);
    case Ptr(_, e) => OnePair(h, e, y.elem);
    case Func(_) =>
    case Scalar(_, _, _, _) =>
  }

  lemma OnePair(h: Heap, x: Option<Id>, y: Option<Id>)
    ensures x.Some? && y.Some? ==> (PairsContained(h, [Some((x.value, y.value))]) <==> Contains(h, x.value, y.value))
  {
    if x.Some? && y.Some? { assert [Some((x.value, y.value))][0] == Some((x.value, y.value)); }
  }

  // ---- What asks for nothing ----

  /** Unset: a zero scalar, or a nil slice, map, pointer or interface; arrays and structs by their parts. */
  ghost predicate Unset(h: Heap, i: Id) {
    i in h &&
    match h[i].shape
    case Array(_) => true
    case Struct(_) => true
    case Slice(isNil, _, _) => isNil
    case Map(isNil, _, _) => isNil
    case Interface(e) => e.None?
    case Ptr(_, e) => e.None?
    case Func(_) => false
    case Scalar(v, zeroable, _, nan) => zeroable && v == 0 && !nan
  }

  ghost predicate Blank(h: Heap, y: Id) { forall v :: Reach(Opening(h), y, v) ==> Unset(h, v) }

  ghost function AboveBlank(h: Heap): set<(Id, Id)> {
    set a, b | a in h.Keys && b in h.Keys && h[a].typ == h[b].typ && Blank(h, b) :: (a, b)
  }

  lemma PartsOfBlank(h: Heap, y: Id, v: Id)
    requires Blank(h, y) && Opens(h, y, v)
    ensures Blank(h, v)
  {
    var opens := Opening(h);
    forall w | Reach(opens, v, w) ensures Unset(h, w) {
      assert opens(y, v);
      StepThenReach(opens, y, v, w);
    }
  }

  lemma BlankHolds(h: Heap, a: Id, b: Id)
    requires WellFormed(h) && (a, b) in AboveBlank(h) && PartTypes(h)
    ensures Holds(h, AboveBlank(h), a, b)
  {
    var r, x, y := AboveBlank(h), h[a].shape, h[b].shape;
    assert Reach(Opening(h), b, b) && Unset(h, b) && SameForm(x, y);
    if x.Array? || x.Struct? {
      var xs, ys := Children(x), Children(y);
      assert Expand(x, y) == Go(Zip(xs, ys));
      forall i | 0 <= i < |ys| ensures (xs[i], ys[i]) in r {
        assert Opens(h, b, ys[i]) && xs[i] in Children(x) && ys[i] in Children(y);
        PartsOfBlank(h, b, ys[i]);
      }
    }
  }

  /** As Go's types see to: parts of values of one type, element by element and field by field, have one type. */
  ghost predicate PartTypes(h: Heap) {
    forall a, b, i :: (a in h && b in h && h[a].typ == h[b].typ && (h[a].shape.Array? || h[a].shape.Struct?)
                       && 0 <= i < |Children(h[a].shape)| && i < |Children(h[b].shape)|
                       && Children(h[a].shape)[i] in h && Children(h[b].shape)[i] in h) ==>
      h[Children(h[a].shape)[i]].typ == h[Children(h[b].shape)[i]].typ
  }

  /** A value all of whose parts are unset is contained in every value of its type, and DeepContains says so: unset fields
      of a template are ignored. */
  lemma BlankIsContained(h: Heap, k: Ranking, x: Id, y: Id)
    requires WellFormed(h) && PartTypes(h) && Ranked(h, k) && x in h && y in h && h[x].typ == h[y].typ && Blank(h, y)
    ensures Contains(h, x, y) && Deep(h, k, x, y, false, {}).0
  {
    var r := AboveBlank(h);
    forall p | p in r ensures Holds(h, r, p.0, p.1) { BlankHolds(h, p.0, p.1); }
    assert (x, y) in r && Consistent(h, r);
    Completeness(h, k, x, y);
  }

  /** Between two visible scalars of one type the answer is right away: `y` is zero, or both are the same and no NaN. */
  lemma ScalarAnswerIff(h: Heap, k: Ranking, x: Id, y: Id, f: bool, visited: set<Visit>)
    requires WellFormed(h) && Ranked(h, k) && x in h && y in h && h[x].typ == h[y].typ && h[x].shape.Scalar?
    requires !h[x].shape.hidden && h[y].shape.Scalar? && !h[y].shape.hidden
    ensures var v, w := h[x].shape, h[y].shape;
            Deep(h, k, x, y, f, visited).0 <==> (w.zeroable && w.value == 0 && !w.nan) || (v.value == w.value && !v.nan && !w.nan)
  {}
}
