/** pkg/application-grid-controller/util/consistency.go: DeepContains over a heap of Go values. */
module DeepContains {
  import opened Basics

  /** A reflect.Value: a place, and whether it was reached through an unexported field. One place seen both ways is two. */
  type Id = nat

  /** A Go value by kind. `data` and `target` are what Value.Pointer() returns; map entries are listed in iteration
      order. A scalar is zeroable when isEmptyValue knows its kind, hidden when it is read-only, and nan when it differs
      from itself. */
  datatype Shape =
    | Array(elems: seq<Id>)
    | Struct(fields: seq<Id>)
    | Slice(isNil: bool, data: nat, elems: seq<Id>)
    | Map(isNil: bool, data: nat, entries: seq<(int, Id)>)
    | Interface(elem: Option<Id>)
    | Ptr(target: nat, elem: Option<Id>)
    | Func(isNil: bool)
    | Scalar(value: int, zeroable: bool, hidden: bool, nan: bool)

  /** Where the value lives, its type, and whether it is read-only because it was reached through an unexported field. The
      address of a value that is not addressable is never read; it is any number that no other has. */
  datatype Cell = Cell(addr: nat, typ: nat, readOnly: bool, shape: Shape)

  type Heap = map<Id, Cell>

  function Children(s: Shape): seq<Id> {
    match s
    case Array(es) => es
    case Struct(fs) => fs
    case Slice(_, _, es) => es
    case Map(_, _, entries) => seq(|entries|, i requires 0 <= i < |entries| => entries[i].1)
    case Interface(e) => if e.Some? then [e.value] else []
    case Ptr(_, e) => if e.Some? then [e.value] else []
    case _ => []
  }

  /** Values of one type have one form. */
  ghost predicate SameForm(a: Shape, b: Shape) {
    match (a, b)
    case (Array(x), Array(y)) => |x| == |y|
    case (Struct(x), Struct(y)) => |x| == |y|
    case (Slice(_, _, _), Slice(_, _, _)) => true
    case (Map(_, _, _), Map(_, _, _)) => true
    case (Interface(_), Interface(_)) => true
    case (Ptr(_, _), Ptr(_, _)) => true
    case (Func(_), Func(_)) => true
    case (Scalar(_, z, _, _), Scalar(_, z', _, _)) => z == z'
    case _ => false
  }

  predicate DistinctKeys(entries: seq<(int, Id)>) {
    forall i, j :: 0 <= i < j < |entries| ==> entries[i].0 != entries[j].0
  }

  ghost predicate WellFormed(h: Heap) {
    && (forall i :: i in h ==> forall c :: c in Children(h[i].shape) ==> c in h)
    && (forall i, j :: i in h && j in h && h[i].typ == h[j].typ ==> SameForm(h[i].shape, h[j].shape))
    && (forall i :: i in h && h[i].shape.Map? ==> DistinctKeys(h[i].shape.entries))
  }

  /** How being read-only spreads: to every part, and to the fields that the struct type does not export. */
  ghost predicate Flagged(h: Heap) {
    && (forall i :: i in h && h[i].shape.Scalar? ==> h[i].shape.hidden == h[i].readOnly)
    && (forall i, c :: i in h && c in Children(h[i].shape) && c in h ==>
          (h[i].readOnly ==> h[c].readOnly) && (!h[i].shape.Struct? ==> h[c].readOnly == h[i].readOnly))
    && (forall i, j, n :: (i in h && j in h && h[i].typ == h[j].typ && h[i].readOnly == h[j].readOnly && h[i].shape.Struct?
                           && h[j].shape.Struct? && 0 <= n < |h[i].shape.fields| && n < |h[j].shape.fields|
                           && h[i].shape.fields[n] in h && h[j].shape.fields[n] in h) ==>
          h[h[i].shape.fields[n]].readOnly == h[h[j].shape.fields[n]].readOnly)
  }

  // ---- One level of the comparison ----

  function Zip(xs: seq<Id>, ys: seq<Id>): seq<Option<(Id, Id)>>
    requires |xs| >= |ys|
  {
    seq(|ys|, i requires 0 <= i < |ys| => Some((xs[i], ys[i])))
  }

  function Find(entries: seq<(int, Id)>, key: int): (r: Option<Id>)
    ensures r.Some? ==> exists i :: 0 <= i < |entries| && entries[i] == (key, r.value)
    ensures r.None? ==> forall i :: 0 <= i < |entries| ==> entries[i].0 != key
  {
    if entries == [] then None
    else if entries[0].0 == key then Some(entries[0].1)
    else
      var r := Find(entries[1..], key);
      assert forall i :: 0 <= i < |entries| - 1 ==> entries[1..][i] == entries[i + 1];
      r
  }

  /** The values under `y`'s keys, side by side; a key missing from `x` gives no pair. */
  function ZipEntries(xs: seq<(int, Id)>, ys: seq<(int, Id)>): seq<Option<(Id, Id)>> {
    seq(|ys|, i requires 0 <= i < |ys| =>
      match Find(xs, ys[i].0) case None => None case Some(x) => Some((x, ys[i].1)))
  }

  predicate EmptyScalar(s: Shape)
    requires s.Scalar?
  {
    s.zeroable && s.value == 0 && !s.nan
  }

  /** What is known at once, or the pairs still to compare, in order; a missing pair is a failure. */
  datatype Step = Stop(result: bool) | Go(pairs: seq<Option<(Id, Id)>>)

  function Expand(x: Shape, y: Shape): Step
    requires SameForm(x, y)
  {
    match x
    case Array(es) => Go(Zip(es, y.elems))
    case Struct(fs) => Go(Zip(fs, y.fields))
    case Slice(_, data, es) =>
      if y.isNil then Stop(true)
      else if |es| < |y.elems| then Stop(false)
      else if data == y.data then Stop(true)
      else Go(Zip(es, y.elems))
    case Map(_, data, entries) =>
      if y.isNil then Stop(true)
      else if |entries| < |y.entries| then Stop(false)
      else if data == y.data then Stop(true)
      else Go(ZipEntries(entries, y.entries))
    case Interface(e) =>
      // an invalid Value, the element of a nil interface, contains and is contained in anything
      if e.None? || y.elem.None? then Stop(true) else Go([Some((e.value, y.elem.value))])
    case Ptr(target, e) =>
      if target == y.target || e.None? || y.elem.None? then Stop(true) else Go([Some((e.value, y.elem.value))])
    case Func(isNil) => Stop(isNil && y.isNil)
    case Scalar(v, _, hidden, nan) =>
      Stop(EmptyScalar(y) || hidden || y.hidden || (v == y.value && !nan && !y.nan))
  }

  lemma ExpandStays(h: Heap, a: Id, b: Id)
    requires WellFormed(h) && a in h && b in h && h[a].typ == h[b].typ
    ensures var step := Expand(h[a].shape, h[b].shape);
            step.Go? ==> forall i :: 0 <= i < |step.pairs| && step.pairs[i].Some? ==>
              && step.pairs[i].value.0 in Children(h[a].shape) && step.pairs[i].value.0 in h
              && step.pairs[i].value.1 in Children(h[b].shape) && step.pairs[i].value.1 in h
  {
    var x, y := h[a].shape, h[b].shape;
    var step := Expand(x, y);
    if step.Go? {
      forall i | 0 <= i < |step.pairs| && step.pairs[i].Some?
        ensures step.pairs[i].value.0 in Children(x) && step.pairs[i].value.1 in Children(y)
      {
        if x.Map? {
          var j :| 0 <= j < |x.entries| && x.entries[j] == (y.entries[i].0, step.pairs[i].value.0);
          assert Children(x)[j] == step.pairs[i].value.0 && Children(y)[i] == step.pairs[i].value.1;
        }
      }
    }
  }

  // ---- The greatest-fixpoint reading of containment ----

  ghost predicate Holds(h: Heap, r: set<(Id, Id)>, a: Id, b: Id) {
    && a in h && b in h && h[a].typ == h[b].typ && SameForm(h[a].shape, h[b].shape)
    && match Expand(h[a].shape, h[b].shape)
       case Stop(result) => result
       case Go(pairs) => forall i :: 0 <= i < |pairs| ==> pairs[i].Some? && pairs[i].value in r
  }

  ghost predicate Consistent(h: Heap, r: set<(Id, Id)>) { forall p :: p in r ==> Holds(h, r, p.0, p.1) }

  /** `a` deeply contains `b`: some consistent relation says so. */
  ghost predicate Contains(h: Heap, a: Id, b: Id) { exists r :: (a, b) in r && Consistent(h, r) }

  // ---- The recursion with its visited set ----

  datatype Visit = Visit(a1: nat, a2: nat, typ: nat)

  function VisitOf(h: Heap, a: Id, b: Id): Visit
    requires a in h && b in h
  {
    if h[a].addr > h[b].addr then Visit(h[b].addr, h[a].addr, h[a].typ) else Visit(h[a].addr, h[b].addr, h[a].typ)
  }

  function Visits(h: Heap): set<Visit> { set a, b | a in h.Keys && b in h.Keys :: VisitOf(h, a, b) }

  predicate Hard(s: Shape) { s.Map? || s.Slice? || s.Ptr? || s.Interface? }

  /** Whether the parts of a value are addressable, given whether it is itself. */
  function ChildAddressable(s: Shape, addressable: bool): bool {
    match s
    case Slice(_, _, _) => true
    case Ptr(_, _) => true
    case Interface(_) => false
    case Map(_, _, _) => false
    case _ => addressable
  }

  predicate Recorded(h: Heap, a: Id, addressable: bool)
    requires a in h
  {
    addressable && Hard(h[a].shape)
  }

  /** A rank that falls on every step not entered into the visited set: no cycle avoids addressable hard cells. */
  datatype Ranking = Ranking(rank: (Id, bool) -> nat, limit: nat)

  ghost predicate Ranked(h: Heap, k: Ranking) {
    && (forall i, f :: i in h ==> k.rank(i, f) < k.limit)
    && (forall i, f, c :: i in h && !Recorded(h, i, f) && c in Children(h[i].shape) ==>
          k.rank(c, ChildAddressable(h[i].shape, f)) < k.rank(i, f))
  }

  ghost predicate PairsBelow(h: Heap, k: Ranking, pairs: seq<Option<(Id, Id)>>, f: bool, bound: nat) {
    forall i :: 0 <= i < |pairs| && pairs[i].Some? ==>
      pairs[i].value.0 in h && pairs[i].value.1 in h && k.rank(pairs[i].value.0, f) < bound
  }

  /** deepValueContains: the verdict and the visited set afterwards. */
  ghost function Deep(h: Heap, k: Ranking, a: Id, b: Id, f: bool, visited: set<Visit>): (r: (bool, set<Visit>))
    requires WellFormed(h) && Ranked(h, k) && a in h && b in h
    ensures visited <= r.1
    decreases Visits(h) - visited, 2 * k.rank(a, f) + 1, 0
  {
    if h[a].typ != h[b].typ then (false, visited)
    else if Recorded(h, a, f) && VisitOf(h, a, b) in visited then (true, visited)
    else
      ExpandStays(h, a, b);
      var visited' := if Recorded(h, a, f) then visited + {VisitOf(h, a, b)} else visited;
      match Expand(h[a].shape, h[b].shape)
      case Stop(result) => (result, visited')
      case Go(pairs) =>
        var f' := ChildAddressable(h[a].shape, f);
        if Recorded(h, a, f) then
          assert VisitOf(h, a, b) in Visits(h) - visited && VisitOf(h, a, b) !in Visits(h) - visited';
          DeepAll(h, k, pairs, f', visited', k.limit)
        else DeepAll(h, k, pairs, f', visited', k.rank(a, f))
  }

  ghost function DeepAll(h: Heap, k: Ranking, pairs: seq<Option<(Id, Id)>>, f: bool, visited: set<Visit>, bound: nat)
    : (r: (bool, set<Visit>))
    requires WellFormed(h) && Ranked(h, k) && PairsBelow(h, k, pairs, f, bound)
    ensures visited <= r.1
    decreases Visits(h) - visited, 2 * bound, |pairs|
  {
    if pairs == [] then (true, visited)
    else if pairs[0].None? then (false, visited)
    else
      var first := Deep(h, k, pairs[0].value.0, pairs[0].value.1, f, visited);
      if !first.0 then first else DeepAll(h, k, pairs[1..], f, first.1, bound)
  }

  /** The recursion as the source runs it, the visited map being shared by all levels. */
  class Comparison {
    var visited: set<Visit>

    constructor ()
      ensures visited == {}
    {
      visited := {};
    }

    method DeepValueContains(h: Heap, ghost k: Ranking, v1: Id, v2: Id, addressable: bool) returns (ok: bool)
      requires WellFormed(h) && Ranked(h, k) && v1 in h && v2 in h
      modifies this
      ensures (ok, visited) == Deep(h, k, v1, v2, addressable, old(visited))
      decreases Visits(h) - visited, 2 * k.rank(v1, addressable) + 1, 0
    {
      if h[v1].typ != h[v2].typ { return false; }
      ghost var bound := k.rank(v1, addressable);
      if addressable && Hard(h[v1].shape) {
        var v := VisitOf(h, v1, v2);
        if v in visited { return true; }
        assert v in Visits(h) - visited && v !in Visits(h) - (visited + {v});
        visited := visited + {v};
        bound := k.limit;
      }
      ExpandStays(h, v1, v2);
      var step := Expand(h[v1].shape, h[v2].shape);
      if step.Stop? { return step.result; }
      ok := ComparePairs(h, k, step.pairs, ChildAddressable(h[v1].shape, addressable), bound);
    }

    /** The loop over elements, fields or keys. */
    method ComparePairs(h: Heap, ghost k: Ranking, pairs: seq<Option<(Id, Id)>>, f: bool, ghost bound: nat) returns (ok: bool)
      requires WellFormed(h) && Ranked(h, k) && PairsBelow(h, k, pairs, f, bound)
      modifies this
      ensures (ok, visited) == DeepAll(h, k, pairs, f, old(visited), bound)
      decreases Visits(h) - visited, 2 * bound, 0
    {
      for i := 0 to |pairs|
        invariant old(visited) <= visited
        invariant DeepAll(h, k, pairs, f, old(visited), bound) == DeepAll(h, k, pairs[i..], f, visited, bound)
      {
        if pairs[i].None? { return false; }
        assert pairs[i..][1..] == pairs[i + 1..];
        var same := DeepValueContains(h, k, pairs[i].value.0, pairs[i].value.1, f);
        if !same { return false; }
      }
      return true;
    }
  }

  /** DeepContains on two interface values, None being a nil interface. */
  method DeepContainsValues(h: Heap, ghost k: Ranking, x: Option<Id>, y: Option<Id>) returns (ok: bool)
    requires WellFormed(h) && Ranked(h, k) && (x.Some? ==> x.value in h) && (y.Some? ==> y.value in h)
    ensures ok <==> (x.None? && y.None?) || (x.Some? && y.Some? && Deep(h, k, x.value, y.value, false, {}).0)
  {
    if x.None? || y.None? { return x == y; }
    if h[x.value].typ != h[y.value].typ { return false; }
    var comparison := new Comparison();
    ok := comparison.DeepValueContains(h, k, x.value, y.value, false);
  }
}
