/** What DeepContains decides: complete for every heap, and exact wherever no pair comes back swapped or seen the other way. */
module DeepContainsProofs {
  import opened Basics
  import opened DeepContains

  // ---- Completeness ----

  /** Whatever was visited before, a pair of a consistent relation is found contained. */
  lemma {:induction false} DeepComplete(h: Heap, k: Ranking, r: set<(Id, Id)>, a: Id, b: Id, f: bool, visited: set<Visit>)
    requires WellFormed(h) && Ranked(h, k) && Consistent(h, r) && (a, b) in r && a in h && b in h
    ensures Deep(h, k, a, b, f, visited).0
    decreases Visits(h) - visited, 2 * k.rank(a, f) + 1, 0
  {
    assert Holds(h, r, a, b);
    if !(Recorded(h, a, f) && VisitOf(h, a, b) in visited) {
      ExpandStays(h, a, b);
      var step := Expand(h[a].shape, h[b].shape);
      if step.Go? {
        var f' := ChildAddressable(h[a].shape, f);
        if Recorded(h, a, f) {
          var visited' := visited + {VisitOf(h, a, b)};
          assert VisitOf(h, a, b) in Visits(h) - visited && VisitOf(h, a, b) !in Visits(h) - visited';
          DeepAllComplete(h, k, r, step.pairs, f', visited', k.limit);
        } else {
          DeepAllComplete(h, k, r, step.pairs, f', visited, k.rank(a, f));
        }
      }
    }
  }

  lemma {:induction false} DeepAllComplete(h: Heap, k: Ranking, r: set<(Id, Id)>, pairs: seq<Option<(Id, Id)>>, f: bool,
                                           visited: set<Visit>, bound: nat)
    requires WellFormed(h) && Ranked(h, k) && Consistent(h, r) && PairsBelow(h, k, pairs, f, bound)
    requires forall i :: 0 <= i < |pairs| ==> pairs[i].Some? && pairs[i].value in r
    ensures DeepAll(h, k, pairs, f, visited, bound).0
    decreases Visits(h) - visited, 2 * bound, |pairs|
  {
    if pairs != [] {
      var p := pairs[0].value;
      DeepComplete(h, k, r, p.0, p.1, f, visited);
      var first := Deep(h, k, p.0, p.1, f, visited);
      DeepAllComplete(h, k, r, pairs[1..], f, first.1, bound);
    }
  }

  /** DeepContains answers true whenever the values are contained in the greatest-fixpoint sense, cyclic or not. */
  lemma Completeness(h: Heap, k: Ranking, x: Id, y: Id)
    requires WellFormed(h) && Ranked(h, k) && x in h && y in h && Contains(h, x, y)
    ensures Deep(h, k, x, y, false, {}).0
  {
    var r :| (x, y) in r && Consistent(h, r);
    DeepComplete(h, k, r, x, y, false, {});
  }

  // ---- Soundness up to visit keys, and without a swapped revisit ----

  /** The pairs a comparison of one of them goes on to are again in the set. */
  ghost predicate PairClosed(h: Heap, pairs: set<(Id, Id)>) {
    forall p :: p in pairs ==> p.0 in h && p.1 in h && StepsInto(h, pairs, p)
  }

  ghost predicate StepsInto(h: Heap, pairs: set<(Id, Id)>, p: (Id, Id))
    requires p.0 in h && p.1 in h
  {
    h[p.0].typ == h[p.1].typ && SameForm(h[p.0].shape, h[p.1].shape) ==>
      match Expand(h[p.0].shape, h[p.1].shape)
      case Stop(_) => true
      case Go(next) => forall i :: 0 <= i < |next| && next[i].Some? ==> next[i].value in pairs
  }

  /** A pair of one type whose cells the visited set can record. */
  ghost predicate HardPair(h: Heap, p: (Id, Id)) {
    p.0 in h && p.1 in h && h[p.0].typ == h[p.1].typ && Hard(h[p.0].shape)
  }

  /** The visited set cannot tell the two pairs apart: they are one pair, one is the other swapped, or they are the same
      places, seen once through an exported and once through an unexported field. */
  ghost predicate SameKey(h: Heap, p: (Id, Id), q: (Id, Id)) {
    HardPair(h, p) && HardPair(h, q) && VisitOf(h, p.0, p.1) == VisitOf(h, q.0, q.1)
  }

  /** The visit key, which is unordered and ignores how a place is seen, determines the pair: none comes back swapped, or seen
      the other way. */
  ghost predicate UniqueKeys(h: Heap, pairs: set<(Id, Id)>) {
    forall p, q :: p in pairs && q in pairs && SameKey(h, p, q) ==> p == q
  }

  /** A pair the visited set vouches for. */
  ghost predicate Vouched(h: Heap, visited: set<Visit>, p: (Id, Id)) {
    HardPair(h, p) && VisitOf(h, p.0, p.1) in visited
  }

  /** Known good: explored, or vouched for. */
  ghost predicate Good(h: Heap, e: set<(Id, Id)>, visited: set<Visit>, p: Option<(Id, Id)>) {
    p.Some? && (p.value in e || Vouched(h, visited, p.value))
  }

  ghost predicate AllGood(h: Heap, e: set<(Id, Id)>, visited: set<Visit>, pairs: seq<Option<(Id, Id)>>) {
    forall i :: 0 <= i < |pairs| ==> Good(h, e, visited, pairs[i])
  }

  /** One level of `p` is right, given the pairs in `e` and the vouched ones. */
  ghost predicate LevelOk(h: Heap, e: set<(Id, Id)>, visited: set<Visit>, p: (Id, Id)) {
    && p.0 in h && p.1 in h && h[p.0].typ == h[p.1].typ && SameForm(h[p.0].shape, h[p.1].shape)
    && match Expand(h[p.0].shape, h[p.1].shape)
       case Stop(result) => result
       case Go(pairs) => AllGood(h, e, visited, pairs)
  }

  ghost predicate KeyOf(h: Heap, e: set<(Id, Id)>, v: Visit) {
    exists q :: q in e && HardPair(h, q) && VisitOf(h, q.0, q.1) == v
  }

  /** The pairs `e` explored between two visited sets: each is right one level down, and each new visit is the key of one. */
  ghost predicate Explored(h: Heap, all: set<(Id, Id)>, e: set<(Id, Id)>, visited: set<Visit>, visited': set<Visit>) {
    && visited <= visited' && e <= all
    && (forall p :: p in e ==> LevelOk(h, e, visited', p))
    && (forall v :: v in visited' && v !in visited ==> KeyOf(h, e, v))
  }

  lemma GoodGrows(h: Heap, e: set<(Id, Id)>, more: set<(Id, Id)>, visited: set<Visit>, later: set<Visit>,
                  pairs: seq<Option<(Id, Id)>>)
    requires AllGood(h, e, visited, pairs) && e <= more && visited <= later
    ensures AllGood(h, more, later, pairs)
  {
    forall i | 0 <= i < |pairs| ensures Good(h, more, later, pairs[i]) {
      assert Good(h, e, visited, pairs[i]);
    }
  }

  lemma LevelGrows(h: Heap, e: set<(Id, Id)>, more: set<(Id, Id)>, visited: set<Visit>, later: set<Visit>, p: (Id, Id))
    requires LevelOk(h, e, visited, p) && e <= more && visited <= later
    ensures LevelOk(h, more, later, p)
  {
    var step := Expand(h[p.0].shape, h[p.1].shape);
    if step.Go? {
      GoodGrows(h, e, more, visited, later, step.pairs);
    }
  }

  lemma ExploredUnion(h: Heap, all: set<(Id, Id)>, e1: set<(Id, Id)>, e2: set<(Id, Id)>, v0: set<Visit>, v1: set<Visit>, v2: set<Visit>)
    requires Explored(h, all, e1, v0, v1) && Explored(h, all, e2, v1, v2)
    ensures Explored(h, all, e1 + e2, v0, v2)
  {
    forall p | p in e1 + e2 ensures LevelOk(h, e1 + e2, v2, p) {
      if p in e1 {
        LevelGrows(h, e1, e1 + e2, v1, v2, p);
      } else {
        LevelGrows(h, e2, e1 + e2, v2, v2, p);
      }
    }
    forall v | v in v2 && v !in v0 ensures KeyOf(h, e1 + e2, v) {
      var e := if v in v1 then e1 else e2;
      assert KeyOf(h, e, v);
      var q :| q in e && HardPair(h, q) && VisitOf(h, q.0, q.1) == v;
      assert q in e1 + e2;
    }
  }

  /** A true verdict comes with the pairs that justify it. */
  lemma {:induction false} DeepSound(h: Heap, k: Ranking, all: set<(Id, Id)>, a: Id, b: Id, f: bool, visited: set<Visit>)
    returns (e: set<(Id, Id)>)
    requires WellFormed(h) && Ranked(h, k) && PairClosed(h, all) && (a, b) in all && a in h && b in h
    requires Deep(h, k, a, b, f, visited).0
    ensures Explored(h, all, e, visited, Deep(h, k, a, b, f, visited).1)
    ensures Good(h, e, visited, Some((a, b)))
    decreases Visits(h) - visited, 2 * k.rank(a, f) + 1, 0
  {
    e := {};
    if !(Recorded(h, a, f) && VisitOf(h, a, b) in visited) {
      ExpandStays(h, a, b);
      assert SameForm(h[a].shape, h[b].shape);
      var step := Expand(h[a].shape, h[b].shape);
      var visited' := if Recorded(h, a, f) then visited + {VisitOf(h, a, b)} else visited;
      var final := Deep(h, k, a, b, f, visited).1;
      if step.Go? {
        assert StepsInto(h, all, (a, b));
        var f' := ChildAddressable(h[a].shape, f);
        if Recorded(h, a, f) {
          assert VisitOf(h, a, b) in Visits(h) - visited && VisitOf(h, a, b) !in Visits(h) - visited';
          e := DeepAllSound(h, k, all, step.pairs, f', visited', k.limit);
        } else {
          e := DeepAllSound(h, k, all, step.pairs, f', visited', k.rank(a, f));
        }
      }
      AddPair(h, all, e, a, b, f, visited, visited', final);
      e := e + {(a, b)};
    }
  }

  /** Adding the pair just compared to the pairs explored below it. */
  lemma AddPair(h: Heap, all: set<(Id, Id)>, e: set<(Id, Id)>, a: Id, b: Id, f: bool,
                visited: set<Visit>, visited': set<Visit>, final: set<Visit>)
    requires WellFormed(h) && (a, b) in all && a in h && b in h && h[a].typ == h[b].typ
    requires visited' == if Recorded(h, a, f) then visited + {VisitOf(h, a, b)} else visited
    requires Explored(h, all, e, visited', final) && LevelOk(h, e, final, (a, b))
    ensures Explored(h, all, e + {(a, b)}, visited, final)
  {
    var e' := e + {(a, b)};
    forall p | p in e' ensures LevelOk(h, e', final, p) {
      LevelGrows(h, e, e', final, final, p);
    }
    forall v | v in final && v !in visited ensures KeyOf(h, e', v) {
      if v in visited' {
        assert (a, b) in e' && HardPair(h, (a, b)) && v == VisitOf(h, a, b);
      } else {
        var q :| q in e && HardPair(h, q) && VisitOf(h, q.0, q.1) == v;
        assert q in e';
      }
    }
  }

  ghost predicate AllIn(all: set<(Id, Id)>, pairs: seq<Option<(Id, Id)>>) {
    forall i :: 0 <= i < |pairs| && pairs[i].Some? ==> pairs[i].value in all
  }

  lemma {:induction false} DeepAllSound(h: Heap, k: Ranking, all: set<(Id, Id)>, pairs: seq<Option<(Id, Id)>>,
                                        f: bool, visited: set<Visit>, bound: nat)
    returns (e: set<(Id, Id)>)
    requires WellFormed(h) && Ranked(h, k) && PairClosed(h, all) && PairsBelow(h, k, pairs, f, bound)
    requires AllIn(all, pairs) && DeepAll(h, k, pairs, f, visited, bound).0
    ensures Explored(h, all, e, visited, DeepAll(h, k, pairs, f, visited, bound).1)
    ensures AllGood(h, e, DeepAll(h, k, pairs, f, visited, bound).1, pairs)
    decreases Visits(h) - visited, 2 * bound, |pairs|
  {
    e := {};
    if pairs != [] {
      var p, rest := pairs[0].value, pairs[1..];
      var first := Deep(h, k, p.0, p.1, f, visited);
      var e1 := DeepSound(h, k, all, p.0, p.1, f, visited);
      var e2 := DeepAllSound(h, k, all, rest, f, first.1, bound);
      var final := DeepAll(h, k, rest, f, first.1, bound).1;
      ExploredUnion(h, all, e1, e2, visited, first.1, final);
      e := e1 + e2;
      GoodCons(h, e1, e2, visited, final, pairs);
    }
  }

  lemma GoodCons(h: Heap, e1: set<(Id, Id)>, e2: set<(Id, Id)>, visited: set<Visit>, final: set<Visit>, pairs: seq<Option<(Id, Id)>>)
    requires pairs != [] && Good(h, e1, visited, pairs[0]) && AllGood(h, e2, final, pairs[1..]) && visited <= final
    ensures AllGood(h, e1 + e2, final, pairs)
  {
    forall i | 0 <= i < |pairs| ensures Good(h, e1 + e2, final, pairs[i]) {
      if i > 0 {
        assert Good(h, e2, final, pairs[1..][i - 1]);
      }
    }
  }

  /** One level of `p` is right, given the pairs in `e` and those that share a visit key with one of them. */
  ghost predicate LevelUpToKeys(h: Heap, e: set<(Id, Id)>, p: (Id, Id)) {
    && p.0 in h && p.1 in h && h[p.0].typ == h[p.1].typ && SameForm(h[p.0].shape, h[p.1].shape)
    && match Expand(h[p.0].shape, h[p.1].shape)
       case Stop(result) => result
       case Go(pairs) => forall i :: 0 <= i < |pairs| ==> pairs[i].Some? && (pairs[i].value in e || Excused(h, e, pairs[i].value))
  }

  ghost predicate Excused(h: Heap, e: set<(Id, Id)>, p: (Id, Id)) { exists q :: q in e && SameKey(h, p, q) }

  /** What a true answer means on every heap: some relation over the pairs the comparison can come to holds one level down
      everywhere, but for pairs that have the visit key of another of its pairs. */
  lemma TrueUpToKeys(h: Heap, k: Ranking, all: set<(Id, Id)>, x: Id, y: Id) returns (e: set<(Id, Id)>)
    requires WellFormed(h) && Ranked(h, k) && PairClosed(h, all) && (x, y) in all && x in h && y in h
    requires Deep(h, k, x, y, false, {}).0
    ensures (x, y) in e && e <= all && forall p :: p in e ==> LevelUpToKeys(h, e, p)
  {
    e := DeepSound(h, k, all, x, y, false, {});
    var final := Deep(h, k, x, y, false, {}).1;
    forall p | p in e ensures LevelUpToKeys(h, e, p) {
      assert LevelOk(h, e, final, p);
      var step := Expand(h[p.0].shape, h[p.1].shape);
      if step.Go? {
        forall i | 0 <= i < |step.pairs| ensures step.pairs[i].Some? && (step.pairs[i].value in e || Excused(h, e, step.pairs[i].value)) {
          assert Good(h, e, final, step.pairs[i]);
          if Vouched(h, final, step.pairs[i].value) { VouchedIsExcused(h, all, e, final, step.pairs[i].value); }
        }
      }
    }
  }

  lemma VouchedIsExcused(h: Heap, all: set<(Id, Id)>, e: set<(Id, Id)>, final: set<Visit>, p: (Id, Id))
    requires Explored(h, all, e, {}, final) && Vouched(h, final, p)
    ensures Excused(h, e, p)
  {
    assert KeyOf(h, e, VisitOf(h, p.0, p.1));
    var q :| q in e && HardPair(h, q) && VisitOf(h, q.0, q.1) == VisitOf(h, p.0, p.1);
    assert SameKey(h, p, q);
  }

  /** Wherever no pair comes back swapped or seen the other way, DeepContains decides containment exactly, shared and cyclic
      values included. */
  lemma ExactWithUniqueKeys(h: Heap, k: Ranking, all: set<(Id, Id)>, x: Id, y: Id)
    requires WellFormed(h) && Ranked(h, k) && PairClosed(h, all) && UniqueKeys(h, all) && (x, y) in all && x in h && y in h
    ensures Deep(h, k, x, y, false, {}).0 <==> Contains(h, x, y)
  {
    if Contains(h, x, y) {
      Completeness(h, k, x, y);
    }
    if Deep(h, k, x, y, false, {}).0 {
      var e := TrueUpToKeys(h, k, all, x, y);
      forall p | p in e ensures Holds(h, e, p.0, p.1) {
        assert LevelUpToKeys(h, e, p) && StepsInto(h, all, p);
      }
    }
  }

  // ---- Values that share nothing ----

  ghost predicate Closed(h: Heap, s: set<Id>) {
    forall i :: i in s ==> i in h && forall c :: c in Children(h[i].shape) ==> c in s
  }

  /** No pointer, slice, map or interface is seen both through exported fields only and through an unexported one. */
  ghost predicate Placed(h: Heap) {
    forall i, j :: (i in h && j in h && Hard(h[i].shape) && Hard(h[j].shape)
                    && h[i].addr == h[j].addr && h[i].typ == h[j].typ) ==> i == j
  }

  /** The two sides have no addressable pointer, slice, map or interface of one type at one address. */
  ghost predicate Separate(h: Heap, left: set<Id>, right: set<Id>) {
    && Closed(h, left) && Closed(h, right) && Placed(h)
    && forall i, j :: i in left && j in right && Hard(h[i].shape) && Hard(h[j].shape) && h[i].typ == h[j].typ ==>
         h[i].addr != h[j].addr
  }

  function Pairs(left: set<Id>, right: set<Id>): set<(Id, Id)> { set a, b | a in left && b in right :: (a, b) }

  /** Between separate sides nothing can come back swapped. */
  lemma SeparateHasUniqueKeys(h: Heap, left: set<Id>, right: set<Id>)
    requires WellFormed(h) && Separate(h, left, right)
    ensures PairClosed(h, Pairs(left, right)) && UniqueKeys(h, Pairs(left, right))
  {
    var all := Pairs(left, right);
    forall p | p in all ensures p.0 in h && p.1 in h && StepsInto(h, all, p) {
      if h[p.0].typ == h[p.1].typ { ExpandStays(h, p.0, p.1); }
    }
    forall p, q | p in all && q in all && SameKey(h, p, q)
      ensures p == q
    {
      VisitUnique(h, left, right, p.0, p.1, q.0, q.1);
    }
  }

  lemma VisitUnique(h: Heap, left: set<Id>, right: set<Id>, a: Id, b: Id, c: Id, d: Id)
    requires WellFormed(h) && Separate(h, left, right) && a in left && b in right && c in left && d in right
    requires h[a].typ == h[b].typ && h[c].typ == h[d].typ && Hard(h[a].shape) && Hard(h[c].shape)
    requires VisitOf(h, a, b) == VisitOf(h, c, d)
    ensures (a, b) == (c, d)
  {
    assert SameForm(h[a].shape, h[b].shape) && SameForm(h[c].shape, h[d].shape);
    assert h[a].addr != h[d].addr || h[a].typ != h[d].typ;
  }

  /** When the two values share no pointer, slice, map or interface, and neither has one seen in both ways, DeepContains
      decides containment exactly. */
  lemma ExactWhenSeparate(h: Heap, k: Ranking, left: set<Id>, right: set<Id>, x: Id, y: Id)
    requires WellFormed(h) && Ranked(h, k) && Separate(h, left, right) && x in left && y in right
    ensures Deep(h, k, x, y, false, {}).0 <==> Contains(h, x, y)
  {
    SeparateHasUniqueKeys(h, left, right);
    ExactWithUniqueKeys(h, k, Pairs(left, right), x, y);
  }
}
