/** Paths in a finite graph given by its step relation. */
module Paths {
  import opened Basics

  /** `path` leads from `u` to `v` in at least one step. */
  ghost predicate IsPath<N>(step: (N, N) -> bool, path: seq<N>, u: N, v: N) {
    && |path| > 1 && path[0] == u && path[|path| - 1] == v
    && forall i :: 0 <= i < |path| - 1 ==> step(path[i], path[i + 1])
  }

  ghost predicate Leads<N(!new)>(step: (N, N) -> bool, u: N, v: N) { exists path :: IsPath(step, path, u, v) }

  ghost predicate Reach<N(!new)>(step: (N, N) -> bool, u: N, v: N) { u == v || Leads(step, u, v) }

  /** What steps lead to, among the given nodes. */
  ghost function Ahead<N(!new)>(step: (N, N) -> bool, nodes: set<N>, u: N): set<N> { set v | v in nodes && Leads(step, u, v) }

  lemma StepLeads<N(!new)>(step: (N, N) -> bool, u: N, v: N)
    requires step(u, v)
    ensures Leads(step, u, v)
  {
    assert IsPath(step, [u, v], u, v);
  }

  lemma StepThenLeads<N(!new)>(step: (N, N) -> bool, u: N, v: N, w: N)
    requires step(u, v) && Leads(step, v, w)
    ensures Leads(step, u, w)
  {
    var path :| IsPath(step, path, v, w);
    var longer := [u] + path;
    forall i | 0 <= i < |longer| - 1 ensures step(longer[i], longer[i + 1]) {
      if i > 0 { assert step(path[i - 1], path[i]); }
    }
    assert IsPath(step, longer, u, w);
  }

  lemma StepThenReach<N(!new)>(step: (N, N) -> bool, u: N, v: N, w: N)
    requires step(u, v) && Reach(step, v, w)
    ensures Leads(step, u, w)
  {
    if v == w { StepLeads(step, u, v); } else { StepThenLeads(step, u, v, w); }
  }

  lemma ReachThenStep<N(!new)>(step: (N, N) -> bool, u: N, v: N, w: N)
    requires Reach(step, u, v) && step(v, w)
    ensures Leads(step, u, w)
  {
    if u == v {
      StepLeads(step, v, w);
    } else {
      var path :| IsPath(step, path, u, v);
      var longer := path + [w];
      forall i | 0 <= i < |longer| - 1 ensures step(longer[i], longer[i + 1]) {
        if i < |path| - 1 { assert step(path[i], path[i + 1]); }
      }
      assert IsPath(step, longer, u, w);
    }
  }

  lemma TailPath<N(!new)>(step: (N, N) -> bool, path: seq<N>, u: N, v: N)
    requires IsPath(step, path, u, v) && |path| > 2
    ensures step(u, path[1]) && IsPath(step, path[1..], path[1], v)
  {
    var rest := path[1..];
    assert step(path[0], path[0 + 1]);
    forall i | 0 <= i < |rest| - 1 ensures step(rest[i], rest[i + 1]) {
      assert step(path[i + 1], path[i + 1 + 1]);
    }
  }

  /** A node not on a loop has fewer nodes ahead than any node that steps to it. */
  lemma AheadShrinks<N(!new)>(step: (N, N) -> bool, nodes: set<N>, u: N, v: N)
    requires step(u, v) && v in nodes && !Leads(step, v, v)
    ensures |Ahead(step, nodes, v)| < |Ahead(step, nodes, u)|
  {
    StepLeads(step, u, v);
    forall w | w in Ahead(step, nodes, v) ensures w in Ahead(step, nodes, u) {
      StepThenLeads(step, u, v, w);
    }
    SubsetSize(Ahead(step, nodes, v), Ahead(step, nodes, u) - {v});
  }

  /** What is closed under steps holds all along a path, and a rank that falls on every step falls along it. */
  lemma {:induction false} AlongPath<N(!new)>(step: (N, N) -> bool, within: N -> bool, rank: N -> int, path: seq<N>, u: N, v: N)
    requires forall a, b :: within(a) && step(a, b) ==> within(b) && rank(b) < rank(a)
    requires IsPath(step, path, u, v) && within(u)
    ensures within(v) && rank(v) < rank(u)
    decreases |path|
  {
    assert step(path[0], path[0 + 1]);
    if |path| > 2 {
      TailPath(step, path, u, v);
      AlongPath(step, within, rank, path[1..], path[1], v);
    }
  }

  lemma {:induction false} StaysWithin<N(!new)>(step: (N, N) -> bool, within: N -> bool, path: seq<N>, u: N, v: N)
    requires forall a, b :: within(a) && step(a, b) ==> within(b)
    requires IsPath(step, path, u, v) && within(u)
    ensures within(v)
    decreases |path|
  {
    assert step(path[0], path[0 + 1]);
    if |path| > 2 {
      TailPath(step, path, u, v);
      StaysWithin(step, within, path[1..], path[1], v);
    }
  }

  /** A path that starts inside what is closed under steps is a path of the steps from inside. */
  lemma {:induction false} RestrictPath<N(!new)>(step: (N, N) -> bool, inner: (N, N) -> bool, within: N -> bool, u: N, v: N)
    requires forall a, b :: within(a) && step(a, b) ==> within(b) && inner(a, b)
    requires Leads(step, u, v) && within(u)
    ensures Leads(inner, u, v) && within(v)
  {
    var path :| IsPath(step, path, u, v);
    AllWithin(step, within, path, u, v);
    forall i | 0 <= i < |path| - 1 ensures inner(path[i], path[i + 1]) {
      assert step(path[i], path[i + 1]);
    }
    assert IsPath(inner, path, u, v);
  }

  lemma {:induction false} AllWithin<N(!new)>(step: (N, N) -> bool, within: N -> bool, path: seq<N>, u: N, v: N)
    requires forall a, b :: within(a) && step(a, b) ==> within(b)
    requires IsPath(step, path, u, v) && within(u)
    ensures forall i :: 0 <= i < |path| ==> within(path[i])
    decreases |path|
  {
    assert step(path[0], path[0 + 1]);
    if |path| > 2 {
      TailPath(step, path, u, v);
      AllWithin(step, within, path[1..], path[1], v);
      assert forall i :: 0 < i < |path| ==> path[i] == path[1..][i - 1];
    }
  }

  /** A path in one graph is a path in another that has all its steps, read through `f`. */
  lemma MapPath<N(!new), M(!new)>(step: (N, N) -> bool, other: (M, M) -> bool, f: N -> M, u: N, v: N)
    requires forall a, b :: step(a, b) ==> other(f(a), f(b))
    requires Leads(step, u, v)
    ensures Leads(other, f(u), f(v))
  {
    var path :| IsPath(step, path, u, v);
    var image := seq(|path|, i requires 0 <= i < |path| => f(path[i]));
    forall i | 0 <= i < |image| - 1 ensures other(image[i], image[i + 1]) {
      assert step(path[i], path[i + 1]);
    }
    assert IsPath(other, image, f(u), f(v));
  }

  lemma MapWithin<N(!new), M(!new)>(step: (N, N) -> bool, other: (M, M) -> bool, within: N -> bool, f: N -> M, u: N, v: N)
    requires forall a, b :: within(a) && step(a, b) ==> within(b) && other(f(a), f(b))
    requires Leads(step, u, v) && within(u)
    ensures Leads(other, f(u), f(v)) && within(v)
  {
    var inner := (a: N, b: N) => within(a) && step(a, b);
    RestrictPath(step, inner, within, u, v);
    MapPath(inner, other, f, u, v);
  }
}
