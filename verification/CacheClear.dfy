/** ClearLocalNodeInfo forgets the health reports without a resync (cache.go:206-210). This module says exactly when
    that leaves a table out of step with the view, and shows a run in which it does. */
module CacheClear {
  import opened Basics
  import opened Objects
  import opened Prune
  import opened CacheTable
  import opened CacheCoherence

  /** The rule hides a backend on this node only because the node was reported abnormal. */
  predicate HiddenByHealth(cfg: Config, v: View, rule: Rule, nodeName: Option<string>) {
    Abnormal(v, nodeName) &&
    match rule
    case Untouched => false
    case ByHealth => true
    case ByTopology(keys) => SameUnit(cfg, v, keys, nodeName)
  }

  ghost predicate HidesSome<T>(cfg: Config, v: View, rule: Rule, s: Slice<T>, nodeOf: T -> Option<string>) {
    exists t :: t in s.All() && HiddenByHealth(cfg, v, rule, nodeOf(t))
  }

  ghost predicate HidesV1(cfg: Config, v: View, o: SliceV1) {
    var e := if cfg.wrapperInCluster then GenLocalSliceV1(cfg, o) else o;
    HidesSome(cfg, v, RuleFor(cfg, v, ServiceKeyOf(o.key), o.key), e.endpoints, EndpointNode)
  }

  ghost predicate HidesV1Beta1(cfg: Config, v: View, o: SliceV1Beta1) {
    var e := if cfg.wrapperInCluster then GenLocalSliceV1Beta1(cfg, o) else o;
    HidesSome(cfg, v, RuleFor(cfg, v, ServiceKeyOf(o.key), o.key), e.endpoints, Beta1Node)
  }

  ghost predicate HidesSubset(cfg: Config, v: View, rule: Rule, s: EndpointSubset) {
    HidesSome(cfg, v, rule, s.addresses, AddressNode) || HidesSome(cfg, v, rule, s.notReady, AddressNode)
  }

  ghost predicate HidesSubsets(cfg: Config, v: View, rule: Rule, s: seq<EndpointSubset>) {
    exists i :: 0 <= i < |s| && HidesSubset(cfg, v, rule, s[i])
  }

  ghost predicate HidesEndpoints(cfg: Config, v: View, o: Endpoints) {
    var e := if cfg.wrapperInCluster then GenLocalEndpoints(cfg, o) else o;
    HidesSubsets(cfg, v, RuleFor(cfg, v, o.key, o.key), e.subsets.All())
  }

  /** Some stored object has a backend hidden by a health report alone. */
  ghost predicate AnyHidden(cfg: Config, s: State, kind: Kind) {
    match kind
    case OfV1 => exists key :: key in s.v1 && HidesV1(cfg, s.view, s.v1[key].original)
    case OfV1Beta1 => exists key :: key in s.v1beta1 && HidesV1Beta1(cfg, s.view, s.v1beta1[key].original)
    case OfEndpoints => exists key :: key in s.endpoints && HidesEndpoints(cfg, s.view, s.endpoints[key].original)
  }

  function Forget(v: View): View { v.(localNodeInfo := map[]) }

  lemma SurvivesForget(cfg: Config, v: View, rule: Rule, nodeName: Option<string>)
    requires cfg.autonomy
    ensures Survives(cfg, v, rule, nodeName) == Survives(cfg, Forget(v), rule, nodeName) <==> !HiddenByHealth(cfg, v, rule, nodeName)
  {}

  lemma RuleAfterForget<T>(cfg: Config, v: View, rule: Rule, s: Slice<T>, nodeOf: T -> Option<string>)
    requires cfg.autonomy
    ensures ApplyRule(cfg, v, rule, s, nodeOf).All() == ApplyRule(cfg, Forget(v), rule, s, nodeOf).All()
            <==> !HidesSome(cfg, v, rule, s, nodeOf)
  {
    var p: T -> bool := t => Survives(cfg, v, rule, nodeOf(t));
    var q: T -> bool := t => Survives(cfg, Forget(v), rule, nodeOf(t));
    assert ApplyRule(cfg, v, rule, s, nodeOf).All() == Keep(s.All(), p) by {
      RuleMeaning(cfg, v, rule, s, nodeOf);
    }
    assert ApplyRule(cfg, Forget(v), rule, s, nodeOf).All() == Keep(s.All(), q) by {
      RuleMeaning(cfg, Forget(v), rule, s, nodeOf);
    }
    KeepAgree(s.All(), p, q);
    forall t | t in s.All() ensures p(t) == q(t) <==> !HiddenByHealth(cfg, v, rule, nodeOf(t)) {
      SurvivesForget(cfg, v, rule, nodeOf(t));
    }
  }

  lemma SubsetAfterForget(cfg: Config, v: View, rule: Rule, s: EndpointSubset)
    requires cfg.autonomy
    ensures NormalSubset(PruneSubset(cfg, v, rule, s)) == NormalSubset(PruneSubset(cfg, Forget(v), rule, s))
            <==> !HidesSubset(cfg, v, rule, s)
  {
    RuleAfterForget(cfg, v, rule, s.addresses, AddressNode);
    RuleAfterForget(cfg, v, rule, s.notReady, AddressNode);
  }

  lemma SubsetsAfterForget(cfg: Config, v: View, rule: Rule, s: seq<EndpointSubset>)
    requires cfg.autonomy
    ensures NormalSubsets(Items(PruneSubsets(cfg, v, rule, s))) == NormalSubsets(Items(PruneSubsets(cfg, Forget(v), rule, s)))
            <==> !HidesSubsets(cfg, v, rule, s)
  {
    var a := NormalSubsets(Items(PruneSubsets(cfg, v, rule, s)));
    var b := NormalSubsets(Items(PruneSubsets(cfg, Forget(v), rule, s)));
    forall i | 0 <= i < |s| ensures a[i] == b[i] <==> !HidesSubset(cfg, v, rule, s[i]) {
      SubsetAfterForget(cfg, v, rule, s[i]);
    }
  }

  /** Forgetting the reports changes what an object prunes to exactly when a report hides one of its backends. */
  lemma EndpointsAfterForget(cfg: Config, v: View, o: Endpoints)
    requires cfg.autonomy
    ensures SameEndpoints(PruneEndpoints(cfg, v, o), PruneEndpoints(cfg, Forget(v), o)) <==> !HidesEndpoints(cfg, v, o)
  {
    var e := if cfg.wrapperInCluster then GenLocalEndpoints(cfg, o) else o;
    SubsetsAfterForget(cfg, v, RuleFor(cfg, v, o.key, o.key), e.subsets.All());
  }

  lemma V1AfterForget(cfg: Config, v: View, o: SliceV1)
    requires cfg.autonomy
    ensures SameSliceV1(PruneSliceV1(cfg, v, o), PruneSliceV1(cfg, Forget(v), o)) <==> !HidesV1(cfg, v, o)
  {
    var e := if cfg.wrapperInCluster then GenLocalSliceV1(cfg, o) else o;
    RuleAfterForget(cfg, v, RuleFor(cfg, v, ServiceKeyOf(o.key), o.key), e.endpoints, EndpointNode);
  }

  lemma V1Beta1AfterForget(cfg: Config, v: View, o: SliceV1Beta1)
    requires cfg.autonomy
    ensures SameSliceV1Beta1(PruneSliceV1Beta1(cfg, v, o), PruneSliceV1Beta1(cfg, Forget(v), o)) <==> !HidesV1Beta1(cfg, v, o)
  {
    var e := if cfg.wrapperInCluster then GenLocalSliceV1Beta1(cfg, o) else o;
    RuleAfterForget(cfg, v, RuleFor(cfg, v, ServiceKeyOf(o.key), o.key), e.endpoints, Beta1Node);
  }

  /** With autonomy on, ClearLocalNodeInfo leaves a coherent table coherent exactly when no stored object has a
      backend that only a health report hides. With autonomy off it always does (QuiescentCoherence). */
  lemma ClearCoherentIff(cfg: Config, s: State, kind: Kind)
    requires cfg.autonomy && TableCoherent(cfg, s, kind)
    ensures TableCoherent(cfg, ApplyWrite(cfg, s, ClearLocalNodeInfo), kind) <==> !AnyHidden(cfg, s, kind)
  {
    match kind
    case OfV1 => forall key | key in s.v1 { V1AfterForget(cfg, s.view, s.v1[key].original); }
    case OfV1Beta1 => forall key | key in s.v1beta1 { V1Beta1AfterForget(cfg, s.view, s.v1beta1[key].original); }
    case OfEndpoints => forall key | key in s.endpoints { EndpointsAfterForget(cfg, s.view, s.endpoints[key].original); }
  }

  // ---- A run that ends quiescent and stale ----

  lemma ReachesStep(cfg: Config, run: seq<Action>, s: State, a: Action)
    requires Reaches(cfg, run, s) && Enabled(s, a)
    ensures Reaches(cfg, run + [a], Next(cfg, s, a))
  {
    var longer := run + [a];
    assert longer[..|longer| - 1] == run;
  }

  lemma ReachesTwo(cfg: Config, run: seq<Action>, s: State, a: Action, b: Action) returns (longer: seq<Action>, s': State)
    requires Reaches(cfg, run, s) && !a.Advance? && !b.Advance?
    ensures Reaches(cfg, longer, s') && s' == Next(cfg, Next(cfg, s, a), b)
  {
    ReachesStep(cfg, run, s, a);
    ReachesStep(cfg, run + [a], Next(cfg, s, a), b);
    longer, s' := run + [a] + [b], Next(cfg, Next(cfg, s, a), b);
  }

  function Waiting(v: View, resyncs: multiset<Stage>): State { INIT.(view := v, resyncs := resyncs) }

  /** While the tables are empty the only goroutine inside resync passes one of them by. */
  lemma PassesBy(cfg: Config, v: View, kind: Kind)
    ensures Next(cfg, Waiting(v, multiset{Look(kind)}), Advance(Look(kind))) == Waiting(v, After(kind))
  {
    assert Size(Waiting(v, multiset{Look(kind)}), kind) == 0;
    assert Moved(multiset{Look(kind)}, Look(kind), false) == After(kind);
  }

  lemma LookAndPass(cfg: Config, run: seq<Action>, v: View, kind: Kind)
    requires Reaches(cfg, run, Waiting(v, multiset{Look(kind)}))
    ensures Reaches(cfg, run + [Advance(Look(kind))], Waiting(v, After(kind)))
  {
    PassesBy(cfg, v, kind);
    ReachesStep(cfg, run, Waiting(v, multiset{Look(kind)}), Advance(Look(kind)));
  }

  lemma WriteAndDrain(cfg: Config, run: seq<Action>, v: View, w: Write) returns (longer: seq<Action>)
    requires Reaches(cfg, run, Waiting(v, multiset{})) && WriteView(cfg, v, w).1
    ensures Reaches(cfg, longer, Waiting(WriteView(cfg, v, w).0, multiset{}))
  {
    var v' := WriteView(cfg, v, w).0;
    WritesAndWaits(cfg, v, w);
    ReachesStep(cfg, run, Waiting(v, multiset{}), OnView(w));
    longer := run + [OnView(w)];
    LookAndPass(cfg, longer, v', OfV1);
    longer := longer + [Advance(Look(OfV1))];
    LookAndPass(cfg, longer, v', OfV1Beta1);
    longer := longer + [Advance(Look(OfV1Beta1))];
    LookAndPass(cfg, longer, v', OfEndpoints);
    longer := longer + [Advance(Look(OfEndpoints))];
  }

  lemma WritesAndWaits(cfg: Config, v: View, w: Write)
    requires WriteView(cfg, v, w).1
    ensures Next(cfg, Waiting(v, multiset{}), OnView(w)) == Waiting(WriteView(cfg, v, w).0, multiset{Look(OfV1)})
  {
    assert multiset{} + multiset{Look(OfV1)} == multiset{Look(OfV1)};
  }

  const EDGE := Node(NamespacedName("", "edge-1"), None, "")
  const WEB := Service(NamespacedName("default", "web"), map[], "")
  const ADDRESS := EndpointAddress("10.0.0.1", Some("edge-1"))
  const WEB_ENDPOINTS := Endpoints(WEB.key, map[], Items([EndpointSubset(Items([ADDRESS]), Nil, [])]))
  const ABNORMAL := map["edge-1" := ResultDetail(false, 0)]
  const STALE_VIEW := View(map[EDGE.key := NodeContainer(EDGE, None)], map[WEB.key := ServiceContainer(WEB, Nil)], ABNORMAL)

  lemma ReachStaleView(cfg: Config) returns (run: seq<Action>)
    ensures Reaches(cfg, run, Waiting(STALE_VIEW, multiset{}))
  {
    assert INIT == Waiting(INIT.view, multiset{});
    var v1 := WriteView(cfg, INIT.view, NodeAdd(EDGE)).0;
    run := WriteAndDrain(cfg, [], INIT.view, NodeAdd(EDGE));
    var v2 := WriteView(cfg, v1, ServiceAdd(WEB)).0;
    run := WriteAndDrain(cfg, run, v1, ServiceAdd(WEB));
    run := WriteAndDrain(cfg, run, v2, SetLocalNodeInfo(ABNORMAL));
  }

  lemma StaleViewHides(cfg: Config)
    requires cfg.autonomy && !cfg.wrapperInCluster
    ensures HidesEndpoints(cfg, STALE_VIEW, WEB_ENDPOINTS)
  {
    assert RuleFor(cfg, STALE_VIEW, WEB.key, WEB.key) == ByHealth;
    assert HiddenByHealth(cfg, STALE_VIEW, ByHealth, AddressNode(ADDRESS));
    assert ADDRESS in WEB_ENDPOINTS.subsets.elems[0].addresses.All();
    assert HidesSubset(cfg, STALE_VIEW, ByHealth, WEB_ENDPOINTS.subsets.All()[0]);
  }

  lemma AddedIsCoherent(cfg: Config, v: View, o: Endpoints)
    ensures TableCoherent(cfg, Next(cfg, Waiting(v, multiset{}), OnEndpoints(Add(o))), OfEndpoints)
  {
    KernelsLawful(cfg, v);
    OperateKeepsCoherence(EndpointsKernel(cfg, v), map[], Add(o));
  }

  lemma AddedIsHidden(cfg: Config, v: View, o: Endpoints)
    requires HidesEndpoints(cfg, v, o)
    ensures AnyHidden(cfg, Next(cfg, Waiting(v, multiset{}), OnEndpoints(Add(o))), OfEndpoints)
  {
    assert o.key in Next(cfg, Waiting(v, multiset{}), OnEndpoints(Add(o))).endpoints;
  }

  lemma ClearIsQuiet(cfg: Config, v: View, o: Endpoints)
    ensures var s := Next(cfg, Next(cfg, Waiting(v, multiset{}), OnEndpoints(Add(o))), OnView(ClearLocalNodeInfo));
            s.resyncs == multiset{} && s.view.localNodeInfo == map[]
  {}

  /** From any quiescent empty cache, adding an object with a hidden backend and clearing goes stale. */
  lemma AddAndClear(cfg: Config, v: View, o: Endpoints)
    requires cfg.autonomy && HidesEndpoints(cfg, v, o)
    ensures var before := Next(cfg, Waiting(v, multiset{}), OnEndpoints(Add(o)));
            !TableCoherent(cfg, Next(cfg, before, OnView(ClearLocalNodeInfo)), OfEndpoints)
  {
    AddedIsCoherent(cfg, v, o);
    AddedIsHidden(cfg, v, o);
    ClearCoherentIff(cfg, Next(cfg, Waiting(v, multiset{}), OnEndpoints(Add(o))), OfEndpoints);
  }

  /** Quiescent but stale: after one abnormal report, one endpoint on that node and a clear, nothing is pending and
      the endpoint stays hidden although no report hides it any more. */
  lemma ClearLeavesStaleCopy(cfg: Config) returns (run: seq<Action>, s: State)
    requires cfg.autonomy && !cfg.wrapperInCluster
    ensures Reaches(cfg, run, s) && s.resyncs == multiset{} && s.view.localNodeInfo == map[]
    ensures !TableCoherent(cfg, s, OfEndpoints)
  {
    run := ReachStaleView(cfg);
    StaleViewHides(cfg);
    AddAndClear(cfg, STALE_VIEW, WEB_ENDPOINTS);
    ClearIsQuiet(cfg, STALE_VIEW, WEB_ENDPOINTS);
    run, s := ReachesTwo(cfg, run, Waiting(STALE_VIEW, multiset{}), OnEndpoints(Add(WEB_ENDPOINTS)), OnView(ClearLocalNodeInfo));
  }
}
