/** What the cache serves, from the reported objects to the backends shown: no container, pruned copy, rule or view. */
module CacheServes {
  import opened Basics
  import opened Objects
  import opened Prune
  import opened PruneMeaning
  import opened CacheTable
  import opened CacheCoherence
  import opened CacheReference

  /** The topology keys in the service's annotation, none if it is missing or unreadable. */
  ghost function KeysIn(cfg: Config, s: Service): seq<string> {
    if "topologyKeys" in s.annotations && cfg.parseKeys(s.annotations["topologyKeys"]).Some?
    then cfg.parseKeys(s.annotations["topologyKeys"]).value.All() else []
  }

  /** No backend of the object is dropped. */
  ghost predicate ServedWhole(cfg: Config, r: Reference, service: NamespacedName, name: NamespacedName) {
    service in r.services ==>
      KeysIn(cfg, r.services[service]) == [] && (name == NamespacedName("default", "kubernetes") || !cfg.autonomy)
  }

  /** Otherwise a backend on this node is served: the node is there, with topology keys it shares the value of one of them
      with the host, and with autonomy no report calls it abnormal. */
  ghost predicate ServedOn(cfg: Config, r: Reference, service: NamespacedName, nodeName: Option<string>)
    requires service in r.services
  {
    nodeName.Some? && NamespacedName("", nodeName.value) in r.nodes &&
    var keys, node := KeysIn(cfg, r.services[service]), r.nodes[NamespacedName("", nodeName.value)];
    && (keys != [] ==>
          NamespacedName("", cfg.hostName) in r.nodes &&
          var host := r.nodes[NamespacedName("", cfg.hostName)];
          host.labels.Some? && node.labels.Some? && exists key :: key in keys && OneValue(host.labels.value, node.labels.value, key))
    && (cfg.autonomy && nodeName.value in r.health ==> r.health[nodeName.value].normal)
  }

  ghost predicate Serving<T(!new)>(cfg: Config, r: Reference, service: NamespacedName, name: NamespacedName, s: seq<T>,
                                   served: seq<T>, nodeOf: T -> Option<string>) {
    if ServedWhole(cfg, r, service, name) then served == s
    else Selects(s, served, t => ServedOn(cfg, r, service, nodeOf(t)))
  }

  // ---- From the view to the reported objects ----

  ghost predicate NodesNamed(nodes: map<NamespacedName, Node>) { forall key :: key in nodes ==> nodes[key].key == key }

  lemma NodesStayNamed(r: Reference, a: Action)
    requires NodesNamed(r.nodes)
    ensures NodesNamed(Hold(r, a).nodes)
  {
    match a
    case OnView(w) => WriteKeepsNames(r, w);
    case OnV1(_) =>
    case OnV1Beta1(_) =>
    case OnEndpoints(_) =>
    case Advance(_) =>
  }

  lemma WriteKeepsNames(r: Reference, w: Write)
    requires NodesNamed(r.nodes)
    ensures NodesNamed(ObserveWrite(r, w).nodes)
  {
    match w
    case NodeAdd(_) =>
    case NodeUpdate(_) =>
    case NodeDelete(_) =>
    case NodeTombstone(_) =>
    case _ => assert ObserveWrite(r, w).nodes == r.nodes;
  }

  lemma {:induction false} HeldNodesNamed(run: seq<Action>)
    ensures NodesNamed(HoldAll(run).nodes)
    decreases |run|
  {
    if run != [] {
      HeldNodesNamed(run[..|run| - 1]);
      NodesStayNamed(HoldAll(run[..|run| - 1]), run[|run| - 1]);
    }
  }

  lemma WholeInView(cfg: Config, r: Reference, service: NamespacedName, name: NamespacedName)
    ensures Whole(cfg, ViewOf(cfg, r), service, name) <==> ServedWhole(cfg, r, service, name)
  {}

  lemma ShownInView(cfg: Config, r: Reference, service: NamespacedName, nodeName: Option<string>)
    requires NodesNamed(r.nodes) && service in r.services
    ensures Shown(cfg, ViewOf(cfg, r), service, nodeName) <==> ServedOn(cfg, r, service, nodeName)
  {
    var v := ViewOf(cfg, r);
    assert v.services[service].keys.All() == KeysIn(cfg, r.services[service]);
  }

  lemma ShowsInView<T(!new)>(cfg: Config, r: Reference, service: NamespacedName, name: NamespacedName, s: Slice<T>, shown: Slice<T>,
                             nodeOf: T -> Option<string>)
    requires NodesNamed(r.nodes) && Shows(cfg, ViewOf(cfg, r), service, name, s, shown, nodeOf)
    ensures Serving(cfg, r, service, name, s.All(), shown.All(), nodeOf)
  {
    WholeInView(cfg, r, service, name);
    if !ServedWhole(cfg, r, service, name) {
      var v := ViewOf(cfg, r);
      var p: T -> bool := t => Shown(cfg, v, service, nodeOf(t));
      var q: T -> bool := t => ServedOn(cfg, r, service, nodeOf(t));
      forall t ensures p(t) == q(t) { ShownInView(cfg, r, service, nodeOf(t)); }
      SelectsAlike(s.All(), shown.All(), p, q);
    }
  }

  lemma SelectsAlike<T(!new)>(s: seq<T>, r: seq<T>, p: T -> bool, q: T -> bool)
    requires Selects(s, r, p) && forall t :: p(t) == q(t)
    ensures Selects(s, r, q)
  {
    var at: seq<nat> :| Picks(s, r, p, at);
    assert Picks(s, r, q, at);
  }

  // ---- The three tables ----

  ghost predicate SubsetServed(cfg: Config, r: Reference, name: NamespacedName, s: EndpointSubset, served: EndpointSubset) {
    && served.ports == s.ports
    && Serving(cfg, r, name, name, s.addresses.All(), served.addresses.All(), (a: EndpointAddress) => a.nodeName)
    && Serving(cfg, r, name, name, s.notReady.All(), served.notReady.All(), (a: EndpointAddress) => a.nodeName)
  }

  lemma SubsetIsServed(cfg: Config, r: Reference, name: NamespacedName, s: EndpointSubset, shown: EndpointSubset, served: EndpointSubset)
    requires NodesNamed(r.nodes) && SubsetShown(cfg, ViewOf(cfg, r), name, s, shown) && NormalSubset(shown) == NormalSubset(served)
    ensures SubsetServed(cfg, r, name, s, served)
  {
    var nodeOf := (a: EndpointAddress) => a.nodeName;
    ShowsInView(cfg, r, name, name, s.addresses, shown.addresses, nodeOf);
    ShowsInView(cfg, r, name, name, s.notReady, shown.notReady, nodeOf);
    assert NormalSubset(shown).addresses.All() == served.addresses.All() == shown.addresses.All();
    assert NormalSubset(shown).notReady.All() == served.notReady.All() == shown.notReady.All();
  }

  /** In every interleaving a quiescent Endpoints table serves of each object held, subset by subset and in order, all
      addresses or exactly those on nodes to be served, as the nodes, services and health held say. */
  lemma EndpointsServed(cfg: Config, run: seq<Action>, s: State, key: NamespacedName)
    requires Reaches(cfg, run, s) && !Pending(s.resyncs, OfEndpoints) && !(cfg.autonomy && OfEndpoints in s.cleared)
    requires key in HoldAll(run).endpoints && NotReplaced(cfg, HoldAll(run).endpoints[key].key, HoldAll(run).endpoints[key].annotations)
    ensures key in s.endpoints
    ensures var r := HoldAll(run);
            var o, served := r.endpoints[key], s.endpoints[key].modified;
            && served.key == o.key && served.annotations == o.annotations && |served.subsets.All()| == |o.subsets.All()|
            && forall i :: 0 <= i < |o.subsets.All()| ==> SubsetServed(cfg, r, o.key, o.subsets.All()[i], served.subsets.All()[i])
  {
    ServesTheReference(cfg, run, s, OfEndpoints);
    HeldNodesNamed(run);
    var r := HoldAll(run);
    var o, served := r.endpoints[key], s.endpoints[key].modified;
    ObjectServed(cfg, r, o, served);
  }

  lemma ObjectServed(cfg: Config, r: Reference, o: Endpoints, served: Endpoints)
    requires NodesNamed(r.nodes) && NotReplaced(cfg, o.key, o.annotations)
    requires SameEndpoints(served, PruneEndpoints(cfg, ViewOf(cfg, r), o))
    ensures served.key == o.key && served.annotations == o.annotations && |served.subsets.All()| == |o.subsets.All()|
    ensures forall i :: 0 <= i < |o.subsets.All()| ==> SubsetServed(cfg, r, o.key, o.subsets.All()[i], served.subsets.All()[i])
  {
    var shown := PruneEndpoints(cfg, ViewOf(cfg, r), o);
    EndpointsShown(cfg, ViewOf(cfg, r), o);
    assert |NormalSubsets(served.subsets)| == |NormalSubsets(shown.subsets)|;
    forall i | 0 <= i < |o.subsets.All()| ensures SubsetServed(cfg, r, o.key, o.subsets.All()[i], served.subsets.All()[i]) {
      assert NormalSubsets(served.subsets)[i] == NormalSubsets(shown.subsets)[i];
      SubsetIsServed(cfg, r, o.key, o.subsets.All()[i], shown.subsets.All()[i], served.subsets.All()[i]);
    }
  }

  /** The same for v1 slices, each by the service its name gives. */
  lemma SlicesV1Served(cfg: Config, run: seq<Action>, s: State, key: NamespacedName, service: NamespacedName)
    requires Reaches(cfg, run, s) && !Pending(s.resyncs, OfV1) && !(cfg.autonomy && OfV1 in s.cleared)
    requires key in HoldAll(run).v1 && SliceOf(HoldAll(run).v1[key].key, service)
    requires NotReplaced(cfg, HoldAll(run).v1[key].key, HoldAll(run).v1[key].annotations)
    ensures key in s.v1
    ensures var r := HoldAll(run);
            var o, served := r.v1[key], s.v1[key].modified;
            && served.key == o.key && served.annotations == o.annotations && served.ports == o.ports
            && Serving(cfg, r, service, o.key, o.endpoints.All(), served.endpoints.All(), (e: EndpointV1) => e.nodeName)
  {
    ServesTheReference(cfg, run, s, OfV1);
    HeldNodesNamed(run);
    var r := HoldAll(run);
    SliceV1IsServed(cfg, r, r.v1[key], s.v1[key].modified, service);
  }

  lemma SliceV1IsServed(cfg: Config, r: Reference, o: SliceV1, served: SliceV1, service: NamespacedName)
    requires NodesNamed(r.nodes) && NotReplaced(cfg, o.key, o.annotations) && SliceOf(o.key, service)
    requires SameSliceV1(served, PruneSliceV1(cfg, ViewOf(cfg, r), o))
    ensures served.key == o.key && served.annotations == o.annotations && served.ports == o.ports
    ensures Serving(cfg, r, service, o.key, o.endpoints.All(), served.endpoints.All(), (e: EndpointV1) => e.nodeName)
  {
    var shown := PruneSliceV1(cfg, ViewOf(cfg, r), o);
    SliceV1Shown(cfg, ViewOf(cfg, r), o, service);
    ShowsInView(cfg, r, service, o.key, o.endpoints, shown.endpoints, (e: EndpointV1) => e.nodeName);
  }

  /** And for v1beta1 slices, whose nodes are read from a topology label. */
  lemma SlicesV1Beta1Served(cfg: Config, run: seq<Action>, s: State, key: NamespacedName, service: NamespacedName)
    requires Reaches(cfg, run, s) && !Pending(s.resyncs, OfV1Beta1) && !(cfg.autonomy && OfV1Beta1 in s.cleared)
    requires key in HoldAll(run).v1beta1 && SliceOf(HoldAll(run).v1beta1[key].key, service)
    requires NotReplaced(cfg, HoldAll(run).v1beta1[key].key, HoldAll(run).v1beta1[key].annotations)
    ensures key in s.v1beta1
    ensures var r := HoldAll(run);
            var o, served := r.v1beta1[key], s.v1beta1[key].modified;
            && served.key == o.key && served.annotations == o.annotations && served.ports == o.ports
            && Serving(cfg, r, service, o.key, o.endpoints.All(), served.endpoints.All(), NamedNode)
  {
    ServesTheReference(cfg, run, s, OfV1Beta1);
    HeldNodesNamed(run);
    var r := HoldAll(run);
    SliceV1Beta1IsServed(cfg, r, r.v1beta1[key], s.v1beta1[key].modified, service);
  }

  lemma SliceV1Beta1IsServed(cfg: Config, r: Reference, o: SliceV1Beta1, served: SliceV1Beta1, service: NamespacedName)
    requires NodesNamed(r.nodes) && NotReplaced(cfg, o.key, o.annotations) && SliceOf(o.key, service)
    requires SameSliceV1Beta1(served, PruneSliceV1Beta1(cfg, ViewOf(cfg, r), o))
    ensures served.key == o.key && served.annotations == o.annotations && served.ports == o.ports
    ensures Serving(cfg, r, service, o.key, o.endpoints.All(), served.endpoints.All(), NamedNode)
  {
    var shown := PruneSliceV1Beta1(cfg, ViewOf(cfg, r), o);
    SliceV1Beta1Shown(cfg, ViewOf(cfg, r), o, service);
    ShowsInView(cfg, r, service, o.key, o.endpoints, shown.endpoints, NamedNode);
  }
}
