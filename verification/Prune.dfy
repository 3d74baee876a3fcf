/** Kubernetes objects as the application-grid-wrapper sees them
    (pkg/application-grid-wrapper/storage/cache.go). */
module Objects {
  import opened Basics

  /** A Go slice. `Nil` and `Items([])` are different values that behave alike. */
  datatype Slice<+T> = Nil | Items(elems: seq<T>) {
    function All(): seq<T> { if Nil? then [] else elems }
  }

  datatype NamespacedName = NamespacedName(namespace: string, name: string)

  datatype Node = Node(key: NamespacedName, labels: Option<map<string, string>>, status: string)
  datatype NodeContainer = NodeContainer(node: Node, labels: Option<map<string, string>>)

  datatype Service = Service(key: NamespacedName, annotations: map<string, string>, spec: string)
  datatype ServiceContainer = ServiceContainer(svc: Service, keys: Slice<string>)

  datatype Port = Port(name: string, port: int, protocol: string)

  datatype EndpointAddress = EndpointAddress(ip: string, nodeName: Option<string>)
  datatype EndpointSubset = EndpointSubset(addresses: Slice<EndpointAddress>,
                                           notReady: Slice<EndpointAddress>,
                                           ports: seq<Port>)
  datatype Endpoints = Endpoints(key: NamespacedName, annotations: map<string, string>,
                                 subsets: Slice<EndpointSubset>)

  datatype EndpointV1 = EndpointV1(addresses: seq<string>, nodeName: Option<string>)
  datatype SliceV1 = SliceV1(key: NamespacedName, annotations: map<string, string>,
                             endpoints: Slice<EndpointV1>, ports: seq<Port>)

  datatype EndpointV1Beta1 = EndpointV1Beta1(addresses: seq<string>, topology: map<string, string>)
  datatype SliceV1Beta1 = SliceV1Beta1(key: NamespacedName, annotations: map<string, string>,
                                       endpoints: Slice<EndpointV1Beta1>, ports: seq<Port>)

  /** One node's verdict about another (pkg/edge-health/data/resultdata.go:32-36). */
  datatype ResultDetail = ResultDetail(normal: bool, time: int)

  /** What pruning reads besides the object itself. */
  datatype View = View(nodes: map<NamespacedName, NodeContainer>,
                       services: map<NamespacedName, ServiceContainer>,
                       localNodeInfo: map<string, ResultDetail>)

  /** The cache's fixed settings. The three functions stand for strconv.ParseInt, net.ParseIP and
      json.Unmarshal, which this project does not model. */
  datatype Config = Config(hostName: string, wrapperInCluster: bool, autonomy: bool,
                           parsePort: string -> Option<int>,
                           isIP: string -> bool,
                           parseKeys: string -> Option<Slice<string>>)
}

/** pkg/application-grid-wrapper/storage/util.go: which backends a node is allowed to see. */
module Prune {
  import opened Basics
  import opened Objects
  import opened Strings

  const MASTER := NamespacedName("default", "kubernetes")
  const LOCAL_ENDPOINT := "superedge.io/local-endpoint"
  const LOCAL_PORT := "superedge.io/local-port"
  const TOPOLOGY_KEYS := "topologyKeys"
  const HOSTNAME_LABEL := "kubernetes.io/hostname"

  function TopologyKeys(cfg: Config, annotations: map<string, string>): Slice<string> {
    if TOPOLOGY_KEYS !in annotations then Nil
    else match cfg.parseKeys(annotations[TOPOLOGY_KEYS])
      case None => Nil
      case Some(keys) => keys
  }

  /** Some key carries the same label value on both nodes. */
  predicate SharesLabel(keys: seq<string>, a: Option<map<string, string>>, b: Option<map<string, string>>) {
    a.Some? && b.Some? &&
    exists i :: 0 <= i < |keys| && keys[i] in a.value && keys[i] in b.value && a.value[keys[i]] == b.value[keys[i]]
  }

  method HasIntersectionLabel(keys: seq<string>, n1: Option<map<string, string>>, n2: Option<map<string, string>>)
    returns (r: bool)
    ensures r == SharesLabel(keys, n1, n2)
  {
    if n1.None? || n2.None? { return false; }
    for i := 0 to |keys|
      invariant forall j :: 0 <= j < i ==>
        !(keys[j] in n1.value && keys[j] in n2.value && n1.value[keys[j]] == n2.value[keys[j]])
    {
      var key := keys[i];
      if key in n1.value && key in n2.value && n1.value[key] == n2.value[key] { return true; }
    }
    return false;
  }

  /** The node an address names is known to the cache. */
  predicate Known(v: View, nodeName: Option<string>) {
    nodeName.Some? && NamespacedName("", nodeName.value) in v.nodes
  }

  function NodeOf(v: View, nodeName: Option<string>): NodeContainer
    requires Known(v, nodeName)
  {
    v.nodes[NamespacedName("", nodeName.value)]
  }

  /** A neighbour reported this node and called it abnormal. */
  predicate Abnormal(v: View, nodeName: Option<string>) {
    Known(v, nodeName) &&
    var name := NodeOf(v, nodeName).node.key.name;
    name in v.localNodeInfo && !v.localNodeInfo[name].normal
  }

  /** Kept for a service without topology keys once autonomy is on. */
  predicate Reachable(v: View, nodeName: Option<string>) {
    Known(v, nodeName) && !Abnormal(v, nodeName)
  }

  predicate HostKnown(cfg: Config, v: View) { NamespacedName("", cfg.hostName) in v.nodes }

  /** The node shares one of the service's topology labels with the host. */
  predicate SameUnit(cfg: Config, v: View, keys: seq<string>, nodeName: Option<string>) {
    HostKnown(cfg, v) && Known(v, nodeName) &&
    SharesLabel(keys, v.nodes[NamespacedName("", cfg.hostName)].labels, NodeOf(v, nodeName).labels)
  }

  /** Kept for a topology service. */
  predicate Concerned(cfg: Config, v: View, keys: seq<string>, nodeName: Option<string>) {
    SameUnit(cfg, v, keys, nodeName) && (cfg.autonomy ==> !Abnormal(v, nodeName))
  }

  /** The elements satisfying `p`, in order. */
  function Keep<T>(s: seq<T>, p: T -> bool): seq<T> {
    if s == [] then [] else (if p(s[0]) then [s[0]] else []) + Keep(s[1..], p)
  }

  function FilterConcerned<T>(cfg: Config, v: View, keys: seq<string>, s: seq<T>, nodeOf: T -> Option<string>): Slice<T> {
    if !HostKnown(cfg, v) then Nil else Items(Keep(s, t => Concerned(cfg, v, keys, nodeOf(t))))
  }

  function FilterReachable<T>(v: View, s: seq<T>, nodeOf: T -> Option<string>): Slice<T> {
    Items(Keep(s, t => Reachable(v, nodeOf(t))))
  }

  lemma {:induction false} KeepSnoc<T>(s: seq<T>, x: T, p: T -> bool)
    ensures Keep(s + [x], p) == Keep(s, p) + if p(x) then [x] else []
  {
    var longer := s + [x];
    if s == [] {
      assert longer[1..] == [];
    } else {
      assert longer[0] == s[0] && longer[1..] == s[1..] + [x];
      KeepSnoc(s[1..], x, p);
    }
  }

  /** The loop shared by filterConcernedAddresses and its two slice variants, which differ only in how
      an element names its node. */
  method FilterConcernedAddresses<T>(keys: seq<string>, hostName: string, nodes: map<NamespacedName, NodeContainer>,
                                     addresses: seq<T>, nodeOf: T -> Option<string>,
                                     localNodeInfo: map<string, ResultDetail>, getLocalNodeInfo: bool,
                                     ghost cfg: Config, ghost v: View)
    returns (r: Slice<T>)
    requires cfg.hostName == hostName && cfg.autonomy == getLocalNodeInfo
    requires v.nodes == nodes && v.localNodeInfo == localNodeInfo
    ensures r == FilterConcerned(cfg, v, keys, addresses, nodeOf)
  {
    if NamespacedName("", hostName) !in nodes { return Nil; }
    var hostNode := nodes[NamespacedName("", hostName)];
    ghost var p := t => Concerned(cfg, v, keys, nodeOf(t));
    var filtered: seq<T> := [];
    for i := 0 to |addresses|
      invariant filtered == Keep(addresses[..i], p)
    {
      var addr := addresses[i];
      assert addresses[..i + 1] == addresses[..i] + [addr];
      KeepSnoc(addresses[..i], addr, p);
      var nodeName := nodeOf(addr);
      if nodeName.Some? {
        var nodeKey := NamespacedName("", nodeName.value);
        if nodeKey !in nodes { continue; }
        var epsNode := nodes[nodeKey];
        var found := epsNode.node.key.name in localNodeInfo;
        var shared := HasIntersectionLabel(keys, hostNode.labels, epsNode.labels);
        if shared {
          if (getLocalNodeInfo && found && localNodeInfo[epsNode.node.key.name].normal)
             || (getLocalNodeInfo && !found) || !getLocalNodeInfo {
            filtered := filtered + [addr];
          }
        }
      }
    }
    assert addresses[..|addresses|] == addresses;
    return Items(filtered);
  }

  /** The loop shared by filterLocalNodeInfoConcernedAddresses and its two slice variants. */
  method FilterLocalNodeInfo<T>(nodes: map<NamespacedName, NodeContainer>, addresses: seq<T>,
                                nodeOf: T -> Option<string>, localNodeInfo: map<string, ResultDetail>,
                                ghost v: View)
    returns (r: Slice<T>)
    requires v.nodes == nodes && v.localNodeInfo == localNodeInfo
    ensures r == FilterReachable(v, addresses, nodeOf)
  {
    ghost var p := t => Reachable(v, nodeOf(t));
    var filtered: seq<T> := [];
    for i := 0 to |addresses|
      invariant filtered == Keep(addresses[..i], p)
    {
      var addr := addresses[i];
      assert addresses[..i + 1] == addresses[..i] + [addr];
      KeepSnoc(addresses[..i], addr, p);
      var nodeName := nodeOf(addr);
      if nodeName.Some? {
        var nodeKey := NamespacedName("", nodeName.value);
        if nodeKey !in nodes { continue; }
        var epsNode := nodes[nodeKey];
        var found := epsNode.node.key.name in localNodeInfo;
        if !found || (found && localNodeInfo[epsNode.node.key.name].normal) {
          filtered := filtered + [addr];
        }
      }
    }
    assert addresses[..|addresses|] == addresses;
    return Items(filtered);
  }

  // ---- The three object kinds ----

  /** The address and port an annotated master object is replaced by inside the cluster. */
  function LocalEndpoint(cfg: Config, key: NamespacedName, annotations: map<string, string>): Option<(string, Port)> {
    if key != MASTER || LOCAL_ENDPOINT !in annotations || LOCAL_PORT !in annotations then None
    else match cfg.parsePort(annotations[LOCAL_PORT])
      case None => None
      case Some(port) =>
        if cfg.isIP(annotations[LOCAL_ENDPOINT]) then Some((annotations[LOCAL_ENDPOINT], Port("https", port, "TCP")))
        else None
  }

  function GenLocalEndpoints(cfg: Config, eps: Endpoints): Endpoints {
    match LocalEndpoint(cfg, eps.key, eps.annotations)
    case None => eps
    case Some((ip, port)) =>
      eps.(subsets := Items([EndpointSubset(Items([EndpointAddress(ip, None)]), Nil, [port])]))
  }

  function GenLocalSliceV1(cfg: Config, eps: SliceV1): SliceV1 {
    match LocalEndpoint(cfg, eps.key, eps.annotations)
    case None => eps
    case Some((ip, port)) => eps.(endpoints := Items([EndpointV1([ip], None)]), ports := [port])
  }

  function GenLocalSliceV1Beta1(cfg: Config, eps: SliceV1Beta1): SliceV1Beta1 {
    match LocalEndpoint(cfg, eps.key, eps.annotations)
    case None => eps
    case Some((ip, port)) => eps.(endpoints := Items([EndpointV1Beta1([ip], map[])]), ports := [port])
  }

  /** What pruning does to an object's backends: nothing, drop the abnormal ones, or keep the unit's. */
  datatype Rule = Untouched | ByHealth | ByTopology(keys: seq<string>)

  function RuleFor(cfg: Config, v: View, serviceKey: NamespacedName, objectKey: NamespacedName): Rule {
    if serviceKey !in v.services then Untouched
    else
      var keys := v.services[serviceKey].keys.All();
      if keys != [] then ByTopology(keys)
      else if objectKey == MASTER || !cfg.autonomy then Untouched
      else ByHealth
  }

  function ApplyRule<T>(cfg: Config, v: View, rule: Rule, s: Slice<T>, nodeOf: T -> Option<string>): Slice<T> {
    match rule
    case Untouched => s
    case ByHealth => FilterReachable(v, s.All(), nodeOf)
    case ByTopology(keys) => FilterConcerned(cfg, v, keys, s.All(), nodeOf)
  }

  function AddressNode(a: EndpointAddress): Option<string> { a.nodeName }
  function EndpointNode(e: EndpointV1): Option<string> { e.nodeName }
  /** v1beta1 tests the address of a local copy against nil, so an absent label reads as the node "". */
  function Beta1Node(e: EndpointV1Beta1): Option<string> {
    Some(if HOSTNAME_LABEL in e.topology then e.topology[HOSTNAME_LABEL] else "")
  }

  function PruneSubset(cfg: Config, v: View, rule: Rule, s: EndpointSubset): EndpointSubset {
    s.(addresses := ApplyRule(cfg, v, rule, s.addresses, AddressNode),
       notReady := ApplyRule(cfg, v, rule, s.notReady, AddressNode))
  }

  function PruneSubsets(cfg: Config, v: View, rule: Rule, s: seq<EndpointSubset>): (r: seq<EndpointSubset>)
    ensures |r| == |s|
    ensures forall i :: 0 <= i < |s| ==> r[i] == PruneSubset(cfg, v, rule, s[i])
  {
    seq(|s|, i requires 0 <= i < |s| => PruneSubset(cfg, v, rule, s[i]))
  }

  function PruneEndpoints(cfg: Config, v: View, eps: Endpoints): Endpoints {
    var e := if cfg.wrapperInCluster then GenLocalEndpoints(cfg, eps) else eps;
    var rule := RuleFor(cfg, v, eps.key, e.key);
    if e.subsets.Nil? then e else e.(subsets := Items(PruneSubsets(cfg, v, rule, e.subsets.elems)))
  }

  /** strings.Split on "-" and the pieces but the last put back together; a lone piece stays. */
  function DropSuffix(name: string): string {
    var pieces := Split(name, '-');
    if |pieces| == 1 then pieces[0] else Join(pieces[..|pieces| - 1], '-')
  }

  function ServiceKeyOf(key: NamespacedName): NamespacedName { key.(name := DropSuffix(key.name)) }

  function PruneSliceV1(cfg: Config, v: View, eps: SliceV1): SliceV1 {
    var e := if cfg.wrapperInCluster then GenLocalSliceV1(cfg, eps) else eps;
    e.(endpoints := ApplyRule(cfg, v, RuleFor(cfg, v, ServiceKeyOf(eps.key), e.key), e.endpoints, EndpointNode))
  }

  function PruneSliceV1Beta1(cfg: Config, v: View, eps: SliceV1Beta1): SliceV1Beta1 {
    var e := if cfg.wrapperInCluster then GenLocalSliceV1Beta1(cfg, eps) else eps;
    e.(endpoints := ApplyRule(cfg, v, RuleFor(cfg, v, ServiceKeyOf(eps.key), e.key), e.endpoints, Beta1Node))
  }

  /** The suffix-dropping loop at the head of the slice pruners. */
  method DropSuffixLoop(name: string) returns (r: string)
    ensures r == DropSuffix(name)
  {
    var strArr := Split(name, '-');
    r := strArr[0];
    var i := 1;
    while i < |strArr| - 1
      invariant 1 <= i <= |strArr|
      invariant |strArr| > 1 ==> i <= |strArr| - 1
      invariant r == Join(strArr[..i], '-')
    {
      assert strArr[..i + 1] == strArr[..i] + [strArr[i]];
      JoinSnoc(strArr[..i], '-', strArr[i]);
      r := r + "-" + strArr[i];
      i := i + 1;
    }
  }

  /** pruneEndpoints as the source runs it: the branches in order, and the subsets of a deep copy
      rewritten one by one. */
  method PruneEndpointsLoop(cfg: Config, v: View, original: Endpoints) returns (r: Endpoints)
    ensures r == PruneEndpoints(cfg, v, original)
  {
    var epsKey := original.key;
    var eps := if cfg.wrapperInCluster then GenLocalEndpoints(cfg, original) else original;
    if epsKey !in v.services {
      assert eps.subsets.Items? ==> PruneSubsets(cfg, v, Untouched, eps.subsets.elems) == eps.subsets.elems;
      return eps;
    }
    var keys := v.services[epsKey].keys.All();
    if |keys| == 0 && (eps.key == MASTER || !cfg.autonomy) {
      assert eps.subsets.Items? ==> PruneSubsets(cfg, v, Untouched, eps.subsets.elems) == eps.subsets.elems;
      return eps;
    }
    ghost var rule := RuleFor(cfg, v, epsKey, eps.key);
    if eps.subsets.Nil? { return eps; }
    var subsets := eps.subsets.elems;
    for si := 0 to |subsets|
      invariant |subsets| == |eps.subsets.elems|
      invariant subsets[si..] == eps.subsets.elems[si..]
      invariant forall i :: 0 <= i < si ==> subsets[i] == PruneSubset(cfg, v, rule, eps.subsets.elems[i])
    {
      var subset := subsets[si];
      assert subset == eps.subsets.elems[si];
      var ready, notReady;
      if |keys| == 0 {
        ready := FilterLocalNodeInfo(v.nodes, subset.addresses.All(), AddressNode, v.localNodeInfo, v);
        notReady := FilterLocalNodeInfo(v.nodes, subset.notReady.All(), AddressNode, v.localNodeInfo, v);
      } else {
        ready := FilterConcernedAddresses(keys, cfg.hostName, v.nodes, subset.addresses.All(), AddressNode,
                                          v.localNodeInfo, cfg.autonomy, cfg, v);
        notReady := FilterConcernedAddresses(keys, cfg.hostName, v.nodes, subset.notReady.All(), AddressNode,
                                             v.localNodeInfo, cfg.autonomy, cfg, v);
      }
      subsets := subsets[si := subset.(addresses := ready, notReady := notReady)];
    }
    assert subsets == PruneSubsets(cfg, v, rule, eps.subsets.elems);
    return eps.(subsets := Items(subsets));
  }

  // ---- Semantic equality: nil and empty slices are the same ----

  function NormalSlice<T>(s: Slice<T>): Slice<T> { Items(s.All()) }

  function NormalSubset(s: EndpointSubset): EndpointSubset {
    s.(addresses := NormalSlice(s.addresses), notReady := NormalSlice(s.notReady))
  }

  function NormalSubsets(s: Slice<EndpointSubset>): (r: seq<EndpointSubset>)
    ensures |r| == |s.All()|
    ensures forall i :: 0 <= i < |r| ==> r[i] == NormalSubset(s.All()[i])
  {
    seq(|s.All()|, i requires 0 <= i < |s.All()| => NormalSubset(s.All()[i]))
  }

  predicate SameEndpoints(a: Endpoints, b: Endpoints) {
    a.key == b.key && a.annotations == b.annotations && NormalSubsets(a.subsets) == NormalSubsets(b.subsets)
  }

  predicate SameSliceV1(a: SliceV1, b: SliceV1) {
    a.(endpoints := NormalSlice(a.endpoints)) == b.(endpoints := NormalSlice(b.endpoints))
  }

  predicate SameSliceV1Beta1(a: SliceV1Beta1, b: SliceV1Beta1) {
    a.(endpoints := NormalSlice(a.endpoints)) == b.(endpoints := NormalSlice(b.endpoints))
  }

  // ---- What pruning means ----

  /** Filtering keeps the order and exactly the elements satisfying the predicate, with their multiplicity. */
  lemma {:induction false} KeepMeaning<T>(s: seq<T>, p: T -> bool)
    ensures forall x :: multiset(Keep(s, p))[x] == if p(x) then multiset(s)[x] else 0
    ensures forall x :: x in Keep(s, p) ==> p(x)
    ensures forall x :: x in Keep(s, p) <==> x in s && p(x)
  {
    if s != [] {
      KeepMeaning(s[1..], p);
      assert s == [s[0]] + s[1..];
      forall x ensures x in Keep(s, p) <==> x in s && p(x) {
        assert x in Keep(s, p) <==> multiset(Keep(s, p))[x] > 0;
      }
    }
  }

  lemma {:induction false} KeepAll<T>(s: seq<T>, p: T -> bool)
    requires forall x :: x in s ==> p(x)
    ensures Keep(s, p) == s
  {
    if s != [] {
      KeepAll(s[1..], p);
      assert s == [s[0]] + s[1..];
    }
  }

  /** Two filters agree on a sequence exactly when they agree on each of its elements. */
  lemma {:induction false} KeepAgree<T>(s: seq<T>, p: T -> bool, q: T -> bool)
    ensures Keep(s, p) == Keep(s, q) <==> forall x :: x in s ==> p(x) == q(x)
  {
    if forall x :: x in s ==> p(x) == q(x) {
      if s != [] {
        KeepAgree(s[1..], p, q);
      }
    } else {
      var x :| x in s && p(x) != q(x);
      KeepMeaning(s, p);
      KeepMeaning(s, q);
      assert (x in Keep(s, p)) != (x in Keep(s, q));
    }
  }

  lemma ApplyRuleIdempotent<T>(cfg: Config, v: View, rule: Rule, s: Slice<T>, nodeOf: T -> Option<string>)
    ensures ApplyRule(cfg, v, rule, ApplyRule(cfg, v, rule, s, nodeOf), nodeOf) == ApplyRule(cfg, v, rule, s, nodeOf)
  {
    match rule
    case Untouched =>
    case ByHealth =>
      var p: T -> bool := t => Reachable(v, nodeOf(t));
      KeepMeaning(s.All(), p);
      KeepAll(Keep(s.All(), p), p);
    case ByTopology(keys) =>
      var p: T -> bool := t => Concerned(cfg, v, keys, nodeOf(t));
      KeepMeaning(s.All(), p);
      KeepAll(Keep(s.All(), p), p);
  }

  /** Pruning what was already pruned changes nothing, whatever the branch. */
  lemma PruneIdempotent(cfg: Config, v: View, e: Endpoints, s: SliceV1, b: SliceV1Beta1)
    ensures PruneEndpoints(cfg, v, PruneEndpoints(cfg, v, e)) == PruneEndpoints(cfg, v, e)
    ensures PruneSliceV1(cfg, v, PruneSliceV1(cfg, v, s)) == PruneSliceV1(cfg, v, s)
    ensures PruneSliceV1Beta1(cfg, v, PruneSliceV1Beta1(cfg, v, b)) == PruneSliceV1Beta1(cfg, v, b)
  {
    PruneEndpointsIdempotent(cfg, v, e);
    var s' := if cfg.wrapperInCluster then GenLocalSliceV1(cfg, s) else s;
    ApplyRuleIdempotent(cfg, v, RuleFor(cfg, v, ServiceKeyOf(s.key), s.key), s'.endpoints, EndpointNode);
    var b' := if cfg.wrapperInCluster then GenLocalSliceV1Beta1(cfg, b) else b;
    ApplyRuleIdempotent(cfg, v, RuleFor(cfg, v, ServiceKeyOf(b.key), b.key), b'.endpoints, Beta1Node);
  }

  lemma PruneEndpointsIdempotent(cfg: Config, v: View, eps: Endpoints)
    ensures PruneEndpoints(cfg, v, PruneEndpoints(cfg, v, eps)) == PruneEndpoints(cfg, v, eps)
  {
    var e := if cfg.wrapperInCluster then GenLocalEndpoints(cfg, eps) else eps;
    var rule := RuleFor(cfg, v, eps.key, e.key);
    if e.subsets.Items? {
      var once := PruneSubsets(cfg, v, rule, e.subsets.elems);
      forall i | 0 <= i < |once| ensures PruneSubset(cfg, v, rule, once[i]) == once[i] {
        ApplyRuleIdempotent(cfg, v, rule, e.subsets.elems[i].addresses, AddressNode);
        ApplyRuleIdempotent(cfg, v, rule, e.subsets.elems[i].notReady, AddressNode);
      }
      assert PruneSubsets(cfg, v, rule, once) == once;
    }
  }

  /** Survives the rule on its own account. */
  predicate Survives(cfg: Config, v: View, rule: Rule, nodeName: Option<string>) {
    match rule
    case Untouched => true
    case ByHealth => Reachable(v, nodeName)
    case ByTopology(keys) => Concerned(cfg, v, keys, nodeName)
  }

  /** An element survives a rule with its full multiplicity or not at all, and it survives exactly when its node
      does: for a topology service when that node and the host are known, share a topology label, and (autonomy
      on) nobody reports the node abnormal. What survives keeps its order. */
  lemma RuleMeaning<T>(cfg: Config, v: View, rule: Rule, s: Slice<T>, nodeOf: T -> Option<string>)
    ensures forall t :: multiset(ApplyRule(cfg, v, rule, s, nodeOf).All())[t] ==
                        if Survives(cfg, v, rule, nodeOf(t)) then multiset(s.All())[t] else 0
    ensures ApplyRule(cfg, v, rule, s, nodeOf).All() == Keep(s.All(), t => Survives(cfg, v, rule, nodeOf(t)))
  {
    var p: T -> bool := t => Survives(cfg, v, rule, nodeOf(t));
    KeepMeaning(s.All(), p);
    match rule
    case Untouched => KeepAll(s.All(), p);
    case ByHealth => KeepAgree(s.All(), p, t => Reachable(v, nodeOf(t)));
    case ByTopology(keys) =>
      KeepAgree(s.All(), p, t => Concerned(cfg, v, keys, nodeOf(t)));
      if !HostKnown(cfg, v) {
        KeepNone(s.All(), p);
      }
  }

  lemma {:induction false} KeepNone<T>(s: seq<T>, p: T -> bool)
    requires forall x :: x in s ==> !p(x)
    ensures Keep(s, p) == []
  {
    if s != [] {
      KeepNone(s[1..], p);
    }
  }

  /** The slice of a service is named by the service, a dash and a generated suffix; dropping the suffix
      finds the service again, and a name without a dash is taken whole. */
  lemma DropSuffixInverts(service: string, suffix: string)
    requires '-' !in suffix
    ensures DropSuffix(service + "-" + suffix) == service
    ensures DropSuffix(suffix) == suffix
  {
    SplitConcat(service, '-', suffix);
    SplitWithout(suffix, '-');
    var pieces := Split(service + ['-'] + suffix, '-');
    assert service + "-" + suffix == service + ['-'] + suffix;
    assert pieces[..|pieces| - 1] == Split(service, '-');
    JoinSplit(service, '-');
  }

  // ---- Updates that OnUpdate skips ----

  /** What replaces the object's subsets in cluster, if anything. */
  function Replacement(cfg: Config, eps: Endpoints): Option<(string, Port)> {
    if cfg.wrapperInCluster then LocalEndpoint(cfg, eps.key, eps.annotations) else None
  }

  /** The one subset left of a replacement: its address has no node, so only an untouched object keeps it. */
  function LocalSubset(rule: Rule, ip: string, port: Port): EndpointSubset {
    EndpointSubset(Items(if rule.Untouched? then [EndpointAddress(ip, None)] else []), Items([]), [port])
  }

  /** The object's own subsets, pruned. */
  function OwnSubsets(cfg: Config, v: View, eps: Endpoints): seq<EndpointSubset> {
    NormalSubsets(Items(PruneSubsets(cfg, v, RuleFor(cfg, v, eps.key, eps.key), eps.subsets.All())))
  }

  /** The subsets served for an object, up to nil and empty. */
  lemma ServedSubsets(cfg: Config, v: View, eps: Endpoints)
    ensures NormalSubsets(PruneEndpoints(cfg, v, eps).subsets) ==
            match Replacement(cfg, eps)
            case None => OwnSubsets(cfg, v, eps)
            case Some((ip, port)) => [LocalSubset(RuleFor(cfg, v, eps.key, eps.key), ip, port)]
  {
    var rule := RuleFor(cfg, v, eps.key, eps.key);
    if Replacement(cfg, eps).Some? {
      var (ip, port) := Replacement(cfg, eps).value;
      var local := EndpointSubset(Items([EndpointAddress(ip, None)]), Nil, [port]);
      assert NormalSubset(PruneSubset(cfg, v, rule, local)) == LocalSubset(rule, ip, port) by {
        LocalAddressDropped(cfg, v, rule, EndpointAddress(ip, None));
      }
      assert PruneEndpoints(cfg, v, eps).subsets == Items(PruneSubsets(cfg, v, rule, [local]));
    }
  }

  lemma LocalAddressDropped(cfg: Config, v: View, rule: Rule, a: EndpointAddress)
    requires a.nodeName == None
    ensures ApplyRule(cfg, v, rule, Items([a]), AddressNode).All() == if rule.Untouched? then [a] else []
    ensures ApplyRule(cfg, v, rule, Nil, AddressNode).All() == []
  {
    RuleMeaning(cfg, v, rule, Items([a]), AddressNode);
    RuleMeaning(cfg, v, rule, Nil, AddressNode);
    assert [a][1..] == [];
  }

  lemma OwnSubsetsAlike(cfg: Config, v: View, a: Endpoints, b: Endpoints)
    requires a.key == b.key && NormalSubsets(a.subsets) == NormalSubsets(b.subsets)
    ensures OwnSubsets(cfg, v, a) == OwnSubsets(cfg, v, b)
  {
    var rule := RuleFor(cfg, v, a.key, a.key);
    var x, y := a.subsets.All(), b.subsets.All();
    forall i | 0 <= i < |x|
      ensures NormalSubset(PruneSubset(cfg, v, rule, x[i])) == NormalSubset(PruneSubset(cfg, v, rule, y[i]))
    {
      assert NormalSubsets(a.subsets)[i] == NormalSubsets(b.subsets)[i];
      assert NormalSubset(x[i]) == NormalSubset(y[i]);
    }
  }

  /** Serving `held` instead of `next`, whose subsets are the same, shows the same backends: the replacement is the same,
      or both are replaced and pruning leaves no more than equal ports, or one is and its own subsets prune to just that. */
  predicate SkipHarmless(cfg: Config, v: View, held: Endpoints, next: Endpoints) {
    var rule, p, n := RuleFor(cfg, v, next.key, next.key), Replacement(cfg, held), Replacement(cfg, next);
    || p == n
    || (p.Some? && n.Some? && !rule.Untouched? && p.value.1 == n.value.1)
    || (p.Some? && n.None? && OwnSubsets(cfg, v, next) == [LocalSubset(rule, p.value.0, p.value.1)])
    || (p.None? && n.Some? && OwnSubsets(cfg, v, next) == [LocalSubset(rule, n.value.0, n.value.1)])
  }

  /** endpointsHandler.OnUpdate skips an update whose subsets are semantically unchanged, whatever became of its
      annotations. The subsets then served are those of the new object exactly under SkipHarmless, and the whole object is
      right exactly when the annotations are unchanged too. */
  lemma SkippedUpdateIff(cfg: Config, v: View, held: Endpoints, next: Endpoints)
    requires held.key == next.key && NormalSubsets(held.subsets) == NormalSubsets(next.subsets)
    ensures NormalSubsets(PruneEndpoints(cfg, v, held).subsets) == NormalSubsets(PruneEndpoints(cfg, v, next).subsets) <==>
            SkipHarmless(cfg, v, held, next)
    ensures SameEndpoints(PruneEndpoints(cfg, v, held), PruneEndpoints(cfg, v, next)) <==>
            SkipHarmless(cfg, v, held, next) && held.annotations == next.annotations
  {
    ServedSubsets(cfg, v, held);
    ServedSubsets(cfg, v, next);
    OwnSubsetsAlike(cfg, v, held, next);
    var rule, p, n := RuleFor(cfg, v, next.key, next.key), Replacement(cfg, held), Replacement(cfg, next);
    if p.Some? && n.Some? {
      LocalSubsetsDiffer(rule, p.value.0, p.value.1, n.value.0, n.value.1);
    }
  }

  lemma LocalSubsetsDiffer(rule: Rule, ip: string, port: Port, ip': string, port': Port)
    ensures [LocalSubset(rule, ip, port)] == [LocalSubset(rule, ip', port')] <==>
            port == port' && (ip == ip' || !rule.Untouched?)
  {
    var a, b := LocalSubset(rule, ip, port), LocalSubset(rule, ip', port');
    assert [a] == [b] <==> [a][0] == [b][0];
    assert a.ports == b.ports <==> [port][0] == [port'][0];
    if rule.Untouched? && a == b {
      assert a.addresses.elems[0] == b.addresses.elems[0];
    }
  }
}
