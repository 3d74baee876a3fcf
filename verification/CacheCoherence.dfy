/** One of the wrapper's object tables (endpointsMap, endpointSliceV1Map, endpointSliceV1Beta1Map), generic in
    the kind of object. Each entry keeps the original and its pruned copy. */
module CacheTable {
  import opened Objects

  datatype Container<O> = Container(original: O, modified: O)
  type Table<O> = map<NamespacedName, Container<O>>

  /** What an informer reports about one object. A deletion it missed arrives as a tombstone
      (cache.DeletedFinalStateUnknown) with the object as last known. */
  datatype Operation<O> = Add(o: O) | Update(previous: O, o: O) | Delete(o: O) | Tombstone(o: O)

  /** How one kind of object is pruned in the present view, compared and named, and which updates its handler
      drops before taking the lock. */
  datatype Kernel<!O> = Kernel(prune: O -> O, same: (O, O) -> bool, keyOf: O -> NamespacedName,
                               ignores: (O, O) -> bool)

  ghost predicate Lawful<O(!new)>(k: Kernel<O>) {
    && (forall o :: k.keyOf(k.prune(o)) == k.keyOf(o))
    && (forall a :: k.same(a, a))
    && (forall a, b :: k.same(a, b) ==> k.same(b, a))
    && (forall a, b :: k.same(a, b) ==> k.keyOf(a) == k.keyOf(b))
  }

  /** The simple thing the cache must agree with: every pruned copy is the pruned original. */
  ghost predicate Coherent<O>(k: Kernel<O>, t: Table<O>) {
    forall key :: key in t ==> k.same(t[key].modified, k.prune(t[key].original))
  }

  /** Entries are filed under the name of both their objects. */
  ghost predicate Filed<O>(k: Kernel<O>, t: Table<O>) {
    forall key :: key in t ==> k.keyOf(t[key].original) == key && k.keyOf(t[key].modified) == key
  }

  /** The pruned copy after a re-prune: a semantically equal old copy is left in place. */
  function Refresh<O>(k: Kernel<O>, c: Container<O>): Container<O> {
    var pruned := k.prune(c.original);
    if k.same(pruned, c.modified) then c else c.(modified := pruned)
  }

  function Operate<O>(k: Kernel<O>, t: Table<O>, op: Operation<O>): Table<O> {
    var key := k.keyOf(op.o);
    match op
    case Add(o) => t[key := Container(o, k.prune(o))]
    case Delete(_) => t - {key}
    case Tombstone(_) => t
    case Update(previous, o) =>
      if k.ignores(previous, o) || key !in t then t
      else
        var pruned := k.prune(o);
        t[key := Container(o, if k.same(t[key].modified, pruned) then t[key].modified else pruned)]
  }

  function Rebuild<O>(k: Kernel<O>, t: Table<O>): Table<O> { map key | key in t :: Refresh(k, t[key]) }

  /** A rebuild makes any table coherent. */
  lemma RebuildCoheres<O(!new)>(k: Kernel<O>, t: Table<O>)
    requires Lawful(k)
    ensures Coherent(k, Rebuild(k, t))
  {}

  /** Every handler keeps a coherent table coherent. */
  lemma OperateKeepsCoherence<O(!new)>(k: Kernel<O>, t: Table<O>, op: Operation<O>)
    requires Lawful(k) && Coherent(k, t)
    ensures Coherent(k, Operate(k, t, op))
  {
    assert k.same(k.prune(op.o), k.prune(op.o));
  }

  lemma RebuildKeepsFiling<O(!new)>(k: Kernel<O>, t: Table<O>)
    requires Lawful(k) && Filed(k, t)
    ensures Filed(k, Rebuild(k, t))
  {
    forall e | e in t ensures k.keyOf(Refresh(k, t[e]).modified) == e {
      assert k.keyOf(k.prune(t[e].original)) == k.keyOf(t[e].original);
    }
  }

  lemma KeepsFiling<O(!new)>(k: Kernel<O>, t: Table<O>, op: Operation<O>)
    requires Lawful(k) && Filed(k, t)
    ensures Filed(k, Operate(k, t, op))
  {
    assert k.keyOf(k.prune(op.o)) == k.keyOf(op.o);
  }
}

/** The wrapper's cache under concurrent informer handlers (cache.go, node_handler.go, service_handler.go and the
    three object handlers). Every section run under the lock is one step; between the write that changes the view
    and the rebuilds of the three tables any other handler may run. */
module CacheCoherence {
  import opened Basics
  import opened Objects
  import opened Prune
  import opened CacheTable

  datatype Kind = OfV1 | OfV1Beta1 | OfEndpoints

  /** Where a goroutine inside resync stands: it looks at a table's size without the lock, then rebuilds it. */
  datatype Stage = Look(kind: Kind) | Rebuilding(kind: Kind)

  datatype State = State(view: View,
                         v1: Table<SliceV1>, v1beta1: Table<SliceV1Beta1>, endpoints: Table<Endpoints>,
                         resyncs: multiset<Stage>,
                         cleared: set<Kind>)  // tables neither rebuilt nor found empty by a resync since the last clear

  /** The handlers that change what pruning reads. */
  datatype Write =
    | NodeAdd(node: Node) | NodeUpdate(node: Node) | NodeDelete(node: Node) | NodeTombstone(node: Node)
    | ServiceAdd(svc: Service) | ServiceUpdate(svc: Service) | ServiceDelete(svc: Service) | ServiceTombstone(svc: Service)
    | SetLocalNodeInfo(info: map<string, ResultDetail>) | ClearLocalNodeInfo

  datatype Action =
    | OnView(write: Write)
    | OnV1(v1: Operation<SliceV1>)
    | OnV1Beta1(v1beta1: Operation<SliceV1Beta1>)
    | OnEndpoints(endpoints: Operation<Endpoints>)
    | Advance(stage: Stage)

  const INIT := State(View(map[], map[], map[]), map[], map[], map[], multiset{}, {})

  function V1Key(o: SliceV1): NamespacedName { o.key }
  function V1Beta1Key(o: SliceV1Beta1): NamespacedName { o.key }
  function EndpointsKey(o: Endpoints): NamespacedName { o.key }

  function V1Kernel(cfg: Config, v: View): Kernel<SliceV1> {
    Kernel(o => PruneSliceV1(cfg, v, o), SameSliceV1, V1Key, (p, o) => false)
  }
  function V1Beta1Kernel(cfg: Config, v: View): Kernel<SliceV1Beta1> {
    Kernel(o => PruneSliceV1Beta1(cfg, v, o), SameSliceV1Beta1, V1Beta1Key, (p, o) => false)
  }
  function EndpointsKernel(cfg: Config, v: View): Kernel<Endpoints> {
    Kernel(o => PruneEndpoints(cfg, v, o), SameEndpoints, EndpointsKey,
           (p: Endpoints, o: Endpoints) => NormalSubsets(p.subsets) == NormalSubsets(o.subsets))
  }

  lemma KernelsLawful(cfg: Config, v: View)
    ensures Lawful(V1Kernel(cfg, v)) && Lawful(V1Beta1Kernel(cfg, v)) && Lawful(EndpointsKernel(cfg, v))
  {}

  // ---- Steps ----

  /** The view after a handler's locked write, and whether the handler goes on to resync. */
  function WriteView(cfg: Config, v: View, w: Write): (View, bool) {
    match w
    case NodeAdd(n) => (v.(nodes := v.nodes[n.key := NodeContainer(n, n.labels)]), true)
    case NodeUpdate(n) =>
      if n.key !in v.nodes then (v, false)
      else
        var c := v.nodes[n.key];
        if n.labels == c.labels then (v.(nodes := v.nodes[n.key := c.(node := n)]), false)
        else (v.(nodes := v.nodes[n.key := NodeContainer(n, n.labels)]), true)
    case NodeDelete(n) => (v.(nodes := v.nodes - {n.key}), true)
    case NodeTombstone(_) => (v, false)
    case ServiceAdd(s) =>
      (v.(services := v.services[s.key := ServiceContainer(s, TopologyKeys(cfg, s.annotations))]), true)
    case ServiceUpdate(s) =>
      if s.key !in v.services then (v, false)
      else
        var c := v.services[s.key];
        var keys := TopologyKeys(cfg, s.annotations);
        if c.keys == keys then (v.(services := v.services[s.key := c.(svc := s)]), false)
        else (v.(services := v.services[s.key := ServiceContainer(s, keys)]), true)
    case ServiceDelete(s) => (v.(services := v.services - {s.key}), true)
    case ServiceTombstone(_) => (v, false)
    case SetLocalNodeInfo(info) => (v.(localNodeInfo := info), true)
    case ClearLocalNodeInfo => (v.(localNodeInfo := map[]), false)
  }

  function Size(s: State, kind: Kind): nat {
    match kind
    case OfV1 => |s.v1|
    case OfV1Beta1 => |s.v1beta1|
    case OfEndpoints => |s.endpoints|
  }

  /** Where resync goes once it is done with a table. */
  function After(kind: Kind): multiset<Stage> {
    match kind
    case OfV1 => multiset{Look(OfV1Beta1)}
    case OfV1Beta1 => multiset{Look(OfEndpoints)}
    case OfEndpoints => multiset{}
  }

  /** The goroutines inside resync after one of them moves on. */
  function Moved(resyncs: multiset<Stage>, stage: Stage, nonEmpty: bool): multiset<Stage> {
    resyncs - multiset{stage}
    + if stage.Look? && nonEmpty then multiset{Rebuilding(stage.kind)} else After(stage.kind)
  }

  /** The tables still owed a rebuild by a clear: a rebuild, or finding the table empty, settles it. */
  function StillCleared(cleared: set<Kind>, stage: Stage, nonEmpty: bool): set<Kind> {
    if stage.Rebuilding? || !nonEmpty then cleared - {stage.kind} else cleared
  }

  function AdvanceStage(cfg: Config, s: State, stage: Stage): State {
    var nonEmpty := Size(s, stage.kind) > 0;
    var s' := s.(resyncs := Moved(s.resyncs, stage, nonEmpty), cleared := StillCleared(s.cleared, stage, nonEmpty));
    match stage
    case Look(_) => s'
    case Rebuilding(OfV1) => s'.(v1 := Rebuild(V1Kernel(cfg, s.view), s.v1))
    case Rebuilding(OfV1Beta1) => s'.(v1beta1 := Rebuild(V1Beta1Kernel(cfg, s.view), s.v1beta1))
    case Rebuilding(OfEndpoints) => s'.(endpoints := Rebuild(EndpointsKernel(cfg, s.view), s.endpoints))
  }

  predicate Enabled(s: State, a: Action) { a.Advance? ==> a.stage in s.resyncs }

  function ApplyWrite(cfg: Config, s: State, w: Write): State {
    var (view, resync) := WriteView(cfg, s.view, w);
    s.(view := view,
       resyncs := s.resyncs + if resync then multiset{Look(OfV1)} else multiset{},
       cleared := if w.ClearLocalNodeInfo? then {OfV1, OfV1Beta1, OfEndpoints} else s.cleared)
  }

  function Next(cfg: Config, s: State, a: Action): State {
    match a
    case OnView(w) => ApplyWrite(cfg, s, w)
    case OnV1(op) => s.(v1 := Operate(V1Kernel(cfg, s.view), s.v1, op))
    case OnV1Beta1(op) => s.(v1beta1 := Operate(V1Beta1Kernel(cfg, s.view), s.v1beta1, op))
    case OnEndpoints(op) => s.(endpoints := Operate(EndpointsKernel(cfg, s.view), s.endpoints, op))
    case Advance(stage) => AdvanceStage(cfg, s, stage)
  }

  /** `s` is reached from the empty cache by the given interleaving. */
  ghost predicate Reaches(cfg: Config, run: seq<Action>, s: State)
    decreases |run|
  {
    if run == [] then s == INIT
    else
      var n := |run| - 1;
      exists s0 :: Reaches(cfg, run[..n], s0) && Enabled(s0, run[n]) && s == Next(cfg, s0, run[n])
  }

  // ---- The invariant ----

  /** Some goroutine inside resync has not yet dealt with this table. */
  predicate Pending(resyncs: multiset<Stage>, kind: Kind) {
    || Look(kind) in resyncs
    || Rebuilding(kind) in resyncs
    || (kind != OfV1 && (Look(OfV1) in resyncs || Rebuilding(OfV1) in resyncs))
    || (kind == OfEndpoints && (Look(OfV1Beta1) in resyncs || Rebuilding(OfV1Beta1) in resyncs))
  }

  /** A goroutine drops out of a table's pending set only by rebuilding it or by finding it empty. */
  lemma PendingMoves(resyncs: multiset<Stage>, stage: Stage, nonEmpty: bool, kind: Kind)
    requires stage in resyncs && Pending(resyncs, kind)
    requires stage != Rebuilding(kind) && !(stage == Look(kind) && !nonEmpty)
    ensures Pending(Moved(resyncs, stage, nonEmpty), kind)
  {
    var moved := Moved(resyncs, stage, nonEmpty);
    assert forall t :: t in resyncs && t != stage ==> t in moved;
    if stage.Look? && nonEmpty {
      assert Rebuilding(stage.kind) in moved;
    } else if stage.kind == OfV1 {
      assert Look(OfV1Beta1) in moved;
    } else if stage.kind == OfV1Beta1 {
      assert Look(OfEndpoints) in moved;
    }
  }

  ghost predicate TableCoherent(cfg: Config, s: State, kind: Kind) {
    match kind
    case OfV1 => Coherent(V1Kernel(cfg, s.view), s.v1)
    case OfV1Beta1 => Coherent(V1Beta1Kernel(cfg, s.view), s.v1beta1)
    case OfEndpoints => Coherent(EndpointsKernel(cfg, s.view), s.endpoints)
  }

  ghost predicate NodesFiled(v: View) { forall key :: key in v.nodes ==> v.nodes[key].node.key == key }

  ghost predicate Inv(cfg: Config, s: State) {
    && NodesFiled(s.view)
    && forall kind :: Accounted(cfg, s, kind)
  }

  /** Two views pruning cannot tell apart. */
  ghost predicate Alike(cfg: Config, v: View, w: View) {
    && v.nodes.Keys == w.nodes.Keys
    && (forall key :: key in v.nodes ==> v.nodes[key].labels == w.nodes[key].labels
                                         && v.nodes[key].node.key == w.nodes[key].node.key)
    && v.services.Keys == w.services.Keys
    && (forall key :: key in v.services ==> v.services[key].keys == w.services[key].keys)
    && (cfg.autonomy ==> v.localNodeInfo == w.localNodeInfo)
  }

  lemma RuleAlike<T>(cfg: Config, v: View, w: View, rule: Rule, s: Slice<T>, nodeOf: T -> Option<string>)
    requires Alike(cfg, v, w) && (rule.ByHealth? ==> cfg.autonomy)
    ensures ApplyRule(cfg, v, rule, s, nodeOf) == ApplyRule(cfg, w, rule, s, nodeOf)
  {
    match rule
    case Untouched =>
    case ByHealth => KeepAgree(s.All(), t => Reachable(v, nodeOf(t)), t => Reachable(w, nodeOf(t)));
    case ByTopology(keys) =>
      KeepAgree(s.All(), t => Concerned(cfg, v, keys, nodeOf(t)), t => Concerned(cfg, w, keys, nodeOf(t)));
  }

  lemma SubsetsAlike(cfg: Config, v: View, w: View, rule: Rule, s: seq<EndpointSubset>)
    requires Alike(cfg, v, w) && (rule.ByHealth? ==> cfg.autonomy)
    ensures PruneSubsets(cfg, v, rule, s) == PruneSubsets(cfg, w, rule, s)
  {
    forall i | 0 <= i < |s| ensures PruneSubset(cfg, v, rule, s[i]) == PruneSubset(cfg, w, rule, s[i]) {
      RuleAlike(cfg, v, w, rule, s[i].addresses, AddressNode);
      RuleAlike(cfg, v, w, rule, s[i].notReady, AddressNode);
    }
  }

  /** Views that differ in nothing pruning reads prune every object alike. */
  lemma PruneAlike(cfg: Config, v: View, w: View)
    requires Alike(cfg, v, w)
    ensures forall o :: PruneSliceV1(cfg, v, o) == PruneSliceV1(cfg, w, o)
    ensures forall o :: PruneSliceV1Beta1(cfg, v, o) == PruneSliceV1Beta1(cfg, w, o)
    ensures forall o :: PruneEndpoints(cfg, v, o) == PruneEndpoints(cfg, w, o)
  {
    forall o ensures PruneSliceV1(cfg, v, o) == PruneSliceV1(cfg, w, o) {
      var e := if cfg.wrapperInCluster then GenLocalSliceV1(cfg, o) else o;
      RuleAlike(cfg, v, w, RuleFor(cfg, v, ServiceKeyOf(o.key), e.key), e.endpoints, EndpointNode);
    }
    forall o ensures PruneSliceV1Beta1(cfg, v, o) == PruneSliceV1Beta1(cfg, w, o) {
      var e := if cfg.wrapperInCluster then GenLocalSliceV1Beta1(cfg, o) else o;
      RuleAlike(cfg, v, w, RuleFor(cfg, v, ServiceKeyOf(o.key), e.key), e.endpoints, Beta1Node);
    }
    forall o ensures PruneEndpoints(cfg, v, o) == PruneEndpoints(cfg, w, o) {
      var e := if cfg.wrapperInCluster then GenLocalEndpoints(cfg, o) else o;
      if e.subsets.Items? {
        SubsetsAlike(cfg, v, w, RuleFor(cfg, v, o.key, e.key), e.subsets.elems);
      }
    }
  }

  lemma CoherentAlike(cfg: Config, s: State, s': State, kind: Kind)
    requires Alike(cfg, s.view, s'.view)
    requires s.v1 == s'.v1 && s.v1beta1 == s'.v1beta1 && s.endpoints == s'.endpoints
    ensures TableCoherent(cfg, s, kind) ==> TableCoherent(cfg, s', kind)
  {
    PruneAlike(cfg, s.view, s'.view);
  }

  lemma WriteFiles(cfg: Config, v: View, w: Write)
    requires NodesFiled(v)
    ensures NodesFiled(WriteView(cfg, v, w).0)
  {}

  lemma NodeSwap(cfg: Config, v: View, key: NamespacedName, c: NodeContainer)
    requires key in v.nodes && c.labels == v.nodes[key].labels && c.node.key == v.nodes[key].node.key
    ensures Alike(cfg, v, v.(nodes := v.nodes[key := c]))
  {}

  lemma ServiceSwap(cfg: Config, v: View, key: NamespacedName, c: ServiceContainer)
    requires key in v.services && c.keys == v.services[key].keys
    ensures Alike(cfg, v, v.(services := v.services[key := c]))
  {}

  /** A view write that does not resync either leaves pruning as it was or is a ClearLocalNodeInfo. */
  lemma QuietWrite(cfg: Config, v: View, w: Write)
    requires NodesFiled(v) && !WriteView(cfg, v, w).1 && !(w.ClearLocalNodeInfo? && cfg.autonomy)
    ensures Alike(cfg, v, WriteView(cfg, v, w).0)
  {
    if w.NodeUpdate? && w.node.key in v.nodes {
      NodeSwap(cfg, v, w.node.key, v.nodes[w.node.key].(node := w.node));
    } else if w.ServiceUpdate? && w.svc.key in v.services {
      ServiceSwap(cfg, v, w.svc.key, v.services[w.svc.key].(svc := w.svc));
    }
  }

  /** An update resyncs exactly when it changes something pruning reads. */
  lemma UpdateResyncsIff(cfg: Config, v: View, w: Write)
    requires NodesFiled(v) && (w.NodeUpdate? || w.ServiceUpdate?)
    ensures WriteView(cfg, v, w).1 <==> !Alike(cfg, v, WriteView(cfg, v, w).0)
  {
    if !WriteView(cfg, v, w).1 {
      QuietWrite(cfg, v, w);
    } else if w.NodeUpdate? {
      assert WriteView(cfg, v, w).0.nodes[w.node.key].labels != v.nodes[w.node.key].labels;
    } else {
      assert WriteView(cfg, v, w).0.services[w.svc.key].keys != v.services[w.svc.key].keys;
    }
  }

  /** The invariant's clause for one table. */
  ghost predicate Accounted(cfg: Config, s: State, kind: Kind) {
    TableCoherent(cfg, s, kind) || Pending(s.resyncs, kind) || (cfg.autonomy && kind in s.cleared)
  }

  lemma WriteKeepsInv(cfg: Config, s: State, w: Write, kind: Kind)
    requires NodesFiled(s.view) && Accounted(cfg, s, kind)
    ensures Accounted(cfg, ApplyWrite(cfg, s, w), kind)
  {
    var s' := ApplyWrite(cfg, s, w);
    if WriteView(cfg, s.view, w).1 {
      assert Look(OfV1) in s'.resyncs;
    } else if !(w.ClearLocalNodeInfo? && cfg.autonomy) {
      QuietWrite(cfg, s.view, w);
      assert s'.resyncs == s.resyncs;
      CoherentAlike(cfg, s, s', kind);
    }
  }

  lemma RebuildingCoheres(cfg: Config, s: State, kind: Kind)
    ensures TableCoherent(cfg, AdvanceStage(cfg, s, Rebuilding(kind)), kind)
  {
    KernelsLawful(cfg, s.view);
    match kind
    case OfV1 => RebuildCoheres(V1Kernel(cfg, s.view), s.v1);
    case OfV1Beta1 => RebuildCoheres(V1Beta1Kernel(cfg, s.view), s.v1beta1);
    case OfEndpoints => RebuildCoheres(EndpointsKernel(cfg, s.view), s.endpoints);
  }

  /** The two states agree on one table and on the view. */
  ghost predicate SameTable(s: State, s': State, kind: Kind) {
    && s'.view == s.view
    && (kind == OfV1 ==> s'.v1 == s.v1)
    && (kind == OfV1Beta1 ==> s'.v1beta1 == s.v1beta1)
    && (kind == OfEndpoints ==> s'.endpoints == s.endpoints)
  }

  lemma SameTableCoherent(cfg: Config, s: State, s': State, kind: Kind)
    requires SameTable(s, s', kind)
    ensures TableCoherent(cfg, s', kind) <==> TableCoherent(cfg, s, kind)
  {}

  /** Moving on from another table, or only looking, leaves this one as it was. */
  lemma AdvanceElsewhere(cfg: Config, s: State, stage: Stage, kind: Kind)
    requires stage != Rebuilding(kind)
    ensures SameTable(s, AdvanceStage(cfg, s, stage), kind)
  {
    match stage
    case Look(_) =>
    case Rebuilding(OfV1) =>
    case Rebuilding(OfV1Beta1) =>
    case Rebuilding(OfEndpoints) =>
  }

  lemma EmptyCoheres(cfg: Config, s: State, kind: Kind)
    requires Size(s, kind) == 0
    ensures TableCoherent(cfg, s, kind)
  {}

  lemma AdvanceMarks(cfg: Config, s: State, stage: Stage)
    ensures var s', nonEmpty := AdvanceStage(cfg, s, stage), Size(s, stage.kind) > 0;
            s'.resyncs == Moved(s.resyncs, stage, nonEmpty) && s'.cleared == StillCleared(s.cleared, stage, nonEmpty)
  {
    match stage
    case Look(_) =>
    case Rebuilding(OfV1) =>
    case Rebuilding(OfV1Beta1) =>
    case Rebuilding(OfEndpoints) =>
  }

  /** A table passed by is still excused if it was, unless it was found empty. */
  lemma ExcuseMoves(cfg: Config, s: State, s': State, stage: Stage, kind: Kind)
    requires s' == AdvanceStage(cfg, s, stage) && stage in s.resyncs
    requires stage != Rebuilding(kind) && !(stage == Look(kind) && Size(s, kind) == 0)
    ensures Pending(s.resyncs, kind) ==> Pending(s'.resyncs, kind)
    ensures kind in s.cleared ==> kind in s'.cleared
  {
    AdvanceMarks(cfg, s, stage);
    if Pending(s.resyncs, kind) {
      PendingMoves(s.resyncs, stage, Size(s, stage.kind) > 0, kind);
    }
  }

  lemma AdvanceKeepsInv(cfg: Config, s: State, stage: Stage, kind: Kind)
    requires Accounted(cfg, s, kind) && stage in s.resyncs
    ensures Accounted(cfg, AdvanceStage(cfg, s, stage), kind)
  {
    var s' := AdvanceStage(cfg, s, stage);
    if stage == Rebuilding(kind) {
      RebuildingCoheres(cfg, s, kind);
    } else {
      assert TableCoherent(cfg, s', kind) <==> TableCoherent(cfg, s, kind) by {
        AdvanceElsewhere(cfg, s, stage, kind);
        SameTableCoherent(cfg, s, s', kind);
      }
      if stage == Look(kind) && Size(s, kind) == 0 {
        EmptyCoheres(cfg, s, kind);
      } else {
        ExcuseMoves(cfg, s, s', stage, kind);
      }
    }
  }

  lemma OperationKeepsInv(cfg: Config, s: State, a: Action, kind: Kind)
    requires Accounted(cfg, s, kind) && (a.OnV1? || a.OnV1Beta1? || a.OnEndpoints?)
    ensures Accounted(cfg, Next(cfg, s, a), kind)
  {
    KernelsLawful(cfg, s.view);
    if TableCoherent(cfg, s, kind) {
      match a
      case OnV1(op) => if kind == OfV1 { OperateKeepsCoherence(V1Kernel(cfg, s.view), s.v1, op); }
      case OnV1Beta1(op) => if kind == OfV1Beta1 { OperateKeepsCoherence(V1Beta1Kernel(cfg, s.view), s.v1beta1, op); }
      case OnEndpoints(op) => if kind == OfEndpoints { OperateKeepsCoherence(EndpointsKernel(cfg, s.view), s.endpoints, op); }
    }
  }

  lemma StepKeepsInv(cfg: Config, s: State, a: Action)
    requires Inv(cfg, s) && Enabled(s, a)
    ensures Inv(cfg, Next(cfg, s, a))
  {
    forall kind ensures Accounted(cfg, Next(cfg, s, a), kind) {
      match a
      case OnView(w) => WriteKeepsInv(cfg, s, w, kind);
      case Advance(stage) => AdvanceKeepsInv(cfg, s, stage, kind);
      case _ => OperationKeepsInv(cfg, s, a, kind);
    }
    if a.OnView? {
      WriteFiles(cfg, s.view, a.write);
    }
  }

  lemma {:induction false} ReachableInv(cfg: Config, run: seq<Action>, s: State)
    requires Reaches(cfg, run, s)
    ensures Inv(cfg, s)
    decreases |run|
  {
    if run != [] {
      var n := |run| - 1;
      var s0 :| Reaches(cfg, run[..n], s0) && Enabled(s0, run[n]) && s == Next(cfg, s0, run[n]);
      ReachableInv(cfg, run[..n], s0);
      StepKeepsInv(cfg, s0, run[n]);
    }
  }

  /** Quiescent coherence: in every interleaving, once no resync has this table ahead of it and (autonomy on) a
      resync rebuilt it or found it empty since the last ClearLocalNodeInfo, each pruned copy is semantically the pruned
      original under the current nodes, services and health reports. */
  lemma QuiescentCoherence(cfg: Config, run: seq<Action>, s: State, kind: Kind)
    requires Reaches(cfg, run, s)
    requires !Pending(s.resyncs, kind) && !(cfg.autonomy && kind in s.cleared)
    ensures TableCoherent(cfg, s, kind)
  {
    assert Accounted(cfg, s, kind) by {
      ReachableInv(cfg, run, s);
    }
  }
}
