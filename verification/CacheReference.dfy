/** The cache against the simple thing it stands for: keep what the informers reported, and prune it on demand. */
module CacheReference {
  import opened Basics
  import opened Objects
  import opened Prune
  import opened CacheTable
  import opened CacheCoherence

  /** Objects by name and the health reports, without containers, pruned copies or resyncs. */
  datatype Reference = Reference(nodes: map<NamespacedName, Node>, services: map<NamespacedName, Service>,
                                 health: map<string, ResultDetail>,
                                 v1: map<NamespacedName, SliceV1>, v1beta1: map<NamespacedName, SliceV1Beta1>,
                                 endpoints: map<NamespacedName, Endpoints>)

  /** An update of an unknown object is dropped. */
  function Updated<K(==), O>(m: map<K, O>, key: K, o: O): map<K, O> { if key in m then m[key := o] else m }

  function Reported<O>(m: map<NamespacedName, O>, keyOf: O -> NamespacedName, op: Operation<O>): map<NamespacedName, O> {
    match op
    case Add(o) => m[keyOf(o) := o]
    case Update(_, o) => Updated(m, keyOf(o), o)
    case Delete(o) => m - {keyOf(o)}
    case Tombstone(o) => m - {keyOf(o)}
  }

  function ObserveWrite(r: Reference, w: Write): Reference {
    match w
    case NodeAdd(n) => r.(nodes := r.nodes[n.key := n])
    case NodeUpdate(n) => r.(nodes := Updated(r.nodes, n.key, n))
    case NodeDelete(n) => r.(nodes := r.nodes - {n.key})
    case NodeTombstone(n) => r.(nodes := r.nodes - {n.key})
    case ServiceAdd(s) => r.(services := r.services[s.key := s])
    case ServiceUpdate(s) => r.(services := Updated(r.services, s.key, s))
    case ServiceDelete(s) => r.(services := r.services - {s.key})
    case ServiceTombstone(s) => r.(services := r.services - {s.key})
    case SetLocalNodeInfo(info) => r.(health := info)
    case ClearLocalNodeInfo => r.(health := map[])
  }

  /** OnUpdate's test. */
  predicate Skipped(op: Operation<Endpoints>) {
    op.Update? && NormalSubsets(op.previous.subsets) == NormalSubsets(op.o.subsets)
  }

  /** Reports the handlers return from at once: every tombstone, and a skipped update. */
  predicate Dropped(a: Action) {
    match a
    case OnView(w) => w.NodeTombstone? || w.ServiceTombstone?
    case OnV1(op) => op.Tombstone?
    case OnV1Beta1(op) => op.Tombstone?
    case OnEndpoints(op) => op.Tombstone? || Skipped(op)
    case Advance(_) => false
  }

  function Observe(r: Reference, a: Action): Reference {
    match a
    case OnView(w) => ObserveWrite(r, w)
    case OnV1(op) => r.(v1 := Reported(r.v1, V1Key, op))
    case OnV1Beta1(op) => r.(v1beta1 := Reported(r.v1beta1, V1Beta1Key, op))
    case OnEndpoints(op) => r.(endpoints := Reported(r.endpoints, EndpointsKey, op))
    case Advance(_) => r
  }

  function Hold(r: Reference, a: Action): Reference { if Dropped(a) then r else Observe(r, a) }

  const NOTHING := Reference(map[], map[], map[], map[], map[], map[])

  /** Everything the informers have reported. */
  function ObserveAll(run: seq<Action>): Reference {
    if run == [] then NOTHING else Observe(ObserveAll(run[..|run| - 1]), run[|run| - 1])
  }

  /** What is held of it: the same without the dropped reports. */
  function HoldAll(run: seq<Action>): Reference {
    if run == [] then NOTHING else Hold(HoldAll(run[..|run| - 1]), run[|run| - 1])
  }

  function NodesOf(nodes: map<NamespacedName, Node>): map<NamespacedName, NodeContainer> {
    map k | k in nodes :: NodeContainer(nodes[k], nodes[k].labels)
  }

  function ServicesOf(cfg: Config, services: map<NamespacedName, Service>): map<NamespacedName, ServiceContainer> {
    map k | k in services :: ServiceContainer(services[k], TopologyKeys(cfg, services[k].annotations))
  }

  /** What pruning reads, computed from the reported objects. */
  function ViewOf(cfg: Config, r: Reference): View { View(NodesOf(r.nodes), ServicesOf(cfg, r.services), r.health) }

  function Originals<O>(t: Table<O>): map<NamespacedName, O> { map key | key in t :: t[key].original }

  /** The cache holds exactly these objects; labels and topology keys are those of the stored objects. */
  ghost predicate Mirrors(cfg: Config, s: State, r: Reference) {
    && s.view == ViewOf(cfg, r)
    && Originals(s.v1) == r.v1 && Originals(s.v1beta1) == r.v1beta1 && Originals(s.endpoints) == r.endpoints
  }

  lemma NodeWrites(nodes: map<NamespacedName, Node>, n: Node)
    ensures NodesOf(nodes[n.key := n]) == NodesOf(nodes)[n.key := NodeContainer(n, n.labels)]
    ensures NodesOf(nodes - {n.key}) == NodesOf(nodes) - {n.key}
  {}

  lemma ServiceWrites(cfg: Config, services: map<NamespacedName, Service>, s: Service)
    ensures ServicesOf(cfg, services[s.key := s]) ==
            ServicesOf(cfg, services)[s.key := ServiceContainer(s, TopologyKeys(cfg, s.annotations))]
    ensures ServicesOf(cfg, services - {s.key}) == ServicesOf(cfg, services) - {s.key}
  {}

  lemma WriteMirrors(cfg: Config, r: Reference, w: Write)
    ensures WriteView(cfg, ViewOf(cfg, r), w).0 == ViewOf(cfg, Hold(r, OnView(w)))
  {
    if w.NodeAdd? || w.NodeUpdate? || w.NodeDelete? {
      NodeWrites(r.nodes, w.node);
    } else if w.ServiceAdd? || w.ServiceUpdate? || w.ServiceDelete? {
      ServiceWrites(cfg, r.services, w.svc);
    }
  }

  lemma OperateMirrors<O>(k: Kernel<O>, t: Table<O>, op: Operation<O>)
    ensures Originals(Operate(k, t, op)) ==
            if op.Tombstone? || (op.Update? && k.ignores(op.previous, op.o)) then Originals(t) else Reported(Originals(t), k.keyOf, op)
  {}

  lemma RebuildMirrors<O>(k: Kernel<O>, t: Table<O>)
    ensures Originals(Rebuild(k, t)) == Originals(t)
  {}

  lemma AdvanceTables(cfg: Config, s: State, stage: Stage)
    ensures var s' := AdvanceStage(cfg, s, stage);
            && s'.view == s.view
            && (s'.v1 == s.v1 || s'.v1 == Rebuild(V1Kernel(cfg, s.view), s.v1))
            && (s'.v1beta1 == s.v1beta1 || s'.v1beta1 == Rebuild(V1Beta1Kernel(cfg, s.view), s.v1beta1))
            && (s'.endpoints == s.endpoints || s'.endpoints == Rebuild(EndpointsKernel(cfg, s.view), s.endpoints))
  {
    if stage.Rebuilding? {
      match stage.kind
      case OfV1 =>
      case OfV1Beta1 =>
      case OfEndpoints =>
    }
  }

  lemma AdvanceMirrors(cfg: Config, s: State, r: Reference, stage: Stage)
    requires Mirrors(cfg, s, r)
    ensures Mirrors(cfg, AdvanceStage(cfg, s, stage), r)
  {
    AdvanceTables(cfg, s, stage);
    RebuildMirrors(V1Kernel(cfg, s.view), s.v1);
    RebuildMirrors(V1Beta1Kernel(cfg, s.view), s.v1beta1);
    RebuildMirrors(EndpointsKernel(cfg, s.view), s.endpoints);
  }

  lemma EndpointsMirror(cfg: Config, v: View, t: Table<Endpoints>, r: Reference, op: Operation<Endpoints>)
    requires Originals(t) == r.endpoints
    ensures Originals(Operate(EndpointsKernel(cfg, v), t, op)) == Hold(r, OnEndpoints(op)).endpoints
  {
    OperateMirrors(EndpointsKernel(cfg, v), t, op);
  }

  lemma ApplyMirrors(cfg: Config, s: State, r: Reference, w: Write)
    requires Mirrors(cfg, s, r)
    ensures Mirrors(cfg, ApplyWrite(cfg, s, w), Hold(r, OnView(w)))
  {
    WriteMirrors(cfg, r, w);
  }

  lemma OperationMirrors(cfg: Config, s: State, r: Reference, a: Action)
    requires Mirrors(cfg, s, r) && (a.OnV1? || a.OnV1Beta1? || a.OnEndpoints?)
    ensures Mirrors(cfg, Next(cfg, s, a), Hold(r, a))
  {
    match a
    case OnV1(op) => OperateMirrors(V1Kernel(cfg, s.view), s.v1, op);
    case OnV1Beta1(op) => OperateMirrors(V1Beta1Kernel(cfg, s.view), s.v1beta1, op);
    case OnEndpoints(op) => EndpointsMirror(cfg, s.view, s.endpoints, r, op);
  }

  /** Every step of the cache is a step of the reference, early returns included. */
  lemma StepMirrors(cfg: Config, s: State, r: Reference, a: Action)
    requires Mirrors(cfg, s, r) && Enabled(s, a)
    ensures Mirrors(cfg, Next(cfg, s, a), Hold(r, a))
  {
    match a
    case OnView(w) => ApplyMirrors(cfg, s, r, w);
    case Advance(stage) => AdvanceMirrors(cfg, s, r, stage);
    case _ => OperationMirrors(cfg, s, r, a);
  }

  lemma {:induction false} RunMirrors(cfg: Config, run: seq<Action>, s: State)
    requires Reaches(cfg, run, s)
    ensures Mirrors(cfg, s, HoldAll(run))
    decreases |run|
  {
    if run != [] {
      var n := |run| - 1;
      var s0 :| Reaches(cfg, run[..n], s0) && Enabled(s0, run[n]) && s == Next(cfg, s0, run[n]);
      RunMirrors(cfg, run[..n], s0);
      StepMirrors(cfg, s0, HoldAll(run[..n]), run[n]);
    }
  }

  /** A table serves, for each of these objects and no other, its pruning. */
  ghost predicate Serves<O>(t: Table<O>, same: (O, O) -> bool, prune: O -> O, objects: map<NamespacedName, O>) {
    t.Keys == objects.Keys && forall key :: key in t ==> same(t[key].modified, prune(objects[key]))
  }

  /** In every interleaving, once a table is quiescent the copies it serves are, semantically, the prunings of exactly the
      objects held, under the nodes, services and health held. */
  lemma ServesTheReference(cfg: Config, run: seq<Action>, s: State, kind: Kind)
    requires Reaches(cfg, run, s)
    requires !Pending(s.resyncs, kind) && !(cfg.autonomy && kind in s.cleared)
    ensures var r := HoldAll(run);
            var v := ViewOf(cfg, r);
            match kind
            case OfV1 => Serves(s.v1, SameSliceV1, o => PruneSliceV1(cfg, v, o), r.v1)
            case OfV1Beta1 => Serves(s.v1beta1, SameSliceV1Beta1, o => PruneSliceV1Beta1(cfg, v, o), r.v1beta1)
            case OfEndpoints => Serves(s.endpoints, SameEndpoints, o => PruneEndpoints(cfg, v, o), r.endpoints)
  {
    RunMirrors(cfg, run, s);
    QuiescentCoherence(cfg, run, s, kind);
    CoherentServes(cfg, s, HoldAll(run), kind);
  }

  lemma {:induction false} CoherentServes(cfg: Config, s: State, r: Reference, kind: Kind)
    requires Mirrors(cfg, s, r) && TableCoherent(cfg, s, kind)
    ensures var v := ViewOf(cfg, r);
            match kind
            case OfV1 => Serves(s.v1, SameSliceV1, o => PruneSliceV1(cfg, v, o), r.v1)
            case OfV1Beta1 => Serves(s.v1beta1, SameSliceV1Beta1, o => PruneSliceV1Beta1(cfg, v, o), r.v1beta1)
            case OfEndpoints => Serves(s.endpoints, SameEndpoints, o => PruneEndpoints(cfg, v, o), r.endpoints)
  {
    match kind
    case OfV1 => assert s.v1.Keys == Originals(s.v1).Keys;
    case OfV1Beta1 => assert s.v1beta1.Keys == Originals(s.v1beta1).Keys;
    case OfEndpoints => assert s.endpoints.Keys == Originals(s.endpoints).Keys;
  }

  // ---- Lost deletions ----

  datatype Subject = OfNodes | OfServices | OfTable(kind: Kind)

  /** What an action says about which objects exist. */
  datatype Report = Silent | Appears(key: NamespacedName) | Goes(key: NamespacedName) | Lost(key: NamespacedName)

  function ReportOf<O>(op: Operation<O>, keyOf: O -> NamespacedName): Report {
    match op
    case Add(o) => Appears(keyOf(o))
    case Update(_, _) => Silent
    case Delete(o) => Goes(keyOf(o))
    case Tombstone(o) => Lost(keyOf(o))
  }

  function NodeReport(w: Write): Report {
    match w
    case NodeAdd(n) => Appears(n.key)
    case NodeDelete(n) => Goes(n.key)
    case NodeTombstone(n) => Lost(n.key)
    case _ => Silent
  }

  function ServiceReport(w: Write): Report {
    match w
    case ServiceAdd(s) => Appears(s.key)
    case ServiceDelete(s) => Goes(s.key)
    case ServiceTombstone(s) => Lost(s.key)
    case _ => Silent
  }

  function ReportIn(a: Action, subject: Subject): Report {
    match subject
    case OfNodes => if a.OnView? then NodeReport(a.write) else Silent
    case OfServices => if a.OnView? then ServiceReport(a.write) else Silent
    case OfTable(OfV1) => if a.OnV1? then ReportOf(a.v1, V1Key) else Silent
    case OfTable(OfV1Beta1) => if a.OnV1Beta1? then ReportOf(a.v1beta1, V1Beta1Key) else Silent
    case OfTable(OfEndpoints) => if a.OnEndpoints? then ReportOf(a.endpoints, EndpointsKey) else Silent
  }

  function Names(r: Reference, subject: Subject): set<NamespacedName> {
    match subject
    case OfNodes => r.nodes.Keys
    case OfServices => r.services.Keys
    case OfTable(OfV1) => r.v1.Keys
    case OfTable(OfV1Beta1) => r.v1beta1.Keys
    case OfTable(OfEndpoints) => r.endpoints.Keys
  }

  /** The names after a report, with or without obeying tombstones. */
  function NamesAfter(names: set<NamespacedName>, report: Report, obey: bool): set<NamespacedName> {
    match report
    case Silent => names
    case Appears(key) => names + {key}
    case Goes(key) => names - {key}
    case Lost(key) => if obey then names - {key} else names
  }

  lemma OperationNames<O>(m: map<NamespacedName, O>, keyOf: O -> NamespacedName, op: Operation<O>)
    ensures Reported(m, keyOf, op).Keys == NamesAfter(m.Keys, ReportOf(op, keyOf), true)
  {}

  lemma WriteNames(r: Reference, w: Write)
    ensures ObserveWrite(r, w).nodes.Keys == NamesAfter(r.nodes.Keys, NodeReport(w), true)
    ensures ObserveWrite(r, w).services.Keys == NamesAfter(r.services.Keys, ServiceReport(w), true)
    ensures ObserveWrite(r, w).v1 == r.v1 && ObserveWrite(r, w).v1beta1 == r.v1beta1 && ObserveWrite(r, w).endpoints == r.endpoints
  {
    match w
    case NodeAdd(_) =>
    case NodeUpdate(_) =>
    case NodeDelete(_) =>
    case NodeTombstone(_) =>
    case ServiceAdd(_) =>
    case ServiceUpdate(_) =>
    case ServiceDelete(_) =>
    case ServiceTombstone(_) =>
    case SetLocalNodeInfo(_) =>
    case ClearLocalNodeInfo =>
  }

  lemma ObserveNames(r: Reference, a: Action, subject: Subject)
    ensures Names(Observe(r, a), subject) == NamesAfter(Names(r, subject), ReportIn(a, subject), true)
  {
    match a
    case OnView(w) => WriteNames(r, w);
    case OnV1(op) => OperationNames(r.v1, V1Key, op);
    case OnV1Beta1(op) => OperationNames(r.v1beta1, V1Beta1Key, op);
    case OnEndpoints(op) => OperationNames(r.endpoints, EndpointsKey, op);
    case Advance(_) =>
  }

  lemma DroppedReport(a: Action, subject: Subject)
    ensures if Dropped(a) then ReportIn(a, subject).Silent? || ReportIn(a, subject).Lost? else !ReportIn(a, subject).Lost?
  {}

  lemma HoldNames(r: Reference, a: Action, subject: Subject)
    ensures Names(Hold(r, a), subject) == NamesAfter(Names(r, subject), ReportIn(a, subject), false)
  {
    DroppedReport(a, subject);
    ObserveNames(r, a, subject);
  }

  /** The deletion of a reported object was lost at `n`, and nothing since added or deleted it. */
  ghost predicate LostAt(run: seq<Action>, n: nat, subject: Subject, key: NamespacedName) {
    && n < |run| && ReportIn(run[n], subject) == Lost(key) && key in Names(ObserveAll(run[..n]), subject)
    && forall m :: n < m < |run| ==> ReportIn(run[m], subject) != Appears(key) && ReportIn(run[m], subject) != Goes(key)
  }

  ghost predicate Lingers(run: seq<Action>, subject: Subject, key: NamespacedName) { exists n :: LostAt(run, n, subject, key) }

  lemma LingersStep(run: seq<Action>, a: Action, subject: Subject, key: NamespacedName)
    ensures Lingers(run + [a], subject, key) <==>
            match ReportIn(a, subject)
            case Silent => Lingers(run, subject, key)
            case Appears(k) => k != key && Lingers(run, subject, key)
            case Goes(k) => k != key && Lingers(run, subject, key)
            case Lost(k) => Lingers(run, subject, key) || (k == key && key in Names(ObserveAll(run), subject))
  {
    var longer := run + [a];
    forall n: nat | n < |run|
      ensures LostAt(longer, n, subject, key) <==>
              LostAt(run, n, subject, key) && ReportIn(a, subject) != Appears(key) && ReportIn(a, subject) != Goes(key)
    {
      LostEarlier(run, a, n, subject, key);
    }
    assert longer[..|run|] == run;
    assert LostAt(longer, |run|, subject, key) <==> ReportIn(a, subject) == Lost(key) && key in Names(ObserveAll(run), subject);
  }

  lemma LostEarlier(run: seq<Action>, a: Action, n: nat, subject: Subject, key: NamespacedName)
    requires n < |run|
    ensures LostAt(run + [a], n, subject, key) <==>
            LostAt(run, n, subject, key) && ReportIn(a, subject) != Appears(key) && ReportIn(a, subject) != Goes(key)
  {
    var longer := run + [a];
    assert longer[..n] == run[..n] && longer[|run|] == a;
    assert forall m :: 0 <= m < |run| ==> longer[m] == run[m];
  }

  /** In every run what is held is what is reported and what lingers after a lost deletion. */
  lemma {:induction false} HeldIff(run: seq<Action>, subject: Subject, key: NamespacedName)
    ensures key in Names(HoldAll(run), subject) <==> key in Names(ObserveAll(run), subject) || Lingers(run, subject, key)
    decreases |run|
  {
    if run != [] {
      var shorter, a := run[..|run| - 1], run[|run| - 1];
      assert run == shorter + [a];
      HeldIff(shorter, subject, key);
      LingersStep(shorter, a, subject, key);
      ObserveNames(ObserveAll(shorter), a, subject);
      HoldNames(HoldAll(shorter), a, subject);
    }
  }

  // ---- What is held of a reported object ----

  ghost predicate Agree<O(!new)>(held: map<NamespacedName, O>, reported: map<NamespacedName, O>) {
    forall k :: k in reported ==> k in held && held[k] == reported[k]
  }

  lemma OperationAgrees<O(!new)>(held: map<NamespacedName, O>, reported: map<NamespacedName, O>, keyOf: O -> NamespacedName,
                                 op: Operation<O>)
    requires Agree(held, reported)
    ensures Agree(if op.Tombstone? then held else Reported(held, keyOf, op), Reported(reported, keyOf, op))
  {}

  ghost predicate ViewsAgree(held: Reference, reported: Reference) {
    Agree(held.nodes, reported.nodes) && Agree(held.services, reported.services) && held.health == reported.health
  }

  lemma MapsAgree<O(!new)>(held: map<NamespacedName, O>, reported: map<NamespacedName, O>, key: NamespacedName, o: O)
    requires Agree(held, reported)
    ensures Agree(held[key := o], reported[key := o]) && Agree(Updated(held, key, o), Updated(reported, key, o))
    ensures Agree(held - {key}, reported - {key}) && Agree(held, reported - {key})
  {}

  lemma WriteAgrees(held: Reference, reported: Reference, w: Write)
    requires ViewsAgree(held, reported)
    ensures ViewsAgree(Hold(held, OnView(w)), ObserveWrite(reported, w))
  {
    NodesAgree(held, reported, w);
    ServicesAgree(held, reported, w);
  }

  lemma NodesAgree(held: Reference, reported: Reference, w: Write)
    requires Agree(held.nodes, reported.nodes)
    ensures Agree(Hold(held, OnView(w)).nodes, ObserveWrite(reported, w).nodes)
  {
    match w
    case NodeAdd(n) => MapsAgree(held.nodes, reported.nodes, n.key, n);
    case NodeUpdate(n) => MapsAgree(held.nodes, reported.nodes, n.key, n);
    case NodeDelete(n) => MapsAgree(held.nodes, reported.nodes, n.key, n);
    case NodeTombstone(n) => MapsAgree(held.nodes, reported.nodes, n.key, n);
    case _ => assert Hold(held, OnView(w)).nodes == held.nodes && ObserveWrite(reported, w).nodes == reported.nodes;
  }

  lemma ServicesAgree(held: Reference, reported: Reference, w: Write)
    requires Agree(held.services, reported.services)
    ensures Agree(Hold(held, OnView(w)).services, ObserveWrite(reported, w).services)
  {
    match w
    case ServiceAdd(s) => MapsAgree(held.services, reported.services, s.key, s);
    case ServiceUpdate(s) => MapsAgree(held.services, reported.services, s.key, s);
    case ServiceDelete(s) => MapsAgree(held.services, reported.services, s.key, s);
    case ServiceTombstone(s) => MapsAgree(held.services, reported.services, s.key, s);
    case _ => assert Hold(held, OnView(w)).services == held.services && ObserveWrite(reported, w).services == reported.services;
  }

  ghost predicate SlicesAgree(held: Reference, reported: Reference) {
    Agree(held.v1, reported.v1) && Agree(held.v1beta1, reported.v1beta1)
  }

  lemma StepAgrees(held: Reference, reported: Reference, a: Action)
    requires ViewsAgree(held, reported) && SlicesAgree(held, reported)
    ensures ViewsAgree(Hold(held, a), Observe(reported, a)) && SlicesAgree(Hold(held, a), Observe(reported, a))
  {
    match a
    case OnView(w) =>
      WriteAgrees(held, reported, w);
      WriteNames(held, w);
      WriteNames(reported, w);
    case OnV1(op) => OperationAgrees(held.v1, reported.v1, V1Key, op);
    case OnV1Beta1(op) => OperationAgrees(held.v1beta1, reported.v1beta1, V1Beta1Key, op);
    case OnEndpoints(_) =>
    case Advance(_) =>
  }

  lemma {:induction false} HeldAgrees(run: seq<Action>)
    ensures ViewsAgree(HoldAll(run), ObserveAll(run)) && SlicesAgree(HoldAll(run), ObserveAll(run))
    decreases |run|
  {
    if run != [] {
      var n := |run| - 1;
      HeldAgrees(run[..n]);
      StepAgrees(HoldAll(run[..n]), ObserveAll(run[..n]), run[n]);
    }
  }

  ghost predicate NoneLingers(run: seq<Action>, subject: Subject) { forall key :: !Lingers(run, subject, key) }

  lemma NodesExactIff(run: seq<Action>)
    ensures HoldAll(run).nodes == ObserveAll(run).nodes <==> NoneLingers(run, OfNodes)
  {
    var held, reported := HoldAll(run).nodes, ObserveAll(run).nodes;
    HeldAgrees(run);
    forall key ensures key in held <==> key in reported || Lingers(run, OfNodes, key) { HeldIff(run, OfNodes, key); }
    forall key | Lingers(run, OfNodes, key) ensures key !in reported { LingersNotReported(run, OfNodes, key); }
  }

  lemma ServicesExactIff(run: seq<Action>)
    ensures HoldAll(run).services == ObserveAll(run).services <==> NoneLingers(run, OfServices)
  {
    var held, reported := HoldAll(run).services, ObserveAll(run).services;
    HeldAgrees(run);
    forall key ensures key in held <==> key in reported || Lingers(run, OfServices, key) { HeldIff(run, OfServices, key); }
    forall key | Lingers(run, OfServices, key) ensures key !in reported { LingersNotReported(run, OfServices, key); }
  }

  /** What lingers is not reported any more. */
  lemma {:induction false} LingersNotReported(run: seq<Action>, subject: Subject, key: NamespacedName)
    requires Lingers(run, subject, key)
    ensures key !in Names(ObserveAll(run), subject)
    decreases |run|
  {
    var shorter, a := run[..|run| - 1], run[|run| - 1];
    assert run == shorter + [a];
    LingersStep(shorter, a, subject, key);
    ObserveNames(ObserveAll(shorter), a, subject);
    if Lingers(shorter, subject, key) { LingersNotReported(shorter, subject, key); }
  }

  /** Pruning reads the reported nodes and services exactly when the deletion of none of them was lost. */
  lemma {:induction false} ViewExactIff(cfg: Config, run: seq<Action>)
    ensures ViewOf(cfg, HoldAll(run)) == ViewOf(cfg, ObserveAll(run)) <==> NoneLingers(run, OfNodes) && NoneLingers(run, OfServices)
  {
    NodesExactIff(run);
    ServicesExactIff(run);
    HeldAgrees(run);
    var held, reported := HoldAll(run), ObserveAll(run);
    assert NodesOf(held.nodes).Keys == held.nodes.Keys && NodesOf(reported.nodes).Keys == reported.nodes.Keys;
    assert ServicesOf(cfg, held.services).Keys == held.services.Keys;
    assert ServicesOf(cfg, reported.services).Keys == reported.services.Keys;
    if ViewOf(cfg, held) == ViewOf(cfg, reported) {
      assert held.nodes == reported.nodes && held.services == reported.services;
    }
  }

  /** In every interleaving a quiescent slice table has an entry for exactly the reported slices and those whose deletion was
      lost, and serves the latest report of each reported one. */
  lemma ServesSlicesIff(cfg: Config, run: seq<Action>, s: State, kind: Kind, key: NamespacedName)
    requires Reaches(cfg, run, s)
    requires !Pending(s.resyncs, kind) && !(cfg.autonomy && kind in s.cleared)
    ensures kind == OfV1 ==>
              var v, v1 := ViewOf(cfg, HoldAll(run)), ObserveAll(run).v1;
              && (key in s.v1 <==> key in v1 || Lingers(run, OfTable(OfV1), key))
              && (key in v1 ==> SameSliceV1(s.v1[key].modified, PruneSliceV1(cfg, v, v1[key])))
    ensures kind == OfV1Beta1 ==>
              var v, v1beta1 := ViewOf(cfg, HoldAll(run)), ObserveAll(run).v1beta1;
              && (key in s.v1beta1 <==> key in v1beta1 || Lingers(run, OfTable(OfV1Beta1), key))
              && (key in v1beta1 ==> SameSliceV1Beta1(s.v1beta1[key].modified, PruneSliceV1Beta1(cfg, v, v1beta1[key])))
  {
    ServesTheReference(cfg, run, s, kind);
    HeldIff(run, OfTable(kind), key);
    HeldAgrees(run);
  }

  // ---- Skipped Endpoints updates ----

  /** The informer hands OnUpdate the object it reported last. */
  ghost predicate PreviousIsReported(run: seq<Action>) {
    forall n :: 0 <= n < |run| && run[n].OnEndpoints? && run[n].endpoints.Update? ==>
      var op, reported := run[n].endpoints, ObserveAll(run[..n]).endpoints;
      op.o.key in reported ==> op.previous == reported[op.o.key]
  }

  ghost predicate SameSubsets(a: Endpoints, b: Endpoints, key: NamespacedName) {
    a.key == key == b.key && NormalSubsets(a.subsets) == NormalSubsets(b.subsets)
  }

  /** What is held for a reported object is an earlier report of it with the same subsets. */
  ghost predicate SameSubsetsHeld(held: map<NamespacedName, Endpoints>, reported: map<NamespacedName, Endpoints>) {
    forall k :: k in reported ==> k in held && SameSubsets(held[k], reported[k], k)
  }

  lemma {:induction false} HeldSubsets(run: seq<Action>)
    requires PreviousIsReported(run)
    ensures SameSubsetsHeld(HoldAll(run).endpoints, ObserveAll(run).endpoints)
    decreases |run|
  {
    if run != [] {
      var n := |run| - 1;
      var shorter := run[..n];
      assert forall i :: 0 <= i < n ==> shorter[i] == run[i] && shorter[..i] == run[..i];
      HeldSubsets(shorter);
      ReportKeepsHeld(HoldAll(shorter), ObserveAll(shorter), run[n]);
    }
  }

  lemma {:induction false} ReportKeepsHeld(held: Reference, reported: Reference, a: Action)
    requires SameSubsetsHeld(held.endpoints, reported.endpoints)
    requires a.OnEndpoints? && a.endpoints.Update? && a.endpoints.o.key in reported.endpoints ==>
               a.endpoints.previous == reported.endpoints[a.endpoints.o.key]
    ensures SameSubsetsHeld(Hold(held, a).endpoints, Observe(reported, a).endpoints)
  {
    match a
    case OnView(w) =>
      WriteNames(held, w);
      WriteNames(reported, w);
    case OnV1(_) =>
    case OnV1Beta1(_) =>
    case OnEndpoints(op) => OperationKeepsHeld(held.endpoints, reported.endpoints, op);
    case Advance(_) =>
  }

  lemma OperationKeepsHeld(held: map<NamespacedName, Endpoints>, reported: map<NamespacedName, Endpoints>,
                           op: Operation<Endpoints>)
    requires SameSubsetsHeld(held, reported)
    requires op.Update? && op.o.key in reported ==> op.previous == reported[op.o.key]
    ensures SameSubsetsHeld(if op.Tombstone? || Skipped(op) then held else Reported(held, EndpointsKey, op),
                            Reported(reported, EndpointsKey, op))
  {
    var key := op.o.key;
    assert SameSubsets(op.o, op.o, key);
    if Skipped(op) && key in reported {
      assert SameSubsets(held[key], reported[key], key);
      assert SameSubsets(held[key], op.o, key);
    }
  }

  /** In every interleaving with such an informer, a quiescent Endpoints table has an entry for exactly the reported
      objects and those whose deletion was lost. For a reported one it serves the backends of the latest report exactly when
      the skipped updates since the held one were harmless; the whole object is right exactly when they also left the
      annotations alone. */
  lemma ServesReportIff(cfg: Config, run: seq<Action>, s: State, key: NamespacedName)
    requires Reaches(cfg, run, s) && PreviousIsReported(run)
    requires !Pending(s.resyncs, OfEndpoints) && !(cfg.autonomy && OfEndpoints in s.cleared)
    ensures key in s.endpoints <==> key in ObserveAll(run).endpoints || Lingers(run, OfTable(OfEndpoints), key)
    ensures var held, reported, v := HoldAll(run).endpoints, ObserveAll(run).endpoints, ViewOf(cfg, HoldAll(run));
            key in reported ==>
              var served, wanted := s.endpoints[key].modified, PruneEndpoints(cfg, v, reported[key]);
              && key in held
              && (NormalSubsets(served.subsets) == NormalSubsets(wanted.subsets) <==>
                    SkipHarmless(cfg, v, held[key], reported[key]))
              && (SameEndpoints(served, wanted) <==>
                    SkipHarmless(cfg, v, held[key], reported[key]) && held[key].annotations == reported[key].annotations)
  {
    ServesTheReference(cfg, run, s, OfEndpoints);
    HeldIff(run, OfTable(OfEndpoints), key);
    HeldSubsets(run);
    var held, reported := HoldAll(run).endpoints, ObserveAll(run).endpoints;
    if key in reported {
      SkippedUpdateIff(cfg, ViewOf(cfg, HoldAll(run)), held[key], reported[key]);
    }
  }

  /** Outside the cluster the backends of a reported object are always those of its latest report, under everything reported
      if the deletion of no node and no service was lost. */
  lemma OutsideServesReport(cfg: Config, run: seq<Action>, s: State, key: NamespacedName)
    requires Reaches(cfg, run, s) && PreviousIsReported(run) && !cfg.wrapperInCluster
    requires !Pending(s.resyncs, OfEndpoints) && !(cfg.autonomy && OfEndpoints in s.cleared)
    requires key in ObserveAll(run).endpoints
    ensures key in s.endpoints
    ensures NormalSubsets(s.endpoints[key].modified.subsets) ==
            NormalSubsets(PruneEndpoints(cfg, ViewOf(cfg, HoldAll(run)), ObserveAll(run).endpoints[key]).subsets)
    ensures NoneLingers(run, OfNodes) && NoneLingers(run, OfServices) ==>
              NormalSubsets(s.endpoints[key].modified.subsets) ==
              NormalSubsets(PruneEndpoints(cfg, ViewOf(cfg, ObserveAll(run)), ObserveAll(run).endpoints[key]).subsets)
  {
    ViewExactIff(cfg, run);
    ServesReportIff(cfg, run, s, key);
  }

  const MASTER_ENDPOINTS := Endpoints(MASTER, map[], Items([EndpointSubset(Items([EndpointAddress("10.0.0.1", None)]), Nil, [])]))
  const MASTER_LOCAL := MASTER_ENDPOINTS.(annotations := map[LOCAL_ENDPOINT := "169.254.20.11", LOCAL_PORT := "51003"])

  function Announced(): Action { OnEndpoints(Add(MASTER_ENDPOINTS)) }
  function Annotated(): Action { OnEndpoints(Update(MASTER_ENDPOINTS, MASTER_LOCAL)) }
  function AfterAnnotation(cfg: Config): State { Next(cfg, Next(cfg, INIT, Announced()), Annotated()) }

  /** The local-endpoint annotations are added to default/kubernetes in cluster: the update is skipped, nothing is pending,
      and the cache goes on serving the remote address, which is what the reported object prunes to under no view. */
  lemma LocalEndpointIgnored(cfg: Config, port: int)
    requires cfg.wrapperInCluster && cfg.isIP("169.254.20.11") && cfg.parsePort("51003") == Some(port)
    ensures Reaches(cfg, [Announced(), Annotated()], AfterAnnotation(cfg)) && PreviousIsReported([Announced(), Annotated()])
    ensures var s := AfterAnnotation(cfg);
            && s.resyncs == multiset{} && s.cleared == {} && MASTER in s.endpoints
            && ObserveAll([Announced(), Annotated()]).endpoints == map[MASTER := MASTER_LOCAL]
            && forall v :: NormalSubsets(s.endpoints[MASTER].modified.subsets) !=
                           NormalSubsets(PruneEndpoints(cfg, v, MASTER_LOCAL).subsets)
  {
    TwoSteps(cfg, Announced(), Annotated());
    TwoReports([Announced(), Annotated()]);
    var s := AfterAnnotation(cfg);
    assert s.endpoints == map[MASTER := Container(MASTER_ENDPOINTS, PruneEndpoints(cfg, INIT.view, MASTER_ENDPOINTS))] by {
      assert NormalSubsets(MASTER_ENDPOINTS.subsets) == NormalSubsets(MASTER_LOCAL.subsets);
    }
    forall v ensures NormalSubsets(s.endpoints[MASTER].modified.subsets) != NormalSubsets(PruneEndpoints(cfg, v, MASTER_LOCAL).subsets) {
      RemoteShown(cfg, INIT.view, v, port);
    }
  }

  lemma TwoSteps(cfg: Config, a: Action, b: Action)
    requires !a.Advance? && !b.Advance?
    ensures Reaches(cfg, [a, b], Next(cfg, Next(cfg, INIT, a), b))
  {
    assert [a, b][..1] == [a] && [a][..0] == [];
    assert Reaches(cfg, [], INIT);
    assert Reaches(cfg, [a], Next(cfg, INIT, a));
  }

  lemma TwoReports(run: seq<Action>)
    requires run == [Announced(), Annotated()]
    ensures PreviousIsReported(run) && ObserveAll(run).endpoints == map[MASTER := MASTER_LOCAL]
  {
    assert run[..1] == [run[0]] && run[..0] == [] && [run[0]][..0] == [];
    assert ObserveAll([run[0]]) == Observe(ObserveAll([]), run[0]);
    assert ObserveAll(run) == Observe(ObserveAll(run[..1]), run[1]);
  }

  /** The two objects never show the same ports. */
  lemma RemoteShown(cfg: Config, v: View, w: View, port: int)
    requires cfg.wrapperInCluster && cfg.isIP("169.254.20.11") && cfg.parsePort("51003") == Some(port)
    ensures NormalSubsets(PruneEndpoints(cfg, v, MASTER_ENDPOINTS).subsets) != NormalSubsets(PruneEndpoints(cfg, w, MASTER_LOCAL).subsets)
  {
    assert |LOCAL_ENDPOINT| != |LOCAL_PORT|;
    assert Replacement(cfg, MASTER_LOCAL) == Some(("169.254.20.11", Port("https", port, "TCP")));
    assert Replacement(cfg, MASTER_ENDPOINTS) == None;
    ServedSubsets(cfg, v, MASTER_ENDPOINTS);
    ServedSubsets(cfg, w, MASTER_LOCAL);
    assert OwnSubsets(cfg, v, MASTER_ENDPOINTS)[0].ports == [];
  }

  function AfterTombstone(cfg: Config): State {
    Next(cfg, Next(cfg, INIT, Announced()), OnEndpoints(Tombstone(MASTER_ENDPOINTS)))
  }

  /** A deletion reported as a tombstone: nothing is pending, no object is reported any more, and the cache goes on serving
      the entry. */
  lemma TombstoneIgnored(cfg: Config)
    ensures var run, s := [Announced(), OnEndpoints(Tombstone(MASTER_ENDPOINTS))], AfterTombstone(cfg);
            && Reaches(cfg, run, s) && s.resyncs == multiset{} && s.cleared == {}
            && ObserveAll(run) == NOTHING && Lingers(run, OfTable(OfEndpoints), MASTER) && MASTER in s.endpoints
  {
    var run := [Announced(), OnEndpoints(Tombstone(MASTER_ENDPOINTS))];
    TwoSteps(cfg, run[0], run[1]);
    assert run[..1] == [run[0]] && [run[0]][..0] == [];
    assert ObserveAll([run[0]]) == Observe(ObserveAll([]), run[0]);
    assert ObserveAll(run) == Observe(ObserveAll(run[..1]), run[1]);
    assert LostAt(run, 1, OfTable(OfEndpoints), MASTER);
  }
}
