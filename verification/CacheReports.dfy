/** The reference itself, said object by object: the last report about an object decides. */
module CacheReports {
  import opened Basics
  import opened Objects
  import opened Prune
  import opened CacheTable
  import opened CacheCoherence
  import opened CacheReference

  datatype Thing =
    | ANode(node: Node) | AService(svc: Service)
    | AV1(v1: SliceV1) | AV1Beta1(v1beta1: SliceV1Beta1) | AnEndpoints(endpoints: Endpoints)

  /** What an action says about the objects of one kind. */
  datatype Word = Nothing | There(key: NamespacedName, thing: Thing) | Changed(key: NamespacedName, thing: Thing) | Gone(key: NamespacedName)

  function NodeWord(w: Write): Word {
    match w
    case NodeAdd(n) => There(n.key, ANode(n))
    case NodeUpdate(n) => Changed(n.key, ANode(n))
    case NodeDelete(n) => Gone(n.key)
    case NodeTombstone(n) => Gone(n.key)
    case _ => Nothing
  }

  function ServiceWord(w: Write): Word {
    match w
    case ServiceAdd(s) => There(s.key, AService(s))
    case ServiceUpdate(s) => Changed(s.key, AService(s))
    case ServiceDelete(s) => Gone(s.key)
    case ServiceTombstone(s) => Gone(s.key)
    case _ => Nothing
  }

  function OperationWord<O>(op: Operation<O>, keyOf: O -> NamespacedName, thing: O -> Thing): Word {
    match op
    case Add(o) => There(keyOf(o), thing(o))
    case Update(_, o) => Changed(keyOf(o), thing(o))
    case Delete(o) => Gone(keyOf(o))
    case Tombstone(o) => Gone(keyOf(o))
  }

  function Says(a: Action, subject: Subject): Word {
    match subject
    case OfNodes => if a.OnView? then NodeWord(a.write) else Nothing
    case OfServices => if a.OnView? then ServiceWord(a.write) else Nothing
    case OfTable(OfV1) => if a.OnV1? then OperationWord(a.v1, (o: SliceV1) => o.key, o => AV1(o)) else Nothing
    case OfTable(OfV1Beta1) =>
      if a.OnV1Beta1? then OperationWord(a.v1beta1, (o: SliceV1Beta1) => o.key, o => AV1Beta1(o)) else Nothing
    case OfTable(OfEndpoints) =>
      if a.OnEndpoints? then OperationWord(a.endpoints, (o: Endpoints) => o.key, o => AnEndpoints(o)) else Nothing
  }

  predicate About(w: Word, key: NamespacedName) { !w.Nothing? && w.key == key }

  function Entry<O>(m: map<NamespacedName, O>, key: NamespacedName, thing: O -> Thing): Option<Thing> {
    if key in m then Some(thing(m[key])) else None
  }

  function ThingIn(r: Reference, subject: Subject, key: NamespacedName): Option<Thing> {
    match subject
    case OfNodes => Entry(r.nodes, key, n => ANode(n))
    case OfServices => Entry(r.services, key, s => AService(s))
    case OfTable(OfV1) => Entry(r.v1, key, o => AV1(o))
    case OfTable(OfV1Beta1) => Entry(r.v1beta1, key, o => AV1Beta1(o))
    case OfTable(OfEndpoints) => Entry(r.endpoints, key, o => AnEndpoints(o))
  }

  /** A change of an object that is not there says nothing. */
  function Upon(seen: Option<Thing>, w: Word, key: NamespacedName): Option<Thing> {
    if !About(w, key) then seen
    else match w
      case There(_, t) => Some(t)
      case Changed(_, t) => if seen.Some? then Some(t) else None
      case _ => None
  }

  lemma OperationUpon<O>(m: map<NamespacedName, O>, keyOf: O -> NamespacedName, read: O -> NamespacedName, op: Operation<O>,
                         thing: O -> Thing, key: NamespacedName)
    requires forall o :: keyOf(o) == read(o)
    ensures Entry(Reported(m, keyOf, op), key, thing) == Upon(Entry(m, key, thing), OperationWord(op, read, thing), key)
  {
    match op
    case Add(_) =>
    case Update(_, _) =>
    case Delete(_) =>
    case Tombstone(_) =>
  }

  lemma NodeUpon(r: Reference, w: Write, key: NamespacedName)
    ensures ThingIn(ObserveWrite(r, w), OfNodes, key) == Upon(ThingIn(r, OfNodes, key), NodeWord(w), key)
  {
    match w
    case NodeAdd(_) =>
    case NodeUpdate(_) =>
    case NodeDelete(_) =>
    case NodeTombstone(_) =>
    case _ => assert ObserveWrite(r, w).nodes == r.nodes;
  }

  lemma ServiceUpon(r: Reference, w: Write, key: NamespacedName)
    ensures ThingIn(ObserveWrite(r, w), OfServices, key) == Upon(ThingIn(r, OfServices, key), ServiceWord(w), key)
  {
    match w
    case ServiceAdd(_) =>
    case ServiceUpdate(_) =>
    case ServiceDelete(_) =>
    case ServiceTombstone(_) =>
    case _ => assert ObserveWrite(r, w).services == r.services;
  }

  lemma ObserveUpon(r: Reference, a: Action, subject: Subject, key: NamespacedName)
    ensures ThingIn(Observe(r, a), subject, key) == Upon(ThingIn(r, subject, key), Says(a, subject), key)
  {
    match a
    case OnView(w) =>
      NodeUpon(r, w, key);
      ServiceUpon(r, w, key);
      WriteNames(r, w);
    case OnV1(op) => OperationUpon(r.v1, V1Key, (o: SliceV1) => o.key, op, o => AV1(o), key);
    case OnV1Beta1(op) => OperationUpon(r.v1beta1, V1Beta1Key, (o: SliceV1Beta1) => o.key, op, o => AV1Beta1(o), key);
    case OnEndpoints(op) => OperationUpon(r.endpoints, EndpointsKey, (o: Endpoints) => o.key, op, o => AnEndpoints(o), key);
    case Advance(_) =>
  }

  /** What is reported of an object is what the last report about it said: the object, or nothing if it was deleted or if a
      change was reported of an object that was not there. */
  lemma {:induction false} LastReportDecides(run: seq<Action>, n: nat, subject: Subject, key: NamespacedName)
    requires n < |run| && About(Says(run[n], subject), key)
    requires forall m :: n < m < |run| ==> !About(Says(run[m], subject), key)
    ensures var w, before := Says(run[n], subject), ThingIn(ObserveAll(run[..n]), subject, key);
            ThingIn(ObserveAll(run), subject, key) ==
            if w.There? || (w.Changed? && before.Some?) then Some(w.thing) else None
    decreases |run|
  {
    var last := |run| - 1;
    ObserveUpon(ObserveAll(run[..last]), run[last], subject, key);
    if n < last {
      var shorter := run[..last];
      assert shorter[n] == run[n] && shorter[..n] == run[..n];
      assert forall m :: n < m < |shorter| ==> shorter[m] == run[m];
      LastReportDecides(shorter, n, subject, key);
    }
  }

  /** And nothing is reported of an object that no report was about. */
  lemma {:induction false} NothingFromNothing(run: seq<Action>, subject: Subject, key: NamespacedName)
    requires forall m :: 0 <= m < |run| ==> !About(Says(run[m], subject), key)
    ensures ThingIn(ObserveAll(run), subject, key) == None
    decreases |run|
  {
    if run != [] {
      var last := |run| - 1;
      ObserveUpon(ObserveAll(run[..last]), run[last], subject, key);
      assert forall m :: 0 <= m < last ==> run[..last][m] == run[m];
      NothingFromNothing(run[..last], subject, key);
    }
  }

  /** The health reports are those of the last SetLocalNodeInfo, and none after a clear. */
  lemma {:induction false} LastHealth(run: seq<Action>)
    requires run != []
    ensures var a, before := run[|run| - 1], ObserveAll(run[..|run| - 1]).health;
            ObserveAll(run).health ==
            if a.OnView? && a.write.SetLocalNodeInfo? then a.write.info
            else if a.OnView? && a.write.ClearLocalNodeInfo? then map[]
            else before
  {
    var r, a := ObserveAll(run[..|run| - 1]), run[|run| - 1];
    if a.OnView? { HealthAfter(r, a.write); }
  }

  lemma HealthAfter(r: Reference, w: Write)
    ensures ObserveWrite(r, w).health ==
            if w.SetLocalNodeInfo? then w.info else if w.ClearLocalNodeInfo? then map[] else r.health
  {
    match w
    case NodeAdd(_) =>
    case NodeUpdate(_) =>
    case NodeDelete(_) =>
    case NodeTombstone(_) =>
    case ServiceAdd(_) =>
    case ServiceUpdate(_) =>
    case ServiceDelete(_) =>
    case ServiceTombstone(_) =>
    case SetLocalNodeInfo(_) =>
    case ClearLocalNodeInfo =>
  }

  // ---- What is held ----

  /** A report every handler returns from at once: a tombstone, or an Endpoints update with equal subsets. */
  predicate Returns(a: Action) {
    || (a.OnView? && (a.write.NodeTombstone? || a.write.ServiceTombstone?))
    || (a.OnV1? && a.v1.Tombstone?) || (a.OnV1Beta1? && a.v1beta1.Tombstone?) || (a.OnEndpoints? && a.endpoints.Tombstone?)
    || (a.OnEndpoints? && a.endpoints.Update?
        && NormalSubsets(a.endpoints.previous.subsets) == NormalSubsets(a.endpoints.o.subsets))
  }

  /** The other reports. */
  function Taken(run: seq<Action>): seq<Action> {
    if run == [] then []
    else Taken(run[..|run| - 1]) + if Returns(run[|run| - 1]) then [] else [run[|run| - 1]]
  }

  /** What is held is what is reported once those are left out, so the last report that was taken decides. */
  lemma {:induction false} HeldIsTaken(run: seq<Action>)
    ensures HoldAll(run) == ObserveAll(Taken(run))
    decreases |run|
  {
    if run != [] {
      var shorter, a := run[..|run| - 1], run[|run| - 1];
      HeldIsTaken(shorter);
      assert Returns(a) == Dropped(a);
      if Returns(a) {
        assert Taken(run) == Taken(shorter);
      } else {
        assert Taken(run) == Taken(shorter) + [a] && Taken(run)[..|Taken(run)| - 1] == Taken(shorter);
      }
    }
  }
}
