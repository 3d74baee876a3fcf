/** What the published events tell a watcher, besides what they add up to: which kind of event, and about what. */
module CacheEvents {
  import opened Basics
  import opened Objects
  import opened Prune
  import opened CacheTable
  import opened CacheCoherence
  import opened CacheReplay
  import opened CacheDelivery

  /** The event makes sense to a watcher holding `seen`: Modified tells something new of an object it holds, Deleted gives
      back the very copy it holds. */
  ghost predicate Sensible<O>(keyOf: O -> NamespacedName, same: (O, O) -> bool, seen: map<NamespacedName, O>, e: Event<O>) {
    match e.typ
    case Added => true
    case Modified => keyOf(e.obj) in seen && !same(seen[keyOf(e.obj)], e.obj)
    case Deleted => keyOf(e.obj) in seen && seen[keyOf(e.obj)] == e.obj
  }

  ghost predicate AllSensible<O>(keyOf: O -> NamespacedName, same: (O, O) -> bool, seen: map<NamespacedName, O>,
                                 events: seq<Event<O>>) {
    forall n :: 0 <= n < |events| ==> Sensible(keyOf, same, Replay(keyOf, seen, events[..n]), events[n])
  }

  lemma SensibleConcat<O>(keyOf: O -> NamespacedName, same: (O, O) -> bool, seen: map<NamespacedName, O>, a: seq<Event<O>>,
                          b: seq<Event<O>>)
    requires AllSensible(keyOf, same, seen, a) && AllSensible(keyOf, same, Replay(keyOf, seen, a), b)
    ensures AllSensible(keyOf, same, seen, a + b)
  {
    var all := a + b;
    forall n | 0 <= n < |all| ensures Sensible(keyOf, same, Replay(keyOf, seen, all[..n]), all[n]) {
      if n < |a| {
        assert all[..n] == a[..n] && all[n] == a[n];
      } else {
        var m := n - |a|;
        assert all[..n] == a + b[..m] && all[n] == b[m];
        ReplayConcat(keyOf, seen, a, b[..m]);
      }
    }
  }

  lemma OperationSensible<O(!new)>(k: Kernel<O>, t: Table<O>, op: Operation<O>)
    requires Lawful(k) && Filed(k, t)
    ensures AllSensible(k.keyOf, k.same, Published(t), OperationEvents(k, t, op))
  {
    var events := OperationEvents(k, t, op);
    assert k.keyOf(k.prune(op.o)) == k.keyOf(op.o);
    forall n | 0 <= n < |events| ensures Sensible(k.keyOf, k.same, Replay(k.keyOf, Published(t), events[..n]), events[n]) {
      assert n == 0 && events[..0] == [];
    }
  }

  lemma RebuildSensible<O(!new)>(k: Kernel<O>, t: Table<O>, t': Table<O>, events: seq<Event<O>>)
    requires RebuildLog(k, t, t', events)
    ensures AllSensible(k.keyOf, k.same, Published(t), events)
  {
    forall n | 0 <= n < |events| ensures Sensible(k.keyOf, k.same, Replay(k.keyOf, Published(t), events[..n]), events[n]) {
      var before, key := events[..n], k.keyOf(events[n].obj);
      ReplayModified(k.keyOf, Published(t), before);
      assert forall i :: 0 <= i < |before| ==> k.keyOf(before[i].obj) != key;
    }
  }

  lemma EndpointsStepSensible(cfg: Config, s: State, a: Action, e: seq<Event<Endpoints>>, v: seq<Event<SliceV1>>)
    requires StepLog(cfg, s, a, e, v) && Filed(EndpointsKernel(cfg, s.view), s.endpoints)
    ensures AllSensible(EndpointsKey, SameEndpoints, Published(s.endpoints), e)
  {
    KernelsLawful(cfg, s.view);
    var k := EndpointsKernel(cfg, s.view);
    match a
    case OnEndpoints(op) => OperationSensible(k, s.endpoints, op);
    case Advance(Rebuilding(OfEndpoints)) => RebuildSensible(k, s.endpoints, Rebuild(k, s.endpoints), e);
    case _ =>
  }

  lemma V1StepSensible(cfg: Config, s: State, a: Action, e: seq<Event<Endpoints>>, v: seq<Event<SliceV1>>)
    requires StepLog(cfg, s, a, e, v) && Filed(V1Kernel(cfg, s.view), s.v1)
    ensures AllSensible(V1Key, SameSliceV1, Published(s.v1), v)
  {
    KernelsLawful(cfg, s.view);
    var k := V1Kernel(cfg, s.view);
    match a
    case OnV1(op) => OperationSensible(k, s.v1, op);
    case Advance(Rebuilding(OfV1)) => RebuildSensible(k, s.v1, Rebuild(k, s.v1), v);
    case _ =>
  }

  /** In every interleaving, read in the order of the locked sections, every Modified event tells a watcher something new of
      an object it holds, and every Deleted event gives back the very copy it holds. */
  lemma {:induction false} LogIsSensible(cfg: Config, h: History)
    requires Possible(cfg, h)
    ensures AllSensible(EndpointsKey, SameEndpoints, map[], EndpointsLog(h))
    ensures AllSensible(V1Key, SameSliceV1, map[], V1Log(h))
  {
    if h.Then? {
      LogIsSensible(cfg, h.before);
      LogReplays(cfg, h.before);
      var s := StateOf(cfg, h.before);
      EndpointsStepSensible(cfg, s, h.action, h.endpoints, h.v1);
      V1StepSensible(cfg, s, h.action, h.endpoints, h.v1);
      SensibleConcat(EndpointsKey, SameEndpoints, map[], EndpointsLog(h.before), h.endpoints);
      SensibleConcat(V1Key, SameSliceV1, map[], V1Log(h.before), h.v1);
    }
  }

  /** Added events come from added objects and Deleted ones from deleted objects, one each; all others are Modified. */
  lemma EventKinds(cfg: Config, s: State, a: Action, e: seq<Event<Endpoints>>, v: seq<Event<SliceV1>>)
    requires StepLog(cfg, s, a, e, v)
    ensures forall i :: 0 <= i < |e| ==>
              && (e[i].typ == Added <==> a.OnEndpoints? && a.endpoints.Add?)
              && (e[i].typ == Deleted <==> a.OnEndpoints? && a.endpoints.Delete?)
    ensures forall i :: 0 <= i < |v| ==>
              && (v[i].typ == Added <==> a.OnV1? && a.v1.Add?)
              && (v[i].typ == Deleted <==> a.OnV1? && a.v1.Delete?)
    ensures a.OnEndpoints? && a.endpoints.Add? ==> |e| == 1 && e[0].obj.key == a.endpoints.o.key
    ensures a.OnV1? && a.v1.Add? ==> |v| == 1 && v[0].obj.key == a.v1.o.key
    ensures a.OnEndpoints? && a.endpoints.Delete? ==> (|e| == 1 <==> a.endpoints.o.key in s.endpoints)
    ensures a.OnV1? && a.v1.Delete? ==> (|v| == 1 <==> a.v1.o.key in s.v1)
  {
    match a
    case OnEndpoints(_) =>
    case OnV1(_) =>
    case OnV1Beta1(_) =>
    case OnView(_) =>
    case Advance(_) =>
  }
}
