/** storageCache itself: the maps it mutates, its handlers run to completion, and its rebuild loops. Each method is
    tied to the steps of CacheCoherence, about which the coherence and replay theorems are proved. */
module StorageCache {
  import opened Objects
  import opened Prune
  import opened CacheTable
  import opened CacheCoherence
  import opened CacheReplay

  class StorageCache {
    const cfg: Config
    var nodesMap: map<NamespacedName, NodeContainer>
    var servicesMap: map<NamespacedName, ServiceContainer>
    var localNodeInfo: map<string, ResultDetail>
    var endpointsMap: Table<Endpoints>
    var sliceV1Map: Table<SliceV1>
    var sliceV1Beta1Map: Table<SliceV1Beta1>

    function Current(): View
      reads this
    {
      View(nodesMap, servicesMap, localNodeInfo)
    }

    /** The cache between handler calls, as a state of the interleaving model. */
    ghost function Abs(): State
      reads this
    {
      State(Current(), sliceV1Map, sliceV1Beta1Map, endpointsMap, multiset{}, {})
    }

    ghost predicate Valid()
      reads this
    {
      && Filed(V1Kernel(cfg, Current()), sliceV1Map) && Filed(V1Beta1Kernel(cfg, Current()), sliceV1Beta1Map)
      && Filed(EndpointsKernel(cfg, Current()), endpointsMap)
    }

    constructor (cfg: Config)
      ensures Valid() && Abs() == INIT && this.cfg == cfg
    {
      this.cfg := cfg;
      nodesMap, servicesMap, localNodeInfo := map[], map[], map[];
      endpointsMap, sliceV1Map, sliceV1Beta1Map := map[], map[], map[];
    }

    method RebuildEndpointsMap() returns (events: seq<Event<Endpoints>>)
      requires Valid()
      modifies this`endpointsMap
      ensures Valid() && endpointsMap == Rebuild(EndpointsKernel(cfg, Current()), old(endpointsMap))
      ensures RebuildLog(EndpointsKernel(cfg, Current()), old(endpointsMap), endpointsMap, events)
    {
      KernelsLawful(cfg, Current());
      var k := EndpointsKernel(cfg, Current());
      RebuildKeepsFiling(k, endpointsMap);
      endpointsMap, events := RebuildTable(k, endpointsMap);
    }

    method RebuildEndpointSliceV1Map() returns (events: seq<Event<SliceV1>>)
      requires Valid()
      modifies this`sliceV1Map
      ensures Valid() && sliceV1Map == Rebuild(V1Kernel(cfg, Current()), old(sliceV1Map))
      ensures RebuildLog(V1Kernel(cfg, Current()), old(sliceV1Map), sliceV1Map, events)
    {
      KernelsLawful(cfg, Current());
      var k := V1Kernel(cfg, Current());
      RebuildKeepsFiling(k, sliceV1Map);
      sliceV1Map, events := RebuildTable(k, sliceV1Map);
    }

    method RebuildEndpointSliceV1Beta1Map() returns (events: seq<Event<SliceV1Beta1>>)
      requires Valid()
      modifies this`sliceV1Beta1Map
      ensures Valid() && sliceV1Beta1Map == Rebuild(V1Beta1Kernel(cfg, Current()), old(sliceV1Beta1Map))
      ensures RebuildLog(V1Beta1Kernel(cfg, Current()), old(sliceV1Beta1Map), sliceV1Beta1Map, events)
    {
      KernelsLawful(cfg, Current());
      var k := V1Beta1Kernel(cfg, Current());
      RebuildKeepsFiling(k, sliceV1Beta1Map);
      sliceV1Beta1Map, events := RebuildTable(k, sliceV1Beta1Map);
    }

    /** All three tables come out coherent with the view, and the events account for every change. */
    method Resync() returns (endpoints: seq<Event<Endpoints>>, v1: seq<Event<SliceV1>>)
      requires Valid()
      modifies this`endpointsMap, this`sliceV1Map, this`sliceV1Beta1Map
      ensures Valid()
      ensures endpointsMap == Rebuild(EndpointsKernel(cfg, Current()), old(endpointsMap))
      ensures sliceV1Map == Rebuild(V1Kernel(cfg, Current()), old(sliceV1Map))
      ensures sliceV1Beta1Map == Rebuild(V1Beta1Kernel(cfg, Current()), old(sliceV1Beta1Map))
      ensures RebuildLog(EndpointsKernel(cfg, Current()), old(endpointsMap), endpointsMap, endpoints)
      ensures RebuildLog(V1Kernel(cfg, Current()), old(sliceV1Map), sliceV1Map, v1)
    {
      v1 := ResyncV1();
      ResyncV1Beta1();
      endpoints := ResyncEndpoints();
    }

    method ResyncV1() returns (events: seq<Event<SliceV1>>)
      requires Valid()
      modifies this`sliceV1Map
      ensures Valid() && sliceV1Map == Rebuild(V1Kernel(cfg, Current()), old(sliceV1Map))
      ensures RebuildLog(V1Kernel(cfg, Current()), old(sliceV1Map), sliceV1Map, events)
    {
      if |sliceV1Map| > 0 {
        events := RebuildEndpointSliceV1Map();
      } else {
        EmptyRebuild(V1Kernel(cfg, Current()), sliceV1Map);
        events := [];
      }
    }

    /** The events of this rebuild go to the v1 broadcaster, so no stream of v1beta1 events results. */
    method ResyncV1Beta1()
      requires Valid()
      modifies this`sliceV1Beta1Map
      ensures Valid() && sliceV1Beta1Map == Rebuild(V1Beta1Kernel(cfg, Current()), old(sliceV1Beta1Map))
    {
      if |sliceV1Beta1Map| > 0 {
        var misdirected := RebuildEndpointSliceV1Beta1Map();
      } else {
        EmptyRebuild(V1Beta1Kernel(cfg, Current()), sliceV1Beta1Map);
      }
    }

    method ResyncEndpoints() returns (events: seq<Event<Endpoints>>)
      requires Valid()
      modifies this`endpointsMap
      ensures Valid() && endpointsMap == Rebuild(EndpointsKernel(cfg, Current()), old(endpointsMap))
      ensures RebuildLog(EndpointsKernel(cfg, Current()), old(endpointsMap), endpointsMap, events)
    {
      if |endpointsMap| > 0 {
        events := RebuildEndpointsMap();
      } else {
        EmptyRebuild(EndpointsKernel(cfg, Current()), endpointsMap);
        events := [];
      }
    }

    /** nodeHandler and serviceHandler add, update and delete, and SetLocalNodeInfo and ClearLocalNodeInfo: the
        locked write, then the resync unless the handler returns early. */
    method HandleWrite(w: Write) returns (endpoints: seq<Event<Endpoints>>, v1: seq<Event<SliceV1>>)
      requires Valid()
      modifies this
      ensures Valid()
      ensures AtomicStep(cfg, old(Abs()), OnView(w), Abs(), endpoints, v1)
    {
      ghost var before := Abs();
      var resync := WriteFiled(w);
      endpoints, v1 := [], [];
      if resync {
        endpoints, v1 := ResyncAfter(w, before);
      } else {
        QuietStep(cfg, before, w, Abs());
      }
    }

    method ResyncAfter(w: Write, ghost before: State) returns (endpoints: seq<Event<Endpoints>>, v1: seq<Event<SliceV1>>)
      requires Valid() && WriteView(cfg, before.view, w) == (Current(), true)
      requires before.v1 == sliceV1Map && before.v1beta1 == sliceV1Beta1Map && before.endpoints == endpointsMap
      modifies this`endpointsMap, this`sliceV1Map, this`sliceV1Beta1Map
      ensures Valid() && AtomicStep(cfg, before, OnView(w), Abs(), endpoints, v1)
    {
      endpoints, v1 := Resync();
      ResyncStep(cfg, before, w, Abs(), endpoints, v1);
    }

    method WriteFiled(w: Write) returns (resync: bool)
      requires Valid()
      modifies this`nodesMap, this`servicesMap, this`localNodeInfo
      ensures Valid() && (Current(), resync) == WriteView(cfg, old(Current()), w)
    {
      ghost var before := Abs();
      resync := WriteLocked(w);
      FiledInAnyView(cfg, before, Current());
    }

    method WriteLocked(w: Write) returns (resync: bool)
      modifies this`nodesMap, this`servicesMap, this`localNodeInfo
      ensures (Current(), resync) == WriteView(cfg, old(Current()), w)
    {
      resync := true;
      match w
      case NodeAdd(node) =>
        nodesMap := nodesMap[node.key := NodeContainer(node, node.labels)];
      case NodeUpdate(node) =>
        if node.key !in nodesMap { return false; }
        var container := nodesMap[node.key];
        nodesMap := nodesMap[node.key := container.(node := node)];
        if node.labels == container.labels { return false; }
        nodesMap := nodesMap[node.key := NodeContainer(node, node.labels)];
        assert nodesMap == old(nodesMap)[node.key := NodeContainer(node, node.labels)];
      case NodeDelete(node) =>
        nodesMap := nodesMap - {node.key};
      case NodeTombstone(_) =>
        resync := false;
      case ServiceAdd(svc) =>
        servicesMap := servicesMap[svc.key := ServiceContainer(svc, TopologyKeys(cfg, svc.annotations))];
      case ServiceUpdate(svc) =>
        var keys := TopologyKeys(cfg, svc.annotations);
        if svc.key !in servicesMap { return false; }
        var container := servicesMap[svc.key];
        servicesMap := servicesMap[svc.key := container.(svc := svc)];
        if container.keys == keys { return false; }
        servicesMap := servicesMap[svc.key := ServiceContainer(svc, keys)];
        assert servicesMap == old(servicesMap)[svc.key := ServiceContainer(svc, keys)];
      case ServiceDelete(svc) =>
        servicesMap := servicesMap - {svc.key};
      case ServiceTombstone(_) =>
        resync := false;
      case SetLocalNodeInfo(info) =>
        localNodeInfo := info;
      case ClearLocalNodeInfo =>
        localNodeInfo := map[];
        resync := false;
    }

    method AddEndpoints(o: Endpoints) returns (events: seq<Event<Endpoints>>)
      requires Valid()
      modifies this`endpointsMap
      ensures Valid() && AtomicStep(cfg, old(Abs()), OnEndpoints(Add(o)), Abs(), events, [])
    {
      ghost var k := EndpointsKernel(cfg, Current());
      KernelsLawful(cfg, Current());
      KeepsFiling(k, endpointsMap, Add(o));
      var newEps := PruneEndpointsLoop(cfg, Current(), o);
      endpointsMap := endpointsMap[o.key := Container(o, newEps)];
      events := [Event(Added, newEps)];
    }

    /** OnUpdate's test on the subsets, then update. */
    method UpdateEndpoints(previous: Endpoints, o: Endpoints) returns (events: seq<Event<Endpoints>>)
      requires Valid()
      modifies this`endpointsMap
      ensures Valid() && AtomicStep(cfg, old(Abs()), OnEndpoints(Update(previous, o)), Abs(), events, [])
    {
      ghost var k := EndpointsKernel(cfg, Current());
      KernelsLawful(cfg, Current());
      KeepsFiling(k, endpointsMap, Update(previous, o));
      events := [];
      if NormalSubsets(previous.subsets) == NormalSubsets(o.subsets) { return; }
      if o.key !in endpointsMap { return; }
      var container := endpointsMap[o.key];
      var newEps := PruneEndpointsLoop(cfg, Current(), o);
      var changed := !SameEndpoints(container.modified, newEps);
      endpointsMap := endpointsMap[o.key := Container(o, if changed then newEps else container.modified)];
      if changed {
        events := [Event(Modified, newEps)];
      }
    }

    method DeleteEndpoints(o: Endpoints) returns (events: seq<Event<Endpoints>>)
      requires Valid()
      modifies this`endpointsMap
      ensures Valid() && AtomicStep(cfg, old(Abs()), OnEndpoints(Delete(o)), Abs(), events, [])
    {
      ghost var k := EndpointsKernel(cfg, Current());
      KernelsLawful(cfg, Current());
      KeepsFiling(k, endpointsMap, Delete(o));
      events := [];
      if o.key !in endpointsMap {
        assert endpointsMap - {o.key} == endpointsMap;
        return;
      }
      events := [Event(Deleted, endpointsMap[o.key].modified)];
      endpointsMap := endpointsMap - {o.key};
    }

    /** OnDelete's type test, then delete. */
    method OnDeleteEndpoints(o: Endpoints, tombstone: bool) returns (events: seq<Event<Endpoints>>)
      requires Valid()
      modifies this`endpointsMap
      ensures Valid()
      ensures AtomicStep(cfg, old(Abs()), OnEndpoints(if tombstone then Tombstone(o) else Delete(o)), Abs(), events, [])
    {
      events := [];
      if !tombstone {
        events := DeleteEndpoints(o);
      }
    }
  }

  lemma ResyncStep(cfg: Config, s: State, w: Write, s': State, endpoints: seq<Event<Endpoints>>, v1: seq<Event<SliceV1>>)
    requires WriteView(cfg, s.view, w) == (s'.view, true)
    requires s'.v1 == Rebuild(V1Kernel(cfg, s'.view), s.v1) && RebuildLog(V1Kernel(cfg, s'.view), s.v1, s'.v1, v1)
    requires s'.endpoints == Rebuild(EndpointsKernel(cfg, s'.view), s.endpoints)
    requires RebuildLog(EndpointsKernel(cfg, s'.view), s.endpoints, s'.endpoints, endpoints)
    requires s'.v1beta1 == Rebuild(V1Beta1Kernel(cfg, s'.view), s.v1beta1)
    ensures AtomicStep(cfg, s, OnView(w), s', endpoints, v1)
  {}

  lemma QuietStep(cfg: Config, s: State, w: Write, s': State)
    requires WriteView(cfg, s.view, w) == (s'.view, false)
    requires s'.v1 == s.v1 && s'.v1beta1 == s.v1beta1 && s'.endpoints == s.endpoints
    ensures AtomicStep(cfg, s, OnView(w), s', [], [])
  {}

  lemma EmptyRebuild<O>(k: Kernel<O>, t: Table<O>)
    requires |t| == 0
    ensures Rebuild(k, t) == t && RebuildLog(k, t, t, [])
  {}

  lemma FiledInAnyView(cfg: Config, s: State, v: View)
    ensures Filed(V1Kernel(cfg, s.view), s.v1) ==> Filed(V1Kernel(cfg, v), s.v1)
    ensures Filed(V1Beta1Kernel(cfg, s.view), s.v1beta1) ==> Filed(V1Beta1Kernel(cfg, v), s.v1beta1)
    ensures Filed(EndpointsKernel(cfg, s.view), s.endpoints) ==> Filed(EndpointsKernel(cfg, v), s.endpoints)
  {}
}
