/** The watch events the cache publishes, and what a watcher who applies them ends up with
    (cache.go:220-284, endpoints_handler.go, endpointslicev1_handler.go). */
module CacheReplay {
  import opened Objects
  import opened Prune
  import opened CacheTable
  import opened CacheCoherence

  datatype EventType = Added | Modified | Deleted
  datatype Event<O> = Event(typ: EventType, obj: O)

  /** What the cache currently serves. */
  function Published<O>(t: Table<O>): map<NamespacedName, O> { map key | key in t :: t[key].modified }

  /** A watcher's copy after applying events in order. */
  function Replay<O>(keyOf: O -> NamespacedName, seen: map<NamespacedName, O>, events: seq<Event<O>>): map<NamespacedName, O>
    decreases |events|
  {
    if events == [] then seen
    else
      var e := events[0];
      var key := keyOf(e.obj);
      Replay(keyOf, if e.typ.Deleted? then seen - {key} else seen[key := e.obj], events[1..])
  }

  lemma {:induction false} ReplayConcat<O>(keyOf: O -> NamespacedName, seen: map<NamespacedName, O>, a: seq<Event<O>>, b: seq<Event<O>>)
    ensures Replay(keyOf, seen, a + b) == Replay(keyOf, Replay(keyOf, seen, a), b)
    decreases |a|
  {
    if a == [] {
      assert a + b == b;
    } else {
      var e := a[0];
      var key := keyOf(e.obj);
      assert (a + b)[1..] == a[1..] + b;
      ReplayConcat(keyOf, if e.typ.Deleted? then seen - {key} else seen[key := e.obj], a[1..], b);
    }
  }

  /** The events of one handler call. */
  function OperationEvents<O>(k: Kernel<O>, t: Table<O>, op: Operation<O>): seq<Event<O>> {
    var key := k.keyOf(op.o);
    match op
    case Add(o) => [Event(Added, k.prune(o))]
    case Delete(_) => if key in t then [Event(Deleted, t[key].modified)] else []
    case Tombstone(_) => []
    case Update(previous, o) =>
      if k.ignores(previous, o) || key !in t || k.same(t[key].modified, k.prune(o)) then []
      else [Event(Modified, k.prune(o))]
  }

  /** The events of a rebuild: one Modified per entry whose copy changed, and for no other, in any order. */
  ghost predicate RebuildLog<O>(k: Kernel<O>, t: Table<O>, t': Table<O>, events: seq<Event<O>>) {
    && t.Keys == t'.Keys
    && (forall i :: 0 <= i < |events| ==>
          && events[i].typ == Modified && k.keyOf(events[i].obj) in t'
          && t'[k.keyOf(events[i].obj)].modified == events[i].obj
          && !k.same(t[k.keyOf(events[i].obj)].modified, events[i].obj))
    && (forall i, j :: 0 <= i < j < |events| ==> k.keyOf(events[i].obj) != k.keyOf(events[j].obj))
    && (forall key :: key in t && t[key].modified != t'[key].modified ==>
          exists i :: 0 <= i < |events| && k.keyOf(events[i].obj) == key)
  }

  /** The loop of the three rebuild*Map functions: map iteration order is left open. */
  method RebuildTable<O(!new)>(k: Kernel<O>, t: Table<O>) returns (t': Table<O>, events: seq<Event<O>>)
    requires Lawful(k) && Filed(k, t)
    ensures t' == Rebuild(k, t)
    ensures RebuildLog(k, t, t', events)
  {
    t', events := t, [];
    var todo := t.Keys;
    while todo != {}
      invariant todo <= t.Keys && t'.Keys == t.Keys
      invariant forall key :: key in t ==> t'[key] == if key in todo then t[key] else Refresh(k, t[key])
      invariant RebuildLog(k, t, t', events)
      invariant forall i :: 0 <= i < |events| ==> k.keyOf(events[i].obj) !in todo
    {
      var name :| name in todo;
      todo := todo - {name};
      var pruned := k.prune(t[name].original);
      assert k.keyOf(pruned) == name;
      if k.same(pruned, t[name].modified) { continue; }
      ghost var before, logged := t', events;
      t' := t'[name := t'[name].(modified := pruned)];
      events := events + [Event(Modified, pruned)];
      LogGrows(k, t, before, logged, name, pruned);
    }
  }

  lemma LogGrows<O>(k: Kernel<O>, t: Table<O>, t': Table<O>, events: seq<Event<O>>, name: NamespacedName, pruned: O)
    requires RebuildLog(k, t, t', events) && name in t && k.keyOf(pruned) == name && !k.same(t[name].modified, pruned)
    requires forall i :: 0 <= i < |events| ==> k.keyOf(events[i].obj) != name
    ensures RebuildLog(k, t, t'[name := t'[name].(modified := pruned)], events + [Event(Modified, pruned)])
  {
    var longer := events + [Event(Modified, pruned)];
    var t'' := t'[name := t'[name].(modified := pruned)];
    forall key | key in t && t[key].modified != t''[key].modified
      ensures exists i :: 0 <= i < |longer| && k.keyOf(longer[i].obj) == key
    {
      if key == name {
        assert k.keyOf(longer[|events|].obj) == key;
      } else {
        assert t[key].modified != t'[key].modified;
        var i :| 0 <= i < |events| && k.keyOf(events[i].obj) == key;
        assert longer[i] == events[i];
      }
    }
  }

  /** Applying distinct-key Modified events one by one. */
  lemma {:induction false} ReplayModified<O>(keyOf: O -> NamespacedName, seen: map<NamespacedName, O>, events: seq<Event<O>>)
    requires forall i :: 0 <= i < |events| ==> events[i].typ == Modified
    requires forall i, j :: 0 <= i < j < |events| ==> keyOf(events[i].obj) != keyOf(events[j].obj)
    ensures var r := Replay(keyOf, seen, events);
            && (forall i :: 0 <= i < |events| ==> keyOf(events[i].obj) in r && r[keyOf(events[i].obj)] == events[i].obj)
            && (forall key :: (forall i :: 0 <= i < |events| ==> keyOf(events[i].obj) != key) ==>
                  (key in r <==> key in seen) && (key in seen ==> r[key] == seen[key]))
    decreases |events|
  {
    if events != [] {
      var first := keyOf(events[0].obj);
      var seen' := seen[first := events[0].obj];
      ReplayModified(keyOf, seen', events[1..]);
      var r := Replay(keyOf, seen', events[1..]);
      assert r == Replay(keyOf, seen, events);
      assert forall i :: 0 <= i < |events| - 1 ==> events[1..][i] == events[i + 1];
      forall i | 0 <= i < |events|
        ensures keyOf(events[i].obj) in r && r[keyOf(events[i].obj)] == events[i].obj
      {
        if i > 0 {
          assert events[1..][i - 1] == events[i];
        }
      }
    }
  }

  lemma RebuildReplays<O>(k: Kernel<O>, t: Table<O>, t': Table<O>, events: seq<Event<O>>)
    requires RebuildLog(k, t, t', events)
    ensures Replay(k.keyOf, Published(t), events) == Published(t')
  {
    ReplayModified(k.keyOf, Published(t), events);
    var r := Replay(k.keyOf, Published(t), events);
    forall key ensures (key in r <==> key in t') && (key in t' ==> r[key] == t'[key].modified) {
      if i :| 0 <= i < |events| && k.keyOf(events[i].obj) == key {
        assert r[key] == events[i].obj;
      } else {
        assert key in r <==> key in Published(t);
      }
    }
  }

  lemma OperationReplays<O(!new)>(k: Kernel<O>, t: Table<O>, op: Operation<O>)
    requires Lawful(k) && Filed(k, t)
    ensures Replay(k.keyOf, Published(t), OperationEvents(k, t, op)) == Published(Operate(k, t, op))
  {
    assert k.keyOf(k.prune(op.o)) == k.keyOf(op.o);
    var events := OperationEvents(k, t, op);
    if events != [] {
      assert Replay(k.keyOf, Published(t), events) ==
             var e := events[0]; if e.typ.Deleted? then Published(t) - {k.keyOf(e.obj)} else Published(t)[k.keyOf(e.obj) := e.obj];
    }
  }

  // ---- Whole runs with handlers run to completion ----

  /** One handler call with everything it publishes about Endpoints and v1 slices. */
  ghost predicate AtomicStep(cfg: Config, s: State, a: Action, s': State,
                             endpoints: seq<Event<Endpoints>>, v1: seq<Event<SliceV1>>) {
    match a
    case OnView(w) =>
      var (view, resync) := WriteView(cfg, s.view, w);
      && s'.view == view
      && (if resync then
            && s'.v1 == Rebuild(V1Kernel(cfg, view), s.v1) && RebuildLog(V1Kernel(cfg, view), s.v1, s'.v1, v1)
            && s'.endpoints == Rebuild(EndpointsKernel(cfg, view), s.endpoints)
            && RebuildLog(EndpointsKernel(cfg, view), s.endpoints, s'.endpoints, endpoints)
            && s'.v1beta1 == Rebuild(V1Beta1Kernel(cfg, view), s.v1beta1)
          else s'.v1 == s.v1 && s'.endpoints == s.endpoints && s'.v1beta1 == s.v1beta1 && v1 == [] && endpoints == [])
    case OnV1(op) =>
      && s' == Next(cfg, s, a) && endpoints == [] && v1 == OperationEvents(V1Kernel(cfg, s.view), s.v1, op)
    case OnEndpoints(op) =>
      && s' == Next(cfg, s, a) && v1 == [] && endpoints == OperationEvents(EndpointsKernel(cfg, s.view), s.endpoints, op)
    case OnV1Beta1(op) => s' == Next(cfg, s, a) && endpoints == [] && v1 == []
    case Advance(_) => false
  }

  /** A run of handler calls and the two event streams it publishes. */
  ghost predicate AtomicRun(cfg: Config, run: seq<Action>, s: State, endpoints: seq<Event<Endpoints>>, v1: seq<Event<SliceV1>>)
    decreases |run|
  {
    if run == [] then s == INIT && endpoints == [] && v1 == []
    else
      var n := |run| - 1;
      exists s0, e0, v0, e1, v1' ::
        && AtomicRun(cfg, run[..n], s0, e0, v0) && AtomicStep(cfg, s0, run[n], s, e1, v1')
        && endpoints == e0 + e1 && v1 == v0 + v1'
  }

  ghost predicate AllFiled(cfg: Config, s: State) {
    Filed(V1Kernel(cfg, s.view), s.v1) && Filed(EndpointsKernel(cfg, s.view), s.endpoints)
  }

  lemma FilingIgnoresView(cfg: Config, s: State, v: View)
    requires AllFiled(cfg, s)
    ensures Filed(V1Kernel(cfg, v), s.v1) && Filed(EndpointsKernel(cfg, v), s.endpoints)
  {}

  lemma V1StepReplays(cfg: Config, s: State, a: Action, s': State, e: seq<Event<Endpoints>>, v: seq<Event<SliceV1>>)
    requires AtomicStep(cfg, s, a, s', e, v) && AllFiled(cfg, s)
    ensures Replay(V1Key, Published(s.v1), v) == Published(s'.v1) && Filed(V1Kernel(cfg, s'.view), s'.v1)
  {
    KernelsLawful(cfg, s'.view);
    FilingIgnoresView(cfg, s, s'.view);
    var k := V1Kernel(cfg, s'.view);
    if a.OnV1? {
      OperationReplays(k, s.v1, a.v1);
      KeepsFiling(k, s.v1, a.v1);
    } else if a.OnView? && WriteView(cfg, s.view, a.write).1 {
      RebuildReplays(k, s.v1, s'.v1, v);
      RebuildKeepsFiling(k, s.v1);
    }
  }

  lemma EndpointsStepReplays(cfg: Config, s: State, a: Action, s': State, e: seq<Event<Endpoints>>, v: seq<Event<SliceV1>>)
    requires AtomicStep(cfg, s, a, s', e, v) && AllFiled(cfg, s)
    ensures Replay(EndpointsKey, Published(s.endpoints), e) == Published(s'.endpoints)
    ensures Filed(EndpointsKernel(cfg, s'.view), s'.endpoints)
  {
    KernelsLawful(cfg, s'.view);
    FilingIgnoresView(cfg, s, s'.view);
    var k := EndpointsKernel(cfg, s'.view);
    if a.OnEndpoints? {
      OperationReplays(k, s.endpoints, a.endpoints);
      KeepsFiling(k, s.endpoints, a.endpoints);
    } else if a.OnView? && WriteView(cfg, s.view, a.write).1 {
      RebuildReplays(k, s.endpoints, s'.endpoints, e);
      RebuildKeepsFiling(k, s.endpoints);
    }
  }

  /** In every run of completed handler calls, whatever the map iteration orders, a watcher who applies every event
      of a stream to an empty copy holds exactly the objects the cache serves. */
  lemma {:induction false} ReplayGivesPublished(cfg: Config, run: seq<Action>, s: State,
                                                endpoints: seq<Event<Endpoints>>, v1: seq<Event<SliceV1>>)
    requires AtomicRun(cfg, run, s, endpoints, v1)
    ensures Replay(EndpointsKey, map[], endpoints) == Published(s.endpoints)
    ensures Replay(V1Key, map[], v1) == Published(s.v1)
    ensures AllFiled(cfg, s)
    decreases |run|
  {
    if run != [] {
      var n := |run| - 1;
      var s0, e0, v0, e1, v1' :|
        && AtomicRun(cfg, run[..n], s0, e0, v0) && AtomicStep(cfg, s0, run[n], s, e1, v1')
        && endpoints == e0 + e1 && v1 == v0 + v1';
      ReplayGivesPublished(cfg, run[..n], s0, e0, v0);
      V1StepReplays(cfg, s0, run[n], s, e1, v1');
      EndpointsStepReplays(cfg, s0, run[n], s, e1, v1');
      ReplayConcat(EndpointsKey, map[], e0, e1);
      ReplayConcat(V1Key, map[], v0, v1');
    }
  }
}
