/** Events are logged under the lock but published after it is released, so they may be delivered in another order
    (cache.go:220-250, endpoints_handler.go). What a watcher then ends up with, in every interleaving. */
module CacheDelivery {
  import opened Basics
  import opened Objects
  import opened Prune
  import opened CacheTable
  import opened CacheCoherence
  import opened CacheReplay

  // ---- When two orders replay alike ----

  function Lookup<O>(m: map<NamespacedName, O>, key: NamespacedName): Option<O> {
    if key in m then Some(m[key]) else None
  }

  function Effect<O>(e: Event<O>): Option<O> { if e.typ.Deleted? then None else Some(e.obj) }

  /** What the last event about `key` leaves of it, or `seen` if there is none. */
  function LastEffect<O>(keyOf: O -> NamespacedName, seen: Option<O>, events: seq<Event<O>>, key: NamespacedName): Option<O> {
    if events == [] then seen
    else
      var n := |events| - 1;
      if keyOf(events[n].obj) == key then Effect(events[n]) else LastEffect(keyOf, seen, events[..n], key)
  }

  lemma {:induction false} ReplayAt<O>(keyOf: O -> NamespacedName, seen: map<NamespacedName, O>, events: seq<Event<O>>,
                                       key: NamespacedName)
    ensures Lookup(Replay(keyOf, seen, events), key) == LastEffect(keyOf, Lookup(seen, key), events, key)
    decreases |events|
  {
    if events != [] {
      var n := |events| - 1;
      ReplayAt(keyOf, seen, events[..n], key);
      assert events == events[..n] + [events[n]];
      ReplayConcat(keyOf, seen, events[..n], [events[n]]);
      assert [events[n]][1..] == [];
    }
  }

  /** The last event about `key` has the same effect in both sequences, given what was seen before. */
  predicate SameLast<O(==)>(keyOf: O -> NamespacedName, seen: map<NamespacedName, O>, a: seq<Event<O>>, b: seq<Event<O>>,
                            key: NamespacedName) {
    LastEffect(keyOf, Lookup(seen, key), a, key) == LastEffect(keyOf, Lookup(seen, key), b, key)
  }

  /** Two sequences of events leave a watcher with the same objects exactly when, for every object, the last event about
      it has the same effect in both. */
  lemma ReplaysAlikeIff<O(!new)>(keyOf: O -> NamespacedName, seen: map<NamespacedName, O>, a: seq<Event<O>>, b: seq<Event<O>>)
    ensures Replay(keyOf, seen, a) == Replay(keyOf, seen, b) <==> forall key :: SameLast(keyOf, seen, a, b, key)
  {
    var x, y := Replay(keyOf, seen, a), Replay(keyOf, seen, b);
    forall key ensures Lookup(x, key) == Lookup(y, key) <==> SameLast(keyOf, seen, a, b, key) {
      ReplayAt(keyOf, seen, a, key);
      ReplayAt(keyOf, seen, b, key);
    }
    if forall key :: SameLast(keyOf, seen, a, b, key) {
      SameLookups(x, y);
    }
  }

  lemma SameLookups<O>(x: map<NamespacedName, O>, y: map<NamespacedName, O>)
    requires forall key :: Lookup(x, key) == Lookup(y, key)
    ensures x == y
  {
    forall key ensures key in x <==> key in y { assert Lookup(x, key) == Lookup(y, key); }
    forall key | key in x ensures x[key] == y[key] { assert Lookup(x, key) == Lookup(y, key); }
  }

  /** The race the handlers have: a resync's events, each about another object, and the event of a handler that ran right
      after it. Delivered the other way round they leave the same exactly when the resync has no event about that object
      or the very same copy. */
  lemma RaceHarmlessIff<O(!new)>(keyOf: O -> NamespacedName, seen: map<NamespacedName, O>, rebuilt: seq<Event<O>>, u: Event<O>)
    requires forall i :: 0 <= i < |rebuilt| ==> rebuilt[i].typ == Modified
    requires forall i, j :: 0 <= i < j < |rebuilt| ==> keyOf(rebuilt[i].obj) != keyOf(rebuilt[j].obj)
    ensures Replay(keyOf, seen, rebuilt + [u]) == Replay(keyOf, seen, [u] + rebuilt) <==>
            forall i :: 0 <= i < |rebuilt| && keyOf(rebuilt[i].obj) == keyOf(u.obj) ==> Effect(u) == Some(rebuilt[i].obj)
  {
    ReplaysAlikeIff(keyOf, seen, rebuilt + [u], [u] + rebuilt);
    forall key
      ensures SameLast(keyOf, seen, rebuilt + [u], [u] + rebuilt, key) <==>
              forall i :: 0 <= i < |rebuilt| && keyOf(rebuilt[i].obj) == key == keyOf(u.obj) ==> Effect(u) == Some(rebuilt[i].obj)
    {
      RaceAt(keyOf, Lookup(seen, key), rebuilt, u, key);
    }
    assert (forall key :: SameLast(keyOf, seen, rebuilt + [u], [u] + rebuilt, key)) ==>
             SameLast(keyOf, seen, rebuilt + [u], [u] + rebuilt, keyOf(u.obj));
  }

  lemma RaceAt<O>(keyOf: O -> NamespacedName, seen: Option<O>, rebuilt: seq<Event<O>>, u: Event<O>, key: NamespacedName)
    requires forall i :: 0 <= i < |rebuilt| ==> rebuilt[i].typ == Modified
    requires forall i, j :: 0 <= i < j < |rebuilt| ==> keyOf(rebuilt[i].obj) != keyOf(rebuilt[j].obj)
    ensures LastEffect(keyOf, seen, rebuilt + [u], key) == LastEffect(keyOf, seen, [u] + rebuilt, key) <==>
            forall i :: 0 <= i < |rebuilt| && keyOf(rebuilt[i].obj) == key == keyOf(u.obj) ==> Effect(u) == Some(rebuilt[i].obj)
  {
    var one := [u];
    assert one[..0] == [] && LastEffect(keyOf, seen, one, key) == if keyOf(u.obj) == key then Effect(u) else seen;
    LastConcat(keyOf, seen, rebuilt, one, key);
    LastConcat(keyOf, seen, one, rebuilt, key);
    assert (rebuilt + [u])[..|rebuilt|] == rebuilt;
    if i :| 0 <= i < |rebuilt| && keyOf(rebuilt[i].obj) == key {
      LastAmongDistinct(keyOf, seen, rebuilt, i);
      LastAmongDistinct(keyOf, LastEffect(keyOf, seen, one, key), rebuilt, i);
    } else {
      LastUnnamed(keyOf, seen, rebuilt, key);
      LastUnnamed(keyOf, LastEffect(keyOf, seen, one, key), rebuilt, key);
    }
  }

  lemma {:induction false} LastConcat<O>(keyOf: O -> NamespacedName, seen: Option<O>, a: seq<Event<O>>, b: seq<Event<O>>,
                                         key: NamespacedName)
    ensures LastEffect(keyOf, seen, a + b, key) == LastEffect(keyOf, LastEffect(keyOf, seen, a, key), b, key)
    decreases |b|
  {
    if b == [] {
      assert a + b == a;
    } else {
      var n := |b| - 1;
      assert (a + b)[..|a| + n] == a + b[..n];
      LastConcat(keyOf, seen, a, b[..n], key);
    }
  }

  lemma {:induction false} LastUnnamed<O>(keyOf: O -> NamespacedName, seen: Option<O>, events: seq<Event<O>>, key: NamespacedName)
    requires forall i :: 0 <= i < |events| ==> keyOf(events[i].obj) != key
    ensures LastEffect(keyOf, seen, events, key) == seen
    decreases |events|
  {
    if events != [] { LastUnnamed(keyOf, seen, events[..|events| - 1], key); }
  }

  lemma {:induction false} LastAmongDistinct<O>(keyOf: O -> NamespacedName, seen: Option<O>, events: seq<Event<O>>, i: nat)
    requires i < |events|
    requires forall i, j :: 0 <= i < j < |events| ==> keyOf(events[i].obj) != keyOf(events[j].obj)
    ensures LastEffect(keyOf, seen, events, keyOf(events[i].obj)) == Effect(events[i])
    decreases |events|
  {
    if i < |events| - 1 { LastAmongDistinct(keyOf, seen, events[..|events| - 1], i); }
  }

  // ---- Interleavings with their logs ----

  /** What one locked section logs about Endpoints and about v1 slices. */
  ghost predicate StepLog(cfg: Config, s: State, a: Action, e: seq<Event<Endpoints>>, v: seq<Event<SliceV1>>) {
    match a
    case OnEndpoints(op) => v == [] && e == OperationEvents(EndpointsKernel(cfg, s.view), s.endpoints, op)
    case OnV1(op) => e == [] && v == OperationEvents(V1Kernel(cfg, s.view), s.v1, op)
    case Advance(Rebuilding(OfEndpoints)) =>
      var k := EndpointsKernel(cfg, s.view);
      v == [] && RebuildLog(k, s.endpoints, Rebuild(k, s.endpoints), e)
    case Advance(Rebuilding(OfV1)) =>
      var k := V1Kernel(cfg, s.view);
      e == [] && RebuildLog(k, s.v1, Rebuild(k, s.v1), v)
    case _ => e == [] && v == []
  }

  /** An interleaving of locked sections with what each logged. */
  datatype History = Start | Then(before: History, action: Action, endpoints: seq<Event<Endpoints>>, v1: seq<Event<SliceV1>>)

  function StateOf(cfg: Config, h: History): State {
    match h
    case Start => INIT
    case Then(before, a, _, _) => Next(cfg, StateOf(cfg, before), a)
  }

  ghost predicate Possible(cfg: Config, h: History) {
    match h
    case Start => true
    case Then(before, a, e, v) =>
      Possible(cfg, before) && Enabled(StateOf(cfg, before), a) && StepLog(cfg, StateOf(cfg, before), a, e, v)
  }

  /** The logs in the order of the sections. */
  function EndpointsLog(h: History): seq<Event<Endpoints>> { if h.Start? then [] else EndpointsLog(h.before) + h.endpoints }
  function V1Log(h: History): seq<Event<SliceV1>> { if h.Start? then [] else V1Log(h.before) + h.v1 }

  lemma {:induction false} EndpointsStepLogged(cfg: Config, s: State, a: Action, e: seq<Event<Endpoints>>, v: seq<Event<SliceV1>>)
    requires Enabled(s, a) && StepLog(cfg, s, a, e, v) && Filed(EndpointsKernel(cfg, s.view), s.endpoints)
    ensures var s' := Next(cfg, s, a);
            && Replay(EndpointsKey, Published(s.endpoints), e) == Published(s'.endpoints)
            && Filed(EndpointsKernel(cfg, s'.view), s'.endpoints)
  {
    KernelsLawful(cfg, s.view);
    var k := EndpointsKernel(cfg, s.view);
    match a
    case OnEndpoints(op) =>
      OperationReplays(k, s.endpoints, op);
      KeepsFiling(k, s.endpoints, op);
    case Advance(Rebuilding(OfEndpoints)) =>
      RebuildReplays(k, s.endpoints, Rebuild(k, s.endpoints), e);
      RebuildKeepsFiling(k, s.endpoints);
    case _ =>
      OtherTables(cfg, s, a);
  }

  lemma {:induction false} V1StepLogged(cfg: Config, s: State, a: Action, e: seq<Event<Endpoints>>, v: seq<Event<SliceV1>>)
    requires Enabled(s, a) && StepLog(cfg, s, a, e, v) && Filed(V1Kernel(cfg, s.view), s.v1)
    ensures var s' := Next(cfg, s, a);
            && Replay(V1Key, Published(s.v1), v) == Published(s'.v1)
            && Filed(V1Kernel(cfg, s'.view), s'.v1)
  {
    KernelsLawful(cfg, s.view);
    var k := V1Kernel(cfg, s.view);
    match a
    case OnV1(op) =>
      OperationReplays(k, s.v1, op);
      KeepsFiling(k, s.v1, op);
    case Advance(Rebuilding(OfV1)) =>
      RebuildReplays(k, s.v1, Rebuild(k, s.v1), v);
      RebuildKeepsFiling(k, s.v1);
    case _ =>
      OtherTables(cfg, s, a);
  }

  lemma {:induction false} OtherTables(cfg: Config, s: State, a: Action)
    ensures !a.OnEndpoints? && a != Advance(Rebuilding(OfEndpoints)) ==> Next(cfg, s, a).endpoints == s.endpoints
    ensures !a.OnV1? && a != Advance(Rebuilding(OfV1)) ==> Next(cfg, s, a).v1 == s.v1
  {
    match a
    case OnView(w) => assert Next(cfg, s, a) == ApplyWrite(cfg, s, w);
    case OnV1(_) =>
    case OnV1Beta1(_) =>
    case OnEndpoints(_) =>
    case Advance(stage) => OtherTablesAdvance(cfg, s, stage);
  }

  lemma OtherTablesAdvance(cfg: Config, s: State, stage: Stage)
    ensures stage != Rebuilding(OfEndpoints) ==> AdvanceStage(cfg, s, stage).endpoints == s.endpoints
    ensures stage != Rebuilding(OfV1) ==> AdvanceStage(cfg, s, stage).v1 == s.v1
  {
    if stage != Rebuilding(OfEndpoints) { AdvanceElsewhere(cfg, s, stage, OfEndpoints); }
    if stage != Rebuilding(OfV1) { AdvanceElsewhere(cfg, s, stage, OfV1); }
  }

  /** In every interleaving the logs, taken in the order of the locked sections, replay to exactly what is served. */
  lemma {:induction false} LogReplays(cfg: Config, h: History)
    requires Possible(cfg, h)
    ensures Replay(EndpointsKey, map[], EndpointsLog(h)) == Published(StateOf(cfg, h).endpoints)
    ensures Replay(V1Key, map[], V1Log(h)) == Published(StateOf(cfg, h).v1)
    ensures AllFiled(cfg, StateOf(cfg, h))
  {
    if h.Then? {
      LogReplays(cfg, h.before);
      EndpointsStepLogged(cfg, StateOf(cfg, h.before), h.action, h.endpoints, h.v1);
      V1StepLogged(cfg, StateOf(cfg, h.before), h.action, h.endpoints, h.v1);
      ReplayConcat(EndpointsKey, map[], EndpointsLog(h.before), h.endpoints);
      ReplayConcat(V1Key, map[], V1Log(h.before), h.v1);
    }
  }

  /** So in every interleaving and for every order of delivery, a watcher holds exactly what is served if and only if, for
      every object, the last event delivered about it has the effect of the last one logged about it. */
  lemma DeliveryIff(cfg: Config, h: History, delivered: seq<Event<Endpoints>>, deliveredV1: seq<Event<SliceV1>>)
    requires Possible(cfg, h)
    ensures Replay(EndpointsKey, map[], delivered) == Published(StateOf(cfg, h).endpoints) <==>
            forall key :: SameLast(EndpointsKey, map[], delivered, EndpointsLog(h), key)
    ensures Replay(V1Key, map[], deliveredV1) == Published(StateOf(cfg, h).v1) <==>
            forall key :: SameLast(V1Key, map[], deliveredV1, V1Log(h), key)
  {
    LogReplays(cfg, h);
    ReplaysAlikeIff(EndpointsKey, map[], delivered, EndpointsLog(h));
    ReplaysAlikeIff(V1Key, map[], deliveredV1, V1Log(h));
  }

  // ---- A run in which a resync's event is delivered late ----

  /** A cache that holds only Endpoints. */
  function Holding(v: View, t: Table<Endpoints>, resyncs: multiset<Stage>): State { State(v, map[], map[], t, resyncs, {}) }

  /** The history is possible, ends in `s` and logged `e`. Nothing follows from it until Open is mentioned, so that the
      steps of a long history stay folded. */
  ghost predicate Logged(cfg: Config, h: History, s: State, e: seq<Event<Endpoints>>) {
    forall n :: Open(n) ==> Possible(cfg, h) && StateOf(cfg, h) == s && EndpointsLog(h) == e
  }

  lemma Unfold(cfg: Config, h: History, s: State, e: seq<Event<Endpoints>>)
    requires Logged(cfg, h, s, e)
    ensures Possible(cfg, h) && StateOf(cfg, h) == s && EndpointsLog(h) == e
  {
    assert Open(0);
  }

  lemma LoggedStep(cfg: Config, h: History, s: State, e: seq<Event<Endpoints>>, a: Action, more: seq<Event<Endpoints>>)
    returns (h': History)
    requires Logged(cfg, h, s, e) && Enabled(s, a) && StepLog(cfg, s, a, more, [])
    ensures Logged(cfg, h', Next(cfg, s, a), e + more) && h'.Then? && h'.before == h && h'.action == a
  {
    Unfold(cfg, h, s, e);
    h' := Then(h, a, more, []);
  }

  lemma Moves(cfg: Config, v: View, t: Table<Endpoints>, kind: Kind)
    ensures Next(cfg, Holding(v, t, multiset{Look(kind)}), Advance(Look(kind))) == Holding(v, t, Looked(t, kind))
  {
    var s, stage := Holding(v, t, multiset{Look(kind)}), Look(kind);
    var nonEmpty := kind == OfEndpoints && t != map[];
    assert Size(s, kind) > 0 <==> nonEmpty;
    assert Next(cfg, s, Advance(stage)) == s.(resyncs := Moved(s.resyncs, stage, nonEmpty), cleared := {});
    assert Moved(s.resyncs, stage, nonEmpty) == Looked(t, kind);
  }

  function Looked(t: Table<Endpoints>, kind: Kind): multiset<Stage> {
    if kind == OfEndpoints && t != map[] then multiset{Rebuilding(kind)} else After(kind)
  }

  lemma LookOn(cfg: Config, h: History, v: View, t: Table<Endpoints>, e: seq<Event<Endpoints>>, kind: Kind) returns (h': History)
    requires Logged(cfg, h, Holding(v, t, multiset{Look(kind)}), e)
    ensures Logged(cfg, h', Holding(v, t, Looked(t, kind)), e)
  {
    Moves(cfg, v, t, kind);
    h' := LoggedStep(cfg, h, Holding(v, t, multiset{Look(kind)}), e, Advance(Look(kind)), []);
    assert e + [] == e;
  }

  lemma WriteOn(cfg: Config, h: History, v: View, v': View, t: Table<Endpoints>, e: seq<Event<Endpoints>>, w: Write)
    returns (h': History)
    requires Logged(cfg, h, Holding(v, t, multiset{}), e) && WriteView(cfg, v, w) == (v', true)
    ensures Logged(cfg, h', Holding(v', t, multiset{Look(OfV1)}), e)
  {
    WritesTo(cfg, v, v', t, w);
    h' := LoggedStep(cfg, h, Holding(v, t, multiset{}), e, OnView(w), []);
    assert e + [] == e;
  }

  lemma WritesTo(cfg: Config, v: View, v': View, t: Table<Endpoints>, w: Write)
    requires WriteView(cfg, v, w) == (v', true)
    ensures Next(cfg, Holding(v, t, multiset{}), OnView(w)) == Holding(v', t, multiset{Look(OfV1)})
  {
    assert !w.ClearLocalNodeInfo?;
    assert multiset{} + multiset{Look(OfV1)} == multiset{Look(OfV1)};
  }

  /** The looks of a resync. */
  lemma LookAll(cfg: Config, h: History, v: View, t: Table<Endpoints>, e: seq<Event<Endpoints>>) returns (h': History)
    requires Logged(cfg, h, Holding(v, t, multiset{Look(OfV1)}), e)
    ensures Logged(cfg, h', Holding(v, t, Looked(t, OfEndpoints)), e)
  {
    h' := LookOn(cfg, h, v, t, e, OfV1);
    h' := LookOn(cfg, h', v, t, e, OfV1Beta1);
    h' := LookOn(cfg, h', v, t, e, OfEndpoints);
  }

  lemma RebuildOn(cfg: Config, h: History, v: View, t: Table<Endpoints>, t': Table<Endpoints>, e: seq<Event<Endpoints>>,
                  more: seq<Event<Endpoints>>) returns (h': History)
    requires Logged(cfg, h, Holding(v, t, multiset{Rebuilding(OfEndpoints)}), e)
    requires t' == Rebuild(EndpointsKernel(cfg, v), t) && RebuildLog(EndpointsKernel(cfg, v), t, t', more)
    ensures Logged(cfg, h', Holding(v, t', multiset{}), e + more) && h'.Then? && h'.action == Advance(Rebuilding(OfEndpoints))
  {
    RebuildsTo(cfg, v, t);
    h' := LoggedStep(cfg, h, Holding(v, t, multiset{Rebuilding(OfEndpoints)}), e, Advance(Rebuilding(OfEndpoints)), more);
  }

  lemma RebuildsTo(cfg: Config, v: View, t: Table<Endpoints>)
    ensures Next(cfg, Holding(v, t, multiset{Rebuilding(OfEndpoints)}), Advance(Rebuilding(OfEndpoints))) ==
            Holding(v, Rebuild(EndpointsKernel(cfg, v), t), multiset{})
  {
    assert Moved(multiset{Rebuilding(OfEndpoints)}, Rebuilding(OfEndpoints), |t| > 0) == multiset{};
  }

  const EDGE := Node(NamespacedName("", "edge-1"), None, "")
  const WEB := Service(NamespacedName("default", "web"), map[], "")
  const NO_NODES := View(map[], map[WEB.key := ServiceContainer(WEB, Nil)], map[])
  const ONE_NODE := NO_NODES.(nodes := map[EDGE.key := NodeContainer(EDGE, None)])

  function WebOn(ip: string, node: string): Endpoints {
    Endpoints(WEB.key, map[], Items([EndpointSubset(Items([EndpointAddress(ip, Some(node))]), Nil, [])]))
  }

  /** What is served of such an object: its address if the node is known. */
  function WebServed(ip: string, node: string, known: bool): Endpoints {
    Endpoints(WEB.key, map[], Items([EndpointSubset(Items(if known then [EndpointAddress(ip, Some(node))] else []), Items([]), [])]))
  }

  lemma WebPruned(cfg: Config, v: View, ip: string)
    requires cfg.autonomy && (v == NO_NODES || v == ONE_NODE)
    ensures PruneEndpoints(cfg, v, WebOn(ip, "edge-1")) == WebServed(ip, "edge-1", EDGE.key in v.nodes)
  {
    var o, a := WebOn(ip, "edge-1"), EndpointAddress(ip, Some("edge-1"));
    assert WEB.key.name != MASTER.name by { assert |WEB.key.name| != |MASTER.name|; }
    assert RuleFor(cfg, v, o.key, o.key) == ByHealth;
    assert [a][1..] == [] && NamespacedName("", "edge-1") == EDGE.key;
    assert Keep([a], t => Reachable(v, AddressNode(t))) == if EDGE.key in v.nodes then [a] else [];
    var pruned := PruneSubset(cfg, v, ByHealth, o.subsets.elems[0]);
    assert pruned == WebServed(ip, "edge-1", EDGE.key in v.nodes).subsets.elems[0];
    assert PruneSubsets(cfg, v, ByHealth, o.subsets.elems) == [pruned];
  }

  /** An entry of the table and its rebuild once the node is known. */
  lemma WebRebuilt(cfg: Config, ip: string)
    requires cfg.autonomy
    ensures var o, k := WebOn(ip, "edge-1"), EndpointsKernel(cfg, ONE_NODE);
            var t := map[WEB.key := Container(o, WebServed(ip, "edge-1", false))];
            && Rebuild(k, t) == map[WEB.key := Container(o, WebServed(ip, "edge-1", true))]
            && RebuildLog(k, t, Rebuild(k, t), [Event(Modified, WebServed(ip, "edge-1", true))])
  {
    var o, k := WebOn(ip, "edge-1"), EndpointsKernel(cfg, ONE_NODE);
    var hidden, shown := WebServed(ip, "edge-1", false), WebServed(ip, "edge-1", true);
    var t := map[WEB.key := Container(o, hidden)];
    WebPruned(cfg, ONE_NODE, ip);
    assert NormalSubsets(shown.subsets)[0].addresses.elems != NormalSubsets(hidden.subsets)[0].addresses.elems;
    assert !SameEndpoints(shown, hidden);
    var events := [Event(Modified, shown)];
    assert Rebuild(k, t) == map[WEB.key := Container(o, shown)];
    assert k.keyOf(events[0].obj) == WEB.key;
  }

  lemma AddStep(cfg: Config, ip: string)
    requires cfg.autonomy
    ensures var o, hidden, s := WebOn(ip, "edge-1"), WebServed(ip, "edge-1", false), Holding(NO_NODES, map[], multiset{});
            && StepLog(cfg, s, OnEndpoints(Add(o)), [Event(Added, hidden)], [])
            && Next(cfg, s, OnEndpoints(Add(o))) == Holding(NO_NODES, map[WEB.key := Container(o, hidden)], multiset{})
  {
    WebPruned(cfg, NO_NODES, ip);
    assert EndpointsKernel(cfg, NO_NODES).prune(WebOn(ip, "edge-1")) == WebServed(ip, "edge-1", false);
  }

  lemma UpdateStep(cfg: Config, ip: string, ip': string)
    requires cfg.autonomy && ip != ip'
    ensures var o, o', shown, shown' := WebOn(ip, "edge-1"), WebOn(ip', "edge-1"), WebServed(ip, "edge-1", true), WebServed(ip', "edge-1", true);
            var s := Holding(ONE_NODE, map[WEB.key := Container(o, shown)], multiset{});
            && shown != shown'
            && StepLog(cfg, s, OnEndpoints(Update(o, o')), [Event(Modified, shown')], [])
            && Next(cfg, s, OnEndpoints(Update(o, o'))) == Holding(ONE_NODE, map[WEB.key := Container(o', shown')], multiset{})
  {
    var o, o', shown, shown' := WebOn(ip, "edge-1"), WebOn(ip', "edge-1"), WebServed(ip, "edge-1", true), WebServed(ip', "edge-1", true);
    WebPruned(cfg, ONE_NODE, ip');
    assert NormalSubsets(o.subsets)[0].addresses.elems[0] != NormalSubsets(o'.subsets)[0].addresses.elems[0];
    assert NormalSubsets(shown.subsets)[0].addresses.elems[0] != NormalSubsets(shown'.subsets)[0].addresses.elems[0];
    assert !SameEndpoints(shown, shown');
    var t := map[WEB.key := Container(o, shown)];
    assert t[WEB.key := Container(o', shown')] == map[WEB.key := Container(o', shown')];
  }

  lemma ReachAdded(cfg: Config, ip: string) returns (h: History)
    requires cfg.autonomy
    ensures var hidden := WebServed(ip, "edge-1", false);
            Logged(cfg, h, Holding(NO_NODES, map[WEB.key := Container(WebOn(ip, "edge-1"), hidden)], multiset{}), [Event(Added, hidden)])
  {
    ServiceArrives(cfg);
    h := WriteOn(cfg, Start, INIT.view, NO_NODES, map[], [], ServiceAdd(WEB));
    h := LookAll(cfg, h, NO_NODES, map[], []);
    AddStep(cfg, ip);
    var add, event := OnEndpoints(Add(WebOn(ip, "edge-1"))), Event(Added, WebServed(ip, "edge-1", false));
    h := LoggedStep(cfg, h, Holding(NO_NODES, map[], multiset{}), [], add, [event]);
    assert [] + [event] == [event];
  }

  lemma ServiceArrives(cfg: Config)
    ensures WriteView(cfg, INIT.view, ServiceAdd(WEB)) == (NO_NODES, true)
  {}

  lemma NodeArrives(cfg: Config)
    ensures WriteView(cfg, NO_NODES, NodeAdd(EDGE)) == (ONE_NODE, true)
  {
    assert NO_NODES.nodes[EDGE.key := NodeContainer(EDGE, None)] == ONE_NODE.nodes;
  }

  lemma ReachRebuilt(cfg: Config, ip: string) returns (h: History)
    requires cfg.autonomy
    ensures var hidden, shown := WebServed(ip, "edge-1", false), WebServed(ip, "edge-1", true);
            && Logged(cfg, h, Holding(ONE_NODE, map[WEB.key := Container(WebOn(ip, "edge-1"), shown)], multiset{}),
                      [Event(Added, hidden), Event(Modified, shown)])
            && h.Then? && h.action == Advance(Rebuilding(OfEndpoints))
  {
    h := ReachAdded(cfg, ip);
    var added, rebuilt := Event(Added, WebServed(ip, "edge-1", false)), Event(Modified, WebServed(ip, "edge-1", true));
    var t := map[WEB.key := Container(WebOn(ip, "edge-1"), added.obj)];
    assert WEB.key in t;
    NodeArrives(cfg);
    h := WriteOn(cfg, h, NO_NODES, ONE_NODE, t, [added], NodeAdd(EDGE));
    h := LookAll(cfg, h, ONE_NODE, t, [added]);
    WebRebuilt(cfg, ip);
    h := RebuildOn(cfg, h, ONE_NODE, t, map[WEB.key := Container(WebOn(ip, "edge-1"), rebuilt.obj)], [added], [rebuilt]);
    assert [added] + [rebuilt] == [added, rebuilt];
  }

  lemma LastsDiffer<O>(keyOf: O -> NamespacedName, added: Event<O>, rebuilt: Event<O>, updated: Event<O>)
    requires Effect(rebuilt) != Effect(updated) && keyOf(rebuilt.obj) == keyOf(updated.obj)
    ensures !SameLast(keyOf, map[], [added, updated, rebuilt], [added, rebuilt, updated], keyOf(updated.obj))
  {}

  /** The node's arrival makes the address visible; an update then replaces it. The update's event overtakes the resync's,
      nothing is pending, and the watcher holds the address that is gone. */
  lemma LateResyncEvent(cfg: Config)
    returns (h: History, added: Event<Endpoints>, rebuilt: Event<Endpoints>, updated: Event<Endpoints>)
    requires cfg.autonomy
    ensures Possible(cfg, h) && EndpointsLog(h) == [added, rebuilt, updated] && StateOf(cfg, h).resyncs == multiset{}
    ensures h.Then? && h.action.OnEndpoints? && h.before.Then? && h.before.action == Advance(Rebuilding(OfEndpoints))
    ensures Replay(EndpointsKey, map[], [added, updated, rebuilt]) != Published(StateOf(cfg, h).endpoints)
  {
    var ip, ip' := "10.0.0.1", "10.0.0.2";
    assert ip[7] != ip'[7];
    var o, o' := WebOn(ip, "edge-1"), WebOn(ip', "edge-1");
    added, rebuilt := Event(Added, WebServed(ip, "edge-1", false)), Event(Modified, WebServed(ip, "edge-1", true));
    updated := Event(Modified, WebServed(ip', "edge-1", true));
    h := ReachRebuilt(cfg, ip);
    UpdateStep(cfg, ip, ip');
    h := LoggedStep(cfg, h, Holding(ONE_NODE, map[WEB.key := Container(o, rebuilt.obj)], multiset{}), [added, rebuilt],
                    OnEndpoints(Update(o, o')), [updated]);
    assert [added, rebuilt] + [updated] == [added, rebuilt, updated];
    Unfold(cfg, h, Holding(ONE_NODE, map[WEB.key := Container(o', updated.obj)], multiset{}), [added, rebuilt, updated]);
    LastsDiffer(EndpointsKey, added, rebuilt, updated);
    DeliveryIff(cfg, h, [added, updated, rebuilt], []);
  }
}
