/** What pruning shows, said outright: by the service's topology keys, the labels of the nodes and the health reports. */
module PruneMeaning {
  import opened Basics
  import opened Objects
  import opened Prune
  import opened Strings

  /** `r` is what is left of `s` when exactly the positions of the elements satisfying `p` are read, in order. */
  ghost predicate Selects<T(!new)>(s: seq<T>, r: seq<T>, p: T -> bool) {
    exists at: seq<nat> :: Picks(s, r, p, at)
  }

  ghost predicate Picks<T(!new)>(s: seq<T>, r: seq<T>, p: T -> bool, at: seq<nat>) {
    && |at| == |r| && (forall i, j :: 0 <= i < j < |at| ==> at[i] < at[j])
    && (forall i :: 0 <= i < |at| ==> at[i] < |s| && s[at[i]] == r[i])
    && (forall k: nat :: k < |s| ==> (p(s[k]) <==> k in at))
  }

  lemma {:induction false} KeepSelects<T(!new)>(s: seq<T>, p: T -> bool)
    ensures Selects(s, Keep(s, p), p)
  {
    if s == [] {
      assert Picks(s, Keep(s, p), p, []);
    } else {
      var init, last := s[..|s| - 1], s[|s| - 1];
      assert s == init + [last];
      KeepSelects(init, p);
      KeepSnoc(init, last, p);
      var at: seq<nat> :| Picks(init, Keep(init, p), p, at);
      PicksSnoc(init, last, Keep(init, p), p, at);
    }
  }

  lemma PicksSnoc<T(!new)>(s: seq<T>, x: T, r: seq<T>, p: T -> bool, at: seq<nat>)
    requires Picks(s, r, p, at)
    ensures Selects(s + [x], r + (if p(x) then [x] else []), p)
  {
    forall k | k in at ensures k < |s| { var i :| 0 <= i < |at| && at[i] == k; }
    if p(x) {
      PicksMore(s, x, r, p, at);
      assert Picks(s + [x], r + [x], p, at + [|s|]);
    } else {
      PicksNoMore(s, x, r, p, at);
      assert Picks(s + [x], r, p, at) && r + [] == r;
    }
  }

  lemma PicksMore<T(!new)>(s: seq<T>, x: T, r: seq<T>, p: T -> bool, at: seq<nat>)
    requires Picks(s, r, p, at) && p(x) && forall k :: k in at ==> k < |s|
    ensures Picks(s + [x], r + [x], p, at + [|s|])
  {
    var longer, more := s + [x], at + [|s|];
    forall k: nat | k < |longer| ensures p(longer[k]) <==> k in more {
      if k < |s| { assert longer[k] == s[k]; }
    }
    forall i | 0 <= i < |more| ensures more[i] < |longer| && longer[more[i]] == (r + [x])[i] {
      if i < |at| { assert longer[at[i]] == s[at[i]]; }
    }
  }

  lemma PicksNoMore<T(!new)>(s: seq<T>, x: T, r: seq<T>, p: T -> bool, at: seq<nat>)
    requires Picks(s, r, p, at) && !p(x) && forall k :: k in at ==> k < |s|
    ensures Picks(s + [x], r, p, at)
  {
    var longer := s + [x];
    forall k: nat | k < |longer| ensures p(longer[k]) <==> k in at {
      if k < |s| { assert longer[k] == s[k]; }
    }
  }

  /** An object none of whose backends is dropped: no service is known for it; or the service has no topology keys, and the
      object is default/kubernetes or autonomy is off. */
  ghost predicate Whole(cfg: Config, v: View, service: NamespacedName, name: NamespacedName) {
    service in v.services ==>
      v.services[service].keys.All() == [] && (name == NamespacedName("default", "kubernetes") || !cfg.autonomy)
  }

  /** Where backends are dropped, one stays if its node is known; if the service has topology keys, the host is known too and
      both carry the same value of one of them; and, autonomy on, no report calls the node abnormal. */
  ghost predicate Shown(cfg: Config, v: View, service: NamespacedName, nodeName: Option<string>)
    requires service in v.services
  {
    nodeName.Some? && NamespacedName("", nodeName.value) in v.nodes &&
    var keys, node := v.services[service].keys.All(), v.nodes[NamespacedName("", nodeName.value)];
    && (keys != [] ==>
          NamespacedName("", cfg.hostName) in v.nodes &&
          var host := v.nodes[NamespacedName("", cfg.hostName)];
          host.labels.Some? && node.labels.Some? && exists key :: key in keys && OneValue(host.labels.value, node.labels.value, key))
    && (cfg.autonomy && node.node.key.name in v.localNodeInfo ==> v.localNodeInfo[node.node.key.name].normal)
  }

  ghost predicate OneValue(a: map<string, string>, b: map<string, string>, key: string) {
    key in a && key in b && a[key] == b[key]
  }

  /** `r` shows, of the backends `s`, all or exactly those to be shown. */
  ghost predicate Shows<T(!new)>(cfg: Config, v: View, service: NamespacedName, name: NamespacedName, s: Slice<T>, r: Slice<T>,
                                 nodeOf: T -> Option<string>) {
    if Whole(cfg, v, service, name) then r == s
    else Selects(s.All(), r.All(), t => Shown(cfg, v, service, nodeOf(t)))
  }

  lemma SurvivesIff(cfg: Config, v: View, service: NamespacedName, name: NamespacedName, nodeName: Option<string>)
    requires !Whole(cfg, v, service, name)
    ensures Survives(cfg, v, RuleFor(cfg, v, service, name), nodeName) <==> Shown(cfg, v, service, nodeName)
  {
    var keys := v.services[service].keys.All();
    if keys != [] && HostKnown(cfg, v) && Known(v, nodeName) {
      LabelsShared(keys, v.nodes[NamespacedName("", cfg.hostName)].labels, NodeOf(v, nodeName).labels);
    }
  }

  lemma LabelsShared(keys: seq<string>, a: Option<map<string, string>>, b: Option<map<string, string>>)
    ensures SharesLabel(keys, a, b) <==> a.Some? && b.Some? && exists key :: key in keys && OneValue(a.value, b.value, key)
  {
    if SharesLabel(keys, a, b) {
      var i :| 0 <= i < |keys| && keys[i] in a.value && keys[i] in b.value && a.value[keys[i]] == b.value[keys[i]];
      assert OneValue(a.value, b.value, keys[i]);
    }
    if a.Some? && b.Some? && exists key :: key in keys && OneValue(a.value, b.value, key) {
      var key :| key in keys && OneValue(a.value, b.value, key);
      var i :| 0 <= i < |keys| && keys[i] == key;
    }
  }

  lemma RuleShows<T(!new)>(cfg: Config, v: View, service: NamespacedName, name: NamespacedName, s: Slice<T>,
                           nodeOf: T -> Option<string>, read: T -> Option<string>)
    requires forall t :: nodeOf(t) == read(t)
    ensures Shows(cfg, v, service, name, s, ApplyRule(cfg, v, RuleFor(cfg, v, service, name), s, nodeOf), read)
  {
    var rule := RuleFor(cfg, v, service, name);
    if !Whole(cfg, v, service, name) {
      var p: T -> bool := t => Survives(cfg, v, rule, nodeOf(t));
      var q: T -> bool := t => Shown(cfg, v, service, read(t));
      forall t ensures p(t) == q(t) { SurvivesIff(cfg, v, service, name, read(t)); }
      assert ApplyRule(cfg, v, rule, s, nodeOf).All() == Keep(s.All(), p) by { RuleMeaning(cfg, v, rule, s, nodeOf); }
      KeepAgree(s.All(), p, q);
      KeepSelects(s.All(), q);
    }
  }

  /** In cluster an annotated default/kubernetes with a readable port and address has its backends replaced by that one. */
  ghost predicate Replaced(cfg: Config, name: NamespacedName, annotations: map<string, string>, ip: string, port: int) {
    && cfg.wrapperInCluster && name == NamespacedName("default", "kubernetes")
    && "superedge.io/local-endpoint" in annotations && annotations["superedge.io/local-endpoint"] == ip && cfg.isIP(ip)
    && "superedge.io/local-port" in annotations && cfg.parsePort(annotations["superedge.io/local-port"]) == Some(port)
  }

  ghost predicate NotReplaced(cfg: Config, name: NamespacedName, annotations: map<string, string>) {
    forall ip, port :: !Replaced(cfg, name, annotations, ip, port)
  }

  lemma ReplacedIff(cfg: Config, name: NamespacedName, annotations: map<string, string>)
    ensures forall ip, port :: Replaced(cfg, name, annotations, ip, port) <==>
              cfg.wrapperInCluster && LocalEndpoint(cfg, name, annotations) == Some((ip, Port("https", port, "TCP")))
    ensures NotReplaced(cfg, name, annotations) <==> !cfg.wrapperInCluster || LocalEndpoint(cfg, name, annotations) == None
  {
    var local := LocalEndpoint(cfg, name, annotations);
    if cfg.wrapperInCluster && local.Some? {
      assert Replaced(cfg, name, annotations, local.value.0, local.value.1.port);
    }
  }

  // ---- Endpoints ----

  ghost predicate SubsetShown(cfg: Config, v: View, name: NamespacedName, s: EndpointSubset, r: EndpointSubset) {
    && r.ports == s.ports
    && Shows(cfg, v, name, name, s.addresses, r.addresses, (a: EndpointAddress) => a.nodeName)
    && Shows(cfg, v, name, name, s.notReady, r.notReady, (a: EndpointAddress) => a.nodeName)
  }

  lemma SubsetIsShown(cfg: Config, v: View, name: NamespacedName, s: EndpointSubset)
    ensures SubsetShown(cfg, v, name, s, PruneSubset(cfg, v, RuleFor(cfg, v, name, name), s))
  {
    RuleShows(cfg, v, name, name, s.addresses, AddressNode, (a: EndpointAddress) => a.nodeName);
    RuleShows(cfg, v, name, name, s.notReady, AddressNode, (a: EndpointAddress) => a.nodeName);
  }

  /** pruneEndpoints: a whole object stays as it is; otherwise each address list keeps, in order, exactly the addresses to be
      shown, and everything else stays. */
  lemma EndpointsShown(cfg: Config, v: View, o: Endpoints)
    requires NotReplaced(cfg, o.key, o.annotations)
    ensures var r := PruneEndpoints(cfg, v, o);
            && r.key == o.key && r.annotations == o.annotations && |r.subsets.All()| == |o.subsets.All()|
            && (Whole(cfg, v, o.key, o.key) ==> r == o)
            && forall i :: 0 <= i < |o.subsets.All()| ==> SubsetShown(cfg, v, o.key, o.subsets.All()[i], r.subsets.All()[i])
  {
    ReplacedIff(cfg, o.key, o.annotations);
    var r, rule := PruneEndpoints(cfg, v, o), RuleFor(cfg, v, o.key, o.key);
    if o.subsets.Items? {
      var pruned := PruneSubsets(cfg, v, rule, o.subsets.elems);
      assert r == o.(subsets := Items(pruned));
      forall i | 0 <= i < |pruned| ensures SubsetShown(cfg, v, o.key, o.subsets.elems[i], pruned[i]) {
        SubsetIsShown(cfg, v, o.key, o.subsets.elems[i]);
      }
      if Whole(cfg, v, o.key, o.key) { assert pruned == o.subsets.elems; }
    }
  }

  /** The replacement has no node, so only a whole object shows it. */
  lemma ReplacementShown(cfg: Config, v: View, o: Endpoints, ip: string, port: int)
    requires Replaced(cfg, o.key, o.annotations, ip, port)
    ensures var r := PruneEndpoints(cfg, v, o);
            && r.key == o.key && r.annotations == o.annotations && |r.subsets.All()| == 1
            && var s := r.subsets.All()[0];
               && s.ports == [Port("https", port, "TCP")] && s.notReady.All() == []
               && s.addresses.All() == if Whole(cfg, v, o.key, o.key) then [EndpointAddress(ip, None)] else []
  {
    ReplacedIff(cfg, o.key, o.annotations);
    var local := EndpointSubset(Items([EndpointAddress(ip, None)]), Nil, [Port("https", port, "TCP")]);
    assert GenLocalEndpoints(cfg, o) == o.(subsets := Items([local]));
    LocalAddressDropped(cfg, v, RuleFor(cfg, v, o.key, o.key), EndpointAddress(ip, None));
  }

  // ---- Slices ----

  /** A slice belongs to the service of its name without what follows the last dash. */
  ghost predicate SliceOf(name: NamespacedName, service: NamespacedName) {
    name.namespace == service.namespace &&
    (('-' !in name.name && name.name == service.name)
     || exists suffix :: '-' !in suffix && name.name == service.name + "-" + suffix)
  }

  lemma SliceOfIff(name: NamespacedName, service: NamespacedName)
    ensures SliceOf(name, service) <==> ServiceKeyOf(name) == service
  {
    if SliceOf(name, service) {
      if '-' !in name.name && name.name == service.name {
        DropSuffixInverts("", name.name);
      } else {
        var suffix :| '-' !in suffix && name.name == service.name + "-" + suffix;
        DropSuffixInverts(service.name, suffix);
      }
    }
    if ServiceKeyOf(name) == service { LastDash(name.name); }
  }

  lemma LastDash(name: string)
    ensures ('-' !in name && DropSuffix(name) == name) || exists suffix :: '-' !in suffix && name == DropSuffix(name) + "-" + suffix
  {
    var pieces := Split(name, '-');
    assert '-' !in pieces[|pieces| - 1] by { SplitPieces(name, '-'); }
    assert Join(pieces, '-') == name by { JoinSplit(name, '-'); }
    if |pieces| > 1 {
      PiecesBefore(pieces);
      assert name == DropSuffix(name) + "-" + pieces[|pieces| - 1];
    }
  }

  lemma PiecesBefore(pieces: seq<string>)
    requires |pieces| > 1
    ensures Join(pieces, '-') == Join(pieces[..|pieces| - 1], '-') + "-" + pieces[|pieces| - 1]
  {
    var init, last := pieces[..|pieces| - 1], pieces[|pieces| - 1];
    assert pieces == init + [last];
    JoinSnoc(init, '-', last);
  }

  /** pruneEndpointSliceV1, by the service that the slice's name gives. */
  lemma SliceV1Shown(cfg: Config, v: View, o: SliceV1, service: NamespacedName)
    requires SliceOf(o.key, service)
    ensures var r := PruneSliceV1(cfg, v, o);
            && r.key == o.key && r.annotations == o.annotations
            && (NotReplaced(cfg, o.key, o.annotations) ==>
                  r.ports == o.ports && Shows(cfg, v, service, o.key, o.endpoints, r.endpoints, (e: EndpointV1) => e.nodeName))
            && forall ip, port :: Replaced(cfg, o.key, o.annotations, ip, port) ==>
                 && r.ports == [Port("https", port, "TCP")]
                 && Shows(cfg, v, service, o.key, Items([EndpointV1([ip], None)]), r.endpoints, (e: EndpointV1) => e.nodeName)
  {
    SliceOfIff(o.key, service);
    ReplacedIff(cfg, o.key, o.annotations);
    var e := if cfg.wrapperInCluster then GenLocalSliceV1(cfg, o) else o;
    RuleShows(cfg, v, service, o.key, e.endpoints, EndpointNode, (e: EndpointV1) => e.nodeName);
  }

  /** The node a v1beta1 endpoint names: its hostname label, or "" without one. */
  ghost function NamedNode(e: EndpointV1Beta1): Option<string> {
    Some(if "kubernetes.io/hostname" in e.topology then e.topology["kubernetes.io/hostname"] else "")
  }

  /** pruneEndpointSliceV1Beta1, where the replacement names the node "". */
  lemma SliceV1Beta1Shown(cfg: Config, v: View, o: SliceV1Beta1, service: NamespacedName)
    requires SliceOf(o.key, service)
    ensures var r := PruneSliceV1Beta1(cfg, v, o);
            && r.key == o.key && r.annotations == o.annotations
            && (NotReplaced(cfg, o.key, o.annotations) ==>
                  r.ports == o.ports && Shows(cfg, v, service, o.key, o.endpoints, r.endpoints, NamedNode))
            && forall ip, port :: Replaced(cfg, o.key, o.annotations, ip, port) ==>
                 && r.ports == [Port("https", port, "TCP")]
                 && Shows(cfg, v, service, o.key, Items([EndpointV1Beta1([ip], map[])]), r.endpoints, NamedNode)
  {
    SliceOfIff(o.key, service);
    ReplacedIff(cfg, o.key, o.annotations);
    var e := if cfg.wrapperInCluster then GenLocalSliceV1Beta1(cfg, o) else o;
    RuleShows(cfg, v, service, o.key, e.endpoints, Beta1Node, NamedNode);
  }
}
