/** pkg/lite-apiserver/cache/cache_mgr.go: the cached list of a resource, kept up to date event by event from a watch. */
module WatchCache {

  datatype Key = Key(kind: string, namespace: string, name: string)
  datatype Obj = Obj(key: Key, resourceVersion: string, body: string)
  datatype EventType = Added | Modified | Deleted | Bookmark | Error
  datatype Event = Event(typ: EventType, obj: Obj)

  /** A cached list: its items and its own resource version. */
  datatype List = List(items: seq<Obj>, resourceVersion: string)

  predicate SameObj(a: Obj, b: Obj) { a.key == b.key }

  /** strconv.Atoi with its error ignored is the parameter `atoi`. */
  predicate NewVersion(atoi: string -> int, newOne: Obj, oldOne: Obj) {
    atoi(newOne.resourceVersion) > atoi(oldOne.resourceVersion)
  }

  // ---- What one event does to the list ----

  /** The first item that is the same object in an older version is replaced. */
  function Replace(atoi: string -> int, items: seq<Obj>, obj: Obj): (seq<Obj>, bool) {
    if items == [] then ([], false)
    else if SameObj(obj, items[0]) && NewVersion(atoi, obj, items[0]) then ([obj] + items[1..], true)
    else
      var (rest, updated) := Replace(atoi, items[1..], obj);
      ([items[0]] + rest, updated)
  }

  function Without(items: seq<Obj>, obj: Obj): seq<Obj> {
    if items == [] then []
    else (if SameObj(obj, items[0]) then [] else [items[0]]) + Without(items[1..], obj)
  }

  function ApplyItems(atoi: string -> int, items: seq<Obj>, e: Event): (seq<Obj>, bool) {
    match e.typ
    case Added => (items + [e.obj], true)
    case Modified => Replace(atoi, items, e.obj)
    case Deleted => (Without(items, e.obj), true)
    case _ => (items, false)
  }

  function Apply(atoi: string -> int, l: List, e: Event): List {
    var (items, updated) := ApplyItems(atoi, l.items, e);
    if updated then List(items, e.obj.resourceVersion) else l
  }

  function ApplyAll(atoi: string -> int, l: List, events: seq<Event>): List {
    if events == [] then l else Apply(atoi, ApplyAll(atoi, l, events[..|events| - 1]), events[|events| - 1])
  }

  // ---- The loops ----

  lemma {:induction false} WithoutSnoc(items: seq<Obj>, x: Obj, obj: Obj)
    ensures Without(items + [x], obj) == Without(items, obj) + if SameObj(obj, x) then [] else [x]
  {
    if items == [] {
      assert items + [x] == [x];
    } else {
      assert (items + [x])[1..] == items[1..] + [x];
      WithoutSnoc(items[1..], x, obj);
    }
  }

  /** The Deleted branch: `tmp := items[:0]` shares storage with `items`, so kept items are moved down over the ones
      being read. */
  method DeleteInPlace(items: array<Obj>, obj: Obj) returns (n: nat)
    modifies items
    ensures n <= items.Length && items[..n] == Without(old(items[..]), obj)
  {
    n := 0;
    ghost var was := items[..];
    for i := 0 to items.Length
      invariant n <= i && forall k :: i <= k < items.Length ==> items[k] == was[k]
      invariant items[..n] == Without(was[..i], obj)
    {
      assert was[..i + 1] == was[..i] + [was[i]];
      WithoutSnoc(was[..i], was[i], obj);
      var item := items[i];
      if !SameObj(obj, item) {
        items[n] := item;
        n := n + 1;
      }
    }
    assert was[..items.Length] == was;
  }

  lemma {:induction false} ReplaceSkips(atoi: string -> int, items: seq<Obj>, obj: Obj, i: nat)
    requires i <= |items|
    requires forall j :: 0 <= j < i ==> !(SameObj(obj, items[j]) && NewVersion(atoi, obj, items[j]))
    ensures Replace(atoi, items, obj).0 == items[..i] + Replace(atoi, items[i..], obj).0
    ensures Replace(atoi, items, obj).1 == Replace(atoi, items[i..], obj).1
    decreases i
  {
    if i > 0 {
      var tail := items[1..];
      assert forall j :: 0 <= j < i - 1 ==> tail[j] == items[j + 1];
      assert tail[i - 1..] == items[i..] && items[..i] == [items[0]] + tail[..i - 1];
      ReplaceSkips(atoi, tail, obj, i - 1);
      assert Replace(atoi, items, obj).0 == [items[0]] + Replace(atoi, tail, obj).0;
      Regroup(items[0], tail[..i - 1], Replace(atoi, items[i..], obj).0);
    } else {
      assert items[0..] == items;
    }
  }

  lemma Regroup(item: Obj, before: seq<Obj>, after: seq<Obj>)
    ensures [item] + (before + after) == ([item] + before) + after
  {}

  /** The Modified branch. */
  method ModifyInPlace(atoi: string -> int, items: array<Obj>, obj: Obj) returns (updated: bool)
    modifies items
    ensures (items[..], updated) == Replace(atoi, old(items[..]), obj)
  {
    ghost var was := items[..];
    for i := 0 to items.Length
      invariant items[..] == was
      invariant forall j :: 0 <= j < i ==> !(SameObj(obj, was[j]) && NewVersion(atoi, obj, was[j]))
    {
      if SameObj(obj, items[i]) && NewVersion(atoi, obj, items[i]) {
        ReplaceSkips(atoi, was, obj, i);
        items[i] := obj;
        assert was[i..][1..] == was[i + 1..];
        assert items[..] == was[..i] + ([obj] + was[i + 1..]);
        return true;
      }
    }
    ReplaceSkips(atoi, was, obj, items.Length);
    assert was[items.Length..] == [] && was[..items.Length] + [] == was;
    return false;
  }

  class CacheManager {
    /** The storage, by list key. */
    var lists: map<string, List>

    /** One round of cacheWatch: an event for a list that is not stored is dropped. */
    method HandleEvent(atoi: string -> int, key: string, e: Event)
      modifies this
      ensures lists == if key in old(lists) then old(lists)[key := Apply(atoi, old(lists)[key], e)] else old(lists)
    {
      if e.typ == Bookmark || e.typ == Error || key !in lists {
        assert key in lists ==> lists[key := lists[key]] == lists;
        return;
      }
      var l := lists[key];
      var items := new Obj[|l.items|](i requires 0 <= i < |l.items| => l.items[i]);
      assert items[..] == l.items;
      var updated, next;
      match e.typ {
        case Added =>
          next, updated := l.items + [e.obj], true;
        case Modified =>
          updated := ModifyInPlace(atoi, items, e.obj);
          next := items[..];
        case Deleted =>
          var n := DeleteInPlace(items, e.obj);
          next, updated := items[..n], true;
      }
      if !updated {
        assert lists[key := lists[key]] == lists;
        return;
      }
      lists := lists[key := List(next, e.obj.resourceVersion)];
    }
  }

  // ---- The server's keyed store ----

  type Store = map<Key, Obj>

  function Serve(store: Store, e: Event): Store {
    match e.typ
    case Added => store[e.obj.key := e.obj]
    case Modified => store[e.obj.key := e.obj]
    case Deleted => store - {e.obj.key}
    case _ => store
  }

  function ServeAll(store: Store, events: seq<Event>): Store {
    if events == [] then store else Serve(ServeAll(store, events[..|events| - 1]), events[|events| - 1])
  }

  ghost predicate Distinct(items: seq<Obj>) { forall i, j :: 0 <= i < j < |items| ==> items[i].key != items[j].key }

  /** No key twice, and the items are exactly the stored objects. */
  ghost predicate Represents(items: seq<Obj>, store: Store) {
    && Distinct(items)
    && (forall k :: k in store ==> store[k].key == k)
    && (forall o :: o in items <==> o.key in store && store[o.key] == o)
  }

  /** The event fits the store: Added for an absent object, Modified for a present one in a newer version (or the very
      same object again), Deleted and the rest always. */
  predicate Fits(atoi: string -> int, store: Store, e: Event) {
    match e.typ
    case Added => e.obj.key !in store
    case Modified => e.obj.key in store &&
      (atoi(e.obj.resourceVersion) > atoi(store[e.obj.key].resourceVersion) || store[e.obj.key] == e.obj)
    case _ => true
  }

  lemma {:induction false} WithoutMeaning(items: seq<Obj>, obj: Obj)
    ensures forall o :: o in Without(items, obj) <==> o in items && !SameObj(obj, o)
  {
    if items != [] {
      WithoutMeaning(items[1..], obj);
      assert items == [items[0]] + items[1..];
    }
  }

  lemma DistinctCons(x: Obj, rest: seq<Obj>)
    requires Distinct(rest) && forall o :: o in rest ==> o.key != x.key
    ensures Distinct([x] + rest)
  {
    var r := [x] + rest;
    forall i, j | 0 <= i < j < |r| ensures r[i].key != r[j].key {
      assert r[j] == rest[j - 1] && r[j] in rest;
      if i > 0 { assert r[i] == rest[i - 1]; }
    }
  }

  lemma DistinctTail(items: seq<Obj>)
    requires Distinct(items) && items != []
    ensures Distinct(items[1..]) && forall o :: o in items[1..] ==> o.key != items[0].key
  {
    forall o | o in items[1..] ensures o.key != items[0].key {
      var k :| 0 <= k < |items[1..]| && items[1..][k] == o;
      assert items[k + 1] == o;
    }
  }

  lemma {:induction false} WithoutKeepsDistinct(items: seq<Obj>, obj: Obj)
    requires Distinct(items)
    ensures Distinct(Without(items, obj))
  {
    if items != [] {
      DistinctTail(items);
      WithoutKeepsDistinct(items[1..], obj);
      WithoutMeaning(items[1..], obj);
      if !SameObj(obj, items[0]) {
        DistinctCons(items[0], Without(items[1..], obj));
      }
    }
  }

  predicate Outdated(atoi: string -> int, obj: Obj, item: Obj) { SameObj(obj, item) && NewVersion(atoi, obj, item) }

  /** In a list without repeats every outdated copy, of which there is at most one, is replaced and nothing else. */
  lemma {:induction false} ReplaceMeaning(atoi: string -> int, items: seq<Obj>, obj: Obj)
    requires Distinct(items)
    ensures var r := Replace(atoi, items, obj).0;
            |r| == |items| && forall i :: 0 <= i < |r| ==> r[i] == if Outdated(atoi, obj, items[i]) then obj else items[i]
  {
    if items != [] {
      DistinctTail(items);
      var tail := items[1..];
      assert forall i :: 0 < i < |items| ==> items[i] == tail[i - 1];
      if Outdated(atoi, obj, items[0]) {
        forall i | 0 < i < |items| ensures !Outdated(atoi, obj, items[i]) {
          assert tail[i - 1] in tail;
        }
      } else {
        ReplaceMeaning(atoi, tail, obj);
      }
    }
  }

  /** Where the object is held, replacing it turns the list's copy into the new version exactly when it fits. */
  lemma ReplaceHeld(atoi: string -> int, items: seq<Obj>, store: Store, obj: Obj, at: nat)
    requires Represents(items, store) && obj.key in store && at < |items| && items[at] == store[obj.key]
    ensures var r := Replace(atoi, items, obj).0;
            && |r| == |items| && Distinct(r)
            && (forall i :: 0 <= i < |r| && i != at ==> r[i] == items[i] && items[i].key != obj.key)
            && (Fits(atoi, store, Event(Modified, obj)) ==> r[at] == obj)
            && (!Fits(atoi, store, Event(Modified, obj)) ==> r[at] == items[at] != obj)
  {
    ReplaceMeaning(atoi, items, obj);
    var r := Replace(atoi, items, obj).0;
    assert forall i :: 0 <= i < |items| ==> r[i].key == items[i].key;
  }

  lemma ReplaceStep(atoi: string -> int, items: seq<Obj>, store: Store, obj: Obj)
    requires Represents(items, store)
    ensures Represents(Replace(atoi, items, obj).0, store[obj.key := obj]) <==> Fits(atoi, store, Event(Modified, obj))
  {
    if obj.key in store {
      HeldStep(atoi, items, store, obj);
    } else {
      AbsentStays(atoi, items, store, obj);
      assert obj !in Replace(atoi, items, obj).0;
    }
  }

  lemma HeldStep(atoi: string -> int, items: seq<Obj>, store: Store, obj: Obj)
    requires Represents(items, store) && obj.key in store
    ensures Represents(Replace(atoi, items, obj).0, store[obj.key := obj]) <==> Fits(atoi, store, Event(Modified, obj))
  {
    var r, store' := Replace(atoi, items, obj).0, store[obj.key := obj];
    assert store[obj.key] in items;
    var at :| 0 <= at < |items| && items[at] == store[obj.key];
    ReplaceHeld(atoi, items, store, obj, at);
    if Fits(atoi, store, Event(Modified, obj)) {
      UpdatedRepresents(items, r, store, obj, at);
    } else {
      assert r[at] in r && store'[r[at].key] != r[at];
    }
  }

  lemma UpdatedRepresents(items: seq<Obj>, r: seq<Obj>, store: Store, obj: Obj, at: nat)
    requires Represents(items, store) && obj.key in store && at < |items| == |r| && items[at] == store[obj.key] && r[at] == obj
    requires Distinct(r) && forall i :: 0 <= i < |r| && i != at ==> r[i] == items[i] && items[i].key != obj.key
    ensures Represents(r, store[obj.key := obj])
  {
    var store' := store[obj.key := obj];
    forall o ensures o in r <==> o.key in store' && store'[o.key] == o {
      UpdatedMember(items, r, store, obj, at, o);
    }
  }

  lemma UpdatedMember(items: seq<Obj>, r: seq<Obj>, store: Store, obj: Obj, at: nat, o: Obj)
    requires Represents(items, store) && obj.key in store && at < |items| == |r| && items[at] == store[obj.key] && r[at] == obj
    requires forall i :: 0 <= i < |r| && i != at ==> r[i] == items[i] && items[i].key != obj.key
    ensures o in r <==> o.key in store[obj.key := obj] && store[obj.key := obj][o.key] == o
  {
    if o.key == obj.key {
      if o in r {
        var i :| 0 <= i < |r| && r[i] == o;
      }
    } else {
      assert o in r <==> o in items by {
        if o in r {
          var i :| 0 <= i < |r| && r[i] == o;
          assert items[i] == o;
        }
        if o in items {
          var i :| 0 <= i < |items| && items[i] == o;
          assert r[i] == o;
        }
      }
    }
  }

  lemma AbsentStays(atoi: string -> int, items: seq<Obj>, store: Store, obj: Obj)
    requires Represents(items, store) && obj.key !in store
    ensures obj !in Replace(atoi, items, obj).0
  {
    forall i | 0 <= i < |items| ensures items[i].key != obj.key {
      assert items[i] in items;
    }
    ReplaceMeaning(atoi, items, obj);
  }

  /** The list keeps representing the store over an event exactly when the event fits the store: an Added for a present
      object leaves two copies, a Modified that is absent or not newer is lost, and a Deleted is always right. */
  lemma StepIff(atoi: string -> int, items: seq<Obj>, store: Store, e: Event)
    requires Represents(items, store)
    ensures Represents(ApplyItems(atoi, items, e).0, Serve(store, e)) <==> Fits(atoi, store, e)
  {
    match e.typ
    case Added =>
      var r := items + [e.obj];
      if e.obj.key in store {
        var held := store[e.obj.key];
        assert held in items;
        var at :| 0 <= at < |items| && items[at] == held;
        assert r[at].key == r[|items|].key;
      } else {
        forall i | 0 <= i < |items| ensures items[i].key != e.obj.key {
          assert items[i] in items;
        }
      }
    case Modified => ReplaceStep(atoi, items, store, e.obj);
    case Deleted =>
      WithoutMeaning(items, e.obj);
      WithoutKeepsDistinct(items, e.obj);
    case _ =>
  }

  /** Each event of the stream fits the store the events before it built. */
  ghost predicate WellFormedStream(atoi: string -> int, store: Store, events: seq<Event>) {
    forall n :: 0 <= n < |events| ==> Fits(atoi, ServeAll(store, events[..n]), events[n])
  }

  /** After every prefix of a well-formed watch stream the cached list has no key twice and holds exactly the server's
      objects. */
  lemma {:induction false} ListFollowsStore(atoi: string -> int, l: List, store: Store, events: seq<Event>, n: nat)
    requires Represents(l.items, store) && WellFormedStream(atoi, store, events) && n <= |events|
    ensures Represents(ApplyAll(atoi, l, events[..n]).items, ServeAll(store, events[..n]))
    decreases n
  {
    if n > 0 {
      ListFollowsStore(atoi, l, store, events, n - 1);
      var prefix := events[..n];
      assert prefix[..|prefix| - 1] == events[..n - 1];
      assert Fits(atoi, ServeAll(store, events[..n - 1]), events[n - 1]);
      StepIff(atoi, ApplyAll(atoi, l, events[..n - 1]).items, ServeAll(store, events[..n - 1]), events[n - 1]);
      NotUpdatedIsSame(atoi, ApplyAll(atoi, l, events[..n - 1]).items, events[n - 1]);
    }
  }

  /** An event that updates nothing leaves the items alone; in particular a stale or repeated Modified. */
  lemma {:induction false} NotUpdatedIsSame(atoi: string -> int, items: seq<Obj>, e: Event)
    ensures !ApplyItems(atoi, items, e).1 ==> ApplyItems(atoi, items, e).0 == items
  {
    if e.typ == Modified && items != [] {
      NotUpdatedIsSame(atoi, items[1..], e);
    }
  }

  /** A Modified that is not newer than any copy of its object changes neither the items nor the list's version. */
  lemma StaleModifiedIgnored(atoi: string -> int, l: List, obj: Obj)
    requires forall i :: 0 <= i < |l.items| && l.items[i].key == obj.key ==>
               atoi(obj.resourceVersion) <= atoi(l.items[i].resourceVersion)
    ensures Apply(atoi, l, Event(Modified, obj)) == l
  {
    ReplaceSkips(atoi, l.items, obj, |l.items|);
  }

  /** Deleted removes every copy, repeated or not, and nothing else. */
  lemma DeletedRemovesAllCopies(atoi: string -> int, l: List, obj: Obj)
    ensures forall o :: o in Apply(atoi, l, Event(Deleted, obj)).items <==> o in l.items && o.key != obj.key
  {
    WithoutMeaning(l.items, obj);
  }

  // ---- Which version wins ----

  /** In a list without repeats a Modified takes the place of the copy of its object exactly when its version number is
      higher, and touches nothing else. */
  lemma ModifiedIff(atoi: string -> int, l: List, obj: Obj, i: nat)
    requires Distinct(l.items) && i < |l.items|
    ensures var r := Apply(atoi, l, Event(Modified, obj)).items;
            && |r| == |l.items|
            && r[i] == if l.items[i].key == obj.key && atoi(obj.resourceVersion) > atoi(l.items[i].resourceVersion) then obj else l.items[i]
  {
    ReplaceMeaning(atoi, l.items, obj);
    NotUpdatedIsSame(atoi, l.items, Event(Modified, obj));
  }

  lemma {:induction false} ModifiedKeepKeys(atoi: string -> int, l: List, events: seq<Event>)
    requires Distinct(l.items) && forall n :: 0 <= n < |events| ==> events[n].typ == Modified
    ensures var r := ApplyAll(atoi, l, events).items;
            |r| == |l.items| && Distinct(r) && forall i :: 0 <= i < |r| ==> r[i].key == l.items[i].key
    decreases |events|
  {
    if events != [] {
      var before := ApplyAll(atoi, l, events[..|events| - 1]);
      ModifiedKeepKeys(atoi, l, events[..|events| - 1]);
      var r := Apply(atoi, before, events[|events| - 1]).items;
      forall i | 0 <= i < |before.items| ensures |r| == |before.items| && r[i].key == before.items[i].key {
        ModifiedIff(atoi, before, events[|events| - 1].obj, i);
      }
      if before.items == [] { assert r == []; }
    }
  }

  /** Over any sequence of Modified events, in whatever order they come, the copy held of an object is the one it started
      with or one of theirs, none of theirs has a higher version number, and its own never falls. */
  lemma {:induction false} NewestWins(atoi: string -> int, l: List, events: seq<Event>, i: nat)
    requires Distinct(l.items) && i < |l.items| && forall n :: 0 <= n < |events| ==> events[n].typ == Modified
    ensures |ApplyAll(atoi, l, events).items| == |l.items|
    ensures var held := ApplyAll(atoi, l, events).items[i];
            && held.key == l.items[i].key && atoi(held.resourceVersion) >= atoi(l.items[i].resourceVersion)
            && (held == l.items[i] || exists n :: 0 <= n < |events| && events[n].obj == held)
            && forall n :: 0 <= n < |events| && events[n].obj.key == held.key ==>
                 atoi(events[n].obj.resourceVersion) <= atoi(held.resourceVersion)
    decreases |events|
  {
    ModifiedKeepKeys(atoi, l, events);
    if events != [] {
      var n := |events| - 1;
      ModifiedKeepKeys(atoi, l, events[..n]);
      NewestWins(atoi, l, events[..n], i);
      ModifiedIff(atoi, ApplyAll(atoi, l, events[..n]), events[n].obj, i);
      var held := ApplyAll(atoi, l, events[..n]).items[i];
      if m :| 0 <= m < n && events[..n][m].obj == held { assert events[m].obj == held; }
      assert forall m :: 0 <= m < n ==> events[..n][m] == events[m];
    }
  }

  /** The event changes the list: every Added and Deleted, and a Modified newer than some copy of its object. */
  predicate Changes(atoi: string -> int, l: List, e: Event) {
    match e.typ
    case Added => true
    case Modified =>
      exists i :: 0 <= i < |l.items| && l.items[i].key == e.obj.key && atoi(e.obj.resourceVersion) > atoi(l.items[i].resourceVersion)
    case Deleted => true
    case _ => false
  }

  lemma {:induction false} UpdatedIff(atoi: string -> int, items: seq<Obj>, obj: Obj)
    ensures Replace(atoi, items, obj).1 <==>
            exists i :: 0 <= i < |items| && items[i].key == obj.key && atoi(obj.resourceVersion) > atoi(items[i].resourceVersion)
  {
    if items != [] {
      UpdatedIff(atoi, items[1..], obj);
      assert forall i :: 0 < i < |items| ==> items[i] == items[1..][i - 1];
    }
  }

  /** The list's own version is that of the last event that changed it. */
  lemma {:induction false} ListVersion(atoi: string -> int, l: List, events: seq<Event>)
    requires events != []
    ensures var before, e := ApplyAll(atoi, l, events[..|events| - 1]), events[|events| - 1];
            if Changes(atoi, before, e) then ApplyAll(atoi, l, events).resourceVersion == e.obj.resourceVersion
            else ApplyAll(atoi, l, events) == before
  {
    var before, e := ApplyAll(atoi, l, events[..|events| - 1]), events[|events| - 1];
    if e.typ == Modified { UpdatedIff(atoi, before.items, e.obj); }
  }
}
