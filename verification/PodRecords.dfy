/** From the pods of one statefulset to its DNS records: syncDnsHosts (pkg/statefulset-grid-daemon/controller/controller.go),
    IsMemberOf (pkg/statefulset-grid-daemon/util/stateful_set_utils.go) and the record pattern of hosts.go. */
module PodRecords {
  import opened Basics
  import opened HostsFile
  import opened HostsReconcile
  import opened RecordPattern

  datatype Pod = Pod(name: string, ip: string, owner: Option<(string, string)>)  // owner: name and UID
  datatype StatefulSet = StatefulSet(name: string, uid: string, namespace: string, serviceName: string)

  // ---- Membership ----

  function LastDash(s: string): (i: nat)
    ensures i <= |s| && (i < |s| ==> s[i] == '-' && forall j :: i < j < |s| ==> s[j] != '-')
    ensures i == |s| ==> forall j :: 0 <= j < |s| ==> s[j] != '-'
  {
    if s == [] then 0
    else if s[|s| - 1] == '-' then |s| - 1
    else
      var i := LastDash(s[..|s| - 1]);
      if i == |s| - 1 then |s| else i
  }

  /** The first group of "(.*)-([0-9]+)$": what stands before the last dash, if only digits follow it. */
  function ParentName(pod: string): string {
    var i := LastDash(pod);
    if i == |pod| || !IsOrdinal(pod[i + 1..]) then "" else pod[..i]
  }

  predicate IsMemberOf(sts: StatefulSet, pod: Pod) {
    pod.owner == Some((sts.name, sts.uid)) && ParentName(pod.name) == sts.name
  }

  /** A pod is its parent's name, a dash and an ordinal. */
  lemma ParentNameIff(pod: string, parent: string)
    requires parent != ""
    ensures ParentName(pod) == parent <==>
            |pod| > |parent| + 1 && pod[..|parent|] == parent && pod[|parent|] == '-' && IsOrdinal(pod[|parent| + 1..])
  {
    var i, p := LastDash(pod), |parent|;
    if |pod| > p + 1 && pod[..p] == parent && pod[p] == '-' && IsOrdinal(pod[p + 1..]) {
      forall j | p < j < |pod| ensures pod[j] != '-' {
        assert IsDigit(pod[p + 1..][j - p - 1]);
      }
      assert i == p;
    }
  }

  // ---- Dropping the grid value ----

  function IndexFrom(s: string, p: string, i: nat): (r: Option<nat>)
    requires i <= |s|
    ensures r.Some? ==> i <= r.value && OccursAt(s, p, r.value) && forall j :: i <= j < r.value ==> !OccursAt(s, p, j)
    ensures r.None? ==> forall j :: i <= j ==> !OccursAt(s, p, j)
    decreases |s| - i
  {
    if OccursAt(s, p, i) then Some(i) else if i == |s| then None else IndexFrom(s, p, i + 1)
  }

  /** strings.Index: where `p` first occurs. */
  function Index(s: string, p: string): Option<nat> { IndexFrom(s, p, 0) }

  /** No occurrence, a slice past the end of the name, or the name that is left. */
  datatype Shortened = NotFound | OutOfBounds | Short(name: string)

  /** The pod name without the first occurrence of the grid value and the character after it. */
  function Shorten(pod: string, grid: string): Shortened {
    match Index(pod, grid)
    case None => NotFound
    case Some(i) => if i + |grid| + 1 <= |pod| then Short(pod[..i] + pod[i + |grid| + 1..]) else OutOfBounds
  }

  /** Cutting the same number of characters out at two places gives the same string exactly when the stretch between
      them repeats with that period. */
  lemma CutsAgreeIff(s: string, i: nat, p: nat, n: nat)
    requires i <= p && p + n <= |s|
    ensures s[..i] + s[i + n..] == s[..p] + s[p + n..] <==> s[i..p] == s[i + n..p + n]
  {
    var a, b := s[..i] + s[i + n..], s[..p] + s[p + n..];
    if s[i..p] == s[i + n..p + n] {
      forall j | 0 <= j < |a| ensures a[j] == b[j] {
        if i <= j < p { assert s[i..p][j - i] == s[i + n..p + n][j - i]; }
      }
    }
    if a == b {
      forall j | 0 <= j < p - i ensures s[i..p][j] == s[i + n..p + n][j] {
        assert a[i + j] == b[i + j];
      }
    }
  }

  /** With the grid value standing at `p`, the cut is made at `p` or gives the same as if it were, exactly when the name
      repeats between the first occurrence and `p`. */
  lemma ShortenAt(pod: string, grid: string, p: nat)
    requires OccursAt(pod, grid, p) && p + |grid| + 1 <= |pod|
    ensures Index(pod, grid).Some? && Index(pod, grid).value <= p && Shorten(pod, grid).Short?
    ensures var i, n := Index(pod, grid).value, |grid| + 1;
            Shorten(pod, grid) == Short(pod[..p] + pod[p + n..]) <==> pod[i..p] == pod[i + n..p + n]
  {
    CutsAgreeIff(pod, Index(pod, grid).value, p, |grid| + 1);
  }

  /** For a pod named controller-grid-ordinal the shortened name is controller-ordinal exactly when the first occurrence of
      the grid value is the one after the controller, or the name repeats between the two. */
  lemma ShortenIff(pod: string, controller: string, grid: string, ordinal: string)
    requires pod == controller + "-" + grid + "-" + ordinal
    ensures Index(pod, grid).Some? && Index(pod, grid).value <= |controller| + 1
    ensures var i, p, n := Index(pod, grid).value, |controller| + 1, |grid| + 1;
            Shorten(pod, grid) == Short(controller + "-" + ordinal) <==> pod[i..p] == pod[i + n..p + n]
  {
    var p, n := |controller| + 1, |grid| + 1;
    assert pod == (controller + "-") + grid + ("-" + ordinal);
    assert pod[p..p + |grid|] == grid;
    ShortenAt(pod, grid, p);
    assert pod[..p] == controller + "-";
    assert pod[p + n..] == ordinal;
  }

  /** The grid value is cut out of the set's own name, so it is found in every member's name and the cut is in bounds. */
  lemma MemberShortens(sts: StatefulSet, pod: Pod, c: nat)
    requires c + 1 <= |sts.name| && IsMemberOf(sts, pod)
    ensures Shorten(pod.name, sts.name[c + 1..]).Short?
  {
    ParentNameIff(pod.name, sts.name);
    var grid := sts.name[c + 1..];
    assert pod.name[c + 1..c + 1 + |grid|] == pod.name[..|sts.name|][c + 1..];
    ShortenAt(pod.name, grid, c + 1);
  }

  /** Controller "abc-b" with grid value "b": the first "b" is inside the controller, and the record is misnamed. */
  lemma MisnamedRecord()
    ensures Shorten("abc-b-b-0", "b") == Short("a-b-b-0")
  {
    var pod := "abc-b-b-0";
    assert pod[1..2] == "b" && pod[0..1] == "a";
    assert OccursAt(pod, "b", 1) && !OccursAt(pod, "b", 0);
    assert pod[..1] + pod[3..] == "a-b-b-0";
  }

  // ---- Building the records ----

  function Record(name: string, sts: StatefulSet): string {
    name + "." + sts.serviceName + "." + sts.namespace + SUFFIX
  }

  /** The record of a member pod that has an address and whose name could be shortened. */
  function DomainOf(sts: StatefulSet, grid: string, pod: Pod): Option<string> {
    if IsMemberOf(sts, pod) && Shorten(pod.name, grid).Short? && pod.ip != ""
    then Some(Record(Shorten(pod.name, grid).name, sts))
    else None
  }

  function Naming(sts: StatefulSet, grid: string): Pod -> Option<string> { pod => DomainOf(sts, grid, pod) }

  /** One entry per named pod; a later pod replaces an earlier one of the same name. */
  function Fill(naming: Pod -> Option<string>, pods: seq<Pod>): Hosts {
    if pods == [] then map[]
    else
      var n := |pods| - 1;
      match naming(pods[n])
      case None => Fill(naming, pods[..n])
      case Some(d) => Fill(naming, pods[..n])[d := pods[n].ip]
  }

  function Records(sts: StatefulSet, grid: string, pods: seq<Pod>): Hosts { Fill(Naming(sts, grid), pods) }

  /** The loops of syncDnsHosts, None being a panic: cutting the grid value out of the set's name panics exactly when that
      name is too short, and cutting it out of a member's name never does. */
  method BuildRecords(sts: StatefulSet, controller: string, pods: seq<Pod>) returns (records: Option<Hosts>)
    ensures records.None? <==> |sts.name| < |controller| + 1
    ensures records.Some? ==> records.value == Records(sts, sts.name[|controller| + 1..], pods)
  {
    var members := CollectMembers(sts, pods);
    if |sts.name| < |controller| + 1 { return None; }
    var grid := sts.name[|controller| + 1..];
    forall i | 0 <= i < |members| ensures IsMemberOf(sts, members[i]) && Shorten(members[i].name, grid).Short? {
      MembersAreMembers(sts, pods, i);
      MemberShortens(sts, members[i], |controller|);
    }
    records := FillRecords(sts, grid, members);
    MembersSuffice(sts, grid, pods);
  }

  method CollectMembers(sts: StatefulSet, pods: seq<Pod>) returns (members: seq<Pod>)
    ensures members == Members(sts, pods)
  {
    members := [];
    for i := 0 to |pods|
      invariant members == Members(sts, pods[..i])
    {
      assert pods[..i + 1][..i] == pods[..i];
      if IsMemberOf(sts, pods[i]) {
        members := members + [pods[i]];
      }
    }
    assert pods[..|pods|] == pods;
  }

  method FillRecords(sts: StatefulSet, grid: string, members: seq<Pod>) returns (records: Option<Hosts>)
    requires forall i :: 0 <= i < |members| ==> IsMemberOf(sts, members[i])
    ensures records.None? <==> exists i :: 0 <= i < |members| && Shorten(members[i].name, grid).OutOfBounds?
    ensures records.Some? ==> records.value == Records(sts, grid, members)
  {
    var filled: Hosts := map[];
    for i := 0 to |members|
      invariant filled == Records(sts, grid, members[..i])
      invariant forall j :: 0 <= j < i ==> !Shorten(members[j].name, grid).OutOfBounds?
    {
      var pod := members[i];
      FillStep(sts, grid, members, i);
      match Shorten(pod.name, grid) {
        case NotFound =>
        case OutOfBounds =>
          return None;
        case Short(name) =>
          if pod.ip != "" {
            filled := filled[Record(name, sts) := pod.ip];
          }
      }
    }
    assert members[..|members|] == members;
    return Some(filled);
  }

  lemma FillStep(sts: StatefulSet, grid: string, pods: seq<Pod>, i: nat)
    requires i < |pods| && IsMemberOf(sts, pods[i])
    ensures Records(sts, grid, pods[..i + 1]) ==
            match DomainOf(sts, grid, pods[i])
            case None => Records(sts, grid, pods[..i])
            case Some(d) => Records(sts, grid, pods[..i])[d := pods[i].ip]
  {
    assert pods[..i + 1][..i] == pods[..i];
    assert Naming(sts, grid)(pods[i]) == DomainOf(sts, grid, pods[i]);
  }

  function Members(sts: StatefulSet, pods: seq<Pod>): seq<Pod> {
    if pods == [] then []
    else
      var n := |pods| - 1;
      Members(sts, pods[..n]) + if IsMemberOf(sts, pods[n]) then [pods[n]] else []
  }

  lemma {:induction false} MembersAreMembers(sts: StatefulSet, pods: seq<Pod>, i: nat)
    requires i < |Members(sts, pods)|
    ensures IsMemberOf(sts, Members(sts, pods)[i])
    decreases |pods|
  {
    var n := |pods| - 1;
    if i < |Members(sts, pods[..n])| { MembersAreMembers(sts, pods[..n], i); }
  }

  lemma {:induction false} MembersSuffice(sts: StatefulSet, grid: string, pods: seq<Pod>)
    ensures Records(sts, grid, Members(sts, pods)) == Records(sts, grid, pods)
    decreases |pods|
  {
    if pods != [] {
      var n := |pods| - 1;
      MembersSuffice(sts, grid, pods[..n]);
      MemberAdds(sts, grid, Members(sts, pods[..n]), pods[..n], pods[n]);
      assert pods == pods[..n] + [pods[n]];
    }
  }

  lemma MemberAdds(sts: StatefulSet, grid: string, members: seq<Pod>, pods: seq<Pod>, pod: Pod)
    requires Records(sts, grid, members) == Records(sts, grid, pods)
    ensures Records(sts, grid, members + if IsMemberOf(sts, pod) then [pod] else []) == Records(sts, grid, pods + [pod])
  {
    assert Naming(sts, grid)(pod) == DomainOf(sts, grid, pod);
    assert (pods + [pod])[..|pods|] == pods;
    if IsMemberOf(sts, pod) {
      assert (members + [pod])[..|members|] == members;
    } else {
      assert members + [] == members;
    }
  }

  /** In every member pod the grid value is first found right after the controller. */
  ghost predicate GridFound(sts: StatefulSet, controller: string, grid: string, pods: seq<Pod>) {
    forall i :: 0 <= i < |pods| && IsMemberOf(sts, pods[i]) ==> Index(pods[i].name, grid) == Some(|controller| + 1)
  }

  function OrdinalOf(sts: StatefulSet, pod: Pod): string
    requires |pod.name| > |sts.name|
  {
    pod.name[|sts.name| + 1..]
  }

  lemma MemberDomain(sts: StatefulSet, controller: string, grid: string, pod: Pod)
    requires sts.name == controller + "-" + grid && IsMemberOf(sts, pod) && Index(pod.name, grid) == Some(|controller| + 1)
    ensures |pod.name| > |sts.name| + 1 && Shorten(pod.name, grid) == Short(controller + "-" + OrdinalOf(sts, pod))
    ensures pod.name == sts.name + "-" + OrdinalOf(sts, pod)
  {
    ParentNameIff(pod.name, sts.name);
    assert pod.name == pod.name[..|sts.name|] + [pod.name[|sts.name|]] + pod.name[|sts.name| + 1..];
    assert pod.name[..|controller| + 1] == controller + "-";
  }

  /** The last pod with a record named `d`, or the number of pods. */
  ghost function LastNamed(naming: Pod -> Option<string>, pods: seq<Pod>, d: string): (i: nat)
    ensures i <= |pods| && (i < |pods| ==> naming(pods[i]) == Some(d))
    ensures forall j :: 0 <= j < |pods| && (i == |pods| || i < j) ==> naming(pods[j]) != Some(d)
  {
    if pods == [] then 0
    else
      var n := |pods| - 1;
      if naming(pods[n]) == Some(d) then n
      else
        var i := LastNamed(naming, pods[..n], d);
        assert forall j :: 0 <= j < n ==> pods[..n][j] == pods[j];
        if i == n then n + 1 else i
  }

  /** The records are those of the named pods, each with the address of the last pod of that name. */
  lemma {:induction false} FillMeaning(naming: Pod -> Option<string>, pods: seq<Pod>, d: string)
    ensures var i := LastNamed(naming, pods, d);
            (d in Fill(naming, pods) <==> i < |pods|) && (i < |pods| ==> Fill(naming, pods)[d] == pods[i].ip)
  {
    if pods != [] {
      FillMeaning(naming, pods[..|pods| - 1], d);
    }
  }

  /** One `<controller>-<ordinal>` record per member pod with an address, holding that address, and no other record. */
  lemma OneRecordPerPod(sts: StatefulSet, controller: string, grid: string, pods: seq<Pod>, i: nat)
    requires sts.name == controller + "-" + grid && GridFound(sts, controller, grid, pods)
    requires forall j, k :: 0 <= j < k < |pods| ==> pods[j].name != pods[k].name
    requires i < |pods| && IsMemberOf(sts, pods[i]) && pods[i].ip != ""
    ensures |pods[i].name| > |sts.name|
    ensures var d := Record(controller + "-" + OrdinalOf(sts, pods[i]), sts);
            var records := Records(sts, grid, pods);
            && d in records && records[d] == pods[i].ip
            && (forall j :: 0 <= j < |pods| && DomainOf(sts, grid, pods[j]) == Some(d) ==> j == i)
  {
    MemberDomain(sts, controller, grid, pods[i]);
    var d := Record(controller + "-" + OrdinalOf(sts, pods[i]), sts);
    assert DomainOf(sts, grid, pods[i]) == Some(d);
    forall j | 0 <= j < |pods| && DomainOf(sts, grid, pods[j]) == Some(d) ensures j == i {
      MemberDomain(sts, controller, grid, pods[j]);
      SameRecordSamePod(sts, controller, OrdinalOf(sts, pods[i]), OrdinalOf(sts, pods[j]));
    }
    var naming := Naming(sts, grid);
    assert forall j :: 0 <= j < |pods| ==> naming(pods[j]) == DomainOf(sts, grid, pods[j]);
    FillMeaning(naming, pods, d);
  }

  lemma SameRecordSamePod(sts: StatefulSet, controller: string, a: string, b: string)
    requires Record(controller + "-" + a, sts) == Record(controller + "-" + b, sts)
    ensures a == b
  {
    var tail := "." + sts.serviceName + "." + sts.namespace + SUFFIX;
    assert Record(controller + "-" + a, sts) == controller + "-" + a + tail;
    assert Record(controller + "-" + b, sts) == controller + "-" + b + tail;
    DropTail(controller + "-", a, b, tail);
  }

  lemma DropTail(head: string, a: string, b: string, tail: string)
    requires head + a + tail == head + b + tail
    ensures a == b
  {
    assert |a| == |b|;
    assert a == (head + a + tail)[|head|..|head| + |a|] && b == (head + b + tail)[|head|..|head| + |b|];
  }

  // ---- A whole sync ----

  /** The pod is owned by the set and named by it, a dash and digits, has an address, and `d` is the controller's name, a
      dash and those digits in the service's domain. */
  predicate RecordOfPod(sts: StatefulSet, controller: string, pod: Pod, d: string) {
    pod.owner == Some((sts.name, sts.uid)) && pod.ip != "" && |pod.name| > |sts.name| + 1
    && pod.name[..|sts.name|] == sts.name && pod.name[|sts.name|] == '-' &&
    var digits := pod.name[|sts.name| + 1..];
    && (forall i :: 0 <= i < |digits| ==> '0' <= digits[i] <= '9')
    && d == controller + "-" + digits + "." + sts.serviceName + "." + sts.namespace + ".svc.cluster.local"
  }

  lemma RecordOfPodIff(sts: StatefulSet, controller: string, pod: Pod, d: string)
    requires sts.name != ""
    ensures RecordOfPod(sts, controller, pod, d) <==>
            IsMemberOf(sts, pod) && pod.ip != "" && |pod.name| > |sts.name| && d == Record(controller + "-" + OrdinalOf(sts, pod), sts)
  {
    ParentNameIff(pod.name, sts.name);
  }

  /** A whole sync: whatever was in memory, the records of this grid and service are then exactly one per member pod with
      an address. */
  lemma SyncedRecords(sts: StatefulSet, controller: string, grid: string, pods: seq<Pod>, m: Hosts, matches: string -> bool,
                      d: string)
    requires sts.name == controller + "-" + grid && GridFound(sts, controller, grid, pods)
    requires forall j, k :: 0 <= j < k < |pods| ==> pods[j].name != pods[k].name
    requires forall e :: matches(e) <==> IsMatchDomain(e, controller, sts.serviceName, sts.namespace)
    ensures var after := Reconciled(m, Records(sts, grid, pods), matches);
            && (forall i :: 0 <= i < |pods| && RecordOfPod(sts, controller, pods[i], d) ==>
                              matches(d) && d in after && after[d] == pods[i].ip)
            && (matches(d) && d in after ==> exists i :: 0 <= i < |pods| && RecordOfPod(sts, controller, pods[i], d))
  {
    var records := Records(sts, grid, pods);
    forall i | 0 <= i < |pods| && RecordOfPod(sts, controller, pods[i], d)
      ensures matches(d) && d in records && records[d] == pods[i].ip
    {
      RecordOfPodIff(sts, controller, pods[i], d);
      OneRecordPerPod(sts, controller, grid, pods, i);
      MemberOrdinal(sts, pods[i]);
      OwnRecordMatches(controller, OrdinalOf(sts, pods[i]), sts.serviceName, sts.namespace);
      assert d == controller + "-" + OrdinalOf(sts, pods[i]) + "." + sts.serviceName + "." + sts.namespace + SUFFIX;
    }
    if matches(d) && d in records {
      PodOfRecord(sts, controller, grid, pods, d);
    }
  }

  lemma MemberOrdinal(sts: StatefulSet, pod: Pod)
    requires sts.name != "" && IsMemberOf(sts, pod)
    ensures |pod.name| > |sts.name| && IsOrdinal(OrdinalOf(sts, pod))
  {
    ParentNameIff(pod.name, sts.name);
  }

  lemma PodOfRecord(sts: StatefulSet, controller: string, grid: string, pods: seq<Pod>, d: string)
    requires sts.name == controller + "-" + grid && GridFound(sts, controller, grid, pods)
    requires d in Records(sts, grid, pods)
    ensures exists i :: 0 <= i < |pods| && RecordOfPod(sts, controller, pods[i], d)
  {
    var naming := Naming(sts, grid);
    FillMeaning(naming, pods, d);
    var i := LastNamed(naming, pods, d);
    assert DomainOf(sts, grid, pods[i]) == Some(d);
    MemberDomain(sts, controller, grid, pods[i]);
    RecordOfPodIff(sts, controller, pods[i], d);
    assert RecordOfPod(sts, controller, pods[i], d);
  }
}
