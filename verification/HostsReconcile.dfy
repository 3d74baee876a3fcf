/** The Hosts manager of statefulset-grid-daemon: an in-memory map kept in step with a file
    (pkg/statefulset-grid-daemon/hosts/hosts.go). */
module HostsReconcile {
  import opened Basics
  import opened HostsFile
  import opened Strings

  /** How a write of the file ends; a failed one may leave anything behind. */
  datatype WriteOutcome = Written | Failed(leftover: string)

  /** The records of other workloads, and every desired record. */
  function Reconciled(m: Hosts, desired: Hosts, matches: string -> bool): Hosts {
    (map d | d in m && !matches(d) :: m[d]) + desired
  }

  /** Something matching must go or change, or something desired is not a matching record yet. */
  ghost predicate NeedsWrite(m: Hosts, desired: Hosts, matches: string -> bool) {
    || (exists d :: d in m && matches(d) && (d !in desired || desired[d] != m[d]))
    || (exists d :: d in desired && !(d in m && matches(d)))
  }

  /** The map in memory and the file. */
  datatype Snapshot = Snapshot(memory: Hosts, disk: Option<string>)

  /** The parsed file is the map in memory, and every entry survives being printed. */
  ghost predicate InStep(isIP: string -> bool, s: Snapshot) {
    s.disk.Some? && Load(isIP, s.disk.value, map[]) == s.memory && AllOk(isIP, s.memory)
  }

  /** The file is the memory printed in some order. */
  ghost predicate Saved(s: Snapshot) { exists order :: Enumerates(order, s.memory) && s.disk == Some(Print(s.memory, order)) }

  // ---- What a successful call does ----

  ghost predicate LoadStep(isIP: string -> bool, s: Snapshot, s': Snapshot) {
    s' == if s.disk.Some? then Snapshot(Load(isIP, s.disk.value, s.memory), s.disk) else Snapshot(map[], Some(""))
  }

  ghost predicate CheckStep(s: Snapshot, desired: Hosts, matches: string -> bool, s': Snapshot) {
    && s'.memory == Reconciled(s.memory, desired, matches)
    && if NeedsWrite(s.memory, desired, matches) then Saved(s') else s' == s
  }

  ghost predicate SetStep(s: Snapshot, m: Hosts, s': Snapshot) {
    s'.memory == m && if m == s.memory then s' == s else Saved(s')
  }

  class HostsManager {
    var hostsMap: Hosts
    var disk: Option<string>

    constructor (disk: Option<string>)
      ensures hostsMap == map[] && this.disk == disk
    {
      hostsMap := map[];
      this.disk := disk;
    }

    ghost function Now(): Snapshot
      reads this
    {
      Snapshot(hostsMap, disk)
    }

    /** Entries are added to what is already in memory; a missing file is created empty and clears the map. Any other read
        error, or a failed creation, changes nothing. */
    method LoadHosts(isIP: string -> bool, readError: bool, createError: bool) returns (ok: bool)
      modifies this
      ensures ok <==> !readError && (old(disk).Some? || !createError)
      ensures ok ==> LoadStep(isIP, old(Now()), Now())
      ensures !ok ==> Now() == old(Now())
    {
      if readError { return false; }
      if disk.None? {
        if createError { return false; }
        disk, hostsMap := Some(""), map[];
        return true;
      }
      var lines := Split(Trim(disk.value, FILE_EDGES), '\n');
      for i := 0 to |lines|
        invariant disk == old(disk)
        invariant LoadLines(Parser(isIP), lines[i..], hostsMap) == Load(isIP, disk.value, old(hostsMap))
      {
        assert lines[i..][1..] == lines[i + 1..];
        var parsed := ParseLine(isIP, lines[i]);
        assert parsed == Parser(isIP)(lines[i..][0]);
        if parsed.Some? {
          hostsMap := hostsMap[parsed.value.0 := parsed.value.1];
        }
      }
      return true;
    }

    method SaveHosts(write: WriteOutcome) returns (ok: bool)
      modifies this`disk
      ensures ok == write.Written? && disk.Some?
      ensures if ok then Saved(Now()) else disk == Some(write.leftover)
    {
      var hf;
      ghost var order;
      hf, order := ParseHostsToFile(hostsMap);
      disk := Some(if write.Written? then hf else write.leftover);
      ok := write.Written?;
    }

    /** For every iteration order: memory ends with exactly the reconciled records, also when the write fails; the file is
        written only if needed. */
    method CheckOrUpdateHosts(desired: Hosts, matches: string -> bool, write: WriteOutcome) returns (ok: bool)
      modifies this
      ensures hostsMap == Reconciled(old(hostsMap), desired, matches)
      ensures ok <==> write.Written? || !NeedsWrite(old(hostsMap), desired, matches)
      ensures ok ==> CheckStep(old(Now()), desired, matches, Now())
      ensures !ok ==> disk == Some(write.leftover)
    {
      ghost var before := hostsMap;
      var wanted, changed := SyncMatching(desired, matches);
      HalfwayEnds(before, desired, matches);
      WriteNeeded(before, desired, matches);
      if !changed && wanted == map[] {
        NothingToDo(before, desired, matches);
        assert hostsMap + map[] == hostsMap;
        return true;
      }
      AddWanted(wanted);
      ok := SaveHosts(write);
    }

    /** The first loop: matching records are deleted, updated or left, and settled ones leave the wanted set. */
    method SyncMatching(desired: Hosts, matches: string -> bool) returns (wanted: Hosts, changed: bool)
      modifies this`hostsMap
      ensures hostsMap == Halfway(old(hostsMap), desired, matches, {})
      ensures wanted == desired - Settled(old(hostsMap), matches, {})
      ensures changed <==> Changes(old(hostsMap), desired, matches, {})
    {
      ghost var before := hostsMap;
      wanted, changed := desired, false;
      var todo := hostsMap.Keys;
      assert Settled(before, matches, todo) == {};
      assert desired - {} == desired;
      while todo != {}
        invariant todo <= before.Keys
        invariant hostsMap == Halfway(before, desired, matches, todo)
        invariant wanted == desired - Settled(before, matches, todo)
        invariant changed <==> Changes(before, desired, matches, todo)
      {
        var domain :| domain in todo;
        HalfwayStep(before, desired, matches, todo, domain);
        WantedStep(before, desired, matches, todo, domain);
        var ip := hostsMap[domain];
        if matches(domain) {
          if domain !in wanted {
            hostsMap := hostsMap - {domain};
            changed := true;
          } else if wanted[domain] != ip {
            hostsMap := hostsMap[domain := wanted[domain]];
            wanted := wanted - {domain};
            changed := true;
          } else {
            wanted := wanted - {domain};
          }
        }
        todo := todo - {domain};
      }
    }

    /** The second loop: what is still wanted is added. */
    method AddWanted(wanted: Hosts)
      modifies this`hostsMap
      ensures hostsMap == old(hostsMap) + wanted
    {
      ghost var kept := hostsMap;
      var left := wanted.Keys;
      assert wanted - left == map[];
      while left != {}
        invariant left <= wanted.Keys && hostsMap == kept + (wanted - left)
      {
        var domain :| domain in left;
        hostsMap := hostsMap[domain := wanted[domain]];
        assert kept + (wanted - (left - {domain})) == (kept + (wanted - left))[domain := wanted[domain]];
        left := left - {domain};
      }
      assert wanted - {} == wanted;
    }

    /** The whole map is replaced, or kept if the file cannot be written. */
    method SetHostsByMap(m: Hosts, write: WriteOutcome) returns (ok: bool)
      modifies this
      ensures ok <==> write.Written? || m == old(hostsMap)
      ensures ok ==> SetStep(old(Now()), m, Now())
      ensures !ok ==> hostsMap == old(hostsMap) && disk == Some(write.leftover)
    {
      if m == hostsMap { return true; }
      var original := hostsMap;
      hostsMap := m;
      ok := SaveHosts(write);
      if !ok {
        hostsMap := original;
      }
    }
  }

  // ---- Whole runs of successful calls ----

  datatype Call = LoadCall | CheckCall(desired: Hosts, matches: string -> bool) | SetCall(m: Hosts)

  ghost predicate CallStep(isIP: string -> bool, s: Snapshot, c: Call, s': Snapshot) {
    match c
    case LoadCall => LoadStep(isIP, s, s')
    case CheckCall(desired, matches) => CheckStep(s, desired, matches, s')
    case SetCall(m) => SetStep(s, m, s')
  }

  /** The records handed in survive being printed. */
  ghost predicate CallOk(isIP: string -> bool, c: Call) {
    match c
    case LoadCall => true
    case CheckCall(desired, _) => AllOk(isIP, desired)
    case SetCall(m) => AllOk(isIP, m)
  }

  /** `trace` are the snapshots before, between and after the calls. */
  ghost predicate IsRun(isIP: string -> bool, calls: seq<Call>, trace: seq<Snapshot>) {
    |trace| == |calls| + 1 && forall i :: 0 <= i < |calls| ==> CallStep(isIP, trace[i], calls[i], trace[i + 1])
  }

  lemma SavedInStep(isIP: string -> bool, s: Snapshot)
    requires IpSyntax(isIP) && AllOk(isIP, s.memory) && Saved(s)
    ensures InStep(isIP, s)
  {
    var order :| Enumerates(order, s.memory) && s.disk == Some(Print(s.memory, order));
    RoundTrip(isIP, s.memory, order);
  }

  /** Loading over entries already in memory adds the file's to them. */
  lemma {:induction false} LoadOver(parse: string -> Option<(string, string)>, lines: seq<string>, m: Hosts, n: Hosts)
    ensures LoadLines(parse, lines, m + n) == m + LoadLines(parse, lines, n)
    decreases |lines|
  {
    if lines != [] {
      match parse(lines[0]) {
        case None => LoadOver(parse, lines[1..], m, n);
        case Some((domain, ip)) =>
          assert (m + n)[domain := ip] == m + n[domain := ip];
          LoadOver(parse, lines[1..], m, n[domain := ip]);
      }
    }
  }

  lemma LoadAgain(isIP: string -> bool, s: Snapshot)
    requires InStep(isIP, s)
    ensures Load(isIP, s.disk.value, s.memory) == s.memory
  {
    LoadOver(Parser(isIP), Split(Trim(s.disk.value, FILE_EDGES), '\n'), s.memory, map[]);
    assert s.memory + map[] == s.memory;
  }

  lemma CallKeepsStep(isIP: string -> bool, s: Snapshot, c: Call, s': Snapshot)
    requires IpSyntax(isIP) && InStep(isIP, s) && CallOk(isIP, c) && CallStep(isIP, s, c, s')
    ensures InStep(isIP, s')
  {
    match c
    case LoadCall => LoadAgain(isIP, s);
    case CheckCall(desired, matches) =>
      if NeedsWrite(s.memory, desired, matches) {
        ReconciledOk(isIP, s.memory, desired, matches);
        SavedInStep(isIP, s');
      }
    case SetCall(m) => if m != s.memory { SavedInStep(isIP, s'); }
  }

  /** From a fresh manager that first loads a file without carriage returns, or finds none, the parsed file equals the map in
      memory after every later call that succeeds, in any order and number, for records that survive being printed. */
  lemma {:induction false} FileFollowsMemory(isIP: string -> bool, calls: seq<Call>, trace: seq<Snapshot>, n: nat)
    requires IpSyntax(isIP) && IsRun(isIP, calls, trace) && 0 < n < |trace| && calls[0] == LoadCall
    requires trace[0].memory == map[] && (trace[0].disk.Some? ==> '\r' !in trace[0].disk.value)
    requires forall i :: 0 <= i < |calls| ==> CallOk(isIP, calls[i])
    ensures InStep(isIP, trace[n])
    decreases n
  {
    assert CallStep(isIP, trace[n - 1], calls[n - 1], trace[n - 1 + 1]);
    if n == 1 {
      if trace[0].disk.Some? { FileLoadsOk(isIP, trace[0].disk.value); } else { EmptyFile(isIP); }
    } else {
      FileFollowsMemory(isIP, calls, trace, n - 1);
      CallKeepsStep(isIP, trace[n - 1], calls[n - 1], trace[n]);
    }
  }

  // ---- The reconciliation loop ----

  /** Matching records already dealt with. */
  ghost function Settled(m: Hosts, matches: string -> bool, todo: set<string>): set<string> {
    set d | d in m && d !in todo && matches(d)
  }

  /** The map once every record but those in `todo` was looked at. */
  ghost function Halfway(m: Hosts, desired: Hosts, matches: string -> bool, todo: set<string>): Hosts {
    map d | d in m && (d in todo || !matches(d) || d in desired) :: if d in todo || !matches(d) then m[d] else desired[d]
  }

  /** Some record already looked at had to go or change. */
  ghost predicate Changes(m: Hosts, desired: Hosts, matches: string -> bool, todo: set<string>) {
    exists d :: d in m && d !in todo && matches(d) && (d !in desired || desired[d] != m[d])
  }

  lemma HalfwayStep(m: Hosts, desired: Hosts, matches: string -> bool, todo: set<string>, domain: string)
    requires domain in todo && todo <= m.Keys
    ensures domain in Halfway(m, desired, matches, todo) && Halfway(m, desired, matches, todo)[domain] == m[domain]
    ensures var now := Halfway(m, desired, matches, todo);
            Halfway(m, desired, matches, todo - {domain}) ==
              if !matches(domain) || (domain in desired && desired[domain] == m[domain]) then now
              else if domain !in desired then now - {domain}
              else now[domain := desired[domain]]
  {}

  lemma WantedStep(m: Hosts, desired: Hosts, matches: string -> bool, todo: set<string>, domain: string)
    requires domain in todo && todo <= m.Keys
    ensures var wanted := desired - Settled(m, matches, todo);
            && (domain in desired <==> domain in wanted)
            && desired - Settled(m, matches, todo - {domain}) == (if matches(domain) then wanted - {domain} else wanted)
    ensures Changes(m, desired, matches, todo - {domain}) <==>
            Changes(m, desired, matches, todo) || (matches(domain) && (domain !in desired || desired[domain] != m[domain]))
  {
    var settled := Settled(m, matches, todo);
    assert Settled(m, matches, todo - {domain}) == settled + if matches(domain) then {domain} else {};
    assert domain !in settled;
    assert !matches(domain) ==> settled + {} == settled;
    assert desired - (settled + {domain}) == desired - settled - {domain};
    if Changes(m, desired, matches, todo) {
      var d :| d in m && d !in todo && matches(d) && (d !in desired || desired[d] != m[d]);
      assert d !in todo - {domain};
    }
  }

  lemma WriteNeeded(m: Hosts, desired: Hosts, matches: string -> bool)
    ensures NeedsWrite(m, desired, matches) <==>
            Changes(m, desired, matches, {}) || desired - Settled(m, matches, {}) != map[]
  {
    var wanted := desired - Settled(m, matches, {});
    if wanted != map[] {
      var d :| d in wanted;
      assert d in desired && !(d in m && matches(d));
    }
    if d :| d in desired && !(d in m && matches(d)) {
      assert d in wanted;
    }
    if d :| d in m && matches(d) && (d !in desired || desired[d] != m[d]) {
      assert d !in {};
    }
  }

  lemma HalfwayEnds(m: Hosts, desired: Hosts, matches: string -> bool)
    ensures Halfway(m, desired, matches, {}) + (desired - Settled(m, matches, {})) == Reconciled(m, desired, matches)
  {}

  lemma NothingToDo(m: Hosts, desired: Hosts, matches: string -> bool)
    requires !NeedsWrite(m, desired, matches)
    ensures Reconciled(m, desired, matches) == m
  {}

  lemma ReconciledOk(isIP: string -> bool, m: Hosts, desired: Hosts, matches: string -> bool)
    requires AllOk(isIP, m) && AllOk(isIP, desired)
    ensures AllOk(isIP, Reconciled(m, desired, matches))
  {
    var r := Reconciled(m, desired, matches);
    forall d | d in r ensures DomainOk(d) && isIP(r[d]) {
      if d !in desired { assert d in m; }
    }
  }

  // ---- What reconciliation means ----

  /** Afterwards the matching records are exactly the desired ones that match, and any other record changed only if it was
      passed in. */
  lemma ReconciledMeaning(m: Hosts, desired: Hosts, matches: string -> bool, d: string)
    ensures var r := Reconciled(m, desired, matches);
            && (matches(d) ==> (d in r <==> d in desired) && (d in r ==> r[d] == desired[d]))
            && (!matches(d) && d !in desired ==> (d in r <==> d in m) && (d in r ==> r[d] == m[d]))
            && Reconciled(r, desired, matches) == r
  {}

  /** After a failed write the records are already in memory, so the same call again writes only if some desired record
      does not match: for records that all match, as syncDnsHosts makes them, the file stays stale. */
  lemma FailedWriteRetriedIff(m: Hosts, desired: Hosts, matches: string -> bool)
    ensures NeedsWrite(Reconciled(m, desired, matches), desired, matches) <==> exists d :: d in desired && !matches(d)
  {
    var r := Reconciled(m, desired, matches);
    forall d | d in r && matches(d) ensures d in desired && desired[d] == r[d] {
      ReconciledMeaning(m, desired, matches, d);
    }
    forall d | d in desired ensures d in r {}
  }
}
