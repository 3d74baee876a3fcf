/** Which host records the pattern of isMatchDomain picks out (pkg/statefulset-grid-daemon/hosts/hosts.go). */
module RecordPattern {
  import opened HostsFile
  import opened HostsReconcile

  const SUFFIX := ".svc.cluster.local"

  predicate IsDigit(c: char) { '0' <= c <= '9' }
  predicate IsOrdinal(s: string) { s != [] && forall i :: 0 <= i < |s| ==> IsDigit(s[i]) }

  predicate OccursAt(s: string, p: string, i: nat) { i + |p| <= |s| && s[i..i + |p|] == p }

  function DigitRun(s: string): (n: nat)
    ensures n <= |s| && (n < |s| ==> !IsDigit(s[n])) && forall i :: 0 <= i < n ==> IsDigit(s[i])
  {
    if s == [] || !IsDigit(s[0]) then 0 else 1 + DigitRun(s[1..])
  }

  /** A pattern whose dots match any character. */
  predicate LooseAt(s: string, pattern: string, i: nat) {
    i + |pattern| <= |s| && forall k :: 0 <= k < |pattern| ==> pattern[k] == '.' || s[i + k] == pattern[k]
  }

  /** At one position: the head, digits, the tail, then the suffix with its dots unescaped. */
  predicate PartsAt(d: string, head: string, tail: string, suffix: string, i: nat) {
    OccursAt(d, head, i) &&
    var j := i + |head|;
    var n := DigitRun(d[j..]);
    n > 0 && OccursAt(d, tail, j + n) && LooseAt(d, suffix, j + n + |tail|)
  }

  /** The regular expression of isMatchDomain, for names without regular-expression operators. */
  predicate MatchesAt(d: string, grid: string, svc: string, ns: string, i: nat) {
    PartsAt(d, grid + "-", "." + svc + "." + ns, SUFFIX, i)
  }

  /** The match is not anchored. */
  ghost predicate IsMatchDomain(d: string, grid: string, svc: string, ns: string) {
    exists i: nat :: MatchesAt(d, grid, svc, ns, i)
  }

  lemma OwnRecordMatches(grid: string, ordinal: string, svc: string, ns: string)
    requires IsOrdinal(ordinal)
    ensures IsMatchDomain(grid + "-" + ordinal + "." + svc + "." + ns + SUFFIX, grid, svc, ns)
  {
    var d := grid + "-" + ordinal + "." + svc + "." + ns + SUFFIX;
    PrefixedRecordMatches("", grid, ordinal, svc, ns);
    assert "" + d == d;
  }

  /** So a sync of grid "web" also claims the records of every grid whose name ends in "web" with the same service. */
  lemma PrefixedRecordMatches(prefix: string, grid: string, ordinal: string, svc: string, ns: string)
    requires IsOrdinal(ordinal)
    ensures IsMatchDomain(prefix + (grid + "-" + ordinal + "." + svc + "." + ns + SUFFIX), grid, svc, ns)
  {
    var d := prefix + (grid + "-" + ordinal + "." + svc + "." + ns + SUFFIX);
    var tail := "." + svc + "." + ns;
    assert d[|prefix|..] == (grid + "-") + (ordinal + (tail + SUFFIX));
    PartsThere(d, grid + "-", ordinal, tail, SUFFIX, |prefix|);
    assert MatchesAt(d, grid, svc, ns, |prefix|);
  }

  lemma PartsThere(d: string, head: string, ordinal: string, tail: string, suffix: string, i: nat)
    requires IsOrdinal(ordinal) && tail != [] && !IsDigit(tail[0])
    requires i <= |d| && d[i..] == head + (ordinal + (tail + suffix))
    ensures PartsAt(d, head, tail, suffix, i)
  {
    var j, n := i + |head|, |ordinal|;
    AfterPart(d, i, head, ordinal + (tail + suffix));
    AfterPart(d, j, ordinal, tail + suffix);
    AfterPart(d, j + n, tail, suffix);
    RunOf(ordinal, tail + suffix);
    LooselyAt(d, suffix, j + n + |tail|);
  }

  lemma AfterPart(d: string, i: nat, part: string, rest: string)
    requires i <= |d| && d[i..] == part + rest
    ensures OccursAt(d, part, i) && d[i + |part|..] == rest
  {
    assert d[i..i + |part|] == d[i..][..|part|];
    assert d[i + |part|..] == d[i..][|part|..];
  }

  lemma LooselyAt(d: string, suffix: string, i: nat)
    requires i <= |d| && d[i..] == suffix
    ensures LooseAt(d, suffix, i)
  {
    forall k | 0 <= k < |suffix| ensures d[i + k] == suffix[k] { assert d[i..][k] == d[i + k]; }
  }

  lemma {:induction false} RunOf(ordinal: string, after: string)
    requires IsOrdinal(ordinal) && after != [] && !IsDigit(after[0])
    ensures DigitRun(ordinal + after) == |ordinal|
  {
    var s := ordinal + after;
    var n := DigitRun(s);
    assert s[|ordinal|] == after[0];
    forall i | 0 <= i < |ordinal| ensures IsDigit(s[i]) { assert s[i] == ordinal[i]; }
  }

  // ---- Exactly which records ----

  predicate EndsWith(s: string, end: string) { |s| >= |end| && s[|s| - |end|..] == end }

  /** The record of ordinal `o` of grid `g`, service `s` and namespace `n`. */
  function RecordName(g: string, o: string, s: string, n: string): string { g + "-" + o + "." + s + "." + n + SUFFIX }

  /** The text after a record's second dot starts with the namespace and, any character standing for a dot, the suffix. */
  predicate NamespaceFits(n: string, ns: string) { OccursAt(n + SUFFIX, ns, 0) && LooseAt(n + SUFFIX, SUFFIX, |ns|) }

  /** Where the parts of a record lie: the dash, the two dots, and the suffix. */
  ghost predicate Layout(d: string, p0: nat, p1: nat, p2: nat, p3: nat) {
    && p0 + 1 < p1 < p2 < p3 < |d| && |d| == p3 + |SUFFIX|
    && d[p0] == '-' && d[p1] == '.' && d[p2] == '.' && d[p3] == '.'
    && (forall k :: p0 < k < p1 ==> IsDigit(d[k]))
    && (forall k :: 0 <= k < p3 && k != p1 && k != p2 ==> d[k] != '.')
  }

  lemma RecordLayout(g: string, o: string, s: string, n: string)
    requires IsOrdinal(o) && '.' !in g && '.' !in s && '.' !in n
    ensures var d, p0 := RecordName(g, o, s, n), |g|;
            var p1 := p0 + 1 + |o|;
            var p2 := p1 + 1 + |s|;
            Layout(d, p0, p1, p2, p2 + 1 + |n|)
            && d[..p0] == g && d[p1 + 1..p2] == s && d[p2 + 1..] == n + SUFFIX
  {
    assert SUFFIX[0] == '.';
    LayoutOf(RecordName(g, o, s, n), g, o, s, n, SUFFIX);
  }

  lemma LayoutOf(d: string, g: string, o: string, s: string, n: string, suffix: string)
    requires d == g + "-" + o + "." + s + "." + n + suffix && |suffix| == |SUFFIX| && suffix[0] == '.'
    requires IsOrdinal(o) && '.' !in g && '.' !in s && '.' !in n
    ensures var p1 := |g| + 1 + |o|;
            var p2 := p1 + 1 + |s|;
            Layout(d, |g|, p1, p2, p2 + 1 + |n|) && d[..|g|] == g && d[p1 + 1..p2] == s && d[p2 + 1..] == n + suffix
  {
    var a, b, c := g + "-", o + ".", s + ".";
    assert d == a + b + c + n + suffix by { Grouped(g, "-", o, ".", s, ".", n, suffix); }
    RecordPieces(d, a, b, c, n, suffix);
    assert |a| == |g| + 1 && |b| == |o| + 1 && |c| == |s| + 1 && d[|a| + |b| + |c| + |n|] == suffix[0];
    LaidByPieces(d, g, o, s, n);
  }

  lemma Grouped(a: string, b: string, c: string, d: string, e: string, f: string, g: string, h: string)
    ensures a + b + c + d + e + f + g + h == (a + b) + (c + d) + (e + f) + g + h
  {
    assert a + b + c + d == (a + b) + (c + d);
    assert (a + b) + (c + d) + e + f == (a + b) + (c + d) + (e + f);
  }

  /** A concatenation read back piece by piece. */
  lemma RecordPieces(d: string, a: string, b: string, c: string, n: string, suffix: string)
    requires d == a + b + c + n + suffix
    ensures var p, q := |a| + |b|, |a| + |b| + |c|;
            d[..|a|] == a && d[|a|..p] == b && d[p..q] == c && d[q..q + |n|] == n && d[q + |n|..] == suffix && d[q..] == n + suffix
  {}

  lemma LaidByPieces(d: string, g: string, o: string, s: string, n: string)
    requires IsOrdinal(o) && '.' !in g && '.' !in s && '.' !in n && |d| == |g| + 1 + |o| + 1 + |s| + 1 + |n| + |SUFFIX|
    requires var p0, p1 := |g| + 1, |g| + 1 + |o| + 1;
             var p2 := p1 + |s| + 1;
             && d[..p0] == g + "-" && d[p0..p1] == o + "." && d[p1..p2] == s + "." && d[p2..p2 + |n|] == n && d[p2 + |n|] == '.'
    ensures var p1 := |g| + 1 + |o|;
            var p2 := p1 + 1 + |s|;
            Layout(d, |g|, p1, p2, p2 + 1 + |n|) && d[..|g|] == g && d[p1 + 1..p2] == s
  {
    var p0, p1 := |g| + 1, |g| + 1 + |o| + 1;
    var p2 := p1 + |s| + 1;
    PieceChars(d, 0, p0, g + "-");
    PieceChars(d, p0, p1, o + ".");
    PieceChars(d, p1, p2, s + ".");
    PieceChars(d, p2, p2 + |n|, n);
    forall k | 0 <= k < |g| ensures d[k] == g[k] && d[k] != '.' { assert g[k] in g; }
    forall k | p0 <= k < p1 - 1 ensures d[k] == o[k - p0] && IsDigit(d[k]) {}
    forall k | p1 <= k < p2 - 1 ensures d[k] == s[k - p1] && d[k] != '.' { assert s[k - p1] in s; }
    forall k | p2 <= k < p2 + |n| ensures d[k] != '.' { assert n[k - p2] in n; }
  }

  lemma PieceChars(d: string, i: nat, j: nat, piece: string)
    requires i <= j <= |d| && d[i..j] == piece
    ensures forall k :: i <= k < j ==> d[k] == piece[k - i]
  {
    forall k | i <= k < j ensures d[k] == piece[k - i] { assert d[i..j][k - i] == d[k]; }
  }

  lemma OccursChars(d: string, p: string, i: nat)
    requires OccursAt(d, p, i)
    ensures forall k :: i <= k < i + |p| ==> d[k] == p[k - i]
  {
    forall k | i <= k < i + |p| ensures d[k] == p[k - i] { assert d[i..i + |p|][k - i] == d[k]; }
  }

  lemma TailChars(d: string, svc: string, ns: string, q: nat)
    requires OccursAt(d, "." + svc + "." + ns, q) && '.' !in svc
    ensures d[q] == '.' && d[q + 1 + |svc|] == '.' && forall k :: q < k < q + 1 + |svc| ==> d[k] != '.'
    ensures d[q + 1..q + 1 + |svc|] == svc && OccursAt(d, ns, q + 2 + |svc|)
  {
    var tail := "." + svc + "." + ns;
    OccursChars(d, tail, q);
    assert forall k :: 0 <= k < |svc| ==> tail[k + 1] == svc[k] && svc[k] in svc;
    assert tail[|svc| + 1] == '.';
    forall k | q < k < q + 1 + |svc| ensures d[k] == svc[k - q - 1] && d[k] != '.' {
      assert d[k] == tail[k - q - 1 + 1];
    }
    forall k | 0 <= k < |ns| ensures d[q + 2 + |svc| + k] == ns[k] {
      assert tail[|svc| + 2 + k] == ns[k];
    }
    assert d[q + 2 + |svc|..q + 2 + |svc| + |ns|] == ns;
  }

  lemma HeadAndDigits(d: string, head: string, p0: nat, p1: nat, i: nat)
    requires OccursAt(d, head, i) && head != [] && head[|head| - 1] == '-' && p0 < p1 < |d| && d[p0] == '-'
    requires forall k :: p0 < k < p1 ==> IsDigit(d[k])
    requires var j := i + |head|; j + DigitRun(d[j..]) == p1 && DigitRun(d[j..]) > 0
    ensures i + |head| == p0 + 1
  {
    var j := i + |head|;
    OccursChars(d, head, i);
    assert d[j - 1] == head[|head| - 1];
    forall k | j <= k < p1 ensures IsDigit(d[k]) { assert d[j..][k - j] == d[k]; }
    assert !IsDigit('-');
  }

  /** A match can lie in a record in one way only. */
  lemma MatchLies(d: string, p0: nat, p1: nat, p2: nat, p3: nat, head: string, svc: string, ns: string, i: nat)
    requires Layout(d, p0, p1, p2, p3) && '.' !in svc && head != [] && head[|head| - 1] == '-'
    requires PartsAt(d, head, "." + svc + "." + ns, SUFFIX, i)
    ensures i + |head| == p0 + 1 && p2 == p1 + 1 + |svc| && d[p1 + 1..p2] == svc
    ensures OccursAt(d, ns, p2 + 1) && LooseAt(d, SUFFIX, p2 + 1 + |ns|)
  {
    var q := MatchParts(d, head, svc, ns, i);
    DotsAreThere(d, p0, p1, p2, p3, q, |svc|, |ns|);
    HeadAndDigits(d, head, p0, p1, i);
  }

  /** Where the digits of a match end, its two dots stand, and its suffix begins. */
  lemma MatchParts(d: string, head: string, svc: string, ns: string, i: nat) returns (q: nat)
    requires '.' !in svc && PartsAt(d, head, "." + svc + "." + ns, SUFFIX, i)
    ensures OccursAt(d, head, i) && q == i + |head| + DigitRun(d[i + |head|..]) && q > i + |head|
    ensures LooseAt(d, SUFFIX, q + 2 + |svc| + |ns|)
    ensures d[q] == '.' && d[q + 1 + |svc|] == '.' && forall k :: q < k < q + 1 + |svc| ==> d[k] != '.'
    ensures d[q + 1..q + 1 + |svc|] == svc && OccursAt(d, ns, q + 2 + |svc|)
  {
    q := i + |head| + DigitRun(d[i + |head|..]);
    var tail := "." + svc + "." + ns;
    assert |tail| == |svc| + 2 + |ns|;
    TailChars(d, svc, ns, q);
  }

  /** Two dots before the suffix, with none between them, are the record's own. */
  lemma DotsAreThere(d: string, p0: nat, p1: nat, p2: nat, p3: nat, q: nat, svc: nat, ns: nat)
    requires Layout(d, p0, p1, p2, p3) && q + svc + 2 + ns + |SUFFIX| <= |d|
    requires d[q] == '.' && d[q + 1 + svc] == '.' && forall k :: q < k < q + 1 + svc ==> d[k] != '.'
    ensures q == p1 && q + 1 + svc == p2
  {
    assert q + 1 + svc < p3;
  }

  /** A record is picked out exactly when its grid's name ends in the given one, the service is the same, and the namespace
      is the same, or one that goes on with the suffix spelt with other characters for its dots. */
  lemma RecordMatchesIff(g: string, o: string, s: string, n: string, grid: string, svc: string, ns: string)
    requires IsOrdinal(o) && '.' !in g && '.' !in s && '.' !in n && '.' !in svc
    ensures IsMatchDomain(RecordName(g, o, s, n), grid, svc, ns) <==> EndsWith(g, grid) && svc == s && NamespaceFits(n, ns)
  {
    if IsMatchDomain(RecordName(g, o, s, n), grid, svc, ns) {
      MatchNeeds(g, o, s, n, grid, svc, ns);
    }
    if EndsWith(g, grid) && svc == s && NamespaceFits(n, ns) {
      MatchSuffices(g, o, s, n, grid, ns);
    }
  }

  lemma MatchNeeds(g: string, o: string, s: string, n: string, grid: string, svc: string, ns: string)
    requires IsOrdinal(o) && '.' !in g && '.' !in s && '.' !in n && '.' !in svc
    requires IsMatchDomain(RecordName(g, o, s, n), grid, svc, ns)
    ensures EndsWith(g, grid) && svc == s && NamespaceFits(n, ns)
  {
    var d, p1, p2 := LaidOut(g, o, s, n);
    MatchMeans(d, g, p1, p2, n, grid, svc, ns);
  }

  /** A record name by the positions of its first two dots. */
  lemma LaidOut(g: string, o: string, s: string, n: string) returns (d: string, p1: nat, p2: nat)
    requires IsOrdinal(o) && '.' !in g && '.' !in s && '.' !in n
    ensures d == RecordName(g, o, s, n) && Layout(d, |g|, p1, p2, p2 + 1 + |n|)
    ensures d[..|g|] == g && d[p2 + 1..] == n + SUFFIX && d[p1 + 1..p2] == s
  {
    d, p1, p2 := RecordName(g, o, s, n), |g| + 1 + |o|, |g| + 1 + |o| + 1 + |s|;
    RecordLayout(g, o, s, n);
  }

  lemma MatchSuffices(g: string, o: string, s: string, n: string, grid: string, ns: string)
    requires IsOrdinal(o) && EndsWith(g, grid) && NamespaceFits(n, ns)
    ensures IsMatchDomain(RecordName(g, o, s, n), grid, s, ns)
  {
    var d, at := RecordName(g, o, s, n), |g| + 1 + |o| + 1 + |s| + 1;
    assert d[at..] == n + SUFFIX;
    assert OccursAt(d, ns, at) && LooseAt(d, SUFFIX, at + |ns|) by { RestFits(d, n, ns, at); }
    RecordMatches(g, o, s, n, grid, ns, |g| - |grid|);
  }

  lemma MatchMeans(d: string, g: string, p1: nat, p2: nat, n: string, grid: string, svc: string, ns: string)
    requires Layout(d, |g|, p1, p2, p2 + 1 + |n|) && d[..|g|] == g && d[p2 + 1..] == n + SUFFIX && '.' !in svc
    requires IsMatchDomain(d, grid, svc, ns)
    ensures EndsWith(g, grid) && svc == d[p1 + 1..p2] && NamespaceFits(n, ns)
  {
    var i: nat :| MatchesAt(d, grid, svc, ns, i);
    MatchLies(d, |g|, p1, p2, p2 + 1 + |n|, grid + "-", svc, ns, i);
    HeadIsEnd(d, g, grid, i);
    RestFits(d, n, ns, p2 + 1);
  }

  lemma HeadIsEnd(d: string, g: string, grid: string, i: nat)
    requires OccursAt(d, grid + "-", i) && i + |grid| == |g| < |d| && d[..|g|] == g
    ensures EndsWith(g, grid)
  {
    OccursChars(d, grid + "-", i);
    forall k | 0 <= k < |grid| ensures g[i + k] == grid[k] {
      assert g[i + k] == d[..|g|][i + k] && (grid + "-")[k] == grid[k];
    }
    assert g[i..] == grid;
  }

  lemma RestFits(d: string, n: string, ns: string, at: nat)
    requires at <= |d| && d[at..] == n + SUFFIX
    ensures NamespaceFits(n, ns) <==> OccursAt(d, ns, at) && LooseAt(d, SUFFIX, at + |ns|)
  {
    var rest := n + SUFFIX;
    assert forall k :: 0 <= k < |rest| ==> rest[k] == d[at..][k] == d[at + k];
    if |ns| <= |rest| { assert rest[0..|ns|] == d[at..at + |ns|]; }
  }

  lemma RecordMatches(g: string, o: string, s: string, n: string, grid: string, ns: string, i: nat)
    requires IsOrdinal(o) && i + |grid| == |g| && g[i..] == grid
    requires var d, at := RecordName(g, o, s, n), |g| + 1 + |o| + 1 + |s| + 1; OccursAt(d, ns, at) && LooseAt(d, SUFFIX, at + |ns|)
    ensures IsMatchDomain(RecordName(g, o, s, n), grid, s, ns)
  {
    var d, after := RecordName(g, o, s, n), "." + s + "." + n + SUFFIX;
    assert d[i..] == (grid + "-") + (o + after) by { RecordFrom(g, o, s, n, grid, i); }
    PatternThere(d, grid + "-", o, s, n, ns, SUFFIX, after, i);
    assert MatchesAt(d, grid, s, ns, i);
  }

  lemma RecordFrom(g: string, o: string, s: string, n: string, grid: string, i: nat)
    requires i + |grid| == |g| && g[i..] == grid
    ensures RecordName(g, o, s, n)[i..] == (grid + "-") + (o + ("." + s + "." + n + SUFFIX))
  {
    assert g == g[..i] + grid;
    assert RecordName(g, o, s, n) == g[..i] + ((grid + "-") + (o + ("." + s + "." + n + SUFFIX)));
  }

  lemma PatternThere(d: string, head: string, o: string, s: string, n: string, ns: string, suffix: string, after: string, i: nat)
    requires IsOrdinal(o) && i <= |d| && after == "." + s + "." + n + suffix && d[i..] == head + (o + after)
    requires var at := i + |head| + |o| + 1 + |s| + 1; OccursAt(d, ns, at) && LooseAt(d, suffix, at + |ns|)
    ensures PartsAt(d, head, "." + s + "." + ns, suffix, i)
  {
    HeadThere(d, head, o, after, i);
    TailOccurs(d, s, ns, i + |head| + |o|, n, suffix);
    PartsFit(d, head, o, "." + s + "." + ns, suffix, after, i);
  }

  lemma HeadThere(d: string, head: string, o: string, after: string, i: nat)
    requires i <= |d| && d[i..] == head + (o + after)
    ensures OccursAt(d, head, i) && d[i + |head|..] == o + after && d[i + |head| + |o|..] == after
  {
    AfterPart(d, i, head, o + after);
    AfterPart(d, i + |head|, o, after);
  }

  lemma PartsFit(d: string, head: string, o: string, tail: string, suffix: string, after: string, i: nat)
    requires IsOrdinal(o) && after != [] && !IsDigit(after[0])
    requires OccursAt(d, head, i) && d[i + |head|..] == o + after
    requires OccursAt(d, tail, i + |head| + |o|) && LooseAt(d, suffix, i + |head| + |o| + |tail|)
    ensures PartsAt(d, head, tail, suffix, i)
  {
    RunOf(o, after);
  }

  lemma TailOccurs(d: string, s: string, ns: string, q: nat, n: string, suffix: string)
    requires q <= |d| && d[q..] == "." + s + "." + n + suffix && OccursAt(d, ns, q + |s| + 2)
    ensures OccursAt(d, "." + s + "." + ns, q)
  {
    var tail, rest := "." + s + "." + ns, "." + s + "." + n + suffix;
    OccursChars(d, ns, q + |s| + 2);
    forall k | 0 <= k < |tail| ensures d[q + k] == tail[k] {
      if k < |s| + 2 { assert d[q + k] == d[q..][k] == rest[k] == tail[k]; }
    }
    assert d[q..q + |tail|] == tail;
  }

  /** An unescaped dot stands for any character: for namespace "x" the records in namespace "x-svc-cluster-local" match. */
  lemma DotsMatchAnything(grid: string, o: string, svc: string)
    requires IsOrdinal(o) && '.' !in grid && '.' !in svc
    ensures IsMatchDomain(grid + "-" + o + "." + svc + "." + "x-svc-cluster-local" + ".svc.cluster.local", grid, svc, "x")
  {
    SuffixLookalike();
    MatchSuffices(grid, o, svc, "x-svc-cluster-local", grid, "x");
  }

  lemma SuffixLookalike()
    ensures NamespaceFits("x-svc-cluster-local", "x")
  {
    var whole := "x-svc-cluster-local" + SUFFIX;
    assert whole[0..1] == "x";
    assert forall k :: 0 <= k < |SUFFIX| ==> whole[1 + k] == "-svc-cluster-local"[k];
  }

  /** So syncing one grid deletes a record that is not desired exactly when it is one of those: a grid whose name ends in
      this one's, with the same service, loses its records. */
  lemma NeighbourRecordDeletedIff(g: string, o: string, s: string, n: string, grid: string, svc: string, ns: string,
                                  m: Hosts, desired: Hosts, matches: string -> bool)
    requires IsOrdinal(o) && '.' !in g && '.' !in s && '.' !in n && '.' !in svc
    requires forall d :: matches(d) <==> IsMatchDomain(d, grid, svc, ns)
    requires RecordName(g, o, s, n) in m && RecordName(g, o, s, n) !in desired
    ensures RecordName(g, o, s, n) !in Reconciled(m, desired, matches) <==> EndsWith(g, grid) && svc == s && NamespaceFits(n, ns)
  {
    RecordMatchesIff(g, o, s, n, grid, svc, ns);
  }
}
