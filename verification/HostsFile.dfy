/** The hosts file of statefulset-grid-daemon: its printer and its parser (pkg/statefulset-grid-daemon/hosts/hosts.go). */
module HostsFile {
  import opened Basics
  import opened Strings

  /** unicode.IsSpace, which strings.Fields separates on. */
  predicate IsSpace(c: char) {
    var n := c as int;
    || n == 0x20 || 0x09 <= n <= 0x0D || n == 0x85 || n == 0xA0 || n == 0x1680 || 0x2000 <= n <= 0x200A
    || n == 0x2028 || n == 0x2029 || n == 0x202F || n == 0x205F || n == 0x3000
  }

  function TrimLeft(s: string, cut: set<char>): string {
    if s != [] && s[0] in cut then TrimLeft(s[1..], cut) else s
  }

  function TrimRight(s: string, cut: set<char>): string {
    if s != [] && s[|s| - 1] in cut then TrimRight(s[..|s| - 1], cut) else s
  }

  function Trim(s: string, cut: set<char>): string { TrimRight(TrimLeft(s, cut), cut) }

  const BLANKS := {' ', '\t'}
  const FILE_EDGES := {' ', '\t', '\r', '\n'}

  function SkipSpaces(s: string): (r: string)
    ensures |r| <= |s| && (r != [] ==> !IsSpace(r[0]))
  {
    if s != [] && IsSpace(s[0]) then SkipSpaces(s[1..]) else s
  }

  function WordLength(s: string): (n: nat)
    ensures n <= |s| && (s != [] && !IsSpace(s[0]) ==> n > 0)
  {
    if s == [] || IsSpace(s[0]) then 0 else 1 + WordLength(s[1..])
  }

  /** strings.Fields: the runs of non-space characters. */
  function Fields(s: string): seq<string>
    decreases |s|
  {
    var t := SkipSpaces(s);
    if t == [] then [] else [t[..WordLength(t)]] + Fields(t[WordLength(t)..])
  }

  predicate OneField(s: string) { |Fields(s)| == 1 }

  /** The position of the first `c`, or the length. */
  function IndexOf(s: string, c: char): (i: nat)
    ensures i <= |s| && c !in s[..i] && (i < |s| ==> s[i] == c)
  {
    if s == [] || s[0] == c then 0
    else
      var i := IndexOf(s[1..], c) + 1;
      assert s[..i] == [s[0]] + s[1..][..i - 1];
      i
  }

  /** One line: a domain and its address, or nothing. `isIP` stands for net.ParseIP. */
  function ParseLine(isIP: string -> bool, raw: string): Option<(string, string)> {
    var line := ReplaceChar(Trim(raw, BLANKS), '\t', ' ');
    if line == [] || line[0] == ';' || line[0] == '#' then None
    else
      var i := IndexOf(line, ' ');
      if i == |line| || !isIP(line[..i]) then None
      else if OneField(line[i + 1..]) then Some((line[i + 1..], line[..i]))
      else None
  }

  type Hosts = map<string, string>

  /** The loop over the lines: a later entry for a domain replaces an earlier one. */
  function LoadLines(parse: string -> Option<(string, string)>, lines: seq<string>, m: Hosts): Hosts
    decreases |lines|
  {
    if lines == [] then m
    else LoadLines(parse, lines[1..], match parse(lines[0]) case None => m case Some((domain, ip)) => m[domain := ip])
  }

  function Parser(isIP: string -> bool): string -> Option<(string, string)> { line => ParseLine(isIP, line) }

  /** LoadHosts on an existing file, starting from the entries already in memory. */
  function Load(isIP: string -> bool, content: string, m: Hosts): Hosts {
    LoadLines(Parser(isIP), Split(Trim(content, FILE_EDGES), '\n'), m)
  }

  function Line(m: Hosts, domain: string): string
    requires domain in m
  {
    m[domain] + " " + domain
  }

  /** parseHostsToFile for one iteration order of the map. */
  function Print(m: Hosts, order: seq<string>): string
    requires forall i :: 0 <= i < |order| ==> order[i] in m
  {
    if order == [] then [] else Line(m, order[0]) + "\n" + Print(m, order[1..])
  }

  /** Every key once. */
  ghost predicate Enumerates(order: seq<string>, m: Hosts) {
    && (forall i :: 0 <= i < |order| ==> order[i] in m)
    && (forall d :: d in m ==> d in order)
    && (forall i, j :: 0 <= i < j < |order| ==> order[i] != order[j])
  }

  method ParseHostsToFile(m: Hosts) returns (hf: string, ghost order: seq<string>)
    ensures Enumerates(order, m) && hf == Print(m, order)
    ensures exists o :: Enumerates(o, m) && hf == Print(m, o)
  {
    hf, order := "", [];
    var todo := m.Keys;
    while todo != {}
      invariant todo <= m.Keys
      invariant forall i :: 0 <= i < |order| ==> order[i] in m.Keys - todo
      invariant forall d :: d in m.Keys - todo ==> d in order
      invariant forall i, j :: 0 <= i < j < |order| ==> order[i] != order[j]
      invariant hf == Print(m, order)
    {
      var domain :| domain in todo;
      PrintSnoc(m, order, domain);
      hf := hf + (m[domain] + " " + domain) + "\n";
      order := order + [domain];
      todo := todo - {domain};
    }
  }

  lemma {:induction false} PrintSnoc(m: Hosts, order: seq<string>, domain: string)
    requires domain in m && forall i :: 0 <= i < |order| ==> order[i] in m
    ensures Print(m, order + [domain]) == Print(m, order) + Line(m, domain) + "\n"
  {
    if order == [] {
      assert order + [domain] == [domain] && [domain][1..] == [];
    } else {
      assert (order + [domain])[1..] == order[1..] + [domain];
      PrintSnoc(m, order[1..], domain);
    }
  }

  // ---- Round trip ----

  /** What net.ParseIP accepts has no space in it and does not look like a comment. */
  ghost predicate IpSyntax(isIP: string -> bool) {
    forall s :: isIP(s) ==> s != [] && s[0] != ';' && s[0] != '#' && forall c :: c in s ==> !IsSpace(c)
  }

  /** A domain as the parser returns it from some line: one word, perhaps with spaces around it, none of them a tab or a
      newline and none a blank at the end. */
  predicate Loadable(d: string) {
    OneField(d) && '\t' !in d && '\n' !in d && d != [] && d[|d| - 1] != ' '
  }

  /** And it survives at the end of the file. */
  predicate DomainOk(d: string) { Loadable(d) && d[|d| - 1] != '\r' }

  ghost predicate AllOk(isIP: string -> bool, m: Hosts) {
    forall d :: d in m ==> DomainOk(d) && isIP(m[d])
  }

  lemma TrimNothing(s: string, cut: set<char>)
    requires s != [] ==> s[0] !in cut && s[|s| - 1] !in cut
    ensures Trim(s, cut) == s
  {}

  lemma IndexUnique(s: string, c: char, i: nat)
    requires i < |s| && s[i] == c && c !in s[..i]
    ensures IndexOf(s, c) == i
  {
    var j := IndexOf(s, c);
    forall k | 0 <= k < i ensures s[k] != c { assert s[..i][k] == s[k]; }
    forall k | 0 <= k < j ensures s[k] != c { assert s[..j][k] == s[k]; }
  }

  lemma LineUnchanged(isIP: string -> bool, ip: string, d: string)
    requires IpSyntax(isIP) && isIP(ip) && '\t' !in d && d != [] && d[|d| - 1] != ' '
    ensures ReplaceChar(Trim(ip + " " + d, BLANKS), '\t', ' ') == ip + " " + d
  {
    var line := ip + " " + d;
    assert line[0] in ip && line[|line| - 1] == d[|d| - 1] && d[|d| - 1] in d;
    TrimNothing(line, BLANKS);
    assert '\t' !in ip;
    ReplaceNothing(line, '\t', ' ');
  }

  /** A printed line parses back to its entry. */
  lemma LineParses(isIP: string -> bool, ip: string, d: string)
    requires IpSyntax(isIP) && isIP(ip) && '\t' !in d && d != [] && d[|d| - 1] != ' '
    ensures ParseLine(isIP, ip + " " + d) == if OneField(d) then Some((d, ip)) else None
  {
    var line := ip + " " + d;
    LineUnchanged(isIP, ip, d);
    assert line[..|ip|] == ip && line[|ip| + 1..] == d;
    IndexUnique(line, ' ', |ip|);
    assert line[0] in ip;
  }

  function Lines(m: Hosts, order: seq<string>): (r: seq<string>)
    requires forall i :: 0 <= i < |order| ==> order[i] in m
    ensures |r| == |order| && forall i :: 0 <= i < |r| ==> r[i] == Line(m, order[i])
  {
    seq(|order|, i requires 0 <= i < |order| => Line(m, order[i]))
  }

  lemma {:induction false} PrintIsJoin(m: Hosts, order: seq<string>)
    requires order != [] && forall i :: 0 <= i < |order| ==> order[i] in m
    ensures Print(m, order) == Join(Lines(m, order), '\n') + "\n"
  {
    var lines := Lines(m, order);
    assert lines[1..] == Lines(m, order[1..]);
    if |order| > 1 {
      PrintIsJoin(m, order[1..]);
      assert "\n" == ['\n'];
    } else {
      assert order[1..] == [];
    }
  }

  lemma {:induction false} JoinEdges(lines: seq<string>)
    requires lines != [] && forall i :: 0 <= i < |lines| ==> lines[i] != []
    ensures var j := Join(lines, '\n');
            j != [] && j[0] == lines[0][0] && j[|j| - 1] == lines[|lines| - 1][|lines[|lines| - 1]| - 1]
  {
    if |lines| > 1 {
      JoinEdges(lines[1..]);
    }
  }

  lemma TrimNewline(s: string)
    requires s != [] && s[0] !in FILE_EDGES && s[|s| - 1] !in FILE_EDGES
    ensures Trim(s + "\n", FILE_EDGES) == s
  {
    var t := s + "\n";
    assert TrimLeft(t, FILE_EDGES) == t;
    assert t[|t| - 1] == '\n' && t[..|t| - 1] == s;
    assert TrimRight(s, FILE_EDGES) == s;
  }

  lemma LineShape(isIP: string -> bool, ip: string, d: string)
    requires IpSyntax(isIP) && isIP(ip) && Loadable(d)
    ensures var l := ip + " " + d;
            l != [] && l[0] !in FILE_EDGES && l[|l| - 1] !in {' ', '\t', '\n'} && '\n' !in l && l[|l| - 1] == d[|d| - 1]
  {
    var l := ip + " " + d;
    assert l[0] == ip[0] && l[0] in ip && d[|d| - 1] in d;
    forall i | 0 <= i < |l| ensures l[i] != '\n' {
      if i < |ip| { assert l[i] in ip; } else if i > |ip| { assert l[i] == d[i - |ip| - 1] && l[i] in d; }
    }
  }

  /** The file of a printed map splits into exactly its lines. */
  lemma PrintedLines(isIP: string -> bool, m: Hosts, order: seq<string>)
    requires IpSyntax(isIP) && AllOk(isIP, m) && order != [] && forall i :: 0 <= i < |order| ==> order[i] in m
    ensures Split(Trim(Print(m, order), FILE_EDGES), '\n') == Lines(m, order)
  {
    var lines := Lines(m, order);
    forall i | 0 <= i < |order|
      ensures lines[i] != [] && lines[i][0] !in FILE_EDGES && lines[i][|lines[i]| - 1] !in FILE_EDGES && '\n' !in lines[i]
    {
      LineShape(isIP, m[order[i]], order[i]);
    }
    PrintIsJoin(m, order);
    JoinEdges(lines);
    TrimNewline(Join(lines, '\n'));
    SplitJoin(lines, '\n');
  }

  function Chosen(m: Hosts, order: seq<string>): Hosts { map d | d in m && d in order :: m[d] }

  lemma ChosenCons(m: Hosts, order: seq<string>, start: Hosts)
    requires order != [] && order[0] in m
    ensures start[order[0] := m[order[0]]] + Chosen(m, order[1..]) == start + Chosen(m, order)
  {
    assert order == [order[0]] + order[1..];
  }

  lemma {:induction false} LinesLoad(parse: string -> Option<(string, string)>, m: Hosts, order: seq<string>, start: Hosts)
    requires forall i :: 0 <= i < |order| ==> order[i] in m
    requires forall d :: d in m ==> parse(Line(m, d)) == Some((d, m[d]))
    ensures LoadLines(parse, Lines(m, order), start) == start + Chosen(m, order)
    decreases |order|
  {
    if order == [] {
      assert Chosen(m, order) == map[];
    } else {
      assert Lines(m, order)[1..] == Lines(m, order[1..]);
      LinesLoad(parse, m, order[1..], start[order[0] := m[order[0]]]);
      ChosenCons(m, order, start);
    }
  }

  lemma EmptyFile(isIP: string -> bool)
    ensures Load(isIP, [], map[]) == map[]
  {
    var parse := Parser(isIP);
    assert Split(Trim([], FILE_EDGES), '\n') == [[]];
    assert Trim([], BLANKS) == [];
    assert parse([]) == None;
    assert LoadLines(parse, [[]], map[]) == LoadLines(parse, [[]][1..], map[]);
  }

  lemma PrintedParses(isIP: string -> bool, m: Hosts, d: string)
    requires IpSyntax(isIP) && d in m && Loadable(d) && isIP(m[d])
    ensures Parser(isIP)(Line(m, d)) == Some((d, m[d]))
  {
    LineParses(isIP, m[d], d);
  }

  lemma ChosenAll(m: Hosts, order: seq<string>)
    requires Enumerates(order, m)
    ensures map[] + Chosen(m, order) == m
  {}

  /** Printing a map in any order and parsing the file gives the map back. */
  lemma RoundTrip(isIP: string -> bool, m: Hosts, order: seq<string>)
    requires IpSyntax(isIP) && AllOk(isIP, m) && Enumerates(order, m)
    ensures Load(isIP, Print(m, order), map[]) == m
  {
    ChosenAll(m, order);
    if order == [] {
      EmptyFile(isIP);
      assert Chosen(m, order) == map[];
    } else {
      PrintedLines(isIP, m, order);
      var parse := Parser(isIP);
      forall d | d in m ensures parse(Line(m, d)) == Some((d, m[d])) {
        PrintedParses(isIP, m, d);
      }
      LinesLoad(parse, m, order, map[]);
    }
  }

  // ---- What any file loads ----

  lemma {:induction false} TrimLeftChars(s: string, cut: set<char>)
    ensures forall c :: c in TrimLeft(s, cut) ==> c in s
  {
    if s != [] && s[0] in cut { TrimLeftChars(s[1..], cut); }
  }

  lemma {:induction false} TrimRightChars(s: string, cut: set<char>)
    ensures var t := TrimRight(s, cut); (forall c :: c in t ==> c in s) && (t != [] ==> t[|t| - 1] !in cut)
  {
    if s != [] && s[|s| - 1] in cut { TrimRightChars(s[..|s| - 1], cut); }
  }

  lemma TrimChars(s: string, cut: set<char>)
    ensures var t := Trim(s, cut); (forall c :: c in t ==> c in s) && (t != [] ==> t[|t| - 1] !in cut)
  {
    TrimLeftChars(s, cut);
    TrimRightChars(TrimLeft(s, cut), cut);
  }

  lemma {:induction false} SplitChars(s: string, sep: char, i: nat)
    requires i < |Split(s, sep)|
    ensures forall c :: c in Split(s, sep)[i] ==> c in s && c != sep
    decreases |s|
  {
    if s != [] {
      var rest := Split(s[1..], sep);
      if s[0] == sep {
        if i > 0 { SplitChars(s[1..], sep, i - 1); }
      } else {
        SplitChars(s[1..], sep, i);
      }
    }
  }

  ghost predicate AllLoadable(isIP: string -> bool, m: Hosts) { forall d :: d in m ==> Loadable(d) && isIP(m[d]) }

  lemma ParsedLoadable(isIP: string -> bool, raw: string)
    requires '\n' !in raw
    ensures var r := ParseLine(isIP, raw);
            r.Some? ==> Loadable(r.value.0) && isIP(r.value.1) && ('\r' !in raw ==> '\r' !in r.value.0)
  {
    var trimmed := Trim(raw, BLANKS);
    TrimChars(raw, BLANKS);
    var line := ReplaceChar(trimmed, '\t', ' ');
    forall i | 0 <= i < |line| ensures line[i] != '\t' && line[i] != '\n' && ('\r' !in raw ==> line[i] != '\r') {
      assert trimmed[i] in trimmed;
    }
    var r := ParseLine(isIP, raw);
    if r.Some? {
      var i := IndexOf(line, ' ');
      var d := line[i + 1..];
      assert r.value.0 == d && Fields([]) == [];
      assert d[|d| - 1] == line[|line| - 1];
    }
  }

  ghost predicate NoReturns(m: Hosts) { forall d :: d in m ==> '\r' !in d }

  lemma {:induction false} LinesLoadable(isIP: string -> bool, lines: seq<string>, m: Hosts)
    requires AllLoadable(isIP, m) && forall i :: 0 <= i < |lines| ==> '\n' !in lines[i]
    ensures AllLoadable(isIP, LoadLines(Parser(isIP), lines, m))
    ensures NoReturns(m) && (forall i :: 0 <= i < |lines| ==> '\r' !in lines[i]) ==> NoReturns(LoadLines(Parser(isIP), lines, m))
    decreases |lines|
  {
    if lines != [] {
      ParsedLoadable(isIP, lines[0]);
      var parsed := Parser(isIP)(lines[0]);
      LinesLoadable(isIP, lines[1..], match parsed case None => m case Some((domain, ip)) => m[domain := ip]);
    }
  }

  /** Every entry a file loads is loadable, and one without carriage returns loads only entries that round-trip. */
  lemma FileLoadsOk(isIP: string -> bool, content: string)
    ensures AllLoadable(isIP, Load(isIP, content, map[]))
    ensures '\r' !in content ==> AllOk(isIP, Load(isIP, content, map[]))
  {
    TrimChars(content, FILE_EDGES);
    var lines := Split(Trim(content, FILE_EDGES), '\n');
    forall i | 0 <= i < |lines| ensures '\n' !in lines[i] && ('\r' !in content ==> '\r' !in lines[i]) {
      SplitChars(Trim(content, FILE_EDGES), '\n', i);
    }
    LinesLoadable(isIP, lines, map[]);
    if '\r' !in content {
      var m := Load(isIP, content, map[]);
      forall d | d in m ensures DomainOk(d) && isIP(m[d]) {
        assert d[|d| - 1] in d;
      }
    }
  }

  /** A carriage return before the final newline is a different story: the entry is stored under a name that ends in it,
      and printing and parsing that entry loses it. */
  lemma CarriageReturnLost(isIP: string -> bool, ip: string)
    requires IpSyntax(isIP) && isIP(ip)
    ensures var m := map["h\r" := ip];
            Load(isIP, Print(m, ["h\r"]), map[]) == map["h" := ip] != m
  {
    var m := map["h\r" := ip];
    var n := map["h" := ip];
    assert ["h\r"][1..] == [];
    var line := ip + " " + "h";
    assert Print(m, ["h\r"]) == line + "\r\n";
    assert line[0] in ip && line[|line| - 1] == 'h';
    TrimCrLf(line);
    assert Fields("h") == ["h"[..1]] + Fields("h"[1..]);
    assert DomainOk("h");
    LineShape(isIP, ip, "h");
    SplitWithout(line, '\n');
    PrintedParses(isIP, n, "h");
    assert Line(n, "h") == line;
    var parse := Parser(isIP);
    assert LoadLines(parse, [line], map[]) == LoadLines(parse, [line][1..], n);
    assert "h" in n && "h" !in m;
  }

  lemma TrimCrLf(s: string)
    requires s != [] && s[0] !in FILE_EDGES && s[|s| - 1] !in FILE_EDGES
    ensures Trim(s + "\r\n", FILE_EDGES) == s
  {
    var t := s + "\r\n";
    assert TrimLeft(t, FILE_EDGES) == t;
    assert t[..|t| - 1] == s + "\r" && (s + "\r")[..|s|] == s;
    assert TrimRight(s, FILE_EDGES) == s;
    assert TrimRight(s + "\r", FILE_EDGES) == s;
  }
}
