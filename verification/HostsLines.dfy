/** Exactly which lines of a hosts file are entries, and which entry of a domain counts
    (pkg/statefulset-grid-daemon/hosts/hosts.go:46-74). */
module HostsLines {
  import opened Basics
  import opened Strings
  import opened HostsFile

  // ---- Words ----

  /** Exactly one run of characters that are not spaces. */
  ghost predicate OneWord(s: string) {
    exists i, j :: WordBetween(s, i, j)
  }

  ghost predicate WordBetween(s: string, i: int, j: int) {
    0 <= i < j <= |s| && forall k :: 0 <= k < |s| ==> (IsSpace(s[k]) <==> k < i || k >= j)
  }

  lemma {:induction false} SkipMeaning(s: string)
    ensures var p := |s| - |SkipSpaces(s)|;
            s[p..] == SkipSpaces(s) && forall k :: 0 <= k < p ==> IsSpace(s[k])
  {
    if s != [] && IsSpace(s[0]) {
      SkipMeaning(s[1..]);
      assert forall k :: 1 <= k < |s| ==> s[k] == s[1..][k - 1];
    }
  }

  lemma {:induction false} WordMeaning(s: string)
    ensures var n := WordLength(s);
            (forall k :: 0 <= k < n ==> !IsSpace(s[k])) && (n < |s| ==> IsSpace(s[n]))
  {
    if s != [] && !IsSpace(s[0]) {
      WordMeaning(s[1..]);
      assert forall k :: 1 <= k < |s| ==> s[k] == s[1..][k - 1];
    }
  }

  lemma NoFieldsIff(s: string)
    ensures Fields(s) == [] <==> forall k :: 0 <= k < |s| ==> IsSpace(s[k])
  {
    SkipMeaning(s);
    var t := SkipSpaces(s);
    if t != [] { assert s[|s| - |t|] == t[0]; }
  }

  lemma OneFieldIff(s: string)
    ensures OneField(s) <==> OneWord(s)
  {
    SkipMeaning(s);
    var t := SkipSpaces(s);
    var p, n := |s| - |t|, WordLength(t);
    if t == [] {
      forall i, j ensures !WordBetween(s, i, j) {
        if 0 <= i < |s| { assert IsSpace(s[i]); }
      }
    } else {
      WordMeaning(t);
      NoFieldsIff(t[n..]);
      assert forall k :: p <= k < |s| ==> s[k] == t[k - p];
      assert forall k :: 0 <= k < |t| - n ==> t[n..][k] == s[p + n + k];
      assert OneField(s) <==> Fields(t[n..]) == [];
      if Fields(t[n..]) == [] {
        forall k | p + n <= k < |s| ensures IsSpace(s[k]) { assert s[k] == t[n..][k - p - n]; }
        assert WordBetween(s, p, p + n);
      }
      if i, j :| WordBetween(s, i, j) { WordIsThere(s, t, p, n, i, j); }
    }
  }

  lemma WordIsThere(s: string, t: string, p: nat, n: nat, i: int, j: int)
    requires WordBetween(s, i, j) && p + |t| == |s| && 0 < n <= |t| && (forall k :: p <= k < |s| ==> s[k] == t[k - p])
    requires (forall k :: 0 <= k < p ==> IsSpace(s[k])) && (forall k :: 0 <= k < n ==> !IsSpace(t[k]))
    requires n < |t| ==> IsSpace(t[n])
    ensures forall k :: 0 <= k < |t[n..]| ==> IsSpace(t[n..][k])
  {
    assert !IsSpace(s[p]) && !IsSpace(s[p + n - 1]);
    assert i <= p && p + n - 1 < j;
    if n < |t| { assert IsSpace(s[p + n]); }
    forall k | 0 <= k < |t[n..]| ensures IsSpace(t[n..][k]) { assert t[n..][k] == s[p + n + k]; }
  }

  // ---- Trimming ----

  ghost predicate All(s: string, cut: set<char>) { forall k :: 0 <= k < |s| ==> s[k] in cut }

  lemma {:induction false} TrimLeftParts(s: string, cut: set<char>) returns (pre: string)
    ensures s == pre + TrimLeft(s, cut) && All(pre, cut) && (TrimLeft(s, cut) != [] ==> TrimLeft(s, cut)[0] !in cut)
  {
    pre := [];
    if s != [] && s[0] in cut {
      pre := TrimLeftParts(s[1..], cut);
      pre := [s[0]] + pre;
    }
  }

  lemma {:induction false} TrimRightParts(s: string, cut: set<char>) returns (post: string)
    ensures s == TrimRight(s, cut) + post && All(post, cut)
    ensures TrimRight(s, cut) != [] ==> TrimRight(s, cut)[|TrimRight(s, cut)| - 1] !in cut && TrimRight(s, cut)[0] == s[0]
  {
    post := [];
    if s != [] && s[|s| - 1] in cut {
      post := TrimRightParts(s[..|s| - 1], cut);
      post := post + [s[|s| - 1]];
    }
  }

  lemma {:induction false} TrimLeftOff(pre: string, s: string, cut: set<char>)
    requires All(pre, cut) && (s != [] ==> s[0] !in cut)
    ensures TrimLeft(pre + s, cut) == s
  {
    if pre == [] {
      assert pre + s == s;
    } else {
      assert (pre + s)[1..] == pre[1..] + s;
      TrimLeftOff(pre[1..], s, cut);
    }
  }

  lemma {:induction false} TrimRightOff(s: string, post: string, cut: set<char>)
    requires All(post, cut) && (s != [] ==> s[|s| - 1] !in cut)
    ensures TrimRight(s + post, cut) == s
  {
    if post == [] {
      assert s + post == s;
    } else {
      var whole := s + post;
      assert whole[..|whole| - 1] == s + post[..|post| - 1] && whole[|whole| - 1] == post[|post| - 1];
      TrimRightOff(s, post[..|post| - 1], cut);
    }
  }

  lemma TrimOff(pre: string, s: string, post: string, cut: set<char>)
    requires All(pre, cut) && All(post, cut) && s != [] && s[0] !in cut && s[|s| - 1] !in cut
    ensures Trim(pre + s + post, cut) == s
  {
    assert pre + s + post == pre + (s + post);
    TrimLeftOff(pre, s + post, cut);
    TrimRightOff(s, post, cut);
  }

  // ---- Lines ----

  /** Blanks and tabs around, an address, one blank or tab, and the rest. */
  ghost predicate Laid(raw: string, pre: string, ip: string, sep: char, rest: string, post: string) {
    && raw == pre + (ip + [sep] + rest) + post && All(pre, {' ', '\t'}) && All(post, {' ', '\t'}) && sep in {' ', '\t'}
    && rest != [] && rest[|rest| - 1] !in {' ', '\t'}
  }

  /** The line says that `d` has the address `ip`. */
  ghost predicate Entry(isIP: string -> bool, raw: string, d: string, ip: string) {
    isIP(ip) && OneWord(d) &&
    exists pre, sep, rest, post :: Laid(raw, pre, ip, sep, rest, post) && d == ReplaceChar(rest, '\t', ' ')
  }

  lemma EntryParses(isIP: string -> bool, raw: string, d: string, ip: string)
    requires IpSyntax(isIP) && Entry(isIP, raw, d, ip)
    ensures ParseLine(isIP, raw) == Some((d, ip))
  {
    var pre, sep, rest, post :| Laid(raw, pre, ip, sep, rest, post) && d == ReplaceChar(rest, '\t', ' ');
    var core := ip + [sep] + rest;
    assert core[0] == ip[0] && ip[0] in ip && core[|core| - 1] == rest[|rest| - 1];
    TrimOff(pre, core, post, BLANKS);
    var line := ReplaceChar(core, '\t', ' ');
    CleanLine(isIP, ip, sep, rest, line);
    IndexUnique(line, ' ', |ip|);
    OneFieldIff(d);
  }

  lemma CleanLine(isIP: string -> bool, ip: string, sep: char, rest: string, line: string)
    requires IpSyntax(isIP) && isIP(ip) && sep in {' ', '\t'} && line == ReplaceChar(ip + [sep] + rest, '\t', ' ')
    ensures |line| == |ip| + 1 + |rest| && line[..|ip|] == ip && line[|ip|] == ' ' && ' ' !in line[..|ip|] && line[0] == ip[0]
    ensures line[|ip| + 1..] == ReplaceChar(rest, '\t', ' ')
  {
    var core := ip + [sep] + rest;
    forall k | 0 <= k < |ip| ensures line[k] == ip[k] && line[k] != ' ' { assert core[k] == ip[k] && ip[k] in ip; }
    assert core[|ip|] == sep;
    forall k | 0 <= k < |rest| ensures line[|ip| + 1 + k] == ReplaceChar(rest, '\t', ' ')[k] { assert core[|ip| + 1 + k] == rest[k]; }
  }

  lemma ParsedIsEntry(isIP: string -> bool, raw: string, d: string, ip: string)
    requires ParseLine(isIP, raw) == Some((d, ip))
    ensures Entry(isIP, raw, d, ip)
  {
    var pre, core, post := TrimParts(raw, BLANKS);
    var line := ReplaceChar(core, '\t', ' ');
    var i := IndexOf(line, ' ');
    OneFieldIff(d);
    var sep, rest := CoreParts(core, line, i);
    assert |rest| == |d| > 0;
    assert Laid(raw, pre, ip, sep, rest, post);
  }

  lemma TrimParts(s: string, cut: set<char>) returns (pre: string, core: string, post: string)
    ensures core == Trim(s, cut) && s == pre + core + post && All(pre, cut) && All(post, cut)
    ensures core != [] ==> core[|core| - 1] !in cut
  {
    pre := TrimLeftParts(s, cut);
    post := TrimRightParts(TrimLeft(s, cut), cut);
    core := Trim(s, cut);
    assert pre + (core + post) == pre + core + post;
  }

  lemma CoreParts(core: string, line: string, i: nat) returns (sep: char, rest: string)
    requires line == ReplaceChar(core, '\t', ' ') && i < |line| && line[i] == ' ' && ' ' !in line[..i]
    ensures core == line[..i] + [sep] + rest && sep in {' ', '\t'} && line[i + 1..] == ReplaceChar(rest, '\t', ' ')
  {
    sep, rest := core[i], core[i + 1..];
    assert core[..i] == line[..i] by {
      forall k | 0 <= k < i ensures core[k] == line[k] { assert line[..i][k] == line[k]; }
    }
    assert core == core[..i] + [sep] + rest;
  }

  /** A line is an entry exactly if, blanks around it aside, it is an address, a blank or tab, and one word, spaces around
      that kept and tabs read as blanks. */
  lemma ParseLineIff(isIP: string -> bool, raw: string, d: string, ip: string)
    requires IpSyntax(isIP)
    ensures ParseLine(isIP, raw) == Some((d, ip)) <==> Entry(isIP, raw, d, ip)
  {
    if Entry(isIP, raw, d, ip) { EntryParses(isIP, raw, d, ip); }
    if ParseLine(isIP, raw) == Some((d, ip)) { ParsedIsEntry(isIP, raw, d, ip); }
  }

  // ---- Files ----

  ghost predicate Mentions(isIP: string -> bool, line: string, d: string) { exists ip :: Entry(isIP, line, d, ip) }

  lemma MentionsIff(isIP: string -> bool, line: string, d: string)
    requires IpSyntax(isIP)
    ensures Mentions(isIP, line, d) <==> ParseLine(isIP, line).Some? && ParseLine(isIP, line).value.0 == d
  {
    var r := ParseLine(isIP, line);
    if r.Some? { ParsedIsEntry(isIP, line, r.value.0, r.value.1); }
    if ip :| Entry(isIP, line, d, ip) { EntryParses(isIP, line, d, ip); }
  }

  lemma {:induction false} LinesBefore(parse: string -> Option<(string, string)>, lines: seq<string>, m: Hosts, d: string)
    requires forall j :: 0 <= j < |lines| ==> !(parse(lines[j]).Some? && parse(lines[j]).value.0 == d)
    ensures var r := LoadLines(parse, lines, m); (d in r <==> d in m) && (d in m ==> r[d] == m[d])
    decreases |lines|
  {
    if lines != [] {
      LinesBefore(parse, lines[1..], match parse(lines[0]) case None => m case Some((domain, ip)) => m[domain := ip], d);
    }
  }

  lemma {:induction false} LastLine(parse: string -> Option<(string, string)>, lines: seq<string>, m: Hosts, i: nat, d: string, ip: string)
    requires i < |lines| && parse(lines[i]) == Some((d, ip))
    requires forall j :: i < j < |lines| ==> !(parse(lines[j]).Some? && parse(lines[j]).value.0 == d)
    ensures var r := LoadLines(parse, lines, m); d in r && r[d] == ip
    decreases |lines|
  {
    var m' := match parse(lines[0]) case None => m case Some((domain, ip)) => m[domain := ip];
    if i == 0 {
      LinesBefore(parse, lines[1..], m', d);
    } else {
      assert lines[1..][i - 1] == lines[i] && forall j :: i <= j < |lines| - 1 ==> lines[1..][j] == lines[j + 1];
      LastLine(parse, lines[1..], m', i - 1, d, ip);
    }
  }

  /** The lines of a file: blanks, tabs and line ends around it aside. */
  function FileLines(content: string): seq<string> { Split(Trim(content, {' ', '\t', '\r', '\n'}), '\n') }

  /** The last line that is an entry for a domain gives its address, over what was in memory; without one, memory stays. */
  lemma LastEntryWins(isIP: string -> bool, content: string, m: Hosts, d: string)
    requires IpSyntax(isIP)
    ensures var lines, r := FileLines(content), Load(isIP, content, m);
            && (forall i, ip :: (0 <= i < |lines| && Entry(isIP, lines[i], d, ip)
                                 && (forall j :: i < j < |lines| ==> !Mentions(isIP, lines[j], d))) ==> d in r && r[d] == ip)
            && ((forall j :: 0 <= j < |lines| ==> !Mentions(isIP, lines[j], d)) ==> (d in r <==> d in m) && (d in m ==> r[d] == m[d]))
  {
    var lines, parse, r := FileLines(content), Parser(isIP), Load(isIP, content, m);
    assert r == LoadLines(parse, lines, m);
    forall j | 0 <= j < |lines| ensures Mentions(isIP, lines[j], d) <==> parse(lines[j]).Some? && parse(lines[j]).value.0 == d {
      MentionsIff(isIP, lines[j], d);
    }
    forall i, ip | (0 <= i < |lines| && Entry(isIP, lines[i], d, ip) && (forall j :: i < j < |lines| ==> !Mentions(isIP, lines[j], d)))
      ensures d in r && r[d] == ip
    {
      ParseLineIff(isIP, lines[i], d, ip);
      LastLine(parse, lines, m, i, d, ip);
    }
    if forall j :: 0 <= j < |lines| ==> !Mentions(isIP, lines[j], d) { LinesBefore(parse, lines, m, d); }
  }
}
