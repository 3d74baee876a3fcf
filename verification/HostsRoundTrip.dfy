/** Exactly which hosts maps survive being printed and parsed again (pkg/statefulset-grid-daemon/hosts/hosts.go). */
module HostsRoundTrip {
  import opened Basics
  import opened Strings
  import opened HostsFile

  // ---- Orders of a map ----

  lemma {:induction false} SomeOrder(keys: set<string>) returns (order: seq<string>)
    ensures forall k :: k in order <==> k in keys
    ensures forall i, j :: 0 <= i < j < |order| ==> order[i] != order[j]
    decreases |keys|
  {
    order := [];
    if keys != {} {
      var k :| k in keys;
      order := SomeOrder(keys - {k});
      order := order + [k];
    }
  }

  // ---- Trimming the last line ----

  lemma {:induction false} TrimRightConcat(a: string, b: string, cut: set<char>)
    requires TrimRight(b, cut) != []
    ensures TrimRight(a + b, cut) == a + TrimRight(b, cut)
    decreases |b|
  {
    var s := a + b;
    assert s[|s| - 1] == b[|b| - 1] && s[..|s| - 1] == a + b[..|b| - 1];
    if b[|b| - 1] in cut {
      TrimRightConcat(a, b[..|b| - 1], cut);
    }
  }

  lemma {:induction false} TrimmedAway(s: string, cut: set<char>)
    requires TrimRight(s, cut) == []
    ensures forall i :: 0 <= i < |s| ==> s[i] in cut
  {
    if s != [] { TrimmedAway(s[..|s| - 1], cut); }
  }

  lemma {:induction false} OnlySpaces(s: string)
    requires forall i :: 0 <= i < |s| ==> IsSpace(s[i])
    ensures SkipSpaces(s) == []
  {
    if s != [] { OnlySpaces(s[1..]); }
  }

  /** A word is left when the end of a domain is trimmed. */
  lemma TrimmedDomain(d: string)
    requires Loadable(d)
    ensures var t := TrimRight(d, FILE_EDGES);
            t != [] && '\t' !in t && '\n' !in t && t[|t| - 1] !in FILE_EDGES && (d[|d| - 1] == '\r' ==> |t| < |d|)
  {
    var t := TrimRight(d, FILE_EDGES);
    if t == [] {
      TrimmedAway(d, FILE_EDGES);
      OnlySpaces(d);
    }
    TrimRightChars(d, FILE_EDGES);
    TrimRightShorter(d[..|d| - 1], FILE_EDGES);
  }

  lemma {:induction false} TrimRightShorter(s: string, cut: set<char>)
    ensures |TrimRight(s, cut)| <= |s|
  {
    if s != [] { TrimRightShorter(s[..|s| - 1], cut); }
  }

  /** What stands before the last line. */
  function Before(lines: seq<string>): string { if lines == [] then [] else Join(lines, '\n') + ['\n'] }

  lemma JoinLast(lines: seq<string>, last: string)
    ensures Join(lines + [last], '\n') == Before(lines) + last
  {
    if lines == [] {
      assert lines + [last] == [last];
    } else {
      JoinSnoc(lines, '\n', last);
    }
  }

  lemma StartsOnWord(lines: seq<string>, last: string)
    requires last != [] && last[0] !in FILE_EDGES
    requires forall i :: 0 <= i < |lines| ==> lines[i] != [] && lines[i][0] !in FILE_EDGES
    ensures var s := Before(lines) + last; s != [] && s[0] !in FILE_EDGES
  {
    if lines != [] { JoinEdges(lines); }
  }

  ghost predicate PlainLine(l: string) { l != [] && l[0] !in FILE_EDGES && '\n' !in l }

  /** The file whose last line is `first + d` splits into the lines before it and that line with its end trimmed. */
  lemma LastLineTrimmed(lines: seq<string>, all: seq<string>, first: string, d: string, t: string)
    requires t == TrimRight(d, FILE_EDGES) != [] && '\n' !in t && PlainLine(first) && all == lines + [first + t]
    requires forall i :: 0 <= i < |lines| ==> PlainLine(lines[i])
    ensures Split(Trim(Before(lines) + (first + d) + "\n", FILE_EDGES), '\n') == all
  {
    StartsOnWord(lines, first);
    TrimmedFile(Before(lines), first, d, t);
    JoinLast(lines, first + t);
    assert forall i :: 0 <= i < |all| ==> '\n' !in all[i];
    SplitJoin(all, '\n');
  }

  lemma TrimmedFile(before: string, first: string, d: string, t: string)
    requires t == TrimRight(d, FILE_EDGES) != [] && before + first != [] && (before + first)[0] !in FILE_EDGES
    ensures Trim(before + (first + d) + "\n", FILE_EDGES) == before + (first + t)
  {
    Regroup(before, first, d, "\n");
    Regroup(before, first, t, "");
    assert before + (first + t) + "" == before + (first + t) && t + "" == t;
    TrimEnd(before + first, d, t);
  }

  lemma Regroup(a: string, b: string, c: string, d: string)
    ensures a + (b + c) + d == a + b + (c + d)
  {}

  lemma TrimEnd(head: string, d: string, t: string)
    requires head != [] && head[0] !in FILE_EDGES && t == TrimRight(d, FILE_EDGES) != []
    ensures Trim(head + (d + "\n"), FILE_EDGES) == head + t
  {
    var end := d + "\n";
    assert TrimLeft(head + end, FILE_EDGES) == head + end;
    assert end[|end| - 1] == '\n' && end[..|end| - 1] == d;
    TrimRightConcat(head, end, FILE_EDGES);
  }

  // ---- What is lost ----

  lemma {:induction false} NeverLoaded(parse: string -> Option<(string, string)>, lines: seq<string>, m: Hosts, d: string)
    requires d !in m && forall i :: 0 <= i < |lines| ==> parse(lines[i]).None? || parse(lines[i]).value.0 != d
    ensures d !in LoadLines(parse, lines, m)
    decreases |lines|
  {
    if lines != [] {
      NeverLoaded(parse, lines[1..], match parse(lines[0]) case None => m case Some((domain, ip)) => m[domain := ip], d);
    }
  }

  /** A domain that ends in a carriage return is lost when it is printed last. */
  lemma LostWhenLast(isIP: string -> bool, m: Hosts, rest: seq<string>, d: string)
    requires IpSyntax(isIP) && AllLoadable(isIP, m) && Enumerates(rest + [d], m) && d != [] && d[|d| - 1] == '\r'
    ensures d !in Load(isIP, Print(m, rest + [d]), map[])
  {
    assert (rest + [d])[|rest|] == d;
    OthersPlain(isIP, m, rest, d);
    var lines, first, t := Lines(m, rest), m[d] + " ", TrimRight(d, FILE_EDGES);
    var all := lines + [first + t];
    assert Split(Trim(Print(m, rest + [d]), FILE_EDGES), '\n') == all by {
      TrimmedDomain(d);
      LastLineTrimmed(lines, all, first, d, t);
      PrintedLast(m, rest, d);
    }
    assert forall i :: 0 <= i < |all| ==> Parser(isIP)(all[i]).None? || Parser(isIP)(all[i]).value.0 != d by {
      TrimmedDomain(d);
      LastParse(isIP, m, rest, d, t);
    }
    NeverLoaded(Parser(isIP), all, map[], d);
  }

  lemma PrintedLast(m: Hosts, rest: seq<string>, d: string)
    requires d in m && forall i :: 0 <= i < |rest| ==> rest[i] in m
    ensures Print(m, rest + [d]) == Before(Lines(m, rest)) + (m[d] + " " + d) + "\n"
  {
    PrintIsJoin(m, rest + [d]);
    JoinLast(Lines(m, rest), m[d] + " " + d);
    assert Lines(m, rest + [d]) == Lines(m, rest) + [m[d] + " " + d];
  }

  lemma OthersPlain(isIP: string -> bool, m: Hosts, rest: seq<string>, d: string)
    requires IpSyntax(isIP) && AllLoadable(isIP, m) && Enumerates(rest + [d], m)
    ensures forall i :: 0 <= i < |rest| ==> rest[i] in m && rest[i] != d
    ensures d in m && PlainLine(m[d] + " ")
    ensures forall i :: 0 <= i < |rest| ==> PlainLine(Lines(m, rest)[i])
  {
    var order := rest + [d];
    assert order[|rest|] == d && forall i :: 0 <= i < |rest| ==> order[i] == rest[i];
    assert m[d][0] in m[d] && '\n' !in m[d];
    forall i | 0 <= i < |rest| ensures PlainLine(Lines(m, rest)[i]) {
      LineShape(isIP, m[rest[i]], rest[i]);
    }
  }

  lemma LastParse(isIP: string -> bool, m: Hosts, rest: seq<string>, d: string, t: string)
    requires IpSyntax(isIP) && AllLoadable(isIP, m) && d in m && forall i :: 0 <= i < |rest| ==> rest[i] in m && rest[i] != d
    requires '\t' !in t && t != [] && t[|t| - 1] != ' ' && t != d
    ensures var all := Lines(m, rest) + [m[d] + " " + t];
            forall i :: 0 <= i < |all| ==> Parser(isIP)(all[i]).None? || Parser(isIP)(all[i]).value.0 != d
  {
    forall i | 0 <= i < |rest| ensures Parser(isIP)(Line(m, rest[i])) == Some((rest[i], m[rest[i]])) {
      PrintedParses(isIP, m, rest[i]);
    }
    LineParses(isIP, m[d], t);
  }

  /** Printing and parsing gives a map back in every iteration order exactly when all its addresses are addresses and all
      its domains are single words without a tab or newline and without a blank or carriage return at the end. */
  lemma RoundTripIff(isIP: string -> bool, m: Hosts)
    requires IpSyntax(isIP)
    ensures (forall order :: Enumerates(order, m) ==> Load(isIP, Print(m, order), map[]) == m) <==> AllOk(isIP, m)
  {
    if AllOk(isIP, m) {
      forall order | Enumerates(order, m) ensures Load(isIP, Print(m, order), map[]) == m {
        RoundTrip(isIP, m, order);
      }
    } else {
      var order := LosingOrder(isIP, m);
      assert Enumerates(order, m);
    }
  }

  lemma LosingOrder(isIP: string -> bool, m: Hosts) returns (order: seq<string>)
    requires IpSyntax(isIP) && !AllOk(isIP, m)
    ensures Enumerates(order, m) && Load(isIP, Print(m, order), map[]) != m
  {
    if AllLoadable(isIP, m) {
      var d :| d in m && !(DomainOk(d) && isIP(m[d]));
      var rest := SomeOrder(m.Keys - {d});
      order := rest + [d];
      forall i, j | 0 <= i < j < |order| ensures order[i] != order[j] {
        if j == |rest| { assert rest[i] in rest; }
      }
      forall k | k in m ensures k in order {}
      forall i | 0 <= i < |order| ensures order[i] in m {
        if i < |rest| { assert rest[i] in rest; }
      }
      LostWhenLast(isIP, m, rest, d);
    } else {
      order := SomeOrder(m.Keys);
      forall i | 0 <= i < |order| ensures order[i] in m { assert order[i] in order; }
      FileLoadsOk(isIP, Print(m, order));
    }
  }
}
