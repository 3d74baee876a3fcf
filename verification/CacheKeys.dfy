/** Which requests share a cache file: cacheKey (pkg/lite-apiserver/cache/cache_mgr.go:313-323) and the file names made
    from it (pkg/lite-apiserver/storage/file_storage.go:162-168). */
module CacheKeys {
  import opened Strings

  datatype Request =
    | Resource(namespace: string, resource: string, name: string, subresource: string)
    | NonResource(path: string)

  datatype Verb = Get | List

  function Parts(r: Request): seq<string> {
    match r
    case Resource(ns, res, name, sub) => [ns, res, name, sub]
    case NonResource(path) => [ReplaceChar(path, '/', '-')]
  }

  function CacheKey(userAgent: string, r: Request): string { Join([userAgent] + Parts(r), '_') }

  function OneFileName(key: string): string { ReplaceChar(key, '/', '_') }

  function ListFileName(key: string): string { ReplaceChar(key + "_" + "list", '/', '_') }

  function FileName(userAgent: string, r: Request, verb: Verb): string {
    var key := CacheKey(userAgent, r);
    if verb == Get then OneFileName(key) else ListFileName(key)
  }

  /** No part of the request contains the separators. */
  predicate Clean(r: Request) {
    forall i :: 0 <= i < |Parts(r)| ==> '_' !in Parts(r)[i] && '/' !in Parts(r)[i]
  }

  function AllParts(r: Request, verb: Verb): seq<string> { if verb == Get then Parts(r) else Parts(r) + ["list"] }

  lemma {:induction false} ReplaceConcat(a: string, b: string, from: char, to: char)
    ensures ReplaceChar(a + b, from, to) == ReplaceChar(a, from, to) + ReplaceChar(b, from, to)
  {}

  lemma {:induction false} JoinClean(parts: seq<string>)
    requires parts != [] && forall i :: 0 <= i < |parts| ==> '/' !in parts[i]
    ensures '/' !in Join(parts, '_')
  {
    if |parts| > 1 {
      JoinClean(parts[1..]);
    }
  }

  /** A file name is the cleaned user agent, a separator, and the joined parts. */
  lemma FileNameShape(userAgent: string, r: Request, verb: Verb)
    requires Clean(r)
    ensures FileName(userAgent, r, verb) == ReplaceChar(userAgent, '/', '_') + "_" + Join(AllParts(r, verb), '_')
  {
    var parts := Parts(r);
    assert ([userAgent] + parts)[1..] == parts;
    JoinClean(parts);
    var tail := Join(parts, '_');
    var key := userAgent + ['_'] + tail;
    assert CacheKey(userAgent, r) == key;
    assert "_" == ['_'];
    if verb == List {
      JoinSnoc(parts, '_', "list");
      assert key + "_" + "list" == userAgent + "_" + (tail + "_" + "list");
      AgentCleaned(userAgent, tail + "_" + "list");
    } else {
      AgentCleaned(userAgent, tail);
    }
  }

  lemma AgentCleaned(userAgent: string, tail: string)
    requires '/' !in tail
    ensures ReplaceChar(userAgent + "_" + tail, '/', '_') == ReplaceChar(userAgent, '/', '_') + "_" + tail
  {
    ReplaceConcat(userAgent + "_", tail, '/', '_');
    ReplaceNothing(tail, '/', '_');
    ReplaceConcat(userAgent, "_", '/', '_');
  }

  lemma PartsSplit(r: Request, verb: Verb)
    requires Clean(r)
    ensures Split(Join(AllParts(r, verb), '_'), '_') == AllParts(r, verb)
  {
    SplitJoin(AllParts(r, verb), '_');
  }

  /** The paths differ at most in dashes against slashes. */
  predicate DashedAlike(p: string, q: string) {
    |p| == |q| && forall i :: 0 <= i < |p| ==> p[i] == q[i] || (p[i] in {'-', '/'} && q[i] in {'-', '/'})
  }

  lemma DashedIff(p: string, q: string)
    ensures ReplaceChar(p, '/', '-') == ReplaceChar(q, '/', '-') <==> DashedAlike(p, q)
  {
    var a, b := ReplaceChar(p, '/', '-'), ReplaceChar(q, '/', '-');
    if a == b {
      forall i | 0 <= i < |p| ensures p[i] == q[i] || (p[i] in {'-', '/'} && q[i] in {'-', '/'}) { assert a[i] == b[i]; }
    }
  }

  /** Under one user agent two clean requests use the same file exactly when the verb and the parts agree. Distinct
      resource requests therefore never overwrite each other's entry, nor a list a single object; two non-resource
      paths do when they differ only in dashes against slashes. */
  lemma SameFileIff(userAgent: string, r: Request, v: Verb, s: Request, w: Verb)
    requires Clean(r) && Clean(s)
    ensures FileName(userAgent, r, v) == FileName(userAgent, s, w) <==> v == w && Parts(r) == Parts(s)
    ensures r.Resource? && s.Resource? ==> (FileName(userAgent, r, v) == FileName(userAgent, s, w) <==> (r, v) == (s, w))
    ensures r.Resource? != s.Resource? ==> FileName(userAgent, r, v) != FileName(userAgent, s, w)
    ensures r.NonResource? && s.NonResource? ==>
              (FileName(userAgent, r, v) == FileName(userAgent, s, w) <==> v == w && DashedAlike(r.path, s.path))
  {
    FileNameShape(userAgent, r, v);
    FileNameShape(userAgent, s, w);
    PartsSplit(r, v);
    PartsSplit(s, w);
    var head := ReplaceChar(userAgent, '/', '_') + "_";
    var a, b := Join(AllParts(r, v), '_'), Join(AllParts(s, w), '_');
    if head + a == head + b {
      assert a == (head + a)[|head|..] == (head + b)[|head|..] == b;
      SamePartsSameRequest(r, v, s, w);
    }
    if r.NonResource? && s.NonResource? {
      DashedIff(r.path, s.path);
      assert Parts(r) == Parts(s) <==> Parts(r)[0] == Parts(s)[0];
    } else if r.Resource? != s.Resource? {
      assert |Parts(r)| != |Parts(s)|;
    }
    if r.Resource? && s.Resource? && Parts(r) == Parts(s) {
      assert forall i :: 0 <= i < 4 ==> Parts(r)[i] == Parts(s)[i];
    }
  }

  /** A list has one more part than a single object, and never the part count of the other kind of request with it. */
  lemma SamePartsSameRequest(r: Request, v: Verb, s: Request, w: Verb)
    requires AllParts(r, v) == AllParts(s, w)
    ensures v == w && Parts(r) == Parts(s)
  {
    assert |AllParts(r, v)| == (if r.Resource? then 4 else 1) + (if v == List then 1 else 0);
    assert |AllParts(s, w)| == (if s.Resource? then 4 else 1) + (if w == List then 1 else 0);
    if v == List {
      assert AllParts(r, v)[..|AllParts(r, v)| - 1] == Parts(r);
      assert AllParts(s, w)[..|AllParts(s, w)| - 1] == Parts(s);
    }
  }

  /** The pieces of a user agent's cleaned name. */
  function AgentParts(userAgent: string): seq<string> { Split(ReplaceChar(userAgent, '/', '_'), '_') }

  /** A file name splits into the pieces of the user agent and the parts of the request. */
  lemma FileNameSplits(userAgent: string, r: Request, v: Verb)
    requires Clean(r)
    ensures Split(FileName(userAgent, r, v), '_') == AgentParts(userAgent) + AllParts(r, v)
  {
    FileNameShape(userAgent, r, v);
    var agent, tail := ReplaceChar(userAgent, '/', '_'), Join(AllParts(r, v), '_');
    assert agent + "_" + tail == agent + ['_'] + tail;
    SplitConcat(agent, '_', tail);
    PartsSplit(r, v);
  }

  /** Requests of any two user agents use the same file exactly when the pieces of the one user agent followed by the parts
      of its request are those of the other: nothing marks where the user agent ends. */
  lemma SameFileAcrossAgentsIff(userAgent: string, r: Request, v: Verb, other: string, s: Request, w: Verb)
    requires Clean(r) && Clean(s)
    ensures FileName(userAgent, r, v) == FileName(other, s, w) <==>
            AgentParts(userAgent) + AllParts(r, v) == AgentParts(other) + AllParts(s, w)
  {
    FileNameSplits(userAgent, r, v);
    FileNameSplits(other, s, w);
    JoinSplit(FileName(userAgent, r, v), '_');
    JoinSplit(FileName(other, s, w), '_');
  }

  /** A slash and an underscore in the user agent give one file. */
  lemma UserAgentsCollide(r: Request, v: Verb)
    requires Clean(r)
    ensures FileName("a/b", r, v) == FileName("a_b", r, v)
  {
    SameFileAcrossAgentsIff("a/b", r, v, "a_b", r, v);
    assert ReplaceChar("a/b", '/', '_') == ReplaceChar("a_b", '/', '_');
  }

  /** One user agent's list is another's single object of a different request. */
  lemma ListCollidesWithGet()
    ensures FileName("a", Resource("b", "c", "d", "e"), List) == FileName("a_b", Resource("c", "d", "e", "list"), Get)
  {
    var r, s := Resource("b", "c", "d", "e"), Resource("c", "d", "e", "list");
    SameFileAcrossAgentsIff("a", r, List, "a_b", s, Get);
    TwoAgents();
    assert ["a"] + ["b", "c", "d", "e", "list"] == ["a", "b"] + ["c", "d", "e", "list"];
  }

  lemma TwoAgents()
    ensures AgentParts("a") == ["a"] && AgentParts("a_b") == ["a", "b"]
  {
    SplitWithout("a", '_');
    SplitWithout("b", '_');
    SplitConcat("a", '_', "b");
    assert ReplaceChar("a", '/', '_') == "a" && ReplaceChar("a_b", '/', '_') == "a_b" == "a" + ['_'] + "b";
  }
}
