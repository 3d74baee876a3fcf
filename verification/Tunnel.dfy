/** A tunnel node's bound connections and the undo of a failed connect (pkg/tunnel/tunnelcontext/node.go, conncontext.go). */
module Tunnel {
  import opened Basics

  // ---- Unbinding on values ----

  /** What ranging over the slice while shifting it computes: the element after a removed one is kept unread. */
  function RemoveSkipping(s: seq<string>, u: string): seq<string> {
    if s == [] then []
    else if s[0] != u then [s[0]] + RemoveSkipping(s[1..], u)
    else if |s| == 1 then []
    else [s[1]] + RemoveSkipping(s[2..], u)
  }

  function Without(s: seq<string>, u: string): seq<string> {
    if s == [] then [] else if s[0] == u then Without(s[1..], u) else [s[0]] + Without(s[1..], u)
  }

  /** After a removal the slot past the end still holds the last element, and the loop still reads it. */
  predicate UnbindPanics(s: seq<string>, u: string) {
    s != [] && s[|s| - 1] == u && u in s[..|s| - 1]
  }

  ghost predicate AdjacentPair(s: seq<string>, u: string) { exists i :: 0 <= i < |s| - 1 && s[i] == u == s[i + 1] }

  ghost predicate NoDuplicates(s: seq<string>) { forall i, j :: 0 <= i < j < |s| ==> s[i] != s[j] }

  // ---- The node ----

  class Conn {
    const uid: string
    constructor (uid: string) ensures this.uid == uid { this.uid := uid; }
  }

  class ConnContext {
    var conns: map<string, Conn>

    method AddConn(uid: string) returns (c: Conn)
      modifies this
      ensures fresh(c) && c.uid == uid && conns == old(conns)[uid := c]
    {
      c := new Conn(uid);
      conns := conns[uid := c];
    }

    method RemoveConn(uid: string)
      modifies this
      ensures conns == old(conns) - {uid}
    {
      conns := conns - {uid};
    }

    /** The connections of the bound names, in order; names without one are passed over. */
    method GetConns(names: seq<string>) returns (found: seq<Conn>)
      ensures found == Lookup(conns, names)
    {
      found := [];
      for i := 0 to |names|
        invariant found + Lookup(conns, names[i..]) == Lookup(conns, names)
      {
        assert names[i..][1..] == names[i + 1..];
        if names[i] in conns {
          found := found + [conns[names[i]]];
        }
      }
    }
  }

  function Lookup(conns: map<string, Conn>, names: seq<string>): seq<Conn> {
    if names == [] then []
    else (if names[0] in conns then [conns[names[0]]] else []) + Lookup(conns, names[1..])
  }

  /** `found` are the connections of the names at these positions, in order, and no other name has one. */
  ghost predicate FoundAt(conns: map<string, Conn>, names: seq<string>, found: seq<Conn>, at: seq<nat>) {
    && |at| == |found| && (forall i, j :: 0 <= i < j < |at| ==> at[i] < at[j])
    && (forall i :: 0 <= i < |at| ==> at[i] < |names| && names[at[i]] in conns && found[i] == conns[names[at[i]]])
    && (forall k: nat :: k < |names| && names[k] in conns ==> k in at)
  }

  lemma {:induction false} LookupFinds(conns: map<string, Conn>, names: seq<string>) returns (at: seq<nat>)
    ensures FoundAt(conns, names, Lookup(conns, names), at)
  {
    if names == [] {
      at := [];
    } else {
      var rest := Lookup(conns, names[1..]);
      at := LookupFinds(conns, names[1..]);
      at := Shifted(conns, names, rest, at);
      if names[0] in conns {
        at := FoundFirst(conns, names, rest, at);
      } else {
        FoundLater(conns, names, rest, at);
        assert Lookup(conns, names) == rest;
      }
    }
  }

  lemma FoundLater(conns: map<string, Conn>, names: seq<string>, found: seq<Conn>, later: seq<nat>)
    requires names != [] && names[0] !in conns && |later| == |found| && (forall i, j :: 0 <= i < j < |later| ==> later[i] < later[j])
    requires forall i :: 0 <= i < |later| ==> 0 < later[i] < |names| && names[later[i]] in conns && found[i] == conns[names[later[i]]]
    requires forall k: nat :: 0 < k < |names| && names[k] in conns ==> k in later
    ensures FoundAt(conns, names, found, later)
  {}

  lemma Shifted(conns: map<string, Conn>, names: seq<string>, found: seq<Conn>, at: seq<nat>) returns (later: seq<nat>)
    requires names != [] && FoundAt(conns, names[1..], found, at)
    ensures |later| == |found| && (forall i, j :: 0 <= i < j < |later| ==> later[i] < later[j])
    ensures forall i :: 0 <= i < |later| ==> 0 < later[i] < |names| && names[later[i]] in conns && found[i] == conns[names[later[i]]]
    ensures forall k: nat :: 0 < k < |names| && names[k] in conns ==> k in later
  {
    later := seq(|at|, i requires 0 <= i < |at| => at[i] + 1);
    forall k: nat | 0 < k < |names| && names[k] in conns ensures k in later {
      assert names[1..][k - 1] == names[k];
      var i :| 0 <= i < |at| && at[i] == k - 1;
      assert later[i] == k;
    }
  }

  lemma FoundFirst(conns: map<string, Conn>, names: seq<string>, found: seq<Conn>, later: seq<nat>) returns (at: seq<nat>)
    requires names != [] && names[0] in conns && |later| == |found| && (forall i, j :: 0 <= i < j < |later| ==> later[i] < later[j])
    requires forall i :: 0 <= i < |later| ==> 0 < later[i] < |names| && names[later[i]] in conns && found[i] == conns[names[later[i]]]
    requires forall k: nat :: 0 < k < |names| && names[k] in conns ==> k in later
    ensures FoundAt(conns, names, [conns[names[0]]] + found, at)
  {
    at := [0] + later;
  }

  /** What comes back on the connection's channel. */
  datatype Reply = Message(kind: string) | TimedOut
  datatype Outcome = Connected(conn: Conn) | ConnectError | Panic

  const CONNECT_FAILED := "connect-failed"

  class Node {
    var data: array<string>  // the slice's backing array
    var len: nat
    var pairnodes: map<string, string>

    ghost predicate Valid()
      reads this
    {
      len <= data.Length
    }

    ghost function Conns(): seq<string>
      requires Valid()
      reads this, data
    {
      data[..len]
    }

    constructor ()
      ensures Valid() && fresh(data) && Conns() == [] && pairnodes == map[]
    {
      data, len, pairnodes := new string[0], 0, map[];
    }

    method BindNode(uid: string)
      requires Valid()
      modifies this, data
      ensures Valid() && (data == old(data) || fresh(data))
      ensures Conns() == old(Conns()) + [uid] && pairnodes == old(pairnodes)
    {
      if len == data.Length {
        var bigger := new string[2 * len + 1];
        forall i | 0 <= i < len { bigger[i] := data[i]; }
        assert bigger[..len] == data[..len];
        data := bigger;
      }
      data[len] := uid;
      len := len + 1;
    }

    /** Ranges over the slice as it was, re-reading the array that the removals shift. */
    method UnbindNode(uid: string) returns (ok: bool)
      requires Valid()
      modifies this, data
      ensures Valid() && data == old(data)
      ensures ok <==> !UnbindPanics(old(Conns()), uid)
      ensures ok ==> Conns() == RemoveSkipping(old(Conns()), uid) && pairnodes == old(pairnodes) - {uid}
    {
      ok := DropBound(uid);
      if ok {
        pairnodes := pairnodes - {uid};
      }
    }

    method RemoveAt(k: nat, ghost n: nat)
      requires k < len <= n <= data.Length
      modifies this`len, data
      ensures len == old(len) - 1 && data[..n] == Shift(old(data[..n]), k, old(len))
    {
      forall i | k <= i < len - 1 { data[i] := data[i + 1]; }
      len := len - 1;
    }

    method DropBound(uid: string) returns (ok: bool)
      requires Valid()
      modifies this`len, data
      ensures Valid()
      ensures ok <==> !UnbindPanics(old(Conns()), uid)
      ensures ok ==> Conns() == RemoveSkipping(old(Conns()), uid)
    {
      var n := len;
      ghost var result := Scan(data[..n], uid, 0, n);
      ScanMeaning(data[..n], uid);
      for k := 0 to n
        invariant len <= n <= data.Length && Scan(data[..n], uid, k, len) == result
      {
        ok := VisitBound(uid, k, n);
        if !ok { return; }
      }
      assert data[..n][..len] == data[..len];
      return true;
    }

    /** One round of the loop. */
    method VisitBound(uid: string, k: nat, ghost n: nat) returns (ok: bool)
      requires k < n && len <= n <= data.Length
      modifies this`len, data
      ensures len <= n
      ensures Scan(old(data[..n]), uid, k, old(len)) == if ok then Scan(data[..n], uid, k + 1, len) else None
    {
      ghost var before := data[..n];
      assert before[k] == data[k];
      if data[k] == uid {
        if len < k + 1 { return false; }
        RemoveAt(k, n);
      }
      assert |data[..n]| == n;
      return true;
    }

    /** A failed connect unbinds again. It panics exactly when the uid was already bound; otherwise the bound connections
        are as before, and so is everything else exactly when the uid was in neither table. */
    method ConnectNode(table: ConnContext, uid: string, reply: Reply) returns (outcome: Outcome)
      requires Valid()
      modifies this, data, table
      ensures Valid()
      ensures outcome.Connected? <==> reply.Message? && reply.kind != CONNECT_FAILED
      ensures outcome.Panic? <==> !outcome.Connected? && uid in old(Conns())
      ensures outcome.Connected? ==> Conns() == old(Conns()) + [uid] && pairnodes == old(pairnodes)
      ensures outcome.Connected? ==> fresh(outcome.conn) && table.conns == old(table.conns)[uid := outcome.conn]
      ensures outcome.ConnectError? ==> Conns() == old(Conns())
      ensures outcome.ConnectError? ==> pairnodes == old(pairnodes) - {uid} && table.conns == old(table.conns) - {uid}
      ensures outcome.ConnectError? ==>
                (pairnodes == old(pairnodes) && table.conns == old(table.conns)
                 <==> uid !in old(pairnodes) && uid !in old(table.conns))
    {
      ghost var s := Conns();
      var conn := table.AddConn(uid);
      BindNode(uid);
      if reply.Message? && reply.kind != CONNECT_FAILED {
        return Connected(conn);
      }
      assert (s + [uid])[..|s|] == s;
      var ok := UnbindNode(uid);
      if !ok { return Panic; }
      UndoLast(s, uid);
      table.RemoveConn(uid);
      return ConnectError;
    }
  }

  // ---- What unbinding leaves ----

  /** append(a[:k], a[k+1:len]...): the slot past the new end keeps its value. */
  function Shift(a: seq<string>, k: nat, len: nat): (r: seq<string>)
    requires k < len <= |a|
    ensures |r| == |a| && forall i :: 0 <= i < |a| ==> r[i] == if k <= i < len - 1 then a[i + 1] else a[i]
  {
    seq(|a|, i requires 0 <= i < |a| => if k <= i < len - 1 then a[i + 1] else a[i])
  }

  /** UnbindNode's loop from position `k`: the array up to the length at the start, of which `len` are live. */
  function Scan(a: seq<string>, u: string, k: nat, len: nat): Option<seq<string>>
    requires k <= |a| && len <= |a|
    decreases |a| - k
  {
    if k == |a| then Some(a[..len])
    else if a[k] != u then Scan(a, u, k + 1, len)
    else if len < k + 1 then None
    else Scan(Shift(a, k, len), u, k + 1, len - 1)
  }

  /** Past the live elements the array holds copies of the last one. */
  ghost predicate Stale(a: seq<string>, len: nat, last: string) { forall i :: len <= i < |a| ==> a[i] == last }

  /** Past the live elements the loop stops at the first slot, or runs through. */
  lemma {:induction false} ScanStale(a: seq<string>, u: string, k: nat, len: nat, last: string)
    requires len <= k <= |a| && Stale(a, len, last)
    ensures Scan(a, u, k, len) == if last == u && k < |a| then None else Some(a[..len])
    decreases |a| - k
  {
    if k < |a| && last != u { ScanStale(a, u, k + 1, len, last); }
  }

  /** How the loop ends from a live position. */
  ghost function Ending(a: seq<string>, u: string, k: nat, len: nat, last: string): Option<seq<string>>
    requires k <= len <= |a|
  {
    var rest := a[k..len];
    if last == u && (len < |a| || UnbindPanics(rest, u)) then None else Some(a[..k] + RemoveSkipping(rest, u))
  }

  lemma EndingOther(a: seq<string>, u: string, k: nat, len: nat, last: string)
    requires k < len <= |a| && a[k] != u
    ensures Ending(a, u, k, len, last) == Ending(a, u, k + 1, len, last)
  {
    var rest := a[k..len];
    assert rest[1..] == a[k + 1..len] && a[..k + 1] == a[..k] + [rest[0]];
    LaterPanics(rest, u);
    Regroup(a[..k], rest[0], RemoveSkipping(rest[1..], u));
  }

  lemma EndingUid(a: seq<string>, b: seq<string>, u: string, k: nat, len: nat, last: string)
    requires k + 1 < len <= |a| && a[k] == u && a[len - 1] == last && b == Shift(a, k, len)
    ensures Ending(a, u, k, len, last) == Ending(b, u, k + 1, len - 1, last)
  {
    var rest := a[k..len];
    assert rest[2..] == b[k + 1..len - 1] && b[..k + 1] == a[..k] + [rest[1]];
    assert rest[..|rest| - 1][0] == u;
    Regroup(a[..k], rest[1], RemoveSkipping(rest[2..], u));
  }

  lemma ScanLast(a: seq<string>, u: string, k: nat, last: string)
    requires k < |a| && Stale(a, k, last) && a[k] == u
    ensures Scan(a, u, k, k + 1) == Ending(a, u, k, k + 1, last)
  {
    var b := Shift(a, k, k + 1);
    ScanStale(b, u, k + 1, k, last);
    assert a[k..k + 1] == [u] && b[..k] == a[..k] + [];
  }

  /** The loop at a live position. */
  lemma {:induction false} ScanLive(a: seq<string>, u: string, k: nat, len: nat, last: string)
    requires k <= len <= |a| && Stale(a, len, last) && (k < len ==> a[len - 1] == last)
    ensures Scan(a, u, k, len) == Ending(a, u, k, len, last)
    decreases len - k
  {
    if k == len {
      ScanStale(a, u, k, len, last);
      assert a[..k] + [] == a[..k];
    } else if a[k] != u {
      EndingOther(a, u, k, len, last);
      ScanLive(a, u, k + 1, len, last);
    } else if k + 1 == len {
      ScanLast(a, u, k, last);
    } else {
      var b := Shift(a, k, len);
      EndingUid(a, b, u, k, len, last);
      ScanLive(b, u, k + 1, len - 1, last);
    }
  }

  lemma Regroup(p: seq<string>, x: string, q: seq<string>)
    ensures p + ([x] + q) == p + [x] + q
  {}

  lemma LaterPanics(rest: seq<string>, u: string)
    requires rest != [] && rest[0] != u
    ensures UnbindPanics(rest, u) <==> UnbindPanics(rest[1..], u)
  {
    if |rest| > 1 {
      assert rest[..|rest| - 1] == [rest[0]] + rest[1..][..|rest| - 2];
    }
  }

  /** The loop panics or computes RemoveSkipping. */
  lemma ScanMeaning(s: seq<string>, u: string)
    ensures Scan(s, u, 0, |s|) == if UnbindPanics(s, u) then None else Some(RemoveSkipping(s, u))
  {
    assert s[0..|s|] == s && s[..0] + RemoveSkipping(s, u) == RemoveSkipping(s, u);
    ScanLive(s, u, 0, |s|, if s == [] then u else s[|s| - 1]);
  }

  /** Only the uid can go, and everything else keeps its order. */
  lemma {:induction false} OthersUntouched(s: seq<string>, u: string)
    ensures Without(RemoveSkipping(s, u), u) == Without(s, u)
    decreases |s|
  {
    if s != [] {
      if s[0] != u {
        OthersUntouched(s[1..], u);
        assert ([s[0]] + RemoveSkipping(s[1..], u))[1..] == RemoveSkipping(s[1..], u);
      } else if |s| > 1 {
        OthersUntouched(s[2..], u);
        assert ([s[1]] + RemoveSkipping(s[2..], u))[1..] == RemoveSkipping(s[2..], u);
        assert s[1..][1..] == s[2..] && s[1..][0] == s[1];
      }
    }
  }

  /** Every binding of the uid goes exactly when no two of them are neighbours. */
  lemma {:induction false} RemovesAllIff(s: seq<string>, u: string)
    ensures u !in RemoveSkipping(s, u) <==> !AdjacentPair(s, u)
    decreases |s|
  {
    if s != [] {
      if s[0] != u {
        RemovesAllIff(s[1..], u);
        PairLater(s, u, 1);
      } else if |s| > 1 {
        RemovesAllIff(s[2..], u);
        PairLater(s, u, 2);
      }
    }
  }

  lemma PairLater(s: seq<string>, u: string, n: nat)
    requires n <= |s| && n <= 2 && (n == 2 || (n == 1 && s[0] != u))
    ensures n == 1 ==> (AdjacentPair(s, u) <==> AdjacentPair(s[1..], u))
    ensures n == 2 && s[0] == u && s[1] != u ==> (AdjacentPair(s, u) <==> AdjacentPair(s[2..], u))
    ensures n == 2 && s[0] == u == s[1] ==> AdjacentPair(s, u)
  {
    if i :| 0 <= i < |s| - 1 && s[i] == u == s[i + 1] {
      if i >= n { assert s[n..][i - n] == u == s[n..][i - n + 1]; }
    }
    if i :| 0 <= i < |s[n..]| - 1 && s[n..][i] == u == s[n..][i + 1] {
      assert s[i + n] == u == s[i + n + 1];
    }
  }

  lemma {:induction false} NoPairRemovesAll(s: seq<string>, u: string)
    requires !AdjacentPair(s, u)
    ensures RemoveSkipping(s, u) == Without(s, u)
  {
    RemovesAllIff(s, u);
    OthersUntouched(s, u);
    AbsentWithout(RemoveSkipping(s, u), u);
  }

  lemma {:induction false} AbsentWithout(s: seq<string>, u: string)
    requires u !in s
    ensures Without(s, u) == s
  {
    if s != [] { AbsentWithout(s[1..], u); }
  }

  lemma {:induction false} WithoutSnoc(s: seq<string>, v: string, u: string)
    ensures Without(s + [v], u) == Without(s, u) + if v == u then [] else [v]
  {
    if s == [] {
      assert s + [v] == [v] && [v][1..] == [];
    } else {
      assert (s + [v])[1..] == s[1..] + [v];
      WithoutSnoc(s[1..], v, u);
    }
  }

  lemma WithoutCons(x: string, s: seq<string>, u: string)
    ensures Without([x] + s, u) == if x == u then Without(s, u) else [x] + Without(s, u)
  {
    assert ([x] + s)[1..] == s;
  }

  lemma {:induction false} WithoutCommutes(s: seq<string>, u: string, v: string)
    ensures Without(Without(s, u), v) == Without(Without(s, v), u)
  {
    if s != [] {
      WithoutCommutes(s[1..], u, v);
      WithoutCons(s[0], Without(s[1..], u), v);
      WithoutCons(s[0], Without(s[1..], v), u);
    }
  }

  lemma {:induction false} WithoutIn(s: seq<string>, u: string, x: string)
    ensures x in Without(s, u) <==> x in s && x != u
  {
    if s != [] {
      assert s == [s[0]] + s[1..];
      WithoutIn(s[1..], u, x);
    }
  }

  lemma {:induction false} WithoutDistinct(s: seq<string>, u: string)
    requires NoDuplicates(s)
    ensures NoDuplicates(Without(s, u))
  {
    if s != [] {
      WithoutDistinct(s[1..], u);
      WithoutIn(s[1..], u, s[0]);
    }
  }

  /** Binding a fresh uid and unbinding it gives the sequence back. */
  lemma UndoLast(s: seq<string>, u: string)
    requires u !in s
    ensures RemoveSkipping(s + [u], u) == s
  {
    NoPairRemovesAll(s + [u], u);
    WithoutSnoc(s, u, u);
    AbsentWithout(s, u);
  }

  // ---- A failed connect among other nodes' connects ----

  datatype Op = Bind(uid: string) | Unbind(uid: string)

  function Apply(s: seq<string>, op: Op): seq<string> {
    match op
    case Bind(v) => s + [v]
    case Unbind(v) => RemoveSkipping(s, v)
  }

  function Run(s: seq<string>, ops: seq<Op>): seq<string>
    decreases |ops|
  {
    if ops == [] then s else Run(Apply(s, ops[0]), ops[1..])
  }

  /** Uids are trace ids: none is bound while it is bound already. */
  ghost predicate FreshBinds(s: seq<string>, ops: seq<Op>)
    decreases |ops|
  {
    ops == [] || ((ops[0].Bind? ==> ops[0].uid !in s) && FreshBinds(Apply(s, ops[0]), ops[1..]))
  }

  lemma ApplyDistinct(s: seq<string>, op: Op)
    requires NoDuplicates(s) && (op.Bind? ==> op.uid !in s)
    ensures NoDuplicates(Apply(s, op)) && (op.Unbind? ==> Apply(s, op) == Without(s, op.uid) && !UnbindPanics(s, op.uid))
  {
    if op.Unbind? {
      NoPairRemovesAll(s, op.uid);
      WithoutDistinct(s, op.uid);
    }
  }

  /** No run of fresh binds and unbinds ever panics or binds twice. */
  lemma {:induction false} RunStaysDistinct(s: seq<string>, ops: seq<Op>)
    requires NoDuplicates(s) && FreshBinds(s, ops)
    ensures NoDuplicates(Run(s, ops)) && forall u :: !UnbindPanics(Run(s, ops), u)
    decreases |ops|
  {
    if ops != [] {
      ApplyDistinct(s, ops[0]);
      RunStaysDistinct(Apply(s, ops[0]), ops[1..]);
    }
  }

  lemma {:induction false} RunBeside(x: seq<string>, y: seq<string>, u: string, ops: seq<Op>)
    requires NoDuplicates(x) && NoDuplicates(y) && Without(x, u) == y
    requires FreshBinds(y, ops) && forall i :: 0 <= i < |ops| ==> ops[i].uid != u
    ensures NoDuplicates(Run(x, ops)) && Without(Run(x, ops), u) == Run(y, ops)
    decreases |ops|
  {
    if ops != [] {
      var op := ops[0];
      WithoutIn(x, u, op.uid);
      ApplyDistinct(x, op);
      ApplyDistinct(y, op);
      if op.Bind? {
        WithoutSnoc(x, op.uid, u);
      } else {
        WithoutCommutes(x, u, op.uid);
      }
      RunBeside(Apply(x, op), Apply(y, op), u, ops[1..]);
    }
  }

  /** Whatever other connects bind and unbind in between, a failed connect leaves what there would be without it. */
  lemma FailedConnectInvisible(s: seq<string>, u: string, ops: seq<Op>)
    requires NoDuplicates(s) && u !in s && FreshBinds(s, ops) && forall i :: 0 <= i < |ops| ==> ops[i].uid != u
    ensures var bound := Run(Apply(s, Bind(u)), ops);
            !UnbindPanics(bound, u) && Apply(bound, Unbind(u)) == Run(s, ops)
  {
    WithoutSnoc(s, u, u);
    AbsentWithout(s, u);
    RunBeside(s + [u], s, u, ops);
    ApplyDistinct(Run(s + [u], ops), Unbind(u));
  }

  /** A uid bound twice in a row survives its unbinding. */
  lemma DoubleBindSurvives()
    ensures RemoveSkipping(["a", "a", "b"], "a") == ["a", "b"]
  {
    var s := ["a", "a", "b"];
    assert s[2..] == ["b"] && ["b"][1..] == [];
  }
}
