/** Runs in which nobody changes its mind and votes decide in opposite directions: the conditions of EdgeRuns and
    EdgeMembers are exact (pkg/edge-health/vote/vote.go, pkg/edge-health/check/check.go). */
module EdgeConflicts {
  import opened Basics
  import opened Objects
  import opened EdgeHealth
  import opened EdgeVote
  import opened EdgeRuns

  /** Some run reaches `s`. Nothing follows from it until Open is mentioned, so that long runs stay folded. */
  ghost predicate Reachable(fleet: set<Ip>, s: State) { forall k :: Open(k) ==> exists run :: Reaches(fleet, run, s) }

  lemma Fold(fleet: set<Ip>, run: seq<Action>, s: State)
    requires Reaches(fleet, run, s)
    ensures Reachable(fleet, s)
  {}

  lemma Unfold(fleet: set<Ip>, s: State) returns (run: seq<Action>)
    requires Reachable(fleet, s)
    ensures Reaches(fleet, run, s)
  {
    assert Open(0);
    run :| Reaches(fleet, run, s);
  }

  lemma Step(fleet: set<Ip>, s: State, a: Action) returns (s': State)
    requires Reachable(fleet, s) && Enabled(s, a)
    ensures Reachable(fleet, s') && s' == Next(s, a)
  {
    var run := Unfold(fleet, s);
    s' := Next(s, a);
    var longer := run + [a];
    assert longer[..|longer| - 1] == run;
    Fold(fleet, longer, s');
  }

  // ---- Memberships change ----

  /** The two states differ in the members of `n` and in who is leaving, at most. */
  ghost predicate SameButMembers(s: State, s': State, n: Ip) {
    && n in s.nodes && s'.nodes.Keys == s.nodes.Keys && s'.decided == s.decided && s'.recorded == s.recorded
    && s'.nodes[n].table == s.nodes[n].table && s'.nodes[n].checking == s.nodes[n].checking
    && (s'.nodes[n].ballot.Some? <==> s.nodes[n].ballot.Some?)
    && (s.nodes[n].ballot.Some? ==>
          s'.nodes[n].ballot.value == s.nodes[n].ballot.value.(leaving := s'.nodes[n].ballot.value.leaving))
    && forall o :: o in s.nodes && o != n ==> s'.nodes[o] == s.nodes[o]
  }

  /** CheckInfo can become any set. */
  lemma {:induction false} SetMembers(fleet: set<Ip>, s: State, n: Ip, members: set<Ip>) returns (s': State)
    requires Reachable(fleet, s) && n in s.nodes
    ensures Reachable(fleet, s') && SameButMembers(s, s', n) && s'.nodes[n].members == members
    decreases |s.nodes[n].members - members| + |members - s.nodes[n].members|
  {
    var now := s.nodes[n].members;
    if ip :| ip in members && ip !in now {
      var s1 := ChangeOne(fleet, s, n, ip, true);
      OneCloser(now, members, ip);
      s' := SetMembers(fleet, s1, n, members);
      SameThrough(s, s1, s', n);
    } else if ip :| ip in now && ip !in members {
      var s1 := ChangeOne(fleet, s, n, ip, false);
      OneCloser(members, now, ip);
      s' := SetMembers(fleet, s1, n, members);
      SameThrough(s, s1, s', n);
    } else {
      s' := s;
    }
  }

  lemma ChangeOne(fleet: set<Ip>, s: State, n: Ip, ip: Ip, add: bool) returns (s': State)
    requires Reachable(fleet, s) && n in s.nodes
    ensures Reachable(fleet, s') && SameButMembers(s, s', n)
    ensures s'.nodes[n].members == if add then s.nodes[n].members + {ip} else s.nodes[n].members - {ip}
  {
    if add {
      s' := Step(fleet, s, AddMember(n, ip));
    } else {
      s' := Step(fleet, s, RemoveMember(n, ip));
    }
  }

  lemma OneCloser(a: set<Ip>, b: set<Ip>, ip: Ip)
    requires ip in b && ip !in a
    ensures |b - (a + {ip})| + |(a + {ip}) - b| < |b - a| + |a - b|
    ensures |(b - {ip}) - a| + |a - (b - {ip})| < |b - a| + |a - b|
  {
    assert b - (a + {ip}) == (b - a) - {ip} && (a + {ip}) - b == a - b;
    assert (b - {ip}) - a == (b - a) - {ip} && a - (b - {ip}) == a - b;
  }

  lemma SameThrough(s: State, s1: State, s2: State, n: Ip)
    requires SameButMembers(s, s1, n) && SameButMembers(s1, s2, n)
    ensures SameButMembers(s, s2, n)
  {}

  lemma DropOne(fleet: set<Ip>, s: State, n: Ip, c: Ip) returns (s': State)
    requires Reachable(fleet, s) && n in s.nodes && c in s.nodes[n].table
    ensures Reachable(fleet, s') && SameButTable(s, s', n) && s'.nodes[n].table.Keys == s.nodes[n].table.Keys - {c}
  {
    s' := Step(fleet, s, DropRow(n, c));
  }

  /** The two states differ in the table of `n` and in who is leaving, at most. */
  ghost predicate SameButTable(s: State, s': State, n: Ip) {
    && n in s.nodes && s'.nodes.Keys == s.nodes.Keys && s'.decided == s.decided && s'.recorded == s.recorded
    && s'.nodes[n].members == s.nodes[n].members && s'.nodes[n].checking == s.nodes[n].checking
    && s'.nodes[n].ballot == s.nodes[n].ballot
  }

  lemma {:induction false} DropRows(fleet: set<Ip>, s: State, n: Ip, listed: set<Ip>) returns (s': State)
    requires Reachable(fleet, s) && n in s.nodes
    ensures Reachable(fleet, s') && SameButTable(s, s', n)
    ensures s'.nodes[n].table.Keys == s.nodes[n].table.Keys * listed
    decreases |s.nodes[n].table.Keys - listed|
  {
    var keys := s.nodes[n].table.Keys;
    if c :| c in keys && c !in listed {
      s' := DropOne(fleet, s, n, c);
      assert (keys - {c}) - listed == (keys - listed) - {c} && (keys - {c}) * listed == keys * listed;
      s' := DropRows(fleet, s', n, listed);
    } else {
      s' := s;
      assert keys == keys * listed;
    }
  }

  /** A whole GetNodeList: CheckInfo becomes the list, and the rows of unlisted checkers are dropped. */
  lemma ListNodes(fleet: set<Ip>, s: State, n: Ip, listed: set<Ip>) returns (s': State)
    requires Reachable(fleet, s) && n in s.nodes
    ensures Reachable(fleet, s') && s'.nodes.Keys == s.nodes.Keys && s'.decided == s.decided && s'.recorded == s.recorded
    ensures s'.nodes[n].members == listed && s'.nodes[n].checking == s.nodes[n].checking
    ensures s'.nodes[n].table.Keys <= s.nodes[n].table.Keys
  {
    s' := SetMembers(fleet, s, n, listed);
    s' := DropRows(fleet, s', n, listed);
  }

  // ---- Verdicts reach a node ----

  /** The row of `c` has this verdict on `ip`. */
  predicate Says(t: Verdicts, c: Ip, ip: Ip, normal: bool) { c in t && ip in t[c] && t[c][ip] == ResultDetail(normal, 0) }

  /** About `ip`, nothing was recorded but this. */
  ghost predicate OnlyFact(recorded: set<Fact>, more: set<Fact>, c: Ip, ip: Ip, normal: bool) {
    forall d, v :: Fact(d, ip, v) in more <==> Fact(d, ip, v) in recorded || (d == c && v == normal)
  }

  /** What telling one verdict changes for the node told. */
  ghost predicate Told(s: State, s': State, n: Ip, c: Ip, ip: Ip, normal: bool) {
    && n in s.nodes && s'.nodes.Keys == s.nodes.Keys && s'.decided == s.decided
    && OnlyFact(s.recorded, s'.recorded, c, ip, normal)
    && (var t, t' := s.nodes[n].table, s'.nodes[n].table;
        && s'.nodes[n] == s.nodes[n].(table := t') && t'.Keys == t.Keys + {c} && Says(t', c, ip, normal)
        && forall d :: d in t && d != c ==> t'[d] == t[d])
  }

  /** A checker other than `n` that lists both `ip` and `n`, and judges both. */
  lemma JudgeBoth(fleet: set<Ip>, s: State, n: Ip, c: Ip, ip: Ip, normal: bool) returns (s': State)
    requires Reachable(fleet, s) && c in s.nodes && n in s.nodes && c != n
    ensures Reachable(fleet, s') && s'.nodes.Keys == s.nodes.Keys && s'.decided == s.decided && s'.nodes[n] == s.nodes[n]
    ensures OnlyFact(s.recorded, s'.recorded, c, ip, normal)
    ensures Says(s'.nodes[c].table, c, ip, normal) && n in s'.nodes[c].table[c]
  {
    s' := SetMembers(fleet, s, c, s.nodes[c].members + {ip, n});
    s' := Step(fleet, s', CopyInfo(c));
    s' := Step(fleet, s', Judge(c, ip, normal));
    if n != ip {
      s' := Step(fleet, s', Judge(c, n, true));
    }
  }

  /** The checker's row goes to `n`, which it speaks of. */
  lemma SendAndReceive(fleet: set<Ip>, s: State, n: Ip, c: Ip) returns (s': State)
    requires Reachable(fleet, s) && c in s.nodes && n in s.nodes && c != n && c in s.nodes[c].table && n in s.nodes[c].table[c]
    ensures Reachable(fleet, s') && s'.nodes.Keys == s.nodes.Keys && s'.decided == s.decided && s'.recorded == s.recorded
    ensures s'.nodes[n] == s.nodes[n].(table := s.nodes[n].table[c := Stamp(s.nodes[c].table[c], 0)])
  {
    var row := s.nodes[c].table[c];
    s' := Step(fleet, s, Send(c));
    assert s'.nodes[n] == s.nodes[n];
    s' := Step(fleet, s', Receive(n, Message(c, row), 0));
  }

  lemma Tell(fleet: set<Ip>, s: State, n: Ip, c: Ip, ip: Ip, normal: bool) returns (s': State)
    requires Reachable(fleet, s) && c in s.nodes && n in s.nodes && (c == n ==> ip in s.nodes[n].checking)
    ensures Reachable(fleet, s') && Told(s, s', n, c, ip, normal)
  {
    if c == n {
      s' := Step(fleet, s, Judge(n, ip, normal));
    } else {
      s' := JudgeBoth(fleet, s, n, c, ip, normal);
      s' := SendAndReceive(fleet, s', n, c);
    }
  }

  /** The table after the checkers told: their rows say what they think, other rows are as before. */
  ghost predicate AllTold(t: Verdicts, t': Verdicts, checkers: set<Ip>, yes: set<Ip>, ip: Ip) {
    && t'.Keys == t.Keys + checkers
    && (forall c :: c in checkers ==> Says(t', c, ip, c in yes))
    && (forall d :: d in t && d !in checkers ==> t'[d] == t[d])
  }

  ghost predicate OnlyFacts(recorded: set<Fact>, more: set<Fact>, checkers: set<Ip>, yes: set<Ip>, ip: Ip) {
    forall d, v :: Fact(d, ip, v) in more <==> Fact(d, ip, v) in recorded || (d in checkers && v == (d in yes))
  }

  /** Every checker tells `n` its opinion. */
  lemma {:induction false} Gather(fleet: set<Ip>, s: State, n: Ip, checkers: set<Ip>, yes: set<Ip>, ip: Ip) returns (s': State)
    requires Reachable(fleet, s) && n in s.nodes && checkers <= s.nodes.Keys && (n in checkers ==> ip in s.nodes[n].checking)
    ensures Reachable(fleet, s') && s'.nodes.Keys == s.nodes.Keys && s'.decided == s.decided
    ensures s'.nodes[n] == s.nodes[n].(table := s'.nodes[n].table)
    ensures AllTold(s.nodes[n].table, s'.nodes[n].table, checkers, yes, ip)
    ensures OnlyFacts(s.recorded, s'.recorded, checkers, yes, ip)
    decreases |checkers|
  {
    s' := s;
    if checkers != {} {
      var c :| c in checkers;
      var s1 := Tell(fleet, s, n, c, ip, c in yes);
      s' := Gather(fleet, s1, n, checkers - {c}, yes, ip);
      OneMore(s.nodes[n].table, s1.nodes[n].table, s'.nodes[n].table, checkers, c, yes, ip);
      OneMoreFact(s.recorded, s1.recorded, s'.recorded, checkers, c, yes, ip);
    }
  }

  lemma OneMore(t: Verdicts, t1: Verdicts, t2: Verdicts, checkers: set<Ip>, c: Ip, yes: set<Ip>, ip: Ip)
    requires c in checkers && t1.Keys == t.Keys + {c} && Says(t1, c, ip, c in yes) && forall d :: d in t && d != c ==> t1[d] == t[d]
    requires AllTold(t1, t2, checkers - {c}, yes, ip)
    ensures AllTold(t, t2, checkers, yes, ip)
  {
    assert t.Keys + {c} + (checkers - {c}) == t.Keys + checkers;
    forall d | d in checkers ensures Says(t2, d, ip, d in yes) {
      if d == c { assert t2[c] == t1[c]; } else { assert d in checkers - {c}; }
    }
  }

  lemma OneMoreFact(r: set<Fact>, r1: set<Fact>, r2: set<Fact>, checkers: set<Ip>, c: Ip, yes: set<Ip>, ip: Ip)
    requires c in checkers && OnlyFact(r, r1, c, ip, c in yes) && OnlyFacts(r1, r2, checkers - {c}, yes, ip)
    ensures OnlyFacts(r, r2, checkers, yes, ip)
  {}

  // ---- Votes ----

  lemma Copy(fleet: set<Ip>, s: State, n: Ip) returns (s': State)
    requires Reachable(fleet, s) && n in s.nodes
    ensures Reachable(fleet, s') && s'.nodes.Keys == s.nodes.Keys && s'.decided == s.decided && s'.recorded == s.recorded
    ensures s'.nodes[n] == s.nodes[n].(ballot := Some(Ballot(s.nodes[n].table, Poll(n, 0, 0), None, s.nodes[n].leaving)))
  {
    s' := Step(fleet, s, CopyTable(n, 0, 0));
  }

  /** Counting the members and concluding each of the given verdicts. */
  lemma Finish(fleet: set<Ip>, s: State, n: Ip, ip: Ip, normal: bool, both: bool) returns (s': State)
    requires Reachable(fleet, s) && n in s.nodes && s.nodes[n].ballot.Some? && s.nodes[n].ballot.value.size.None?
    requires var b, size := s.nodes[n].ballot.value, |s.nodes[n].members|;
             Decides(b.table, b.poll, size, ip, normal) && (both ==> Decides(b.table, b.poll, size, ip, !normal))
    ensures Reachable(fleet, s') && s'.nodes.Keys == s.nodes.Keys && s'.recorded == s.recorded
    ensures var d := Decision(n, ip, normal, |s.nodes[n].members|);
            s'.decided == s.decided + {d} + if both then {d.(normal := !normal)} else {}
    ensures s'.nodes[n].table == s.nodes[n].table
  {
    s' := Step(fleet, s, CountMembers(n));
    s' := Step(fleet, s', Conclude(n, ip, normal));
    if both {
      s' := Step(fleet, s', Conclude(n, ip, !normal));
    }
  }

  /** Opinions of two camps, both large enough. */
  lemma CampsDecide(t: Verdicts, yes: set<Ip>, no: set<Ip>, n: Ip, size: nat, ip: Ip, normal: bool)
    requires t.Keys == yes + no && forall c :: c in yes + no ==> Says(t, c, ip, c in yes)
    requires yes * no == {} && yes != {} && no != {} && 2 * |if normal then yes else no| >= size + 1
    ensures Decides(t, Poll(n, 0, 0), size, ip, normal)
  {
    assert Voters(t, Poll(n, 0, 0), ip, normal) == (if normal then yes else no) by { CampVotes(t, yes, no, n, ip, normal); }
    assert Heard(t, Poll(n, 0, 0)) == yes + no by { CampsHeard(t, yes, no, n, ip); }
    TwoCamps(yes, no);
  }

  lemma TwoCamps(yes: set<Ip>, no: set<Ip>)
    requires yes * no == {} && yes != {} && no != {}
    ensures |yes + no| > 1
  {
    var y, m :| y in yes && m in no;
    assert y !in yes * no;
    SubsetSize({y, m}, yes + no);
    assert |{y, m}| == 2;
  }

  lemma CampVotes(t: Verdicts, yes: set<Ip>, no: set<Ip>, n: Ip, ip: Ip, normal: bool)
    requires t.Keys == yes + no && yes * no == {} && forall c :: c in yes + no ==> Says(t, c, ip, c in yes)
    ensures Voters(t, Poll(n, 0, 0), ip, normal) == if normal then yes else no
  {
    var p := Poll(n, 0, 0);
    forall c ensures c in Voters(t, p, ip, normal) <==> c in if normal then yes else no {
      assert c !in yes * no;
      if c in yes + no { assert Says(t, c, ip, c in yes) && Counted(p, c, t[c][ip]); }
    }
  }

  lemma CampsHeard(t: Verdicts, yes: set<Ip>, no: set<Ip>, n: Ip, ip: Ip)
    requires t.Keys == yes + no && forall c :: c in yes + no ==> Says(t, c, ip, c in yes)
    ensures Heard(t, Poll(n, 0, 0)) == yes + no
  {
    var p := Poll(n, 0, 0);
    forall c | c in yes + no ensures c in Heard(t, p) { assert Says(t, c, ip, c in yes) && Counted(p, c, t[c][ip]); }
  }

  /** Nobody recorded both verdicts. */
  ghost predicate Stable(s: State, ip: Ip) {
    forall c :: !(Fact(c, ip, true) in s.recorded && Fact(c, ip, false) in s.recorded)
  }

  lemma StartReachable(fleet: set<Ip>)
    ensures Reachable(fleet, Init(fleet))
  {
    Fold(fleet, [], Init(fleet));
  }

  /** What is known once two camps have told `n`. */
  ghost predicate Informed(fleet: set<Ip>, s: State, n: Ip, yes: set<Ip>, no: set<Ip>, ip: Ip) {
    && Reachable(fleet, s) && s.nodes.Keys == fleet && n in fleet && Stable(s, ip)
    && s.nodes[n].table.Keys == yes + no && forall c :: c in yes + no ==> Says(s.nodes[n].table, c, ip, c in yes)
  }

  /** `n` starts Check with `ip` in its CheckInfo, GetNodeList lists `listed`, and the camps tell `n`, itself among them or
      not. Told before or not, they tell the same. */
  lemma Inform(fleet: set<Ip>, s: State, n: Ip, yes: set<Ip>, no: set<Ip>, ip: Ip, before: set<Ip>, listed: set<Ip>) returns (s': State)
    requires Reachable(fleet, s) && s.nodes.Keys == fleet && n in fleet && yes <= fleet && no <= fleet && yes * no == {}
    requires s.nodes[n].table.Keys <= yes + no && forall c, v :: Fact(c, ip, v) in s.recorded ==> c in yes + no && v == (c in yes)
    requires n in yes + no ==> ip in before
    ensures Informed(fleet, s', n, yes, no, ip) && s'.decided == s.decided && s'.nodes[n].members == listed
    ensures forall c, v :: Fact(c, ip, v) in s'.recorded ==> c in yes + no && v == (c in yes)
  {
    s' := ListNodes(fleet, s, n, before);
    s' := StartCheck(fleet, s', n);
    s' := ListNodes(fleet, s', n, listed);
    s' := Gather(fleet, s', n, yes + no, yes, ip);
  }

  lemma StartCheck(fleet: set<Ip>, s: State, n: Ip) returns (s': State)
    requires Reachable(fleet, s) && n in s.nodes
    ensures Reachable(fleet, s') && s'.nodes.Keys == s.nodes.Keys && s'.decided == s.decided && s'.recorded == s.recorded
    ensures s'.nodes[n] == s.nodes[n].(checking := s.nodes[n].members)
  {
    s' := Step(fleet, s, CopyInfo(n));
  }

  /** GetNodeList lists `first` and Check starts; the camps tell `n`; `n` copies its table, CheckInfo becomes `last`, and the
      vote decides both ways. */
  lemma OneVoteBothWays(fleet: set<Ip>, n: Ip, yes: set<Ip>, no: set<Ip>, first: set<Ip>, last: set<Ip>, ip: Ip)
    returns (run: seq<Action>, s: State)
    requires n in fleet && yes <= fleet && no <= fleet && yes * no == {} && yes != {} && no != {}
    requires (n in yes + no ==> ip in first) && 2 * |yes| >= |last| + 1 && 2 * |no| >= |last| + 1
    ensures Reaches(fleet, run, s) && Stable(s, ip)
    ensures Decision(n, ip, true, |last|) in s.decided && Decision(n, ip, false, |last|) in s.decided
  {
    StartReachable(fleet);
    s := Inform(fleet, Init(fleet), n, yes, no, ip, first, first);
    CampsDecide(s.nodes[n].table, yes, no, n, |last|, ip, true);
    CampsDecide(s.nodes[n].table, yes, no, n, |last|, ip, false);
    s := Copy(fleet, s, n);
    s := SetMembers(fleet, s, n, last);
    s := Finish(fleet, s, n, ip, true, true);
    run := Unfold(fleet, s);
  }

  /** A node that votes on two reports before its first GetNodeList. */
  lemma EarlyVoteConflict(a: Ip, b: Ip, c: Ip, ip: Ip) returns (run: seq<Action>, s: State)
    requires a != b && b != c && a != c
    ensures Reaches({a, b, c}, run, s) && Stable(s, ip)
    ensures Decision(a, ip, true, 0) in s.decided && Decision(a, ip, false, 0) in s.decided
  {
    run, s := OneVoteBothWays({a, b, c}, a, {b}, {c}, {}, {}, ip);
  }

  /** A node that GetNodeList left out of its own CheckInfo, {b}: what it finds of b against what b finds of itself. */
  lemma OutsiderConflict(a: Ip, b: Ip) returns (run: seq<Action>, s: State)
    requires a != b
    ensures Reaches({a, b}, run, s) && Stable(s, b)
    ensures Decision(a, b, true, 1) in s.decided && Decision(a, b, false, 1) in s.decided
  {
    run, s := OneVoteBothWays({a, b}, a, {a}, {b}, {b}, {b}, b);
  }

  /** Every row is a member's when the table is copied, and GetNodeList takes one of the two members off before the vote
      counts them. */
  lemma ShrinkConflict(a: Ip, b: Ip, ip: Ip) returns (run: seq<Action>, s: State)
    requires a != b && (ip == a || ip == b)
    ensures Reaches({a, b}, run, s) && Stable(s, ip)
    ensures Decision(a, ip, true, 1) in s.decided && Decision(a, ip, false, 1) in s.decided
  {
    run, s := OneVoteBothWays({a, b}, a, {a}, {b}, {a, b}, {a}, ip);
  }

  // ---- The quorum bound is exact ----

  function Names(k: nat): (names: set<Ip>)
    ensures forall x :: x in names ==> |x| < k
  {
    if k == 0 then {} else Names(k - 1) + {seq(k - 1, _ => 'x')}
  }

  lemma {:induction false} NamesSize(k: nat)
    ensures |Names(k)| == k
  {
    if k > 0 { NamesSize(k - 1); }
  }

  /** With memberships of any two sizes too small for the fleet, some run without a change of mind decides both ways. */
  lemma SmallQuorumsConflict(fleet: set<Ip>, ip: Ip, yesSize: nat, noSize: nat) returns (run: seq<Action>, s: State, yes: Decision, no: Decision)
    requires yesSize / 2 + noSize / 2 + 2 <= |fleet|
    ensures Reaches(fleet, run, s) && Stable(s, ip) && yes in s.decided && no in s.decided
    ensures yes.ip == no.ip == ip && yes.normal && !no.normal && yes.size == yesSize && no.size == noSize
  {
    var n :| n in fleet;
    var ys := SubsetOfSize(fleet, yesSize / 2 + 1);
    assert |fleet - ys| == |fleet| - |ys|;
    var ns := SubsetOfSize(fleet - ys, noSize / 2 + 1);
    yes, no := Decision(n, ip, true, yesSize), Decision(n, ip, false, noSize);
    s := TwoVotes(fleet, n, ys, ns, yesSize, noSize, ip);
    run := Unfold(fleet, s);
  }

  lemma TwoVotes(fleet: set<Ip>, n: Ip, ys: set<Ip>, ns: set<Ip>, yesSize: nat, noSize: nat, ip: Ip) returns (s: State)
    requires n in fleet && ys <= fleet && ns <= fleet && ys * ns == {} && ys != {} && ns != {}
    requires 2 * |ys| >= yesSize + 1 && 2 * |ns| >= noSize + 1
    ensures Reachable(fleet, s) && Stable(s, ip)
    ensures Decision(n, ip, true, yesSize) in s.decided && Decision(n, ip, false, noSize) in s.decided
  {
    StartReachable(fleet);
    NamesSize(yesSize);
    NamesSize(noSize);
    s := Inform(fleet, Init(fleet), n, ys, ns, ip, {ip}, Names(yesSize));
    CampsDecide(s.nodes[n].table, ys, ns, n, yesSize, ip, true);
    s := VoteNow(fleet, s, n, ip, true);
    s := Inform(fleet, s, n, ys, ns, ip, {ip}, Names(noSize));
    CampsDecide(s.nodes[n].table, ys, ns, n, noSize, ip, false);
    s := VoteNow(fleet, s, n, ip, false);
  }

  lemma VoteNow(fleet: set<Ip>, s: State, n: Ip, ip: Ip, normal: bool) returns (s': State)
    requires Reachable(fleet, s) && n in s.nodes && Decides(s.nodes[n].table, Poll(n, 0, 0), |s.nodes[n].members|, ip, normal)
    ensures Reachable(fleet, s') && s'.nodes.Keys == s.nodes.Keys && s'.recorded == s.recorded
    ensures s'.nodes[n].table == s.nodes[n].table && s'.decided == s.decided + {Decision(n, ip, normal, |s.nodes[n].members|)}
  {
    s' := Copy(fleet, s, n);
    s' := Finish(fleet, s', n, ip, normal, false);
  }

  /** Opposite decisions counted against two sizes are possible without a change of mind. */
  ghost predicate CanConflict(fleet: set<Ip>, ip: Ip, yesSize: nat, noSize: nat) {
    exists run, s, yes, no ::
      && Reaches(fleet, run, s) && Stable(s, ip) && yes in s.decided && no in s.decided
      && yes.ip == no.ip == ip && yes.normal && !no.normal && yes.size == yesSize && no.size == noSize
  }

  /** Over all runs, votes counted against two membership sizes can oppose each other without any checker changing its mind
      exactly when the two majorities fit into the fleet side by side. */
  lemma ConflictIff(fleet: set<Ip>, ip: Ip, yesSize: nat, noSize: nat)
    ensures CanConflict(fleet, ip, yesSize, noSize) <==> yesSize / 2 + noSize / 2 + 2 <= |fleet|
  {
    if yesSize / 2 + noSize / 2 + 2 <= |fleet| {
      var run, s, yes, no := SmallQuorumsConflict(fleet, ip, yesSize, noSize);
    }
    if CanConflict(fleet, ip, yesSize, noSize) && yesSize / 2 + noSize / 2 + 2 > |fleet| {
      NoConflict(fleet, ip, yesSize, noSize);
    }
  }

  lemma NoConflict(fleet: set<Ip>, ip: Ip, yesSize: nat, noSize: nat)
    requires yesSize / 2 + noSize / 2 + 2 > |fleet|
    ensures !CanConflict(fleet, ip, yesSize, noSize)
  {
    forall run, s, yes, no | (Reaches(fleet, run, s) && yes in s.decided && no in s.decided
                              && yes.ip == no.ip == ip && yes.normal && !no.normal && yes.size == yesSize && no.size == noSize)
      ensures !Stable(s, ip)
    {
      var c := QuorumIntersection(fleet, run, s, yes, no);
    }
  }
}
