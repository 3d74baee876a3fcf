/** VoteEdge.Vote (pkg/edge-health/vote/vote.go): counting verdicts, the quorum, and what it patches. */
module EdgeVote {
  import opened Basics
  import opened Objects
  import opened EdgeHealth

  /** When and as whom a node votes. */
  datatype Poll = Poll(self: Ip, now: int, timeout: int)

  /** Own verdicts always count, another node's until they are older than the timeout. */
  predicate Counted(p: Poll, checker: Ip, d: ResultDetail) {
    checker == p.self || !(p.now > d.time + p.timeout)
  }

  /** The checkers whose counted verdict about `ip` is `normal`. */
  function Voters(t: Verdicts, p: Poll, ip: Ip, normal: bool): set<Ip> {
    set c | c in t && ip in t[c] && Counted(p, c, t[c][ip]) && t[c][ip].normal == normal
  }

  /** The checkers with at least one counted verdict. */
  function Heard(t: Verdicts, p: Poll): set<Ip> {
    set c | c in t && exists ip :: ip in t[c] && Counted(p, c, t[c][ip])
  }

  /** A vote over a membership of `size` decides that `ip` is (un)healthy. */
  predicate Decides(t: Verdicts, p: Poll, size: nat, ip: Ip, normal: bool) {
    |Heard(t, p)| != 1 && |Voters(t, p, ip, normal)| >= 1 && 2 * |Voters(t, p, ip, normal)| >= size + 1
  }

  // ---- The counting loops ----

  /** voteCountMap, one map per side, and healthNodeMap. */
  datatype Tally = Tally(yes: map<Ip, nat>, no: map<Ip, nat>, healthy: set<Ip>)

  /** An entry per address somebody voted that way on. */
  ghost predicate SideOf(counts: map<Ip, nat>, t: Verdicts, p: Poll, normal: bool) {
    forall ip {:trigger Voters(t, p, ip, normal)} :: EntryOf(counts, ip, Voters(t, p, ip, normal))
  }

  ghost predicate TallyOf(c: Tally, t: Verdicts, p: Poll) {
    SideOf(c.yes, t, p, true) && SideOf(c.no, t, p, false) && c.healthy == Heard(t, p)
  }

  function Bump(counts: map<Ip, nat>, ip: Ip): map<Ip, nat> {
    counts[ip := (if ip in counts then counts[ip] else 0) + 1]
  }

  function Read(c: Tally, p: Poll, k: Ip, ip: Ip, d: ResultDetail): Tally {
    if !Counted(p, k, d) then c
    else if d.normal then Tally(Bump(c.yes, ip), c.no, c.healthy + {k})
    else Tally(c.yes, Bump(c.no, ip), c.healthy + {k})
  }

  lemma VotersGrow(t: Verdicts, p: Poll, k: Ip, ip: Ip, d: ResultDetail, at: Ip, normal: bool)
    requires k in t && ip !in t[k]
    ensures var t' := t[k := t[k][ip := d]];
            Voters(t', p, at, normal) ==
            Voters(t, p, at, normal) + if at == ip && Counted(p, k, d) && d.normal == normal then {k} else {}
    ensures k !in Voters(t, p, ip, normal)
  {}

  /** The tally of one address. */
  ghost predicate EntryOf(counts: map<Ip, nat>, ip: Ip, voters: set<Ip>) {
    (ip in counts <==> voters != {}) && (ip in counts ==> counts[ip] == |voters|)
  }

  lemma EntryGrows(counts: map<Ip, nat>, ip: Ip, voters: set<Ip>, k: Ip)
    requires EntryOf(counts, ip, voters) && k !in voters
    ensures EntryOf(Bump(counts, ip), ip, voters + {k})
  {}

  lemma SideGrows(counts: map<Ip, nat>, t: Verdicts, p: Poll, k: Ip, ip: Ip, d: ResultDetail, normal: bool)
    requires k in t && ip !in t[k] && SideOf(counts, t, p, normal)
    ensures SideOf(if Counted(p, k, d) && d.normal == normal then Bump(counts, ip) else counts, t[k := t[k][ip := d]], p, normal)
  {
    var t' := t[k := t[k][ip := d]];
    var counts' := if Counted(p, k, d) && d.normal == normal then Bump(counts, ip) else counts;
    forall at ensures EntryOf(counts', at, Voters(t', p, at, normal)) {
      assert EntryOf(counts, at, Voters(t, p, at, normal));
      VotersGrow(t, p, k, ip, d, at, normal);
      if at == ip && Counted(p, k, d) && d.normal == normal {
        EntryGrows(counts, ip, Voters(t, p, ip, normal), k);
      }
    }
  }

  lemma HeardGrows(t: Verdicts, p: Poll, k: Ip, ip: Ip, d: ResultDetail)
    requires k in t && ip !in t[k]
    ensures Heard(t[k := t[k][ip := d]], p) == Heard(t, p) + if Counted(p, k, d) then {k} else {}
  {
    var t' := t[k := t[k][ip := d]];
    forall c ensures c in Heard(t', p) <==> c in Heard(t, p) || (c == k && Counted(p, k, d)) {
      if c in t {
        forall i | i in t[c] ensures t'[c][i] == t[c][i] {}
        assert t'[k][ip] == d;
      }
    }
  }

  /** Reading one more verdict of checker `k` keeps the tally exact. */
  lemma TallyGrows(c: Tally, t: Verdicts, p: Poll, k: Ip, ip: Ip, d: ResultDetail)
    requires k in t && ip !in t[k] && TallyOf(c, t, p)
    ensures TallyOf(Read(c, p, k, ip, d), t[k := t[k][ip := d]], p)
  {
    SideGrows(c.yes, t, p, k, ip, d, true);
    SideGrows(c.no, t, p, k, ip, d, false);
    HeardGrows(t, p, k, ip, d);
  }

  lemma EmptyRow(c: Tally, t: Verdicts, p: Poll, k: Ip)
    requires k !in t && TallyOf(c, t, p)
    ensures TallyOf(c, t[k := map[]], p)
  {
    var t' := t[k := map[]];
    forall h ensures h in Heard(t', p) <==> h in Heard(t, p) {
      if h in t { assert t'[h] == t[h]; }
    }
    assert Heard(t', p) == Heard(t, p);
    forall ip, normal ensures Voters(t', p, ip, normal) == Voters(t, p, ip, normal) {
      assert forall h :: h in Voters(t', p, ip, normal) <==> h in Voters(t, p, ip, normal);
    }
  }

  lemma RowBegins(c: Tally, t: Verdicts, p: Poll, todo: set<Ip>, k: Ip)
    requires k in todo && todo <= t.Keys && TallyOf(c, t - todo, p)
    ensures TallyOf(c, (t - todo)[k := t[k] - t[k].Keys], p)
  {
    EmptyRow(c, t - todo, p, k);
    assert t[k] - t[k].Keys == map[];
  }

  lemma RowEnds(t: Verdicts, todo: set<Ip>, k: Ip)
    requires k in todo && todo <= t.Keys
    ensures (t - todo)[k := t[k]] == t - (todo - {k})
  {}

  lemma RowStep(c: Tally, before: Verdicts, k: Ip, row: Row, todo: set<Ip>, p: Poll, ip: Ip)
    requires ip in todo && todo <= row.Keys && TallyOf(c, before[k := row - todo], p)
    ensures TallyOf(Read(c, p, k, ip, row[ip]), before[k := row - (todo - {ip})], p)
  {
    TallyGrows(c, before[k := row - todo], p, k, ip, row[ip]);
    assert (row - todo)[ip := row[ip]] == row - (todo - {ip});
    assert before[k := row - todo][k := row - (todo - {ip})] == before[k := row - (todo - {ip})];
  }

  method CountVotes(t: Verdicts, p: Poll) returns (c: Tally)
    ensures TallyOf(c, t, p)
  {
    c := Tally(map[], map[], {});
    var todo := t.Keys;
    assert t - todo == map[];
    while todo != {}
      invariant todo <= t.Keys && TallyOf(c, t - todo, p)
    {
      var k :| k in todo;
      RowBegins(c, t, p, todo, k);
      c := CountRow(c, k, t[k], p, t - todo);
      RowEnds(t, todo, k);
      todo := todo - {k};
    }
    assert t - {} == t;
  }

  method CountRow(start: Tally, k: Ip, row: Row, p: Poll, ghost before: Verdicts) returns (c: Tally)
    requires TallyOf(start, before[k := row - row.Keys], p)
    ensures TallyOf(c, before[k := row], p)
  {
    c := start;
    var todo := row.Keys;
    while todo != {}
      invariant todo <= row.Keys && TallyOf(c, before[k := row - todo], p)
    {
      var ip :| ip in todo;
      RowStep(c, before, k, row, todo, p, ip);
      var detail := row[ip];
      if k == p.self || (k != p.self && !(p.now > detail.time + p.timeout)) {
        c := c.(healthy := c.healthy + {k});
        if detail.normal {
          c := c.(yes := Bump(c.yes, ip));
        } else {
          c := c.(no := Bump(c.no, ip));
        }
      }
      todo := todo - {ip};
    }
    assert row - {} == row;
  }

  /** Vote. `lookup` gives, for an address whose node can be found, whether that node carries the unhealthy annotation.
      A healthy decision removes a present annotation, an unhealthy one adds a missing annotation, and nothing else is
      patched: the result holds (address, true) for the former and (address, false) for the latter. */
  method Vote(t: Verdicts, p: Poll, size: nat, lookup: Ip -> Option<bool>) returns (patches: set<(Ip, bool)>)
    ensures forall ip, normal :: (ip, normal) in patches <==> Decides(t, p, size, ip, normal) && lookup(ip) == Some(normal)
  {
    var c := CountVotes(t, p);
    var yes, no, healthy := c.yes, c.no, c.healthy;
    var num := (size as real + 1.0) / 2.0;
    patches := {};
    if |healthy| == 1 { return; }
    var ips := yes.Keys + no.Keys;
    while ips != {}
      invariant ips <= yes.Keys + no.Keys
      invariant forall ip, normal :: (ip, normal) in patches <==>
        ip !in ips && Decides(t, p, size, ip, normal) && lookup(ip) == Some(normal)
    {
      var ip :| ip in ips;
      ips := ips - {ip};
      if ip in yes && yes[ip] as real >= num {
        if lookup(ip).None? { continue; }
        if lookup(ip).value {
          patches := patches + {(ip, true)};
        }
      }
      if ip in no && no[ip] as real >= num {
        if lookup(ip).None? { continue; }
        if !lookup(ip).value {
          patches := patches + {(ip, false)};
        }
      }
    }
  }

  // ---- What one vote can and cannot decide ----

  /** Two sets inside a third that is too small for both have a common member. */
  lemma Pigeonhole(a: set<Ip>, b: set<Ip>, whole: set<Ip>) returns (c: Ip)
    requires a <= whole && b <= whole && |a| + |b| > |whole|
    ensures c in a && c in b
  {
    assert |a + b| == |a| + |b| - |a * b|;
    SubsetSize(a + b, whole);
    c :| c in a * b;
  }

  /** A vote needs at least size/2 + 1 voices, so it never decides both ways unless more than `size` checkers have rows;
      after GetNodeList there are at most `size`. */
  lemma OneVoteOneDirection(t: Verdicts, p: Poll, size: nat, ip: Ip)
    requires |t.Keys| < 2 * (size / 2 + 1)
    ensures !(Decides(t, p, size, ip, true) && Decides(t, p, size, ip, false))
  {
    var yes, no := Voters(t, p, ip, true), Voters(t, p, ip, false);
    assert yes * no == {};
    SubsetSize(yes + no, t.Keys);
    assert |yes + no| == |yes| + |no|;
  }

  lemma {:induction false} SubsetOfSize(s: set<Ip>, n: nat) returns (a: set<Ip>)
    requires n <= |s|
    ensures a <= s && |a| == n
    decreases n
  {
    a := {};
    if n > 0 {
      var x :| x in s;
      a := SubsetOfSize(s - {x}, n - 1);
      a := a + {x};
    }
  }

  /** The bound is exact: with that many checkers some table makes one vote patch both ways. In particular two reports
      received before the first GetNodeList (size 0) suffice. */
  lemma SplitVote(checkers: set<Ip>, size: nat, p: Poll, ip: Ip) returns (t: Verdicts)
    requires |checkers| >= 2 * (size / 2 + 1)
    ensures t.Keys == checkers && Decides(t, p, size, ip, true) && Decides(t, p, size, ip, false)
  {
    var half := SubsetOfSize(checkers, size / 2 + 1);
    t := map c | c in checkers :: map[ip := ResultDetail(c in half, p.now - p.timeout)];
    assert Voters(t, p, ip, true) == half;
    assert Voters(t, p, ip, false) == checkers - half;
    assert |checkers - half| == |checkers| - |half|;
    forall c | c in checkers ensures c in Heard(t, p) {
      assert ip in t[c];
    }
    assert Heard(t, p) == checkers;
  }

  // ---- Which verdicts count ----

  /** The table without the verdicts of other nodes that are older than the timeout. */
  function WithoutExpired(t: Verdicts, p: Poll): Verdicts {
    map c | c in t :: map ip | ip in t[c] && (c == p.self || p.now <= t[c][ip].time + p.timeout) :: t[c][ip]
  }

  /** Verdicts of other nodes older than the timeout change no decision. */
  lemma ExpiredNeverMatters(t: Verdicts, p: Poll, size: nat, ip: Ip, normal: bool)
    ensures Decides(t, p, size, ip, normal) == Decides(WithoutExpired(t, p), p, size, ip, normal)
  {
    var u := WithoutExpired(t, p);
    forall c ensures c in Voters(t, p, ip, normal) <==> c in Voters(u, p, ip, normal) {}
    assert Voters(t, p, ip, normal) == Voters(u, p, ip, normal);
    forall c ensures c in Heard(t, p) <==> c in Heard(u, p) {
      if c in Heard(t, p) {
        var i :| i in t[c] && Counted(p, c, t[c][i]);
        assert i in u[c] && u[c][i] == t[c][i];
      }
    }
    assert Heard(t, p) == Heard(u, p);
  }

  /** No verdict of another node is older than the timeout. */
  ghost predicate AllFresh(t: Verdicts, p: Poll) {
    forall c, ip :: c in t && ip in t[c] && c != p.self ==> p.now <= t[c][ip].time + p.timeout
  }

  /** The checkers that say so of `ip`, whenever they said it. */
  function Saying(t: Verdicts, ip: Ip, normal: bool): set<Ip> { set c | c in t && ip in t[c] && t[c][ip].normal == normal }

  /** Among fresh verdicts every one counts: a direction is decided exactly when more than half of the membership's number of
      checkers say so, at least one does, and there is not exactly one checker that says anything at all. */
  lemma FreshMajority(t: Verdicts, p: Poll, size: nat, ip: Ip, normal: bool)
    requires AllFresh(t, p)
    ensures Decides(t, p, size, ip, normal) <==>
            && |set c | c in t && t[c] != map[]| != 1
            && |Saying(t, ip, normal)| >= 1 && |Saying(t, ip, normal)| > size / 2
  {
    assert Voters(t, p, ip, normal) == Saying(t, ip, normal);
    var speaking := set c | c in t && t[c] != map[];
    forall c ensures c in Heard(t, p) <==> c in speaking {
      if c in speaking {
        var at :| at in t[c];
        assert Counted(p, c, t[c][at]);
      }
    }
    assert Heard(t, p) == speaking;
  }

  /** So every decision is a majority of the verdicts that are the voter's own or within the timeout. */
  lemma MajorityIff(t: Verdicts, p: Poll, size: nat, ip: Ip, normal: bool)
    ensures var recent := WithoutExpired(t, p);
            Decides(t, p, size, ip, normal) <==>
            && |set c | c in recent && recent[c] != map[]| != 1
            && |Saying(recent, ip, normal)| >= 1 && |Saying(recent, ip, normal)| > size / 2
  {
    ExpiredNeverMatters(t, p, size, ip, normal);
    FreshMajority(WithoutExpired(t, p), p, size, ip, normal);
  }

  /** A node that has heard from nobody else within the timeout decides nothing. */
  lemma AloneDecidesNothing(t: Verdicts, p: Poll, size: nat, ip: Ip, normal: bool)
    requires forall c, i :: c in t && i in t[c] && c != p.self ==> p.now > t[c][i].time + p.timeout
    ensures !Decides(t, p, size, ip, normal)
  {
    assert Heard(t, p) <= {p.self} by {
      forall c | c in Heard(t, p) ensures c == p.self { var i :| i in t[c] && Counted(p, c, t[c][i]); }
    }
    assert Voters(t, p, ip, normal) <= Heard(t, p);
    if Heard(t, p) != {} { assert Heard(t, p) == {p.self}; }
  }
}
