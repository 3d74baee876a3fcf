/** Which reports stand behind a decision in a whole run: none that the voter received longer ago than the timeout. */
module EdgeFresh {
  import opened Basics
  import opened Objects
  import opened EdgeHealth
  import opened EdgeVote
  import opened EdgeRuns

  /** At step `j` node `n` received, at its own time `at`, a report of `c` that calls `ip` so. */
  ghost predicate ReceivedAt(run: seq<Action>, j: nat, n: Ip, c: Ip, ip: Ip, normal: bool, at: int) {
    && j < |run| && run[j].Receive? && run[j].n == n && run[j].m.source == c && run[j].now == at
    && ip in run[j].m.row && run[j].m.row[ip].normal == normal
  }

  ghost predicate Received(run: seq<Action>, n: Ip, c: Ip, ip: Ip, normal: bool, at: int) {
    exists j: nat :: ReceivedAt(run, j, n, c, ip, normal, at)
  }

  /** Every verdict of another checker in the table was received so, and carries the time of that. */
  ghost predicate Traced(run: seq<Action>, n: Ip, t: Verdicts) {
    forall c, ip :: c in t && c != n && ip in t[c] ==> Received(run, n, c, ip, t[c][ip].normal, t[c][ip].time)
  }

  ghost predicate NodeTraced(run: seq<Action>, n: Ip, node: NodeState) {
    && Traced(run, n, node.table)
    && (node.ballot.Some? ==> node.ballot.value.poll.self == n && Traced(run, n, node.ballot.value.table))
  }

  lemma ReceivedStays(run: seq<Action>, a: Action, n: Ip, c: Ip, ip: Ip, normal: bool, at: int)
    requires Received(run, n, c, ip, normal, at)
    ensures Received(run + [a], n, c, ip, normal, at)
  {
    var j: nat :| ReceivedAt(run, j, n, c, ip, normal, at);
    assert (run + [a])[j] == run[j];
    assert ReceivedAt(run + [a], j, n, c, ip, normal, at);
  }

  lemma TraceStays(run: seq<Action>, a: Action, n: Ip, t: Verdicts)
    requires Traced(run, n, t)
    ensures Traced(run + [a], n, t)
  {
    forall c, ip | c in t && c != n && ip in t[c] ensures Received(run + [a], n, c, ip, t[c][ip].normal, t[c][ip].time) {
      ReceivedStays(run, a, n, c, ip, t[c][ip].normal, t[c][ip].time);
    }
  }

  lemma ReportTraced(run: seq<Action>, n: Ip, m: Message, now: int, t: Verdicts)
    requires Traced(run, n, t) && run != [] && run[|run| - 1] == Receive(n, m, now)
    ensures Traced(run, n, WithReport(t, m.source, m.row, now))
  {
    var t': Verdicts := WithReport(t, m.source, m.row, now);
    forall c, ip | c in t' && c != n && ip in t'[c] ensures Received(run, n, c, ip, t'[c][ip].normal, t'[c][ip].time) {
      if c == m.source {
        assert ReceivedAt(run, |run| - 1, n, c, ip, t'[c][ip].normal, t'[c][ip].time);
      } else {
        assert t'[c] == t[c];
      }
    }
  }

  /** Own verdicts and dropped rows leave the other rows as they were, or less of them. */
  lemma OwnChangesTraced(run: seq<Action>, n: Ip, ip: Ip, d: ResultDetail, t: Verdicts)
    requires Traced(run, n, t)
    ensures Traced(run, n, WithVerdict(t, n, ip, d)) && Traced(run, n, WithoutNode(t, n, ip))
  {
    var judged, dropped := WithVerdict(t, n, ip, d), WithoutNode(t, n, ip);
    assert forall c :: c in judged && c != n ==> c in t && judged[c] == t[c];
    assert forall c :: c in dropped && c != n ==> c in t && dropped[c] == t[c];
  }

  lemma StepTraced(run: seq<Action>, s: State, a: Action)
    requires Enabled(s, a) && NodeTraced(run, a.n, s.nodes[a.n])
    ensures NodeTraced(run + [a], a.n, NextNode(s.nodes[a.n], a))
  {
    var node, n := s.nodes[a.n], a.n;
    TraceStays(run, a, n, node.table);
    if node.ballot.Some? { TraceStays(run, a, n, node.ballot.value.table); }
    match a
    case Judge(_, ip, normal) => OwnChangesTraced(run + [a], n, ip, ResultDetail(normal, 0), node.table);
    case DropRow(_, ip) => OwnChangesTraced(run + [a], n, ip, ResultDetail(true, 0), node.table);
    case Receive(_, m, now) => ReportTraced(run + [a], n, m, now, node.table);
    case _ =>
  }

  lemma {:induction false} AllTraced(fleet: set<Ip>, run: seq<Action>, s: State, n: Ip)
    requires Reaches(fleet, run, s) && n in s.nodes
    ensures NodeTraced(run, n, s.nodes[n])
    decreases |run|
  {
    if run != [] {
      var last := |run| - 1;
      var s0 :| Reaches(fleet, run[..last], s0) && Enabled(s0, run[last]) && s == Next(s0, run[last]);
      var a := run[last];
      assert run == run[..last] + [a];
      AllTraced(fleet, run[..last], s0, n);
      if n == a.n {
        StepTraced(run[..last], s0, a);
      } else {
        assert s.nodes[n] == s0.nodes[n];
        TraceStays(run[..last], a, n, s0.nodes[n].table);
        if s0.nodes[n].ballot.Some? { TraceStays(run[..last], a, n, s0.nodes[n].ballot.value.table); }
      }
    }
  }

  /** `c` is the voter, or the voter received its verdict no longer ago than the timeout. */
  ghost predicate StandsBehind(run: seq<Action>, p: Poll, c: Ip, ip: Ip, normal: bool) {
    c == p.self || exists at :: Received(run, p.self, c, ip, normal, at) && p.now <= at + p.timeout
  }

  /** In every run a vote can only decide with more than half of its membership's number of checkers behind it, each the
      voter itself or one whose verdict it received within the timeout, by its own clock and whatever the senders' say. */
  lemma DecisionsAreFresh(fleet: set<Ip>, run: seq<Action>, s: State, n: Ip, ip: Ip, normal: bool) returns (quorum: set<Ip>)
    requires Reaches(fleet, run, s) && Enabled(s, Conclude(n, ip, normal))
    ensures var b := s.nodes[n].ballot.value;
            && b.size.Some? && b.poll.self == n && |quorum| > b.size.value / 2
            && forall c :: c in quorum ==> StandsBehind(run, b.poll, c, ip, normal)
  {
    AllTraced(fleet, run, s, n);
    var b := s.nodes[n].ballot.value;
    MajorityIff(b.table, b.poll, b.size.value, ip, normal);
    var recent := WithoutExpired(b.table, b.poll);
    quorum := Saying(recent, ip, normal);
    forall c | c in quorum ensures StandsBehind(run, b.poll, c, ip, normal) {
      if c != n {
        var d := b.table[c][ip];
        assert recent[c][ip] == d;
        assert Received(run, n, c, ip, normal, d.time) && b.poll.now <= d.time + b.poll.timeout;
      }
    }
  }
}
