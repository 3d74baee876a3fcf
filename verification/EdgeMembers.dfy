/** Runs in which a node hears only from members: then one vote never decides both ways (pkg/edge-health/check/check.go,
    pkg/edge-health/vote/vote.go). */
module EdgeMembers {
  import opened Basics
  import opened Objects
  import opened EdgeHealth
  import opened EdgeVote
  import opened EdgeRuns

  /** The step, if it gives `n` a row, gives it the row of a member: its own while it is in its own CheckInfo, or a report
      of a node that is. */
  predicate FromMember(s: State, a: Action, n: Ip)
    requires n in s.nodes
  {
    && (a.Judge? && a.n == n ==> n in s.nodes[n].members)
    && (a.Receive? && a.n == n ==> a.m.source in s.nodes[n].members)
  }

  ghost predicate ReachesAmongMembers(fleet: set<Ip>, run: seq<Action>, s: State, n: Ip)
    decreases |run|
  {
    if run == [] then s == Init(fleet)
    else
      var last := |run| - 1;
      exists s0 ::
        && ReachesAmongMembers(fleet, run[..last], s0, n) && n in s0.nodes
        && Enabled(s0, run[last]) && FromMember(s0, run[last], n) && s == Next(s0, run[last])
  }

  /** Rows belong to members or to checkers that are leaving; a vote that counted the members when nobody in its copy was
      leaving has no more rows than members. */
  ghost predicate Settled(node: NodeState) {
    && node.table.Keys <= node.members + node.leaving
    && (node.ballot.Some? ==>
          var b := node.ballot.value;
          if b.size.None? then b.table.Keys <= node.members + b.leaving
          else b.leaving == {} ==> |b.table.Keys| <= b.size.value)
  }

  lemma StepKeepsSettled(s: State, a: Action, n: Ip)
    requires n in s.nodes && Enabled(s, a) && FromMember(s, a, n) && Settled(s.nodes[n])
    ensures Settled(Next(s, a).nodes[n])
  {
    if a.n == n {
      NodeKeepsSettled(s.nodes[n], a);
    }
  }

  lemma NodeKeepsSettled(node: NodeState, a: Action)
    requires Settled(node) && (a.CountMembers? ==> node.ballot.Some? && node.ballot.value.size.None?)
    requires (a.Judge? ==> a.n in node.members) && (a.Receive? ==> a.m.source in node.members)
    ensures Settled(NextNode(node, a))
  {
    if a.CountMembers? && node.ballot.value.leaving == {} {
      SubsetSize(node.ballot.value.table.Keys, node.members);
    }
  }

  lemma {:induction false} RunKeepsSettled(fleet: set<Ip>, run: seq<Action>, s: State, n: Ip)
    requires ReachesAmongMembers(fleet, run, s, n) && n in fleet
    ensures n in s.nodes && Settled(s.nodes[n])
    decreases |run|
  {
    if run != [] {
      var last := |run| - 1;
      var s0 :| && ReachesAmongMembers(fleet, run[..last], s0, n) && n in s0.nodes
                && Enabled(s0, run[last]) && FromMember(s0, run[last], n) && s == Next(s0, run[last]);
      RunKeepsSettled(fleet, run[..last], s0, n);
      StepKeepsSettled(s0, run[last], n);
    }
  }

  /** In every run in which `n` judges only while it is in its own CheckInfo and takes reports only from nodes that are, the
      rows it keeps are members' rows, but for checkers taken off whose row is not dropped yet. And a vote of `n` never
      decides both ways, unless a checker in its copy was off CheckInfo when the members were counted. */
  lemma RunVotesOneWay(fleet: set<Ip>, run: seq<Action>, s: State, n: Ip, ip: Ip)
    requires ReachesAmongMembers(fleet, run, s, n) && n in fleet
    ensures n in s.nodes && s.nodes[n].table.Keys <= s.nodes[n].members + s.nodes[n].leaving
    ensures s.nodes[n].ballot.Some? && s.nodes[n].ballot.value.leaving == {} ==>
              !(Enabled(s, Conclude(n, ip, true)) && Enabled(s, Conclude(n, ip, false)))
  {
    RunKeepsSettled(fleet, run, s, n);
    var ballot := s.nodes[n].ballot;
    if ballot.Some? && ballot.value.leaving == {} && ballot.value.size.Some? {
      OneVoteOneDirection(ballot.value.table, ballot.value.poll, ballot.value.size.value, ip);
    }
  }
}
