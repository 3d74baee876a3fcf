/** Whole runs of the edge-health protocol: every node checks, gossips its own row, prunes, and votes, in any order.
    Each section run under a lock is one step. Messages may be lost, repeated, delayed and reordered; membership lists
    may differ between nodes and change at any time; clocks are arbitrary. */
module EdgeRuns {
  import opened Basics
  import opened Objects
  import opened EdgeHealth
  import opened EdgeVote

  /** A vote in progress: the table it copied and, once it read it, the length of CheckInfo. `leaving` is history: the
      checkers in the copy that left CheckInfo after it was taken, or were leaving then, and had not come back by the time
      the length was read. */
  datatype Ballot = Ballot(table: Verdicts, poll: Poll, size: Option<nat>, leaving: set<Ip>)

  /** A node's table, its CheckInfo keys, the keys its running Check copied, and its vote. `leaving` is history: the
      checkers taken off CheckInfo whose row is still there. */
  datatype NodeState = NodeState(table: Verdicts, members: set<Ip>, checking: set<Ip>, leaving: set<Ip>, ballot: Option<Ballot>)

  /** CommunicateData: a sender's own row (the HMAC is taken to exclude forgeries). */
  datatype Message = Message(source: Ip, row: Row)

  /** `checker` once recorded `normal` for `ip` from its own checks. */
  datatype Fact = Fact(checker: Ip, ip: Ip, normal: bool)

  /** `voter` once decided about `ip` with a membership of `size`. */
  datatype Decision = Decision(voter: Ip, ip: Ip, normal: bool, size: nat)

  datatype State = State(nodes: map<Ip, NodeState>, sent: set<Message>, recorded: set<Fact>, decided: set<Decision>)

  datatype Action =
    | CopyInfo(n: Ip)                         // Check's CopyCheckInfo
    | Judge(n: Ip, ip: Ip, normal: bool)      // Check stores one verdict on an address in the copy
    | Send(n: Ip)                             // Client copies its row into messages
    | Receive(n: Ip, m: Message, now: int)    // the /result handler of a node the row speaks of
    | AddMember(n: Ip, ip: Ip)                // GetNodeList and the plugins, one address at a time
    | RemoveMember(n: Ip, ip: Ip)
    | DropRow(n: Ip, ip: Ip)
    | CopyTable(n: Ip, now: int, timeout: int)  // Vote's CopyResultDataAll
    | CountMembers(n: Ip)                       // Vote's GetLenCheckInfo
    | Conclude(n: Ip, ip: Ip, normal: bool)     // Vote's count against it

  function Init(fleet: set<Ip>): State {
    State(map n | n in fleet :: NodeState(map[], {}, {}, {}, None), {}, {}, {})
  }

  predicate Enabled(s: State, a: Action) {
    a.n in s.nodes &&
    match a
    case Send(n) => n in s.nodes[n].table
    case Judge(n, ip, _) => ip in s.nodes[n].checking
    case Receive(n, m, _) => m in s.sent && m.source != n && n in m.row
    case CountMembers(n) => s.nodes[n].ballot.Some? && s.nodes[n].ballot.value.size.None?
    case Conclude(n, ip, normal) => s.nodes[n].ballot.Some? && BallotDecides(s.nodes[n].ballot.value, ip, normal)
    case _ => true
  }

  predicate BallotDecides(b: Ballot, ip: Ip, normal: bool) {
    b.size.Some? && Decides(b.table, b.poll, b.size.value, ip, normal)
  }

  /** A vote that has not counted the members yet keeps track of who leaves and comes back. */
  function Left(ballot: Option<Ballot>, ip: Ip): Option<Ballot> {
    if ballot.Some? && ballot.value.size.None? && ip in ballot.value.table
    then Some(ballot.value.(leaving := ballot.value.leaving + {ip})) else ballot
  }

  function Joined(ballot: Option<Ballot>, ip: Ip): Option<Ballot> {
    if ballot.Some? && ballot.value.size.None? then Some(ballot.value.(leaving := ballot.value.leaving - {ip})) else ballot
  }

  function NextNode(node: NodeState, a: Action): NodeState
    requires a.CountMembers? ==> node.ballot.Some?
  {
    match a
    case CopyInfo(_) => node.(checking := node.members)
    case Judge(n, ip, normal) => node.(table := WithVerdict(node.table, n, ip, ResultDetail(normal, 0)))
    case Receive(_, m, now) => node.(table := WithReport(node.table, m.source, m.row, now))
    case AddMember(_, ip) =>
      node.(members := node.members + {ip}, leaving := node.leaving - {ip}, ballot := Joined(node.ballot, ip))
    case RemoveMember(_, ip) =>
      node.(members := node.members - {ip}, leaving := node.leaving + if ip in node.table then {ip} else {},
            ballot := Left(node.ballot, ip))
    case DropRow(n, ip) => node.(table := WithoutNode(node.table, n, ip), leaving := node.leaving - {ip})
    case CopyTable(n, now, timeout) => node.(ballot := Some(Ballot(node.table, Poll(n, now, timeout), None, node.leaving)))
    case CountMembers(_) => node.(ballot := Some(node.ballot.value.(size := Some(|node.members|))))
    case _ => node
  }

  function Next(s: State, a: Action): State
    requires Enabled(s, a)
  {
    var node := s.nodes[a.n];
    var moved := s.(nodes := s.nodes[a.n := NextNode(node, a)]);
    match a
    case Judge(n, ip, normal) => moved.(recorded := s.recorded + {Fact(n, ip, normal)})
    case Send(n) => moved.(sent := s.sent + {Message(n, node.table[n])})
    case Conclude(n, ip, normal) => moved.(decided := s.decided + {Decision(n, ip, normal, node.ballot.value.size.value)})
    case _ => moved
  }

  ghost predicate Reaches(fleet: set<Ip>, run: seq<Action>, s: State)
    decreases |run|
  {
    if run == [] then s == Init(fleet)
    else
      var last := |run| - 1;
      exists s0 :: Reaches(fleet, run[..last], s0) && Enabled(s0, run[last]) && s == Next(s0, run[last])
  }

  // ---- The invariant: nobody holds a verdict its owner did not record ----

  ghost predicate RowBacked(recorded: set<Fact>, checker: Ip, row: Row) {
    forall ip :: ip in row ==> Fact(checker, ip, row[ip].normal) in recorded
  }

  ghost predicate TableBacked(fleet: set<Ip>, recorded: set<Fact>, t: Verdicts) {
    t.Keys <= fleet && forall c :: c in t ==> RowBacked(recorded, c, t[c])
  }

  /** The fleet members that recorded this verdict at some time. */
  function Support(fleet: set<Ip>, recorded: set<Fact>, ip: Ip, normal: bool): set<Ip> {
    set c | c in fleet && Fact(c, ip, normal) in recorded
  }

  ghost predicate NodeBacked(fleet: set<Ip>, recorded: set<Fact>, node: NodeState) {
    && TableBacked(fleet, recorded, node.table)
    && (node.ballot.Some? ==> TableBacked(fleet, recorded, node.ballot.value.table))
  }

  ghost predicate Supported(fleet: set<Ip>, recorded: set<Fact>, d: Decision) {
    |Support(fleet, recorded, d.ip, d.normal)| >= d.size / 2 + 1
  }

  ghost predicate Inv(fleet: set<Ip>, s: State) {
    && s.nodes.Keys == fleet
    && (forall n :: n in s.nodes ==> NodeBacked(fleet, s.recorded, s.nodes[n]))
    && (forall m :: m in s.sent ==> m.source in fleet && RowBacked(s.recorded, m.source, m.row))
    && (forall d :: d in s.decided ==> Supported(fleet, s.recorded, d))
  }

  lemma SupportGrows(fleet: set<Ip>, recorded: set<Fact>, more: set<Fact>, d: Decision)
    requires recorded <= more && Supported(fleet, recorded, d)
    ensures Supported(fleet, more, d)
  {
    SubsetSize(Support(fleet, recorded, d.ip, d.normal), Support(fleet, more, d.ip, d.normal));
  }

  lemma DecisionSupported(fleet: set<Ip>, recorded: set<Fact>, t: Verdicts, p: Poll, d: Decision)
    requires TableBacked(fleet, recorded, t) && Decides(t, p, d.size, d.ip, d.normal)
    ensures Supported(fleet, recorded, d)
  {
    var voters := Voters(t, p, d.ip, d.normal);
    forall c | c in voters ensures c in Support(fleet, recorded, d.ip, d.normal) {
      assert RowBacked(recorded, c, t[c]);
    }
    SubsetSize(voters, Support(fleet, recorded, d.ip, d.normal));
  }

  lemma TableStaysBacked(fleet: set<Ip>, recorded: set<Fact>, more: set<Fact>, t: Verdicts)
    requires TableBacked(fleet, recorded, t) && recorded <= more
    ensures TableBacked(fleet, more, t)
  {
    forall c | c in t ensures RowBacked(more, c, t[c]) { assert RowBacked(recorded, c, t[c]); }
  }

  lemma NodeStaysBacked(fleet: set<Ip>, s: State, a: Action)
    requires Inv(fleet, s) && Enabled(s, a)
    ensures NodeBacked(fleet, Next(s, a).recorded, NextNode(s.nodes[a.n], a))
  {
    var node, more := s.nodes[a.n], Next(s, a).recorded;
    assert NodeBacked(fleet, s.recorded, node);
    TableStaysBacked(fleet, s.recorded, more, node.table);
    if node.ballot.Some? { TableStaysBacked(fleet, s.recorded, more, node.ballot.value.table); }
    match a
    case Judge(n, ip, normal) =>
      assert n in node.table ==> RowBacked(more, n, node.table[n]);
    case Receive(n, m, now) =>
      assert RowBacked(more, m.source, Stamp(m.row, now));
    case DropRow(n, ip) =>
      assert n in node.table ==> RowBacked(more, n, node.table[n]);
    case _ =>
  }

  lemma StepKeepsInv(fleet: set<Ip>, s: State, a: Action)
    requires Inv(fleet, s) && Enabled(s, a)
    ensures Inv(fleet, Next(s, a))
  {
    var s' := Next(s, a);
    var node := s.nodes[a.n];
    assert NodeBacked(fleet, s.recorded, node);
    forall d | d in s.decided ensures Supported(fleet, s'.recorded, d) {
      SupportGrows(fleet, s.recorded, s'.recorded, d);
    }
    NodeStaysBacked(fleet, s, a);
    if a.Conclude? {
      var b := node.ballot.value;
      DecisionSupported(fleet, s.recorded, b.table, b.poll, Decision(a.n, a.ip, a.normal, b.size.value));
    }
  }

  lemma {:induction false} ReachableInv(fleet: set<Ip>, run: seq<Action>, s: State)
    requires Reaches(fleet, run, s)
    ensures Inv(fleet, s)
    decreases |run|
  {
    if run != [] {
      var last := |run| - 1;
      var s0 :| Reaches(fleet, run[..last], s0) && Enabled(s0, run[last]) && s == Next(s0, run[last]);
      ReachableInv(fleet, run[..last], s0);
      StepKeepsInv(fleet, s0, run[last]);
    }
  }

  // ---- Quorum intersection ----

  /** Whenever, anywhere in a run, one vote found an address healthy and another found it unhealthy, and the two
      memberships they counted against are large enough for the fleet, a single checker recorded both verdicts. */
  lemma QuorumIntersection(fleet: set<Ip>, run: seq<Action>, s: State, yes: Decision, no: Decision) returns (c: Ip)
    requires Reaches(fleet, run, s) && yes in s.decided && no in s.decided
    requires yes.ip == no.ip && yes.normal && !no.normal
    requires yes.size / 2 + no.size / 2 + 2 > |fleet|
    ensures c in fleet && Fact(c, yes.ip, true) in s.recorded && Fact(c, yes.ip, false) in s.recorded
  {
    ReachableInv(fleet, run, s);
    assert Supported(fleet, s.recorded, yes) && Supported(fleet, s.recorded, no);
    c := Pigeonhole(Support(fleet, s.recorded, yes.ip, true), Support(fleet, s.recorded, yes.ip, false), fleet);
  }

  /** With the whole fleet in every voter's CheckInfo and no checker changing its mind about an address, no two votes of
      a run ever decide in opposite directions about it. */
  lemma StableVerdictsNeverConflict(fleet: set<Ip>, run: seq<Action>, s: State, yes: Decision, no: Decision)
    requires Reaches(fleet, run, s) && yes in s.decided && no in s.decided && yes.ip == no.ip
    requires yes.size >= |fleet| && no.size >= |fleet|
    requires forall c :: !(Fact(c, yes.ip, true) in s.recorded && Fact(c, yes.ip, false) in s.recorded)
    ensures yes.normal == no.normal
  {
    if yes.normal && !no.normal {
      var c := QuorumIntersection(fleet, run, s, yes, no);
      assert false;
    } else if !yes.normal && no.normal {
      var c := QuorumIntersection(fleet, run, s, no, yes);
      assert false;
    }
  }
}
