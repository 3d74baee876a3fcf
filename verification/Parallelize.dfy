/** The parallel prober: a closed channel of pieces drained by concurrent workers (pkg/edge-health/communicate/prober.go). */
module Parallelize {
  /** A goroutine at the head of its range loop, inside doWorkPiece, or past wg.Done. */
  datatype Worker = Ranging | Working(piece: nat) | Done

  /** `finished` lists the pieces in the order their work ended. */
  datatype State = State(queue: seq<nat>, workers: seq<Worker>, finished: seq<nat>)

  datatype Action = Take(w: nat) | Finish(w: nat) | Exit(w: nat)

  function Pieces(n: nat): (s: seq<nat>)
    ensures |s| == n && forall i :: 0 <= i < n ==> s[i] == i
  {
    seq(n, i => i)
  }

  /** Filling the buffered channel before any worker starts. */
  method FillChannel(pieces: nat) returns (queue: seq<nat>)
    ensures queue == Pieces(pieces)
  {
    queue := [];
    for i := 0 to pieces
      invariant queue == Pieces(i)
    {
      queue := queue + [i];
    }
  }

  /** make panics on a negative capacity, wg.Add on a negative number of workers. */
  datatype Started = Panic | Running(state: State)

  function Min(a: int, b: int): int { if b < a then b else a }

  function Start(workers: int, pieces: int): Started {
    if pieces < 0 || Min(workers, pieces) < 0 then Panic
    else Running(State(Pieces(pieces), seq(Min(workers, pieces), _ => Ranging), []))
  }

  predicate Enabled(s: State, a: Action) {
    a.w < |s.workers| &&
    match a
    case Take(w) => s.workers[w].Ranging? && s.queue != []
    case Finish(w) => s.workers[w].Working?
    case Exit(w) => s.workers[w].Ranging? && s.queue == []
  }

  function Step(s: State, a: Action): State
    requires Enabled(s, a)
  {
    match a
    case Take(w) => State(s.queue[1..], s.workers[w := Working(s.queue[0])], s.finished)
    case Finish(w) => State(s.queue, s.workers[w := Ranging], s.finished + [s.workers[w].piece])
    case Exit(w) => State(s.queue, s.workers[w := Done], s.finished)
  }

  /** One interleaving of the workers. */
  ghost predicate IsRun(s: State, actions: seq<Action>, t: State)
    decreases |actions|
  {
    if actions == [] then s == t
    else Enabled(s, actions[0]) && IsRun(Step(s, actions[0]), actions[1..], t)
  }

  /** wg.Wait returns. */
  ghost predicate Returned(s: State) { forall i :: 0 <= i < |s.workers| ==> s.workers[i].Done? }

  // ---- Conservation ----

  function Holds(w: Worker, p: nat): nat { if w == Working(p) then 1 else 0 }

  function InFlight(workers: seq<Worker>, p: nat): nat {
    if workers == [] then 0 else InFlight(workers[1..], p) + Holds(workers[0], p)
  }

  lemma {:induction false} InFlightUpdate(workers: seq<Worker>, w: nat, x: Worker, p: nat)
    requires w < |workers|
    ensures InFlight(workers[w := x], p) + Holds(workers[w], p) == InFlight(workers, p) + Holds(x, p)
    decreases w
  {
    if w == 0 {
      assert workers[w := x][1..] == workers[1..];
    } else {
      assert workers[w := x][1..] == workers[1..][w - 1 := x];
      InFlightUpdate(workers[1..], w - 1, x, p);
    }
  }

  /** How often piece `p` is waiting, being worked on or finished. */
  ghost function Everywhere(s: State, p: nat): nat {
    multiset(s.queue)[p] + InFlight(s.workers, p) + multiset(s.finished)[p]
  }

  /** No step loses or copies a piece. */
  lemma StepConserves(s: State, a: Action, p: nat)
    requires Enabled(s, a)
    ensures Everywhere(Step(s, a), p) == Everywhere(s, p)
  {
    InFlightUpdate(s.workers, a.w, Step(s, a).workers[a.w], p);
    if a.Take? {
      assert s.queue == [s.queue[0]] + s.queue[1..];
    }
  }

  /** One worker per piece at most, all at the head of their loops; negative numbers panic. */
  lemma StartMeaning(workers: int, pieces: int)
    ensures Start(workers, pieces).Panic? <==> workers < 0 || pieces < 0
    ensures workers >= 0 && pieces >= 0 ==>
              var s := Start(workers, pieces).state;
              && |s.workers| <= workers && |s.workers| <= pieces && (|s.workers| == workers || |s.workers| == pieces)
              && (forall i :: 0 <= i < |s.workers| ==> s.workers[i] == Ranging)
              && s.finished == [] && |s.queue| == pieces && forall i :: 0 <= i < pieces ==> s.queue[i] == i
  {}

  /** The pieces not taken yet are always the last ones, in order: the channel hands them out first in, first out. */
  lemma {:induction false} TakenInOrder(workers: int, pieces: int, actions: seq<Action>, t: State)
    requires workers >= 0 && pieces >= 0 && IsRun(Start(workers, pieces).state, actions, t)
    ensures |t.queue| <= pieces && forall i :: 0 <= i < |t.queue| ==> t.queue[i] == pieces - |t.queue| + i
  {
    QueueShrinks(Start(workers, pieces).state, actions, t, pieces);
  }

  lemma {:induction false} QueueShrinks(s: State, actions: seq<Action>, t: State, pieces: nat)
    requires IsRun(s, actions, t)
    requires |s.queue| <= pieces && forall i :: 0 <= i < |s.queue| ==> s.queue[i] == pieces - |s.queue| + i
    ensures |t.queue| <= pieces && forall i :: 0 <= i < |t.queue| ==> t.queue[i] == pieces - |t.queue| + i
    decreases |actions|
  {
    if actions != [] { QueueShrinks(Step(s, actions[0]), actions[1..], t, pieces); }
  }

  // ---- Progress ----

  function Load(workers: seq<Worker>): nat {
    if workers == [] then 0
    else Load(workers[1..]) + Weight(workers[0])
  }

  function Weight(w: Worker): nat {
    match w
    case Done => 0
    case Ranging => 1
    case Working(_) => 2
  }

  lemma {:induction false} LoadUpdate(workers: seq<Worker>, w: nat, x: Worker)
    requires w < |workers|
    ensures Load(workers[w := x]) + Weight(workers[w]) == Load(workers) + Weight(x)
    decreases w
  {
    if w == 0 {
      assert workers[w := x][1..] == workers[1..];
    } else {
      assert workers[w := x][1..] == workers[1..][w - 1 := x];
      LoadUpdate(workers[1..], w - 1, x);
    }
  }

  /** How many steps are left. */
  ghost function StepsLeft(s: State): nat { 2 * |s.queue| + Load(s.workers) }

  lemma StepCounts(s: State, a: Action)
    requires Enabled(s, a)
    ensures StepsLeft(Step(s, a)) == StepsLeft(s) - 1
  {
    LoadUpdate(s.workers, a.w, Step(s, a).workers[a.w]);
  }

  /** Until every worker is done some worker can move. */
  lemma NoDeadlock(s: State)
    ensures Returned(s) <==> forall a :: !Enabled(s, a)
  {
    if !Returned(s) {
      var i :| 0 <= i < |s.workers| && !s.workers[i].Done?;
      assert Enabled(s, if s.workers[i].Working? then Finish(i) else if s.queue == [] then Exit(i) else Take(i));
    }
  }

  lemma {:induction false} DoneLoad(workers: seq<Worker>)
    requires forall i :: 0 <= i < |workers| ==> workers[i].Done?
    ensures Load(workers) == 0 && forall p :: InFlight(workers, p) == 0
  {
    if workers != [] { DoneLoad(workers[1..]); }
  }

  // ---- Whole runs ----

  /** A worker has left only if the channel was drained. */
  ghost predicate Drained(s: State) { forall i :: 0 <= i < |s.workers| && s.workers[i].Done? ==> s.queue == [] }

  lemma {:induction false} RunKeeps(s: State, actions: seq<Action>, t: State)
    requires IsRun(s, actions, t) && Drained(s)
    ensures (forall p :: Everywhere(t, p) == Everywhere(s, p)) && |t.workers| == |s.workers| && Drained(t)
    ensures StepsLeft(t) + |actions| == StepsLeft(s)
    decreases |actions|
  {
    if actions != [] {
      var a := actions[0];
      forall p ensures Everywhere(Step(s, a), p) == Everywhere(s, p) { StepConserves(s, a, p); }
      StepCounts(s, a);
      RunKeeps(Step(s, a), actions[1..], t);
    }
  }

  lemma {:induction false} FreshLoad(n: nat)
    ensures var ws := seq(n, _ => Ranging); Load(ws) == n && forall p :: InFlight(ws, p) == 0
  {
    if n > 0 {
      var ws := seq(n, _ => Ranging);
      assert ws[1..] == seq(n - 1, _ => Ranging);
      FreshLoad(n - 1);
    }
  }

  /** With at least one worker, in every interleaving: when it returns, each piece was processed exactly once, after
      exactly two steps per piece and one per worker. */
  lemma {:induction false} ExactlyOnce(workers: int, pieces: int, actions: seq<Action>, t: State)
    requires workers >= 1 && pieces >= 0 && IsRun(Start(workers, pieces).state, actions, t) && Returned(t)
    ensures multiset(t.finished) == multiset(Pieces(pieces))
    ensures |actions| == 2 * pieces + Min(workers, pieces)
  {
    var s := Start(workers, pieces).state;
    FreshLoad(Min(workers, pieces));
    RunKeeps(s, actions, t);
    DoneLoad(t.workers);
    assert t.queue == [] by {
      if t.workers == [] { StillEmpty(s, actions, t); } else { assert t.workers[0].Done?; }
    }
    forall p: nat ensures multiset(t.finished)[p] == multiset(Pieces(pieces))[p] {
      assert Everywhere(t, p) == Everywhere(s, p);
    }
  }

  lemma StillEmpty(s: State, actions: seq<Action>, t: State)
    requires IsRun(s, actions, t) && s.workers == []
    ensures actions == [] && t == s
  {}

  /** It returns with all the work done exactly when there is a worker or nothing to do; a bad count panics instead. */
  lemma AllDoneIff(workers: int, pieces: int, actions: seq<Action>, t: State)
    requires Start(workers, pieces).Running? && IsRun(Start(workers, pieces).state, actions, t) && Returned(t)
    ensures multiset(t.finished) == multiset(Pieces(pieces)) <==> workers >= 1 || pieces == 0
    ensures workers == 0 ==> t.finished == []
  {
    if workers >= 1 {
      ExactlyOnce(workers, pieces, actions, t);
    } else {
      StillEmpty(Start(workers, pieces).state, actions, t);
      if pieces > 0 {
        assert Pieces(pieces)[0] in multiset(Pieces(pieces));
      } else {
        assert Pieces(pieces) == [];
      }
    }
  }

  /** Every run can be continued until it returns, and none is longer than that: no schedule blocks or goes on for ever. */
  lemma {:induction false} RunsEnd(s: State) returns (actions: seq<Action>, t: State)
    ensures IsRun(s, actions, t) && Returned(t)
    decreases StepsLeft(s)
  {
    if Returned(s) {
      actions, t := [], s;
    } else {
      NoDeadlock(s);
      var a :| Enabled(s, a);
      StepCounts(s, a);
      var rest;
      rest, t := RunsEnd(Step(s, a));
      actions := [a] + rest;
      assert actions[1..] == rest;
    }
  }
}
