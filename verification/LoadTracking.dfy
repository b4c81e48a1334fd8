/** What the ring's request counters mean over whole histories of joins, leaves and requests. */
module LoadTracking {
  import opened Common
  import opened HashRing
  import opened BoundedLoad

  datatype LoadOp = Join(node: NodeId) | Leave(node: NodeId) | Begin(node: NodeId) | End(node: NodeId)

  /** IncrementLoad and DecrementLoad: a node without a counter is ignored. */
  function Bumped(s: State, x: NodeId, delta: int): State {
    if x in s.loads then s.(loads := s.loads[x := s.loads[x] + delta]) else s
  }

  ghost predicate LoadStep(c: Config, s: State, op: LoadOp, t: State) {
    match op
    case Join(x) => Added(c, s, x, t)
    case Leave(x) => t == Removed(s, x)
    case Begin(x) => t == Bumped(s, x, 1)
    case End(x) => t == Bumped(s, x, -1)
  }

  ghost predicate LoadHistory(c: Config, ops: seq<LoadOp>, states: seq<State>) {
    && |states| == |ops| + 1
    && states[0] == EMPTY
    && forall i :: 0 <= i < |ops| ==> LoadStep(c, states[i], ops[i], states[i + 1])
  }

  /** Requests at `x` begun and not ended yet, whether or not the ring knew `x` at the time. */
  function InFlight(ops: seq<LoadOp>, x: NodeId): int {
    if ops == [] then 0
    else
      InFlight(ops[..|ops| - 1], x)
      + match ops[|ops| - 1]
        case Begin(y) => (if x == y then 1 else 0)
        case End(y) => (if x == y then -1 else 0)
        case _ => 0
  }

  function Present(ops: seq<LoadOp>, x: NodeId): bool {
    ops != []
    && match ops[|ops| - 1]
       case Join(y) => x == y || Present(ops[..|ops| - 1], x)
       case Leave(y) => x != y && Present(ops[..|ops| - 1], x)
       case _ => Present(ops[..|ops| - 1], x)
  }

  /** The requests that were in flight at `x` when it last joined. */
  function AtJoin(ops: seq<LoadOp>, x: NodeId): int {
    if ops == [] then 0
    else
      var front := ops[..|ops| - 1];
      if ops[|ops| - 1] == Join(x) && !Present(front, x) then InFlight(front, x) else AtJoin(front, x)
  }

  lemma LoadStepMembers(c: Config, s: State, op: LoadOp, t: State)
    requires Valid(c, s) && LoadStep(c, s, op, t)
    ensures Valid(c, t)
    ensures t.nodes == match op
            case Join(x) => s.nodes + {x}
            case Leave(x) => s.nodes - {x}
            case _ => s.nodes
  {
    match op
    case Join(x) => AddedIsValid(c, s, x, t);
    case Leave(x) => RemovedIsValid(c, s, x);
    case Begin(x) => assert t.loads.Keys == s.loads.Keys;
    case End(x) => assert t.loads.Keys == s.loads.Keys;
  }

  lemma {:induction false} LoadHistoryMembers(c: Config, ops: seq<LoadOp>, states: seq<State>, x: NodeId)
    requires ValidConfig(c) && LoadHistory(c, ops, states)
    ensures Valid(c, states[|ops|]) && (x in states[|ops|].nodes <==> Present(ops, x))
  {
    if ops == [] {
      assert Universe(c, {}) == {};
    } else {
      var n := |ops| - 1;
      LoadHistoryMembers(c, ops[..n], states[..n + 1], x);
      assert LoadStep(c, states[n], ops[n], states[n + 1]);
      LoadStepMembers(c, states[n], ops[n], states[n + 1]);
    }
  }

  /** A member's counter is its requests in flight less those in flight when it last joined. */
  lemma {:induction false} CounterIsExact(c: Config, ops: seq<LoadOp>, states: seq<State>, x: NodeId)
    requires ValidConfig(c) && LoadHistory(c, ops, states) && Present(ops, x)
    ensures x in states[|ops|].loads && states[|ops|].loads[x] == InFlight(ops, x) - AtJoin(ops, x)
  {
    var n := |ops| - 1;
    var front := ops[..n];
    assert LoadStep(c, states[n], ops[n], states[n + 1]);
    LoadHistoryMembers(c, front, states[..n + 1], x);
    if Present(front, x) { CounterIsExact(c, front, states[..n + 1], x); }
  }

  /** So it counts exactly the requests in flight if and only if none was in flight when the node last joined. */
  lemma CountsRequestsIff(c: Config, ops: seq<LoadOp>, states: seq<State>, x: NodeId)
    requires ValidConfig(c) && LoadHistory(c, ops, states) && Present(ops, x)
    ensures x in states[|ops|].loads
    ensures states[|ops|].loads[x] == InFlight(ops, x) <==> AtJoin(ops, x) == 0
    ensures states[|ops|].loads[x] < 0 <==> InFlight(ops, x) < AtJoin(ops, x)
  {
    CounterIsExact(c, ops, states, x);
  }

  /** And a counter can go negative: a node leaves and rejoins during a request that then ends. */
  lemma RejoinDuringRequestUndercounts(c: Config, x: NodeId, states: seq<State>)
    requires ValidConfig(c) && LoadHistory(c, [Join(x), Begin(x), Leave(x), Join(x), End(x)], states)
    ensures x in states[5].loads && states[5].loads[x] == -1
  {
    var ops := [Join(x), Begin(x), Leave(x), Join(x), End(x)];
    assert LoadStep(c, states[0], ops[0], states[1]) && LoadStep(c, states[1], ops[1], states[2]);
    assert LoadStep(c, states[2], ops[2], states[3]) && LoadStep(c, states[3], ops[3], states[4]);
    assert LoadStep(c, states[4], ops[4], states[5]);
  }

  // ---------------------------------------------------------------- a server's own ring

  /** A server joins its own ring first, never leaves it, and counts only its own requests. */
  ghost predicate ServerOps(self: NodeId, ops: seq<LoadOp>) {
    && ops != [] && ops[0] == Join(self)
    && (forall op :: op in ops ==> op != Leave(self))
    && (forall op :: op in ops && (op.Begin? || op.End?) ==> op.node == self)
  }

  lemma {:induction false} ServerHistory(self: NodeId, ops: seq<LoadOp>, x: NodeId)
    requires ServerOps(self, ops)
    ensures Present(ops, self) && AtJoin(ops, self) == 0
    ensures x != self ==> InFlight(ops, x) == 0 && AtJoin(ops, x) == 0
  {
    var front := ops[..|ops| - 1];
    assert ops[|ops| - 1] in ops;
    if front == [] {
      assert ops == [Join(self)];
    } else {
      assert front[0] == ops[0] && forall op :: op in front ==> op in ops;
      ServerHistory(self, front, x);
    }
  }

  /** In every history of a server's ring its own counter is its requests in flight and every other counter is zero. */
  lemma ServerCountersAreExact(c: Config, self: NodeId, ops: seq<LoadOp>, states: seq<State>)
    requires ValidConfig(c) && LoadHistory(c, ops, states) && ServerOps(self, ops)
    ensures var s := states[|ops|];
            Valid(c, s) && self in s.nodes
            && forall x :: x in s.nodes ==> s.loads[x] == if x == self then InFlight(ops, self) else 0
  {
    ServerHistory(self, ops, self);
    LoadHistoryMembers(c, ops, states, self);
    forall x | x in states[|ops|].nodes
      ensures states[|ops|].loads[x] == if x == self then InFlight(ops, self) else 0
    {
      ServerHistory(self, ops, x);
      LoadHistoryMembers(c, ops, states, x);
      CounterIsExact(c, ops, states, x);
    }
  }

  lemma {:induction false} TotalOfOne(loads: map<NodeId, int>, x: NodeId)
    requires x in loads && forall y :: y in loads && y != x ==> loads[y] == 0
    ensures Total(loads) == loads[x]
    decreases |loads|
  {
    if y :| y in loads && y != x {
      TotalSplit(loads, y);
      TotalOfOne(loads - {y}, x);
    } else {
      TotalSplit(loads, x);
      assert loads - {x} == map[];
    }
  }

  /**
   * Hence a server's bounded lookup passes over nobody but itself: it answers the key's primary, unless that is the
   * server and its own requests reach the bound, when it answers the next node.
   */
  lemma ServerSkipsOnlyItself(c: Config, self: NodeId, ops: seq<LoadOp>, states: seq<State>, key: Key, r: NodeId)
    requires ValidConfig(c) && LoadHistory(c, ops, states) && ServerOps(self, ops)
    requires states[|ops|].nodes != {} && Routes(c, states[|ops|], key, r)
    ensures var s := states[|ops|];
            var w := Walk(c, s, key);
            var busy := InFlight(ops, self) >= Bound(InFlight(ops, self), |s.nodes|, c.maxLoadFactor);
            w != [] && r == if |w| > 1 && w[0] == self && busy then w[1] else w[0]
  {
    var s := states[|ops|];
    ServerCountersAreExact(c, self, ops, states);
    TotalOfOne(s.loads, self);
    WalkListsMembers(c, s, key);
    var w, m := Walk(c, s, key), MaxLoad(c, s);
    assert w[0] in s.nodes;
    assert |w| > 1 ==> w[1] in s.nodes && w[1] != w[0];
    assert forall x :: x in s.nodes && x != self ==> Eligible(s.loads, m, x);
    if |w| > 1 { assert w[1] in w; }
    assert w[0] in w;
  }
}
