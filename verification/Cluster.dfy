/** The whole cluster: members that gossip over a network that loses, repeats and reorders messages. */
module Cluster {
  import opened Common
  import opened Gossip
  import opened GossipQueue

  datatype Message =
    | Ping(updates: seq<Update>)
    | Ack(updates: seq<Update>)
    | PingReq(target: NodeId)
    | JoinRequest(updates: seq<Update>)

  function Carried(m: Message): seq<Update> {
    if m.PingReq? then [] else m.updates
  }

  /** `net` holds every message ever sent, so any of them may arrive late, repeatedly, anywhere or never. */
  datatype Cluster = Cluster(nodes: map<NodeId, Node>, net: set<Message>)

  /** Members started, none of them heard yet. */
  ghost predicate Init(c: Cluster) {
    c.net == {} && forall i :: i in c.nodes ==> c.nodes[i] == Started(i, c.nodes[i].addrs)
  }

  // ---------------------------------------------------------------- steps

  datatype Step =
    | Deliver(at: NodeId, msg: Message, order: seq<NodeId>, blocked: bool)
    | SendPing(at: NodeId)
    | SendPingReq(at: NodeId, target: NodeId)
    | RelayAck(at: NodeId)
    | SendJoin(at: NodeId)
    | ProbeTimeout(at: NodeId, target: NodeId)
    | TimerFires(at: NodeId, target: NodeId)
    | Stop(at: NodeId)

  /** What a step asks of its node. `order` is the order in which a join reply reads the registry. */
  ghost predicate Possible(n: Node, s: Step) {
    match s
    case Deliver(_, m, order, _) => Enumerates(order, ApplyAll(n, Carried(m)).registry.Keys)
    case ProbeTimeout(_, t) => t != n.self
    case TimerFires(_, t) => t in n.timers
    case _ => true
  }

  ghost predicate Enabled(c: Cluster, s: Step) {
    s.at in c.nodes && Possible(c.nodes[s.at], s) && (s.Deliver? ==> s.msg in c.net)
  }

  function Drain(n: Node): Node { n.(queue := Drained(n.queue)) }

  /** One member handles one message; the second result is what it sends. */
  ghost function Receive(n: Node, m: Message, order: seq<NodeId>, blocked: bool): (Node, set<Message>)
    requires Enumerates(order, ApplyAll(n, Carried(m)).registry.Keys)
  {
    var k := ApplyAll(n, Carried(m));
    match m
    case Ping(_) => (Drain(k), {Ack(Handout(k.queue))})
    case Ack(_) => (k, {})
    case PingReq(t) => if t in k.registry && !blocked then (Drain(k), {Ping(Handout(k.queue))}) else (k, {})
    case JoinRequest(_) => (k, {Ack(JoinReply(k, order))})
  }

  ghost function Act(n: Node, s: Step): (Node, set<Message>)
    requires Possible(n, s)
  {
    match s
    case Deliver(_, m, order, blocked) => Receive(n, m, order, blocked)
    case SendPing(_) => (Drain(n), {Ping(Handout(n.queue))})
    case SendPingReq(_, t) => (n, {PingReq(t)})
    case RelayAck(_) => (n, {Ack([])})
    case SendJoin(_) => (n, {JoinRequest([Update(n.self, n.addrs, Alive, n.incarnation)])})
    case ProbeTimeout(_, t) => (MarkSuspect(n, t), {})
    case TimerFires(_, t) => (MarkDead(n, t), {})
    case Stop(_) => (Leave(n), {})
  }

  function Place(c: Cluster, i: NodeId, r: (Node, set<Message>)): Cluster {
    Cluster(c.nodes[i := r.0], c.net + r.1)
  }

  ghost function Next(c: Cluster, s: Step): Cluster
    requires Enabled(c, s)
  {
    Place(c, s.at, Act(c.nodes[s.at], s))
  }

  /** Every step of `run` is enabled when its turn comes. */
  ghost predicate CanRun(c: Cluster, run: seq<Step>)
    decreases |run|, 0
  {
    run == [] || (CanRun(c, run[..|run| - 1]) && Enabled(After(c, run[..|run| - 1]), run[|run| - 1]))
  }

  ghost function After(c: Cluster, run: seq<Step>): Cluster
    requires CanRun(c, run)
    decreases |run|, 1
  {
    if run == [] then c else Next(After(c, run[..|run| - 1]), run[|run| - 1])
  }

  // ---------------------------------------------------------------- the invariant

  /** Each member's own incarnation counter and addresses: the truth that claims are measured against. */
  datatype Truth = Truth(incarnation: nat, addrs: Addrs)

  ghost function TruthOf(c: Cluster): map<NodeId, Truth> {
    map i | i in c.nodes :: Truth(c.nodes[i].incarnation, c.nodes[i].addrs)
  }

  /** No claim is ahead of its subject's own counter, and Alive claims carry the subject's addresses. */
  ghost predicate ClaimOk(t: map<NodeId, Truth>, u: Update) {
    && u.node in t
    && u.incarnation <= t[u.node].incarnation
    && (u.status == Alive ==> u.addrs == t[u.node].addrs)
  }

  ghost predicate ClaimsOk(t: map<NodeId, Truth>, us: seq<Update>) {
    forall u :: u in us ==> ClaimOk(t, u)
  }

  ghost predicate MessagesOk(t: map<NodeId, Truth>, ms: set<Message>) {
    forall m :: m in ms ==> ClaimsOk(t, Carried(m))
  }

  ghost predicate RegistryOk(t: map<NodeId, Truth>, n: Node) {
    forall x :: x in n.registry ==>
      && x in t
      && n.registry[x].incarnation <= t[x].incarnation
      && n.registry[x].addrs == t[x].addrs
  }

  /** Suspect peers have a timer; a timer belongs to a Suspect or Left peer; our own entry is neither. */
  ghost predicate TimersOk(n: Node) {
    && n.self in n.registry
    && n.self !in n.timers
    && n.registry[n.self].status in {Alive, Left}
    && (forall x :: x in n.registry && n.registry[x].status == Suspect ==> x in n.timers)
    && (forall x :: x in n.timers ==> x in n.registry && n.registry[x].status in {Suspect, Left})
  }

  ghost predicate NodeOk(t: map<NodeId, Truth>, n: Node) {
    && n.self in t && t[n.self] == Truth(n.incarnation, n.addrs)
    && RegistryOk(t, n)
    && (forall e :: e in n.queue ==> ClaimOk(t, e.update))
    && QueueOk(n.queue)
    && TimersOk(n)
  }

  ghost predicate NodesOk(t: map<NodeId, Truth>, nodes: map<NodeId, Node>) {
    forall i {:trigger nodes[i]} :: i in nodes ==> nodes[i].self == i && NodeOk(t, nodes[i])
  }

  ghost predicate Inv(c: Cluster) {
    && NodesOk(TruthOf(c), c.nodes)
    && MessagesOk(TruthOf(c), c.net)
  }

  /** Counters only grow, addresses never change. */
  ghost predicate Grows(t: map<NodeId, Truth>, t': map<NodeId, Truth>) {
    && t.Keys == t'.Keys
    && forall x :: x in t ==> t[x].incarnation <= t'[x].incarnation && t[x].addrs == t'[x].addrs
  }

  lemma InitIsInv(c: Cluster)
    requires Init(c)
    ensures Inv(c)
  {
    forall i | i in c.nodes ensures c.nodes[i].self == i && NodeOk(TruthOf(c), c.nodes[i]) {
      assert c.nodes[i] == Started(i, c.nodes[i].addrs);
    }
  }

  // ---------------------------------------------------------------- one member at a time

  /** What one member's step guarantees: a valid new state, and a counter that moved by at most `d`. */
  ghost predicate NodeStep(t: map<NodeId, Truth>, n: Node, n': Node, d: nat)
    requires n.self in t
  {
    && n'.self == n.self && n'.addrs == n.addrs
    && n.incarnation <= n'.incarnation <= n.incarnation + d
    && NodeOk(t[n.self := Truth(n'.incarnation, n'.addrs)], n')
  }

  lemma EnqueueClaims(t: map<NodeId, Truth>, q: seq<Queued>, u: Update)
    requires QueueOk(q) && (forall e :: e in q ==> ClaimOk(t, e.update)) && ClaimOk(t, u)
    ensures QueueOk(Enqueue(q, u)) && forall e :: e in Enqueue(q, u) ==> ClaimOk(t, e.update)
  {
    EnqueueContents(q, u);
    EnqueueKeepsOk(q, u);
  }

  lemma RefuteStep(t: map<NodeId, Truth>, n: Node, u: Update)
    requires NodeOk(t, n) && ClaimOk(t, u) && u.node == n.self
    ensures NodeStep(t, n, Refute(n, u), 1)
  {
    var n' := Refute(n, u);
    var t' := t[n.self := Truth(n'.incarnation, n'.addrs)];
    assert forall e :: e in n.queue ==> ClaimOk(t', e.update);
    EnqueueClaims(t', n.queue, Update(n.self, n.addrs, Alive, n'.incarnation));
  }

  lemma DiscoverStep(t: map<NodeId, Truth>, n: Node, u: Update)
    requires NodeOk(t, n) && ClaimOk(t, u) && u.node !in n.registry && u.status == Alive
    ensures NodeStep(t, n, Discover(n, u), 0)
  {
    assert t[n.self := Truth(n.incarnation, n.addrs)] == t;
    EnqueueClaims(t, n.queue, u);
  }

  lemma AdoptStep(t: map<NodeId, Truth>, n: Node, u: Update)
    requires NodeOk(t, n) && ClaimOk(t, u) && u.node in n.registry && u.node != n.self
    ensures NodeStep(t, n, Adopt(n, u), 0)
  {
    assert t[n.self := Truth(n.incarnation, n.addrs)] == t;
  }

  lemma ApplyStep(t: map<NodeId, Truth>, n: Node, u: Update)
    requires NodeOk(t, n) && ClaimOk(t, u)
    ensures NodeStep(t, n, ApplyUpdate(n, u), 1)
  {
    assert t[n.self := Truth(n.incarnation, n.addrs)] == t;
    if u.node == n.self {
      RefuteStep(t, n, u);
    } else if u.node !in n.registry {
      if u.status == Alive { DiscoverStep(t, n, u); }
    } else {
      AdoptStep(t, n, u);
    }
  }

  lemma {:induction false} ApplyAllStep(t: map<NodeId, Truth>, n: Node, us: seq<Update>)
    requires NodeOk(t, n) && ClaimsOk(t, us)
    ensures NodeStep(t, n, ApplyAll(n, us), |us|)
  {
    if us == [] {
      assert t[n.self := Truth(n.incarnation, n.addrs)] == t;
    } else {
      var front, u := us[..|us| - 1], us[|us| - 1];
      assert ClaimsOk(t, front) by { assert forall v :: v in front ==> v in us; }
      ApplyAllStep(t, n, front);
      var k := ApplyAll(n, front);
      var t' := t[n.self := Truth(k.incarnation, k.addrs)];
      assert u in us;
      ApplyStep(t', k, u);
      var n' := ApplyAll(n, us);
      assert t'[n.self := Truth(n'.incarnation, n'.addrs)] == t[n.self := Truth(n'.incarnation, n'.addrs)];
    }
  }

  lemma MarkSuspectStep(t: map<NodeId, Truth>, n: Node, x: NodeId)
    requires NodeOk(t, n) && x != n.self
    ensures NodeStep(t, n, MarkSuspect(n, x), 0)
  {
    assert t[n.self := Truth(n.incarnation, n.addrs)] == t;
    if x in n.registry {
      EnqueueClaims(t, n.queue, Update(x, NO_ADDRS, Suspect, n.registry[x].incarnation));
    }
  }

  lemma MarkDeadStep(t: map<NodeId, Truth>, n: Node, x: NodeId)
    requires NodeOk(t, n) && x != n.self
    ensures NodeStep(t, n, MarkDead(n, x), 0)
  {
    assert t[n.self := Truth(n.incarnation, n.addrs)] == t;
    if x in n.registry {
      EnqueueClaims(t, n.queue, Update(x, NO_ADDRS, Dead, n.registry[x].incarnation));
    }
  }

  lemma LeaveStep(t: map<NodeId, Truth>, n: Node)
    requires NodeOk(t, n)
    ensures NodeStep(t, n, Leave(n), 0)
  {
    assert t[n.self := Truth(n.incarnation, n.addrs)] == t;
    EnqueueClaims(t, n.queue, Update(n.self, NO_ADDRS, Left, n.incarnation));
  }

  lemma DrainClaims(t: map<NodeId, Truth>, q: seq<Queued>)
    requires QueueOk(q) && forall e :: e in q ==> ClaimOk(t, e.update)
    ensures QueueOk(Drained(q)) && forall e :: e in Drained(q) ==> ClaimOk(t, e.update)
    ensures ClaimsOk(t, Handout(q))
  {
    DrainKeepsOk(q);
    var b, h := Counted(q), Handout(q);
    ActiveContents(b);
    forall e | e in Drained(q) ensures ClaimOk(t, e.update) {
      var i :| 0 <= i < |b| && b[i] == e;
      assert q[i] in q;
    }
    forall u | u in h ensures ClaimOk(t, u) {
      var i :| 0 <= i < |h| && h[i] == u;
      assert q[i] in q;
    }
  }

  lemma DrainStep(t: map<NodeId, Truth>, n: Node)
    requires NodeOk(t, n)
    ensures NodeOk(t, Drain(n)) && ClaimsOk(t, Handout(n.queue))
  {
    DrainClaims(t, n.queue);
  }

  lemma JoinReplyClaims(t: map<NodeId, Truth>, n: Node, order: seq<NodeId>)
    requires NodeOk(t, n) && forall x :: x in order ==> x in n.registry
    ensures ClaimsOk(t, JoinReply(n, order))
  {
    forall u | u in JoinReply(n, order) ensures ClaimOk(t, u) {
      var i :| 0 <= i < |order| && JoinReply(n, order)[i] == u;
      assert order[i] in order;
    }
  }

  // ---------------------------------------------------------------- every step, every run

  /** How far one step can raise its node's counter: once per delivered update. */
  function Weight(s: Step): nat { if s.Deliver? then |Carried(s.msg)| else 0 }

  lemma ReceiveStep(t: map<NodeId, Truth>, n: Node, m: Message, order: seq<NodeId>, blocked: bool)
    requires NodeOk(t, n) && ClaimsOk(t, Carried(m))
    requires Enumerates(order, ApplyAll(n, Carried(m)).registry.Keys)
    ensures var (n', out) := Receive(n, m, order, blocked);
            && NodeStep(t, n, n', |Carried(m)|)
            && MessagesOk(t[n.self := Truth(n'.incarnation, n'.addrs)], out)
  {
    ApplyAllStep(t, n, Carried(m));
    var k := ApplyAll(n, Carried(m));
    var t' := t[n.self := Truth(k.incarnation, k.addrs)];
    DrainStep(t', k);
    if m.JoinRequest? { JoinReplyClaims(t', k, order); }
  }

  lemma ActStep(t: map<NodeId, Truth>, n: Node, s: Step)
    requires NodeOk(t, n) && Possible(n, s)
    requires s.Deliver? ==> ClaimsOk(t, Carried(s.msg))
    ensures var (n', out) := Act(n, s);
            && NodeStep(t, n, n', Weight(s))
            && MessagesOk(t[n.self := Truth(n'.incarnation, n'.addrs)], out)
  {
    assert t[n.self := Truth(n.incarnation, n.addrs)] == t;
    match s
    case Deliver(_, m, order, blocked) => ReceiveStep(t, n, m, order, blocked);
    case SendPing(_) => DrainStep(t, n);
    case SendPingReq(_, _) =>
    case RelayAck(_) =>
    case SendJoin(_) =>
    case ProbeTimeout(_, x) => MarkSuspectStep(t, n, x);
    case TimerFires(_, x) => MarkDeadStep(t, n, x);
    case Stop(_) => LeaveStep(t, n);
  }

  lemma NodeOkGrows(t: map<NodeId, Truth>, t': map<NodeId, Truth>, n: Node)
    requires NodeOk(t, n) && Grows(t, t') && t'[n.self] == t[n.self]
    ensures NodeOk(t', n)
  {
  }

  lemma ClaimsGrow(t: map<NodeId, Truth>, t': map<NodeId, Truth>, ms: set<Message>)
    requires MessagesOk(t, ms) && Grows(t, t')
    ensures MessagesOk(t', ms)
  {
  }

  lemma NodesGrow(t: map<NodeId, Truth>, v: Truth, nodes: map<NodeId, Node>, i: NodeId, n': Node)
    requires NodesOk(t, nodes) && Grows(t, t[i := v])
    ensures n'.self == i && NodeOk(t[i := v], n') ==> NodesOk(t[i := v], nodes[i := n'])
  {
    forall j | j in nodes && j != i ensures NodeOk(t[i := v], nodes[j]) {
      NodeOkGrows(t, t[i := v], nodes[j]);
    }
  }

  lemma TruthAfter(c: Cluster, i: NodeId, r: (Node, set<Message>))
    requires i in c.nodes
    ensures TruthOf(Place(c, i, r)) == TruthOf(c)[i := Truth(r.0.incarnation, r.0.addrs)]
  {
  }

  lemma RaiseGrows(t: map<NodeId, Truth>, i: NodeId, v: Truth, d: nat)
    requires i in t && t[i].incarnation <= v.incarnation <= t[i].incarnation + d && v.addrs == t[i].addrs
    ensures Grows(t, t[i := v])
    ensures forall x :: x in t ==> t[i := v][x].incarnation <= t[x].incarnation + d
  {
  }

  /** One member's step, seen from the whole cluster. */
  lemma PlaceKeepsInv(c: Cluster, i: NodeId, r: (Node, set<Message>), t: map<NodeId, Truth>, v: Truth)
    requires NodesOk(t, c.nodes) && MessagesOk(t, c.net) && Grows(t, t[i := v])
    requires r.0.self == i && NodeOk(t[i := v], r.0) && MessagesOk(t[i := v], r.1)
    ensures NodesOk(t[i := v], Place(c, i, r).nodes)
    ensures MessagesOk(t[i := v], Place(c, i, r).net)
  {
    ClaimsGrow(t, t[i := v], c.net);
    NodesGrow(t, v, c.nodes, i, r.0);
  }

  lemma StepKeepsInv(c: Cluster, s: Step)
    requires Inv(c) && Enabled(c, s)
    ensures Inv(Next(c, s)) && Grows(TruthOf(c), TruthOf(Next(c, s)))
    ensures forall x :: x in c.nodes ==>
      TruthOf(Next(c, s))[x].incarnation <= TruthOf(c)[x].incarnation + Weight(s)
  {
    ActStep(TruthOf(c), c.nodes[s.at], s);
    var t, r := TruthOf(c), Act(c.nodes[s.at], s);
    var v := Truth(r.0.incarnation, r.0.addrs);
    RaiseGrows(t, s.at, v, Weight(s));
    PlaceKeepsInv(c, s.at, r, t, v);
    TruthAfter(c, s.at, r);
  }

  ghost function TotalWeight(run: seq<Step>): nat {
    if run == [] then 0 else TotalWeight(run[..|run| - 1]) + Weight(run[|run| - 1])
  }

  /** Incarnation authority: no registry, queue or message is ever ahead of the node it talks about. */
  lemma {:induction false} RunKeepsInv(c: Cluster, run: seq<Step>)
    requires Inv(c) && CanRun(c, run)
    ensures Inv(After(c, run))
    ensures Grows(TruthOf(c), TruthOf(After(c, run)))
    ensures forall i :: i in c.nodes ==>
      TruthOf(After(c, run))[i].incarnation <= TruthOf(c)[i].incarnation + TotalWeight(run)
  {
    if run != [] {
      var front := run[..|run| - 1];
      RunKeepsInv(c, front);
      StepKeepsInv(After(c, front), run[|run| - 1]);
    }
  }
}
