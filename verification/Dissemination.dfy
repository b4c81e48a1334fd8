/** How often the cluster hears an update: the dissemination queue inside whole runs of a member. */
module Dissemination {
  import opened Common
  import opened Gossip
  import opened GossipQueue
  import opened Cluster
  import opened ClusterSafety

  // ---------------------------------------------------------------- what a step does to the queue

  /** What handling an update queues: a refutation of a claim about ourselves, or the news of an unknown node. */
  function ApplyOps(n: Node, u: Update): seq<QueueOp> {
    if u.node == n.self && (u.status == Suspect || u.status == Dead) then
      [Put(Update(n.self, n.addrs, Alive, Max(n.incarnation, u.incarnation + 1)))]
    else if u.node != n.self && u.node !in n.registry && u.status == Alive then [Put(u)]
    else []
  }

  function ApplyAllOps(n: Node, us: seq<Update>): seq<QueueOp> {
    if us == [] then []
    else ApplyAllOps(n, us[..|us| - 1]) + ApplyOps(ApplyAll(n, us[..|us| - 1]), us[|us| - 1])
  }

  /** What a verdict about `x` queues. */
  function VerdictOps(n: Node, x: NodeId, verdict: Status): seq<QueueOp>
    requires x in n.registry
  {
    [Put(Update(x, NO_ADDRS, verdict, n.registry[x].incarnation))]
  }

  /** The enqueues of one step, and the drain it ends with if it sends gossip. */
  ghost function QueueOps(n: Node, s: Step): seq<QueueOp> {
    match s
    case Deliver(_, m, _, blocked) =>
      ApplyAllOps(n, Carried(m)) + if m.Ping? || (m.PingReq? && m.target in n.registry && !blocked) then [Take] else []
    case SendPing(_) => [Take]
    case ProbeTimeout(_, t) =>
      if t in n.registry && n.registry[t].status == Alive then VerdictOps(n, t, Suspect) else []
    case TimerFires(_, t) => if t in n.registry && n.registry[t].status != Dead then VerdictOps(n, t, Dead) else []
    case Stop(_) => [Put(Update(n.self, NO_ADDRS, Left, n.incarnation))]
    case _ => []
  }

  lemma AfterOne(q: seq<Queued>, op: QueueOp)
    ensures AfterOps(q, [op]) == QueueStep(q, op)
  {
    assert [op][..0] == [];
  }

  lemma {:induction false} AfterOpsConcat(q: seq<Queued>, a: seq<QueueOp>, b: seq<QueueOp>, x: NodeId)
    ensures AfterOps(q, a + b) == AfterOps(AfterOps(q, a), b)
    ensures TimesHandedOut(q, a + b, x) == TimesHandedOut(q, a, x) + TimesHandedOut(AfterOps(q, a), b, x)
  {
    if b == [] {
      assert a + b == a;
    } else {
      AfterOpsConcat(q, a, b[..|b| - 1], x);
      assert (a + b)[..|a + b| - 1] == a + b[..|b| - 1];
      LastOp(q, a + b, x);
      LastOp(AfterOps(q, a), b, x);
    }
  }

  ghost predicate OnlyPuts(ops: seq<QueueOp>) { forall op :: op in ops ==> op.Put? }

  lemma {:induction false} PutsHandOutNothing(q: seq<Queued>, ops: seq<QueueOp>, x: NodeId)
    requires OnlyPuts(ops)
    ensures TimesHandedOut(q, ops, x) == 0
  {
    if ops != [] {
      assert ops[|ops| - 1] in ops;
      PutsHandOutNothing(q, ops[..|ops| - 1], x);
    }
  }

  lemma ApplyQueues(n: Node, u: Update)
    ensures ApplyUpdate(n, u).queue == AfterOps(n.queue, ApplyOps(n, u)) && OnlyPuts(ApplyOps(n, u))
  {
    if ApplyOps(n, u) != [] { AfterOne(n.queue, ApplyOps(n, u)[0]); }
  }

  lemma {:induction false} ApplyAllQueues(n: Node, us: seq<Update>)
    ensures ApplyAll(n, us).queue == AfterOps(n.queue, ApplyAllOps(n, us)) && OnlyPuts(ApplyAllOps(n, us))
  {
    if us != [] {
      ApplyAllQueues(n, us[..|us| - 1]);
      ApplyQueues(ApplyAll(n, us[..|us| - 1]), us[|us| - 1]);
      AfterOpsConcat(n.queue, ApplyAllOps(n, us[..|us| - 1]), ApplyOps(ApplyAll(n, us[..|us| - 1]), us[|us| - 1]), "");
    }
  }

  /** The step sends gossip, and it carries an update about `x`. */
  ghost predicate Mentions(n: Node, s: Step, x: NodeId)
    requires Possible(n, s)
  {
    && (s.SendPing? || (s.Deliver? && (s.msg.Ping? || s.msg.PingReq?)))
    && exists m, u :: m in Act(n, s).1 && u in Carried(m) && u.node == x
  }

  /** A drain and the message it fills. */
  lemma Taken(q: seq<Queued>, ops: seq<QueueOp>, x: NodeId)
    requires OnlyPuts(ops)
    ensures AfterOps(q, ops + [Take]) == Drained(AfterOps(q, ops))
    ensures TimesHandedOut(q, ops + [Take], x) == if HandsOut(AfterOps(q, ops), x) then 1 else 0
  {
    assert (ops + [Take])[..|ops|] == ops;
    PutsHandOutNothing(q, ops, x);
  }

  lemma Filled(n: Node, s: Step, m: Message, q: seq<Queued>, x: NodeId)
    requires Possible(n, s) && (s.SendPing? || (s.Deliver? && (s.msg.Ping? || s.msg.PingReq?)))
    requires Act(n, s).1 == {m} && Carried(m) == Handout(q)
    ensures Mentions(n, s, x) <==> HandsOut(q, x)
  {
    if HandsOut(q, x) {
      var u :| u in Handout(q) && u.node == x;
      assert m in Act(n, s).1 && u in Carried(m);
    }
  }

  /** Handling a message changes the queue, and what is sent, as its enqueues and drain say. */
  lemma DeliverQueues(n: Node, s: Step, x: NodeId)
    requires s.Deliver? && Possible(n, s)
    ensures Act(n, s).0.queue == AfterOps(n.queue, QueueOps(n, s))
    ensures TimesHandedOut(n.queue, QueueOps(n, s), x) == if Mentions(n, s, x) then 1 else 0
  {
    var ops := ApplyAllOps(n, Carried(s.msg));
    var k := ApplyAll(n, Carried(s.msg));
    ApplyAllQueues(n, Carried(s.msg));
    PutsHandOutNothing(n.queue, ops, x);
    assert ops + [] == ops;
    Taken(n.queue, ops, x);
    if s.msg.Ping? {
      Filled(n, s, Ack(Handout(k.queue)), k.queue, x);
    } else if s.msg.PingReq? && s.msg.target in n.registry && !s.blocked {
      Filled(n, s, Ping(Handout(k.queue)), k.queue, x);
    }
  }

  lemma ActQueues(n: Node, s: Step, x: NodeId)
    requires Possible(n, s)
    ensures Act(n, s).0.queue == AfterOps(n.queue, QueueOps(n, s))
    ensures TimesHandedOut(n.queue, QueueOps(n, s), x) == if Mentions(n, s, x) then 1 else 0
  {
    if s.Deliver? {
      DeliverQueues(n, s, x);
    } else if s.SendPing? {
      Taken(n.queue, [], x);
      assert [] + [Take] == [Take];
      Filled(n, s, Ping(Handout(n.queue)), n.queue, x);
    } else if QueueOps(n, s) != [] {
      AfterOne(n.queue, QueueOps(n, s)[0]);
      PutsHandOutNothing(n.queue, QueueOps(n, s), x);
    }
  }

  // ---------------------------------------------------------------- whole runs

  /** Everything member `i` enqueues and drains in the run. */
  ghost function MemberOps(c: Cluster, run: seq<Step>, i: NodeId): seq<QueueOp>
    requires CanRun(c, run)
  {
    if run == [] then []
    else
      var before, s := run[..|run| - 1], run[|run| - 1];
      MemberOps(c, before, i) + if s.at == i then QueueOps(After(c, before).nodes[i], s) else []
  }

  /** How many gossip messages of member `i` in the run carry an update about `x`. */
  ghost function TimesMentioned(c: Cluster, run: seq<Step>, i: NodeId, x: NodeId): nat
    requires CanRun(c, run)
  {
    if run == [] then 0
    else
      var before, s := run[..|run| - 1], run[|run| - 1];
      TimesMentioned(c, before, i, x) + if s.at == i && Mentions(After(c, before).nodes[i], s, x) then 1 else 0
  }

  lemma {:induction false} RunQueues(c: Cluster, run: seq<Step>, i: NodeId, x: NodeId)
    requires CanRun(c, run) && i in c.nodes
    ensures i in After(c, run).nodes && After(c, run).nodes[i].queue == AfterOps(c.nodes[i].queue, MemberOps(c, run, i))
    ensures TimesMentioned(c, run, i, x) == TimesHandedOut(c.nodes[i].queue, MemberOps(c, run, i), x)
  {
    if run != [] {
      var before, s := run[..|run| - 1], run[|run| - 1];
      RunQueues(c, before, i, x);
      var n, ops := After(c, before).nodes[i], MemberOps(c, before, i);
      if s.at == i {
        ActQueues(n, s, x);
        AfterOpsConcat(c.nodes[i].queue, ops, QueueOps(n, s), x);
      } else {
        assert ops + [] == ops;
      }
    }
  }

  /**
   * Three mentions. Member `i` of a reached cluster has an update freshly queued, as every verdict, refutation and
   * discovery is. In any run from there in which it queues nothing else about that node, it never mentions the node
   * in more than three gossip messages; and once the update has left its queue, it has done so in exactly three.
   */
  lemma MentionedThreeTimes(c0: Cluster, past: seq<Step>, c: Cluster, run: seq<Step>, i: NodeId,
                            u: Update)
    requires Reached(c0, past, c) && i in c.nodes && Queued(u, 0) in c.nodes[i].queue
    requires CanRun(c, run) && NoPutAbout(MemberOps(c, run, i), u.node)
    ensures TimesMentioned(c, run, i, u.node) <= 3 && i in After(c, run).nodes
    ensures TimesMentioned(c, run, i, u.node) == 3 <==> !Holds(After(c, run).nodes[i].queue, u.node)
  {
    ReachedMemberOk(c0, past, c, i);
    RunQueues(c, run, i, u.node);
    SendsAddUp(c.nodes[i].queue, MemberOps(c, run, i), Queued(u, 0));
  }
}
