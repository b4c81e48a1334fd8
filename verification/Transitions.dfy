/** What a member's record of a peer becomes, for every piece of news, verdict and departure. */
module Transitions {
  import opened Common
  import opened Gossip
  import opened GossipQueue
  import opened Cluster
  import opened ClusterSafety
  import opened RingView

  // ---------------------------------------------------------------- one record changes

  /**
   * `m` differs from `n` only in what it holds about `x`: the record has this status and incarnation, its timer is
   * armed or not, one event of this kind was emitted; the queue is left open.
   */
  ghost predicate Turned(n: Node, m: Node, x: NodeId, status: Status, incarnation: nat, armed: bool, kind: EventKind) {
    && x in n.registry && m.registry == n.registry[x := Info(n.registry[x].addrs, status, incarnation)]
    && m.timers == (if armed then n.timers + {x} else n.timers - {x})
    && m.events == n.events + [Event(kind, x)]
    && m.self == n.self && m.addrs == n.addrs && m.incarnation == n.incarnation
  }

  /** News that is not stale, about a known peer. */
  ghost predicate Fresh(n: Node, u: Update) {
    u.node != n.self && u.node in n.registry && u.incarnation >= n.registry[u.node].incarnation
  }

  /**
   * Alive news revives a peer from every other status at the incarnation of the news and disarms its timer. Suspect
   * news turns exactly Alive peers Suspect and arms the timer. Dead news turns every other peer Dead and disarms it.
   * Left news always turns the peer Left. Each change emits its own kind of event and queues nothing; without a
   * change nothing happens.
   */
  lemma NewsTakesEffect(n: Node, u: Update)
    requires Fresh(n, u)
    ensures var m, x := ApplyUpdate(n, u), u.node;
            var was := n.registry[x];
            && m.queue == n.queue
            && (u.status == Alive && was.status != Alive ==> Turned(n, m, x, Alive, u.incarnation, false, EventAlive))
            && (u.status == Suspect && was.status == Alive ==>
                  Turned(n, m, x, Suspect, was.incarnation, true, EventSuspect))
            && (u.status == Dead && was.status != Dead ==> Turned(n, m, x, Dead, was.incarnation, false, EventDead))
            && (u.status == Left ==> Turned(n, m, x, Left, was.incarnation, x in n.timers, EventLeft))
            && (u.status == Alive && was.status == Alive ==> m == n)
            && (u.status == Suspect && was.status != Alive ==> m == n)
            && (u.status == Dead && was.status == Dead ==> m == n)
  {
    var x, m := u.node, ApplyUpdate(n, u);
    if u.status == Left { assert m.timers == if x in n.timers then n.timers + {x} else n.timers - {x}; }
  }

  /** All other news: what is stale, and whatever is not Alive about a stranger, is ignored; strangers are met. */
  lemma OtherNewsTakesEffect(n: Node, u: Update)
    requires u.node != n.self
    ensures var m := ApplyUpdate(n, u);
            && (u.node in n.registry && u.incarnation < n.registry[u.node].incarnation ==> m == n)
            && (u.node !in n.registry && u.status != Alive ==> m == n)
            && (u.node !in n.registry && u.status == Alive ==>
                  && m.registry == n.registry[u.node := Info(u.addrs, Alive, u.incarnation)]
                  && m.timers == n.timers && m.events == n.events + [Event(EventJoin, u.node)]
                  && m.self == n.self && m.addrs == n.addrs && m.incarnation == n.incarnation
                  && Holds(m.queue, u.node))
  {
    EnqueueContents(n.queue, u);
  }

  /** News about the member itself touches only its counter and its queue, and those only if it is called failing. */
  lemma OwnNewsTakesEffect(n: Node, u: Update)
    requires u.node == n.self
    ensures var m := ApplyUpdate(n, u);
            && m.registry == n.registry && m.timers == n.timers && m.events == n.events
            && m.self == n.self && m.addrs == n.addrs
            && ((u.status == Alive || u.status == Left) ==> m == n)
            && ((u.status == Suspect || u.status == Dead) ==>
                  m.incarnation == Max(n.incarnation, u.incarnation + 1) && Holds(m.queue, n.self))
  {
    EnqueueContents(n.queue, Update(n.self, n.addrs, Alive, Refute(n, u).incarnation));
  }

  /** A failed probe turns exactly Alive peers Suspect, and a timer every peer that is not Dead yet. */
  lemma VerdictsTakeEffect(n: Node, x: NodeId)
    ensures var m := MarkSuspect(n, x);
            if x in n.registry && n.registry[x].status == Alive
            then Turned(n, m, x, Suspect, n.registry[x].incarnation, true, EventSuspect)
            else m == n
    ensures var m := MarkDead(n, x);
            if x in n.registry && n.registry[x].status != Dead
            then Turned(n, m, x, Dead, n.registry[x].incarnation, false, EventDead)
            else m == n
  {
  }

  // ---------------------------------------------------------------- in reachable clusters

  /** Members of a reached cluster have been there from the start. */
  lemma WasThere(c0: Cluster, run: seq<Step>, c: Cluster, i: NodeId)
    requires Reached(c0, run, c) && i in c.nodes
    ensures i in c0.nodes
  {
    InitIsInv(c0);
    RunKeepsInv(c0, run);
    assert i in TruthOf(c) && TruthOf(c).Keys == TruthOf(c0).Keys;
  }

  /** Whoever hears that a peer left no longer counts it as usable, and its events take it off the ring. */
  lemma DepartedPeersLeaveTheRing(c0: Cluster, run: seq<Step>, c: Cluster, i: NodeId, u: Update)
    requires Reached(c0, run, c) && i in c.nodes && Fresh(c.nodes[i], u) && u.status == Left
    ensures var m := ApplyUpdate(c.nodes[i], u);
            && m.registry[u.node].status == Left && !Usable(m, u.node)
            && u.node !in Members(i, m.events)
            && forall x :: x != u.node ==> (x in Members(i, m.events) <==> x in Members(i, c.nodes[i].events))
  {
    var n := c.nodes[i];
    ReachedMemberOk(c0, run, c, i);
    NewsTakesEffect(n, u);
    WasThere(c0, run, c, i);
    RunMirrors(c0, run, i);
    ApplyMirrors(n, u);
  }

  /** A member that stops calls itself Left and queues exactly that, fresh. */
  lemma DepartureIsAnnounced(c0: Cluster, run: seq<Step>, c: Cluster, i: NodeId)
    requires Reached(c0, run, c) && i in c.nodes
    ensures var n, m := c.nodes[i], Leave(c.nodes[i]);
            && i in n.registry
            && m.registry == n.registry[i := Info(n.registry[i].addrs, Left, n.registry[i].incarnation)]
            && Queued(Update(i, NO_ADDRS, Left, n.incarnation), 0) in m.queue
            && m.timers == n.timers && m.events == n.events && m.incarnation == n.incarnation
  {
    var n := c.nodes[i];
    ReachedMemberOk(c0, run, c, i);
    forall e | e in n.queue && e.update.node == i ensures e.update.incarnation <= n.incarnation {
      ReachedClaimOk(c0, run, c, e.update);
    }
    EnqueueAccepts(n.queue, Update(i, NO_ADDRS, Left, n.incarnation));
  }

  // ---------------------------------------------------------------- who sends what

  /** A started member's first ping carries its own announcement and nothing else. */
  lemma NewcomersIntroduceThemselves(i: NodeId, a: Addrs)
    ensures Act(Started(i, a), SendPing(i)).1 == {Ping([Update(i, a, Alive, 0)])}
    ensures Started(i, a).registry.Keys == {i} && Started(i, a).timers == {} && Started(i, a).events == []
  {
    assert Handout(Started(i, a).queue) == [Update(i, a, Alive, 0)];
  }

  /** A ping is answered with one ack, an ack with nothing; verdicts, timers and stops send nothing by themselves. */
  lemma PingsAreAnswered(n: Node, s: Step)
    requires Possible(n, s)
    ensures s.Deliver? && s.msg.Ping? ==> exists us :: Act(n, s).1 == {Ack(us)}
    ensures s.Deliver? && s.msg.JoinRequest? ==> exists us :: Act(n, s).1 == {Ack(us)}
    ensures s.Deliver? && s.msg.Ack? ==> Act(n, s).1 == {}
    ensures s.Deliver? && s.msg.PingReq? ==>
              if s.msg.target in n.registry && !s.blocked then exists us :: Act(n, s).1 == {Ping(us)}
              else Act(n, s) == (n, {})
    ensures s.ProbeTimeout? || s.TimerFires? || s.Stop? ==> Act(n, s).1 == {}
    ensures s.SendPingReq? ==> Act(n, s) == (n, {PingReq(s.target)})
    ensures s.RelayAck? ==> Act(n, s) == (n, {Ack([])})
  {
    if s.Deliver? {
      var k := ApplyAll(n, Carried(s.msg));
      match s.msg
      case Ping(_) => assert Act(n, s).1 == {Ack(Handout(k.queue))};
      case JoinRequest(_) => assert Act(n, s).1 == {Ack(JoinReply(k, s.order))};
      case PingReq(_) => assert k == n && Ping(Handout(k.queue)) == Ping(Handout(k.queue));
      case Ack(_) =>
    }
  }

  // ---------------------------------------------------------------- joining

  /** What a newcomer knows after the first part of a reply that reads the registry of `n` in this order. */
  ghost predicate Knows(m: Node, j: NodeId, n: Node, read: seq<NodeId>) {
    && m.self == j
    && (forall x :: x in m.registry <==> x == j || (x in read && x in n.registry && n.registry[x].status == Alive))
    && forall x :: x in m.registry && x != j && x in n.registry ==> m.registry[x] == n.registry[x]
  }

  lemma LearnsOne(m: Node, j: NodeId, n: Node, read: seq<NodeId>, x: NodeId)
    requires Knows(m, j, n, read) && x in n.registry && x !in read
    ensures var info := n.registry[x];
            Knows(ApplyUpdate(m, Update(x, info.addrs, info.status, info.incarnation)), j, n, read + [x])
  {
    var info := n.registry[x];
    var u := Update(x, info.addrs, info.status, info.incarnation);
    if x == j { OwnNewsTakesEffect(m, u); } else { OtherNewsTakesEffect(m, u); }
  }

  lemma {:induction false} LearnsAll(j: NodeId, a: Addrs, n: Node, order: seq<NodeId>)
    requires Distinct(order) && forall x :: x in order ==> x in n.registry
    ensures Knows(ApplyAll(Started(j, a), JoinReply(n, order)), j, n, order)
  {
    if order == [] {
      assert JoinReply(n, order) == [];
    } else {
      var read, x := order[..|order| - 1], order[|order| - 1];
      LearnsAll(j, a, n, read);
      var us := JoinReply(n, order);
      assert us[..|us| - 1] == JoinReply(n, read);
      LearnsOne(ApplyAll(Started(j, a), JoinReply(n, read)), j, n, read, x);
      assert read + [x] == order;
    }
  }

  /** A newcomer that handles the reply knows exactly the nodes the seed has Alive, with the seed's own records. */
  lemma JoinersLearnLivePeers(j: NodeId, a: Addrs, n: Node, order: seq<NodeId>, x: NodeId)
    requires Enumerates(order, n.registry.Keys) && x != j
    ensures var m := ApplyAll(Started(j, a), JoinReply(n, order));
            && (x in m.registry <==> x in n.registry && n.registry[x].status == Alive)
            && (x in m.registry ==> m.registry[x] == n.registry[x])
  {
    LearnsAll(j, a, n, order);
  }

  /** And in every reachable cluster whoever handles a join request at once has the joiner Alive. */
  lemma JoinRequestIsHeard(c0: Cluster, run: seq<Step>, c: Cluster, i: NodeId, j: NodeId, m: Message)
    requires Reached(c0, run, c) && i in c.nodes && j in c.nodes && i != j
    requires m in Act(c.nodes[j], SendJoin(j)).1
    ensures m.JoinRequest?
    ensures var k := ApplyAll(c.nodes[i], Carried(m));
            j in k.registry && k.registry[j].status == Alive && k.registry[j].addrs == c.nodes[j].addrs
  {
    var n := c.nodes[j];
    ReachedMemberOk(c0, run, c, j);
    var u := Update(j, n.addrs, Alive, n.incarnation);
    assert m == JoinRequest([u]) && [u][..0] == [];
    assert ApplyAll(c.nodes[i], [u]) == ApplyUpdate(c.nodes[i], u);
    CurrentAliveWins(c0, run, c, i, j);
    IncarnationAuthority(c0, run, c);
  }
}
