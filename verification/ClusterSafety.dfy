/** What the gossip protocol guarantees over whole runs of a cluster of any size. */
module ClusterSafety {
  import opened Common
  import opened Gossip
  import opened GossipQueue
  import opened Cluster

  /** `c` is reached from a freshly started cluster. */
  ghost predicate Reached(c0: Cluster, run: seq<Step>, c: Cluster) {
    Init(c0) && CanRun(c0, run) && After(c0, run) == c
  }

  /** The update is queued somewhere or travelling in some message. */
  ghost predicate Circulates(c: Cluster, u: Update) {
    || (exists i, e :: i in c.nodes && e in c.nodes[i].queue && e.update == u)
    || (exists m :: m in c.net && u in Carried(m))
  }

  lemma ReachedIsInv(c0: Cluster, run: seq<Step>, c: Cluster)
    requires Reached(c0, run, c)
    ensures Inv(c)
  {
    InitIsInv(c0);
    RunKeepsInv(c0, run);
  }

  lemma MemberIsOk(t: map<NodeId, Truth>, nodes: map<NodeId, Node>, i: NodeId)
    requires NodesOk(t, nodes) && i in nodes
    ensures nodes[i].self == i && TimersOk(nodes[i]) && QueueOk(nodes[i].queue)
  {
  }

  lemma CirculatingClaimOk(t: map<NodeId, Truth>, c: Cluster, u: Update)
    requires NodesOk(t, c.nodes) && MessagesOk(t, c.net) && Circulates(c, u)
    ensures ClaimOk(t, u)
  {
    if i, e :| i in c.nodes && e in c.nodes[i].queue && e.update == u {
      assert NodeOk(t, c.nodes[i]);
    } else {
      var m :| m in c.net && u in Carried(m);
      assert ClaimsOk(t, Carried(m));
    }
  }

  lemma ReachedClaimOk(c0: Cluster, run: seq<Step>, c: Cluster, u: Update)
    requires Reached(c0, run, c) && Circulates(c, u)
    ensures u.node in c.nodes && u.incarnation <= c.nodes[u.node].incarnation
    ensures u.status == Alive ==> u.addrs == c.nodes[u.node].addrs
  {
    ReachedIsInv(c0, run, c);
    CirculatingClaimOk(TruthOf(c), c, u);
  }

  lemma ReachedMemberOk(c0: Cluster, run: seq<Step>, c: Cluster, i: NodeId)
    requires Reached(c0, run, c) && i in c.nodes
    ensures c.nodes[i].self == i && TimersOk(c.nodes[i]) && QueueOk(c.nodes[i].queue)
  {
    ReachedIsInv(c0, run, c);
    MemberIsOk(TruthOf(c), c.nodes, i);
  }

  // ---------------------------------------------------------------- incarnation authority

  /** No registry, queue or message is ever ahead of the node it talks about; Alive claims carry its addresses. */
  lemma IncarnationAuthority(c0: Cluster, run: seq<Step>, c: Cluster)
    requires Reached(c0, run, c)
    ensures forall i, x :: i in c.nodes && x in c.nodes[i].registry ==>
      x in c.nodes && c.nodes[i].registry[x].incarnation <= c.nodes[x].incarnation
      && c.nodes[i].registry[x].addrs == c.nodes[x].addrs
    ensures forall u :: Circulates(c, u) ==>
      u.node in c.nodes && u.incarnation <= c.nodes[u.node].incarnation
      && (u.status == Alive ==> u.addrs == c.nodes[u.node].addrs)
  {
    ReachedIsInv(c0, run, c);
    forall i, x | i in c.nodes && x in c.nodes[i].registry
      ensures x in c.nodes && c.nodes[i].registry[x].incarnation <= c.nodes[x].incarnation
              && c.nodes[i].registry[x].addrs == c.nodes[x].addrs
    {
      assert NodeOk(TruthOf(c), c.nodes[i]);
    }
    forall u | Circulates(c, u)
      ensures u.node in c.nodes && u.incarnation <= c.nodes[u.node].incarnation
              && (u.status == Alive ==> u.addrs == c.nodes[u.node].addrs)
    {
      ReachedClaimOk(c0, run, c, u);
    }
  }

  /** A counter never passes the number of updates delivered so far. */
  lemma CountersStaySmall(c0: Cluster, run: seq<Step>, c: Cluster, i: NodeId)
    requires Reached(c0, run, c) && i in c.nodes
    ensures c.nodes[i].incarnation <= TotalWeight(run)
  {
    InitIsInv(c0);
    RunKeepsInv(c0, run);
    assert TruthOf(c).Keys == TruthOf(c0).Keys;
    assert c0.nodes[i].incarnation == 0;
    assert TruthOf(c)[i].incarnation == c.nodes[i].incarnation;
  }

  /** So a refutation raises the counter by one when the report is current, and not at all otherwise. */
  lemma RefutationRaisesByAtMostOne(c0: Cluster, run: seq<Step>, c: Cluster, u: Update)
    requires Reached(c0, run, c) && Circulates(c, u)
    ensures u.node in c.nodes
    ensures var n := c.nodes[u.node];
            Refute(n, u).incarnation == n.incarnation + if u.incarnation == n.incarnation then 1 else 0
  {
    ReachedClaimOk(c0, run, c, u);
  }

  // ---------------------------------------------------------------- refutation

  /** Right after refuting, the node's queue announces it Alive with an incarnation above the report's. */
  lemma RefutationIsAnnounced(c0: Cluster, run: seq<Step>, c: Cluster, u: Update)
    requires Reached(c0, run, c) && Circulates(c, u) && u.status in {Suspect, Dead}
    ensures u.node in c.nodes
    ensures var n := c.nodes[u.node];
            var n' := ApplyUpdate(n, u);
            n'.incarnation > u.incarnation
            && Queued(Update(u.node, n.addrs, Alive, n'.incarnation), 0) in n'.queue
  {
    ReachedClaimOk(c0, run, c, u);
    ReachedMemberOk(c0, run, c, u.node);
    var n := c.nodes[u.node];
    var alive := Update(n.self, n.addrs, Alive, Refute(n, u).incarnation);
    forall e | e in n.queue && e.update.node == n.self ensures e.update.incarnation <= alive.incarnation {
      ReachedClaimOk(c0, run, c, e.update);
    }
    EnqueueAccepts(n.queue, alive);
  }

  lemma CurrentAliveAtPeer(t: map<NodeId, Truth>, n: Node, x: NodeId)
    requires NodeOk(t, n) && x in t && x != n.self
    ensures var n' := ApplyUpdate(n, Update(x, t[x].addrs, Alive, t[x].incarnation));
            x in n'.registry && n'.registry[x].status == Alive && x !in n'.timers
  {
  }

  /** An Alive update at its subject's counter is never stale: whoever applies it has the subject Alive and untimed. */
  lemma CurrentAliveWins(c0: Cluster, run: seq<Step>, c: Cluster, i: NodeId, x: NodeId)
    requires Reached(c0, run, c) && i in c.nodes && x in c.nodes && i != x
    ensures var r := Update(x, c.nodes[x].addrs, Alive, c.nodes[x].incarnation);
            var n' := ApplyUpdate(c.nodes[i], r);
            x in n'.registry && n'.registry[x].status == Alive && x !in n'.timers
  {
    ReachedIsInv(c0, run, c);
    CurrentAliveAtPeer(TruthOf(c), c.nodes[i], x);
  }

  /** The member has the claim's subject Alive at an incarnation no newer than the claim. */
  ghost predicate AliveNoNewer(n: Node, claim: Update) {
    && claim.node in n.registry
    && n.registry[claim.node].status == Alive
    && n.registry[claim.node].incarnation <= claim.incarnation
  }

  /**
   * After a peer has applied the refutation `r`, a copy of the refuted claim still changes it exactly when
   * the peer already had the subject Alive at an incarnation no newer than the claim: the Alive branch then
   * keeps the old incarnation.
   */
  lemma RefutedClaimBitesAgainIff(n: Node, r: Update, claim: Update)
    requires r.node == claim.node != n.self && r.status == Alive && claim.status in {Suspect, Dead}
    requires claim.incarnation < r.incarnation
    ensures ApplyUpdate(ApplyUpdate(n, r), claim) != ApplyUpdate(n, r) <==> AliveNoNewer(n, claim)
  {
    if AliveNoNewer(n, claim) {
      assert ApplyUpdate(n, r) == n;
      assert |ApplyUpdate(n, claim).events| == |n.events| + 1;
    }
  }

  /** Nothing ever makes a member forget a peer or go back to an older incarnation of it. */
  ghost predicate Remembers(n: Node, n': Node) {
    n'.self == n.self
    && forall x :: x in n.registry ==> x in n'.registry && n.registry[x].incarnation <= n'.registry[x].incarnation
  }

  lemma ApplyRemembers(n: Node, m: Node, u: Update)
    requires Remembers(n, m)
    ensures Remembers(n, ApplyUpdate(m, u))
  {
  }

  lemma {:induction false} ApplyAllRemembers(n: Node, us: seq<Update>)
    ensures Remembers(n, ApplyAll(n, us))
  {
    if us != [] {
      ApplyAllRemembers(n, us[..|us| - 1]);
      ApplyRemembers(n, ApplyAll(n, us[..|us| - 1]), us[|us| - 1]);
    }
  }

  lemma ActRemembers(n: Node, s: Step)
    requires Possible(n, s)
    ensures Remembers(n, Act(n, s).0)
  {
    if s.Deliver? { ApplyAllRemembers(n, Carried(s.msg)); }
  }

  lemma {:induction false} RunRemembers(c: Cluster, run: seq<Step>, i: NodeId)
    requires CanRun(c, run) && i in c.nodes
    ensures i in After(c, run).nodes && Remembers(c.nodes[i], After(c, run).nodes[i])
  {
    if run != [] {
      var front, s := run[..|run| - 1], run[|run| - 1];
      RunRemembers(c, front, i);
      var d := After(c, front);
      if s.at == i { ActRemembers(d.nodes[i], s); }
    }
  }

  /** A claim older than what a peer has recorded is ignored by that peer in every future of the cluster. */
  lemma StaleClaimStaysStale(c: Cluster, run: seq<Step>, i: NodeId, claim: Update)
    requires CanRun(c, run) && i in c.nodes && claim.node != c.nodes[i].self
    requires claim.node in c.nodes[i].registry && claim.incarnation < c.nodes[i].registry[claim.node].incarnation
    ensures i in After(c, run).nodes
    ensures ApplyUpdate(After(c, run).nodes[i], claim) == After(c, run).nodes[i]
  {
    RunRemembers(c, run, i);
  }

  lemma {:induction false} PrefixRemembers(n: Node, us: seq<Update>, j: nat)
    requires j <= |us|
    ensures Remembers(ApplyAll(n, us[..j]), ApplyAll(n, us))
  {
    if j == |us| {
      assert us[..j] == us;
    } else {
      assert us[..|us| - 1][..j] == us[..j];
      PrefixRemembers(n, us[..|us| - 1], j);
      ApplyRemembers(ApplyAll(n, us[..j]), ApplyAll(n, us[..|us| - 1]), us[|us| - 1]);
    }
  }

  lemma RefutationRecorded(n: Node, us: seq<Update>, j: nat, claim: Update)
    requires j < |us| && us[j].node == claim.node != ApplyAll(n, us[..j]).self && us[j].status == Alive
    requires claim.incarnation < us[j].incarnation && !AliveNoNewer(ApplyAll(n, us[..j]), claim)
    ensures claim.node in ApplyAll(n, us).registry
    ensures claim.incarnation < ApplyAll(n, us).registry[claim.node].incarnation
  {
    assert us[..j + 1][..j] == us[..j];
    assert ApplyAll(n, us[..j + 1]) == ApplyUpdate(ApplyAll(n, us[..j]), us[j]);
    PrefixRemembers(n, us, j + 1);
  }

  /**
   * Refutation wins: a delivered message carries the refutation at any position `j`. Unless the peer has the
   * subject Alive and no newer than the claim just before it, no copy of the refuted claim ever changes the peer
   * again, whatever else the message carries and in every future of the cluster.
   */
  lemma RefutationIsFinal(c: Cluster, s: Step, j: nat, run: seq<Step>, claim: Update)
    requires s.Deliver? && Enabled(c, s) && CanRun(Next(c, s), run)
    requires var us, n := Carried(s.msg), c.nodes[s.at];
             && j < |us| && us[j].node == claim.node != n.self && us[j].status == Alive
             && claim.incarnation < us[j].incarnation
             && !AliveNoNewer(ApplyAll(n, us[..j]), claim)
    ensures s.at in After(Next(c, s), run).nodes
    ensures ApplyUpdate(After(Next(c, s), run).nodes[s.at], claim) == After(Next(c, s), run).nodes[s.at]
  {
    var us, n := Carried(s.msg), c.nodes[s.at];
    ApplyAllRemembers(n, us[..j]);
    ApplyAllRemembers(n, us);
    RefutationRecorded(n, us, j, claim);
    StaleClaimStaysStale(Next(c, s), run, s.at, claim);
  }

  // ---------------------------------------------------------------- what a member passes on

  /** Nothing queued about a peer is newer than what the member has recorded about it. */
  ghost predicate QueueBehind(n: Node) {
    forall e :: e in n.queue && e.update.node != n.self ==>
      e.update.node in n.registry && e.update.incarnation <= n.registry[e.update.node].incarnation
  }

  lemma AdoptBehind(n: Node, u: Update)
    requires QueueBehind(n) && u.node in n.registry && n.registry[u.node].incarnation <= u.incarnation
    ensures QueueBehind(Adopt(n, u))
  {
  }

  lemma ApplyBehind(n: Node, u: Update)
    requires QueueBehind(n)
    ensures QueueBehind(ApplyUpdate(n, u))
  {
    if u.node == n.self {
      EnqueueContents(n.queue, Update(n.self, n.addrs, Alive, Refute(n, u).incarnation));
    } else if u.node !in n.registry {
      EnqueueContents(n.queue, u);
    } else if u.incarnation >= n.registry[u.node].incarnation {
      AdoptBehind(n, u);
    }
  }

  lemma {:induction false} ApplyAllBehind(n: Node, us: seq<Update>)
    requires QueueBehind(n)
    ensures QueueBehind(ApplyAll(n, us))
  {
    if us != [] {
      ApplyAllBehind(n, us[..|us| - 1]);
      ApplyBehind(ApplyAll(n, us[..|us| - 1]), us[|us| - 1]);
    }
  }

  lemma DrainBehind(n: Node)
    requires QueueBehind(n)
    ensures QueueBehind(Drain(n))
  {
    var b := Counted(n.queue);
    ActiveContents(b);
    forall e | e in Drained(n.queue) ensures exists f :: f in n.queue && f.update == e.update {
      var i :| 0 <= i < |b| && b[i] == e;
      assert n.queue[i] in n.queue;
    }
  }

  lemma MarkBehind(n: Node, x: NodeId)
    requires QueueBehind(n)
    ensures QueueBehind(MarkSuspect(n, x)) && QueueBehind(MarkDead(n, x))
  {
    if x in n.registry {
      EnqueueContents(n.queue, Update(x, NO_ADDRS, Suspect, n.registry[x].incarnation));
      EnqueueContents(n.queue, Update(x, NO_ADDRS, Dead, n.registry[x].incarnation));
    }
  }

  lemma LeaveBehind(n: Node)
    requires QueueBehind(n)
    ensures QueueBehind(Leave(n))
  {
    EnqueueContents(n.queue, Update(n.self, NO_ADDRS, Left, n.incarnation));
  }

  lemma ActBehind(n: Node, s: Step)
    requires QueueBehind(n) && Possible(n, s)
    ensures QueueBehind(Act(n, s).0)
  {
    match s
    case Deliver(_, m, _, _) =>
      ApplyAllBehind(n, Carried(m));
      DrainBehind(ApplyAll(n, Carried(m)));
    case SendPing(_) => DrainBehind(n);
    case ProbeTimeout(_, t) => MarkBehind(n, t);
    case TimerFires(_, t) => MarkBehind(n, t);
    case Stop(_) => LeaveBehind(n);
    case _ =>
  }

  lemma {:induction false} RunBehind(c: Cluster, run: seq<Step>, i: NodeId)
    requires Init(c) && CanRun(c, run) && i in After(c, run).nodes
    ensures QueueBehind(After(c, run).nodes[i])
  {
    if run == [] {
      assert c.nodes[i] == Started(i, c.nodes[i].addrs);
    } else {
      var front, s := run[..|run| - 1], run[|run| - 1];
      RunBehind(c, front, i);
      if s.at == i { ActBehind(After(c, front).nodes[i], s); }
    }
  }

  /** Every verdict a member reaches itself is queued for gossip as a fresh update. */
  lemma VerdictsAreAnnounced(c0: Cluster, run: seq<Step>, c: Cluster, i: NodeId, x: NodeId)
    requires Reached(c0, run, c) && i in c.nodes && x in c.nodes[i].registry && x != i
    ensures var n := c.nodes[i];
            var info := n.registry[x];
            && (info.status == Alive ==>
                  Queued(Update(x, NO_ADDRS, Suspect, info.incarnation), 0) in MarkSuspect(n, x).queue)
            && (info.status != Dead ==>
                  Queued(Update(x, NO_ADDRS, Dead, info.incarnation), 0) in MarkDead(n, x).queue)
  {
    ReachedMemberOk(c0, run, c, i);
    RunBehind(c0, run, i);
    var n := c.nodes[i];
    EnqueueAccepts(n.queue, Update(x, NO_ADDRS, Suspect, n.registry[x].incarnation));
    EnqueueAccepts(n.queue, Update(x, NO_ADDRS, Dead, n.registry[x].incarnation));
  }

  /** A node heard of for the first time is recorded and passed on. */
  lemma DiscoveriesAreRelayed(c0: Cluster, run: seq<Step>, c: Cluster, i: NodeId, u: Update)
    requires Reached(c0, run, c) && i in c.nodes && u.node != i
    requires u.node !in c.nodes[i].registry && u.status == Alive
    ensures var n' := ApplyUpdate(c.nodes[i], u);
            Queued(u, 0) in n'.queue && u.node in n'.registry
            && n'.registry[u.node] == Info(u.addrs, Alive, u.incarnation)
  {
    ReachedMemberOk(c0, run, c, i);
    RunBehind(c0, run, i);
    EnqueueAccepts(c.nodes[i].queue, u);
  }

  // ---------------------------------------------------------------- suspicion timers

  /** A firing timer always finds its peer Suspect or Left, so no Alive peer is declared Dead by a timer. */
  lemma TimersOnlyKillSuspects(c0: Cluster, run: seq<Step>, c: Cluster, i: NodeId)
    requires Reached(c0, run, c) && i in c.nodes
    ensures forall x :: x in c.nodes[i].timers ==>
      x in c.nodes[i].registry && c.nodes[i].registry[x].status in {Suspect, Left}
    ensures forall x :: x in c.nodes[i].registry && c.nodes[i].registry[x].status == Suspect ==> x in c.nodes[i].timers
  {
    ReachedMemberOk(c0, run, c, i);
  }

  // ---------------------------------------------------------------- accuracy

  /** Nothing this member holds says that `x` has one of the statuses `bad`. */
  ghost predicate Silent(n: Node, x: NodeId, bad: set<Status>) {
    && (x in n.registry ==> n.registry[x].status !in bad)
    && (Suspect in bad ==> x !in n.timers)
    && forall e :: e in n.queue ==> Spares(e.update, x, bad)
  }

  ghost predicate Spares(u: Update, x: NodeId, bad: set<Status>) {
    u.node == x ==> u.status !in bad
  }

  ghost predicate AllSpare(us: seq<Update>, x: NodeId, bad: set<Status>) {
    forall u :: u in us ==> Spares(u, x, bad)
  }

  ghost predicate MessagesSpare(ms: set<Message>, x: NodeId, bad: set<Status>) {
    forall m :: m in ms ==> AllSpare(Carried(m), x, bad)
  }

  ghost predicate ClusterSilent(c: Cluster, x: NodeId, bad: set<Status>) {
    && (forall i {:trigger c.nodes[i]} :: i in c.nodes ==> Silent(c.nodes[i], x, bad))
    && MessagesSpare(c.net, x, bad)
  }

  /** Suspicion and death can only be started by a failed probe, departure only by the node itself. */
  ghost predicate Origin(s: Step, x: NodeId, bad: set<Status>) {
    || (s.ProbeTimeout? && s.target == x && Suspect in bad)
    || (s.Stop? && s.at == x && Left in bad)
  }

  ghost predicate Tracked(bad: set<Status>) {
    Alive !in bad && (Suspect in bad <==> Dead in bad)
  }

  lemma EnqueueSilent(q: seq<Queued>, u: Update, x: NodeId, bad: set<Status>)
    requires (forall e :: e in q ==> Spares(e.update, x, bad)) && Spares(u, x, bad)
    ensures forall e :: e in Enqueue(q, u) ==> Spares(e.update, x, bad)
  {
    EnqueueContents(q, u);
  }

  lemma AdoptSilent(n: Node, u: Update, x: NodeId, bad: set<Status>)
    requires Tracked(bad) && Silent(n, x, bad) && Spares(u, x, bad) && u.node in n.registry
    ensures Silent(Adopt(n, u), x, bad)
  {
  }

  lemma ApplySilent(n: Node, u: Update, x: NodeId, bad: set<Status>)
    requires Tracked(bad) && Silent(n, x, bad) && Spares(u, x, bad)
    ensures Silent(ApplyUpdate(n, u), x, bad)
  {
    if u.node == n.self {
      EnqueueSilent(n.queue, Update(n.self, n.addrs, Alive, Refute(n, u).incarnation), x, bad);
    } else if u.node !in n.registry {
      EnqueueSilent(n.queue, u, x, bad);
    } else {
      AdoptSilent(n, u, x, bad);
    }
  }

  lemma {:induction false} ApplyAllSilent(n: Node, us: seq<Update>, x: NodeId, bad: set<Status>)
    requires Tracked(bad) && Silent(n, x, bad) && AllSpare(us, x, bad)
    ensures Silent(ApplyAll(n, us), x, bad)
  {
    if us != [] {
      var front := us[..|us| - 1];
      assert AllSpare(front, x, bad) by { assert forall v :: v in front ==> v in us; }
      assert us[|us| - 1] in us;
      ApplyAllSilent(n, front, x, bad);
      ApplySilent(ApplyAll(n, front), us[|us| - 1], x, bad);
    }
  }

  lemma DrainSilent(n: Node, x: NodeId, bad: set<Status>)
    requires Silent(n, x, bad)
    ensures Silent(Drain(n), x, bad) && AllSpare(Handout(n.queue), x, bad)
  {
    var q := n.queue;
    var b, h := Counted(q), Handout(q);
    ActiveContents(b);
    forall e | e in Drained(q) ensures Spares(e.update, x, bad) {
      var i :| 0 <= i < |b| && b[i] == e;
      assert q[i] in q;
    }
    forall u | u in h ensures Spares(u, x, bad) {
      var i :| 0 <= i < |h| && h[i] == u;
      assert q[i] in q;
    }
  }

  lemma JoinReplySpares(n: Node, order: seq<NodeId>, x: NodeId, bad: set<Status>)
    requires Silent(n, x, bad) && forall y :: y in order ==> y in n.registry
    ensures AllSpare(JoinReply(n, order), x, bad)
  {
    forall u | u in JoinReply(n, order) ensures Spares(u, x, bad) {
      var i :| 0 <= i < |order| && JoinReply(n, order)[i] == u;
      assert order[i] in order;
    }
  }

  lemma MarkSilent(n: Node, t: NodeId, x: NodeId, bad: set<Status>)
    requires Tracked(bad) && Silent(n, x, bad)
    ensures !(t == x && Suspect in bad) ==> Silent(MarkSuspect(n, t), x, bad)
    ensures !(t == x && Suspect in bad) ==> Silent(MarkDead(n, t), x, bad)
  {
    if t in n.registry && !(t == x && Suspect in bad) {
      EnqueueSilent(n.queue, Update(t, NO_ADDRS, Suspect, n.registry[t].incarnation), x, bad);
      EnqueueSilent(n.queue, Update(t, NO_ADDRS, Dead, n.registry[t].incarnation), x, bad);
    }
  }

  lemma LeaveSilent(n: Node, x: NodeId, bad: set<Status>)
    requires Silent(n, x, bad) && !(n.self == x && Left in bad)
    ensures Silent(Leave(n), x, bad)
  {
    EnqueueSilent(n.queue, Update(n.self, NO_ADDRS, Left, n.incarnation), x, bad);
  }

  lemma ReceiveSilent(n: Node, m: Message, order: seq<NodeId>, blocked: bool, x: NodeId, bad: set<Status>)
    requires Tracked(bad) && Silent(n, x, bad) && AllSpare(Carried(m), x, bad)
    requires Enumerates(order, ApplyAll(n, Carried(m)).registry.Keys)
    ensures var (n', out) := Receive(n, m, order, blocked);
            Silent(n', x, bad) && MessagesSpare(out, x, bad)
  {
    ApplyAllSilent(n, Carried(m), x, bad);
    var k := ApplyAll(n, Carried(m));
    DrainSilent(k, x, bad);
    if m.JoinRequest? { JoinReplySpares(k, order, x, bad); }
  }

  lemma ActSilent(n: Node, s: Step, x: NodeId, bad: set<Status>)
    requires Tracked(bad) && Silent(n, x, bad) && Possible(n, s) && s.at == n.self && !Origin(s, x, bad)
    requires s.Deliver? ==> AllSpare(Carried(s.msg), x, bad)
    ensures var (n', out) := Act(n, s);
            Silent(n', x, bad) && MessagesSpare(out, x, bad)
  {
    match s
    case Deliver(_, m, order, blocked) => ReceiveSilent(n, m, order, blocked, x, bad);
    case SendPing(_) => DrainSilent(n, x, bad);
    case SendPingReq(_, _) =>
    case RelayAck(_) =>
    case SendJoin(_) =>
    case ProbeTimeout(_, t) => MarkSilent(n, t, x, bad);
    case TimerFires(_, t) => MarkSilent(n, t, x, bad);
    case Stop(_) => LeaveSilent(n, x, bad);
  }

  lemma StepSilent(c: Cluster, s: Step, x: NodeId, bad: set<Status>)
    requires Tracked(bad) && ClusterSilent(c, x, bad) && Enabled(c, s) && c.nodes[s.at].self == s.at
    requires !Origin(s, x, bad)
    ensures ClusterSilent(Next(c, s), x, bad)
  {
    ActSilent(c.nodes[s.at], s, x, bad);
  }

  lemma InitSilent(c: Cluster, x: NodeId, bad: set<Status>)
    requires Init(c) && Tracked(bad)
    ensures ClusterSilent(c, x, bad)
  {
    forall i | i in c.nodes ensures Silent(c.nodes[i], x, bad) {
      assert c.nodes[i] == Started(i, c.nodes[i].addrs);
    }
  }

  lemma {:induction false} RunSilent(c: Cluster, run: seq<Step>, x: NodeId, bad: set<Status>)
    requires Init(c) && CanRun(c, run) && Tracked(bad)
    requires forall s :: s in run ==> !Origin(s, x, bad)
    ensures ClusterSilent(After(c, run), x, bad)
  {
    if run == [] {
      InitSilent(c, x, bad);
    } else {
      var front, s := run[..|run| - 1], run[|run| - 1];
      assert s in run && forall r :: r in front ==> r in run;
      RunSilent(c, front, x, bad);
      ReachedIsInv(c, front, After(c, front));
      StepSilent(After(c, front), s, x, bad);
    }
  }

  /** Accuracy: if no probe of `x` ever fails, no registry, timer, queue or message ever calls `x` Suspect or Dead. */
  lemma NoFalseSuspicion(c0: Cluster, run: seq<Step>, c: Cluster, x: NodeId)
    requires Reached(c0, run, c)
    requires forall s :: s in run && s.ProbeTimeout? ==> s.target != x
    ensures ClusterSilent(c, x, {Suspect, Dead})
  {
    RunSilent(c0, run, x, {Suspect, Dead});
  }

  /** Departures are authentic: `x` is called Left only after `x` itself stopped. */
  lemma NoFalseDeparture(c0: Cluster, run: seq<Step>, c: Cluster, x: NodeId)
    requires Reached(c0, run, c)
    requires forall s :: s in run && s.Stop? ==> s.at != x
    ensures ClusterSilent(c, x, {Left})
  {
    RunSilent(c0, run, x, {Left});
  }
}
