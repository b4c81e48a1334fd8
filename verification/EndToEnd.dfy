/** From gossip and replication to restored copies: each survivor acts on the ring its own membership events built. */
module EndToEnd {
  import opened Common
  import opened Replication
  import Gossip
  import Cluster
  import ClusterSafety
  import RingView
  import HashRing
  import Failover

  // ---------------------------------------------------------------- the survivors' rings

  /**
   * A survivor's part in a failover: the length of the run when it reacts, the membership events its callbacks have
   * handled by then, the rings they went through, and its clock.
   */
  datatype View = View(moment: nat, handled: seq<Gossip.Event>, rings: seq<HashRing.State>, clock: int)

  /** The state of member `i` at the view's moment. */
  ghost predicate IsAt(c0: Cluster.Cluster, run: seq<Cluster.Step>, v: View, i: NodeId, n: Gossip.Node) {
    && v.moment <= |run| && Cluster.Init(c0) && i in c0.nodes && Cluster.CanRun(c0, run[..v.moment])
    && i in Cluster.After(c0, run[..v.moment]).nodes && n == Cluster.After(c0, run[..v.moment]).nodes[i]
  }

  /**
   * Member `i` has just handled the event that removes `dead`. Its callbacks kept each peer's own events in order,
   * and the members it calls usable at that moment are `members`.
   */
  ghost predicate Reacts(c0: Cluster.Cluster, run: seq<Cluster.Step>, cfg: HashRing.Config, i: NodeId, v: View,
                         dead: NodeId, members: set<NodeId>)
  {
    exists n :: IsAt(c0, run, v, i, n)
      && (forall x :: RingView.About(v.handled, x) == RingView.About(n.events, x))
      && RingView.RingRun(cfg, i, v.handled, v.rings)
      && v.handled != [] && v.handled[|v.handled| - 1].node == dead
      && RingView.Verdict(v.handled[|v.handled| - 1]) == Some(false)
      && forall x :: RingView.Usable(n, x) <==> x in members
  }

  /** The placement a member computes with the ring it has when it reacts. */
  function Local(pl: Placement, v: View): Placement {
    if v.rings == [] then pl else pl.(ring := v.rings[|v.rings| - 1])
  }

  /** The member's own ring is, counters aside, the ring of `pl`. */
  ghost predicate Shares(pl: Placement, v: View) {
    Local(pl, v).ring.vnodes == pl.ring.vnodes && Local(pl, v).ring.nodes == pl.ring.nodes
  }

  /** A reacting member's ring is that of every tie-free placement with the members it calls usable. */
  lemma ReactingRing(c0: Cluster.Cluster, run: seq<Cluster.Step>, i: NodeId, v: View, dead: NodeId, pl: Placement)
    requires Reacts(c0, run, pl.config, i, v, dead, pl.ring.nodes)
    requires ValidPlacement(pl) && HashRing.NoTies(pl.ring.vnodes)
    ensures Shares(pl, v)
  {
    var n :| IsAt(c0, run, v, i, n) && (forall x :: RingView.About(v.handled, x) == RingView.About(n.events, x))
             && forall x :: RingView.Usable(n, x) <==> x in pl.ring.nodes;
    RingView.RunMirrors(c0, run[..v.moment], i);
    RingView.RingRunMembers(pl.config, i, v.handled, v.rings);
    RingView.PerPeerOrderSuffices(i, n.events, v.handled);
    ClusterSafety.ReachedMemberOk(c0, run[..v.moment], Cluster.After(c0, run[..v.moment]), i);
    var mine := v.rings[|v.rings| - 1];
    assert mine.nodes == pl.ring.nodes;
    HashRing.SameMembersSameOwners(pl.config, pl.ring, mine, "", 0);
  }

  /** Owners, and so what a member re-sends, depend only on the ring's virtual nodes and members. */
  lemma SameOutbox(pl: Placement, q: Placement, stores: Failover.Stores, p: NodeId, peers: set<NodeId>, now: int)
    requires q == pl.(ring := q.ring) && q.ring.vnodes == pl.ring.vnodes && q.ring.nodes == pl.ring.nodes
    ensures Failover.Outbox(pl, stores, p, peers, now) == Failover.Outbox(q, stores, p, peers, now)
  {
    assert forall k, n :: HashRing.GetNodes(pl.config, pl.ring, k, n) == HashRing.GetNodes(q.config, q.ring, k, n);
  }

  /** Every survivor re-sends by its own ring and clock; those messages are delivered, each at least once. */
  ghost predicate LocallyDelivered(pl: Placement, views: NodeId -> View, stores: Failover.Stores,
                                   ds: seq<Failover.Delivery>) {
    && (forall d :: d in ds ==> exists p :: p in pl.ring.nodes && LocallySent(pl, views(p), stores, p, d))
    && (forall p, m :: p in pl.ring.nodes
          && m in Failover.Outbox(Local(pl, views(p)), stores, p, pl.ring.nodes, views(p).clock)
          ==> exists d :: d in ds && d.msg == m)
  }

  ghost predicate LocallySent(pl: Placement, v: View, stores: Failover.Stores, p: NodeId, d: Failover.Delivery) {
    d.msg in Failover.Outbox(Local(pl, v), stores, p, pl.ring.nodes, v.clock) && d.at >= v.clock
  }

  lemma LocalIsShared(q: Placement, views: NodeId -> View, stores: Failover.Stores, ds: seq<Failover.Delivery>)
    requires forall p :: p in q.ring.nodes ==> Shares(q, views(p))
    requires LocallyDelivered(q, views, stores, ds)
    ensures Failover.AllDelivered(q, stores, ds, p => views(p).clock)
  {
    var when := (p: NodeId) => views(p).clock;
    forall p | p in q.ring.nodes
      ensures Failover.Outbox(q, stores, p, q.ring.nodes, when(p))
              == Failover.Outbox(Local(q, views(p)), stores, p, q.ring.nodes, views(p).clock)
    {
      SameOutbox(q, Local(q, views(p)), stores, p, q.ring.nodes, when(p));
    }
    forall d | d in ds ensures exists p :: p in q.ring.nodes && Failover.SentBy(q, stores, when, p, d) {
      var p :| p in q.ring.nodes && LocallySent(q, views(p), stores, p, d);
      assert Failover.SentBy(q, stores, when, p, d);
    }
  }

  lemma SharedFailover(pl: Placement, dead: NodeId, views: NodeId -> View, stores: Failover.Stores,
                       contents: map<Key, Value>, until: int, ds: seq<Failover.Delivery>)
    requires ValidPlacement(pl) && pl.replicaCount >= 2 && dead in pl.ring.nodes
    requires forall p :: p in Failover.After(pl, dead).ring.nodes ==>
               Shares(Failover.After(pl, dead), views(p)) && views(p).clock <= until
    requires Failover.FullyReplicated(pl, stores, contents, until)
    requires LocallyDelivered(Failover.After(pl, dead), views, stores, ds)
    ensures forall k :: |Owners(Failover.After(pl, dead), k)| == Min(pl.replicaCount, |pl.ring.nodes| - 1)
    ensures Failover.FullyReplicated(Failover.After(pl, dead), Failover.DeliverAll(stores, ds), contents,
                                     until - Failover.NANOS_PER_MS)
  {
    LocalIsShared(Failover.After(pl, dead), views, stores, ds);
    Failover.FailoverRestoresReplication(pl, dead, stores, contents, until, p => views(p).clock, ds);
  }

  /**
   * Gossip, ring and failover together. In any run of the cluster each survivor, at its own moment, removes `dead`
   * from its ring and re-sends by the ring it has then. If at those moments they call the same survivors usable,
   * every key is restored on all its new owners, unexpired up to a millisecond less than before.
   */
  lemma GossipDrivenFailover(c0: Cluster.Cluster, run: seq<Cluster.Step>, pl: Placement, dead: NodeId,
                             views: NodeId -> View, stores: Failover.Stores, contents: map<Key, Value>, until: int,
                             ds: seq<Failover.Delivery>)
    requires ValidPlacement(pl) && pl.replicaCount >= 2 && dead in pl.ring.nodes
    requires HashRing.NoTies(Failover.After(pl, dead).ring.vnodes)
    requires forall p :: p in pl.ring.nodes - {dead} ==>
               Reacts(c0, run, pl.config, p, views(p), dead, pl.ring.nodes - {dead}) && views(p).clock <= until
    requires Failover.FullyReplicated(pl, stores, contents, until)
    requires LocallyDelivered(Failover.After(pl, dead), views, stores, ds)
    ensures forall p :: p in pl.ring.nodes - {dead} ==> Shares(Failover.After(pl, dead), views(p))
    ensures forall k :: |Owners(Failover.After(pl, dead), k)| == Min(pl.replicaCount, |pl.ring.nodes| - 1)
    ensures Failover.FullyReplicated(Failover.After(pl, dead), Failover.DeliverAll(stores, ds), contents,
                                     until - Failover.NANOS_PER_MS)
  {
    Failover.AfterIsValid(pl, dead);
    forall p | p in pl.ring.nodes - {dead} ensures Shares(Failover.After(pl, dead), views(p)) {
      ReactingRing(c0, run, p, views(p), dead, Failover.After(pl, dead));
    }
    SharedFailover(pl, dead, views, stores, contents, until, ds);
  }

  // ---------------------------------------------------------------- where full replication comes from

  /** The stores hold what the replication model says, with a deadline on everything that does not last. */
  ghost predicate Stands(stores: Failover.Stores, s: System) {
    forall n, k :: Look(Store(s, n), k) ==
      if n in stores && k in stores[n] then Some(Copy(stores[n][k].value, stores[n][k].expiresAt.None?)) else None
  }

  /** The primary `p` announced its writes of `k` one by one, and owner `t` has handled all of them, in sequence. */
  ghost predicate CaughtUp(states: seq<System>, p: NodeId, t: NodeId, k: Key) {
    && Announced(states, p, k)
    && var l := LinkOf(states[|states| - 1], p, t); Emptied(l, k) && InOrder(l.handled, k)
  }

  lemma CaughtUpOwnerHas(pl: Placement, run: seq<Step>, states: seq<System>, n: NodeId, k: Key, copy: Option<Copy>)
    requires ValidPlacement(pl) && IsRun(RingRoles(pl), run, states) && Owners(pl, k) != []
    requires Look(Store(states[|run|], Owners(pl, k)[0]), k) == copy && copy.Some? && copy.value.lasting
    requires n in Owners(pl, k)[1..] && CaughtUp(states, Owners(pl, k)[0], n, k)
    ensures Look(Store(states[|run|], n), k) == copy
  {
    var p := Owners(pl, k)[0];
    RingRolesAreComputedLocally(pl, p, k);
    WithoutKeepsOthers(Owners(pl, k), p);
    RingReplicasConverge(pl, run, states, p, n, k);
  }

  /**
   * In any run of the replication system, keys that last at their primaries and whose owners have caught up are
   * fully replicated, for ever: the premise of every failover theorem.
   */
  lemma CaughtUpIsFullyReplicated(pl: Placement, run: seq<Step>, states: seq<System>, stores: Failover.Stores,
                                  contents: map<Key, Value>, until: int)
    requires ValidPlacement(pl) && IsRun(RingRoles(pl), run, states) && Stands(stores, states[|run|])
    requires forall k :: k in contents ==>
               Owners(pl, k) != [] && Look(Store(states[|run|], Owners(pl, k)[0]), k) == Some(Copy(contents[k], true))
    requires forall k, t :: k in contents && t in Owners(pl, k)[1..] ==> CaughtUp(states, Owners(pl, k)[0], t, k)
    ensures Failover.FullyReplicated(pl, stores, contents, until)
  {
    forall k, n | k in contents && n in Owners(pl, k) ensures Failover.HoldsUntil(stores, n, k, contents[k], until) {
      if n != Owners(pl, k)[0] {
        assert n in Owners(pl, k)[1..];
        CaughtUpOwnerHas(pl, run, states, n, k, Some(Copy(contents[k], true)));
      }
      assert Look(Store(states[|run|], n), k) == Some(Copy(contents[k], true));
    }
  }
}
