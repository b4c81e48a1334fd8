/** Where gossip meets the ring: the events a member emits drive the ring it routes with. */
module RingView {
  import opened Common
  import opened Gossip
  import opened Cluster
  import opened ClusterSafety
  import HashRing

  /** Whether an event adds (Some(true)) or removes (Some(false)) its node, or leaves the ring alone. */
  function Verdict(e: Event): Option<bool> {
    match e.kind
    case EventJoin => Some(true)
    case EventAlive => Some(true)
    case EventSuspect => None
    case EventDead => Some(false)
    case EventLeft => Some(false)
  }

  /** The ring members after handling `es` in order, starting from a ring that holds only `self`. */
  function Members(self: NodeId, es: seq<Event>): set<NodeId> {
    if es == [] then {self}
    else
      var m, e := Members(self, es[..|es| - 1]), es[|es| - 1];
      match Verdict(e)
      case Some(add) => if add then m + {e.node} else m - {e.node}
      case None => m
  }

  /** The peers this member's registry calls usable. */
  ghost predicate Usable(n: Node, x: NodeId) {
    x == n.self || (x in n.registry && n.registry[x].status in {Alive, Suspect})
  }

  /** The events emitted so far amount to the registry, speak only of known peers, and include every peer's join. */
  ghost predicate Mirrors(n: Node) {
    && (forall x :: x in Members(n.self, n.events) <==> Usable(n, x))
    && (forall e :: e in n.events ==> e.node in n.registry && e.node != n.self)
    && (forall x :: x in n.registry && x != n.self ==> Event(EventJoin, x) in n.events)
  }

  lemma EmitEffect(n: Node, kind: EventKind, x: NodeId)
    ensures var m := Members(n.self, n.events);
            Members(n.self, Emit(n, kind, x).events)
            == match Verdict(Event(kind, x))
               case Some(add) => (if add then m + {x} else m - {x})
               case None => m
  {
    assert (n.events + [Event(kind, x)])[..|n.events|] == n.events;
  }

  /** An event about a known peer, together with the status change it announces, keeps the mirror. */
  lemma NewsMirrors(n: Node, m: Node, kind: EventKind, x: NodeId)
    requires Mirrors(n) && x in n.registry && x != n.self
    requires m.self == n.self && m.events == n.events + [Event(kind, x)] && m.registry.Keys == n.registry.Keys
    requires forall y :: y in n.registry && y != x ==> m.registry[y].status == n.registry[y].status
    requires match Verdict(Event(kind, x))
             case Some(add) => (m.registry[x].status in {Alive, Suspect} <==> add)
             case None => n.registry[x].status in {Alive, Suspect} && m.registry[x].status in {Alive, Suspect}
    ensures Mirrors(m)
  {
    EmitEffect(n, kind, x);
    assert m.events == Emit(n, kind, x).events;
    forall e | e in m.events ensures e.node in m.registry && e.node != m.self {
      assert e in n.events || e == Event(kind, x);
    }
    forall y | y in m.registry && y != m.self ensures Event(EventJoin, y) in m.events {
      assert Event(EventJoin, y) in n.events;
    }
    forall y ensures y in Members(m.self, m.events) <==> Usable(m, y) {
      assert y in Members(n.self, n.events) <==> Usable(n, y);
    }
  }

  lemma AdoptMirrors(n: Node, u: Update)
    requires Mirrors(n) && u.node in n.registry && u.node != n.self
    ensures Mirrors(Adopt(n, u))
  {
    var m := Adopt(n, u);
    if m != n {
      match u.status
      case Alive => NewsMirrors(n, m, EventAlive, u.node);
      case Suspect => NewsMirrors(n, m, EventSuspect, u.node);
      case Dead => NewsMirrors(n, m, EventDead, u.node);
      case Left => NewsMirrors(n, m, EventLeft, u.node);
    }
  }

  lemma ApplyMirrors(n: Node, u: Update)
    requires Mirrors(n)
    ensures Mirrors(ApplyUpdate(n, u))
  {
    if u.node != n.self {
      if u.node !in n.registry {
        EmitEffect(n, EventJoin, u.node);
      } else {
        AdoptMirrors(n, u);
      }
    }
  }

  lemma {:induction false} ApplyAllMirrors(n: Node, us: seq<Update>)
    requires Mirrors(n)
    ensures Mirrors(ApplyAll(n, us))
  {
    if us != [] {
      ApplyAllMirrors(n, us[..|us| - 1]);
      ApplyMirrors(ApplyAll(n, us[..|us| - 1]), us[|us| - 1]);
    }
  }

  lemma MarkMirrors(n: Node, x: NodeId)
    requires Mirrors(n) && x != n.self
    ensures Mirrors(MarkSuspect(n, x)) && Mirrors(MarkDead(n, x))
  {
    if x in n.registry && n.registry[x].status == Alive { NewsMirrors(n, MarkSuspect(n, x), EventSuspect, x); }
    if x in n.registry && n.registry[x].status != Dead { NewsMirrors(n, MarkDead(n, x), EventDead, x); }
  }

  lemma ActMirrors(n: Node, s: Step)
    requires Mirrors(n) && TimersOk(n) && Possible(n, s)
    ensures Mirrors(Act(n, s).0)
  {
    match s
    case Deliver(_, m, _, _) => ApplyAllMirrors(n, Carried(m));
    case ProbeTimeout(_, x) => MarkMirrors(n, x);
    case TimerFires(_, x) => MarkMirrors(n, x);
    case Stop(_) =>
    case _ =>
  }

  lemma StepMirrors(c: Cluster, s: Step, i: NodeId)
    requires Enabled(c, s) && i in c.nodes && TimersOk(c.nodes[i]) && Mirrors(c.nodes[i])
    ensures Mirrors(Next(c, s).nodes[i])
  {
    if s.at == i { ActMirrors(c.nodes[i], s); }
  }

  lemma {:induction false} RunMirrors(c: Cluster, run: seq<Step>, i: NodeId)
    requires Init(c) && CanRun(c, run) && i in c.nodes
    ensures i in After(c, run).nodes && Mirrors(After(c, run).nodes[i])
  {
    if run == [] {
      assert c.nodes[i] == Started(i, c.nodes[i].addrs);
    } else {
      var front := run[..|run| - 1];
      RunMirrors(c, front, i);
      ReachedMemberOk(c, front, After(c, front), i);
      StepMirrors(After(c, front), run[|run| - 1], i);
    }
  }

  // ---------------------------------------------------------------- the ring itself

  /** The event handler's effect on the ring; the node of an emitted event is always in the registry. */
  ghost predicate RingStep(cfg: HashRing.Config, e: Event, r: HashRing.State, r': HashRing.State) {
    match Verdict(e)
    case Some(add) => if add then HashRing.Added(cfg, r, e.node, r') else r' == HashRing.Removed(r, e.node)
    case None => r' == r
  }

  /** `rings` follows `es` handled in emission order from a ring holding only `self`. */
  ghost predicate RingRun(cfg: HashRing.Config, self: NodeId, es: seq<Event>, rings: seq<HashRing.State>) {
    && |rings| == |es| + 1
    && HashRing.Valid(cfg, rings[0]) && rings[0].nodes == {self}
    && forall k :: 0 <= k < |es| ==> RingStep(cfg, es[k], rings[k], rings[k + 1])
  }

  lemma {:induction false} RingRunMembers(cfg: HashRing.Config, self: NodeId, es: seq<Event>,
                                          rings: seq<HashRing.State>)
    requires RingRun(cfg, self, es, rings)
    ensures HashRing.Valid(cfg, rings[|es|]) && rings[|es|].nodes == Members(self, es)
  {
    if es != [] {
      var n := |es| - 1;
      RingRunMembers(cfg, self, es[..n], rings[..n + 1]);
      assert RingStep(cfg, es[n], rings[n], rings[n + 1]);
      if Verdict(es[n]) == Some(true) {
        HashRing.AddedIsValid(cfg, rings[n], es[n].node, rings[n + 1]);
      } else if Verdict(es[n]) == Some(false) {
        HashRing.RemovedIsValid(cfg, rings[n], es[n].node);
      }
    }
  }

  /** Once a member has handled its events in order, its ring holds itself and the peers it has Alive or Suspect. */
  lemma RingMirrorsMembership(c0: Cluster, run: seq<Step>, c: Cluster, i: NodeId,
                              cfg: HashRing.Config, rings: seq<HashRing.State>)
    requires Reached(c0, run, c) && i in c0.nodes
    requires i in c.nodes && RingRun(cfg, i, c.nodes[i].events, rings)
    ensures var ring := rings[|c.nodes[i].events|];
            HashRing.Valid(cfg, ring) && forall x :: x in ring.nodes <==> Usable(c.nodes[i], x)
  {
    ReachedMemberOk(c0, run, c, i);
    RunMirrors(c0, run, i);
    RingRunMembers(cfg, i, c.nodes[i].events, rings);
  }

  /** Two members with the same usable nodes then route every key to the same owners, whatever their histories. */
  lemma AgreeingViewsRouteAlike(c0: Cluster, run: seq<Step>, c: Cluster, i: NodeId, j: NodeId, cfg: HashRing.Config,
                                rings1: seq<HashRing.State>, rings2: seq<HashRing.State>, key: Key, n: nat)
    requires Reached(c0, run, c) && i in c0.nodes && j in c0.nodes && i in c.nodes && j in c.nodes
    requires RingRun(cfg, i, c.nodes[i].events, rings1) && RingRun(cfg, j, c.nodes[j].events, rings2)
    requires forall x :: Usable(c.nodes[i], x) <==> Usable(c.nodes[j], x)
    requires HashRing.NoTies(rings1[|c.nodes[i].events|].vnodes)
    ensures HashRing.GetNodes(cfg, rings1[|c.nodes[i].events|], key, n)
            == HashRing.GetNodes(cfg, rings2[|c.nodes[j].events|], key, n)
  {
    RingMirrorsMembership(c0, run, c, i, cfg, rings1);
    RingMirrorsMembership(c0, run, c, j, cfg, rings2);
    var r, q := rings1[|c.nodes[i].events|], rings2[|c.nodes[j].events|];
    assert r.nodes == q.nodes;
    HashRing.SameMembersSameOwners(cfg, r, q, key, n);
  }

  // ---------------------------------------------------------------- handling events out of order

  /** The last event about `x` that touches the ring. */
  function LastVerdict(es: seq<Event>, x: NodeId): Option<bool> {
    if es == [] then None
    else
      var e := es[|es| - 1];
      if e.node == x && Verdict(e).Some? then Verdict(e) else LastVerdict(es[..|es| - 1], x)
  }

  lemma {:induction false} LastVerdictDecides(self: NodeId, es: seq<Event>, x: NodeId)
    ensures x in Members(self, es) <==>
      match LastVerdict(es, x) case Some(add) => add case None => x == self
  {
    if es != [] {
      LastVerdictDecides(self, es[..|es| - 1], x);
    }
  }

  lemma {:induction false} SomeVerdict(es: seq<Event>, e: Event)
    requires e in es && Verdict(e).Some?
    ensures LastVerdict(es, e.node).Some?
  {
    var z := es[|es| - 1];
    if !(z.node == e.node && Verdict(z).Some?) { SomeVerdict(es[..|es| - 1], e); }
  }

  lemma {:induction false} VerdictIsAbout(es: seq<Event>, x: NodeId)
    ensures LastVerdict(es, x).Some? ==> exists e :: e in es && e.node == x
  {
    if es != [] {
      assert es[|es| - 1] in es;
      VerdictIsAbout(es[..|es| - 1], x);
    }
  }

  /** The ring event a member's record of `x` calls for: an addition, a removal, or none for a stranger. */
  ghost function CalledFor(n: Node, x: NodeId): Option<bool> {
    if x in n.registry then Some(n.registry[x].status in {Alive, Suspect}) else None
  }

  /**
   * Callbacks run in their own goroutines. Handling a reached member's events in any order `ds` leaves its ring
   * right about a peer exactly when the last ring event handled about that peer is the one its record calls for.
   */
  lemma ReorderedEventsAgreeIff(c0: Cluster, run: seq<Step>, c: Cluster, i: NodeId, ds: seq<Event>, x: NodeId)
    requires Reached(c0, run, c) && i in c0.nodes && i in c.nodes && x != i
    requires multiset(ds) == multiset(c.nodes[i].events)
    ensures (x in Members(i, ds) <==> Usable(c.nodes[i], x))
            <==> LastVerdict(ds, x) == CalledFor(c.nodes[i], x)
  {
    var n := c.nodes[i];
    ReachedMemberOk(c0, run, c, i);
    RunMirrors(c0, run, i);
    LastVerdictDecides(i, ds, x);
    assert forall e :: e in ds <==> e in multiset(ds);
    if x in n.registry {
      assert Event(EventJoin, x) in n.events;
      SomeVerdict(ds, Event(EventJoin, x));
    } else {
      VerdictIsAbout(ds, x);
    }
  }

  function About(es: seq<Event>, x: NodeId): seq<Event> {
    if es == [] then []
    else
      var r := About(es[..|es| - 1], x);
      if es[|es| - 1].node == x then r + [es[|es| - 1]] else r
  }

  lemma {:induction false} AboutDecides(es: seq<Event>, x: NodeId)
    ensures LastVerdict(About(es, x), x) == LastVerdict(es, x)
  {
    if es != [] {
      var t, e := es[..|es| - 1], es[|es| - 1];
      AboutDecides(t, x);
      assert (About(t, x) + [e])[..|About(t, x)|] == About(t, x);
    }
  }

  /** Keeping each peer's own events in order is enough; the interleaving between peers does not matter. */
  lemma PerPeerOrderSuffices(self: NodeId, es: seq<Event>, ds: seq<Event>)
    requires forall x :: About(ds, x) == About(es, x)
    ensures Members(self, ds) == Members(self, es)
  {
    forall x ensures x in Members(self, ds) <==> x in Members(self, es) {
      AboutDecides(es, x);
      AboutDecides(ds, x);
      assert About(ds, x) == About(es, x);
      LastVerdictDecides(self, es, x);
      LastVerdictDecides(self, ds, x);
    }
  }
}
