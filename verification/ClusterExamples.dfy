/** Runs of small clusters, from start-up, that end where a promise fails. */
module ClusterExamples {
  import opened Common
  import opened Gossip
  import GossipQueue
  import opened Cluster
  import opened ClusterSafety
  import opened RingView

  // ---------------------------------------------------------------- building a run

  /** After `run` member `i` is in state `n`, and everything in `ms` has been sent. */
  ghost predicate At(c0: Cluster, run: seq<Step>, i: NodeId, n: Node, ms: set<Message>) {
    Init(c0) && CanRun(c0, run) && Has(After(c0, run), i, n) && ms <= After(c0, run).net
  }

  ghost predicate Has(c: Cluster, i: NodeId, n: Node) { i in c.nodes && c.nodes[i] == n }

  lemma Go(c0: Cluster, run: seq<Step>, i: NodeId, n: Node, ms: set<Message>, s: Step, n': Node, out: set<Message>)
    requires At(c0, run, i, n, ms) && s.at == i && Possible(n, s) && (s.Deliver? ==> s.msg in ms)
    requires Act(n, s) == (n', out)
    ensures At(c0, run + [s], i, n', ms)
  {
    assert (run + [s])[..|run|] == run;
  }

  lemma ApplyOne(n: Node, a: Update)
    ensures ApplyAll(n, [a]) == ApplyUpdate(n, a)
  {
    assert [a][..0] == [];
  }

  lemma ApplyTwo(n: Node, a: Update, b: Update)
    ensures ApplyAll(n, [a, b]) == ApplyUpdate(ApplyUpdate(n, a), b)
  {
    assert [a, b][..1] == [a];
    ApplyOne(n, a);
  }

  /** A join request carrying one update arrives. */
  lemma Hear(c0: Cluster, run: seq<Step>, i: NodeId, n: Node, ms: set<Message>, u: Update, order: seq<NodeId>, n': Node)
    requires At(c0, run, i, n, ms) && JoinRequest([u]) in ms
    requires n' == ApplyUpdate(n, u) && Enumerates(order, n'.registry.Keys)
    ensures At(c0, run + [Deliver(i, JoinRequest([u]), order, false)], i, n', ms)
  {
    ApplyOne(n, u);
    Go(c0, run, i, n, ms, Deliver(i, JoinRequest([u]), order, false), n', {Ack(JoinReply(n', order))});
  }

  function Hello(x: NodeId, a: Addrs): Update { Update(x, a, Alive, 0) }

  /** A cluster has started and `x` has asked to join. */
  lemma Joining(i: NodeId, a: Addrs, x: NodeId, b: Addrs) returns (c0: Cluster, run: seq<Step>)
    requires i != x
    ensures At(c0, run, i, Started(i, a), {JoinRequest([Hello(x, b)])})
  {
    c0 := Cluster(map[i := Started(i, a), x := Started(x, b)], {});
    run := [SendJoin(x)];
    assert run[..0] == [] && CanRun(c0, []) && After(c0, []) == c0;
    assert Act(c0.nodes[x], SendJoin(x)) == (Started(x, b), {JoinRequest([Hello(x, b)])});
  }

  // ---------------------------------------------------------------- what one member goes through

  /** `i` knows `x` with the given status; `about` is the update it has queued about `x`. */
  function Knowing(i: NodeId, a: Addrs, x: NodeId, b: Addrs, status: Status, about: Update, events: seq<Event>): Node {
    Node(i, a, 0, map[i := Info(a, Alive, 0), x := Info(b, status, 0)],
         [Queued(Hello(i, a), 0), Queued(about, 0)], if status == Suspect then {x} else {}, events)
  }

  function Met(i: NodeId, a: Addrs, x: NodeId, b: Addrs): Node {
    Knowing(i, a, x, b, Alive, Hello(x, b), [Event(EventJoin, x)])
  }

  function Doubting(i: NodeId, a: Addrs, x: NodeId, b: Addrs): Node {
    Knowing(i, a, x, b, Suspect, Update(x, NO_ADDRS, Suspect, 0), [Event(EventJoin, x), Event(EventSuspect, x)])
  }

  function Burying(i: NodeId, a: Addrs, x: NodeId, b: Addrs): Node {
    Knowing(i, a, x, b, Dead, Update(x, NO_ADDRS, Dead, 0),
            [Event(EventJoin, x), Event(EventSuspect, x), Event(EventDead, x)])
  }

  function Returned(i: NodeId, a: Addrs, x: NodeId, b: Addrs): Node {
    Knowing(i, a, x, b, Alive, Update(x, NO_ADDRS, Dead, 0),
            [Event(EventJoin, x), Event(EventSuspect, x), Event(EventDead, x), Event(EventAlive, x)])
  }

  lemma EnqueueSecond(p: Queued, q: Queued, u: Update)
    requires p.update.node != u.node && q.update.node == u.node && q.update.incarnation <= u.incarnation
    ensures Enqueue([p, q], u) == [p, Queued(u, 0)]
    ensures Enqueue([p], u) == [p, Queued(u, 0)]
  {
    assert [p, q][1..] == [q] && [p][1..] == [];
  }

  lemma Meeting(i: NodeId, a: Addrs, x: NodeId, b: Addrs)
    requires i != x
    ensures ApplyUpdate(Started(i, a), Hello(x, b)) == Met(i, a, x, b)
  {
    EnqueueSecond(Queued(Hello(i, a), 0), Queued(Hello(x, b), 0), Hello(x, b));
  }

  lemma Doubt(i: NodeId, a: Addrs, x: NodeId, b: Addrs)
    requires i != x
    ensures MarkSuspect(Met(i, a, x, b), x) == Doubting(i, a, x, b)
  {
    EnqueueSecond(Queued(Hello(i, a), 0), Queued(Hello(x, b), 0), Update(x, NO_ADDRS, Suspect, 0));
  }

  lemma Burial(i: NodeId, a: Addrs, x: NodeId, b: Addrs)
    requires i != x
    ensures MarkDead(Doubting(i, a, x, b), x) == Burying(i, a, x, b)
  {
    EnqueueSecond(Queued(Hello(i, a), 0), Queued(Update(x, NO_ADDRS, Suspect, 0), 0), Update(x, NO_ADDRS, Dead, 0));
  }

  lemma Return(i: NodeId, a: Addrs, x: NodeId, b: Addrs)
    requires i != x
    ensures ApplyUpdate(Burying(i, a, x, b), Hello(x, b)) == Returned(i, a, x, b)
  {
  }

  // ---------------------------------------------------------------- a live peer lost to reordering

  /** `i` has heard of `x`. */
  lemma MeetRun(i: NodeId, a: Addrs, x: NodeId, b: Addrs) returns (c0: Cluster, run: seq<Step>)
    requires i != x
    ensures At(c0, run, i, Met(i, a, x, b), {JoinRequest([Hello(x, b)])})
  {
    c0, run := Joining(i, a, x, b);
    Meeting(i, a, x, b);
    Hear(c0, run, i, Started(i, a), {JoinRequest([Hello(x, b)])}, Hello(x, b), [i, x], Met(i, a, x, b));
    run := run + [Deliver(i, JoinRequest([Hello(x, b)]), [i, x], false)];
  }

  lemma DoubtRun(i: NodeId, a: Addrs, x: NodeId, b: Addrs) returns (c0: Cluster, run: seq<Step>)
    requires i != x
    ensures At(c0, run, i, Doubting(i, a, x, b), {JoinRequest([Hello(x, b)])})
  {
    c0, run := MeetRun(i, a, x, b);
    Doubt(i, a, x, b);
    Go(c0, run, i, Met(i, a, x, b), {JoinRequest([Hello(x, b)])}, ProbeTimeout(i, x), Doubting(i, a, x, b), {});
    run := run + [ProbeTimeout(i, x)];
  }

  lemma BurialRun(i: NodeId, a: Addrs, x: NodeId, b: Addrs) returns (c0: Cluster, run: seq<Step>)
    requires i != x
    ensures At(c0, run, i, Burying(i, a, x, b), {JoinRequest([Hello(x, b)])})
  {
    c0, run := DoubtRun(i, a, x, b);
    Burial(i, a, x, b);
    Go(c0, run, i, Doubting(i, a, x, b), {JoinRequest([Hello(x, b)])}, TimerFires(i, x), Burying(i, a, x, b), {});
    run := run + [TimerFires(i, x)];
  }

  lemma ReturnRun(i: NodeId, a: Addrs, x: NodeId, b: Addrs) returns (c0: Cluster, run: seq<Step>)
    requires i != x
    ensures At(c0, run, i, Returned(i, a, x, b), {JoinRequest([Hello(x, b)])})
  {
    c0, run := BurialRun(i, a, x, b);
    Return(i, a, x, b);
    Hear(c0, run, i, Burying(i, a, x, b), {JoinRequest([Hello(x, b)])}, Hello(x, b), [i, x], Returned(i, a, x, b));
    run := run + [Deliver(i, JoinRequest([Hello(x, b)]), [i, x], false)];
  }

  /** A peer that joined, was declared dead and came back: handled in another order, its events leave it out. */
  lemma ReorderedEventsLoseALivePeer(i: NodeId, a: Addrs, x: NodeId, b: Addrs)
    returns (c0: Cluster, run: seq<Step>, c: Cluster, ds: seq<Event>)
    requires i != x
    ensures Reached(c0, run, c) && i in c.nodes && multiset(ds) == multiset(c.nodes[i].events)
    ensures Usable(c.nodes[i], x) && x in Members(i, c.nodes[i].events) && x !in Members(i, ds)
  {
    c0, run := ReturnRun(i, a, x, b);
    c := After(c0, run);
    var es := Returned(i, a, x, b).events;
    assert c.nodes[i].events == es;
    ds := [es[0], es[1], es[3], es[2]];
    LastVerdictDecides(i, ds, x);
    LastVerdictDecides(i, es, x);
  }

  // ---------------------------------------------------------------- a refuted claim that bites again

  /** Three members and their states. */
  datatype Trio = Trio(i: NodeId, x: NodeId, y: NodeId, ni: Node, nx: Node, ny: Node)

  function Member(t: Trio, at: NodeId): Node { if at == t.i then t.ni else if at == t.x then t.nx else t.ny }

  function Moved(t: Trio, at: NodeId, n: Node): Trio {
    if at == t.i then t.(ni := n) else if at == t.x then t.(nx := n) else t.(ny := n)
  }

  ghost predicate Apart(i: NodeId, x: NodeId, y: NodeId) { i != x && x != y && y != i }

  /** After `run` the three members are as in `t`, and everything in `ms` has been sent. */
  ghost predicate Stands(c0: Cluster, run: seq<Step>, t: Trio, ms: set<Message>) {
    && Apart(t.i, t.x, t.y) && Init(c0) && CanRun(c0, run)
    && var c := After(c0, run); Has(c, t.i, t.ni) && Has(c, t.x, t.nx) && Has(c, t.y, t.ny) && ms <= c.net
  }

  lemma Step1(c0: Cluster, run: seq<Step>, t: Trio, ms: set<Message>, s: Step, n: Node, out: set<Message>)
    requires Stands(c0, run, t, ms) && s.at in {t.i, t.x, t.y}
    requires Possible(Member(t, s.at), s) && (s.Deliver? ==> s.msg in ms)
    requires Act(Member(t, s.at), s) == (n, out)
    ensures Stands(c0, run + [s], Moved(t, s.at, n), ms + out)
  {
    assert (run + [s])[..|run|] == run;
  }

  /** A ping or an ack arrives. */
  lemma Heard(c0: Cluster, run: seq<Step>, t: Trio, ms: set<Message>, at: NodeId, m: Message, order: seq<NodeId>,
              n: Node)
    requires Stands(c0, run, t, ms) && at in {t.i, t.x, t.y} && m in ms && (m.Ping? || m.Ack?)
    requires n == ApplyAll(Member(t, at), m.updates) && Enumerates(order, n.registry.Keys)
    ensures m.Ping? ==> Stands(c0, run + [Deliver(at, m, order, false)], Moved(t, at, Drain(n)),
                               ms + {Ack(Handout(n.queue))})
    ensures m.Ack? ==> Stands(c0, run + [Deliver(at, m, order, false)], Moved(t, at, n), ms)
  {
    var s := Deliver(at, m, order, false);
    if m.Ping? {
      Step1(c0, run, t, ms, s, Drain(n), {Ack(Handout(n.queue))});
    } else {
      Step1(c0, run, t, ms, s, n, {});
      assert ms + {} == ms;
    }
  }

  lemma ApplyThree(n: Node, a: Update, b: Update, c: Update)
    ensures ApplyAll(n, [a, b, c]) == ApplyUpdate(ApplyUpdate(ApplyUpdate(n, a), b), c)
  {
    assert [a, b, c][..2] == [a, b];
    ApplyTwo(n, a, b);
  }

  function Suspicion(x: NodeId): Update { Update(x, NO_ADDRS, Suspect, 0) }

  function Comeback(x: NodeId, a: Addrs): Update { Update(x, a, Alive, 1) }

  // What the three messages that matter carry.

  function Accusation(x: NodeId, y: NodeId, a: Addrs): seq<Update> { [Hello(y, a), Suspicion(x)] }

  function Refutation(i: NodeId, x: NodeId, y: NodeId, a: Addrs): seq<Update> {
    [Comeback(x, a), Hello(i, a), Hello(y, a)]
  }

  function Echo(i: NodeId, x: NodeId, y: NodeId, a: Addrs): seq<Update> {
    [Hello(y, a), Suspicion(x), Hello(i, a)]
  }

  /** `x`, which knows `i`, after it heard of `y` and of the suspicion about itself. */
  function Refuting(i: NodeId, x: NodeId, y: NodeId, a: Addrs): Node {
    Node(x, a, 1, map[x := Info(a, Alive, 0), i := Info(a, Alive, 0), y := Info(a, Alive, 0)],
         [Queued(Comeback(x, a), 0), Queued(Hello(i, a), 0), Queued(Hello(y, a), 0)], {},
         [Event(EventJoin, i), Event(EventJoin, y)])
  }

  /** `y`, which has gossiped its suspicion once, after it heard of the refutation and of `i`. */
  function Corrected(i: NodeId, x: NodeId, y: NodeId, a: Addrs): Node {
    Node(y, a, 0, map[y := Info(a, Alive, 0), x := Info(a, Alive, 1), i := Info(a, Alive, 0)],
         [Queued(Hello(y, a), 1), Queued(Suspicion(x), 1), Queued(Hello(i, a), 0)], {},
         [Event(EventJoin, x), Event(EventSuspect, x), Event(EventAlive, x), Event(EventJoin, i)])
  }

  lemma Introduced(i: NodeId, x: NodeId, a: Addrs)
    requires i != x
    ensures JoinReply(Met(i, a, x, a), [i, x]) == [Hello(i, a), Hello(x, a)]
    ensures ApplyAll(Started(x, a), [Hello(i, a), Hello(x, a)]) == Met(x, a, i, a)
  {
    ApplyTwo(Started(x, a), Hello(i, a), Hello(x, a));
    Meeting(x, a, i, a);
  }

  lemma Refutes(i: NodeId, x: NodeId, y: NodeId, a: Addrs)
    requires Apart(i, x, y)
    ensures ApplyAll(Met(x, a, i, a), Accusation(x, y, a)) == Refuting(i, x, y, a)
  {
    var n := Met(x, a, i, a);
    ApplyTwo(n, Hello(y, a), Suspicion(x));
    assert n.queue[1..] == [Queued(Hello(i, a), 0)];
    EnqueueSecond(Queued(Hello(i, a), 0), Queued(Hello(y, a), 0), Hello(y, a));
  }

  /** Entries that have not been sent twice all survive a drain, counted once more. */
  lemma YoungStay(q: seq<Queued>)
    requires |q| <= MAX_PIGGYBACK && forall e :: e in q ==> e.sent + 1 < MAX_SENDS
    ensures Drained(q) == Bump(q) && |Handout(q)| == |q|
  {
    assert q[..Window(q)] == q && Bump(q) + q[Window(q)..] == Bump(q);
    GossipQueue.ActiveContents(Bump(q));
  }

  /** `y` takes the refutation. */
  lemma Reassures(x: NodeId, y: NodeId, a: Addrs)
    requires x != y
    ensures ApplyUpdate(Drain(Doubting(y, a, x, a)), Comeback(x, a)) == Reassured(x, y, a)
  {
    var q := Doubting(y, a, x, a).queue;
    YoungStay(q);
    assert Bump(q) == Reassured(x, y, a).queue;
  }

  function Reassured(x: NodeId, y: NodeId, a: Addrs): Node {
    Node(y, a, 0, map[y := Info(a, Alive, 0), x := Info(a, Alive, 1)],
         [Queued(Hello(y, a), 1), Queued(Suspicion(x), 1)], {},
         [Event(EventJoin, x), Event(EventSuspect, x), Event(EventAlive, x)])
  }

  lemma Corrects(i: NodeId, x: NodeId, y: NodeId, a: Addrs)
    requires Apart(i, x, y)
    ensures ApplyAll(Drain(Doubting(y, a, x, a)), Refutation(i, x, y, a)) == Corrected(i, x, y, a)
  {
    ApplyThree(Drain(Doubting(y, a, x, a)), Comeback(x, a), Hello(i, a), Hello(y, a));
    Reassures(x, y, a);
    MeetsI(i, x, y, a);
  }

  lemma MeetsI(i: NodeId, x: NodeId, y: NodeId, a: Addrs)
    requires Apart(i, x, y)
    ensures ApplyUpdate(Reassured(x, y, a), Hello(i, a)) == Corrected(i, x, y, a)
  {
    var r := Reassured(x, y, a).queue;
    EnqueueSecond(r[1], Queued(Hello(i, a), 0), Hello(i, a));
    assert r[1..] == [r[1]];
  }

  /** What goes out: the suspicion; then the refutation, in the ack and again in a ping; then the suspicion again. */
  lemma Outgoing(i: NodeId, x: NodeId, y: NodeId, a: Addrs)
    ensures Handout(Doubting(y, a, x, a).queue) == Accusation(x, y, a)
    ensures Handout(Refuting(i, x, y, a).queue) == Refutation(i, x, y, a)
    ensures Handout(Drain(Refuting(i, x, y, a)).queue) == Refutation(i, x, y, a)
    ensures Handout(Corrected(i, x, y, a).queue) == Echo(i, x, y, a)
  {
    YoungStay(Refuting(i, x, y, a).queue);
  }

  /** Three members have started and `x` asks to join. */
  lemma Begins(i: NodeId, x: NodeId, y: NodeId, a: Addrs) returns (c0: Cluster, run: seq<Step>)
    requires Apart(i, x, y)
    ensures Stands(c0, run, Trio(i, x, y, Started(i, a), Started(x, a), Started(y, a)), {JoinRequest([Hello(x, a)])})
  {
    c0 := Cluster(map[i := Started(i, a), x := Started(x, a), y := Started(y, a)], {});
    var t := Trio(i, x, y, Started(i, a), Started(x, a), Started(y, a));
    assert Stands(c0, [], t, {});
    Step1(c0, [], t, {}, SendJoin(x), Started(x, a), {JoinRequest([Hello(x, a)])});
    run := [] + [SendJoin(x)];
    assert {} + {JoinRequest([Hello(x, a)])} == {JoinRequest([Hello(x, a)])};
  }

  /** A newly started member hears the join request and answers with both. */
  lemma Greets(c0: Cluster, run: seq<Step>, t: Trio, ms: set<Message>, at: NodeId, a: Addrs)
    requires Stands(c0, run, t, ms) && at in {t.i, t.y} && Member(t, at) == Started(at, a)
    requires JoinRequest([Hello(t.x, a)]) in ms
    ensures Stands(c0, run + [Deliver(at, JoinRequest([Hello(t.x, a)]), [at, t.x], false)],
                   Moved(t, at, Met(at, a, t.x, a)), ms + {Ack([Hello(at, a), Hello(t.x, a)])})
  {
    ApplyOne(Started(at, a), Hello(t.x, a));
    Meeting(at, a, t.x, a);
    Introduced(at, t.x, a);
    var s := Deliver(at, JoinRequest([Hello(t.x, a)]), [at, t.x], false);
    Step1(c0, run, t, ms, s, Met(at, a, t.x, a), {Ack([Hello(at, a), Hello(t.x, a)])});
  }

  /** `x` learns of `i`. */
  lemma Learns(c0: Cluster, run: seq<Step>, t: Trio, ms: set<Message>, a: Addrs)
    requires Stands(c0, run, t, ms) && t.nx == Started(t.x, a) && Ack([Hello(t.i, a), Hello(t.x, a)]) in ms
    ensures Stands(c0, run + [Deliver(t.x, Ack([Hello(t.i, a), Hello(t.x, a)]), [t.x, t.i], false)],
                   t.(nx := Met(t.x, a, t.i, a)), ms)
  {
    Introduced(t.i, t.x, a);
    Heard(c0, run, t, ms, t.x, Ack([Hello(t.i, a), Hello(t.x, a)]), [t.x, t.i], Met(t.x, a, t.i, a));
  }

  lemma Fewer(c0: Cluster, run: seq<Step>, t: Trio, ms: set<Message>, fewer: set<Message>)
    requires Stands(c0, run, t, ms) && fewer <= ms
    ensures Stands(c0, run, t, fewer)
  {
  }

  /** `i` and `x` know each other, and `y` knows `x`. */
  lemma MeetAll(i: NodeId, x: NodeId, y: NodeId, a: Addrs) returns (c0: Cluster, run: seq<Step>)
    requires Apart(i, x, y)
    ensures Stands(c0, run, Trio(i, x, y, Met(i, a, x, a), Met(x, a, i, a), Met(y, a, x, a)), {})
  {
    c0, run := Begins(i, x, y, a);
    var join, ack := JoinRequest([Hello(x, a)]), Ack([Hello(i, a), Hello(x, a)]);
    var t := Trio(i, x, y, Started(i, a), Started(x, a), Started(y, a));
    Greets(c0, run, t, {join}, i, a);
    run, t := run + [Deliver(i, join, [i, x], false)], t.(ni := Met(i, a, x, a));
    Learns(c0, run, t, {join} + {ack}, a);
    run, t := run + [Deliver(x, ack, [x, i], false)], t.(nx := Met(x, a, i, a));
    Greets(c0, run, t, {join} + {ack}, y, a);
    run, t := run + [Deliver(y, join, [y, x], false)], t.(ny := Met(y, a, x, a));
    Fewer(c0, run, t, {join} + {ack} + {Ack([Hello(y, a), Hello(x, a)])}, {});
  }

  /** `y` suspects `x` and gossips about it. */
  lemma Accuses(i: NodeId, x: NodeId, y: NodeId, a: Addrs) returns (c0: Cluster, run: seq<Step>)
    requires Apart(i, x, y)
    ensures Stands(c0, run, Trio(i, x, y, Met(i, a, x, a), Met(x, a, i, a), Drain(Doubting(y, a, x, a))),
                   {Ping(Accusation(x, y, a))})
  {
    c0, run := MeetAll(i, x, y, a);
    var t := Trio(i, x, y, Met(i, a, x, a), Met(x, a, i, a), Met(y, a, x, a));
    Doubt(y, a, x, a);
    Step1(c0, run, t, {}, ProbeTimeout(y, x), Doubting(y, a, x, a), {});
    run, t := run + [ProbeTimeout(y, x)], t.(ny := Doubting(y, a, x, a));
    Outgoing(i, x, y, a);
    Step1(c0, run, t, {} + {}, SendPing(y), Drain(Doubting(y, a, x, a)), {Ping(Accusation(x, y, a))});
    run := run + [SendPing(y)];
    assert {} + {} + {Ping(Accusation(x, y, a))} == {Ping(Accusation(x, y, a))};
  }

  /** `x` refutes, */
  lemma Answers(c0: Cluster, run: seq<Step>, t: Trio, a: Addrs)
    requires Stands(c0, run, t, {Ping(Accusation(t.x, t.y, a))}) && t.nx == Met(t.x, a, t.i, a)
    ensures Stands(c0, run + [Deliver(t.x, Ping(Accusation(t.x, t.y, a)), [t.x, t.i, t.y], false)],
                   t.(nx := Drain(Refuting(t.i, t.x, t.y, a))), {Ack(Refutation(t.i, t.x, t.y, a))})
  {
    var ping := Ping(Accusation(t.x, t.y, a));
    Outgoing(t.i, t.x, t.y, a);
    Refutes(t.i, t.x, t.y, a);
    Heard(c0, run, t, {ping}, t.x, ping, [t.x, t.i, t.y], Refuting(t.i, t.x, t.y, a));
    Fewer(c0, run + [Deliver(t.x, ping, [t.x, t.i, t.y], false)], t.(nx := Drain(Refuting(t.i, t.x, t.y, a))),
          {ping} + {Ack(Refutation(t.i, t.x, t.y, a))}, {Ack(Refutation(t.i, t.x, t.y, a))});
  }

  /** and `y` takes the refutation and learns of `i`. */
  lemma Accepts(c0: Cluster, run: seq<Step>, t: Trio, a: Addrs)
    requires Stands(c0, run, t, {Ack(Refutation(t.i, t.x, t.y, a))}) && t.ny == Drain(Doubting(t.y, a, t.x, a))
    ensures Stands(c0, run + [Deliver(t.y, Ack(Refutation(t.i, t.x, t.y, a)), [t.y, t.x, t.i], false)],
                   t.(ny := Corrected(t.i, t.x, t.y, a)), {})
  {
    var ack := Ack(Refutation(t.i, t.x, t.y, a));
    Corrects(t.i, t.x, t.y, a);
    Heard(c0, run, t, {ack}, t.y, ack, [t.y, t.x, t.i], Corrected(t.i, t.x, t.y, a));
    Fewer(c0, run + [Deliver(t.y, ack, [t.y, t.x, t.i], false)], t.(ny := Corrected(t.i, t.x, t.y, a)), {ack}, {});
  }

  lemma Clears(i: NodeId, x: NodeId, y: NodeId, a: Addrs) returns (c0: Cluster, run: seq<Step>)
    requires Apart(i, x, y)
    ensures Stands(c0, run, Trio(i, x, y, Met(i, a, x, a), Drain(Refuting(i, x, y, a)), Corrected(i, x, y, a)), {})
  {
    c0, run := Accuses(i, x, y, a);
    var t := Trio(i, x, y, Met(i, a, x, a), Met(x, a, i, a), Drain(Doubting(y, a, x, a)));
    Answers(c0, run, t, a);
    run := run + [Deliver(x, Ping(Accusation(x, y, a)), [x, i, y], false)];
    Accepts(c0, run, t.(nx := Drain(Refuting(i, x, y, a))), a);
    run := run + [Deliver(y, Ack(Refutation(i, x, y, a)), [y, x, i], false)];
  }

  /** `i` with `x` Alive takes the refutation and hears of `y`; the suspicion then still tells. */
  lemma Bitten(i: NodeId, x: NodeId, y: NodeId, a: Addrs)
    requires Apart(i, x, y)
    ensures var n := ApplyAll(Met(i, a, x, a), Refutation(i, x, y, a));
            var m := ApplyAll(Drain(n), Echo(i, x, y, a));
            n.registry.Keys == {i, x, y} == m.registry.Keys && m.registry[x].status == Suspect
  {
    ApplyThree(Met(i, a, x, a), Comeback(x, a), Hello(i, a), Hello(y, a));
    var n := ApplyAll(Met(i, a, x, a), Refutation(i, x, y, a));
    ApplyThree(Drain(n), Hello(y, a), Suspicion(x), Hello(i, a));
  }

  lemma Bite(c0: Cluster, run: seq<Step>, t: Trio, a: Addrs) returns (refutation: Step, late: Step)
    requires t.ni == Met(t.i, a, t.x, a)
    requires Stands(c0, run, t, {Ping(Refutation(t.i, t.x, t.y, a)), Ping(Echo(t.i, t.x, t.y, a))})
    ensures refutation.Deliver? && refutation.at == t.i && refutation.msg == Ping(Refutation(t.i, t.x, t.y, a))
    ensures late.Deliver? && late.at == t.i && late.msg == Ping(Echo(t.i, t.x, t.y, a))
    ensures CanRun(c0, run + [refutation] + [late])
    ensures var c := After(c0, run + [refutation] + [late]);
            t.i in c.nodes && t.x in c.nodes[t.i].registry && c.nodes[t.i].registry[t.x].status == Suspect
  {
    Bitten(t.i, t.x, t.y, a);
    var n := ApplyAll(t.ni, Refutation(t.i, t.x, t.y, a));
    refutation := Deliver(t.i, Ping(Refutation(t.i, t.x, t.y, a)), [t.i, t.x, t.y], false);
    BiteOnce(c0, run, t, a, n);
    late := BiteAgain(c0, run + [refutation], t.(ni := Drain(n)), a);
  }

  lemma BiteOnce(c0: Cluster, run: seq<Step>, t: Trio, a: Addrs, n: Node)
    requires Stands(c0, run, t, {Ping(Refutation(t.i, t.x, t.y, a)), Ping(Echo(t.i, t.x, t.y, a))})
    requires n == ApplyAll(t.ni, Refutation(t.i, t.x, t.y, a)) && n.registry.Keys == {t.i, t.x, t.y}
    ensures Stands(c0, run + [Deliver(t.i, Ping(Refutation(t.i, t.x, t.y, a)), [t.i, t.x, t.y], false)],
                   t.(ni := Drain(n)), {Ping(Echo(t.i, t.x, t.y, a))})
  {
    var first, second := Ping(Refutation(t.i, t.x, t.y, a)), Ping(Echo(t.i, t.x, t.y, a));
    Heard(c0, run, t, {first, second}, t.i, first, [t.i, t.x, t.y], n);
    Fewer(c0, run + [Deliver(t.i, first, [t.i, t.x, t.y], false)], t.(ni := Drain(n)),
          {first, second} + {Ack(Handout(n.queue))}, {second});
  }

  lemma BiteAgain(c0: Cluster, run: seq<Step>, t: Trio, a: Addrs) returns (late: Step)
    requires Stands(c0, run, t, {Ping(Echo(t.i, t.x, t.y, a))})
    requires var m := ApplyAll(t.ni, Echo(t.i, t.x, t.y, a));
             m.registry.Keys == {t.i, t.x, t.y} && m.registry[t.x].status == Suspect
    ensures late.Deliver? && late.at == t.i && late.msg == Ping(Echo(t.i, t.x, t.y, a))
    ensures CanRun(c0, run + [late])
    ensures var c := After(c0, run + [late]);
            t.i in c.nodes && t.x in c.nodes[t.i].registry && c.nodes[t.i].registry[t.x].status == Suspect
  {
    var second := Ping(Echo(t.i, t.x, t.y, a));
    late := Deliver(t.i, second, [t.i, t.x, t.y], false);
    Heard(c0, run, t, {second}, t.i, second, [t.i, t.x, t.y], ApplyAll(t.ni, second.updates));
  }

  /**
   * Member `y` suspects `x`; `x` refutes, and `y` accepts that. Then `x` and `y`, which both know `i`, ping it. Member
   * `i`, which had `x` Alive all along, takes the refutation from `x` and then the old suspicion that `y` still
   * gossips: it ends up with `x` Suspect, although `x` has refuted exactly that claim.
   */
  lemma RefutedClaimBites(i: NodeId, x: NodeId, y: NodeId, a: Addrs)
    returns (c0: Cluster, run: seq<Step>, refutation: Step, late: Step)
    requires Apart(i, x, y)
    ensures Init(c0) && CanRun(c0, run) && CanRun(c0, run + [SendPing(x)] + [SendPing(y)] + [refutation] + [late])
    ensures var c := After(c0, run);
            && i in c.nodes && x in c.nodes[i].registry && c.nodes[i].registry[x] == Info(a, Alive, 0)
            && x in c.nodes && c.nodes[x].incarnation == 1 && i in c.nodes[x].registry
            && y in c.nodes && i in c.nodes[y].registry
            && refutation.Deliver? && refutation.at == i && Act(c.nodes[x], SendPing(x)).1 == {refutation.msg}
            && late.Deliver? && late.at == i && Act(c.nodes[y], SendPing(y)).1 == {late.msg}
    ensures Comeback(x, a) in Carried(refutation.msg) && Suspicion(x) in Carried(late.msg)
    ensures var c := After(c0, run + [SendPing(x)] + [SendPing(y)] + [refutation] + [late]);
            i in c.nodes && x in c.nodes[i].registry && c.nodes[i].registry[x].status == Suspect
  {
    c0, run := Clears(i, x, y, a);
    refutation, late := PingBoth(c0, run, Trio(i, x, y, Met(i, a, x, a), Drain(Refuting(i, x, y, a)),
                                                Corrected(i, x, y, a)), a);
    Outgoing(i, x, y, a);
  }

  lemma PingBoth(c0: Cluster, run: seq<Step>, t: Trio, a: Addrs) returns (refutation: Step, late: Step)
    requires Stands(c0, run, t, {}) && t.ni == Met(t.i, a, t.x, a)
    requires t.nx == Drain(Refuting(t.i, t.x, t.y, a)) && t.ny == Corrected(t.i, t.x, t.y, a)
    ensures refutation.Deliver? && refutation.at == t.i && refutation.msg == Ping(Refutation(t.i, t.x, t.y, a))
    ensures late.Deliver? && late.at == t.i && late.msg == Ping(Echo(t.i, t.x, t.y, a))
    ensures CanRun(c0, run + [SendPing(t.x)] + [SendPing(t.y)] + [refutation] + [late])
    ensures var c := After(c0, run + [SendPing(t.x)] + [SendPing(t.y)] + [refutation] + [late]);
            t.i in c.nodes && t.x in c.nodes[t.i].registry && c.nodes[t.i].registry[t.x].status == Suspect
  {
    var first, second := Ping(Refutation(t.i, t.x, t.y, a)), Ping(Echo(t.i, t.x, t.y, a));
    Outgoing(t.i, t.x, t.y, a);
    Step1(c0, run, t, {}, SendPing(t.x), Drain(t.nx), {first});
    var u := t.(nx := Drain(t.nx));
    Step1(c0, run + [SendPing(t.x)], u, {} + {first}, SendPing(t.y), Drain(t.ny), {second});
    assert {} + {first} + {second} == {first, second};
    refutation, late := Bite(c0, run + [SendPing(t.x)] + [SendPing(t.y)], u.(ny := Drain(t.ny)), a);
  }
}
