/** One member's SWIM state and what each handler does to it. */
module Gossip {
  import opened Common

  const MAX_PIGGYBACK: nat := 10
  const MAX_SENDS: nat := 3

  datatype Status = Alive | Suspect | Dead | Left

  datatype Addrs = Addrs(grpc: string, gossip: string, http: string)

  const NO_ADDRS := Addrs("", "", "")

  datatype Update = Update(node: NodeId, addrs: Addrs, status: Status, incarnation: nat)

  datatype Info = Info(addrs: Addrs, status: Status, incarnation: nat)

  datatype Queued = Queued(update: Update, sent: nat)

  datatype EventKind = EventJoin | EventAlive | EventSuspect | EventDead | EventLeft

  datatype Event = Event(kind: EventKind, node: NodeId)

  /** `timers` are the armed suspicion timers; `events` what has been emitted so far, in order. */
  datatype Node = Node(
    self: NodeId,
    addrs: Addrs,
    incarnation: nat,
    registry: map<NodeId, Info>,
    queue: seq<Queued>,
    timers: set<NodeId>,
    events: seq<Event>)

  /** A member right after start-up: it knows itself and has its own join queued. */
  function Started(self: NodeId, addrs: Addrs): Node {
    Node(self, addrs, 0, map[self := Info(addrs, Alive, 0)],
         [Queued(Update(self, addrs, Alive, 0), 0)], {}, [])
  }

  // ---------------------------------------------------------------- the dissemination queue

  /** An update replaces the queued one about the same node unless that one is newer. */
  function Enqueue(q: seq<Queued>, u: Update): seq<Queued> {
    if q == [] then [Queued(u, 0)]
    else if q[0].update.node == u.node then
      if u.incarnation >= q[0].update.incarnation then [Queued(u, 0)] + q[1..] else q
    else [q[0]] + Enqueue(q[1..], u)
  }

  function Bump(q: seq<Queued>): seq<Queued> {
    seq(|q|, i requires 0 <= i < |q| => q[i].(sent := q[i].sent + 1))
  }

  /** The entries that have not used up their sends. */
  function Active(q: seq<Queued>): seq<Queued> {
    if q == [] then []
    else
      var r := Active(q[..|q| - 1]);
      if q[|q| - 1].sent < MAX_SENDS then r + [q[|q| - 1]] else r
  }

  function Window(q: seq<Queued>): nat { Min(MAX_PIGGYBACK, |q|) }

  /** The updates a drain hands out. */
  function Handout(q: seq<Queued>): seq<Update> {
    seq(Window(q), i requires 0 <= i < Window(q) => q[i].update)
  }

  /** The queue a drain leaves behind. */
  function Drained(q: seq<Queued>): seq<Queued> {
    Active(Bump(q[..Window(q)]) + q[Window(q)..])
  }

  // ---------------------------------------------------------------- state transitions

  function Emit(n: Node, kind: EventKind, x: NodeId): Node {
    n.(events := n.events + [Event(kind, x)])
  }

  function SetStatus(n: Node, x: NodeId, status: Status): Node
    requires x in n.registry
  {
    n.(registry := n.registry[x := n.registry[x].(status := status)])
  }

  /** All probes of `x` failed. */
  function MarkSuspect(n: Node, x: NodeId): Node {
    if x !in n.registry || n.registry[x].status != Alive then n
    else
      var m := SetStatus(n, x, Suspect);
      var q := Enqueue(m.queue, Update(x, NO_ADDRS, Suspect, n.registry[x].incarnation));
      Emit(m.(queue := q, timers := m.timers + {x}), EventSuspect, x)
  }

  /** The suspicion timer of `x` ran out. */
  function MarkDead(n: Node, x: NodeId): Node {
    if x !in n.registry || n.registry[x].status == Dead then n
    else
      var m := SetStatus(n, x, Dead);
      var q := Enqueue(m.queue, Update(x, NO_ADDRS, Dead, n.registry[x].incarnation));
      Emit(m.(queue := q, timers := m.timers - {x}), EventDead, x)
  }

  /** Someone reports us suspect or dead: outbid the report and announce ourselves. */
  function Refute(n: Node, u: Update): Node {
    var inc := if u.incarnation >= n.incarnation then u.incarnation + 1 else n.incarnation;
    n.(incarnation := inc, queue := Enqueue(n.queue, Update(n.self, n.addrs, Alive, inc)))
  }

  function Discover(n: Node, u: Update): Node {
    var m := n.(registry := n.registry[u.node := Info(u.addrs, Alive, u.incarnation)]);
    Emit(m.(queue := Enqueue(m.queue, u)), EventJoin, u.node)
  }

  /** An update that is not stale, about a peer we know. */
  function Adopt(n: Node, u: Update): Node
    requires u.node in n.registry
  {
    var x, known := u.node, n.registry[u.node];
    match u.status
    case Alive =>
      if known.status == Alive then n
      else
        var m := n.(registry := n.registry[x := known.(status := Alive, incarnation := u.incarnation)]);
        Emit(m.(timers := m.timers - {x}), EventAlive, x)
    case Suspect =>
      if known.status != Alive then n
      else
        var m := SetStatus(n, x, Suspect);
        Emit(m.(timers := m.timers + {x}), EventSuspect, x)
    case Dead =>
      if known.status == Dead then n
      else
        var m := SetStatus(n, x, Dead);
        Emit(m.(timers := m.timers - {x}), EventDead, x)
    case Left =>
      Emit(SetStatus(n, x, Left), EventLeft, x)
  }

  /** A piggybacked update arrives. */
  function ApplyUpdate(n: Node, u: Update): Node {
    if u.node == n.self then
      if u.status == Suspect || u.status == Dead then Refute(n, u) else n
    else if u.node !in n.registry then
      if u.status == Alive then Discover(n, u) else n
    else if u.incarnation < n.registry[u.node].incarnation then n
    else Adopt(n, u)
  }

  function ApplyAll(n: Node, us: seq<Update>): Node {
    if us == [] then n else ApplyUpdate(ApplyAll(n, us[..|us| - 1]), us[|us| - 1])
  }

  /** A graceful stop announces itself as Left. */
  function Leave(n: Node): Node {
    var m := if n.self in n.registry then SetStatus(n, n.self, Left) else n;
    m.(queue := Enqueue(m.queue, Update(n.self, NO_ADDRS, Left, n.incarnation)))
  }

  /** The full membership list sent to a joiner, in the order the registry happened to be read. */
  function JoinReply(n: Node, order: seq<NodeId>): seq<Update>
    requires forall x :: x in order ==> x in n.registry
  {
    seq(|order|, i requires 0 <= i < |order| =>
      var info := n.registry[order[i]];
      Update(order[i], info.addrs, info.status, info.incarnation))
  }

  /** The reply to a join lists the whole registry: each node once, with its own addresses, status and incarnation. */
  lemma ReplyListsRegistry(n: Node, order: seq<NodeId>)
    requires Enumerates(order, n.registry.Keys)
    ensures |JoinReply(n, order)| == |n.registry|
    ensures forall u :: u in JoinReply(n, order) <==>
              u.node in n.registry && Info(u.addrs, u.status, u.incarnation) == n.registry[u.node]
  {
    var us := JoinReply(n, order);
    EnumerationSize(order, n.registry.Keys);
    forall u: Update | u.node in n.registry && Info(u.addrs, u.status, u.incarnation) == n.registry[u.node]
      ensures u in us
    {
      assert u.node in order;
      var i :| 0 <= i < |order| && order[i] == u.node;
      assert us[i] == u;
    }
  }
}
