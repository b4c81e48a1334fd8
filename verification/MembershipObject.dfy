/** The membership manager as the mutable object each node runs; every method performs one step of the model. */
module MembershipObject {
  import opened Common
  import opened Gossip
  import opened GossipQueue

  class Membership {
    const selfID: NodeId
    const selfAddrs: Addrs
    var incarnation: nat
    var registry: map<NodeId, Info>
    var updateQueue: seq<Queued>
    var suspicionTimers: set<NodeId>
    var emitted: seq<Event>

    ghost function Model(): Node
      reads this
    {
      Node(selfID, selfAddrs, incarnation, registry, updateQueue, suspicionTimers, emitted)
    }

    constructor (self: NodeId, addrs: Addrs)
      ensures Model() == Started(self, addrs)
    {
      selfID, selfAddrs, incarnation := self, addrs, 0;
      registry := map[self := Info(addrs, Alive, 0)];
      updateQueue := [Queued(Update(self, addrs, Alive, 0), 0)];
      suspicionTimers, emitted := {}, [];
    }

    method QueueUpdate(update: Update)
      modifies `updateQueue
      ensures updateQueue == Enqueue(old(updateQueue), update)
    {
      var i := 0;
      while i < |updateQueue|
        invariant 0 <= i <= |updateQueue| && updateQueue == old(updateQueue)
        invariant forall j :: 0 <= j < i ==> updateQueue[j].update.node != update.node
      {
        if updateQueue[i].update.node == update.node {
          EnqueueAt(updateQueue, update, i);
          if update.incarnation >= updateQueue[i].update.incarnation {
            updateQueue := updateQueue[i := Queued(update, 0)];
          }
          return;
        }
        i := i + 1;
      }
      EnqueueNew(updateQueue, update);
      updateQueue := updateQueue + [Queued(update, 0)];
    }

    method DrainUpdates() returns (updates: seq<Update>)
      modifies `updateQueue
      ensures updates == Handout(old(updateQueue))
      ensures updateQueue == Drained(old(updateQueue))
    {
      updates := [];
      var active := [];
      ghost var all := Counted(updateQueue);
      var i := 0;
      while i < |updateQueue|
        invariant 0 <= i <= |updateQueue| && updateQueue == old(updateQueue)
        invariant |updates| == Min(i, MAX_PIGGYBACK)
        invariant forall j :: 0 <= j < |updates| ==> updates[j] == updateQueue[j].update
        invariant active == Active(all[..i])
      {
        var q := updateQueue[i];
        if |updates| < MAX_PIGGYBACK {
          updates := updates + [q.update];
          q := q.(sent := q.sent + 1);
        }
        assert all[..i + 1][..i] == all[..i];
        if q.sent < MAX_SENDS { active := active + [q]; }
        i := i + 1;
      }
      assert all[..i] == all;
      updateQueue := active;
    }

    /** A failed probe. */
    method MarkSuspect(nodeID: NodeId)
      modifies this
      ensures Model() == Gossip.MarkSuspect(old(Model()), nodeID)
    {
      if nodeID !in registry { return; }
      var info := registry[nodeID];
      if info.status == Dead || info.status == Left { return; }
      if info.status == Suspect { return; }
      registry := registry[nodeID := info.(status := Suspect)];
      QueueUpdate(Update(nodeID, NO_ADDRS, Suspect, info.incarnation));
      emitted := emitted + [Event(EventSuspect, nodeID)];
      suspicionTimers := suspicionTimers + {nodeID};
    }

    /** A suspicion timer runs out. */
    method MarkDead(nodeID: NodeId)
      modifies this
      ensures Model() == Gossip.MarkDead(old(Model()), nodeID)
    {
      if nodeID !in registry { return; }
      var info := registry[nodeID];
      if info.status == Dead { return; }
      registry := registry[nodeID := info.(status := Dead)];
      if nodeID in suspicionTimers { suspicionTimers := suspicionTimers - {nodeID}; }
      QueueUpdate(Update(nodeID, NO_ADDRS, Dead, info.incarnation));
      emitted := emitted + [Event(EventDead, nodeID)];
    }

    method Refute(update: Update)
      modifies `incarnation, `updateQueue
      ensures Model() == Gossip.Refute(old(Model()), update)
    {
      if update.incarnation >= incarnation { incarnation := update.incarnation + 1; }
      QueueUpdate(Update(selfID, selfAddrs, Alive, incarnation));
    }

    /** One piggybacked update. */
    method ApplyUpdate(update: Update)
      modifies this
      ensures Model() == Gossip.ApplyUpdate(old(Model()), update)
    {
      if update.node == selfID {
        if update.status == Suspect || update.status == Dead { Refute(update); }
        return;
      }
      if update.node !in registry {
        if update.status == Alive {
          registry := registry[update.node := Info(update.addrs, Alive, update.incarnation)];
          emitted := emitted + [Event(EventJoin, update.node)];
          QueueUpdate(update);
        }
        return;
      }
      var existing := registry[update.node];
      if update.incarnation < existing.incarnation { return; }
      match update.status {
        case Alive =>
          if existing.status != Alive {
            registry := registry[update.node := existing.(status := Alive, incarnation := update.incarnation)];
            suspicionTimers := suspicionTimers - {update.node};
            emitted := emitted + [Event(EventAlive, update.node)];
          }
        case Suspect =>
          if existing.status == Alive {
            registry := registry[update.node := existing.(status := Suspect)];
            suspicionTimers := suspicionTimers + {update.node};
            emitted := emitted + [Event(EventSuspect, update.node)];
          }
        case Dead =>
          if existing.status != Dead {
            registry := registry[update.node := existing.(status := Dead)];
            suspicionTimers := suspicionTimers - {update.node};
            emitted := emitted + [Event(EventDead, update.node)];
          }
        case Left =>
          registry := registry[update.node := existing.(status := Left)];
          emitted := emitted + [Event(EventLeft, update.node)];
      }
    }

    /** The updates carried by one message, in order. */
    method ApplyUpdates(updates: seq<Update>)
      modifies this
      ensures Model() == ApplyAll(old(Model()), updates)
    {
      for i := 0 to |updates|
        invariant Model() == ApplyAll(old(Model()), updates[..i])
      {
        ApplyUpdate(updates[i]);
        assert updates[..i + 1][..i] == updates[..i];
      }
      assert updates[..|updates|] == updates;
    }

    method Leave()
      modifies this
      ensures Model() == Gossip.Leave(old(Model()))
    {
      if selfID in registry { registry := registry[selfID := registry[selfID].(status := Left)]; }
      QueueUpdate(Update(selfID, NO_ADDRS, Left, incarnation));
    }

    /** The reply to a joiner: the whole registry, read in an unspecified order. */
    method JoinUpdates() returns (updates: seq<Update>, ghost order: seq<NodeId>)
      ensures |updates| == |registry|
      ensures forall u :: u in updates <==>
                u.node in registry && Info(u.addrs, u.status, u.incarnation) == registry[u.node]
      ensures Enumerates(order, registry.Keys)
      ensures updates == JoinReply(Model(), order)
    {
      updates, order := [], [];
      var rest := registry.Keys;
      while rest != {}
        invariant rest <= registry.Keys && Enumerates(order, registry.Keys - rest)
        invariant updates == JoinReply(Model(), order)
        decreases |rest|
      {
        var x :| x in rest;
        rest := rest - {x};
        order := order + [x];
        updates := updates + [Update(x, registry[x].addrs, registry[x].status, registry[x].incarnation)];
      }
      ReplyListsRegistry(Model(), order);
    }
  }
}
