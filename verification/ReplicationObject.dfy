/** The replication manager as the mutable object a node runs, on top of its ring object. */
module ReplicationObject {
  import opened Common
  import opened TimedStore
  import opened Replication
  import opened Failover
  import HashRing
  import opened RingObject
  import opened StoreObject

  /** What was handed to the transport: a target and a request. */
  type Sent = (NodeId, Request)

  /** Requests go only to connected peers; the others are skipped. */
  function SendTo(targets: seq<NodeId>, peers: set<NodeId>, r: Request): seq<Sent> {
    if targets == [] then []
    else
      var t := targets[|targets| - 1];
      SendTo(targets[..|targets| - 1], peers, r) + if t in peers then [(t, r)] else []
  }

  lemma {:induction false} SendToContents(targets: seq<NodeId>, peers: set<NodeId>, r: Request)
    ensures forall x :: x in SendTo(targets, peers, r) <==> x.1 == r && x.0 in targets && x.0 in peers
  {
    if targets != [] {
      SendToContents(targets[..|targets| - 1], peers, r);
      assert targets == targets[..|targets| - 1] + [targets[|targets| - 1]];
    }
  }

  /** A re-replicated write as the failover model sees it. */
  ghost predicate Carries(x: Sent, m: Message) {
    x.0 == m.target && x.1.key == m.key && x.1.effect == Put(m.value, m.ttlMs)
  }

  /** Node `self` must re-send key `k` to `t`. */
  ghost predicate Owes(pl: Placement, self: NodeId, items: Items, peers: set<NodeId>, now: int, k: Key, t: NodeId) {
    && Live(items, k, now) && HashRing.GetNodes(pl.config, pl.ring, k, 1) == [self]
    && t in Without(Owners(pl, k), self) && t in peers
  }

  ghost predicate Repays(items: Items, now: int, x: Sent) {
    Live(items, x.1.key, now) && x.1.effect == Put(items[x.1.key].value, Millis(Remaining(items[x.1.key], now)))
  }

  /** `added` is what is owed for the keys in `done`, and nothing else. */
  ghost predicate Settles(pl: Placement, self: NodeId, items: Items, peers: set<NodeId>, now: int, done: set<Key>,
                          added: seq<Sent>) {
    && (forall x :: x in added ==>
          x.1.key in done && Owes(pl, self, items, peers, now, x.1.key, x.0) && Repays(items, now, x))
    && (forall k, t :: k in done && Owes(pl, self, items, peers, now, k, t) ==> HasSent(added, k, t))
  }

  ghost predicate HasSent(added: seq<Sent>, k: Key, t: NodeId) {
    exists x :: x in added && x.0 == t && x.1.key == k
  }

  lemma SettleOne(pl: Placement, self: NodeId, items: Items, peers: set<NodeId>, now: int, done: set<Key>,
                  added: seq<Sent>,
                  k: Key, r: Request)
    requires Settles(pl, self, items, peers, now, done, added)
    requires Live(items, k, now) && HashRing.GetNodes(pl.config, pl.ring, k, 1) == [self]
    requires r.key == k && r.effect == Put(items[k].value, Millis(Remaining(items[k], now)))
    ensures Settles(pl, self, items, peers, now, done + {k}, added + SendTo(Without(Owners(pl, k), self), peers, r))
  {
    var targets := Without(Owners(pl, k), self);
    var more := SendTo(targets, peers, r);
    SendToContents(targets, peers, r);
    forall j, t | j in done + {k} && Owes(pl, self, items, peers, now, j, t) ensures HasSent(added + more, j, t) {
      if j == k {
        assert (t, r) in more;
        assert (t, r) in added + more;
      } else {
        assert HasSent(added, j, t);
        var x :| x in added && x.0 == t && x.1.key == j;
        assert x in added + more;
      }
    }
  }

  lemma SettleNone(pl: Placement, self: NodeId, items: Items, peers: set<NodeId>, now: int, done: set<Key>,
                   added: seq<Sent>, k: Key)
    requires Settles(pl, self, items, peers, now, done, added)
    requires !(Live(items, k, now) && HashRing.GetNodes(pl.config, pl.ring, k, 1) == [self])
    ensures Settles(pl, self, items, peers, now, done + {k}, added)
  {
  }

  lemma SettledIsOutbox(pl: Placement, self: NodeId, items: Items, peers: set<NodeId>, now: int, added: seq<Sent>,
                        m: Message)
    requires Settles(pl, self, items, peers, now, items.Keys, added)
    ensures m in Outbox(pl, map[self := items], self, peers, now) <==> exists x :: x in added && Carries(x, m)
  {
    if m in Outbox(pl, map[self := items], self, peers, now) {
      assert Owes(pl, self, items, peers, now, m.key, m.target);
      assert HasSent(added, m.key, m.target);
      var x :| x in added && x.0 == m.target && x.1.key == m.key;
      assert Carries(x, m);
    }
  }

  lemma Regroup(a: seq<Sent>, b: seq<Sent>, c: seq<Sent>)
    ensures (a + b) + c == a + (b + c)
  {
  }

  /**
   * `seen` has, with the entry it had when its shard was read, only keys unexpired at the start; and every key that
   * could be read at that moment.
   */
  ghost predicate Snapshot(l: Layout, seen: Items, scan: Scan, start: int) {
    && (forall k :: k in seen ==>
          Past(l, scan, k) && Live(Then(l, scan, k), k, start) && seen[k] == Then(l, scan, k)[k])
    && forall k :: Past(l, scan, k) && Live(Then(l, scan, k), k, ClockThen(l, scan, k)) ==> k in seen
  }

  /** If nothing else ran meanwhile, what is sent is what the store held. */
  lemma QuietScanSendsTheStore(l: Layout, seen: Items, scan: Scan, start: int, m: Items, pl: Placement, p: NodeId,
                               peers: set<NodeId>)
    requires ValidLayout(l) && Complete(l, scan, start) && Snapshot(l, seen, scan, start)
    requires forall i :: 0 <= i < |scan.maps| ==> scan.maps[i] == m && scan.clocks[i] == start
    ensures Outbox(pl, map[p := seen], p, peers, start) == Outbox(pl, map[p := m], p, peers, start)
  {
    forall k ensures Live(seen, k, start) <==> Live(m, k, start) { ShardInRange(l, k); }
    assert forall k :: Live(m, k, start) ==> seen[k] == m[k];
  }

  class ReplicationManager {
    const selfID: NodeId
    const replicaCount: nat
    const ring: Ring
    const store: Store
    var sequence: nat
    var peers: set<NodeId>
    var sent: seq<Sent>

    ghost function Placed(): Placement
      reads ring
    {
      Placement(ring.config, ring.Model(), replicaCount)
    }

    ghost predicate Valid()
      reads this, ring
    {
      replicaCount >= 1 && ring.Ok()
    }

    constructor (selfID: NodeId, ring: Ring, store: Store, replicaCount: int)
      requires ring.Ok()
      ensures Valid() && this.selfID == selfID && this.ring == ring && this.store == store
      ensures sequence == 0 && peers == {} && sent == []
      ensures this.replicaCount == if replicaCount < 1 then 3 else replicaCount
    {
      this.selfID, this.ring, this.store := selfID, ring, store;
      this.replicaCount := if replicaCount < 1 then 3 else replicaCount;
      sequence, peers, sent := 0, {}, [];
    }

    method IsPrimary(key: Key) returns (b: bool)
      requires Valid()
      ensures b <==> Replication.IsPrimary(RingRoles(Placed()), selfID, key)
    {
      var nodes := ring.GetNodes(key, 1);
      b := |nodes| > 0 && nodes[0] == selfID;
      RingRolesAreComputedLocally(Placed(), selfID, key);
      assert |nodes| > 0 ==> nodes == [nodes[0]];
    }

    method IsReplica(key: Key) returns (b: bool)
      requires Valid()
      ensures b <==> selfID in Owners(Placed(), key)
    {
      var nodes := ring.GetNodes(key, replicaCount);
      for i := 0 to |nodes|
        invariant selfID !in nodes[..i]
      {
        if nodes[i] == selfID { return true; }
      }
      return false;
    }

    method GetSecondaries(key: Key) returns (secondaries: seq<NodeId>)
      requires Valid()
      ensures secondaries == Without(Owners(Placed(), key), selfID)
    {
      var all := ring.GetNodes(key, replicaCount);
      secondaries := [];
      for i := 0 to |all|
        invariant secondaries == Without(all[..i], selfID)
      {
        assert all[..i + 1][..i] == all[..i];
        if all[i] != selfID { secondaries := secondaries + [all[i]]; }
      }
      assert all[..|all|] == all;
    }

    /** Hands the request to the transport, one connected target after another. */
    method Send(targets: seq<NodeId>, r: Request)
      modifies `sent
      ensures sent == old(sent) + SendTo(targets, peers, r)
    {
      for i := 0 to |targets|
        invariant sent == old(sent) + SendTo(targets[..i], peers, r)
      {
        assert targets[..i + 1][..i] == targets[..i];
        if targets[i] in peers { sent := sent + [(targets[i], r)]; }
      }
      assert targets[..|targets|] == targets;
    }

    /** ReplicateWrite and ReplicateDelete: one new sequence number for all secondaries, if there are any. */
    method Replicate(key: Key, effect: Effect)
      requires Valid()
      modifies `sequence, `sent
      ensures var targets := Without(Owners(Placed(), key), selfID);
              && sequence == old(sequence) + (if targets == [] then 0 else 1)
              && sent == old(sent) + SendTo(targets, peers, Request(key, effect, sequence, selfID))
    {
      var targets := GetSecondaries(key);
      if targets == [] { return; }
      sequence := sequence + 1;
      Send(targets, Request(key, effect, sequence, selfID));
    }

    /** One entry's turn in the scan after a failure. */
    method ReReplicateOne(k: Key, e: Entry, now: int) returns (ghost resent: bool)
      requires Valid()
      modifies `sequence, `sent
      ensures resent <==> !Expired(e, now) && HashRing.GetNodes(Placed().config, Placed().ring, k, 1) == [selfID]
      ensures sent == old(sent) + if resent
                then SendTo(Without(Owners(Placed(), k), selfID), peers,
                            Request(k, Put(e.value, Millis(Remaining(e, now))), sequence, selfID))
                else []
    {
      if Expired(e, now) { return false; }
      var primary := IsPrimary(k);
      RingRolesAreComputedLocally(Placed(), selfID, k);
      if primary { Replicate(k, Put(e.value, Millis(Remaining(e, now)))); }
      resent := primary;
    }

    /** Every given unexpired entry we are primary of goes to its current owners. */
    method Resend(items: Items, now: int)
      requires Valid()
      modifies `sequence, `sent
      ensures |sent| >= |old(sent)| && sent[..|old(sent)|] == old(sent)
      ensures forall m :: m in Outbox(Placed(), map[selfID := items], selfID, peers, now)
                <==> exists x :: x in sent[|old(sent)|..] && Carries(x, m)
    {
      var rest := items.Keys;
      ghost var added: seq<Sent> := [];
      while rest != {}
        invariant rest <= items.Keys && sent == old(sent) + added
        invariant Settles(Placed(), selfID, items, peers, now, items.Keys - rest, added)
        decreases |rest|
      {
        var k :| k in rest;
        ghost var done := items.Keys - rest;
        rest := rest - {k};
        assert items.Keys - rest == done + {k};
        ghost var resent := ReReplicateOne(k, items[k], now);
        if resent {
          ghost var r := Request(k, Put(items[k].value, Millis(Remaining(items[k], now))), sequence, selfID);
          ghost var more := SendTo(Without(Owners(Placed(), k), selfID), peers, r);
          SettleOne(Placed(), selfID, items, peers, now, done, added, k, r);
          Regroup(old(sent), added, more);
          added := added + more;
        } else {
          assert sent == old(sent) + added;
          SettleNone(Placed(), selfID, items, peers, now, done, added, k);
        }
      }
      assert items.Keys - rest == items.Keys;
      assert sent[|old(sent)|..] == added;
      forall m ensures m in Outbox(Placed(), map[selfID := items], selfID, peers, now)
                <==> exists x :: x in added && Carries(x, m)
      {
        SettledIsOutbox(Placed(), selfID, items, peers, now, added, m);
      }
    }

    /**
     * The ring has already lost the dead node: every entry a scan of the store comes upon, and we are primary of,
     * goes to its current owners. `seen` is what the scan came upon, one shard at a time among other work.
     */
    method ReReplicate(start: int) returns (ghost seen: Items, ghost scan: Scan)
      requires Valid() && store.Valid() && store.clock <= start
      modifies `sequence, `sent, store, store.shards
      ensures Valid() && store.Valid() && Placed() == old(Placed())
      ensures Complete(store.layout, scan, start) && Snapshot(store.layout, seen, scan, start)
      ensures |sent| >= |old(sent)| && sent[..|old(sent)|] == old(sent)
      ensures forall m :: m in Outbox(Placed(), map[selfID := seen], selfID, peers, start)
                <==> exists x :: x in sent[|old(sent)|..] && Carries(x, m)
    {
      var visited, items;
      visited, items, scan := store.ForEach(start, (_, _, _) => true);
      if visited != [] { assert visited[|visited| - 1] in items; }
      seen := items;
      Resend(items, start);
    }
  }
}
