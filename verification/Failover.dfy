/** Losing a node: who takes over its keys, and how re-replication restores every key's full set of copies. */
module Failover {
  import opened Common
  import opened TimedStore
  import opened Replication
  import HashRing

  const NANOS_PER_MS: int := 1_000_000

  /** A re-replicated entry on its way to `target`. */
  datatype Message = Message(target: NodeId, key: Key, value: Value, ttlMs: int)

  /** A message handled at clock reading `at`. */
  datatype Delivery = Delivery(msg: Message, at: int)

  type Stores = map<NodeId, Items>

  /** Go's conversion of the remaining time to whole milliseconds. */
  function Millis(ttl: int): int
    requires ttl >= 0
  {
    ttl / NANOS_PER_MS
  }

  /**
   * What node `p` sends when it re-replicates at time `now`: every unexpired entry it holds and is now primary
   * of, to each other owner it is connected to.
   */
  ghost function Outbox(pl: Placement, stores: Stores, p: NodeId, peers: set<NodeId>, now: int): iset<Message> {
    iset m: Message |
      && p in stores && Live(stores[p], m.key, now)
      && HashRing.GetNodes(pl.config, pl.ring, m.key, 1) == [p]
      && m.target in Without(Owners(pl, m.key), p) && m.target in peers
      && m.value == stores[p][m.key].value
      && m.ttlMs == Millis(Remaining(stores[p][m.key], now))
  }

  /** The receiving store's Set. */
  function Arrive(stores: Stores, d: Delivery): Stores {
    var items := if d.msg.target in stores then stores[d.msg.target] else map[];
    stores[d.msg.target := items[d.msg.key := Entry(d.msg.value, Deadline(d.msg.ttlMs * NANOS_PER_MS, d.at))]]
  }

  function DeliverAll(stores: Stores, ds: seq<Delivery>): Stores {
    if ds == [] then stores else Arrive(DeliverAll(stores, ds[..|ds| - 1]), ds[|ds| - 1])
  }

  ghost predicate Holds(stores: Stores, n: NodeId, k: Key, v: Value) {
    n in stores && k in stores[n] && stores[n][k].value == v
  }

  /** Node `n` holds `k` with value `v`, unexpired up to and including time `until`. */
  ghost predicate HoldsUntil(stores: Stores, n: NodeId, k: Key, v: Value, until: int) {
    Holds(stores, n, k, v) && Live(stores[n], k, until)
  }

  /** Every key of `contents` is on each of its owners, with its value, unexpired up to time `until`. */
  ghost predicate FullyReplicated(pl: Placement, stores: Stores, contents: map<Key, Value>, until: int) {
    forall k, n :: k in contents && n in Owners(pl, k) ==> HoldsUntil(stores, n, k, contents[k], until)
  }

  lemma OwnerHolds(pl: Placement, stores: Stores, contents: map<Key, Value>, until: int, k: Key, n: NodeId)
    requires FullyReplicated(pl, stores, contents, until) && k in contents && n in Owners(pl, k)
    ensures HoldsUntil(stores, n, k, contents[k], until)
  {
  }

  function After(pl: Placement, dead: NodeId): Placement {
    pl.(ring := HashRing.Removed(pl.ring, dead))
  }

  // ---------------------------------------------------------------- who owns what now

  lemma AfterIsValid(pl: Placement, dead: NodeId)
    requires ValidPlacement(pl)
    ensures ValidPlacement(After(pl, dead))
  {
    HashRing.RemovedIsValid(pl.config, pl.ring, dead);
  }

  /** A key's new primary was one of its owners exactly when there was a second copy or the old primary lives. */
  lemma NewPrimaryWasOwnerIff(pl: Placement, dead: NodeId, k: Key, p: NodeId)
    requires ValidPlacement(pl) && Owners(pl, k) != []
    requires HashRing.GetNodes(pl.config, After(pl, dead).ring, k, 1) == [p]
    ensures p != dead
    ensures p in Owners(pl, k) <==> pl.replicaCount >= 2 || Owners(pl, k)[0] != dead
  {
    HashRing.PrimaryAfterRemoval(pl.config, pl.ring, k, dead);
    HashRing.WalkListsMembers(pl.config, pl.ring, k);
    var w := HashRing.Walk(pl.config, pl.ring, k);
    var two := HashRing.GetNodes(pl.config, pl.ring, k, 2);
    var new1 := HashRing.GetNodes(pl.config, After(pl, dead).ring, k, 1);
    assert new1[0] == p;
    assert two == w[..Min(2, |w|)];
    assert Owners(pl, k) == w[..Min(pl.replicaCount, |w|)] && Owners(pl, k)[0] == w[0];
    if w[0] != dead {
      assert p == w[0];
    } else {
      assert new1 == two[1..];
      assert p == two[1] == w[1];
      if pl.replicaCount >= 2 { assert Owners(pl, k)[1] == p; }
    }
  }

  /** With at least two replicas the new primary of every key was already one of its owners. */
  lemma NewPrimaryWasOwner(pl: Placement, dead: NodeId, k: Key, p: NodeId)
    requires ValidPlacement(pl) && pl.replicaCount >= 2
    requires HashRing.GetNodes(pl.config, After(pl, dead).ring, k, 1) == [p]
    ensures p in Owners(pl, k) && p != dead
  {
    if Owners(pl, k) == [] {
      HashRing.PrimaryAfterRemoval(pl.config, pl.ring, k, dead);
      HashRing.WalkListsMembers(pl.config, pl.ring, k);
      assert false;
    }
    NewPrimaryWasOwnerIff(pl, dead, k, p);
  }

  /** While anyone is left, every key still has a primary, and the new owner set is as large as it can be. */
  lemma NewOwners(pl: Placement, dead: NodeId, k: Key)
    requires ValidPlacement(pl) && dead in pl.ring.nodes
    ensures |Owners(After(pl, dead), k)| == Min(pl.replicaCount, |pl.ring.nodes| - 1)
    ensures |pl.ring.nodes| > 1 ==>
      HashRing.GetNodes(pl.config, After(pl, dead).ring, k, 1) == [Owners(After(pl, dead), k)[0]]
  {
    AfterIsValid(pl, dead);
    var q := After(pl, dead);
    assert |q.ring.nodes| == |pl.ring.nodes| - 1;
    RingRolesAreComputedLocally(q, dead, k);
    if |pl.ring.nodes| > 1 {
      RingRolesAreComputedLocally(q, Owners(q, k)[0], k);
    }
  }

  // ---------------------------------------------------------------- deadlines across re-replication

  /** A re-replicated copy loses its deadline exactly when less than a millisecond of it is left. */
  lemma CopyLastsForeverIff(e: Entry, now: int, at: int)
    requires !Expired(e, now)
    ensures Deadline(Millis(Remaining(e, now)) * NANOS_PER_MS, at).None?
            <==> e.expiresAt.None? || e.expiresAt.value - now < 1_000_000
    ensures var d := Deadline(Millis(Remaining(e, now)) * NANOS_PER_MS, at);
            d.Some? ==> e.expiresAt.value + (at - now) - 1_000_000 < d.value <= e.expiresAt.value + (at - now)
  {
    var r := Remaining(e, now);
    assert r == Millis(r) * NANOS_PER_MS + r % NANOS_PER_MS;
  }

  // ---------------------------------------------------------------- deliveries

  predicate To(d: Delivery, n: NodeId, k: Key) { d.msg.target == n && d.msg.key == k }

  function Received(d: Delivery): Entry { Entry(d.msg.value, Deadline(d.msg.ttlMs * NANOS_PER_MS, d.at)) }

  /** The last delivery to `n` about `k`. */
  function LastTo(ds: seq<Delivery>, n: NodeId, k: Key): Option<Delivery> {
    if ds == [] then None
    else if To(ds[|ds| - 1], n, k) then Some(ds[|ds| - 1])
    else LastTo(ds[..|ds| - 1], n, k)
  }

  lemma {:induction false} LastToMeans(ds: seq<Delivery>, n: NodeId, k: Key)
    ensures LastTo(ds, n, k).Some? ==> LastTo(ds, n, k).value in ds && To(LastTo(ds, n, k).value, n, k)
    ensures LastTo(ds, n, k).None? ==> forall d :: d in ds ==> !To(d, n, k)
  {
    if ds != [] {
      LastToMeans(ds[..|ds| - 1], n, k);
      assert ds == ds[..|ds| - 1] + [ds[|ds| - 1]];
    }
  }

  function Find(stores: Stores, n: NodeId, k: Key): Option<Entry> {
    if n in stores && k in stores[n] then Some(stores[n][k]) else None
  }

  /** A node ends up with what the last delivery brought it, and with its old entry if there was none. */
  lemma {:induction false} DeliveredEntry(stores: Stores, ds: seq<Delivery>, n: NodeId, k: Key)
    ensures Find(DeliverAll(stores, ds), n, k)
            == match LastTo(ds, n, k)
               case Some(d) => Some(Received(d))
               case None => Find(stores, n, k)
  {
    if ds != [] { DeliveredEntry(stores, ds[..|ds| - 1], n, k); }
  }

  // ---------------------------------------------------------------- one removal

  /**
   * Re-replication done: every delivery is of a message some survivor sent at its own time `when(p)` for the new
   * ring, connected to all others, and arrives no earlier; every such message has arrived at least once, in any order.
   */
  ghost predicate AllDelivered(pl: Placement, stores: Stores, ds: seq<Delivery>, when: NodeId -> int) {
    && (forall d :: d in ds ==> exists p :: p in pl.ring.nodes && SentBy(pl, stores, when, p, d))
    && (forall p, m :: p in pl.ring.nodes && m in Outbox(pl, stores, p, pl.ring.nodes, when(p)) ==>
          exists d :: d in ds && d.msg == m)
  }

  ghost predicate SentBy(pl: Placement, stores: Stores, when: NodeId -> int, p: NodeId, d: Delivery) {
    d.msg in Outbox(pl, stores, p, pl.ring.nodes, when(p)) && d.at >= when(p)
  }

  lemma OwnersAreMembers(pl: Placement, k: Key)
    requires ValidPlacement(pl)
    ensures forall n :: n in Owners(pl, k) ==> n in pl.ring.nodes
  {
    HashRing.WalkListsMembers(pl.config, pl.ring, k);
    var w := HashRing.Walk(pl.config, pl.ring, k);
    assert forall n :: n in Owners(pl, k) ==> n in w;
  }

  /** Everything delivered about `k` comes from its new primary `p`, carries its copy, and goes to another owner. */
  lemma DeliveriesComeFromPrimary(q: Placement, stores: Stores, when: NodeId -> int, ds: seq<Delivery>, k: Key,
                                  p: NodeId, d: Delivery)
    requires AllDelivered(q, stores, ds, when) && HashRing.GetNodes(q.config, q.ring, k, 1) == [p]
    requires d in ds && d.msg.key == k
    ensures p in stores && Live(stores[p], k, when(p)) && d.at >= when(p) && d.msg.target != p
    ensures d.msg.value == stores[p][k].value && d.msg.ttlMs == Millis(Remaining(stores[p][k], when(p)))
  {
    var s :| s in q.ring.nodes && SentBy(q, stores, when, s, d);
    assert [s] == [p];
    assert s == p by { assert [s][0] == [p][0]; }
  }

  lemma CopyIsSent(q: Placement, stores: Stores, when: NodeId -> int, ds: seq<Delivery>, k: Key, p: NodeId, n: NodeId)
    requires ValidPlacement(q) && AllDelivered(q, stores, ds, when)
    requires HashRing.GetNodes(q.config, q.ring, k, 1) == [p] && n in Owners(q, k) && n != p
    requires p in stores && Live(stores[p], k, when(p)) && p in Owners(q, k)
    ensures exists d :: d in ds && To(d, n, k)
  {
    OwnersAreMembers(q, k);
    WithoutKeepsOthers(Owners(q, k), p);
    var m := Message(n, k, stores[p][k].value, Millis(Remaining(stores[p][k], when(p))));
    assert m in Outbox(q, stores, p, q.ring.nodes, when(p));
  }

  /** A copy sent at `now` and received later is unexpired up to a millisecond before the original's deadline. */
  lemma CopyLastsLongEnough(e: Entry, now: int, at: int, t: int)
    requires !Expired(e, now) && at >= now && (e.expiresAt.Some? ==> t <= e.expiresAt.value - NANOS_PER_MS)
    ensures !Expired(Entry(e.value, Deadline(Millis(Remaining(e, now)) * NANOS_PER_MS, at)), t)
  {
    CopyLastsForeverIff(e, now, at);
  }

  /**
   * The new primary `p` of a key holds it unexpired when it re-sends. Then every new owner ends up with the key's
   * value, unexpired up to a millisecond before `p`'s deadline, and for ever if `p`'s copy has none.
   */
  lemma NewOwnersGetTheKey(q: Placement, stores: Stores, when: NodeId -> int, ds: seq<Delivery>, k: Key, p: NodeId,
                           n: NodeId, t: int)
    requires ValidPlacement(q) && AllDelivered(q, stores, ds, when)
    requires HashRing.GetNodes(q.config, q.ring, k, 1) == [p] && p in Owners(q, k) && n in Owners(q, k)
    requires p in stores && Live(stores[p], k, when(p))
    requires stores[p][k].expiresAt.Some? ==> t <= stores[p][k].expiresAt.value - NANOS_PER_MS
    ensures HoldsUntil(DeliverAll(stores, ds), n, k, stores[p][k].value, t)
  {
    DeliveredEntry(stores, ds, n, k);
    LastToMeans(ds, n, k);
    if n == p {
      forall d | d in ds ensures !To(d, p, k) {
        if To(d, p, k) { DeliveriesComeFromPrimary(q, stores, when, ds, k, p, d); }
      }
      assert Find(DeliverAll(stores, ds), n, k) == Some(stores[p][k]);
    } else {
      CopyIsSent(q, stores, when, ds, k, p, n);
      var d := LastTo(ds, n, k).value;
      assert Find(DeliverAll(stores, ds), n, k) == Some(Received(d));
      DeliveriesComeFromPrimary(q, stores, when, ds, k, p, d);
      CopyLastsLongEnough(stores[p][k], when(p), d.at, t);
    }
  }

  /**
   * And no copy outlives it by more than its delay: if the primary's entry has a deadline at least a millisecond away,
   * and everything arrives by `last`, every other owner's copy is expired that much later.
   */
  lemma CopiesExpireToo(q: Placement, stores: Stores, when: NodeId -> int, ds: seq<Delivery>, k: Key, p: NodeId,
                        n: NodeId, last: int, t: int)
    requires ValidPlacement(q) && AllDelivered(q, stores, ds, when) && forall d :: d in ds ==> d.at <= last
    requires HashRing.GetNodes(q.config, q.ring, k, 1) == [p] && p in Owners(q, k) && n in Owners(q, k) && n != p
    requires p in stores && Live(stores[p], k, when(p)) && stores[p][k].expiresAt.Some?
    requires stores[p][k].expiresAt.value - when(p) >= 1_000_000 && t > stores[p][k].expiresAt.value + last - when(p)
    ensures n in DeliverAll(stores, ds) && !Live(DeliverAll(stores, ds)[n], k, t)
  {
    DeliveredEntry(stores, ds, n, k);
    LastToMeans(ds, n, k);
    CopyIsSent(q, stores, when, ds, k, p, n);
    var d := LastTo(ds, n, k).value;
    DeliveriesComeFromPrimary(q, stores, when, ds, k, p, d);
    CopyLastsForeverIff(stores[p][k], when(p), d.at);
    assert Find(DeliverAll(stores, ds), n, k) == Some(Received(d));
  }

  /**
   * Failover restores replication. Before: every key is on all its owners, unexpired up to `until`. One node is
   * removed from the ring all survivors share, and every survivor re-sends at some time up to `until`. Then the new
   * primary of every key already holds it, and once the writes have arrived, in any order and even repeatedly,
   * every key is on all min(r, N-1) new owners, unexpired up to a millisecond less.
   */
  lemma FailoverRestoresReplication(pl: Placement, dead: NodeId, stores: Stores, contents: map<Key, Value>, until: int,
                                    when: NodeId -> int, ds: seq<Delivery>)
    requires ValidPlacement(pl) && pl.replicaCount >= 2 && dead in pl.ring.nodes
    requires FullyReplicated(pl, stores, contents, until) && AllDelivered(After(pl, dead), stores, ds, when)
    requires forall p :: p in After(pl, dead).ring.nodes ==> when(p) <= until
    ensures forall k :: k in contents && Owners(After(pl, dead), k) != [] ==>
              HoldsUntil(stores, Owners(After(pl, dead), k)[0], k, contents[k], until)
    ensures FullyReplicated(After(pl, dead), DeliverAll(stores, ds), contents, until - NANOS_PER_MS)
    ensures forall k :: |Owners(After(pl, dead), k)| == Min(pl.replicaCount, |pl.ring.nodes| - 1)
  {
    var q := After(pl, dead);
    forall k ensures |Owners(q, k)| == Min(pl.replicaCount, |pl.ring.nodes| - 1) { NewOwners(pl, dead, k); }
    forall k | k in contents && Owners(q, k) != [] ensures HoldsUntil(stores, Owners(q, k)[0], k, contents[k], until) {
      KeySurvives(pl, dead, stores, contents, until, when, ds, k, Owners(q, k)[0]);
    }
    forall k, n | k in contents && n in Owners(q, k)
      ensures HoldsUntil(DeliverAll(stores, ds), n, k, contents[k], until - NANOS_PER_MS)
    {
      KeySurvives(pl, dead, stores, contents, until, when, ds, k, n);
    }
  }

  lemma KeySurvives(pl: Placement, dead: NodeId, stores: Stores, contents: map<Key, Value>, until: int,
                    when: NodeId -> int, ds: seq<Delivery>, k: Key, n: NodeId)
    requires ValidPlacement(pl) && pl.replicaCount >= 2 && dead in pl.ring.nodes
    requires FullyReplicated(pl, stores, contents, until) && AllDelivered(After(pl, dead), stores, ds, when)
    requires forall p :: p in After(pl, dead).ring.nodes ==> when(p) <= until
    requires k in contents && n in Owners(After(pl, dead), k)
    ensures HoldsUntil(stores, Owners(After(pl, dead), k)[0], k, contents[k], until)
    ensures HoldsUntil(DeliverAll(stores, ds), n, k, contents[k], until - NANOS_PER_MS)
  {
    var q := After(pl, dead);
    AfterIsValid(pl, dead);
    NewOwners(pl, dead, k);
    var p := Owners(q, k)[0];
    NewPrimaryWasOwner(pl, dead, k, p);
    OwnerHolds(pl, stores, contents, until, k, p);
    OwnersAreMembers(q, k);
    NewOwnersGetTheKey(q, stores, when, ds, k, p, n, until - NANOS_PER_MS);
  }

  // ---------------------------------------------------------------- any number of removals

  /** One removal and the re-replication that follows it. */
  datatype Round = Round(dead: NodeId, when: NodeId -> int, ds: seq<Delivery>)

  function RingAfter(pl: Placement, rounds: seq<Round>): Placement {
    if rounds == [] then pl else After(RingAfter(pl, rounds[..|rounds| - 1]), rounds[|rounds| - 1].dead)
  }

  function StoresAfter(stores: Stores, rounds: seq<Round>): Stores {
    if rounds == [] then stores else DeliverAll(StoresAfter(stores, rounds[..|rounds| - 1]), rounds[|rounds| - 1].ds)
  }

  /** Each round removes a member and completes its re-replication, started by a time that shrinks round by round. */
  ghost predicate Completes(pl: Placement, stores: Stores, until: int, rounds: seq<Round>) {
    rounds == []
    || (var front, z := rounds[..|rounds| - 1], rounds[|rounds| - 1];
        var q := RingAfter(pl, rounds);
        && Completes(pl, stores, until, front)
        && z.dead in RingAfter(pl, front).ring.nodes
        && AllDelivered(q, StoresAfter(stores, front), z.ds, z.when)
        && forall p :: p in q.ring.nodes ==> z.when(p) <= until - |front| * NANOS_PER_MS)
  }

  /** However many nodes go one after another, every key stays on as many owners as there can be. */
  lemma {:induction false} SurvivesRemovals(pl: Placement, stores: Stores, contents: map<Key, Value>, until: int,
                                            rounds: seq<Round>)
    requires ValidPlacement(pl) && pl.replicaCount >= 2
    requires FullyReplicated(pl, stores, contents, until) && Completes(pl, stores, until, rounds)
    ensures ValidPlacement(RingAfter(pl, rounds)) && RingAfter(pl, rounds).replicaCount == pl.replicaCount
    ensures |RingAfter(pl, rounds).ring.nodes| == |pl.ring.nodes| - |rounds|
    ensures FullyReplicated(RingAfter(pl, rounds), StoresAfter(stores, rounds), contents,
                            until - |rounds| * NANOS_PER_MS)
  {
    if rounds != [] {
      var front, z := rounds[..|rounds| - 1], rounds[|rounds| - 1];
      SurvivesRemovals(pl, stores, contents, until, front);
      var q, st, left := RingAfter(pl, front), StoresAfter(stores, front), until - |front| * NANOS_PER_MS;
      AfterIsValid(q, z.dead);
      FailoverRestoresReplication(q, z.dead, st, contents, left, z.when, z.ds);
    }
  }

  lemma {:induction false} CompletesLater(pl: Placement, stores: Stores, until: int, later: int, rounds: seq<Round>)
    requires Completes(pl, stores, until, rounds) && until <= later
    ensures Completes(pl, stores, later, rounds)
  {
    if rounds != [] { CompletesLater(pl, stores, until, later, rounds[..|rounds| - 1]); }
  }

  /** Contents without deadlines survive any sequence of removals with re-replication between them, for ever. */
  lemma LastingContentsSurvive(pl: Placement, stores: Stores, contents: map<Key, Value>, due: int,
                               rounds: seq<Round>, t: int)
    requires ValidPlacement(pl) && pl.replicaCount >= 2
    requires forall until :: FullyReplicated(pl, stores, contents, until)
    requires Completes(pl, stores, due, rounds)
    ensures FullyReplicated(RingAfter(pl, rounds), StoresAfter(stores, rounds), contents, t)
  {
    var until := Max(due, t + |rounds| * NANOS_PER_MS);
    CompletesLater(pl, stores, due, until, rounds);
    SurvivesRemovals(pl, stores, contents, until, rounds);
    var q, st := RingAfter(pl, rounds), StoresAfter(stores, rounds);
    forall k, n | k in contents && n in Owners(q, k) ensures HoldsUntil(st, n, k, contents[k], t) {
      OwnerHolds(q, st, contents, until - |rounds| * NANOS_PER_MS, k, n);
    }
  }

  // ---------------------------------------------------------------- a node joins

  /** `q` is the placement `pl` after `x` joined its ring. */
  ghost predicate Joined(pl: Placement, x: NodeId, q: Placement) {
    q == pl.(ring := q.ring) && x !in pl.ring.nodes && HashRing.Added(pl.config, pl.ring, x, q.ring)
  }

  /** A prefix of a list names, besides `x`, only what the same prefix of the list without `x` names. */
  lemma PrefixWithout(w: seq<NodeId>, x: NodeId, r: nat, n: NodeId)
    requires r <= |w| && n in w[..r] && n != x
    ensures n in Without(w, x)[..Min(r, |Without(w, x)|)]
  {
    WithoutKeepsOthers(w[..r], x);
    WithoutPrefix(w, x, r);
    var a, b := Without(w[..r], x), Without(w, x);
    var i :| 0 <= i < |a| && a[i] == n;
    assert b[i] == n && i < Min(r, |b|);
  }

  /** On a tie-free ring a join gives a key no new owner but the joiner. */
  lemma JoinKeepsOwners(pl: Placement, x: NodeId, q: Placement, k: Key, n: NodeId)
    requires ValidPlacement(pl) && Joined(pl, x, q) && HashRing.NoTies(pl.ring.vnodes) && n in Owners(q, k) && n != x
    ensures n in Owners(pl, k)
  {
    HashRing.AdditionInsertsOneName(pl.config, pl.ring, x, q.ring, k);
    HashRing.WalkListsMembers(pl.config, q.ring, k);
    HashRing.WalkListsMembers(pl.config, pl.ring, k);
    var w, r := HashRing.Walk(pl.config, q.ring, k), |Owners(q, k)|;
    assert Owners(q, k) == w[..r];
    PrefixWithout(w, x, r, n);
  }

  /** Nothing copies keys to a new node, so replication survives its join exactly when it holds what it now owns. */
  lemma JoinKeepsReplicationIff(pl: Placement, x: NodeId, q: Placement, stores: Stores, contents: map<Key, Value>,
                                until: int)
    requires ValidPlacement(pl) && Joined(pl, x, q) && HashRing.NoTies(pl.ring.vnodes)
    requires FullyReplicated(pl, stores, contents, until)
    ensures FullyReplicated(q, stores, contents, until)
            <==> forall k :: k in contents && x in Owners(q, k) ==> HoldsUntil(stores, x, k, contents[k], until)
  {
    if forall k :: k in contents && x in Owners(q, k) ==> HoldsUntil(stores, x, k, contents[k], until) {
      forall k, n | k in contents && n in Owners(q, k) ensures HoldsUntil(stores, n, k, contents[k], until) {
        if n != x {
          JoinKeepsOwners(pl, x, q, k, n);
          OwnerHolds(pl, stores, contents, until, k, n);
        }
      }
    }
  }

  /** Everyone in a key's walk is one of its owners when there are enough replicas. */
  lemma WalkIsOwners(q: Placement, k: Key)
    requires ValidPlacement(q) && |q.ring.nodes| <= q.replicaCount
    ensures Owners(q, k) == HashRing.Walk(q.config, q.ring, k)
  {
    HashRing.WalkListsMembers(q.config, q.ring, k);
    var w := HashRing.Walk(q.config, q.ring, k);
    assert w[..|w|] == w;
  }

  /** On a ring with fewer nodes than replicas a joiner owns every key, */
  lemma SmallRingJoinerOwns(pl: Placement, x: NodeId, q: Placement, k: Key)
    requires ValidPlacement(pl) && Joined(pl, x, q) && HashRing.NoTies(pl.ring.vnodes)
    requires |pl.ring.nodes| < pl.replicaCount
    ensures x in Owners(q, k)
  {
    HashRing.AdditionInsertsOneName(pl.config, pl.ring, x, q.ring, k);
    assert |q.ring.nodes| <= q.replicaCount by { assert q.ring.nodes == pl.ring.nodes + {x}; }
    WalkIsOwners(q, k);
  }

  /** so an empty one leaves each of them short. */
  lemma EmptyJoinerBreaksReplication(pl: Placement, x: NodeId, q: Placement, stores: Stores, contents: map<Key, Value>,
                                     until: int, k: Key)
    requires ValidPlacement(pl) && Joined(pl, x, q) && HashRing.NoTies(pl.ring.vnodes)
    requires |pl.ring.nodes| < pl.replicaCount && k in contents && Find(stores, x, k).None?
    ensures !FullyReplicated(q, stores, contents, until)
  {
    SmallRingJoinerOwns(pl, x, q, k);
    assert !HoldsUntil(stores, x, k, contents[k], until);
  }

  /** And if it is the key's primary, no later re-replication mends that: nobody sends the key. */
  lemma NobodySendsAKeyItsPrimaryLacks(q: Placement, stores: Stores, p: NodeId, peers: set<NodeId>, now: int,
                                       m: Message, x: NodeId)
    requires HashRing.GetNodes(q.config, q.ring, m.key, 1) == [x] && Find(stores, x, m.key).None?
    ensures m !in Outbox(q, stores, p, peers, now)
  {
    if p != x { assert [p][0] != [x][0]; }
  }
}
