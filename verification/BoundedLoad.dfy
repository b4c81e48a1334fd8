/** Consistent hashing with bounded loads: which node a lookup is sent to, and how loaded that node can get. */
module BoundedLoad {
  import opened Common
  import opened HashRing

  /** All active requests counted by the ring. */
  ghost function Total(loads: map<NodeId, int>): int
    decreases |loads|
  {
    if loads == map[] then 0
    else
      var x :| x in loads;
      loads[x] + Total(loads - {x})
  }

  lemma {:induction false} TotalSplit(loads: map<NodeId, int>, x: NodeId)
    requires x in loads
    ensures Total(loads) == loads[x] + Total(loads - {x})
    decreases |loads|
  {
    var y :| y in loads && Total(loads) == loads[y] + Total(loads - {y});
    if y != x {
      TotalSplit(loads - {y}, x);
      TotalSplit(loads - {x}, y);
      assert loads - {y} - {x} == loads - {x} - {y};
    }
  }

  lemma {:induction false} TotalAtLeast(loads: map<NodeId, int>, m: int)
    requires forall x :: x in loads ==> loads[x] >= m
    ensures Total(loads) >= m * |loads|
    decreases |loads|
  {
    if loads != map[] {
      var x :| x in loads && Total(loads) == loads[x] + Total(loads - {x});
      TotalAtLeast(loads - {x}, m);
      assert (loads - {x}).Keys == loads.Keys - {x};
      assert m * |loads| == m * (|loads| - 1) + m;
    }
  }

  ghost function Average(s: State): real
    requires s.nodes != {}
  {
    Total(s.loads) as real / |s.nodes| as real
  }

  /** The load a bounded ring aims to keep every node under. */
  ghost function Cap(c: Config, s: State): real
    requires s.nodes != {}
  {
    Average(s) * (1.0 + c.maxLoadFactor)
  }

  /** The integer bound that GetNode compares with. */
  function Bound(total: int, n: nat, maxLoadFactor: real): int
    requires n > 0
  {
    Max(1, (total as real / n as real * (1.0 + maxLoadFactor)).Floor)
  }

  ghost function MaxLoad(c: Config, s: State): int
    requires s.nodes != {}
  {
    Bound(Total(s.loads), |s.nodes|, c.maxLoadFactor)
  }

  predicate Eligible(loads: map<NodeId, int>, maxLoad: int, x: NodeId) {
    x !in loads || loads[x] < maxLoad
  }

  /** `r` is the first eligible owner on the walk, or its head when there is none. */
  ghost predicate FirstEligible(walk: seq<NodeId>, loads: map<NodeId, int>, maxLoad: int, r: NodeId) {
    if exists x :: x in walk && Eligible(loads, maxLoad, x) then
      exists i :: 0 <= i < |walk| && walk[i] == r && Eligible(loads, maxLoad, r)
        && forall j :: 0 <= j < i ==> !Eligible(loads, maxLoad, walk[j])
    else |walk| > 0 && r == walk[0]
  }

  /** GetNode's answer. */
  ghost predicate Routes(c: Config, s: State, key: Key, r: NodeId)
    requires s.nodes != {}
  {
    FirstEligible(Walk(c, s, key), s.loads, MaxLoad(c, s), r)
  }

  /** If no virtual node of a stretch has an eligible owner, none of the owners it lists is. */
  lemma NoneListedIsEligible(vs: seq<VNode>, loads: map<NodeId, int>, m: int)
    requires forall j :: 0 <= j < |vs| ==> !Eligible(loads, m, vs[j].node)
    ensures forall y :: y in FirstSeen(vs) ==> !Eligible(loads, m, y)
  {
    FirstSeenOwners(vs);
    forall y | y in FirstSeen(vs) ensures !Eligible(loads, m, y) {
      var v :| v in vs && v.node == y;
    }
  }

  /** An owner that no earlier virtual node has is listed right after the owners those have. */
  lemma NewOwnerComesNext(vs: seq<VNode>, i: nat)
    requires i < |vs| && vs[i].node !in FirstSeen(vs[..i])
    ensures FirstSeen(vs[..i]) + [vs[i].node] <= FirstSeen(vs)
  {
    assert vs[..i + 1][..i] == vs[..i];
    FirstSeenPrefix(vs, i + 1);
  }

  /** Scanning virtual nodes and scanning distinct owners stop at the same node. */
  lemma FirstVNodeIsFirstOwner(vs: seq<VNode>, i: nat, loads: map<NodeId, int>, m: int)
    requires i < |vs| && Eligible(loads, m, vs[i].node)
    requires forall j :: 0 <= j < i ==> !Eligible(loads, m, vs[j].node)
    ensures FirstEligible(FirstSeen(vs), loads, m, vs[i].node)
  {
    var r, x, walk := FirstSeen(vs[..i]), vs[i].node, FirstSeen(vs);
    NoneListedIsEligible(vs[..i], loads, m);
    NewOwnerComesNext(vs, i);
    assert walk[|r|] == x;
    forall j | 0 <= j < |r| ensures !Eligible(loads, m, walk[j]) { assert walk[j] == r[j]; }
  }

  lemma NoEligibleVNode(vs: seq<VNode>, loads: map<NodeId, int>, m: int)
    requires vs != []
    requires forall j :: 0 <= j < |vs| ==> !Eligible(loads, m, vs[j].node)
    ensures FirstEligible(FirstSeen(vs), loads, m, vs[0].node)
  {
    NoneListedIsEligible(vs, loads, m);
    HeadIsFirstSeen(vs);
  }

  lemma FloorFacts(y: real, k: int)
    ensures k as real <= y <==> k <= y.Floor
  {
  }

  /** One more request at `x` stays within `cap`. */
  ghost predicate Room(loads: map<NodeId, int>, cap: real, x: NodeId)
    requires x in loads
  {
    (loads[x] + 1) as real <= cap
  }

  ghost predicate HasRoom(c: Config, s: State, x: NodeId)
    requires s.nodes != {} && x in s.loads
  {
    Room(s.loads, Cap(c, s), x)
  }

  /** Some node of `walk` has room, and all before it have counters of at least one. */
  ghost predicate RoomComesFirst(walk: seq<NodeId>, loads: map<NodeId, int>, cap: real)
    requires forall x :: x in walk ==> x in loads
  {
    exists i :: 0 <= i < |walk| && Room(loads, cap, walk[i]) && forall j :: 0 <= j < i ==> loads[walk[j]] >= 1
  }

  lemma BoundIsFloor(c: Config, s: State)
    requires s.nodes != {}
    ensures MaxLoad(c, s) == Max(1, Cap(c, s).Floor)
  {
  }

  lemma ScanFindsRoom(walk: seq<NodeId>, loads: map<NodeId, int>, cap: real, m: int, r: NodeId)
    requires walk != [] && (forall x :: x in walk ==> x in loads)
    requires m == Max(1, cap.Floor) && FirstEligible(walk, loads, m, r)
    ensures r in walk
    ensures cap >= 1.0 ==> (Room(loads, cap, r) <==> exists x :: x in walk && Room(loads, cap, x))
    ensures cap < 1.0 ==> (Room(loads, cap, r) <==> RoomComesFirst(walk, loads, cap))
  {
    FloorFacts(cap, 1);
    forall x | x in walk ensures Room(loads, cap, x) <==> loads[x] < cap.Floor {
      FloorFacts(cap, loads[x] + 1);
    }
    if RoomComesFirst(walk, loads, cap) {
      var i :| 0 <= i < |walk| && Room(loads, cap, walk[i]) && forall j :: 0 <= j < i ==> loads[walk[j]] >= 1;
      assert walk[i] in walk && Eligible(loads, m, walk[i]);
      if cap < 1.0 {
        var h :| 0 <= h < |walk| && walk[h] == r && Eligible(loads, m, r)
                 && forall j :: 0 <= j < h ==> !Eligible(loads, m, walk[j]);
        assert h == i;
      }
    }
    if cap < 1.0 && Room(loads, cap, r) {
      assert Eligible(loads, m, r);
      var h :| 0 <= h < |walk| && walk[h] == r && forall j :: 0 <= j < h ==> !Eligible(loads, m, walk[j]);
      assert forall j :: 0 <= j < h ==> walk[j] in loads;
    }
  }

  /**
   * The chosen node has room for the request. With a cap of at least one: exactly when some member has room. Below
   * one, where only a negative counter leaves room: exactly when a member with room comes on the key's walk before
   * every other member with a counter below one.
   */
  lemma WithinCapIffRoom(c: Config, s: State, key: Key, r: NodeId)
    requires Valid(c, s) && s.nodes != {} && Routes(c, s, key, r)
    ensures r in s.nodes && forall x :: x in Walk(c, s, key) <==> x in s.nodes
    ensures Cap(c, s) >= 1.0 ==> (HasRoom(c, s, r) <==> exists x :: x in s.nodes && HasRoom(c, s, x))
    ensures Cap(c, s) < 1.0 ==> (HasRoom(c, s, r) <==> RoomComesFirst(Walk(c, s, key), s.loads, Cap(c, s)))
  {
    WalkListsMembers(c, s, key);
    BoundIsFloor(c, s);
    ScanFindsRoom(Walk(c, s, key), s.loads, Cap(c, s), MaxLoad(c, s), r);
  }

  lemma RoomArithmetic(total: int, n: nat, eps: real, m: int)
    requires n > 0 && eps * (total as real / n as real) >= 1.0
    requires m as real > total as real / n as real * (1.0 + eps) - 1.0
    ensures m * n > total
  {
    var avg := total as real / n as real;
    assert avg * (1.0 + eps) == avg + eps * avg;
    assert m as real > avg;
    assert avg * n as real == total as real;
    assert (m as real - avg) * n as real > 0.0;
    assert m as real * n as real > total as real;
    assert (m * n) as real == m as real * n as real;
  }

  /** Once the slack `eps * average` reaches one request, a lookup always lands within the cap. */
  lemma BoundedLoadGuarantee(c: Config, s: State, key: Key, r: NodeId)
    requires Valid(c, s) && s.nodes != {} && Routes(c, s, key, r)
    requires c.maxLoadFactor * Average(s) >= 1.0
    ensures r in s.nodes && HasRoom(c, s, r)
  {
    var m := Cap(c, s).Floor;
    if forall x :: x in s.nodes ==> s.loads[x] >= m {
      assert |s.loads| == |s.loads.Keys|;
      TotalAtLeast(s.loads, m);
      RoomArithmetic(Total(s.loads), |s.nodes|, c.maxLoadFactor, m);
      assert false;
    }
    var x :| x in s.nodes && s.loads[x] < m;
    FloorFacts(Cap(c, s), s.loads[x] + 1);
    CapAtLeastOne(c, s);
    WithinCapIffRoom(c, s, key, r);
  }

  lemma CapAtLeastOne(c: Config, s: State)
    requires Valid(c, s) && s.nodes != {} && c.maxLoadFactor * Average(s) >= 1.0
    ensures Cap(c, s) >= 1.0
  {
    var avg, eps := Average(s), c.maxLoadFactor;
    assert avg * (1.0 + eps) == avg + eps * avg;
    assert avg >= 0.0;
  }

  lemma {:induction false} TotalOfZeros(loads: map<NodeId, int>)
    requires forall x :: x in loads ==> loads[x] == 0
    ensures Total(loads) == 0
    decreases |loads|
  {
    if loads != map[] {
      var x :| x in loads && Total(loads) == loads[x] + Total(loads - {x});
      TotalOfZeros(loads - {x});
    }
  }

  /** Without that slack the cap can be broken: on an idle ring, such as every client's, each lookup breaks it. */
  lemma CapCanBeExceeded(c: Config, s: State, key: Key, r: NodeId)
    requires Valid(c, s) && s.nodes != {} && Routes(c, s, key, r)
    requires forall x :: x in s.nodes ==> s.loads[x] == 0
    ensures r in s.nodes && !HasRoom(c, s, r)
  {
    WithinCapIffRoom(c, s, key, r);
    TotalOfZeros(s.loads);
    assert Average(s) == 0.0 && Cap(c, s) == 0.0;
  }

  /** An idle ring (a client's, which never counts load) routes every key to its primary. */
  lemma IdleRingRoutesToPrimary(c: Config, s: State, key: Key, r: NodeId)
    requires Valid(c, s) && s.nodes != {} && Routes(c, s, key, r)
    requires forall x :: x in s.nodes ==> s.loads[x] == 0
    ensures GetNodes(c, s, key, 1) == [r]
  {
    WalkListsMembers(c, s, key);
    var w := Walk(c, s, key);
    assert w[0] in s.nodes && Eligible(s.loads, MaxLoad(c, s), w[0]);
    assert w[..1] == [w[0]];
  }

  /** So a client and a server whose tie-free rings have the same members agree on every key's primary. */
  lemma ClientFindsServerPrimary(c: Config, client: State, server: State, key: Key, r: NodeId)
    requires SameMembers(c, client, server) && NoTies(client.vnodes) && client.nodes != {}
    requires forall x :: x in client.nodes ==> client.loads[x] == 0
    requires Routes(c, client, key, r)
    ensures GetNodes(c, server, key, 1) == [r]
  {
    IdleRingRoutesToPrimary(c, client, key, r);
    SameMembersSameOwners(c, client, server, key, 1);
  }
}
