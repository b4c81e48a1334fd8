/** The consistent-hash ring as values: what its operations compute and what follows from it. */
module HashRing {
  import opened Common

  datatype VNode = VNode(hash: nat, node: NodeId, index: nat)

  /** The two hash functions and the settings fixed when a ring is created. */
  datatype Config = Config(
    hashKey: Key -> nat,
    hashVNode: (NodeId, nat) -> nat,
    nodeVnodes: nat,
    maxLoadFactor: real)

  datatype State = State(vnodes: seq<VNode>, nodes: set<NodeId>, loads: map<NodeId, int>)

  const EMPTY := State([], {}, map[])

  ghost predicate ValidConfig(c: Config) {
    c.nodeVnodes > 0 && c.maxLoadFactor >= 0.0
  }

  ghost predicate Sorted(vs: seq<VNode>) {
    forall i, j :: 0 <= i < j < |vs| ==> vs[i].hash <= vs[j].hash
  }

  /** Every virtual node of every member. */
  ghost function Universe(c: Config, nodes: set<NodeId>): set<VNode> {
    set x, i | x in nodes && 0 <= i < c.nodeVnodes :: VNode(c.hashVNode(x, i), x, i)
  }

  /** What every reachable ring satisfies. */
  ghost predicate Valid(c: Config, s: State) {
    && ValidConfig(c)
    && Sorted(s.vnodes)
    && multiset(s.vnodes) == multiset(Universe(c, s.nodes))
    && s.loads.Keys == s.nodes
  }

  // ---------------------------------------------------------------- AddNode and RemoveNode

  function NewVNodes(c: Config, x: NodeId): seq<VNode> {
    seq(c.nodeVnodes, i requires 0 <= i < c.nodeVnodes => VNode(c.hashVNode(x, i), x, i))
  }

  /** AddNode. The library sort is not stable, so only "sorted rearrangement" is known of the result. */
  ghost predicate Added(c: Config, s: State, x: NodeId, t: State) {
    if x in s.nodes then t == s
    else
      && t.nodes == s.nodes + {x}
      && t.loads == s.loads[x := 0]
      && Sorted(t.vnodes)
      && multiset(t.vnodes) == multiset(s.vnodes + NewVNodes(c, x))
  }

  function DropNode(vs: seq<VNode>, x: NodeId): seq<VNode> {
    if vs == [] then []
    else
      var r := DropNode(vs[..|vs| - 1], x);
      if vs[|vs| - 1].node == x then r else r + [vs[|vs| - 1]]
  }

  function Removed(s: State, x: NodeId): State {
    if x !in s.nodes then s
    else State(DropNode(s.vnodes, x), s.nodes - {x}, s.loads - {x})
  }

  lemma {:induction false} DropNodeCount(vs: seq<VNode>, x: NodeId, v: VNode)
    ensures multiset(DropNode(vs, x))[v] == if v.node == x then 0 else multiset(vs)[v]
  {
    if vs != [] {
      DropNodeCount(vs[..|vs| - 1], x, v);
      assert vs == vs[..|vs| - 1] + [vs[|vs| - 1]];
    }
  }

  lemma {:induction false} DropNodeSorted(vs: seq<VNode>, x: NodeId)
    requires Sorted(vs)
    ensures Sorted(DropNode(vs, x))
    ensures forall v :: v in DropNode(vs, x) ==> v in vs
  {
    if vs != [] {
      var t := vs[..|vs| - 1];
      DropNodeSorted(t, x);
      assert forall v :: v in t ==> v.hash <= vs[|vs| - 1].hash;
    }
  }

  lemma RemovedIsValid(c: Config, s: State, x: NodeId)
    requires Valid(c, s)
    ensures Valid(c, Removed(s, x))
  {
    if x in s.nodes {
      var t := Removed(s, x);
      DropNodeSorted(s.vnodes, x);
      forall v ensures multiset(t.vnodes)[v] == multiset(Universe(c, t.nodes))[v] {
        DropNodeCount(s.vnodes, x, v);
      }
      assert multiset(t.vnodes) == multiset(Universe(c, t.nodes));
    }
  }

  lemma NewVNodesAreUniverse(c: Config, x: NodeId)
    ensures multiset(NewVNodes(c, x)) == multiset(Universe(c, {x}))
  {
    var vs, u := NewVNodes(c, x), Universe(c, {x});
    forall i | 0 <= i < |vs| ensures vs[i] in u {
      assert x in {x} && vs[i] == VNode(c.hashVNode(x, i), x, i);
    }
    forall v | v in u ensures v in vs {
      assert v == vs[v.index];
    }
    assert Enumerates(vs, u);
    EnumerationCount(vs, u);
  }

  lemma {:induction false} EnumerationCount(vs: seq<VNode>, u: set<VNode>)
    requires Enumerates(vs, u)
    ensures multiset(vs) == multiset(u)
  {
    if vs == [] {
      assert u == {};
    } else {
      var t, z := vs[..|vs| - 1], vs[|vs| - 1];
      assert vs == t + [z];
      assert forall i :: 0 <= i < |t| ==> t[i] == vs[i];
      EnumerationCount(t, u - {z});
      assert multiset(u) == multiset(u - {z}) + multiset{z};
    }
  }

  lemma UniverseGrows(c: Config, nodes: set<NodeId>, x: NodeId)
    requires x !in nodes
    ensures multiset(Universe(c, nodes + {x})) == multiset(Universe(c, nodes)) + multiset(Universe(c, {x}))
  {
    UniverseUnion(c, nodes, x);
    assert Universe(c, nodes) !! Universe(c, {x});
  }

  lemma AddedIsValid(c: Config, s: State, x: NodeId, t: State)
    requires Valid(c, s) && Added(c, s, x, t)
    ensures Valid(c, t)
  {
    if x !in s.nodes {
      NewVNodesAreUniverse(c, x);
      UniverseGrows(c, s.nodes, x);
    }
  }

  lemma UniverseUnion(c: Config, nodes: set<NodeId>, x: NodeId)
    ensures Universe(c, nodes + {x}) == Universe(c, nodes) + Universe(c, {x})
  {
    forall v | v in Universe(c, nodes + {x}) ensures v in Universe(c, nodes) + Universe(c, {x}) {
      if v.node in nodes { assert v in Universe(c, nodes); } else { assert v.node in {x}; }
    }
    forall v | v in Universe(c, nodes) + Universe(c, {x}) ensures v in Universe(c, nodes + {x}) {
      assert v.node in nodes + {x};
    }
  }

  // ---------------------------------------------------------------- the clockwise walk

  /** The virtual nodes at or after position `h`, and those before it, in ring order. */
  function From(vs: seq<VNode>, h: nat): seq<VNode> {
    if vs == [] then []
    else
      var r := From(vs[..|vs| - 1], h);
      if vs[|vs| - 1].hash >= h then r + [vs[|vs| - 1]] else r
  }

  function Before(vs: seq<VNode>, h: nat): seq<VNode> {
    if vs == [] then []
    else
      var r := Before(vs[..|vs| - 1], h);
      if vs[|vs| - 1].hash < h then r + [vs[|vs| - 1]] else r
  }

  /** The whole ring read clockwise from position `h`. */
  function Clockwise(vs: seq<VNode>, h: nat): seq<VNode> {
    From(vs, h) + Before(vs, h)
  }

  /** The owners along a walk, each at its first appearance. */
  function FirstSeen(vs: seq<VNode>): seq<NodeId> {
    if vs == [] then []
    else
      var r := FirstSeen(vs[..|vs| - 1]);
      var x := vs[|vs| - 1].node;
      if x in r then r else r + [x]
  }

  lemma {:induction false} FirstSeenOwners(vs: seq<VNode>)
    ensures forall x :: x in FirstSeen(vs) <==> exists v :: v in vs && v.node == x
    ensures Distinct(FirstSeen(vs))
  {
    if vs != [] {
      var t, z := vs[..|vs| - 1], vs[|vs| - 1];
      FirstSeenOwners(t);
      assert forall v :: v in vs <==> v in t || v == z;
    }
  }

  /** The full list of distinct owners of a key, clockwise from its position. */
  function Walk(c: Config, s: State, key: Key): seq<NodeId> {
    FirstSeen(Clockwise(s.vnodes, c.hashKey(key)))
  }

  /** GetNodes: at most `n` owners, never more than there are members. */
  function GetNodes(c: Config, s: State, key: Key, n: nat): seq<NodeId> {
    var w := Walk(c, s, key);
    w[..Min(Min(n, |s.nodes|), |w|)]
  }

  lemma {:induction false} FirstSeenPrefix(vs: seq<VNode>, i: nat)
    requires i <= |vs|
    ensures FirstSeen(vs[..i]) <= FirstSeen(vs)
  {
    if i < |vs| {
      FirstSeenPrefix(vs[..|vs| - 1], i);
      assert vs[..|vs| - 1][..i] == vs[..i];
    } else {
      assert vs[..i] == vs;
    }
  }

  lemma {:induction false} SplitMembers(vs: seq<VNode>, h: nat)
    ensures forall v :: v in Clockwise(vs, h) <==> v in vs
    ensures |Clockwise(vs, h)| == |vs|
    ensures forall v :: v in From(vs, h) <==> v in vs && v.hash >= h
    ensures forall v :: v in Before(vs, h) <==> v in vs && v.hash < h
  {
    if vs != [] {
      SplitMembers(vs[..|vs| - 1], h);
      assert vs == vs[..|vs| - 1] + [vs[|vs| - 1]];
    }
  }

  /** In every reachable ring a key's walk names each member exactly once. */
  lemma WalkListsMembers(c: Config, s: State, key: Key)
    requires Valid(c, s)
    ensures Enumerates(Walk(c, s, key), s.nodes)
    ensures |Walk(c, s, key)| == |s.nodes|
  {
    var h := c.hashKey(key);
    SplitMembers(s.vnodes, h);
    FirstSeenOwners(Clockwise(s.vnodes, h));
    var w := Walk(c, s, key);
    forall x ensures x in w <==> x in s.nodes {
      if x in s.nodes {
        var v := VNode(c.hashVNode(x, 0), x, 0);
        assert v in Universe(c, s.nodes);
        assert v in multiset(s.vnodes);
        assert v in Clockwise(s.vnodes, h) && v.node == x;
      }
      if x in w {
        var v :| v in Clockwise(s.vnodes, h) && v.node == x;
        assert v in multiset(s.vnodes);
        assert v in Universe(c, s.nodes);
      }
    }
    EnumerationSize(w, s.nodes);
  }

  // ---------------------------------------------------------------- where a key's owners lie

  /** Clockwise from position `h`, position `a` comes no later than position `b`. */
  predicate NoLater(h: nat, a: nat, b: nat) {
    if a >= h then b < h || a <= b else b < h && a <= b
  }

  /** `v` is next clockwise from `h`: nothing lies between, and if everything is below `h`, it is the lowest. */
  ghost predicate NextFrom(vs: seq<VNode>, h: nat, v: VNode) {
    && v in vs
    && if v.hash >= h then forall u :: u in vs ==> !(h <= u.hash < v.hash)
       else forall u :: u in vs ==> v.hash <= u.hash < h
  }

  lemma SortedSnoc(t: seq<VNode>, z: VNode)
    requires Sorted(t) && forall v :: v in t ==> v.hash <= z.hash
    ensures Sorted(t + [z])
  {
    assert forall i :: 0 <= i < |t| ==> t[i] in t;
  }

  lemma {:induction false} SplitSorted(vs: seq<VNode>, h: nat)
    requires Sorted(vs)
    ensures Sorted(From(vs, h)) && Sorted(Before(vs, h))
  {
    if vs != [] {
      var t, z := vs[..|vs| - 1], vs[|vs| - 1];
      assert vs == t + [z];
      SplitSorted(t, h);
      SplitMembers(t, h);
      SplitSnoc(t, z, h);
      assert forall v :: v in t ==> v.hash <= z.hash;
      if z.hash >= h { SortedSnoc(From(t, h), z); } else { SortedSnoc(Before(t, h), z); }
    }
  }

  lemma ClockwiseInOrder(vs: seq<VNode>, h: nat, p: nat, q: nat)
    requires Sorted(vs) && p < q < |Clockwise(vs, h)|
    ensures NoLater(h, Clockwise(vs, h)[p].hash, Clockwise(vs, h)[q].hash)
  {
    var a, b, r := From(vs, h), Before(vs, h), Clockwise(vs, h);
    SplitSorted(vs, h);
    SplitMembers(vs, h);
    assert p < |a| ==> r[p] in a;
    assert p >= |a| ==> r[p] in b;
    assert q < |a| ==> r[q] in a;
    assert q >= |a| ==> r[q] in b;
  }

  /** An owner listed earlier first appears before every appearance of one listed later. */
  lemma {:induction false} FirstSeenInOrder(vs: seq<VNode>, i: nat, j: nat) returns (p: nat)
    requires i < j < |FirstSeen(vs)|
    ensures p < |vs| && vs[p].node == FirstSeen(vs)[i]
    ensures forall q :: 0 <= q < |vs| && vs[q].node == FirstSeen(vs)[j] ==> p < q
  {
    var t := vs[..|vs| - 1];
    var r := FirstSeen(t);
    if j < |r| {
      p := FirstSeenInOrder(t, i, j);
    } else {
      FirstSeenOwners(t);
      assert r[i] in r;
      var v :| v in t && v.node == r[i];
      p :| 0 <= p < |t| && t[p] == v;
      assert forall q :: 0 <= q < |t| ==> t[q] in t && t[q].node in r;
    }
  }

  /** Each owner has a virtual node that clockwise from the key comes no later than any of a later owner. */
  lemma WalkIsClockwise(c: Config, s: State, key: Key, i: nat, j: nat)
    requires Valid(c, s) && i < j < |Walk(c, s, key)|
    ensures exists v :: v in s.vnodes && v.node == Walk(c, s, key)[i]
              && forall u :: u in s.vnodes && u.node == Walk(c, s, key)[j] ==> NoLater(c.hashKey(key), v.hash, u.hash)
  {
    var h := c.hashKey(key);
    var r := Clockwise(s.vnodes, h);
    SplitMembers(s.vnodes, h);
    var p := FirstSeenInOrder(r, i, j);
    assert r[p] in r;
    forall u | u in s.vnodes && u.node == Walk(c, s, key)[j] ensures NoLater(h, r[p].hash, u.hash) {
      assert u in r;
      var q :| 0 <= q < |r| && r[q] == u;
      ClockwiseInOrder(s.vnodes, h, p, q);
    }
  }

  /** The first owner of a key has the virtual node next clockwise from the key's position. */
  lemma PrimaryIsNext(c: Config, s: State, key: Key, n: nat)
    requires Valid(c, s) && s.nodes != {} && n > 0
    ensures GetNodes(c, s, key, n) != []
    ensures exists v :: NextFrom(s.vnodes, c.hashKey(key), v) && v.node == GetNodes(c, s, key, n)[0]
  {
    var h := c.hashKey(key);
    var r := Clockwise(s.vnodes, h);
    WalkListsMembers(c, s, key);
    SplitMembers(s.vnodes, h);
    assert r != [];
    HeadIsFirstSeen(r);
    assert r[0] in r;
    forall u | u in s.vnodes ensures u == r[0] || NoLater(h, r[0].hash, u.hash) {
      assert u in r;
      var q :| 0 <= q < |r| && r[q] == u;
      if q > 0 { ClockwiseInOrder(s.vnodes, h, 0, q); }
    }
    assert NextFrom(s.vnodes, h, r[0]);
  }

  lemma HeadIsFirstSeen(vs: seq<VNode>)
    requires vs != []
    ensures FirstSeen(vs) != [] && FirstSeen(vs)[0] == vs[0].node
  {
    FirstSeenPrefix(vs, 1);
    assert vs[..1][..0] == [];
    assert FirstSeen(vs[..1]) == [vs[0].node];
  }

  lemma EmptyTogether(c: Config, s: State)
    requires Valid(c, s)
    ensures s.vnodes == [] <==> s.nodes == {}
  {
    if s.nodes == {} {
      assert Universe(c, s.nodes) == {};
      assert |multiset(s.vnodes)| == 0;
    } else {
      var x :| x in s.nodes;
      assert VNode(c.hashVNode(x, 0), x, 0) in Universe(c, s.nodes);
      assert VNode(c.hashVNode(x, 0), x, 0) in multiset(s.vnodes);
    }
  }

  // ---------------------------------------------------------------- minimal disruption

  lemma DropSnoc(t: seq<VNode>, z: VNode, x: NodeId)
    ensures DropNode(t + [z], x) == DropNode(t, x) + (if z.node == x then [] else [z])
  {
    assert (t + [z])[..|t|] == t;
  }

  lemma SplitSnoc(t: seq<VNode>, z: VNode, h: nat)
    ensures From(t + [z], h) == From(t, h) + (if z.hash >= h then [z] else [])
    ensures Before(t + [z], h) == Before(t, h) + (if z.hash < h then [z] else [])
  {
    assert (t + [z])[..|t|] == t;
  }

  lemma {:induction false} DropFrom(vs: seq<VNode>, h: nat, x: NodeId)
    ensures From(DropNode(vs, x), h) == DropNode(From(vs, h), x)
    ensures Before(DropNode(vs, x), h) == DropNode(Before(vs, h), x)
  {
    if vs != [] {
      var t, z := vs[..|vs| - 1], vs[|vs| - 1];
      assert vs == t + [z];
      DropFrom(t, h, x);
      DropSnoc(t, z, x);
      SplitSnoc(t, z, h);
      SplitSnoc(DropNode(t, x), z, h);
      if z.hash >= h { DropSnoc(From(t, h), z, x); } else { DropSnoc(Before(t, h), z, x); }
    }
  }

  lemma {:induction false} DropConcat(a: seq<VNode>, b: seq<VNode>, x: NodeId)
    ensures DropNode(a + b, x) == DropNode(a, x) + DropNode(b, x)
  {
    if b == [] {
      assert a + b == a;
    } else {
      DropConcat(a, b[..|b| - 1], x);
      assert (a + b)[..|a + b| - 1] == a + b[..|b| - 1];
    }
  }

  lemma SeenSnoc(vs: seq<VNode>, z: VNode)
    ensures FirstSeen(vs + [z]) == FirstSeen(vs) + if z.node in FirstSeen(vs) then [] else [z.node]
  {
    assert (vs + [z])[..|vs|] == vs;
  }

  lemma WithoutSnoc(w: seq<NodeId>, y: NodeId, x: NodeId)
    ensures Without(w + [y], x) == Without(w, x) + if y == x then [] else [y]
  {
    assert (w + [y])[..|w|] == w;
  }

  lemma {:induction false} FirstSeenDrop(vs: seq<VNode>, x: NodeId, d: seq<VNode>)
    requires d == DropNode(vs, x)
    ensures FirstSeen(d) == Without(FirstSeen(vs), x)
  {
    if vs != [] {
      var t, z := vs[..|vs| - 1], vs[|vs| - 1];
      var e, r := DropNode(t, x), FirstSeen(t);
      assert vs == t + [z];
      FirstSeenDrop(t, x, e);
      DropSnoc(t, z, x);
      SeenSnoc(t, z);
      SeenSnoc(e, z);
      WithoutSnoc(r, z.node, x);
      WithoutKeepsOthers(r, x);
    }
  }

  /** Minimal disruption, ties between hashes allowed: removal deletes one name from every walk. */
  lemma RemovalDeletesOneName(c: Config, s: State, key: Key, x: NodeId)
    requires Valid(c, s)
    ensures Walk(c, Removed(s, x), key) == Without(Walk(c, s, key), x)
  {
    var h := c.hashKey(key);
    if x in s.nodes {
      DropFrom(s.vnodes, h, x);
      DropConcat(From(s.vnodes, h), Before(s.vnodes, h), x);
      FirstSeenDrop(Clockwise(s.vnodes, h), x, DropNode(Clockwise(s.vnodes, h), x));
    } else {
      WalkListsMembers(c, s, key);
      WithoutKeepsOthers(Walk(c, s, key), x);
    }
  }

  /** GetNodes after removal: the first `n` survivors of the old full walk. */
  lemma RemovalOfReplicas(c: Config, s: State, key: Key, x: NodeId, n: nat)
    requires Valid(c, s)
    ensures var w := Without(Walk(c, s, key), x);
            GetNodes(c, Removed(s, x), key, n) == w[..Min(n, |w|)]
  {
    RemovalDeletesOneName(c, s, key, x);
    RemovedIsValid(c, s, x);
    WalkListsMembers(c, Removed(s, x), key);
  }

  lemma WithoutFirst(w: seq<NodeId>, x: NodeId)
    requires w != [] && Distinct(w)
    ensures var r := Without(w, x);
            r[..Min(1, |r|)] == if w[0] != x then w[..1] else w[1..][..Min(1, |w| - 1)]
  {
    WithoutHead(w, x);
    if w[0] == x {
      WithoutKeepsOthers(w[1..], x);
    }
  }

  lemma PrefixesOfWalk(c: Config, s: State, key: Key)
    requires Valid(c, s)
    ensures var w := Walk(c, s, key); Distinct(w) && GetNodes(c, s, key, 2) == w[..Min(2, |w|)]
  {
    WalkListsMembers(c, s, key);
  }

  lemma SecondAfterFirst(w: seq<NodeId>, x: NodeId)
    requires Distinct(w)
    ensures var r, two := Without(w, x), w[..Min(2, |w|)];
            r[..Min(1, |r|)] == if two == [] then [] else if two[0] != x then two[..1] else two[1..]
  {
    if w != [] { WithoutFirst(w, x); }
  }

  /** Only keys whose primary was removed change primary, and those move to the old second node. */
  lemma PrimaryAfterRemoval(c: Config, s: State, key: Key, x: NodeId)
    requires Valid(c, s)
    ensures var old2 := GetNodes(c, s, key, 2);
            GetNodes(c, Removed(s, x), key, 1)
            == if old2 == [] then [] else if old2[0] != x then old2[..1] else old2[1..]
  {
    RemovalOfReplicas(c, s, key, x, 1);
    PrefixesOfWalk(c, s, key);
    SecondAfterFirst(Walk(c, s, key), x);
  }

  // ---------------------------------------------------------------- canonical form

  /** No two of the listed virtual nodes share a position. */
  ghost predicate NoTies(vs: seq<VNode>) {
    forall v, w :: v in vs && w in vs && v.hash == w.hash ==> v == w
  }

  lemma LastIsLargest(vs: seq<VNode>, v: VNode)
    requires Sorted(vs) && v in vs
    ensures v.hash <= vs[|vs| - 1].hash
  {
    var i :| 0 <= i < |vs| && vs[i] == v;
  }

  lemma LastsAgree(a: seq<VNode>, b: seq<VNode>)
    requires Sorted(a) && Sorted(b) && multiset(a) == multiset(b) && NoTies(a) && a != []
    ensures |b| == |a| && a[|a| - 1] == b[|a| - 1]
  {
    assert |multiset(a)| == |a| && |multiset(b)| == |b|;
    var y, z := a[|a| - 1], b[|b| - 1];
    assert y in multiset(b) && z in multiset(a);
    LastIsLargest(b, y);
    LastIsLargest(a, z);
  }

  lemma PopLast(a: seq<VNode>)
    requires a != []
    ensures multiset(a[..|a| - 1]) == multiset(a) - multiset{a[|a| - 1]}
    ensures NoTies(a) ==> NoTies(a[..|a| - 1])
    ensures Sorted(a) ==> Sorted(a[..|a| - 1])
    ensures a == a[..|a| - 1] + [a[|a| - 1]]
  {
    assert a == a[..|a| - 1] + [a[|a| - 1]];
    assert forall v :: v in a[..|a| - 1] ==> v in a;
  }

  lemma {:induction false} SortedUnique(a: seq<VNode>, b: seq<VNode>)
    requires Sorted(a) && Sorted(b) && multiset(a) == multiset(b) && NoTies(a)
    ensures a == b
    decreases |a|
  {
    assert |multiset(a)| == |a| && |multiset(b)| == |b|;
    if a != [] {
      LastsAgree(a, b);
      PopLast(a);
      PopLast(b);
      SortedUnique(a[..|a| - 1], b[..|b| - 1]);
    }
  }

  /** Two equal-position virtual nodes can trade places. */
  lemma TieSwap(vs: seq<VNode>, i: nat, j: nat) returns (r: seq<VNode>)
    requires Sorted(vs) && i < j < |vs| && vs[i].hash == vs[j].hash && vs[i] != vs[j]
    ensures Sorted(r) && multiset(r) == multiset(vs) && r != vs
  {
    r := vs[i := vs[j]][j := vs[i]];
    assert r[i] != vs[i];
  }

  ghost predicate SameMembers(c: Config, s: State, t: State) {
    Valid(c, s) && Valid(c, t) && s.nodes == t.nodes
  }

  /** A member set determines the ring's virtual-node order exactly when no two of its positions tie. */
  lemma CanonicalIffNoTies(c: Config, s: State)
    requires Valid(c, s)
    ensures (forall t :: SameMembers(c, s, t) ==> t.vnodes == s.vnodes) <==> NoTies(s.vnodes)
  {
    if NoTies(s.vnodes) {
      forall t | SameMembers(c, s, t) ensures t.vnodes == s.vnodes {
        SortedUnique(s.vnodes, t.vnodes);
      }
    } else {
      var v, w :| v in s.vnodes && w in s.vnodes && v.hash == w.hash && v != w;
      var i :| 0 <= i < |s.vnodes| && s.vnodes[i] == v;
      var j :| 0 <= j < |s.vnodes| && s.vnodes[j] == w;
      var r := TieSwap(s.vnodes, if i < j then i else j, if i < j then j else i);
      assert SameMembers(c, s, s.(vnodes := r));
    }
  }

  /** Loads aside, two tie-free rings with the same members send every key to the same nodes. */
  lemma SameMembersSameOwners(c: Config, s: State, t: State, key: Key, n: nat)
    requires SameMembers(c, s, t) && NoTies(s.vnodes)
    ensures s.vnodes == t.vnodes
    ensures Walk(c, s, key) == Walk(c, t, key)
    ensures GetNodes(c, s, key, n) == GetNodes(c, t, key, n)
  {
    SortedUnique(s.vnodes, t.vnodes);
  }

  /** Adding a node to a tie-free ring only inserts its name into each walk. */
  lemma AdditionInsertsOneName(c: Config, s: State, x: NodeId, t: State, key: Key)
    requires Valid(c, s) && Added(c, s, x, t) && x !in s.nodes && NoTies(s.vnodes)
    ensures Valid(c, t) && x in Walk(c, t, key)
    ensures Without(Walk(c, t, key), x) == Walk(c, s, key)
  {
    AddedIsValid(c, s, x, t);
    WalkListsMembers(c, t, key);
    RemovalDeletesOneName(c, t, key, x);
    RemovedIsValid(c, t, x);
    assert Removed(t, x).nodes == s.nodes;
    SortedUnique(s.vnodes, Removed(t, x).vnodes);
  }

  // ---------------------------------------------------------------- histories

  datatype Op = Add(node: NodeId) | Remove(node: NodeId)

  ghost predicate Next(c: Config, s: State, op: Op, t: State) {
    match op
    case Add(x) => Added(c, s, x, t)
    case Remove(x) => t == Removed(s, x)
  }

  /** `states` is a run of `ops` from the empty ring. */
  ghost predicate History(c: Config, ops: seq<Op>, states: seq<State>) {
    && |states| == |ops| + 1
    && states[0] == EMPTY
    && forall i :: 0 <= i < |ops| ==> Next(c, states[i], ops[i], states[i + 1])
  }

  /** The members left by a history. */
  function MembersAfter(ops: seq<Op>): set<NodeId> {
    if ops == [] then {}
    else
      var m := MembersAfter(ops[..|ops| - 1]);
      match ops[|ops| - 1]
      case Add(x) => m + {x}
      case Remove(x) => m - {x}
  }

  lemma {:induction false} HistoryIsValid(c: Config, ops: seq<Op>, states: seq<State>)
    requires ValidConfig(c) && History(c, ops, states)
    ensures Valid(c, states[|ops|]) && states[|ops|].nodes == MembersAfter(ops)
  {
    if ops == [] {
      assert Universe(c, {}) == {};
    } else {
      var n := |ops| - 1;
      HistoryIsValid(c, ops[..n], states[..n + 1]);
      assert Next(c, states[n], ops[n], states[n + 1]);
      match ops[n]
      case Add(x) => AddedIsValid(c, states[n], x, states[n + 1]);
      case Remove(x) => RemovedIsValid(c, states[n], x);
    }
  }

  /** Every history leaves each member at exactly its `nodeVnodes` positions, each once, and nothing else. */
  lemma HistoryPlacesMembers(c: Config, ops: seq<Op>, states: seq<State>, v: VNode)
    requires ValidConfig(c) && History(c, ops, states)
    ensures multiset(states[|ops|].vnodes)[v]
            == if v.node in MembersAfter(ops) && v.index < c.nodeVnodes && v.hash == c.hashVNode(v.node, v.index)
               then 1 else 0
  {
    HistoryIsValid(c, ops, states);
  }

  /** Any two histories ending in the same tie-free member set build the same ring. */
  lemma HistoriesConverge(c: Config, ops1: seq<Op>, states1: seq<State>, ops2: seq<Op>, states2: seq<State>)
    requires ValidConfig(c) && History(c, ops1, states1) && History(c, ops2, states2)
    requires MembersAfter(ops1) == MembersAfter(ops2)
    requires var all := Universe(c, MembersAfter(ops1));
             forall v, w :: v in all && w in all && v.hash == w.hash ==> v == w
    ensures states1[|ops1|].vnodes == states2[|ops2|].vnodes
  {
    HistoryIsValid(c, ops1, states1);
    HistoryIsValid(c, ops2, states2);
    var s := states1[|ops1|];
    forall v | v in s.vnodes ensures v in Universe(c, s.nodes) {
      assert v in multiset(s.vnodes);
    }
    SortedUnique(s.vnodes, states2[|ops2|].vnodes);
  }
}
