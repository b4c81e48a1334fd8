/** The ring as the mutable object the servers and clients hold. */
module RingObject {
  import opened Common
  import opened HashRing
  import opened BoundedLoad

  lemma FrontStaysBelow(vs: seq<VNode>, v: VNode, front: seq<VNode>)
    requires Sorted(vs) && vs != [] && v.hash < vs[|vs| - 1].hash
    requires multiset(front) == multiset(vs) - multiset{vs[|vs| - 1]} + multiset{v}
    ensures forall w :: w in front ==> w.hash <= vs[|vs| - 1].hash
  {
    forall w | w in front ensures w.hash <= vs[|vs| - 1].hash {
      assert w in multiset(front);
      if w != v {
        assert w in multiset(vs);
        LastIsLargest(vs, w);
      }
    }
  }

  /** Puts `v` after everything that is not larger. */
  method InsertSorted(vs: seq<VNode>, v: VNode) returns (r: seq<VNode>)
    requires Sorted(vs)
    ensures r != [] && Sorted(r) && multiset(r) == multiset(vs) + multiset{v}
  {
    if vs == [] || vs[|vs| - 1].hash <= v.hash {
      assert forall w :: w in vs ==> w.hash <= v.hash;
      SortedSnoc(vs, v);
      return vs + [v];
    }
    PopLast(vs);
    var front := InsertSorted(vs[..|vs| - 1], v);
    FrontStaysBelow(vs, v, front);
    SortedSnoc(front, vs[|vs| - 1]);
    r := front + [vs[|vs| - 1]];
  }

  /** Stands for the library sort: callers learn that the result is a sorted rearrangement, no more. */
  method SortByHash(vs: seq<VNode>) returns (r: seq<VNode>)
    ensures Sorted(r) && multiset(r) == multiset(vs)
  {
    r := [];
    for i := 0 to |vs|
      invariant Sorted(r) && multiset(r) == multiset(vs[..i])
    {
      r := InsertSorted(r, vs[i]);
      assert vs[..i + 1] == vs[..i] + [vs[i]];
    }
    assert vs[..|vs|] == vs;
  }

  /** Binary search: the first position at or after `h`, or 0 when `h` is past the end. */
  method Search(vs: seq<VNode>, h: nat) returns (idx: nat)
    requires vs != [] && Sorted(vs)
    ensures idx < |vs|
    ensures || (vs[idx].hash >= h && forall i :: 0 <= i < idx ==> vs[i].hash < h)
            || (idx == 0 && forall i :: 0 <= i < |vs| ==> vs[i].hash < h)
    ensures vs[idx..] + vs[..idx] == Clockwise(vs, h)
  {
    var lo, hi := 0, |vs|;
    while lo < hi
      invariant 0 <= lo <= hi <= |vs|
      invariant forall i :: 0 <= i < lo ==> vs[i].hash < h
      invariant forall i :: hi <= i < |vs| ==> vs[i].hash >= h
    {
      var mid := (lo + hi) / 2;
      if vs[mid].hash >= h { hi := mid; } else { lo := mid + 1; }
    }
    SplitAt(vs, h, lo);
    idx := if lo >= |vs| then 0 else lo;
    assert lo == |vs| ==> vs[lo..] + vs[..lo] == vs[0..] + vs[..0];
  }

  lemma {:induction false} SplitAt(vs: seq<VNode>, h: nat, k: nat)
    requires k <= |vs|
    requires forall i :: 0 <= i < k ==> vs[i].hash < h
    requires forall i :: k <= i < |vs| ==> vs[i].hash >= h
    ensures From(vs, h) == vs[k..] && Before(vs, h) == vs[..k]
  {
    if vs != [] {
      var t := vs[..|vs| - 1];
      SplitAt(t, h, Min(k, |t|));
      assert k < |vs| ==> vs[k..] == t[k..] + [vs[|vs| - 1]];
      assert k < |vs| ==> vs[..k] == t[..k];
      assert k == |vs| ==> vs[..k] == t + [vs[|vs| - 1]];
    }
  }

  /** The index walk with wrap-around behind GetNodes: first appearances only, stopping at `limit`. */
  method CollectOwners(vs: seq<VNode>, idx: nat, limit: nat) returns (result: seq<NodeId>)
    requires idx < |vs|
    ensures var w := FirstSeen(vs[idx..] + vs[..idx]);
            result == w[..Min(limit, |w|)]
  {
    ghost var ring := vs[idx..] + vs[..idx];
    result := [];
    var seen: set<NodeId> := {};
    var total, i := |vs|, 0;
    while i < total && |result| < limit
      invariant 0 <= i <= total == |ring| && |result| <= limit
      invariant result == FirstSeen(ring[..i])
      invariant forall x :: x in seen <==> x in result
    {
      var vnode := vs[(idx + i) % total];
      StepsClockwise(vs, idx, i);
      assert ring[..i + 1][..i] == ring[..i];
      if vnode.node !in seen {
        seen := seen + {vnode.node};
        result := result + [vnode.node];
      }
      i := i + 1;
    }
    FirstSeenPrefix(ring, i);
    assert ring[..total] == ring;
  }

  /** The index walk behind GetNode: the first owner under `maxLoad`, else the first owner. */
  method ScanOwners(vs: seq<VNode>, idx: nat, loads: map<NodeId, int>, maxLoad: int) returns (r: NodeId)
    requires idx < |vs|
    ensures FirstEligible(FirstSeen(vs[idx..] + vs[..idx]), loads, maxLoad, r)
  {
    ghost var ring := vs[idx..] + vs[..idx];
    var n := |vs|;
    for i := 0 to n
      invariant forall j :: 0 <= j < i ==> !Eligible(loads, maxLoad, ring[j].node)
    {
      var vnode := vs[(idx + i) % n];
      StepsClockwise(vs, idx, i);
      if vnode.node !in loads || loads[vnode.node] < maxLoad {
        FirstVNodeIsFirstOwner(ring, i, loads, maxLoad);
        return vnode.node;
      }
    }
    NoEligibleVNode(ring, loads, maxLoad);
    return vs[idx].node;
  }

  class Ring {
    const config: Config
    var vnodes: seq<VNode>
    var nodes: set<NodeId>
    var loads: map<NodeId, int>

    ghost function Model(): State
      reads this
    {
      State(vnodes, nodes, loads)
    }

    ghost predicate Ok()
      reads this
    {
      Valid(config, Model())
    }

    constructor (vnodeCount: int, maxLoadFactor: real, hashKey: Key -> nat, hashVNode: (NodeId, nat) -> nat)
      ensures Ok() && Model() == EMPTY
      ensures config.hashKey == hashKey && config.hashVNode == hashVNode
      ensures config.nodeVnodes == if vnodeCount <= 0 then 150 else vnodeCount
      ensures config.maxLoadFactor == if maxLoadFactor < 0.0 then 0.25 else maxLoadFactor
    {
      config := Config(hashKey, hashVNode,
                       if vnodeCount <= 0 then 150 else vnodeCount,
                       if maxLoadFactor < 0.0 then 0.25 else maxLoadFactor);
      vnodes, nodes, loads := [], {}, map[];
      new;
      assert Universe(config, nodes) == {};
    }

    method AddNode(nodeID: NodeId) returns (added: bool)
      requires Ok()
      modifies this
      ensures Ok() && Added(config, old(Model()), nodeID, Model())
      ensures added == (nodeID !in old(nodes))
    {
      if nodeID in nodes { return false; }
      ghost var before := Model();
      nodes := nodes + {nodeID};
      loads := loads[nodeID := 0];
      for i := 0 to config.nodeVnodes
        invariant vnodes == before.vnodes + NewVNodes(config, nodeID)[..i]
        invariant nodes == before.nodes + {nodeID} && loads == before.loads[nodeID := 0]
      {
        vnodes := vnodes + [VNode(config.hashVNode(nodeID, i), nodeID, i)];
      }
      assert NewVNodes(config, nodeID)[..config.nodeVnodes] == NewVNodes(config, nodeID);
      vnodes := SortByHash(vnodes);
      AddedIsValid(config, before, nodeID, Model());
      return true;
    }

    method RemoveNode(nodeID: NodeId) returns (removed: bool)
      requires Ok()
      modifies this
      ensures Ok() && Model() == Removed(old(Model()), nodeID)
      ensures removed == (nodeID in old(nodes))
    {
      if nodeID !in nodes { return false; }
      ghost var before := Model();
      nodes := nodes - {nodeID};
      loads := loads - {nodeID};
      var filtered := [];
      for i := 0 to |vnodes|
        invariant filtered == DropNode(vnodes[..i], nodeID)
      {
        if vnodes[i].node != nodeID { filtered := filtered + [vnodes[i]]; }
        assert vnodes[..i + 1][..i] == vnodes[..i];
      }
      assert vnodes[..|vnodes|] == vnodes;
      vnodes := filtered;
      RemovedIsValid(config, before, nodeID);
      return true;
    }

    method GetNodes(key: Key, n: nat) returns (result: seq<NodeId>)
      requires Ok()
      ensures result == HashRing.GetNodes(config, Model(), key, n)
    {
      if vnodes == [] {
        assert HashRing.GetNodes(config, Model(), key, n) == [];
        return [];
      }
      var limit := if n > |nodes| then |nodes| else n;
      var idx := Search(vnodes, config.hashKey(key));
      result := CollectOwners(vnodes, idx, limit);
    }

    /** The mean load, as a sum over all counters divided by the number of members. */
    method AverageLoad() returns (total: int, n: nat)
      requires Ok()
      ensures n == |nodes| && total == Total(loads)
    {
      total, n := 0, |nodes|;
      var rest := loads;
      while rest != map[]
        invariant total + Total(rest) == Total(loads)
        decreases |rest|
      {
        var x :| x in rest;
        TotalSplit(rest, x);
        total := total + rest[x];
        rest := rest - {x};
      }
    }

    method GetNode(key: Key) returns (r: Option<NodeId>)
      requires Ok()
      ensures r.None? <==> nodes == {}
      ensures r.Some? ==> Routes(config, Model(), key, r.value)
    {
      EmptyTogether(config, Model());
      if vnodes == [] { return None; }
      var idx := Search(vnodes, config.hashKey(key));
      var sum, count := AverageLoad();
      var maxLoad := Bound(sum, count, config.maxLoadFactor);
      var owner := ScanOwners(vnodes, idx, loads, maxLoad);
      return Some(owner);
    }

    method IncrementLoad(nodeID: NodeId)
      requires Ok()
      modifies `loads
      ensures Ok()
      ensures loads == if nodeID in nodes then old(loads)[nodeID := old(loads)[nodeID] + 1] else old(loads)
    {
      if nodeID in loads { loads := loads[nodeID := loads[nodeID] + 1]; }
    }

    method DecrementLoad(nodeID: NodeId)
      requires Ok()
      modifies `loads
      ensures Ok()
      ensures loads == if nodeID in nodes then old(loads)[nodeID := old(loads)[nodeID] - 1] else old(loads)
    {
      if nodeID in loads { loads := loads[nodeID := loads[nodeID] - 1]; }
    }
  }

  lemma WrapAround(i: nat, n: nat)
    requires i < 2 * n
    ensures i % n == if i < n then i else i - n
  {
    if i >= n { assert i == n + (i - n); }
  }

  /** The `i`-th step of the index walk with wrap-around. */
  lemma StepsClockwise(vs: seq<VNode>, idx: nat, i: nat)
    requires idx < |vs| && i < |vs|
    ensures (vs[idx..] + vs[..idx])[i] == vs[(idx + i) % |vs|]
  {
    WrapAround(idx + i, |vs|);
  }
}
