/** What the copies of a key hold, read off the steps of the run: the last write, and nothing after a delete. */
module ReplicationTraces {
  import opened Common
  import opened Replication

  /** What step `st`, taken in state `s`, writes to `k` at `p`. */
  ghost function WrittenBy(s: System, st: Step, p: NodeId, k: Key): Option<Effect> {
    match st
    case Write(n, j, e) => if n == p && j == k then Some(e) else None
    case Expire(n, j, ttl) =>
      if n == p && j == k && k in Store(s, p) then Some(Put(Store(s, p)[k].value, ttl)) else None
    case _ => None
  }

  /** `m` holds of `k` what the write `e` left: nothing after a delete, else its value, unless a deadline has passed. */
  ghost predicate Reflects(m: Copies, k: Key, e: Effect) {
    match e
    case Remove => k !in m
    case Put(v, ttl) => (k in m ==> m[k] == Copy(v, ttl <= 0)) && (ttl <= 0 ==> k in m)
  }

  lemma ShownReflects(m: Copies, k: Key, e: Effect)
    requires Shows(Look(m, k), Outcome(e))
    ensures Reflects(m, k, e)
  {
  }

  lemma WriteReflects(pl: Roles, s: System, st: Step, p: NodeId, k: Key, e: Effect)
    requires Enabled(pl, s, st) && WrittenBy(s, st, p, k) == Some(e)
    ensures Reflects(Store(Next(pl, s, st), p), k, e)
    ensures (p, k) in Next(pl, s, st).latest && Next(pl, s, st).latest[(p, k)] == e
  {
    PutLook(s, p, k, e, p, k);
  }

  /** A primary's copy of a key is touched by nothing else, except that a copy with a deadline may lapse. */
  lemma OthersKeep(pl: Roles, s: System, st: Step, p: NodeId, k: Key)
    requires ValidRoles(pl) && IsPrimary(pl, p, k) && Enabled(pl, s, st) && WrittenBy(s, st, p, k) == None
    requires st.Deliver? ==> ChannelOk(pl, s, st.source, st.target)
    ensures var a, b := Look(Store(s, p), k), Look(Store(Next(pl, s, st), p), k);
            b == a || (b == None && !Lasting(a))
    ensures Latest(Next(pl, s, st), p, k) == Latest(s, p, k)
  {
    match st
    case Write(n, j, e) =>
      PutLook(s, n, j, e, p, k);
    case Expire(n, j, ttl) =>
      if j in Store(s, n) { PutLook(s, n, j, Put(Store(s, n)[j].value, ttl), p, k); }
    case ReadBack(n, i) => ReadBackKeepsRest(s, n, i);
    case Announce(n, i) => AnnounceEffect(pl, s, n, i, p);
    case Deliver(n, t, i) =>
      PendingRoles(pl, s, n, t, i);
      DeliverLook(s, n, t, i, p, k);
    case Lose(_, _, _) =>
    case Lapse(_, _) =>
  }

  /** Step `i` is the last one that writes `k` at `p`, and it writes `e`. */
  ghost predicate LastWrite(run: seq<Step>, states: seq<System>, p: NodeId, k: Key, i: nat, e: Effect) {
    && i < |run| < |states| && WrittenBy(states[i], run[i], p, k) == Some(e)
    && forall j :: i < j < |run| ==> WrittenBy(states[j], run[j], p, k) == None
  }

  lemma {:induction false} PrimaryShowsLastWrite(pl: Roles, run: seq<Step>, states: seq<System>, p: NodeId, k: Key,
                                                 i: nat, e: Effect)
    requires ValidRoles(pl) && IsRun(pl, run, states) && IsPrimary(pl, p, k) && LastWrite(run, states, p, k, i, e)
    ensures Reflects(Store(states[|run|], p), k, e) && Latest(states[|run|], p, k) == Outcome(e)
  {
    var n := |run| - 1;
    if i == n {
      WriteReflects(pl, states[n], run[n], p, k, e);
    } else {
      PrimaryShowsLastWrite(pl, run[..n], states[..n + 1], p, k, i, e);
      RunKeepsInv(pl, run[..n], states[..n + 1]);
      if run[n].Deliver? { assert ChannelOk(pl, states[n], run[n].source, run[n].target); }
      OthersKeep(pl, states[n], run[n], p, k);
    }
  }

  /** A key that was never written at its primary is not there. */
  lemma {:induction false} UnwrittenIsAbsent(pl: Roles, run: seq<Step>, states: seq<System>, p: NodeId, k: Key)
    requires ValidRoles(pl) && IsRun(pl, run, states) && IsPrimary(pl, p, k)
    requires forall j :: 0 <= j < |run| ==> WrittenBy(states[j], run[j], p, k) == None
    ensures k !in Store(states[|run|], p)
  {
    if run != [] {
      var n := |run| - 1;
      UnwrittenIsAbsent(pl, run[..n], states[..n + 1], p, k);
      RunKeepsInv(pl, run[..n], states[..n + 1]);
      if run[n].Deliver? { assert ChannelOk(pl, states[n], run[n].source, run[n].target); }
      OthersKeep(pl, states[n], run[n], p, k);
    }
  }

  /**
   * The primary announced its writes of `k` one by one, and the secondary has handled them in sequence with nothing
   * lost. Then both hold what the last write of the run left: the key is gone from both after a delete.
   */
  lemma BothShowLastWrite(pl: Roles, run: seq<Step>, states: seq<System>, p: NodeId, t: NodeId, k: Key, i: nat,
                          e: Effect)
    requires Replicates(pl, run, states, p, t, k) && LastWrite(run, states, p, k, i, e) && Announced(states, p, k)
    requires Emptied(LinkOf(states[|run|], p, t), k) && InOrder(LinkOf(states[|run|], p, t).handled, k)
    ensures Reflects(Store(states[|run|], p), k, e) && Reflects(Store(states[|run|], t), k, e)
  {
    var s := states[|run|];
    var l := LinkOf(s, p, t);
    PrimaryShowsLastWrite(pl, run, states, p, k, i, e);
    EndsAreOk(pl, run, states, p, t, k);
    RunKnowsLatest(pl, run, states, p, t, k);
    assert multiset(l.sent) == multiset(l.handled) + multiset(l.lost);
    InOrderSaysTheLast(l.sent, l.handled, l.lost, k);
    ShownReflects(Store(s, t), k, e);
  }
}
