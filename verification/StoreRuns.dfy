/** Every interleaving of store operations, lazy collection and sweeps answers like the flat timed map. */
module StoreRuns {
  import opened Common
  import opened TimedStore

  /**
   * Atomic steps: one lock-protected section each. A Get is `Read`, followed, if it found an expired entry, by a
   * `Collect` at any later point; `Set` carries the clock reading it took before locking; `Sweep` is one sampling
   * round over any choice of keys. Keys, Len and ForEach lock one shard at a time, so they are not steps: a scan
   * reads each shard at a moment of its own (see below).
   */
  datatype Op =
    | Tick(to: int)
    | Read(k: Key)
    | Collect(k: Key)
    | Sweep(i: nat, sample: set<Key>)
    | Set(k: Key, v: Value, ttl: int, at: int)
    | Delete(k: Key)
    | Expire(k: Key, ttl: int)

  datatype Resp =
    | NoResp
    | Got(value: Option<Value>)
    | Existed(b: bool)
    | ExistedBetween(live: bool, present: bool)
    | Found(b: bool)

  datatype Sharded = Sharded(shards: seq<Items>, now: int)

  datatype Flat = Flat(items: Items, now: int)

  ghost predicate WellShaped(l: Layout, s: Sharded) {
    ValidLayout(l) && |s.shards| == l.n > 0 && forall k :: ShardOf(l, k) < |s.shards|
  }

  function Stale(m: Items, ks: set<Key>, now: int): set<Key> {
    set k | k in ks && k in m && Expired(m[k], now)
  }

  ghost function ShardStep(l: Layout, s: Sharded, op: Op): (Sharded, Resp)
    requires WellShaped(l, s)
  {
    match op
    case Tick(t) => (s.(now := Max(s.now, t)), NoResp)
    case Read(k) =>
      var sh := s.shards[ShardOf(l, k)];
      (s, Got(if k in sh && !Expired(sh[k], s.now) then Some(sh[k].value) else None))
    case Collect(k) =>
      var i := ShardOf(l, k);
      (s.(shards := Drop(s.shards, i, Stale(s.shards[i], {k}, s.now))), NoResp)
    case Sweep(i, sample) =>
      if i < |s.shards| then (s.(shards := Drop(s.shards, i, Stale(s.shards[i], sample, s.now))), NoResp)
      else (s, NoResp)
    case Set(k, v, ttl, at) =>
      (s.(shards := Put(s.shards, ShardOf(l, k), k, Entry(v, Deadline(ttl, at)))), NoResp)
    case Delete(k) =>
      var i := ShardOf(l, k);
      (s.(shards := Drop(s.shards, i, {k})), Existed(k in s.shards[i]))
    case Expire(k, ttl) =>
      var i := ShardOf(l, k);
      var sh := s.shards[i];
      if k !in sh || Expired(sh[k], s.now) then (s, Found(false))
      else (s.(shards := Put(s.shards, i, k, sh[k].(expiresAt := Deadline(ttl, s.now)))), Found(true))
  }

  ghost function FlatStep(f: Flat, op: Op): (Flat, Resp) {
    match op
    case Tick(t) => (f.(now := Max(f.now, t)), NoResp)
    case Read(k) => (f, Got(FlatGet(f.items, k, f.now)))
    case Collect(_) => (f, NoResp)
    case Sweep(_, _) => (f, NoResp)
    case Set(k, v, ttl, at) => (f.(items := f.items[k := Entry(v, Deadline(ttl, at))]), NoResp)
    case Delete(k) => (f.(items := f.items - {k}), ExistedBetween(Live(f.items, k, f.now), k in f.items))
    case Expire(k, ttl) => (f.(items := FlatExpire(f.items, k, ttl, f.now)), Found(Live(f.items, k, f.now)))
  }

  /** Answers agree; Delete may also report an entry that expired but was not yet collected. */
  ghost predicate Agrees(r: Resp, flat: Resp) {
    if flat.ExistedBetween? then r.Existed? && (flat.live ==> r.b) && (r.b ==> flat.present)
    else r == flat
  }

  ghost predicate Simulates(l: Layout, s: Sharded, f: Flat) {
    s.now == f.now && Refines(l, s.shards, f.items, s.now)
  }

  lemma SimulatesShape(l: Layout, s: Sharded, f: Flat)
    requires Simulates(l, s, f)
    ensures WellShaped(l, s)
  {
    forall k ensures ShardOf(l, k) < |s.shards| { ShardInRange(l, k); }
  }

  lemma CollectSimulates(l: Layout, s: Sharded, f: Flat, i: nat, ks: set<Key>)
    requires Simulates(l, s, f) && i < |s.shards|
    ensures Simulates(l, s.(shards := Drop(s.shards, i, Stale(s.shards[i], ks, s.now))), f)
  {
    CollectRefines(l, s.shards, f.items, s.now, i, Stale(s.shards[i], ks, s.now));
  }

  lemma KeyedStepMatches(l: Layout, s: Sharded, f: Flat, op: Op)
    requires Simulates(l, s, f) && WellShaped(l, s)
    requires op.Read? || op.Set? || op.Delete? || op.Expire?
    ensures Simulates(l, ShardStep(l, s, op).0, FlatStep(f, op).0)
    ensures Agrees(ShardStep(l, s, op).1, FlatStep(f, op).1)
  {
    ShardAnswers(l, s.shards, f.items, s.now, op.k);
    match op
    case Read(k) =>
    case Set(k, v, ttl, at) => PutRefines(l, s.shards, f.items, s.now, k, Entry(v, Deadline(ttl, at)));
    case Delete(k) => DeleteRefines(l, s.shards, f.items, s.now, k);
    case Expire(k, ttl) =>
      if Live(f.items, k, f.now) {
        PutRefines(l, s.shards, f.items, s.now, k, f.items[k].(expiresAt := Deadline(ttl, f.now)));
      }
  }

  lemma StepMatches(l: Layout, s: Sharded, f: Flat, op: Op)
    requires Simulates(l, s, f) && WellShaped(l, s)
    ensures Simulates(l, ShardStep(l, s, op).0, FlatStep(f, op).0)
    ensures Agrees(ShardStep(l, s, op).1, FlatStep(f, op).1)
  {
    match op
    case Tick(t) => TickRefines(l, s.shards, f.items, s.now, Max(s.now, t));
    case Collect(k) => CollectSimulates(l, s, f, ShardOf(l, k), {k});
    case Sweep(i, sample) => if i < |s.shards| { CollectSimulates(l, s, f, i, sample); }
    case _ => KeyedStepMatches(l, s, f, op);
  }

  /** Collecting a key, or sweeping a sample, deletes exactly the expired entries among them. */
  lemma CollectionDeletesTheExpired(l: Layout, s: Sharded, op: Op, i: nat, x: Key)
    requires WellShaped(l, s) && i < |s.shards| && (op.Collect? || op.Sweep?)
    ensures var t := ShardStep(l, s, op).0;
            var chosen := if op.Collect? then i == ShardOf(l, op.k) && x == op.k else i == op.i && x in op.sample;
            && |t.shards| == |s.shards|
            && (x in t.shards[i] <==> x in s.shards[i] && !(chosen && Expired(s.shards[i][x], s.now)))
            && (x in t.shards[i] ==> t.shards[i][x] == s.shards[i][x])
  {
  }

  // ---------------------------------------------------------------- runs

  ghost function FlatRun(ops: seq<Op>): (Flat, seq<Resp>) {
    if ops == [] then (Flat(map[], 0), [])
    else
      var (f, rs) := FlatRun(ops[..|ops| - 1]);
      var (g, r) := FlatStep(f, ops[|ops| - 1]);
      (g, rs + [r])
  }

  /** `states` and `rs` are the states and the answers of running `ops` on a new store. */
  ghost predicate ShardRun(l: Layout, ops: seq<Op>, states: seq<Sharded>, rs: seq<Resp>) {
    && |states| == |ops| + 1 && |rs| == |ops|
    && states[0] == Sharded(seq(l.n, _ => map[]), 0)
    && forall i :: 0 <= i < |ops| ==>
         WellShaped(l, states[i]) ==> ShardStep(l, states[i], ops[i]) == (states[i + 1], rs[i])
  }

  lemma NewStoreRefines(l: Layout)
    requires ValidLayout(l)
    ensures Simulates(l, Sharded(seq(l.n, _ => map[]), 0), Flat(map[], 0))
  {
  }

  /** Over every run the sharded store gives the flat map's answers and loses no live entry. */
  lemma {:induction false} StoreRefinesFlatMap(l: Layout, ops: seq<Op>, states: seq<Sharded>, rs: seq<Resp>)
    requires ValidLayout(l) && ShardRun(l, ops, states, rs)
    ensures Simulates(l, states[|ops|], FlatRun(ops).0)
    ensures |FlatRun(ops).1| == |ops|
    ensures forall i :: 0 <= i < |ops| ==> Agrees(rs[i], FlatRun(ops).1[i])
  {
    if ops == [] {
      NewStoreRefines(l);
    } else {
      var n := |ops| - 1;
      StoreRefinesFlatMap(l, ops[..n], states[..n + 1], rs[..n]);
      SimulatesShape(l, states[n], FlatRun(ops[..n]).0);
      StepMatches(l, states[n], FlatRun(ops[..n]).0, ops[n]);
    }
  }

  // ---------------------------------------------------------------- scans among other steps

  /** A scan reads the clock after step `start`, and shard `i` after step `at[i]`, one shard after another. */
  ghost predicate IsScan(l: Layout, states: seq<Sharded>, start: nat, at: seq<nat>) {
    && |at| == l.n && start < |states|
    && (forall i :: 0 <= i < |at| ==> start <= at[i] < |states| && |states[at[i]].shards| == l.n)
    && forall i, j :: 0 <= i <= j < |at| ==> at[i] <= at[j]
  }

  /** The shards as the scan found them. */
  ghost function Seen(l: Layout, states: seq<Sharded>, start: nat, at: seq<nat>): seq<Items>
    requires IsScan(l, states, start, at)
  {
    seq(|at|, i requires 0 <= i < |at| => states[at[i]].shards[i])
  }

  lemma {:induction false} ClockAdvances(l: Layout, ops: seq<Op>, states: seq<Sharded>, rs: seq<Resp>, i: nat, j: nat)
    requires ValidLayout(l) && ShardRun(l, ops, states, rs) && i <= j <= |ops|
    ensures states[i].now <= states[j].now
  {
    if i < j {
      ClockAdvances(l, ops, states, rs, i, j - 1);
      MomentSimulates(l, ops, states, rs, j - 1);
      SimulatesShape(l, states[j - 1], FlatRun(ops[..j - 1]).0);
      assert ShardStep(l, states[j - 1], ops[j - 1]) == (states[j], rs[j - 1]);
    }
  }

  /** At every moment the shards stand for the flat map at that moment. */
  lemma MomentSimulates(l: Layout, ops: seq<Op>, states: seq<Sharded>, rs: seq<Resp>, j: nat)
    requires ValidLayout(l) && ShardRun(l, ops, states, rs) && j <= |ops|
    ensures Simulates(l, states[j], FlatRun(ops[..j]).0)
  {
    StoreRefinesFlatMap(l, ops[..j], states[..j + 1], rs[..j]);
  }

  /** Each shard the scan saw is one of a store that stood for the flat map at that shard's moment. */
  lemma SeenShard(l: Layout, ops: seq<Op>, states: seq<Sharded>, rs: seq<Resp>, start: nat, at: seq<nat>, i: nat,
                  k: Key)
    requires ValidLayout(l) && ShardRun(l, ops, states, rs) && IsScan(l, states, start, at) && i < |at|
    ensures var f := FlatRun(ops[..at[i]]).0;
            && states[start].now <= f.now
            && (k in Seen(l, states, start, at)[i] ==>
                  i == ShardOf(l, k) && k in f.items && Seen(l, states, start, at)[i][k] == f.items[k])
            && (i == ShardOf(l, k) && Live(f.items, k, f.now) ==> k in Seen(l, states, start, at)[i])
  {
    MomentSimulates(l, ops, states, rs, at[i]);
    ClockAdvances(l, ops, states, rs, start, at[i]);
    ShardAnswers(l, states[at[i]].shards, FlatRun(ops[..at[i]]).0.items, states[at[i]].now, k);
  }

  /** What the flat map says when `k`'s shard is read. */
  ghost function WhenRead(l: Layout, ops: seq<Op>, at: seq<nat>, k: Key): Flat
    requires l.n > 0 && ShardOf(l, k) < |at| && at[ShardOf(l, k)] <= |ops|
  {
    FlatRun(ops[..at[ShardOf(l, k)]]).0
  }

  /**
   * Keys, Len and ForEach among any other steps. A key is reported only if the flat map has it, unexpired at the
   * scan's clock reading, at the moment its shard is read, and with that entry; and every key that can still be read
   * at that moment is reported. Len is the number of keys a listing reports.
   */
  lemma InterleavedScan(l: Layout, ops: seq<Op>, states: seq<Sharded>, rs: seq<Resp>, start: nat, at: seq<nat>, k: Key)
    requires ValidLayout(l) && ShardRun(l, ops, states, rs) && IsScan(l, states, start, at)
    ensures l.n > 0 && ShardOf(l, k) < |at| && at[ShardOf(l, k)] <= |ops|
    ensures var shards, now, f := Seen(l, states, start, at), states[start].now, WhenRead(l, ops, at, k);
            && (k in ShardKeys(shards, now) ==> k in FlatKeys(f.items, now))
            && (k in FlatKeys(f.items, now) && Live(f.items, k, f.now) ==> k in ShardKeys(shards, now))
            && (k in ShardEntries(shards, now) ==>
                  k in FlatEntries(f.items, now) && ShardEntries(shards, now)[k] == FlatEntries(f.items, now)[k])
            && (Live(f.items, k, f.now) ==> k in ShardEntries(shards, now))
            && ShardCount(shards, now) == |ShardKeys(shards, now)|
  {
    ShardInRange(l, k);
    var shards, now := Seen(l, states, start, at), states[start].now;
    var i := ShardOf(l, k);
    SeenShard(l, ops, states, rs, start, at, i, k);
    forall a, b, x | 0 <= a < b < |shards| && x in shards[a] ensures x !in shards[b] {
      SeenShard(l, ops, states, rs, start, at, a, x);
      SeenShard(l, ops, states, rs, start, at, b, x);
    }
    forall a | 0 <= a < |shards| && k in shards[a] ensures a == i { SeenShard(l, ops, states, rs, start, at, a, k); }
    ShardKeysMembers(shards, now);
    ShardEntriesMembers(shards, now, k);
    ShardCountIsSize(shards, now);
  }

  /** So a key that is listed throughout the scan is reported, whatever happens to the others meanwhile. */
  lemma SteadyKeysAreListed(l: Layout, ops: seq<Op>, states: seq<Sharded>, rs: seq<Resp>, start: nat, at: seq<nat>,
                            k: Key)
    requires ValidLayout(l) && ShardRun(l, ops, states, rs) && IsScan(l, states, start, at)
    requires forall j :: start <= j <= |ops| ==> k in FlatKeys(FlatRun(ops[..j]).0.items, states[j].now)
    ensures k in ShardKeys(Seen(l, states, start, at), states[start].now)
  {
    InterleavedScan(l, ops, states, rs, start, at, k);
    var j := at[ShardOf(l, k)];
    MomentSimulates(l, ops, states, rs, j);
    ClockAdvances(l, ops, states, rs, start, j);
    assert k in FlatKeys(FlatRun(ops[..j]).0.items, states[j].now);
  }


  // ---------------------------------------------------------------- lifetimes, from the trace alone

  /** The step may change the entry of `k`. */
  predicate Touches(op: Op, k: Key) { (op.Set? || op.Delete? || op.Expire?) && op.k == k }

  ghost predicate Untouched(ops: seq<Op>, i: nat, k: Key) {
    forall j :: i <= j < |ops| ==> !Touches(ops[j], k)
  }

  /** A time to live given at `at` is not over. */
  predicate Lasts(ttl: int, at: int, now: int) { ttl <= 0 || now <= at + ttl }

  lemma {:induction false} UntouchedStays(ops: seq<Op>, i: nat, k: Key)
    requires i <= |ops| && Untouched(ops, i, k)
    ensures var a, b := FlatRun(ops[..i]).0.items, FlatRun(ops).0.items;
            (k in a <==> k in b) && (k in a ==> a[k] == b[k])
  {
    if i == |ops| {
      assert ops[..i] == ops;
    } else {
      var front := ops[..|ops| - 1];
      UntouchedStays(front, i, k);
      assert front[..i] == ops[..i];
    }
  }

  lemma FlatStepAt(ops: seq<Op>, i: nat)
    requires i < |ops|
    ensures FlatRun(ops[..i + 1]).0 == FlatStep(FlatRun(ops[..i]).0, ops[i]).0
  {
    assert ops[..i + 1][..i] == ops[..i];
  }

  /** The entry of `k` in the sharded store, as a read sees it after the run. */
  ghost predicate ReadsAs(l: Layout, s: Sharded, k: Key, answer: Option<Value>)
    requires WellShaped(l, s)
  {
    ShardStep(l, s, Read(k)).1 == Got(answer)
  }

  lemma ReadIsFlat(l: Layout, ops: seq<Op>, states: seq<Sharded>, rs: seq<Resp>, k: Key)
    requires ValidLayout(l) && ShardRun(l, ops, states, rs)
    ensures WellShaped(l, states[|ops|]) && FlatRun(ops).0.now == states[|ops|].now
    ensures ReadsAs(l, states[|ops|], k, FlatGet(FlatRun(ops).0.items, k, FlatRun(ops).0.now))
  {
    StoreRefinesFlatMap(l, ops, states, rs);
    SimulatesShape(l, states[|ops|], FlatRun(ops).0);
    StepMatches(l, states[|ops|], FlatRun(ops).0, Read(k));
  }

  /** `e` has the value `v` and a time to live counted from `at`. */
  ghost predicate Has(e: Entry, v: Value, ttl: int, at: int) {
    e.value == v && if ttl > 0 then e.expiresAt == Some(at + ttl) else e.expiresAt == None
  }

  lemma HasReads(m: Items, k: Key, v: Value, ttl: int, at: int, now: int)
    requires k in m && Has(m[k], v, ttl, at)
    ensures FlatGet(m, k, now) == if Lasts(ttl, at, now) then Some(v) else None
  {
  }

  lemma HasLists(m: Items, k: Key, v: Value, ttl: int, at: int, now: int)
    requires k in m && Has(m[k], v, ttl, at)
    ensures k in FlatEntries(m, now) <==> Lasts(ttl, at, now)
    ensures k in FlatEntries(m, now) ==> FlatEntries(m, now)[k] == (v, if ttl > 0 then at + ttl - now else 0)
    ensures k in FlatKeys(m, now) <==> ttl <= 0 || now < at + ttl
  {
  }

  lemma FlatSet(ops: seq<Op>, i: nat, k: Key, v: Value, ttl: int, at: int)
    requires i < |ops| && ops[i] == Set(k, v, ttl, at) && Untouched(ops, i + 1, k)
    ensures k in FlatRun(ops).0.items && Has(FlatRun(ops).0.items[k], v, ttl, at)
  {
    FlatStepAt(ops, i);
    UntouchedStays(ops, i + 1, k);
  }

  lemma FlatRenewed(ops: seq<Op>, i: nat, k: Key, v: Value, ttl: int)
    requires i < |ops| && ops[i] == Expire(k, ttl) && Untouched(ops, i + 1, k)
    requires FlatGet(FlatRun(ops[..i]).0.items, k, FlatRun(ops[..i]).0.now) == Some(v)
    ensures k in FlatRun(ops).0.items && Has(FlatRun(ops).0.items[k], v, ttl, FlatRun(ops[..i]).0.now)
  {
    FlatStepAt(ops, i);
    UntouchedStays(ops, i + 1, k);
  }

  /** The last step on `k` set it: it is read back exactly until its time to live is over, for ever if it has none. */
  lemma SetIsReadBack(l: Layout, ops: seq<Op>, states: seq<Sharded>, rs: seq<Resp>, i: nat, k: Key, v: Value, ttl: int,
                      at: int)
    requires ValidLayout(l) && ShardRun(l, ops, states, rs)
    requires i < |ops| && ops[i] == Set(k, v, ttl, at) && Untouched(ops, i + 1, k)
    ensures WellShaped(l, states[|ops|])
    ensures ReadsAs(l, states[|ops|], k, if Lasts(ttl, at, states[|ops|].now) then Some(v) else None)
  {
    ReadIsFlat(l, ops, states, rs, k);
    FlatSet(ops, i, k, v, ttl, at);
    HasReads(FlatRun(ops).0.items, k, v, ttl, at, states[|ops|].now);
  }

  /** A scan reports it with the time left, 0 if there is no limit. */
  lemma SetIsListed(ops: seq<Op>, i: nat, k: Key, v: Value, ttl: int, at: int, m: Items, now: int)
    requires i < |ops| && ops[i] == Set(k, v, ttl, at) && Untouched(ops, i + 1, k) && FlatRun(ops).0 == Flat(m, now)
    ensures k in FlatEntries(m, now) <==> Lasts(ttl, at, now)
    ensures k in FlatEntries(m, now) ==> FlatEntries(m, now)[k] == (v, if ttl > 0 then at + ttl - now else 0)
    ensures k in FlatKeys(m, now) <==> ttl <= 0 || now < at + ttl
  {
    FlatSet(ops, i, k, v, ttl, at);
    HasLists(m, k, v, ttl, at, now);
  }

  /**
   * The last step on `k` was an Expire that found it: the value read before is read back exactly until the new time to
   * live, counted from that step, is over.
   */
  lemma ExpireIsKept(l: Layout, ops: seq<Op>, states: seq<Sharded>, rs: seq<Resp>, i: nat, k: Key, v: Value, ttl: int)
    requires ValidLayout(l) && ShardRun(l, ops, states, rs)
    requires i < |ops| && ops[i] == Expire(k, ttl) && Untouched(ops, i + 1, k)
    requires WellShaped(l, states[i]) && ReadsAs(l, states[i], k, Some(v))
    ensures rs[i] == Found(true) && WellShaped(l, states[|ops|])
    ensures ReadsAs(l, states[|ops|], k, if Lasts(ttl, states[i].now, states[|ops|].now) then Some(v) else None)
  {
    ReadIsFlat(l, ops, states, rs, k);
    ReadIsFlat(l, ops[..i], states[..i + 1], rs[..i], k);
    assert ShardStep(l, states[i], ops[i]) == (states[i + 1], rs[i]);
    FlatRenewed(ops, i, k, v, ttl);
    HasReads(FlatRun(ops).0.items, k, v, ttl, states[i].now, states[|ops|].now);
  }

  /** The last step on `k` deleted it, or there was none: nothing is read. */
  lemma DeletedIsGone(l: Layout, ops: seq<Op>, states: seq<Sharded>, rs: seq<Resp>, i: nat, k: Key)
    requires ValidLayout(l) && ShardRun(l, ops, states, rs)
    requires i <= |ops| && Untouched(ops, i, k) && (i == 0 || ops[i - 1] == Delete(k))
    ensures WellShaped(l, states[|ops|]) && ReadsAs(l, states[|ops|], k, None)
  {
    ReadIsFlat(l, ops, states, rs, k);
    if i > 0 { FlatStepAt(ops, i - 1); }
    UntouchedStays(ops, i, k);
  }
}
