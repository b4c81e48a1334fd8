/** The store and its sweeper as the mutable objects a node runs. */
module StoreObject {
  import opened Common
  import opened TimedStore

  const DEFAULT_SHARDS := 256
  const SAMPLES_PER_SWEEP: nat := 20

  /** The smallest power of two that is at least the requested count. */
  method RoundUp(shardCount: int) returns (n: nat)
    ensures IsPow2(n)
    ensures n >= (if shardCount <= 0 then 256 else shardCount)
    ensures n == 1 || n / 2 < (if shardCount <= 0 then 256 else shardCount)
  {
    var want := if shardCount <= 0 then DEFAULT_SHARDS else shardCount;
    n := 1;
    ghost var k := 0;
    while n < want
      invariant n == Pow2(k) && n > 0
      invariant n == 1 || n / 2 < want
      decreases want - n
    {
      n := n * 2;
      k := k + 1;
    }
  }

  class Store {
    const layout: Layout
    const shards: array<Items>
    ghost var flat: Items
    ghost var clock: int

    /** The shards stand for the flat map `flat` at time `clock`. */
    ghost predicate Valid()
      reads this, shards
    {
      Refines(layout, shards[..], flat, clock)
    }

    constructor (shardCount: int, hash: Key -> nat)
      ensures Valid() && fresh(shards) && flat == map[] && clock == 0
      ensures layout.hash == hash
    {
      var n := RoundUp(shardCount);
      layout := Layout(hash, n);
      shards := new Items[n](_ => map[]);
      flat, clock := map[], 0;
    }

    ghost method Advance(now: int)
      requires Valid() && clock <= now
      modifies `clock
      ensures Valid() && clock == now
    {
      TickRefines(layout, shards[..], flat, clock, now);
      clock := now;
    }

    /** `now1` is the clock at the first check, `now2` after the lock upgrade. */
    method Get(key: Key, now1: int, now2: int) returns (r: Option<Value>)
      requires Valid() && clock <= now1 <= now2
      modifies this, shards
      ensures Valid() && flat == old(flat) && clock == now2
      ensures r == FlatGet(flat, key, now1)
      ensures r.None? ==> !InShard(layout, shards[..], key)
      ensures forall j :: 0 <= j < shards.Length ==> shards[j] == old(shards[j]) || shards[j] == old(shards[j]) - {key}
    {
      Advance(now1);
      ShardAnswers(layout, shards[..], flat, now1, key);
      Advance(now2);
      var i := ShardOf(layout, key);
      if key !in shards[i] { return None; }
      var entry := shards[i][key];
      if Expired(entry, now1) {
        if key in shards[i] && Expired(shards[i][key], now2) {
          CollectRefines(layout, shards[..], flat, now2, i, {key});
          shards[i] := shards[i] - {key};
          assert shards[..] == Drop(old(shards[..]), i, {key});
        }
        return None;
      }
      return Some(entry.value);
    }

    method Set(key: Key, value: Value, ttl: int, now: int)
      requires Valid() && clock <= now
      modifies this, shards
      ensures Valid() && clock == now
      ensures flat == old(flat)[key := Entry(value, Deadline(ttl, now))]
    {
      Advance(now);
      var entry := Entry(value, Deadline(ttl, now));
      PutRefines(layout, shards[..], flat, now, key, entry);
      var i := ShardOf(layout, key);
      shards[i] := shards[i][key := entry];
      assert shards[..] == Put(old(shards[..]), i, key, entry);
      flat := flat[key := entry];
    }

    /** Answers by presence: an entry that expired but was not collected yet still counts. */
    method Delete(key: Key) returns (existed: bool)
      requires Valid()
      modifies this, shards
      ensures Valid() && clock == old(clock) && flat == old(flat) - {key}
      ensures existed == old(InShard(layout, shards[..], key))
      ensures Live(old(flat), key, clock) ==> existed
      ensures existed ==> key in old(flat)
    {
      ShardAnswers(layout, shards[..], flat, clock, key);
      DeleteRefines(layout, shards[..], flat, clock, key);
      var i := ShardOf(layout, key);
      existed := key in shards[i];
      if existed { shards[i] := shards[i] - {key}; } else { assert shards[i] - {key} == shards[i]; }
      assert shards[..] == Drop(old(shards[..]), i, {key});
      flat := flat - {key};
    }

    method Expire(key: Key, ttl: int, now: int) returns (found: bool)
      requires Valid() && clock <= now
      modifies this, shards
      ensures Valid() && clock == now
      ensures found == Live(old(flat), key, now)
      ensures flat == FlatExpire(old(flat), key, ttl, now)
    {
      Advance(now);
      ShardAnswers(layout, shards[..], flat, now, key);
      var i := ShardOf(layout, key);
      if key !in shards[i] || Expired(shards[i][key], now) { return false; }
      var entry := shards[i][key].(expiresAt := Deadline(ttl, now));
      PutRefines(layout, shards[..], flat, now, key, entry);
      shards[i] := shards[i][key := entry];
      assert shards[..] == Put(old(shards[..]), i, key, entry);
      flat := flat[key := entry];
      return true;
    }

    /** One sampling round over a shard, seen by the whole store: no answer changes. */
    method SampleShard(index: nat, now: int) returns (expired: nat, samples: nat, ghost sampled: set<Key>)
      requires Valid() && clock <= now && index < shards.Length
      modifies `clock, shards
      ensures Valid() && clock == now && flat == old(flat)
      ensures forall j :: 0 <= j < shards.Length && j != index ==> shards[j] == old(shards[j])
      ensures IsRound(old(shards[index]), shards[index], expired, samples, sampled, now)
    {
      ghost var items := shards[index];
      var left;
      left, expired, samples, sampled := SampleRound(shards[index], now);
      Advance(now);
      CollectRefines(layout, shards[..], flat, now, index, items.Keys - left.Keys);
      assert left == items - (items.Keys - left.Keys);
      shards[index] := left;
      assert shards[..] == Drop(old(shards[..]), index, items.Keys - left.Keys);
    }

    /** Whatever other goroutines do to the store between two locks of a scan: any requests and sampling rounds. */
    method Others(last: int) returns (now: int)
      requires Valid() && clock <= last
      modifies this, shards
      ensures Valid() && last <= now && clock == now
    {
      var count: int :| count >= 0;
      now := last;
      for i := 0 to count
        modifies this, shards
        invariant Valid() && last <= now && clock <= now
      {
        var next: int :| now <= next;
        now := next;
        var key: Key, value: Value, ttl: int := *, *, *;
        if * {
          Set(key, value, ttl, now);
        } else if * {
          var _ := Get(key, now, now);
        } else if * {
          var _ := Expire(key, ttl, now);
        } else if * {
          var _ := Delete(key);
        } else {
          var index: nat :| index < shards.Length;
          var _, _, _ := SampleShard(index, now);
        }
      }
      Advance(now);
    }

    /** Every listed key once, in an unspecified order, one shard at a time among other work. */
    method Keys(start: int) returns (keys: seq<Key>, ghost scan: Scan)
      requires Valid() && clock <= start
      modifies this, shards
      ensures Valid() && Complete(layout, scan, start) && Reports(layout, keys, scan, start)
    {
      keys, scan := [], Scan([], []);
      var last := start;
      for i := 0 to shards.Length
        modifies this, shards
        invariant Valid() && start <= last && clock <= last
        invariant |scan.maps| == i && Ordered(scan, start, last) && Reports(layout, keys, scan, start)
      {
        last := Others(last);
        var more := ListKeys(shards[i], start);
        ReportNext(layout, keys, scan, start, shards[..], flat, last, more);
        keys, scan := keys + more, Extended(scan, flat, last);
      }
    }

    /** The number of keys such a listing has. */
    method Len(start: int) returns (count: nat, ghost keys: seq<Key>, ghost scan: Scan)
      requires Valid() && clock <= start
      modifies this, shards
      ensures Valid() && Complete(layout, scan, start) && Reports(layout, keys, scan, start) && count == |keys|
    {
      count, keys, scan := 0, [], Scan([], []);
      var last := start;
      for i := 0 to shards.Length
        modifies this, shards
        invariant Valid() && start <= last && clock <= last && count == |keys|
        invariant |scan.maps| == i && Ordered(scan, start, last) && Reports(layout, keys, scan, start)
      {
        last := Others(last);
        var more := ListKeys(shards[i], start);
        ReportNext(layout, keys, scan, start, shards[..], flat, last, more);
        keys, scan := keys + more, Extended(scan, flat, last);
        count := count + |more|;
      }
    }

    /**
     * Calls `fn` on unexpired entries, one shard at a time among other work, until it returns false; `seen` are the
     * entries it was called on.
     */
    method ForEach(start: int, fn: (Key, Value, int) -> bool)
      returns (visited: seq<Key>, seen: Items, ghost scan: Scan)
      requires Valid() && clock <= start
      modifies this, shards
      ensures Valid() && |scan.maps| <= layout.n && Visited(layout, fn, visited, seen, scan, start)
      ensures visited == [] || Accepts(layout, fn, scan, visited[|visited| - 1], start) ==>
                Complete(layout, scan, start) && VisitsAll(layout, visited, scan)
    {
      visited, seen, scan := [], map[], Scan([], []);
      var last := start;
      for i := 0 to shards.Length
        modifies this, shards
        invariant Valid() && start <= last && clock <= last
        invariant |scan.maps| == i && Ordered(scan, start, last)
        invariant Visiting(layout, fn, visited, seen, scan, start)
      {
        last := Others(last);
        var more, done := VisitShard(shards[i], start, fn);
        VisitOne(layout, fn, visited, seen, scan, start, shards[..], flat, last, more, done);
        visited, seen, scan := visited + more, seen + Pick(shards[i], more), Extended(scan, flat, last);
        if !done { return; }
      }
      NothingRefused(layout, fn, visited, seen, scan, start);
    }
  }

  // ---------------------------------------------------------------- scans

  /** A scan's history: what the store stood for, and the clock, when each shard was read. */
  datatype Scan = Scan(maps: seq<Items>, clocks: seq<int>)

  function Extended(scan: Scan, m: Items, now: int): Scan { Scan(scan.maps + [m], scan.clocks + [now]) }

  /** The clock at each reading is after the start and never goes back. */
  ghost predicate Ordered(scan: Scan, start: int, last: int) {
    && |scan.maps| == |scan.clocks|
    && (forall i :: 0 <= i < |scan.clocks| ==> start <= scan.clocks[i] <= last)
    && forall i, j :: 0 <= i <= j < |scan.clocks| ==> scan.clocks[i] <= scan.clocks[j]
  }

  ghost predicate Complete(l: Layout, scan: Scan, start: int) {
    |scan.maps| == l.n && exists last :: Ordered(scan, start, last)
  }

  /** The scan has read the shard of `k`. */
  ghost predicate Past(l: Layout, scan: Scan, k: Key) {
    l.n > 0 && ShardOf(l, k) < |scan.maps| && ShardOf(l, k) < |scan.clocks|
  }

  /** What the store stood for when the shard of `k` was read, and the clock then. */
  function Then(l: Layout, scan: Scan, k: Key): Items
    requires l.n > 0 && ShardOf(l, k) < |scan.maps|
  {
    scan.maps[ShardOf(l, k)]
  }

  function ClockThen(l: Layout, scan: Scan, k: Key): int
    requires l.n > 0 && ShardOf(l, k) < |scan.clocks|
  {
    scan.clocks[ShardOf(l, k)]
  }

  /** When its shard was read, `k` could be read, and at the start it was not due. */
  ghost predicate Readable(l: Layout, scan: Scan, k: Key, start: int)
    requires Past(l, scan, k)
  {
    k in FlatKeys(Then(l, scan, k), start) && Live(Then(l, scan, k), k, ClockThen(l, scan, k))
  }

  /**
   * `keys` names, once each, only keys that were stored when their shard was read and not due at the start; and
   * every such key that could still be read then.
   */
  ghost predicate Reports(l: Layout, keys: seq<Key>, scan: Scan, start: int) {
    && Distinct(keys)
    && (forall k :: k in keys ==> Past(l, scan, k) && k in FlatKeys(Then(l, scan, k), start))
    && (forall k :: Past(l, scan, k) && Readable(l, scan, k, start) ==> k in keys)
  }

  /** If nothing else ran meanwhile, that is exactly the listing of the store. */
  lemma QuietScanIsExact(l: Layout, keys: seq<Key>, scan: Scan, start: int, m: Items)
    requires ValidLayout(l) && Complete(l, scan, start) && Reports(l, keys, scan, start)
    requires forall i :: 0 <= i < |scan.maps| ==> scan.maps[i] == m && scan.clocks[i] == start
    ensures Enumerates(keys, FlatKeys(m, start)) && |keys| == |FlatKeys(m, start)|
  {
    forall k ensures k in keys <==> k in FlatKeys(m, start) { ShardInRange(l, k); }
    EnumerationSize(keys, FlatKeys(m, start));
  }

  lemma DistinctUnion(a: seq<Key>, b: seq<Key>)
    requires Distinct(a) && Distinct(b) && forall k :: k in a ==> k !in b
    ensures Distinct(a + b)
  {
    var r := a + b;
    forall i, j | 0 <= i < j < |r| ensures r[i] != r[j] {
      if i < |a| <= j { assert r[i] in a && r[j] in b; }
    }
  }

  lemma ReportNext(l: Layout, keys: seq<Key>, scan: Scan, start: int, shards: seq<Items>, m: Items, now: int,
                   more: seq<Key>)
    requires Reports(l, keys, scan, start) && Refines(l, shards, m, now) && start <= now
    requires |scan.maps| == |scan.clocks| < |shards| && Enumerates(more, FlatKeys(shards[|scan.maps|], start))
    ensures Reports(l, keys + more, Extended(scan, m, now), start)
  {
    var i := |scan.maps|;
    assert forall k :: k in more ==> k in shards[i] && i == ShardOf(l, k);
    DistinctUnion(keys, more);
    forall k | i == ShardOf(l, k) && k in FlatKeys(m, start) && Live(m, k, now) ensures k in more {
      ShardAnswers(l, shards, m, now, k);
    }
  }

  ghost predicate Accepts(l: Layout, fn: (Key, Value, int) -> bool, scan: Scan, k: Key, start: int) {
    Past(l, scan, k) && k in Then(l, scan, k) && fn(k, Then(l, scan, k)[k].value, Remaining(Then(l, scan, k)[k], start))
  }

  ghost predicate Visits(l: Layout, visited: seq<Key>, scan: Scan, start: int) {
    Distinct(visited) && forall k :: k in visited ==> Past(l, scan, k) && Live(Then(l, scan, k), k, start)
  }

  ghost predicate VisitsAll(l: Layout, visited: seq<Key>, scan: Scan) {
    forall k :: Past(l, scan, k) && Live(Then(l, scan, k), k, ClockThen(l, scan, k)) ==> k in visited
  }

  /** `seen` has the visited keys, each with the entry it had when its shard was read. */
  ghost predicate Copies(l: Layout, seen: Items, visited: seq<Key>, scan: Scan) {
    && (forall k :: k in seen <==> k in visited)
    && forall k :: k in seen ==> Past(l, scan, k) && k in Then(l, scan, k) && seen[k] == Then(l, scan, k)[k]
  }

  function Pick(items: Items, ks: seq<Key>): Items { map k | k in ks && k in items :: items[k] }

  lemma CopyNext(l: Layout, seen: Items, visited: seq<Key>, scan: Scan, shards: seq<Items>, m: Items, now: int,
                 more: seq<Key>)
    requires Copies(l, seen, visited, scan) && Refines(l, shards, m, now)
    requires |scan.maps| == |scan.clocks| < |shards| && forall k :: k in more ==> k in shards[|scan.maps|]
    ensures Copies(l, seen + Pick(shards[|scan.maps|], more), visited + more, Extended(scan, m, now))
  {
    var i := |scan.maps|;
    assert forall k :: k in more ==> k in shards[i] && i == ShardOf(l, k) && m[k] == shards[i][k];
  }

  lemma VisitNext(l: Layout, visited: seq<Key>, scan: Scan, start: int, shards: seq<Items>, m: Items, now: int,
                  more: seq<Key>)
    requires Visits(l, visited, scan, start) && Refines(l, shards, m, now)
    requires |scan.maps| == |scan.clocks| < |shards|
    requires Distinct(more) && forall k :: k in more ==> Live(shards[|scan.maps|], k, start)
    ensures Visits(l, visited + more, Extended(scan, m, now), start)
  {
    var i := |scan.maps|;
    assert forall k :: k in more ==> k in shards[i] && i == ShardOf(l, k) && m[k] == shards[i][k];
    DistinctUnion(visited, more);
  }

  lemma VisitAllNext(l: Layout, visited: seq<Key>, scan: Scan, start: int, shards: seq<Items>, m: Items, now: int,
                     more: seq<Key>)
    requires VisitsAll(l, visited, scan) && Refines(l, shards, m, now) && start <= now
    requires |scan.maps| == |scan.clocks| < |shards|
    requires forall k :: Live(shards[|scan.maps|], k, start) ==> k in more
    ensures VisitsAll(l, visited + more, Extended(scan, m, now))
  {
    forall k | ShardOf(l, k) == |scan.maps| && Live(m, k, now) ensures k in more {
      ShardAnswers(l, shards, m, now, k);
    }
  }

  ghost predicate AllButLastAccepted(l: Layout, fn: (Key, Value, int) -> bool, visited: seq<Key>, scan: Scan,
                                     start: int) {
    forall i :: 0 <= i < |visited| - 1 ==> Accepts(l, fn, scan, visited[i], start)
  }

  /** So far `fn` has accepted everything, and everything that could be read has been visited. */
  ghost predicate Unstopped(l: Layout, fn: (Key, Value, int) -> bool, visited: seq<Key>, scan: Scan, start: int) {
    VisitsAll(l, visited, scan) && forall k :: k in visited ==> Accepts(l, fn, scan, k, start)
  }

  /** One shard's share of ForEach. */
  ghost predicate IsVisit(fn: (Key, Value, int) -> bool, items: Items, start: int, visited: seq<Key>, done: bool) {
    && Distinct(visited) && (forall k :: k in visited ==> Live(items, k, start))
    && (forall i :: 0 <= i < |visited| - 1 ==> Welcome(fn, items, visited[i], start))
    && (done ==> forall k :: Live(items, k, start) ==> k in visited && Welcome(fn, items, k, start))
    && (!done ==> visited != [] && !Welcome(fn, items, visited[|visited| - 1], start))
  }

  /** Seen from the whole scan, `fn` accepts the same keys of a shard. */
  lemma AcceptsInShard(l: Layout, fn: (Key, Value, int) -> bool, scan: Scan, start: int, shards: seq<Items>, m: Items,
                       now: int, k: Key)
    requires Refines(l, shards, m, now) && |scan.maps| == |scan.clocks| < |shards| && k in shards[|scan.maps|]
    ensures Accepts(l, fn, Extended(scan, m, now), k, start) <==> Welcome(fn, shards[|scan.maps|], k, start)
  {
    var i := |scan.maps|;
    assert i == ShardOf(l, k) && m[k] == shards[i][k];
  }

  lemma AcceptedStays(l: Layout, fn: (Key, Value, int) -> bool, scan: Scan, k: Key, start: int, m: Items, now: int)
    requires Accepts(l, fn, scan, k, start)
    ensures Accepts(l, fn, Extended(scan, m, now), k, start)
  {
  }

  /** A visit to the next shard either goes on as before or ends with the refused key. */
  lemma GoOn(l: Layout, fn: (Key, Value, int) -> bool, visited: seq<Key>, scan: Scan, start: int, shards: seq<Items>,
             m: Items, now: int, more: seq<Key>, done: bool)
    requires Unstopped(l, fn, visited, scan, start) && Refines(l, shards, m, now) && start <= now
    requires |scan.maps| == |scan.clocks| < |shards| && IsVisit(fn, shards[|scan.maps|], start, more, done)
    ensures AllButLastAccepted(l, fn, visited + more, Extended(scan, m, now), start)
    ensures done ==> Unstopped(l, fn, visited + more, Extended(scan, m, now), start)
    ensures !done ==> more != [] && !Accepts(l, fn, Extended(scan, m, now), more[|more| - 1], start)
  {
    var all, after, i := visited + more, Extended(scan, m, now), |scan.maps|;
    forall k | k in visited ensures Accepts(l, fn, after, k, start) { AcceptedStays(l, fn, scan, k, start, m, now); }
    forall j | 0 <= j < |more|
      ensures Accepts(l, fn, after, more[j], start) <==> Welcome(fn, shards[i], more[j], start)
    {
      assert more[j] in more;
      AcceptsInShard(l, fn, scan, start, shards, m, now, more[j]);
    }
    forall j | 0 <= j < |all| - 1 ensures Accepts(l, fn, after, all[j], start) {
      if j < |visited| { assert all[j] in visited; } else { assert all[j] == more[j - |visited|]; }
    }
    if done {
      VisitAllNext(l, visited, scan, start, shards, m, now, more);
      assert forall k :: k in more ==> Live(shards[i], k, start);
    }
  }

  /** Distinct keys, unexpired at the start, with the entry their shard had when read, up to a refused one. */
  ghost predicate Visited(l: Layout, fn: (Key, Value, int) -> bool, visited: seq<Key>, seen: Items, scan: Scan,
                          start: int) {
    && Visits(l, visited, scan, start) && Copies(l, seen, visited, scan)
    && AllButLastAccepted(l, fn, visited, scan, start)
  }

  ghost predicate Visiting(l: Layout, fn: (Key, Value, int) -> bool, visited: seq<Key>, seen: Items, scan: Scan,
                           start: int) {
    && Visits(l, visited, scan, start) && Copies(l, seen, visited, scan) && Unstopped(l, fn, visited, scan, start)
  }

  lemma VisitOne(l: Layout, fn: (Key, Value, int) -> bool, visited: seq<Key>, seen: Items, scan: Scan, start: int,
                 shards: seq<Items>, m: Items, now: int, more: seq<Key>, done: bool)
    requires Visiting(l, fn, visited, seen, scan, start) && Refines(l, shards, m, now) && start <= now
    requires |scan.maps| == |scan.clocks| < |shards| && IsVisit(fn, shards[|scan.maps|], start, more, done)
    ensures var all, copied, after := visited + more, seen + Pick(shards[|scan.maps|], more), Extended(scan, m, now);
            && Visited(l, fn, all, copied, after, start) && (done ==> Visiting(l, fn, all, copied, after, start))
            && (!done ==> all != [] && !Accepts(l, fn, after, all[|all| - 1], start))
  {
    VisitNext(l, visited, scan, start, shards, m, now, more);
    CopyNext(l, seen, visited, scan, shards, m, now, more);
    GoOn(l, fn, visited, scan, start, shards, m, now, more, done);
  }

  lemma NothingRefused(l: Layout, fn: (Key, Value, int) -> bool, visited: seq<Key>, seen: Items, scan: Scan, start: int)
    requires Visiting(l, fn, visited, seen, scan, start)
    ensures Visited(l, fn, visited, seen, scan, start) && VisitsAll(l, visited, scan)
  {
    assert forall i :: 0 <= i < |visited| ==> visited[i] in visited;
  }

  predicate Welcome(fn: (Key, Value, int) -> bool, items: Items, k: Key, start: int) {
    k in items && fn(k, items[k].value, Remaining(items[k], start))
  }

  /** `done` is false when `fn` asked to stop. */
  method VisitShard(items: Items, start: int, fn: (Key, Value, int) -> bool) returns (visited: seq<Key>, done: bool)
    ensures IsVisit(fn, items, start, visited, done)
  {
    visited := [];
    var rest := items.Keys;
    while rest != {}
      invariant rest <= items.Keys
      invariant Distinct(visited) && forall k :: k in visited <==> Live(items, k, start) && k !in rest
      invariant forall k :: k in visited ==> Welcome(fn, items, k, start)
      decreases |rest|
    {
      var k :| k in rest;
      rest := rest - {k};
      if !Expired(items[k], start) {
        visited := visited + [k];
        if !fn(k, items[k].value, Remaining(items[k], start)) { return visited, false; }
      }
    }
    done := true;
  }

  /** One shard's listed keys. */
  method ListKeys(items: Items, now: int) returns (keys: seq<Key>)
    ensures Enumerates(keys, FlatKeys(items, now))
  {
    keys := [];
    var rest := items.Keys;
    while rest != {}
      invariant rest <= items.Keys
      invariant Enumerates(keys, FlatKeys(items, now) - rest)
      decreases |rest|
    {
      var k :| k in rest;
      if Listed(items[k], now) { keys := keys + [k]; }
      rest := rest - {k};
    }
  }

  // ---------------------------------------------------------------- the sweeper

  function Swapped(s: seq<Key>, i: nat, j: nat): seq<Key>
    requires i <= j < |s|
  {
    s[i := s[j]][j := s[i]]
  }

  /** A swap keeps the listing complete and leaves everything before it alone. */
  lemma SwapKeepsListing(s: seq<Key>, i: nat, j: nat, ks: set<Key>)
    requires i <= j < |s| && Enumerates(s, ks)
    ensures Enumerates(Swapped(s, i, j), ks) && Swapped(s, i, j)[..i] == s[..i]
  {
    var t := Swapped(s, i, j);
    forall k ensures k in t <==> k in ks {
      if k in s {
        var p :| 0 <= p < |s| && s[p] == k;
        assert t[if p == i then j else if p == j then i else p] == k;
      }
    }
  }

  /** Keys of `items`, in an array so that sampling can swap them. */
  method KeyArray(items: Items) returns (keys: array<Key>)
    ensures fresh(keys) && Enumerates(keys[..], items.Keys)
  {
    var listed: seq<Key> := [];
    var rest := items.Keys;
    while rest != {}
      invariant rest <= items.Keys
      invariant Enumerates(listed, items.Keys - rest)
      decreases |rest|
    {
      var k :| k in rest;
      listed := listed + [k];
      rest := rest - {k};
    }
    keys := new Key[|listed|](i requires 0 <= i < |listed| => listed[i]);
    assert keys[..] == listed;
  }

  /** The items left when the expired among the sampled keys are deleted. */
  ghost function Swept(items: Items, sampled: set<Key>, now: int): Items {
    items - (set k | k in sampled && k in items && Expired(items[k], now))
  }

  lemma SweptOne(items: Items, sampled: set<Key>, k: Key, now: int)
    requires k in items && k !in sampled
    ensures Swept(items, sampled + {k}, now)
            == if Expired(items[k], now) then Swept(items, sampled, now) - {k} else Swept(items, sampled, now)
    ensures k in Swept(items, sampled, now) && Swept(items, sampled, now)[k] == items[k]
  {
  }

  function ToSet(s: seq<Key>): set<Key> { set x | x in s }

  lemma SampleGrows(all: seq<Key>, i: nat, picked: seq<Key>, ks: set<Key>)
    requires Enumerates(all, ks) && i < |all| && picked == all[..i]
    ensures all[i] in ks && all[i] !in ToSet(picked)
    ensures ToSet(picked + [all[i]]) == ToSet(picked) + {all[i]}
    ensures |ToSet(picked + [all[i]])| == |ToSet(picked)| + 1
    ensures all[..i + 1] == picked + [all[i]]
  {
  }

  /** One step of the partial shuffle: a random remaining key is swapped to position `i`. */
  method PickRandom(keys: array<Key>, i: nat, ghost picked: seq<Key>, ghost ks: set<Key>) returns (key: Key)
    requires i < keys.Length && Enumerates(keys[..], ks) && picked == keys[..][..i]
    modifies keys
    ensures Enumerates(keys[..], ks) && picked + [key] == keys[..][..i + 1]
    ensures key in ks && key !in ToSet(picked)
    ensures ToSet(picked + [key]) == ToSet(picked) + {key}
    ensures |ToSet(picked + [key])| == |ToSet(picked)| + 1
  {
    var idx: nat :| i <= idx < keys.Length;
    ghost var all := Swapped(keys[..], i, idx);
    SwapKeepsListing(keys[..], i, idx, ks);
    keys[i], keys[idx] := keys[idx], keys[i];
    assert keys[..] == all;
    key := keys[i];
    SampleGrows(all, i, picked, ks);
  }

  /** A round on `items` sampled these keys, and deleted and counted the expired among them. */
  ghost predicate IsRound(items: Items, left: Items, expired: nat, samples: nat, sampled: set<Key>, now: int) {
    && samples == Min(20, |items|) == |sampled|
    && sampled <= items.Keys
    && left == Swept(items, sampled, now)
    && expired == |items| - |left|
    && expired <= samples
  }

  /** The distinct keys `picked` so far have been sampled. */
  ghost predicate Sampling(items: Items, picked: seq<Key>, left: Items, expired: nat, now: int) {
    && |ToSet(picked)| == |picked| && ToSet(picked) <= items.Keys
    && left == Swept(items, ToSet(picked), now)
    && expired == |items| - |left| && expired <= |picked|
  }

  lemma DropOne(m: Items, k: Key)
    requires k in m
    ensures |m - {k}| == |m| - 1
  {
    assert (m - {k}).Keys == m.Keys - {k};
  }

  lemma SampleOne(items: Items, picked: seq<Key>, left: Items, expired: nat, key: Key, now: int)
    requires Sampling(items, picked, left, expired, now) && key in items && key !in ToSet(picked)
    requires ToSet(picked + [key]) == ToSet(picked) + {key} && |ToSet(picked + [key])| == |ToSet(picked)| + 1
    ensures key in left && Sampling(items, picked + [key], if Expired(left[key], now) then left - {key} else left,
                                    if Expired(left[key], now) then expired + 1 else expired, now)
  {
    SweptOne(items, ToSet(picked), key, now);
    DropOne(left, key);
  }

  /**
   * One sampling round: up to twenty distinct keys, picked by swapping a random remaining key to the front,
   * lose their entry if it has expired.
   */
  method SampleRound(items: Items, now: int) returns (left: Items, expired: nat, samples: nat, ghost sampled: set<Key>)
    ensures samples == Min(20, |items|) && expired == |items| - |left|
    ensures forall k :: k in left ==> k in items && left[k] == items[k]
    ensures IsRound(items, left, expired, samples, sampled, now)
  {
    var keys := KeyArray(items);
    EnumerationSize(keys[..], items.Keys);
    samples := if SAMPLES_PER_SWEEP > |items| then |items| else SAMPLES_PER_SWEEP;
    expired, left := 0, items;
    ghost var picked := [];
    var i := 0;
    while i < samples
      invariant 0 <= i <= samples <= keys.Length
      invariant Enumerates(keys[..], items.Keys) && picked == keys[..][..i]
      invariant |picked| == i && Sampling(items, picked, left, expired, now)
    {
      var key := PickRandom(keys, i, picked, items.Keys);
      SampleOne(items, picked, left, expired, key, now);
      if Expired(left[key], now) { left, expired := left - {key}, expired + 1; }
      picked := picked + [key];
      i := i + 1;
    }
    sampled := ToSet(picked);
  }

  class Sweeper {
    const store: Store

    constructor (s: Store)
      ensures store == s
    {
      store := s;
    }

    method SampleAndExpire(index: nat, now: int) returns (expired: nat, samples: nat, ghost sampled: set<Key>)
      requires store.Valid() && store.clock <= now && index < store.shards.Length
      modifies store`clock, store.shards
      ensures store.Valid() && store.clock == now && store.flat == old(store.flat)
      ensures forall j :: 0 <= j < store.shards.Length && j != index ==> store.shards[j] == old(store.shards[j])
      ensures IsRound(old(store.shards[index]), store.shards[index], expired, samples, sampled, now)
    {
      expired, samples, sampled := store.SampleShard(index, now);
    }

    /**
     * Repeat while at least a quarter of a sample had expired. Every repetition follows a round that deleted at
     * least a quarter of its sample, so the shard's size bounds their number.
     */
    method SweepShard(index: nat, start: int) returns (rounds: nat, stopped: bool, expired: nat, samples: nat)
      requires store.Valid() && store.clock <= start && index < store.shards.Length
      modifies store`clock, store.shards
      ensures store.Valid()
      ensures forall j :: 0 <= j < store.shards.Length && j != index ==> store.shards[j] == old(store.shards[j])
      ensures 1 <= rounds <= 1 + |old(store.shards[index])| - |store.shards[index]|
      ensures |store.shards[index]| >= 20 ==>
                5 * (rounds - 1) <= |old(store.shards[index])| - |store.shards[index]|
      ensures !stopped ==> samples == 0 || 4 * expired < samples
    {
      rounds, stopped := 0, false;
      var last := start;
      while true
        invariant store.Valid() && store.clock <= last
        invariant forall j :: 0 <= j < store.shards.Length && j != index ==> store.shards[j] == old(store.shards[j])
        invariant rounds <= |old(store.shards[index])| - |store.shards[index]|
        invariant |store.shards[index]| >= 20 ==>
                    5 * rounds <= |old(store.shards[index])| - |store.shards[index]|
        decreases |store.shards[index]|
      {
        var now: int :| last <= now;
        ghost var sampled;
        expired, samples, sampled := SampleAndExpire(index, now);
        last := now;
        rounds := rounds + 1;
        if samples == 0 || 4 * expired < samples { break; }
        stopped := *;
        if stopped { break; }
      }
    }
  }

  /** On a shard of at most twenty keys a round samples every key, so nothing expired is left. */
  lemma SmallShardIsSweptClean(items: Items, sampled: set<Key>, now: int)
    requires |items| <= 20 && sampled <= items.Keys && |sampled| == |items|
    ensures forall k :: k in Swept(items, sampled, now) <==> k in items && !Expired(items[k], now)
  {
    SubsetOfEqualSize(sampled, items.Keys);
  }

  lemma SubsetOfEqualSize(a: set<Key>, b: set<Key>)
    requires a <= b && |a| == |b|
    ensures a == b
  {
    assert b == a + (b - a);
    assert |b| == |a| + |b - a|;
  }
}
