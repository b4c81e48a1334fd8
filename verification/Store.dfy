/** The sharded TTL store as values, and the flat timed map it stands for. */
module TimedStore {
  import opened Common

  datatype Entry = Entry(value: Value, expiresAt: Option<int>)

  /** What Get, Expire, ForEach and the sweeper call expired. */
  predicate Expired(e: Entry, now: int) { e.expiresAt.Some? && now > e.expiresAt.value }

  /** What Keys and Len count. */
  predicate Listed(e: Entry, now: int) { e.expiresAt.None? || now < e.expiresAt.value }

  function Deadline(ttl: int, at: int): Option<int> { if ttl > 0 then Some(at + ttl) else None }

  /** The time left that ForEach reports; 0 means no deadline. */
  function Remaining(e: Entry, now: int): int {
    if e.expiresAt.Some? then e.expiresAt.value - now else 0
  }

  type Items = map<Key, Entry>

  // ---------------------------------------------------------------- choosing a shard

  function Pow2(k: nat): (p: nat)
    ensures p > 0
  {
    if k == 0 then 1 else 2 * Pow2(k - 1)
  }

  ghost predicate IsPow2(n: nat) { exists k :: n == Pow2(k) }

  /** Bitwise conjunction, binary digit by binary digit. */
  function BitAnd(a: nat, b: nat): nat {
    if a == 0 || b == 0 then 0
    else (if a % 2 == 1 && b % 2 == 1 then 1 else 0) + 2 * BitAnd(a / 2, b / 2)
  }

  lemma HalveMod(h: nat, p: nat)
    requires p > 0
    ensures h % (2 * p) == h % 2 + 2 * ((h / 2) % p)
  {
    var g := h / 2;
    assert h == 2 * g + h % 2;
    assert g == p * (g / p) + g % p;
    var r := h % 2 + 2 * (g % p);
    assert h == (2 * p) * (g / p) + r by {
      assert 2 * (p * (g / p)) == (2 * p) * (g / p);
    }
    ModUnique(h, 2 * p, g / p, r);
  }

  lemma {:induction false} MulAtLeast(n: nat, k: nat)
    requires k >= 1
    ensures n * k >= n
  {
    if k > 1 {
      MulAtLeast(n, k - 1);
      assert n * k == n * (k - 1) + n;
    }
  }

  lemma MulStep(n: int, a: int, b: int)
    requires n > 0 && a > b
    ensures n * a >= n * b + n
  {
    MulAtLeast(n, a - b);
    assert n * a == n * b + n * (a - b);
  }

  lemma ModUnique(h: int, n: int, q: int, r: int)
    requires n > 0 && h == n * q + r && 0 <= r < n
    ensures h % n == r
  {
    var q' := h / n;
    assert h == n * q' + h % n && 0 <= h % n < n;
    if q > q' { MulStep(n, q, q'); } else if q < q' { MulStep(n, q', q); }
  }

  /** Masking with one less than a power of two is remainder by it. */
  lemma {:induction false} MaskIsRemainder(h: nat, k: nat)
    ensures BitAnd(h, Pow2(k) - 1) == h % Pow2(k)
  {
    if k > 0 {
      MaskIsRemainder(h / 2, k - 1);
      HalveMod(h, Pow2(k - 1));
      var m := Pow2(k) - 1;
      assert m % 2 == 1 && m / 2 == Pow2(k - 1) - 1;
      if h == 0 { assert h % Pow2(k) == 0; }
    }
  }

  /** `n` shards, a power of two, and the key hash. */
  datatype Layout = Layout(hash: Key -> nat, n: nat)

  ghost predicate ValidLayout(l: Layout) { IsPow2(l.n) }

  function ShardOf(l: Layout, k: Key): nat
    requires l.n > 0
  {
    BitAnd(l.hash(k), l.n - 1)
  }

  lemma ShardInRange(l: Layout, k: Key)
    requires ValidLayout(l)
    ensures l.n > 0 && ShardOf(l, k) == l.hash(k) % l.n && ShardOf(l, k) < l.n
  {
    var j :| l.n == Pow2(j);
    MaskIsRemainder(l.hash(k), j);
  }

  // ---------------------------------------------------------------- the flat map

  /** The reference: one map that never collects anything, read through the clock. */
  predicate Live(m: Items, k: Key, now: int) { k in m && !Expired(m[k], now) }

  function FlatGet(m: Items, k: Key, now: int): Option<Value> {
    if Live(m, k, now) then Some(m[k].value) else None
  }

  function FlatExpire(m: Items, k: Key, ttl: int, now: int): Items {
    if Live(m, k, now) then m[k := m[k].(expiresAt := Deadline(ttl, now))] else m
  }

  ghost function FlatKeys(m: Items, now: int): set<Key> {
    set k | k in m && Listed(m[k], now)
  }

  ghost function FlatEntries(m: Items, now: int): map<Key, (Value, int)> {
    map k | k in m && !Expired(m[k], now) :: (m[k].value, Remaining(m[k], now))
  }

  /** Keys and Get disagree about a key exactly at the instant of its deadline. */
  lemma KeysMissesExactlyTheDeadlineInstant(m: Items, k: Key, now: int)
    ensures k in FlatKeys(m, now) <==> FlatGet(m, k, now).Some? && m[k].expiresAt != Some(now)
  {
  }

  // ---------------------------------------------------------------- refinement

  /** Each key lives only in its own shard with the flat entry; whatever a shard lacks has expired. */
  ghost predicate Refines(l: Layout, shards: seq<Items>, m: Items, now: int) {
    && ValidLayout(l) && |shards| == l.n > 0
    && (forall i, k :: 0 <= i < |shards| && k in shards[i] ==> i == ShardOf(l, k) && k in m && shards[i][k] == m[k])
    && (forall k :: k in m && !Expired(m[k], now) ==> InShard(l, shards, k))
  }

  ghost predicate InShard(l: Layout, shards: seq<Items>, k: Key)
    requires l.n > 0
  {
    ShardOf(l, k) < |shards| && k in shards[ShardOf(l, k)]
  }

  /** What the store does to shard `i` when key `k` gets entry `e`. */
  function Put(shards: seq<Items>, i: nat, k: Key, e: Entry): seq<Items>
    requires i < |shards|
  {
    shards[i := shards[i][k := e]]
  }

  function Drop(shards: seq<Items>, i: nat, ks: set<Key>): seq<Items>
    requires i < |shards|
  {
    shards[i := shards[i] - ks]
  }

  lemma PutRefines(l: Layout, shards: seq<Items>, m: Items, now: int, k: Key, e: Entry)
    requires Refines(l, shards, m, now)
    ensures ShardOf(l, k) < |shards|
    ensures Refines(l, Put(shards, ShardOf(l, k), k, e), m[k := e], now)
  {
    ShardInRange(l, k);
    var s := Put(shards, ShardOf(l, k), k, e);
    forall j | j in m && j != k && InShard(l, shards, j) ensures InShard(l, s, j) {
    }
  }

  lemma DeleteRefines(l: Layout, shards: seq<Items>, m: Items, now: int, k: Key)
    requires Refines(l, shards, m, now)
    ensures ShardOf(l, k) < |shards|
    ensures Refines(l, Drop(shards, ShardOf(l, k), {k}), m - {k}, now)
  {
    ShardInRange(l, k);
    var s := Drop(shards, ShardOf(l, k), {k});
    forall j | j in m && j != k && InShard(l, shards, j) ensures InShard(l, s, j) {
    }
  }

  /** Lazy and active deletion: dropping expired entries changes no answer. */
  lemma CollectRefines(l: Layout, shards: seq<Items>, m: Items, now: int, i: nat, ks: set<Key>)
    requires Refines(l, shards, m, now) && i < |shards|
    requires forall k :: k in ks && k in shards[i] ==> Expired(shards[i][k], now)
    ensures Refines(l, Drop(shards, i, ks), m, now)
  {
    var s := Drop(shards, i, ks);
    forall j | j in m && !Expired(m[j], now) ensures InShard(l, s, j) {
      assert InShard(l, shards, j);
      ShardInRange(l, j);
    }
  }

  lemma TickRefines(l: Layout, shards: seq<Items>, m: Items, now: int, later: int)
    requires Refines(l, shards, m, now) && now <= later
    ensures Refines(l, shards, m, later)
  {
  }

  /** A key's entry in its shard decides what the flat map says about it. */
  lemma ShardAnswers(l: Layout, shards: seq<Items>, m: Items, now: int, k: Key)
    requires Refines(l, shards, m, now)
    ensures ShardOf(l, k) < |shards|
    ensures Live(m, k, now) <==> Live(shards[ShardOf(l, k)], k, now)
    ensures Live(m, k, now) ==> shards[ShardOf(l, k)][k] == m[k]
    ensures k in shards[ShardOf(l, k)] ==> k in m
  {
    ShardInRange(l, k);
    if Live(m, k, now) { assert InShard(l, shards, k); }
  }

  // ---------------------------------------------------------------- whole-store answers

  ghost function ShardKeys(shards: seq<Items>, now: int): set<Key> {
    if shards == [] then {} else ShardKeys(shards[..|shards| - 1], now) + FlatKeys(shards[|shards| - 1], now)
  }

  /** Len's running total over the shards. */
  ghost function ShardCount(shards: seq<Items>, now: int): nat {
    if shards == [] then 0 else ShardCount(shards[..|shards| - 1], now) + |FlatKeys(shards[|shards| - 1], now)|
  }

  ghost predicate Separate(shards: seq<Items>) {
    forall i, j, k :: 0 <= i < j < |shards| && k in shards[i] ==> k !in shards[j]
  }

  lemma {:induction false} ShardKeysMembers(shards: seq<Items>, now: int)
    ensures forall k :: k in ShardKeys(shards, now) <==>
      exists i :: 0 <= i < |shards| && k in shards[i] && Listed(shards[i][k], now)
  {
    if shards != [] {
      var t := shards[..|shards| - 1];
      ShardKeysMembers(t, now);
      forall k ensures k in ShardKeys(shards, now) <==>
        exists i :: 0 <= i < |shards| && k in shards[i] && Listed(shards[i][k], now)
      {
        if i :| 0 <= i < |shards| && k in shards[i] && Listed(shards[i][k], now) {
          if i < |t| { assert t[i] == shards[i]; }
        }
        if k in ShardKeys(t, now) {
          var i :| 0 <= i < |t| && k in t[i] && Listed(t[i][k], now);
          assert shards[i] == t[i];
        }
      }
    }
  }

  lemma {:induction false} ShardCountIsSize(shards: seq<Items>, now: int)
    requires Separate(shards)
    ensures ShardCount(shards, now) == |ShardKeys(shards, now)|
  {
    if shards != [] {
      var t, z := shards[..|shards| - 1], shards[|shards| - 1];
      ShardCountIsSize(t, now);
      ShardKeysMembers(t, now);
      assert ShardKeys(t, now) !! FlatKeys(z, now);
    }
  }

  lemma RefinesSeparate(l: Layout, shards: seq<Items>, m: Items, now: int)
    requires Refines(l, shards, m, now)
    ensures Separate(shards)
  {
    forall i, j, k | 0 <= i < j < |shards| && k in shards[i] ensures k !in shards[j] {
      assert i == ShardOf(l, k);
    }
  }

  lemma KeysMatch(l: Layout, shards: seq<Items>, m: Items, now: int)
    requires Refines(l, shards, m, now)
    ensures ShardKeys(shards, now) == FlatKeys(m, now)
  {
    ShardKeysMembers(shards, now);
    forall k | k in FlatKeys(m, now) ensures k in ShardKeys(shards, now) {
      ShardAnswers(l, shards, m, now, k);
    }
    forall k | k in ShardKeys(shards, now) ensures k in FlatKeys(m, now) {
      var i :| 0 <= i < |shards| && k in shards[i] && Listed(shards[i][k], now);
    }
  }

  /** Keys over all shards is the flat listing, and Len is its size. */
  lemma ListingMatches(l: Layout, shards: seq<Items>, m: Items, now: int)
    requires Refines(l, shards, m, now)
    ensures ShardKeys(shards, now) == FlatKeys(m, now)
    ensures ShardCount(shards, now) == |FlatKeys(m, now)|
  {
    KeysMatch(l, shards, m, now);
    RefinesSeparate(l, shards, m, now);
    ShardCountIsSize(shards, now);
  }

  /** What ForEach visits over all shards. */
  ghost function ShardEntries(shards: seq<Items>, now: int): map<Key, (Value, int)> {
    if shards == [] then map[]
    else ShardEntries(shards[..|shards| - 1], now) + FlatEntries(shards[|shards| - 1], now)
  }

  lemma {:induction false} ShardEntriesMembers(shards: seq<Items>, now: int, k: Key)
    requires Separate(shards)
    ensures k in ShardEntries(shards, now) <==> exists i :: 0 <= i < |shards| && Live(shards[i], k, now)
    ensures forall i :: 0 <= i < |shards| && Live(shards[i], k, now) ==>
              k in ShardEntries(shards, now)
              && ShardEntries(shards, now)[k] == (shards[i][k].value, Remaining(shards[i][k], now))
  {
    if shards != [] {
      var t := shards[..|shards| - 1];
      assert forall i :: 0 <= i < |t| ==> t[i] == shards[i];
      ShardEntriesMembers(t, now, k);
    }
  }

  /** ForEach over all shards visits the flat map's unexpired entries. */
  lemma EntriesMatch(l: Layout, shards: seq<Items>, m: Items, now: int)
    requires Refines(l, shards, m, now)
    ensures ShardEntries(shards, now) == FlatEntries(m, now)
  {
    RefinesSeparate(l, shards, m, now);
    forall k
      ensures k in ShardEntries(shards, now) <==> k in FlatEntries(m, now)
      ensures k in FlatEntries(m, now) ==> ShardEntries(shards, now)[k] == FlatEntries(m, now)[k]
    {
      ShardEntriesMembers(shards, now, k);
      ShardAnswers(l, shards, m, now, k);
    }
  }
}
