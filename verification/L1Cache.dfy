/** The client-side LRU cache: what one operation does to the recency list, and the inclusion property of whole runs. */
module L1 {
  import opened Common

  datatype Entry = Entry(key: Key, value: Value, expiresAt: int)

  /** Most recently used first. */
  type Recency = seq<Entry>

  ghost predicate OneEach(s: Recency) {
    forall i, j :: 0 <= i < j < |s| ==> s[i].key != s[j].key
  }

  function Find(s: Recency, k: Key): Option<Entry> {
    if s == [] then None else if s[0].key == k then Some(s[0]) else Find(s[1..], k)
  }

  function DropKey(s: Recency, k: Key): Recency {
    if s == [] then [] else if s[0].key == k then DropKey(s[1..], k) else [s[0]] + DropKey(s[1..], k)
  }

  datatype Op =
    | Get(k: Key, now: int)
    | Set(k: Key, v: Value, ttl: int, now: int)
    | Delete(k: Key)
    | Clear

  function Until(ttl: int, defaultTTL: int, now: int): int {
    now + if ttl <= 0 then defaultTTL else ttl
  }

  /** One operation on a cache of capacity `cap`: the new recency list and the value a Get returns. */
  function Apply(s: Recency, op: Op, cap: nat, defaultTTL: int): (Recency, Option<Value>) {
    match op
    case Get(k, now) =>
      (match Find(s, k)
       case None => (s, None)
       case Some(e) =>
         if now > e.expiresAt then (DropKey(s, k), None)
         else ([e] + DropKey(s, k), Some(e.value)))
    case Set(k, v, ttl, now) =>
      var e := Entry(k, v, Until(ttl, defaultTTL, now));
      if Find(s, k).Some? then ([e] + DropKey(s, k), None)
      else
        var t := [e] + s;
        (if |t| > cap then t[..|t| - 1] else t, None)
    case Delete(k) => (DropKey(s, k), None)
    case Clear => ([], None)
  }

  // ---------------------------------------------------------------- list facts

  lemma {:induction false} FindMeans(s: Recency, k: Key)
    ensures Find(s, k).Some? ==> Find(s, k).value in s && Find(s, k).value.key == k
    ensures Find(s, k).None? ==> forall e :: e in s ==> e.key != k
  {
    if s != [] && s[0].key != k {
      FindMeans(s[1..], k);
    }
  }

  lemma FindUnique(s: Recency, e: Entry)
    requires OneEach(s) && e in s
    ensures Find(s, e.key) == Some(e)
  {
    FindMeans(s, e.key);
    var f := Find(s, e.key).value;
    var i :| 0 <= i < |s| && s[i] == e;
    var j :| 0 <= j < |s| && s[j] == f;
  }

  lemma {:induction false} DropMeans(s: Recency, k: Key)
    ensures forall e :: e in DropKey(s, k) <==> e in s && e.key != k
    ensures Find(s, k).None? ==> DropKey(s, k) == s
    ensures |DropKey(s, k)| <= |s|
  {
    if s != [] {
      DropMeans(s[1..], k);
      assert s == [s[0]] + s[1..];
    }
  }

  lemma {:induction false} DropOneEach(s: Recency, k: Key)
    requires OneEach(s)
    ensures OneEach(DropKey(s, k))
    ensures |DropKey(s, k)| == |s| - if Find(s, k).Some? then 1 else 0
  {
    if s != [] {
      var t := s[1..];
      DropOneEach(t, k);
      DropMeans(t, k);
      FindMeans(t, k);
      var r := DropKey(t, k);
      forall i | 0 <= i < |r| ensures r[i].key != s[0].key { assert r[i] in t; }
    }
  }

  /** `a` is obtained from `b` by leaving entries out. */
  ghost predicate Sub(a: Recency, b: Recency) {
    a == [] || (b != [] && if a[0] == b[0] then Sub(a[1..], b[1..]) else Sub(a, b[1..]))
  }

  lemma {:induction false} SubMembers(a: Recency, b: Recency)
    requires Sub(a, b)
    ensures forall e :: e in a ==> e in b
    ensures |a| <= |b|
  {
    if a != [] {
      assert a == [a[0]] + a[1..] && b == [b[0]] + b[1..];
      if a[0] == b[0] { SubMembers(a[1..], b[1..]); } else { SubMembers(a, b[1..]); }
    }
  }

  /** Leaving out one more entry at the front of `a` is fine. */
  lemma {:induction false} SubTail(a: Recency, b: Recency)
    requires Sub(a, b) && a != []
    ensures Sub(a[1..], b)
  {
    if a[0] == b[0] {
      if |a| > 1 && a[1] == b[0] { SubTail(a[1..], b[1..]); }
    } else {
      SubTail(a, b[1..]);
      if |a| > 1 && a[1] == b[0] { SubTail(a[1..], b[1..]); }
    }
  }

  lemma SubConsRight(a: Recency, b: Recency, x: Entry)
    requires Sub(a, b)
    ensures Sub(a, [x] + b)
  {
    if a != [] && a[0] == x { SubTail(a, b); }
  }

  lemma {:induction false} SubDrop(a: Recency, b: Recency, k: Key)
    requires Sub(a, b)
    ensures Sub(DropKey(a, k), DropKey(b, k))
  {
    if a != [] {
      if a[0] == b[0] {
        SubDrop(a[1..], b[1..], k);
      } else {
        SubDrop(a, b[1..], k);
        SubConsRight(DropKey(a, k), DropKey(b[1..], k), b[0]);
      }
    }
  }

  lemma {:induction false} SubDropLast(a: Recency, b: Recency)
    requires Sub(a, b) && a != []
    ensures Sub(a[..|a| - 1], b[..|b| - 1]) && Sub(a[..|a| - 1], b)
  {
    var a', b' := a[..|a| - 1], b[..|b| - 1];
    if |a| > 1 {
      SubMembers(a, b);
      assert a'[0] == a[0] && b'[0] == b[0] && b'[1..] == b[1..][..|b| - 2];
      if a[0] == b[0] {
        SubDropLast(a[1..], b[1..]);
        assert a'[1..] == a[1..][..|a| - 2];
      } else {
        SubDropLast(a, b[1..]);
      }
    }
  }

  // ---------------------------------------------------------------- inclusion

  /** The smaller cache's list is part of the larger one's, and the gap is at most the difference in capacity. */
  ghost predicate Included(a: Recency, b: Recency, c1: nat, c2: nat) {
    && OneEach(a) && OneEach(b)
    && |a| <= c1 && |b| <= c2 && |b| - |a| <= c2 - c1
    && Sub(a, b)
  }

  lemma SameEntry(a: Recency, b: Recency, k: Key)
    requires OneEach(b) && Sub(a, b) && Find(a, k).Some?
    ensures Find(b, k) == Find(a, k)
  {
    SubMembers(a, b);
    FindMeans(a, k);
    FindUnique(b, Find(a, k).value);
  }

  lemma PushFront(s: Recency, e: Entry)
    requires OneEach(s)
    ensures OneEach([e] + DropKey(s, e.key))
    ensures Find(s, e.key).None? ==> OneEach([e] + s) && OneEach(([e] + s)[..|s|])
    ensures |[e] + DropKey(s, e.key)| == if Find(s, e.key).Some? then |s| else |s| + 1
  {
    DropMeans(s, e.key);
    DropOneEach(s, e.key);
    FindMeans(s, e.key);
  }

  lemma SubPush(a: Recency, b: Recency, e: Entry)
    requires Sub(a, b)
    ensures Sub([e] + DropKey(a, e.key), [e] + DropKey(b, e.key))
  {
    SubDrop(a, b, e.key);
    var x, y := [e] + DropKey(a, e.key), [e] + DropKey(b, e.key);
    assert x[1..] == DropKey(a, e.key) && y[1..] == DropKey(b, e.key);
  }

  lemma GetIncluded(a: Recency, b: Recency, k: Key, now: int, c1: nat, c2: nat, d: int)
    requires Included(a, b, c1, c2) && c1 <= c2
    ensures var (a', ra) := Apply(a, Get(k, now), c1, d);
            var (b', rb) := Apply(b, Get(k, now), c2, d);
            Included(a', b', c1, c2) && (ra.Some? ==> rb == ra)
  {
    DropMeans(a, k);
    DropOneEach(a, k);
    DropOneEach(b, k);
    SubDrop(a, b, k);
    if Find(a, k).Some? {
      SameEntry(a, b, k);
      FindMeans(a, k);
      var e := Find(a, k).value;
      PushFront(a, e);
      PushFront(b, e);
      SubPush(a, b, e);
    } else if Find(b, k).Some? {
      FindMeans(b, k);
      var e := Find(b, k).value;
      PushFront(b, e);
      SubConsRight(a, DropKey(b, k), e);
    }
  }

  /** The list a Set leaves when the key is not cached. */
  function Pushed(s: Recency, e: Entry, cap: nat): Recency {
    var t := [e] + s;
    if |t| > cap then t[..|t| - 1] else t
  }

  lemma PushIncluded(a: Recency, b: Recency, e: Entry, c1: nat, c2: nat)
    requires Included(a, b, c1, c2) && c1 <= c2 && Find(a, e.key).None?
    ensures Find(b, e.key).None? ==> Included(Pushed(a, e, c1), Pushed(b, e, c2), c1, c2)
    ensures Find(b, e.key).Some? ==> Included(Pushed(a, e, c1), [e] + DropKey(b, e.key), c1, c2)
  {
    PushFront(a, e);
    PushFront(b, e);
    DropMeans(a, e.key);
    DropMeans(b, e.key);
    SubPush(a, b, e);
    SubDropLast([e] + a, [e] + DropKey(b, e.key));
    assert ([e] + a)[..|a|] == ([e] + a)[..|[e] + a| - 1];
    assert ([e] + b)[..|b|] == ([e] + b)[..|[e] + b| - 1];
  }

  lemma SetIncluded(a: Recency, b: Recency, k: Key, v: Value, ttl: int, now: int, c1: nat, c2: nat, d: int)
    requires Included(a, b, c1, c2) && c1 <= c2
    ensures Included(Apply(a, Set(k, v, ttl, now), c1, d).0, Apply(b, Set(k, v, ttl, now), c2, d).0, c1, c2)
  {
    var e := Entry(k, v, Until(ttl, d, now));
    if Find(a, k).Some? {
      SameEntry(a, b, k);
      PushFront(a, e);
      PushFront(b, e);
      SubPush(a, b, e);
    } else {
      PushIncluded(a, b, e, c1, c2);
    }
  }

  lemma StepIncluded(a: Recency, b: Recency, op: Op, c1: nat, c2: nat, d: int)
    requires Included(a, b, c1, c2) && c1 <= c2
    ensures var (a', ra) := Apply(a, op, c1, d);
            var (b', rb) := Apply(b, op, c2, d);
            Included(a', b', c1, c2) && (ra.Some? ==> rb == ra)
  {
    match op
    case Get(k, now) => GetIncluded(a, b, k, now, c1, c2, d);
    case Set(k, v, ttl, now) => SetIncluded(a, b, k, v, ttl, now, c1, c2, d);
    case Delete(k) =>
      DropOneEach(a, k);
      DropOneEach(b, k);
      SubDrop(a, b, k);
      if Find(a, k).Some? { SameEntry(a, b, k); }
    case Clear =>
  }

  /** State and answers after running `ops` on an empty cache. */
  function Run(ops: seq<Op>, cap: nat, defaultTTL: int): (r: (Recency, seq<Option<Value>>))
    ensures |r.1| == |ops|
  {
    if ops == [] then ([], [])
    else
      var (s, rs) := Run(ops[..|ops| - 1], cap, defaultTTL);
      var (t, r) := Apply(s, ops[|ops| - 1], cap, defaultTTL);
      (t, rs + [r])
  }

  /** Running one trace on two capacities: everything the smaller cache holds or hits, the larger does too. */
  lemma {:induction false} LargerCacheIncludesSmaller(ops: seq<Op>, c1: nat, c2: nat, d: int)
    requires c1 <= c2
    ensures Included(Run(ops, c1, d).0, Run(ops, c2, d).0, c1, c2)
    ensures forall i :: 0 <= i < |ops| && Run(ops, c1, d).1[i].Some? ==> Run(ops, c2, d).1[i] == Run(ops, c1, d).1[i]
  {
    if ops != [] {
      var n := |ops| - 1;
      LargerCacheIncludesSmaller(ops[..n], c1, c2, d);
      StepIncluded(Run(ops[..n], c1, d).0, Run(ops[..n], c2, d).0, ops[n], c1, c2, d);
    }
  }

  // ---------------------------------------------------------------- eviction order

  /** When `k` was last used: the index of its last Set or successful Get, or -1. */
  function LastUse(ops: seq<Op>, cap: nat, d: int, k: Key): int {
    if ops == [] then -1
    else
      var n := |ops| - 1;
      var used := match ops[n]
        case Get(j, _) => j == k && Run(ops, cap, d).1[n].Some?
        case Set(j, _, _, _) => j == k
        case _ => false;
      if used then n else LastUse(ops[..n], cap, d, k)
  }

  lemma {:induction false} LastUseInRange(ops: seq<Op>, cap: nat, d: int, k: Key)
    ensures LastUse(ops, cap, d, k) < |ops|
  {
    if ops != [] { LastUseInRange(ops[..|ops| - 1], cap, d, k); }
  }

  ghost predicate Decreasing(s: Recency, use: Key -> int) {
    forall i, j :: 0 <= i < j < |s| ==> use(s[i].key) > use(s[j].key)
  }

  lemma ConsDecreasing(e: Entry, rest: Recency, use: Key -> int)
    requires Decreasing(rest, use) && forall r :: r in rest ==> use(r.key) < use(e.key)
    ensures Decreasing([e] + rest, use) && Decreasing(([e] + rest)[..|rest|], use)
  {
    var t := [e] + rest;
    forall i, j | 0 <= i < j < |t| ensures use(t[i].key) > use(t[j].key) {
      assert t[j] == rest[j - 1];
    }
  }

  lemma {:induction false} DropDecreasing(s: Recency, k: Key, use: Key -> int)
    requires Decreasing(s, use)
    ensures Decreasing(DropKey(s, k), use)
  {
    if s != [] {
      var t := s[1..];
      assert Decreasing(t, use) && forall e :: e in t ==> use(e.key) < use(s[0].key);
      DropDecreasing(t, k, use);
      DropMeans(t, k);
      ConsDecreasing(s[0], DropKey(t, k), use);
    }
  }

  lemma SameUseDecreasing(s: Recency, use: Key -> int, use': Key -> int)
    requires Decreasing(s, use) && forall e :: e in s ==> use'(e.key) == use(e.key)
    ensures Decreasing(s, use')
  {
  }

  /** One operation keeps the list in order of last use, when `use'` is `use` with the used key moved to time `n`. */
  lemma ApplyDecreasing(s: Recency, op: Op, cap: nat, d: int, use: Key -> int, use': Key -> int, n: int)
    requires Decreasing(s, use) && forall e :: e in s ==> use(e.key) < n
    requires var used := op.Set? || (op.Get? && Apply(s, op, cap, d).1.Some?);
             forall k :: use'(k) == if used && k == op.k then n else use(k)
    ensures Decreasing(Apply(s, op, cap, d).0, use')
  {
    if !op.Clear? {
      var rest := DropKey(s, op.k);
      DropMeans(s, op.k);
      FindMeans(s, op.k);
      DropDecreasing(s, op.k, use);
      SameUseDecreasing(rest, use, use');
      match op
      case Get(k, _) =>
        if Apply(s, op, cap, d).1.Some? { ConsDecreasing(Find(s, k).value, rest, use'); }
        else if Find(s, k).None? { assert s == rest; }
      case Set(k, v, ttl, now) => ConsDecreasing(Entry(k, v, Until(ttl, d, now)), rest, use');
      case Delete(_) =>
    }
  }

  /** The list is always in order of last use, so the entry evicted is the least recently used one. */
  lemma {:induction false} EvictsLeastRecentlyUsed(ops: seq<Op>, cap: nat, d: int)
    ensures Decreasing(Run(ops, cap, d).0, k => LastUse(ops, cap, d, k))
  {
    if ops != [] {
      var n := |ops| - 1;
      var front := ops[..n];
      EvictsLeastRecentlyUsed(front, cap, d);
      var use, use' := (k: Key) => LastUse(front, cap, d, k), (k: Key) => LastUse(ops, cap, d, k);
      var s := Run(front, cap, d).0;
      forall e | e in s ensures use(e.key) < n { LastUseInRange(front, cap, d, e.key); }
      ApplyDecreasing(s, ops[n], cap, d, use, use', n);
    }
  }

  // ---------------------------------------------------------------- hits are right

  /** The reference: the last value set for each key, with its deadline. */
  function Written(ops: seq<Op>, d: int): map<Key, Entry> {
    if ops == [] then map[]
    else
      var m := Written(ops[..|ops| - 1], d);
      match ops[|ops| - 1]
      case Get(_, _) => m
      case Set(k, v, ttl, now) => m[k := Entry(k, v, Until(ttl, d, now))]
      case Delete(k) => m - {k}
      case Clear => map[]
  }

  lemma ApplyOrigin(s: Recency, op: Op, cap: nat, d: int, e: Entry)
    requires e in Apply(s, op, cap, d).0
    ensures e in s || (op.Set? && e == Entry(op.k, op.v, Until(op.ttl, d, op.now)))
    ensures op.Set? && e in s && e.key == op.k ==> e == Entry(op.k, op.v, Until(op.ttl, d, op.now))
    ensures op.Delete? ==> e.key != op.k
    ensures !op.Clear?
  {
    if !op.Clear? {
      DropMeans(s, op.k);
      FindMeans(s, op.k);
    }
  }

  lemma {:induction false} CachedIsWritten(ops: seq<Op>, cap: nat, d: int)
    ensures forall e :: e in Run(ops, cap, d).0 ==> e.key in Written(ops, d) && Written(ops, d)[e.key] == e
  {
    if ops != [] {
      var n := |ops| - 1;
      CachedIsWritten(ops[..n], cap, d);
      var s := Run(ops[..n], cap, d).0;
      forall e | e in Run(ops, cap, d).0 ensures e.key in Written(ops, d) && Written(ops, d)[e.key] == e {
        ApplyOrigin(s, ops[n], cap, d, e);
      }
    }
  }

  /** A hit is never stale: it returns the last value set since the last delete or clear, within its lifetime. */
  lemma HitsAreCurrent(ops: seq<Op>, k: Key, now: int, cap: nat, d: int)
    ensures var r := Apply(Run(ops, cap, d).0, Get(k, now), cap, d).1;
            r.Some? ==>
              k in Written(ops, d) && r.value == Written(ops, d)[k].value && now <= Written(ops, d)[k].expiresAt
  {
    CachedIsWritten(ops, cap, d);
    FindMeans(Run(ops, cap, d).0, k);
  }

  // ---------------------------------------------------------------- what is used stays

  lemma {:induction false} UsesSpread(s: Recency, use: Key -> int, n: int, i: nat)
    requires Decreasing(s, use) && i < |s| && forall e :: e in s ==> use(e.key) < n
    ensures use(s[i].key) < n - i
  {
    if i > 0 { UsesSpread(s, use, n, i - 1); }
  }

  /** A push keeps every entry used fewer than `cap` operations before operation `n`. */
  lemma PushKeepsRecent(s: Recency, e: Entry, cap: nat, use: Key -> int, n: int, x: Entry)
    requires Decreasing(s, use) && forall y :: y in s ==> use(y.key) < n
    requires x in s && n + 1 - use(x.key) <= cap
    ensures x in Pushed(s, e, cap)
  {
    var i :| 0 <= i < |s| && s[i] == x;
    var t := [e] + s;
    assert t[i + 1] == x;
    if |t| > cap {
      UsesSpread(s, use, n, i);
      UsesSpread(s, use, n, |s| - 1);
      assert i == |s| - 1 ==> use(x.key) < n - i;
      assert i + 1 < |t| - 1;
      assert t[..|t| - 1][i + 1] == x;
    }
  }

  ghost predicate ReadBy(ops: seq<Op>, now: int) {
    forall op :: op in ops && op.Get? ==> op.now <= now
  }

  /** One operation keeps the entry of a recently used key, unless it deletes it or finds it expired. */
  lemma UnusedStays(s: Recency, op: Op, cap: nat, d: int, use: Key -> int, n: int, x: Entry, now: int)
    requires OneEach(s) && Decreasing(s, use) && forall y :: y in s ==> use(y.key) < n
    requires x in s && n + 1 - use(x.key) <= cap
    requires !op.Clear? && (op.Get? ==> op.now <= now) && !(op.k == x.key && !op.Get?)
    ensures x in Apply(s, op, cap, d).0 || x.expiresAt < now
  {
    DropMeans(s, op.k);
    FindUnique(s, x);
    match op
    case Set(k, v, ttl, at) => PushKeepsRecent(s, Entry(k, v, Until(ttl, d, at)), cap, use, n, x);
    case Get(k, _) => FindMeans(s, k);
    case Delete(_) =>
  }

  /** A written key used within the last `cap` operations is cached or past its deadline. */
  lemma {:induction false} RecentlyUsedStays(ops: seq<Op>, k: Key, now: int, cap: nat, d: int)
    requires ReadBy(ops, now) && k in Written(ops, d) && |ops| - LastUse(ops, cap, d, k) <= cap
    ensures Written(ops, d)[k].key == k
    ensures Written(ops, d)[k] in Run(ops, cap, d).0 || Written(ops, d)[k].expiresAt < now
  {
    var n := |ops| - 1;
    var front, op := ops[..n], ops[n];
    var s, x := Run(front, cap, d).0, Written(ops, d)[k];
    assert op in ops && forall p :: p in front ==> p in ops;
    if op.Set? && op.k == k {
      assert Run(ops, cap, d).0[0] == x;
    } else if op.Get? && op.k == k && Apply(s, op, cap, d).1.Some? {
      CachedIsWritten(front, cap, d);
      FindMeans(s, k);
      assert Run(ops, cap, d).0[0] == x;
    } else {
      RecentlyUsedStays(front, k, now, cap, d);
      if x in s {
        var use := (j: Key) => LastUse(front, cap, d, j);
        EvictsLeastRecentlyUsed(front, cap, d);
        LargerCacheIncludesSmaller(front, cap, cap, d);
        forall e | e in s ensures use(e.key) < n { LastUseInRange(front, cap, d, e.key); }
        UnusedStays(s, op, cap, d, use, n, x, now);
      }
    }
  }

  /** So within that window a Get answers exactly: the last value written if its lifetime is not over, else nothing. */
  lemma RecentKeysAreAnsweredExactly(ops: seq<Op>, k: Key, now: int, cap: nat, d: int)
    requires ReadBy(ops, now) && |ops| - LastUse(ops, cap, d, k) <= cap
    ensures Apply(Run(ops, cap, d).0, Get(k, now), cap, d).1
            == if k in Written(ops, d) && now <= Written(ops, d)[k].expiresAt then Some(Written(ops, d)[k].value)
               else None
  {
    HitsAreCurrent(ops, k, now, cap, d);
    if k in Written(ops, d) && now <= Written(ops, d)[k].expiresAt {
      RecentlyUsedStays(ops, k, now, cap, d);
      LargerCacheIncludesSmaller(ops, cap, cap, d);
      FindUnique(Run(ops, cap, d).0, Written(ops, d)[k]);
    }
  }


  // ---------------------------------------------------------------- lifetimes, from the trace alone

  /** Nothing in `ops` writes or removes `k`. */
  ghost predicate Untouched(ops: seq<Op>, k: Key) {
    forall op :: op in ops ==> op.Get? || ((op.Set? || op.Delete?) && op.k != k)
  }

  lemma {:induction false} WrittenAt(ops: seq<Op>, i: nat, k: Key, d: int)
    requires i < |ops| && Untouched(ops[i + 1..], k)
    ensures match ops[i]
            case Set(j, v, ttl, at) =>
              j == k ==> k in Written(ops, d) && Written(ops, d)[k] == Entry(k, v, at + if ttl > 0 then ttl else d)
            case Delete(j) => j == k ==> k !in Written(ops, d)
            case Clear => k !in Written(ops, d)
            case Get(_, _) => true
  {
    if i < |ops| - 1 {
      var front := ops[..|ops| - 1];
      assert front[i + 1..] == ops[i + 1..][..|ops| - 2 - i];
      assert Untouched(ops[i + 1..][..|ops| - 2 - i], k);
      WrittenAt(front, i, k, d);
      assert ops[i + 1..][|ops| - 2 - i] == ops[|ops| - 1];
    }
  }

  /**
   * The last operation on `k` besides Gets set it to `v` at time `at`. Within the window of recent use a Get answers
   * `v` exactly up to the given time to live, or up to the default one if none was given.
   */
  lemma LifetimesAreKept(ops: seq<Op>, i: nat, k: Key, v: Value, ttl: int, at: int, now: int, cap: nat, d: int)
    requires i < |ops| && ops[i] == Set(k, v, ttl, at) && Untouched(ops[i + 1..], k)
    requires ReadBy(ops, now) && |ops| - LastUse(ops, cap, d, k) <= cap
    ensures Apply(Run(ops, cap, d).0, Get(k, now), cap, d).1
            == if now <= (if ttl > 0 then at + ttl else at + d) then Some(v) else None
  {
    WrittenAt(ops, i, k, d);
    RecentKeysAreAnsweredExactly(ops, k, now, cap, d);
  }

  /** The last operation on `k` besides Gets removed it: a Get misses. */
  lemma RemovedKeysAreMisses(ops: seq<Op>, i: nat, k: Key, now: int, cap: nat, d: int)
    requires i < |ops| && (ops[i] == Delete(k) || ops[i] == Clear) && Untouched(ops[i + 1..], k)
    ensures Apply(Run(ops, cap, d).0, Get(k, now), cap, d).1 == None
  {
    WrittenAt(ops, i, k, d);
    HitsAreCurrent(ops, k, now, cap, d);
  }

  /** After a Get that misses, the key takes no room: an expired entry is dropped on the way. */
  lemma MissesTakeNoRoom(s: Recency, k: Key, now: int, cap: nat, d: int)
    requires Apply(s, Get(k, now), cap, d).1 == None
    ensures forall e :: e in Apply(s, Get(k, now), cap, d).0 <==> e in s && e.key != k
  {
    FindMeans(s, k);
    DropMeans(s, k);
  }

  /** A key that was never set is a miss as well. */
  lemma {:induction false} UnsetKeysAreMisses(ops: seq<Op>, k: Key, now: int, cap: nat, d: int)
    requires forall op :: op in ops && op.Set? ==> op.k != k
    ensures Apply(Run(ops, cap, d).0, Get(k, now), cap, d).1 == None
  {
    NeverWritten(ops, k, d);
    HitsAreCurrent(ops, k, now, cap, d);
  }

  lemma {:induction false} NeverWritten(ops: seq<Op>, k: Key, d: int)
    requires forall op :: op in ops && op.Set? ==> op.k != k
    ensures k !in Written(ops, d)
  {
    if ops != [] {
      assert forall op :: op in ops[..|ops| - 1] ==> op in ops;
      NeverWritten(ops[..|ops| - 1], k, d);
      assert ops[|ops| - 1] in ops;
    }
  }
}
