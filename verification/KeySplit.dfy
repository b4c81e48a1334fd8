/** Hot-key splitting: shard names, and the copies of a split key among all the requests a server handles. */
module KeySplit {
  import opened Common
  import opened TimedStore

  // ---------------------------------------------------------------- shard names

  function Digit(n: nat): (c: char)
    requires n < 10
    ensures IsDigit(c) && DigitValue(c) == n
  {
    '0' + n as char
  }

  predicate IsDigit(c: char) { '0' <= c <= '9' }

  function DigitValue(c: char): nat
    requires IsDigit(c)
  {
    (c - '0') as nat
  }

  function Decimal(n: nat): string {
    if n < 10 then [Digit(n)] else Decimal(n / 10) + [Digit(n % 10)]
  }

  predicate AllDigits(s: string) { forall i :: 0 <= i < |s| ==> IsDigit(s[i]) }

  function Parse(s: string): nat
    requires AllDigits(s)
  {
    if s == [] then 0 else 10 * Parse(s[..|s| - 1]) + DigitValue(s[|s| - 1])
  }

  lemma {:induction false} DecimalRoundTrip(n: nat)
    ensures AllDigits(Decimal(n)) && Parse(Decimal(n)) == n
  {
    if n < 10 {
      assert Decimal(n)[..0] == [];
    } else {
      DecimalRoundTrip(n / 10);
      var s := Decimal(n / 10);
      assert (s + [Digit(n % 10)])[..|s|] == s;
    }
  }

  const INFIX := ":shard_"

  function ShardKeyName(key: Key, i: nat): Key {
    key + INFIX + Decimal(i)
  }

  /** Reading a shard name backwards: digits, then an underscore. */
  lemma NameTail(x: Key, a: string)
    requires AllDigits(a)
    ensures var s := x + INFIX + a;
            && !IsDigit(s[|s| - |a| - 1])
            && forall p :: |s| - |a| <= p < |s| ==> IsDigit(s[p])
  {
    var s := x + INFIX + a;
    assert s[|s| - |a| - 1] == INFIX[6];
    forall p | |s| - |a| <= p < |s| ensures IsDigit(s[p]) {
      assert s[p] == a[p - (|s| - |a|)];
    }
  }

  /** Different keys or different indices never share a shard name. */
  lemma ShardKeyNameInjective(k1: Key, i1: nat, k2: Key, i2: nat)
    requires ShardKeyName(k1, i1) == ShardKeyName(k2, i2)
    ensures k1 == k2 && i1 == i2
  {
    var a, b := Decimal(i1), Decimal(i2);
    DecimalRoundTrip(i1);
    DecimalRoundTrip(i2);
    NameTail(k1, a);
    NameTail(k2, b);
    var s := ShardKeyName(k1, i1);
    assert |a| == |b|;
    var n := |s| - |a|;
    assert s[n..] == a && s[n..] == b;
    assert s[..n - |INFIX|] == k1 && s[..n - |INFIX|] == k2;
  }

  ghost predicate IsShardName(k: Key) {
    exists base, i :: k == ShardKeyName(base, i)
  }

  /** A shard name is longer than its key, so no two keys are copies of each other. */
  lemma CopiesAreLonger(k: Key, i: nat)
    ensures |ShardKeyName(k, i)| > |k|
  {
  }

  // ---------------------------------------------------------------- the server's view

  /** What a server stores, the keys it has split into `n` copies, and its clock. */
  datatype State = State(store: Items, mitigated: set<Key>, clock: int)

  /** Writes the entries `es` to the first copies of `key`. */
  function WriteCopies(store: Items, key: Key, es: seq<Entry>): Items {
    if es == [] then store
    else WriteCopies(store, key, es[..|es| - 1])[ShardKeyName(key, |es| - 1) := es[|es| - 1]]
  }

  /** The copies made when a key is split: its value, without a deadline. */
  function SplitEntries(v: Value, n: nat): seq<Entry> { seq(n, _ => Entry(v, None)) }

  /** The copies made by a write: its own time to live, each counted from its own clock reading. */
  function WriteEntries(v: Value, ttl: int, at: nat -> int, n: nat): seq<Entry> {
    seq(n, i requires 0 <= i < n => Entry(v, Deadline(ttl, at(i + 1))))
  }

  /**
   * The requests of a server. A Get reads the key at `now`; if the detector calls it `hot`, splitting reads it again
   * at `later`. A Set reads the clock once for the key and once for each copy. A write replicated from another node
   * goes to the key alone.
   */
  datatype Op =
    | Get(key: Key, hot: bool, now: int, later: int)
    | Set(key: Key, value: Value, ttl: int, at: nat -> int)
    | Delete(key: Key)
    | Expire(key: Key, ttl: int, now: int)
    | Replicated(key: Key, value: Value, ttl: int, now: int)

  /** A hot key is marked once, and copied if it can still be read. */
  function Mitigate(s: State, key: Key, later: int, n: nat): State {
    if key in s.mitigated then s
    else if Live(s.store, key, later) then
      s.(store := WriteCopies(s.store, key, SplitEntries(s.store[key].value, n)), mitigated := s.mitigated + {key})
    else s.(mitigated := s.mitigated + {key})
  }

  /** Mitigation does not look at the clock. */
  lemma MitigateAnytime(s: State, c: int, key: Key, later: int, n: nat)
    ensures Mitigate(s.(clock := c), key, later, n) == Mitigate(s, key, later, n).(clock := c)
  {
  }

  function Step(s: State, op: Op, n: nat): State {
    match op
    case Get(key, hot, now, later) =>
      (if Live(s.store, key, now) && hot then Mitigate(s, key, later, n) else s).(clock := later)
    case Set(key, v, ttl, at) =>
      var written := s.store[key := Entry(v, Deadline(ttl, at(0)))];
      if key in s.mitigated then s.(store := WriteCopies(written, key, WriteEntries(v, ttl, at, n)), clock := at(n))
      else s.(store := written, clock := at(0))
    case Delete(key) => s.(store := s.store - {key})
    case Expire(key, ttl, now) => s.(store := FlatExpire(s.store, key, ttl, now), clock := now)
    case Replicated(key, v, ttl, now) => s.(store := s.store[key := Entry(v, Deadline(ttl, now))], clock := now)
  }

  /** The clock readings of a request come after the state's clock and in order. */
  ghost predicate Timely(s: State, op: Op) {
    match op
    case Get(_, _, now, later) => s.clock <= now <= later
    case Set(_, _, _, at) => s.clock <= at(0) && forall i: nat, j: nat :: i <= j ==> at(i) <= at(j)
    case Delete(_) => true
    case Expire(_, _, now) => s.clock <= now
    case Replicated(_, _, _, now) => s.clock <= now
  }

  function Run(ops: seq<Op>, n: nat): State {
    if ops == [] then State(map[], {}, 0) else Step(Run(ops[..|ops| - 1], n), ops[|ops| - 1], n)
  }

  /** Every request of the run is timely when its turn comes. */
  ghost predicate Timed(ops: seq<Op>, n: nat) {
    ops == [] || (Timed(ops[..|ops| - 1], n) && Timely(Run(ops[..|ops| - 1], n), ops[|ops| - 1]))
  }

  /** The key a client reads: one of the copies, chosen by its own hash, once the key is split. */
  function GetShardedKey(s: State, key: Key, clientHash: nat, n: nat): Key
    requires n > 0
  {
    if key in s.mitigated then ShardKeyName(key, clientHash % n) else key
  }

  // ---------------------------------------------------------------- what agreement means

  /** `c` has the value of `e` and lasts at least as long. */
  predicate Covers(c: Entry, e: Entry) {
    c.value == e.value
    && (c.expiresAt.None? || (e.expiresAt.Some? && e.expiresAt.value <= c.expiresAt.value))
  }

  /** The first `n` copies of `key` in `store` cover `e`. */
  ghost predicate CopiesCover(store: Items, key: Key, e: Entry, n: nat) {
    forall i: nat :: i < n ==> ShardKeyName(key, i) in store && Covers(store[ShardKeyName(key, i)], e)
  }

  /** As long as the key can be read, its copies cover it. */
  ghost predicate CopiesAgree(s: State, key: Key, n: nat) {
    Live(s.store, key, s.clock) ==> CopiesCover(s.store, key, s.store[key], n)
  }

  /** From now on, whenever the key can be read, each copy is read as the same value. */
  ghost predicate ReadsAgree(s: State, key: Key, n: nat) {
    forall now, i: nat :: s.clock <= now && i < n && FlatGet(s.store, key, now).Some? ==>
      FlatGet(s.store, ShardKeyName(key, i), now) == FlatGet(s.store, key, now)
  }

  lemma CopiesAgreeIffReadsAgree(s: State, key: Key, n: nat)
    ensures CopiesAgree(s, key, n) <==> ReadsAgree(s, key, n)
  {
    if ReadsAgree(s, key, n) && Live(s.store, key, s.clock) {
      var e := s.store[key];
      forall i: nat | i < n ensures ShardKeyName(key, i) in s.store && Covers(s.store[ShardKeyName(key, i)], e) {
        assert FlatGet(s.store, ShardKeyName(key, i), s.clock) == FlatGet(s.store, key, s.clock);
        var c := s.store[ShardKeyName(key, i)];
        var t := if e.expiresAt.Some? then e.expiresAt.value
                 else if c.expiresAt.Some? then Max(s.clock, c.expiresAt.value + 1) else s.clock;
        assert FlatGet(s.store, ShardKeyName(key, i), t) == FlatGet(s.store, key, t);
      }
    }
  }

  ghost predicate AllAgree(s: State, n: nat) {
    forall k :: k in s.mitigated ==> CopiesAgree(s, k, n)
  }

  ghost predicate IsCopy(k: Key, key: Key, n: nat) {
    exists i: nat :: i < n && k == ShardKeyName(key, i)
  }

  // ---------------------------------------------------------------- what one request writes

  lemma {:induction false} WriteCopiesEffect(store: Items, key: Key, es: seq<Entry>, x: Key)
    ensures forall j: nat :: j < |es| && x == ShardKeyName(key, j) ==>
              x in WriteCopies(store, key, es) && WriteCopies(store, key, es)[x] == es[j]
    ensures !IsCopy(x, key, |es|) ==>
              (x in WriteCopies(store, key, es) <==> x in store)
              && (x in store ==> WriteCopies(store, key, es)[x] == store[x])
  {
    if es != [] {
      var n := |es| - 1;
      WriteCopiesEffect(store, key, es[..n], x);
      forall j: nat | j < |es| && x == ShardKeyName(key, j)
        ensures x in WriteCopies(store, key, es) && WriteCopies(store, key, es)[x] == es[j]
      {
        if x == ShardKeyName(key, n) { ShardKeyNameInjective(key, j, key, n); }
      }
      if IsCopy(x, key, n) {
        var j: nat :| j < n && x == ShardKeyName(key, j);
        assert IsCopy(x, key, |es|);
      }
      if x == ShardKeyName(key, n) { assert IsCopy(x, key, |es|); }
    }
  }

  /** The store after `key` got entry `main`, if any, and its first copies the entries `es`. */
  function Updated(store: Items, key: Key, main: Option<Entry>, es: seq<Entry>): Items {
    WriteCopies(if main.Some? then store[key := main.value] else store, key, es)
  }

  lemma UpdatedAt(store: Items, key: Key, main: Option<Entry>, es: seq<Entry>, x: Key)
    ensures forall j: nat :: j < |es| && x == ShardKeyName(key, j) ==>
              x in Updated(store, key, main, es) && Updated(store, key, main, es)[x] == es[j]
    ensures x == key && main.Some? ==>
              x in Updated(store, key, main, es) && Updated(store, key, main, es)[x] == main.value
    ensures !IsCopy(x, key, |es|) && !(x == key && main.Some?) ==>
              (x in Updated(store, key, main, es) <==> x in store)
              && (x in store ==> Updated(store, key, main, es)[x] == store[x])
  {
    WriteCopiesEffect(if main.Some? then store[key := main.value] else store, key, es, x);
    forall i: nat ensures key != ShardKeyName(key, i) { CopiesAreLonger(key, i); }
  }

  /** An entry for `key` that every split key it is a copy of, and that can be read at `c`, is covered by. */
  ghost predicate FitsAsCopy(s: State, key: Key, e: Entry, n: nat, c: int) {
    forall m :: m in s.mitigated && IsCopy(key, m, n) && Live(s.store, m, c) ==> Covers(e, s.store[m])
  }

  /** Entries for copies of `key`, each covered by its own copies if it is itself split and can be read at `c`. */
  ghost predicate FitAsKeys(s: State, key: Key, es: seq<Entry>, n: nat, c: int) {
    forall j: nat :: j < |es| && ShardKeyName(key, j) in s.mitigated && !Expired(es[j], c) ==>
      CopiesCover(s.store, ShardKeyName(key, j), es[j], n)
  }

  /** No copy of `m` is a copy of another key, and a copy of `m` has no copy that is `m`. */
  lemma CopiesAreApart(m: Key, key: Key, n: nat)
    requires m != key
    ensures forall i: nat :: !IsCopy(ShardKeyName(m, i), key, n)
    ensures IsCopy(m, key, n) ==> forall i: nat :: ShardKeyName(m, i) != key
  {
    forall i: nat ensures !IsCopy(ShardKeyName(m, i), key, n) {
      if j: nat :| j < n && ShardKeyName(m, i) == ShardKeyName(key, j) { ShardKeyNameInjective(m, i, key, j); }
    }
    if IsCopy(m, key, n) {
      var j: nat :| j < n && m == ShardKeyName(key, j);
      CopiesAreLonger(key, j);
      forall i: nat ensures ShardKeyName(m, i) != key { CopiesAreLonger(m, i); }
    }
  }

  /** A split key other than the one written keeps agreeing exactly when the write fits it. */
  lemma OtherAgreesIff(s: State, key: Key, main: Option<Entry>, es: seq<Entry>, n: nat, mit: set<Key>, c: int, m: Key)
    requires m in s.mitigated && m != key && CopiesAgree(s, m, n) && s.clock <= c
    ensures CopiesAgree(State(Updated(s.store, key, main, es), mit, c), m, n)
            <==> (main.Some? && IsCopy(key, m, n) && Live(s.store, m, c) ==> Covers(main.value, s.store[m]))
                 && forall j: nat :: j < |es| && m == ShardKeyName(key, j) && !Expired(es[j], c) ==>
                      CopiesCover(s.store, m, es[j], n)
  {
    var t := Updated(s.store, key, main, es);
    CopiesAreApart(m, key, |es|);
    UpdatedAt(s.store, key, main, es, m);
    forall i: nat
      ensures ShardKeyName(m, i) in t <==> ShardKeyName(m, i) in s.store || (ShardKeyName(m, i) == key && main.Some?)
      ensures ShardKeyName(m, i) == key && main.Some? ==> t[ShardKeyName(m, i)] == main.value
      ensures ShardKeyName(m, i) in s.store && !(ShardKeyName(m, i) == key && main.Some?) ==>
                t[ShardKeyName(m, i)] == s.store[ShardKeyName(m, i)]
    {
      UpdatedAt(s.store, key, main, es, ShardKeyName(m, i));
    }
    if IsCopy(m, key, |es|) {
      var j: nat :| j < |es| && m == ShardKeyName(key, j);
      forall h: nat | h < |es| && m == ShardKeyName(key, h) ensures h == j { ShardKeyNameInjective(key, h, key, j); }
    } else {
      assert forall j: nat :: j < |es| ==> m != ShardKeyName(key, j);
    }
  }

  /** The written key itself, if split, agrees exactly when its copies, new or old, cover what it now holds. */
  lemma OwnAgreesIff(s: State, key: Key, main: Option<Entry>, es: seq<Entry>, n: nat, mit: set<Key>, c: int)
    requires (es == [] || |es| == n) && (main.Some? || key in s.store)
    ensures var e := if main.Some? then main.value else s.store[key];
            CopiesAgree(State(Updated(s.store, key, main, es), mit, c), key, n)
            <==> (!Expired(e, c) ==>
                  if es == [] then CopiesCover(s.store, key, e, n) else forall i :: 0 <= i < n ==> Covers(es[i], e))
  {
    var t := Updated(s.store, key, main, es);
    UpdatedAt(s.store, key, main, es, key);
    forall i: nat ensures key != ShardKeyName(key, i) { CopiesAreLonger(key, i); }
    assert !IsCopy(key, key, |es|);
    forall i: nat | i < n
      ensures es == [] ==> (ShardKeyName(key, i) in t <==> ShardKeyName(key, i) in s.store)
      ensures es == [] && ShardKeyName(key, i) in s.store ==> t[ShardKeyName(key, i)] == s.store[ShardKeyName(key, i)]
      ensures es != [] ==> ShardKeyName(key, i) in t && t[ShardKeyName(key, i)] == es[i]
    {
      UpdatedAt(s.store, key, main, es, ShardKeyName(key, i));
    }
  }

  /** All split keys keep agreeing exactly when the write fits: as a copy, as keys, and with its own copies. */
  lemma UpdateAgreesIff(s: State, key: Key, main: Option<Entry>, es: seq<Entry>, n: nat, mit: set<Key>, c: int)
    requires AllAgree(s, n) && s.clock <= c && (mit == s.mitigated || mit == s.mitigated + {key})
    requires (es == [] || |es| == n) && (main.Some? || key in s.store)
    ensures var t := State(Updated(s.store, key, main, es), mit, c);
            AllAgree(t, n)
            <==> (main.Some? ==> FitsAsCopy(s, key, main.value, n, c)) && FitAsKeys(s, key, es, n, c)
                 && (key in mit ==> CopiesAgree(t, key, n))
  {
    var t := State(Updated(s.store, key, main, es), mit, c);
    forall m | m in s.mitigated && m != key
      ensures CopiesAgree(t, m, n)
              <==> (main.Some? && IsCopy(key, m, n) && Live(s.store, m, c) ==> Covers(main.value, s.store[m]))
                   && forall j: nat :: j < |es| && m == ShardKeyName(key, j) && !Expired(es[j], c) ==>
                        CopiesCover(s.store, m, es[j], n)
    {
      OtherAgreesIff(s, key, main, es, n, mit, c, m);
    }
    forall i: nat ensures key != ShardKeyName(key, i) { CopiesAreLonger(key, i); }
    assert !IsCopy(key, key, n);
    if AllAgree(t, n) {
      forall j: nat | j < |es| && ShardKeyName(key, j) in s.mitigated && !Expired(es[j], c)
        ensures CopiesCover(s.store, ShardKeyName(key, j), es[j], n)
      {
        assert CopiesAgree(t, ShardKeyName(key, j), n);
      }
    }
  }

  // ---------------------------------------------------------------- the exact condition, request by request

  /** The request writes nothing that a split key or one of its copies would contradict. */
  ghost predicate Harmless(s: State, op: Op, n: nat) {
    match op
    case Get(key, hot, now, later) =>
      Live(s.store, key, now) && hot && key !in s.mitigated && Live(s.store, key, later) ==>
        FitAsKeys(s, key, SplitEntries(s.store[key].value, n), n, later)
    case Set(key, v, ttl, at) =>
      if key in s.mitigated then
        && FitsAsCopy(s, key, Entry(v, Deadline(ttl, at(0))), n, at(n))
        && FitAsKeys(s, key, WriteEntries(v, ttl, at, n), n, at(n))
      else FitsAsCopy(s, key, Entry(v, Deadline(ttl, at(0))), n, at(0))
    case Delete(key) => forall m :: m in s.mitigated && IsCopy(key, m, n) ==> !Live(s.store, m, s.clock)
    case _ => Bare(s, op).Some? ==> FitsAsCopy(s, op.key, Bare(s, op).value, n, op.now) && CopiesKeepUp(s, op, n)
  }

  /** The entry that an Expire or a replicated write gives to its key without touching the copies. */
  function Bare(s: State, op: Op): Option<Entry> {
    match op
    case Expire(key, ttl, now) =>
      if Live(s.store, key, now) then Some(s.store[key].(expiresAt := Deadline(ttl, now))) else None
    case Replicated(_, v, ttl, now) => Some(Entry(v, Deadline(ttl, now)))
    case _ => None
  }

  /** If the key is split, what it is given alone is covered by the copies it has. */
  ghost predicate CopiesKeepUp(s: State, op: Op, n: nat) {
    op.key in s.mitigated && Bare(s, op).Some? ==> CopiesCover(s.store, op.key, Bare(s, op).value, n)
  }

  lemma LaterAgrees(s: State, n: nat, c: int)
    requires AllAgree(s, n) && s.clock <= c
    ensures AllAgree(s.(clock := c), n)
  {
    forall k | k in s.mitigated ensures CopiesAgree(s.(clock := c), k, n) { assert CopiesAgree(s, k, n); }
  }

  lemma GetAgreesIff(s: State, key: Key, hot: bool, now: int, later: int, n: nat)
    requires AllAgree(s, n) && s.clock <= now <= later
    ensures AllAgree(Step(s, Get(key, hot, now, later), n), n) <==> Harmless(s, Get(key, hot, now, later), n)
  {
    if Live(s.store, key, now) && hot && key !in s.mitigated {
      var mit := s.mitigated + {key};
      if Live(s.store, key, later) {
        var es := SplitEntries(s.store[key].value, n);
        UpdateAgreesIff(s, key, None, es, n, mit, later);
        OwnAgreesIff(s, key, None, es, n, mit, later);
      } else {
        UpdateAgreesIff(s, key, None, [], n, mit, later);
        OwnAgreesIff(s, key, None, [], n, mit, later);
      }
    } else {
      LaterAgrees(s, n, later);
    }
  }

  lemma SetAgreesIff(s: State, key: Key, v: Value, ttl: int, at: nat -> int, n: nat)
    requires AllAgree(s, n) && Timely(s, Set(key, v, ttl, at))
    ensures AllAgree(Step(s, Set(key, v, ttl, at), n), n) <==> Harmless(s, Set(key, v, ttl, at), n)
  {
    var main := Some(Entry(v, Deadline(ttl, at(0))));
    if key in s.mitigated {
      var es := WriteEntries(v, ttl, at, n);
      assert forall i: nat :: at(0) <= at(i);
      UpdateAgreesIff(s, key, main, es, n, s.mitigated, at(n));
      OwnAgreesIff(s, key, main, es, n, s.mitigated, at(n));
    } else {
      UpdateAgreesIff(s, key, main, [], n, s.mitigated, at(0));
    }
  }

  lemma BareAgreesIff(s: State, op: Op, n: nat)
    requires AllAgree(s, n) && Timely(s, op) && (op.Expire? || op.Replicated?)
    ensures AllAgree(Step(s, op, n), n) <==> Harmless(s, op, n)
  {
    if Bare(s, op).Some? {
      UpdateAgreesIff(s, op.key, Bare(s, op), [], n, s.mitigated, op.now);
      OwnAgreesIff(s, op.key, Bare(s, op), [], n, s.mitigated, op.now);
    } else {
      LaterAgrees(s, n, op.now);
    }
  }

  lemma DeleteAgreesIff(s: State, key: Key, n: nat)
    requires AllAgree(s, n)
    ensures AllAgree(Step(s, Delete(key), n), n) <==> Harmless(s, Delete(key), n)
  {
    var t := Step(s, Delete(key), n);
    forall m | m in s.mitigated ensures CopiesAgree(t, m, n) <==> (IsCopy(key, m, n) ==> !Live(s.store, m, s.clock)) {
      assert CopiesAgree(s, m, n);
      forall i: nat ensures m != ShardKeyName(m, i) { CopiesAreLonger(m, i); }
      if IsCopy(key, m, n) {
        var i: nat :| i < n && key == ShardKeyName(m, i);
        assert ShardKeyName(m, i) !in t.store;
      }
    }
  }

  /** Every request of the server keeps all split keys and their copies in agreement exactly when it is harmless. */
  lemma StepAgreesIff(s: State, op: Op, n: nat)
    requires AllAgree(s, n) && Timely(s, op)
    ensures AllAgree(Step(s, op, n), n) <==> Harmless(s, op, n)
  {
    match op
    case Get(key, hot, now, later) => GetAgreesIff(s, key, hot, now, later, n);
    case Set(key, v, ttl, at) => SetAgreesIff(s, key, v, ttl, at, n);
    case Delete(key) => DeleteAgreesIff(s, key, n);
    case _ => BareAgreesIff(s, op, n);
  }

  /** After every prefix of the run all split keys agree with their copies. */
  ghost predicate AgreesThroughout(ops: seq<Op>, n: nat) {
    AllAgree(Run(ops, n), n) && (ops == [] || AgreesThroughout(ops[..|ops| - 1], n))
  }

  /** Every request of the run is harmless when its turn comes. */
  ghost predicate HarmlessThroughout(ops: seq<Op>, n: nat) {
    ops == [] || (HarmlessThroughout(ops[..|ops| - 1], n) && Harmless(Run(ops[..|ops| - 1], n), ops[|ops| - 1], n))
  }

  /** Over whole runs: agreement holds throughout exactly when every request is harmless when its turn comes. */
  lemma {:induction false} RunAgreesIff(ops: seq<Op>, n: nat)
    requires Timed(ops, n)
    ensures AgreesThroughout(ops, n) <==> HarmlessThroughout(ops, n)
  {
    if ops != [] {
      var front := ops[..|ops| - 1];
      RunAgreesIff(front, n);
      if AgreesThroughout(front, n) { StepAgreesIff(Run(front, n), ops[|ops| - 1], n); }
    }
  }

  // ---------------------------------------------------------------- keys that are not shard names

  ghost predicate PlainKeys(s: State) { forall k :: k in s.mitigated ==> !IsShardName(k) }

  /** On a plain key only an Expire or a replicated write that the copies do not keep up with can do harm. */
  lemma PlainKeyHarmlessIff(s: State, op: Op, n: nat)
    requires PlainKeys(s) && !IsShardName(op.key)
    ensures Harmless(s, op, n) <==> CopiesKeepUp(s, op, n)
    ensures PlainKeys(Step(s, op, n))
  {
    forall m, i: nat ensures op.key != ShardKeyName(m, i) {
      if op.key == ShardKeyName(m, i) { assert IsShardName(op.key); }
    }
    assert forall m :: !IsCopy(op.key, m, n);
    forall j: nat ensures ShardKeyName(op.key, j) !in s.mitigated { assert IsShardName(ShardKeyName(op.key, j)); }
  }

  /** Clients use plain keys, and copies keep up with every Expire and replicated write. */
  ghost predicate PlainRun(ops: seq<Op>, n: nat) {
    ops == []
    || (var front, op := ops[..|ops| - 1], ops[|ops| - 1];
        && PlainRun(front, n) && Timely(Run(front, n), op)
        && !IsShardName(op.key) && CopiesKeepUp(Run(front, n), op, n))
  }

  /** Then in every run each copy of a split key is read as the key's own value whenever the key can be read. */
  lemma {:induction false} SplitCopiesAgree(ops: seq<Op>, n: nat)
    requires PlainRun(ops, n)
    ensures AllAgree(Run(ops, n), n) && PlainKeys(Run(ops, n))
  {
    if ops != [] {
      var front, op := ops[..|ops| - 1], ops[|ops| - 1];
      SplitCopiesAgree(front, n);
      PlainKeyHarmlessIff(Run(front, n), op, n);
      StepAgreesIff(Run(front, n), op, n);
    }
  }

  /** So reading through GetShardedKey returns the key's own value whenever it has one. */
  lemma ShardedReadIsCurrent(ops: seq<Op>, n: nat, key: Key, clientHash: nat, now: int)
    requires n > 0 && PlainRun(ops, n) && Run(ops, n).clock <= now
    ensures var s := Run(ops, n);
            FlatGet(s.store, key, now).Some? ==>
              FlatGet(s.store, GetShardedKey(s, key, clientHash, n), now) == FlatGet(s.store, key, now)
  {
    var s := Run(ops, n);
    SplitCopiesAgree(ops, n);
    if key in s.mitigated {
      assert CopiesAgree(s, key, n);
      CopiesAgreeIffReadsAgree(s, key, n);
    }
  }

  /** A hot key that can be read is split at once, and its copies are read as its unchanged value. */
  lemma HotKeyGetsSplit(ops: seq<Op>, key: Key, now: int, later: int, n: nat)
    requires PlainRun(ops, n) && !IsShardName(key) && Run(ops, n).clock <= now <= later
    requires Live(Run(ops, n).store, key, later)
    ensures var s := Run(ops + [Get(key, true, now, later)], n);
            && key in s.mitigated && ReadsAgree(s, key, n)
            && FlatGet(s.store, key, later) == FlatGet(Run(ops, n).store, key, later)
  {
    var before, op := Run(ops, n), Get(key, true, now, later);
    assert (ops + [op])[..|ops|] == ops;
    SplitCopiesAgree(ops, n);
    PlainKeyHarmlessIff(before, op, n);
    StepAgreesIff(before, op, n);
    var s := Run(ops + [op], n);
    assert CopiesAgree(s, key, n);
    CopiesAgreeIffReadsAgree(s, key, n);
    forall i: nat ensures key != ShardKeyName(key, i) { CopiesAreLonger(key, i); }
    WriteCopiesEffect(before.store, key, SplitEntries(before.store[key].value, n), key);
  }

  // ---------------------------------------------------------------- what a write leaves behind

  /** Entry with the time to live counted from `at`; none if it is not positive. */
  ghost predicate Lives(store: Items, x: Key, v: Value, ttl: int, at: int) {
    x in store && store[x].value == v && store[x].expiresAt == if ttl > 0 then Some(at + ttl) else None
  }

  /** A Set as one update of the key and its copies. */
  lemma SetIsUpdate(s: State, key: Key, v: Value, ttl: int, at: nat -> int, n: nat, es: seq<Entry>)
    requires es == if key in s.mitigated then WriteEntries(v, ttl, at, n) else []
    ensures Step(s, Set(key, v, ttl, at), n).store == Updated(s.store, key, Some(Entry(v, Deadline(ttl, at(0)))), es)
  {
  }

  /**
   * A Set gives the key and, if it is split, each of its copies the value and the same time to live, each counted from
   * its own clock reading,
   */
  lemma SetReachesCopies(s: State, key: Key, v: Value, ttl: int, at: nat -> int, n: nat, i: nat)
    ensures var t := Step(s, Set(key, v, ttl, at), n).store;
            && Lives(t, key, v, ttl, at(0))
            && (key in s.mitigated && i < n ==> Lives(t, ShardKeyName(key, i), v, ttl, at(i + 1)))
  {
    var main := Some(Entry(v, Deadline(ttl, at(0))));
    var es := if key in s.mitigated then WriteEntries(v, ttl, at, n) else [];
    SetIsUpdate(s, key, v, ttl, at, n, es);
    UpdatedAt(s.store, key, main, es, key);
    UpdatedAt(s.store, key, main, es, ShardKeyName(key, i));
  }

  /** and touches nothing else. */
  lemma SetTouchesNothingElse(s: State, key: Key, v: Value, ttl: int, at: nat -> int, n: nat, x: Key)
    requires x != key && !(key in s.mitigated && IsCopy(x, key, n))
    ensures var t := Step(s, Set(key, v, ttl, at), n).store;
            (x in t <==> x in s.store) && (x in t ==> t[x] == s.store[x])
  {
    var main := Some(Entry(v, Deadline(ttl, at(0))));
    var es := if key in s.mitigated then WriteEntries(v, ttl, at, n) else [];
    SetIsUpdate(s, key, v, ttl, at, n, es);
    UpdatedAt(s.store, key, main, es, x);
  }

  /** Other than at the given key, nothing in the store changed. */
  ghost predicate OnlyAt(store: Items, t: Items, key: Key) {
    forall x :: x != key ==> (x in t <==> x in store) && (x in t ==> t[x] == store[x])
  }

  /**
   * Delete, Expire and a replicated write reach the key alone: it is gone; it keeps its value with the new time to live
   * if it could be read; it has the written value and time to live. None of them marks or unmarks anything.
   */
  lemma OtherRequestsReachTheKeyAlone(s: State, op: Op, n: nat)
    requires op.Delete? || op.Expire? || op.Replicated?
    ensures var t := Step(s, op, n);
            && t.mitigated == s.mitigated && OnlyAt(s.store, t.store, op.key)
            && (op.Delete? ==> op.key !in t.store)
            && (op.Expire? && Live(s.store, op.key, op.now) ==>
                  Lives(t.store, op.key, s.store[op.key].value, op.ttl, op.now))
            && (op.Expire? && !Live(s.store, op.key, op.now) ==> t.store == s.store)
            && (op.Replicated? ==> Lives(t.store, op.key, op.value, op.ttl, op.now))
  {
  }

  /** A Get that misses changes nothing; a hot one that hits marks its key, even if it cannot be read any more. */
  lemma HotHitsAreMarked(s: State, key: Key, hot: bool, now: int, later: int, n: nat)
    ensures var t := Step(s, Get(key, hot, now, later), n);
            && (!hot || !Live(s.store, key, now) ==> t.store == s.store && t.mitigated == s.mitigated)
            && (hot && Live(s.store, key, now) ==> t.mitigated == s.mitigated + {key})
            && (key in s.mitigated || !Live(s.store, key, later) ==> t.store == s.store)
            && (key in t.store <==> key in s.store) && (key in s.store ==> t.store[key] == s.store[key])
  {
    forall i: nat ensures key != ShardKeyName(key, i) { CopiesAreLonger(key, i); }
    if Live(s.store, key, later) {
      WriteCopiesEffect(s.store, key, SplitEntries(s.store[key].value, n), key);
    }
  }

  /** A client with hash `h` is sent to copy `h` modulo the number of copies, to the key itself if it is not split. */
  lemma ClientsAreSpread(s: State, key: Key, h: nat, n: nat)
    requires n > 0
    ensures GetShardedKey(s, key, h, n) == if key in s.mitigated then key + ":shard_" + Decimal(h % n) else key
    ensures Decimal(7) == "7" && Decimal(42) == "42"
  {
    assert Decimal(42) == Decimal(4) + [Digit(2)];
  }

  // ---------------------------------------------------------------- where agreement ends

  function Still(t: int): nat -> int { (_: nat) => t }

  lemma {:induction false} RunSnoc(ops: seq<Op>, op: Op, n: nat)
    ensures Run(ops + [op], n) == Step(Run(ops, n), op, n)
  {
    assert (ops + [op])[..|ops|] == ops;
  }

  lemma TimedSnoc(ops: seq<Op>, op: Op, n: nat)
    requires Timed(ops, n) && Timely(Run(ops, n), op)
    ensures Timed(ops + [op], n)
  {
    assert (ops + [op])[..|ops|] == ops;
  }

  /** `k` is written and then found hot. */
  function SplitOps(k: Key, v: Value, ttl: int): seq<Op> { [Set(k, v, ttl, Still(0))] + [Get(k, true, 0, 0)] }

  lemma SplitRun(k: Key, v: Value, ttl: int, n: nat)
    requires ttl >= 0
    ensures Timed(SplitOps(k, v, ttl), n)
    ensures Run(SplitOps(k, v, ttl), n)
            == State(WriteCopies(map[k := Entry(v, Deadline(ttl, 0))], k, SplitEntries(v, n)), {k}, 0)
    ensures AllAgree(Run(SplitOps(k, v, ttl), n), n)
  {
    var a, b := Set(k, v, ttl, Still(0)), Get(k, true, 0, 0);
    RunSnoc([], a, n);
    TimedSnoc([], a, n);
    assert [] + [a] == [a];
    RunSnoc([a], b, n);
    TimedSnoc([a], b, n);
    GetAgreesIff(Run([a], n), k, true, 0, 0, n);
  }

  lemma SplitStores(k: Key, v: Value, ttl: int, n: nat, i: nat)
    requires ttl >= 0 && i < n
    ensures var store := Run(SplitOps(k, v, ttl), n).store;
            && k in store && store[k] == Entry(v, Deadline(ttl, 0))
            && ShardKeyName(k, i) in store && store[ShardKeyName(k, i)] == Entry(v, None)
  {
    SplitRun(k, v, ttl, n);
    forall j: nat ensures k != ShardKeyName(k, j) { CopiesAreLonger(k, j); }
    WriteCopiesEffect(map[k := Entry(v, Deadline(ttl, 0))], k, SplitEntries(v, n), k);
    WriteCopiesEffect(map[k := Entry(v, Deadline(ttl, 0))], k, SplitEntries(v, n), ShardKeyName(k, i));
  }

  /** `k` is split, and then its first copy, which clients are sent to, is read often enough to be split as well. */
  function DoubleSplitOps(k: Key, v: Value): seq<Op> { SplitOps(k, v, 0) + [Get(ShardKeyName(k, 0), true, 0, 0)] }

  lemma DoubleSplitRun(k: Key, v: Value, n: nat)
    requires n > 0
    ensures Timed(DoubleSplitOps(k, v), n) && AllAgree(Run(DoubleSplitOps(k, v), n), n)
    ensures var s := Run(DoubleSplitOps(k, v), n);
            var c := ShardKeyName(k, 0);
            && s.clock == 0 && k in s.mitigated && c in s.mitigated
            && ShardKeyName(c, 0) in s.store && s.store[ShardKeyName(c, 0)] == Entry(v, None)
  {
    var ops, c := SplitOps(k, v, 0), ShardKeyName(k, 0);
    var read, s := Get(c, true, 0, 0), Run(SplitOps(k, v, 0), n);
    SplitRun(k, v, 0, n);
    SplitStores(k, v, 0, n, 0);
    RunSnoc(ops, read, n);
    TimedSnoc(ops, read, n);
    CopiesAreLonger(k, 0);
    forall j: nat ensures ShardKeyName(c, j) != k { CopiesAreLonger(c, j); }
    GetAgreesIff(s, c, true, 0, 0, n);
    WriteCopiesEffect(s.store, c, SplitEntries(v, n), ShardKeyName(c, 0));
  }

  /** Reading a copy can be enough: after that, a plain write of `k` leaves the copies of its first copy behind. */
  lemma SplitCopyDiverges(k: Key, v: Value, w: Value, n: nat)
    requires n > 0 && v != w
    ensures Timed(DoubleSplitOps(k, v) + [Set(k, w, 0, Still(0))], n)
    ensures AllAgree(Run(DoubleSplitOps(k, v), n), n)
    ensures !AllAgree(Run(DoubleSplitOps(k, v) + [Set(k, w, 0, Still(0))], n), n)
  {
    var ops, write := DoubleSplitOps(k, v), Set(k, w, 0, Still(0));
    DoubleSplitRun(k, v, n);
    RunSnoc(ops, write, n);
    TimedSnoc(ops, write, n);
    SetAgreesIff(Run(ops, n), k, w, 0, Still(0), n);
  }

  /** A client that writes a shard name itself changes one copy of a split key. */
  lemma ForeignWriteDiverges(k: Key, v: Value, w: Value, n: nat)
    requires n > 0 && v != w
    ensures var ops := SplitOps(k, v, 0);
            var write := Set(ShardKeyName(k, 0), w, 0, Still(0));
            Timed(ops + [write], n) && AllAgree(Run(ops, n), n) && !AllAgree(Run(ops + [write], n), n)
  {
    var ops, c := SplitOps(k, v, 0), ShardKeyName(k, 0);
    SplitRun(k, v, 0, n);
    SplitStores(k, v, 0, n, 0);
    CopiesAreLonger(k, 0);
    RunSnoc(ops, Set(c, w, 0, Still(0)), n);
    TimedSnoc(ops, Set(c, w, 0, Still(0)), n);
    SetAgreesIff(Run(ops, n), c, w, 0, Still(0), n);
    assert IsCopy(c, k, n);
  }

  /** Lifting the deadline of a split key leaves its copies to expire. */
  lemma ExpireOutlivesCopies(k: Key, v: Value, n: nat)
    requires n > 0
    ensures var ops := SplitOps(k, v, 0) + [Set(k, v, 1, Still(0))];
            var lift := Expire(k, 0, 0);
            Timed(ops + [lift], n) && AllAgree(Run(ops, n), n) && !AllAgree(Run(ops + [lift], n), n)
  {
    var front, write, lift := SplitOps(k, v, 0), Set(k, v, 1, Still(0)), Expire(k, 0, 0);
    SplitRun(k, v, 0, n);
    RunSnoc(front, write, n);
    TimedSnoc(front, write, n);
    forall j: nat ensures ShardKeyName(k, j) != k { CopiesAreLonger(k, j); }
    SetAgreesIff(Run(front, n), k, v, 1, Still(0), n);
    var ops := front + [write];
    var written := Run(front, n).store[k := Entry(v, Some(1))];
    WriteCopiesEffect(written, k, WriteEntries(v, 1, Still(0), n), k);
    WriteCopiesEffect(written, k, WriteEntries(v, 1, Still(0), n), ShardKeyName(k, 0));
    RunSnoc(ops, lift, n);
    TimedSnoc(ops, lift, n);
    BareAgreesIff(Run(ops, n), lift, n);
  }

  /** A write replicated to a node that has split the key changes the key and not its copies. */
  lemma ReplicatedWriteMissesCopies(k: Key, v: Value, w: Value, n: nat)
    requires n > 0 && v != w
    ensures var ops := SplitOps(k, v, 0);
            var write := Replicated(k, w, 0, 0);
            Timed(ops + [write], n) && AllAgree(Run(ops, n), n) && !AllAgree(Run(ops + [write], n), n)
  {
    var ops, write := SplitOps(k, v, 0), Replicated(k, w, 0, 0);
    SplitRun(k, v, 0, n);
    SplitStores(k, v, 0, n, 0);
    RunSnoc(ops, write, n);
    TimedSnoc(ops, write, n);
    BareAgreesIff(Run(ops, n), write, n);
  }

  /** With all in agreement, a copy is misread only in one way: it is still there when its key is gone. */
  lemma OnlyGoneKeysAreMisread(s: State, key: Key, n: nat, i: nat, now: int)
    requires CopiesAgree(s, key, n) && i < n && s.clock <= now
    ensures FlatGet(s.store, ShardKeyName(key, i), now) != FlatGet(s.store, key, now)
            <==> FlatGet(s.store, key, now).None? && FlatGet(s.store, ShardKeyName(key, i), now).Some?
  {
    CopiesAgreeIffReadsAgree(s, key, n);
  }

  /** And that happens: copies made by splitting have no deadline, and a Delete leaves them. */
  lemma CopiesOutliveTheirKey(k: Key, v: Value, ttl: int, n: nat, i: nat)
    requires ttl > 0 && i < n
    ensures var s := Run(SplitOps(k, v, ttl), n);
            FlatGet(s.store, k, ttl + 1).None? && FlatGet(s.store, ShardKeyName(k, i), ttl + 1) == Some(v)
    ensures var s := Run(SplitOps(k, v, ttl) + [Delete(k)], n);
            FlatGet(s.store, k, 0).None? && FlatGet(s.store, ShardKeyName(k, i), 0) == Some(v)
  {
    SplitStores(k, v, ttl, n, i);
    CopiesAreLonger(k, i);
    RunSnoc(SplitOps(k, v, ttl), Delete(k), n);
  }
}
