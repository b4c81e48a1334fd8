/** Sets, splits and Deletes whose handlers overlap: the store is written one entry at a time. */
module KeySplitRaces {
  import opened Common
  import opened TimedStore
  import opened KeySplit

  /**
   * A handler on its way. A Set tested whether its key is split, and then writes the key and, if it is, its copies;
   * `next` counts the writes done and `since` is the clock at the first. A split read the key, copies it under the
   * mitigator's lock, and marks it last.
   */
  datatype Task =
    | Writing(key: Key, value: Value, ttl: int, split: bool, next: nat, since: int)
    | Splitting(key: Key, read: Option<Value>, next: nat)

  datatype Server = Server(store: Items, mitigated: set<Key>, clock: int, tasks: map<nat, Task>)

  datatype Move =
    | Tick(to: int)
    | BeginSet(id: nat, key: Key, value: Value, ttl: int)
    | BeginSplit(id: nat, key: Key)
    | Advance(id: nat)
    | Remove(key: Key)

  /** Where a Set's writes go: the key, then its copies. */
  function Spot(key: Key, i: nat): Key { if i == 0 then key else ShardKeyName(key, i - 1) }

  /** One write of a Set, or one copy of a split or its mark. */
  function Progress(s: Server, id: nat, n: nat): Server
    requires id in s.tasks
  {
    match s.tasks[id]
    case Writing(key, v, ttl, split, next, since) =>
      var t := s.tasks[id].(next := next + 1, since := if next == 0 then s.clock else since);
      s.(store := s.store[Spot(key, next) := Entry(v, Deadline(ttl, s.clock))],
         tasks := if split && next < n then s.tasks[id := t] else s.tasks - {id})
    case Splitting(key, v, next) =>
      if v.Some? && next < n then
        s.(store := s.store[ShardKeyName(key, next) := Entry(v.value, None)],
           tasks := s.tasks[id := s.tasks[id].(next := next + 1)])
      else s.(mitigated := s.mitigated + {key}, tasks := s.tasks - {id})
  }

  function Next(s: Server, m: Move, n: nat): Server
    requires m.Advance? ==> m.id in s.tasks
  {
    match m
    case Tick(to) => s.(clock := to)
    case BeginSet(id, key, v, ttl) =>
      s.(tasks := s.tasks[id := Writing(key, v, ttl, key in s.mitigated, 0, s.clock)])
    case BeginSplit(id, key) => s.(tasks := s.tasks[id := Splitting(key, FlatGet(s.store, key, s.clock), 0)])
    case Advance(id) => Progress(s, id, n)
    case Remove(key) => s.(store := s.store - {key})
  }

  /** A split holds the lock that other splits, and the test of a Set, wait for. */
  ghost predicate Locked(s: Server) { exists id :: id in s.tasks && s.tasks[id].Splitting? }

  ghost predicate Enabled(s: Server, m: Move) {
    match m
    case Tick(to) => s.clock <= to
    case BeginSet(id, _, _, _) => id !in s.tasks && !Locked(s)
    case BeginSplit(id, key) => id !in s.tasks && !Locked(s) && key !in s.mitigated
    case Advance(id) => id in s.tasks
    case Remove(_) => true
  }

  const IDLE := Server(map[], {}, 0, map[])

  ghost predicate IsRun(moves: seq<Move>, states: seq<Server>, n: nat) {
    && |states| == |moves| + 1 && states[0] == IDLE
    && forall i :: 0 <= i < |moves| ==> Enabled(states[i], moves[i]) && states[i + 1] == Next(states[i], moves[i], n)
  }

  /** The move's key, if it names one, is not a shard name. */
  ghost predicate Plain(m: Move) {
    (m.BeginSet? || m.BeginSplit? || m.Remove?) ==> !IsShardName(m.key)
  }

  // ---------------------------------------------------------------- one key

  ghost predicate About(s: Server, k: Key, id: nat) { id in s.tasks && s.tasks[id].key == k }

  /** No handler of `k` is on its way. */
  ghost predicate Idle(s: Server, k: Key) { forall id :: id in s.tasks ==> s.tasks[id].key != k }

  /** At most one Set or split of `k` is on its way. */
  ghost predicate Alone(s: Server, k: Key) { forall a, b :: About(s, k, a) && About(s, k, b) ==> a == b }

  function View(s: Server): State { State(s.store, s.mitigated, s.clock) }

  /** What holds while a Set of its key is half done. */
  ghost predicate WritingOk(s: Server, t: Task, n: nat)
    requires t.Writing?
  {
    && (t.split <==> t.key in s.mitigated) && (t.next > 0 ==> t.split) && t.next <= n
    && if t.next == 0 then t.split ==> CopiesAgree(View(s), t.key, n)
       else
         var e := Entry(t.value, Deadline(t.ttl, t.since));
         && t.since <= s.clock && (t.key in s.store ==> s.store[t.key] == e)
         && CopiesCover(s.store, t.key, e, t.next - 1)
  }

  /** And while a split is: what it copied is still the key's value, or the key still cannot be read. */
  ghost predicate SplittingOk(s: Server, t: Task, n: nat)
    requires t.Splitting?
  {
    && t.key !in s.mitigated && t.next <= n
    && match t.read
       case None => !Live(s.store, t.key, s.clock)
       case Some(v) =>
         && (t.key in s.store ==> s.store[t.key].value == v)
         && CopiesCover(s.store, t.key, Entry(v, None), t.next)
  }

  ghost predicate TaskOk(s: Server, t: Task, n: nat) {
    if t.Writing? then WritingOk(s, t, n) else SplittingOk(s, t, n)
  }

  ghost predicate KeyOk(s: Server, k: Key, n: nat) {
    && (forall id :: About(s, k, id) ==> TaskOk(s, s.tasks[id], n))
    && (Idle(s, k) && k in s.mitigated ==> CopiesAgree(View(s), k, n))
  }

  ghost predicate PlainTasks(s: Server) { forall id :: id in s.tasks ==> !IsShardName(s.tasks[id].key) }

  // ---------------------------------------------------------------- moves about other keys

  /** Nothing that matters to `k` has changed, except that time may have passed. */
  ghost predicate SameFor(s: Server, t: Server, k: Key) {
    && s.clock <= t.clock && (k in s.mitigated <==> k in t.mitigated)
    && SameAt(s.store, t.store, k) && forall i: nat :: SameAt(s.store, t.store, ShardKeyName(k, i))
  }

  ghost predicate SameAt(a: Items, b: Items, k: Key) { (k in a <==> k in b) && (k in a ==> a[k] == b[k]) }

  lemma SameCopies(s: Server, t: Server, k: Key, e: Entry, n: nat)
    requires SameFor(s, t, k) && CopiesCover(s.store, k, e, n)
    ensures CopiesCover(t.store, k, e, n)
  {
    forall i: nat | i < n ensures ShardKeyName(k, i) in t.store && Covers(t.store[ShardKeyName(k, i)], e) {
      assert SameAt(s.store, t.store, ShardKeyName(k, i));
    }
  }

  lemma SameAgree(s: Server, t: Server, k: Key, n: nat)
    requires SameFor(s, t, k) && CopiesAgree(View(s), k, n)
    ensures CopiesAgree(View(t), k, n)
  {
    if Live(t.store, k, t.clock) { SameCopies(s, t, k, s.store[k], n); }
  }

  lemma SameTask(s: Server, t: Server, task: Task, n: nat)
    requires SameFor(s, t, task.key) && TaskOk(s, task, n)
    ensures TaskOk(t, task, n)
  {
    var k := task.key;
    if task.Writing? {
      if task.next > 0 {
        SameCopies(s, t, k, Entry(task.value, Deadline(task.ttl, task.since)), task.next - 1);
      } else if task.split {
        SameAgree(s, t, k, n);
      }
    } else if task.read.Some? {
      SameCopies(s, t, k, Entry(task.read.value, None), task.next);
    }
  }

  /** The tasks about `k` are the same. */
  ghost predicate SameTasks(s: Server, t: Server, k: Key) {
    forall id :: (About(s, k, id) <==> About(t, k, id)) && (About(s, k, id) ==> s.tasks[id] == t.tasks[id])
  }

  lemma SameKeyOk(s: Server, t: Server, k: Key, n: nat)
    requires KeyOk(s, k, n) && SameFor(s, t, k) && SameTasks(s, t, k)
    ensures KeyOk(t, k, n)
  {
    forall id | About(t, k, id) ensures TaskOk(t, t.tasks[id], n) {
      assert About(s, k, id);
      SameTask(s, t, s.tasks[id], n);
    }
    if Idle(t, k) && k in t.mitigated {
      forall id | id in s.tasks ensures s.tasks[id].key != k {
        assert !About(t, k, id) && !About(s, k, id);
      }
      SameAgree(s, t, k, n);
    }
  }

  /** No write for a plain key reaches another plain key or its copies. */
  lemma SpotsApart(k: Key, key: Key, i: nat)
    requires k != key && !IsShardName(k) && !IsShardName(key)
    ensures Spot(key, i) != k && forall j: nat :: Spot(key, i) != ShardKeyName(k, j)
  {
    if i > 0 {
      assert IsShardName(ShardKeyName(key, i - 1));
      forall j: nat ensures Spot(key, i) != ShardKeyName(k, j) {
        if ShardKeyName(key, i - 1) == ShardKeyName(k, j) { ShardKeyNameInjective(key, i - 1, k, j); }
      }
    } else {
      forall j: nat ensures key != ShardKeyName(k, j) {
        if key == ShardKeyName(k, j) { assert IsShardName(key); }
      }
    }
  }

  lemma OtherProgress(s: Server, id: nat, k: Key, n: nat)
    requires id in s.tasks && s.tasks[id].key != k && !IsShardName(k) && !IsShardName(s.tasks[id].key)
    ensures SameFor(s, Progress(s, id, n), k) && SameTasks(s, Progress(s, id, n), k)
  {
    var t := s.tasks[id];
    SpotsApart(k, t.key, if t.Writing? then t.next else t.next + 1);
  }

  // ---------------------------------------------------------------- moves about the key itself

  lemma OwnSpots(k: Key)
    ensures forall i: nat :: ShardKeyName(k, i) != k
    ensures forall i: nat, j: nat :: i != j ==> ShardKeyName(k, i) != ShardKeyName(k, j)
  {
    forall i: nat ensures ShardKeyName(k, i) != k { CopiesAreLonger(k, i); }
    forall i: nat, j: nat | i != j ensures ShardKeyName(k, i) != ShardKeyName(k, j) {
      if ShardKeyName(k, i) == ShardKeyName(k, j) { ShardKeyNameInjective(k, i, k, j); }
    }
  }

  /** With one more copy written, one more is covered. */
  lemma OneMoreCopy(store: Items, k: Key, e: Entry, c: Entry, i: nat)
    requires CopiesCover(store, k, e, i) && Covers(c, e)
    ensures CopiesCover(store[ShardKeyName(k, i) := c], k, e, i + 1)
  {
    OwnSpots(k);
  }

  /** A Set's write keeps its half-done state; the last one leaves the copies in agreement. */
  lemma WriteProgress(s: Server, id: nat, n: nat)
    requires id in s.tasks && s.tasks[id].Writing? && WritingOk(s, s.tasks[id], n)
    ensures var t, task := Progress(s, id, n), s.tasks[id];
            && (id in t.tasks ==> t.tasks[id].Writing? && WritingOk(t, t.tasks[id], n))
            && (id !in t.tasks && task.key in t.mitigated ==> CopiesAgree(View(t), task.key, n))
  {
    var t, task := Progress(s, id, n), s.tasks[id];
    var k := task.key;
    OwnSpots(k);
    if task.next > 0 {
      var e := Entry(task.value, Deadline(task.ttl, task.since));
      OneMoreCopy(s.store, k, e, Entry(task.value, Deadline(task.ttl, s.clock)), task.next - 1);
    }
  }

  lemma SplitProgress(s: Server, id: nat, n: nat)
    requires id in s.tasks && s.tasks[id].Splitting? && SplittingOk(s, s.tasks[id], n)
    ensures var t, task := Progress(s, id, n), s.tasks[id];
            && (id in t.tasks ==> t.tasks[id].Splitting? && SplittingOk(t, t.tasks[id], n))
            && (id !in t.tasks && task.key in t.mitigated ==> CopiesAgree(View(t), task.key, n))
  {
    var t, task := Progress(s, id, n), s.tasks[id];
    OwnSpots(task.key);
    if task.read.Some? && task.next < n {
      OneMoreCopy(s.store, task.key, Entry(task.read.value, None), Entry(task.read.value, None), task.next);
    } else if task.read.Some? && Live(t.store, task.key, t.clock) {
      LongerCover(t.store, task.key, Entry(task.read.value, None), t.store[task.key], n);
    }
  }

  /** What covers an entry without a deadline covers every entry with that value. */
  lemma LongerCover(store: Items, k: Key, e: Entry, f: Entry, n: nat)
    requires CopiesCover(store, k, e, n) && e.expiresAt.None? && e.value == f.value
    ensures CopiesCover(store, k, f, n)
  {
  }

  /** The only task about `k` makes progress. */
  lemma OwnProgress(s: Server, id: nat, k: Key, n: nat)
    requires KeyOk(s, k, n) && About(s, k, id) && Alone(s, k)
    ensures KeyOk(Progress(s, id, n), k, n)
  {
    var t := Progress(s, id, n);
    assert TaskOk(s, s.tasks[id], n);
    if s.tasks[id].Writing? { WriteProgress(s, id, n); } else { SplitProgress(s, id, n); }
    forall a | About(t, k, a) ensures a == id && id in t.tasks {
      if a != id { assert About(s, k, a); }
    }
    assert id in t.tasks ==> About(t, k, id);
  }

  /** A Set or split of `k` begins, and it is the only one. */
  lemma OwnBegin(s: Server, m: Move, k: Key, n: nat)
    requires KeyOk(s, k, n) && Enabled(s, m) && (m.BeginSet? || m.BeginSplit?) && m.key == k
    requires Alone(Next(s, m, n), k)
    ensures KeyOk(Next(s, m, n), k, n)
  {
    var t := Next(s, m, n);
    assert About(t, k, m.id);
    forall a | a in s.tasks ensures s.tasks[a].key != k { assert !About(t, k, a); }
    assert Idle(s, k);
    forall a | About(t, k, a) ensures a == m.id { assert About(t, k, m.id); }
  }

  lemma OwnRemove(s: Server, k: Key, n: nat)
    requires KeyOk(s, k, n)
    ensures KeyOk(s.(store := s.store - {k}), k, n)
  {
    var t := s.(store := s.store - {k});
    OwnSpots(k);
    forall id | About(t, k, id) ensures TaskOk(t, t.tasks[id], n) { assert About(s, k, id); }
  }

  // ---------------------------------------------------------------- runs

  lemma MoveKeepsKey(s: Server, m: Move, k: Key, n: nat)
    requires KeyOk(s, k, n) && PlainTasks(s) && Enabled(s, m) && Plain(m) && !IsShardName(k)
    requires Alone(s, k) && Alone(Next(s, m, n), k)
    ensures KeyOk(Next(s, m, n), k, n)
  {
    var t := Next(s, m, n);
    if m.Advance? {
      if s.tasks[m.id].key == k {
        OwnProgress(s, m.id, k, n);
      } else {
        OtherProgress(s, m.id, k, n);
        SameKeyOk(s, t, k, n);
      }
    } else if m.Tick? {
      SameKeyOk(s, t, k, n);
    } else if m.key != k {
      if m.Remove? { SpotsApart(k, m.key, 0); }
      SameKeyOk(s, t, k, n);
    } else if m.Remove? {
      OwnRemove(s, k, n);
    } else {
      OwnBegin(s, m, k, n);
    }
  }

  lemma MoveKeepsPlain(s: Server, m: Move, n: nat)
    requires PlainTasks(s) && Enabled(s, m) && Plain(m)
    ensures PlainTasks(Next(s, m, n))
  {
  }

  lemma {:induction false} RunKeepsKey(moves: seq<Move>, states: seq<Server>, k: Key, n: nat)
    requires IsRun(moves, states, n) && !IsShardName(k) && forall m :: m in moves ==> Plain(m)
    requires forall s :: s in states ==> Alone(s, k)
    ensures KeyOk(states[|moves|], k, n) && PlainTasks(states[|moves|])
  {
    if moves != [] {
      var i := |moves| - 1;
      RunKeepsKey(moves[..i], states[..i + 1], k, n);
      assert states[i] in states && states[i + 1] in states && moves[i] in moves;
      MoveKeepsKey(states[i], moves[i], k, n);
      MoveKeepsPlain(states[i], moves[i], n);
    }
  }

  /**
   * Overlapping handlers. If no Set or split of a plain key ever overlaps another Set or split of that key, then
   * whenever none is on its way and the key is split, each of its copies is read as the key's own value for as long as
   * the key can be read. Deletes, and whatever happens to other plain keys, may overlap at will.
   */
  lemma ApartHandlersAgree(moves: seq<Move>, states: seq<Server>, k: Key, n: nat)
    requires IsRun(moves, states, n) && !IsShardName(k) && forall m :: m in moves ==> Plain(m)
    requires forall s :: s in states ==> Alone(s, k)
    ensures var s := states[|moves|];
            Idle(s, k) && k in s.mitigated ==> ReadsAgree(View(s), k, n)
  {
    RunKeepsKey(moves, states, k, n);
    CopiesAgreeIffReadsAgree(View(states[|moves|]), k, n);
  }

  // ---------------------------------------------------------------- what overlapping does

  ghost predicate Reachable(s: Server, n: nat) {
    exists moves, states :: IsRun(moves, states, n) && states[|moves|] == s && forall m :: m in moves ==> Plain(m)
  }

  lemma Start(n: nat)
    ensures Reachable(IDLE, n)
  {
    assert IsRun([], [IDLE], n);
  }

  lemma Reach(s: Server, m: Move, n: nat, t: Server)
    requires Reachable(s, n) && Enabled(s, m) && Plain(m) && t == Next(s, m, n)
    ensures Reachable(t, n)
  {
    var moves, states :|
      IsRun(moves, states, n) && states[|moves|] == s && forall m :: m in moves ==> Plain(m);
    var more, after := moves + [m], states + [t];
    assert IsRun(more, after, n) && after[|more|] == t;
  }

  /** `key` holds `v`, its two copies hold `c`, and there are no deadlines. */
  ghost predicate Holding(s: Server, k: Key, v: Value, c: Value) {
    && k in s.store && s.store[k] == Entry(v, None)
    && ShardKeyName(k, 0) in s.store && s.store[ShardKeyName(k, 0)] == Entry(c, None)
    && ShardKeyName(k, 1) in s.store && s.store[ShardKeyName(k, 1)] == Entry(c, None)
  }

  lemma HoldingDiffers(s: Server, k: Key, v: Value, c: Value)
    requires Holding(s, k, v, c) && v != c
    ensures !ReadsAgree(View(s), k, 2)
  {
    assert FlatGet(s.store, ShardKeyName(k, 0), s.clock) != FlatGet(s.store, k, s.clock);
  }

  /** A Set found the key not split, and stores only after it was: the copies keep the old value. */
  lemma LateSetMissesCopies(k: Key, v: Value, w: Value) returns (s: Server)
    requires !IsShardName(k) && v != w
    ensures Reachable(s, 2) && Idle(s, k) && k in s.mitigated && !ReadsAgree(View(s), k, 2)
  {
    s := SplitDuringSet(k, v, w);
    var t := Next(s, Advance(1), 2);
    Reach(s, Advance(1), 2, t);
    OwnSpots(k);
    s := t;
    HoldingDiffers(s, k, w, v);
  }

  /** `k` was written; then a Set of it began, and the key was split before that Set stored. */
  lemma SplitDuringSet(k: Key, v: Value, w: Value) returns (s: Server)
    requires !IsShardName(k)
    ensures Reachable(s, 2) && Holding(s, k, v, v) && k in s.mitigated
    ensures s.tasks == map[1 := Writing(k, w, 0, false, 0, 0)]
  {
    s := Written(k, v);
    var a := Next(s, BeginSet(1, k, w, 0), 2);
    Reach(s, BeginSet(1, k, w, 0), 2, a);
    s := Split(a, k, v);
  }

  lemma Written(k: Key, v: Value) returns (s: Server)
    requires !IsShardName(k)
    ensures Reachable(s, 2) && s == Server(map[k := Entry(v, None)], {}, 0, map[])
  {
    Start(2);
    var a := Next(IDLE, BeginSet(0, k, v, 0), 2);
    Reach(IDLE, BeginSet(0, k, v, 0), 2, a);
    s := Next(a, Advance(0), 2);
    Reach(a, Advance(0), 2, s);
  }

  /** Whatever else is on its way, a split of `k` runs from beginning to end. */
  lemma Split(s: Server, k: Key, v: Value) returns (t: Server)
    requires Reachable(s, 2) && !IsShardName(k) && k !in s.mitigated && 2 !in s.tasks && !Locked(s)
    requires k in s.store && s.store[k] == Entry(v, None)
    ensures Reachable(t, 2) && Holding(t, k, v, v) && t.mitigated == s.mitigated + {k} && t.tasks == s.tasks
    ensures t.clock == s.clock
  {
    OwnSpots(k);
    var a := Next(s, BeginSplit(2, k), 2);
    Reach(s, BeginSplit(2, k), 2, a);
    var b := Next(a, Advance(2), 2);
    Reach(a, Advance(2), 2, b);
    var c := Next(b, Advance(2), 2);
    Reach(b, Advance(2), 2, c);
    t := Next(c, Advance(2), 2);
    Reach(c, Advance(2), 2, t);
    assert t.tasks == s.tasks;
  }

  /** Two Sets of a split key overlap: the key keeps the value of one and the copies that of the other. */
  lemma OverlappingSetsDiverge(k: Key, v: Value, w: Value) returns (s: Server)
    requires !IsShardName(k) && v != w
    ensures Reachable(s, 2) && Idle(s, k) && k in s.mitigated && !ReadsAgree(View(s), k, 2)
  {
    s := TwoSets(k, v, w);
    s := CopyBoth(s, k, w, 1);
    s := CopyBoth(s, k, v, 0);
    HoldingDiffers(s, k, w, v);
  }

  /** `k` is split; a Set of `v` and then one of `w` have written the key, and no copy yet. */
  lemma TwoSets(k: Key, v: Value, w: Value) returns (s: Server)
    requires !IsShardName(k)
    ensures Reachable(s, 2) && k in s.store && s.store[k] == Entry(w, None) && k in s.mitigated
    ensures s.tasks == map[0 := Writing(k, v, 0, true, 1, 0), 1 := Writing(k, w, 0, true, 1, 0)]
  {
    s := Written(k, v);
    s := Split(s, k, v);
    var a := Next(s, BeginSet(0, k, v, 0), 2);
    Reach(s, BeginSet(0, k, v, 0), 2, a);
    var b := Next(a, BeginSet(1, k, w, 0), 2);
    Reach(a, BeginSet(1, k, w, 0), 2, b);
    var c := Next(b, Advance(0), 2);
    Reach(b, Advance(0), 2, c);
    s := Next(c, Advance(1), 2);
    Reach(c, Advance(1), 2, s);
  }

  /** The Set `id` of `k` writes its two copies. */
  lemma CopyBoth(s: Server, k: Key, v: Value, id: nat) returns (t: Server)
    requires Reachable(s, 2) && id in s.tasks && s.tasks[id] == Writing(k, v, 0, true, 1, 0) && k in s.store
    ensures Reachable(t, 2) && t.tasks == s.tasks - {id} && t.mitigated == s.mitigated
    ensures k in t.store && t.store[k] == s.store[k]
    ensures s.store[k].expiresAt.None? ==> Holding(t, k, s.store[k].value, v)
  {
    OwnSpots(k);
    var a := Next(s, Advance(id), 2);
    Reach(s, Advance(id), 2, a);
    t := Next(a, Advance(id), 2);
    Reach(a, Advance(id), 2, t);
    assert t.tasks == s.tasks - {id};
  }
}
