/** The Count-Min Sketch with decay behind hot-key detection. */
module Sketch {
  import opened Common

  const MAX_UINT64: nat := 0xFFFF_FFFF_FFFF_FFFF

  /** One more, in 64 bits. */
  function Succ64(n: nat): nat { (n + 1) % (MAX_UINT64 + 1) }

  /** `hash(k, i)` is the i-th row's hash of key `k`. */
  datatype Params = Params(width: nat, depth: nat, hash: (Key, nat) -> nat)

  ghost predicate ValidParams(p: Params) { p.width > 0 && p.depth > 0 }

  function Col(p: Params, k: Key, i: nat): (j: nat)
    requires p.width > 0
    ensures j < p.width
  {
    p.hash(k, i) % p.width
  }

  type Row = seq<nat>

  datatype State = State(table: seq<Row>, total: nat)

  ghost predicate Shaped(p: Params, s: State) {
    ValidParams(p) && |s.table| == p.depth && forall i :: 0 <= i < p.depth ==> |s.table[i]| == p.width
  }

  function Zero(p: Params): State {
    State(seq(p.depth, _ => seq(p.width, _ => 0)), 0)
  }

  function DecayRow(r: Row): Row {
    seq(|r|, j requires 0 <= j < |r| => r[j] / 2)
  }

  datatype Op = Inc(k: Key) | Decay | Reset

  function Step(p: Params, s: State, op: Op): (t: State)
    requires ValidParams(p) && |s.table| == p.depth && forall i :: 0 <= i < p.depth ==> |s.table[i]| == p.width
    ensures |t.table| == p.depth && forall i :: 0 <= i < p.depth ==> |t.table[i]| == p.width
  {
    match op
    case Inc(k) =>
      State(seq(p.depth, i requires 0 <= i < p.depth =>
              var j := Col(p, k, i);
              s.table[i][j := s.table[i][j] + 1]),
            s.total + 1)
    case Decay => State(seq(p.depth, i requires 0 <= i < p.depth => DecayRow(s.table[i])), s.total / 2)
    case Reset => Zero(p)
  }

  function Run(p: Params, ops: seq<Op>): (s: State)
    requires ValidParams(p)
    ensures |s.table| == p.depth && forall i :: 0 <= i < p.depth ==> |s.table[i]| == p.width
  {
    if ops == [] then Zero(p) else Step(p, Run(p, ops[..|ops| - 1]), ops[|ops| - 1])
  }

  /** The same step on 64-bit counters, which wrap around. */
  function MachineStep(p: Params, s: State, op: Op): (t: State)
    requires ValidParams(p) && |s.table| == p.depth && forall i :: 0 <= i < p.depth ==> |s.table[i]| == p.width
    ensures |t.table| == p.depth && forall i :: 0 <= i < p.depth ==> |t.table[i]| == p.width
  {
    match op
    case Inc(k) =>
      State(seq(p.depth, i requires 0 <= i < p.depth =>
              var j := Col(p, k, i);
              s.table[i][j := Succ64(s.table[i][j])]),
            Succ64(s.total))
    case _ => Step(p, s, op)
  }

  /** The counters of the program after `ops`. */
  function MachineRun(p: Params, ops: seq<Op>): (s: State)
    requires ValidParams(p)
    ensures |s.table| == p.depth && forall i :: 0 <= i < p.depth ==> |s.table[i]| == p.width
  {
    if ops == [] then Zero(p) else MachineStep(p, MachineRun(p, ops[..|ops| - 1]), ops[|ops| - 1])
  }

  /** The smallest of the first `n` rows' cells for `k`, starting from the largest machine value. */
  function MinCell(p: Params, s: State, k: Key, n: nat): nat
    requires ValidParams(p) && |s.table| == p.depth && forall i :: 0 <= i < p.depth ==> |s.table[i]| == p.width
    requires n <= p.depth
  {
    if n == 0 then MAX_UINT64 else Min(MinCell(p, s, k, n - 1), s.table[n - 1][Col(p, k, n - 1)])
  }

  function Estimate(p: Params, s: State, k: Key): nat
    requires ValidParams(p) && |s.table| == p.depth && forall i :: 0 <= i < p.depth ==> |s.table[i]| == p.width
  {
    var m := MinCell(p, s, k, p.depth);
    if m == MAX_UINT64 then 0 else m
  }

  // ---------------------------------------------------------------- never under-counting

  /** The exact number of accesses, halved (rounding down) at every decay and cleared by a reset. */
  function Count(ops: seq<Op>, k: Key): nat {
    if ops == [] then 0
    else
      var n := Count(ops[..|ops| - 1], k);
      match ops[|ops| - 1]
      case Inc(j) => if j == k then n + 1 else n
      case Decay => n / 2
      case Reset => 0
  }

  function SumCounts(ops: seq<Op>, ks: seq<Key>): nat {
    if ks == [] then 0 else SumCounts(ops, ks[..|ks| - 1]) + Count(ops, ks[|ks| - 1])
  }

  lemma {:induction false} SumAfterInc(ops: seq<Op>, k: Key, ks: seq<Key>)
    requires Distinct(ks)
    ensures SumCounts(ops + [Inc(k)], ks) == SumCounts(ops, ks) + if k in ks then 1 else 0
  {
    assert (ops + [Inc(k)])[..|ops|] == ops;
    if ks != [] {
      var t := ks[..|ks| - 1];
      SumAfterInc(ops, k, t);
      assert ks == t + [ks[|ks| - 1]];
      assert ks[|ks| - 1] !in t;
    }
  }

  lemma {:induction false} SumAfterDecay(ops: seq<Op>, ks: seq<Key>)
    ensures SumCounts(ops + [Decay], ks) <= SumCounts(ops, ks) / 2
  {
    assert (ops + [Decay])[..|ops|] == ops;
    if ks != [] { SumAfterDecay(ops, ks[..|ks| - 1]); }
  }

  lemma {:induction false} SumAfterReset(ops: seq<Op>, ks: seq<Key>)
    ensures SumCounts(ops + [Reset], ks) == 0
  {
    if ks != [] { SumAfterReset(ops, ks[..|ks| - 1]); }
  }

  /** Each cell is at least the total decayed count of all keys that share it. */
  lemma {:induction false} CellsDominateTheirKeys(p: Params, ops: seq<Op>, i: nat, j: nat, ks: seq<Key>)
    requires ValidParams(p) && i < p.depth && j < p.width
    requires Distinct(ks) && forall k :: k in ks ==> Col(p, k, i) == j
    ensures Run(p, ops).table[i][j] >= SumCounts(ops, ks)
  {
    if ops == [] {
      NoOpsNoCounts(ks);
    } else {
      var front, op := ops[..|ops| - 1], ops[|ops| - 1];
      assert ops == front + [op];
      CellsDominateTheirKeys(p, front, i, j, ks);
      match op
      case Inc(k) => SumAfterInc(front, k, ks);
      case Decay => SumAfterDecay(front, ks);
      case Reset => SumAfterReset(front, ks);
    }
  }

  lemma {:induction false} NoOpsNoCounts(ks: seq<Key>)
    ensures SumCounts([], ks) == 0
  {
    if ks != [] { NoOpsNoCounts(ks[..|ks| - 1]); }
  }

  lemma {:induction false} MinCellBounds(p: Params, s: State, k: Key, n: nat, low: nat)
    requires Shaped(p, s) && n <= p.depth
    requires forall i :: 0 <= i < n ==> s.table[i][Col(p, k, i)] >= low
    ensures MinCell(p, s, k, n) >= Min(low, MAX_UINT64)
    ensures MinCell(p, s, k, n) <= MAX_UINT64
    ensures forall i :: 0 <= i < n ==> MinCell(p, s, k, n) <= s.table[i][Col(p, k, i)]
  {
    if n > 0 { MinCellBounds(p, s, k, n - 1, low); }
  }

  // ---------------------------------------------------------------- mass

  function RowSum(r: Row): nat {
    if r == [] then 0 else RowSum(r[..|r| - 1]) + r[|r| - 1]
  }

  lemma {:induction false} RowSumAt(r: Row, j: nat, x: nat)
    requires j < |r|
    ensures RowSum(r[j := x]) == RowSum(r) - r[j] + x
    ensures r[j] <= RowSum(r)
  {
    var t := r[..|r| - 1];
    if j < |t| {
      RowSumAt(t, j, x);
      assert r[j := x][..|r| - 1] == t[j := x];
    } else {
      assert r[j := x][..|r| - 1] == t;
    }
  }

  lemma {:induction false} RowSumDecay(r: Row)
    ensures RowSum(DecayRow(r)) <= RowSum(r) / 2
  {
    if r != [] {
      RowSumDecay(r[..|r| - 1]);
      assert DecayRow(r)[..|r| - 1] == DecayRow(r[..|r| - 1]);
    }
  }

  lemma {:induction false} RowSumZero(n: nat)
    ensures RowSum(seq(n, _ => 0)) == 0
  {
    if n > 0 {
      RowSumZero(n - 1);
      assert seq(n, _ => 0)[..n - 1] == seq(n - 1, _ => 0);
    }
  }

  lemma ZeroHasNoMass(p: Params, i: nat)
    requires i < p.depth
    ensures RowSum(Zero(p).table[i]) == 0
  {
    RowSumZero(p.width);
    assert Zero(p).table[i] == seq(p.width, _ => 0);
  }

  /** Whether a decay happened since the start or the last reset. */
  predicate Decayed(ops: seq<Op>) {
    if ops == [] then false
    else match ops[|ops| - 1]
      case Inc(_) => Decayed(ops[..|ops| - 1])
      case Decay => true
      case Reset => false
  }

  /** No row ever holds more than `total`, and exactly that much while nothing has decayed. */
  lemma {:induction false} RowMassIsBounded(p: Params, ops: seq<Op>, i: nat)
    requires ValidParams(p) && i < p.depth
    ensures RowSum(Run(p, ops).table[i]) <= Run(p, ops).total <= |ops|
    ensures !Decayed(ops) ==> RowSum(Run(p, ops).table[i]) == Run(p, ops).total
  {
    if ops == [] {
      ZeroHasNoMass(p, i);
    } else {
      var front := ops[..|ops| - 1];
      RowMassIsBounded(p, front, i);
      var r := Run(p, front).table[i];
      match ops[|ops| - 1]
      case Inc(k) => RowSumAt(r, Col(p, k, i), r[Col(p, k, i)] + 1);
      case Decay => RowSumDecay(r);
      case Reset => ZeroHasNoMass(p, i);
    }
  }

  // ---------------------------------------------------------------- 64-bit counters

  /** The decayed number of all accesses never passed the largest 64-bit value. */
  ghost predicate Unwrapped(p: Params, ops: seq<Op>)
    requires ValidParams(p)
  {
    ops == [] || (Unwrapped(p, ops[..|ops| - 1]) && Run(p, ops).total <= MAX_UINT64)
  }

  lemma {:induction false} ShortRunsDoNotWrap(p: Params, ops: seq<Op>)
    requires ValidParams(p) && |ops| <= MAX_UINT64
    ensures Unwrapped(p, ops)
  {
    if ops != [] {
      ShortRunsDoNotWrap(p, ops[..|ops| - 1]);
      RowMassIsBounded(p, ops, 0);
    }
  }

  lemma CellAtMostTotal(p: Params, ops: seq<Op>, i: nat, j: nat)
    requires ValidParams(p) && i < p.depth && j < p.width
    ensures Run(p, ops).table[i][j] <= Run(p, ops).total
  {
    RowMassIsBounded(p, ops, i);
    RowSumAt(Run(p, ops).table[i], j, 0);
  }

  lemma Succ64IsExact(n: nat)
    requires n < MAX_UINT64
    ensures Succ64(n) == n + 1
  {
  }

  lemma MachineIncIsExact(p: Params, s: State, k: Key)
    requires Shaped(p, s) && s.total < MAX_UINT64
    requires forall i :: 0 <= i < p.depth ==> s.table[i][Col(p, k, i)] <= s.total
    ensures MachineStep(p, s, Inc(k)) == Step(p, s, Inc(k))
  {
    var t, u := Step(p, s, Inc(k)), MachineStep(p, s, Inc(k));
    Succ64IsExact(s.total);
    forall i | 0 <= i < p.depth ensures u.table[i] == t.table[i] { Succ64IsExact(s.table[i][Col(p, k, i)]); }
    assert u.table == t.table;
  }

  /** Until then the program's counters are the exact ones. */
  lemma {:induction false} MachineRunIsExact(p: Params, ops: seq<Op>)
    requires ValidParams(p) && Unwrapped(p, ops)
    ensures MachineRun(p, ops) == Run(p, ops)
  {
    if ops != [] {
      var front, op := ops[..|ops| - 1], ops[|ops| - 1];
      MachineRunIsExact(p, front);
      if op.Inc? {
        forall i | 0 <= i < p.depth ensures Run(p, front).table[i][Col(p, op.k, i)] <= Run(p, front).total {
          CellAtMostTotal(p, front, i, Col(p, op.k, i));
        }
        MachineIncIsExact(p, Run(p, front), op.k);
      }
    }
  }

  /**
   * An estimate of the program never falls below the decayed count unless every cell of the key holds the largest
   * 64-bit value, when the sentinel for "no minimum found" makes it 0.
   */
  lemma UndercountsOnlyWhenSaturated(p: Params, ops: seq<Op>, k: Key)
    requires ValidParams(p) && Unwrapped(p, ops)
    ensures Estimate(p, MachineRun(p, ops), k) >= Count(ops, k)
            <==> Count(ops, k) == 0
                 || exists i :: 0 <= i < p.depth && MachineRun(p, ops).table[i][Col(p, k, i)] < MAX_UINT64
  {
    MachineRunIsExact(p, ops);
    var s := Run(p, ops);
    forall i | 0 <= i < p.depth ensures s.table[i][Col(p, k, i)] >= Count(ops, k) {
      CellsDominateTheirKeys(p, ops, i, Col(p, k, i), [k]);
      assert [k][..0] == [];
      assert SumCounts(ops, [k]) == Count(ops, k);
    }
    MinCellBounds(p, s, k, p.depth, Count(ops, k));
    if forall i :: 0 <= i < p.depth ==> s.table[i][Col(p, k, i)] >= MAX_UINT64 {
      MinCellBounds(p, s, k, p.depth, MAX_UINT64);
    }
  }

  /** Hence never while the decayed number of all accesses stays below the largest 64-bit value. */
  lemma NeverUndercounts(p: Params, ops: seq<Op>, k: Key)
    requires ValidParams(p) && Unwrapped(p, ops) && Run(p, ops).total < MAX_UINT64
    ensures Estimate(p, MachineRun(p, ops), k) >= Count(ops, k)
  {
    MachineRunIsExact(p, ops);
    CellAtMostTotal(p, ops, 0, Col(p, k, 0));
    UndercountsOnlyWhenSaturated(p, ops, k);
  }

  /** `m` resets and then `j` accesses to one key. */
  function Flood(k: Key, m: nat, j: nat): seq<Op> { seq(m, _ => Reset) + seq(j, _ => Inc(k)) }

  lemma {:induction false} FloodRun(p: Params, k: Key, m: nat, j: nat)
    requires ValidParams(p) && j <= MAX_UINT64
    ensures Unwrapped(p, Flood(k, m, j)) && Count(Flood(k, m, j), k) == j && Run(p, Flood(k, m, j)).total == j
    ensures forall i :: 0 <= i < p.depth ==> Run(p, Flood(k, m, j)).table[i][Col(p, k, i)] == j
    decreases j, m
  {
    var ops := Flood(k, m, j);
    if j > 0 {
      assert ops[..|ops| - 1] == Flood(k, m, j - 1);
      FloodRun(p, k, m, j - 1);
    } else if m > 0 {
      assert ops[..|ops| - 1] == Flood(k, m - 1, 0);
      FloodRun(p, k, m - 1, 0);
      assert ops[|ops| - 1] == Reset;
    }
  }

  ghost predicate NoUndercountIn(p: Params, n: nat)
    requires ValidParams(p)
  {
    forall ops, k :: |ops| == n ==> Estimate(p, MachineRun(p, ops), k) >= Count(ops, k)
  }

  /** Over runs of `n` operations the promise holds exactly for `n` below 2^64 - 1. */
  lemma NeverUndercountsIff(p: Params, n: nat)
    requires ValidParams(p)
    ensures NoUndercountIn(p, n) <==> n < 18_446_744_073_709_551_615
  {
    if n < MAX_UINT64 {
      forall ops, k | |ops| == n ensures Estimate(p, MachineRun(p, ops), k) >= Count(ops, k) {
        ShortRunsDoNotWrap(p, ops);
        RowMassIsBounded(p, ops, 0);
        NeverUndercounts(p, ops, k);
      }
    } else {
      var k: Key := "";
      var ops := Flood(k, n - MAX_UINT64, MAX_UINT64);
      FloodRun(p, k, n - MAX_UINT64, MAX_UINT64);
      MachineRunIsExact(p, ops);
      UndercountsOnlyWhenSaturated(p, ops, k);
      assert |ops| == n;
    }
  }

  /** One access more than the counters can hold brings them back to zero. */
  lemma CountersWrapAround(p: Params, k: Key, i: nat)
    requires ValidParams(p) && i < p.depth
    ensures MachineRun(p, Flood(k, 0, 18_446_744_073_709_551_616)).total == 0
    ensures MachineRun(p, Flood(k, 0, 18_446_744_073_709_551_616)).table[i][p.hash(k, i) % p.width] == 0
  {
    var full := Flood(k, 0, MAX_UINT64);
    FloodRun(p, k, 0, MAX_UINT64);
    MachineRunIsExact(p, full);
    MachineSnoc(p, Flood(k, 0, MAX_UINT64 + 1), full, k);
  }

  lemma MachineSnoc(p: Params, ops: seq<Op>, front: seq<Op>, k: Key)
    requires ValidParams(p) && ops != [] && ops[..|ops| - 1] == front && ops[|ops| - 1] == Inc(k)
    ensures MachineRun(p, ops) == MachineStep(p, MachineRun(p, front), Inc(k))
  {
  }

  /** An estimate never exceeds the decayed number of all accesses. */
  lemma EstimateAtMostTotal(p: Params, ops: seq<Op>, k: Key)
    requires ValidParams(p) && Unwrapped(p, ops)
    ensures Estimate(p, MachineRun(p, ops), k) <= MachineRun(p, ops).total
  {
    MachineRunIsExact(p, ops);
    var s := Run(p, ops);
    CellAtMostTotal(p, ops, 0, Col(p, k, 0));
    MinCellBounds(p, s, k, p.depth, 0);
  }

  // ---------------------------------------------------------------- which cells an estimate comes from

  /** The cell that row `i` has for `k`. */
  ghost function Cell(p: Params, s: State, k: Key, i: nat): nat
    requires Shaped(p, s) && i < p.depth
  {
    s.table[i][p.hash(k, i) % p.width]
  }

  lemma {:induction false} MinCellIsACell(p: Params, s: State, k: Key, n: nat)
    requires Shaped(p, s) && n <= p.depth
    ensures MinCell(p, s, k, n) == MAX_UINT64 || exists i: nat :: i < n && MinCell(p, s, k, n) == Cell(p, s, k, i)
  {
    if n > 0 {
      MinCellIsACell(p, s, k, n - 1);
      if MinCell(p, s, k, n - 1) > Cell(p, s, k, n - 1) { assert MinCell(p, s, k, n) == Cell(p, s, k, n - 1); }
    }
  }

  /** An estimate is at most each of the key's cells, and is one of them unless they are all saturated. */
  lemma EstimateIsSmallestCell(p: Params, s: State, k: Key)
    requires Shaped(p, s)
    ensures forall i: nat :: i < p.depth ==> Estimate(p, s, k) <= Cell(p, s, k, i)
    ensures || (exists i: nat :: i < p.depth && Estimate(p, s, k) == Cell(p, s, k, i))
            || (Estimate(p, s, k) == 0 && forall i: nat :: i < p.depth ==> Cell(p, s, k, i) >= MAX_UINT64)
  {
    MinCellBounds(p, s, k, p.depth, 0);
    MinCellIsACell(p, s, k, p.depth);
  }

  /** No other key accessed in `ops` falls into the cell of `k` in row `i`. */
  ghost predicate Alone(p: Params, ops: seq<Op>, k: Key, i: nat)
    requires ValidParams(p)
  {
    forall j :: Inc(j) in ops && j != k ==> p.hash(j, i) % p.width != p.hash(k, i) % p.width
  }

  lemma {:induction false} LoneCellIsExact(p: Params, ops: seq<Op>, k: Key, i: nat)
    requires ValidParams(p) && i < p.depth && Alone(p, ops, k, i)
    ensures Cell(p, Run(p, ops), k, i) == Count(ops, k)
  {
    if ops != [] {
      var front := ops[..|ops| - 1];
      assert forall op :: op in front ==> op in ops;
      LoneCellIsExact(p, front, k, i);
      assert ops[|ops| - 1] in ops;
    }
  }

  /** A key that has a cell to itself in some row is estimated at exactly its decayed count. */
  lemma LoneKeysAreCountedExactly(p: Params, ops: seq<Op>, k: Key, i: nat)
    requires ValidParams(p) && Unwrapped(p, ops) && Run(p, ops).total < MAX_UINT64
    requires i < p.depth && Alone(p, ops, k, i)
    ensures Estimate(p, MachineRun(p, ops), k) == Count(ops, k)
  {
    MachineRunIsExact(p, ops);
    NeverUndercounts(p, ops, k);
    LoneCellIsExact(p, ops, k, i);
    EstimateIsSmallestCell(p, Run(p, ops), k);
  }

  /** The detector's verdict right after recording an access. */
  function RecordAccess(p: Params, ops: seq<Op>, threshold: nat, k: Key): bool
    requires ValidParams(p)
  {
    Estimate(p, MachineRun(p, ops + [Inc(k)]), k) >= threshold
  }

  /** After one more access the counters are still exact. */
  lemma AccessIsExact(p: Params, ops: seq<Op>, k: Key)
    requires ValidParams(p) && Unwrapped(p, ops) && Run(p, ops).total + 1 < MAX_UINT64
    ensures var now := ops + [Inc(k)];
            && Run(p, now).total == Run(p, ops).total + 1 && Count(now, k) == Count(ops, k) + 1
            && Unwrapped(p, now) && MachineRun(p, now) == Run(p, now)
  {
    var now := ops + [Inc(k)];
    assert now[..|ops|] == ops;
    MachineRunIsExact(p, now);
  }

  /** Every key whose decayed count reaches the threshold is reported; nothing is while the total is below it. */
  lemma HotKeysAreReported(p: Params, ops: seq<Op>, threshold: nat, k: Key)
    requires ValidParams(p) && Unwrapped(p, ops) && Run(p, ops).total + 1 < MAX_UINT64
    ensures Count(ops, k) + 1 >= threshold ==> RecordAccess(p, ops, threshold, k)
    ensures Run(p, ops).total + 1 < threshold ==> !RecordAccess(p, ops, threshold, k)
  {
    var now := ops + [Inc(k)];
    AccessIsExact(p, ops, k);
    NeverUndercounts(p, now, k);
    EstimateAtMostTotal(p, now, k);
  }

  /** So such a key is called hot exactly when its decayed count, this access included, reaches the threshold. */
  lemma LoneKeysAreHotIff(p: Params, ops: seq<Op>, threshold: nat, k: Key, i: nat)
    requires ValidParams(p) && Unwrapped(p, ops) && Run(p, ops).total + 1 < MAX_UINT64
    requires i < p.depth && Alone(p, ops, k, i)
    ensures RecordAccess(p, ops, threshold, k) <==> Count(ops, k) + 1 >= threshold
  {
    var now := ops + [Inc(k)];
    AccessIsExact(p, ops, k);
    LoneKeysAreCountedExactly(p, now, k, i);
  }

  function HotCells(r: Row, threshold: nat): nat {
    if r == [] then 0
    else HotCells(r[..|r| - 1], threshold) + if r[|r| - 1] >= threshold then 1 else 0
  }

  lemma {:induction false} HotCellsWeigh(r: Row, threshold: nat)
    ensures HotCells(r, threshold) * threshold <= RowSum(r)
  {
    if r != [] { HotCellsWeigh(r[..|r| - 1], threshold); }
  }

  /** At most `total / threshold` cells of a row can be hot at once. */
  lemma FewHotCells(p: Params, ops: seq<Op>, i: nat, threshold: nat)
    requires ValidParams(p) && i < p.depth
    ensures HotCells(Run(p, ops).table[i], threshold) * threshold <= Run(p, ops).total
  {
    HotCellsWeigh(Run(p, ops).table[i], threshold);
    RowMassIsBounded(p, ops, i);
  }
}
