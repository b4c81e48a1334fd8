/** The sketch and the hot-key detector as mutable objects over a two-dimensional counter table. */
module SketchObject {
  import opened Common
  import opened Sketch

  lemma RunSnoc(p: Params, ops: seq<Op>, op: Op)
    requires ValidParams(p)
    ensures MachineRun(p, ops + [op]) == MachineStep(p, MachineRun(p, ops), op)
  {
    assert (ops + [op])[..|ops|] == ops;
  }

  class CountMinSketch {
    const params: Params
    const table: array2<nat>
    var total: nat
    ghost var history: seq<Op>

    /** The counters are what the operations so far amount to. */
    ghost predicate Valid()
      reads this, table
    {
      && ValidParams(params)
      && table.Length0 == params.depth && table.Length1 == params.width
      && total == MachineRun(params, history).total
      && forall i, j :: 0 <= i < params.depth && 0 <= j < params.width ==>
           table[i, j] == MachineRun(params, history).table[i][j]
    }

    constructor (width: nat, depth: nat, hash: (Key, nat) -> nat)
      ensures Valid() && fresh(table) && history == []
      ensures params == Params(if width == 0 then 4096 else width, if depth == 0 then 4 else depth, hash)
    {
      params := Params(if width == 0 then 4096 else width, if depth == 0 then 4 else depth, hash);
      table := new nat[if depth == 0 then 4 else depth, if width == 0 then 4096 else width]((_, _) => 0);
      total, history := 0, [];
    }

    method Increment(key: Key)
      requires Valid()
      modifies this, table
      ensures Valid() && history == old(history) + [Inc(key)]
    {
      ghost var before := MachineRun(params, history);
      for i := 0 to params.depth
        modifies table
        invariant forall a, j :: 0 <= a < params.depth && 0 <= j < params.width ==>
          table[a, j] == if a < i && j == Col(params, key, a) then Succ64(before.table[a][j]) else before.table[a][j]
      {
        var idx := params.hash(key, i) % params.width;
        table[i, idx] := Succ64(table[i, idx]);
      }
      total := Succ64(total);
      RunSnoc(params, history, Inc(key));
      history := history + [Inc(key)];
    }

    method Estimate(key: Key) returns (min: nat)
      requires Valid()
      ensures min == Sketch.Estimate(params, MachineRun(params, history), key)
    {
      min := MAX_UINT64;
      for i := 0 to params.depth
        invariant min == MinCell(params, MachineRun(params, history), key, i)
      {
        var idx := params.hash(key, i) % params.width;
        if table[i, idx] < min { min := table[i, idx]; }
      }
      if min == MAX_UINT64 { min := 0; }
    }

    method Decay()
      requires Valid()
      modifies this, table
      ensures Valid() && history == old(history) + [Op.Decay]
    {
      ghost var before := MachineRun(params, history);
      for i := 0 to params.depth
        modifies table
        invariant forall a, j :: 0 <= a < params.depth && 0 <= j < params.width ==>
          table[a, j] == if a < i then before.table[a][j] / 2 else before.table[a][j]
      {
        for j := 0 to params.width
          modifies table
          invariant forall a, b :: 0 <= a < params.depth && 0 <= b < params.width ==>
            table[a, b] == if a < i || (a == i && b < j) then before.table[a][b] / 2 else before.table[a][b]
        {
          table[i, j] := table[i, j] / 2;
        }
      }
      total := total / 2;
      RunSnoc(params, history, Op.Decay);
      history := history + [Op.Decay];
    }

    method Reset()
      requires Valid()
      modifies this, table
      ensures Valid() && history == old(history) + [Op.Reset]
    {
      for i := 0 to params.depth
        modifies table
        invariant forall a, j :: 0 <= a < i && 0 <= j < params.width ==> table[a, j] == 0
      {
        for j := 0 to params.width
          modifies table
          invariant forall a, b :: 0 <= a < i && 0 <= b < params.width ==> table[a, b] == 0
          invariant forall b :: 0 <= b < j ==> table[i, b] == 0
        {
          table[i, j] := 0;
        }
      }
      total := 0;
      RunSnoc(params, history, Op.Reset);
      history := history + [Op.Reset];
    }
  }

  class Detector {
    const sketch: CountMinSketch
    const hotThreshold: nat

    constructor (sketch: CountMinSketch, hotThreshold: nat)
      ensures this.sketch == sketch && this.hotThreshold == hotThreshold
    {
      this.sketch, this.hotThreshold := sketch, hotThreshold;
    }

    method RecordAccess(key: Key) returns (hot: bool)
      requires sketch.Valid()
      modifies sketch, sketch.table
      ensures sketch.Valid() && sketch.history == old(sketch.history) + [Inc(key)]
      ensures hot == Sketch.RecordAccess(sketch.params, old(sketch.history), hotThreshold, key)
    {
      sketch.Increment(key);
      var estimate := sketch.Estimate(key);
      hot := estimate >= hotThreshold;
    }
  }
}
