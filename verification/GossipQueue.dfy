/** How long gossip lives: the dissemination queue under enqueues and drains. */
module GossipQueue {
  import opened Common
  import opened Gossip

  ghost predicate OnePerNode(q: seq<Queued>) {
    forall i, j :: 0 <= i < j < |q| ==> q[i].update.node != q[j].update.node
  }

  /** At most one queued update per node, none of them used up. */
  ghost predicate QueueOk(q: seq<Queued>) {
    && OnePerNode(q)
    && forall i :: 0 <= i < |q| ==> q[i].sent < MAX_SENDS
  }

  ghost predicate Holds(q: seq<Queued>, x: NodeId) {
    exists e :: e in q && e.update.node == x
  }

  lemma {:induction false} EnqueueContents(q: seq<Queued>, u: Update)
    ensures forall e :: e in Enqueue(q, u) ==> e in q || e == Queued(u, 0)
    ensures forall e :: e in q && e.update.node != u.node ==> e in Enqueue(q, u)
    ensures Holds(Enqueue(q, u), u.node)
    ensures |Enqueue(q, u)| <= |q| + 1
  {
    if q == [] || q[0].update.node == u.node {
      var e := Enqueue(q, u)[0];
      assert e in Enqueue(q, u) && e.update.node == u.node;
      if q != [] { assert q == [q[0]] + q[1..]; }
    } else {
      EnqueueContents(q[1..], u);
      assert q == [q[0]] + q[1..];
      var e :| e in Enqueue(q[1..], u) && e.update.node == u.node;
      assert e in Enqueue(q, u);
    }
  }

  lemma {:induction false} EnqueueKeepsOk(q: seq<Queued>, u: Update)
    requires QueueOk(q)
    ensures QueueOk(Enqueue(q, u))
  {
    if q != [] && q[0].update.node != u.node {
      EnqueueKeepsOk(q[1..], u);
      EnqueueContents(q[1..], u);
      var r := Enqueue(q[1..], u);
      forall i | 0 <= i < |r| ensures r[i].update.node != q[0].update.node {
        assert r[i] in r;
        if r[i] in q[1..] { var j :| 0 <= j < |q[1..]| && q[1..][j] == r[i]; assert q[j + 1] == r[i]; }
      }
    }
  }

  lemma OneEntryPerNode(q: seq<Queued>, e: Queued, f: Queued)
    requires QueueOk(q) && e in q && f in q && e.update.node == f.update.node
    ensures e == f
  {
  }

  /** Where Enqueue acts: at the first entry about the same node. */
  lemma {:induction false} EnqueueAt(q: seq<Queued>, u: Update, i: nat)
    requires i < |q| && q[i].update.node == u.node
    requires forall j :: 0 <= j < i ==> q[j].update.node != u.node
    ensures Enqueue(q, u) == if u.incarnation >= q[i].update.incarnation then q[i := Queued(u, 0)] else q
  {
    if i > 0 {
      EnqueueAt(q[1..], u, i - 1);
    }
  }

  /** While a node stays queued, what is queued about it never gets older; a newer claim always gets in. */
  lemma EnqueueNeverRegresses(q: seq<Queued>, u: Update, e: Queued)
    requires QueueOk(q) && e in q && e.update.node == u.node
    ensures u.incarnation >= e.update.incarnation ==> Queued(u, 0) in Enqueue(q, u)
    ensures u.incarnation < e.update.incarnation ==> Enqueue(q, u) == q
  {
    var i :| 0 <= i < |q| && q[i] == e;
    EnqueueAt(q, u, i);
    assert q[i := Queued(u, 0)][i] == Queued(u, 0);
  }

  lemma {:induction false} EnqueueNew(q: seq<Queued>, u: Update)
    requires !Holds(q, u.node)
    ensures Enqueue(q, u) == q + [Queued(u, 0)]
  {
    if q != [] {
      assert q[0] in q;
      forall e | e in q[1..] ensures e.update.node != u.node { assert e in q; }
      EnqueueNew(q[1..], u);
    }
  }

  /** An update at least as new as everything queued about its node always gets in. */
  lemma EnqueueAccepts(q: seq<Queued>, u: Update)
    requires QueueOk(q) && forall e :: e in q && e.update.node == u.node ==> e.update.incarnation <= u.incarnation
    ensures Queued(u, 0) in Enqueue(q, u)
  {
    if e :| e in q && e.update.node == u.node {
      EnqueueNeverRegresses(q, u, e);
    } else {
      EnqueueNew(q, u);
    }
  }

  // ---------------------------------------------------------------- drains

  lemma {:induction false} ActiveConcat(a: seq<Queued>, b: seq<Queued>)
    ensures Active(a + b) == Active(a) + Active(b)
  {
    if b == [] {
      assert a + b == a;
    } else {
      ActiveConcat(a, b[..|b| - 1]);
      assert (a + b)[..|a + b| - 1] == a + b[..|b| - 1];
    }
  }

  lemma {:induction false} ActiveContents(q: seq<Queued>)
    ensures forall e :: e in Active(q) <==> e in q && e.sent < MAX_SENDS
    ensures |Active(q)| <= |q|
    ensures (forall e :: e in q ==> e.sent < MAX_SENDS) ==> Active(q) == q
  {
    if q != [] {
      ActiveContents(q[..|q| - 1]);
      assert q == q[..|q| - 1] + [q[|q| - 1]];
    }
  }

  lemma {:induction false} ActiveKeepsDistinct(q: seq<Queued>)
    requires OnePerNode(q)
    ensures OnePerNode(Active(q))
  {
    if q != [] {
      var t, z := q[..|q| - 1], q[|q| - 1];
      ActiveKeepsDistinct(t);
      ActiveContents(t);
      var r := Active(t);
      forall i | 0 <= i < |r| ensures r[i].update.node != z.update.node {
        assert r[i] in t;
      }
    }
  }

  lemma DrainKeepsOk(q: seq<Queued>)
    requires QueueOk(q)
    ensures QueueOk(Drained(q))
  {
    ActiveKeepsDistinct(Counted(q));
    ActiveContents(Counted(q));
  }

  /** What is left in the queue before used-up entries are dropped: same updates, first ten counted. */
  function Counted(q: seq<Queued>): (r: seq<Queued>)
    ensures |r| == |q|
    ensures forall i :: 0 <= i < |q| ==> r[i] == q[i].(sent := q[i].sent + if i < Window(q) then 1 else 0)
  {
    Bump(q[..Window(q)]) + q[Window(q)..]
  }

  lemma OneCounted(q: seq<Queued>, k: nat, i: nat)
    requires OnePerNode(q) && k < |q| && i < |q| && Counted(q)[i].update.node == Counted(q)[k].update.node
    ensures i == k
  {
    assert q[i].update.node == q[k].update.node;
  }

  /** The entry at position `k` is counted exactly when it is in the window, and leaves when used up. */
  lemma DrainEffect(q: seq<Queued>, k: nat)
    requires QueueOk(q) && k < |q|
    ensures var e := Counted(q)[k];
            if e.sent < MAX_SENDS then e in Drained(q) else !Holds(Drained(q), e.update.node)
  {
    var b := Counted(q);
    ActiveContents(b);
    if b[k].sent >= MAX_SENDS {
      forall f | f in Active(b) ensures f.update.node != b[k].update.node {
        var i :| 0 <= i < |b| && b[i] == f;
        if f.update.node == b[k].update.node { OneCounted(q, k, i); }
      }
    }
  }

  ghost predicate HandsOut(q: seq<Queued>, x: NodeId) {
    exists u :: u in Handout(q) && u.node == x
  }

  /** A drain hands out the first ten entries and no others. */
  lemma HandoutIsWindow(q: seq<Queued>, k: nat)
    requires QueueOk(q) && k < |q|
    ensures |Handout(q)| == Min(|q|, 10)
    ensures HandsOut(q, q[k].update.node) <==> k < 10
  {
    var h := Handout(q);
    if k < Window(q) {
      assert h[k] in h;
    } else {
      forall u | u in h ensures u.node != q[k].update.node {
        var i :| 0 <= i < |h| && h[i] == u;
        assert q[i].update == u;
      }
    }
  }

  lemma AbsentIsNotHandedOut(q: seq<Queued>, x: NodeId)
    requires !Holds(q, x)
    ensures !HandsOut(q, x) && !Holds(Drained(q), x)
  {
    var b, h := Counted(q), Handout(q);
    ActiveContents(b);
    forall e | e in b ensures e.update.node != x {
      var i :| 0 <= i < |b| && b[i] == e;
      assert q[i] in q;
    }
    forall u | u in h ensures u.node != x {
      var i :| 0 <= i < |h| && h[i] == u;
      assert q[i] in q;
    }
  }

  // ---------------------------------------------------------------- whole runs of a queue

  datatype QueueOp = Put(update: Update) | Take

  function QueueStep(q: seq<Queued>, op: QueueOp): seq<Queued> {
    match op
    case Put(u) => Enqueue(q, u)
    case Take => Drained(q)
  }

  function AfterOps(q: seq<Queued>, ops: seq<QueueOp>): seq<Queued> {
    if ops == [] then q else QueueStep(AfterOps(q, ops[..|ops| - 1]), ops[|ops| - 1])
  }

  /** How many of the drains in `ops` hand out an update about `x`. */
  ghost function TimesHandedOut(q: seq<Queued>, ops: seq<QueueOp>, x: NodeId): nat {
    if ops == [] then 0
    else
      var before := ops[..|ops| - 1];
      TimesHandedOut(q, before, x)
      + if ops[|ops| - 1] == Take && HandsOut(AfterOps(q, before), x) then 1 else 0
  }

  lemma {:induction false} AfterOpsOk(q: seq<Queued>, ops: seq<QueueOp>)
    requires QueueOk(q)
    ensures QueueOk(AfterOps(q, ops))
  {
    if ops != [] {
      var p := AfterOps(q, ops[..|ops| - 1]);
      AfterOpsOk(q, ops[..|ops| - 1]);
      match ops[|ops| - 1]
      case Put(u) => EnqueueKeepsOk(p, u);
      case Take => DrainKeepsOk(p);
    }
  }

  /** While a node stays queued, what is queued about it never gets older. */
  lemma QueuedNeverRegresses(q: seq<Queued>, op: QueueOp, e: Queued, e': Queued)
    requires QueueOk(q) && e in q && e' in QueueStep(q, op) && e.update.node == e'.update.node
    ensures e.update.incarnation <= e'.update.incarnation
  {
    match op
    case Put(u) =>
      EnqueueContents(q, u);
      if e' in q { OneEntryPerNode(q, e, e'); } else { EnqueueNeverRegresses(q, u, e); }
    case Take =>
      var b := Counted(q);
      ActiveContents(b);
      var i :| 0 <= i < |b| && b[i] == e';
      OneEntryPerNode(q, e, q[i]);
  }

  /** `x` has been sent `sent` times: it is still queued with that count, or gone because it is used up. */
  ghost predicate Accounted(q: seq<Queued>, e: Queued, sent: nat) {
    if sent < MAX_SENDS then e.(sent := sent) in q
    else sent == MAX_SENDS && !Holds(q, e.update.node)
  }

  lemma DrainAccounts(q: seq<Queued>, e: Queued, sent: nat)
    requires QueueOk(q) && Accounted(q, e, sent)
    ensures Accounted(Drained(q), e, sent + if HandsOut(q, e.update.node) then 1 else 0)
  {
    if sent < MAX_SENDS {
      var k :| 0 <= k < |q| && q[k] == e.(sent := sent);
      DrainEffect(q, k);
      HandoutIsWindow(q, k);
    } else {
      AbsentIsNotHandedOut(q, e.update.node);
    }
  }

  lemma PutAccounts(q: seq<Queued>, u: Update, e: Queued, sent: nat)
    requires Accounted(q, e, sent) && u.node != e.update.node
    ensures Accounted(Enqueue(q, u), e, sent)
  {
    EnqueueContents(q, u);
  }

  /** Nothing in `ops` is put about `x`. */
  ghost predicate NoPutAbout(ops: seq<QueueOp>, x: NodeId) {
    forall op :: op in ops && op.Put? ==> op.update.node != x
  }

  lemma NoPutFront(ops: seq<QueueOp>, x: NodeId)
    requires NoPutAbout(ops, x) && ops != []
    ensures NoPutAbout(ops[..|ops| - 1], x)
    ensures ops[|ops| - 1].Put? ==> ops[|ops| - 1].update.node != x
  {
    assert ops[|ops| - 1] in ops && forall op :: op in ops[..|ops| - 1] ==> op in ops;
  }

  lemma StepAccounts(q: seq<Queued>, op: QueueOp, e: Queued, sent: nat, q': seq<Queued>, sent': nat)
    requires QueueOk(q) && Accounted(q, e, sent) && (op.Put? ==> op.update.node != e.update.node)
    requires q' == QueueStep(q, op) && sent' == sent + if op == Take && HandsOut(q, e.update.node) then 1 else 0
    ensures Accounted(q', e, sent')
  {
    match op
    case Take => DrainAccounts(q, e, sent);
    case Put(u) => PutAccounts(q, u, e, sent);
  }

  lemma LastOp(q: seq<Queued>, ops: seq<QueueOp>, x: NodeId)
    requires ops != []
    ensures var p, op := AfterOps(q, ops[..|ops| - 1]), ops[|ops| - 1];
            && AfterOps(q, ops) == QueueStep(p, op)
            && TimesHandedOut(q, ops, x)
               == TimesHandedOut(q, ops[..|ops| - 1], x) + if op == Take && HandsOut(p, x) then 1 else 0
  {
  }

  lemma LastOpAccounts(q: seq<Queued>, ops: seq<QueueOp>, e: Queued, sent: nat)
    requires QueueOk(q) && ops != [] && (ops[|ops| - 1].Put? ==> ops[|ops| - 1].update.node != e.update.node)
    requires sent == e.sent + TimesHandedOut(q, ops[..|ops| - 1], e.update.node)
    requires Accounted(AfterOps(q, ops[..|ops| - 1]), e, sent)
    ensures Accounted(AfterOps(q, ops), e, e.sent + TimesHandedOut(q, ops, e.update.node))
  {
    AfterOpsOk(q, ops[..|ops| - 1]);
    LastOp(q, ops, e.update.node);
    StepAccounts(AfterOps(q, ops[..|ops| - 1]), ops[|ops| - 1], e, sent,
                 AfterOps(q, ops), e.sent + TimesHandedOut(q, ops, e.update.node));
  }

  /** Every send of an update that nothing supersedes is accounted for, whatever else is queued meanwhile. */
  lemma {:induction false} SendsAddUp(q: seq<Queued>, ops: seq<QueueOp>, e: Queued)
    requires QueueOk(q) && e in q && NoPutAbout(ops, e.update.node)
    ensures Accounted(AfterOps(q, ops), e, e.sent + TimesHandedOut(q, ops, e.update.node))
  {
    if ops != [] {
      NoPutFront(ops, e.update.node);
      SendsAddUp(q, ops[..|ops| - 1], e);
      LastOpAccounts(q, ops, e, e.sent + TimesHandedOut(q, ops[..|ops| - 1], e.update.node));
    }
  }

  /** An update that is queued fresh, never superseded, and gone at the end was handed out exactly three times. */
  lemma HandedOutExactlyThreeTimes(q: seq<Queued>, ops: seq<QueueOp>, e: Queued)
    requires QueueOk(q) && e in q && e.sent == 0 && NoPutAbout(ops, e.update.node)
    requires !Holds(AfterOps(q, ops), e.update.node)
    ensures TimesHandedOut(q, ops, e.update.node) == 3
  {
    SendsAddUp(q, ops, e);
  }

  // ---------------------------------------------------------------- emptying

  function DrainTimes(q: seq<Queued>, k: nat): seq<Queued> {
    if k == 0 then q else Drained(DrainTimes(q, k - 1))
  }

  ghost predicate SentAtLeast(q: seq<Queued>, s: nat) {
    forall i :: 0 <= i < |q| ==> q[i].sent >= s
  }

  lemma ActiveKeepsCount(q: seq<Queued>, s: nat)
    requires SentAtLeast(q, s)
    ensures SentAtLeast(Active(q), s) && (s >= MAX_SENDS ==> Active(q) == [])
  {
    ActiveContents(q);
    var r := Active(q);
    forall i | 0 <= i < |r| ensures r[i].sent >= s && s < MAX_SENDS { assert r[i] in q; }
  }

  /** A drain raises the count of the first entries, and never lets later ones overtake them. */
  lemma DrainSplit(a: seq<Queued>, b: seq<Queued>, s: nat) returns (a': seq<Queued>, b': seq<Queued>)
    requires |a| <= MAX_PIGGYBACK && SentAtLeast(a, s)
    ensures Drained(a + b) == a' + b'
    ensures |a'| <= |a| && |b'| <= |b|
    ensures SentAtLeast(a', s + 1) && (s + 1 >= MAX_SENDS ==> a' == [])
  {
    var all := Counted(a + b);
    var front, back := all[..|a|], all[|a|..];
    assert all == front + back;
    assert forall i :: 0 <= i < |a| ==> front[i].sent == a[i].sent + 1;
    ActiveConcat(front, back);
    ActiveKeepsCount(front, s + 1);
    ActiveContents(front);
    ActiveContents(back);
    a', b' := Active(front), Active(back);
  }

  /** Three drains use up the first ten entries, however often those were sent before. */
  lemma ThreeDrains(q: seq<Queued>)
    ensures |DrainTimes(q, 3)| <= Max(0, |q| - MAX_PIGGYBACK)
  {
    var w := Window(q);
    assert q == q[..w] + q[w..];
    var a1, b1 := DrainSplit(q[..w], q[w..], 0);
    var a2, b2 := DrainSplit(a1, b1, 1);
    var a3, b3 := DrainSplit(a2, b2, 2);
    assert DrainTimes(q, 1) == a1 + b1;
    assert DrainTimes(q, 2) == a2 + b2;
    assert DrainTimes(q, 3) == a3 + b3;
  }

  lemma {:induction false} DrainTimesSplit(q: seq<Queued>, j: nat, k: nat)
    ensures DrainTimes(q, j + k) == DrainTimes(DrainTimes(q, j), k)
  {
    if k > 0 {
      DrainTimesSplit(q, j, k - 1);
    }
  }

  /** Three drains for every ten entries, begun or full. */
  function Rounds(n: nat): nat { 3 * ((n + 9) / 10) }

  lemma RoundsAddUp(n: nat, m: nat)
    requires n > 0 && m <= Max(0, n - MAX_PIGGYBACK)
    ensures 3 + Rounds(m) <= Rounds(n)
  {
  }

  lemma {:induction false} StaysEmpty(q: seq<Queued>, j: nat, k: nat)
    requires j <= k && DrainTimes(q, j) == []
    ensures DrainTimes(q, k) == []
  {
    if j < k {
      StaysEmpty(q, j, k - 1);
      assert Bump([]) == [];
    }
  }

  lemma EmptyAfter(q: seq<Queued>, j: nat, k: nat)
    requires DrainTimes(DrainTimes(q, 3), j) == [] && 3 + j <= k
    ensures DrainTimes(q, k) == []
  {
    DrainTimesSplit(q, 3, j);
    StaysEmpty(q, 3 + j, k);
  }

  /** With nothing new queued, `n` entries are gone after `3 * ceil(n / 10)` drains. */
  lemma {:induction false} QueueEmpties(q: seq<Queued>)
    ensures DrainTimes(q, Rounds(|q|)) == []
    decreases |q|
  {
    if q != [] {
      ThreeDrains(q);
      var p := DrainTimes(q, 3);
      RoundsAddUp(|q|, |p|);
      QueueEmpties(p);
      EmptyAfter(q, Rounds(|p|), Rounds(|q|));
    }
  }
}
