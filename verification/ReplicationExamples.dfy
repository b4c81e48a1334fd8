/** Runs of the replication system: a delete that reaches both ends, and runs that end in disagreement. */
module ReplicationExamples {
  import opened Common
  import opened Replication

  lemma Extend(pl: Roles, run: seq<Step>, states: seq<System>, st: Step)
    requires IsRun(pl, run, states) && Enabled(pl, states[|run|], st)
    ensures IsRun(pl, run + [st], states + [Next(pl, states[|run|], st)])
  {
  }

  /** A primary, a secondary and a key of theirs. */
  ghost predicate Ends(pl: Roles, p: NodeId, t: NodeId, k: Key) {
    ValidRoles(pl) && IsPrimary(pl, p, k) && t in pl.secondaries(k)
  }

  /** What the examples need to know about a state: link, notes and the two copies. */
  datatype Scene = Scene(link: Link, notes: seq<Note>, here: Option<Copy>, there: Option<Copy>)

  /** No Expire has been involved. */
  ghost predicate Quiet(s: System, p: NodeId) { Renewing(s, p) == [] && s.skipped == {} }

  /** `run` leads to a state that looks like `c`; `serial` says whether writes of `k` never overlapped on the way. */
  ghost predicate Leads(pl: Roles, run: seq<Step>, states: seq<System>, p: NodeId, t: NodeId, k: Key, c: Scene,
                        serial: bool) {
    && IsRun(pl, run, states) && (serial ==> Serial(states, p, k))
    && var s := states[|run|];
       && LinkOf(s, p, t) == c.link && Counter(s, p) == |c.link.sent| && Quiet(s, p) && Unsent(s, p) == c.notes
       && Look(Store(s, p), k) == c.here && Look(Store(s, t), k) == c.there
  }

  lemma Start(pl: Roles, p: NodeId, t: NodeId, k: Key)
    ensures Leads(pl, [], [EMPTY], p, t, k, Scene(Link([], [], [], []), [], None, None), true)
  {
  }

  lemma Moved(pl: Roles, run: seq<Step>, states: seq<System>, p: NodeId, t: NodeId, k: Key, serial: bool, st: Step,
              s: System, c: Scene)
    requires IsRun(pl, run, states) && (serial ==> Serial(states, p, k))
    requires Enabled(pl, states[|run|], st) && s == Next(pl, states[|run|], st)
    requires LinkOf(s, p, t) == c.link && Counter(s, p) == |c.link.sent| && Quiet(s, p) && Unsent(s, p) == c.notes
    requires Look(Store(s, p), k) == c.here && Look(Store(s, t), k) == c.there
    requires serial ==> |NotesAbout(c.notes, k)| <= 1
    ensures Leads(pl, run + [st], states + [s], p, t, k, c, serial)
  {
    Extend(pl, run, states, st);
  }

  lemma Writes(pl: Roles, run: seq<Step>, states: seq<System>, p: NodeId, t: NodeId, k: Key, c: Scene, serial: bool,
               e: Effect)
    returns (run': seq<Step>, states': seq<System>)
    requires Ends(pl, p, t, k) && Leads(pl, run, states, p, t, k, c, serial) && (serial ==> c.notes == [])
    ensures Leads(pl, run', states', p, t, k,
                  c.(notes := c.notes + [Note(k, e)], here := Outcome(e)), serial)
  {
    var st, s := Write(p, k, e), DoWrite(states[|run|], p, k, e);
    PutLook(states[|run|], p, k, e, p, k);
    PutLook(states[|run|], p, k, e, t, k);
    NotesAboutSnoc(c.notes, Note(k, e), k);
    run', states' := run + [st], states + [s];
    Moved(pl, run, states, p, t, k, serial, st, s, c.(notes := c.notes + [Note(k, e)], here := Outcome(e)));
  }

  lemma Announces(pl: Roles, run: seq<Step>, states: seq<System>, p: NodeId, t: NodeId, k: Key, c: Scene,
                  serial: bool, i: nat)
    returns (run': seq<Step>, states': seq<System>)
    requires Ends(pl, p, t, k) && Leads(pl, run, states, p, t, k, c, serial)
    requires i < |c.notes| && c.notes[i].key == k && (serial ==> |c.notes| == 1)
    ensures Leads(pl, run', states', p, t, k,
                  c.(link := Send(c.link, Request(k, c.notes[i].effect, |c.link.sent| + 1, p)),
                     notes := RemoveAt(c.notes, i)), serial)
  {
    var st := Announce(p, i);
    var s := Next(pl, states[|run|], st);
    AnnounceLinks(pl, states[|run|], p, i, p, t);
    AnnounceEffect(pl, states[|run|], p, i, p);
    run', states' := run + [st], states + [s];
    Moved(pl, run, states, p, t, k, serial, st, s,
          c.(link := Send(c.link, Request(k, c.notes[i].effect, |c.link.sent| + 1, p)), notes := RemoveAt(c.notes, i)));
  }

  lemma Delivers(pl: Roles, run: seq<Step>, states: seq<System>, p: NodeId, t: NodeId, k: Key, c: Scene,
                 serial: bool, i: nat)
    returns (run': seq<Step>, states': seq<System>)
    requires Ends(pl, p, t, k) && Leads(pl, run, states, p, t, k, c, serial) && (serial ==> c.notes == [])
    requires i < |c.link.pending| && c.link.pending[i].key == k
    ensures Leads(pl, run', states', p, t, k,
                  c.(link := Handle(c.link, i), there := Outcome(c.link.pending[i].effect)), serial)
  {
    var st := Deliver(p, t, i);
    var s := Next(pl, states[|run|], st);
    DeliverLinks(states[|run|], p, t, i, p, t);
    DeliverLook(states[|run|], p, t, i, p, k);
    DeliverLook(states[|run|], p, t, i, t, k);
    run', states' := run + [st], states + [s];
    Moved(pl, run, states, p, t, k, serial, st, s,
          c.(link := Handle(c.link, i), there := Outcome(c.link.pending[i].effect)));
  }

  lemma Loses(pl: Roles, run: seq<Step>, states: seq<System>, p: NodeId, t: NodeId, k: Key, c: Scene, serial: bool,
              i: nat)
    returns (run': seq<Step>, states': seq<System>)
    requires Leads(pl, run, states, p, t, k, c, serial) && (serial ==> c.notes == []) && i < |c.link.pending|
    ensures Leads(pl, run', states', p, t, k, c.(link := Forget(c.link, i)), serial)
  {
    var st := Lose(p, t, i);
    var s := Next(pl, states[|run|], st);
    run', states' := run + [st], states + [s];
    Moved(pl, run, states, p, t, k, serial, st, s, c.(link := Forget(c.link, i)));
  }

  function PutRequest(k: Key, v: Value, sequence: nat, p: NodeId): Request { Request(k, Put(v, 0), sequence, p) }

  /** A write that is announced before the next one begins. */
  lemma Posts(pl: Roles, run: seq<Step>, states: seq<System>, p: NodeId, t: NodeId, k: Key, c: Scene, v: Value)
    returns (run': seq<Step>, states': seq<System>)
    requires Ends(pl, p, t, k) && Leads(pl, run, states, p, t, k, c, true) && c.notes == []
    ensures Leads(pl, run', states', p, t, k,
                  c.(link := Send(c.link, PutRequest(k, v, |c.link.sent| + 1, p)), here := Some(Copy(v, true))), true)
  {
    run', states' := Writes(pl, run, states, p, t, k, c, true, Put(v, 0));
    run', states' := Announces(pl, run', states', p, t, k,
                               c.(notes := [Note(k, Put(v, 0))], here := Some(Copy(v, true))), true, 0);
  }

  const EMPTY_LINK := Link([], [], [], [])

  /** The primary has written and announced `v` and then `w`; both requests are pending. */
  lemma TwoWrites(pl: Roles, p: NodeId, t: NodeId, k: Key, v: Value, w: Value)
    returns (run: seq<Step>, states: seq<System>)
    requires Ends(pl, p, t, k)
    ensures Leads(pl, run, states, p, t, k, TwoSent(k, v, w, p, Some(Copy(w, true))), true)
  {
    Start(pl, p, t, k);
    run, states := Posts(pl, [], [EMPTY], p, t, k, Scene(EMPTY_LINK, [], None, None), v);
    var c := Scene(Send(EMPTY_LINK, PutRequest(k, v, 1, p)), [], Some(Copy(v, true)), None);
    run, states := Posts(pl, run, states, p, t, k, c, w);
  }

  /** `v` was sent before `w`, and both are pending. */
  function TwoSent(k: Key, v: Value, w: Value, p: NodeId, here: Option<Copy>): Scene {
    Scene(Send(Send(EMPTY_LINK, PutRequest(k, v, 1, p)), PutRequest(k, w, 2, p)), [], here, None)
  }

  /** Two writes that overtake each other: everything is handled, and the secondary keeps the older value for good. */
  lemma OvertakingLosesAWrite(pl: Roles, p: NodeId, t: NodeId, k: Key, v: Value, w: Value)
    returns (run: seq<Step>, states: seq<System>)
    requires Ends(pl, p, t, k)
    ensures IsRun(pl, run, states) && Announced(states, p, k)
    ensures var s := states[|run|];
            && LinkOf(s, p, t).pending == [] && LinkOf(s, p, t).lost == []
            && Look(Store(s, p), k) == Some(Copy(w, true)) && Look(Store(s, t), k) == Some(Copy(v, true))
  {
    run, states := TwoWrites(pl, p, t, k, v, w);
    var c := TwoSent(k, v, w, p, Some(Copy(w, true)));
    run, states := Delivers(pl, run, states, p, t, k, c, true, 1);
    c := c.(link := Handle(c.link, 1), there := Some(Copy(w, true)));
    run, states := Delivers(pl, run, states, p, t, k, c, true, 0);
  }

  /** A lost newest write: nothing is left to handle, and the secondary keeps the older value for good. */
  lemma LostWriteIsNeverMadeUp(pl: Roles, p: NodeId, t: NodeId, k: Key, v: Value, w: Value)
    returns (run: seq<Step>, states: seq<System>)
    requires Ends(pl, p, t, k)
    ensures IsRun(pl, run, states) && Announced(states, p, k)
    ensures var s := states[|run|];
            && LinkOf(s, p, t).pending == [] && InOrder(LinkOf(s, p, t).handled, k)
            && Look(Store(s, p), k) == Some(Copy(w, true)) && Look(Store(s, t), k) == Some(Copy(v, true))
  {
    run, states := TwoWrites(pl, p, t, k, v, w);
    var c := TwoSent(k, v, w, p, Some(Copy(w, true)));
    run, states := Loses(pl, run, states, p, t, k, c, true, 1);
    run, states := Delivers(pl, run, states, p, t, k, c.(link := Forget(c.link, 1)), true, 0);
  }

  /** `v` and then `w` were written before either was announced, and announced in the other order. */
  lemma TwoOverlapping(pl: Roles, p: NodeId, t: NodeId, k: Key, v: Value, w: Value)
    returns (run: seq<Step>, states: seq<System>)
    requires Ends(pl, p, t, k)
    ensures Leads(pl, run, states, p, t, k, TwoSent(k, w, v, p, Some(Copy(w, true))), false)
  {
    run, states := TwoUnsent(pl, p, t, k, v, w);
    var c := Scene(EMPTY_LINK, [Note(k, Put(v, 0)), Note(k, Put(w, 0))], Some(Copy(w, true)), None);
    run, states := Announces(pl, run, states, p, t, k, c, false, 1);
    c := Scene(Send(EMPTY_LINK, PutRequest(k, w, 1, p)), [Note(k, Put(v, 0))], Some(Copy(w, true)), None);
    run, states := Announces(pl, run, states, p, t, k, c, false, 0);
  }

  lemma TwoUnsent(pl: Roles, p: NodeId, t: NodeId, k: Key, v: Value, w: Value)
    returns (run: seq<Step>, states: seq<System>)
    requires Ends(pl, p, t, k)
    ensures Leads(pl, run, states, p, t, k,
                  Scene(EMPTY_LINK, [Note(k, Put(v, 0)), Note(k, Put(w, 0))], Some(Copy(w, true)), None), false)
  {
    Start(pl, p, t, k);
    run, states := Writes(pl, [], [EMPTY], p, t, k, Scene(EMPTY_LINK, [], None, None), false, Put(v, 0));
    var c := Scene(EMPTY_LINK, [Note(k, Put(v, 0))], Some(Copy(v, true)), None);
    run, states := Writes(pl, run, states, p, t, k, c, false, Put(w, 0));
  }

  /** Both requests are handled in sequence. */
  lemma BothHandled(pl: Roles, run: seq<Step>, states: seq<System>, p: NodeId, t: NodeId, k: Key, v: Value, w: Value,
                    here: Option<Copy>)
    returns (run': seq<Step>, states': seq<System>)
    requires Ends(pl, p, t, k) && Leads(pl, run, states, p, t, k, TwoSent(k, v, w, p, here), false)
    ensures var q := [PutRequest(k, v, 1, p), PutRequest(k, w, 2, p)];
            Leads(pl, run', states', p, t, k, Scene(Link(q, [], q, []), [], here, Some(Copy(w, true))), false)
  {
    var c := TwoSent(k, v, w, p, here);
    run', states' := Delivers(pl, run, states, p, t, k, c, false, 0);
    c := c.(link := Handle(c.link, 0), there := Some(Copy(v, true)));
    run', states' := Delivers(pl, run', states', p, t, k, c, false, 0);
    var q := [PutRequest(k, v, 1, p), PutRequest(k, w, 2, p)];
    assert Handle(c.link, 0) == Link(q, [], q, []);
  }

  /**
   * Two writes that overlap at the primary and get their sequence numbers in the other order: nothing is lost,
   * everything is handled in sequence, and the secondary keeps the older value for good.
   */
  lemma OverlappingWritesDiverge(pl: Roles, p: NodeId, t: NodeId, k: Key, v: Value, w: Value)
    returns (run: seq<Step>, states: seq<System>)
    requires Ends(pl, p, t, k)
    ensures IsRun(pl, run, states) && Unsent(states[|run|], p) == []
    ensures var s := states[|run|];
            && LinkOf(s, p, t).pending == [] && LinkOf(s, p, t).lost == [] && InOrder(LinkOf(s, p, t).handled, k)
            && Look(Store(s, p), k) == Some(Copy(w, true)) && Look(Store(s, t), k) == Some(Copy(v, true))
  {
    run, states := TwoOverlapping(pl, p, t, k, v, w);
    run, states := BothHandled(pl, run, states, p, t, k, w, v, Some(Copy(w, true)));
  }

  /** The primary has written `v` without a deadline, and the secondary has handled it. */
  lemma OneHandled(pl: Roles, p: NodeId, t: NodeId, k: Key, v: Value)
    returns (run: seq<Step>, states: seq<System>)
    requires Ends(pl, p, t, k)
    ensures var q := [PutRequest(k, v, 1, p)];
            Leads(pl, run, states, p, t, k,
                  Scene(Link(q, [], q, []), [], Some(Copy(v, true)), Some(Copy(v, true))), true)
  {
    Start(pl, p, t, k);
    run, states := Posts(pl, [], [EMPTY], p, t, k, Scene(EMPTY_LINK, [], None, None), v);
    var c := Scene(Send(EMPTY_LINK, PutRequest(k, v, 1, p)), [], Some(Copy(v, true)), None);
    run, states := Delivers(pl, run, states, p, t, k, c, true, 0);
    var q := [PutRequest(k, v, 1, p)];
    assert Handle(c.link, 0) == Link(q, [], q, []);
  }

  /** A write and then a delete, each announced and handled: the key is gone at both ends. */
  lemma DeleteIsReplicated(pl: Roles, p: NodeId, t: NodeId, k: Key, v: Value)
    returns (run: seq<Step>, states: seq<System>)
    requires Ends(pl, p, t, k)
    ensures IsRun(pl, run, states)
    ensures var s := states[|run|];
            && LinkOf(s, p, t).handled == [Request(k, Put(v, 0), 1, p), Request(k, Remove, 2, p)]
            && Unsent(s, p) == [] && LinkOf(s, p, t).pending == [] && LinkOf(s, p, t).lost == []
            && k !in Store(s, p) && k !in Store(s, t)
  {
    run, states := OneHandled(pl, p, t, k, v);
    var q := PutRequest(k, v, 1, p);
    var c := Scene(Link([q], [], [q], []), [], Some(Copy(v, true)), Some(Copy(v, true)));
    run, states := Writes(pl, run, states, p, t, k, c, true, Remove);
    c := c.(notes := [Note(k, Remove)], here := None);
    run, states := Announces(pl, run, states, p, t, k, c, true, 0);
    c := c.(notes := [], link := Send(c.link, Request(k, Remove, 2, p)));
    run, states := Delivers(pl, run, states, p, t, k, c, true, 0);
  }

  /** An Expire whose key lapses before its value is read back. */
  lemma LapsedRenewal(pl: Roles, s: System, p: NodeId, t: NodeId, k: Key, v: Value)
    requires Ends(pl, p, t, k) && Renewing(s, p) == [] && Look(Store(s, p), k) == Some(Copy(v, true))
    ensures var s1 := DoExpire(s, p, k, 1);
            var s2 := WriteLocal(s1, p, Store(s1, p) - {k});
            && Enabled(pl, s, Expire(p, k, 1)) && Enabled(pl, s1, Lapse(p, k)) && Enabled(pl, s2, ReadBack(p, 0))
            && var s3 := DoReadBack(s2, p, 0);
               && Look(Store(s3, p), k) == None && Look(Store(s3, t), k) == Look(Store(s, t), k)
               && LinkOf(s3, p, t) == LinkOf(s, p, t) && Unsent(s3, p) == Unsent(s, p) && Renewing(s3, p) == []
  {
  }

  /**
   * An Expire whose key lapses before its value is read back announces nothing: the key is gone at the primary, and
   * the secondary, with nothing lost or pending, keeps a copy without a deadline for good.
   */
  lemma LapsedRenewalIsNeverAnnounced(pl: Roles, p: NodeId, t: NodeId, k: Key, v: Value)
    returns (run: seq<Step>, states: seq<System>)
    requires Ends(pl, p, t, k)
    ensures IsRun(pl, run, states)
    ensures var s := states[|run|];
            && Renewing(s, p) == [] && Unsent(s, p) == []
            && LinkOf(s, p, t).pending == [] && LinkOf(s, p, t).lost == [] && InOrder(LinkOf(s, p, t).handled, k)
            && Look(Store(s, p), k) == None && Look(Store(s, t), k) == Some(Copy(v, true))
  {
    run, states := OneHandled(pl, p, t, k, v);
    var s := states[|run|];
    LapsedRenewal(pl, s, p, t, k, v);
    var s1 := DoExpire(s, p, k, 1);
    var s2 := WriteLocal(s1, p, Store(s1, p) - {k});
    Extend(pl, run, states, Expire(p, k, 1));
    run, states := run + [Expire(p, k, 1)], states + [s1];
    Extend(pl, run, states, Lapse(p, k));
    run, states := run + [Lapse(p, k)], states + [s2];
    Extend(pl, run, states, ReadBack(p, 0));
    run, states := run + [ReadBack(p, 0)], states + [DoReadBack(s2, p, 0)];
  }
}
