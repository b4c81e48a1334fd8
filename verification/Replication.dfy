/** Primary-to-secondary replication over a fixed ring, with requests that are handled in any order or lost. */
module Replication {
  import opened Common
  import HashRing

  /** A client write on the wire: the new value, or a deletion. A TTL of 0 or less means no deadline. */
  datatype Effect = Put(value: Value, ttlMs: int) | Remove

  datatype Request = Request(key: Key, effect: Effect, sequence: nat, source: NodeId)

  /** A stored copy; one without a deadline lasts until it is overwritten or deleted. */
  datatype Copy = Copy(value: Value, lasting: bool)

  type Copies = map<Key, Copy>

  function Look(m: Copies, k: Key): Option<Copy> { if k in m then Some(m[k]) else None }

  function Outcome(e: Effect): Option<Copy> {
    match e
    case Put(v, ttl) => Some(Copy(v, ttl <= 0))
    case Remove => None
  }

  /** The secondary's Replicate handler; it does not look at the sequence number. */
  function Replicate(m: Copies, r: Request): Copies {
    match Outcome(r.effect)
    case Some(c) => m[r.key := c]
    case None => m - {r.key}
  }

  function ReplicateAll(m: Copies, rs: seq<Request>): Copies {
    if rs == [] then m else Replicate(ReplicateAll(m, rs[..|rs| - 1]), rs[|rs| - 1])
  }

  // ---------------------------------------------------------------- roles

  /** Who is primary for a key and who its secondaries are. */
  datatype Roles = Roles(primary: Key -> Option<NodeId>, secondaries: Key -> seq<NodeId>)

  /** Every node is on one side only of each key's channels. */
  ghost predicate ValidRoles(pl: Roles) {
    forall k, n :: IsPrimary(pl, n, k) ==> n !in pl.secondaries(k)
  }

  predicate IsPrimary(pl: Roles, n: NodeId, k: Key) { pl.primary(k) == Some(n) }

  // ---------------------------------------------------------------- the system

  type Channel = (NodeId, NodeId)

  /**
   * The requests from one node to another. Every send runs in a goroutine of its own, so what is `pending` is
   * handled in any order, and a send that fails is `lost`: there is no retry.
   */
  datatype Link = Link(sent: seq<Request>, pending: seq<Request>, handled: seq<Request>, lost: seq<Request>)

  /** A write that is in the primary's store and not announced yet. */
  datatype Note = Note(key: Key, effect: Effect)

  /**
   * `renewing` are the Expires that still have to read their value back, `unsent` the writes that still have to get
   * a sequence number. `latest` is the last write of each key at each node; `skipped` are the keys with an Expire
   * that found nothing to read back.
   */
  datatype System = System(
    stores: map<NodeId, Copies>,
    counters: map<NodeId, nat>,
    links: map<Channel, Link>,
    renewing: map<NodeId, seq<Note>>,
    unsent: map<NodeId, seq<Note>>,
    latest: map<(NodeId, Key), Effect>,
    skipped: set<(NodeId, Key)>)

  function Store(s: System, n: NodeId): Copies { if n in s.stores then s.stores[n] else map[] }

  function Counter(s: System, n: NodeId): nat { if n in s.counters then s.counters[n] else 0 }

  function LinkOf(s: System, p: NodeId, t: NodeId): Link {
    if (p, t) in s.links then s.links[(p, t)] else Link([], [], [], [])
  }

  function Renewing(s: System, p: NodeId): seq<Note> { if p in s.renewing then s.renewing[p] else [] }

  function Unsent(s: System, p: NodeId): seq<Note> { if p in s.unsent then s.unsent[p] else [] }

  /** What the last write of `k` at `p` leaves behind. */
  function Latest(s: System, p: NodeId, k: Key): Option<Copy> {
    if (p, k) in s.latest then Outcome(s.latest[(p, k)]) else None
  }

  const EMPTY := System(map[], map[], map[], map[], map[], map[], {})

  function Send(l: Link, r: Request): Link { l.(sent := l.sent + [r], pending := l.pending + [r]) }

  function RemoveAt<T>(q: seq<T>, i: nat): seq<T>
    requires i < |q|
  {
    q[..i] + q[i + 1..]
  }

  /** ReplicateWrite and ReplicateDelete: one sequence number, one copy of the request per secondary. */
  function Broadcast(pl: Roles, s: System, p: NodeId, k: Key, e: Effect): System {
    var targets := pl.secondaries(k);
    if targets == [] then s
    else
      var seqno := Counter(s, p) + 1;
      s.(counters := s.counters[p := seqno],
         links := s.links + map t | t in targets :: (p, t) := Send(LinkOf(s, p, t), Request(k, e, seqno, p)))
  }

  function WriteLocal(s: System, n: NodeId, m: Copies): System { s.(stores := s.stores[n := m]) }

  datatype Step =
    | Write(at: NodeId, key: Key, effect: Effect)
    | Expire(at: NodeId, key: Key, ttlMs: int)
    | ReadBack(at: NodeId, index: nat)
    | Announce(at: NodeId, index: nat)
    | Deliver(source: NodeId, target: NodeId, index: nat)
    | Lose(source: NodeId, target: NodeId, index: nat)
    | Lapse(at: NodeId, key: Key)

  /**
   * Clients write at the primary: first its store, then, possibly after other writes, the sequence number and the
   * requests. An Expire reads the value back in between. Anything with a deadline may vanish from any store at any
   * time.
   */
  ghost predicate Enabled(pl: Roles, s: System, st: Step) {
    match st
    case Write(p, k, _) => IsPrimary(pl, p, k)
    case Expire(p, k, _) => IsPrimary(pl, p, k)
    case ReadBack(p, i) => i < |Renewing(s, p)|
    case Announce(p, i) => i < |Unsent(s, p)|
    case Deliver(p, t, i) => i < |LinkOf(s, p, t).pending|
    case Lose(p, t, i) => i < |LinkOf(s, p, t).pending|
    case Lapse(n, k) => k in Store(s, n) && !Store(s, n)[k].lasting
  }

  /** The store's part of a write. */
  function PutLocal(s: System, p: NodeId, k: Key, e: Effect): System {
    WriteLocal(s, p, Replicate(Store(s, p), Request(k, e, 0, p))).(latest := s.latest[(p, k) := e])
  }

  function AddUnsent(s: System, p: NodeId, note: Note): System {
    s.(unsent := s.unsent[p := Unsent(s, p) + [note]])
  }

  function AddRenewing(s: System, p: NodeId, note: Note): System {
    s.(renewing := s.renewing[p := Renewing(s, p) + [note]])
  }

  function DropUnsent(s: System, p: NodeId, i: nat): System
    requires i < |Unsent(s, p)|
  {
    s.(unsent := s.unsent[p := RemoveAt(Unsent(s, p), i)])
  }

  function DropRenewing(s: System, p: NodeId, i: nat): System
    requires i < |Renewing(s, p)|
  {
    s.(renewing := s.renewing[p := RemoveAt(Renewing(s, p), i)])
  }

  /** What an Expire announces: the value it finds now, with the time to live it was given. */
  function Renewal(value: Value, note: Note): Note {
    Note(note.key, Put(value, if note.effect.Put? then note.effect.ttlMs else 0))
  }

  function Handle(l: Link, i: nat): Link
    requires i < |l.pending|
  {
    l.(pending := RemoveAt(l.pending, i), handled := l.handled + [l.pending[i]])
  }

  function Forget(l: Link, i: nat): Link
    requires i < |l.pending|
  {
    l.(pending := RemoveAt(l.pending, i), lost := l.lost + [l.pending[i]])
  }

  function WithLink(s: System, p: NodeId, t: NodeId, l: Link): System { s.(links := s.links[(p, t) := l]) }

  function DoWrite(s: System, p: NodeId, k: Key, e: Effect): System { AddUnsent(PutLocal(s, p, k, e), p, Note(k, e)) }

  function DoExpire(s: System, p: NodeId, k: Key, ttl: int): System {
    if k !in Store(s, p) then s
    else
      var e := Put(Store(s, p)[k].value, ttl);
      AddRenewing(PutLocal(s, p, k, e), p, Note(k, e))
  }

  function DoReadBack(s: System, p: NodeId, i: nat): System
    requires i < |Renewing(s, p)|
  {
    var note := Renewing(s, p)[i];
    if note.key in Store(s, p) then AddUnsent(DropRenewing(s, p, i), p, Renewal(Store(s, p)[note.key].value, note))
    else DropRenewing(s, p, i).(skipped := s.skipped + {(p, note.key)})
  }

  function DoAnnounce(pl: Roles, s: System, p: NodeId, i: nat): System
    requires i < |Unsent(s, p)|
  {
    var note := Unsent(s, p)[i];
    Broadcast(pl, DropUnsent(s, p, i), p, note.key, note.effect)
  }

  function DoDeliver(s: System, p: NodeId, t: NodeId, i: nat): System
    requires i < |LinkOf(s, p, t).pending|
  {
    var l := LinkOf(s, p, t);
    WithLink(WriteLocal(s, t, Replicate(Store(s, t), l.pending[i])), p, t, Handle(l, i))
  }

  function DoLose(s: System, p: NodeId, t: NodeId, i: nat): System
    requires i < |LinkOf(s, p, t).pending|
  {
    WithLink(s, p, t, Forget(LinkOf(s, p, t), i))
  }

  ghost function Next(pl: Roles, s: System, st: Step): System
    requires Enabled(pl, s, st)
  {
    match st
    case Write(p, k, e) => DoWrite(s, p, k, e)
    case Expire(p, k, ttl) => DoExpire(s, p, k, ttl)
    case ReadBack(p, i) => DoReadBack(s, p, i)
    case Announce(p, i) => DoAnnounce(pl, s, p, i)
    case Deliver(p, t, i) => DoDeliver(s, p, t, i)
    case Lose(p, t, i) => DoLose(s, p, t, i)
    case Lapse(n, k) => WriteLocal(s, n, Store(s, n) - {k})
  }

  // ---------------------------------------------------------------- the last word on a key

  /** The last request about `k`. */
  function LastAbout(rs: seq<Request>, k: Key): Option<Request> {
    if rs == [] then None
    else if rs[|rs| - 1].key == k then Some(rs[|rs| - 1])
    else LastAbout(rs[..|rs| - 1], k)
  }

  /** What the last request about `k` leaves behind on its own. */
  function Said(rs: seq<Request>, k: Key): Option<Copy> {
    match LastAbout(rs, k)
    case Some(r) => Outcome(r.effect)
    case None => None
  }

  /** Handling requests leaves, for each key, what the last one about it says. */
  lemma {:induction false} LastRequestDecides(m: Copies, rs: seq<Request>, k: Key)
    ensures Look(ReplicateAll(m, rs), k) == if LastAbout(rs, k).Some? then Said(rs, k) else Look(m, k)
  {
    if rs != [] {
      LastRequestDecides(m, rs[..|rs| - 1], k);
    }
  }

  lemma LastAboutSnoc(rs: seq<Request>, r: Request, k: Key)
    ensures LastAbout(rs + [r], k) == if r.key == k then Some(r) else LastAbout(rs, k)
  {
    assert (rs + [r])[..|rs|] == rs;
  }

  lemma {:induction false} LastAboutConcat(a: seq<Request>, b: seq<Request>, k: Key)
    ensures LastAbout(a + b, k) == if LastAbout(b, k).Some? then LastAbout(b, k) else LastAbout(a, k)
  {
    if b == [] {
      assert a + b == a;
    } else {
      LastAboutConcat(a, b[..|b| - 1], k);
      assert (a + b)[..|a + b| - 1] == a + b[..|b| - 1];
    }
  }

  /** The last request about `k` has a position, and nothing about `k` comes after it. */
  lemma {:induction false} LastAboutAt(rs: seq<Request>, k: Key) returns (i: int)
    ensures LastAbout(rs, k).None? ==> i == -1 && forall r :: r in rs ==> r.key != k
    ensures LastAbout(rs, k).Some? ==> 0 <= i < |rs| && LastAbout(rs, k) == Some(rs[i]) && rs[i].key == k
    ensures forall j :: i < j < |rs| ==> rs[j].key != k
  {
    i := -1;
    if rs != [] {
      if rs[|rs| - 1].key == k { i := |rs| - 1; } else { i := LastAboutAt(rs[..|rs| - 1], k); }
    }
  }

  // ---------------------------------------------------------------- the invariant

  ghost predicate Ascending(rs: seq<Request>) {
    forall i, j :: 0 <= i < j < |rs| ==> rs[i].sequence < rs[j].sequence
  }

  /** What is found in place of `said`: that, or nothing once a deadline has passed. */
  ghost predicate Shows(found: Option<Copy>, said: Option<Copy>) {
    found == said || (found.None? && !said.value.lasting)
  }

  /** Sent in ascending order for keys with these roles; every request is pending, handled or lost, exactly once. */
  ghost predicate LinkOk(pl: Roles, l: Link, p: NodeId, t: NodeId, counter: nat) {
    && (forall r :: r in l.sent ==>
          IsPrimary(pl, p, r.key) && t in pl.secondaries(r.key) && r.source == p && r.sequence <= counter)
    && Ascending(l.sent)
    && multiset(l.sent) == multiset(l.pending) + multiset(l.handled) + multiset(l.lost)
  }

  lemma LinkOkSend(pl: Roles, l: Link, p: NodeId, t: NodeId, counter: nat, r: Request)
    requires LinkOk(pl, l, p, t, counter) && r.sequence == counter + 1 && r.source == p
    requires IsPrimary(pl, p, r.key) && t in pl.secondaries(r.key)
    ensures LinkOk(pl, Send(l, r), p, t, counter + 1)
  {
    assert forall i :: 0 <= i < |l.sent| ==> l.sent[i] in l.sent;
  }

  lemma RemoveAtCounts<T>(q: seq<T>, i: nat)
    requires i < |q|
    ensures multiset(q) == multiset(RemoveAt(q, i)) + multiset{q[i]}
  {
    assert q == q[..i] + [q[i]] + q[i + 1..];
  }

  lemma LinkOkArrive(pl: Roles, l: Link, p: NodeId, t: NodeId, counter: nat, i: nat)
    requires LinkOk(pl, l, p, t, counter) && i < |l.pending|
    ensures LinkOk(pl, Handle(l, i), p, t, counter) && LinkOk(pl, Forget(l, i), p, t, counter)
    ensures l.pending[i] in l.sent
  {
    RemoveAtCounts(l.pending, i);
    assert l.pending[i] in multiset(l.sent);
  }

  ghost predicate ChannelOk(pl: Roles, s: System, p: NodeId, t: NodeId) {
    LinkOk(pl, LinkOf(s, p, t), p, t, Counter(s, p))
  }

  /** The primary shows its last write of the key, the secondary the last request it handled about it. */
  ghost predicate KeyOk(pl: Roles, s: System, p: NodeId, t: NodeId, k: Key) {
    IsPrimary(pl, p, k) && t in pl.secondaries(k) ==>
      && Shows(Look(Store(s, p), k), Latest(s, p, k))
      && Shows(Look(Store(s, t), k), Said(LinkOf(s, p, t).handled, k))
  }

  /** Only a key's primary has writes of it to announce. */
  ghost predicate NotesOk(pl: Roles, s: System, p: NodeId) {
    forall note :: note in Unsent(s, p) || note in Renewing(s, p) ==> IsPrimary(pl, p, note.key)
  }

  ghost predicate Inv(pl: Roles, s: System) {
    && (forall p :: NotesOk(pl, s, p))
    && (forall p, t :: ChannelOk(pl, s, p, t))
    && (forall p, t, k :: KeyOk(pl, s, p, t, k))
  }

  lemma PutLook(s: System, p: NodeId, k: Key, e: Effect, n: NodeId, j: Key)
    ensures var s' := PutLocal(s, p, k, e);
            && Look(Store(s', n), j) == (if n == p && j == k then Outcome(e) else Look(Store(s, n), j))
            && Latest(s', n, j) == if n == p && j == k then Outcome(e) else Latest(s, n, j)
  {
  }

  lemma PutKeepsKeys(pl: Roles, s: System, p: NodeId, k: Key, e: Effect, a: NodeId, t: NodeId, j: Key)
    requires ValidRoles(pl) && IsPrimary(pl, p, k) && KeyOk(pl, s, a, t, j)
    ensures KeyOk(pl, PutLocal(s, p, k, e), a, t, j)
  {
    PutLook(s, p, k, e, a, j);
    PutLook(s, p, k, e, t, j);
  }

  /** Nothing but stores, links and last writes matters to a key's two ends. */
  lemma SameKey(pl: Roles, s: System, s': System, a: NodeId, t: NodeId, j: Key)
    requires KeyOk(pl, s, a, t, j) && s'.stores == s.stores && s'.links == s.links && s'.latest == s.latest
    ensures KeyOk(pl, s', a, t, j)
  {
  }

  function LinkAfterSend(pl: Roles, s: System, p: NodeId, k: Key, e: Effect, a: NodeId, t: NodeId): Link {
    var l := LinkOf(s, a, t);
    if a == p && t in pl.secondaries(k) then Send(l, Request(k, e, Counter(s, p) + 1, p)) else l
  }

  lemma BroadcastLinks(pl: Roles, s: System, p: NodeId, k: Key, e: Effect, a: NodeId, t: NodeId)
    ensures LinkOf(Broadcast(pl, s, p, k, e), a, t) == LinkAfterSend(pl, s, p, k, e, a, t)
  {
  }

  lemma AnnounceLinks(pl: Roles, s: System, p: NodeId, i: nat, a: NodeId, t: NodeId)
    requires i < |Unsent(s, p)|
    ensures var note := Unsent(s, p)[i];
            LinkOf(DoAnnounce(pl, s, p, i), a, t) == LinkAfterSend(pl, s, p, note.key, note.effect, a, t)
  {
    BroadcastLinks(pl, DropUnsent(s, p, i), p, Unsent(s, p)[i].key, Unsent(s, p)[i].effect, a, t);
  }

  lemma AnnounceEffect(pl: Roles, s: System, p: NodeId, i: nat, a: NodeId)
    requires i < |Unsent(s, p)|
    ensures var note, s' := Unsent(s, p)[i], DoAnnounce(pl, s, p, i);
            && s'.stores == s.stores && s'.latest == s.latest && s'.skipped == s.skipped
            && Renewing(s', a) == Renewing(s, a)
            && Counter(s', a) == Counter(s, a) + (if a == p && pl.secondaries(note.key) != [] then 1 else 0)
            && Unsent(s', a) == if a == p then RemoveAt(Unsent(s, p), i) else Unsent(s, a)
  {
  }

  lemma LinkOkLater(pl: Roles, l: Link, p: NodeId, t: NodeId, counter: nat, later: nat)
    requires LinkOk(pl, l, p, t, counter) && counter <= later
    ensures LinkOk(pl, l, p, t, later)
  {
  }

  /** The channel gained one request. */
  lemma SentChannel(pl: Roles, s: System, s': System, p: NodeId, t: NodeId, r: Request)
    requires ChannelOk(pl, s, p, t) && LinkOf(s', p, t) == Send(LinkOf(s, p, t), r)
    requires Counter(s', p) == Counter(s, p) + 1
    requires r.sequence == Counter(s, p) + 1 && r.source == p && IsPrimary(pl, p, r.key) && t in pl.secondaries(r.key)
    ensures ChannelOk(pl, s', p, t)
  {
    LinkOkSend(pl, LinkOf(s, p, t), p, t, Counter(s, p), r);
  }

  lemma KeptChannel(pl: Roles, s: System, s': System, a: NodeId, t: NodeId)
    requires ChannelOk(pl, s, a, t) && LinkOf(s', a, t) == LinkOf(s, a, t) && Counter(s', a) >= Counter(s, a)
    ensures ChannelOk(pl, s', a, t)
  {
    LinkOkLater(pl, LinkOf(s, a, t), a, t, Counter(s, a), Counter(s', a));
  }

  /** `s'` is `s` after `p` announced `note`, as far as the channel from `a` to `t` goes. */
  lemma AnnouncedChannel(pl: Roles, s: System, s': System, p: NodeId, note: Note, a: NodeId, t: NodeId)
    requires IsPrimary(pl, p, note.key) && ChannelOk(pl, s, a, t)
    requires LinkOf(s', a, t) == LinkAfterSend(pl, s, p, note.key, note.effect, a, t)
    requires Counter(s', a) == Counter(s, a) + if a == p && pl.secondaries(note.key) != [] then 1 else 0
    ensures ChannelOk(pl, s', a, t)
  {
    if a == p && t in pl.secondaries(note.key) {
      SentChannel(pl, s, s', p, t, Request(note.key, note.effect, Counter(s, p) + 1, p));
    } else {
      KeptChannel(pl, s, s', a, t);
    }
  }

  lemma AnnounceKeepsChannels(pl: Roles, s: System, p: NodeId, i: nat, a: NodeId, t: NodeId)
    requires i < |Unsent(s, p)| && IsPrimary(pl, p, Unsent(s, p)[i].key) && ChannelOk(pl, s, a, t)
    ensures ChannelOk(pl, DoAnnounce(pl, s, p, i), a, t)
  {
    AnnounceLinks(pl, s, p, i, a, t);
    AnnounceEffect(pl, s, p, i, a);
    AnnouncedChannel(pl, s, DoAnnounce(pl, s, p, i), p, Unsent(s, p)[i], a, t);
  }

  lemma PendingRoles(pl: Roles, s: System, p: NodeId, t: NodeId, i: nat)
    requires i < |LinkOf(s, p, t).pending| && ChannelOk(pl, s, p, t)
    ensures var r := LinkOf(s, p, t).pending[i]; IsPrimary(pl, p, r.key) && t in pl.secondaries(r.key)
  {
    LinkOkArrive(pl, LinkOf(s, p, t), p, t, Counter(s, p), i);
  }

  lemma DeliverLook(s: System, p: NodeId, t: NodeId, i: nat, n: NodeId, k: Key)
    requires i < |LinkOf(s, p, t).pending|
    ensures var r := LinkOf(s, p, t).pending[i];
            Look(Store(DoDeliver(s, p, t, i), n), k)
            == if n == t && r.key == k then Outcome(r.effect) else Look(Store(s, n), k)
  {
  }

  lemma DeliverLinks(s: System, p: NodeId, t: NodeId, i: nat, a: NodeId, b: NodeId)
    requires i < |LinkOf(s, p, t).pending|
    ensures LinkOf(DoDeliver(s, p, t, i), a, b)
            == if (a, b) == (p, t) then Handle(LinkOf(s, p, t), i) else LinkOf(s, a, b)
  {
  }

  lemma DeliverKeepsKeys(pl: Roles, s: System, p: NodeId, t: NodeId, i: nat, a: NodeId, b: NodeId, k: Key)
    requires ValidRoles(pl) && i < |LinkOf(s, p, t).pending| && KeyOk(pl, s, a, b, k)
    requires var r := LinkOf(s, p, t).pending[i]; IsPrimary(pl, p, r.key) && t in pl.secondaries(r.key)
    ensures KeyOk(pl, DoDeliver(s, p, t, i), a, b, k)
  {
    LastAboutSnoc(LinkOf(s, p, t).handled, LinkOf(s, p, t).pending[i], k);
    DeliverLinks(s, p, t, i, a, b);
    DeliverLook(s, p, t, i, a, k);
    DeliverLook(s, p, t, i, b, k);
  }

  lemma LoseKeepsKeys(pl: Roles, s: System, p: NodeId, t: NodeId, i: nat, a: NodeId, b: NodeId, k: Key)
    requires i < |LinkOf(s, p, t).pending| && KeyOk(pl, s, a, b, k)
    ensures KeyOk(pl, DoLose(s, p, t, i), a, b, k)
  {
    var s' := DoLose(s, p, t, i);
    assert LinkOf(s', a, b) == if (a, b) == (p, t) then Forget(LinkOf(s, p, t), i) else LinkOf(s, a, b);
  }

  lemma LapseKeepsKeys(pl: Roles, s: System, n: NodeId, j: Key, a: NodeId, b: NodeId, k: Key)
    requires Enabled(pl, s, Lapse(n, j)) && KeyOk(pl, s, a, b, k)
    ensures KeyOk(pl, Next(pl, s, Lapse(n, j)), a, b, k)
  {
  }

  lemma RemoveAtMembers<T>(q: seq<T>, i: nat)
    requires i < |q|
    ensures q[i] in q && forall x :: x in RemoveAt(q, i) ==> x in q
  {
  }

  lemma ReadBackKeepsRest(s: System, p: NodeId, i: nat)
    requires i < |Renewing(s, p)|
    ensures var s' := DoReadBack(s, p, i);
            s'.stores == s.stores && s'.latest == s.latest && s'.links == s.links && s'.counters == s.counters
  {
  }

  lemma ReadBackNotes(s: System, p: NodeId, i: nat, a: NodeId)
    requires i < |Renewing(s, p)|
    ensures var s' := DoReadBack(s, p, i);
            Renewing(s', a) == if a == p then RemoveAt(Renewing(s, p), i) else Renewing(s, a)
    ensures a != p ==> Unsent(DoReadBack(s, p, i), a) == Unsent(s, a)
  {
  }

  lemma ReadBackUnsent(s: System, p: NodeId, i: nat)
    requires i < |Renewing(s, p)|
    ensures var note, s' := Renewing(s, p)[i], DoReadBack(s, p, i);
            if note.key in Store(s, p)
            then Unsent(s', p) == Unsent(s, p) + [Renewal(Store(s, p)[note.key].value, note)] && s'.skipped == s.skipped
            else Unsent(s', p) == Unsent(s, p) && s'.skipped == s.skipped + {(p, note.key)}
  {
  }

  lemma ReadBackKeepsNotes(pl: Roles, s: System, p: NodeId, i: nat, a: NodeId)
    requires i < |Renewing(s, p)| && NotesOk(pl, s, a)
    ensures NotesOk(pl, DoReadBack(s, p, i), a)
  {
    ReadBackNotes(s, p, i, a);
    ReadBackUnsent(s, p, i);
    RemoveAtMembers(Renewing(s, p), i);
  }

  lemma AnnounceKeepsNotes(pl: Roles, s: System, p: NodeId, i: nat, a: NodeId)
    requires i < |Unsent(s, p)| && NotesOk(pl, s, a)
    ensures NotesOk(pl, DoAnnounce(pl, s, p, i), a)
  {
    AnnounceEffect(pl, s, p, i, a);
    RemoveAtMembers(Unsent(s, p), i);
  }

  lemma StepKeepsNotes(pl: Roles, s: System, st: Step, a: NodeId)
    requires Enabled(pl, s, st) && NotesOk(pl, s, a)
    ensures NotesOk(pl, Next(pl, s, st), a)
  {
    match st
    case ReadBack(p, i) => ReadBackKeepsNotes(pl, s, p, i, a);
    case Announce(p, i) => AnnounceKeepsNotes(pl, s, p, i, a);
    case _ =>
  }

  lemma LoseLinks(s: System, p: NodeId, t: NodeId, i: nat, a: NodeId, b: NodeId)
    requires i < |LinkOf(s, p, t).pending|
    ensures LinkOf(DoLose(s, p, t, i), a, b)
            == if (a, b) == (p, t) then Forget(LinkOf(s, p, t), i) else LinkOf(s, a, b)
  {
  }

  lemma ArrivedChannel(pl: Roles, s: System, s': System, p: NodeId, t: NodeId, i: nat)
    requires ChannelOk(pl, s, p, t) && i < |LinkOf(s, p, t).pending| && Counter(s', p) == Counter(s, p)
    requires LinkOf(s', p, t) == Handle(LinkOf(s, p, t), i) || LinkOf(s', p, t) == Forget(LinkOf(s, p, t), i)
    ensures ChannelOk(pl, s', p, t)
  {
    LinkOkArrive(pl, LinkOf(s, p, t), p, t, Counter(s, p), i);
  }

  lemma ArriveKeepsChannels(pl: Roles, s: System, st: Step, a: NodeId, b: NodeId)
    requires (st.Deliver? || st.Lose?) && Enabled(pl, s, st) && ChannelOk(pl, s, a, b)
    ensures ChannelOk(pl, Next(pl, s, st), a, b)
  {
    if st.Deliver? {
      DeliverLinks(s, st.source, st.target, st.index, a, b);
    } else {
      LoseLinks(s, st.source, st.target, st.index, a, b);
    }
    if (a, b) == (st.source, st.target) {
      ArrivedChannel(pl, s, Next(pl, s, st), a, b, st.index);
    } else {
      KeptChannel(pl, s, Next(pl, s, st), a, b);
    }
  }

  /** These steps touch no link and no counter. */
  predicate Local(st: Step) { st.Write? || st.Expire? || st.ReadBack? || st.Lapse? }

  lemma WriteKeepsLinks(s: System, p: NodeId, k: Key, e: Effect)
    ensures DoWrite(s, p, k, e).links == s.links && DoWrite(s, p, k, e).counters == s.counters
    ensures DoWrite(s, p, k, e).skipped == s.skipped
  {
  }

  lemma ExpireKeepsLinks(s: System, p: NodeId, k: Key, ttl: int)
    ensures DoExpire(s, p, k, ttl).links == s.links && DoExpire(s, p, k, ttl).counters == s.counters
    ensures DoExpire(s, p, k, ttl).skipped == s.skipped
  {
  }

  lemma LocalKeepsLinks(pl: Roles, s: System, st: Step)
    requires Local(st) && Enabled(pl, s, st)
    ensures Next(pl, s, st).links == s.links && Next(pl, s, st).counters == s.counters
  {
    match st
    case Write(p, k, e) => WriteKeepsLinks(s, p, k, e);
    case Expire(p, k, ttl) => ExpireKeepsLinks(s, p, k, ttl);
    case ReadBack(p, i) => ReadBackKeepsRest(s, p, i);
    case Lapse(_, _) =>
  }

  lemma StepKeepsChannels(pl: Roles, s: System, st: Step, a: NodeId, b: NodeId)
    requires Enabled(pl, s, st) && ChannelOk(pl, s, a, b) && (st.Announce? ==> NotesOk(pl, s, st.at))
    ensures ChannelOk(pl, Next(pl, s, st), a, b)
  {
    if st.Announce? {
      assert Unsent(s, st.at)[st.index] in Unsent(s, st.at);
      AnnounceKeepsChannels(pl, s, st.at, st.index, a, b);
    } else if st.Deliver? || st.Lose? {
      ArriveKeepsChannels(pl, s, st, a, b);
    } else {
      LocalKeepsLinks(pl, s, st);
      KeptChannel(pl, s, Next(pl, s, st), a, b);
    }
  }

  lemma WriteKeepsKeys(pl: Roles, s: System, st: Step, a: NodeId, b: NodeId, j: Key)
    requires ValidRoles(pl) && (st.Write? || st.Expire?) && Enabled(pl, s, st) && KeyOk(pl, s, a, b, j)
    ensures KeyOk(pl, Next(pl, s, st), a, b, j)
  {
    var s' := Next(pl, s, st);
    if st.Write? {
      PutKeepsKeys(pl, s, st.at, st.key, st.effect, a, b, j);
      SameKey(pl, PutLocal(s, st.at, st.key, st.effect), s', a, b, j);
    } else if st.key in Store(s, st.at) {
      var e := Put(Store(s, st.at)[st.key].value, st.ttlMs);
      PutKeepsKeys(pl, s, st.at, st.key, e, a, b, j);
      SameKey(pl, PutLocal(s, st.at, st.key, e), s', a, b, j);
    }
  }

  lemma AnnounceKeepsKeys(pl: Roles, s: System, p: NodeId, i: nat, a: NodeId, b: NodeId, j: Key)
    requires i < |Unsent(s, p)| && KeyOk(pl, s, a, b, j)
    ensures KeyOk(pl, DoAnnounce(pl, s, p, i), a, b, j)
  {
    AnnounceEffect(pl, s, p, i, a);
    AnnounceLinks(pl, s, p, i, a, b);
  }

  lemma StepKeepsKeys(pl: Roles, s: System, st: Step, a: NodeId, b: NodeId, j: Key)
    requires ValidRoles(pl) && Enabled(pl, s, st) && KeyOk(pl, s, a, b, j)
    requires st.Deliver? ==> ChannelOk(pl, s, st.source, st.target)
    ensures KeyOk(pl, Next(pl, s, st), a, b, j)
  {
    match st
    case Write(_, _, _) => WriteKeepsKeys(pl, s, st, a, b, j);
    case Expire(_, _, _) => WriteKeepsKeys(pl, s, st, a, b, j);
    case ReadBack(p, i) =>
      ReadBackKeepsRest(s, p, i);
      SameKey(pl, s, Next(pl, s, st), a, b, j);
    case Announce(p, i) => AnnounceKeepsKeys(pl, s, p, i, a, b, j);
    case Deliver(p, t, i) =>
      PendingRoles(pl, s, p, t, i);
      DeliverKeepsKeys(pl, s, p, t, i, a, b, j);
    case Lose(p, t, i) => LoseKeepsKeys(pl, s, p, t, i, a, b, j);
    case Lapse(n, k) => LapseKeepsKeys(pl, s, n, k, a, b, j);
  }

  lemma StepKeepsInv(pl: Roles, s: System, st: Step)
    requires ValidRoles(pl) && Inv(pl, s) && Enabled(pl, s, st)
    ensures Inv(pl, Next(pl, s, st))
  {
    forall a ensures NotesOk(pl, Next(pl, s, st), a) {
      assert NotesOk(pl, s, a);
      StepKeepsNotes(pl, s, st, a);
    }
    forall a, b ensures ChannelOk(pl, Next(pl, s, st), a, b) {
      assert ChannelOk(pl, s, a, b);
      if st.Announce? { assert NotesOk(pl, s, st.at); }
      StepKeepsChannels(pl, s, st, a, b);
    }
    forall a, b, j ensures KeyOk(pl, Next(pl, s, st), a, b, j) {
      assert KeyOk(pl, s, a, b, j);
      if st.Deliver? { assert ChannelOk(pl, s, st.source, st.target); }
      StepKeepsKeys(pl, s, st, a, b, j);
    }
  }

  // ---------------------------------------------------------------- runs

  ghost predicate IsRun(pl: Roles, run: seq<Step>, states: seq<System>) {
    && |states| == |run| + 1 && states[0] == EMPTY
    && forall i :: 0 <= i < |run| ==> Enabled(pl, states[i], run[i]) && states[i + 1] == Next(pl, states[i], run[i])
  }

  lemma {:induction false} RunKeepsInv(pl: Roles, run: seq<Step>, states: seq<System>)
    requires ValidRoles(pl) && IsRun(pl, run, states)
    ensures Inv(pl, states[|run|])
  {
    if run != [] {
      var n := |run| - 1;
      RunKeepsInv(pl, run[..n], states[..n + 1]);
      StepKeepsInv(pl, states[n], run[n]);
    }
  }

  /** A run, and the two ends of one of its replicated keys. */
  ghost predicate Replicates(pl: Roles, run: seq<Step>, states: seq<System>, p: NodeId, t: NodeId, k: Key) {
    ValidRoles(pl) && IsRun(pl, run, states) && IsPrimary(pl, p, k) && t in pl.secondaries(k)
  }

  lemma EndsAreOk(pl: Roles, run: seq<Step>, states: seq<System>, p: NodeId, t: NodeId, k: Key)
    requires Replicates(pl, run, states, p, t, k)
    ensures ChannelOk(pl, states[|run|], p, t) && KeyOk(pl, states[|run|], p, t, k)
  {
    RunKeepsInv(pl, run, states);
  }

  // ---------------------------------------------------------------- when the two ends agree

  /** A lasting copy on either side is on both sides, and two present copies never differ in value. */
  ghost predicate Agree(a: Option<Copy>, b: Option<Copy>) {
    && (a.Some? && a.value.lasting ==> b == a)
    && (b.Some? && b.value.lasting ==> a == b)
    && (a.Some? && b.Some? ==> a.value.value == b.value.value)
  }

  predicate Lasting(c: Option<Copy>) { c.Some? && c.value.lasting }

  lemma ShownAgreeIff(a: Option<Copy>, b: Option<Copy>, x: Option<Copy>, y: Option<Copy>)
    requires Shows(a, x) && Shows(b, y)
    ensures Agree(a, b) <==> Agree(x, y) || (!Lasting(x) && !Lasting(y) && (a.None? || b.None?))
  {
  }

  /**
   * At every moment of every run, secondary and primary agree about a key exactly when the last request the secondary
   * handled about it says what the primary's last write says, or both differ only in copies with deadlines, one of
   * which has passed.
   */
  lemma AgreementIff(pl: Roles, run: seq<Step>, states: seq<System>, p: NodeId, t: NodeId, k: Key)
    requires Replicates(pl, run, states, p, t, k)
    ensures var s := states[|run|];
            var written, handled := Latest(s, p, k), Said(LinkOf(s, p, t).handled, k);
            var here, there := Look(Store(s, p), k), Look(Store(s, t), k);
            Agree(here, there)
            <==> Agree(written, handled)
                 || (!Lasting(written) && !Lasting(handled) && (here.None? || there.None?))
  {
    EndsAreOk(pl, run, states, p, t, k);
    var s := states[|run|];
    ShownAgreeIff(Look(Store(s, p), k), Look(Store(s, t), k), Latest(s, p, k), Said(LinkOf(s, p, t).handled, k));
  }

  // ---------------------------------------------------------------- writes that do not overlap

  function NotesAbout(notes: seq<Note>, k: Key): seq<Note> {
    if notes == [] then []
    else
      var r := NotesAbout(notes[..|notes| - 1], k);
      if notes[|notes| - 1].key == k then r + [notes[|notes| - 1]] else r
  }

  lemma NotesAboutSnoc(notes: seq<Note>, z: Note, k: Key)
    ensures NotesAbout(notes + [z], k) == NotesAbout(notes, k) + if z.key == k then [z] else []
  {
    assert (notes + [z])[..|notes|] == notes;
  }

  lemma {:induction false} NotesAboutConcat(a: seq<Note>, b: seq<Note>, k: Key)
    ensures NotesAbout(a + b, k) == NotesAbout(a, k) + NotesAbout(b, k)
  {
    if b == [] {
      assert a + b == a;
    } else {
      NotesAboutConcat(a, b[..|b| - 1], k);
      assert (a + b)[..|a + b| - 1] == a + b[..|b| - 1];
    }
  }

  lemma NotesAboutRemoved(notes: seq<Note>, i: nat, k: Key)
    requires i < |notes|
    ensures notes[i].key != k ==> NotesAbout(RemoveAt(notes, i), k) == NotesAbout(notes, k)
    ensures notes[i].key == k && |NotesAbout(notes, k)| <= 1 ==>
              NotesAbout(notes, k) == [notes[i]] && NotesAbout(RemoveAt(notes, i), k) == []
  {
    assert notes == notes[..i + 1] + notes[i + 1..] && notes[..i + 1] == notes[..i] + [notes[i]];
    NotesAboutConcat(notes[..i + 1], notes[i + 1..], k);
    NotesAboutConcat(notes[..i], notes[i + 1..], k);
    NotesAboutSnoc(notes[..i], notes[i], k);
  }

  /** At most one write of `k` is on its way from store to announcement. */
  ghost predicate AtMostOne(renewing: seq<Note>, unsent: seq<Note>, k: Key) {
    |NotesAbout(renewing, k)| + |NotesAbout(unsent, k)| <= 1
  }

  /** `latest` is what that write says, or the last request sent if there is none. */
  ghost predicate Known(latest: Option<Copy>, renewing: seq<Note>, unsent: seq<Note>, sent: seq<Request>, k: Key) {
    var r, u := NotesAbout(renewing, k), NotesAbout(unsent, k);
    if r != [] then r[0].effect.Put? && latest == Outcome(r[0].effect)
    else latest == if u != [] then Outcome(u[0].effect) else Said(sent, k)
  }

  /** A new write joins either list. */
  lemma KnownPut(latest: Option<Copy>, r: seq<Note>, u: seq<Note>, sent: seq<Request>, k: Key, z: Note)
    requires Known(latest, r, u, sent, k)
    ensures z.key != k ==> Known(latest, r, u + [z], sent, k) && Known(latest, r + [z], u, sent, k)
    ensures z.key == k && AtMostOne(r, u + [z], k) ==> Known(Outcome(z.effect), r, u + [z], sent, k)
    ensures z.key == k && AtMostOne(r + [z], u, k) && z.effect.Put? ==> Known(Outcome(z.effect), r + [z], u, sent, k)
  {
    NotesAboutSnoc(u, z, k);
    NotesAboutSnoc(r, z, k);
  }

  /** A write is announced. */
  lemma KnownAnnounce(latest: Option<Copy>, r: seq<Note>, u: seq<Note>, sent: seq<Request>, k: Key, i: nat, q: Request)
    requires Known(latest, r, u, sent, k) && AtMostOne(r, u, k)
    requires i < |u| && q.key == u[i].key && q.effect == u[i].effect
    ensures Known(latest, r, RemoveAt(u, i), sent + [q], k)
    ensures q.key != k ==> Known(latest, r, RemoveAt(u, i), sent, k)
  {
    NotesAboutRemoved(u, i, k);
    LastAboutSnoc(sent, q, k);
  }

  /** An Expire reads its value back; `found` is the primary's copy then. */
  lemma KnownReadBack(latest: Option<Copy>, r: seq<Note>, u: seq<Note>, sent: seq<Request>, k: Key, i: nat, found: Copy)
    requires Known(latest, r, u, sent, k) && AtMostOne(r, u, k) && i < |r|
    requires r[i].key == k ==> Shows(Some(found), latest)
    ensures Known(latest, RemoveAt(r, i), u + [Renewal(found.value, r[i])], sent, k)
  {
    NotesAboutRemoved(r, i, k);
    NotesAboutSnoc(u, Renewal(found.value, r[i]), k);
  }

  lemma KnownSkip(latest: Option<Copy>, r: seq<Note>, u: seq<Note>, sent: seq<Request>, k: Key, i: nat)
    requires Known(latest, r, u, sent, k) && i < |r| && r[i].key != k
    ensures Known(latest, RemoveAt(r, i), u, sent, k)
  {
    NotesAboutRemoved(r, i, k);
  }

  /** No two writes of `k` at `p` were ever on their way from store to announcement at the same time. */
  ghost predicate Serial(states: seq<System>, p: NodeId, k: Key) {
    forall i :: 0 <= i < |states| ==> AtMostOne(Renewing(states[i], p), Unsent(states[i], p), k)
  }

  /** Unless an Expire of it found nothing to read back, the last write is on its way or the last one sent. */
  ghost predicate LatestIsKnown(s: System, p: NodeId, t: NodeId, k: Key) {
    (p, k) in s.skipped
    || Known(Latest(s, p, k), Renewing(s, p), Unsent(s, p), LinkOf(s, p, t).sent, k)
  }

  lemma KnownIn(s: System, p: NodeId, t: NodeId, k: Key, latest: Option<Copy>, r: seq<Note>, u: seq<Note>,
                sent: seq<Request>)
    requires Known(latest, r, u, sent, k)
    requires Latest(s, p, k) == latest && Renewing(s, p) == r && Unsent(s, p) == u && LinkOf(s, p, t).sent == sent
    ensures LatestIsKnown(s, p, t, k)
  {
  }

  lemma PutKnowsLatest(s: System, s': System, p: NodeId, t: NodeId, k: Key, z: Note)
    requires LatestIsKnown(s, p, t, k) && s'.skipped == s.skipped && LinkOf(s', p, t) == LinkOf(s, p, t)
    requires Latest(s', p, k) == if z.key == k then Outcome(z.effect) else Latest(s, p, k)
    requires || (Renewing(s', p) == Renewing(s, p) && Unsent(s', p) == Unsent(s, p) + [z])
             || (z.effect.Put? && Renewing(s', p) == Renewing(s, p) + [z] && Unsent(s', p) == Unsent(s, p))
    requires AtMostOne(Renewing(s', p), Unsent(s', p), k)
    ensures LatestIsKnown(s', p, t, k)
  {
    if (p, k) !in s.skipped {
      KnownPut(Latest(s, p, k), Renewing(s, p), Unsent(s, p), LinkOf(s, p, t).sent, k, z);
      KnownIn(s', p, t, k, Latest(s', p, k), Renewing(s', p), Unsent(s', p), LinkOf(s, p, t).sent);
    }
  }

  lemma SameLatest(s: System, s': System, p: NodeId, t: NodeId, k: Key)
    requires LatestIsKnown(s, p, t, k) && s.skipped <= s'.skipped && LinkOf(s', p, t).sent == LinkOf(s, p, t).sent
    requires Latest(s', p, k) == Latest(s, p, k)
    requires Renewing(s', p) == Renewing(s, p) && Unsent(s', p) == Unsent(s, p)
    ensures LatestIsKnown(s', p, t, k)
  {
  }

  /** Member `at` stored `z` and noted it, to announce or to read back first. */
  lemma NotedKnowsLatest(s: System, s': System, at: NodeId, z: Note, p: NodeId, t: NodeId, k: Key)
    requires LatestIsKnown(s, p, t, k) && s'.skipped == s.skipped && s'.links == s.links
    requires Latest(s', p, k) == if p == at && k == z.key then Outcome(z.effect) else Latest(s, p, k)
    requires || (Renewing(s', p) == Renewing(s, p) && Unsent(s', p) == Unsent(s, p) + if at == p then [z] else [])
             || (z.effect.Put? && Unsent(s', p) == Unsent(s, p)
                 && Renewing(s', p) == Renewing(s, p) + if at == p then [z] else [])
    requires AtMostOne(Renewing(s', p), Unsent(s', p), k)
    ensures LatestIsKnown(s', p, t, k)
  {
    if at == p {
      PutKnowsLatest(s, s', p, t, k, z);
    } else {
      assert Unsent(s, p) + [] == Unsent(s, p) && Renewing(s, p) + [] == Renewing(s, p);
      SameLatest(s, s', p, t, k);
    }
  }

  lemma PutLatest(s: System, at: NodeId, key: Key, e: Effect, p: NodeId, k: Key)
    ensures Latest(PutLocal(s, at, key, e), p, k) == if p == at && k == key then Outcome(e) else Latest(s, p, k)
    ensures Unsent(PutLocal(s, at, key, e), p) == Unsent(s, p) && Renewing(PutLocal(s, at, key, e), p) == Renewing(s, p)
  {
  }

  lemma WriteKnowsLatest(s: System, at: NodeId, key: Key, e: Effect, p: NodeId, t: NodeId, k: Key)
    requires LatestIsKnown(s, p, t, k)
    requires AtMostOne(Renewing(DoWrite(s, at, key, e), p), Unsent(DoWrite(s, at, key, e), p), k)
    ensures LatestIsKnown(DoWrite(s, at, key, e), p, t, k)
  {
    WriteKeepsLinks(s, at, key, e);
    PutLatest(s, at, key, e, p, k);
    PutLatest(s, at, key, e, at, k);
    NotedKnowsLatest(s, DoWrite(s, at, key, e), at, Note(key, e), p, t, k);
  }

  lemma ExpireKnowsLatest(s: System, at: NodeId, key: Key, ttl: int, p: NodeId, t: NodeId, k: Key)
    requires LatestIsKnown(s, p, t, k)
    requires AtMostOne(Renewing(DoExpire(s, at, key, ttl), p), Unsent(DoExpire(s, at, key, ttl), p), k)
    ensures LatestIsKnown(DoExpire(s, at, key, ttl), p, t, k)
  {
    if key in Store(s, at) {
      var e := Put(Store(s, at)[key].value, ttl);
      ExpireKeepsLinks(s, at, key, ttl);
      PutLatest(s, at, key, e, p, k);
      PutLatest(s, at, key, e, at, k);
      NotedKnowsLatest(s, DoExpire(s, at, key, ttl), at, Note(key, e), p, t, k);
    }
  }

  lemma ReadBackKnowsLatest(pl: Roles, s: System, st: Step, p: NodeId, t: NodeId, k: Key)
    requires st.ReadBack? && Enabled(pl, s, st) && LatestIsKnown(s, p, t, k)
    requires Shows(Look(Store(s, p), k), Latest(s, p, k)) && AtMostOne(Renewing(s, p), Unsent(s, p), k)
    ensures LatestIsKnown(Next(pl, s, st), p, t, k)
  {
    var s', r, u := Next(pl, s, st), Renewing(s, p), Unsent(s, p);
    ReadBackKeepsRest(s, st.at, st.index);
    ReadBackNotes(s, st.at, st.index, p);
    ReadBackUnsent(s, st.at, st.index);
    if st.at != p {
      SameLatest(s, s', p, t, k);
    } else if (p, k) !in s'.skipped {
      if r[st.index].key in Store(s, p) {
        KnownReadBack(Latest(s, p, k), r, u, LinkOf(s, p, t).sent, k, st.index, Store(s, p)[r[st.index].key]);
      } else {
        KnownSkip(Latest(s, p, k), r, u, LinkOf(s, p, t).sent, k, st.index);
      }
      KnownIn(s', p, t, k, Latest(s, p, k), Renewing(s', p), Unsent(s', p), LinkOf(s, p, t).sent);
    }
  }

  lemma AnnouncedKnowsLatest(s: System, s': System, p: NodeId, i: nat, t: NodeId, k: Key, q: Request)
    requires LatestIsKnown(s, p, t, k) && AtMostOne(Renewing(s, p), Unsent(s, p), k) && s'.skipped == s.skipped
    requires i < |Unsent(s, p)| && q.key == Unsent(s, p)[i].key && q.effect == Unsent(s, p)[i].effect
    requires Latest(s', p, k) == Latest(s, p, k) && Renewing(s', p) == Renewing(s, p)
    requires Unsent(s', p) == RemoveAt(Unsent(s, p), i)
    requires || LinkOf(s', p, t).sent == LinkOf(s, p, t).sent + [q]
             || (q.key != k && LinkOf(s', p, t).sent == LinkOf(s, p, t).sent)
    ensures LatestIsKnown(s', p, t, k)
  {
    if (p, k) !in s.skipped {
      KnownAnnounce(Latest(s, p, k), Renewing(s, p), Unsent(s, p), LinkOf(s, p, t).sent, k, i, q);
      KnownIn(s', p, t, k, Latest(s, p, k), Renewing(s, p), Unsent(s', p), LinkOf(s', p, t).sent);
    }
  }

  /** `s'` is `s` after `a` announced its note `i`, as far as `p` and its link to `t` go. */
  lemma EitherKnowsLatest(pl: Roles, s: System, s': System, a: NodeId, i: nat, p: NodeId, t: NodeId, k: Key)
    requires i < |Unsent(s, a)| && LatestIsKnown(s, p, t, k) && t in pl.secondaries(k)
    requires AtMostOne(Renewing(s, p), Unsent(s, p), k)
    requires s'.latest == s.latest && s'.skipped == s.skipped && Renewing(s', p) == Renewing(s, p)
    requires Unsent(s', p) == if p == a then RemoveAt(Unsent(s, a), i) else Unsent(s, p)
    requires LinkOf(s', p, t) == LinkAfterSend(pl, s, a, Unsent(s, a)[i].key, Unsent(s, a)[i].effect, p, t)
    ensures LatestIsKnown(s', p, t, k)
  {
    if a != p {
      SameLatest(s, s', p, t, k);
    } else {
      var note := Unsent(s, p)[i];
      AnnouncedKnowsLatest(s, s', p, i, t, k, Request(note.key, note.effect, Counter(s, p) + 1, p));
    }
  }

  lemma AnnounceKnowsLatest(pl: Roles, s: System, a: NodeId, i: nat, p: NodeId, t: NodeId, k: Key)
    requires i < |Unsent(s, a)| && LatestIsKnown(s, p, t, k) && t in pl.secondaries(k)
    requires AtMostOne(Renewing(s, p), Unsent(s, p), k)
    ensures LatestIsKnown(DoAnnounce(pl, s, a, i), p, t, k)
  {
    AnnounceEffect(pl, s, a, i, p);
    AnnounceLinks(pl, s, a, i, p, t);
    EitherKnowsLatest(pl, s, DoAnnounce(pl, s, a, i), a, i, p, t, k);
  }

  lemma ArriveKnowsLatest(pl: Roles, s: System, st: Step, p: NodeId, t: NodeId, k: Key)
    requires (st.Deliver? || st.Lose? || st.Lapse?) && Enabled(pl, s, st) && LatestIsKnown(s, p, t, k)
    ensures LatestIsKnown(Next(pl, s, st), p, t, k)
  {
    if st.Deliver? { DeliverLinks(s, st.source, st.target, st.index, p, t); }
    if st.Lose? { LoseLinks(s, st.source, st.target, st.index, p, t); }
    SameLatest(s, Next(pl, s, st), p, t, k);
  }

  lemma StepKnowsLatest(pl: Roles, s: System, st: Step, p: NodeId, t: NodeId, k: Key)
    requires Enabled(pl, s, st) && LatestIsKnown(s, p, t, k) && t in pl.secondaries(k)
    requires Shows(Look(Store(s, p), k), Latest(s, p, k)) && AtMostOne(Renewing(s, p), Unsent(s, p), k)
    requires AtMostOne(Renewing(Next(pl, s, st), p), Unsent(Next(pl, s, st), p), k)
    ensures LatestIsKnown(Next(pl, s, st), p, t, k)
  {
    match st
    case Write(a, j, e) => WriteKnowsLatest(s, a, j, e, p, t, k);
    case Expire(a, j, ttl) => ExpireKnowsLatest(s, a, j, ttl, p, t, k);
    case ReadBack(_, _) => ReadBackKnowsLatest(pl, s, st, p, t, k);
    case Announce(a, i) => AnnounceKnowsLatest(pl, s, a, i, p, t, k);
    case _ => ArriveKnowsLatest(pl, s, st, p, t, k);
  }

  lemma {:induction false} RunKnowsLatest(pl: Roles, run: seq<Step>, states: seq<System>, p: NodeId, t: NodeId, k: Key)
    requires Replicates(pl, run, states, p, t, k) && Serial(states, p, k)
    ensures LatestIsKnown(states[|run|], p, t, k)
  {
    if run != [] {
      var n := |run| - 1;
      RunKnowsLatest(pl, run[..n], states[..n + 1], p, t, k);
      EndsAreOk(pl, run[..n], states[..n + 1], p, t, k);
      assert AtMostOne(Renewing(states[n + 1], p), Unsent(states[n + 1], p), k);
      StepKnowsLatest(pl, states[n], run[n], p, t, k);
    }
  }

  /** Writes of the key never overlapped at its primary, and all of them have been announced. */
  ghost predicate Announced(states: seq<System>, p: NodeId, k: Key) {
    && Serial(states, p, k) && states != []
    && var s := states[|states| - 1];
       NotesAbout(Renewing(s, p), k) == [] && NotesAbout(Unsent(s, p), k) == [] && (p, k) !in s.skipped
  }

  // ---------------------------------------------------------------- the order of handling

  /** `i` is the position of the last request about `k`. */
  ghost predicate LastAt(rs: seq<Request>, k: Key, i: nat) {
    i < |rs| && rs[i].key == k && forall j :: i < j < |rs| ==> rs[j].key != k
  }

  /** `i` is the position of the request about `k` with the highest sequence number. */
  ghost predicate NewestAt(rs: seq<Request>, k: Key, i: nat) {
    i < |rs| && rs[i].key == k && forall j :: 0 <= j < |rs| && rs[j].key == k ==> rs[j].sequence <= rs[i].sequence
  }

  lemma {:induction false} LastAtIsLast(rs: seq<Request>, k: Key, i: nat)
    requires LastAt(rs, k, i)
    ensures LastAbout(rs, k) == Some(rs[i])
  {
    var j := LastAboutAt(rs, k);
    assert rs[i] in rs;
  }

  lemma SameSequenceSameRequest(sent: seq<Request>, a: Request, b: Request)
    requires Ascending(sent) && a in sent && b in sent && a.sequence == b.sequence
    ensures a == b
  {
    var i :| 0 <= i < |sent| && sent[i] == a;
    var j :| 0 <= j < |sent| && sent[j] == b;
  }

  lemma LastSentIsNewest(sent: seq<Request>, k: Key, r: Request)
    requires Ascending(sent) && r in sent && r.key == k
    ensures LastAbout(sent, k).Some?
    ensures var z := LastAbout(sent, k).value; z in sent && z.key == k && r.sequence <= z.sequence
  {
    var j := LastAboutAt(sent, k);
    var i :| 0 <= i < |sent| && sent[i] == r;
  }

  /** When everything about `k` was handled, the newest handled request about it is the last one sent. */
  lemma NewestHandledIsLastSent(sent: seq<Request>, all: seq<Request>, lost: seq<Request>, k: Key, h: nat)
    requires Ascending(sent) && multiset(sent) == multiset(all) + multiset(lost) && forall r :: r in lost ==> r.key != k
    requires NewestAt(all, k, h)
    ensures LastAbout(sent, k) == Some(all[h])
  {
    assert all[h] in multiset(all) && all[h] in multiset(sent);
    LastSentIsNewest(sent, k, all[h]);
    var z := LastAbout(sent, k).value;
    assert z in multiset(sent) && z !in multiset(lost) && z in multiset(all);
    var j :| 0 <= j < |all| && all[j] == z;
    SameSequenceSameRequest(sent, all[h], z);
  }

  /** The channel is empty and nothing about `k` was lost on it. */
  ghost predicate Emptied(l: Link, k: Key) {
    l.pending == [] && forall r :: r in l.lost ==> r.key != k
  }

  /**
   * Requests may overtake each other. With the key's writes announced one by one, the channel empty and nothing about
   * the key lost, the secondary agrees with the primary exactly when the request it handled last says what the one
   * with the highest sequence number says, or when both differ only in copies with deadlines, one of which has passed.
   */
  lemma ReorderedDeliveryAgreesIff(pl: Roles, run: seq<Step>, states: seq<System>, p: NodeId, t: NodeId, k: Key,
                                   i: nat, h: nat)
    requires Replicates(pl, run, states, p, t, k) && Announced(states, p, k)
    requires Emptied(LinkOf(states[|run|], p, t), k)
    requires LastAt(LinkOf(states[|run|], p, t).handled, k, i) && NewestAt(LinkOf(states[|run|], p, t).handled, k, h)
    ensures var s := states[|run|];
            var handled := LinkOf(s, p, t).handled;
            var newest, last := Outcome(handled[h].effect), Outcome(handled[i].effect);
            var here, there := Look(Store(s, p), k), Look(Store(s, t), k);
            Agree(here, there)
            <==> Agree(newest, last) || (!Lasting(newest) && !Lasting(last) && (here.None? || there.None?))
  {
    EndsAreOk(pl, run, states, p, t, k);
    var l := LinkOf(states[|run|], p, t);
    assert multiset(l.sent) == multiset(l.handled) + multiset(l.lost);
    NewestHandledIsLastSent(l.sent, l.handled, l.lost, k, h);
    LastAtIsLast(l.handled, k, i);
    RunKnowsLatest(pl, run, states, p, t, k);
    AgreementIff(pl, run, states, p, t, k);
  }

  /** Requests about `k` come in the order they were sent. */
  ghost predicate InOrder(rs: seq<Request>, k: Key) {
    forall i, j :: 0 <= i < j < |rs| && rs[i].key == k && rs[j].key == k ==> rs[i].sequence < rs[j].sequence
  }

  lemma InOrderSaysTheLast(sent: seq<Request>, all: seq<Request>, lost: seq<Request>, k: Key)
    requires Ascending(sent) && multiset(sent) == multiset(all) + multiset(lost) && forall r :: r in lost ==> r.key != k
    requires InOrder(all, k)
    ensures Said(all, k) == Said(sent, k)
  {
    var i := LastAboutAt(all, k);
    if i >= 0 {
      NewestHandledIsLastSent(sent, all, lost, k, i);
    } else {
      var j := LastAboutAt(sent, k);
      forall r | r in sent ensures r.key != k {
        assert r in multiset(sent);
        assert r in multiset(all) || r in multiset(lost);
      }
    }
  }

  /** Handling requests leaves, for each key, the value of the last write about it, nothing after a delete. */
  lemma HandledRequestsDecide(m: Copies, rs: seq<Request>, k: Key, i: nat)
    requires LastAt(rs, k, i)
    ensures match rs[i].effect
            case Put(v, ttl) => k in ReplicateAll(m, rs) && ReplicateAll(m, rs)[k] == Copy(v, ttl <= 0)
            case Remove => k !in ReplicateAll(m, rs)
  {
    LastRequestDecides(m, rs, k);
    LastAtIsLast(rs, k, i);
  }

  /** Handling `rest` empties the link with the requests about `k` in sequence; none of them was lost. */
  ghost predicate Finishes(l: Link, rest: seq<Request>, k: Key) {
    && multiset(rest) == multiset(l.pending) && InOrder(l.handled + rest, k)
    && forall r :: r in l.lost ==> r.key != k
  }

  /**
   * At every moment of every run: if the key's writes were announced one by one, nothing about it is lost and what is
   * still pending is handled so that its requests are in sequence, whatever the order between keys, secondary and
   * primary end up in agreement.
   */
  lemma InOrderReplicationConverges(pl: Roles, run: seq<Step>, states: seq<System>, p: NodeId, t: NodeId, k: Key,
                                    rest: seq<Request>)
    requires Replicates(pl, run, states, p, t, k) && Announced(states, p, k)
    requires Finishes(LinkOf(states[|run|], p, t), rest, k)
    ensures var s := states[|run|];
            Agree(Look(Store(s, p), k), Look(ReplicateAll(Store(s, t), rest), k))
  {
    EndsAreOk(pl, run, states, p, t, k);
    var s := states[|run|];
    var l := LinkOf(s, p, t);
    InOrderSaysTheLast(l.sent, l.handled + rest, l.lost, k);
    LastAboutConcat(l.handled, rest, k);
    LastRequestDecides(Store(s, t), rest, k);
    RunKnowsLatest(pl, run, states, p, t, k);
    var here, there := Look(Store(s, p), k), Look(ReplicateAll(Store(s, t), rest), k);
    ShownAgreeIff(here, there, Latest(s, p, k), Said(l.handled + rest, k));
  }

  /** So a secondary that has handled everything about a key, in sequence, agrees with the primary about it. */
  lemma CaughtUpMeansAgreement(pl: Roles, run: seq<Step>, states: seq<System>, p: NodeId, t: NodeId, k: Key)
    requires Replicates(pl, run, states, p, t, k) && Announced(states, p, k)
    requires Emptied(LinkOf(states[|run|], p, t), k) && InOrder(LinkOf(states[|run|], p, t).handled, k)
    ensures Agree(Look(Store(states[|run|], p), k), Look(Store(states[|run|], t), k))
  {
    var l := LinkOf(states[|run|], p, t);
    assert l.handled + [] == l.handled;
    InOrderReplicationConverges(pl, run, states, p, t, k, []);
  }

  // ---------------------------------------------------------------- roles from the ring

  /** The ring everyone shares and the replication factor. */
  datatype Placement = Placement(config: HashRing.Config, ring: HashRing.State, replicaCount: nat)

  ghost predicate ValidPlacement(p: Placement) {
    HashRing.Valid(p.config, p.ring) && p.replicaCount >= 1
  }

  function Owners(p: Placement, k: Key): seq<NodeId> {
    HashRing.GetNodes(p.config, p.ring, k, p.replicaCount)
  }

  /** The first owner is the primary, the others its secondaries. */
  function RingRoles(p: Placement): Roles {
    Roles(k => var o := Owners(p, k); if o == [] then None else Some(o[0]),
          k => var o := Owners(p, k); if o == [] then [] else o[1..])
  }

  lemma RingRolesAreValid(p: Placement)
    requires ValidPlacement(p)
    ensures ValidRoles(RingRoles(p))
  {
    forall k, n | IsPrimary(RingRoles(p), n, k) ensures n !in RingRoles(p).secondaries(k) {
      RingRolesAreComputedLocally(p, n, k);
    }
  }

  /** What a node computes for itself from the ring agrees with those roles. */
  lemma RingRolesAreComputedLocally(p: Placement, n: NodeId, k: Key)
    requires ValidPlacement(p)
    ensures |Owners(p, k)| == Min(p.replicaCount, |p.ring.nodes|) && Distinct(Owners(p, k))
    ensures IsPrimary(RingRoles(p), n, k) <==> HashRing.GetNodes(p.config, p.ring, k, 1) == [n]
    ensures IsPrimary(RingRoles(p), n, k) ==> Without(Owners(p, k), n) == RingRoles(p).secondaries(k)
  {
    HashRing.WalkListsMembers(p.config, p.ring, k);
    var w, o := HashRing.Walk(p.config, p.ring, k), Owners(p, k);
    if w != [] {
      var first := HashRing.GetNodes(p.config, p.ring, k, 1);
      assert first == [w[0]] && o[0] == w[0];
      assert first == [n] <==> w[0] == n by { assert first[0] == w[0]; }
      WithoutHead(o, o[0]);
      assert o[0] !in o[1..];
      WithoutKeepsOthers(o[1..], o[0]);
    }
  }

  /** On a shared ring, an owner that has handled everything about a key, in sequence, agrees with its primary. */
  lemma RingReplicasConverge(pc: Placement, run: seq<Step>, states: seq<System>, p: NodeId, t: NodeId, k: Key)
    requires ValidPlacement(pc) && IsRun(RingRoles(pc), run, states)
    requires HashRing.GetNodes(pc.config, pc.ring, k, 1) == [p] && t in Without(Owners(pc, k), p)
    requires Announced(states, p, k)
    requires Emptied(LinkOf(states[|run|], p, t), k) && InOrder(LinkOf(states[|run|], p, t).handled, k)
    ensures Agree(Look(Store(states[|run|], p), k), Look(Store(states[|run|], t), k))
  {
    RingRolesAreValid(pc);
    RingRolesAreComputedLocally(pc, p, k);
    CaughtUpMeansAgreement(RingRoles(pc), run, states, p, t, k);
  }
}
