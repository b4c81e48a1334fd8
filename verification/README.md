# A verified model of the distributed cache

This project models the core of a peer-to-peer in-memory cache in Dafny and proves what its parts promise, over
every input, every run and every reachable state:

- **SWIM membership** (`Gossip`, `GossipQueue`, `Cluster`, `ClusterSafety`, `Transitions`, `Dissemination`,
  `MembershipObject`): one member's handlers as functions on its state, the dissemination queue, and a cluster of any
  size as a transition system over a network that loses, repeats, reorders and misdelivers messages. `ClusterExamples`
  holds runs from start-up that end where a promise fails.
- **Consistent-hash ring with bounded loads** (`HashRing`, `BoundedLoad`, `LoadTracking`, `RingObject`), and the place
  where membership events drive it (`RingView`).
- **Replication and failover** (`Replication`, `ReplicationTraces`, `Failover`, `ReplicationObject`) on top of that
  ring, with writes that overlap and requests that overtake each other or get lost (`ReplicationExamples` holds runs,
  most of which end in disagreement), and the theorems that join gossip, ring, replication and failover (`EndToEnd`).
- **Sharded TTL store and sweeper** (`TimedStore`, `StoreRuns`, `StoreObject`).
- **Client-side LRU cache** (`L1`, `L1CacheObject`).
- **Hot keys**: the Count-Min Sketch with decay on 64-bit counters (`Sketch`, `SketchObject`) and key splitting among
  all the requests of a server (`KeySplit`, `MitigatorObject`), also when their handlers overlap (`KeySplitRaces`).

Each part comes twice. The value modules define what an operation computes and hold the theorems. The `...Object`
modules hold classes with the program's own mutable fields and loops; each method is proved to perform exactly the
step of the value model, so the theorems speak about the objects. `Common` holds shared types and sequence facts.

## How to read it

The clock, the random choices of the sweeper, probe results, message delivery, map iteration order and the hash
functions are inputs: clock readings and hashes are parameters, the rest is nondeterministic. Each node acts at moments
of its own, and all clocks read the same time base: where a copy moves between nodes, receiver and sender time are
compared. Every handler, timer firing and lock-protected section is one atomic step. Three handlers are taken apart:
a write at a primary and its announcement are two steps, an Expire, its reading back of the value and the announcement
three, and `KeySplitRaces` takes Sets and splits one store write at a time. The library sort is known only to return a
sorted rearrangement, because it is not stable. Load factors and the sweeper's 25% are exact arithmetic. Sketch cells
wrap around like the program's. Incarnations and sequence numbers are unbounded naturals; `CountersStaySmall` bounds
an incarnation by the number of delivered updates. Scans (Keys, Len, ForEach) release each shard's lock before they
take the next, so they are not atomic: other requests and sampling rounds run between two shards.

Promises that turned out not to hold as stated come with the exact condition under which they do:

- A refuted claim can take effect again at a peer that had the subject Alive when the refutation arrived, because that
  branch keeps the old incarnation (`RefutedClaimBitesAgainIff`; a run from start-up in `RefutedClaimBites`).
- The load cap can be exceeded when no member has room for one more request (`WithinCapIffRoom`); on an idle ring, such
  as every client's, each lookup exceeds it (`CapCanBeExceeded`).
- A node's request counter is its requests in flight exactly when none was in flight when it last joined the ring
  (`CountsRequestsIff`, `RejoinDuringRequestUndercounts`); a server's own ring always meets this
  (`ServerCountersAreExact`).
- The ring is a function of its members exactly when no two virtual nodes tie (`CanonicalIffNoTies`).
- Event callbacks run in their own goroutines; handled in another order they can lose a live peer
  (`ReorderedEventsAgreeIff`; a run from start-up in `ReorderedEventsLoseALivePeer`).
- Replication requests run in their own goroutines, are not retried, and receivers ignore sequence numbers; a write and
  its sequence number are not taken together. So overtaking, lost or overlapping writes leave a secondary behind for
  good (`AgreementIff`, `ReorderedDeliveryAgreesIff`, `OvertakingLosesAWrite`, `LostWriteIsNeverMadeUp`,
  `OverlappingWritesDiverge`). An Expire announces the value it reads back; if the new deadline has passed by then, it
  announces nothing (`LapsedRenewalIsNeverAnnounced`).
- A re-replicated entry with less than a millisecond left never expires on its new owner (`CopyLastsForeverIff`).
- With one replica, a dead primary's keys move to a node that never held them (`NewPrimaryWasOwnerIff`).
- Nothing copies keys to a node that joins. Full replication survives a join exactly if the joiner already holds every
  key it now owns (`JoinKeepsReplicationIff`, `EmptyJoinerBreaksReplication`), and no later re-replication sends a key
  that its primary lacks (`NobodySendsAKeyItsPrimaryLacks`).
- `Keys` and `Len` disagree with `Get` at the very instant of a deadline (`KeysMissesExactlyTheDeadlineInstant`).
- Copies of a split key can stop agreeing with it (`StepAgreesIff`, for every request): when a copy is itself split
  (`SplitCopyDiverges`), when a client writes a shard name (`ForeignWriteDiverges`), when an Expire outlives the copies
  (`ExpireOutlivesCopies`), or when a write is replicated to the node (`ReplicatedWriteMissesCopies`). And they outlive
  a key that expires or is deleted (`CopiesOutliveTheirKey`). With handlers that overlap they agree as long as no Set or
  split of the key overlaps another one of that key (`ApartHandlersAgree`); a Set that tested the key before it was
  split, and two Sets at once, leave copies behind (`LateSetMissesCopies`, `OverlappingSetsDiverge`).
- A sketch estimate is 0 once all of a key's counters hold the largest 64-bit value (`UndercountsOnlyWhenSaturated`), so
  "never underestimates" holds over runs of n operations exactly for n < 2^64 - 1 (`NeverUndercountsIff`).

Where code and documentation differ, the model follows the code: the sweeper repeats at 25% or more (its comment and
the project's README say more than 25%); a node is skipped once its load reaches max(1, floor((1+eps) * average)) (the
README says when it exceeds (1+eps) * average); a Delete also reports an entry that expired but was not collected yet;
splitting gives the copies no deadline (its comment says they inherit the key's).

## Model

| member | source | states |
|---|---|---|
| Cluster.InitIsInv | internal/cluster/membership.go:125-198 | A freshly started cluster satisfies the cluster invariant |
| Cluster.ApplyStep | internal/cluster/membership.go:692-807 | Any update handled by any member keeps its registry, queue and timers consistent with everyone's true counters, and raises its own counter by at most one |
| Cluster.StepKeepsInv | internal/cluster/membership.go:361-502 | Every protocol step of every member keeps the invariant of the whole cluster and never lowers a counter |
| Cluster.RunKeepsInv | internal/cluster/membership.go:361-807 | The same for every run, with each counter bounded by the number of delivered updates |
| ClusterSafety.IncarnationAuthority | internal/cluster/membership.go:191-198 | In every reachable state no registry entry, queued update or message is ahead of its subject's own counter, and Alive claims carry the subject's own addresses |
| ClusterSafety.CountersStaySmall | internal/cluster/membership.go:787-794 | A node's incarnation never exceeds the number of updates delivered so far |
| ClusterSafety.RefutationRaisesByAtMostOne | internal/cluster/membership.go:787-794 | Refuting any circulating report raises the counter by one if the report is current and by zero otherwise |
| ClusterSafety.RefutationIsAnnounced | internal/cluster/membership.go:787-842 | Right after a refutation the queue holds a fresh Alive update whose incarnation beats the report's |
| ClusterSafety.CurrentAliveWins | internal/cluster/membership.go:719-741 | An Alive update at its subject's current counter is never stale; whoever applies it has the subject Alive with no timer |
| ClusterSafety.RefutedClaimBitesAgainIff | internal/cluster/membership.go:719-762 | After applying a refutation a peer is changed by a copy of the refuted claim exactly if it had the subject Alive at an incarnation no newer than the claim |
| ClusterExamples.RefutedClaimBites | internal/cluster/membership.go:719-762 | It happens: a run from start-up in which a node refutes a suspicion, both it and the suspecting node then ping a peer they know, and that peer, which had the node Alive all along, takes the refutation and then the suspicion still being gossiped, and ends up with it Suspect |
| ClusterSafety.StaleClaimStaysStale | internal/cluster/membership.go:719-721 | A claim older than a peer's record is ignored by that peer in every future of the cluster |
| ClusterSafety.RefutationIsFinal | internal/cluster/membership.go:361-365 | A delivered message carries the refutation at any position: unless the peer has the subject Alive and no newer than the claim just then, no copy of the refuted claim ever changes the peer again, whatever follows in the message and in every future of the cluster |
| ClusterSafety.RunRemembers | internal/cluster/membership.go:692-769 | No run makes a member forget a peer or return to an older incarnation of it |
| ClusterSafety.VerdictsAreAnnounced | internal/cluster/membership.go:638-645 | In every reachable state a member that turns a peer Suspect or Dead queues that verdict fresh: nothing newer about the peer can already be queued |
| ClusterSafety.DiscoveriesAreRelayed | internal/cluster/membership.go:701-715 | In every reachable state a node heard of for the first time is recorded as announced and its announcement is queued fresh |
| ClusterSafety.TimersOnlyKillSuspects | internal/cluster/membership.go:649-680 | In every reachable state Suspect implies an armed timer and an armed timer implies Suspect or Left |
| ClusterSafety.NoFalseSuspicion | internal/cluster/membership.go:470-502 | If no probe of a node ever fails, no registry, timer, queue or message anywhere ever calls it Suspect or Dead |
| ClusterSafety.NoFalseDeparture | internal/cluster/membership.go:213-220 | A node is called Left anywhere only after it stopped itself |
| Transitions.NewsTakesEffect | internal/cluster/membership.go:719-784 | What news about a known peer does unless it is stale: Alive revives it from every other status at the news's incarnation and disarms its timer; Suspect turns exactly Alive peers Suspect and arms it; Dead turns every other peer Dead and disarms it; Left always turns it Left; each change emits its own kind of event, alone, and without a change nothing happens |
| Transitions.OtherNewsTakesEffect | internal/cluster/membership.go:701-721 | Stale news, and news about a stranger that is not Alive, is ignored; an Alive stranger is recorded as announced, passed on and reported as joined |
| Transitions.OwnNewsTakesEffect | internal/cluster/membership.go:692-699 | News about the member itself never touches registry, timers or events; being called Suspect or Dead raises its counter above the report and queues an answer |
| Transitions.VerdictsTakeEffect | internal/cluster/membership.go:621-689 | A failed probe turns exactly Alive peers Suspect with a timer; a timer turns every peer that is not Dead yet Dead without one; each with its event, and nothing else changes |
| Transitions.DepartedPeersLeaveTheRing | internal/cluster/membership.go:764-767 | In every reachable state a member that hears a peer left no longer calls it usable, and its events take that peer, and no other, off the ring |
| Transitions.DepartureIsAnnounced | internal/cluster/membership.go:213-220 | In every reachable state a member that stops records itself Left and has exactly that queued fresh |
| Transitions.NewcomersIntroduceThemselves | internal/cluster/membership.go:186-198 | A started member knows only itself, and its first ping carries its own announcement alone |
| Transitions.PingsAreAnswered | internal/cluster/membership.go:380-466 | A ping or a join request gets one ack, an ack nothing, a relayed probe one ping if the target is known; verdicts, timers and stops send nothing by themselves |
| Gossip.ReplyListsRegistry | internal/cluster/membership.go:438-453 | The reply to a join lists each registry entry once, with its own addresses, status and incarnation |
| Transitions.JoinersLearnLivePeers | internal/cluster/membership.go:438-453 | A newcomer that handles the reply knows exactly the nodes the seed has Alive, with the seed's own records |
| Transitions.JoinRequestIsHeard | internal/cluster/membership.go:242-290 | In every reachable state whoever handles a join request at once has the joiner Alive with its addresses |
| GossipQueue.EnqueueKeepsOk | internal/cluster/membership.go:812-842 | Enqueuing keeps at most one queued update per node |
| GossipQueue.EnqueueNeverRegresses | internal/cluster/membership.go:817-824 | An update at least as new as the queued one replaces it with a fresh send count; an older one changes nothing |
| GossipQueue.QueuedNeverRegresses | internal/cluster/membership.go:812-869 | While a node stays queued, the incarnation queued about it never decreases |
| GossipQueue.HandoutIsWindow | internal/cluster/membership.go:857-861 | A drain hands out exactly the first 10 entries |
| GossipQueue.SendsAddUp | internal/cluster/membership.go:846-869 | Whatever else is queued and drained, an update that is not superseded is still queued with its exact send count or was sent three times |
| GossipQueue.HandedOutExactlyThreeTimes | internal/cluster/membership.go:844-869 | A fresh update that is not superseded and is gone at the end was handed out exactly 3 times |
| GossipQueue.QueueEmpties | internal/cluster/membership.go:846-869 | With nothing new queued, n entries are gone after 3 * ceil(n / 10) drains |
| Dissemination.RunQueues | internal/cluster/membership.go:692-869 | In every run a member's queue is what its verdicts, refutations, discoveries and drains make of it, and the gossip messages it sent about a node are the drains that handed out an update about it |
| Dissemination.MentionedThreeTimes | internal/cluster/membership.go:844-869 | In any run from a reachable state, a member with a fresh update queued that queues nothing else about that node mentions it in at most three gossip messages, and in exactly three if and only if the update has left its queue |
| MembershipObject.Membership.QueueUpdate | internal/cluster/membership.go:812-842 | The queue becomes the model's coalesced queue |
| MembershipObject.Membership.DrainUpdates | internal/cluster/membership.go:846-869 | Returns the model's handout and leaves the model's drained queue |
| MembershipObject.Membership.MarkSuspect | internal/cluster/membership.go:621-657 | Performs the model's failed-probe step on the whole state |
| MembershipObject.Membership.MarkDead | internal/cluster/membership.go:660-689 | Performs the model's timer step on the whole state |
| MembershipObject.Membership.Refute | internal/cluster/membership.go:787-807 | Performs the model's refutation on the whole state |
| MembershipObject.Membership.ApplyUpdate | internal/cluster/membership.go:692-784 | Performs the model's update step on the whole state, in all its branches |
| MembershipObject.Membership.ApplyUpdates | internal/cluster/membership.go:361-365 | Applies a message's updates in order |
| MembershipObject.Membership.Leave | internal/cluster/membership.go:213-220 | Performs the model's graceful stop |
| MembershipObject.Membership.JoinUpdates | internal/cluster/membership.go:438-453 | Lists each registry entry once, with its own addresses, status and incarnation |
| RingView.RunMirrors | internal/cluster/membership.go:692-784 | In every run the events a member emitted add up to exactly the peers it has Alive or Suspect, and name only known peers |
| RingView.RingMirrorsMembership | cmd/cachenode/main.go:110-123 | Once its events are handled in order, a member's ring holds itself and exactly the peers it has Alive or Suspect |
| RingView.AgreeingViewsRouteAlike | cmd/cachenode/main.go:80-123 | Two members with the same usable nodes send every key to the same owners whatever their histories, if virtual nodes do not tie |
| RingView.LastVerdictDecides | cmd/cachenode/main.go:110-123 | A node's ring membership is what the last ring event handled about it says |
| RingView.ReorderedEventsAgreeIff | internal/cluster/membership.go:871-876 | In every reachable state, handling a member's events in any order leaves its ring right about a peer exactly if the last ring event handled about that peer is the addition or removal its registry status calls for |
| RingView.PerPeerOrderSuffices | internal/cluster/membership.go:872-876 | Keeping each peer's own events in order gives the right ring |
| ClusterExamples.ReorderedEventsLoseALivePeer | internal/cluster/membership.go:871-876 | It goes wrong: a run from start-up in which a peer joins, dies and returns, and its events handled in another order leave the live peer out of the ring |
| HashRing.RemovedIsValid | internal/hashing/ring.go:114-141 | Removal keeps the ring sorted, complete and with one load counter per member |
| HashRing.AddedIsValid | internal/hashing/ring.go:77-110 | So does addition, whatever order the sort leaves ties in |
| HashRing.WalkListsMembers | internal/hashing/ring.go:180-209 | In every valid ring a key's clockwise walk names each member exactly once |
| HashRing.PrimaryIsNext | internal/hashing/ring.go:283-292 | In every valid ring the first owner of a key has the virtual node next clockwise from the key's position: nothing lies between, and past the last virtual node it is the lowest one |
| HashRing.WalkIsClockwise | internal/hashing/ring.go:193-208 | Of any two owners on a walk the earlier has a virtual node that, clockwise from the key, comes no later than any of the other's |
| HashRing.RemovalDeletesOneName | internal/hashing/ring.go:114-141 | Removing a node deletes its name from every key's walk and changes nothing else, ties included |
| HashRing.RemovalOfReplicas | internal/hashing/ring.go:180-209 | GetNodes after a removal is the first n survivors of the old full walk |
| HashRing.PrimaryAfterRemoval | internal/hashing/ring.go:114-141 | Only keys whose primary was removed change primary, and they move to the old second node |
| HashRing.CanonicalIffNoTies | internal/hashing/ring.go:98-101 | A member set determines the virtual-node order exactly if no two positions tie |
| HashRing.SameMembersSameOwners | internal/hashing/ring.go:180-209 | Tie-free rings with the same members give every key the same owners |
| HashRing.AdditionInsertsOneName | internal/hashing/ring.go:77-110 | Adding a node to a tie-free ring only inserts its name into each walk |
| HashRing.HistoryIsValid | internal/hashing/ring.go:77-141 | Every history of additions and removals leads to a valid ring with the expected members |
| HashRing.HistoryPlacesMembers | internal/hashing/ring.go:88-101 | Every history leaves each member at exactly its configured positions, each once, and nothing else on the ring |
| HashRing.HistoriesConverge | internal/hashing/ring.go:77-141 | Any two histories ending in the same tie-free member set build the same virtual-node sequence |
| BoundedLoad.FirstVNodeIsFirstOwner | internal/hashing/ring.go:163-171 | Scanning virtual nodes stops at the first eligible owner of the distinct-owner walk |
| BoundedLoad.WithinCapIffRoom | internal/hashing/ring.go:146-175 | For any counters, negative ones included: with a cap (1+eps) * average of at least one the chosen node has room for the request exactly if some member has; below one, exactly if a member with room comes before every other with a counter below one |
| BoundedLoad.BoundedLoadGuarantee | internal/hashing/ring.go:157-171 | It always does once eps * average is at least one |
| BoundedLoad.CapCanBeExceeded | internal/hashing/ring.go:157-171 | On an idle ring, the state of every client's ring, each lookup exceeds the cap |
| BoundedLoad.IdleRingRoutesToPrimary | internal/hashing/ring.go:146-175 | A ring without load routes every key to its primary |
| BoundedLoad.ClientFindsServerPrimary | client/client.go:106-121 | A client whose tie-free ring has the servers' members reaches the node the servers call primary |
| LoadTracking.CounterIsExact | internal/hashing/ring.go:213-233 | Over every history of joins, leaves, request starts and ends, a member's counter is its requests in flight less those in flight when it last joined |
| LoadTracking.CountsRequestsIff | internal/hashing/ring.go:85-86 | So it counts exactly the requests in flight if and only if none was in flight at that join, and is negative exactly if fewer are in flight than were then |
| LoadTracking.RejoinDuringRequestUndercounts | internal/hashing/ring.go:223-233 | A node that leaves and rejoins during a request ends with counter -1 |
| LoadTracking.ServerCountersAreExact | internal/server/grpc_server.go:111-114 | On a server's ring its own counter is always its requests in flight and every other counter is zero |
| LoadTracking.ServerSkipsOnlyItself | internal/hashing/ring.go:146-175 | A fact about the ring's interface, since servers do not call GetNode themselves: a bounded lookup on a server's ring answers the key's primary, or the second node exactly if the primary is the server itself, at its bound |
| RingObject.Search | internal/hashing/ring.go:283-292 | Binary search finds the first virtual node at or after the hash, or position 0 when all are below; reading on from there with wrap-around is the clockwise reading |
| RingObject.CollectOwners | internal/hashing/ring.go:193-208 | The index walk collects the first distinct owners, up to the limit |
| RingObject.ScanOwners | internal/hashing/ring.go:163-174 | The index walk finds the first owner under the bound, else the first owner |
| RingObject.Ring.constructor | internal/hashing/ring.go:44-59 | A new ring is empty and valid; bad settings fall back to 150 and 0.25 |
| RingObject.Ring.AddNode | internal/hashing/ring.go:77-110 | Performs the model's addition; false if the node was there |
| RingObject.Ring.RemoveNode | internal/hashing/ring.go:114-141 | Performs the model's removal; false if the node was absent |
| RingObject.Ring.GetNodes | internal/hashing/ring.go:180-209 | Returns the prefix of the key's walk |
| RingObject.Ring.GetNode | internal/hashing/ring.go:146-175 | Returns the first owner on the full walk whose load is under the bound, the head if there is none, nothing on an empty ring |
| RingObject.Ring.AverageLoad | internal/hashing/ring.go:296-307 | Sums every member's counter |
| RingObject.Ring.IncrementLoad | internal/hashing/ring.go:213-221 | Raises a member's counter by one and ignores others |
| RingObject.Ring.DecrementLoad | internal/hashing/ring.go:225-233 | Lowers a member's counter by one and ignores others |
| Replication.LastRequestDecides | internal/server/grpc_server.go:274-286 | Handling requests leaves, for each key, what the last one about it says, and other keys alone |
| Replication.HandledRequestsDecide | internal/server/grpc_server.go:274-286 | If the last request handled about a key is a delete the key is absent; if it is a write the key holds its value, lasting exactly if no time to live was given |
| Replication.StepKeepsInv | internal/cluster/replication.go:76-118 | Every local write, delete, expire, reading back of a renewed value, lapse and announcement, and every delivery or loss of any pending request keeps: requests are sent in ascending sequence, each is pending, handled or lost exactly once, the primary shows its last write of a key and the secondary the last request it handled about it |
| Replication.AgreementIff | internal/cluster/replication.go:76-118 | At every moment of every run secondary and primary agree about a key exactly if the last request handled says what the last write says, or both are copies with deadlines and one has lapsed |
| Replication.RunKnowsLatest | internal/cluster/replication.go:82 | As long as writes of a key do not overlap at its primary, its last write is the one still to be announced or the last one sent, unless an Expire of it found nothing to read back |
| Replication.ReorderedDeliveryAgreesIff | internal/server/grpc_server.go:274-286 | With such writes all announced, the channel emptied in any order and nothing about the key lost, a secondary agrees with the primary exactly if the request it handled last says what the one with the highest sequence number says, or both are copies with deadlines and one has lapsed |
| Replication.InOrderReplicationConverges | internal/cluster/replication.go:94-96 | At every moment of every run: if such writes are announced, nothing about the key is lost and what is pending is handled so that the key's requests are in sequence, whatever the order between keys, secondary and primary end up in agreement |
| Replication.CaughtUpMeansAgreement | internal/cluster/replication.go:76-118 | A secondary that has handled everything about a key, in sequence, holds exactly the primary's lasting copies and never another value |
| ReplicationExamples.OvertakingLosesAWrite | internal/cluster/replication.go:94-96 | A run in which two requests overtake each other: everything is handled and the secondary keeps the older value |
| ReplicationExamples.LostWriteIsNeverMadeUp | internal/cluster/replication.go:245-281 | A run in which the newer request is lost: nothing is left to handle and the secondary keeps the older value |
| ReplicationExamples.OverlappingWritesDiverge | internal/server/grpc_server.go:174-183 | A run in which two writes overlap at the primary and get their sequence numbers in the other order: nothing is lost, everything is handled in sequence, and the secondary keeps the older value |
| ReplicationExamples.LapsedRenewalIsNeverAnnounced | internal/server/grpc_server.go:244-252 | A run in which a key's new deadline passes before its value is read back: the Expire is never announced and the secondary keeps a copy without a deadline while the primary has none |
| ReplicationExamples.DeleteIsReplicated | internal/server/grpc_server.go:209-214 | A run in which a write and then a delete are announced and handled: the key is gone at both ends |
| ReplicationTraces.PrimaryShowsLastWrite | internal/server/grpc_server.go:174-252 | In every run a primary holds of a key what the last step that wrote it left: nothing after a delete, else that value unless its deadline has passed; nothing else touches it |
| ReplicationTraces.UnwrittenIsAbsent | internal/server/grpc_server.go:174-252 | A key never written at its primary is not there |
| ReplicationTraces.BothShowLastWrite | internal/cluster/replication.go:76-118 | With writes announced one by one and handled in sequence, primary and secondary both hold what that last step left |
| Replication.RingRolesAreComputedLocally | internal/cluster/replication.go:121-149 | What a node computes from the ring about primary and secondaries agrees with the owner list, whose size is min(r, N) |
| Replication.RingReplicasConverge | internal/cluster/replication.go:233-243 | On a shared ring, an owner that has handled everything about a key, in sequence, agrees with the key's primary |
| Failover.NewPrimaryWasOwnerIff | internal/cluster/replication.go:137-149 | After a removal a key's new primary was an old owner exactly if there were two replicas or its old primary lives |
| Failover.NewOwners | internal/cluster/replication.go:147-149 | After a removal every key has min(r, N-1) owners, the first of them primary |
| Failover.DeliveriesComeFromPrimary | internal/cluster/replication.go:292-306 | Everything delivered about a key comes from its new primary, carries that node's value and remaining time, and goes to another owner |
| Failover.NewOwnersGetTheKey | internal/cluster/replication.go:292-309 | Every new owner ends up with the new primary's value, unexpired up to a millisecond before the primary's deadline, and for ever if it has none |
| Failover.CopiesExpireToo | internal/cluster/replication.go:292-309 | And no copy outlives the primary's by more than its own delay, if the primary's has a deadline at least a millisecond away |
| Failover.FailoverRestoresReplication | internal/cluster/replication.go:292-309 | Keys are on all their owners, unexpired up to some time; any one node is removed and the survivors re-send by then. The new primary of every key already holds it, and once the writes arrived, in any order and with repeats, every key is on all min(r, N-1) new owners, unexpired up to a millisecond less |
| Failover.SurvivesRemovals | internal/cluster/replication.go:153-167 | Any sequence of removals with re-replication between them keeps every key on all its owners, at the cost of a millisecond each |
| Failover.LastingContentsSurvive | internal/cluster/replication.go:153-167 | Contents without deadlines survive any such sequence for ever |
| Failover.CopyLastsForeverIff | internal/cluster/replication.go:302 | A re-replicated copy has no deadline exactly if the original has none or less than a millisecond left; otherwise its deadline is less than a millisecond short of the shifted one |
| Failover.JoinKeepsOwners | cmd/cachenode/main.go:96-102 | On a tie-free ring a join gives a key no new owner but the joiner |
| Failover.JoinKeepsReplicationIff | cmd/cachenode/main.go:96-102 | So full replication survives a join exactly if the joiner already holds, unexpired, every key it now owns |
| Failover.EmptyJoinerBreaksReplication | cmd/cachenode/main.go:96-102 | A joiner without the key breaks it on every ring with fewer nodes than replicas |
| Failover.NobodySendsAKeyItsPrimaryLacks | internal/cluster/replication.go:292-306 | If the joiner is a key's primary and lacks it, no later re-replication by any node sends that key |
| EndToEnd.ReactingRing | cmd/cachenode/main.go:104-123 | In any run, the ring a member has when it removes a node, after handling each peer's events in their order, is that of every tie-free ring with the members it calls usable |
| EndToEnd.GossipDrivenFailover | cmd/cachenode/main.go:104-123 | In any run of the cluster each survivor, at a moment of its own on the common time base, removes the dead node and re-sends by the ring it has then; if they call the same survivors usable at those moments, every key is restored on all min(r, N-1) new owners, unexpired up to a millisecond less |
| EndToEnd.CaughtUpIsFullyReplicated | internal/cluster/replication.go:76-118 | In any run of the replication system, keys that last at their primaries and whose owners have caught up are fully replicated: the premise of the failover theorems |
| ReplicationObject.ReplicationManager.IsPrimary | internal/cluster/replication.go:121-124 | True exactly for the first owner |
| ReplicationObject.ReplicationManager.IsReplica | internal/cluster/replication.go:127-135 | True exactly for the owners |
| ReplicationObject.ReplicationManager.GetSecondaries | internal/cluster/replication.go:233-243 | All owners except the node itself, in order |
| ReplicationObject.ReplicationManager.Replicate | internal/cluster/replication.go:76-118 | One new sequence number if there are secondaries, and one request to each connected one |
| ReplicationObject.ReplicationManager.ReReplicate | internal/cluster/replication.go:292-309 | Scans the store object with other requests between two shards, sends exactly the failover model's messages for the entries the scan came upon, each as its shard had it when read, every one that could be read then among them, and keeps what was sent before |
| ReplicationObject.QuietScanSendsTheStore | internal/cluster/replication.go:292-309 | If nothing else ran meanwhile, those are the failover model's messages for the store's contents |
| TimedStore.MaskIsRemainder | internal/store/store.go:131-135 | Masking with one less than a power of two is remainder by it |
| TimedStore.ShardInRange | internal/store/store.go:131-135 | A key's shard is its hash modulo the shard count |
| TimedStore.CollectRefines | internal/store/store.go:151-163 | Dropping expired entries from any shard changes no answer |
| TimedStore.ListingMatches | internal/store/store.go:236-269 | Keys over all shards is the flat listing and Len its size |
| TimedStore.EntriesMatch | internal/store/store.go:273-298 | ForEach over all shards visits the flat map's unexpired entries |
| TimedStore.KeysMissesExactlyTheDeadlineInstant | internal/store/store.go:243 | A key is listed exactly if Get finds it and it is not the instant of its deadline |
| StoreRuns.StepMatches | internal/store/store.go:139-232 | Every atomic step answers like the flat map and keeps the refinement |
| StoreRuns.StoreRefinesFlatMap | internal/store/store.go:139-232 | In every interleaving of operations, split Gets, collections and sweeps the sharded store gives the flat map's answers and loses no live entry |
| StoreRuns.SetIsReadBack | internal/store/store.go:139-194 | In every interleaving, a key last touched by a Set is read back exactly until its time to live is over, for ever without one |
| StoreRuns.SetIsListed | internal/store/store.go:236-298 | Until then ForEach reports it with the time left, 0 without one; Keys lists it until just before that instant |
| StoreRuns.ExpireIsKept | internal/store/store.go:215-232 | After an Expire that finds the key, its value is read back exactly until the new time to live, counted from that step, is over |
| StoreRuns.DeletedIsGone | internal/store/store.go:197-211 | A key last touched by a Delete, or never, is not read |
| StoreRuns.CollectionDeletesTheExpired | internal/store/store.go:151-163 | Collecting a key, or sweeping a sample, deletes exactly the expired entries among them |
| StoreRuns.InterleavedScan | internal/store/store.go:236-298 | A scan among any other steps reports a key only if the flat map has it, unexpired at the scan's clock reading, when its shard is read, with that entry; it reports every key that can be read then; Len counts what a listing reports |
| StoreRuns.SteadyKeysAreListed | internal/store/store.go:236-251 | A key listed at every moment of a scan is reported |
| StoreObject.RoundUp | internal/store/store.go:105-115 | The smallest power of two that is at least the requested count |
| StoreObject.Store.constructor | internal/store/store.go:105-128 | A new store stands for the empty map |
| StoreObject.Store.Get | internal/store/store.go:139-172 | Answers like the flat map and changes nothing it stands for; a key that is not found is gone from its shard afterwards, and nothing else is |
| StoreObject.Store.Set | internal/store/store.go:176-194 | Overwrites the flat entry with its deadline |
| StoreObject.Store.Delete | internal/store/store.go:197-211 | Removes the key; answers by its presence in the shard, so true for a live entry and false for one never stored |
| StoreObject.Store.Expire | internal/store/store.go:215-232 | Found exactly if live; then only the deadline changes |
| StoreObject.Store.SampleShard | internal/store/ttl.go:97-139 | A sampling round on one shard, with the others and everything the store stands for unchanged |
| StoreObject.Store.Keys | internal/store/store.go:236-251 | With any other requests and sampling rounds between two shards: each key once, only keys stored when their shard was read and not due at the start, and every such key that could still be read then |
| StoreObject.QuietScanIsExact | internal/store/store.go:236-269 | If nothing else ran meanwhile, that is exactly the flat listing |
| StoreObject.Store.Len | internal/store/store.go:254-269 | The number of keys such a listing has |
| StoreObject.Store.ForEach | internal/store/store.go:273-298 | With any other requests and sampling rounds between two shards: visits distinct keys unexpired at the start, with the entry their shard had when read, until the callback refuses; all that could be read then if it never does |
| StoreObject.PickRandom | internal/store/ttl.go:121-125 | A sampling step keeps the key array a listing of the shard and picks a key not sampled before |
| StoreObject.SampleRound | internal/store/ttl.go:97-139 | A round samples min(20, n) distinct keys, deletes exactly the expired among them and counts them |
| StoreObject.SmallShardIsSweptClean | internal/store/ttl.go:112-116 | On a shard of at most twenty keys a round leaves nothing expired |
| StoreObject.Sweeper.SampleAndExpire | internal/store/ttl.go:97-139 | A round touches one shard only and changes nothing the store stands for |
| StoreObject.Sweeper.SweepShard | internal/store/ttl.go:78-93 | Repeats only after deleting, so it ends within one round more than the deletions; while twenty or more keys remain every repeat deleted at least five; unless stopped, its last sample was under a quarter expired |
| L1.LargerCacheIncludesSmaller | client/l1cache.go:42-140 | On the same trace the smaller cache's recency list is a subsequence of the larger's, the size gap stays within the capacity gap, and every hit of the smaller is the same hit of the larger |
| L1.EvictsLeastRecentlyUsed | client/l1cache.go:94-134 | The list is always in order of last use, so the entry evicted is the least recently used |
| L1.HitsAreCurrent | client/l1cache.go:42-63 | A hit returns the last value set since the last delete or clear, within its lifetime |
| L1.RecentlyUsedStays | client/l1cache.go:94-101 | A written key used within the last `cap` operations is still cached or past its deadline |
| L1.RecentKeysAreAnsweredExactly | client/l1cache.go:42-63 | For such a key Get answers exactly the last value written, if its lifetime is not over, else nothing |
| L1.LifetimesAreKept | client/l1cache.go:66-101 | A key last set at some time and recently used is answered with that value exactly up to its time to live, up to the default one if none was given |
| L1.RemovedKeysAreMisses | client/l1cache.go:104-120 | A key last touched by a Delete or Clear is a miss |
| L1.UnsetKeysAreMisses | client/l1cache.go:42-50 | So is a key never set |
| L1.MissesTakeNoRoom | client/l1cache.go:52-57 | After a Get that misses the key takes no room: an expired entry is dropped, and nothing else |
| L1CacheObject.IndexKnows | client/l1cache.go:42-50 | The index finds exactly what a search of the list would find |
| L1CacheObject.RemovalDropsKey | client/l1cache.go:136-140 | Unlinking one element is dropping its key from the recency list |
| L1CacheObject.L1Cache.Get | client/l1cache.go:42-63 | Performs the model's Get on the element the index points to, and keeps list and index in step |
| L1CacheObject.L1Cache.Set | client/l1cache.go:66-101 | Performs the model's Set, updating a listed element in place, within capacity |
| L1CacheObject.L1Cache.RemoveElement | client/l1cache.go:136-140 | Unlinks the element from list and index |
| L1CacheObject.L1Cache.Delete | client/l1cache.go:104-111 | Performs the model's Delete |
| L1CacheObject.L1Cache.Clear | client/l1cache.go:114-120 | Empties list and index |
| L1CacheObject.L1Cache.EvictOldest | client/l1cache.go:129-134 | Removes the last entry from list and index |
| Sketch.CellsDominateTheirKeys | internal/hotkey/detector.go:51-94 | Over every run each cell is at least the sum of the decayed counts of all keys that share it |
| Sketch.MachineRunIsExact | internal/hotkey/detector.go:51-60 | The program's wrapping 64-bit counters are the exact ones as long as the decayed number of all accesses never passed the largest 64-bit value |
| Sketch.UndercountsOnlyWhenSaturated | internal/hotkey/detector.go:64-80 | Then an estimate is at least the decayed count exactly if the count is zero or some cell of the key is below the largest 64-bit value |
| Sketch.NeverUndercounts | internal/hotkey/detector.go:62-80 | Hence always while that number is below the largest 64-bit value |
| Sketch.NeverUndercountsIff | internal/hotkey/detector.go:62-80 | Over all runs of n operations no estimate is too low exactly if n < 2^64 - 1 |
| Sketch.RowMassIsBounded | internal/hotkey/detector.go:51-107 | Each row sums to at most the total, exactly the total while nothing decayed, and the total is at most the number of operations |
| Sketch.EstimateAtMostTotal | internal/hotkey/detector.go:64-80 | No estimate exceeds the total |
| Sketch.EstimateIsSmallestCell | internal/hotkey/detector.go:64-80 | An estimate is at most each of the key's cells, one per row at its hash modulo the width, and is one of them unless they are all saturated |
| Sketch.LoneKeysAreCountedExactly | internal/hotkey/detector.go:64-80 | A key with a cell to itself in some row is estimated at exactly its decayed count |
| Sketch.LoneKeysAreHotIff | internal/hotkey/detector.go:153-156 | Such a key is called hot exactly if its decayed count, this access included, reaches the threshold |
| Sketch.CountersWrapAround | internal/hotkey/detector.go:51-60 | 2^64 accesses of one key bring its cells and the total back to 0 |
| Sketch.HotKeysAreReported | internal/hotkey/detector.go:153-156 | A key whose decayed count reaches the threshold is reported hot; none is while the total is below it |
| Sketch.FewHotCells | internal/hotkey/detector.go:159-161 | At most total / threshold cells of a row are hot |
| SketchObject.CountMinSketch.Increment | internal/hotkey/detector.go:51-60 | The table becomes what the longer history amounts to |
| SketchObject.CountMinSketch.Estimate | internal/hotkey/detector.go:64-80 | Returns the model's estimate |
| SketchObject.CountMinSketch.Decay | internal/hotkey/detector.go:84-94 | The table becomes what the longer history amounts to |
| SketchObject.CountMinSketch.Reset | internal/hotkey/detector.go:97-107 | The table becomes what the longer history amounts to |
| SketchObject.Detector.RecordAccess | internal/hotkey/detector.go:153-156 | Records the access and returns the model's verdict |
| KeySplit.ShardKeyNameInjective | internal/hotkey/mitigator.go:171-173 | Different keys or indices never share a shard name |
| KeySplit.CopiesAgreeIffReadsAgree | internal/hotkey/mitigator.go:91-105 | What agreement means: from now on, whenever the key can be read, each copy is read as the same value |
| KeySplit.StepAgreesIff | internal/server/grpc_server.go:110-286 | Every request of a server (Get, Set, Delete, Expire, replicated write), on any key and with any time to live, keeps all split keys and their copies in agreement exactly if it writes nothing that a split key or one of its copies contradicts |
| KeySplit.RunAgreesIff | internal/server/grpc_server.go:110-286 | A run of requests that do not overlap keeps agreement throughout exactly if every request is harmless when its turn comes |
| KeySplit.PlainKeyHarmlessIff | internal/hotkey/mitigator.go:124-141 | On keys that are not shard names only an Expire or a replicated write that the copies do not keep up with does harm |
| KeySplit.SplitCopiesAgree | internal/hotkey/mitigator.go:69-141 | So in every other run of such requests on such keys all copies of every split key agree with it |
| KeySplit.HotKeyGetsSplit | internal/hotkey/mitigator.go:69-120 | A hot read of a key that can be read splits it, and its copies are read as its unchanged value |
| KeySplit.HotHitsAreMarked | internal/hotkey/mitigator.go:69-120 | A Get that misses changes nothing; a hot one that hits marks its key, even if it cannot be read again, and never changes the key's own entry |
| KeySplit.SetReachesCopies | internal/hotkey/mitigator.go:124-141 | A Set gives the key and, if split, every copy the value with the same time to live, each counted from its own clock reading |
| KeySplit.SetTouchesNothingElse | internal/hotkey/mitigator.go:124-141 | And touches nothing else |
| KeySplit.OtherRequestsReachTheKeyAlone | internal/server/grpc_server.go:209-286 | Delete, Expire and a replicated write reach the key alone, with the value and time to live they carry |
| KeySplit.ClientsAreSpread | internal/hotkey/mitigator.go:93-105 | A client is sent to the copy numbered by its hash modulo the number of copies, named key, :shard_ and the decimal index; to the key itself if it is not split |
| KeySplit.ShardedReadIsCurrent | internal/hotkey/mitigator.go:93-105 | After such a run the key a client is sent to is read as the original's value whenever the original can be read |
| KeySplit.SplitCopyDiverges | internal/hotkey/mitigator.go:69-141 | A run on a split key whose first copy is read until it is split too: the next write of the key breaks agreement |
| KeySplit.ForeignWriteDiverges | internal/hotkey/mitigator.go:171-173 | A client write to a shard name breaks agreement |
| KeySplit.ExpireOutlivesCopies | internal/server/grpc_server.go:244 | Lifting the deadline of a split key breaks agreement |
| KeySplit.ReplicatedWriteMissesCopies | internal/server/grpc_server.go:274-281 | A write replicated to a node that has split the key breaks agreement |
| KeySplit.OnlyGoneKeysAreMisread | internal/hotkey/mitigator.go:93-105 | Under agreement a copy is read differently from its key only by being there when the key is gone |
| KeySplit.CopiesOutliveTheirKey | internal/hotkey/mitigator.go:116-119 | That happens after the key's deadline, since copies made by splitting have none, and after a Delete |
| KeySplitRaces.MoveKeepsKey | internal/server/grpc_server.go:174-178 | Every single store write, test, mark, clock tick and Delete keeps the state a half-done Set or split of a plain key must be in, if no other Set or split of that key is on its way |
| KeySplitRaces.ApartHandlersAgree | internal/hotkey/mitigator.go:69-141 | In every run of overlapping handlers on plain keys: if no Set or split of a key overlaps another one of that key, then whenever none is on its way and the key is split, every copy is read as the key's own value for as long as the key can be read |
| KeySplitRaces.LateSetMissesCopies | internal/server/grpc_server.go:174-178 | A run in which a Set finds the key not split and stores after it was: the copies keep the old value |
| KeySplitRaces.OverlappingSetsDiverge | internal/hotkey/mitigator.go:129-141 | A run in which two Sets of a split key overlap: the key keeps one value and its copies the other |
| MitigatorObject.Mitigator.ApplySplitting | internal/hotkey/mitigator.go:108-120 | Writes the key's value, without a deadline, to every copy in the store; a key that cannot be read is left alone |
| MitigatorObject.Mitigator.CheckAndMitigate | internal/hotkey/mitigator.go:69-89 | Records the access, and splits the key once if the sketch calls it hot |
| MitigatorObject.Mitigator.WriteToShards | internal/hotkey/mitigator.go:124-141 | Writes the original and, if split, every copy, each with the time to live counted from its own clock reading |
| MitigatorObject.Mitigator.ServerSet | internal/server/grpc_server.go:174-178 | Performs the model's Set |
| MitigatorObject.Mitigator.ServerGet | internal/server/grpc_server.go:129-143 | Returns what the store answers and performs the model's Get |
| MitigatorObject.Mitigator.ServerDelete | internal/server/grpc_server.go:209 | Performs the model's Delete |
| MitigatorObject.Mitigator.ServerExpire | internal/server/grpc_server.go:244 | Performs the model's Expire; found exactly if the key can be read |
| MitigatorObject.Mitigator.ServerReplicate | internal/server/grpc_server.go:276-281 | Performs the model's replicated write |

## Left out

- UDP, gRPC and HTTP transport, JSON encoding, configuration, command binaries, the fault injector and statistics: no
  property beyond plumbing.
- FNV hashing: hash functions are parameters; where ties matter the absence of ties is a premise.
- Success of indirect probes: the relay waits for the ack inside the only receive loop, so a probe's result is
  nondeterministic.
- Message sender, target address and the incarnation field of messages: no handler's effect on the modelled state
  depends on them.
- Node restarts, and data races between unsynchronised fields or between a stopping timer and its callback: below the
  chosen atomic steps.
- SWIM's full precedence order and finality of Dead or Left: the code's acceptance rule does not give them.
- The request proxying of a non-primary server, and its fallback of writing locally when it has no connection: writes
  are modelled at the primary.
- MitigatorObject.Mitigator.ServerSet: the replication that follows the local write is modelled in Replication, not
  here.
- MitigatorObject.Mitigator.ServerGet: the proxying by a node that is no replica is not modelled.
- KeySplit.StepAgreesIff: each request is one step; handlers that overlap are in KeySplitRaces, for Sets, splits and
  Deletes.
- KeySplit.RunAgreesIff: the same.
- KeySplit.SplitCopiesAgree: the same.
- KeySplit.ShardedReadIsCurrent: the same.
- ReplicationObject.ReplicationManager.ReReplicate: the callback sends an entry while its shard is locked; here what
  the scan came upon is sent after the scan, which does not depend on it.
- L1CacheObject.L1Cache.RemoveElement: the library list's links between elements are a sequence of elements; elements
  themselves are objects updated in place.
- TransferKeys: it streams the whole store, its range is ignored, and no node calls it.
