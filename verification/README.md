# ignite-rs, modelled and proved in Dafny

`ignite-rs` is an asynchronous thin client for Apache Ignite. This project models the parts of it whose correctness
is hard to see from the code, and proves what they guarantee for every input, every run or every reachable state.

| modules | what they model |
|---|---|
| `ChannelProtocol`, `ChannelInvariant`, `ChannelLate`, `ChannelProperties`, `ChannelProvenance`, `ChannelProgress`, `ChannelShards`, `ChannelSpent`, `ChannelStranding` | the multiplexed channel: request tasks, the response pump and `mark_broken` over a 16-way sharded table of in-flight slots, as a state machine with one step per mutex section, atomic access or waker call |
| `ChannelManager`, `Topology`, `TopologyMeaning`, `Rotation`, `Throttle`, `Retry` | the channel pool and its three derived indexes, the endpoint cache, reconnect order and default pick, the sliding-window throttle, the retry loop |
| `Affinity`, `PartitionReply`, `PartitionLayout`, `PartitionRefusals`, `GroupRouting`, `Routing`, `KeyHashing`, `JavaHash`, `JavaStrings` | partition-aware routing: hash of a marshalled key, partition of a hash, the partition reply and its decoder, the cache of maps |
| `Codec`, `SchemaHash`, `CodecRoundTrip`, `CodecRefusals`, `CodecStream`, `WireFormat`, `Utf8`, `Uuid`, `Wire`, `Bits` | the typed binary format and the derived object format, node ids as text, bytes and bit operators |
| `Transaction` | the shared transaction handle with its mutex, as a state machine |

`dafny verify dfyconfig.toml` checks everything.

How to read the model:

- The client's readers and writers are classes whose methods advance a cursor or append to a buffer; each is proved
  against a parse or encoding function, and the round trips are proved about those functions.
- `Fault.Panic` and `KeyHashing.Hash.Aborts` stand for the places where the client panics (a negative length given to an
  allocation, `unwrap` of an absent field, slicing inside a character).
- Integer widths are explicit: `Wrap32` is two's complement wrap-around, lengths cast with `as i32` wrap, `usize` has 64 bits,
  `string_to_java_hashcode` wraps as in a release build.
- Fields marked "history", ghost fields and logs record the past for stating properties; no step depends on them.
- What a network call, a timer, a clock, the scheduler or a retry policy answers is a parameter or a nondeterministic
  step. Hash maps are iterated in arbitrary order.

## Findings

Properties one would expect and the code does not have, each with a witness and with the exact extent of the failure:

- A waiter on a broken channel can be left without an answer (until its timeout, if it has one) in two ways and no
  other: it registered after its shard was drained (`ChannelStranding.LateRegistrationStrands`), or the pump that won the swap in
  `mark_broken` was aborted at its first await, before draining (`ChannelStranding.AbortedBreakStrands`).
  `ChannelProperties.ParkedWhenQuiescent` is the if-and-only-if, `ChannelSpent.StrandedForever` the permanence.
- The last retry sends an empty buffer: `Retry.RetrySendsNothing`, `Retry.AllFullExactlyWhen`.
- The round-robin scan can skip an available candidate while its counter overflows, exactly when the number of
  candidates does not divide 2^64: `Rotation.OverflowSkipsCandidate`, `Rotation.ScanCoversExactlyWhen`.
- A derived object with an absent field is written but panics when read back: `CodecRoundTrip.NullFieldPanics`,
  `CodecRoundTrip.RoundTripExactly`.
- Cancelling a commit that awaits its answer lets a second TxEnd out: `Transaction.CancelledCommitEndsTwice`; `Transaction.AtMostOneEnd`
  bounds the number of sends by the number of such cancellations plus one.
- String hashes agree with Java's for every string of the basic multilingual plane; any other string is decided by one
  congruence at its last supplementary character (`JavaStrings.DecidedAtLastSupplementary`), which fails, for instance, for every
  string that starts with its only such character (`JavaStrings.LeadingSupplementaryNeverAgrees`).
- `channel_for_node_id` can return an open channel of another node, one that answers at an endpoint recorded for the
  wanted node (`ChannelManager.AnotherNodeAnswers`); the contract of `ChannelManager.Manager.ChannelForNodeId` is the if-and-only-if.
- The comment on `Transaction` handles speaks of exactly one end request; the code guarantees at most one, and only
  without cancellation.

## Model

| member | source | states |
|---|---|---|
| `ChannelInvariant.StepInv` | ignite-rs/src/transport.rs:214-261 | every step of request, pump, timeout, dropped future and break keeps the invariant linking table, slots, waiters, fillers and the winning breaker |
| `ChannelInvariant.RunInv` | ignite-rs/src/transport.rs:499-711 | the invariant holds after every run, for any number of requests and any interleaving |
| `ChannelProperties.FilledAtMostOnce` | ignite-rs/src/transport.rs:214-229 | in every run each slot is filled at most once, is done exactly when filled, and a slot still in the table is not done and stands under its own correlation id |
| `ChannelProperties.FillNeverDropsAResult` | ignite-rs/src/transport.rs:215-226 | the early return of `fill` is unreachable: whoever holds a slot finds it not done and stores the frame it had read, or the error it had entered with |
| `ChannelProperties.ReplyMatchesRequest` | ignite-rs/src/transport.rs:535-543 | a request that returns a frame returns one with its own correlation id; the mismatch error and the fallback without a result are never returned |
| `ChannelProvenance.RepliesWereReceived` | ignite-rs/src/transport.rs:665-676 | in every run, whatever frame a request returns, the pump received exactly that frame |
| `ChannelProvenance.StoredRepliesWereReceived` | ignite-rs/src/transport.rs:665-676 | the same for every frame ever stored in a slot |
| `ChannelProvenance.ErrorsWereReported` | ignite-rs/src/transport.rs:694-711 | whatever connection error a request returns, some break was entered with exactly that error |
| `ChannelProvenance.TimeoutsAreTheRequestsOwn` | ignite-rs/src/transport.rs:547-560 | a timeout is reported only to the request whose timer fired |
| `ChannelProvenance.ClosedErrorsAreReal` | ignite-rs/src/transport.rs:500-525 | a closed channel is reported only after a break or after the request's own send was refused |
| `ChannelProgress.ReplyIsDelivered` | ignite-rs/src/transport.rs:665-676 | from every reachable state with the request parked, its slot in the table and the pump idle: when a frame with its id arrives, the request returns exactly that frame |
| `ChannelProperties.PollTakesTheStoredOutcome` | ignite-rs/src/transport.rs:243-251 | the first poll after completion takes exactly the one stored outcome |
| `ChannelProperties.NoLostWakeup` | ignite-rs/src/transport.rs:214-261 | a parked waiter whose slot is done has been woken, or a filler is about to call its current waker; until then the slot holds that waker |
| `ChannelProperties.AfterBreakCompletes` | ignite-rs/src/transport.rs:694-711 | once the winning `mark_broken` has drained, every slot it took holds exactly one outcome, its connection error; any slot left was inserted late by a request that had passed the closed check at the swap |
| `ChannelLate.RunLate` | ignite-rs/src/transport.rs:694-711 | in every run late slots stand outside what the drain took, and only slots it took hold errors |
| `ChannelLate.LateOnlyByReply` | ignite-rs/src/transport.rs:694-711 | in every run a slot inserted behind the drain is never given the connection error: it is done exactly when a reply reached it |
| `ChannelProperties.ParkedWhenQuiescent` | ignite-rs/src/transport.rs:500-513 | with all fillers at rest a parked request is completed and notified exactly when its slot has left the table; on a closed channel it is left behind if and only if no reply reached it and the winning breaker was aborted or the request registered late |
| `ChannelShards.ShardsRefineFlatMap` | ignite-rs/src/transport.rs:370-373 | in every reachable state and for every step, the sixteen shards act as one flat map: insert, remove and taking a shard do to it what they say, and look-ups agree |
| `ChannelShards.FlatInsert` | ignite-rs/src/transport.rs:509-513 | inserting into the shard of an id inserts into the flat map |
| `ChannelShards.FlatRemove` | ignite-rs/src/transport.rs:668-672 | removing from the shard of an id removes from the flat map |
| `ChannelShards.FlatTake` | ignite-rs/src/transport.rs:703-707 | emptying shard i removes exactly the ids that live there |
| `ChannelShards.ShardIsRemainder` | ignite-rs/src/transport.rs:370-373 | the shard of any 64-bit id, negative ones included, is its remainder modulo sixteen |
| `ChannelStranding.LateRegistrationStrands` | ignite-rs/src/transport.rs:680-684 | a run in which the response pump breaks and drains the channel, a request that had read `closed == false` then inserts its slot, sends and parks, and no filler is left |
| `ChannelStranding.AbortedBreakStrands` | ignite-rs/src/transport.rs:635-638 | a run in which the writer pump aborts the response pump between its swap and its drain, so that a request registered before the break is parked and no filler is left |
| `ChannelSpent.SpentStep` | ignite-rs/src/transport.rs:500-504 | a closed channel with no pump left and no breaker before or in its drain stays so, and no step of it completes any slot |
| `ChannelSpent.StrandedForever` | ignite-rs/src/transport.rs:545-556 | whatever steps follow, such a request's slot stays undone, and the request is still waiting or has timed out or been dropped |
| `ChannelManager.BuildByAddress` | ignite-rs/src/transport.rs:797-808 | in any iteration order the index lists each pooled channel exactly once, under its own address, and nothing else |
| `ChannelManager.BuildCandidates` | ignite-rs/src/transport.rs:818-835 | the list is free of duplicates, holds exactly the indexed channels whose address is an endpoint, and is in endpoint order |
| `ChannelManager.CandidatesFromIndex` | ignite-rs/src/transport.rs:1074-1083 | candidates built from a correct index are exactly the pooled channels with a current endpoint |
| `ChannelManager.Manager.constructor` | ignite-rs/src/transport.rs:966-1015 | the initial pool and its indexes agree |
| `ChannelManager.Manager.RefreshDefaultCandidates` | ignite-rs/src/transport.rs:1090-1096 | rebuilding the list after an endpoint change restores the agreement of all indexes |
| `ChannelManager.Manager.InsertChannel` | ignite-rs/src/transport.rs:1098-1107 | a new channel takes an unused key, so no pooled channel is overwritten; the indexes agree afterwards |
| `ChannelManager.Manager.CacheChannelIdentity` | ignite-rs/src/transport.rs:2282-2297 | the node index and the topology learn the channel, and every index still agrees with the pool |
| `ChannelManager.Manager.Break` | ignite-rs/src/transport.rs:694-696 | a channel breaking at any moment leaves the indexes right |
| `ChannelManager.Manager.PruneRemovedNodeChannels` | ignite-rs/src/transport.rs:2485-2537 | exactly the channels of removed nodes leave pool and node index and are closed; indexes agree |
| `ChannelManager.Manager.PruneRemovedSeedChannels` | ignite-rs/src/transport.rs:2539-2584 | exactly the channels at dropped seed addresses (not active, not discovered) leave the pool and are closed; node index entries left behind are closed ones |
| `ChannelManager.StaysWithItsNode` | ignite-rs/src/transport.rs:2510-2518 | a pooled channel stays exactly when its server node is unknown or not removed |
| `ChannelManager.StaysWithItsAddress` | ignite-rs/src/transport.rs:2558-2568 | a pooled channel stays exactly when its address was not removed, is the active one, or is some discovered node's |
| `ChannelManager.Manager.ApplyDiscovery` | ignite-rs/src/transport.rs:2355-2368 | a discovery response updates topology, pool and indexes together |
| `ChannelManager.Manager.RefreshSeedEndpoints` | ignite-rs/src/transport.rs:1823-1833 | new seeds replace the old, the dropped ones are returned, the candidate list follows |
| `ChannelManager.Manager.ChannelForAddress` | ignite-rs/src/transport.rs:1983-1988 | returns an open pooled channel at the address, and none only if there is none |
| `ChannelManager.Manager.FindByNodeId` | ignite-rs/src/transport.rs:1990-2016 | the fast look-up returns only what the linear scan would accept; nothing is returned only if the scan accepts nothing |
| `ChannelManager.Manager.ConnectSpecific` | ignite-rs/src/transport.rs:2129-2151 | an open channel already there, or the newly dialled one, pooled and indexed |
| `ChannelManager.Manager.ChannelForNodeId` | ignite-rs/src/transport.rs:1990-2030 | the node's own open channel whenever one is pooled, otherwise what the first recorded endpoint that is no dead end yields; so the channel returned is the node's own if and only if one of its own is open or that first choice is its own, both read off the state before the call |
| `ChannelManager.FirstChoiceMeaning` | ignite-rs/src/transport.rs:2018-2027 | the first choice is that of the first address with an open or dialled channel |
| `ChannelManager.Manager.ChannelForEndpoint` | ignite-rs/src/transport.rs:2019-2026 | an open channel at the address is preferred, and then nothing is dialled; otherwise the dialled one; otherwise nothing changes |
| `ChannelManager.EndpointChangedHands` | ignite-rs/src/transport.rs:2018-2027 | a state where the first choice for a node is another node's channel |
| `ChannelManager.AnotherNodeAnswers` | ignite-rs/src/transport.rs:2018-2027 | for any two nodes, the look-up of one returns an open channel of the other |
| `ChannelManager.Manager.DefaultChannel` | ignite-rs/src/transport.rs:1852-1888 | an open pooled channel to a current endpoint or the active channel; the active one only if there is no such channel, unless the counter overflows during the scan |
| `ChannelManager.Manager.ConnectInTurn` | ignite-rs/src/transport.rs:1628-1717 | endpoints are tried in rotation; failure means all of them were tried and are dead ends, and nothing changed |
| `ChannelManager.Manager.ConnectAnyAfter` | ignite-rs/src/transport.rs:1619-1620 | when every connection fails, each endpoint has been tried exactly once, the failed one last |
| `ChannelManager.Manager.ReconnectFrom` | ignite-rs/src/transport.rs:1609-1626 | another task's replacement is reused; throttle and resolver failures change nothing; otherwise the new channel becomes active and is still pooled and open after the pruning it triggers |
| `Rotation.EveryEndpointOnce` | ignite-rs/src/topology.rs:117-128 | the rotation that starts behind the failed endpoint is a permutation of the endpoints with the failed one last |
| `Rotation.RotatedIsPermutation` | ignite-rs/src/transport.rs:1633-1635 | rotating from any start keeps every endpoint with its multiplicity |
| `Rotation.PickDefault` | ignite-rs/src/transport.rs:1852-1879 | the pick is the first available candidate in scan order; with no overflow in the scan there is no pick exactly when nothing is available |
| `Rotation.ScanCoversExactlyWhen` | ignite-rs/src/transport.rs:1867-1876 | the scan looks at every candidate if and only if the counter does not overflow during it or the number of candidates divides 2^64 |
| `Rotation.DisturbedSkips` | ignite-rs/src/transport.rs:1870-1871 | the candidate that a disturbed scan never looks at |
| `Rotation.PickRound` | ignite-rs/src/transport.rs:1852-1879 | n picks in a row on n available candidates return each of them exactly once, if and only if the counter does not overflow meanwhile or n divides 2^64 |
| `Rotation.OverflowSkipsCandidate` | ignite-rs/src/transport.rs:1870-1871 | with three candidates and the counter at its maximum, candidate 2 is skipped |
| `Throttle.Throttle.Record` | ignite-rs/src/transport.rs:1752-1780 | a call is accepted exactly when fewer than `max_attempts` accepted attempts are younger than the window; the deque is exactly those attempts and the new one |
| `Throttle.DropOld` | ignite-rs/src/transport.rs:1763-1769 | the pruning loop leaves exactly the attempts younger than the window |
| `Throttle.ReplaySpaced` | ignite-rs/src/transport.rs:1763-1778 | for every call sequence on a clock that does not run backwards, accepted attempts `max_attempts` places apart are a window apart |
| `Throttle.AtMostMaxPerWindow` | ignite-rs/src/transport.rs:1771-1778 | no half-open interval of window length holds more than `max_attempts` accepted attempts |
| `Throttle.AcceptedExactlyWhen` | ignite-rs/src/transport.rs:1763-1778 | a call is accepted if and only if fewer than `max_attempts` calls were accepted in the last window |
| `Retry.RoundTripInternal` | ignite-rs/src/transport.rs:1369-1480 | all attempts but the last broke, were to be repeated and reconnected; the last is the first that was not, or the one at the limit, and it alone decides the verdict: a reply its flag, Stop the send error, a failing policy its own error, Again the send error at the limit and the reconnect error below it; which sends carry the frame |
| `Retry.LastIs` | ignite-rs/src/transport.rs:1453-1476 | the last attempt is the first one that is not a retryable failure below the limit |
| `Retry.RetryBounds` | ignite-rs/src/transport.rs:1396-1461 | at most `retry_limit + 1` sends, a reply (server failure included) is never followed by a send, the first max(1, `retry_limit`) sends carry the frame |
| `Retry.AllFullExactlyWhen` | ignite-rs/src/transport.rs:1396-1401 | all sends carry the frame if and only if the loop stops before attempt `retry_limit` or no retry is allowed |
| `Retry.RetrySendsNothing` | ignite-rs/src/transport.rs:1396-1401 | with one retry allowed, the retry sends an empty buffer |
| `Retry.RoundTripWithRoute` | ignite-rs/src/transport.rs:1497-1607 | at most 1 send for a pinned route, `retry_limit + 1` for the default one, `retry_limit + 2` for a preferred node; the verdict of every route by the attempts it met |
| `Retry.NothingAfterReply` | ignite-rs/src/transport.rs:1548-1606 | on every route only a broken channel is followed by another send |
| `Topology.DedupeLoop` | ignite-rs/src/topology.rs:258-264 | the hash-set filter keeps first occurrences |
| `Topology.DedupeMeaning` | ignite-rs/src/topology.rs:258-264 | nothing lost, nothing repeated, order of first occurrence |
| `Topology.FlattenLoop` | ignite-rs/src/topology.rs:250-256 | endpoint lists in key order, deduplicated |
| `Topology.EndpointsMeaning` | ignite-rs/src/topology.rs:266-270 | the merged list holds every seed and every endpoint of every discovered node, each once |
| `Topology.TopologyCache.constructor` | ignite-rs/src/topology.rs:59-73 | the initial cached list is the merge |
| `Topology.TopologyCache.ReplaceSeeds` | ignite-rs/src/topology.rs:99-111 | returns exactly the dropped seeds, each once; cached list equals the recomputed merge |
| `Topology.TopologyCache.NextIndexAfter` | ignite-rs/src/topology.rs:117-128 | the place behind the first occurrence of the address, cyclically, or 0 |
| `Topology.TopologyCache.RecordNode` | ignite-rs/src/topology.rs:135-141 | node ids stay distinct |
| `Topology.TopologyCache.RecordNodeEndpoint` | ignite-rs/src/topology.rs:143-161 | the endpoint is recorded once for the node, the node is covered, the cached list follows |
| `Topology.TopologyCache.SetCurrentDcNodes` | ignite-rs/src/topology.rs:171-173 | keeps first occurrences only |
| `Topology.TopologyCache.NeedsRefresh` | ignite-rs/src/topology.rs:183-190 | versions compare by major, then minor; without a version every one is news |
| `Topology.TopologyCache.ApplyDiscovery` | ignite-rs/src/topology.rs:192-223 | the whole new state; node ids stay distinct and cover all discovered nodes, the cached list equals the recomputed merge; `TopologyMeaning` says what the new state means |
| `TopologyMeaning.DiscoveryMeaning` | ignite-rs/src/topology.rs:200-218 | per node: a removed one is gone; an added one has exactly the endpoints of its last entry, each once and in their order; any other is unchanged |
| `TopologyMeaning.EndpointsAfterDiscovery` | ignite-rs/src/topology.rs:200-222 | the endpoint list after a discovery holds exactly the seeds, the endpoints of the added nodes and those of the nodes kept |
| `TopologyMeaning.RecordingMeaning` | ignite-rs/src/topology.rs:152-160 | recording an endpoint keeps what was recorded, in place, and touches no other node |
| `TopologyMeaning.SeedsComeFirst` | ignite-rs/src/topology.rs:266-270 | the list is the seeds in their order, then the discovered endpoints that are no seeds in theirs |
| `TopologyMeaning.NodesAscend` | ignite-rs/src/topology.rs:250-256 | nodes are visited in ascending order of their ids |
| `TopologyMeaning.ComparesAtDifference` | ignite-rs/src/topology.rs:250-256 | ids compare at the first character where they differ |
| `TopologyMeaning.WithoutKeepsOrder` | ignite-rs/src/topology.rs:212-218 | removing ids keeps the order of the rest |
| `Topology.TopologyCache.TakeSnapshot` | ignite-rs/src/topology.rs:225-237 | the snapshot recomputed under the lock lists the same endpoints as the lock-free reader |
| `Affinity.RendezvousMeaning` | ignite-rs/src/affinity.rs:450-472 | for every hash and every n > 0 the partition is in 0..n; for powers of two it is the folded hash modulo n, otherwise the absolute value of the hash modulo n, 2^31 included |
| `Affinity.EveryPartitionIsReached` | ignite-rs/src/affinity.rs:450-472 | every partition of a map with at most 65536 partitions is some hash's partition |
| `Affinity.KeyGoesToItsPartition` | ignite-rs/src/affinity.rs:206-258 | for every typed key with a known hash, the look-up from its marshalled bytes returns the entry of the partition of its Java hash, and that partition exists |
| `Affinity.LatestMeaning` | ignite-rs/src/affinity.rs:157-179 | what counts as the latest map: brought by some apply, with no later apply or invalidation touching the cache |
| `Affinity.SilentUntilApply` | ignite-rs/src/affinity.rs:118-126 | after `invalidate` nothing is known about any cache until the next apply, whatever else happens |
| `Affinity.AffinityCache.Invalidate` | ignite-rs/src/affinity.rs:118-126 | forgets everything and clears both flags |
| `Affinity.AffinityCache.InvalidateCache` | ignite-rs/src/affinity.rs:128-145 | forgets one cache; the flag is set exactly when the remaining maps, of which there must be one, name at most one node |
| `Affinity.AffinityCache.Apply` | ignite-rs/src/affinity.rs:157-179 | new maps override old; the flag is set exactly when all maps together name at most one node |
| `Affinity.AffinityCache.NeedsRefresh` | ignite-rs/src/affinity.rs:147-150 | true exactly when no latest map is known |
| `Affinity.AffinityCache.IsSingleNode` | ignite-rs/src/affinity.rs:152-155 | the atomic flag equals the stored one; when set, any two look-ups that find a node, over all caches, partitions and both maps, find the same |
| `Affinity.AffinityCache.NodeForPartition` | ignite-rs/src/affinity.rs:181-203 | the entry the latest map lists for the partition; negative and too large partitions have none |
| `Affinity.AffinityCache.ResolveNodeForKey` | ignite-rs/src/affinity.rs:206-235 | the node the latest map gives the key, none when stale |
| `Affinity.AffinityCache.NodeForMarshaledKey` | ignite-rs/src/affinity.rs:237-258 | the same answer as `resolve_node_for_key` in every reachable state |
| `Affinity.AllNodes` | ignite-rs/src/affinity.rs:131-140 | the collected nodes are exactly those some cached map names, in any iteration order |
| `Affinity.OneNodeAnswersAlike` | ignite-rs/src/affinity.rs:181-203 | with at most one node named all look-ups agree |
| `PartitionReply.MapMeaning` | ignite-rs/src/affinity.rs:403-448 | the map's length is the largest listed id plus one, each entry is the last-listed node naming that id, gaps are empty |
| `PartitionReply.PlaceExtends` | ignite-rs/src/affinity.rs:439-443 | resizing and overwriting one entry adds one listed id to the map |
| `PartitionReply.ReadPartitionMap` | ignite-rs/src/affinity.rs:403-448 | on all inputs the loops decode the node list to its map or stop with its fault, limits included |
| `PartitionReply.ReadCacheEntries` | ignite-rs/src/affinity.rs:316-333 | cache ids in order, and whether any of them has key configurations |
| `PartitionReply.ReadGroup` | ignite-rs/src/affinity.rs:303-377 | one group, applicable or not, merged over the maps read so far |
| `PartitionReply.ReadWithFlags` | ignite-rs/src/affinity.rs:292-388 | on all inputs and flag settings the method follows the reply parse |
| `PartitionLayout.DecodesToMeaning` | ignite-rs/src/affinity.rs:271-388 | for every well-formed reply and all four flag settings the decoder consumes exactly the reply's bytes and yields its meaning: shared maps per group, data-centre fallback, shared key-configuration flag |
| `PartitionLayout.GetPutNodes` | ignite-rs/src/affinity.rs:403-448 | an encoded node list decodes to its map and leaves what follows |
| `PartitionLayout.AppliedReply` | ignite-rs/src/affinity.rs:157-179 | after applying a decoded reply the latest map of a cache is the one of the last group listing it |
| `PartitionLayout.ReplyFieldByField` | ignite-rs/src/affinity.rs:271-290 | the documented layout, field by field, for a reply with one of everything |
| `PartitionLayout.MeaningListsCaches` | ignite-rs/src/affinity.rs:346-375 | a group gives a map to exactly the caches it names |
| `PartitionLayout.UnlistedStays` | ignite-rs/src/affinity.rs:300-380 | a reply says nothing about a cache that no group names |
| `PartitionRefusals.NodeCountRefused` | ignite-rs/src/affinity.rs:403-413 | fewer than none or more than 4096 nodes are refused |
| `PartitionRefusals.PartitionCountRefused` | ignite-rs/src/affinity.rs:418-427 | fewer than none or more than 65536 partitions of a node are refused |
| `PartitionRefusals.PartitionIdRefused` | ignite-rs/src/affinity.rs:429-438 | a partition id below 0 or above 65535 is refused, wherever it stands |
| `PartitionRefusals.GroupCountRefused` | ignite-rs/src/affinity.rs:298-301 | a negative number of groups is refused |
| `PartitionRefusals.CacheCountRefused` | ignite-rs/src/affinity.rs:307-310 | a negative number of caches is refused |
| `PartitionRefusals.KeyConfigCountRefused` | ignite-rs/src/affinity.rs:318-321 | a negative number of key configurations is refused |
| `GroupRouting.NodeOfPartition` | ignite-rs/src/affinity.rs:429-444 | the map names, for each partition, the last node of the reply to list it |
| `GroupRouting.NobodyLists` | ignite-rs/src/affinity.rs:439-443 | the map names nobody for a partition nobody lists |
| `GroupRouting.MapLength` | ignite-rs/src/affinity.rs:439-443 | the map ends behind the highest partition anybody lists |
| `GroupRouting.RoutedByGroup` | ignite-rs/src/affinity.rs:206-235 | a key of any type with a known hash goes to the node that its group lists last for the key's partition, in the primary or the data-centre map |
| `GroupRouting.NotRoutedByGroup` | ignite-rs/src/affinity.rs:216-225 | a group with a key configuration, without partitions, or not applicable routes no key at all, whatever its bytes |
| `GroupRouting.UnknownIsNotRouted` | ignite-rs/src/affinity.rs:226-227 | a key whose hash the client does not know is routed nowhere |
| `GroupRouting.OneNodeGetsEveryKey` | ignite-rs/src/affinity.rs:206-235 | an instance: a reply with one node and one cache routes every integer key to that node |
| `Routing.FoundAfterReply` | ignite-rs/src/affinity.rs:157-179 | the map of a cache after a reply was applied and events not touching the cache followed |
| `Routing.RoutedExactlyWhen` | ignite-rs/src/affinity.rs:206-258 | for every key of every type and both maps, the look-up answers where the group sends the key: the last-listed node of its partition if the group routes by hash and the hash is known, nowhere otherwise |
| `Routing.RouteAfterReply` | ignite-rs/src/affinity.rs:206-235 | reply bytes read and applied, any events not touching the cache, any key of any type marshalled and looked up: the answer is where the last group naming the cache sends the key, and exactly the reply's bytes were consumed |
| `KeyHashing.HashOfMarshalled` | ignite-rs/src/affinity.rs:478-513 | for every typed key, followed by any bytes, the hash recomputed from the marshalled form is the Java hash of the key: primitives, strings, arrays, optional and derived objects; unknown exactly for the other types |
| `KeyHashing.ArrayHashLoop` | ignite-rs/src/affinity.rs:515-576 | the six loops compute the base-31 hash of the decoded elements, or give up at the end of input |
| `KeyHashing.MarshalledBytesHash` | ignite-rs/src/utils.rs:14-21 | for byte arrays the affinity hash equals `bytes_to_java_hashcode` |
| `WireFormat.HashOf42` | ignite-rs/src/affinity.rs:740-745 | 42 as an int hashes to 42 |
| `WireFormat.HashOfBooleans` | ignite-rs/src/affinity.rs:750-753 | booleans hash to 1231 and 1237 |
| `WireFormat.HashOfAbc` | ignite-rs/src/affinity.rs:746-749 | the bytes of "abc" hash to 96354 |
| `WireFormat.HashOfSmallTypes` | ignite-rs/src/affinity.rs:483-491 | bytes and shorts are signed, chars are not |
| `WireFormat.MaskedPartition` | ignite-rs/src/affinity.rs:757-758 | hash 42 is in partition 10 of 16 |
| `WireFormat.NegativePartitions` | ignite-rs/src/affinity.rs:759-768 | hash -5 is in partition 5 of 10 and 2 of 3 |
| `WireFormat.SmallestHashPartition` | ignite-rs/src/affinity.rs:770-770 | the smallest hash is in partition 2 of 3 |
| `WireFormat.NegativeLengthKeys` | ignite-rs/src/affinity.rs:515-524 | an array key with a negative length hashes like an empty one, a string key with one panics |
| `WireFormat.ShortObjectKey` | ignite-rs/src/affinity.rs:504-507 | an object key shorter than twelve bytes has no hash |
| `JavaStrings.PlaneStringAgrees` | ignite-rs/src/utils.rs:6-12 | every string in the basic multilingual plane hashes as in Java |
| `JavaStrings.PlaneCharacterKeeps` | ignite-rs/src/utils.rs:6-12 | for every string, a character of the plane at its end changes nothing about agreement |
| `JavaStrings.SupplementaryCharacter` | ignite-rs/src/utils.rs:6-12 | for every string, agreement after a supplementary character is one congruence modulo 2^32 between the two hashes before it |
| `JavaStrings.DecidedAtLastSupplementary` | ignite-rs/src/utils.rs:6-12 | every string with a supplementary character agrees with Java if and only if that congruence holds at its last one |
| `JavaStrings.LeadingSupplementaryNeverAgrees` | ignite-rs/src/utils.rs:6-12 | a supplementary character followed by text of the plane never agrees, whatever the length |
| `JavaStrings.SupplementaryCanAgree` | ignite-rs/src/utils.rs:6-12 | a string with a supplementary character that does agree |
| `JavaHash.StringToJavaHashcode` | ignite-rs/src/utils.rs:6-12 | the wrapping loop computes the base-31 polynomial modulo 2^32 |
| `JavaHash.BytesToJavaHashcode` | ignite-rs/src/utils.rs:14-21 | the wrapping loop computes 31^n plus the polynomial of the signed bytes modulo 2^32 |
| `JavaHash.HornerIsPolynomial` | ignite-rs/src/utils.rs:6-21 | the folded form is seed * 31^n plus the sum of x_i * 31^(n-1-i) |
| `JavaHash.PolyHashSnoc` | ignite-rs/src/utils.rs:14-21 | one wrapping turn of the loop extends the polynomial by one term |
| `JavaHash.LongHashFoldsHalves` | ignite-rs/src/affinity.rs:474-476 | the 64-bit hash is the exclusive or of the two 32-bit halves |
| `CodecRoundTrip.ReadOfWrite` | ignite-rs/src/protocol/data_types.rs:14-214 | for every type and every value of it, followed by any bytes, what reading the encoding gives: the value as seen through nested options and the rest, or a panic |
| `CodecRoundTrip.RoundTripExactly` | ignite-rs/src/protocol/data_types.rs:196-214 | the value itself and exactly the rest come back if and only if the value has no null field and no nested option that collapses |
| `CodecRoundTrip.NullFieldPanics` | ignite-rs_derive/src/lib.rs:106-113 | an absent field of a derived object makes its reader panic |
| `CodecRoundTrip.SizeIsLength` | ignite-rs/src/protocol/data_types.rs:14-180 | `size()` is the number of bytes written, for every type to any depth |
| `CodecRoundTrip.EnvelopesAreTransparent` | ignite-rs/src/protocol/mod.rs:156-168 | any number of WrappedData envelopes changes neither the value read nor what is left |
| `CodecRoundTrip.HeaderIsAccurate` | ignite-rs_derive/src/lib.rs:66-98 | bytes 0 to 24 in full: code 103, version 1, flags 3, type id, hash of the field bytes, total length (which is `size()`), FNV-1 of the field ids, place of the footer |
| `SchemaHash.SchemaIsFnv1` | ignite-rs_derive/src/lib.rs:173-192 | the schema id is FNV-1, one byte at a time, over the little-endian field ids in order |
| `CodecRoundTrip.FooterPointsAtFields` | ignite-rs_derive/src/lib.rs:46-53 | each footer entry holds the field's id and the exact offset of the field's bytes |
| `CodecRoundTrip.PlainIsSeenWhole` | ignite-rs/src/protocol/data_types.rs:196-214 | a value without nulls below the top is seen unchanged |
| `WireFormat.TypeCodes` | ignite-rs/src/protocol/mod.rs:25-76 | every value starts with the code the protocol gives its type |
| `WireFormat.LengthsAndParts` | ignite-rs/src/protocol/data_types.rs:38-45 | what stands behind the code: string lengths in bytes, array lengths in elements, the type id -1 of object arrays, type id and ordinal of enums |
| `WireFormat.LittleEndian` | ignite-rs/src/protocol/mod.rs:245-330 | byte i of an integer is its i-th digit in base 256 |
| `CodecRefusals.CollectionReadsAsArray` | ignite-rs/src/protocol/data_types.rs:175-185 | the collection layout, of any kind, reads back as the object array with the same elements |
| `CodecRefusals.HeaderAcceptedExactlyWhen` | ignite-rs_derive/src/lib.rs:128-148 | the derived reader takes a header if and only if the schema bit is set, compact-footer and offset bits are clear, and the type id is its own |
| `CodecRefusals.UnknownCodeRefused` | ignite-rs/src/protocol/mod.rs:77-128 | codes that name no type are refused by every reader |
| `CodecRefusals.OtherCodesKnown` | ignite-rs/src/protocol/mod.rs:77-128 | all other codes are taken |
| `CodecRefusals.WrongContainerRefused` | ignite-rs/src/protocol/data_types.rs:186-187 | an object array accepts the codes 23 and 24 only |
| `CodecRefusals.NegativeLengthPanics` | ignite-rs/src/protocol/mod.rs:190-193 | a negative length makes strings and both kinds of arrays panic |
| `CodecRefusals.ShortStringRefused` | ignite-rs/src/protocol/mod.rs:194-199 | a string longer than what is left ends in the end-of-input fault |
| `CodecRefusals.NonzeroIsTrue` | ignite-rs/src/protocol/mod.rs:203-209 | any byte but zero is true |
| `CodecStream.WriteValue` | ignite-rs/src/protocol/data_types.rs:14-195 | every writer appends exactly the encoding to its buffer |
| `CodecStream.WriteFields` | ignite-rs_derive/src/lib.rs:46-53 | the derived loop fills the field buffer and the footer buffer in step |
| `CodecStream.WriteObject` | ignite-rs_derive/src/lib.rs:66-98 | the derived `write` appends header, fields and footer |
| `CodecStream.SizeOf` | ignite-rs/src/protocol/data_types.rs:25-168 | the size loops return the number of bytes that `write` appends |
| `CodecStream.ReadValue` | ignite-rs/src/protocol/mod.rs:156-168 | on all inputs the reader follows the parse: same value and position, an error where it fails, a panic exactly where it panics |
| `CodecStream.ReadBody` | ignite-rs/src/protocol/data_types.rs:53-214 | the unwrapped readers of all types follow the parse |
| `CodecStream.ReadFieldValues` | ignite-rs_derive/src/lib.rs:106-113 | the derived reader reads and unwraps the fields in order |
| `CodecStream.ReadPrims` | ignite-rs/src/protocol/mod.rs:349-360 | the loop of `read_primitive_arr` reads the elements in order |
| `Utf8.DecodeOfEncode` | ignite-rs/src/protocol/mod.rs:183-201 | the UTF-8 check accepts what the writer emits and returns the same characters |
| `Utf8.EncodeOfDecode` | ignite-rs/src/protocol/mod.rs:195-198 | nothing but the encoding of a string is accepted |
| `Wire.GetPutI` | ignite-rs/src/protocol/mod.rs:245-330 | a little-endian signed integer of any width is read back, and only its bytes are consumed |
| `Wire.PutGetI` | ignite-rs/src/protocol/mod.rs:245-330 | no other bytes decode to the same integer |
| `Wire.Reader.ReadI32` | ignite-rs/src/protocol/mod.rs:271-277 | reads four bytes or fails at the end of input |
| `Wire.Reader.ReadI64` | ignite-rs/src/protocol/mod.rs:297-303 | reads eight bytes or fails at the end of input |
| `Uuid.ReadUuidString` | ignite-rs/src/connection_async.rs:791-812 | sixteen bytes become the text form of the two halves |
| `Uuid.WriteHex` | ignite-rs/src/connection_async.rs:816-835 | the shift loop appends the digits of the number, most significant first |
| `Uuid.UuidRoundTrip` | ignite-rs/src/cluster.rs:432-445 | parsing the text of any two 64-bit halves returns them |
| `Uuid.UuidShape` | ignite-rs/src/connection_async.rs:795-810 | 36 characters, dashes exactly at 8, 13, 18 and 23 (section 4 of RFC 9562) |
| `Uuid.UuidInjective` | ignite-rs/src/connection_async.rs:791-812 | two nodes with the same text are the same node |
| `Uuid.TextDigits` | ignite-rs/src/connection_async.rs:798-809 | without its dashes the text is the two halves in sixteen digits each |
| `WireFormat.HexDigits` | ignite-rs/src/connection_async.rs:816-835 | digit i is the i-th from the left |
| `WireFormat.DigitCharacters` | ignite-rs/src/connection_async.rs:814-814 | the digits are 0 to 9 and a to f |
| `Uuid.WrongLengthRefused` | ignite-rs/src/cluster.rs:433-438 | anything not 32 bytes long without its dashes is refused |
| `Uuid.BadCharacterRefused` | ignite-rs/src/cluster.rs:440-443 | a character that is no hexadecimal digit is refused, a plus sign in front of a half excepted |
| `Transaction.RunInv` | ignite-rs/src/tx.rs:263-311 | in every run at most one task holds the mutex, and sent TxEnds are accounted for by the state and the abandoned ones |
| `Transaction.AtMostOneEnd` | ignite-rs/src/tx.rs:263-311 | in every run at most one TxEnd is sent beyond those whose sender was cancelled while awaiting the answer |
| `Transaction.AtMostOneEndUncancelled` | ignite-rs/src/tx.rs:177-225 | without cancelled futures commits, rollbacks and the drop task together send at most one TxEnd |
| `Transaction.SilentOnceLost` | ignite-rs/src/tx.rs:127-129 | once Lost is written no TxEnd is sent, with or without cancellation |
| `Transaction.ActiveNeverAgain` | ignite-rs/src/tx.rs:240-250 | Active is never re-entered, and no cache operation is admitted after it was left |
| `Transaction.CommittedCanBeLost` | ignite-rs/src/tx.rs:127-129 | Committed is not permanent |
| `Transaction.EndTakesEffect` | ignite-rs/src/tx.rs:263-300 | a commit or rollback that finds the transaction Active sends its TxEnd, and once answered leaves Committed or RolledBack accordingly |
| `Transaction.DropTakesEffect` | ignite-rs/src/tx.rs:209-224 | the drop task of an Active transaction rolls it back and sends the TxEnd |
| `Transaction.OverIsLeftAlone` | ignite-rs/src/tx.rs:271-281 | a commit, rollback or drop that finds the transaction over sends nothing and changes nothing |
| `Transaction.CheckAdmitsExactlyWhen` | ignite-rs/src/tx.rs:240-250 | a cache operation is admitted exactly when its check finds the transaction Active |
| `Transaction.CommittedOnlyByCommit` | ignite-rs/src/tx.rs:296-300 | a transaction is Committed only because the TxEnd of some commit was answered |
| `Transaction.CancelledCommitEndsTwice` | ignite-rs/src/tx.rs:283-300 | from any run with a commit awaiting its answer, cancelling it lets a rollback send a second TxEnd |

## Left out

- Sockets, TLS, handshake, timers and task spawning: foreign calls, represented by nondeterministic steps or parameters.
- Notification listeners and pending notification frames: two separate locks, no guarantee at lock granularity to prove.
- `protocol/complex_obj.rs` and dynamic values: not part of this model.
- Registration of the schema in a process-wide registry while a derived object is written: no effect on the bytes.
- Allocation failure for absurd but non-negative lengths in a message, and the capacity promise of the write-buffer pool.
- Error message texts and the classification of errors: replaced by a fault kind, and by an arbitrary policy answer in the retry loop.
- Data-centre-aware choice of the default channel, heartbeat, the prime-discovered-channels loop and the initial connect loop: the same patterns as the modelled loops.
- Request bodies, feature gates, opcode tables, cursors, binary metadata, cache configuration, events, benches: straight-line code with easy claims.
- Key hashes of floats follow the code (raw bits); Java's canonical NaN is not modelled.
- Interleavings inside one `AffinityCache`, topology or manager operation: each operation is one step; inside the channel and the transaction every await and lock section is a step.
- ChannelManager.Manager.InsertChannel: the key counter is unbounded, where the code's 64-bit counter would wrap.
- ChannelManager.Manager.ConnectSpecific: stops after recording the new channel's identity; the topology refresh that the code runs next is the separate operation `ApplyDiscovery`.
- ChannelManager.Manager.ReconnectFrom: the same refresh after a new connection inside the round is a separate operation.
- ChannelManager.Manager.CacheChannelIdentity: the topology refresh that follows a new connection is a separate operation (`ApplyDiscovery`) in the model.
- Transaction.AtMostOneEnd: the drop task may start at any time in the model, where the code starts it only for the last handle; the bound holds a fortiori.
- CodecStream.ReadValue: behind an envelope whose payload is faulty the kind of error is not fixed, because the code then still reads the trailing offset, and whether that fails depends on where the standard library leaves a reader after a failed read.
- CodecStream.ReadBody: error kinds are open where a nested value is read through `ReadValue`.
- CodecStream.ReadFieldValues: error kinds are open as in `ReadValue`.
