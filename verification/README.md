# proxyd in Dafny

A model of proxyd, the JSON-RPC proxy for Ethereum nodes, and proofs about the parts of it that
carry its promises: agreeing on one block across backends, sharing that agreement between proxy
instances, rewriting requests so that every backend reads them alike, and answering batches slot
by slot.  `dafny verify dfyconfig.toml` checks everything.

| file | what it models |
|---|---|
| `BackendStates.dfy` | the poller's memory of one backend, and whole runs of updates, bans, unbans and resets |
| `Candidates.dfy` | which backends may serve |
| `GroupConsensus.dfy` | the scan for the lowest heights, the walk back, common ancestors, the consensus-broken event |
| `ConsensusPoller.dfy` | the poller object, whose methods are proved against the three files above |
| `ConsensusTracker.dfy` | one instance of the Redis tracker: the heartbeat, one Redis operation at a time |
| `LeaderElection.dfy` | many instances interleaving, lock expiry, lost answers, stale leaders |
| `Hex.dfy`, `Rewriter.dfy` | hex quantities, EIP-1898 block parameters, block tags and log ranges |
| `Replies.dfy`, `BackendGroup.dfy`, `BatchRpc.dfy` | sorting and merging replies, failover, the batch pipeline |
| `Multicall.dfy` | the multicall fan-out |
| `RpcCache.dfy` | the response cache and the in-place changes of a request between lookup and store |
| `SlidingWindow.dfy` | the moving average behind backend health |
| `RateLimiter.dfy` | the in-memory fixed-window limiter |
| `Uint64.dfy`, `Durations.dfy`, `Wrappers.dfy` | 64-bit wrap-around; rounding of times; missing values and failing queries |

How the world outside enters: backend answers, Redis answers, clock readings, cache faults and
the order in which a Go map is visited are arbitrary.  Answers are functions of what is asked
where each question is asked at most once; map iteration picks any key not yet visited; a clock
reading is a parameter.  `UpdateBackend` and `UpdateBackendGroupConsensus` are atomic steps.

Some promises hold only under a condition.  The exact condition is proved, and a lemma shows an
input at which the promise fails:

- The scan for the lowest latest, safe and finalized block uses zero for "unset".  Each is the true
  minimum for every iteration order exactly when no candidate or every candidate has it at zero
  (`ScanIsMinimumIff`); `MixedScanDependsOnOrder` shows two orders with different results.  In a
  group whose highest block is above `maxBlockLag` all three are true minima (`RunsGiveLowest`).
- The walk back stays at or above block zero exactly when the candidates share their genesis block
  (`WalkFindsHighestCommonAncestor`).  Without one it wraps to 2^64 - 1 and, since no backend
  answers for that block, publishes it (`WithoutCommonGenesisTheWalkWraps`, `DifferentGenesis`).
- After a walk back the published safe block is still at or below the published latest exactly
  when the candidates share the chain up to the lowest safe block (`PublishedTagsOrderedIff`,
  `ForkBelowSafe`).
- The consensus-broken listeners fire exactly when the candidates do not share the previous
  consensus block or, if that is lower, their lowest latest (`BrokenIffNotShared`).  A regression
  that merely follows the lowest latest down fires nothing (`QuietRegression`).
- A forwarded block parameter means the same to every backend exactly when it names a block: null
  and an object without number or hash pass through (`ParamKeepsMeaningIff`,
  `NullMeansEachNodesLatest`).
- A forwarded log filter selects the same on every backend exactly when it is pinned
  (`FilterKeepsMeaningIff`).  A filter with neither bound is forwarded as it is, without a range
  check, and read at each backend's own latest block (`EmptyFilterIsForwarded`).  A bound given as
  null or as an empty string is read likewise, and can pass only while no maximum range is
  configured.  A filter by block hash that names one bound without a value gets the other by
  default, which contradicts the hash.
- An inverted log range is refused unless the configured maximum is at least 2^63 and at least the
  wrapped difference of its bounds (`AcceptedRangeIff`, `InvertedRangeAccepted`).
- Rewriting panics exactly for `eth_getLogs` and `eth_newFilter` with an empty parameter list
  (`PanicsIff`).
- A leader that lost its lock, at whatever point of its heartbeat, starts no publication and does
  not follow until it finds the lock absent (`StaleLeaderStartsNothing`).  It serves the same triple
  all that time unless it was in the middle of a publication (`StaleLeaderIsFrozen`); that one it
  may still finish, and serve (`StaleLeaderFinishesPublishing`).
- A `consensus_getReceipts` answer is wrapped exactly when the first attempt gave it: later ones, by
  the same backend or another, find the request already translated, for the first one's target
  (`WrappedIff`, `FailoverLosesTheWrapper`).
- A cached response is an answer a backend gave to exactly that request unless the signatures of
  two params collide: what is stored for a request is found by exactly the requests of its method
  and signature (`StoredIsFoundIff`).
- The published tags are ordered as rewriting needs them exactly when the candidates share the
  lowest safe and finalized blocks and the published block is an int64
  (`PublishedContextIsOrderedIff`).  A latest block of 2^64 - 1 makes rewriting refuse every block
  number but zero and send "latest" as something else (`WrappedLatestBreaksRewriting`).
- The rate limiter's windows are apart when the duration is a whole number of seconds
  (`WholeSecondWindows`); shorter windows merge (`SubSecondWindowsMerge`).
- `Clear` on the sliding window keeps the buckets, so its totals are right afterwards only if they
  were zero before (`AvgSlidingWindow.Clear`, `ClearedTotalsAreWrong`).

## Model

| member | source | states |
|---|---|---|
| Uint64.Sub | consensus_poller.go:787 | unsigned subtraction: exact when it does not go below zero, plus 2^64 otherwise |
| BackendStates.StepKeepsSound | consensus_poller.go:306-420 | every poller operation keeps each backend's three tags all zero or all positive, and ordered for a backend that may be banned |
| BackendStates.RunKeepsTagsSound | consensus_poller.go:306-434 | over every run of updates, bans, unbans and resets from a reset poller, the tags of every backend are all zero or all positive, and finalized <= safe <= latest for unforced ones |
| BackendStates.StepKeepsOrZeroesTags | consensus_poller.go:306-434 | one operation lowers safe or finalized of an unforced backend only if it is a reset or a ban of it, by hand or by an update that found it unhealthy or implausible, and that drops all its tags to zero |
| BackendStates.TagsFallOnlyToZero | consensus_poller.go:306-434 | over a run, safe or finalized of an unforced backend is lower at the end only if some event of the run reset the poller or banned the backend, and left all its tags at zero |
| BackendStates.BanLastsItsPeriod | consensus_poller.go:579-593 | after a ban, whatever else happens and however often the backend is polled, its state stays the banned one and it is banned at exactly the instants before now + banPeriod |
| BackendStates.BannedStateIsFrozen | consensus_poller.go:310-313 | polling a banned backend changes nothing, so no update extends a ban |
| BackendStates.BanEnds | consensus_poller.go:589-592 | once the period is over, a complete and ordered probe is stored, from any block |
| BackendStates.PlausibleProbeIsStored | consensus_poller.go:306-400 | a usable, plausible probe of an unbanned backend leaves exactly its sync flag, hash, peers and heights in the state, the stored reading as time, and the ban as it was |
| BackendStates.UpdateBansOrIgnores | consensus_poller.go:306-420 | an update bans exactly unhealthy or implausible unforced backends, from the last clock reading, and a probe with a failed query or a zero changes nothing |
| BackendStates.StateTellsOneProbe | consensus_poller.go:306-434 | over every run, what is recorded of a backend is nothing, or exactly what one probe of the run said, except that a ban may have zeroed the heights since |
| BackendStates.UnbanLiftsTheBan | consensus_poller.go:596-601 | after Unban a backend is not banned, from now on, and nothing else changes |
| Candidates.SurvivorsAgree | consensus_poller.go:740-798 | survivors keep their state, any two are within maxBlockLag, and one survives if any passed the earlier checks |
| Candidates.ZeroBlockSurvivesIff | consensus_poller.go:784-795 | a candidate at block zero, forced or not, survives if and only if the highest block is within maxBlockLag of zero |
| Candidates.Group.Select | backend.go:755-774 | primaries and fallbacks are the members whose configured flag says so; unconfigured members are neither |
| Candidates.GroupNeverMixes | consensus_poller.go:718-728 | the serving group never mixes primaries with fallbacks, and uses fallbacks only when no primary is eligible |
| Candidates.EligibleIff | consensus_poller.go:740-773 | before the lag filter exactly the forced backends remain and those that are not banned, healthy, in sync, updated within the threshold, and exempt from the peer check or with enough peers |
| Candidates.CandidatesAreFit | consensus_poller.go:740-798 | no unforced candidate is banned, unhealthy, out of sync, stale or short of peers |
| Candidates.CandidateWasProbedInSync | consensus_poller.go:306-420 | over whole runs, the last recorded probe of an unforced candidate said it was in sync with peers enough, at most the threshold ago |
| GroupConsensus.ScanPrefixMinimum | consensus_poller.go:451-462 | without zeros in it every scan order yields the minimum of each of the three heights, attained by a candidate, and the hash of a candidate at the lowest latest |
| GroupConsensus.ScanIsMinimumIff | consensus_poller.go:451-462 | the scan yields the true, attained minimum of latest, of safe and of finalized for every iteration order if and only if no candidate or every candidate has that height at zero |
| GroupConsensus.MixedScanDependsOnOrder | consensus_poller.go:451-455 | two candidates, one at zero, whose scan gives 5 in one order and 0 in the other |
| GroupConsensus.UnmixedScanIsMinimum | consensus_poller.go:451-462 | the positive half of the above for one order |
| GroupConsensus.ScanIsOrdered | consensus_poller.go:451-462 | unforced candidates with sound tags give finalized <= safe <= latest for every order, although zero means unset |
| ConsensusPoller.FinalRoundAgrees | consensus_poller.go:478-506 | with any errors, views and empty hashes, every candidate that answered for the published block gave that number, the non-empty hashes they gave are one hash, and the block is not above any candidate's latest unless the walk wrapped |
| ConsensusPoller.EndsAtLowestLatestIff | consensus_poller.go:464-502 | the walk ends at the lowest latest block if and only if every candidate that answered for it gave its number and exactly the recorded hash, whoever failed |
| ConsensusPoller.OtherHashSendsTheWalkBelow | consensus_poller.go:464-512 | a candidate that answers the lowest latest block with another hash than the recorded one sends the walk below it, whoever else fails |
| GroupConsensus.AgreesIffShared | consensus_poller.go:479-502 | with chain-backed answers a round agrees exactly at blocks all candidates share |
| GroupConsensus.WalkFindsHighestCommonAncestor | consensus_poller.go:464-512 | the walk stays above genesis if and only if the candidates share their genesis block, and then the agreed block is the highest block, not above any candidate's latest, at which all candidates have the same hash, for every iteration order |
| GroupConsensus.WithoutCommonGenesisTheWalkWraps | consensus_poller.go:503-510 | without a common genesis block, and without an answer for block 2^64 - 1, the walk wraps and agrees on that block |
| GroupConsensus.DifferentGenesis | consensus_poller.go:503-510 | two candidates with different genesis blocks for which the published block is 2^64 - 1 |
| GroupConsensus.PublishedTagsOrderedIff | consensus_poller.go:525-528 | after the walk finalized <= safe <= latest holds if and only if it held of the lowest heights and the candidates share the lowest safe block, forced candidates or not |
| GroupConsensus.ForkBelowSafe | consensus_poller.go:525-528 | two candidates forked below their safe block: published safe 4, published latest 2 |
| GroupConsensus.BrokenIff | consensus_poller.go:488-518 | a round at or below the previous consensus block mismatched if and only if the new block is below both the previous one and the lowest latest, or the walk wrapped |
| GroupConsensus.BrokenIffNotShared | consensus_poller.go:488-518 | in terms of the chains alone: the listeners fire if and only if the candidates do not share the lower of the previous consensus block and the lowest latest |
| GroupConsensus.QuietRegression | consensus_poller.go:488-518 | candidates that fell back together from block 9 to a shared block 5: the published block is lower and nothing fires |
| ConsensusPoller.RunsGiveLowest | consensus_poller.go:437-462 | after any run of poller operations and for every iteration order the lowest heights of unforced candidates are ordered, and when a candidate, forced or not, is above maxBlockLag, lowest latest, safe and finalized are each the true minimum over the candidates and attained by one |
| ConsensusPoller.ProposalOverChains | consensus_poller.go:437-528 | one whole consensus round over chain-backed candidates, forced or not: above genesis exactly with a common one, highest common ancestor, exact order of published tags, exact broken event |
| ConsensusPoller.PublishedContextIsOrderedIff | backend.go:1525-1530 | over chain-backed candidates with a common genesis the rewriting context built from the published tags is ordered if and only if they share the lowest safe and finalized blocks, at or below the lowest latest, and the published block is an int64 |
| ConsensusPoller.WrappedContextIsNotOrdered | backend.go:1525-1530 | without a common genesis the context has latest 2^64 - 1 and is not ordered |
| ConsensusPoller.RoundIgnoresIterationOrder | consensus_poller.go:437-528 | two evaluations of the same group, each with its own map iteration orders, have the same candidates, publish the same triple and agree on the event |
| ConsensusPoller.RoundExample | consensus_poller.go:437-528 | a group of two healthy backends on one chain that meets every hypothesis of the results on rounds |
| ConsensusPoller.CheckRound | consensus_poller.go:478-502 | a round that agrees has the number and one common hash from every candidate that answered; without empty hashes every such round agrees, whatever the order; a mismatch marks the consensus broken exactly at or below the previous block |
| ConsensusPoller.WalkBack | consensus_poller.go:476-512 | the walk stops at the first block that agrees, going down from its start and, through block zero, on from 2^64 - 1; broken exactly as the rounds say |
| ConsensusPoller.ConsensusPoller.constructor | consensus_poller.go:269-303 | a new poller has fresh states and publishes zeros |
| ConsensusPoller.ConsensusPoller.Reset | consensus_poller.go:603-608 | every backend state is fresh again |
| ConsensusPoller.ConsensusPoller.Ban | consensus_poller.go:579-593 | is the ban step of the runs |
| ConsensusPoller.ConsensusPoller.Unban | consensus_poller.go:596-601 | is the unban step of the runs |
| ConsensusPoller.ConsensusPoller.UpdateBackend | consensus_poller.go:306-420 | is the update step of the runs, through all early returns |
| ConsensusPoller.ConsensusPoller.FilterCandidates | consensus_poller.go:740-798 | leaves exactly the eligible backends within maxBlockLag of the highest of them |
| ConsensusPoller.ConsensusPoller.HighestLatest | consensus_poller.go:775-781 | the highest latest block of the candidates, in any iteration order |
| ConsensusPoller.ConsensusPoller.WithoutLagging | consensus_poller.go:783-795 | deletes exactly the candidates more than maxBlockLag behind, in wrapping arithmetic that does not wrap here |
| ConsensusPoller.ConsensusPoller.GetConsensusCandidates | consensus_poller.go:718-728 | the filtered primaries or, only when there are none, the filtered fallbacks |
| ConsensusPoller.ConsensusPoller.ScanLowest | consensus_poller.go:444-462 | computes the scan for some order of the candidates |
| ConsensusPoller.ConsensusPoller.Propose | consensus_poller.go:437-512 | a consensus round over the current candidates |
| ConsensusPoller.ConsensusPoller.UpdateBackendGroupConsensus | consensus_poller.go:437-560 | publishes the block of the walk, wrapped or not, with the lowest safe and finalized, notifies once if broken, and serves exactly the candidates |
| ConsensusPoller.ConsensusPoller.Publish | consensus_poller.go:514-550 | the writing half: listeners, tracker and consensus group |
| ConsensusPoller.ConsensusPoller.Serving | consensus_poller.go:530-546 | the consensus group is exactly the group members that are candidates |
| ConsensusTracker.FinishInThree | consensus_tracker.go:189-293 | a heartbeat takes at most three Redis operations after reading the lock |
| ConsensusTracker.HeartbeatOutcome | consensus_tracker.go:189-356 | what a whole heartbeat comes to: followers serve what they read, leaders what they published, a free lock is tried for exactly with three positive tags that are at least those served if those are positive too, and otherwise the served state stays |
| ConsensusTracker.TriesForFreeLockIff | consensus_tracker.go:264-272 | with the lock free and both states complete, an instance tries for the lock if and only if none of its three tags is lower |
| ConsensusTracker.RedisConsensusTracker.constructor | consensus_tracker.go:147-170 | a new tracker follows, and serves zeros |
| ConsensusTracker.RedisConsensusTracker.StateHeartbeat | consensus_tracker.go:189-293 | one heartbeat is the run of single-operation steps that LeaderElection interleaves; the leader flag keeps its stored lock |
| ConsensusTracker.RedisConsensusTracker.PostPayload | consensus_tracker.go:323-356 | publishes and then serves the local state, or gives up leadership |
| LeaderElection.StepKeepsInv | consensus_tracker.go:189-356 | every Redis operation of every instance keeps the protocol invariant |
| LeaderElection.ServedStateHasProvenance | consensus_tracker.go:189-293 | over all interleavings a state key is written only by the acquirer of its lock value, every served triple is zeros or published by the acquirer of some lock value, and a leader has a stored lock |
| LeaderElection.OneHolder | consensus_tracker.go:275-291 | at most one instance holds the lock at any time, however many believe they lead |
| LeaderElection.FollowerServesWhatWasPosted | consensus_tracker.go:209-262 | a follower that reads lock and state after a leader has posted under the lock serves what the leader posted, as the leader does |
| LeaderElection.ExpiredStateIsNotFollowed | consensus_tracker.go:241-251 | a follower whose leader's state has expired goes on serving what it had |
| LeaderElection.ReleasedLockIsFree | consensus_tracker.go:195-224 | a released or expired lock is free, and who released it does not lead |
| LeaderElection.TakeoverDoesNotRegress | consensus_tracker.go:264-292 | in the heartbeat that acquires the lock a successful publication makes all served tags positive and lowers none of a complete served triple |
| LeaderElection.StaleLeaderStartsNothing | consensus_tracker.go:209-224 | a leader whose lock value is gone, wherever it stands, writes until it finds the lock absent nothing but the snapshot it was already publishing, and serves what it served before or that snapshot for as long as it believes it leads |
| LeaderElection.StaleLeaderIsFrozen | consensus_tracker.go:209-224 | a leader whose lock value is gone, and that is not publishing, serves an unchanged triple for as long as it believes it leads and does not find the lock absent |
| LeaderElection.LeaderBecomesStale | consensus_tracker.go:189-293 | a run from the start in which an instance takes the lock, publishes and is left stale by expiry |
| LeaderElection.StaleLeaderFinishesPublishing | consensus_tracker.go:275-356 | a run in which the lock expires after it was taken: the stale leader publishes and serves its snapshot all the same |
| Hex.RoundTrip | rewriter.go:269-274 | a written quantity reads back as itself and is at most 18 characters long |
| Hex.LongIsNoQuantity | rewriter.go:202-215 | nothing longer, in particular no block hash, reads as a quantity |
| Hex.Samples | rewriter.go:202-215 | how quantities look: lower case without leading zeros written, either case read, nothing without prefix or digits |
| Rewriter.ReplacementParses | rewriter.go:294-302 | a rewritten block number parses as that number, as a string and as an EIP-1898 object |
| Rewriter.TagsResolve | rewriter.go:237-274 | which block latest, safe, finalized, earliest, pending, a number and a hash mean in a view |
| Rewriter.ObjectsResolve | rewriter.go:237-252 | an EIP-1898 object is read by its number or its hash, and not with both |
| Rewriter.OnlyHashesAreThatLong | rewriter.go:237-252 | a string of 66 characters is a hash if it is 0x and hexadecimal digits, and unreadable otherwise |
| Rewriter.ValueKeepsMeaning | rewriter.go:254-310 | a rewritten value means to every node what the original means in the consensus view |
| Rewriter.ParamKeepsMeaningIff | rewriter.go:88-147 | every backend reads the forwarded block parameter as the consensus view reads the original if and only if it names a block; other parameters are untouched and no number above latest is forwarded |
| Rewriter.NullMeansEachNodesLatest | rewriter.go:96-127 | a null block parameter is forwarded as it is and means the same only to a node with the consensus latest |
| Rewriter.ParamRefusedIff | rewriter.go:88-147 | a request is refused exactly when params or block parameter are unreadable or the block is above the consensus latest |
| Rewriter.ParamIsIdempotent | rewriter.go:88-147 | rewriting a parameter again changes nothing |
| Rewriter.FilterKeepsMeaningIff | rewriter.go:149-173 | a forwarded log filter, with bounds, without, or by block hash, selects on every backend what the consensus view selects if and only if it is pinned: both bounds specified, or by hash without a bound added by default; other fields are untouched |
| Rewriter.EmptyFilterIsForwarded | rewriter.go:156-187 | a filter with neither bound is forwarded as it is, whatever the maximum range, and selects the same only on a backend with the consensus latest |
| Rewriter.AcceptedRangeIff | rewriter.go:175-187 | despite wrap-around a filter is accepted exactly when its bounds are readable and from <= to <= from + maxBlockRange, or inverted with a maximum of at least 2^63 that covers the wrapped difference; then to <= latest + 1 |
| Rewriter.EmptyBoundsAreForwarded | rewriter.go:217-235 | without a maximum range null and empty bounds are forwarded as they are |
| Rewriter.InvertedRangeAccepted | rewriter.go:175-187 | with the largest maximum every inverted range of literal blocks up to latest is accepted |
| Rewriter.FilterIsIdempotent | rewriter.go:149-200 | rewriting a log filter again changes nothing |
| Rewriter.RewriteIsIdempotent | rewriter.go:63-86 | rewriting any request again in the same context changes nothing |
| Rewriter.RequestKeepsMeaning | rewriter.go:63-200 | method by method, at the position of its block parameter or log filter, a forwarded request means on every view what the original means in the consensus view; any other method is forwarded as it is |
| Rewriter.RequestRefusedExactly | rewriter.go:63-200 | method by method, a request is refused exactly for params that cannot be read, a block above latest, or a range above the maximum, with that error |
| Rewriter.PanicsIff | rewriter.go:149-158 | rewriting indexes out of bounds exactly for log queries and filters with an empty parameter list |
| Rewriter.WrappedLatestBreaksRewriting | rewriter.go:254-310 | with a latest block of 2^64 - 1 every block number but zero is refused and latest becomes an unreadable quantity or the pending block |
| Rewriter.RewriteTags | rewriter.go:40-86 | eth_blockNumber is answered with the consensus latest; other requests are rewritten in place, and a refused one is left as it was |
| Rewriter.RewriteParamInPlace | rewriter.go:88-147 | realizes the parameter rewriting on the request object |
| Rewriter.RewriteRangeInPlace | rewriter.go:149-200 | realizes the range rewriting on the request object |
| Rewriter.RewriteFilterMap | rewriter.go:156-187 | defaults, rewrites and range-checks one log filter; a filter reported as unmodified is the original |
| Replies.OrderedByPositionIsEqual | backend.go:734-738 | a rearrangement of the request ids ordered by position is the request order |
| Replies.SortPermutes | backend.go:734-738 | sorting loses and invents nothing |
| Replies.SortBatchRPCResponse | backend.go:724-739 | without duplicate request ids nothing panics, the reply is permuted, and a reply that answers each id once comes out in request order |
| Replies.MergeUndoesSplit | backend.go:1512-1522 | inserting the local answers in index order never leaves the list and puts the answer to request i at position i |
| Replies.WeaveAt | backend.go:1512-1562 | position k holds the local answer to request k or the answer to the request sent in its place |
| Replies.OverrideResponses | backend.go:1512-1522 | performs those insertions |
| BackendGroup.Decide | backend.go:1532-1560 | a local answer and a forwarded request keep the request's id |
| BackendGroup.DecideMeans | backend.go:1532-1560 | in an ordered context a request is answered locally exactly for eth_blockNumber, with the consensus latest, and for a refusal, with the error it calls for; any other is sent on with params that mean everywhere what the original means |
| BackendGroup.AnswerMeans | backend.go:1512-1562 | an answer is that local one or, exactly where there is none, a response with the request's id of the backend that served |
| BackendGroup.DecideInPlace | backend.go:1532-1560 | the local answer or the rewritten request, decided through the request object |
| BackendGroup.OverwriteConsensusResponses | backend.go:1524-1562 | splits a batch, in order, into the local answers with their positions and, for each other request, one that means on every view what the original means in the consensus view |
| BackendGroup.ForwardToBackends | backend.go:1434-1510 | the first backend that settles the call decides: its whole reply in request order, or its refusal; otherwise no backend is available; it fails exactly in the latter cases |
| BackendGroup.FailureIs | backend.go:1434-1510 | a call fails with the refusal of the first backend that was neither skipped nor gave a wrong number of responses, or for want of one |
| BackendGroup.Forward | backend.go:777-827 | a batch without repeated ids comes back with one response per request, at position j the local answer to request j or a backend response with its id, unless no backend served it |
| BatchRpc.MembersAre | server.go:548-553 | a group holds exactly the routed requests with its occurrence number and backend group |
| BatchRpc.GroupsHaveDistinctIds | server.go:548-553 | no group holds a repeated id, so the duplicate-id panic of the sort is unreachable |
| BatchRpc.GroupRequests | server.go:467-554 | local answers are placed at once and every other request lands in its group |
| BatchRpc.MinibatchIsBatch | server.go:571-586 | a minibatch is not empty, not larger than maxUpstreamBatchSize, repeats no id, and holds only misses of one group |
| BatchRpc.SentOnce | server.go:584-586 | a request is sent in one minibatch only |
| BatchRpc.AnsweredByOwnMinibatch | server.go:586-608 | the answer to a request that is not cached comes, under its id, from the one minibatch it is sent in, where no other request has that id |
| BatchRpc.AnswerCarriesItsId | server.go:561-608 | cached or not, the answer to a routed request carries its id |
| BatchRpc.MinibatchStarts | server.go:572 | minibatch i starts inside the list of misses exactly while i is below their number |
| BatchRpc.NextPiece | server.go:584-586 | what is left of the misses from the start of a minibatch is that minibatch and the ones after it, so they cover the misses |
| BatchRpc.LookUp | server.go:561-569 | cache hits are placed, the rest is kept in order |
| BatchRpc.Scatter | server.go:607-617 | each answer goes to the position of its request and nothing else changes; exactly the storable answers go to the cache, each with its own request |
| BatchRpc.ServeMinibatch | server.go:574-620 | ends the call exactly on a passed deadline, a crash or a refusal of the whole batch; otherwise every element gets the forwarded answer or the error of this minibatch, and every storable one goes to the cache with the request it answers |
| BatchRpc.AbortedIff | server.go:590-594 | exactly the two refusals that concern receipts give up the whole batch |
| BatchRpc.Responses | server.go:601-604 | a failed minibatch has its error under the id of each element |
| BatchRpc.StoredIsOwnAnswer | server.go:607-617 | with backends that answer each id once, what a batch stores for a request is what the backend that served its minibatch responded, under its id, to the request as it was sent |
| BatchRpc.ServeMisses | server.go:571-622 | goes through exactly when every minibatch does, and then all misses are answered |
| BatchRpc.ServeGroup | server.go:558-622 | the same for one batch group, with its cache hits |
| BatchRpc.HandleBatchRPC | server.go:452-633 | returns early exactly when some minibatch of the call makes it, with that cause; otherwise, for any order of visiting the groups, every position is filled and position i holds the local or cached answer to request i or the answer of its own minibatch |
| Multicall.Targets | backend.go:855-873 | the healthy backends, or all when none is healthy |
| Multicall.ProcessMulticallResponses | backend.go:935-985 | the first acceptable arrival, else the last, else an error |
| Multicall.OutcomeByFlags | backend.go:955-985 | a response without transport error and, if checked, without RPC error is returned if and only if one arrived; all before it were faulty, and without one the last is returned |
| Multicall.StepKeepsInv | backend.go:892-933 | every step of a sender, the closer or the caller keeps the invariant |
| Multicall.ReturnsAcceptableIff | backend.go:935-985 | an acceptable response is returned if and only if some target gave one; otherwise all responses arrived |
| Multicall.CallerProcessesArrivals | backend.go:935-985 | what the caller of the protocol returned is what ProcessMulticallResponses makes of the arrivals, in whatever order the rest will come: the first acceptable one, else the last |
| Multicall.SendersNeverBlock | backend.go:874-887 | a sender always finds the channel open and with room, also after the caller returned; the channel closes only after every sender is done |
| Multicall.StepDecreases | backend.go:892-985 | every step brings the fan-out closer to its end |
| Multicall.NeverStuck | backend.go:845-890 | until everything is finished some step is possible |
| Multicall.MulticallIsCorrect | backend.go:845-985 | all of this for every run from the start |
| RpcCache.SameKeyIff | methods.go:26-32 | two requests share a cache key if and only if method and signature of the params are the same |
| RpcCache.SignatureExists | methods.go:26-32 | for any params there is a signature of 64 characters that no other params share |
| RpcCache.RPCCache.constructor | cache.go:153-192 | an empty cache |
| RpcCache.RPCCache.Evict | cache.go:26-33 | losing entries keeps the cache faithful |
| RpcCache.RPCCache.Get | cache.go:56-62 | the second layer answers only when the first fails |
| RpcCache.RPCCache.Put | cache.go:64-70 | the second layer stores only when the first fails |
| RpcCache.RPCCache.GetRPC | methods.go:34-65 | a hit is exactly the entry of the live layer, an answer a backend gave to that method for params of that signature, and to exactly those params unless a backend answered colliding ones; raw receipts are found only for one block hash and never empty |
| RpcCache.RPCCache.CacheableIff | cache.go:154-190 | looked up and stored are exactly requests of seven methods, and raw receipts of one block hash |
| RpcCache.RPCCache.StorableIff | cache.go:167-175 | raw receipts are stored only as a non-empty array |
| RpcCache.RPCCache.StoredIsFoundIff | methods.go:26-92 | what is stored for a request is found by exactly the requests of its method and signature |
| RpcCache.RPCCache.PutRPC | methods.go:67-92 | stores under the request as it is now what both filters admit, and never a wrapped result |
| RpcCache.RPCCache.DoForward | backend.go:491-546 | how a backend leaves a request, when it stops the search and what comes back from it; every answer is recorded for the request as sent |
| RpcCache.RPCCache.FirstAttempt | backend.go:498-546 | a first attempt at receipts is refused in a batch and for an unknown target, fails renamed for unreadable params, and otherwise is translated and its answer wrapped under the method called |
| RpcCache.RPCCache.Forward | backend.go:1434-1510 | the first backend that answers or stops the search settles it, and its answer, wrapped if it translated the request, comes back |
| RpcCache.RPCCache.OrdinaryIsUntouched | backend.go:491-546 | any other request reaches every backend as it is, and gets the first answer there is |
| RpcCache.RPCCache.ReceiptsAreTranslatedOnce | backend.go:504-546 | a receipts request is translated in the first attempt only; later ones find that one's method and params |
| RpcCache.RPCCache.WrappedIff | backend.go:674-682 | a receipts answer is wrapped if and only if the first attempt gave it |
| RpcCache.RPCCache.FailoverLosesTheWrapper | backend.go:674-682 | a first attempt that fails and a second whose answer comes back bare |
| RpcCache.RPCCache.Serve | server.go:558-620 | a hit is exactly the live entry of the request as the client sent it, which a backend gave to it unless signatures collide; a miss gets the outcome of the first backend that settles it after in-place rewriting, and exactly an unwrapped result is stored, under the request as it was sent |
| Durations.RoundingIsMonotone | pkg/avg-sliding-window/sliding.go:97 | later times round and truncate to later multiples of the bucket size or window |
| Durations.NearestAndLastMultiple | pkg/avg-sliding-window/sliding.go:97 | rounding gives the nearest multiple, the later of two, and truncation the last one not after |
| Durations.NoRoundingWithoutDuration | pkg/avg-sliding-window/sliding.go:97 | a duration that is not positive rounds and truncates nothing |
| SlidingWindow.TotalIsSumOfBuckets | pkg/avg-sliding-window/sliding.go:133-142 | the total over the stored keys is the sum over the stored buckets |
| SlidingWindow.EvictionKeepsTotals | pkg/avg-sliding-window/sliding.go:156-165 | removing a bucket removes its totals, and the last one leaves zero |
| SlidingWindow.InsertionKeepsInv | pkg/avg-sliding-window/sliding.go:125-142 | adding a point to its bucket keeps buckets, totals and order right |
| SlidingWindow.TotalsAreNaive | pkg/avg-sliding-window/sliding.go:169-188 | totals over exactly the keys of the window are the naive totals |
| SlidingWindow.AvgSlidingWindow.constructor | pkg/avg-sliding-window/sliding.go:59-76 | an empty window with defaults for zero options |
| SlidingWindow.AvgSlidingWindow.Advance | pkg/avg-sliding-window/sliding.go:146-167 | evicts from the front up to the first bucket in the window and drops nothing that is still in it |
| SlidingWindow.AvgSlidingWindow.EvictFirst | pkg/avg-sliding-window/sliding.go:156-165 | one turn of that loop |
| SlidingWindow.AvgSlidingWindow.Accept | pkg/avg-sliding-window/sliding.go:125-142 | one accepted point |
| SlidingWindow.AvgSlidingWindow.Deposit | pkg/avg-sliding-window/sliding.go:125-142 | the bucket, key list and totals after one accepted point |
| SlidingWindow.AvgSlidingWindow.AddWithTime | pkg/avg-sliding-window/sliding.go:114-143 | a point is accepted exactly when its rounded time is in the window at the check |
| SlidingWindow.AvgSlidingWindow.Add | pkg/avg-sliding-window/sliding.go:103-106 | a point with the clock's time keeps the window in clock order |
| SlidingWindow.AvgSlidingWindow.Sum | pkg/avg-sliding-window/sliding.go:179-182 | the sum over the stored buckets, which hold every accepted point of the window; in clock order, the naive sum over the full history |
| SlidingWindow.AvgSlidingWindow.Count | pkg/avg-sliding-window/sliding.go:185-188 | the number of points likewise, modulo 2^64 |
| SlidingWindow.AvgSlidingWindow.Avg | pkg/avg-sliding-window/sliding.go:170-176 | the sum over the stored buckets divided by their count, zero for no points; in clock order, the naive average |
| SlidingWindow.AvgSlidingWindow.Clear | pkg/avg-sliding-window/sliding.go:190-196 | zeroes the totals; they are right afterwards only if they were zero |
| SlidingWindow.ClearedTotalsAreWrong | pkg/avg-sliding-window/sliding.go:190-196 | one accepted point, after which cleared totals are not those of the buckets |
| RateLimiter.TruncationIsMonotone | frontend_rate_limiter.go:138-140 | later times have later truncated timestamps |
| RateLimiter.WholeSecondWindows | frontend_rate_limiter.go:136-140 | for durations of whole seconds instants share a timestamp exactly when they share a truncated window, and never when they are a duration apart |
| RateLimiter.SubSecondWindowsMerge | frontend_rate_limiter.go:136-140 | with a duration of a millisecond a whole second has one timestamp |
| RateLimiter.GenerationCounts | frontend_rate_limiter.go:73-90 | the current generation counts exactly the attempts of its window |
| RateLimiter.GrantsPerWindow | frontend_rate_limiter.go:39-90 | for every non-decreasing clock and mix of keys each key is granted exactly min(max, attempts) takes per truncated window |
| RateLimiter.GrantedAgain | frontend_rate_limiter.go:73-90 | a key that was not used for a whole duration, in whole seconds, is granted again |
| Durations.SpanTouchesTwoMultiples | frontend_rate_limiter.go:136-140 | a half-open span of the configured duration touches at most two windows |
| RateLimiter.GrantsPerSpan | frontend_rate_limiter.go:51-90 | each key is granted at most 2 max takes in any half-open span of the configured duration |
| RateLimiter.LimitedKeys.Take | frontend_rate_limiter.go:39-49 | counts the attempt and grants it below the maximum |
| RateLimiter.MemoryFrontendRateLimiter.constructor | frontend_rate_limiter.go:66-71 | a limiter without attempts |
| RateLimiter.MemoryFrontendRateLimiter.Take | frontend_rate_limiter.go:73-90 | every answer is the grant of that attempt in the run so far |

## Left out

- HTTP, TLS, websockets, headers, timeouts, backoff, metrics, logging, configuration and start-up: plumbing without a property of its own.
- JSON text, snappy, SHA-256, LRU eviction, redsync and Redis: modelled by their results (a parsed value, a 64-character signature, arbitrary eviction, a lock set only when absent with a fresh value and extended or released only on a match); JSON objects are matched by exact field names.
- go-ethereum's hexutil and rpc block numbers are not part of the source tree; `Hex` and the first section of `Rewriter` model version 1.14.8, which go.mod names.
- The panics of consensus_getReceipts with an empty parameter list and of MustDecodeUint64 on a malformed block number or peer count.
- ConsensusPoller.ConsensusPoller.UpdateBackendGroupConsensus: after a whole lap of 2^64 rounds without agreement on any block the source goes on for ever; the model stops there and changes nothing.
- ConsensusPoller.CheckRound: whether a round agrees in which a backend returns an empty hash depends on the order of the answers; only what agreement then means is stated.
- Concurrent readers between setBackendState and Ban and between the three tracker setters: operations are atomic.
- LeaderElection.ServedStateHasProvenance: local state is one snapshot per heartbeat; the source reads it three times, and a poller writing in between could make an instance serve a triple it never published.
- BatchRpc.HandleBatchRPC: parsing, validation, method mapping, eth_call overrides, rate limits and the health check method are one decision per request; maxUpstreamBatchSize is positive, as the server's default makes it unless it is configured negative; the number of minibatches is computed in integers rather than float64; the cached flag and the served-by header are not returned.
- BackendGroup.Forward: a group with the multicall strategy, which is modelled in Multicall; slices are values, so sharing of their backing arrays is not captured.
- The retries inside Backend.Forward and the random or weighted order of backends: the model takes any sequence of attempts.
- Replies.Sort: stands for sort.Slice; only order and permutation are used of it.
- RpcCache.RPCCache.Serve: one request at a time; which response of a batch is stored for which request is stated by BatchRpc.StoredIsOwnAnswer, and the two models of the cache are not joined.
- SlidingWindow: float64 sums are exact reals; concurrent use of one window is not modelled.
- RateLimiter.MemoryFrontendRateLimiter.Take: one atomic step, although the source takes two locks in turn, and the counter does not overflow; the Redis and fallback limiters and sender rate limits are not modelled.
- LimitedReader, StringSet, id validation, domain routing and the tls and websocket proxies: only easy members.
