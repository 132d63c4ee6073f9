# Verified model of the light node

The repository is a small Ethereum light node on top of a go-ethereum fork. This project models
its stateful parts in Dafny and proves what they keep over whole runs: how transactions are
admitted, de-duplicated and announced, how peer sessions come and go around shutdown, how sync
challenges are relayed, and what its own codecs and validators accept.

Verify everything with `dafny verify dfyconfig.toml`.

## Layout

| file | what it holds |
|---|---|
| `Types.dfy`, `Batches.dfy`, `Words.dfy` | bytes, hashes, transactions, sequence facts, big-endian numbers |
| `Ring.dfy`, `PoolModel.dfy`, `Window.dfy`, `TxPool.dfy` | the ring cache, the pool's claim history, the duplicate window, the pool object |
| `Admission.dfy` | any number of `AddRemotes` calls interleaving in claim, store and publish steps |
| `Crowds.dfy`, `Overlaps.dfy` | enough hashes in one bucket to fill any ring, and what overlapping calls then do |
| `Relay.dfy`, `Packets.dfy` | the pipeline from a peer's packet to announcements, with the admission machine inside, and which packets its calls work on |
| `Echo.dfy`, `Origins.dfy`, `AtMostOnce.dfy` | what the pipeline announces to whom, how often, and after which packets |
| `Announce.dfy`, `Transposition.dfy` | one peer's known-set and handlers, the loops of `BroadcastTransactions`, and how they agree with the pipeline |
| `FanOut.dfy` | chunking of local broadcasts and the broadcast loop's peer snapshot |
| `Sessions.dfy`, `SessionRules.dfy` | `RunPeer` of both protocols, `unregisterPeer` and `Stop` as one machine; what each session carries, causes and is refused for |
| `Connections.dfy` | the peer set of the sessions and the connections of the pipeline are the same thing |
| `Lru.dfy`, `ChallengePool.dfy` | the recency cache and the challenge pool on top of it |
| `ChallengeRelay.dfy`, `RelayInputs.dfy`, `Waiting.dfy` | the remember/clear protocol under races, eviction and expiry, and exactly which challenges wait and are answered |
| `AnswerCount.dfy`, `EachAnswer.dfy` | how often a peer, and each single challenge, is answered |
| `SyncHandlers.dfy` | the handlers, one call at a time |
| `OriginCodec.dfy`, `SnapRange.dfy`, `Node.dfy` | the `HashOrNumber` codec, the snap validators, dispatch and assembly |

Code that updates an object in place is a class or a method with loops, proved against functions
on values. Where goroutines interleave, the same functions make up a state machine: `Run` takes
any sequence of actions, an action that cannot happen leaves the state alone, and so a lemma about
`Run` is about every interleaving.

## What is assumed about code outside the repository

- `zcache`: 32 buckets, a hash in bucket (first four bytes, big-endian) mod 32, each ring of the
  total capacity divided by 32 but at least one. `Set` on a present key returns false and changes
  nothing; on an absent key it appends, drops the oldest entry of a full ring and returns true.
  `Ring.RoundRobin` implements this contract with an array and a head index.
- `lru`: capacity at least one; `Get`, `Add` and `Txn` count as a use, `RGet` does not. A
  `CompareAndSet` is proved harmless whether or not its lookup counts as a use. `Lru.Cache`
  implements this with an array.
- go-ethereum: the peer set is a map that can be closed and rejects a duplicate id; a known-set
  only grows; an announcement marks its hashes, and can be dropped only when the connection is gone;
  `rlp.Stream` reads one item as Appendix B of the Ethereum Yellow Paper says, with its
  canonical-form errors. Handshakes, the snap barrier, the snap syncer's answers, timers and
  whether a send succeeds are inputs.
- A transaction's hash is a field, and two transactions may share it. `big.Int.Uint64` is the low
  64 bits. Expiry is an extra step in `ChallengeRelay` and does not occur in `ChallengePool`.

A few fields exist only to state results: `Call.begun`, `Challenge.asked`, `Entry.owner` and the logs.

## Where the code differs from what its names and comments say

- `AddHeaderIfNotExists` ends with an unconditional `Add`, so the last header wins. The model
  follows the code: `ChallengePool.LastHeaderWins`, `Lru.InsertTwiceIsInsert`.
- `BroadcastTransactions` is commented as sending directly to a square root of the peers; that
  line is disabled, and the direct-send map is proved to stay empty.
- `maxPeers` is not a bound on untrusted peers. `Sessions.CapacityBound` gives the real one and
  `Sessions.CapacityBoundReached` shows that it cannot be improved.
- `Get` can return a transaction whose hash `Has` denies once calls overlap, for every capacity:
  `Overlaps.InterleavingBreaksNesting`, with the exact condition in `Admission.NestingSurvivesIff`.
- One packet can announce a hash twice, for every capacity: `AtMostOnce.RepeatReachesPeer`, with
  the exact condition in `Echo.AnnouncedTwiceIff`.
- A clear can lose a challenge it did not answer: `Waiting.RaceLosesChallenge`, with the exact
  condition in `Waiting.RemovalLosesIff` and, for one challenge, in `EachAnswer.UnansweredIff`.
- A remembered challenge can be answered more than once: `EachAnswer.AnswersBoundReached`, with
  the exact condition in `EachAnswer.AnsweredTwiceIff` and the bound in `EachAnswer.EachAnsweredAtMost`.
- On version 65 the slow path waits for a dispatched header response, and no message of that
  version is dispatched as one: `Node.SlowPathUnanswered`.
- A canonical encoding of the 32-byte zero hash decodes, but encodes back as the number 0:
  `OriginCodec.Reencode`, `OriginCodec.ZeroHashAccepted`.

## Model

| member | source | states |
|---|---|---|
| `Ring.RoundRobin.Set` | eth/internal/tx_pool.go:92 | the array-and-head ring returns whether the key was absent and moves its oldest-first contents by the pure `Put`: a present key changes nothing, an absent one is appended and the oldest falls out when full; the lookup map stays an exact index |
| `Ring.RoundRobin.Get` | eth/internal/tx_pool.go:67-74 | answers exactly for the keys in the ring, with their values |
| `PoolModel.CacheEqualsHistory` | eth/internal/tx_pool.go:47-110 | after any serialised run of batches on a new pool every hash ring is the last C_hash claims of its bucket and every transaction ring the last C_tx of the same log |
| `PoolModel.OneMoreBatch` | eth/internal/tx_pool.go:80-110 | each batch is admitted on what those before it left, and adds exactly what it accepted to the log |
| `PoolModel.AdmitFollowsHistory` | eth/internal/tx_pool.go:80-101 | one batch keeps both caches equal to the claim log, which grows by exactly the accepted transactions |
| `PoolModel.StoreFollows` | eth/internal/tx_pool.go:92-96 | because C_tx <= C_hash, the store after a fresh claim never meets its own hash and always appends |
| `PoolModel.RingsNest` | eth/internal/tx_pool.go:62-74 | caches that follow one log nest: a cached transaction has a cached hash, and its own hash is the key |
| `PoolModel.AdmitExplained` | eth/internal/tx_pool.go:80-101 | `errs` is aligned with the batch; a contract creation gets exactly the first error, the second exactly when the hash is among the last C_hash claims of its bucket at that moment; `out` is the in-order subsequence without error |
| `PoolModel.GetImpliesHas` | eth/internal/tx_pool.go:62-74 | after any serialised run, what `Get(h)` returns has hash h, was claimed, and `Has(h)` holds |
| `PoolModel.BucketIsFourthByte` | eth/internal/tx_pool.go:53-58 | of the first four bytes, read big-endian over 32 buckets, only the fourth decides: the bucket is that byte modulo 32 |
| `Window.RecentlyClaimedIff` | eth/internal/tx_pool.go:62-65 | a hash is suppressed if and only if it was claimed and fewer than C_hash later claims agree with it in the fourth byte modulo 32; stated over the log and bytes, without the buckets |
| `Window.CachedIff` | eth/internal/tx_pool.go:62-74 | the same for what either cache holds: `Has` by C_hash, `Get` by C_tx |
| `Window.SuppressedExactlyInWindow` | eth/internal/tx_pool.go:91-99 | a hash claimed once stays suppressed if and only if fewer than C_hash claims that agree in the fourth byte modulo 32 were made since |
| `Window.WindowBetweenClaims` | eth/internal/tx_pool.go:91-99 | two claims of one hash are separated by at least C_hash pairwise distinct other hashes with the same fourth byte modulo 32 |
| `Window.AdmitKeepsSuppressed` | eth/internal/tx_pool.go:80-101 | a batch never claims a hash that is still in the window |
| `Window.OutHasNoRepeats` | eth/internal/tx_pool.go:80-107 | an uninterrupted batch of at most C_hash + 1 transactions publishes no hash twice |
| `Crowds.LongerBatchRepeats` | eth/internal/tx_pool.go:80-107 | that bound cannot be improved, for every capacity below 2^64: some batch of C_hash + 2 publishes one hash twice |
| `Crowds.FreshBatch` | eth/internal/tx_pool.go:80-101 | a batch whose hashes are new to the history and different from each other is accepted whole, whatever the capacities |
| `TxPool.GuardSurvivesDivision` | eth/internal/tx_pool.go:48-58 | HashCap >= TxCap still orders the capacities of one bucket after division by 32 |
| `TxPool.PerBucketIs` | eth/internal/tx_pool.go:53-58 | the 32 rings of one cache together hold no more than its total capacity, and would with one entry more each; below a total of 32 each holds one |
| `TxPool.Buckets.Set` | eth/internal/tx_pool.go:53-58 | setting in one bucket changes that bucket's ring and no other |
| `TxPool.TxPool.constructor` | eth/internal/tx_pool.go:52-59 | a new pool is empty, owns its memory and has the divided capacities |
| `TxPool.NewTxPool` | eth/internal/tx_pool.go:47-60 | no pool exactly when HashCap < TxCap; otherwise an empty one whose rings have their share of the two capacities |
| `TxPool.TxPool.Has` | eth/internal/tx_pool.go:62-65 | true exactly for the hashes claimed and followed by fewer than C_hash claims with the same fourth byte modulo 32 |
| `TxPool.TxPool.Get` | eth/internal/tx_pool.go:67-74 | answers exactly for the hashes claimed and followed by fewer than C_tx claims with the same fourth byte modulo 32; a returned transaction has the asked hash, was accepted earlier, and `Has` reports it |
| `TxPool.TxPool.AdmitEach` | eth/internal/tx_pool.go:81-101 | the in-place loop over both caches computes the pure batch admission: same caches, errors and accepted list |
| `TxPool.TxPool.AddRemotes` | eth/internal/tx_pool.go:80-110 | every error is explained by the claim history, the history grows by the error-free subsequence, one event carries it and none is sent when it is empty; the object keeps caches, claims and events in agreement |
| `Admission.RunKeepsInv` | eth/internal/tx_pool.go:80-110 | in every interleaving the hash cache follows the claim log, no claim is a duplicate when made, claims are conserved and each call's results match its batch |
| `Admission.DuplicateWindow` | eth/internal/tx_pool.go:91-99 | in every interleaving two claims of one hash are at least C_hash distinct other claims apart |
| `Admission.ClaimsConserved` | eth/internal/tx_pool.go:80-110 | in every interleaving the claims are the published transactions plus those running calls still hold, as multisets; with no call running, exactly the published ones |
| `Admission.CallsReportAcceptance` | eth/internal/tx_pool.go:103-109 | a returned call reports one result per transaction and its published batch is exactly the error-free subsequence |
| `Admission.EventsAreOuts` | eth/internal/tx_pool.go:103-107 | in every interleaving the events are exactly what the returned calls accepted: each returned call published once, in the order of these steps, and nothing if it accepted nothing |
| `Admission.BegunAt` | eth/internal/tx_pool.go:80-83 | a call's bookkeeping is right: it works on the batch it was started with, and its begin mark is the number of claims there were then |
| `Admission.ClaimDecision` | eth/internal/tx_pool.go:86-99 | in any reachable state the next transaction is accepted if and only if it has a recipient and its hash is outside the window |
| `Admission.SoloCallIsAdmit` | eth/internal/tx_pool.go:80-101 | a call nobody interrupts does what the serialised batch does |
| `Admission.ShortCallHasNoRepeats` | eth/internal/tx_pool.go:80-107 | in every run a call's batch repeats no hash while all calls together made at most C_hash + 1 claims since it began |
| `Admission.RunKeepsSinceBegun` | eth/internal/tx_pool.go:80-101 | in every run what a call accepted is an in-order part of the claims made since it began |
| `Overlaps.OverlapRepeats` | eth/internal/tx_pool.go:80-107 | that bound cannot be improved, for every capacity below 2^64: with one claim more, a batch of two publishes one hash twice |
| `Admission.NestingSurvivesIff` | eth/internal/tx_pool.go:92-96 | from a reachable state where every cached transaction has a cached hash, a step keeps this if and only if a store finds its hash still cached and a claim evicts no hash of a cached transaction |
| `Overlaps.InterleavingBreaksNesting` | eth/internal/tx_pool.go:92-96 | for every capacity below 2^64 some interleaving ends with a transaction that `Get` finds and whose hash `Has` denies |
| `Echo.RunFollows` | eth/protocols/eth/handlers.go:71-95 | in every run a connection's known-set is exactly what it showed and what it was announced |
| `Echo.AnnouncedAsOftenAsOwed` | eth/handler.go:257-280 | in every run, h is announced to p over the whole run exactly as often as the relay of any one of these announcements looked h up while p was connected and had neither shown h nor been told it |
| `Echo.AnnouncedByOwnRelay` | eth/handler.go:257-280 | every announcement comes from a lookup of its own relay, with no other batch taken in between, at which the receiver was connected and without the hash |
| `Echo.NoEcho` | eth/handler.go:257-280 | for the first and every later relay of h: an announcement to a peer that showed h before comes from a relay that had already looked h up before that showing |
| `Echo.LookUpsAreHonoured` | eth/handler.go:257-280 | whenever the loop is back at its select, every connection got or, only if it is gone, lost exactly one announcement for each lookup of that relay that found it without the hash, and nobody got another |
| `Echo.AnnouncedTwiceIff` | eth/handler.go:257-280 | an announcement is repeated anywhere in the run if and only if two lookups of its own relay found the peer connected and without the hash |
| `Echo.RepeatsAreOnePacket` | eth/handler.go:276-279 | equal announcements always lie in one packet: never two relays, never two packets |
| `Origins.EchoOnlyIfPending` | eth/handler.go:257-280 | from any reachable state, a peer that knows h is announced h later in some continuation if and only if h is on the list waiting for it now |
| `Origins.SenderNeverEchoed` | eth/protocols/eth/handlers.go:71-95 | in terms of packets, for every relay: whoever sends a packet showing h while no list with h waits for it is never sent an announcement of h afterwards; the marks in front of a nil transaction count |
| `Origins.DelivererNeverEchoed` | eth/protocols/eth/handlers.go:71-78 | for every relayed hash some peer showed it before it was ever looked up, and that peer never gets it back |
| `AtMostOnce.AnnouncedAtMostOnce` | eth/handler.go:257-280 | if no published batch repeats a hash, no (peer, hash) pair is announced twice in any run |
| `AtMostOnce.ShortCallsAreClean` | eth/internal/tx_pool.go:80-107 | that hypothesis holds in every run in which no call publishes after more than C_hash + 1 claims were made since it began |
| `AtMostOnce.RepeatReachesPeer` | eth/handler.go:257-280 | for every capacity below 2^64 a whole run, from the packet to the announcement, in which a connected peer is announced one hash twice |
| `Relay.BatchesInOrder` | eth/handler.go:169-170 | in every run the hashes looked up are those of the published batches, batch by batch in publication order, and taken and waiting batches together are the published ones |
| `Relay.PoolRuns` | eth/internal/tx_pool.go:80-110 | the pool inside the pipeline always is in a state that a run of the admission machine reaches |
| `Packets.CallsWorkOnPackets` | eth/handler_eth.go:221-225 | in every run the packets taken in are the complete ones that arrived, in order, and the AddRemotes calls work, in the order they began, on just the packets submitted; stated over the actions |
| `Relay.LoopFollowsStop` | eth/handler.go:160-175 | the broadcast loop is unsubscribed exactly by `Stop`, and ends exactly after that and between batches |
| `Relay.EndedForGood` | eth/handler.go:88-95 | in every run, once `Stop` has ended the broadcast loop the batch in hand was relayed whole, and nothing is taken, looked up, announced or dropped any more |
| `Transposition.ListsAreExact` | eth/handler.go:257-270 | with known-sets unchanged meanwhile, each registered peer's list is exactly the in-order subsequence it did not know, and nobody else has one |
| `Transposition.ListRepeatsIff` | eth/handler.go:257-270 | with known-sets unchanged meanwhile, a registered peer's list repeats a hash exactly when the batch repeats one the peer does not know |
| `Transposition.BothTranspose` | eth/handler.go:257-270 | the pipeline's lists and the lists the loop on peer objects builds are the same |
| `Batches.UnknownRepeats` | eth/handler.go:257-270 | the unknown part of a batch is free of repetitions exactly when only known hashes repeat |
| `Announce.Peer.AsyncSendPooledTransactionHashes` | eth/handler.go:276-279 | queues the list and marks it known, or leaves a closed peer alone |
| `Announce.Peer.HandleTransactions` | eth/protocols/eth/handlers.go:61-79 | marks the hashes in front of the first nil transaction, and delivers the packet only if there is none; the two pooled-transaction handlers (lines 248-284) have the same loop |
| `Batches.BeforeNilMeaning` | eth/protocols/eth/handlers.go:71-77 | what counts as in front of the first nil: the longest run of real transactions at the packet's start, unchanged and in order |
| `Announce.Peer.HandleNewPooledTransactionHashes` | eth/protocols/eth/handlers.go:81-96 | marks every announced hash before delivering the announcement |
| `Announce.PeersWithoutTransaction` | eth/handler.go:258 | a duplicate-free list of exactly the peers whose known-set lacks the hash |
| `Announce.BuildLists` | eth/handler.go:257-270 | the loop over transactions leaves every peer exactly the hashes it lacks in batch order, no empty lists, no direct sends, and as many entries as there are (transaction, uninformed peer) pairs |
| `Announce.CountsAgree` | eth/handler.go:257-280 | transposing loses and duplicates nothing: counting uninformed peers per transaction equals counting list entries per peer |
| `Announce.SendAll` | eth/handler.go:271-280 | whatever the map's iteration order, every listed peer gets exactly its list and the counters add up |
| `Announce.BroadcastTransactions` | eth/handler.go:217-284 | every open peer that lacks something gets one packet with exactly what it lacked when the batch began; every other peer is unchanged; the counters say how many peers lacked something and how many hashes they lacked, and the direct ones stay zero |
| `Announce.OneListEach` | eth/handler.go:276-277 | the map has one entry for each peer that lacks something, and no other |
| `FanOut.Chunks` | eth/handler.go:242-252 | the chunk loop ends; its chunks are non-empty, no longer than the unit, concatenate to the list and are as few as possible |
| `FanOut.SplitJobs` | eth/handler.go:237-253 | the same with the unit computed from the peer and cpu counts, all chunks but the last are the largest equal share per processor, no processor is left idle while there are peers for it, and at most 2 cpu - 1 jobs, or cpu + 1 from cpu^2 peers on |
| `FanOut.JobBound` | eth/handler.go:237-253 | the bound on the number of jobs, for all peer counts and cpu counts |
| `FanOut.JobBoundReached` | eth/handler.go:237-253 | both bounds are attained |
| `FanOut.AnyOrderOneCopyEach` | eth/handler.go:196-206 | whatever order workers take the jobs in, every peer occurrence gets one copy |
| `FanOut.TxBroadcastLoop` | eth/handler.go:157-175 | each encodable local batch taken before the end goes out once, in order, to exactly the peers of the latest tick, and to nobody before the first tick |
| `Sessions.RunKeepsInv` | eth/handler_eth.go:38-97 | in every interleaving registered peers and the sessions inside correspond one to one, the WaitGroup equals the counted sessions, and a returned `Stop` leaves an empty closed set |
| `Sessions.WaitGroupCovers` | eth/handler_eth.go:51-52 | the WaitGroup counts the sessions of both protocols between Add and Done, and every registered peer belongs to exactly one of them |
| `Sessions.StoppedMeansEmpty` | eth/handler.go:88-105 | once `Stop` has returned the peer set is empty, and stays so whatever sessions do or still arrive |
| `SessionRules.StopWaitsForAll` | eth/handler.go:97-102 | when `Stop` returns, no handshake is under way and no session of either protocol is handling messages or being taken down |
| `SessionRules.StopReturnsIff` | eth/handler.go:97-102 | it returns if and only if it had closed the set and every session is before its handshake or over |
| `SessionRules.RunCarries` | eth/handler_eth.go:40-50 | in every run the sessions are the peers that arrived, in order, and past the barrier one carries the snap extension if and only if snap is enabled and the peer wants it |
| `SessionRules.SyncerIsTold` | eth/handler_eth.go:86-97 | a session handling messages was announced to the snap syncer if and only if snap is enabled, the peer wants it and there is a syncer; one that ended so was also withdrawn under just that condition; a refused one was not announced |
| `SessionRules.HistoryIsExact` | eth/handler_eth.go:75-97 | in every run, everything a session caused outside is settled by where it stands, why it ended and whether it carries the extension |
| `SessionRules.RefusedIff` | eth/handler_eth.go:41-79 | each refusal if and only if: too many peers for an untrusted one when maxPeers or more sessions are inside, a closed set after `Stop` closed it, an id while another session holds it, the handshake and the barrier when they fail |
| `SessionRules.GetsOnIff` | eth/handler_eth.go:38-97 | exactly when a session gets from each place to the next |
| `Sessions.FinishedSessionsPair` | eth/handler_eth.go:75-96 | a finished session caused nothing, or one registration and then one removal of that same registration, with the snap syncer told to forget the peer before the removal whenever it may have been told about it; sessions turned away caused nothing |
| `Sessions.OnlyOwnersRemove` | eth/handler.go:119-147 | no session ever removes another session's registration |
| `Sessions.SyncerEntriesAreOwn` | eth/handler.go:137-141 | a session the snap syncer knows is still registered, and no other session of its id is registered or known to the syncer, so an unregister never takes another session's entry |
| `Sessions.RegisteredPeersAreFound` | eth/handler_eth.go:81-84 | a registered session always finds its own entry, so the branch for a dropped peer is never taken |
| `Sessions.CapacityBound` | eth/handler_eth.go:67-79 | if at most W >= 1 untrusted sessions are ever between check and registration, untrusted peers plus those sessions never exceed maxPeers - 1 + W (and are none for maxPeers < 1) |
| `Sessions.CapacityBoundReached` | eth/handler_eth.go:67-79 | for every limit and every W some run ends with exactly maxPeers - 1 + W untrusted peers |
| `Connections.LiveIsRegistered` | eth/handler_eth.go:75-97 | whenever the pipeline's connections open and close as sessions register and remove, a connection is live exactly while the session that opened it is inside, and a peer is in the set if and only if it has a live connection, of which it never has two |
| `Connections.StoppedMeansNobodyLeft` | eth/handler.go:88-105 | once `Stop` has returned, no lookup of any hash finds a peer to tell, whatever sessions and the pipeline do |
| `Lru.Cache.Get` | eth/internal/sync_challenge_header_pool.go:23 | returns the entry and moves it to the front, in place; a miss changes nothing |
| `Lru.Cache.RGet` | eth/internal/sync_challenge_header_pool.go:69 | returns the entry and changes nothing |
| `Lru.Cache.Add` | eth/internal/sync_challenge_header_pool.go:40 | the key becomes the most recent one with the new value; only the least recent other entry falls out, and only from a full cache |
| `Lru.Cache.Remove` | eth/internal/sync_challenge_header_pool.go:75 | exactly that key is gone, the order of the rest is kept |
| `Lru.InsertKeepsOtherIff` | eth/internal/sync_challenge_header_pool.go:53-65 | an entry survives the insertion of another key if and only if fewer than Cap distinct keys, the new one included, are then more recent; it keeps its value |
| `Lru.TouchKeepsOther` | eth/internal/sync_challenge_header_pool.go:22-29 | a lookup of another key evicts nothing; a hit puts exactly that key in front, a miss changes nothing |
| `Lru.InsertTwiceIsInsert` | eth/internal/sync_challenge_header_pool.go:31-41 | the conditional add followed by the unconditional one equals one plain `Add` in contents, order and evictions |
| `ChallengePool.DecimalInjective` | eth/internal/sync_challenge_header_pool.go:45-47 | different heights print differently |
| `ChallengePool.DecimalReads` | eth/internal/sync_challenge_header_pool.go:45-47 | a printed height consists of digits without a leading zero and reads back as that height |
| `ChallengePool.PendingTextInjective` | eth/internal/sync_challenge_header_pool.go:45-47 | different heights have different pending keys |
| `Types.Low64Means` | eth/internal/sync_challenge_header_pool.go:31-41 | `Uint64` of a big number keeps what fits in 64 bits and forgets every multiple of 2^64 |
| `ChallengePool.TwoKinds` | eth/internal/sync_challenge_header_pool.go:22-78 | after any operations integer keys hold only headers of that number mod 2^64 and text keys only challenges of their height, so no type assertion fails |
| `ChallengePool.PendingKind` | eth/internal/sync_challenge_header_pool.go:67-78 | whatever is found under a height's pending key is a challenge list, all of that height |
| `ChallengePool.ClearReplays` | eth/internal/sync_challenge_header_pool.go:53-78 | after any operations, clearing a height returns exactly the challenges remembered since its last clear, in arrival order, if and only if no insertion since then, header or challenge, found Cap keys in use in front of them; it leaves none |
| `ChallengePool.EvictedExactlyAtCap` | eth/internal/sync_challenge_header_pool.go:53-65 | whatever operations follow, a remembered challenge whose height is not touched again is still there if and only if no insertion left Cap or more keys in front of it; misses count for nothing and cleared keys no longer count |
| `ChallengePool.LastHeaderWins` | eth/internal/sync_challenge_header_pool.go:31-41 | the header added last for a number is the one found, whatever was there before |
| `ChallengePool.SyncChallengeHeaderPool.GetHeader` | eth/internal/sync_challenge_header_pool.go:22-29 | the cast cannot fail and the header's number is the asked height mod 2^64 |
| `ChallengePool.SyncChallengeHeaderPool.AddHeaderIfNotExists` | eth/internal/sync_challenge_header_pool.go:31-41 | refines one plain `Add` |
| `ChallengePool.SyncChallengeHeaderPool.RememberChallenge` | eth/internal/sync_challenge_header_pool.go:53-65 | appends to the height's waiting list, or starts one, and makes it the most recent entry |
| `ChallengePool.SyncChallengeHeaderPool.ClearChallenge` | eth/internal/sync_challenge_header_pool.go:67-78 | returns and forgets the waiting list, all of it remembered for this height |
| `ChallengeRelay.RepliesWereAskedFor` | eth/handler_eth.go:227-250 | in every interleaving of any number of peers, with evictions and expiry, a header reply goes to a peer that earlier asked for exactly that height |
| `RelayInputs.StoreIsPool` | eth/internal/sync_challenge_header_pool.go:22-78 | however peers interleave, while nothing expires the cache of the relay is that of the pool after its remembers, removals and header operations in the order they happened |
| `RelayInputs.MessagesAreLogged` | eth/handler_eth.go:227-233 | only packets of exactly one header count as received, and queries and packets count only for a peer between messages |
| `RelayInputs.ClearStartsIff` | eth/internal/sync_challenge_header_pool.go:67-72 | in every run a header starts a clear if and only if a challenge waits for its height when it arrives; otherwise nothing will be removed for it |
| `RelayInputs.RememberedAsAsked` | eth/handler_eth.go:117-136 | in every run whoever is remembered for a height asked for it, with nothing of its own in between |
| `ChallengeRelay.UninterruptedClearAnswersAll` | eth/handler_eth.go:234-249 | a clear with nothing between its two halves answers exactly the waiting challenges and leaves none |
| `Waiting.PendingIsWaiting` | eth/internal/sync_challenge_header_pool.go:53-78 | in every interleaving, with evictions and expiry, the pending list of a height is exactly the challenges remembered for it since that list was last evicted, expired or removed, in arrival order |
| `Waiting.ClearsHoldTheirReads` | eth/internal/sync_challenge_header_pool.go:67-78 | in every interleaving each clear in progress holds exactly the challenges that waited when it read, however many others remembered, read or removed since |
| `Waiting.RemovalAnswersIff` | eth/internal/sync_challenge_header_pool.go:67-78 | a removal answers exactly the challenges that waited when its peer read the list, in order, with the header received at that read; of those waiting now it answers one if and only if it was remembered before that read |
| `Waiting.RemovalLosesIff` | eth/internal/sync_challenge_header_pool.go:74-75 | a removal wipes out a waiting challenge unanswered if and only if one was remembered for the height after the removing peer's read and still waits |
| `Waiting.RunExplained` | eth/handler_eth.go:227-250 | in every run each removal completes a clear and is followed by exactly one reply, carrying the very header that clear began with, to each challenge that clear had read, in order; there are no other replies |
| `Waiting.OwnResponseFindsChallenge` | eth/handler_eth.go:117-136 | until a peer receives its own response its challenge is pending if and only if it was not evicted, expired, or removed by another peer's clear of that height since |
| `Waiting.RaceLosesChallenge` | eth/internal/sync_challenge_header_pool.go:74-75 | the tolerated race happens: for every capacity a run loses a challenge unanswered with nothing evicted or expired |
| `EachAnswer.UnansweredIff` | eth/handler_eth.go:234-249 | in every run a remembered challenge stays without any answer if and only if no clear of its height that read it while it waited completes |
| `EachAnswer.EachAnsweredAtMost` | eth/handler_eth.go:234-249 | in every run in which at most W clears of a height are in progress at once, each single remembered challenge is answered by at most W removals; without overlapping clears none is answered twice |
| `EachAnswer.AnsweredTwiceIff` | eth/handler_eth.go:234-249 | in every run a challenge is answered more than once if and only if two clears that both read it while it waited complete |
| `EachAnswer.TwoClearsOverlap` | eth/internal/sync_challenge_header_pool.go:67-78 | two such clears overlap: the second reads before either removes |
| `EachAnswer.AnswersBoundReached` | eth/handler_eth.go:234-249 | for every capacity and every W some run with at most W clears at once answers one challenge, remembered once, by W removals |
| `AnswerCount.AnswersBounded` | eth/handler_eth.go:234-249 | in every run in which at most W clears of a height are in progress at once, a peer gets at most W replies for it for each time it was remembered, all its challenges taken together |
| `Types.ZerosOnly` | eth/handler_eth.go:107-109 | the hash that marks a query by number is 32 zero bytes |
| `SyncHandlers.HandleSyncChallenge` | eth/handler_eth.go:117-136 | only a single-header query by number is reflected unchanged; the peer is remembered for its height exactly if the send succeeded |
| `SyncHandlers.HandleSyncChallenge66` | eth/handler_eth.go:138-166 | a fast reply carries the query's request id and a header of the queried height mod 2^64, and is given exactly when such a header is cached; otherwise the peer is asked for that height |
| `SyncHandlers.SlowPathResponse` | eth/handler_eth.go:175-198 | a response of exactly one header is relayed under the query's request id and cached under its own number; another count is an error for the sender; the peer is disconnected exactly when the timer fires first; the pool changes in the first case only |
| `SyncHandlers.HandleBlockHeaders` | eth/handler_eth.go:227-250 | uninterrupted, one reply is started for each challenge waiting for the header's height, in arrival order, and nobody waits any more |
| `OriginCodec.RoundTrip` | eth/protocols/eth/protocol.go:123-149 | encoding succeeds exactly when at most one field is set, and decoding then gives the value back, whatever follows in the stream and whatever the receiver held |
| `OriginCodec.EncodingIsInjective` | eth/protocols/eth/protocol.go:123-131 | different values have different encodings |
| `OriginCodec.SizesNeverCollide` | eth/protocols/eth/protocol.go:139-145 | every uint64 encodes to a payload of at most 8 bytes and every hash to one of 32 |
| `OriginCodec.Reencode` | eth/protocols/eth/protocol.go:123-149 | an accepted input encodes back to its own bytes if and only if it is not the 32-zero-byte string, which becomes the number 0 |
| `OriginCodec.AcceptedIff` | eth/protocols/eth/protocol.go:135-149 | an input is accepted if and only if it starts with the encoding of some value, or with the encoded 32-zero-byte string |
| `OriginCodec.ZeroHashAccepted` | eth/protocols/eth/protocol.go:139-142 | that string is accepted, as the zero hash and the number 0, and exactly its 33 bytes are read |
| `OriginCodec.ReadKindIff` | eth/protocols/eth/protocol.go:135-149 | what the stream reports is exactly the item the input starts with, for every kind and every size below 2^64: its canonical head, its size, and the bytes behind it |
| `OriginCodec.RejectedIff` | eth/protocols/eth/protocol.go:135-149 | the size error exactly for complete items whose payload is neither 32 bytes nor at most 8, and the kind error exactly for complete lists of such a size |
| `OriginCodec.HashOrNumber.EncodeRLP` | eth/protocols/eth/protocol.go:123-131 | refines the pure encoder |
| `OriginCodec.HashOrNumber.DecodeRLP` | eth/protocols/eth/protocol.go:135-149 | the assignments to the receiver, also on failing inputs, are those of the pure decoder |
| `Words.CompareIsNumeric` | eth/protocols/snap/handler.go:94 | byte-wise comparison of equally long strings is comparison of the numbers they denote |
| `Words.ComparePrecedes` | eth/protocols/snap/handler.go:94 | on strings of any lengths the comparison is the lexicographic order |
| `SnapRange.FirstDisorder` | eth/protocols/snap/handler.go:93-97 | the adjacent-pair loop accepts exactly the lists that strictly increase globally as 256-bit numbers, and otherwise stops at the first violation |
| `SnapRange.FirstDisorderIn` | eth/protocols/snap/handler.go:112-118 | the same for a list of lists |
| `SnapRange.IncreasingHasNoDuplicates` | eth/protocols/snap/handler.go:92-97 | accepted lists contain no hash twice |
| `SnapRange.HandleMessage` | eth/protocols/snap/handler.go:58-152 | a range packet is forwarded, unchanged, exactly when it decodes and all its lists strictly increase |
| `SnapRange.UnpackAccounts` | eth/protocols/snap/protocol.go:63-76 | fails exactly if some body does not convert; otherwise keeps length, order, pairing and strictness |
| `SnapRange.UnpackStorage` | eth/protocols/snap/protocol.go:103-117 | splits every list into hashes and bodies of the same shape, order and strictness |
| `Node.HandleMessage` | eth/protocols/eth/handler.go:58-157 | too large comes first; then, handler by handler, exactly the versions and codes that reach it, so for example a header response is dispatched to a waiting request exactly from 66 on and goes to the pool before that; a code is invalid exactly if its version does not have it |
| `Node.OldQueriesOnly` | eth/protocols/eth/handler.go:58-157 | a message reaches the unguarded challenge handler if and only if it is a header query on a version before 65 |
| `Node.SlowPathUnanswered` | eth/protocols/eth/handler.go:72-87 | version 65 sends its queries the slow way but dispatches no message as a header response |
| `Node.CreatePool` | eth/node.go:27-43 | a configured pool is kept; otherwise the default pool is made exactly if some version is before 65 |
| `Node.MakeProtocols` | eth/protocols/eth/handler.go:14-45 | one protocol per configured version, in order, with its own length and the default name if none is given |
| `Node.NewNode` | eth/node.go:24-49 | for every configuration, the node runs the configured versions and keeps a configured pool; if a running protocol can reach the unguarded challenge handler the pool exists, and a pool nobody configured means that one can |

## Left out

- Window.OutHasNoRepeats: for a batch that no other call interrupts; with overlapping calls the exact resource is the number of claims since the call began, see Admission.ShortCallHasNoRepeats.
- Transposition.ListsAreExact: known-sets are held fixed while the lists are built; in the machine they may grow in between, and the results in Echo count exactly what is announced then.
- ChallengePool.ClearReplays: operations are serialised and nothing expires; races and expiry are in Waiting and EachAnswer.
- SyncHandlers.SlowPathResponse: which of response and timer comes first is an input, and delivery on the done channel is not modelled; the code does not compare the returned header's height with the query, so nothing is claimed about it.
- SyncHandlers.HandleBlockHeaders: replies are started in arrival order; each runs in a goroutine of its own and the order they reach the wire in is not modelled.
- SnapRange.HandleMessage: error texts with positions and hashes, the request tracker and metrics are not part of the result.
- Crowds.LongerBatchRepeats, Overlaps and AtMostOnce.RepeatReachesPeer: for ring capacities below 2^64; the configured capacities are machine integers.
- Admission, Relay, Sessions and ChallengeRelay are machines on values: aliasing of batches and challenge slices between goroutines is not captured there. The same operations on objects, one call at a time, are in TxPool, Announce, ChallengePool and SyncHandlers.
- In Relay one lookup of a hash over all peers, and one send, are single steps; a select that could take a batch or end takes either.
- Connections.LiveIsRegistered: registering and opening a connection, and removing and closing one, are compared as histories, not as one joint step.
- The announcement queue, the direct-send queue and their limits, and forgetting in a bounded known-set, belong to go-ethereum.
- TxFetcher: which packet is submitted when is arbitrary in Relay, as often as one likes; its own bookkeeping is not modelled.
- The worker pool: a job is one write per peer in its slice; write errors are ignored as in the code.
- BroadcastLocalTransactions: a batch is either taken by the loop or given up; only taken ones appear.
- Which rlp error value a rejected origin yields beyond the kinds named in OriginCodec, and running out of an enclosing list.
- Hashing, tries, uncle and body checks, block sanity checks and slim-account decoding; the last is a parameter of SnapRange.UnpackAccounts.
- Feeds, logging, metrics, message and packet names, subscription wrappers, p2p server start-up, key generation, node URL parsing and the example program.
