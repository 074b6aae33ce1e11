# Partner chain runtime: verified model

This project models the consensus-critical bookkeeping of a Substrate partner chain that follows
Cardano: the block production log and the release of block participation data, the token bridge with
its cached and uncached observability sources, the governed map, Ariadne committee selection with
candidate filtering, sessions and committee rotation, block producer metadata deposits and fees, and
the config and key codecs of the command-line tool. `dafny verify dfyconfig.toml` checks everything.

Pallets and caches that the code updates in place are classes whose methods are proved against
functions on plain values; the run theorems are about those functions. Everything outside the code
(cryptography, clocks, random numbers, the main-chain indexer, `frame_system` and the currency) enters
as a parameter.

## Main results

- Bridge. Over every run of blocks, whatever the growth of the main chain and the switches between UTXO
  and block checkpoints, the handler receives the contiguous, in-order stretch of the transfer stream
  between the first and last checkpoint (`BridgePallet.ExactlyOnce`), every recipient is handed exactly
  what the UTXOs addressed to them (`BridgePallet.DestinationsConserved`), a backlog drains at the full
  limit per block, and a verifier with its own cache and a longer chain accepts exactly the proposer's
  call. The caching source refines the query. Under every interleaving of concurrent calls, for any
  scripts, a call is given the answer for the scripts whose rows are cached at that moment
  (`BridgeConcurrency.AnsweredForOwner`), fails exactly when the uncached source fails or the last range
  stored misses it, and nothing else (`BridgeConcurrency.EveryResultExplained`); with one set of scripts
  at a time no answer is wrong (`BridgeConcurrency.EveryInterleavingIsSafe`).
- Block participation. The provider iterates hash maps in arbitrary order and still returns one value
  (`ParticipationProvider.ProvideData`); over every run each block of each producer is credited once or
  still in the log (`ReleaseRuns.EveryBlockCreditedOnce`). Every released entry carries the stake and the
  delegators of its pool in its epoch (`ParticipationProvider.ReleasedEntryIs`).
- Governed map. The state query reads live entries, the change query lists creations and spends, the
  caching source may see less than it was asked for. What it lists leads from state to state if and only
  if the window is clean (`GovernedMapLedger.ListedChangesLeadIff`). Hence, with every node's cache carried
  along and through script changes and failed blocks, an initialised pallet holds the mapping of the
  referenced main-chain block throughout a run if and only if every window applied from a listing is clean
  (`GovernedMapSync.EveryRunInSyncIff`).
- Ariadne. Size, guaranteed seats, which draw decides which seat (`Ariadne.SelectionSeats`), exact
  proportionality of draws and independence of input order, from the raw conditions on a registration
  (`Candidates.SelectLatestIff`) up to the committee that is stored.
- Sessions. Trace shape, disabled list, handler view and provider counts over every interleaving, and
  the committee pallet driving them without ever panicking.
- Deposits. Holds equal stored deposits in every reachable state, and what is stored is what was accepted
  last (`MetadataDeposits.StoredIsLastWritten`).

## Where the code and its promises part

- A transfer limit of zero moves the bridge checkpoint past everything that waits without delivering it,
  and a main-chain reference behind the checkpoint moves the checkpoint back; both are exactly the cases
  in which the checkpoint does not move by what was delivered (`BridgeSource.AdvancesExactlyIff`, with
  `BridgeSource.ZeroLimitSkips` and `BridgeSource.ReferenceBehindGoesBack`).
- Transfer amounts are cut to 64 bits; nothing is lost exactly if no UTXO brings 2^64 tokens
  (`BridgeSource.NothingTruncatedIff`, `BridgeSource.HugeUtxoLosesTokens`).
- The bridge cache never loads block 0, so it answers wrongly exactly for a checkpoint UTXO in block 0
  that is followed by bridge UTXOs of that block (`BridgeCache.ServeRefinesQueryIff`,
  `BridgeCache.BlockZeroHidesUtxo`).
- The bridge cache is locked per operation only. Overlapping calls for different scripts can be given each
  other's transfers (`BridgeSchedules.OverlapMixesScripts`), and rows stored after another call changed the
  scripts stay under the wrong label, so that a later call running alone is still given them
  (`BridgeSchedules.LateRowsMislabelled`). An answered call is right exactly if the scripts whose rows are
  cached have the same answer (`BridgeConcurrency.AnsweredForOwner`). Overlapping calls for the same
  scripts can make one of them fail as if nothing had been refilled although the uncached source answers
  (`BridgeSchedules.OverlapMayFail`); a call whose refill is not overwritten before its serve fails exactly
  if the stable block is behind its reference (`BridgeConcurrency.UndisturbedCallFailsIff`).
- Several governed-map entries may share a key. The change query reports a spend as the removal of the
  key whatever else carries it, while the state query still reads the other entry
  (`GovernedMapLedger.SpentDuplicateLosesKey`). A caching author that is told a stable block behind its
  reference leaves out the changes in between for good (`GovernedMapSync.LateStableBlockLosesEntry`). The
  cached and uncached sources lead to the same mapping exactly for clean windows: no key reported as
  removed has a live entry at the reference, and every other key has the value it had at the end of the
  search. With one live entry per key that is so exactly if the states at those two blocks are the same
  (`GovernedMapLedger.OneLiveCleanIff`). Even then the reports differ
  (`GovernedMapLedger.SourcesReportDifferently`), which the inherent compares.
- The governed-map cache remembers the blocks of the changes it found instead of the range it searched,
  and searches only up to the newest stable block. A hit leaves out changes before the remembered search
  when everything is asked for, a miss those beyond a stable block behind the reference, and nothing else
  makes a report incomplete (`GovernedMapCache.ChangeCache.GetMappingChanges`, with
  `GovernedMapCache.HitMayBeIncomplete` and `GovernedMapCache.MissMayBeIncomplete`). It is locked per
  operation as well, with the same effect of a wrong label
  (`GovernedMapConcurrency.LateChangesMislabelled`).
- `rotate_validators` stores the new set before reading the old one, so provider references are never
  taken or given back, although the comment on the decrement says they are matched.
- Without the `polkadot-js-compat` feature no validator can be disabled.
- The session manager's documentation says that a session is planned before the previous one ends; the
  code ends session i and then plans i + 1 (`Session.TraceShape`).
- The documented committee size is reached exactly if somebody with a positive weight can take the seats
  and, with one kind of candidate only, the 16-bit sum of seats does not wrap
  (`AriadneCommittee.CommitteeSize`); whenever it wraps, a candidate standing alone loses promised seats
  (`AriadneCommittee.WrappedSumBreaksPromise`). Stakes of filtered candidates are always positive.
- The stored committee is cut to the maximal number of authorities. Whatever the shuffle, a guarantee
  survives exactly if nothing was guaranteed, all seats fit, or the candidate's seats beyond the guarantee
  make up for those cut off (`Candidates.StoredPromiseKeptIff`).
- The log's documentation forbids writing a slot twice; the code checks block numbers, so equal slots
  are possible and the model allows them.
- Duplicate key ids: decoding a list takes the first entry, the map form keeps the last
  (`KeyCodec.ThroughMapIff`, `KeyCodec.DuplicateIdChangesKeys`).
- The fee history keeps the configured number of past changes plus the current one.

## Model

| member | source | states |
|---|---|---|
| `BridgeChain.WindowIsSlice` | toolkit/data-sources/db-sync/src/db_model.rs:967-985 | the observability query's filter is one contiguous slice of the ordered UTXO stream, between the checkpoint's position and the end of the referenced block |
| `BridgeChain.PosStable` | toolkit/bridge/primitives/src/lib.rs:279-293 | new main-chain blocks never move the position of an existing checkpoint |
| `BridgeChain.PosOfMember` | toolkit/bridge/primitives/src/lib.rs:288-293 | a UTXO checkpoint covers the stream up to and including that UTXO |
| `BridgeSource.FetchAdvances` | toolkit/data-sources/db-sync/src/bridge/mod.rs:82-142 | for every answered query, exactly which UTXOs are returned and at which position the new checkpoint stands, in all cases |
| `BridgeSource.AdvancesExactlyIff` | toolkit/data-sources/db-sync/src/bridge/mod.rs:131-137 | the checkpoint moves by exactly what was delivered if and only if the reference is not behind it and, when something waits, the limit is positive |
| `BridgeSource.ZeroLimitSkips` | toolkit/data-sources/db-sync/src/bridge/mod.rs:131-137 | with a limit of zero the waiting UTXO is passed over and nothing is delivered |
| `BridgeSource.ReferenceBehindGoesBack` | toolkit/data-sources/db-sync/src/bridge/mod.rs:131-137 | a reference behind the checkpoint moves it back before a UTXO delivered already |
| `BridgeSource.FetchStable` | toolkit/bridge/primitives/src/lib.rs:298-310 | an answered query is answered the same after any growth of the main chain |
| `BridgeSource.TransfersConserveTokens` | toolkit/data-sources/db-sync/src/bridge/mod.rs:146-180 | classifying UTXOs into transfers loses no token of the 64-bit amounts |
| `BridgeSource.TransfersReachDestinations` | toolkit/data-sources/db-sync/src/bridge/mod.rs:146-180 | every user is sent the 64-bit amounts of the UTXOs whose datum names them, the reserve those addressed to it, and nobody anything else |
| `BridgeSource.TransfersInOrder` | toolkit/data-sources/db-sync/src/bridge/mod.rs:146-180 | transfer i is made for the i-th UTXO that brings tokens: its amount, its recipient, or its own id if it is addressed to nobody |
| `BridgeSource.NothingTruncatedIff` | toolkit/data-sources/db-sync/src/bridge/mod.rs:152-158 | amounts are complete if and only if no UTXO brings 2^64 or more tokens |
| `BridgeSource.HugeUtxoLosesTokens` | toolkit/data-sources/db-sync/src/bridge/mod.rs:152-158 | a UTXO that brings 2^64 tokens or more loses some, exactly 2^64 all of them |
| `BridgeCache.TokenUtxoCache.SetMcScripts` | toolkit/data-sources/db-sync/src/bridge/cache.rs:47-54 | new scripts empty the range and keep the UTXO index |
| `BridgeCache.TokenUtxoCache.SetCachedTransfers` | toolkit/data-sources/db-sync/src/bridge/cache.rs:56-66 | range, transfers and index are replaced together |
| `BridgeCache.TokenUtxoCache.ServeFromCache` | toolkit/data-sources/db-sync/src/bridge/cache.rs:68-101 | skipping, cutting and limiting the cached transfers, or a miss when the range does not cover the query |
| `BridgeCache.TokenUtxoCache.TryResolve` | toolkit/data-sources/db-sync/src/bridge/cache.rs:103-111 | a checkpoint UTXO found in the index resolves to its position |
| `BridgeCache.IndexOfIff` | toolkit/data-sources/db-sync/src/bridge/cache.rs:56-66 | the rebuilt index knows exactly the ids of the cached rows, each with its last row |
| `BridgeCache.RefreshServesIff` | toolkit/data-sources/db-sync/src/bridge/cache.rs:194-225 | a refresh serves exactly the checkpoints from its own block on, up to the reference plus the saturating lookahead and the newest stable block |
| `BridgeCache.SetScriptsKeepsOk` | toolkit/data-sources/db-sync/src/bridge/cache.rs:47-54 | the emptied cache is a correct cache for the new scripts |
| `BridgeCache.FillKeepsOk` | toolkit/data-sources/db-sync/src/bridge/cache.rs:194-225 | a refresh leaves a cache that mirrors the chain over its range and an index that tells the truth |
| `BridgeCache.OkStable` | toolkit/data-sources/db-sync/src/bridge/cache.rs:8-17 | a correct cache stays correct while the chain grows |
| `BridgeCache.ResolveWithAgrees` | toolkit/data-sources/db-sync/src/bridge/cache.rs:263-278 | resolving through the index agrees with the chain, also for entries kept across a script change |
| `BridgeCache.ServeRefinesQueryIff` | toolkit/data-sources/db-sync/src/bridge/cache.rs:68-101 | an answer from the cache equals the query's answer if and only if the checkpoint is not a UTXO of block 0 followed by bridge UTXOs of that block |
| `BridgeCache.ServeIsServedRows` | toolkit/data-sources/db-sync/src/bridge/cache.rs:68-101 | whenever a correct cache answers, it gives exactly the rows of the query without those of block 0 |
| `BridgeCache.BlockZeroHidesUtxo` | toolkit/data-sources/db-sync/src/bridge/cache.rs:194-225 | with two bridge UTXOs in block 0 and the first as checkpoint, a filled cache hides the second from every answer |
| `BridgeCache.GetTransfers` | toolkit/data-sources/db-sync/src/bridge/cache.rs:120-157 | the caching source returns the uncached answer, the same errors, or refuses when the stable block is behind the reference; block 0 apart, and exactly then |
| `BridgeConcurrency.StepCallOk` | toolkit/data-sources/db-sync/src/bridge/cache.rs:179-235 | every atomic step of a call keeps cache and call correct for any scripts; a call ends with the answer for the scripts whose rows are cached, the uncached source's error of that moment, or a failure after its refill when the cached range misses it |
| `BridgeConcurrency.NextKeepsInv` | toolkit/data-sources/db-sync/src/bridge/cache.rs:120-157 | submitting, advancing and chain growth keep the cache equal to the rows of one owner over its range, and the calls in flight correct |
| `BridgeConcurrency.RunShape` | toolkit/data-sources/db-sync/src/bridge/cache.rs:120-157 | after every run the chain is the one reached last and the calls are the submitted queries in order |
| `BridgeConcurrency.AnsweredForOwner` | toolkit/data-sources/db-sync/src/bridge/cache.rs:130-146 | after every run, with any scripts, a call answered next gets exactly the answer for the scripts whose rows are cached, which is their uncached answer, block 0 apart and exactly then |
| `BridgeConcurrency.EveryInterleavingIsSafe` | toolkit/data-sources/db-sync/src/bridge/cache.rs:120-157 | under every interleaving of calls for the same scripts with chain growth, no answered call got anything but the uncached answer, block 0 apart and exactly then |
| `BridgeConcurrency.NotFilledIff` | toolkit/data-sources/db-sync/src/bridge/cache.rs:136-145 | after every run the second serve of a call fails if and only if the last range stored, by any refill or change of scripts, ends before its reference or starts beyond its checkpoint |
| `BridgeConcurrency.SourceErrorIff` | toolkit/data-sources/db-sync/src/bridge/cache.rs:132-134 | before its refill a call fails exactly when the uncached source fails at that moment, with the same error |
| `BridgeConcurrency.EveryResultExplained` | toolkit/data-sources/db-sync/src/bridge/cache.rs:130-146 | in every run with any scripts each completed call was completed by one of its own steps with the answer for the scripts cached then, the error of the uncached source, or because the last range stored missed it |
| `BridgeConcurrency.FreshRuns` | toolkit/data-sources/db-sync/src/bridge/cache.rs:161-177 | the same from an empty cache, and with one set of scripts at a time no answer is wrong |
| `BridgeConcurrency.UndisturbedCallFailsIff` | toolkit/data-sources/db-sync/src/bridge/cache.rs:136-145 | if no other range is stored between its own refill and its serve, a call fails if and only if the stable block it was told is behind its reference |
| `BridgeSchedules.OverlapMayFail` | toolkit/data-sources/db-sync/src/bridge/cache.rs:136-145 | for any two queries of the same scripts with block checkpoints more than one apart, a schedule makes the first fail although the uncached source answers |
| `BridgeSchedules.OverlapMixesScripts` | toolkit/data-sources/db-sync/src/bridge/cache.rs:130-145 | for any query and other scripts, a schedule gives the call the answer for the other scripts |
| `BridgeSchedules.LateRowsMislabelled` | toolkit/data-sources/db-sync/src/bridge/cache.rs:194-225 | for any query and other scripts, a schedule leaves rows under the wrong label, and a later call running alone is given them |
| `BridgePallet.Pallet.Genesis` | toolkit/bridge/pallet/src/lib.rs:282-288 | genesis stores the scripts and the initial UTXO checkpoint |
| `BridgePallet.Pallet.HandleTransfers` | toolkit/bridge/pallet/src/lib.rs:295-306 | every transfer reaches the handler once and in order, then the checkpoint is stored |
| `BridgePallet.Pallet.SetMainChainScripts` | toolkit/bridge/pallet/src/lib.rs:315-324 | only governance replaces scripts and checkpoint |
| `BridgePallet.CreationNeverPanics` | toolkit/bridge/pallet/src/lib.rs:333-339 | data built by the provider always fits the pallet's bound |
| `BridgePallet.BlockDelivers` | toolkit/bridge/primitives/src/lib.rs:411-437 | one block delivers the next stretch of the stream and moves the checkpoint past exactly it |
| `BridgePallet.ExactlyOnce` | toolkit/bridge/pallet/src/lib.rs:295-306 | over every run with references that do not go back, the handler got exactly the stretch between first and last checkpoint |
| `BridgePallet.TokensConserved` | toolkit/bridge/pallet/src/lib.rs:301-304 | tokens handed over in a run are the tokens that arrived between the checkpoints |
| `BridgePallet.DestinationsConserved` | toolkit/bridge/pallet/src/lib.rs:295-306 | over every run each user, and the reserve, is handed exactly what the UTXOs between the checkpoints addressed to them, and the rest appears as invalid transfers |
| `BridgePallet.InertPalletRefusesCalls` | toolkit/bridge/pallet/src/lib.rs:333-351 | without the pallet or its configuration no call is created or required, and every proposed call is refused |
| `BridgePallet.FailuresAreReported` | toolkit/bridge/primitives/src/lib.rs:411-437 | an unsupported pallet version and an error of the source make the provider fail with that version or error |
| `BridgePallet.BacklogDrains` | toolkit/bridge/pallet/src/lib.rs:103-107 | with a fixed tip, n blocks shrink the backlog by n limits or to nothing |
| `BridgePallet.VerifierAgrees` | toolkit/bridge/pallet/src/lib.rs:341-351 | a verifier with its own faithful source and a longer chain accepts the proposer's call and no other |
| `ProductionLog.PartitionPoint` | toolkit/block-production-log/pallet/src/lib.rs:224-238 | binary search ends where halving the interval ends, at a boundary on every log and at the end of the linear scan on a sorted one |
| `ProductionLog.UnsortedLogSplits` | toolkit/block-production-log/pallet/src/lib.rs:230-241 | on an unsorted log of two entries the search ends at 2 where the scan ends at 0 |
| `ProductionLog.BoundaryIsPeek` | toolkit/block-production-log/pallet/src/lib.rs:222-241 | on a sorted log with any repeats the boundary splits it into the peeked prefix and its complement |
| `ProductionLog.PeekSplits` | toolkit/block-production-log/pallet/src/lib.rs:230-233 | the prefix holds exactly the entries up to the slot, the rest exactly the later ones |
| `ProductionLog.Log.Append` | toolkit/block-production-log/pallet/src/lib.rs:176-190 | one producer per block number, increasing; an error changes nothing |
| `ProductionLog.Log.OnFinalize` | toolkit/block-production-log/pallet/src/lib.rs:201-210 | the scheduled producer is appended with the current slot and cleared |
| `ProductionLog.Log.TakePrefix` | toolkit/block-production-log/pallet/src/lib.rs:222-228 | removed prefix and remaining log are the old log; on a sorted log the prefix is the peeked one |
| `ProductionLog.Log.Drop` | toolkit/block-production-log/pallet/src/lib.rs:236-241 | leaves exactly the complement of the peeked prefix on a sorted log |
| `ProductionLog.Log.Peek` | toolkit/block-production-log/pallet/src/lib.rs:231-233 | the linear scan returns the prefix up to the slot and changes nothing |
| `ParticipationOrder.ProductionOrderTotal` | toolkit/block-participation/primitives/src/lib.rs:84-109 | the derived order on nested participation records is total if the id orders are |
| `ParticipationOrder.ComparedByFields` | toolkit/block-participation/primitives/src/lib.rs:84-109 | entries are compared by producer, then block count, then total shares, then delegators |
| `ParticipationOrder.ComparedAtFirstDifference` | toolkit/block-participation/primitives/src/lib.rs:84-93 | delegator lists are compared at the first difference, by id and then share, and a prefix comes first |
| `ParticipationOrder.NewProductionData` | toolkit/block-participation/primitives/src/lib.rs:127-142 | sorting delegators in each entry and then the entries gives the canonical data |
| `ParticipationOrder.CanonicalIsSorted` | toolkit/block-participation/primitives/src/lib.rs:126-142 | the canonical data is a sorted rearrangement of the entries, each with its delegators sorted and otherwise unchanged |
| `ParticipationOrder.CanonicalIffRearranged` | toolkit/block-participation/primitives/src/lib.rs:126-142 | two lists give equal data if and only if they differ in the order of entries and delegators only |
| `ParticipationProvider.DataEpochIff` | toolkit/block-participation/primitives/src/lib.rs:401-417 | a slot is counted in a data epoch exactly if its timestamp lies in that epoch plus the offset of two |
| `ParticipationProvider.OtherSlots` | toolkit/block-participation/primitives/src/lib.rs:401-417 | every other slot panics if its timestamp cannot be converted, is refused if it falls into the first two main-chain epochs, and saturates at the last epoch |
| `ParticipationProvider.EntryCountsBlocks` | toolkit/block-participation/primitives/src/lib.rs:401-439 | with the configured epochs, the entry of an epoch and producer counts exactly the blocks of the producer with timestamps in that epoch plus two, modulo 2^32 |
| `ParticipationProvider.CountBlocks` | toolkit/block-participation/primitives/src/lib.rs:419-439 | the nested map holds exactly the pairs of the log with their number of blocks modulo 2^32, or the first failing slot's error is returned |
| `ParticipationProvider.SummariseEpoch` | toolkit/block-participation/primitives/src/lib.rs:332-345 | visiting one epoch's producers in any order adds each pair's entry exactly once |
| `ParticipationProvider.ProvideData` | toolkit/block-participation/primitives/src/lib.rs:299-352 | for every iteration order of both hash maps the same canonical data is returned; an error is the first slot without a data epoch or names an epoch without a stake answer or a pool missing from it, and data is returned only if there is none |
| `ParticipationProvider.ReleasedCredits` | toolkit/block-participation/primitives/src/lib.rs:325-346 | released counts credit every group of producers with exactly its blocks, for fewer than 2^32 entries |
| `ParticipationProvider.ReleasedTotals` | toolkit/block-participation/primitives/src/lib.rs:331-351 | the released entries are, in some order, the entries of the epoch-producer pairs of the prefix, one for each; below 2^32 blocks the counts sum to the length of the prefix |
| `ParticipationProvider.ReleasedEntryIs` | toolkit/block-participation/primitives/src/lib.rs:363-386 | every released entry belongs to one epoch and producer of the prefix and counts its blocks; for a producer that is no pool it has no shares, and otherwise the total stake of the pool in that epoch and, in some order, the delegators of its list with their amounts |
| `ReleaseRuns.ParticipationPallet.NoteProcessing` | toolkit/block-participation/pallet/src/lib.rs:183-192 | fails without effect unless the slot increases, otherwise drops the prefix and stores the slot |
| `ReleaseRuns.RunPallets` | demo/runtime/src/lib.rs:646-664 | the wired pallets execute a block as the run model says, or reject it exactly when a mandatory inherent is missing or fails |
| `ReleaseRuns.ExactlyOnceFrom` | toolkit/block-production-log/pallet/src/lib.rs:64-76 | in every run with non-decreasing slots, all releases concatenated with the log are all entries ever written, in order |
| `ReleaseRuns.ReleaseLeavesNothingBehind` | toolkit/block-participation/pallet/src/lib.rs:183-192 | a release also takes entries that landed behind the previous boundary; only the block's own entry can land behind the new one |
| `ReleaseRuns.GenesisMovesForward` | toolkit/block-participation/pallet/src/lib.rs:183-192 | over every run the released slots strictly increase, the last one is remembered, and no release takes an entry beyond its slot |
| `ReleaseRuns.LoggedOncePerNumber` | toolkit/block-production-log/pallet/src/lib.rs:176-190 | once a block is logged, no later run accepts a block of its number or a smaller one, or one without an author |
| `ReleaseRuns.EveryBlockCreditedOnce` | toolkit/block-participation/primitives/src/lib.rs:111-123 | over every run, credits in all released data plus blocks in the log are exactly the blocks produced, per group of producers |
| `ReleaseRuns.PublishedSlots` | toolkit/block-participation/primitives/src/lib.rs:347-351 | each published record carries the slot its release was made up to |
| `Ariadne.SeatsBalance` | toolkit/committee-selection/selection/src/ariadne_v2.rs:83-104 | guaranteed seats and leftover weights add up exactly to the scaled weights |
| `Ariadne.SeatsFit` | toolkit/committee-selection/selection/src/ariadne_v2.rs:77-79 | guaranteed seats never exceed the committee and left-over seats always leave somebody to draw |
| `Ariadne.PickIff` | toolkit/committee-selection/selection/src/weighted_random.rs:33-49 | a draw selects a candidate exactly for the values in its slice of the cumulative weights |
| `Ariadne.DrawsAreProportional` | toolkit/committee-selection/selection/src/weighted_random.rs:8-11 | the number of draws that select a candidate is its weight |
| `Ariadne.SelectionSize` | toolkit/committee-selection/selection/src/ariadne_v2.rs:68-81 | the selection has the requested size unless all weights are zero, and then it is empty |
| `Ariadne.SelectionKeepsPromise` | toolkit/committee-selection/selection/src/ariadne_v2.rs:65-67 | every candidate gets at least the whole part of its expected seats |
| `Ariadne.DrawnSeats` | toolkit/committee-selection/selection/src/weighted_random.rs:23-27 | drawn seat k goes to the candidate in whose slice of the cumulative weights the k-th draw falls |
| `Ariadne.SelectionSeats` | toolkit/committee-selection/selection/src/ariadne_v2.rs:68-81 | the selection is the guaranteed seats followed by one seat per remaining draw, seat k decided by draw k over the leftover weights |
| `Ariadne.GuaranteedSeat` | toolkit/committee-selection/selection/src/ariadne_v2.rs:83-104 | the guaranteed seats stand candidate by candidate, each as often as the whole part of its expected seats |
| `Ariadne.LeftoversInOrder` | toolkit/committee-selection/selection/src/ariadne_v2.rs:83-104 | exactly the candidates with a fractional part are left for the draws, in order and with that remainder as weight |
| `Ariadne.SelectionIgnoresOrder` | toolkit/committee-selection/selection/src/ariadne_v2.rs:76-79 | rearranging the candidates does not change the selection |
| `Ariadne.SelectionTakesMembers` | toolkit/committee-selection/selection/src/ariadne_v2.rs:89-102 | only candidates with a positive weight are selected |
| `AriadneCommittee.SelectGuaranteed` | toolkit/committee-selection/selection/src/ariadne_v2.rs:83-104 | the loop computes the guaranteed seats and the leftover weights |
| `AriadneCommittee.SelectWithWeight` | toolkit/committee-selection/selection/src/weighted_random.rs:33-49 | the cumulative search finds the candidate of a draw and never reaches its panic |
| `AriadneCommittee.DrawSeats` | toolkit/committee-selection/selection/src/weighted_random.rs:12-31 | seat k goes to the candidate in whose slice of the cumulative weights the k-th draw falls, for every remaining seat, none without candidates |
| `AriadneCommittee.WeightedWithGuaranteedAssignment` | toolkit/committee-selection/selection/src/ariadne_v2.rs:68-81 | guaranteed seats followed by drawn seats, without underflow |
| `AriadneCommittee.SelectAuthorities` | toolkit/committee-selection/selection/src/ariadne_v2.rs:23-58 | assembles, shuffles and returns the committee, with the 16-bit seat sum |
| `AriadneCommittee.CommitteeSize` | toolkit/committee-selection/selection/src/ariadne_v2.rs:8-22 | committee size for every input, and when no committee is returned |
| `AriadneCommittee.CommitteeKeepsPromises` | toolkit/committee-selection/selection/src/ariadne_v2.rs:9-19 | the committee is the two selections together, or the one selection with one kind only; everybody keeps the whole expected seats, of the own kind or, with one kind only, of all seats as long as their sum fits 16 bits |
| `AriadneCommittee.WrappedSumBreaksPromise` | toolkit/committee-selection/selection/src/ariadne_v2.rs:33-54 | for every sum of seats that wraps, the committee of a single candidate of either kind is too small and below its promise |
| `AriadneCommittee.CutKeepsPromiseIff` | toolkit/committee-selection/authority-selection-inherents/src/select_authorities.rs:25-29 | every order of a committee keeps a promise after the cut if and only if nothing is promised, nothing is cut, or the seats beyond the promise make up for the cut |
| `AriadneCommittee.CommitteeIgnoresOrder` | toolkit/committee-selection/selection/src/ariadne_v2.rs:22-22 | the committee does not depend on the order of either input list |
| `Candidates.VerifySidechainSignature` | toolkit/committee-selection/authority-selection-inherents/src/filter_invalid_candidates.rs:317-335 | accepts exactly 64-byte signatures valid with recovery byte 27 or 28 |
| `Candidates.VerifyStakePoolSignature` | toolkit/committee-selection/authority-selection-inherents/src/filter_invalid_candidates.rs:299-315 | accepts exactly 64-byte signatures of the pool over the message |
| `Candidates.ValidateRegistrationData` | toolkit/committee-selection/authority-selection-inherents/src/filter_invalid_candidates.rs:253-283 | the checks with their early returns give the result of the validation |
| `Candidates.ValidationIff` | toolkit/committee-selection/authority-selection-inherents/src/filter_invalid_candidates.rs:253-283 | on raw fields: valid if and only if all required keys decode, the public key has 33 bytes, the pool signed the message of genesis, key and registration UTXO, the sidechain signature is valid with byte 27 or 28 and the registration UTXO is among the inputs; the identity is that key with the decoded keys, and the error names the first check that fails |
| `Candidates.SelectLatestIff` | toolkit/committee-selection/authority-selection-inherents/src/filter_invalid_candidates.rs:143-175 | a pool yields a candidate exactly if its stake is known and positive and some registration meets all conditions on its raw fields; it carries the key and decoded keys of the last such registration with the greatest ordering key |
| `Candidates.InvalidRegistrationsDoNotMatter` | toolkit/committee-selection/authority-selection-inherents/src/filter_invalid_candidates.rs:153-167 | adding, removing or moving invalid registrations changes nothing |
| `Candidates.RegistrationOrderDoesNotMatter` | toolkit/committee-selection/authority-selection-inherents/src/filter_invalid_candidates.rs:166-167 | with distinct ordering keys the order of registrations does not matter |
| `Candidates.FilterTrustlessPositive` | toolkit/committee-selection/authority-selection-inherents/src/filter_invalid_candidates.rs:285-297 | filtered candidates have positive weights and there are no more of them than pools |
| `Candidates.FilterTrustlessInOrder` | toolkit/committee-selection/authority-selection-inherents/src/filter_invalid_candidates.rs:104-124 | entry i of the filtered list is the candidate of the i-th pool that yields one, with its stake as weight, and every such pool has its entry |
| `Candidates.FilterPermissionedInOrder` | toolkit/committee-selection/authority-selection-inherents/src/filter_invalid_candidates.rs:126-141 | entry i is the candidate of the i-th entry with a 33-byte key and decodable required keys, with that key and those keys |
| `Candidates.ValidateStake` | toolkit/committee-selection/authority-selection-inherents/src/filter_invalid_candidates.rs:285-297 | a known positive stake is returned, a zero stake and an unknown one are told apart |
| `Candidates.StoredCommitteeSize` | toolkit/committee-selection/authority-selection-inherents/src/select_authorities.rs:16-70 | as soon as one candidate passes the filters the stored committee has the documented size up to the maximal number of authorities; with one kind only the 16-bit sum counts |
| `Candidates.StoredPromiseKeptIff` | toolkit/committee-selection/authority-selection-inherents/src/select_authorities.rs:25-29 | whatever the shuffle, the stored committee keeps a candidate's guaranteed seats, if and only if nothing was guaranteed, all seats fit, or its further seats make up for those cut off |
| `KeyCodec.TryMaybeFrom` | toolkit/committee-selection/authority-selection-inherents/src/lib.rs:116-125 | the loop collects the required keys within 1024 bytes and decodes them, or fails |
| `KeyCodec.RoundTripIff` | toolkit/partner-chains-cli/src/permissioned_candidates.rs:117-133 | published session keys are recovered if and only if they fit the bound |
| `KeyCodec.MaybeFromIgnoresOrder` | toolkit/committee-selection/authority-selection-inherents/src/lib.rs:120-123 | without duplicate ids the order of candidate keys does not matter |
| `KeyCodec.FromMap` | toolkit/partner-chains-cli/src/permissioned_candidates.rs:71-82 | exactly the entries of the map are listed, once each; refused exactly if a name is not four bytes long |
| `KeyCodec.ToMapLooksUpLast` | toolkit/partner-chains-cli/src/permissioned_candidates.rs:49-66 | conversion to the map form panics exactly on an id that is no valid UTF-8, and otherwise keeps the last entry of every id |
| `KeyCodec.ThroughMap` | toolkit/partner-chains-cli/src/permissioned_candidates.rs:49-83 | where it does not panic, passing through the map form decodes the last entry of every id |
| `KeyCodec.ThroughMapIff` | toolkit/partner-chains-cli/src/permissioned_candidates.rs:49-83 | for every list, the map form decodes to the same keys if and only if the required bytes assembled from first and from last entries agree or are both missing |
| `KeyCodec.ProperWidthsThroughMapIff` | toolkit/partner-chains-cli/src/permissioned_candidates.rs:49-83 | with proper widths, the map form decodes to the same keys if and only if first and last entry of each required id are equal, or a required id is missing or the bound exceeded |
| `KeyCodec.DuplicateIdChangesKeys` | toolkit/partner-chains-cli/src/permissioned_candidates.rs:49-83 | two entries of one id: the list form decodes the first and the map form the second |
| `KeyCodec.ThroughMapUnchanged` | toolkit/partner-chains-cli/src/permissioned_candidates.rs:49-83 | without duplicates the map form changes nothing |
| `Seed.DecodeEncode` | toolkit/committee-selection/authority-selection-inherents/src/select_authorities.rs:77-80 | decoding inverts big-endian encoding |
| `Seed.EncodeDecode` | toolkit/committee-selection/authority-selection-inherents/src/select_authorities.rs:77-80 | encoding inverts big-endian decoding, which stays within range |
| `Seed.SeedsDiffer` | toolkit/committee-selection/authority-selection-inherents/src/select_authorities.rs:73-81 | for every nonce, different 64-bit epochs give different seeds despite wrap-around |
| `Seed.SeedValue` | toolkit/committee-selection/authority-selection-inherents/src/select_authorities.rs:73-81 | read as a big-endian number the seed is the nonce, cut or padded to 32 bytes, plus the epoch modulo 2^256 |
| `Session.ChangeAccountProviders` | substrate-extensions/partner-chains-session/src/lib.rs:470-483 | every account's provider count after the change, for lists with repeats and any visiting order, nobody's consumers changing, and exactly when the decrement panics |
| `Session.ReferencesTransferred` | substrate-extensions/partner-chains-session/src/lib.rs:470-483 | if exactly the old accounts hold one reference above their base, either an account only in the old list has no other provider and is in use and the change panics, or no decrement fails and exactly the new accounts hold one |
| `Session.BinarySearch` | substrate-extensions/partner-chains-session/src/lib.rs:436-436 | finds an element of an increasing list or where it belongs |
| `Session.SessionPallet.Genesis` | substrate-extensions/partner-chains-session/src/lib.rs:323-336 | genesis takes the manager's set or else the configured one and announces it |
| `Session.SessionPallet.StoreValidators` | substrate-extensions/partner-chains-session/src/lib.rs:485-499 | stores the set, clears the disabled list and, as composed, changes no provider count |
| `Session.SessionPallet.Rotate` | substrate-extensions/partner-chains-session/src/lib.rs:406-427 | the complete state and callback trace after a rotation with or without a new set |
| `Session.SessionPallet.DisableAt` | substrate-extensions/partner-chains-session/src/lib.rs:430-444 | inserts in order exactly if in range and not yet disabled, and says so |
| `Session.SessionPallet.DisableId` | substrate-extensions/partner-chains-session/src/lib.rs:451-457 | disables the first position of the validator |
| `Session.PositionOfIff` | substrate-extensions/partner-chains-session/src/lib.rs:451-457 | the position found is the first one with the id, and none is found exactly if there is none |
| `Session.SessionPallet.IsDisabled` | substrate-extensions/partner-chains-session/src/lib.rs:531-533 | membership in the disabled list |
| `Session.EveryRunKeepsInv` | substrate-extensions/partner-chains-session/src/lib.rs:351-357 | over every interleaving the list is increasing, in range and holds exactly what was disabled since the last new set; provider counts never change; nothing is disabled without the compatibility feature |
| `Session.TraceShape` | substrate-extensions/partner-chains-session/src/lib.rs:406-427 | manager calls are end i, new i+1, start i+1 without gap and the index counts rotations |
| `Session.HandlerKnowsValidators` | substrate-extensions/partner-chains-session/src/lib.rs:416-426 | the handler was last told the stored set and since then each disabled index once, with the change flag exactly when the manager supplied a set |
| `Session.StoredIsLastOffer` | substrate-extensions/partner-chains-session/src/lib.rs:416-426 | in every run the stored set is the one the manager supplied last |
| `Session.GenesisRuns` | substrate-extensions/partner-chains-session/src/lib.rs:323-336 | all of these for every run from genesis: disabled list, provider counts, manager calls, handler view and stored set |
| `CommitteeSessions.CommitteePallet.SetNext` | toolkit/committee-selection/pallet/src/lib.rs:304-324 | stores the committee of the next epoch once, refusing other epochs |
| `CommitteeSessions.SetOnce` | toolkit/committee-selection/pallet/src/lib.rs:304-324 | a committee is accepted exactly for the epoch after the current one while none is stored; every further call fails, with the error of its epoch first |
| `CommitteeSessions.CommitteePallet.RotateToNextEpoch` | toolkit/committee-selection/pallet/src/lib.rs:413-425 | moves the next committee to current and returns it |
| `CommitteeSessions.RunBlock` | toolkit/committee-selection/pallet/src/session_manager.rs:57-115 | the two pallets execute a block as the run model says |
| `CommitteeSessions.VerifierAcceptsProposal` | toolkit/committee-selection/pallet/src/lib.rs:217-277 | the check on the parent state accepts exactly the proposer's committee created after the rotation |
| `CommitteeSessions.BlockSettles` | toolkit/committee-selection/pallet/src/session_manager.rs:75-88 | no block panics and each leaves the next committee stored one epoch ahead and the validating set equal to the current committee; a rotation puts the stored committee in charge and stores the one selected for the epoch after, or the same one if none is selected |
| `CommitteeSessions.EveryRunSettles` | toolkit/committee-selection/pallet/src/session_manager.rs:101-115 | the same over every run, and the committee's epoch never gets ahead of the running epoch |
| `CommitteeSessions.CatchesUp` | toolkit/committee-selection/pallet/src/session_manager.rs:101-115 | a chain that fell behind catches up one committee per block |
| `MetadataDeposits.MetadataPallet.UpsertMetadata` | toolkit/block-producer-metadata/pallet/src/lib.rs:234-278 | complete state and result of an upsert, an error changing nothing |
| `MetadataDeposits.MetadataPallet.DeleteMetadata` | toolkit/block-producer-metadata/pallet/src/lib.rs:292-324 | complete state and result of a deletion, an error changing nothing |
| `MetadataDeposits.MetadataPallet.HoldDeposit` | toolkit/block-producer-metadata/pallet/src/lib.rs:328-332 | holds the configured amount or fails without effect |
| `MetadataDeposits.DeleteReleasesAll` | toolkit/block-producer-metadata/pallet/src/lib.rs:315-344 | the best-effort release always frees the full stored deposit and keeps store and ledger in step |
| `MetadataDeposits.UpsertKeepsAgreement` | toolkit/block-producer-metadata/pallet/src/lib.rs:260-275 | an upsert keeps store and ledger in step whatever the hold amount |
| `MetadataDeposits.UpsertStores` | toolkit/block-producer-metadata/pallet/src/lib.rs:234-278 | an upsert is accepted exactly in time, correctly signed, and by the owner or with enough balance; then the data of the call is stored under its origin with the deposit held, and otherwise nothing changes and the first failing check is named |
| `MetadataDeposits.DeleteRemoves` | toolkit/block-producer-metadata/pallet/src/lib.rs:292-324 | a deletion is accepted exactly in time, correctly signed, by the owner or for a missing key; then the key is gone, and otherwise nothing changes and the first failing check is named |
| `MetadataDeposits.StoredIsLastWritten` | toolkit/block-producer-metadata/pallet/src/lib.rs:260-275 | over every run a key's record holds the data of the last accepted upsert since its last accepted deletion |
| `MetadataDeposits.EveryRunAgrees` | toolkit/block-producer-metadata/pallet/src/lib.rs:189-203 | in every reachable state each account's hold is the sum of its stored deposits |
| `MetadataDeposits.EveryRunFromEmptyAgrees` | toolkit/block-producer-metadata/pallet/src/lib.rs:189-203 | the same for every run from an empty store with nothing held |
| `MetadataDeposits.PalletConservesWealth` | toolkit/block-producer-metadata/pallet/src/lib.rs:328-344 | free plus held balance of every account is unchanged by the pallet |
| `MetadataDeposits.EntryFixedUntilDeleted` | toolkit/block-producer-metadata/pallet/src/lib.rs:102-105 | owner and deposit stay fixed until the owner deletes, and data changes only to what the owner wrote with a valid signature in time |
| `GovernedMapChain.CollapseMeansTheSame` | toolkit/governed-map/primitives/src/lib.rs:408-414 | keeping the last change per key does not change the outcome |
| `GovernedMapChain.DiffLeadsOver` | toolkit/governed-map/primitives/src/lib.rs:416-437 | the reinitialisation report leads from the pallet's state to the main chain's and mentions exactly the differing keys |
| `GovernedMapLedger.ReadState` | toolkit/data-sources/db-sync/src/governed_map/mod.rs:115-123 | the loop over live entries in order of creation leaves the last live entry of every key |
| `GovernedMapLedger.ListingLists` | toolkit/data-sources/db-sync/src/db_model.rs:468-496 | the change query lists every creation and spend once, by transaction and spends first |
| `GovernedMapLedger.ListedChangesLeadIff` | toolkit/data-sources/db-sync/src/governed_map/mod.rs:244-282 | the changes listed up to a searched block lead from the state read at one block to the state read at another if and only if keys spent without a following creation have no live entry and all other keys keep their value from the searched block on |
| `GovernedMapLedger.OneLiveCleanIff` | toolkit/data-sources/db-sync/src/governed_map/mod.rs:244-282 | with at most one live entry per key they do exactly if the states at the searched block and at the reference are the same |
| `GovernedMapLedger.SpentDuplicateLosesKey` | toolkit/data-sources/db-sync/src/governed_map/mod.rs:274-278 | when the older of two entries of a key is spent, the listed changes lose the key the state query still reads |
| `GovernedMapChain.UncachedChanges` | toolkit/data-sources/db-sync/src/governed_map/mod.rs:64-93 | the uncached source reports exactly the difference of the two states |
| `GovernedMapLedger.SourcesReportDifferently` | toolkit/data-sources/db-sync/src/governed_map/mod.rs:178-231 | a value spent and created again by one transaction is reported by the change query and not by the comparison of states |
| `GovernedMapCache.PartialReportIff` | toolkit/data-sources/db-sync/src/governed_map/mod.rs:301-314 | a report from part of the chain is complete if and only if no change of the window lies outside the part |
| `GovernedMapCache.ChangeCache.SetMainChainScripts` | toolkit/data-sources/db-sync/src/governed_map/mod.rs:351-361 | other scripts empty the cache, the same scripts keep it |
| `GovernedMapCache.ChangeCache.Replace` | toolkit/data-sources/db-sync/src/governed_map/mod.rs:338-349 | the changes are replaced with their least and greatest block, zero without any |
| `GovernedMapCache.ChangeCache.GetChangesInRange` | toolkit/data-sources/db-sync/src/governed_map/mod.rs:317-336 | a filtered answer exactly if the remembered blocks cover the request |
| `GovernedMapCache.ChangeCache.GetMappingChanges` | toolkit/data-sources/db-sync/src/governed_map/mod.rs:178-231 | report and cache after a hit and after a miss; the report is complete if and only if the hit leaves out no earlier change and the miss none beyond the stable block |
| `GovernedMapCache.AskSeen` | toolkit/data-sources/db-sync/src/governed_map/mod.rs:205-231 | with a known lower bound a report is exactly the changes up to the reference on a hit, and up to the stable block on a miss |
| `GovernedMapCache.MissRemembersIff` | toolkit/data-sources/db-sync/src/governed_map/mod.rs:212-231 | a miss remembers exactly the changes after the requested block, up to the newest stable block and as far as the request or the saturating cache size reaches |
| `GovernedMapCache.RememberedServesIff` | toolkit/data-sources/db-sync/src/governed_map/mod.rs:317-349 | after a miss the cache answers exactly requests that reach no further than the last change found and back no further than the first |
| `GovernedMapCache.HitMayBeIncomplete` | toolkit/data-sources/db-sync/src/governed_map/mod.rs:317-339 | after a search from block 2 a request for everything leaves out the change of block 1 |
| `GovernedMapCache.MissMayBeIncomplete` | toolkit/data-sources/db-sync/src/governed_map/mod.rs:212-228 | with stable block 3 a request up to block 5 leaves out the change of block 5 |
| `GovernedMapCache.GrowthKeepsHolds` | toolkit/data-sources/db-sync/src/governed_map/mod.rs:292-299 | a filled cache stays correct while the chain grows |
| `GovernedMapConcurrency.AnsweredFromSearch` | toolkit/data-sources/db-sync/src/governed_map/mod.rs:187-231 | under every interleaving of calls for any scripts, a hit reports what the last search stored found, a miss what its own search found |
| `GovernedMapConcurrency.UndisturbedIsAsk` | toolkit/data-sources/db-sync/src/governed_map/mod.rs:178-231 | the atomic steps taken without interruption are the call made in one go |
| `GovernedMapConcurrency.RunShape` | toolkit/data-sources/db-sync/src/governed_map/mod.rs:178-231 | after every run the calls are the submitted queries in order |
| `GovernedMapConcurrency.LateChangesMislabelled` | toolkit/data-sources/db-sync/src/governed_map/mod.rs:226-230 | a schedule in which a call is told the changes of other scripts, stored late |
| `GovernedMapSync.GovernedMapPallet.RegisterChanges` | toolkit/governed-map/pallet/src/lib.rs:365-393 | all changes are applied, the handler is told each once with old and new value; errors change nothing |
| `GovernedMapSync.GovernedMapPallet.SetMainChainScripts` | toolkit/governed-map/pallet/src/lib.rs:400-409 | only governance replaces the scripts, which asks for reinitialisation |
| `GovernedMapSync.RegisteredOncePerBlock` | toolkit/governed-map/pallet/src/lib.rs:365-393 | changes are registered exactly for configured scripts and once per block; a second call fails and changes nothing |
| `GovernedMapSync.BuiltBlock` | toolkit/governed-map/pallet/src/lib.rs:328-409 | a block is built exactly if it needs no call or its call fits and is accepted, with the mapping, scripts and flags it leaves behind; new scripts keep the mapping and ask for reinitialisation |
| `GovernedMapSync.StepCaches` | toolkit/data-sources/db-sync/src/governed_map/mod.rs:178-231 | every event changes at most the cache of the node that is asked, whether or not the block is built |
| `GovernedMapSync.BlockKeepsSyncIff` | toolkit/governed-map/primitives/src/lib.rs:383-439 | a block keeps an initialised pallet equal to the state read at its reference if and only if the window its author's cache reports is clean, and initialises any configured pallet |
| `GovernedMapSync.EveryRunInSyncIff` | toolkit/governed-map/pallet/src/lib.rs:245-258 | over every run, through script changes, failed blocks, authors with different sources and any other use of their caches, the pallet is in step throughout if and only if every window applied from a listing is clean |
| `GovernedMapSync.EveryRunInSync` | toolkit/governed-map/pallet/src/lib.rs:245-258 | from genesis, with at most one live entry per key, references that do not go back and stable blocks not behind them, the pallet is in step throughout every run |
| `GovernedMapSync.LateStableBlockLosesEntry` | toolkit/data-sources/db-sync/src/governed_map/mod.rs:212-231 | a caching author told a stable block behind its reference builds a block that leaves the pallet out of step, past the missed entry |
| `ConfigPaths.SaveToFile` | toolkit/partner-chains-cli/src/config.rs:122-142 | the cursor loop computes the saved tree, or panics exactly on a root that cannot be indexed |
| `ConfigPaths.ExtractFrom` | toolkit/partner-chains-cli/src/config.rs:157-170 | the reading loop follows the path and decodes the node as the field's type |
| `ConfigPaths.SaveSome` | toolkit/partner-chains-cli/src/config.rs:129-136 | saving fails exactly on a non-empty path into a scalar or array root |
| `ConfigPaths.ExtractAfterSave` | toolkit/partner-chains-cli/src/config.rs:122-170 | at and below the saved path the saved value is read |
| `ConfigPaths.LoadAfterSaveIff` | toolkit/partner-chains-cli/src/config.rs:122-170 | a saved field reads back if and only if its value survives being written and read |
| `ConfigPaths.OtherPathsKeep` | toolkit/partner-chains-cli/src/config.rs:130-135 | every diverging path reads as before, also where an intermediate value was replaced |
| `ConfigPaths.AboveSavedPath` | toolkit/partner-chains-cli/src/config.rs:129-137 | above the saved path stands the old object with the rest of the path saved into it |
| `ConfigPaths.SecondSaveWins` | toolkit/partner-chains-cli/src/config.rs:122-142 | a later save to the same path wins as if the first had not happened |
| `ConfigPaths.SavingTheSame` | toolkit/partner-chains-cli/src/config.rs:122-142 | saving what is there already changes nothing |
| `ConfigPaths.AllReadable` | toolkit/partner-chains-cli/src/config.rs:286-297 | fields saved at pairwise diverging paths all read back |
| `ConfigPaths.CardanoParametersReadable` | toolkit/partner-chains-cli/src/config.rs:286-297 | whatever the file held, the saved Cardano parameters read back as the same typed parameters |
| `ConfigPaths.CardanoParametersAtPaths` | toolkit/partner-chains-cli/src/config.rs:286-297 | each Cardano parameter is written to and read from its literal path |
| `KeyHashList.Print` | toolkit/partner-chains-cli/src/config.rs:357-370 | the printing loop writes hashes separated by single spaces |
| `KeyHashList.ShowSnoc` | toolkit/partner-chains-cli/src/config.rs:357-370 | nothing for no hash, one alone as it is, and every further one after a single space |
| `KeyHashList.ParseList` | toolkit/partner-chains-cli/src/config.rs:341-355 | the parsing loop decodes every word or reports the first that fails |
| `KeyHashList.WordsBetweenSpaces` | toolkit/partner-chains-cli/src/config.rs:344-346 | the words of a text are what its whitespace separates, empty ones left out |
| `KeyHashList.ParseIff` | toolkit/partner-chains-cli/src/config.rs:344-354 | a text is accepted if and only if all its words are key hashes, and gives them in order; otherwise the first word that is none is named |
| `KeyHashList.ParseAfterShow` | toolkit/partner-chains-cli/src/config.rs:341-370 | parsing the printed form returns the list, for every list |
| `KeyHashList.ShowNormalises` | toolkit/partner-chains-cli/src/config.rs:341-370 | printing an accepted text again keeps its meaning |
| `ProducerFees.FeesPallet.Set` | toolkit/block-producer-fees/pallet/src/lib.rs:77-89 | a fee above 10000 is refused without effect, any other is pushed in front of the bounded log |
| `ProducerFees.FeesPallet.GetLatest` | toolkit/block-producer-fees/pallet/src/lib.rs:117-119 | the newest change, if any |
| `ProducerFees.FeesPallet.GetAllLatest` | toolkit/block-producer-fees/pallet/src/lib.rs:104-108 | the newest change of every stored account, given that no log is empty |
| `ProducerFees.LogIsRecentWindow` | toolkit/block-producer-fees/pallet/src/lib.rs:82-87 | after any calls a log is exactly the newest accepted changes, one more than the configured history |
| `ProducerFees.StoredLogsWellFormed` | toolkit/block-producer-fees/pallet/src/lib.rs:60-70 | stored logs are never empty, fees are in range and slots do not increase towards the past |

## Left out

- Node service, RPC, chain specifications, command-line prompts and file access: plumbing.
- Aura slot claiming, seals and import queue: they live in libraries outside the repository.
- EVM pallets and the Ethereum runtime API: thin forwarding.
- Cryptography, hashing, CBOR and SCALE encodings, random number generation and shuffling: parameters with the property that is relied on (draws below their bound, a shuffle permutes).
- SQL queries: modelled by the ordered rows they select; main-chain rollbacks are outside, the models speak about the stable chain.
- Participation inherents `create_inherent`, `check_inherent`, `is_inherent_required`: a single comparison each; the run model takes their effect.
- `save_if_empty`, `select_options` and other wrappers around reading and saving: easy compositions.
- Address associations and weights: only easy members.
- Unknown block hashes and growth of the main chain during concurrent governed-map calls: a call knows its block numbers and the change streams are fixed.
- `frame_system` provider counters: a count and a number of consumers per account; a decrement fails exactly when it would drop the last provider of a consumed account.
- Session index overflow at 2^32 rotations and weights beyond 128 bits in Ariadne: numbers are unbounded there.
- UTF-8 validity of key ids and JSON encodings of field types: parameters; only that a value survives being written and read is relied on.
- Reading the stable block and the rows of one bridge refill: one step of the interleaving model.
- Order of rows within one transaction of the governed-map queries, and merging of identical rows by the change query: both queries are taken to list the entries of a transaction in one fixed order.
- Probing order of `partition_point` on an unsorted log: plain halving; on sorted logs, the only ones that occur, it makes no difference.
- ConfigPaths.SaveToFile: the mutable cursor is modelled as a focused node with the nodes above it; aliasing into the tree is not captured.
- BridgePallet.ExactlyOnce: governance calls are excluded within a run; the theorem starts from any state and applies again after each of them.
