# Verified models of filter, slot, amount and signer logic

This project models, in Dafny, the parts of the Mundis tool set that carry the most state and
arithmetic, and proves what their callers rely on:

- the Bloom filter in its plain and its lock-free form, with every interleaving of concurrent
  calls, and whole lives of a filter that passes back and forth between the two forms;
- block production: the window of slots, the leader table, the one-pointer merge of confirmed
  blocks with slots, the per-leader counts, and the slot history ring behind the fast path;
- the ping loop, for any sequence of answers, timeouts and interrupts;
- token amounts printed as decimal text, trimmed text and cached text;
- the signer lists of the stake commands and the indices handed out from them;
- the offline-signing report and the reader that undoes it;
- the feature-set tally behind the 95% rule, spend resolution, and the epoch start scan.

`dafny verify dfyconfig.toml` checks everything.

## How it is laid out

| file | contents |
|---|---|
| `Prelude.dfy`, `MapSums.dfy` | optional values, 64-bit bounds; totals over map values |
| `Bits.dfy` | words as numbers, `|`, `&`, population count, packing bits into words |
| `BloomSpec.dfy` | positions, the effect of adding items, the two conversions |
| `BitMachine.dfy` | calls in progress on a shared bit vector, under any schedule |
| `Choices.dfy`, `AddAnswers.dfy` | choosing different things for all; what overlapping adds may return |
| `Interleaving.dfy` | the same on 64-bit words with atomic operations; refinement |
| `BloomFilters.dfy` | the classes `Bloom` and `AtomicBloom` |
| `BloomHistory.dfy` | whole lives of a filter |
| `BlockProduction.dfy`, `SlotHistory.dfy` | slot accounting and the ring it reads |
| `Ping.dfy` | the ping loop |
| `Decimal.dfy`, `TokenAmount.dfy` | decimal text |
| `Signers.dfy`, `StakeSigners.dfy` | unique signers, indices, the stake parsers |
| `OfflineSigning.dfy` | the report, its reader, looking up signatures |
| `FeatureStats.dfy`, `Spend.dfy`, `EpochScan.dfy` | the smaller arithmetic cores |

## Modelling decisions

- `hash_at_index`, the text forms of keys and signatures, signature verification, block times and
  all answers of the cluster are arbitrary functions or inputs. Where a proof needs something of
  them (reading undoes printing, no `=` in a printed key, no accepted transfer is polled forever) it
  is a stated premise.
- 64-bit words are natural numbers below 2^64; `|`, `&`, `<<` and the population count are written
  out on binary digits. The one place where an addition wraps around (spend plus fee) wraps in
  the model too, as release builds do.
- Each `fetch_or` and `load` is one indivisible step. A schedule is any sequence of thread numbers.
- Iteration over a hash map is iteration over its entries in an arbitrary order.

## Findings

Eight promises hold only under a condition, which is proved to be exact; for each one a lemma or method
shows an input where it fails.

- `AtomicBloom::add` says it returns true if the item was not in the filter before. Undisturbed that
  is exact. Overlapping other calls, true still means that the item was missing when the call began,
  but an add of a missing item can return false: two adds of one item on a new one-bit filter
  (`MissingItemAnsweredFalse`). The answer is right under every schedule exactly when the item was
  there already, or some clear bit of it is one that no other running add is going to set
  (`AddTellsTheTruthIff`).
- Nor does a true answer single out one add. Overlapping adds of any items can all return true exactly
  when a clear bit of each can be chosen so that the chosen bits are different
  (`AllAddsReturnTrueIffDistinctClear`); for n adds of one item, exactly when n different bits of it
  are clear, so two can on any new filter in which the item has two positions (`TwoAddsToANewFilter`).
  What always holds: an add returns true exactly when one of its own steps changed the words.
- The number of blocks the merge reports as produced equals the number of blocks listed exactly when
  the list is strictly increasing and inside the window. The list from the slot history always is;
  the slow path takes the list from the cluster as it comes. For any list at all, a slot is marked
  produced exactly when it is listed and not first listed after a later block, so a repeated block
  is counted once and a late one is lost (`SwappedBlocks`).
- The leader table depends on the iteration order of a hash map exactly when some slot of the
  window is claimed under two names (`OrderChangesTheTable`).
- An accepted spend from the account that also pays the fee is covered exactly when the sum of both
  fits 64 bits; a sum that leaves 64 bits is accepted exactly when its wrapped value is within the balance
  and the account is not empty (`OneAccountPaysBoth`, `WrappedSumIsAccepted`).
- A nonce authority without a nonce account makes the stake parsers fail on an index lookup,
  exactly when its key belongs to no other signer (`StrangerAsNonceAuthority`). Argument parsing
  rules that case out.
- The stake shares of the feature sets stay within the total, whatever the vote accounts, exactly when
  no node id is listed twice. That at most one set reaches 95% of the stake needs less: exactly that no
  id is listed under two sets, and that ids of two different sets listed a and b times satisfy
  95 (a + b) > 100 a b (`AtMostOneByStakeIffSetsApart`, `OneNodeListedTwice`). On RPC nodes it holds
  always.
- The slot history answers for its whole window after slots added in increasing order. Adding a lower
  slot takes back everything from there on; after the ring has wrapped, the window can then reach back
  to cells that later slots have taken, and a slot never added is found (`GoingBackFindsAStranger`).
  In any order of adding, every slot of the window whose cell was not taken over is answered correctly,
  and the whole window is after every run exactly if the run never went back, or nothing above slot
  2^20 was ever added and the window is in the first 2^20 slots, or it went back to slot 0
  (`WindowRightIffSafe`).

Also: `parse_stake_authorize` lists an entry for the new staker's signer whenever a new staker is
named, so naming one by key alone requires the default signer even if every role has its own
(`NewStakerByKeyNeedsDefault`); the same does not happen for a new withdrawer. And a checked command
in which nobody is named as new withdrawer or new custodian still hands out an index for that role:
the one of the first signer (`ParseCreate`, `ParseSetLockup`).

## Model

| member | source | states |
|---|---|---|
| `Bits.And63` | bloom/src/bloom.rs:171-173 | masking a position with 63 is its remainder by 64 |
| `Bits.OrSetsBit` | bloom/src/bloom.rs:182-184 | or-ing the one-bit mask into its word sets that bit of the vector and no other, and the masked old value is zero exactly when the bit was clear |
| `Bits.UnpackPack` | bloom/src/bloom.rs:154-159 | packing bits into words and unpacking gives the bits back, followed by clear padding |
| `Bits.SumOnesIsCountTrue` | bloom/src/bloom.rs:219-224 | the population counts of the words add up to the number of set bits, padding included |
| `BloomSpec.PositionIsRest` | bloom/src/bloom.rs:103-105 | the position for the k-th key is what remains of the hash under that very key when the number of bits is taken away as often as it goes |
| `BloomSpec.HoldsFromHash` | bloom/src/bloom.rs:119-127 | an item is held exactly when under every key the bit at what remains of its hash is set |
| `BloomSpec.CountIsExactIffPaddingClear` | bloom/src/bloom.rs:217-234 | the count summed before truncation is the number of set bits of the filter if and only if the padding is clear |
| `BloomSpec.PlainRoundTrip` | bloom/src/bloom.rs:149-163 | plain to atomic and back is the identity if and only if the cached count was right |
| `BloomSpec.PackedRoundTrip` | bloom/src/bloom.rs:217-234 | atomic to plain and back is the identity if and only if the padding is clear |
| `BitMachine.StepKeepsDestiny` | bloom/src/bloom.rs:179-187 | the set of bits that are set or still to be set by a running add is the same before and after every atomic step |
| `BitMachine.GrowthIsClearSeen` | bloom/src/bloom.rs:181-185 | over any run, the steps that saw their bit clear are exactly as many as the bits gained |
| `BitMachine.SoloRun` | bloom/src/bloom.rs:177-187 | an undisturbed add reports whether it met a clear bit, sets its own bits only, and leaves other calls alone, also when keys share a bit |
| `BitMachine.SomeScheduleCompletes` | bloom/src/bloom.rs:177-195 | from any state, queries included, some schedule lets every call return |
| `AddAnswers.ReportsIffChanges` | bloom/src/bloom.rs:181-185 | on bits: a call comes to return true if and only if one of its own steps turns a bit on |
| `AddAnswers.AlwaysTrueIffOwnClear` | bloom/src/bloom.rs:177-187 | on bits: an add returns true under every schedule if and only if some clear bit of its item is pending in no other call |
| `AddAnswers.KeepsItsWordIffPresentOrOwnClear` | bloom/src/bloom.rs:177-187 | on bits: the answer says under every schedule whether the item was missing when the call began, if and only if it was present or some clear bit is the call's own to set |
| `AddAnswers.AllReturnTrueIffDistinctClear` | bloom/src/bloom.rs:177-187 | on bits: overlapping adds of any items can all return true if and only if different clear bits can be chosen for them |
| `Choices.SomeoneFirst` | bloom/src/bloom.rs:181-185 | a choice of different free bits can be rearranged until some call has its first free one, which is the bit it will meet |
| `AddAnswers.AllReturnTrueIffEnoughClear` | bloom/src/bloom.rs:177-187 | on bits: n overlapping adds of one item can all return true if and only if n different bits of it are clear |
| `Interleaving.WordAndMaskNameTheBit` | bloom/src/bloom.rs:166-175 | the word index is in bounds, and word and mask read and set exactly the bit the plain filter would use |
| `Interleaving.WordAndMaskInjective` | bloom/src/bloom.rs:166-175 | word and mask pairs correspond one to one with positions |
| `Interleaving.AtomicOps` | bloom/src/bloom.rs:182-193 | `fetch_or` with word and mask sets one bit of the vector, and the masked load reads it |
| `Interleaving.RunRefines` | bloom/src/bloom.rs:165-195 | every run of atomic word operations is the run of the same schedule on single bits |
| `Interleaving.EveryScheduleEndsInTheSameWords` | bloom/src/bloom.rs:179-187 | any two schedules that let all calls return leave the same words |
| `Interleaving.ConcurrentCallsRefineSequential` | bloom/src/bloom.rs:177-195 | after any complete interleaving of adds and queries the filter has the bits of sequential adds of those items, and its padding is unchanged |
| `Interleaving.ConcurrentAddsRefineSequential` | bloom/src/bloom.rs:217-234 | after any complete interleaving of calls on a shared plain filter, converting back gives the bits of sequential adds, clear padding and an exact count |
| `Interleaving.ClearSeenIsPopulationGrowth` | bloom/src/bloom.rs:181-185 | the steps that saw their bit clear are exactly the growth of the summed population count |
| `Interleaving.AddsReportChange` | bloom/src/bloom.rs:177-195 | among overlapping adds and queries, adds returning true never outnumber the bits gained, and one returns true if and only if the words changed |
| `Interleaving.AddReportsItsOwnChange` | bloom/src/bloom.rs:181-185 | whatever else is running, an add returns true if and only if one of its own steps changed the words |
| `Interleaving.ContainsIsBracketed` | bloom/src/bloom.rs:189-195 | at the moment it returns, whatever else is still running: contains is true if all bits were set when it began, and true only if all are set by now |
| `Interleaving.AddIsBracketed` | bloom/src/bloom.rs:177-187 | at the moment it returns, whatever else is still running: the bits of an add are set, and it returns true only if one of them was clear when it began |
| `Interleaving.AddTellsTheTruthIff` | bloom/src/bloom.rs:177-187 | on words: an add tells under every schedule whether the item was missing when it began, if and only if the item was there already or some clear bit of it is one no other running add is going to set |
| `Interleaving.OvertakenAdd` | bloom/src/bloom.rs:177-187 | on any filter, one of two overlapping adds of an item can be overtaken so that it returns false |
| `Interleaving.MissingItemAnsweredFalse` | bloom/src/bloom.rs:177-187 | on a new one-bit filter an add that began while the item was missing returns false |
| `Interleaving.AllAddsReturnTrueIffDistinctClear` | bloom/src/bloom.rs:177-187 | on words: overlapping adds of any items can all return true if and only if a clear bit of each can be chosen, all different |
| `Interleaving.AllAddsReturnTrueIffEnoughClear` | bloom/src/bloom.rs:177-187 | on words: n overlapping adds of one item can all return true if and only if n different bits of it are clear |
| `Interleaving.TwoAddsToANewFilter` | bloom/src/bloom.rs:177-187 | on a new filter two overlapping adds of an item with two different positions can both return true |
| `Interleaving.TwoAddsOfSeven` | bloom/src/bloom.rs:177-187 | one such filter written out: two bits, two keys and a hash that is the key |
| `Interleaving.UndisturbedAdd` | bloom/src/bloom.rs:177-195 | with no other thread running, add returns true exactly when contains was false, and sets only the item's bits |
| `BloomFilters.Bloom.constructor` | bloom/src/bloom.rs:66-74 | a new filter has the keys given, all bits clear and count zero |
| `BloomFilters.Bloom.FromAtomic` | bloom/src/bloom.rs:217-234 | conversion takes keys, truncated bits and the count over whole words; it is the take-back event of a life |
| `BloomFilters.Bloom.Clear` | bloom/src/bloom.rs:106-109 | clearing keeps keys and length and resets bits and count; it is the clear event of a life |
| `BloomFilters.Bloom.Add` | bloom/src/bloom.rs:110-118 | exactly the item's positions are set, and the count moves by the bits that turned on, up to the largest 64-bit number; it is the add event of a life |
| `BloomFilters.Bloom.Contains` | bloom/src/bloom.rs:119-127 | true exactly when every position of the item is set |
| `BloomFilters.AtomicBloom.FromBloom` | bloom/src/bloom.rs:149-163 | conversion packs the bits into fresh words with clear padding; it is the share event of a life |
| `BloomFilters.AtomicBloom.MockClone` | bloom/src/bloom.rs:203-214 | a clone has the same value in fresh words |
| `BloomFilters.AtomicBloom.FetchOrKey` | bloom/src/bloom.rs:182-184 | one atomic operation: the mask is or-ed in and the answer is whether the bit was clear |
| `BloomFilters.AtomicBloom.TakeTurns` | bloom/src/bloom.rs:179-187 | the loop of the call is the run of one thread in the interleaving model |
| `BloomFilters.AtomicBloom.Add` | bloom/src/bloom.rs:177-187 | the answer is whether the item was missing just before; its bits are set and no others, padding included; it is a legal event of a life |
| `BloomFilters.AtomicBloom.Contains` | bloom/src/bloom.rs:189-195 | true exactly when every bit of the item is set in the words |
| `BloomFilters.AtomicBloom.ClearForTests` | bloom/src/bloom.rs:197-201 | afterwards the filter equals a new one; it is the shared clear event of a life |
| `BloomHistory.ReachableState` | bloom/src/bloom.rs:66-234 | after any life of adds, clears, sharing, overlapping calls and taking back, the set bits are the positions of the live items, and the count, cached or summed over words, is their number, at most the length |
| `BloomHistory.ContainsIffCovered` | bloom/src/bloom.rs:119-127 | membership holds exactly when every position of x belongs to some item added since the last clear |
| `BloomHistory.NoFalseNegatives` | bloom/src/bloom.rs:119-127 | an item added since the last clear is always found |
| `BloomHistory.OverlappedQueryFindsLive` | bloom/src/bloom.rs:189-195 | in any life, a query that has returned while adds overlap it found every item that was live when it began |
| `BloomHistory.OnlyTheLiveSetMatters` | bloom/src/bloom.rs:431-441 | two lives with the same set of live items end in the same filter, words included, whatever order, repetition or concurrency |
| `BloomHistory.ReachableRoundTrip` | bloom/src/bloom.rs:351-375 | a reachable filter in either form survives the trip through the other form unchanged, count and words included |
| `BlockProduction.ResolveWindow` | cli/src/cluster_query.rs:1092-1162 | the window is the longest one inside the epoch, the limit and the past, never empty; the history is used exactly when it covers it, otherwise the window is also cut at the oldest ledger slot, and unavailable exactly when nothing is left |
| `BlockProduction.LeaderTable` | cli/src/cluster_query.rs:1181-1190 | each slot of the window gets the last leader claiming it, or the unknown mark |
| `BlockProduction.InvertSchedule` | cli/src/cluster_query.rs:961-969 | the grown table covers every assigned slot, ends at an assigned one, and names the last leader claiming each |
| `BlockProduction.TableIgnoresOrderIffOneLeaderPerSlot` | cli/src/cluster_query.rs:1183-1190 | the table is the same for every iteration order if and only if no slot of the window is claimed under two names |
| `BlockProduction.OrderChangesTheTable` | cli/src/cluster_query.rs:1183-1190 | one slot claimed under two names: the two orders name different leaders |
| `BlockProduction.Advance` | cli/src/cluster_query.rs:1205-1228 | the inner loop ends, passes only earlier blocks, and stands on the slot exactly when the merge can see its block |
| `BlockProduction.MergeBlocks` | cli/src/cluster_query.rs:1197-1229 | one status per slot in order, skipped exactly when no block is seen, and counters that equal each leader's slots and skips and sum to the totals |
| `BlockProduction.SeenIffListedAndNotOvertaken` | cli/src/cluster_query.rs:1205-1228 | for any list, a block is seen exactly when it is listed and not first listed after a later one |
| `BlockProduction.SeenCountIsLengthIffInOrder` | cli/src/cluster_query.rs:1164-1169 | the merge accounts for every block if and only if the list is strictly increasing and inside the window |
| `BlockProduction.InOrderFits` | cli/src/cluster_query.rs:1167-1169 | blocks in order inside the window never outnumber its slots, so the assertion holds |
| `BlockProduction.MakeEntries` | cli/src/cluster_query.rs:1233-1245 | the subtraction never underflows, there is one entry per leader, and the entries sum to the window |
| `BlockProduction.ReportProduction` | cli/src/cluster_query.rs:1164-1257 | fails exactly when blocks outnumber slots; otherwise leader slots sum to the window, and produced blocks to the block total if and only if the list is in order |
| `BlockProduction.SwappedBlocks` | cli/src/cluster_query.rs:1205-1228 | for two blocks listed in the wrong order the report marks a listed slot as skipped, and the produced blocks do not add up to the total |
| `BlockProduction.FoundSlots` | cli/src/cluster_query.rs:1125-1131 | the fast path list is strictly increasing, inside the window, and shows exactly the found slots |
| `SlotHistory.Recorder.Add` | sdk/program/src/slot_history.rs:47-63 | clearing everything after a long gap does what clearing slot by slot would; the passed-over slots are cleared and the slot is set |
| `SlotHistory.EveryRunAgrees` | sdk/program/src/slot_history.rs:47-83 | after slots added in any order, however often the ring wraps, every slot of the window whose cell no later slot has taken is answered correctly; slots past the newest are future, those before the window too old, and no others |
| `SlotHistory.WindowRightIffSafe` | sdk/program/src/slot_history.rs:47-83 | for each highest slot and next slot: after all runs that end so the whole window is answered correctly, if and only if the end is safe |
| `SlotHistory.IncreasingKeepsAll` | sdk/program/src/slot_history.rs:47-83 | slots added in increasing order are all on record and end safely |
| `SlotHistory.GoingBackFindsAStranger` | sdk/program/src/slot_history.rs:47-75 | going back after the ring has wrapped, a slot that was never added is found |
| `SlotHistory.ReportFromHistory` | cli/src/cluster_query.rs:1124-1257 | a report over a window the history covers has one status per slot in order with its leader, skipped exactly for slots not on record, one entry per leader, and sums that agree with the totals |
| `SlotHistory.ShowBlockProduction` | cli/src/cluster_query.rs:1092-1257 | the whole command: no report exactly when there is no window; with the history covering it the report tells the history, otherwise it describes the list the cluster gave, failing exactly when that outnumbers the slots |
| `Ping.PeriodStart` | cli/src/cluster_query.rs:1329-1340 | the amount counts the rounds since the blockhash was last acquired, so it never exceeds the round number plus one |
| `Ping.SendFromAnswers` | cli/src/cluster_query.rs:1318-1340 | every transfer carries the blockhash of the last round that got a new one and the rounds since; if none did, the fixed blockhash if it is a real one, else the first answer of the cluster, and the rounds so far |
| `Ping.SendsDifferIffHashesDiffer` | cli/src/cluster_query.rs:1331-1340 | transfers are pairwise different if and only if the acquired blockhashes are |
| `Ping.PollSignature` | cli/src/cluster_query.rs:1368-1432 | polling ends at the first decisive poll, and that poll fixes the outcome: an answer counts before the timeout, the timeout before an interrupt |
| `Ping.SendAndPoll` | cli/src/cluster_query.rs:1366-1448 | a failed send is a failed ping without signature; otherwise the first decisive poll decides |
| `Ping.PingShape` | cli/src/cluster_query.rs:1377-1445 | a ping carries its round as sequence, and is a success exactly when it has a time, then with its amount and no error |
| `Ping.OutcomeFollows` | cli/src/cluster_query.rs:1369-1432 | from the deciding poll: a failed call fails the run, an interrupt in time cuts it, a landed transfer is a success with its time and amount, a rejected one a failure with its error, a timeout a failure without one; the signature is the one sent |
| `Ping.FailedSendFollows` | cli/src/cluster_query.rs:1434-1447 | a transfer that was not accepted is a failed ping with that error and nothing else |
| `Ping.NextTransfer` | cli/src/cluster_query.rs:1331-1356 | the next blockhash and amount are those of the whole run so far, and the round fails before sending exactly when a needed blockhash or the spend check does |
| `Ping.ProcessPing` | cli/src/cluster_query.rs:1314-1454 | however the run ends, ping i is what became of transfer i, pings equal the submit count, successes equal the confirmed count and the recorded times, the sends are the expected ones, and the run stops at the first thing that stops it |
| `Ping.ConfirmedAreLanded` | cli/src/cluster_query.rs:1375-1389 | in any run the confirmed transfers are those whose deciding poll found them landed, and the times are theirs, in order |
| `Ping.CountReachedIff` | cli/src/cluster_query.rs:1329-1454 | a run never goes over its count, the largest 64-bit number if none is given, and ends by it exactly when it gets there without an interrupt at the end |
| `Ping.OneRun` | cli/src/cluster_query.rs:1314-1454 | those statements leave no freedom: two ended runs against the same answers have the same pings, counts, times, transfers and exit |
| `Ping.RunRepeatsNoTransferIffHashesDiffer` | cli/src/cluster_query.rs:1314-1454 | in any run no blockhash and amount pair repeats if and only if no acquired blockhash does; never with a fixed blockhash |
| `Decimal.ParsePrinted` | account-decoder/src/parse_token.rs:199-204 | printing and reading back a number succeeds for exactly the 64-bit ones |
| `Decimal.ParseMeans` | account-decoder/src/parse_token.rs:199-204 | reading a number succeeds exactly for one or more digits, after at most one plus sign, whose value fits 64 bits, and gives that value |
| `Decimal.WholeIsQuotient` | account-decoder/src/parse_token.rs:173-176 | the whole part is the quotient of the amount by the power of ten |
| `TokenAmount.RealNumberStringDenotes` | account-decoder/src/parse_token.rs:167-178 | the text is a numeral of digits and at most one point that spells the amount with exactly that many digits after the point, has a point only if there are any, and before it the whole part as it is printed, without superfluous zeros |
| `TokenAmount.TrimmedIsReduced` | account-decoder/src/parse_token.rs:180-187 | trimming the text is printing the fraction with common factors of ten removed |
| `TokenAmount.TrimmedIsPrefix` | account-decoder/src/parse_token.rs:180-187 | trimming removes only zeros at the end of the fraction, or a fraction of zeros with its point |
| `TokenAmount.TrimmedDenotes` | account-decoder/src/parse_token.rs:180-187 | the trimmed text is a numeral of the same value with the same whole part, no trailing fraction zero and no bare point |
| `TokenAmount.TrimmedEqualIffSameValue` | account-decoder/src/parse_token.rs:180-187 | two trimmed texts are equal if and only if the two values are |
| `TokenAmount.UiAmountIsFaithful` | account-decoder/src/parse_token.rs:198-228 | the cached text is never empty and equals its recomputation from the stored amount; both printed forms are those of the original amount |
| `TokenAmount.AnyReplyIsShown` | account-decoder/src/parse_token.rs:198-216 | of any reply a cached text is shown as it is; otherwise the stored amount, or zero if it is not a 64-bit number, is spelled in both forms |
| `TokenAmount.UiAmountIsQuotient` | account-decoder/src/parse_token.rs:218-228 | the stored amount spells the amount; the quotient is there exactly up to 19 decimals and times the power of ten it is the amount |
| `TokenAmount.Quotient` | account-decoder/src/parse_token.rs:218-223 | when present, the quotient times the power of ten is the amount, before rounding |
| `TokenAmount.QuotientPresentUpTo19` | account-decoder/src/parse_token.rs:218-223 | the quotient is present exactly up to 19 decimals |
| `Signers.GenerateUniqueSigners` | clap-utils/src/keypair.rs:241-263 | fails exactly when a needed default signer cannot be loaded; otherwise returns the default signer if an entry is absent, and then the given entries whose key neither it nor an earlier entry has, in order |
| `Signers.UniqueByPosition` | clap-utils/src/keypair.rs:249-259 | the first occurrences among the candidates are exactly those entries of the list, by position |
| `Signers.FirstOccurrencesDistinct` | clap-utils/src/keypair.rs:255-259 | the signers returned have pairwise different keys |
| `Signers.FirstOccurrencesInOrder` | clap-utils/src/keypair.rs:255-259 | they are, in order, exactly the candidates not preceded by the same key |
| `Signers.FirstStaysFirst` | clap-utils/src/keypair.rs:249-253 | the first candidate, the default signer if any entry is absent, stays first |
| `Signers.ListedRoleResolves` | clap-utils/src/keypair.rs:74-82 | a role that was listed gets an index in range that points at its own key, or at the default signer if absent |
| `Signers.KeyResolvesIffAvailable` | clap-utils/src/keypair.rs:74-82 | any other key gets an index exactly when some listed signer or the needed default has it |
| `StakeSigners.ParseAuthorityCommand` | cli/src/stake.rs:728-772 | the two-role parsers fail exactly for a missing default or a stranded nonce authority; otherwise every index points at its role |
| `StakeSigners.StrangerAsNonceAuthority` | cli/src/stake.rs:748-768 | a nonce authority of its own key without a nonce account fails on the index lookup |
| `StakeSigners.ParseCreate` | cli/src/stake.rs:654-726 | the same for creating an account, with the checked withdrawer's index, which is the first signer's if none is named |
| `StakeSigners.ParseSplit` | cli/src/stake.rs:896-943 | the same for splitting |
| `StakeSigners.ParseWithdraw` | cli/src/stake.rs:1033-1084 | the same for withdrawing, with the custodian's index present exactly when given |
| `StakeSigners.ParseSetLockup` | cli/src/stake.rs:1086-1151 | the same for setting a lockup, with the checked new custodian's index, which is the first signer's if none is named |
| `StakeSigners.ParseAuthorize` | cli/src/stake.rs:774-894 | the same for authorizing: one authorization for each new key named, staker before withdrawer; a new staker is authorized by the stake authority if given, else by the withdraw authority or the default signer; a new withdrawer by the withdraw authority or the default signer; the new key's index is there exactly when it signs |
| `StakeSigners.AuthorizeNeedsDefault` | cli/src/stake.rs:786-856 | exactly when the default signer is needed, from the arguments |
| `StakeSigners.AuthorizeOrder` | cli/src/stake.rs:811-856 | with every role given and all keys different the signers come in the order they are pushed |
| `StakeSigners.NewStakerByKeyNeedsDefault` | cli/src/stake.rs:786-815 | with every role given, the default signer is needed if and only if a new staker is named without a signer |
| `OfflineSigning.ReturnSigners` | cli-output/src/cli_output.rs:2145-2177 | one pass yields the texts of the verified, absent and bad slots, each in order |
| `OfflineSigning.ClassesPartition` | cli-output/src/cli_output.rs:2150-2162 | the three classes lose and duplicate nothing |
| `OfflineSigning.PairsRoundTrip` | clap-utils/src/input_parsers.rs:109-120 | reading the printed key and signature pairs recovers them in order |
| `OfflineSigning.ReadPairMeans` | clap-utils/src/input_parsers.rs:109-120 | a pair is read as the texts around the separator say, and fails if one of them or the separator is missing |
| `OfflineSigning.ReplyOmitsEmpty` | cli-output/src/cli_output.rs:1615-1626 | exactly the message that is there and the lists that are not empty are in the reply |
| `OfflineSigning.ReportRoundTrip` | cli-output/src/cli_output.rs:2179-2237 | reading the printed report recovers blockhash, message and the three lists, with empty lists left out on the way |
| `OfflineSigning.LookupRightIffOneSignaturePerKey` | clap-utils/src/keypair.rs:511-522 | the lookup is right for all keys and signatures if and only if verified slots of one key carry one signature |
| `OfflineSigning.SignAndRead` | cli-output/src/cli_output.rs:2145-2237 | signing, reporting and reading together: blockhash and message come back; key and signature i are listed as present exactly if they verify, key i as absent if not and the signature is empty, as bad otherwise, each list in order; all signers are there exactly when every slot verifies; every signature found verified; the lookup is right throughout exactly with one signature per key |
| `OfflineSigning.PresignerFinds` | clap-utils/src/keypair.rs:511-522 | the lookup succeeds exactly when the key is listed, with the signature it is first listed with |
| `FeatureStats.FeatureSetStats` | cli/src/feature.rs:492-542 | each entry holds its set's stake and RPC nodes, and entries sum to all listed nodes |
| `FeatureStats.SetOfMeans` | cli/src/feature.rs:529 | a node counts for the set it reports, and for set zero if it reports none |
| `FeatureStats.LastAccountCounts` | cli/src/feature.rs:516-524 | a node has the stake of the last vote account with its key, and no other node has any |
| `FeatureStats.PassesIff` | cli/src/feature.rs:556-594 | a set passes exactly when its nodes hold at least nineteen twentieths of the stake, or are at least nineteen twentieths of the RPC nodes, of a total that is not zero |
| `FeatureStats.AtMostOneSetPasses` | cli/src/feature.rs:585-594 | RPC counts sum to the total and at most one set passes on them; with different ids stake shares never exceed the total, and with sets apart at most one set passes on stake |
| `FeatureStats.OneToolMayActivate` | cli/src/feature.rs:585-648 | tools of two different feature sets are never both allowed to activate; the set that all RPC nodes run is allowed exactly when it passes on stake and there are RPC nodes |
| `FeatureStats.SharesWithinTotalIffDistinctIds` | cli/src/feature.rs:528-542 | the stake shares stay within the total for all vote accounts if and only if no node id is listed twice |
| `FeatureStats.AtMostOneByStakeIffSetsApart` | cli/src/feature.rs:528-594 | at most one set passes on stake for all vote accounts if and only if no id is listed under two sets and ids of different sets are not repeated too often |
| `FeatureStats.StakeByNodeAtMostTotal` | cli/src/feature.rs:511-524 | stake by node never exceeds the total, even when vote accounts share a node key |
| `FeatureStats.OneNodeListedTwice` | cli/src/feature.rs:528-542 | with a node id listed under two sets both can pass |
| `Spend.OneAccountPaysBoth` | cli/src/spend_utils.rs:86-205 | the message is the one built for the spend, offline too; a request fails on a call exactly when an answer is missing; it goes through exactly when the account is not empty and covers the sum, or the wrapped sum; a success covers spend and fee if and only if the sum fits 64 bits; spending all leaves nothing; a rent-exempt request spends nothing exactly when fee and rent minimum take the whole balance, and otherwise leaves the rent minimum |
| `Spend.WrappedSumIsAccepted` | cli/src/spend_utils.rs:118-125 | a sum that wraps to zero is accepted with any positive balance |
| `Spend.TwoAccountsPayTheirPart` | cli/src/spend_utils.rs:86-205 | the same with two accounts: each covers its own part, the error names the part that is not covered, and the fee payer's balance is needed only if the spend is covered |
| `EpochScan.EpochBoundaryTimes` | cli/src/stake.rs:2135-2156 | succeeds exactly when the reward slot and some earlier slot of the epoch have times, and takes the first such slot |

## Left out

- Memory ordering: steps interleave in one order seen by all threads; effects that relaxed ordering allows across different words are not modelled.
- `Bloom::random`, filter sizing and false-positive rates: floating point and randomness.
- The FNV hash and the internals of the bit-vector crate; its packing is modelled by its contract.
- AtomicBloom.Contains: as a method it runs with no other thread; overlapping calls are covered by `ContainsIsBracketed`.
- `format_labeled_address` and sorting the leader entries: display; leaders are taken as already labelled, entries as a map by leader.
- Timestamps and statistics of a ping run: display and floating point. Times are whole milliseconds, and the first blockhash request is taken to have succeeded.
- TokenAmount.Quotient: the quotient is an exact real; rounding to a 64-bit float is not modelled.
- The JSON text of the offline report: the reply is an object of strings and lists; escaping is not modelled.
- FeatureStats.AtMostOneSetPasses: percentages are exact rationals; software versions are left out.
- `stake_by_version` and the stake totals of `process_show_validators`: the same counting in maps, without a new difficulty.
- `fetch_epoch_rewards`, `make_cli_reward`, `signers_for_message`, `index_of_or_none`: one loop or one branch each.
- `get_fee_for_messages` over several messages: only the single message that spend resolution passes is modelled.
- RPC, pubsub, clap declarations, signer loading, transaction signing, account decoders and configuration files: input and output.
