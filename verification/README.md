# A model of a compact-filter Bitcoin wallet node

This project models five parts of a light Bitcoin client and proves what they are for.

- **Coin selection** (`BranchAndBound`, `CappedSearch`, `Shuffle`, `CoinSelection`, `SelectionGuarantees`). The depth-first
  branch and bound is a step machine whose every run is shown to prune soundly, to visit no node twice and to end
  with the smallest solution; for every cap on its iterations the answer is given without its steps, and the loop
  of the wallet is shown to give it. The shuffle, the random draw and the whole selection are built on it, with
  what is spent in every case, conservation of value and the exact condition for success.
- **BIP 158 filter matcher** (`Bits`, `BlockFilter`). A bit stream reader as an object, Golomb-Rice decoding on
  top of it, and the one-pass scans. The encoder follows the "Golomb-Coded Sets" section of BIP 158; the
  fast scan is shown to be set intersection, so a script in a filter is never missed.
- **Log-structured key-value store** (`KvEntry`, `KvMerge`, `KvDeletes`, `KvLog`, `KvDisk`, `KvRuns`, `KvStore`).
  Entries, segments with rollover, the key directory and compaction, as a state machine over what is on disk that
  the store's methods step through, refined by a plain map. Compaction can lose data: lemmas give the inputs, the
  exact conditions under which it does not, and whole runs with merges that act as a plain map.
- **Chain synchronisation and wallet** (`Wallet`, `Ledger`, `Chain`, `Sync`). Header batches, filter requests,
  block scanning and the wallet's outputs, against a peer with a fixed finite chain; refined by the outputs that
  the transactions leave when they are applied one by one.
- **Wire codec** (`Bytes`, `Header`, `Wire`, `Messages`, `Framing`, `Layouts`, `Cuts`,
  `Readers`, `Writers`). Transactions in both forms of
  BIP 144, blocks, headers, inventories, compact filters, and the framing of messages. `Wire`, `Messages` and
  `Framing` say what reading and writing come to; `Layouts` where every byte stands; `Cuts` what becomes of streams that are cut short; `Readers` and
  `Writers` have the loops that move a stream, proved to read back what was written and to write what reads back.

Where the code and its comments disagree, the model follows the code. `BlockHeader::validate` is described as
requiring a timestamp greater than the median of the last eleven, but accepts an equal one. A search whose required
outputs meet the target exactly is reported as having exceeded its tries. The filter requests of a batch of
headers leave out its last block when its length has remainder one modulo 500 and is not one.

`dafny verify dfyconfig.toml` checks the whole project.

## Model

| member | source | states |
|---|---|---|
| BranchAndBound.StepKeepsConsistent | crates/wallet/src/coin_selection.rs:512-568 | every iteration keeps the running value equal to required plus chosen and the available value equal to the undecided rest, so the forward step never indexes past the end; a recorded best is in the window and, when the start is below the target, non-empty and ends in an inclusion |
| BranchAndBound.SubtreeBounds | crates/wallet/src/coin_selection.rs:512-517 | every completion of a partial selection totals between what is chosen and that plus everything undecided |
| BranchAndBound.PruningIsSound | crates/wallet/src/coin_selection.rs:512-532 | no selection under a node that is left holds anything in the window that is better than the recorded best, for each of the three reasons to leave it |
| BranchAndBound.RetreatIsSound | crates/wallet/src/coin_selection.rs:537-557 | walking back to the omission branch of the last inclusion skips exactly the subtree that was justified |
| BranchAndBound.StepIsSound | crates/wallet/src/coin_selection.rs:506-569 | everything behind the walk, in depth-first order, is accounted for by the recorded best after every iteration; when the search stops by itself this holds of all selections |
| BranchAndBound.StepAdvances | crates/wallet/src/coin_selection.rs:506-569 | every iteration moves forward in the depth-first order of the full tree, so no node is visited twice |
| BranchAndBound.SearchIsSound | crates/wallet/src/coin_selection.rs:498-569 | over every run: the best is a selection in the window, and if the run was not cut off no selection in the window is smaller |
| BranchAndBound.SearchTerminates | crates/wallet/src/coin_selection.rs:506-569 | 2^(n+1) - 1 iterations suffice for n groups |
| BranchAndBound.FoundIsASolution | crates/wallet/src/coin_selection.rs:571-590 | whatever the number of tries, a returned selection is non-empty, ends in a chosen group, has the reported total and lies in the window, so the remaining amount is not negative |
| BranchAndBound.FoundIsOptimal | crates/wallet/src/coin_selection.rs:498-569 | a search that exhausts the tree or meets the target exactly returns the smallest total of all solutions |
| BranchAndBound.NoExactMatchMeansNoSolution | crates/wallet/src/coin_selection.rs:542-549 | NoExactMatch is only returned when no subset lands in the window |
| BranchAndBound.ExactStartIsNotExhausted | crates/wallet/src/coin_selection.rs:519-574 | required groups that meet the target exactly make the search report an exceeded number of tries |
| BranchAndBound.EnoughTriesDecide | crates/wallet/src/coin_selection.rs:498-574 | with a try for every node, a search that starts below the target finds a selection exactly when there is one, and the smallest |
| CappedSearch.LastUnder | crates/wallet/src/coin_selection.rs:535-557 | when only omissions follow, nothing of the subtree is left behind a node |
| CappedSearch.TurnsDiffer | crates/wallet/src/coin_selection.rs:506-569 | no two nodes of the walk are met in the same iteration |
| CappedSearch.StepTakesATurn | crates/wallet/src/coin_selection.rs:506-569 | every iteration takes exactly the next turn of the walk and keeps the best of all turns taken, the first of equal ones |
| CappedSearch.SearchTakesTurns | crates/wallet/src/coin_selection.rs:506-569 | over every run: one turn for each try until the loop ends by itself, which is after all turns or on an exact match |
| CappedSearch.SolveIsFirst | crates/wallet/src/coin_selection.rs:506-594 | for every cap: what is found is the smallest total of all selections in the window that the walk meets within the cap, and the first of those; if there is one, one is found, also when the cap is met; NoExactMatch exactly when there is none and the walk fits into the cap |
| CappedSearch.AnswersExactly | crates/wallet/src/coin_selection.rs:506-594 | this answer is unique, so it says the whole of what a search returns |
| CappedSearch.CapSuffices | crates/wallet/src/coin_selection.rs:363-363 | a selection in the window whose place in the full tree is below the cap is found, or one that is no larger |
| CappedSearch.ExactTriesDecide | crates/wallet/src/coin_selection.rs:506-574 | as many tries as the walk has nodes decide: a selection is found exactly when some subset lands in the window, and the smallest |
| CappedSearch.SecondTry | crates/wallet/src/coin_selection.rs:571-594 | a best that is recorded in the last try is returned: one group worth 5 for a window from 4 to 6 needs two tries |
| Shuffle.ShuffleSlice | crates/wallet/src/utils.rs:98-108 | the in-place shuffle is the function of the drawn indices |
| Shuffle.ShuffledIsAPermutation | crates/wallet/src/utils.rs:98-108 | every draw yields a permutation |
| Shuffle.PicksAreDetermined | crates/wallet/src/utils.rs:98-108 | different index sequences give different orders of distinct elements |
| Shuffle.EveryOrderIsDrawn | crates/wallet/src/utils.rs:98-108 | every order is drawn by some index sequence |
| Shuffle.DrawnFirst | crates/wallet/src/utils.rs:102-107 | the first random number, modulo the length, picks the last element of the result; the element that stood last takes its place, and the rest is shuffled with the numbers that follow |
| Shuffle.EveryOrderHasNumbers | crates/wallet/src/utils.rs:98-108 | every order is drawn by some stream of random numbers |
| CoinSelection.DecideChange | crates/wallet/src/coin_selection.rs:223-243 | with a positive dust threshold, change is made exactly when what remains covers the change fee and the threshold, and splits it into change and fee; without change the threshold, the whole rest and the fee are reported |
| CoinSelection.ValueIsConserved | crates/wallet/src/coin_selection.rs:627-645 | what is selected is worth exactly the target, the input fees and the excess |
| CoinSelection.SelectSortedUtxos | crates/wallet/src/coin_selection.rs:245-289 | takes all required outputs and the shortest sufficient prefix of the others; fails exactly when what it took is not enough, with available below needed |
| CoinSelection.DrawInOrder | crates/wallet/src/coin_selection.rs:612-623 | required first, then a minimal sufficient prefix of the given order, or an error if no prefix suffices, with everything offered against the target and its fees |
| CoinSelection.SingleRandomDraw | crates/wallet/src/coin_selection.rs:603-625 | the same over the shuffled optional outputs; succeeds exactly when some prefix of the drawn order reaches the target |
| CoinSelection.WalkBack | crates/wallet/src/coin_selection.rs:537-540 | drops trailing omissions and returns exactly their values to the available sum |
| CoinSelection.Backtrack | crates/wallet/src/coin_selection.rs:535-557 | is the retreat of the step machine |
| CoinSelection.BnbLoop | crates/wallet/src/coin_selection.rs:495-574 | the loop with its stack, two running sums, best and cap answers, for every cap: the smallest selection in the window of all that the walk meets within the cap, and of equal ones the first; NoExactMatch if there is none and the whole walk fits into the cap; an exceeded number of tries otherwise |
| CoinSelection.Bnb | crates/wallet/src/coin_selection.rs:480-595 | searches the groups in descending effective value, and turns a found selection into a result |
| CoinSelection.PickedIsChosen | crates/wallet/src/coin_selection.rs:577-581 | the groups a selection marks total what it chose, none used twice |
| CoinSelection.GroupsAccount | crates/wallet/src/coin_selection.rs:627-645 | chosen groups and all required ones account for their value, fees and excess |
| CoinSelection.FoundAccounts | crates/wallet/src/coin_selection.rs:577-594 | so do the groups that the search marks together with the required outputs, at the total the search reports |
| CoinSelection.Shortfall | crates/wallet/src/coin_selection.rs:416-433 | the error counts everything worth spending against the target and its fees, and available is below needed |
| CoinSelection.ReachingNeedsPositiveValue | crates/wallet/src/coin_selection.rs:410-416 | no prefix of any order is worth more than the outputs of positive effective value |
| CoinSelection.NothingSucceeds | crates/wallet/src/coin_selection.rs:410-416 | the early exit is right: below that total neither the search nor any draw succeeds |
| CoinSelection.SearchGroups | crates/wallet/src/coin_selection.rs:383-389 | the search runs on exactly the groups of positive effective value, and its result accounts for its value |
| CoinSelection.SearchThenDraw | crates/wallet/src/coin_selection.rs:452-472 | what the search finds is spent, with the required outputs; if it finds nothing, the required outputs and the shortest prefix of the shuffled order that reaches the target, and nothing else |
| CoinSelection.CapIsMet | crates/wallet/src/coin_selection.rs:506-594 | no selection in the window that the walk meets within the cap is worth less than what is spent |
| CoinSelection.CoinSelect | crates/wallet/src/coin_selection.rs:366-474 | every Ok path conserves value (selected = target + fees + remaining) with all required outputs in and none used twice. What is spent, case by case: the shortfall of everything worth spending; the required outputs alone above the target; what the search finds; or the shortest sufficient prefix of the drawn order. Success exactly when a prefix of the drawn order reaches the target or the search finds a selection; no selection in the window that the search meets within its tries is smaller than what is spent |
| SelectionGuarantees.NonNegativeDecides | crates/wallet/src/coin_selection.rs:383-472 | if no optional output has negative effective value, selection succeeds exactly when the total effective value reaches the target, for every random stream and any cap |
| SelectionGuarantees.FewOutputsDecide | crates/wallet/src/coin_selection.rs:363-363 | with at most fifteen groups the cap of 100000 is never met: success exactly when the draw reaches the target or some subset lands in the window |
| SelectionGuarantees.Select | crates/wallet/src/coin_selection.rs:363-474 | with the cap of 100000: conserves value; without losing outputs succeeds exactly when everything reaches the target; spends what the search finds or else the shortest sufficient prefix of the drawn order; with at most fifteen outputs worth spending, if any choice among them lands in the window, what is spent does, with the smallest effective value of all choices, and with more, the smallest that the search meets within its tries |
| SelectionGuarantees.SelectionOf | crates/wallet/src/coin_selection.rs:491-495 | any choice among the groups is a selection of the search with the same total |
| SelectionGuarantees.EveryOrderReaches | crates/wallet/src/coin_selection.rs:603-625 | the draw succeeds in every order exactly when the required outputs suffice or all outputs together do |
| SelectionGuarantees.LosingOutputCanFail | crates/wallet/src/coin_selection.rs:603-625 | an output that costs more than it is worth can make a selection fail although the others would pay: a concrete case |
| Bits.FieldIsBits | node/src/util/block_filter.rs:266-268 | the shifts cut out the number that the bits at those places stand for |
| Bits.BitAt | node/src/util/block_filter.rs:262-270 | the k-th bit of a byte, in the order of the stream, is the one of weight 2^(7 - k) |
| Bits.AppendField | node/src/util/block_filter.rs:253-273 | reading a bits and then b is reading a + b |
| Bits.BitStreamReader.constructor | node/src/util/block_filter.rs:238-240 | all bits of the bytes are to come |
| Bits.ToFromBits | node/src/util/block_filter.rs:253-273 | bits are determined by their number and width |
| Bits.FromBitsAppend | node/src/util/block_filter.rs:267-268 | shifting left and adding the next field is joining the bits |
| Bits.BitStreamReader.ReadChunk | node/src/util/block_filter.rs:262-270 | takes up to a byte boundary off the front of the bits, and none exactly at the end of the stream |
| Bits.BitStreamReader.Read | node/src/util/block_filter.rs:253-273 | takes the next n bits, most significant first, across byte boundaries, for n up to 64; refuses more; panics exactly when the stream has fewer left |
| BlockFilter.GolombRoundTrip | node/src/util/block_filter.rs:209-220 | decoding an encoded number followed by anything gives the number and leaves exactly what follows |
| BlockFilter.GolombIsCanonical | node/src/util/block_filter.rs:209-220 | whatever decodes is the encoding of what it decodes to |
| BlockFilter.GolombShape | node/src/util/block_filter.rs:209-220 | a code is as many ones as 2^p goes into the number, a zero, and the remainder in p bits |
| BlockFilter.GolombRiceDecode | node/src/util/block_filter.rs:209-220 | the loop over the reader is that decoding, and panics exactly when the stream ends inside the code |
| BlockFilter.DecodeEncoded | node/src/util/block_filter.rs:125-133 | the differences of a sorted list decode to the list, whatever the padding |
| BlockFilter.MapIsInRange | node/src/util/block_filter.rs:191-193 | a 64-bit hash is mapped below the range |
| BlockFilter.MapReduces | node/src/util/block_filter.rs:191-193 | a hash is mapped to the one x with x * 2^64 <= hash * nm < (x + 1) * 2^64 |
| BlockFilter.MiddleOfRange | node/src/util/block_filter.rs:191-193 | for a filter of one element, 2^63 is mapped to 392465 |
| BlockFilter.HitsMeans | node/src/util/block_filter.rs:109-142 | an element hits a filter exactly when the place of its hash in the range, so defined, is one of the values |
| BlockFilter.ValuesAreBelow | node/src/util/block_filter.rs:125-133 | so is every value of the running sum of the scan |
| BlockFilter.Advance | node/src/util/block_filter.rs:128-140 | the inner loop moves to the first value that is not below the wanted one, and panics exactly when the stream ends before it although more values are announced |
| BlockFilter.ScanAny | node/src/util/block_filter.rs:123-142 | the one-pass merge of two sorted sequences finds a common element exactly when there is one; otherwise it says no if the stream is complete or has gone past all of the query, and panics if not |
| BlockFilter.ScanAll | node/src/util/block_filter.rs:167-186 | finds out whether all queried values are there; if not it says no when the stream is complete or has gone past a missing one, and panics if not |
| BlockFilter.Dedup | node/src/util/block_filter.rs:158-159 | a strictly sorted query with the same elements |
| BlockFilter.MatchAny | node/src/util/block_filter.rs:103-143 | true exactly when the query is empty or some element maps to a value of the filter; on a complete filter false otherwise; on one that is cut short false or a panic, exactly told apart |
| BlockFilter.MatchAll | node/src/util/block_filter.rs:146-187 | true exactly when every element of the query maps to a value of the filter; on a complete filter false otherwise; on one that is cut short false or a panic, exactly told apart |
| BlockFilter.UnreadableHoldsNothing | node/src/util/block_filter.rs:109-121 | content without a readable count is a complete filter that nothing hits |
| BlockFilter.PackedBits | node/src/util/block_filter.rs:230-240 | bits packed into bytes come back, followed by padding |
| BlockFilter.FilterRoundTrip | node/src/util/block_filter.rs:103-143 | the values read from a filter are those it was made from |
| BlockFilter.SmallFilter | node/src/util/block_filter.rs:103-143 | a filter byte by byte: 5 and 9 with p = 2 are 02 98, and read back |
| BlockFilter.ScriptsHit | node/src/util/block_filter.rs:103-193 | of a filter whose values are the places of the hashes of its scripts in the range: exactly the scripts that collide with one of them hit it, and none of its own is missed |
| KvEntry.EncodeRoundTrip | crates/kv/src/entry.rs:69-93 | an encoded entry decodes to the same key, value, tombstone and timestamp, whatever follows |
| KvEntry.EncodeLayout | crates/kv/src/entry.rs:69-93 | where each field stands: timestamp, key size and value size plus one in four little-endian bytes each, then the key, the value and the tombstone byte |
| KvEntry.DecodeEncoded | crates/kv/src/entry.rs:146-172 | at any offset, with the next offset right behind it |
| KvEntry.ReadBack | crates/kv/src/entry.rs:104-172 | the bytes at the offset and length of an entry of a log decode to that entry |
| KvEntry.DecodeMulti | crates/kv/src/entry.rs:110-143 | a whole segment decodes to its entries in order, each at the sum of the earlier lengths |
| KvMerge.MergedState.TakeAll | crates/kv/src/merged_state.rs:35-43 | is the fold that keeps the last put and the last tombstone of a key apart |
| KvMerge.MergedState.MergeWith | crates/kv/src/merged_state.rs:46-59 | is the fold that compares timestamps with what is held |
| KvMerge.MergeOneHolds | crates/kv/src/merged_state.rs:46-70 | one more entry: what is held for a key at its latest time stays, or the entry takes its place if there was none; older entries and tombstones change nothing |
| KvMerge.MergeAllHolds | crates/kv/src/merged_state.rs:35-70 | over all segments, a key that has no tombstone at its latest time ends with the last such entry of the first segment visited, or else the first such entry come across, whatever older tombstones there are |
| KvMerge.LatestPutStays | crates/kv/src/merged_state.rs:35-70 | a key whose latest entry is a put keeps an entry of that time in every order of the visit |
| KvMerge.MergeAllIsLatest | crates/kv/src/merged_state.rs:35-70 | if the latest entry of no key is a tombstone, exactly the keys seen are held, each with an entry of its latest timestamp |
| KvMerge.VisitOrderIsIrrelevant | crates/kv/src/merged_state.rs:35-70 | the order of the visit does not matter when timestamps tell the entries of a key apart |
| KvMerge.MergeAllIsSound | crates/kv/src/merged_state.rs:35-70 | always holds only entries that were seen, under their keys |
| KvMerge.KeptInEveryOrder | crates/kv/src/kvstore.rs:150-173 | ties and older tombstones included: writing back changes no value in any order of the visit if and only if every entry that can win carries the current value of its key |
| KvMerge.KeptExactlyWhenCurrent | crates/kv/src/kvstore.rs:150-173 | when timestamps tell entries apart, writing back any one visit changes no value if and only if latest entries carry the current values |
| KvMerge.TiesKeepTheOlder | crates/kv/src/merged_state.rs:62-63 | two writes in the same second: the older one survives |
| KvMerge.DeletedComesBack | crates/kv/src/merged_state.rs:35-43 | a put followed by its tombstone in the first segment comes back to life |
| KvMerge.TombstoneBecomesAValue | crates/kv/src/merged_state.rs:56-58 | a tombstone of a key that no earlier segment holds becomes a value: the key comes back, empty |
| KvDeletes.VisitIsBySlot | crates/kv/src/merged_state.rs:35-70 | what a merge holds for a key follows from the entries of that key alone |
| KvDeletes.KeptExactlyBySlot | crates/kv/src/kvstore.rs:150-173 | whatever the entries, tombstones and ties included: writing back what a visit keeps changes no value if and only if every key whose own entries, taken in turn, leave a value has that value already |
| KvDeletes.TombstonesAlternate | crates/kv/src/merged_state.rs:46-70 | tombstones alone, come across one after the other, put a key in and take it out in turn |
| KvDeletes.DeletedOnceExactly | crates/kv/src/merged_state.rs:35-70 | a key that was deleted once, after all its puts, stays deleted in every order of a merge of two or more segments if and only if there are two segments, with the deletion alone in one and a single put in the other |
| KvLog.HeldIsRead | crates/kv/src/segments.rs:62-71 | a place where an entry of a log stands reads that entry |
| KvLog.ExtensionKeepsHeld | crates/kv/src/segments.rs:49-60 | appending never disturbs what stands at a place |
| KvLog.PutContents | crates/kv/src/kvstore.rs:47-58 | an append and a directory update are an update of the plain map |
| KvLog.DeleteContents | crates/kv/src/kvstore.rs:66-71 | a tombstone and a directory removal are a removal from it |
| KvLog.MergedContents | crates/kv/src/kvstore.rs:88-94 | write back, redirection and removal set exactly the changed values, and lose exactly the keys that are left pointing into a removed file |
| KvDisk.AppendPuts | crates/kv/src/segments.rs:49-54 | a put with or without a rollover updates the plain map |
| KvDisk.MergeOverlays | crates/kv/src/kvstore.rs:150-173 | a merge, whatever is on disk, overlays the map with the merged values and loses exactly the keys left pointing into a removed file |
| KvDisk.TrackedAppend | crates/kv/src/kvstore.rs:47-71 | a write later than all of its key keeps every directory pointer on the latest entry of its key over all segments, and every key outside the directory without entries or with a tombstone as its latest |
| KvDisk.PointedIsMerged | crates/kv/src/kvstore.rs:150-173 | in a store so tracked, what a merge keeps of a key that points into the merged files is the very entry it points to, tombstones or not |
| KvDisk.TrackedOverlays | crates/kv/src/kvstore.rs:150-173 | a merge of a tracked store leaves no dangling pointer |
| KvDisk.SelfContainedIsSettled | crates/kv/src/kvstore.rs:150-173 | in a tracked store, files whose keys are all in the directory and point into them are settled: the latest entry of every key in them is a put, and no newer one stands elsewhere |
| KvDisk.SettledKeeps | crates/kv/src/kvstore.rs:150-173 | merging settled files changes no value |
| KvDisk.TrackedMerge | crates/kv/src/kvstore.rs:88-94 | merging settled files keeps the store tracked, through write back, redirection and removal |
| KvDisk.TrackedExactly | crates/kv/src/kvstore.rs:150-173 | if the latest entry of no merged key is a tombstone, a merge keeps the store tracked if and only if no merged key has a newer entry outside the merged files, and then changes no value |
| KvDisk.MergedWins | crates/kv/src/key_directory.rs:41-48 | a merged key whose latest merged entry is a put answers with that entry after the merge, whatever stands elsewhere |
| KvDisk.OlderComesBack | crates/kv/src/key_directory.rs:41-48 | without any tombstone or tie: a key that was written again to the active segment gets its older value back when the inactive segments are merged, a concrete tracked store |
| KvRuns.TrackedMergeIsExact | crates/kv/src/kvstore.rs:150-173 | a merge of a tracked store in which no latest merged entry is a tombstone changes no value if and only if latest merged entries carry the current values |
| KvRuns.TrackedStep | crates/kv/src/kvstore.rs:47-83 | each operation on a tracked store does as a plain map and keeps it tracked, if a write is later than all of its key and a merge reads settled segments |
| KvRuns.SettledRuns | crates/kv/src/kvstore.rs:47-173 | over every run of a tracked store, with rollovers and merges of any number of segments: if every write of a key comes later than the one before and merges read settled segments, all answers are those of a plain map |
| KvRuns.RisingExactly | crates/kv/src/entry.rs:78-82 | while the clock is past its first second and within 32 bits, the stored timestamps rise exactly when the clock does over the writes of each key |
| KvRuns.ClockedRuns | crates/kv/src/kvstore.rs:29-173 | the same of a new store, with the condition on the readings of the clock |
| KvRuns.ClockedWriteOnceRuns | crates/kv/src/kvstore.rs:29-173 | runs of a new store that write every key once and delete none act as a plain map, whatever the clock says within its range |
| KvRuns.RewriteSurvives | crates/kv/src/merged_state.rs:46-70 | a run in which a key is written twice, both entries are merged, and the store answers with the second value |
| KvRuns.WriteOnceRuns | crates/kv/src/kvstore.rs:47-173 | runs that write every key once and delete none act as a plain map through all merges, however many segments these replace, as can be told from the operations beforehand |
| KvRuns.RealMerge | crates/kv/src/kvstore.rs:150-173 | such merges happen: with segments of one entry and a merge after every third write, the fourth put merges two segments |
| KvRuns.QuietRuns | crates/kv/src/kvstore.rs:47-83 | runs in which merges find fewer than two inactive segments, which is a condition on the sizes of the operations, act as a plain map whatever the clock says |
| KvRuns.NewIsTracked | crates/kv/src/kvstore.rs:29-40 | a new store is tracked and stands for the empty map |
| KvStore.Segments.MaybeRolloverActive | crates/kv/src/segments.rs:170-187 | a full active segment becomes inactive and a fresh one takes its place; nothing stored changes |
| KvStore.Segments.Append | crates/kv/src/segments.rs:49-60 | the entry, with the low 32 bits of the clock reading as its timestamp, goes to the end of the active segment, or to a new one if that is full |
| KvLog.Preserving | crates/kv/src/entry.rs:39-82 | what a merge writes back keeps its timestamp, or gets the low 32 bits of the clock reading if it has none |
| KvStore.Segments.Write | crates/kv/src/segment.rs:36-45 | the entry is added to the end of the log and its place is returned |
| KvStore.Segments.Read | crates/kv/src/segments.rs:62-71 | gives back the entry that stands at a place, from the active or an inactive segment, and an error when the file is gone |
| KvStore.Segments.ReadInactive | crates/kv/src/segments.rs:75-101 | so many different inactive segments, each as its whole log |
| KvStore.Segments.AppendTo | crates/kv/src/segment.rs:36-45 | the same write on an inactive segment |
| KvStore.Segments.WriteBackOne | crates/kv/src/segments.rs:113-129 | one merged entry with the timestamp it had, and a new segment once that one is full |
| KvStore.Segments.WriteBack | crates/kv/src/segments.rs:105-131 | every change is stored, with its timestamp, in a new file, where its response says; new files hold nothing else and old files are untouched |
| KvStore.Segments.Remove | crates/kv/src/segments.rs:146-152 | exactly the named files go |
| KvStore.KeyDirectory.BulkUpdate | crates/kv/src/key_directory.rs:41-48 | exactly the changed keys are redirected |
| KvStore.Store.Get | crates/kv/src/kvstore.rs:76-83 | answers as the plain map |
| KvStore.Store.Delete | crates/kv/src/kvstore.rs:66-71 | takes the step of a deletion and removes the key from the plain map |
| KvStore.Store.Fold | crates/kv/src/kvstore.rs:158-165 | takes the first segment and merges the others into it |
| KvStore.Store.WriteBack | crates/kv/src/kvstore.rs:88-94 | the plain map with the changes, less the keys left pointing into a removed file |
| KvStore.Store.BeginMerge | crates/kv/src/kvstore.rs:150-173 | takes the step of a merge: nothing below two inactive segments; otherwise the plain map overlaid with the merged values, less the keys left pointing into a removed file |
| KvStore.Store.Put | crates/kv/src/kvstore.rs:47-58 | takes the step of a put; updates the plain map if its merge finds fewer than two segments, or if the store is tracked, the write is later than all of its key and the merge reads settled segments, and then keeps it tracked |
| KvStore.Run | crates/kv/src/kvstore.rs:47-83 | the states the store goes through are a run, and its answers are those of that run |
| Wallet.TotalMoves | crates/wallet/src/watch_wallet.rs:91-107 | taking keys out and putting others in moves the total by exactly what went and came |
| Wallet.WatchOnly.InsertUtxos | crates/wallet/src/watch_wallet.rs:69-89 | folds the entries into the map; fails exactly at an unknown output that pays to an unknown script, keeping those before it |
| Wallet.InsertedIs | crates/wallet/src/watch_wallet.rs:73-85 | what becomes of one output: amount and script are those that are stored, or else of its first entry; its last entry says whether it is spent; without an entry nothing changes |
| Wallet.WatchOnly.ListUtxos | crates/wallet/src/watch_wallet.rs:155-155 | every stored output once |
| Wallet.WatchOnly.Balance | crates/wallet/src/watch_wallet.rs:91-107 | the sum of the unspent outputs |
| Wallet.SelectedAreDistinct | crates/wallet/src/watch_wallet.rs:155-163 | what is selected from stored outputs has different outpoints |
| Wallet.SelectedPays | crates/wallet/src/watch_wallet.rs:153-182 | a selection that accounts for its value makes a transaction that pays |
| Wallet.FeeIsAccounted | crates/wallet/src/watch_wallet.rs:153-182 | inputs less outputs is exactly the accounted fee |
| Wallet.WatchOnly.CreateTransaction | crates/wallet/src/watch_wallet.rs:153-182 | distinct stored inputs, the payment, and change exactly when the spare amount covers its fee and the dust threshold; succeeds exactly when coin selection does; the inputs are the outputs that the search finds, or the shortest sufficient prefix of the drawn order |
| Ledger.ScanOutputs | node/src/chain.rs:102-106 | the outputs that pay to the wallet |
| Ledger.ScanInputs | node/src/chain.rs:108-121 | the snapshot's outputs that are spent, coinbase inputs skipped |
| Ledger.ScanTransactions | node/src/chain.rs:99-123 | both, transaction by transaction |
| Ledger.NullHash | node/src/chain.rs:108-111 | the hash of a coinbase input is 32 zero bytes |
| Ledger.GainsAre | node/src/chain.rs:102-106 | a transaction gives the wallet exactly its outputs with a script of the wallet, at their amounts |
| Ledger.FateOf | node/src/chain.rs:99-123 | what transactions applied one by one leave: the outputs that were there and untouched, and those paid and not spent since, at the amounts paid |
| Ledger.InsertCreated | crates/wallet/src/watch_wallet.rs:80-85 | new entries add exactly what the transaction pays to the wallet |
| Ledger.InsertSpent | crates/wallet/src/watch_wallet.rs:73-78 | spent entries take exactly their outputs away |
| Ledger.ScanEffect | node/src/chain.rs:98-125 | a scanned range takes away what it spends of the snapshot and adds everything it pays to the wallet |
| Ledger.ApplyAtOnce | node/src/chain.rs:98-125 | if nothing is spent in the range that creates it, transactions one by one do the same |
| Ledger.RangeIsExact | node/src/chain.rs:98-125 | the scan of a range agrees with its transactions one by one if and only if no wallet output is both created and spent in it |
| Ledger.AtOnceIsExact | node/src/chain.rs:98-125 | taking away what transactions spend and adding what they pay is applying them one by one if and only if none spends what one of them pays to the wallet |
| Ledger.StaysStuck | node/src/chain.rs:98-125 | an output that was created and spent in one range stays counted: nothing spends it again |
| Ledger.StuckIsWrong | node/src/chain.rs:98-125 | and is not among what the transactions leave |
| Ledger.BalanceMoves | crates/wallet/src/watch_wallet.rs:91-107 | the balance after a range is the previous one plus received minus spent |
| Chain.UnmatchedIsIdle | node/src/chain.rs:77-89 | a block whose filter does not match does nothing to the wallet |
| Chain.MadeFilterIsGood | node/src/chain.rs:77-85 | a basic filter with exactly its BIP 158 items, parameters 19 and 784931, and the places of their hashes in the range as its values answers for every script of a wallet without data carriers |
| Chain.MatchingSuffices | node/src/chain.rs:77-96 | fetching only the blocks that match misses nothing |
| Chain.MatchingPaysAll | node/src/chain.rs:77-96 | the blocks that match pay and spend, for the wallet, exactly what all of them do |
| Chain.RangeApplies | node/src/chain.rs:74-126 | scanning the matching blocks against one snapshot takes away what the range spends of it and adds all the range pays to the wallet; that is applying all its transactions if and only if none of them spends what one of them pays |
| Chain.MatchBlocks | node/src/chain.rs:77-85 | exactly the blocks whose filters match |
| Chain.Snapshot | crates/wallet/src/watch_wallet.rs:55-58 | every stored output, each with a script of the wallet |
| Chain.FetchAndSaveUtxos | node/src/chain.rs:74-128 | the unspent outputs lose what the range spends of them and gain what it pays; they are those of its transactions applied one by one if and only if no wallet output is both created and spent in the range |
| Sync.BlockNumbersAre | node/src/chain.rs:149-157 | the start heights are 500 apart, at least one |
| Sync.RequestsCover | node/src/chain.rs:149-167 | requests are non-empty, contiguous, at most 500 blocks, and cover a batch of n exactly when n is 1 or n mod 500 is not 1; otherwise all but the last block |
| Sync.RequestIs | node/src/chain.rs:162-172 | the i-th request asks for the i-th stretch of 500 blocks or what is left of it |
| Sync.ReadyMoves | node/src/chain.rs:162-179 | taking in a range leaves the wallet ready for the rest of the chain |
| Sync.ScannedMoves | node/src/chain.rs:162-179 | the scan of a range continues the scan of what is before it |
| Sync.ScanIsExact | node/src/chain.rs:98-179 | scanning a stretch range by range leaves what its transactions leave if no range creates and spends an output of the wallet; and only then, if outputs are spent after they are created, and once |
| Sync.BatchEnds | node/src/chain.rs:181-186 | full batches are scanned to their end; where the last one ends |
| Sync.CompactChain.ProcessRequest | node/src/chain.rs:162-179 | one request brings the wallet to the end of its range |
| Sync.CompactChain.ProcessStretch | node/src/chain.rs:162-179 | the i-th request of a batch, up to the header that ends its 500 blocks or the last one |
| Sync.CompactChain.ProcessBatch | node/src/chain.rs:145-179 | a batch brings the wallet to the end of its requests |
| Sync.CompactChain.SyncBatch | node/src/chain.rs:139-186 | one batch: fetched, processed and recorded, or the end |
| Sync.CompactChain.SyncState | node/src/chain.rs:130-191 | terminates at the tip with the stored hash that of the stored height; the unspent outputs are exactly what the scan of all new blocks, range by range, makes of those before; they are what all scanned transactions leave if and only if no range of 500 blocks creates and spends an output of the wallet, where outputs are spent after they are created and once |
| Header.HighestByteDecides | node/src/util/hash256.rs:62-73 | the highest differing byte decides between little-endian numbers |
| Header.Compare | node/src/util/hash256.rs:62-73 | the order on hashes is that of the little-endian 256-bit numbers |
| Header.PlacedBytes | node/src/messages/block_header.rs:68-79 | three bytes among zeros are the mantissa scaled by their place |
| Header.DifficultyTarget | node/src/messages/block_header.rs:68-79 | there is a target exactly for exponents 3 to 32, and it is mantissa * 256^(exponent - 3) |
| Header.RankInSorted | node/src/messages/block_header.rs:48-56 | comparing with the middle of a sorted list is counting |
| Header.TimestampCounts | node/src/messages/block_header.rs:48-56 | that is counting positions among the last eleven headers |
| Header.Validate | node/src/messages/block_header.rs:46-65 | valid exactly when more than half of the last eleven timestamps, or of as many as there are, are not later and the hash is at most mantissa * 256^(exponent - 3); which error otherwise |
| Bytes.FromToLE | node/src/util/var_int.rs:21-35 | little-endian numbers that fit their width read back |
| Bytes.ToFromLE | node/src/util/var_int.rs:38-46 | bytes are determined by their number and width |
| Bytes.VarIntRoundTrip | node/src/util/var_int.rs:8-46 | every 64-bit number reads back, whatever follows, and takes the size it is said to |
| Wire.HashRoundTrip | node/src/util/hash256.rs:38-51 | hashes read back |
| Wire.BlobRoundTrip | node/src/messages/witness.rs:31-50 | length-prefixed bytes read back |
| Wire.ManyRoundTrip | node/src/messages/block.rs:128-147 | lists of things that read back read back |
| Wire.OutPointRoundTrip | node/src/messages/out_point.rs:30-42 | outpoints read back |
| Wire.TxInRoundTrip | node/src/messages/tx_in.rs:19-55 | inputs read back and have their size |
| Wire.TxOutRoundTrip | node/src/messages/tx_out.rs:16-45 | outputs, with signed amounts, read back and have their size |
| Wire.WitnessRoundTrip | node/src/messages/witness.rs:19-83 | witnesses read back and have their size |
| Wire.ReadTxForm | node/src/messages/tx.rs:158-216 | whatever the bytes, the reader only returns transactions of the two forms |
| Wire.TxRoundTrip | node/src/messages/tx.rs:157-254 | a transaction reads back, whatever follows, if and only if it is legacy with an input and no flag, or segwit with flag 1 and a witness per input |
| Wire.TxSizeIsRight | node/src/messages/tx.rs:256-278 | the size is the number of bytes written |
| Messages.HeaderRoundTrip | node/src/messages/block_header.rs:82-109 | block headers read back from 80 bytes |
| Messages.BlockRoundTrip | node/src/messages/block.rs:128-158 | blocks read back and have their size |
| Messages.HeadersRoundTrip | node/src/messages/headers.rs:16-41 | lists of headers read back and have their size |
| Messages.InvRoundTrip | node/src/messages/inv.rs:18-45 | inventories read back exactly up to 50000 entries, are refused beyond, and have their size |
| Messages.FilterRoundTrip | node/src/messages/compact_filter.rs:19-50 | compact filters read back and have their size |
| Messages.FilterHeadersRoundTrip | node/src/messages/compact_filter_header.rs:21-55 | filter headers read back and have their size |
| Framing.CommandRoundTrip | node/src/messages/message.rs:184-332 | every command that the reader tells apart is recognised |
| Framing.MessageHeaderRoundTrip | node/src/messages/message_header.rs:63-89 | message headers read back from 24 bytes |
| Framing.SizesAgree | node/src/messages/message.rs:432-454 | the size a payload announces is the number of bytes it writes |
| Framing.PayloadParses | node/src/messages/message.rs:184-332 | a payload parses to the message it was made from, whatever else it holds behind |
| Framing.MessageRoundTrip | node/src/messages/message.rs:162-178 | a framed message reads back, whatever follows |
| Framing.StreamRoundTrip | node/src/messages/message.rs:162-454 | any concatenation of framed messages decodes to the same messages in order |
| Layouts.VarIntLayout | node/src/util/var_int.rs:21-35 | one byte up to 252, or a tag fd, fe, ff and two, four or eight bytes with the lowest first |
| Layouts.VarIntForms | node/src/util/var_int.rs:38-46 | any number is accepted behind any tag, also one that a shorter form holds |
| Layouts.ListLayout | node/src/messages/block.rs:139-146 | the number of elements, then each element right behind the one before it |
| Layouts.TxInLayout | node/src/messages/tx_in.rs:46-55 | the spent output in 36 bytes, the script with its length, the sequence number |
| Layouts.OutPointLayout | node/src/messages/out_point.rs:37-42 | hash, output number |
| Layouts.TxOutLayout | node/src/messages/tx_out.rs:37-45 | the amount in two's complement, the script with its length |
| Layouts.WitnessLayout | node/src/messages/witness.rs:76-82 | the number of byte strings, then each with its length |
| Layouts.TxLayout | node/src/messages/tx.rs:218-253 | version, marker and flag if there are witnesses, inputs, outputs, witnesses, lock time |
| Layouts.OtherFlagPanics | node/src/messages/tx.rs:158-216 | no inputs and a flag other than 1 is a panic |
| Layouts.HeaderLayout | node/src/messages/block_header.rs:99-109 | the offsets of the six fields in the 80 bytes |
| Layouts.BlockLayout | node/src/messages/block.rs:139-146 | the header, then the transactions |
| Layouts.EntryLayout | node/src/messages/headers.rs:27-34 | a zero byte follows each header |
| Layouts.EntryCountIsIgnored | node/src/messages/headers.rs:17-25 | what stands there is not looked at |
| Layouts.InvVectLayout | node/src/messages/inv_vect.rs:47-50 | type, hash |
| Layouts.InvLayout | node/src/messages/inv.rs:32-38 | the number of entries, then 36 bytes for each |
| Layouts.HeadersLayout | node/src/messages/headers.rs:27-34 | the number of headers, then 81 bytes for each |
| Layouts.FilterLayout | node/src/messages/compact_filter.rs:42-50 | filter type, block hash, the filter with its length |
| Layouts.FilterHeadersLayout | node/src/messages/compact_filter_header.rs:46-55 | filter type, stop hash, previous header, the hashes with their number |
| Layouts.PayloadLayout | node/src/messages/message.rs:335-454 | what each message carries, and for a ping and its answer the nonce in eight little-endian bytes |
| Layouts.FrameLayout | node/src/messages/message.rs:335-454 | magic bytes, the name in letters filled up with zeros, the size of the payload, the first four bytes of its digest, and the payload; 5d f6 e0 e2 instead of the digest when there is none |
| Layouts.FramedReads | node/src/messages/message.rs:162-178 | whoever wrote them, bytes that are laid out so are read as the message |
| Layouts.HeaderOfParts | node/src/messages/message_header.rs:63-80 | what the reader makes of the 24 bytes of a header |
| Layouts.VersionHeader | node/src/messages/message_header.rs:113-121 | the header of a version message of the main network is read as such |
| Layouts.UnexpectedPayloads | node/src/messages/message.rs:184-332 | a command without payload is refused with one; an unknown one is passed over with its payload if the digest is right |
| Layouts.TrailingIsDropped | node/src/messages/message.rs:184-332 | what a payload holds behind its message is passed over with it |
| Cuts.CutFails | node/src/messages/block.rs:128-137 | what a reader that looks no further than it returns reads back, it does not find in any part of it |
| Cuts.TxInCut | node/src/messages/tx_in.rs:30-44 | an input that is cut short anywhere fails |
| Cuts.TxOutCut | node/src/messages/tx_out.rs:23-35 | an output that is cut short anywhere fails |
| Cuts.WitnessCut | node/src/messages/witness.rs:64-74 | a witness that is cut short anywhere fails |
| Cuts.TxCut | node/src/messages/tx.rs:158-216 | a transaction that is cut short anywhere fails |
| Cuts.BlockCut | node/src/messages/block.rs:129-137 | a block that is cut short anywhere fails |
| Cuts.FilterCut | node/src/messages/compact_filter.rs:26-40 | a compact filter that is cut short anywhere fails |
| Cuts.InvCut | node/src/messages/inv.rs:19-30 | an inventory that is cut short fails, unless only part of its last hash is missing, which is then filled with zeros |
| Cuts.HeadersCut | node/src/messages/headers.rs:17-25 | headers that are cut short fail, unless only the last count is missing |
| Cuts.FilterHeadersCut | node/src/messages/compact_filter_header.rs:28-44 | filter headers that are cut short fail, unless only part of the list of hashes is missing, which is then filled with zeros |
| Cuts.MessageCut | node/src/messages/message.rs:162-178 | a framed message that is cut short anywhere fails, whatever its payload |
| Readers.OneMore | node/src/messages/block.rs:129-137 | reading a list is reading its elements from the front, with the first error |
| Readers.Reader.TakeVarInt | node/src/util/var_int.rs:38-46 | reads back every number that was written, leaving what follows, and fails on a part of one |
| Readers.Reader.TakeBlob | node/src/messages/tx_in.rs:31-38 | the byte loop takes exactly the announced bytes, or fails when they are not there |
| Readers.Reader.TakeTxIn | node/src/messages/tx_in.rs:30-44 | reads back every input, leaving what follows, and fails on a part of one |
| Readers.Reader.TakeTxOut | node/src/messages/tx_out.rs:23-35 | reads back every output, leaving what follows, and fails on a part of one |
| Readers.Reader.TakeWitness | node/src/messages/witness.rs:64-74 | the loop reads back every witness, leaving what follows, and fails on a part of one |
| Readers.Reader.TakeTx | node/src/messages/tx.rs:158-216 | the loops read back every transaction of both forms, leaving what follows, and fail on a part of one |
| Readers.Reader.TakeBlock | node/src/messages/block.rs:129-137 | the loop reads back every block, leaving what follows, and fails on a part of one |
| Readers.Reader.TakeHeaders | node/src/messages/headers.rs:17-25 | the loop reads back all headers, leaving what follows |
| Readers.Reader.TakeInv | node/src/messages/inv.rs:19-30 | the loop reads back every inventory within the cap, leaving what follows |
| Readers.Reader.TakeFilter | node/src/messages/compact_filter.rs:26-40 | reads back every filter, leaving what follows, and fails on a part of one |
| Readers.Reader.TakeFilterHeaders | node/src/messages/compact_filter_header.rs:28-44 | reads back all filter headers, leaving what follows |
| Readers.Reader.TakePayload | node/src/messages/message_header.rs:48-60 | succeeds exactly when the announced bytes are there and their digest begins with the four bytes of the checksum, and splits them off |
| Readers.Reader.TakeMessage | node/src/messages/message.rs:162-178 | reads back every framed message, leaving what follows, and fails on a part of one |
| Writers.Writer.PutVarInt | node/src/util/var_int.rs:21-35 | what it appends reads back, whatever follows |
| Writers.Writer.PutWitness | node/src/messages/witness.rs:76-82 | what its loops append reads back, whatever follows |
| Writers.Writer.PutTx | node/src/messages/tx.rs:218-253 | what it appends, in either form, reads back, whatever follows |
| Writers.Writer.PutBlock | node/src/messages/block.rs:139-146 | what it appends reads back, whatever follows |
| Writers.Writer.PutHeaders | node/src/messages/headers.rs:27-34 | what its loop appends reads back, whatever follows |
| Writers.Writer.PutInv | node/src/messages/inv.rs:32-38 | what its loop appends reads back, whatever follows, within the cap |
| Writers.Writer.PutFilter | node/src/messages/compact_filter.rs:42-50 | what it appends reads back, whatever follows |
| Writers.Writer.PutFilterHeaders | node/src/messages/compact_filter_header.rs:46-55 | what it appends reads back, whatever follows |
| Writers.Writer.PutMessage | node/src/messages/message.rs:335-454 | every well-formed message is accepted, and what is appended reads back as that message, whatever follows; it is laid out as a frame, with the first four bytes of the digest of the payload at 20 to 23; other messages are refused and write nothing |
| Writers.WitnessSizeOf | node/src/messages/witness.rs:52-61 | the running size is the number of bytes written |
| Writers.TxSizeOf | node/src/messages/tx.rs:256-278 | the running size is the number of bytes written |
| Writers.BlockSizeOf | node/src/messages/block.rs:149-158 | the running size is the number of bytes written |
| Writers.PayloadSizeOf | node/src/messages/message.rs:446-451 | the size the header carries is the number of bytes of the payload |

## Left out

- Overflow: amounts, fees, the running sums of the search, `n * M`, offsets and file sizes are unbounded integers. The only widths modelled are those of the wire and entry formats, the 32-bit clock reading of an entry, the payload size of a message header and the 64 bits a filter hash is reduced from.
- Library values are given: the fee of an input by its weight, the fee of a change output, the dust threshold and the cost of change; SipHash, SHA-256, transaction and block hashes, random numbers, clocks and key derivation. PSBT signing and bincode are not modelled.
- The transaction id is taken as given; the repository computes it over all written bytes, so that for a segwit transaction it covers the witnesses.
- Sorting leaves the order of elements with equal keys open, as the source's unstable sorts do.
- BitStreamReader joins the bits of a field with addition, where the source uses a bitwise or on bits that do not overlap.
- The key-value store has no file errors, and file ids are fresh and rising. Its read-write lock is not modelled. A key is modelled by its serialised bytes.
- KvStore.Store.Put: a key or value whose size does not fit the 32-bit fields of an entry is not modelled; the source cuts the size off.
- KvStore.Store.Delete: the same for the size of a key.
- Reloading a store from disk is not modelled: segments are visited in hash order and tombstones are indexed, so the map is not restored in general.
- KvMerge.KeptInEveryOrder: the condition on entries that can win is stated where no latest entry is a tombstone. With tombstones KvDeletes.KeptExactlyBySlot gives the condition for one order of the visit, key by key, and KvDeletes.DeletedOnceExactly the one for all orders when a key was deleted once; for more deletions it depends on how they alternate.
- KvMerge.KeptExactlyWhenCurrent: the same.
- KvRuns.TrackedMergeIsExact: the same.
- KvRuns.SettledRuns: runs with a merge that reads a key which has since been written or deleted elsewhere are not claimed to act as a plain map. OlderComesBack shows a key that was written again, DeletedComesBack, TombstoneBecomesAValue and TiesKeepTheOlder the other ways in which they fail.
- The peer answers every request with complete filters that are good for the wallet and does not fail; keep-alive, sockets, timeouts and partial messages are not modelled, and neither is the comparison of filters with their headers.
- Sync.CompactChain.SyncState: the last block of a run is not scanned when the number of new blocks has remainder one modulo 500 but not modulo 2000, as in the source.
- Coin selection is offered spent outputs too, and change scripts are recorded as receiving scripts at the receive depth; the model does the same and claims neither that inputs are unspent nor that change can be derived again.
- CreateTransaction: the number of tries is the wallet's 100000, and a dust threshold is at least one.
- Version, Reject, address and locator messages are not modelled; a message with such a command is read as another message. What the reader makes of a command that is not text is not modelled.
- Bytes are read from memory: a reader that returns fewer bytes than it has is not modelled, except at the end of the stream.
- Validation of message headers, Merkle roots, coinbase checks, duplicate filtering, sequence locks, and script and address code are not modelled.
