# Tracemate models and proofs

Dafny models of the parts of Tracemate whose guarantees span several functions or whole runs, with
proofs. `dafny verify dfyconfig.toml` checks everything.

| files | what they model |
|---|---|
| `PathTrie`, `UrlTokens`, `UrlSquasher` | the URL path squasher: a mutable tree of segments that merges the children of a node that gets too many of them, and the patterns drawn from it |
| `MetricTable`, `Aggregation`, `AggregationRuns`, `Averages`, `Retirement`, `Calls`, `ExampleRuns` | two-stage metric aggregation: one team's table of metrics, the flush pass over it, runs of many instances that send to owners, and what owners publish and delete |
| `Decimals` | powers of ten, and numbers printed with six significant digits |
| `TraceGenerations`, `TransactionStore`, `ChildScan` | the trace store: two generations that rotate, the filters in front of them, and the scan for children |
| `Bloom`, `Stripes`, `Xxh64`, `Xxh32`, `Xxh64Mixing`, `Xxh32Mixing` | the Bloom filter with its blocked bulk insertion, xxHash as a stream and in one shot, and what its mixing keeps apart |
| `HistogramBuckets`, `Histogram`, `Quantile` | the log-linear histogram of the web interface |
| `JsonEscape`, `TemplateScanner` | escaping of JSON strings, and replacement of `{{ name }}` in texts |
| `Words`, `Wrappers` | word sizes and optional values, shared by the others |

What changes state in the source changes state here: tree nodes, hash state, bit arrays, tables,
stores, bins and buffers are objects updated in place. Each such method is proved against a
function on values, and what the system promises is proved about that function, over every input
or over every run. Clocks, random numbers, hash iteration orders and the outcome of writes and
publications are parameters of the steps, so the results hold for all of them.

Where the code does not do what one might expect, the model keeps to the code and a member shows
the case, beside one that says exactly when it arises: `PathTrie.MergeExceedsLimit` and
`MergedNodeWithinLimit`, `ExampleRuns.LargeGaugeIsNotItsMean` and `MillionIsTheBound`,
`Averages.QuiescentAverage` and `WholeAverageIsTrueMean`,
`ExampleRuns.NumericsDependOnBatching` and `Averages.PlainNumberIsMeanExactly`,
`ExampleRuns.LateUpdateIsDeleted` and `Retirement.SettledExactlyIfPunctual`,
`TraceGenerations.TenMinutesIsTight` and `FoundExactly`, `OlderDocumentIsFound` and
`FoundIsLatestPut`, `TransactionStore.ChildKeyIsHidden` and
`FiltersAgreeExactly`, `TemplateScanner.BrokenReferenceSpoilsNext` and
`ReferencesStandApartExactly`, and `Histogram.ChangeAfterMerge`, which has both.

## Model

| member | source | states |
|---|---|---|
| `PathTrie.SquashUnion` | src/tm_url_squasher.c:172-201 | squashing an unsquashed node with children leaves it one child `{...}`, below which are exactly the name paths that were below any old child |
| `PathTrie.SquashLanguage` | src/tm_url_squasher.c:172-201 | a squashed node accepts exactly the empty list, or any one segment followed by what some old child accepted |
| `PathTrie.SquashElsewhere` | src/tm_url_squasher.c:172-201 | outside the subtree of the squashed node nothing is accepted or rejected differently |
| `PathTrie.SquashKeepsStructure` | src/tm_url_squasher.c:154-201 | squashing keeps every structural rule: parents exist, depth at most five, exactly the child `{...}` below a squashed node, unsquashed root |
| `PathTrie.SquashKeepsWilds` | src/tm_url_squasher.c:154-201 | squashing keeps every `{...}` strictly below a squashed node of its own path, also when it merges nodes that were squashed themselves |
| `PathTrie.SquashKeepsCoverage` | src/tm_url_squasher.c:154-201 | whatever some path of the tree matched is still matched after a squash |
| `PathTrie.StepKeepsStructure` | src/tm_url_squasher.c:231-248 | one turn of the insertion loop keeps the structure and walks to a child named by the segment or `{...}` |
| `PathTrie.StepKeepsCoverage` | src/tm_url_squasher.c:231-248 | one turn of the insertion loop loses no coverage |
| `PathTrie.WalkInvariant` | src/tm_url_squasher.c:231-248 | the whole walk keeps structure and coverage and ends at a path that matches the first five segments |
| `PathTrie.InsertCovers` | src/tm_url_squasher.c:209-251 | after an insertion the first five segments of the URL are covered, and everything that was covered still is |
| `PathTrie.RunIsWellFormed` | src/tm_url_squasher.c:115-251 | every reachable tree has the structure; without literal `{...}` input all of its wildcards are below squashed nodes |
| `PathTrie.RunCoversEveryUrl` | src/tm_url_squasher.c:209-251 | in every run, every URL ever added has its first five segments matched by some path of the tree at the end |
| `PathTrie.DepthBound` | src/tm_url_squasher.c:244-247 | no path of a well-formed tree is longer than five names |
| `PathTrie.WalkedParentsWithinLimit` | src/tm_url_squasher.c:236-240 | each non-root parent on the path just walked is squashed or within the limit for its depth |
| `PathTrie.MergedNodeWithinLimit` | src/tm_url_squasher.c:154-201 | a node merged by a squash is within its limit exactly if the names below the old children together are |
| `PathTrie.MergeExceedsLimit` | src/tm_url_squasher.c:172-201 | after two URLs every node is within its limit, and after a third one a merged node is over it |
| `PathTrie.CoveredUrlHasPattern` | src/tm_url_squasher.c:288-339 | an added URL of five segments or more is matched by the pattern of every path that covers it and has a squashed node |
| `PathTrie.ExceedsAtEachDepth` | src/tm_url_squasher.c:236-236 | when a node has too many children, with the numbers: the factor divided by 3, 6, 12, 24 and 48, truncated towards zero, for the five depths |
| `PathTrie.NothingSquashedExactly` | src/tm_url_squasher.c:231-248 | nothing is ever squashed exactly if no node but the root would have too many children among the URLs taken literally, and then the tree is just the prefixes of their first five segments |
| `UrlTokens.TokensSplit` | src/tm_url_squasher.c:231-234 | what lies left and right of a slash is cut into segments independently |
| `UrlTokens.BlankLevelsAreSkipped` | src/tm_url_squasher.c:222-234 | a doubled slash gives the segments of a single one |
| `UrlTokens.TokensOfJoin` | src/tm_url_squasher.c:231-234 | cutting joined segments gives the segments back |
| `UrlTokens.OnlyNewlineIsCut` | src/tm_url_squasher.c:228-228 | a newline at the end is cut off, and nothing else ever is |
| `UrlTokens.SegmentsOfUrl` | src/tm_url_squasher.c:226-234 | from the text of a URL, with or without a newline, exactly its segments are recovered |
| `UrlSquasher.MaybeAddChild` | src/tm_url_squasher.c:115-135 | on the heap: a squashed parent yields its only child unchanged, any other parent ends up with exactly one more name path at most |
| `UrlSquasher.RecurseAddChildren` | src/tm_url_squasher.c:153-169 | the merged tree gains exactly the paths of the merged subtree, whatever the iteration order of the children, and the source tree is not changed |
| `UrlSquasher.AddChildrenOf` | src/tm_url_squasher.c:159-167 | the merged tree gains exactly the paths strictly below the merged node |
| `UrlSquasher.MergeChildren` | src/tm_url_squasher.c:178-193 | the new child stands for the union of what was below the old children |
| `UrlSquasher.SquashChildren` | src/tm_url_squasher.c:171-201 | the tree on the heap afterwards is linked up and down and stands for `Squash` of the tree before |
| `UrlSquasher.PathSquasher.constructor` | src/tm_url_squasher.c:137-145 | a new squasher has an unsquashed root and nothing else |
| `UrlSquasher.PathSquasher.Descend` | src/tm_url_squasher.c:235-248 | one turn of the insertion loop on the heap is one `Step` on the trie |
| `UrlSquasher.PathSquasher.AddSegments` | src/tm_url_squasher.c:228-248 | the insertion loop with its depth limit is `Insert` on the trie |
| `UrlSquasher.PathSquasher.AddPath` | src/tm_url_squasher.c:209-251 | after any number of calls the tree is the one `Run` builds from all URLs added; the segments written in the text are the ones recorded, and their first five are covered |
| `UrlSquasher.PathSquasher.PushChildren` | src/tm_url_squasher.c:264-287 | the children of a node go on the stack, the node is the end of the line exactly if it has none, and a squashed node always has its child |
| `UrlSquasher.PathSquasher.PatternOf` | src/tm_url_squasher.c:288-326 | climbing to the root and reading the names back gives the name path of the leaf; a pattern is produced exactly if a node on the way is squashed |
| `UrlSquasher.PathSquasher.GetRegexes` | src/tm_url_squasher.c:349-374 | the traversal ends, and yields exactly one pattern for each leaf with a squashed node on its path |
| `MetricTable.TeamData.Update` | src/tm_process.c:169-321 | the entry of the key is created or added to: a sample counts in its own bucket and in no other, numbers are added, averages counted, counters added modulo 2^64; no other entry changes |
| `MetricTable.TeamData.ProcessAggregate` | src/tm_process_aggregate.c:136-316 | the owner adds an arriving counter, histogram or number to its entry, bucket by bucket; an arriving count of zero stands for one |
| `MetricTable.TeamData.VisitEntry` | src/tm_metric.c:305-402 | what a pass does with one entry, and by the numbers when: retire after ten idle minutes, journal, publish and clear after ten seconds, or leave alone |
| `MetricTable.TeamData.Stamp` | src/tm_metric.c:408-414 | exactly the entries of a chunk are marked as flushed |
| `MetricTable.TeamData.WriteChunk` | src/tm_metric.c:405-414 | a chunk is handed over as a complete object, and its entries are stamped only if the write succeeded |
| `MetricTable.TeamData.FlushPass` | src/tm_metric.c:282-532 | for every table, iteration order and pattern of failures: the chunks and messages put out, each chunk closed with the entry that takes it over two megabytes or at the end, and for every entry, by the numbers, whether it is in a chunk, published and cleared, deleted, or left as it was |
| `MetricTable.ChunkIsObject` | src/tm_metric.c:346-370 | a chunk is one object whose members are its entries as rendered, separated by commas |
| `MetricTable.TeamData.Retire` | src/tm_metric.c:511-523 | exactly the expired entries are removed |
| `MetricTable.TakenKeepsPassing` | src/tm_metric.c:305-402 | one more entry keeps the open chunk comma-correct and the lists of the pass complete |
| `MetricTable.OpenChunkOneMore` | src/tm_metric.c:346-370 | adding a rendered entry, with a comma except before the first, keeps the text a list joined by commas |
| `MetricTable.PassEnds` | src/tm_metric.c:405-423 | once the open chunk is handed over, exactly the entries in written chunks are stamped |
| `MetricTable.VisitStep` | src/tm_metric.c:305-402 | getting to one more entry changes this entry of the table only |
| `MetricTable.NoEntryTwice` | src/tm_metric.c:340-424 | no entry is in two chunks of a pass or twice in one, and every entry due for the journal that the pass got to is in one |
| `Aggregation.UpdateKeepsBalance` | src/tm_process.c:169-321 | an update adds to what is pending or held exactly what it adds to the books |
| `Aggregation.DeliverKeepsBalance` | src/tm_process_aggregate.c:136-316 | a delivery moves an amount from the topic to the owner |
| `Aggregation.FlushedAmount` | src/tm_metric.c:378-402 | what a pass takes out of a table is what is now in flight, but for counts made up and what printing changed, or retired, or cleared by a failed publication |
| `Aggregation.FlushKeepsBalance` | src/tm_metric.c:378-402 | a pass keeps the balance whatever publications fail |
| `Aggregation.KeyAfterFlush` | src/tm_metric.c:303-402 | a pass empties an entry exactly if it publishes or retires it; journalled entries keep their totals |
| `Aggregation.SentAmount` | src/tm_metric.c:145-170 | the message of a pass carries the amount of the published entry, with its sum as printed, and one made-up update if it had no count |
| `AggregationRuns.Conservation` | src/tm_metric.c:378-402 | over any number of instances and every interleaving: what was added, made up, and changed by printing sums equals pending plus in flight plus held plus retired plus lost, for counters (modulo 2^64), sums, counts and buckets |
| `AggregationRuns.NothingIsLost` | src/tm_metric.c:378-402 | in runs without failed publications and late updates nothing is lost and nothing is retired with something left in it |
| `AggregationRuns.OwnerHoldsIncome` | src/tm_process_aggregate.c:136-316 | once such a run is quiet, the owner holds everything that came in |
| `Averages.OwnerHoldsTrueTotal` | src/tm_process_aggregate.c:136-316 | for counted metrics that is exactly the total of all updates, read off the calls alone: counters, counts and buckets, and sums but for what printing changed |
| `Calls.TotalOfCalls` | src/tm_process.c:169-321 | that total, counted call by call: the sum of the counters modulo 2^64, the sum and number of the numbers, and the number of samples of the bucket |
| `Calls.OwnerHoldsCalls` | src/tm_process_aggregate.c:136-316 | the entry of a quiet owner, for each kind of metric: its counter, its sum and count, and the samples in the bucket are those of the calls |
| `Calls.OwnerShowsCalls` | src/tm_metric.c:341-370 | when the metric has been quiet and idle for ten seconds, the owner's next pass leaves the journal showing what callers handed in, and of numbers the mean, unless its write fails |
| `Calls.OwnerShowsTrueMean` | src/tm_metric.c:341-370 | for integers of up to a million in all that is the true mean, printed once |
| `Averages.QuiescentAverage` | src/tm_metric.c:145-155 | the number published for a quiescent average, before it is printed in turn, and that it is the mean of its updates exactly if what printing changed adds up to nothing |
| `Averages.QuiescentAverageIsTrueMean` | src/tm_metric.c:145-155 | if every published partial sum survives printing, a quiescent average is the true mean of all updates, however they were batched |
| `Averages.NothingRounded` | src/tm_metric.c:150-151 | if every published partial sum survives printing, nothing is changed in a run |
| `Averages.QuiescentPlainNumber` | src/tm_process.c:253-285 | a quiescent plain number is published as its sum divided by the number of messages it took |
| `Averages.PlainNumberIsMeanExactly` | src/tm_process.c:253-285 | that is the mean of its updates exactly if each took a message of its own, or they sum up to nothing |
| `Averages.BatchingsAgreeExactly` | src/tm_process.c:253-285 | two ways of batching the same updates publish the same exactly if they take equally many messages, or the updates sum up to nothing |
| `Averages.WholeSumsSurvive` | src/tm_metric.c:150-151 | if callers only add integers whose absolute values sum up to at most a million, every partial sum survives printing with six digits in every run, however the updates are batched, delivered or lost |
| `Averages.WholeAverageIsTrueMean` | src/tm_metric.c:145-155 | such an average is published as the true mean once all is quiet, by a condition on the calls alone |
| `Decimals.SurvivesPrinting` | src/tm_metric.c:151-151 | a number, of either sign, survives printing with six significant digits exactly if it is zero or a whole number of its sixth digits |
| `Decimals.IntegerSurvives` | src/tm_metric.c:151-151 | integers from minus a million to a million are printed exactly |
| `Decimals.PrintingIsNear` | src/tm_metric.c:151-151 | printing changes a number by at most half of its sixth digit |
| `Decimals.Exponent` | src/tm_metric.c:151-151 | the exponent of the leading digit, which fixes what the sixth digit counts |
| `ExampleRuns.GaugeIsShown` | src/tm_metric.c:378-402 | an average that is set, published by one instance and delivered to another is shown as printing leaves it |
| `ExampleRuns.LargeGaugeIsNotItsMean` | src/tm_metric.c:151-151 | a gauge of 123456789 is shown as 123457000 |
| `ExampleRuns.MillionIsTheBound` | src/tm_metric.c:151-151 | a gauge of a million and one, the next integer, is shown as a million |
| `ExampleRuns.NumericsDependOnBatching` | src/tm_process.c:253-285 | any two updates of a plain number, as two runs of the protocol: sent together they are shown as their sum, sent apart as their mean |
| `Retirement.UpdateKeepsSettled` | src/tm_process.c:169-321 | an update that is not late keeps every clean entry passed on |
| `Retirement.DeliveryKeepsSettled` | src/tm_process_aggregate.c:136-316 | so does a delivery that is not late |
| `Retirement.FlushKeepsSettled` | src/tm_metric.c:303-423 | a pass makes entries clean only when they are empty or journalled as they are |
| `Retirement.SettledExactlyIfPunctual` | src/tm_metric.c:303-338 | an update of a clean entry leaves it safe to delete exactly if it comes strictly after the last flush |
| `Retirement.DeletedIsPassedOn` | src/tm_metric.c:311-323 | in every punctual run an entry is deleted only if it is empty (senders) or its present value has been journalled (owners) |
| `Retirement.OwnerDeletesOnlyWhatItPublished` | src/tm_metric.c:311-323 | what an owner last published of an entry it deletes is everything that came in since the entry was created, and for numbers the printed mean of it |
| `Retirement.ShownIsPrinted` | src/tm_metric.c:153-153 | in every run the number the journal last accepted for a key is the printed quotient of its sum and its count, at least one |
| `ExampleRuns.LateUpdateIsDeleted` | src/tm_metric.c:311-323 | a run in which an update in the millisecond of a flush is deleted ten minutes later without having been sent |
| `Retirement.PassIsFlush` | src/tm_metric.c:282-532 | a completed `FlushPass` is one flush of the protocol, and shows exactly the entries in written chunks |
| `Bloom.FastRange` | src/bloom/bloom.hpp:51-54 | the reduction of a word without dividing is the high part of the product, and stays below the bound |
| `Bloom.MarkKeeps` | src/bloom/bloom.hpp:153-160 | setting a bit clears no other, and the probed bit is then set |
| `Bloom.AddedHas` | src/bloom/bloom.hpp:146-162 | a key that was added is found |
| `Bloom.AddedAllHas` | src/bloom/bloom.hpp:146-162 | each of any number of added keys is found: no false negatives |
| `Bloom.BlankHasNothing` | src/bloom/bloom.hpp:110-117 | a new filter finds nothing |
| `Bloom.HashIsHighWord` | src/bloom/hashutil.hpp:29-32 | the hash of a key is the high word of the 128-bit value |
| `Bloom.ProbeIs` | src/bloom/bloom.hpp:146-162 | the probes in closed form: the halves of the hash exchanged, plus a multiple of it, modulo 2^64 |
| `Bloom.AddedAllExactly` | src/bloom/bloom.hpp:146-162 | a bit is set exactly if it was before or one of the keys has a probe there |
| `Bloom.FoundInFilterExactly` | src/bloom/bloom.hpp:215-249 | a filter made from nothing finds a hash exactly if each of its probes is a probe of some key |
| `Bloom.BloomFilter.Add` | src/bloom/bloom.hpp:146-162 | the words afterwards are those with the bits of the k probes set |
| `Bloom.BloomFilter.Contain` | src/bloom/bloom.hpp:215-249 | true exactly if all k probed bits are set, in the branchless form as in the plain one |
| `Bloom.BloomFilter.ApplyBlock` | src/bloom/bloom.hpp:167-172 | each word gains exactly the bits queued for it |
| `Bloom.BloomFilter.AddAll` | src/bloom/bloom.hpp:174-213 | bulk insertion leaves the words that adding the keys in turn leaves |
| `Bloom.BloomFilter.EnqueueProbe` | src/bloom/bloom.hpp:195-204 | queueing a bit, and applying a block that fills up, keeps words plus queues equal to the target; no index is out of bounds |
| `Bloom.BloomFilter.FlushBlock` | src/bloom/bloom.hpp:200-209 | applying a block moves its queued bits into the words and nothing else |
| `Stripes.FoldAppend` | src/bloom/xxhash.c:766-823 | folding stripes over an input cut in two is folding over the first part and then over its rest with the second part |
| `Xxh64.OneShot` | src/bloom/xxhash.c:641-707 | the direct hash is the reference hash of the bytes |
| `Xxh64.ConsumeStripes` | src/bloom/xxhash.c:649-664 | the stripe loop consumes all whole stripes and leaves the tail |
| `Xxh64.State.Reset` | src/bloom/xxhash.c:753-763 | a reset state has absorbed nothing |
| `Xxh64.State.Update` | src/bloom/xxhash.c:766-823 | a state that has absorbed some bytes has then absorbed the chunk too; a null chunk is an error and changes nothing |
| `Xxh64.State.Digest` | src/bloom/xxhash.c:835-884 | the digest is the reference hash of all bytes absorbed; for 2^64 bytes or more with a short wrapped length it is the hash started from the third lane |
| `Xxh64.HashChunks` | src/bloom/xxhash.c:753-884 | for every way of cutting an input of less than 2^64 bytes, reset, updates and digest give the one-shot hash |
| `Xxh64Mixing.RoundTells` | src/bloom/xxhash.c:625-639 | from the result of a round, either input tells the other: nothing is lost |
| `Xxh64Mixing.StripeTells` | src/bloom/xxhash.c:659-664 | every byte of a stripe counts in the lanes, and so does what they were before |
| `Xxh64Mixing.MixTailTells` | src/bloom/xxhash.c:680-699 | a different byte anywhere in the tail changes the running hash |
| `Xxh64Mixing.HashTells` | src/bloom/xxhash.c:641-707 | two inputs of the same length that differ in one byte after the last whole stripe never have the same hash |
| `Xxh64Mixing.SeedTells` | src/bloom/xxhash.c:641-707 | below the width of a stripe, different seeds never give the same hash |
| `Xxh64Mixing.HashOfNothing` | src/bloom/xxhash.c:641-707 | the hash of no bytes is 0xef46db3751d8e999 |
| `Xxh64Mixing.HashOfAbc` | src/bloom/xxhash.c:641-707 | the hash of "abc" is 0x44bc2cf5ad770999 |
| `Xxh64Mixing.HashOfBytes` | src/bloom/xxhash.c:641-707 | the hash of the 45 bytes from 0 on, with a stripe and a tail of every kind |
| `Stripes.Read64InOrder` | src/bloom/xxhash.c:598-611 | a word is read with its lowest byte first |
| `Xxh32.OneShot` | src/bloom/xxhash.c:270-324 | the direct 32-bit hash is the reference hash of the bytes |
| `Xxh32.LengthWraps` | src/bloom/xxhash.c:396-397 | the wrapped 32-bit length and the sticky flag tell long inputs from short ones for every length |
| `Xxh32.State.Update` | src/bloom/xxhash.c:386-446 | as for 64 bits, with the sticky flag set exactly if sixteen bytes or more have come in |
| `Xxh32.State.Digest` | src/bloom/xxhash.c:460-496 | the digest is the reference hash for every length, wrapped or not |
| `Xxh32.HashChunks` | src/bloom/xxhash.c:372-496 | chunked and one-shot hashing agree for every cutting of every input |
| `Xxh32Mixing.StripeTells` | src/bloom/xxhash.c:289-296 | every byte of a stripe counts in the lanes |
| `Xxh32Mixing.HashTells` | src/bloom/xxhash.c:270-324 | as for 64 bits: one differing byte after the last whole stripe gives a different hash |
| `Xxh32Mixing.SeedTells` | src/bloom/xxhash.c:270-324 | so does a different seed below the width of a stripe |
| `Xxh32Mixing.HashOfNothing` | src/bloom/xxhash.c:270-324 | the 32-bit hash of no bytes is 0x02cc5d05 |
| `Xxh32Mixing.HashOfAbc` | src/bloom/xxhash.c:270-324 | the 32-bit hash of "abc" is 0x32d153ff |
| `Xxh32Mixing.HashOfBytes` | src/bloom/xxhash.c:270-324 | the 32-bit hash of the 21 bytes from 0 on |
| `Stripes.Read32InOrder` | src/bloom/xxhash.c:411-414 | a 32-bit word is read with its lowest byte first |
| `TraceGenerations.KeptTenMinutes` | src/tm_transaction_store.c:780-829 | with a monotone clock a trace put at time t is found throughout the ten minutes after t |
| `TraceGenerations.FoundExactly` | src/tm_transaction_store.c:780-829 | a trace is found exactly as long as there was at most one rotation since it was last put |
| `TraceGenerations.TenMinutesIsTight` | src/tm_transaction_store.c:788-788 | a millisecond later it may be gone |
| `TraceGenerations.GenerationsOnlyGrow` | src/tm_transaction_store.c:262-583 | a generation only gains keys until it is dropped as a whole and for good |
| `TraceGenerations.ChildStaysWithRoot` | src/tm_transaction_store.c:436-583 | a child added while its root is visible shares the root's generation until both are dropped together |
| `TraceGenerations.RecordIsLatestPut` | src/tm_transaction_store.c:262-345 | what a held generation has for a trace is the latest document put there, with its first-seen time and time to live, and the time of the latest put or child of the trace |
| `TraceGenerations.FoundIsLatestPut` | src/tm_transaction_store.c:586-642 | a lookup yields that document, unless the last generation has an older one |
| `TraceGenerations.OlderDocumentIsFound` | src/tm_transaction_store.c:586-642 | a second document put after a rotation stays hidden behind the first |
| `TraceGenerations.OpenedStamps` | src/tm_transaction_store.c:123-218 | an environment that says when it was created keeps that time, another one is stamped |
| `TransactionStore.FilterPair.constructor` | src/tm_transaction_store.c:183-216 | the filters let through every key found on disk |
| `TransactionStore.FilterPair.Rotate` | src/tm_transaction_store.c:802-808 | the filters move with the generations |
| `TransactionStore.FilterPair.MayHold` | src/tm_transaction_store.c:369-409 | a key of the generation is never held back |
| `TransactionStore.FilterIsAskedFor` | src/bloom/bloom.cpp:36-54 | a filter is asked for the 64-bit hash of the key with seed zero |
| `TransactionStore.TransactionStore.constructor` | src/tm_transaction_store.c:123-218 | opening gives the generations found on disk, new ones stamped with the time |
| `TransactionStore.TransactionStore.Put` | src/tm_transaction_store.c:262-345 | the document goes to the current generation and its filter as it was handed in; the store stays the one its history gives |
| `TransactionStore.TransactionStore.AddChild` | src/tm_transaction_store.c:347-583 | a child's document goes beside its root, whose modification time is renewed, or to the current generation, under the trace id, a dash and its own id |
| `TransactionStore.TransactionStore.FindParent` | src/tm_transaction_store.c:369-434 | with filters on or off the root is found in the last generation, then in the current one |
| `TransactionStore.TransactionStore.Get` | src/tm_transaction_store.c:586-642 | in every reachable state the filtered lookup answers as the plain one for every trace id |
| `TransactionStore.TransactionStore.FiltersAgreeExactly` | src/tm_transaction_store.c:586-642 | for any key, stored child keys included, the filters make no difference exactly if the filter of the generation it is found in lets it through |
| `TransactionStore.TransactionStore.DeleteOld` | src/tm_transaction_store.c:780-829 | rotation happens exactly after more than ten minutes, and returns the number of entries held |
| `TransactionStore.ChildKeyIsHidden` | src/tm_transaction_store.c:542-572 | the key of a child stored since opening that the plain lookup finds and the filters hide, which is why such keys are excepted |
| `ChildScan.PrefixBlockIsContiguous` | src/tm_transaction_store.c:710-716 | in lexicographic order, keys between an id and a key that extends it extend it too |
| `ChildScan.FirstDifferenceDecides` | src/tm_transaction_store.c:710-716 | the first byte that differs decides the order of two keys |
| `ChildScan.CollectExactly` | src/tm_transaction_store.c:718-770 | what is collected are the first documents, as many as there is room for, and nothing exactly if a corrupt record comes before that |
| `ChildScan.GetChildren` | src/tm_transaction_store.c:694-775 | seek, stop at the first key without the prefix, skip the root: the documents of all keys that extend the id, in order, up to a thousand |
| `ChildScan.ScanFindsExactlyTheChildren` | src/tm_transaction_store.c:506-506 | in every run over prefix-free trace ids, from whatever such a store has left on disk, the scanned keys of a generation are exactly those of the children of this trace that were stored in it, each with its latest record |
| `ChildScan.OpenedScanFindsChildren` | src/tm_transaction_store.c:506-506 | for a store opened over what an earlier one left: the children stored since then in that generation, and those found on disk for it |
| `ChildScan.RecordIsLatestChild` | src/tm_transaction_store.c:542-572 | the record under a child's key in a generation is that of the latest event that stored it there, or what was there at the start |
| `ChildScan.KeysAreKnown` | src/tm_transaction_store.c:262-583 | every key of either generation is a trace id, the stamp, or the key of a child of one of the traces |
| `ChildScan.ExtendingIsOrdered` | src/tm_transaction_store.c:712-716 | the scanned keys are in key order |
| `HistogramBuckets.StrictTotalOrder` | src/tm-web/js/circllhist.js:194-212 | the comparison is a strict total order on canonical buckets, with what is not a number first |
| `HistogramBuckets.OrderIsRealOrder` | src/tm-web/js/circllhist.js:194-245 | one bucket compares before another exactly if its left edge is smaller, and then their intervals do not overlap |
| `HistogramBuckets.Edges` | src/tm-web/js/circllhist.js:214-245 | the edges of a bucket are one step of its second digit apart, within its power of ten |
| `HistogramBuckets.PowerOfTenIsExact` | src/tm-web/js/circllhist.js:38-66 | masking a negative exponent finds the right entry of the table |
| `HistogramBuckets.BucketHolds` | src/tm-web/js/circllhist.js:336-385 | every number has a bucket in use: zero below 10^-128, the marker from 10^128 on, and otherwise the bucket it lies in but for the margin at its edge |
| `HistogramBuckets.MarkerIsNaN` | src/tm-web/js/circllhist.js:336-385 | of the buckets in use only the marker is not a number |
| `Histogram.MergedAdds` | src/tm-web/js/circllhist.js:441-453 | merging adds up the counts of every bucket, and the populations |
| `Histogram.MergedSorted` | src/tm-web/js/circllhist.js:441-453 | merging sorted histograms gives a strictly sorted one |
| `Histogram.MergedCommutes` | src/tm-web/js/circllhist.js:441-453 | the order of merging two histograms does not matter |
| `Histogram.PopulationIsAllCounts` | src/tm-web/js/circllhist.js:455-460 | the population is what all buckets in use count together |
| `Histogram.MergedOne` | src/tm-web/js/circllhist.js:411-423 | placing an entry is merging with a histogram that has only this entry |
| `Histogram.RemovedUndoesAdded` | src/tm-web/js/circllhist.js:430-439 | removing what was added gives back every count |
| `Histogram.ReducedCount` | src/tm-web/js/circllhist.js:430-439 | removal lowers one count, not below zero |
| `Histogram.Histogram.InternalFind` | src/tm-web/js/circllhist.js:387-409 | the binary search finds the bucket, or the place where it keeps the bins sorted |
| `Histogram.Histogram.InsertRaw` | src/tm-web/js/circllhist.js:411-423 | insertion keeps the bins sorted and adds to exactly one bucket |
| `Histogram.Histogram.RemoveRaw` | src/tm-web/js/circllhist.js:430-439 | removal changes one bin in place and keeps it |
| `Histogram.Histogram.Insert` | src/tm-web/js/circllhist.js:425-428 | a value is counted in its bucket |
| `Histogram.Histogram.Remove` | src/tm-web/js/circllhist.js:430-439 | and taken out of it again |
| `Histogram.Histogram.Merge` | src/tm-web/js/circllhist.js:441-453 | the splicing walk leaves the sorted pointwise sum of the old contents, also for histograms that share bins or are the same |
| `Histogram.Histogram.Population` | src/tm-web/js/circllhist.js:455-460 | the population is the sum of the counts |
| `Histogram.ChangeAfterMerge` | src/tm-web/js/circllhist.js:441-453 | merging shares bins: after any later insertions and removals on the target, each bin of the source counts what the target has if it was shared before or its bucket was missing, and what it did before otherwise |
| `Quantile.QuantileIsInBucket` | src/tm-web/js/circllhist.js:304-332 | a quantile lies in the first bucket whose range of cumulated counts has q times the total |
| `Quantile.QuantileIsProportional` | src/tm-web/js/circllhist.js:304-332 | the quantile divides its bucket as the samples still to be passed divide those of the bucket |
| `Quantile.QuantilesAreOrdered` | src/tm-web/js/circllhist.js:304-332 | a larger quantile is never a smaller value |
| `Quantile.Interpolate` | src/tm-web/js/circllhist.js:322-331 | the value inside a bin; nothing is divided by zero |
| `Quantile.Walk` | src/tm-web/js/circllhist.js:303-332 | one walk over bins and quantiles gives every quantile its own value |
| `Quantile.ApproxQuantile` | src/tm-web/js/circllhist.js:277-334 | the four return codes, what is left in the output list in each case, and the values on success |
| `JsonEscape.EscapedReadsBack` | src/tm_metric.c:86-130 | reading an escaped NUL-free string back (section 7 of RFC 8259) gives the string and stops at its closing quote |
| `JsonEscape.EscapeIsInjective` | src/tm_metric.c:86-130 | different strings are escaped differently |
| `JsonEscape.EscapedIsClean` | src/tm_metric.c:86-130 | no control byte below 0x20 is written, and a quote only as the second byte of the escape of a quote |
| `JsonEscape.EscapesAre` | src/tm_metric.c:86-130 | the escapes as they are written: four short ones, the quote, the two slashes, and lower-case codes for other control bytes |
| `JsonEscape.EscapeStr` | src/tm_metric.c:86-130 | the run-copying loop appends exactly the escaped string |
| `TemplateScanner.ReplaceVars` | src/tm_utils.c:542-611 | the loop is a run of the four-state machine |
| `TemplateScanner.RunParts` | src/tm_utils.c:542-611 | parts of a text are dealt with one by one; only the name of a broken reference is carried on |
| `TemplateScanner.TemplateIsSubstituted` | src/tm_utils.c:542-611 | pieces and `{{ name }}` references come out with the values, or nothing, in their places, and values are not scanned again |
| `TemplateScanner.EveryTextIsExpanded` | src/tm_utils.c:542-611 | for every text: it splits into parts and an unfinished end, the end is dropped, the rest is expanded |
| `TemplateScanner.ReferencesStandApartExactly` | src/tm_utils.c:580-600 | every reference gets the value of its own name, whatever the values are, if and only if no broken reference with a name comes before one with no other in between |
| `TemplateScanner.TextStandsApartExactly` | src/tm_utils.c:542-611 | the same for the output of the scanner on any text |
| `TemplateScanner.BrokenReferenceSpoilsNext` | src/tm_utils.c:596-600 | a reference closed by one brace gets its name into the next reference |

## Left out

- Memory: freeing of nodes, records and buffers (`destroy_node`, the leaked read transaction of `add_child`), fixed buffer sizes (512-byte patterns, the 96-byte child key), locks. Each operation is one atomic step, so races on `count` and `metric` are not modelled.
- Patterns of the path squasher are lists of segments; the regex text, its metacharacters and PCRE are not part of this model. An empty URL, for which the newline test reads before the string, is taken to have no newline.
- The header of the path squasher says that a level over its threshold is squashed; the code looks only at the parents on the path it walks. The model follows the code (`PathTrie.MergeExceedsLimit`).
- `store_numeric_rollup`, text metrics, `owner_id`, the `scheduled_for_destruction` flag, the jitter of timestamps, hyperloglogs and the publication of patterns in a flush pass.
- The journal and Kafka are functions that say which writes succeed; the sender thread behind the journal is not part of this model. What printing with `%g` leaves of a sum is a function of the sum in messages, with six significant digits as one case (`Decimals.SixDigits`); and so is what it leaves of a mean in the journal (`Retirement.ShowingOf`); the rest of the text of a journalled entry is a function of the entry. Sums are reals. Counts do not overflow.
- MetricTable.TeamData.Update: asks for an entry of the same kind of metric; the code adds to the union without looking at its type, which reads one kind's bytes as another's.
- MetricTable.TeamData.ProcessAggregate: asks for the same, for the same reason.
- Aggregation.UpdateKeepsBalance: assumes that each name is used for one kind of metric, as the code does when it adds to a union without looking at its type.
- Averages.QuiescentAverageIsTrueMean: assumes successful publications, updates strictly after the last flush of their entry, and one owner that does not retire the key; the three are stated in `Smooth`.
- Retirement.DeletedIsPassedOn: assumes punctual updates; `SettledExactlyIfPunctual` and `ExampleRuns.LateUpdateIsDeleted` show that this is needed.
- Xxh64Mixing.HashTells: says nothing of inputs that differ in a whole stripe; their lanes differ (`LanesTell`), but what the lanes converge to may be the same.
- Xxh32Mixing.HashTells: the same.
- Other byte orders and alignments of xxHash; `SimpleBlockFilter`, the `size` field and the statistics of the Bloom filter.
- LMDB errors, compression and JSON tokenising (a function says what a record parses to), the Jaeger database, `mark_traceable` and `process_jaeger`.
- TransactionStore.TransactionStore.AddChild: asks for a trace id that is not empty and not itself a stored child key; the code would read a child record in the layout of a root.
- TransactionStore.TransactionStore.Get: for the keys of children stored since opening only the filtered answer is stated, because storing a child enters nothing in a filter (`ChildKeyIsHidden`, `FiltersAgreeExactly`).
- ChildScan.ScanFindsExactlyTheChildren: assumes that what is on disk at the start holds traces and children of the same prefix-free ids.
- Rounding of doubles in histograms: values, edges and the margin of `double_to_hist_bucket` are reals, and values that are not numbers are not inserted. Serialisation, mean, sum and midpoint of histograms. Counts are natural numbers, not doubles.
- Bytes after a NUL: `strncmp` in the child scan is a comparison of whole ids, and the template scanner works on the text before its NUL.
