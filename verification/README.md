# Verified model of the search engine core

A Dafny model of the parts of the engine whose correctness does not show from one function body:
how a query finds its best documents, how a shard keeps what it acknowledged, how the suggest and
search fan-outs merge, how keys are routed, and the byte layouts underneath. `dafny verify
dfyconfig.toml` checks all of it.

## What is modelled

- **Retrieval.** `Postings`, `BlockBounds`, `Wand`, `WandAccount`, `WandLoop`: BM25 impact over the
  reals, block headers, the posting merge, and the conjunctive Block-Max WAND loop on cursor and
  heap objects. The reference is a scan that offers every scored member of the intersection to the
  heap; the loop is proved to end in the same heap whenever the scoring function is bounded by the
  block bounds, and that hypothesis is discharged for the score the postings determine. For any
  positive score, bounded or not, it is proved what the loop still guarantees. `InvertedIndex`,
  `Retrieval`, `AndQuery` go from the tokens of documents through index construction, the posting
  file, deletion and prefix expansion to the naive answer of an AND query, and `Searching` from
  there to the page cut from all segments. `Columns` holds the column writers, filters and
  counting. `EditDistance` holds the table algorithm against edit scripts.
- **Layouts.** `Bytes`, `PostingCodec`, `InvertedIndex`, `DocStore`, `Wal`, `TornLog`: varints with
  their 64-bit wrap-around and narrowing casts, framed records, offset tables, torn tails and what
  is appended behind them. The log's serialiser is a parameter of which only that decoding undoes
  encoding is used; `Serialisers` shows that there is one. For that a document's floating-point
  fields are their 64-bit patterns: they are stored and handed back, never calculated with.
- **Shard storage.** `ShardModel` is the protocol as a state machine: every durable write is one
  step, and the process may crash between any two, recovery included. A completed file write is
  durable and a crash falls between whole log records (`TornLog.ReadsBackIff` says why it must).
  A directory that is being removed may, before it is gone, lose files in any order, its bitmap
  included. `ShardSafety` proves one lemma per step, `ShardRuns` the theorems over all runs,
  `ShardUpdates` the one for documents deleted and indexed again, `ShardDeletes` what a delete leaves
  on disk and when a deleted id comes back, `Recovery` and `CrashPoints` what
  a crash at each point gives back, `Serving` which version a lookup returns, and `ShardExamples`
  and `ShardCapacity` concrete runs from an empty directory. `WriteBuffers`,
  `SegmentStore`, `MergePolicy`, `Swaps` and `Shard` are the objects themselves; the engine
  object carries the steps it has taken as ghost state and every method is proved to hold exactly
  the state those steps reach, so the theorems about runs are theorems about the object.
- **Fan-out and routing.** `Ranking`, `Paging`, `Suggest`, `SuggestBuilder`, `Routing`.

## What turned out not to hold

The code was kept as it is; each item has its exact condition and an input on which it fails.

- An AND query can return nothing although documents match. For any positive score and boosts that
  are not negative (and not both zero), the answer is empty if and only if nothing matches or every
  query token has idf zero; otherwise it has as many hits as there are, up to k
  (`AndQuery.ScoreQueryWand`). The executor adds up the document frequencies of all prefix
  expansions of a token, and idf is zero exactly when that sum exceeds the number of documents
  (`BlockBounds.IdfVanishes`, `AndQuery.AllVanishIff`). Input: `AndQuery.MatchLostToZeroIdf`.
- After a delete returns, `get_docs` still finds the id exactly when the buffer holds it
  (`ShardRuns.DeleteHidesIff`); searches, which are to exclude deleted documents
  (spec/001-search_products/design.md:270), still show it exactly when an open segment does, whose
  reader does not look at the bitmap again (`ShardDeletes.DeleteSearchesIff`); and a flush changes what
  searches see exactly when a buffered document was marked deleted (`Swaps.FlushKeepsSearchesIff`).
  Inputs: `ShardExamples.DeletedStillServed`, `ShardExamples.FlushShowsDeleted`.
- A deleted id can come back. After a crash, reopening and replay it is found exactly when the log still
  holds a document of it, or holds no delete of it and a complete directory a live one
  (`ShardDeletes.RecoveredFindsIff`). Once no document of it is live on disk, logged or buffered, which
  a delete brings about exactly when the id was not buffered and the disk held no other live document
  of it (`ShardDeletes.DeleteLeavesGoneIff`), it stays away over every run, crashes included, until it
  is indexed again, or a merge or reindex rewrites a document of it that a stale reader still shows, or
  a removed directory loses its bitmap before its other files (`ShardDeletes.StepKeepsGoneIff`,
  `ShardDeletes.DeletedStaysGone`).
- A merge or reindex writes what the bitmaps on disk leave alive exactly when no segment of its
  group was marked since its reader was opened (`ShardRuns.MergeHonoursDeletesIff`), and the swap
  then maps the deleted id again (`ShardRuns.SwapRevivesIff`). Input:
  `ShardExamples.ReindexRevivesDeleted`.
- After `index` returns, `get_docs` need not serve the new version. Below capacity it does exactly
  when the id was unknown, or served that same document, before. At capacity it does exactly when
  fewer than ten segments are no larger than the one to be flushed, or the ten the policy picks then
  show no document of that id, or this one last (`Shard.ShardEngine.Index`,
  `Serving.CapacityServesIff`): with ten others in front of it the flushed segment is left out of the
  merge, and the merge maps the id to what it rewrites. Searches gain the document below capacity
  exactly when its id is not in the buffer's delete set. Inputs: `ShardExamples.OldVersionServed`
  below capacity, `ShardCapacity.OldVersionAtCapacity` at capacity, after ten rounds that each end in
  a crash between flush and merge.
- A log reopened after a torn write does not read back what is appended to it. With whole records
  every later batch is read back (`TornLog.WholeReadsBack`). Behind a tear nothing more is read
  exactly when the length claimed at the tear runs past the end of the file or the bytes it takes
  in do not decode (`TornLog.TornAppendLostIff`), and as soon as some record is short enough to be
  swallowed, every batch is read back exactly when the tear is at a record boundary
  (`TornLog.ReadsBackIff`). Input: `TornLog.TornByteHidesAppend`. The numbering survives reopening
  exactly when the log was not empty, or nothing had ever been numbered (`Wal.ReopenIsValid`).
- A crash can leave documents twice; it never loses any that is live. From any running state, crash,
  reopening and replay give back exactly what was held live if and only if no complete directory
  outside the list holds live documents and, once a flushed segment is listed, the log has been
  truncated (`Recovery.CrashConservesIff`). Over the steps of a flush: if and only if the crash falls
  before the segment is complete or after the truncation (`CrashPoints.FlushCrashConservesIff`).
  Over those of a merge: if and only if it falls before the new segment is complete, or no segment of
  the group was marked since it was opened and no old directory still there shows a document
  (`CrashPoints.MergeCrashConservesIff`). Input: `ShardExamples.CrashDoublesFlushed`.
- The suggest counts are not document frequencies: `min_doc_frequency` is documented as excluding
  terms in fewer documents (README.md:366 of the repository), but a document counts once for each field that has the
  term. Count and document frequency agree exactly when no document has the term in two fields
  (`SuggestBuilder.CountsDocumentsIff`). Input: `SuggestBuilder.OneDocumentCountsTwice`.

## Model

| member | source | states |
|---|---|---|
| WandLoop.WandTopK | crates/query/src/wand.rs:137-217 | for any lists and any score bounded by the summed block bounds: the result is a descending best-k selection of the scored intersection, equal to the reference scan's heap; for any positive score: a best-k selection of what was scored, every document passed over has a bound no higher than the final threshold, and with positive bounds as many entries as candidates up to k; empty if every idf is zero; every entry comes from a scoring call, and the calls are strictly increasing members of the intersection |
| WandAccount.AccountGuarantees | crates/query/src/wand.rs:178-217 | what the final heap is worth for any positive score |
| WandAccount.ThresholdRises | crates/query/src/wand.rs:101-116 | the threshold never falls |
| WandAccount.SkipAccounted | crates/query/src/wand.rs:185-202 | every document a jump passes over has the pivot's bound |
| WandAccount.DocBoundSign | crates/query/src/wand.rs:55-65 | bounds are not negative, and positive as soon as one idf is |
| WandLoop.Retrieve | crates/query/src/wand.rs:153-216 | the loop terminates and its heap is the reference heap at the end |
| WandLoop.Meet | crates/query/src/wand.rs:154-176 | pivoting skips nothing the scan would keep; on disagreement the postings left strictly fall |
| WandLoop.Settle | crates/query/src/wand.rs:178-215 | a block skip and an evaluation both keep the heap equal to the reference and use up postings; the scoring function is called exactly when the summed bound beats the threshold |
| WandLoop.BlockFilter | crates/query/src/wand.rs:178-202 | skipping to the earliest next block loses nothing when the summed bound is at most the threshold |
| WandLoop.Evaluate | crates/query/src/wand.rs:204-209 | the guard and push are the reference's offer |
| WandLoop.FindPivot | crates/query/src/wand.rs:154-161 | the highest current document, or that a cursor has run out |
| WandLoop.NextBoundary | crates/query/src/wand.rs:188-191 | the earliest first document of a next block |
| WandLoop.TermCursor.AdvanceTo | crates/query/src/wand.rs:74-79 | the first posting at or after the target, never moving back |
| WandLoop.TopKHeap.Add | crates/query/src/wand.rs:102-108 | push, then drop the smallest above capacity |
| WandLoop.TopKHeap.IntoVec | crates/query/src/wand.rs:118-127 | a descending permutation of the heap |
| Wand.ScanKeepsTop | crates/query/src/wand.rs:136-136 | the reference heap is a best-k selection of all candidates |
| Wand.JumpStaysInBlock | crates/query/src/wand.rs:81-84 | a document of the list before the next block's first document lies in the current block |
| Wand.JumpKeepsBound | crates/query/src/wand.rs:185-199 | every document skipped by a jump has the same summed bound as the pivot |
| Wand.RemainingFalls | crates/query/src/wand.rs:153-216 | moving the frontier past a posting lowers the postings left |
| Postings.ImpactBounds | crates/index/src/posting.rs:35-42 | the impact lies in [0, K1+1), and is positive exactly for a positive frequency |
| Postings.ImpactIs | crates/index/src/posting.rs:35-42 | the BM25 equation with k1 = 1.2 and b = 0.75, an average length below 1 counting as 1 |
| Postings.ImpactMonotone | crates/index/src/posting.rs:35-42 | it rises with the frequency and falls with the length |
| Postings.RebuildBlocks | crates/index/src/posting.rs:62-75 | one header per 64 postings, each the attained maximum of its block |
| Postings.Merge | crates/index/src/posting.rs:79-98 | strictly increasing, exactly the documents of the inputs, frequency min(255, sum), a length some input gave |
| BlockBounds.PostingBelowBlock | crates/query/src/wand.rs:55-70 | with 1.5 times the summed boosts at least 1, every posting scores at most its block's bound |
| BlockBounds.CurrentBelowBlock | crates/query/src/wand.rs:55-70 | at a cursor, `score_current` is at most `block_upper_bound` |
| BlockBounds.PostingScoreBounded | crates/query/src/wand.rs:67-70 | so the summed posting score meets the hypothesis of the WAND theorem |
| BlockBounds.IdfVanishes | crates/query/src/scorer.rs:74-78 | idf is zero if and only if the document frequency exceeds the document count |
| BlockBounds.IdfIs | crates/query/src/scorer.rs:74-78 | idf is ln((N + 1) / (df + 0.5)), or zero where that is negative |
| BlockBounds.IdfFalls | crates/query/src/scorer.rs:74-78 | the rarer a term, the higher its idf, up to the document count |
| Retrieval.IndexDocs | crates/index/src/segment.rs:82-123 | after indexing, each term's list is the naive one: a posting for each document that has it, frequency min(255, occurrences), length cut to 16 bits |
| Retrieval.AddTermIndexes | crates/index/src/inverted.rs:20-29 | one more occurrence keeps the partial index exact |
| Retrieval.PostingsAre | crates/index/src/segment.rs:82-123 | the naive list has, in document order, one posting for each document with the term, its occurrences up to 255 and its length up to 65535 |
| Retrieval.WritePostings | crates/index/src/segment.rs:82-157 | the written posting file reads back, term by term, the naive index of the documents |
| Retrieval.PrefixSearchTerm | crates/index/src/segment.rs:224-236 | from the file: the lists of exactly the terms with the prefix, deleted documents removed, and their total length |
| Retrieval.MergedIsFaithful | crates/query/src/executor.rs:155-158 | the merged list holds exactly the live documents with a token that starts with the query token, frequency min(255, such occurrences) |
| AndQuery.CursorFor | crates/query/src/executor.rs:134-163 | the cursor of a token is faithful, with trusted blocks and the idf and average length given, or no live document has the prefix |
| AndQuery.ScoreQueryWand | crates/query/src/executor.rs:104-163 | from the posting file: a best-k selection of the naive scan's hits when the score is bounded, and outright when it is the score the postings determine; for any positive score hits only, best first, as many as there are up to k and all of them when k allows, and nothing exactly when nothing matches or every idf is zero |
| AndQuery.QueryAnswers | crates/query/src/executor.rs:104-163 | how that follows from what WAND guarantees |
| AndQuery.SameCandidates | crates/query/src/executor.rs:130-163 | the WAND candidates are the naive hits, one for one |
| AndQuery.HitsAre | crates/query/src/executor.rs:130-163 | the naive hits are, in order and each once, the documents that match every token and get a score |
| AndQuery.TopIsBest | crates/query/src/wand.rs:118-127 | best first, and every matching document with a score is there or the answer is full of documents that score no less |
| AndQuery.SumIsDocScore | crates/query/src/scorer.rs:82-89 | on matching documents the cursors' postings add up to the BM25 score read off the tokens |
| AndQuery.PostingScoreIsBounded | crates/query/src/wand.rs:67-70 | that score meets the hypothesis of the WAND theorem, with boosts that cover it and no negative idf |
| AndQuery.AllVanishIff | crates/query/src/executor.rs:156-160 | every idf is zero if and only if every token's summed frequency exceeds the document count |
| AndQuery.MatchLostToZeroIdf | crates/query/src/executor.rs:156-160 | a query with one hit that returns nothing, whatever the scoring function answers |
| EditDistance.EditDistance | crates/query/src/executor.rs:12-29 | the table ends in the recurrence's value, though the equal-character branch takes no minimum |
| EditDistance.DistanceIsLeast | crates/query/src/executor.rs:12-29 | that value is the least length of any insert, delete, substitute script |
| EditDistance.ShortestScript | crates/query/src/executor.rs:12-29 | a script of that length exists |
| EditDistance.NoShorterScript | crates/query/src/executor.rs:12-29 | no script is shorter |
| EditDistance.Symmetric | crates/query/src/executor.rs:12-29 | symmetric |
| EditDistance.ZeroOnlyOnEqual | crates/query/src/executor.rs:12-29 | zero exactly on equal strings |
| EditDistance.Triangle | crates/query/src/executor.rs:12-29 | the triangle inequality |
| Paging.Collect | crates/query/src/collector.rs:19-46 | the page is cut from the documents in the order asked for: by score, or by the field from low to high with missing values first, or from high to low with them last; what was cut before and after lies on the right side; the total counts all |
| Paging.PageItem | crates/query/src/collector.rs:41-45 | item i of a page is item offset + i of the sorted list, up to limit |
| Paging.SearchSegments | crates/query/src/multi.rs:33-56 | the page is cut in that order from all segments' hits |
| Paging.SegmentPageExact | crates/query/src/multi.rs:33-56 | per-segment best-K lists give the page of scores of a full sort when offset+limit is at most K |
| Searching.SearchSegment | crates/query/src/executor.rs:104-274 | whatever the scoring function answers: live documents of the segment that match every token, each once, with their own ids, scores and sort values, or the fallback; for positive scores all of them when there are no more than K; when the segment scores by its postings, up to K what it has to offer |
| Searching.Search | crates/query/src/multi.rs:23-56 | from the query tokens to the page, for any scoring: cut in the order asked for from such hits, no document twice; for positive scores from all hits when no segment has more than it is asked for; when segments score by their postings, the page has the scores of the page of a full sort of everything, and counts like it for the router |
| Searching.KeptSound | crates/query/src/executor.rs:258-272 | fetching what the query kept gives hits with their own ids, each once |
| Paging.FetchSize | crates/query/src/executor.rs:173-173 | the K the executor asks for covers the page, ten pages and 200, and no more than the most of these |
| Paging.SearchShards | crates/router/src/router.rs:156-191 | an error if and only if every shard failed; otherwise the page of a sorting of what all answering shards sent, end to end, every hit of which is on the page or cut by it; up to the scatter limit it has the scores of one sort of all the answering shards hold |
| Paging.ClusterPageExact | crates/router/src/router.rs:133-191 | two levels of cutting still give the page of scores of one global sort, when it ends within the scatter limit |
| Base.GatherIs | crates/router/src/router.rs:156-184 | every answer is gathered whole, an error takes no place, and nothing else is there |
| Base.AnswersAre | crates/router/src/router.rs:156-184 | the answers are the results that are Ok, each once, in order |
| PostingCodec.EncodeVarint | crates/index/src/posting.rs:145-157 | the bytes of unsigned LEB128 (section 7.6 of DWARF Version 5) |
| PostingCodec.VarintBytes | crates/index/src/posting.rs:145-157 | byte i holds the i-th seven bits, low first, the high bit set on all but the last |
| PostingCodec.DecodeVarint | crates/index/src/posting.rs:159-172 | the denoted number cut to 64 bits and the position after it, or the failure cases |
| PostingCodec.VarintRoundTrip | crates/index/src/posting.rs:145-172 | decoding undoes encoding for every u64, taking exactly the bytes written whatever follows |
| PostingCodec.Encode | crates/index/src/posting.rs:100-117 | the loop writes counts, headers and delta-coded postings |
| PostingCodec.LayoutExample | crates/index/src/posting.rs:100-117 | the order of the fields and the byte order of headers, on examples |
| PostingCodec.Decode | crates/index/src/posting.rs:119-143 | the loop reads what the format denotes |
| PostingCodec.ListRoundTrip | crates/index/src/posting.rs:100-143 | decode after encode is the identity for non-decreasing documents, narrowing casts included |
| InvertedIndex.InvertedIndexWriter.AddTerm | crates/index/src/inverted.rs:20-29 | only that term's list changes, by one occurrence |
| InvertedIndex.InvertedIndexWriter.Write | crates/index/src/inverted.rs:34-62 | every term's list is stored framed at its offset with fitting blocks, in whatever order they are written |
| InvertedIndex.LookupReturnsOwn | crates/index/src/inverted.rs:90-125 | a lookup returns the term's own list and fitting headers, for every list whose encoding stays below 4 GiB |
| DocStore.DocStoreWriter.Write | crates/index/src/docstore.rs:27-52 | count, offset table, framed documents |
| DocStore.GetReturnsAdded | crates/index/src/docstore.rs:102-118 | entry i is the i-th document added, or nothing exactly when deleted or past the end |
| Columns.KeywordColumnWriter.Add | crates/index/src/column.rs:50-60 | the dictionary stays free of duplicates and the column decodes to the values added |
| Columns.KeywordColumnWriter.AddMissing | crates/index/src/column.rs:62-64 | a missing value decodes to none |
| Columns.NumericColumnWriter.Add | crates/index/src/column.rs:94-97 | the number reads back behind those before it |
| Columns.NumericColumnWriter.AddMissing | crates/index/src/column.rs:99-102 | a missing number reads back as none |
| Columns.FilterEq | crates/index/src/column.rs:146-159 | exactly the documents with the value |
| Columns.FilterIn | crates/index/src/column.rs:162-176 | exactly the documents with one of the values |
| Columns.FilterRange | crates/index/src/column.rs:179-196 | exactly the documents added with a number within the bounds |
| Columns.BuildFilterBitmap | crates/query/src/executor.rs:386-404 | exactly the live documents that pass every filter; none without filters |
| Columns.AggregateCounts | crates/index/src/column.rs:201-228 | counting ordinals is counting values: each value of a matching document once, with its naive count |
| Columns.TallyIs | crates/index/src/column.rs:201-228 | the naive count is of the values the matching documents have |
| Columns.CountsAddUp | crates/index/src/column.rs:201-228 | the counts add up to the matching documents that have a value |
| Columns.MergeCounts | crates/query/src/multi.rs:43-48 | summing segments is counting over their union |
| Columns.UnionIs | crates/query/src/multi.rs:43-48 | the union counts the values of all segments together |
| Suggest.SuggestIndex.Query | crates/suggest/src/index.rs:32-77 | terms with the prefix, best first, every other one scoring no more than the last of a full answer; empty prefix or limit gives nothing |
| Suggest.SuggestIndex.constructor | crates/suggest/src/index.rs:15-19 | the terms in lexicographic order, none lost |
| Suggest.BetweenHasPrefix | crates/suggest/src/index.rs:39-49 | prefix matches are contiguous |
| Suggest.LessIff | crates/suggest/src/index.rs:17-17 | the order decides at the first position where two terms differ |
| Suggest.RangeIsFilter | crates/suggest/src/index.rs:39-49 | the binary search and scan give exactly the filtered list |
| Suggest.MergeAnswers | crates/router/src/router.rs:454-481 | each term once with the highest score any answering shard gave it, best first and equal scores by term; every entry of every answering shard is there with at least its score or the answer is full of entries no worse; over distinct indexes, the scores of merging all matches |
| Suggest.SuggestFanoutExact | crates/router/src/router.rs:454-481 | the same score sequence as merging every shard's full matches |
| SuggestBuilder.SuggestIndexBuilder.AddDocument | crates/suggest/src/builder.rs:59-81 | the counts are, term by term, the number of field texts added that contain it |
| SuggestBuilder.SuggestIndexBuilder.Snapshot | crates/suggest/src/builder.rs:37-57 | each eligible term once, at most as many as asked for and none left out but for terms as frequent, in order, scored in [0, 1] in proportion to the counts with 1 for the highest |
| SuggestBuilder.SortDedup | crates/suggest/src/builder.rs:67-69 | the tokens of a text, each once |
| SuggestBuilder.Cut | crates/suggest/src/builder.rs:45-48 | a best selection by count when there are more than asked for |
| SuggestBuilder.CountsDocumentsIff | crates/suggest/src/builder.rs:59-81 | a count is at least the document frequency, and equal to it if and only if no document has the term in two fields |
| SuggestBuilder.FieldsCount | crates/suggest/src/builder.rs:108-119 | title, description and category are each counted by their own text |
| SuggestBuilder.OneDocumentCountsTwice | crates/suggest/src/builder.rs:59-81 | a term in title and description of the one document counts 2 |
| Suggest.PrefixDistinct | crates/suggest/src/index.rs:32-49 | the prefix matches of a built index are distinct |
| SuggestBuilder.BuiltFanoutExact | crates/router/src/router.rs:454-481 | over built indexes the merged answer has the score sequence of merging every match of every shard |
| Routing.JumpConsistentHash | crates/router/src/routing.rs:3-14 | terminates in the last bucket of the walk the draws of the key prescribe, within range |
| Routing.JumpReachesIff | crates/router/src/routing.rs:9-11 | the next draw takes a key at bucket b to n or past it if and only if n (r + 1) <= (b + 1) 2^31 |
| Routing.ShareThatMoves | crates/router/src/routing.rs:9-11 | of the 2^31 draws, and of the 2^64 keys, exactly the share (b + 1) / n, rounded down to whole draws, does |
| Routing.NextKeyInjective | crates/router/src/routing.rs:9-9 | the step on the key is one to one |
| Routing.EqualShares | crates/router/src/routing.rs:1-14 | with independent draws and before rounding, each of n buckets keeps the share 1 / n of the keys |
| Routing.JumpConsistent | crates/router/src/routing.rs:3-14 | from n to m buckets a key stays or moves to a new bucket; from n to n+1 only to bucket n |
| Routing.Partition | crates/router/src/router.rs:365-370 | each part is the batch's documents of that shard, in order |
| Routing.OfShardIs | crates/router/src/router.rs:365-370 | a part is the documents with that bucket, in the order of the batch |
| Routing.PartitionConserves | crates/router/src/router.rs:365-370 | the parts together are the batch |
| Routing.FetchFindsShard | crates/router/src/router.rs:531-545 | a document is asked for in the part it was put in |
| Wal.ReadRecords | crates/shard/src/wal.rs:70-93 | the loop reads up to the first record cut short or undecodable |
| Wal.ReadPrefix | crates/shard/src/wal.rs:70-93 | from any byte prefix of a well-formed log exactly the records wholly inside it |
| Wal.WriteAheadLog.constructor | crates/shard/src/wal.rs:28-42 | the file is kept, the next number is one past the last readable record |
| Wal.WriteAheadLog.AppendBatch | crates/shard/src/wal.rs:45-67 | the records follow, numbered consecutively, and the numbers are returned |
| Wal.WriteAheadLog.ReadAll | crates/shard/src/wal.rs:96-98 | all entries in order |
| Wal.WriteAheadLog.ReadSince | crates/shard/src/wal.rs:101-103 | exactly the suffix from the number asked for |
| Wal.WriteAheadLog.Truncate | crates/shard/src/wal.rs:111-125 | no records, the numbering goes on |
| Wal.ReopenIsValid | crates/shard/src/wal.rs:28-42 | a log of whole records reopens unchanged; its numbering does if and only if it had records or none was ever numbered |
| Wal.ReopenUsableIff | crates/shard/src/wal.rs:28-42 | the file of a reopened log is exactly its records if and only if the crash fell at a record boundary |
| Serialisers.SomeSerialiser | crates/shard/src/wal.rs:57-87 | some serialiser decodes every record it encodes, which is what the theorems about the log ask |
| TornLog.ReadLogThen | crates/shard/src/wal.rs:70-93 | reading goes through whole records and then reads what follows as if it stood alone |
| TornLog.WholeReadsBack | crates/shard/src/wal.rs:28-93 | behind whole records every appended batch is read back |
| TornLog.TornAppendLostIff | crates/shard/src/wal.rs:28-93 | behind a tear at any byte nothing more is read if and only if the length claimed there runs past the end or the bytes it takes in do not decode |
| TornLog.ClaimedIs | crates/shard/src/wal.rs:74-82 | the length the reader takes at the tear, mixed from the torn length and the next one |
| TornLog.TornAppendLost | crates/shard/src/wal.rs:28-93 | a record too short to fill the torn body, or to use the bytes left of a torn length, is never read back |
| TornLog.ReadsBackIff | crates/shard/src/wal.rs:28-93 | every batch is read back if and only if the tear is at a record boundary, as soon as some record is that short |
| TornLog.TornByteHidesAppend | crates/shard/src/wal.rs:28-42 | after one torn byte, whichever it is, the next appended record below 16 MiB is never read back |
| WriteBuffers.WriteBuffer.Add | crates/shard/src/write_buffer.rs:34-50 | buffered last; full exactly when the sizes reach the capacity |
| WriteBuffers.WriteBuffer.ReaderForSearch | crates/shard/src/write_buffer.rs:66-117 | whatever happened before, the cached segment shows exactly the unmarked documents |
| WriteBuffers.UnhiddenCounts | crates/shard/src/write_buffer.rs:92-97 | each unmarked document as often as buffered, marked ones never |
| WriteBuffers.SizeIs | crates/shard/src/write_buffer.rs:34-40 | the running size is that of titles, descriptions and categories, and 64 a document |
| WriteBuffers.WriteBuffer.Drain | crates/shard/src/write_buffer.rs:130-139 | hands out everything, marked or not, and starts over |
| SegmentStore.SegmentList.constructor | crates/shard/src/segment_list.rs:31-82 | the readable directories in order, the map of their live documents, numbering past every directory |
| SegmentStore.SegmentList.AddSegment | crates/shard/src/segment_list.rs:92-102 | list and map gain exactly the segment's live documents |
| SegmentStore.SegmentList.ReplaceSegments | crates/shard/src/segment_list.rs:105-119 | the old segments and their locations go, the new one's come |
| SegmentStore.SegmentList.MarkDeleted | crates/shard/src/segment_list.rs:127-138 | the slot joins the bitmap on disk, nothing else there changes, the map loses the id, the reader is unchanged |
| SegmentStore.SegmentList.Get | crates/shard/src/segment_list.rs:141-145 | the lookup through map, segment and slot |
| SegmentLists.GetDocIsTrue | crates/shard/src/segment_list.rs:141-145 | under a truthful map it succeeds exactly on mapped ids, with a visible document of that id |
| SegmentLists.AddKeepsTrue | crates/shard/src/segment_list.rs:92-102 | adding keeps the map truthful |
| SegmentLists.ReplaceKeepsTrue | crates/shard/src/segment_list.rs:105-119 | replacing by a segment that shows the same documents keeps the map truthful |
| SegmentLists.DeleteKeepsTrue | crates/shard/src/segment_list.rs:127-138 | deleting keeps the map truthful |
| SegmentLists.MergedInherits | crates/shard/src/merge.rs:59-91 | the merged segment shows every document its sources show |
| SegmentLists.ReplaceConserves | crates/shard/src/merge.rs:59-91 | the multiset of visible documents is unchanged by the swap |
| MergePolicy.FindMerges | crates/shard/src/merge.rs:23-47 | no group below three segments, otherwise the one group of up to ten that `Picked` determines from the list |
| MergePolicy.PickedIsSmallest | crates/shard/src/merge.rs:27-40 | that group is ten distinct listed segments, or all of them, each smaller than every one left out or as small and listed before it |
| MergePolicy.LastPickedIff | crates/shard/src/merge.rs:27-40 | the last segment of a list is picked if and only if fewer than ten others are no larger; if not, the group is that of the list without it |
| MergePolicy.CollectLive | crates/shard/src/merge.rs:67-76 | the live documents of the group, segment by segment |
| ShardRuns.NoAckedWriteLost | crates/shard/src/shard.rs:41-384 | over every run with crashes anywhere, an acknowledged document never asked to be deleted is in the log or a complete segment, and a ready engine finds its id |
| ShardUpdates.NoUpdateLost | crates/shard/src/shard.rs:41-384 | over every run with crashes anywhere, a document acknowledged since the last request to delete its id is in the log or live in a complete segment, and a ready engine finds its id |
| ShardUpdates.StepStands | crates/shard/src/shard.rs:41-384 | every step keeps where such documents are: a logged delete can mark one only while the log still holds the document too |
| ShardUpdates.NeverDeleted | crates/shard/src/shard.rs:153-171 | for an id never asked to be deleted those are all acknowledged documents |
| ShardRuns.RunKeepsInv | crates/shard/src/shard.rs:41-384 | every run keeps the storage invariant |
| ShardRuns.StepKeepsInv | crates/shard/src/shard.rs:41-384 | every single step keeps it |
| ShardRuns.SegmentIdsNeverReused | crates/shard/src/segment_list.rs:48-89 | the ids a run creates directories under strictly rise |
| ShardRuns.MapStaysTruthful | crates/shard/src/segment_list.rs:31-145 | in every run each map entry names a listed segment and a live slot of that id, and every visible, never-deleted id is mapped |
| ShardRuns.SwapConserves | crates/shard/src/shard.rs:297-301 | the swap of a merge or reindex leaves the visible multiset unchanged |
| ShardRuns.DeleteHidesIff | crates/shard/src/shard.rs:190-209 | after a delete the id is not found if and only if it is not buffered |
| ShardDeletes.DeleteMarksDisk | crates/shard/src/segment_list.rs:127-138 | a delete marks the mapped slot on disk, and the live documents on disk are those before without the one served |
| ShardDeletes.StepKeepsMapLive | crates/shard/src/segment_list.rs:31-145 | every step keeps what the map points at unmarked on disk |
| ShardDeletes.DeleteSearchesIff | crates/shard/src/shard.rs:153-187 | after a delete searches no longer show the id if and only if no open segment does |
| ShardDeletes.RecoveredFindsIff | crates/shard/src/shard.rs:41-63 | after crash, reopening and replay an id is found if and only if the log holds a document of it, or no delete of it and a complete directory a live one |
| ShardDeletes.RecoveredShowsIff | crates/shard/src/shard.rs:41-63 | searches then show exactly the live documents of complete directories and the logged ones no delete of which is logged |
| ShardDeletes.DeleteOutlivesCrash | crates/shard/src/shard.rs:153-171 | right after a delete, recovery does not find the id if and only if it was not buffered |
| ShardDeletes.DeleteLeavesGoneIff | crates/shard/src/shard.rs:153-171 | a delete leaves nothing of the id if and only if it was not buffered and the disk held no other live document of it |
| ShardDeletes.StepKeepsGoneIff | crates/shard/src/shard.rs:41-384 | a step keeps a gone id gone if and only if it does not index it, start rewriting it, or strip the bitmap from a directory that holds it |
| ShardDeletes.DeletedStaysGone | crates/shard/src/shard.rs:41-384 | over every run with crashes anywhere, a gone id is never found until such a step |
| ShardRuns.IndexServesNewIff | crates/shard/src/shard.rs:106-118 | after indexing without a flush, the new version is served if and only if nothing, or it itself, was served before |
| Serving.AddedServes | crates/shard/src/segment_list.rs:92-102 | a flushed segment serves each id it holds with its last document of that id, other ids as before |
| Serving.MergedServes | crates/shard/src/segment_list.rs:105-119 | a merge serves each id the group shows with the last document it shows, other ids as before |
| Serving.CapacityServesIff | crates/shard/src/shard.rs:106-123 | after indexing with a flush the new version is served if and only if, in the state before the call, fewer than ten segments are no larger than the one to be flushed, or the ten picked show no document of that id, or this one last |
| ShardRuns.MergeHonoursDeletesIff | crates/shard/src/merge.rs:67-76 | a merge respects the bitmaps on disk if and only if no segment of its group was marked since it was opened |
| ShardRuns.SwapRevivesIff | crates/shard/src/segment_list.rs:105-119 | the swap maps an unmapped id again if and only if a rewritten document carries it |
| ShardRuns.CrashBeforeTruncateDoubles | crates/shard/src/shard.rs:248-251 | a crash before the reader is installed leaves each flushed document in segment and log |
| Recovery.RecoveryHolds | crates/shard/src/shard.rs:41-63 | crash, reopening in any order and replay hold exactly the live documents of the complete directories and the log |
| Recovery.CrashConservesIff | crates/shard/src/shard.rs:41-384 | in every running state recovery loses nothing that the bitmaps leave alive, and conserves it if and only if no unlisted complete directory holds live documents and, once a flushed segment is listed, the log is truncated |
| Recovery.CrashConservesAllIff | crates/shard/src/shard.rs:41-384 | where no reader lags behind its bitmap, the same of everything the engine held |
| CrashPoints.FlushCrashConservesIff | crates/shard/src/shard.rs:224-257 | over the five steps of a flush: what was held live is conserved if and only if the segment is not yet complete or the log already truncated |
| CrashPoints.MergeCrashConservesIff | crates/shard/src/shard.rs:280-310 | over the steps of a merge: conserved if and only if the new segment is not yet complete, or no reader of the group lags and no remaining old directory shows a document |
| ShardExamples.DeletedStillServed | crates/shard/src/shard.rs:190-209 | a run on which a deleted document is served |
| ShardExamples.DeleteOutlivesRestart | crates/shard/src/segment_list.rs:134-136 | a run on which a deleted document stays deleted though the log was emptied and the process crashed |
| ShardExamples.FlushShowsDeleted | crates/shard/src/shard.rs:224-228 | a run on which a flush shows a deleted document again |
| ShardExamples.ReindexRevivesDeleted | crates/shard/src/shard.rs:314-367 | a run on which a reindex serves a deleted document again |
| ShardExamples.OldVersionServed | crates/shard/src/shard.rs:190-209 | a run on which the old version is served |
| ShardCapacity.OldVersionAtCapacity | crates/shard/src/shard.rs:106-123 | a run to ten segments on which a call that fills the buffer leaves the old version served |
| ShardExamples.CrashDoublesFlushed | crates/shard/src/shard.rs:239-257 | a run on which a crash doubles the one document |
| ShardSafety.InstallFlushKeeps | crates/shard/src/shard.rs:248-251 | installing a flushed segment keeps the invariant and readies the log for truncation |
| ShardSafety.InstallMergeKeeps | crates/shard/src/shard.rs:297-301 | the swap keeps the invariant; the directories to remove are no longer open |
| ShardSafety.TruncateKeeps | crates/shard/src/shard.rs:253-257 | truncation forgets nothing that is not in an open segment |
| ShardSafety.SpoilKeeps | crates/shard/src/shard.rs:303-307 | a directory half removed by a crash endangers nothing |
| ShardSafety.ReopenKeeps | crates/shard/src/shard.rs:41-63 | reopening in any directory order restores the invariant |
| ShardSafety.ReplayKeeps | crates/shard/src/shard.rs:52-63 | so does each replayed entry, and a crash during replay is harmless |
| Shard.ShardEngine.Open | crates/shard/src/shard.rs:41-103 | opening a crashed shard reaches the state of a reopen and a full replay |
| Shard.OpenEmpty | crates/shard/src/shard.rs:41-103 | an engine opens over an empty data directory |
| Shard.ShardEngine.IndexBatch | crates/shard/src/shard.rs:126-150 | the batch is acknowledged, the contents grow by exactly it; below capacity it is only buffered, at capacity the list is the flushed one after the policy had its turn |
| Shard.ShardEngine.Index | crates/shard/src/shard.rs:106-123 | one document acknowledged and held; below capacity exactly when it is served and exactly when searches gain it, at capacity the flush and exactly when it is served |
| Shard.ShardEngine.Delete | crates/shard/src/shard.rs:153-171 | the delete is logged; the slot is in the bitmap on disk and of the live documents there exactly the one served is gone; a lookup then finds the id if and only if it is buffered, and searches lose its buffered documents only |
| Shard.ShardEngine.Flush | crates/shard/src/shard.rs:224-261 | the buffer moves to a segment, the log is emptied, the list is the flushed one after the policy had its turn, and the contents are the same multiset |
| Shard.ShardEngine.MaybeMerge | crates/shard/src/shard.rs:263-278 | below three segments nothing happens; otherwise the list is the one with the picked group rewritten as one segment, and what is visible stays the same multiset |
| Swaps.MergedCount | crates/shard/src/shard.rs:297-301 | a merge replaces as many segments as it names by one |
| Shard.ShardEngine.RunMerge | crates/shard/src/shard.rs:280-310 | for any group of listed segments: the list with the group rewritten as one new segment, the group's directories gone, the same visible multiset |
| Shard.ShardEngine.ReindexSelf | crates/shard/src/shard.rs:314-384 | one segment with the same contents, counted, and an empty log |
| Shard.ShardEngine.GetDocs | crates/shard/src/shard.rs:190-209 | the answer per id, and every id is answered under which a document was acknowledged since the last request to delete it |
| SegmentLists.LiveInOrder | crates/shard/src/merge.rs:67-76 | a reader hands out its live documents, each once, in slot order |
| Shard.ShardEngine.ReadersForSearch | crates/shard/src/shard.rs:174-184 | a search is handed exactly the visible segment documents and the unmarked buffered ones |
| ShardSteps.QuietlyKeeps | crates/shard/src/shard.rs:224-384 | flush, merge and reindex change neither what is acknowledged nor what was asked to be deleted |
| Swaps.FlushKeepsSearchesIff | crates/shard/src/shard.rs:225-228 | a flush keeps what searches see if and only if no buffered document is marked |

## Left out

- gRPC, HTTP, the async runtime, timeouts, metrics, configuration and the admin pages.
- The FST, Levenshtein automata, roaring bitmaps, bincode, stemming and Unicode segmentation: a finite map, sets, a serialiser with its inverse as hypothesis, and token sequences stand for them; lower-casing is a parameter.
- The executor's re-scoring closure with typo tolerance and the title-position boost, and what the OR fallback finds: its hits are a parameter of the search, and the scoring function is a parameter of the WAND theorem. The closure takes its idf from the exact term, not from the summed frequency in the block bound, so it need not meet the theorem's hypothesis; what holds for it is what is proved for any positive score.
- NaN and other special values in numeric columns: the columns hold reals.
- f32 rounding: scores and impacts are reals, and a stored header is an arbitrary 32-bit image of one. The heap's order by bit pattern is the numeric order because scores are positive.
- The natural logarithm is a parameter that is strictly increasing with value 0 at 1.
- The `f64` quotient of the jump hash is an exact floor, which it equals for bucket counts up to 2^21.
- Document number `u32::MAX`: the loop computes the next document number, so valid lists stop one short of it.
- Posting lists and documents are values, so sharing of buffers between readers is not captured.
- Ties: where scores are equal the order of documents and terms is not fixed, as the source's unstable sorts do not fix it. The merge policy's sort is stable, and its ties are modelled.
- The replica side (`apply_replicated`, catch-up) and the replication queue: a failed call drops an entry, so convergence is not kept.
- Concurrent writers during a flush, and continuing after an I/O error: operations are sequential and either complete, or end in a crash.
- Re-ranking, availability strategies, the query cache, the circuit breaker and target choice.
- A term in more than `u32::MAX` texts: the suggest builder's counter would wrap. Its analyser is a parameter.
- The router's sums of totals and of aggregation counts, which repeat those over segments.
- Segment names are numbers; the reopening order, which the source takes from sorted names, is arbitrary.
- Frames of 4 GiB and more: the length is cut to a `u32`, so the file theorems ask for encoded sizes below that.
- More than `u32::MAX` distinct values in one keyword column, and as many documents in one segment: the casts to `u32` would wrap.
- Aggregations count the documents the retrieval kept, as in the source, which may be fewer than all that match.
- TornLog.TornByteHidesAppend: covers one torn byte and records below 16 MiB; `TornLog.TornAppendLostIff` covers every tear, up to whether the serialiser accepts the bytes taken in.
- Wal.ReopenUsableIff: speaks of the object's invariant; that appends are read back is `TornLog.ReadsBackIff`, whose other direction needs a record short enough to be swallowed, since a longer one may end up in bytes that the serialiser accepts.
- ShardRuns.CrashBeforeTruncateDoubles: covers the state before the reader is installed; `CrashPoints.FlushCrashConservesIff` covers every step.
- ShardRuns.IndexServesNewIff: covers calls that do not flush; `Shard.ShardEngine.Index` covers both.
