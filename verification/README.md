# A verified model of the IVF fraud-detection index

The repository finds the nearest labelled transactions of a query with an inverted-file index. An offline builder
clusters the references, quantizes them to int8 and writes one file; an online searcher ranks the centroids, scans
the nearest clusters and keeps the k best vectors in a binary heap; a diagnostic program repeats the search, scans
everything by brute force and explains mismatches; a lock-free histogram records latencies. This project models
those four parts in Dafny and proves what connects them.

| file | part |
|---|---|
| `Ordering.dfy` | sorted sequences, permutations, the library sorts (their contracts leave ties open) |
| `TopK.dfy` | what a k-nearest scan must return, and its reference: sort everything, take the first k |
| `Heap.dfy` | the max-heap and the candidate buffer that becomes one when it fills up |
| `Vectors.dfy`, `Quantization.dfy` | 14-component vectors, int8 codes, the quantization error |
| `Bytes.dfy`, `IndexFormat.dfy`, `IndexLoader.dfy`, `IndexLayout.dfy` | little-endian records, the writer, the loader, the round trip, the layout byte by byte |
| `IvfSearch.dfy`, `ScanFacts.dfy` | the searcher, and which vectors a scan meets |
| `Builder.dfy`, `Pipeline.dfy`, `SearchTheorems.dfy`, `EndToEnd.dfy` | assignment, the chain build-write-load-search, its theorems, and the answer in terms of the records |
| `KMeans.dfy` | Lloyd's algorithm and its descent |
| `Unwrapper.dfy`, `UnwrapRoundTrip.dfy` | the streaming JSON array adapter |
| `Diagnostics.dfy`, `DiagnosticTheorems.dfy` | the mismatch classifier |
| `Timing.dfy`, `Reporting.dfy` | the latency histogram under interleaving, and the report read while recorders run |

Conventions of the model:

- 32-bit and 64-bit floats are exact real numbers. Inside the file a centroid component is its 32 bits, and the map
  `value` from bits to reals is a parameter: everything holds for every such map.
- A candidate carries its distance as a real number and its position in the index. The int8 distance is an integer
  computed in 32-bit arithmetic (`DistInt8`) and then stored as a real, so that the int8 heap and the brute-force
  buffer share one theory; the production search drops the position, the diagnostic search keeps it.
- `k`, the effective probe count and the number of centroids are at least 1 where the program would panic otherwise.
- A search requires the sections and the cluster ranges to lie inside the file, where the program would panic or read
  past the end; every built file meets this (`BuiltFileIsSearchable`).
- 64-bit counters, `usize` offsets and the 32-bit nesting depth wrap as in a release build.
- The unstable library sorts are methods whose contracts fix a permutation and an order and nothing about ties.

Where the code and its comments differ, the model follows the code:

- `quantize_scalar` rounds half away from zero; the comments at `rust-api/src/bin/buildindex.rs:33` and `:535` say it
  truncates.
- The classifier's own `quantize` truncates although it is said to replicate the searcher; `QuantizersAgree` gives the
  exact components on which the two agree.
- The unwrapper counts brackets inside strings; `UnwrapIsFaithful` gives the exact element lists it handles, and
  `BracketsInStringsAreCounted` an array whose one string it changes.
- The classifier looks up reference-file numbers among stored positions; `NumberingsAgreeIffSorted` says exactly when
  that names the right clusters, and `NumberingsCanDisagree` gives two references for which it does not.
- The loader's size check wraps for absurd declared sizes; `LoadedSectionsFit` says exactly when it means what it says,
  and `WrappedSizeIsAccepted` gives a 40-byte file that passes it and holds nothing it declares.
- `nearest_centroid` starts from the largest 32-bit float, so a centroid beyond it is never chosen;
  `NearestIsFirstMinimiser` says exactly when the choice is a true minimiser, `SentinelCanWin` gives two centroids for
  which it is not, and `InertiaCanRise` a sample on which an iteration of k-means then makes things worse.
- The reported percentiles round the rank down: `ReportedPercentile` compares each label with the nearest-rank
  percentile and says exactly when it is right; `LowMedianIsReported` and `LowTailIsReported` give samples for which it
  is not.
- A report reads the buckets once for p50 and again for p99 while recorders run: `ReportIsOrdered` says how many samples
  may finish in between for p50 not to come after p99, and `ReportCanInvert` that one more is too many.

## Model

| member | source | states |
|---|---|---|
| Heap.SiftDownMax | rust-api/src/search.rs:212-230 | terminates; if only the start node may violate the heap order of the slice, the order is restored from that node down, with the same elements and nothing else touched |
| Heap.HeapifyMax | rust-api/src/search.rs:205-210 | any slice of any length becomes a max-heap with the same elements |
| Heap.RootIsLargest | rust-api/src/search.rs:144-146 | the root of a max-heap is at least as far as every node |
| Heap.CandidateBuffer.Offer | rust-api/src/search.rs:139-147 | one scan step keeps the buffer a k-nearest choice of everything scanned, and a heap from the moment it holds k; a full buffer changes only for a strictly nearer candidate, which replaces a farthest one |
| TopK.KNearestIsSortedPrefix | rust-api/src/search.rs:127-149 | a choice is k-nearest exactly when its sorted distances are the first k of all sorted distances |
| TopK.KNearestDistsAgree | rust-api/src/search.rs:139-147 | two k-nearest choices of one stream have the same distances, however ties fall |
| TopK.SeparatedIsUnique | rust-api/src/search.rs:139-147 | k candidates strictly nearer than all the others are the only k-nearest choice |
| TopK.UniqueIffGap | rust-api/src/search.rs:139-147 | over different candidates the k-nearest choice is unique exactly when the k-th and (k+1)-th distances differ |
| TopK.MoreCandidatesAreNoWorse | rust-api/src/search.rs:118-149 | scanning more never raises a sorted kept distance, position by position |
| TopK.FraudCountIsSize | rust-api/src/bin/classify_mismatches.rs:272 | the count is the number of positions that hold a fraud |
| Quantization.QuantizersMeaning | rust-api/src/bin/classify_mismatches.rs:475-481 | for every component: the production code is the integer nearest to the scaled component kept within 127, halves away from zero; the truncating code the farthest integer not beyond it |
| Quantization.QuantizersAgree | rust-api/src/bin/classify_mismatches.rs:475-481 | the truncating copy equals the production quantizer exactly when the scaled component saturates or its fractional part is below one half |
| Quantization.QuantizersDiffer | rust-api/src/bin/buildindex.rs:595-599 | at 0.5 production gives 64 and the copy 63; at -0.5, -64 and -63 |
| Quantization.QuantizeError | rust-api/src/search.rs:184-193 | in [-1, 1] the code is within one half of 127 times the component |
| Quantization.DistInt8 | rust-api/src/search.rs:196-203 | the 32-bit loop computes the sum of squared differences without overflow, for any stored bytes |
| Quantization.QuantizationError | rust-api/src/bin/buildindex.rs:540-558 | the int8 distance is within 254 L1 + 14, at most 7126, of 16129 times the real squared distance |
| Quantization.MixedQuantizationError | rust-api/src/bin/classify_mismatches.rs:475-493 | with rounded stored codes and a truncated query the error is within 381 L1 + 31.5, at most 10699.5 |
| Quantization.GapSurvivesQuantization | rust-api/src/search.rs:184-203 | for any query codes within e of 127 times the components, a real gap above twice the error bound keeps its order on codes |
| IndexFormat.ClusterOffsets | rust-api/src/bin/buildindex.rs:452-458 | the accumulation loop fills in where each cluster starts in the concatenation, and the total |
| IndexFormat.WriteEntries | rust-api/src/bin/buildindex.rs:468-482 | the nested loops write the records of the concatenated clusters in order |
| IndexFormat.WriteIndex | rust-api/src/bin/buildindex.rs:422-484 | the writer produces the five sections of the layout |
| IndexLoader.LoadedSectionsFit | rust-api/src/search.rs:52-64 | after a successful load the sections lie in the file exactly when the declared sizes do not overflow |
| IndexLoader.WrappedSizeIsAccepted | rust-api/src/search.rs:52-64 | a 40-byte file declaring 0x1111111111111111 vectors loads, and its sections do not fit |
| IndexLoader.LoadsIffInFormat | rust-api/src/search.rs:31-64 | a file loads with all sections inside exactly when magic, version and dimensions are right and it has room for everything it declares |
| IndexLoader.OffsetsAligned | rust-api/src/search.rs:85-90 | the 64-bit offsets start at a multiple of 8 for every number of centroids |
| IndexLoader.LoadIvfIndex | rust-api/src/bin/classify_mismatches.rs:117-199 | the diagnostic loader has the same checks and errors and decodes exactly the sections the searcher reads |
| IndexLoader.WrittenSections | rust-api/src/bin/buildindex.rs:433-484 | the sections of a written file tile it exactly |
| IndexLoader.WrittenFileLoads | rust-api/src/search.rs:27-76 | every written file loads, for every probe setting |
| IndexLoader.TruncatedFileIsRejected | rust-api/src/search.rs:31-64 | a written file cut short anywhere is rejected |
| IndexLoader.WriteThenLoad | rust-api/src/search.rs:31-76 | decoding a loaded written file gives back header, centroids, offsets, vectors and labels |
| IndexLayout.LoadMeaning | rust-api/src/search.rs:27-76 | from the bytes: which files load ("IVFX", version 1, 14 dimensions, the sizes declared little-endian at 8 and 16), with which counts and probe setting, and the error of each that does not |
| IndexLayout.DecodeMeaning | rust-api/src/search.rs:80-97 | where every centroid word, offset, signed component and label of an opened file stands |
| IndexLayout.WrittenBytes | rust-api/src/bin/buildindex.rs:433-484 | length, fixed header bytes and label bytes of a written file |
| IvfSearch.PickProbes | rust-api/src/search.rs:118-125 | selection and prefix sort list the nearest centroids in order, none left out being nearer |
| IvfSearch.ScanRange | rust-api/src/search.rs:134-148 | the inner loop keeps the scan state over one range of vectors |
| IvfSearch.ScanProbes | rust-api/src/search.rs:127-149 | the nested loops keep the k nearest of the probed clusters |
| IvfSearch.Search | rust-api/src/search.rs:78-156 | the search probes the nearest centroids and returns the labels of a k-nearest choice of what they hold |
| ScanFacts.OwnerExists | rust-api/src/bin/classify_mismatches.rs:424-433 | every stored vector lies in some cluster's range |
| ScanFacts.InScan | rust-api/src/search.rs:129-137 | a scan meets exactly the vectors of probed clusters |
| ScanFacts.ScanIsDistinct | rust-api/src/search.rs:129-137 | a scan meets no vector twice |
| ScanFacts.FullScan | rust-api/src/search.rs:99-149 | probing every cluster meets every vector once |
| Builder.NearestCentroid | rust-api/src/bin/buildindex.rs:511-522 | the loop keeps the best centroid so far under the sentinel |
| Builder.NearestIsFirstMinimiser | rust-api/src/bin/buildindex.rs:511-522 | the result is the first true minimiser exactly when some distance is below the sentinel or centroid 0 is nearest |
| Builder.SentinelCanWin | rust-api/src/bin/buildindex.rs:511-522 | with both centroids beyond the sentinel the first is returned although the second is nearer |
| Builder.SentinelNeverWins | rust-api/src/bin/buildindex.rs:511-522 | components in [-1, 1] give distances of at most 56, so the first true minimiser is returned |
| Builder.AcceptedMeaning | rust-api/src/bin/buildindex.rs:391-407 | the accepted entries are, in file order, the records with at least 14 components: the first 14, their codes, and fraud exactly when the label text is "fraud" |
| Builder.AssignAll | rust-api/src/bin/buildindex.rs:383-416 | every cluster grows by the accepted references nearest to it, in file order; the total counts them |
| Builder.PositionsMeaning | rust-api/src/bin/buildindex.rs:401-407 | a cluster holds, in file order, exactly the references whose nearest centroid is its own |
| Builder.BuildConserves | rust-api/src/bin/buildindex.rs:391-413 | the stored entries are the accepted references, each exactly once, by an explicit permutation |
| Pipeline.BuildIndex | rust-api/src/bin/buildindex.rs:61-78 | pass 2 of main writes the file of the built clusters |
| Pipeline.WrittenIsPartitioned | rust-api/src/bin/buildindex.rs:449-465 | the offsets are non-decreasing prefix sums from 0 to the number of vectors |
| Pipeline.OwnerIsNearest | rust-api/src/bin/buildindex.rs:401-407 | a stored position lies in a cluster's range exactly when its reference is nearest to that centroid |
| Pipeline.BuiltFileIsSearchable | rust-api/src/search.rs:27-76 | a built file opens and every search of it indexes in bounds |
| Pipeline.EndToEndExact | rust-api/src/search.rs:78-156 | build, write, load and search with all clusters probed: under reference numbers the answer is a k-nearest choice of all accepted references with their own labels, its sorted distances the k smallest |
| EndToEnd.MetReferences | rust-api/src/search.rs:127-137 | under reference numbers a scan of a built file meets exactly the references whose nearest centroid is probed |
| EndToEnd.AnswerIsRecords | rust-api/src/search.rs:118-149 | a k-nearest choice of the scan names different records of the probed clusters, none left out being nearer by int8 distance, and a kept label is fraud exactly when the record's text is "fraud" |
| EndToEnd.BuildThenSearch | rust-api/src/search.rs:78-156 | one program calling builder, loader and searcher, for any probe count: it probes the nearest centroids and returns the labels that the k nearest records of their clusters carry in their text; with all clusters probed, of all records |
| SearchTheorems.AcceptedCodes | rust-api/src/bin/buildindex.rs:398-406 | every accepted reference is stored with the production codes of its own components |
| SearchTheorems.ProductionSearchFinds | rust-api/src/search.rs:78-156 | for any probe count: if k references are nearer than the rest by more than 14252/16129 and their nearest centroids are probed, the search returns exactly those and their fraud count |
| SearchTheorems.RankingPreserved | rust-api/src/search.rs:184-203 | if k references are nearer than the rest by more than 14252/16129, a full-probe search returns exactly those and their fraud count |
| SearchTheorems.SelfRetrieval | rust-api/src/search.rs:101-149 | searching for a stored reference with a unique nearest centroid (below the sentinel) scans it and returns a candidate at distance 0, for any probe count of at least 1 |
| SearchTheorems.ProbesAreNested | rust-api/src/search.rs:118-132 | with a strict cut, more probes contain the fewer probes |
| SearchTheorems.DistinctDistancesCutStrictly | rust-api/src/search.rs:118-125 | different centroid distances give a strict cut at every probe count |
| SearchTheorems.ProbeMonotonicity | rust-api/src/search.rs:118-149 | with a strict cut, raising the probe count loses no scanned vector and raises no sorted distance |
| KMeans.Recompute | rust-api/src/bin/buildindex.rs:351-372 | sums, counts and means update each centroid to the mean of its samples, or leave it when it has none |
| KMeans.RunKMeans | rust-api/src/bin/buildindex.rs:326-377 | the program computes the iterates of Lloyd's step from the Forgy start, for every shuffle |
| KMeans.IterationsAreLloyd | rust-api/src/bin/buildindex.rs:338-374 | a run starts at the chosen samples; for every n, iteration n + 1 ends at a list that no list of centroids undercuts for the assignment to the nearest centroids before it, and leaves centroids without samples in place |
| KMeans.KMeansStaysInBox | rust-api/src/bin/buildindex.rs:338-371 | from the Forgy start no centroid of any iteration leaves, in any coordinate, the bounds the samples keep in that coordinate |
| KMeans.MeansAreOptimal | rust-api/src/bin/buildindex.rs:362-372 | for the assignment in hand, no list of centroids costs less than the recomputed one |
| KMeans.AssignmentIsOptimalIffServed | rust-api/src/bin/buildindex.rs:345-348 | the computed assignment attains the inertia exactly when every sample has a centroid below the sentinel or a nearest one that comes first |
| KMeans.LloydDescends | rust-api/src/bin/buildindex.rs:345-374 | under that condition one iteration never raises the inertia |
| KMeans.KMeansDescends | rust-api/src/bin/buildindex.rs:345-377 | from any start with inertia below the sentinel, over whole runs, more iterations never raise the inertia, so the result is no worse than the start |
| KMeans.BoxedRunDescends | rust-api/src/bin/buildindex.rs:345-377 | the same for any number of samples in a box whose squared diagonal is below the sentinel |
| KMeans.NormalizedRun | rust-api/src/bin/buildindex.rs:326-377 | with components in [-1, 1] all centroids of all iterations stay there, every assignment is to the first nearest centroid, and the inertia never rises |
| KMeans.InertiaCanRise | rust-api/src/bin/buildindex.rs:345-372 | four far points and a Forgy start from which one iteration raises the inertia |
| Unwrapper.RunConcat | rust-api/src/bin/buildindex.rs:233-272 | one pass over an input equals passes over its two halves |
| Unwrapper.ChunkingIndependence | rust-api/src/bin/buildindex.rs:215-280 | the transducer's output depends only on the concatenation of the chunks |
| Unwrapper.JsonArrayUnwrapper.CompactChunk | rust-api/src/bin/buildindex.rs:231-272 | the in-place loop never overwrites an unread byte and leaves the transducer's output for the chunk |
| Unwrapper.JsonArrayUnwrapper.Read | rust-api/src/bin/buildindex.rs:215-280 | for any inner read sizes and failures a read delivers the transducer's output for the bytes consumed, terminates, and returns 0 into a non-empty buffer only when finished |
| Unwrapper.ReadToEnd | rust-api/src/bin/buildindex.rs:214-281 | for any caller buffer sizes and any inner schedule the concatenated output is one pass over the whole input |
| UnwrapRoundTrip.UnwrapIsFaithful | rust-api/src/bin/buildindex.rs:179-190 | an array becomes its elements joined by spaces exactly when every element closes its brackets and has no comma or closing bracket outside them |
| UnwrapRoundTrip.BracketsInStringsAreCounted | rust-api/src/bin/buildindex.rs:246-266 | the array of the one object `{"a":"},"}` comes out as the object with the comma inside its string turned into a space |
| UnwrapRoundTrip.UnwrapArray | rust-api/src/bin/buildindex.rs:236-261 | bytes before the first bracket and after the matching one do not matter |
| UnwrapRoundTrip.UnwrapThenSplit | rust-api/src/bin/buildindex.rs:185-190 | on the bytes of JSON (sections 2 and 5 of RFC 8259): balanced objects and arrays joined by 44 inside 91 and 93 come out joined by 32, and splitting at top-level spaces gives the elements back |
| UnwrapRoundTrip.ReferenceLineIsBalanced | rust-api/src/bin/buildindex.rs:182 | every object with one array in it and no other brackets is such an element |
| UnwrapRoundTrip.TwoReferenceLines | rust-api/src/bin/buildindex.rs:179-190 | the output for an array of two reference lines, as text |
| Diagnostics.DiagnosticSearch | rust-api/src/bin/classify_mismatches.rs:217-280 | for any quantizer: a search result with 3 probes and 5 neighbours, the exact list of scanned positions, and the number of frauds returned |
| Diagnostics.Consider | rust-api/src/bin/classify_mismatches.rs:301-310 | one reference keeps the buffer a five-nearest choice, farthest first once full; a full buffer changes only for a strictly nearer reference |
| Diagnostics.BruteForce | rust-api/src/bin/classify_mismatches.rs:287-316 | five different references with their own distances and labels, none left out being nearer, nearest first |
| Diagnostics.TwoTopKAgree | rust-api/src/bin/classify_mismatches.rs:255-310 | heap and buffer keep the same distances, and the same candidates and fraud count when the fifth and sixth distances differ |
| Diagnostics.FindCluster | rust-api/src/bin/classify_mismatches.rs:424-433 | returns the first cluster whose range holds the index; the panic means there is none |
| Diagnostics.OwnerIffStored | rust-api/src/bin/classify_mismatches.rs:424-433 | in a partitioned index the owner exists exactly for stored positions and is unique, empty clusters included |
| Diagnostics.ClusterRank | rust-api/src/bin/classify_mismatches.rs:404-422 | the rank is one more than the owner's position in a full ranking of the centroids |
| DiagnosticTheorems.RankMeaning | rust-api/src/bin/classify_mismatches.rs:450-451 | a rank is at most the probe count exactly when the position was scanned |
| DiagnosticTheorems.WrongCountMeansProbeMiss | rust-api/src/bin/classify_mismatches.rs:594-633 | when the k nearest stand strictly apart, a wrong fraud count means some true neighbour's cluster was not probed |
| DiagnosticTheorems.ClassifyMeaning | rust-api/src/bin/classify_mismatches.rs:606-659 | the exact condition of each verdict: the vectors are blamed when at least three frauds among the true neighbours meet an expected approval or fewer meet an expected refusal; otherwise a missed neighbour, a different number of frauds, or neither |
| DiagnosticTheorems.ClassifyMismatch | rust-api/src/bin/classify_mismatches.rs:583-659 | search, brute force and decision as one program, the verdict stated from what the two of them return |
| DiagnosticTheorems.ProbeMissMeansFarRank | rust-api/src/bin/classify_mismatches.rs:606-632 | a probe miss is reported exactly when the true neighbours give the expected answer and one of them ranks beyond the probes |
| DiagnosticTheorems.TieFlipMeansNotSeparated | rust-api/src/bin/classify_mismatches.rs:633-653 | a tie flip is never reported when the true neighbours are strictly nearest by int8 distance |
| DiagnosticTheorems.SearchMatchesBruteForce | rust-api/src/search.rs:78-156 | with five references nearer than the rest by more than 14252/16129 and their nearest centroids probed, the production search and a brute-force scan over reals report the same fraud count |
| DiagnosticTheorems.DiagnosticMatchesBruteForce | rust-api/src/bin/classify_mismatches.rs:583-633 | the truncating search with at most three probes: with a gap above 21399/16129 and the nearest centroids probed it finds exactly those five, reports the fraud count of brute force, and the verdict is not a tie flip |
| DiagnosticTheorems.NumberingsAgreeIffSorted | rust-api/src/bin/classify_mismatches.rs:594-599 | reading reference numbers as stored positions names the right clusters exactly when the file comes sorted by cluster |
| DiagnosticTheorems.NumberingsCanDisagree | rust-api/src/bin/classify_mismatches.rs:594-599 | two references in reverse cluster order for which it does not |
| Timing.BucketMeaning | rust-api/src/timing.rs:16-46 | the eight buckets: below 10, 50, 100, 250, 500, 1000 and 5000 microseconds, and the rest |
| Timing.PhaseStats.Record | rust-api/src/timing.rs:43-48 | run alone, the three additions in order |
| Timing.RecordIsThreeSteps | rust-api/src/timing.rs:43-48 | an uninterrupted recorder in the interleaved system does what record does |
| Timing.InterleavingKeepsInv | rust-api/src/timing.rs:43-48 | over every interleaving the counters equal, modulo 2^64, the history of samples |
| Timing.CountMinusBuckets | rust-api/src/timing.rs:43-48 | in every reachable state the count exceeds the bucket total by the recorders between steps two and three |
| Timing.QuietStateIsExact | rust-api/src/timing.rs:43-48 | once idle, count, sum and buckets describe exactly the samples begun |
| Timing.PhaseStats.Percentile | rust-api/src/timing.rs:60-68 | the loop returns the first bucket whose running total reaches the target |
| Timing.PercentileMeaning | rust-api/src/timing.rs:60-68 | a target of at least 1 names the bucket of the target-th smallest sample |
| Timing.PercentilesAreOrdered | rust-api/src/timing.rs:60-74 | on the same buckets the p50 bucket is never after the p99 bucket |
| Timing.ReportedPercentile | rust-api/src/timing.rs:60-74 | against the nearest rank r (pct times the count, rounded up): the code's rank is r or one less, its label is never too late, and it is right exactly when the samples at both ranks share a bucket; at rank 0 (for p50 and p99: a single sample) exactly when the smallest is below 10 |
| Timing.LowMedianIsReported | rust-api/src/timing.rs:60-74 | of 5, 60 and 60 the reported p50 is the first label, the median's is the third |
| Timing.LowTailIsReported | rust-api/src/timing.rs:60-74 | of 5 and 6000 the reported p99 is the first label, the larger sample's is the last |
| Reporting.CountIsReadOnce | rust-api/src/timing.rs:50-54 | a report reads the count at one moment of the run: it has no data exactly when the count was 0 then, and is otherwise over that positive count |
| Reporting.UninterruptedReport | rust-api/src/timing.rs:50-74 | a report whose loads are not interrupted names what the percentile loop names on one snapshot, for both percentiles |
| Reporting.ReportIsOrdered | rust-api/src/timing.rs:50-74 | over every interleaving of the loads with recorders, p50 is not after p99 if no more samples finish between the first and the last bucket read than the two targets lie apart |
| Reporting.ReportCanInvert | rust-api/src/timing.rs:43-74 | for every count from 2 on, one finish more and some interleaving reports the last label for p50 and the first for p99 |

## Left out

- KMeans.KMeansDescends: a theorem about exact reals, not about rounded floats; beyond the sentinel the descent fails (`InertiaCanRise`).
- SearchTheorems.RankingPreserved: about exact reals; 32-bit rounding of the scaled component is not modelled.
- Timing.PercentilesAreOrdered: on one snapshot of the buckets; `ReportIsOrdered` is about buckets read one by one.
- Reporting.ReportIsOrdered: the loads and additions of one report and its recorders happen in one order; reordering of relaxed accesses to different counters, the average and the printed bucket counts are not modelled.
- Unwrapper.ReadToEnd: the inner source's schedule has finitely many failures, so that the caller's retries end.
- HTTP serving, sockets, containers and the load balancer: plumbing over libraries that are not part of this model.
- Memory mapping, files and gzip: the index is a byte sequence and the inner reader a byte sequence with an arbitrary schedule of read sizes and failures.
- JSON decoding of the records and command-line and environment parsing: records are already parsed.
- The random generator: the shuffle is any permutation of the sample indices, the sample any list.
- IEEE rounding, infinity and NaN, and with them the fallback of `partial_cmp`.
- The raw float file that the writer adds for other tools.
- `vectorize.rs`: only the assumption that components lie in [-1, 1] is used.
- The response table and approval threshold of `main.rs`.
- The tie-flip gap statistic, the printed histograms and the report's formatting.
- `calibrate_probes.rs` and the load-test scripts.
- The unwrapper copy of the classifier: the same code as the builder's.
