# osu-accuracy, modelled in Dafny

osu-accuracy estimates an osu! player's accuracy from their top plays. It
splits the plays into a harder and an easier half by their maximum
performance points and reports the median accuracy of each half. Around
that sit the repository's own libraries, and this project models them:

- the incremental record splitter that cuts a byte stream at a separator
  (`StreamSplitter`, class `Splitter`);
- the statistics over sorted samples: sum, mean, variance, covariance,
  min/max, median, interquartile range, interquartile mean, weighted median,
  and the plain and weighted Theil-Sen estimators (`Stats`, `TheilSen`);
- the helpers of `lib/util.js` and the root `util.js` (`Util`, `RootUtil`);
- the write-coalescing autosave map (`AutoSave`, class `AutoSaveMap`);
- the beatmap metadata scraper over a byte buffer (`BeatmapMeta`);
- the action profiler (`Profiler`, class `ActionLog`);
- the accuracy split and the user-list parsing of the command-line tool
  (`OsuAccuracy`).

Shared pieces are `Wrappers` (`Option`, `Result`, `Outcome`), `Bytes`
(`Buffer.indexOf` over `seq<byte>`) and `JsMap`. `JsMap` is a JavaScript
`Map` as its insertion-ordered entries.

Numbers are exact: every JavaScript number is a Dafny `real` or `int`.
Where the code yields `NaN` or `undefined` from an empty input (the mean,
the median, `Math.min()`), the model returns `None`. Every clock reading
is a parameter. File contents and I/O completions are parameters too:
the buffer the scraper reads, and whether a write or rename failed.

The objects whose fields the code updates in place are classes: the
splitter's buffer is an `array<byte>` that is reallocated and copied. Each
such method states its new state through a specification function of the
old state. The splitter is stated through `Scan`, the profiler through
`AfterLogN`, `AfterSetParallel` and the other profiler functions, and the
autosave map through `AfterSave` and the map's entries. The properties
the code promises are then lemmas about those functions.

## Model

| member | source | states |
|---|---|---|
| StreamSplitter.Splitter.constructor | stream-splitter.js:6-21 | offsets start at 0 and `lastIndex` at -1; the buffer size defaults to 1 MiB and the flush margin to a tenth of it; the range defaults to everything; `join` sets the trailing-separator mode |
| StreamSplitter.Splitter.Compact | stream-splitter.js:24-36 | the unconsumed bytes move to the front of a fresh buffer and `bodyOffset` becomes 0; the size grows to exactly `bufferSize - bodyOffset + chunk.length` only when that is larger; afterwards the chunk fits |
| StreamSplitter.Splitter.Append | stream-splitter.js:24-38 | after making room and copying, the buffer holds the old pending bytes followed by the whole chunk; the size never shrinks |
| StreamSplitter.Splitter.Transform | stream-splitter.js:23-62 | the records found equal `Scan` over pending bytes plus chunk; the emitted ones are those at or after the range start (with the separator when joining); the object's invariant, which ties all records and pending bytes to `Scan` of the whole input, is kept |
| StreamSplitter.Splitter.Flush | stream-splitter.js:64-78 | with no pending bytes nothing is emitted; otherwise the pending bytes are record `lastIndex + 1`, emitted when that index is at or after the range start, and the range end is not consulted |
| StreamSplitter.ScanBuffer | stream-splitter.js:40-58 | the scan loop over the buffer, whose window starts at the look-back position, finds exactly the records of `Scan` over the unconsumed bytes, leaves the rest unconsumed and emits the in-range ones |
| StreamSplitter.CopyFrom | stream-splitter.js:31-32 | a fresh array of the new size starts with the old buffer's bytes from `bodyOffset` on |
| StreamSplitter.ScanReassembles | stream-splitter.js:40-60 | the records, each followed by the separator, then the unconsumed rest, give back the input exactly |
| StreamSplitter.ScanRecordsSeparatorFree | stream-splitter.js:40-57 | no record contains the separator |
| StreamSplitter.ScanRestSeparatorFree | stream-splitter.js:40-60 | unless the range end stopped the scan, the unconsumed rest contains no separator |
| StreamSplitter.ScanStopsBeforeRangeEnd | stream-splitter.js:45-48 | the scan stops one index early: it never produces the record whose index plus one reaches the range end |
| StreamSplitter.ScanAppend | stream-splitter.js:40-43 | scanning an input in two pieces, the second resumed from the first's rest, gives the same records as scanning it whole, so the records do not depend on chunking |
| StreamSplitter.EmittedIsSuffix | stream-splitter.js:52-55 | without `join`, the emitted records are the found records from the range start on |
| StreamSplitter.DefaultSplitReassembles | stream-splitter.js:40-78 | with the default range and no `join`, the emitted records and the flushed remainder reassemble the input; the remainder holds no separator |
| StreamSplitter.SplitChunks | stream-splitter.js:6-78 | feeding any chunking of an input through a new splitter and flushing emits `SplitStream` of the concatenated input |
| Bytes.IndexOfSpec | stream-splitter.js:43 | `indexOf` returns the first occurrence at or after the start position, or -1 when there is none |
| Stats.GetSum | lib/stats.js:9-15 | the loop computes the sum of the values |
| Stats.SumAppend | lib/stats.js:9-15 | the sum of a concatenation is the sum of the sums |
| Stats.ArithmeticMean | lib/stats.js:25-27 | undefined for no values; otherwise the mean times the count is the sum |
| Stats.MeanBounds | lib/stats.js:25-27 | the mean of values within bounds lies within the same bounds |
| Stats.Variance | lib/stats.js:29-36 | the loop computes the sum of squared deviations from the mean, not divided by the count; it is 0 for no values and never negative |
| Stats.SquaredDeviationsSign | lib/stats.js:29-36 | the sum of squared deviations is never negative and is 0 when every value equals the mean |
| Stats.Covariance | lib/stats.js:42-54 | undefined for no pairs; otherwise the sum of products of deviations from the two means, divided by the count |
| Stats.CrossSum | lib/stats.js:49-52 | the loop computes the sum of products of deviations |
| Stats.CrossDeviationsDiagonal | lib/stats.js:42-54 | the covariance sum of a sample paired with itself is its variance sum |
| Stats.CrossDeviationsSymmetric | lib/stats.js:42-54 | swapping the coordinates leaves the covariance sum unchanged |
| Stats.Min | lib/stats.js:17-19 | `None` for no values, where `Math.min()` gives `Infinity`; otherwise a member no greater than any value |
| Stats.Max | lib/stats.js:21-23 | `None` for no values, where `Math.max()` gives `-Infinity`; otherwise a member no smaller than any value |
| Stats.MinSorted | lib/stats.js:83-85 | the first element, undefined for no values |
| Stats.MinSortedIsMin | lib/stats.js:83-85 | on sorted input the first element is the minimum |
| Stats.MaxSorted | lib/stats.js:87-89 | the second element, undefined for fewer than two values |
| Stats.MaxSortedMissesMaximum | lib/stats.js:87-89 | on the sorted input [1, 2, 3] it returns 2 while the maximum is 3 |
| Stats.MaxSortedLastIsMax | lib/stats.js:87-89 | the last element of sorted input is its maximum |
| Stats.MedianSorted | lib/stats.js:91-101 | undefined for no values; for sorted input it lies between the first and last element |
| Stats.MedianBetweenMiddle | lib/stats.js:91-101 | for sorted input the median lies between the two middle elements (the one middle element for an odd count) |
| Stats.MedianOfFour | lib/stats.js:91-101 | the median of [1, 2, 3, 4] is 2.5 |
| Stats.MedianConstant | lib/stats.js:91-101 | the median of a constant sample is that constant |
| Stats.MedianMirror | lib/stats.js:91-101 | negating and reversing a sample negates its median and keeps it sorted |
| Stats.IqrSorted | lib/stats.js:135-146 | one value gives it twice; otherwise the medians of the first and last `floor(n/2)` elements, ordered and within the sample's range for sorted input |
| Stats.IqrBracketsMedian | lib/stats.js:135-146 | for sorted input the lower quartile is at most the median and the median at most the upper quartile |
| Stats.FirstBalanced | lib/stats.js:113-120 | the first index where neither the weight strictly left nor the weight strictly right exceeds half the total; no earlier index qualifies |
| Stats.WeightedMedianSorted | lib/stats.js:103-133 | the two loops return the weighted median: the value at the first balanced index, or the mean with the next value when the right weight is exactly half and the left weight plus its own is half too; none when no index is balanced |
| Stats.WeightedMedianExists | lib/stats.js:103-133 | a non-empty sample with non-negative weights always has a weighted median |
| Stats.WeightedMedianUnitWeights | lib/stats.js:103-133 | with all weights 1, the weighted median is the median |
| Stats.IqmSorted | lib/stats.js:148-175 | the trimming, popping and shifting computation equals the weighted mean with weight `1 - (n mod 4)/4` on the boundary elements, 1 inside and 0 outside, over the total weight; it works on a copy |
| Stats.IqmTotalWeight | lib/stats.js:165-166 | for two or more values the divisor the code uses equals the total weight, which is `n/2` |
| Stats.IqmSingle | lib/stats.js:150-152 | a single value is its own interquartile mean |
| Stats.IqmMultipleMean | lib/stats.js:157-160 | for a count divisible by 4 the result is the mean of the middle half |
| Stats.IqmConstant | lib/stats.js:148-175 | the interquartile mean of a constant sample is that constant |
| TheilSen.PairSlope | lib/stats.js:180-185 | equal x gives no slope; otherwise the slope times the x step is the y step, with weight 1, or the absolute x step when weighting |
| TheilSen.TheilSenNext | lib/stats.js:180-188 | a skipped pair leaves the collection as it was; otherwise it gains exactly the pair's slope, and a sorted collection stays sorted |
| TheilSen.SlopeCollection | lib/stats.js:200-206 | the double loop builds a sorted collection holding exactly the slopes of all ordered pairs |
| TheilSen.InterceptCollection | lib/stats.js:190-196 | the loop builds the sorted list of the intercepts `y - slope * x` |
| TheilSen.TheilSenSortedIntercept | lib/stats.js:190-198 | the intercept is the median of the points' intercepts under the fitted slope; no slope gives no intercept |
| TheilSen.RowSlopesVertical | lib/stats.js:180-188 | a point paired with points of its own x adds no slope |
| TheilSen.AllSlopesVertical | lib/stats.js:200-206 | the double loop over points of one x adds no slope |
| TheilSen.SharedXFit | lib/stats.js:200-224 | points that all share one x get neither slope nor intercept from either estimator, whatever their number |
| TheilSen.SharedXHangs | lib/stats.js:190-198 | as written, four or more points of one x give a `NaN` slope and the fourth `NaN` intercept enters `binarySearch`'s loop with bounds that a pass leaves unchanged; with three or fewer the loop is never entered |
| TheilSen.TheilSenSorted | lib/stats.js:200-211 | the result is the median slope over all pairs and the median intercept under it |
| TheilSen.TheilSenWeightedSorted | lib/stats.js:213-224 | the slope is the weighted median of the slopes, each weighted by its absolute x step, and the intercept is taken under it |
| TheilSen.SortSorts | lib/stats.js:190-197 | repeated insertion at the binary-search position yields a sorted permutation |
| TheilSen.TheilSenExact | lib/stats.js:200-211 | points on `y = m*x + c` with two distinct x give exactly `[m, c]` |
| TheilSen.TheilSenWeightedExact | lib/stats.js:213-224 | the weighted estimator also gives exactly `[m, c]` for such points |
| Util.SearchPass | lib/util.js:112-117 | a pass of the search loop narrows the bounds between numbers and leaves them exactly where they were when the value or the midway value is `NaN` |
| Util.BinarySearch | lib/util.js:98-122 | the result is at most the count and 0 for an empty list; a value at or above the last key gives the count; on a sorted list, below the first key gives 0, and the key before the result is at most the value and the key at it at least the value |
| Util.InsertAt | lib/stats.js:187 | `splice(index, 0, x)`: `x` at `index` between the unchanged prefix and suffix, so the elements are the old ones plus `x` |
| Util.InsertKeepsSorted | lib/util.js:98-122 | inserting at a position between a smaller-or-equal key and a larger-or-equal key keeps the list sorted |
| Util.GetTuples | lib/util.js:89-96 | `min(|X|, |Y|)` pairs, pair `i` being `(X[i], Y[i])` |
| Util.PadString | lib/util.js:20-22 | the string followed by spaces up to the size, so its length is the larger of the two |
| Util.Term | lib/util.js:24-27 | a `-`-prefixed term becomes `- ` and the rest, any other term `+ ` and itself |
| Util.TermRoundTrip | lib/util.js:24-27 | the term is recovered from its signed form |
| Util.GetAccuracy | lib/util.js:129-133 | defined exactly when the total number of hits is positive |
| Util.GetAccuracyRange | util.js:28-32 | the accuracy times 300 times the hit total is the raw score; it lies in [0, 1]; it is 1 exactly when there are no 100s, 50s or misses |
| Util.DeleteAll | lib/util.js:142 | the result keeps only characters of the input outside the deleted class |
| Util.ReplaceRuns | lib/util.js:138 | no character of the class is left and the result is no longer than the input |
| Util.ReplaceRunsRun | lib/util.js:138 | a non-empty run of class characters becomes exactly one mark |
| Util.ReplaceRunsAppend | lib/util.js:138 | two pieces not joined by a run across their border are replaced separately |
| Util.ReplaceRunsSplit | lib/util.js:138 | each maximal run becomes exactly one mark: a run between a prefix not ending and a suffix not starting in the class becomes one mark between their replacements |
| Util.ReplaceRunsKeepsOthers | lib/util.js:138 | replacing runs keeps every character outside the class and the mark, in order |
| Util.SanitizePathName | lib/util.js:135-144 | in folder mode, no character of `\ ? " < > |` or `. * : /` remains; in file mode none of `\ / : * ? " < > |` remains |
| Util.SanitizeChar | lib/util.js:135-144 | a single character outside the replaced runs is kept unless it is one the mode deletes |
| Util.SanitizeFolderRun | lib/util.js:138-139 | in a folder name a non-empty run of `\ ? " < > |` becomes one `_` |
| Util.SanitizeAppend | lib/util.js:135-144 | two pieces not joined by such a run are sanitised separately, so with the two lemmas above the result is fixed for every name |
| Util.SanitizeIdempotent | lib/util.js:135-144 | sanitising twice is sanitising once |
| RootUtil.SanitizePathName | util.js:34-38 | no character of `\ / : * ? " < > |` remains, no `.` in folder mode, and the result is no longer than the input |
| RootUtil.DeleteAllTwice | util.js:35-36 | deleting one class and then another is deleting both at once |
| RootUtil.SanitizeIsFilter | util.js:34-38 | the result is the input with exactly the targeted characters removed, the others keeping their order |
| RootUtil.SanitizeIdempotent | util.js:34-38 | sanitising twice is sanitising once |
| AutoSave.AfterSave | lib/autosave-map.js:25-38 | `save()` leads from IDLE or TICK to TICK and from ACTIVE or QUEUED to QUEUED |
| AutoSave.SavesCoalesce | lib/autosave-map.js:25-38 | any burst of saves leaves the status one save leaves: one scheduled save when idle, one follow-up during a write |
| AutoSave.AutoSaveMap.constructor | lib/autosave-map.js:14-18 | the entries are the iterable set in turn; the status is IDLE, nothing is scheduled and nothing is persisted |
| AutoSave.AutoSaveMap.Set | lib/autosave-map.js:20-23 | the entry is set first, then the status moves as `save()` moves it, and a save is scheduled only from IDLE |
| AutoSave.AutoSaveMap.Save | lib/autosave-map.js:25-38 | IDLE becomes TICK and schedules exactly one `doSave`; ACTIVE becomes QUEUED; TICK and QUEUED are unchanged; the map and the file are untouched |
| AutoSave.AutoSaveMap.ToJson | lib/autosave-map.js:60-62 | the `[key, value]` pairs in iteration order |
| AutoSave.AutoSaveMap.DoSave | lib/autosave-map.js:40-47 | no write was in flight; the status becomes ACTIVE and a write of the whole current map starts; the persisted file is unchanged |
| AutoSave.AutoSaveMap.CompleteWrite | lib/autosave-map.js:47-49 | a failed write is thrown and ends the cycle; a successful one starts the rename of the same content |
| AutoSave.AutoSaveMap.CompleteRename | lib/autosave-map.js:49-56 | a failed rename is thrown and ends the cycle; a successful one makes the written snapshot the persisted content; QUEUED then schedules one more save and stays QUEUED, ACTIVE becomes IDLE |
| JsMap.Set | lib/autosave-map.js:20-21 | setting a present key keeps the key order; a new key is appended |
| JsMap.SetGet | lib/autosave-map.js:20-21 | after setting, the key maps to the value and every other key maps as before |
| JsMap.SetUnique | lib/autosave-map.js:20-21 | setting keeps keys unique |
| JsMap.FromPairsRoundTrip | lib/autosave-map.js:14-15 | building a map from the pairs that serialisation yields gives the same map back |
| BeatmapMeta.GetBeatmapMetaLocal | internal/beatmaps.js:35-96 | the straight-line scan of the buffer returns exactly `Scrape`: null unless `[Metadata]` and all five fields are found in order, otherwise `[setId, artist, title, creator, version]` |
| BeatmapMeta.ScanFields | internal/beatmaps.js:46-96 | the five field searches from the `[Metadata]` line feed fill the result slots as `Fields` does, with the set id converted to a number |
| BeatmapMeta.ScanValues | internal/beatmaps.js:46-91 | the values of Title, Artist, Creator, Version and BeatmapSetID, each searched from the previous line feed, or null at the first missing one |
| BeatmapMeta.ScanField | internal/beatmaps.js:47-52 | one field search yields its value and line feed, and the later fields are searched from that line feed; a missing field ends the scan with null |
| BeatmapMeta.FindField | internal/beatmaps.js:48-52 | the marker search and the line-feed search with their two bounds checks, as `Field` |
| BeatmapMeta.StripCR | internal/beatmaps.js:52 | the value is the line, or the line without one trailing CR, the latter exactly when the line ends in CR |
| BeatmapMeta.Slice | internal/beatmaps.js:52 | `Buffer.slice` with an end before the start is empty |
| BeatmapMeta.MetadataRequired | internal/beatmaps.js:38-40 | a result exists only if `\n[Metadata]` occurs below `bytesRead` |
| BeatmapMeta.FieldFound | internal/beatmaps.js:47-52 | a found field's marker is its first occurrence from the search start, below `bytesRead`; its line feed is the first after the marker, below `bytesRead`; the value is what lies between, less one CR |
| BeatmapMeta.FieldAdvances | internal/beatmaps.js:48-50 | each field's line feed lies after the position its search started from, and below `bytesRead` |
| BeatmapMeta.FieldPastEnd | internal/beatmaps.js:49 | a search that starts at or past `bytesRead` finds no field |
| BeatmapMeta.MetadataCheckHarmless | internal/beatmaps.js:41-42 | testing `index` instead of `nlIndex` after the `[Metadata]` line-feed search changes no result |
| BeatmapMeta.StaleBytesIgnored | internal/beatmaps.js:18-27 | the shared buffer's bytes past `bytesRead` never affect the result |
| BeatmapMeta.ToNumber | internal/beatmaps.js:92 | `+` on blank text is 0, and on a run of decimal digits is their value |
| BeatmapMeta.IntegerValue | internal/beatmaps.js:92 | trimmed blank text is 0, and a run of decimal digits is their value |
| BeatmapMeta.ToNumberChars | internal/beatmaps.js:92 | text that converts holds only digits, white space and signs |
| BeatmapMeta.ToNumberRender | internal/beatmaps.js:92 | `+` on the decimal text of an integer gives that integer |
| BeatmapMeta.ToNumberSigned | internal/beatmaps.js:92 | `+` on `-` followed by digits gives the negated number |
| Profiler.DtRoundTrip | lib/profiler.js:5-11 | `sumdt` of a reading and the `getdt` to another gives the other, and `getdt` undoes `sumdt`; no carry between the components |
| Profiler.Int32 | lib/profiler.js:52 | `~~nEvents` is the signed 32-bit integer congruent to the count |
| Profiler.TallyOf | lib/profiler.js:68-80 | the count grows by the batch; the first batch sets the duration; later ones add to it while the limit allows; past the limit the limit drops to the previous count when that is lower |
| Profiler.TallyExact | lib/profiler.js:74-80 | a limited key's accumulated duration covers exactly `min(count, limit)` events, the divisor `getAverageTime` uses |
| Profiler.PastLimitFrozen | lib/profiler.js:76-80 | once a key's count exceeds its limit, more events change neither its duration nor its limit |
| Profiler.AccumulateCount | lib/profiler.js:68-75 | the first batch sets the counter to its size and later ones add to it |
| Profiler.AccumulateTime | lib/profiler.js:68-80 | the first batch sets the duration; later ones add componentwise, reset it to null when untimed, or throw when the stored one is null |
| Profiler.AccumulateValid | lib/profiler.js:68-80 | booking a batch keeps the books' invariant and touches no other key |
| Profiler.EnqueuedEntry | lib/profiler.js:55-64 | a queued batch accumulates its count under its key, keeps the first start time and takes the new end time; other entries are unchanged |
| Profiler.LogNothing | lib/profiler.js:52-53 | a batch that truncates to no events changes nothing |
| Profiler.LogNParallel | lib/profiler.js:55-64 | in parallel mode a log that is not forced only queues, under `key + "_parallel"` |
| Profiler.LogNValid | lib/profiler.js:51-82 | `logN` keeps the books' invariant |
| Profiler.AfterLog | lib/profiler.js:84-89 | `log` without a start time in parallel mode throws and changes nothing |
| Profiler.LogWithoutStart | lib/profiler.js:66-77 | outside parallel mode an untimed log counts the event and sets the key's duration to null |
| Profiler.AfterLogSync | lib/profiler.js:91-93 | `logSync` never touches the queue |
| Profiler.Span | lib/profiler.js:28-32 | a queued entry's duration is end minus start; an entry without a start time (a parallel log given no `t0`) throws |
| Profiler.MergeAllCounts | lib/profiler.js:25-47 | merging the queue adds each entry's count to its key's counter and leaves keys not in the queue untouched |
| Profiler.MergeAllValid | lib/profiler.js:25-47 | merging keeps the books' invariant, whatever entries throw |
| Profiler.AfterSetParallel | lib/profiler.js:25-49 | the queue becomes empty when turning on and absent when turning off; turning on, or off when not parallel, merges nothing |
| Profiler.AfterLogTime | lib/profiler.js:95-97 | `logTime` sets the key's duration and nothing else |
| Profiler.GetTime | lib/profiler.js:99-108 | throws for an unknown key; null for a null duration or a limited key; otherwise the stored duration |
| Profiler.GetAverageTime | lib/profiler.js:110-120 | throws unless the key has a counter and a duration; null for a null duration; otherwise the duration and its divisor |
| Profiler.AverageDivisor | lib/profiler.js:110-120 | the divisor is positive, and it is the number of events whose durations were accumulated |
| Profiler.ActionLog.constructor | lib/profiler.js:18-23 | empty counters and durations, the initial limit for `osu_network_rtt`, not parallel |
| Profiler.ActionLog.Book | lib/profiler.js:68-80 | the counter, limit and duration updates of one batch, in place, as `Accumulate` |
| Profiler.ActionLog.LogN | lib/profiler.js:51-82 | the object's new state is `AfterLogN` of its old one, and the invariant is kept |
| Profiler.ActionLog.Log | lib/profiler.js:84-89 | the new state is `AfterLog` of the old one |
| Profiler.ActionLog.LogSync | lib/profiler.js:91-93 | the new state is `AfterLogSync` of the old one |
| Profiler.ActionLog.LogTime | lib/profiler.js:95-97 | the new state is `AfterLogTime` of the old one |
| Profiler.ActionLog.SetParallel | lib/profiler.js:25-49 | the merge loop leaves the state `AfterSetParallel` of the old one and reports the keys whose merge threw |
| OsuAccuracy.Kept | osu-accuracy.js:54 | never more plays than given |
| OsuAccuracy.KeptMembers | osu-accuracy.js:54 | a play is kept exactly when both its maximum pp and its accuracy are present and non-zero |
| OsuAccuracy.KeptAppend | osu-accuracy.js:54 | the filter distributes over concatenation, keeping order |
| OsuAccuracy.Round | osu-accuracy.js:51 | `Math.round` gives the integer within half of the value |
| OsuAccuracy.Fetched | osu-accuracy.js:36-55 | null without user data or plays; otherwise the rounded pp, the accuracy divided by 100, the level and the kept plays |
| OsuAccuracy.CollatorOrder | osu-accuracy.js:11-14 | in a list sorted by the difficulty collator maximum pp descends; in one sorted by the accuracy collator accuracy ascends |
| OsuAccuracy.WithKeyAppend | osu-accuracy.js:62-65 | picking the plays of one key distributes over concatenation |
| OsuAccuracy.SameKeyOrder | osu-accuracy.js:62-65 | two lists in key order with the same plays, and the plays of each key in the same order, are equal |
| OsuAccuracy.StableSortUnique | osu-accuracy.js:62-65 | a list has exactly one stable sort by a key |
| OsuAccuracy.InsertWithKey | osu-accuracy.js:62-65 | inserting a play before the plays of greater key picks each key's plays as appending it does |
| OsuAccuracy.InsertPlay | osu-accuracy.js:62-65 | inserting a play into a sorted list keeps it sorted, adds exactly that play, and places it after the plays of its key |
| OsuAccuracy.SortPlays | osu-accuracy.js:62-65 | the sort yields a permutation ordered by the collator's key in which plays of equal key keep their order: the list's one stable sort |
| OsuAccuracy.MedianAccuracy | osu-accuracy.js:16-27 | 0 for no plays; otherwise the statistics median of the plays' accuracies |
| OsuAccuracy.MedianAgrees | osu-accuracy.js:16-27 | for a non-empty list the median accuracy is the median of the accuracies, and lies between the first and last of a list sorted by accuracy |
| OsuAccuracy.CutOrdered | osu-accuracy.js:62-65 | after the difficulty sort every hard play has at least the maximum pp of every easy play |
| OsuAccuracy.CutSizes | osu-accuracy.js:64-65 | the halves have the cut's sizes and together hold exactly the plays |
| OsuAccuracy.ExactSplitUnique | osu-accuracy.js:62-65 | the plays determine the difficulty order and both halves completely |
| OsuAccuracy.ExactSplitIsSplit | osu-accuracy.js:62-65 | the program's split has halves of sizes `ceil(n/2)` and `floor(n/2)` holding exactly the plays, each sorted by accuracy, with no easy play worth more pp than a hard one |
| OsuAccuracy.SplitPlays | osu-accuracy.js:62-65 | the hard half is the first `ceil(n/2)` plays of the stable difficulty sort, the easy half the rest, each stably sorted by accuracy |
| OsuAccuracy.AccuracyVariants | osu-accuracy.js:58-79 | null without a performance; otherwise the stable accuracy, the range `[median(easy), median(hard)]` of the program's one split of the plays, and `rangeMulti` 0 |
| OsuAccuracy.SplitMedians | osu-accuracy.js:16-27 | an empty half has median 0; a single play is the hard half; each half's median lies within its accuracy range |
| OsuAccuracy.Split | osu-accuracy.js:87 | at least one piece, none containing the separator |
| OsuAccuracy.SplitJoin | osu-accuracy.js:87 | joining the pieces with the separator gives back the input |
| OsuAccuracy.Trim | osu-accuracy.js:87 | no leading or trailing white space remains, and only characters of the input |
| OsuAccuracy.TrimDropsSpace | osu-accuracy.js:87 | the trimmed string is a slice of the input with only white space before and after it |
| OsuAccuracy.TrimKeeps | osu-accuracy.js:87 | a string without surrounding white space is its own trim |
| OsuAccuracy.ParseUsers | osu-accuracy.js:82-90 | a refusal carries the usage message; an accepted list is non-empty and every name is valid and free of commas |
| OsuAccuracy.ParseUsersResult | osu-accuracy.js:82-90 | the user list is accepted exactly when an argument is given and every trimmed piece uses only letters, digits, `_`, `-` and white space; the names are the trimmed pieces |

## Left out

- File system, network and event loop: `fs.writeFile`, `fs.rename`, `process.nextTick` and `setImmediate` in the autosave map are event methods. The file read in `internal/beatmaps.js` becomes the buffer and `bytesRead` parameters. The nodesu API calls in `osu-accuracy.js` are left out; their results are parameters of `Fetched`. Console output, `runCli`'s table printing and the `unhandledRejection` handler are left out.
- Node stream plumbing in the splitter: `push`, `next` and `done` are not modelled; each method returns the records it would push.
- `process.hrtime`: every reading is a parameter (`now`, `elapsed`, start and end times).
- Profiler.GetTime: returns the stored `[s, ns]` duration, not the milliseconds `s * 1e3 + ns / 1e6`, because floating-point conversion is left out; `toString` and its formatting are left out too.
- Profiler.GetAverageTime: returns the duration and its divisor, not their quotient in milliseconds, for the same reason.
- `LIMITED_EVENTS` is module-level in the code; only the one `ActionLog` instance ever uses it, so the model keeps it in the object's state as `limits`.
- UTF-8 decoding of field values: the scraper's values stay bytes.
- BeatmapMeta.ToNumber: the set id's `+` conversion is modelled only for optionally signed decimal integers with surrounding white space; any other text (fractions, exponents, hexadecimal, `Infinity`) is `None`, where JavaScript would give a number or `NaN`.
- `stdev`, `pearson_r` and `lsq_regression` (lib/stats.js:38-40, 56-77): they need `Math.sqrt`.
- Formatting: `round`, `toPercent`, `toScientific` and `formatFit` in `lib/util.js`, and `toPercent` in `util.js`: floating-point text.
- `shuffle` uses `Math.random` and `getTimestamp` uses the locale; both are left out.
- `nodesu2ojsamaMods` in both util files: its bit constants come from libraries that are not part of this model.
- `padString` and `getAccuracy` in `util.js` are the same code as in `lib/util.js`; `Util.PadString` and `Util.GetAccuracy` model both.
- The calls `BeatMaps.getModdedMaxPP` and `util.getAccuracy` inside `fetchPlayerPerformance` are not part of this model; each play arrives with its maximum pp and accuracy already set or missing.
- OsuAccuracy.SortPlays: `Array.prototype.sort` is modelled as a stable insertion sort, as the ECMAScript 2019 and later sort is; Node releases before version 11 sorted long arrays unstably, and there a play tied in maximum pp at the cut may land in either half.
- TheilSen.TheilSenSortedIntercept: with four or more points sharing one x the source never returns (see Findings); the model returns no intercept, as the source does for up to three such points.
- TheilSen.TheilSenSorted: for four or more points sharing one x the model returns no slope and no intercept, where the source never returns (see Findings).
- TheilSen.TheilSenWeightedSorted: likewise, for four or more points sharing one x the model returns no slope and no intercept, where the source never returns.
- AutoSave.AutoSaveMap.DoSave: the `Profiler.logSync('cache_serialization', t)` call (lib/autosave-map.js:43-45) that times the serialisation is left out; it only records a duration.
- Util.PadString: the length is counted in Unicode characters, where JavaScript counts UTF-16 code units; the two differ only outside the Basic Multilingual Plane, and the program pads only numbers, fixed labels and user names, whose accepted characters all lie inside it.
- Stats.SquaredDeviationsSign: states that the sum is non-negative and is 0 for a constant sample; the converse (0 only for a constant sample) is not proved.
- Stats.Variance: `variance([])` is 0 in the code, because the loop never runs, and the model follows the code.
- Stats.MedianSorted, Stats.ArithmeticMean, Stats.Min, Stats.Max: `NaN`, `undefined` and `±Infinity` from an empty input are `None`.
- TheilSen.PairSlope: `NaN` and infinite slopes occur exactly when the x values are equal; with exact numbers that is the only skipped case.
- `JSON.stringify` in `doSave` is modelled as `toJSON`'s pair list; the text encoding is left out.

## Findings

| source | as written | input that shows it | evidently intended | confidence | as-written member | corrected member |
|---|---|---|---|---|---|---|
| lib/stats.js:87-89 | `max_sorted` returns `values[1]` | the sorted sample [1, 2, 3] gives 2 | the last element, `values[values.length - 1]`, which is the maximum of a sorted sample | high; not executed | Stats.MaxSortedMissesMaximum | Stats.MaxSortedLastIsMax |
| lib/stats.js:190-198 | with a `NaN` fit slope every intercept is `NaN`, and `binarySearch` (lib/util.js:112-117) moves neither bound when comparing `NaN`, so inserting a fourth intercept loops forever | the points (1, 1), (1, 2), (1, 3), (1, 4): no pair has a finite slope, and `theil_sen` never returns | no slope and no intercept (`[NaN, NaN]`), as for up to three such points | high; not executed | TheilSen.SharedXHangs | TheilSen.SharedXFit |
