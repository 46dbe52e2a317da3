# NyaQueue: a verified model of the broker's core

NyaQueue is a partitioned message broker. This project models the parts of it whose correctness is
hard to see from the code, and proves what they are for:

- **Priority index** (`EntryRing`, `PriorityLevels`, `PriorityIndex`, `PriorityAgeing`): ten rings of
  pending entries, popped by priority or by arrival and aged upwards. `PriorityIndexSteps`,
  `PriorityIndexSafety`, `PriorityIndexTheorems`, `PriorityIndexPops`, `PriorityIndexTermination`,
  `PriorityIndexSolo` and `PriorityIndexCalls` model the same index under any number of goroutines, one
  lock or atomic operation per step, and tie it back to the sequential one.
- **Load predictor** (`LevinsonDurbin`, `LoadPredictor`, `SampleRing`): the Levinson-Durbin recursion,
  proved against the Yule-Walker system and the mean squared prediction error, and the forecast built
  on it.
- **Partition log** (`Wire`, `PartitionLog`, `Partition`): the message format, plain records, and the
  compressed batches (a leader record and redirects to it) that must read like plain records.
- **Publish, consume, commit** (`Publishing`, `Serving`, `Sessions`, `Broker`, `OffsetKeys`,
  `OffsetStore`, `Delivery`, `Consuming`): where a batch of messages goes and what comes back, what one
  group is handed over any run of batches, appends, cuts, commits and reopenings, and at-least-once
  delivery over runs with crashes, lost log ends, expiry and topic deletion.
- **Balancers** (`Lru`, `Psa`, `Fallback`): sticky key binding, and the hysteresis of the DQN
  balancer's fallback.
- **Smaller kernels** (`BufferedProducer`, `Lasso`, `LassoOptimum`, `Welford`).

`Sums`, `Circular` and `Wrappers` hold shared definitions. Code that updates state in place is a class
or an array method, proved against a specification on values; the theorems are about the
specification. Concurrency is a transition system. `float64` is `real`, clocks, random choices, map
iteration orders and I/O outcomes are parameters.

## Results a reader may not expect

Some promises do not hold for every input. Each has a lemma or a contract that says exactly when it holds:

- A plain record reads back as a record of its own if and only if its priority byte is not 0xBA or 0xFF
  (`PartitionLog.PlainReads`). With such a byte it is taken for a part of a batch, and its contents come
  back if and only if what is read instead happens to be the same (`PartitionLog.ContentReadsIff`): never
  with 0xBA and no codec (`PartitionLog.BatchLookalikeDiffers`), but possibly with 0xFF
  (`PartitionLog.RedirectLookalike`).
- A message survives the wire if and only if its key is shorter than 2^32 (`Wire.RoundTrip`).
- `TruncateOldestUntilSize` is documented to bring the log within the limit. It does so if and only if
  the newest record alone is within the limit; otherwise it fails and cuts nothing
  (`Partition.Partition.TruncateOldestUntilSize`).
- `Len` is negative during calls if and only if more adds are between storing and counting their entry
  than there are entries and uncounted removals (`PriorityIndexTheorems.LenIsNegativeIff`); for every k
  a run with k such adds reaches -k (`PriorityIndexTheorems.LenCanBeNegative`).
- Two topics share offset keys if and only if one name continues the other with a segment that reads
  as a partition number (`OffsetKeys.CollideIff`).
- Deleting a topic is safe for a group if and only if no offset of it has been flushed, or the flushed
  one is still at the start, or it is also cached and the flush erases it (`Delivery.DeleteIsSafeIff`);
  `Delivery.UncleanDeleteSkips` is the run in which an expired group comes back past messages it was
  never handed.
- A crash that loses the end of a log is safe for a group if and only if its flushed offset is not past
  what is left (`Delivery.CrashIsSafeIff`); otherwise the records that take the lost offsets are never
  handed to it (`Delivery.LossSkips`).
- An offset a client commits keeps its group safe if and only if it is 1 or follows a message the group
  has been handed (`Delivery.CommitIsSafeIff`); 0 skips nothing either, but a group is never served there.
- A consumer is served at a readable offset if and only if the record it is read from is still in the log
  (`Serving.ServedIff`). A group whose record has been cut off is handed nothing until a client's commit,
  an expiry or a reopening sets its offset past the log or to a record that is there
  (`Sessions.FreedIff`, `Sessions.StuckUntilFreed`). A new group starts at 1, so it is stuck if and only
  if anything has been cut (`Sessions.NewGroupStuckIff`).
- Cutting at the commit floor keeps the record at every cached offset, but that is not enough to be served:
  a consumer is served afterwards if and only if it was before and no cut was made above the record its
  offset is read from (`Consuming.ServedAfterFloorIff`, `Consuming.TruncateAtFloor`). A group in the middle
  of a compressed batch is cut off from it by its own floor, without any crash (`Consuming.CutInsideBatch`);
  a crash takes a group back to a flushed offset below the floor, where it is stuck (`Consuming.CutStrands`),
  against the restart promise of the offset store.
- A pop that runs beside other calls does not take the best entry of any one moment: it looks at the levels
  one after the other, and the levels it passes over were empty, or without an earlier head, each at some
  point of the call (`PriorityIndexPops.PopTakes`). While nobody changes the levels it takes what the
  sequential specification does (`PriorityIndexPops.UndisturbedPops`).
- A partition claimed after the random skip is the least loaded free one if and only if some
  least-loaded free partition lies after the skip (`Psa.ClaimIsLeastIff`, with a failing input in
  `Psa.ClaimMissesLeast`); without metrics none is claimed (`Psa.Balancer.ClaimFreePartition`).
- Soft thresholding minimises its coordinate if and only if the penalty is not negative or the
  correlation is not strictly between it and 0 (`Lasso.MinimisesIff`).
- Normalising by the running statistics gives mean 0, but a sample variance of
  (std / (std + 1e-8))^2, always short of the unit variance its comment promises
  (`Welford.NormalisedHistory`).

Where the code and its comments disagree the model follows the code. Besides the cases above, a steal
does nothing when the key that comes up is empty, and `ConsumeBatch` commits before it returns.

## Model

| member | source | states |
|---|---|---|
| `EntryRing.Ring.constructor` | pkg/broker/priority_index.go:20-25 | a new ring stands for the empty sequence |
| `EntryRing.Ring.PushBack` | pkg/broker/priority_index.go:27-42 | the ring behaves as a sequence that appends, and when full gives up exactly its oldest entry and reports it |
| `EntryRing.Ring.Grow` | pkg/broker/priority_index.go:44-55 | growing keeps the contents, makes room and stays within the capacity |
| `EntryRing.Ring.PopFront` | pkg/broker/priority_index.go:57-66 | pops the oldest entry, or reports that there is none |
| `EntryRing.Ring.PeekFront` | pkg/broker/priority_index.go:68-74 | the oldest entry, left in place |
| `EntryRing.Ring.Linearize` | pkg/broker/priority_index.go:76-84 | the contents in order, wherever the head is |
| `EntryRing.Ring.ResetFrom` | pkg/broker/priority_index.go:86-101 | the ring then holds the newest entries that fit |
| `EntryRing.OverwriteRotates` | pkg/broker/priority_index.go:28-34 | overwriting the head slot of a full buffer and advancing is dropping the oldest and appending |
| `PriorityLevels.PopsIsFunctional` | pkg/broker/priority_index.go:180-223 | the rule for which level a pop takes from leaves no choice |
| `PriorityLevels.SplitByAge` | pkg/broker/priority_index.go:243-251 | every occurrence of an entry is either fresh or stale |
| `PriorityLevels.PromoteConserves` | pkg/broker/priority_index.go:237-269 | after a promotion every occurrence of an entry is in one level or evicted, and the number of entries drops by exactly the evictions |
| `PriorityLevels.PromotedRaises` | pkg/broker/priority_index.go:237-269 | a level after a promotion is the entries that stay there (at most ttl old, or on level 9), in their order, then the older ones of the level below in theirs, less the oldest beyond the capacity |
| `PriorityLevels.StaleStayInOrder` | pkg/broker/priority_index.go:237-269 | two stale entries of one level arrive at the next in the order they stood in |
| `PriorityIndex.Index.constructor` | pkg/broker/priority_index.go:121-135 | ten empty levels, counts and total agreeing with them |
| `PriorityIndex.Index.Add` | pkg/broker/priority_index.go:140-162 | the entry joins its clamped level, the oldest of a full level goes, and the result says whether a free slot was taken; counts and total stay right |
| `PriorityIndex.Index.PopHighest` | pkg/broker/priority_index.go:164-178 | takes the head of the highest nonempty level and nothing else |
| `PriorityIndex.Index.PopWithThreshold` | pkg/broker/priority_index.go:180-223 | takes the head of the highest level at or above the threshold, else the earliest-arrived head below it, ties to the lowest level; runs off the levels exactly for a negative threshold on an empty index |
| `PriorityIndex.Index.EarliestBelow` | pkg/broker/priority_index.go:194-213 | the scan finds the earliest-arrived head below the threshold, or that there is none |
| `PriorityIndex.Index.Len` | pkg/broker/priority_index.go:225-227 | between calls the total is the number of entries stored |
| `PriorityIndex.Index.LevelDistribution` | pkg/broker/priority_index.go:229-235 | between calls each count is the size of its level |
| `PriorityIndex.Index.PromoteStale` | pkg/broker/priority_index.go:237-269 | every level becomes the newest entries that fit of its fresh ones followed by the stale ones from below, the top level keeping all its own; the total drops by exactly the evictions |
| `PriorityIndex.Index.TakeStale` | pkg/broker/priority_index.go:240-254 | taking out the stale entries leaves the fresh ones in order, with the total still counting both |
| `PriorityIndex.Index.PushStale` | pkg/broker/priority_index.go:256-267 | landing them one by one above keeps the newest that fit and takes every eviction off the total |
| `PriorityIndex.RaisedLevel` | pkg/broker/priority_index.go:237-269 | working from the top down, each level receives exactly what the level below had when the call began |
| `PriorityAgeing.StaysStale` | pkg/broker/priority_index.go:237-251 | an entry stale at the first promotion of a run is stale at every later one |
| `PriorityAgeing.PromotionsRaise` | pkg/broker/priority_index.go:237-269 | in any run of adds, pops and promotions, an entry stale at the first promotion and still present is one level higher per promotion, up to the top |
| `PriorityIndexSafety.ActOnLock` | pkg/broker/priority_index.go:140-269 | a step takes a lock only when it is free and gives up only a lock its thread holds |
| `PriorityIndexSafety.ActUnderLock` | pkg/broker/priority_index.go:140-269 | entries and counts of a level change only under its lock |
| `PriorityIndexSafety.ActBalances` | pkg/broker/priority_index.go:140-269 | every step moves entries between the ring, the thread's hands and the logs of popped and evicted, and loses none |
| `PriorityIndexSafety.ActOnTotal` | pkg/broker/priority_index.go:140-269 | whatever a step changes in the number of entries it adds to the total or goes on owing it |
| `PriorityIndexSafety.ActOnCount` | pkg/broker/priority_index.go:140-269 | a level's count is right after every step, or its lock holder is about to correct it |
| `PriorityIndexSafety.ActOnHead` | pkg/broker/priority_index.go:194-221 | a thread that has settled on a level while peeking still finds the head it saw there |
| `PriorityIndexSafety.StepKeepsInv` | pkg/broker/priority_index.go:140-269 | every step of every thread keeps the invariant: exclusive locks, right counts, known heads, only stale entries in the hands of a promotion, conservation and the total |
| `PriorityIndexSafety.StartKeepsInv` | pkg/broker/priority_index.go:140-269 | so does the start of any call |
| `PriorityIndexSafety.RunKeepsInv` | pkg/broker/priority_index.go:140-269 | the invariant holds in every state any interleaving reaches |
| `PriorityIndexTheorems.InOnePlace` | pkg/broker/priority_index.go:140-269 | in every reachable state an entry added once is in exactly one place: a ring, in transit, popped once or evicted once |
| `PriorityIndexTheorems.QuiescentLen` | pkg/broker/priority_index.go:225-235 | with no call in progress Len equals the sum of the level counts and of the rings, and adds equal Len plus pops plus evictions |
| `PriorityIndexTheorems.LenIsNegativeIff` | pkg/broker/priority_index.go:158-160 | during calls Len is negative exactly when more adds have stored and not yet counted their entry than there are entries stored, in transit, or removed and not yet counted; it is never further below zero than the number of such adds |
| `PriorityIndexTheorems.LenCanBeNegative` | pkg/broker/priority_index.go:158-173 | for every k a run of k adds and k pops in which Len is -k, so that bound is met |
| `PriorityIndexTheorems.WaitsUpwards` | pkg/broker/priority_index.go:194-213 | only PopWithThreshold waits while holding a lock, it holds one then, and it waits on a higher level |
| `PriorityIndexTheorems.HoldsAtMostTwo` | pkg/broker/priority_index.go:194-213 | no thread holds more than two locks |
| `PriorityIndexTheorems.NoDeadlock` | pkg/broker/priority_index.go:140-269 | in every reachable state with an unfinished call some thread can take a step |
| `PriorityIndexTheorems.StepsDescend` | pkg/broker/priority_index.go:140-269 | every step brings its own call nearer its end and moves no other |
| `PriorityIndexTermination.EntriesDescend` | pkg/broker/priority_index.go:140-269 | no step brings an entry into play beyond those stored, in transit or about to be added |
| `PriorityIndexTermination.CallsFinish` | pkg/broker/priority_index.go:140-269 | from every reachable state and under every schedule the calls in progress take between them no more steps than a bound known there, and no step is possible exactly when all have returned |
| `PriorityIndexPops.CallScans` | pkg/broker/priority_index.go:164-223 | at every point of a pop, whatever other threads do, each level it has passed over was at some state of the call empty or without an earlier head than the best so far |
| `PriorityIndexPops.PopTakes` | pkg/broker/priority_index.go:164-223 | in every run a popped entry is the head of its level; at or above the threshold every higher level was empty during the call, below it every level from the threshold up was, and no other level below it had an earlier head, ties going to the lowest level |
| `PriorityIndexPops.UndisturbedPops` | pkg/broker/priority_index.go:164-223 | when the levels do not change during the call, that is the entry the sequential specification takes |
| `PriorityIndexPops.PopFindsNothing` | pkg/broker/priority_index.go:164-223 | a pop that returns nothing saw every level empty, each at some point of the call |
| `PriorityIndexSolo.RunCarriesStale` | pkg/broker/priority_index.go:237-269 | under every interleaving each entry a promotion holds has now - arrivedAt > ttl by that promotion's clock |
| `PriorityIndexSolo.TakeSplits` | pkg/broker/priority_index.go:243-252 | in every reachable state the step that empties a level into the promotion takes exactly its stale entries in order and leaves the others in order |
| `PriorityIndexCalls.PromotesAlone` | pkg/broker/priority_index.go:237-269 | a promotion no other thread interrupts leaves the rings the sequential promotion does, evicts what it evicts, and takes that off Len |
| `PriorityIndexCalls.AddsAlone` | pkg/broker/priority_index.go:140-162 | an uninterrupted Add appends to the level of the priority clamped to 0..9, evicting the oldest entry exactly when the level is full, and Len grows by one otherwise |
| `PriorityIndexCalls.PopsAlone` | pkg/broker/priority_index.go:164-223 | an uninterrupted pop takes the head the sequential pop takes and Len drops by one, or every level is empty and nothing changes |
| `LevinsonDurbin.FirstIsSound` | pkg/broker/load_predictor.go:274-275 | the first coefficient solves the 1-by-1 Yule-Walker system and the error is what it leaves of r[0] |
| `LevinsonDurbin.UpdatedRow` | pkg/broker/load_predictor.go:288-292 | what the in-place coefficient update does to every Toeplitz row: the row, minus k times the mirrored row, plus k times one autocorrelation |
| `LevinsonDurbin.NextIsSound` | pkg/broker/load_predictor.go:282-293 | if the coefficients solve the order-m system and e is r[0] minus the sum of a[j]*r[j+1], the same holds at order m+1 |
| `LevinsonDurbin.RunIsSound` | pkg/broker/load_predictor.go:274-296 | hence at every order the code passes through, early return included |
| `LevinsonDurbin.DelayedProduct` | pkg/broker/load_predictor.go:253-259 | two delays of the zero-padded series correlate as their difference says |
| `LevinsonDurbin.ErrorIsOrthogonal` | pkg/broker/load_predictor.go:274-296 | a solution's prediction error is orthogonal to everything it predicts from |
| `LevinsonDurbin.ErrorIsMeanSquare` | pkg/broker/load_predictor.go:275-293 | the running error is the mean squared prediction error of the current coefficients on the padded centred series, so it is never negative |
| `LevinsonDurbin.ErrorAlongRun` | pkg/broker/load_predictor.go:274-296 | at every order the error is that mean square and no larger than at the order before, and the reflection coefficient lies in [-1, 1] |
| `LevinsonDurbin.SolutionIsOptimal` | pkg/broker/load_predictor.go:274-296 | no coefficients of the same order predict with a smaller mean squared error |
| `LoadPredictor.LagSum` | pkg/broker/load_predictor.go:254-257 | the loop from the lag on computes the full zero-padded correlation |
| `LoadPredictor.LastStageEstimates` | pkg/broker/load_predictor.go:261-296 | what the recursion returns solves the system, predicts best of its order, and is short of order p only when the error is negligible |
| `LoadPredictor.Predictor.Correlate` | pkg/broker/load_predictor.go:253-259 | fills r with the sample autocorrelations |
| `LoadPredictor.Predictor.Reflect` | pkg/broker/load_predictor.go:288-292 | the copy and in-place loop perform one coefficient update |
| `LoadPredictor.Predictor.Recur` | pkg/broker/load_predictor.go:274-296 | the outer loop passes through the stages of the recursion and stops at order p or at a negligible error |
| `LoadPredictor.Predictor.YuleWalker` | pkg/broker/load_predictor.go:245-297 | estimates exactly when the variance is not negligible, and then returns an optimal Yule-Walker solution |
| `LoadPredictor.Predictor.Roll` | pkg/broker/load_predictor.go:223-237 | the sample is continued so that the prediction error of the coefficients is 0 at every forecast time; the forecast is that continuation plus the mean, clamped to [0, 1] |
| `LoadPredictor.Predictor.ArPredictInto` | pkg/broker/load_predictor.go:164-240 | zeros without samples, the mean without variance or order, else the clamped continuation of the sample without prediction error under coefficients that predict it best |
| `LoadPredictor.Order` | pkg/broker/load_predictor.go:184-197 | the order is at least 1 and, for more than one sample, at most half the samples, so the fallback to the mean is for one sample only |
| `LoadPredictor.OrderIsLargest` | pkg/broker/load_predictor.go:184-191 | the order is 1, or the largest p with p * p samples or fewer and 4 * p within the window |
| `LoadPredictor.ContinuesAlike` | pkg/broker/load_predictor.go:223-230 | there is one continuation of a sample without prediction error |
| `LoadPredictor.ComputedIsUnique` | pkg/broker/load_predictor.go:274-296 | the recursion has one outcome for a sample and an order |
| `LoadPredictor.ForecastsAgree` | pkg/broker/load_predictor.go:222-239 | forecasts of a sample over different horizons agree step by step |
| `LoadPredictor.ForecastGoesOn` | pkg/broker/load_predictor.go:208-240 | off the mean-only path, samples and forecasts relative to the mean are one series with no prediction error after the sample |
| `LoadPredictor.ForecastIsFraction` | pkg/broker/load_predictor.go:164-240 | loads in [0, 1] are forecast in [0, 1] on every path |
| `SampleRing.RingBuffer.Push` | pkg/broker/load_predictor.go:310-315 | the ring keeps the newest samples, each in the slot of its number |
| `SampleRing.RingBuffer.Values` | pkg/broker/load_predictor.go:318-335 | the newest samples that fit, oldest first, before and after wrapping |
| `SampleRing.RingBuffer.ValuesInto` | pkg/broker/load_predictor.go:339-358 | the same into a caller's buffer, a prefix of them when it is short, the rest of it untouched |
| `SampleRing.RingBuffer.CopyInto` | pkg/broker/load_predictor.go:360-374 | the two stretches around the write position are the samples in order |
| `Wire.MarshalInto` | pkg/broker/message.go:92-105 | filling the buffer field by field produces the encoding |
| `Wire.HeaderRoundTrip` | pkg/broker/message.go:96-146 | a header comes back whatever follows it, negative timestamps included |
| `Wire.RoundTrip` | pkg/broker/message.go:96-146 | a message comes back if and only if its key is shorter than 2^32; its header always does |
| `Wire.Canonical` | pkg/broker/message.go:107-133 | whatever decodes is the encoding of what it decodes to |
| `Wire.Layout` | pkg/broker/message.go:92-105 | priority, the three times, the key length modulo 2^32, key and value at their places, most significant byte first |
| `PartitionLog.PlainReads` | pkg/broker/partition.go:212-240 | a plain record reads as its message, marked as no part of a batch, if and only if its priority is neither magic byte |
| `PartitionLog.MagicReads` | pkg/broker/partition.go:212-240 | under a magic byte what is read is a batch made of the record itself, or of the record its timestamp points to |
| `PartitionLog.ContentReadsIff` | pkg/broker/partition.go:212-240 | header, key and value come back if and only if the priority is not magic or what is read instead is the same |
| `PartitionLog.BatchLookalikeDiffers` | pkg/broker/partition.go:212-240 | without a codec a plain record that passes for a batch never gives its own contents back |
| `PartitionLog.RedirectLookalike` | pkg/broker/partition.go:212-240 | a plain record that passes for a redirect can: a log in which it does |
| `PartitionLog.PickPacked` | pkg/broker/partition.go:257-300 | the cursor walk over the packed payload finds member i, for every i |
| `PartitionLog.LeaderReads` | pkg/broker/partition.go:257-300 | every member of a leader record decodes to its message |
| `PartitionLog.BatchRecordReads` | pkg/broker/partition.go:212-255 | leader and redirect records both lead to the leader's payload at their own index |
| `PartitionLog.SlotReads` | pkg/broker/partition.go:212-300 | any retained offset of any log of plain and batch records reads as its message, unless the leader of its batch has been cut off |
| `PartitionLog.NothingOutside` | pkg/broker/partition.go:212-216 | an offset outside the log is an error |
| `PartitionLog.AppendKeeps` | pkg/broker/partition.go:104-113 | appending records keeps what the log already stood for |
| `PartitionLog.TruncateKeeps` | pkg/broker/partition.go:358-365 | a cut keeps the meaning of everything at or above it |
| `PartitionLog.BatchRefinesPlain` | pkg/broker/partition.go:92-210 | a compressed append reads at every returned offset as the plain append of the same messages does |
| `PartitionLog.ShrinksWithin` | pkg/broker/partition.go:409-449 | dropping the fewest oldest records that fit the limit leaves a record exactly when the newest one fits |
| `Partition.Partition.constructor` | pkg/broker/partition.go:45-71 | an empty partition starts at offset 1 |
| `Partition.Partition.Reopen` | pkg/broker/partition.go:45-71 | reopening continues after the last record and keeps what the log stands for |
| `Partition.Partition.AppendBatch` | pkg/broker/partition.go:92-134 | success gives consecutive offsets and one stamped plain slot per message; it happens exactly when no write has failed since opening and this one does not; a failure changes no record but uses up the offsets |
| `Partition.Partition.AppendBatchCompressed` | pkg/broker/partition.go:139-210 | the same with one batch of slots, failing also when the payload does not encode |
| `Partition.Partition.Pack` | pkg/broker/partition.go:153-161 | the payload is the messages behind their lengths |
| `Partition.Partition.Read` | pkg/broker/partition.go:212-240 | dispatches on the first byte as the specification of reading does, every malformed case an error |
| `Partition.Partition.ReadFromBatchData` | pkg/broker/partition.go:257-300 | the cursor loop finds the member the recursive definition finds, with the same errors |
| `Partition.Partition.HighWaterMark` | pkg/broker/partition.go:302-309 | the newest offset; past it only after a failed write |
| `Partition.Partition.TruncateFront` | pkg/broker/partition.go:358-365 | cuts exactly below the offset when it is in the log, else fails without change |
| `Partition.Partition.TruncateOldestUntilSize` | pkg/broker/partition.go:409-449 | drops the fewest oldest records, and ends within the limit exactly when the newest record is |
| `Publishing.ShareDelivers` | pkg/broker/broker.go:391-411 | on the batch, per-value and uncompressed paths alike the stored slot gives its message back, if the lengths of the batch fit or, on its own, its first byte is no magic byte |
| `Publishing.ShareIsStored` | pkg/broker/broker.go:391-411 | a share is one batch exactly with compression and several messages; it fails exactly when the batch, or the single value, does not encode |
| `Publishing.AcceptedIff` | pkg/broker/broker.go:348-433 | exactly the inputs within the size limit and not held back whose partition wrote are accepted, at the partition chosen for them |
| `Publishing.PlacesAreOrdered` | pkg/broker/broker.go:348-433 | accepted inputs get distinct places, in input order within a partition |
| `Publishing.NothingElseIsStored` | pkg/broker/broker.go:377-426 | every new record is some accepted input's, so rejected ones are in no log |
| `Broker.LoneIsOneGroup` | pkg/broker/broker.go:428-433 | there is one group exactly when all accepted inputs go to one partition |
| `Broker.Topic.Group` | pkg/broker/broker.go:356-375 | the groups are the accepted inputs by partition in input order, and no empty group |
| `Broker.Topic.EncodeValues` | pkg/broker/broker.go:398-407 | encodes all values or fails |
| `Broker.Topic.AppendShare` | pkg/broker/broker.go:391-411 | one block of slots at consecutive offsets, or nothing |
| `Broker.Topic.PublishBatch` | pkg/broker/broker.go:327-454 | an input is accepted exactly when it is within the size limit, not held back, its partition exists, has an I/O slot or is the only one chosen, is in order and writes, and its share encodes; a partition takes its share as one block whose members get consecutive offsets, and all others are unchanged |
| `Broker.Topic.Publish` | pkg/broker/broker.go:273-319 | accepted exactly when within the size limit, encodable, in range, not throttled and written; then one slot at the next offset of the chosen partition, with the key, priority and timestamp of the message, the encoded value and the clock of the call |
| `Broker.SentIsDelivered` | pkg/broker/broker.go:273-319 | a consumer at the offset Publish returned gets the key, value, priority and timestamp of the message and the times of the call, if and only if its key length fits and its priority is no magic byte or what is read in its place is the same |
| `Broker.AcceptedIsDelivered` | pkg/broker/broker.go:260-454 | a consumer at an accepted input's offset gets the caller's key, value, priority and timestamp and the times of the call, on every compression path, whatever the other partitions and the rejected inputs are |
| `Broker.Topic.ConsumeFrom` | pkg/broker/broker.go:472-501 | reads through FIFO and undoes the compression, distinguishing no message from a failure |
| `OffsetKeys.KeyIsUnique` | pkg/broker/offset_store.go:103-105 | within a topic a key determines partition and group |
| `OffsetKeys.CollideIff` | pkg/broker/offset_store.go:103-105 | two topics share a key if and only if one name is confusable with the other |
| `OffsetKeys.ConfusableHasSlash` | pkg/broker/offset_store.go:103-105 | names without slashes never collide |
| `OffsetKeys.ScanFinds` | pkg/broker/offset_store.go:133-147 | the prefix scan finds a key exactly when some group of that topic and partition has it |
| `OffsetKeys.ScanIsExact` | pkg/broker/offset_store.go:133-147 | among names that are not confusable it selects the groups of one topic and partition and no others |
| `OffsetKeys.SlashesCollide` | pkg/broker/offset_store.go:103-105 | topics "a" and "a/1" do share a key |
| `OffsetKeys.DigitsRead` | pkg/broker/offset_store.go:103-105 | the partition in a key is its decimal numeral |
| `OffsetStore.Store.constructor` | pkg/broker/offset_store.go:55-101 | opening makes the cache the durable map, nothing else: the reopening step of the delivery model |
| `OffsetStore.Store.Commit` | pkg/broker/offset_store.go:110-120 | the client-commit step of the delivery model: caches always, persists at once only without a dump loop, and reports only that write's failure |
| `OffsetStore.Store.CommitFloor` | pkg/broker/offset_store.go:133-152 | the true minimum under the prefix, 0 when there is none |
| `OffsetStore.Store.DeleteTopic` | pkg/broker/offset_store.go:154-174 | the deletion step of the delivery model: exactly the cached keys under the topic go, durably those of them the flush gets to |
| `OffsetStore.Store.Dump` | pkg/broker/offset_store.go:200-222 | the flush step, complete or partial: the written keys get their cached offsets, all others keep theirs |
| `OffsetStore.Store.ExpireSessions` | pkg/broker/offset_store.go:226-239 | the expiry step: a cached offset goes exactly when its last commit is more than the timeout ago, from the cache only |
| `OffsetStore.DeletedStaysDeleted` | pkg/broker/offset_store.go:154-174 | a deletion leaves no durable key of the topic if and only if all of them were cached and erased |
| `Delivery.CommitIsSafeIff` | pkg/broker/broker.go:556-561 | exactly the start and the offsets after a handed-out message are safe for a client to commit |
| `Delivery.RunIsSafe` | pkg/broker/offset_store.go:70-239 | over every run of consuming, such commits, complete and partial flushes, expiry, clean deletion, reopening and crashes that lose no record a durable offset has passed, every cached or durable offset only passes messages already handed to its group |
| `Delivery.CrashIsSafeIff` | pkg/broker/partition.go:19-26 | losing the end of a log is safe for a group exactly when its durable offset is not past what is left |
| `Delivery.LossSkips` | pkg/broker/partition.go:19-26 | for every loss of consumed records, the run in which a group with a synced offset skips the record that takes the first lost offset |
| `Delivery.NeverSkips` | pkg/broker/broker.go:503-542 | wherever a group is next served, also after a crash, every earlier message has been handed to it |
| `Delivery.RestartResumes` | pkg/broker/offset_store.go:24-28 | after consuming on and a restart a group is back at the position of its last flush or synced commit, or at the start without one |
| `Delivery.DeleteIsSafeIff` | pkg/broker/offset_store.go:154-174 | deleting a topic is safe for a group exactly when it has no durable offset, or one still at the start, or one that is also cached and erased |
| `Delivery.UncleanDeleteSkips` | pkg/broker/offset_store.go:154-239 | the run in which an expired group skips messages of a recreated topic |
| `Serving.ServedIff` | pkg/scheduler/fifo.go:12-24 | in any log, cut or not, a readable slot is served at its offset if and only if the leader of its batch, or the record of its own, is retained, and fails otherwise |
| `Serving.UnservedOutside` | pkg/scheduler/fifo.go:13-16 | past the high-water mark there is no message, at offset 0 an error |
| `Serving.UnretainedFails` | pkg/scheduler/fifo.go:12-24 | a slot whose record, or whose batch leader, is gone fails to be served, whether or not it could be read back |
| `Sessions.GotServes` | pkg/broker/broker.go:518-532 | in any log a batch of a group is consecutive retained slots from its cached offset, each delivered as written if it can be read back, and stops short only at the end of the log, at a slot whose record is gone or at one that cannot be read back |
| `Sessions.BatchIsComplete` | pkg/broker/broker.go:518-532 | where every slot ahead is retained and readable a batch is as long as asked for or reaches the end of the log |
| `Sessions.TakenIsFetch` | pkg/broker/broker.go:503-542 | what the batch loop takes and commits is a fetch step of the group's session |
| `Sessions.AppendIsGrowth` | pkg/broker/partition.go:92-210 | every append is a growth step: the slots determine the log up to where it starts |
| `Sessions.ShareIsGrowth` | pkg/broker/broker.go:377-411 | whatever a publish appends is a growth step, and the messages it can carry are readable in it |
| `Sessions.FetchesAreTheLog` | pkg/broker/broker.go:503-542 | from any start offset and over any run of batches of any sizes, appends of any slots, cuts, flushes and commits or expiry of other groups, what a group is handed is consecutive slots from the start to the offset reached, each as written if it can be read back: no gap, repeat or reordering |
| `Sessions.FetchFailsIff` | pkg/broker/broker.go:520-536 | a stuck group gets nothing; at a readable slot a batch comes back empty exactly when the group has read everything or is stuck |
| `Sessions.NewGroupStuckIff` | pkg/broker/broker.go:509-516 | a group without an offset is stuck exactly when anything has been cut from a log that is not empty |
| `Sessions.FreedIff` | pkg/broker/broker.go:503-561 | exactly the commits to the group, expiries and reopenings that set its offset past the log or to a record that is there free a stuck group; every other step leaves it at its offset |
| `Sessions.StuckUntilFreed` | pkg/broker/broker.go:503-542 | in any run a stuck group is handed nothing for as long as no such step happens |
| `Consuming.TakeBatch` | pkg/broker/broker.go:518-532 | the loop takes messages until the limit, the end or the first unreadable one |
| `Consuming.ConsumeBatch` | pkg/broker/broker.go:503-542 | takes from where the group left off, commits the offset after the last message taken, commits nothing without one or for a partition that does not exist, and is a consuming step of the delivery model and a fetch of the session |
| `Consuming.LoadIsPosition` | pkg/broker/broker.go:509-516 | the start offset is the stored one unless a negative offset was stored |
| `Consuming.EventsAreOps` | pkg/broker/offset_store.go:107-239 | commits, flushes, expiry and reopening do the same to the offsets of a session and of the delivery model |
| `Consuming.TruncateAtFloor` | pkg/broker/broker.go:758-763 | cuts at the commit floor exactly when it is past 1 and in the log; no cached offset is cut off, and a durable one exactly when a cut is made above it; a readable offset is served afterwards exactly when it was before and no cut was made above the record it is read from |
| `Consuming.RetainedReads` | pkg/broker/partition.go:358-365 | a retained offset reads as before a cut if and only if the leader of its batch is retained |
| `Consuming.ServedAfterFloorIff` | pkg/broker/broker.go:758-763 | after retention at any floor a readable offset is served exactly when the record it is read from was there and no cut was made above it |
| `Consuming.CutInsideBatch` | pkg/broker/broker.go:758-763 | for every compressed batch and every place inside it: the run, without a crash, in which a group that is about to be served there is stuck after the cut at its own floor |
| `Consuming.CutStrands` | pkg/broker/broker.go:758-763 | for all a < b: a run of the session in which a group is flushed at a and consumes on to b, the floor; cut there and reopened, it is back at a and stuck |
| `Lru.VictimIsOld` | pkg/balancer/psa.go:48-51 | the cache does not evict a key while fewer than its capacity of other keys have been used since |
| `Lru.AddEvicts` | pkg/balancer/psa.go:48-57 | a new key in a full cache drops exactly the key after whose last use all the others were used; with room it drops none |
| `Lru.BindingSticks` | pkg/balancer/psa.go:73-93 | a key keeps its partition for as long as fewer other keys than the capacity are used in between |
| `Psa.ClaimIsLeastIff` | pkg/balancer/psa.go:91-117 | a partition claimed after the skip is least loaded among all free ones if and only if some least-loaded free partition lies after the skip |
| `Psa.ClaimMissesLeast` | pkg/balancer/psa.go:91-117 | with partitions 0 and 1 free at loads 0.1 and 0.9 and the first skipped, 1 is claimed |
| `Psa.AvgLoad` | pkg/balancer/psa.go:254-263 | the arithmetic mean, 0 without loads |
| `Psa.UnbindAgrees` | pkg/balancer/psa.go:60-71 | taking a key out of both maps keeps them in agreement, an emptied partition becoming free |
| `Psa.Balancer.constructor` | pkg/balancer/psa.go:38-58 | no bindings, every partition free |
| `Psa.Balancer.Bind` | pkg/balancer/psa.go:142-149 | the key is in exactly one partition's set, the least recently used key leaves both maps when the cache is full, and empty partitions are free |
| `Psa.Balancer.LeastLoaded` | pkg/balancer/psa.go:102-115 | the first least loaded partition among those seen with a known load, or none |
| `Psa.Balancer.ClaimFreePartition` | pkg/balancer/psa.go:95-140 | claims the first least loaded free partition among those after the skip, else among all; none exactly when no free partition has a known load, so none before the first metrics |
| `Psa.Balancer.SelectPartition` | pkg/balancer/psa.go:73-93 | a bound key keeps its partition; a new one gets the first least loaded free partition after the skip, else of all, else the hashed one, is bound there at the given time, and both maps agree; it fails exactly when there is no partition to bind to |
| `Psa.Balancer.ReleasePartition` | pkg/balancer/psa.go:193-223 | at least 500 ms after the last binding, or without one, all keys of the partition leave both maps and it is free; before, nothing changes |
| `Psa.Balancer.StealOneBinding` | pkg/balancer/psa.go:226-248 | moves exactly one key in both maps, or changes nothing; an emptied source becomes free |
| `Psa.Balancer.TakeOver` | pkg/balancer/psa.go:173-188 | an idle partition takes a key from the first other one above the average |
| `Psa.Balancer.OnMetrics` | pkg/balancer/psa.go:151-191 | a key loses its binding exactly when the last binding to its partition is 500 ms old and the partition is empty or above twice the mean load, and that partition is free; then each idle partition in turn takes one key of the first other one above 1.5 times the mean; all other keys stay |
| `Fallback.FellBackExtends` | pkg/balancer/dqn.go:339-353 | one more tick changes "some 3 bad ticks in a row without 10 good ones in a row later" as the counters say |
| `Fallback.RecentlyBadExtends` | pkg/balancer/dqn.go:339-353 | and "a bad tick among the last 10" likewise |
| `Fallback.FallbackSuppresses` | pkg/balancer/dqn.go:339-353 | active fallback implies suppressed exploration |
| `Fallback.Watchdog.ShouldFallback` | pkg/balancer/dqn.go:321-337 | a tick is bad exactly when throughput is below its share of a known base, or the mean load above a set threshold |
| `Fallback.Watchdog.Tick` | pkg/balancer/dqn.go:339-353 | one tick, good or bad, keeps the counters and both flags what the whole history says |
| `Fallback.Watchdog.OnMetrics` | pkg/balancer/dqn.go:339-353 | after any history fallback is active exactly when some 3 consecutive bad ticks have no later 10 consecutive good ones, and exploration suppressed exactly when one of the last 10 was bad |
| `BufferedProducer.Producer.Send` | pkg/transport/client.go:220-273 | for every state and message: which batches go out, whether the message is accepted, and the reply; the retry after a flush ends; the buffer stays under both limits |
| `BufferedProducer.Producer.HandOver` | pkg/transport/client.go:236-243 | the batches handed over followed by the buffer remain the accepted messages in order |
| `BufferedProducer.Producer.Append` | pkg/transport/client.go:247-272 | a message that fits is buffered, and the buffer goes out exactly when that reaches a limit |
| `BufferedProducer.Producer.Flush` | pkg/transport/client.go:276-288 | hands over the whole buffer as one batch, if there is anything in it |
| `BufferedProducer.Producer.FlushFromTimer` | pkg/transport/client.go:313-321 | keeps the first failure for the next Send |
| `BufferedProducer.Producer.Close` | pkg/transport/client.go:292-311 | afterwards everything accepted has been handed over exactly once, and nothing more is accepted |
| `Lasso.Minimises` | pkg/preprocessing/lasso.go:101-109 | soft thresholding is the exact minimiser of b*b/2 - rho*b + alpha*abs(b) for alpha >= 0 |
| `Lasso.MinimisesIff` | pkg/preprocessing/lasso.go:101-109 | and for other alpha exactly when the correlation is not strictly between alpha and 0 |
| `Lasso.ResidualAlong` | pkg/preprocessing/lasso.go:65-73 | changing one coefficient moves the residual along its column |
| `Lasso.ObjectiveAlong` | pkg/preprocessing/lasso.go:63-73 | along one coordinate the objective is a constant plus the function soft thresholding minimises |
| `Lasso.StepDescends` | pkg/preprocessing/lasso.go:63-73 | a coordinate step reaches the least objective any value of that coefficient can |
| `Lasso.UpdateCoordinate` | pkg/preprocessing/lasso.go:63-77 | sets the coefficient to the thresholded correlation and keeps the residual equal to Y minus X*beta |
| `Lasso.Sweep` | pkg/preprocessing/lasso.go:60-82 | a pass steps through the coordinates in order, never raises the objective, and ends below the tolerance exactly when no coefficient moved that far |
| `Lasso.Descend` | pkg/preprocessing/lasso.go:53-82 | stops after the first pass below the tolerance or the thousandth, with the residual exact and the objective no higher than at the start |
| `LassoOptimum.StrongMinimum` | pkg/preprocessing/lasso.go:101-109 | away from the threshold a coordinate costs at least half the square of the distance more |
| `LassoOptimum.RestIffOptimal` | pkg/preprocessing/lasso.go:53-82 | for columns no larger than standardised ones, no coordinate step changes the coefficients if and only if they have the least objective of all coefficient vectors |
| `LassoOptimum.SweepStopsIffOptimal` | pkg/preprocessing/lasso.go:60-82 | and a whole pass leaves them unchanged if and only if they have |
| `LassoOptimum.StandardisedIsSmall` | pkg/preprocessing/lasso.go:27-38 | columns centred and divided by their sample standard deviation, or by 1 if that is too small, are no larger |
| `Welford.StepTracks` | pkg/nn/normalizer.go:39-42 | one update keeps the exact mean and the exact sum of squared deviations |
| `Welford.TracksMean` | pkg/nn/normalizer.go:68-69 | the tracked mean is the arithmetic mean, and the value under the root is never negative |
| `Welford.RunningNormalizer.Observe` | pkg/nn/normalizer.go:29-44 | vectors of the wrong length are ignored, all others enter both statistics exactly |
| `Welford.RunningNormalizer.NormalizeInPlace` | pkg/nn/normalizer.go:55-72 | relative to the mean and the sample deviation of the history, whose square times one less than the count is the sum of squared deviations; zeros with fewer than two observations, components past the size untouched |
| `Welford.NormalisedHistory` | pkg/nn/normalizer.go:9-10 | normalising the history gives mean 0 and a sum of squares of (std / (std + 1e-8))^2 times one less than the count, so a sample variance below 1 |

## Left out

- The neural network code: DDPG, the DQN policy and training loops, target networks, the DQN scheduler.
- Codec internals: a codec is any pair of partial functions of which decoding inverts encoding.
- The write-ahead log library: a contiguous run of records; an append must start after the last one, a cut must stop inside it; what a crash leaves of a partly written batch is not modelled.
- BadgerDB: a durable map whose writes succeed or fail, a flush or a batch of deletions possibly in part.
- The LRU library: a recency-ordered bounded map, as `Lru` states it.
- gRPC, HTTP and Kafka front ends, retries and fetch waits around the modelled calls, generated code, commands, experiments, deployment.
- Metrics, backpressure thresholds, round robin, power-of-two-choices counters, sampling: settled by one branch each.
- `Rebuild` and `TruncateBefore`: they read record headers and do not understand redirects.
- Codec changes after topic creation, and topic and scheduler lookup failures.
- Registration of appended messages in the priority index and the consumers that pop from it: the index is modelled on its own.
- PCA selection, and the parts of the Lasso selection around the descent: computing the means and deviations its columns are standardised with, and choosing and scaling the weights.
- `float64` rounding, NaN and infinities: arithmetic is exact, square roots are exact.
- Integer overflow of offsets and counters, except the 32-bit and 64-bit fields of the wire format and the signed reading of stored offsets.
- Sharing of message objects between the caller and the log: publishing overwrites values and timestamps in the caller's messages, the model stores changed copies.
- Concurrency outside the priority index: the other classes are modelled one call at a time; the groups of a batch publish are appended in any order but not interleaved.
- PriorityIndexSteps: thresholds are not negative; a negative one ends the process on an empty index.
- PriorityIndex.Index.LevelDistribution: reads all counts at one moment; during concurrent calls the source reads them one after the other.
- Psa.Balancer.SelectPartition: says nothing of the state after a panic; a free partition it returns is in range for the balancer, not for a topic with fewer partitions.
- Psa.Balancer.ClaimFreePartition: sequential, so the claimed partition is always still free and the code's second look at the free set is not modelled.
- Delivery.RunIsSafe: cuts are not steps because they change no offset; they are steps of `Sessions`. A crash loses the end of one log at a time.
- Sessions.FetchesAreTheLog: for one consumer of a group at a time, and between the steps that set its own offset otherwise (a client's commit, its expiry, a reopening); deleting the topic is not a step of a session, and says nothing of the message handed out at a slot that cannot be read back.
- Broker.Topic.ConsumeFrom: FIFO scheduling only.
- BufferedProducer.Producer.Send: one call at a time; a Close between a flush and the retry inside one Send is not modelled.
