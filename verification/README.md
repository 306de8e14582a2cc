# Moderation platform: verified model

A Dafny 4.11 model of the parts of the moderation platform in which state, order or arithmetic can go wrong, with
proofs of what they keep. `dafny verify dfyconfig.toml` checks the whole project.

| modules | what they model |
|---|---|
| `ThresholdCalibration` | the per-label F1 cutoff search over sorted scores and prefix sums |
| `ModerationLabels`, `BitMasks`, `DatasetSchema`, `TopicMatcher`, `TopicRelabeler`, `DatasetMerger`, `DatasetAuditor`, `CurationPipeline` | dataset curation: label matching, relabelling, bit-mask packing, upsert merge, split writing, audit gate |
| `RateLimiter` | the sliding-window limiter whose dictionary evicts its least recently used keys |
| `MediaPolicyStore`, `MediaPolicyResolver` | policy rows with revisions and an audit log, and the resolver cache filled across an await |
| `ModerationQueue`, `QueueWorker` | the priority queue and its retrying workers, with closing, draining and cancellation |
| `RequestQueue` | the API's bounded request queue: futures, retries, drain, forced stop, overlapping stops and restarts |
| `RabbitWorker` | batch workers against a broker that redelivers what was not acknowledged |
| `StableSort`, `NonMaxSuppression`, `AttachmentLoop` | greedy suppression of overlapping boxes in the runtime and in the guild policy, and the per-request attachment loop |
| `RuleEngine`, `ActionSelector` | the path from signals to a risk score, a primary label and an action |
| `ConfigText`, `ConfigScalars`, `ConfigTree`, `ConfigLoader`, `ConfigFiles` | the fallback indentation parser with its stack of aliased dictionaries, and files printed for it |
| `Luhn`, `ScamHashes` | the payment-card check and the perceptual-hash matcher |
| `Wrappers`, `Sequences`, `Reals` | shared datatypes, and facts about sequences and sums |

Components that change state in place are classes or loops, proved against functions; the theorems are about those
functions. Concurrent components are transition systems whose steps are the code between two awaits; a theorem about
"every run" quantifies over every sequence of such steps. Scores, thresholds, boxes and times are exact reals.

Where the code falls short of what it promises, the model keeps the code and says when it does not:

* The calibrated threshold is exported rounded to six decimals. The predictions survive if and only if it is not rounded
  up and no score lies in the step it is rounded down by (`ExportKeepsPredictionsIff`). With no score in that step, F1 is
  lost if and only if the threshold is rounded up and some row is positive (`ExportLosesIff`); all of it is lost by a
  single positive at 0.1234567 (`SinglePositiveIsLostIff`, `RoundingCanLoseEverything`).
* The curation run passes its gate if and only if the schema has every label the matcher flags on some input text, and
  has SAFE or every relabelled record keeps another label (`GatePassesIffSchemaCovers`). A row the schema writes passes
  the schema's validation if and only if the schema has some label the row ends up with, or lacks SAFE
  (`WrittenRowValidatesIff`, `AddedLabelOutsideSchemaIsLost`).
* For a positive limit and window, the rate limit holds in every run over a set of keys if and only if the dictionary has
  room for all of them (`LimitHoldsIffRoom`, `EvictionForgets`).
* A close during the retry backoff can drop a task if and only if there are a backoff, a second attempt and a worker
  (`CloseDuringBackoffDrops`); it does so exactly when a worker wakes to a closed queue (`DroppedByLateWake`).
* A handler that raises a cancellation ends its worker and loses the task (`LostWithItsWorker`). That can desert an open
  queue, tasks waiting in it for good, if and only if there is a worker to lose (`HandlersCanDesert`, `GoneForGood`).
* A queue full of retries that only a cancellation unblocks can be reached if and only if the queue is bounded and there
  are a second attempt and a worker (`RetriesCanGetStuck`, `StuckUntilCancelled`).
* A forced stop can leave the future of a call in progress pending for good if and only if there is a worker
  (`ForcedStopLeavesPending`, `AbandonedStaysPending`).
* An accepting request queue loses its last live worker exactly when a `stop` acts after the next start, or the service
  cancels the call of the only live worker (`UnservedExactly`). The former can happen after a start if and only if a
  `stop` was still in progress (`StartIsServedIffNoStop`, `LateStopLeavesNobody`); the latter, without any stop, if and
  only if there is a worker, and then nobody replaces the dead (`DesertedWithoutStop`, `NobodyComesBack`).
* Each task stays due exactly one result through a run if and only if no worker crashes with a result not acknowledged
  and no batch raises after its first result (`OnceThroughoutIffHarmless`); a run with two results for one task exists if
  and only if workers take tasks at all (`SecondResultIsPossible`).
* A required provider that fails makes the attachment loop dereference hashes that are not there (`Analyze`).
* Outside PASSIVE mode and without label overrides, and with disagreements sent to review, adding signals weakens the
  action in exactly three cases (`AddingSignals`): the models now disagree and the action was above REVIEW, they no longer
  disagree and it falls below, or the low-confidence downgrade holds it back (`DisagreementCanWeaken`,
  `DowngradeCanWeaken`). In PASSIVE mode the maximum action holds unless a disagreement goes to a REVIEW that precedes it
  (`PassiveIsCappedIff`). The model agreement ignores the order of signals if and only if it is off, a model is silent,
  the models share no label, or they share their only one (`AgreementIsOrderFreeIff`, `AgreementCanDependOnOrder`).
* A list in a configuration file is read back if and only if no text in it holds a comma and no list inside it has more
  than one item (`ListRoundTrip`), and a line only if no `#` occurs, quoted or not (`LineRoundTrip`).

## Model

| member | source | states |
|---|---|---|
| `ThresholdCalibration.MetricsMeaning` | src/training/calibrate_rubert_thresholds.py:29-36 | precision times the number of predicted rows, and recall times the number of positive rows, are the number of rows that are both; F1 times the sum of those numbers is twice that; each is zero when its rows are missing |
| `ThresholdCalibration.HarmonicIsDice` | src/training/calibrate_rubert_thresholds.py:29-36 | for all counts, the harmonic mean of precision and recall with its zero guards is 2TP/(2TP+FP+FN), zero when the denominator is |
| `ThresholdCalibration.CountPermuted` | src/training/calibrate_rubert_thresholds.py:41-43 | confusion counts do not depend on the order in which rows are visited, so neither on how the sort breaks ties |
| `ThresholdCalibration.F1AtSplit` | src/training/calibrate_rubert_thresholds.py:44-49 | if exactly the first k sorted rows reach a threshold, the F1 of the predictions at that threshold is the prefix-sum ratio at k |
| `ThresholdCalibration.BestIndex` | src/training/calibrate_rubert_thresholds.py:50-53 | the position chosen is the last occurrence of its score, no other last occurrence is better, and every earlier one is worse |
| `ThresholdCalibration.NoThresholdBeats` | src/training/calibrate_rubert_thresholds.py:39-56 | no real threshold has a larger F1 than the chosen position, no larger score ties with it, and no larger threshold does unless its F1 is zero |
| `ThresholdCalibration.BestThresholdIsOptimal` | src/training/calibrate_rubert_thresholds.py:39-56 | for all scores and targets and any order of ties, the result is one of the scores, its F1 is the maximum over all real thresholds, it is the largest score reaching that maximum, and the largest real threshold if the maximum is not zero, and the metrics returned are its own; it fails exactly on no scores |
| `ThresholdCalibration.BestMetricsMeaning` | src/training/calibrate_rubert_thresholds.py:54-56 | the metrics returned are, in the same terms, those of the rows whose score reaches the returned threshold |
| `ThresholdCalibration.Round6Meaning` | src/training/calibrate_rubert_thresholds.py:94 | the exported value is the nearest number of millionths, the even one of two equally near |
| `ThresholdCalibration.RoundedThresholdPredictions` | src/training/calibrate_rubert_thresholds.py:94 | a moved threshold makes the same predictions if and only if no score lies between it and the original |
| `ThresholdCalibration.ExportKeepsPredictionsIff` | src/training/calibrate_rubert_thresholds.py:94 | rounding a calibrated threshold half to even at six decimals keeps its predictions if and only if it is not rounded up and no score lies in the step it is rounded down by |
| `ThresholdCalibration.ChangedScoresAreNear` | src/training/calibrate_rubert_thresholds.py:94 | a score whose prediction the rounding changes is within half a millionth of the threshold |
| `ThresholdCalibration.ExportLosesIff` | src/training/calibrate_rubert_thresholds.py:94 | for every column and tie order the exported threshold never gains F1, and with no score in a step it is rounded down by it loses some if and only if it is rounded up and some row is positive |
| `ThresholdCalibration.SinglePositiveIsLostIff` | src/training/calibrate_rubert_thresholds.py:94 | in a column of one positive row the loss is that of a perfect F1 to zero |
| `ThresholdCalibration.RoundingCanLoseEverything` | src/training/calibrate_rubert_thresholds.py:94 | 0.1234567 is exported as 0.123457 and loses its single positive |
| `RateLimiter.LocalRateLimiter.constructor` | src/infrastructure/api/local_rate_limiter.py:7-12 | the dictionary starts empty |
| `RateLimiter.LocalRateLimiter.Allow` | src/infrastructure/api/local_rate_limiter.py:14-24 | one call under the lock: the answer and the new dictionary, and the KeyError on an empty dictionary when the key bound is negative |
| `RateLimiter.LocalRateLimiter.Trim` | src/infrastructure/api/local_rate_limiter.py:22-23 | eviction leaves exactly the newest keys within the bound, or fails after emptying the dictionary |
| `RateLimiter.DictionaryOrderIsRecency` | src/infrastructure/api/local_rate_limiter.py:14-24 | after every run the dictionary holds the most recently used keys, at most the bound, in the order of their last use |
| `RateLimiter.KeptIffAlive` | src/infrastructure/api/local_rate_limiter.py:21-23 | a key is still stored if and only if it was called and fewer than `max_keys` distinct other keys were called since |
| `RateLimiter.LimiterAnswersByLog` | src/infrastructure/api/local_rate_limiter.py:14-24 | over every run with a nondecreasing clock the answers are those of an unbounded log that forgets a key only when it is evicted |
| `RateLimiter.AnswersAsUnboundedLog` | src/infrastructure/api/local_rate_limiter.py:14-24 | for a never evicted key a call is admitted if and only if fewer than `limit` earlier admitted calls of the key are younger than the window |
| `RateLimiter.WindowNeverExceedsLimit` | src/infrastructure/api/local_rate_limiter.py:14-24 | wherever a window starts, it admits at most `limit` calls of a never evicted key |
| `RateLimiter.LimitHoldsIffRoom` | src/infrastructure/api/local_rate_limiter.py:14-24 | for a positive limit and window, every run over a set of keys with a nondecreasing clock keeps every key within the limit in every window if and only if the dictionary has room for all the keys |
| `RateLimiter.EvictionForgets` | src/infrastructure/api/local_rate_limiter.py:22-23 | with room for one key and one call allowed per window, every run in which no key is called twice in a row is admitted entirely, however often a key comes back |
| `ModerationLabels.ResolvePrimaryLabel` | src/training/datasets/moderation_label_priority.py:26-36 | the result is one of the labels and none has better priority; no labels give SAFE |
| `DatasetSchema.ReadLabelsLoop` | src/training/curation/moderation_dataset_schema.py:120-134 | the loop over label names computes the specified set, or fails on an unknown name |
| `DatasetSchema.NormalizeSafeMeaning` | src/training/curation/moderation_dataset_schema.py:136-143 | after normalisation SAFE is present exactly when nothing else is, and harmful labels are untouched |
| `DatasetSchema.NormalizedSeverity` | src/training/curation/moderation_dataset_schema.py:49-52 | a row of SAFE alone has severity zero, any other row the larger of its own and the minimum |
| `DatasetSchema.NormalizedFields` | src/training/curation/moderation_dataset_schema.py:40-65 | stripped text, a one in the vector for exactly the named labels, the primary label first by priority, and the given id before the row's own |
| `DatasetSchema.ValidateMeaning` | src/training/curation/moderation_dataset_schema.py:83-99 | a row validates exactly when it normalises to the vector, primary label and severity it states, zero if it states none |
| `DatasetSchema.WrittenRowValidatesIff` | src/training/curation/moderation_dataset_schema.py:33-99 | a row the schema wrote, whatever labels were added, passes its validation, and is reproduced unchanged when normalised again, if and only if the schema has some label of the row's normalised selection or lacks SAFE |
| `DatasetSchema.NormalizedRowIsStable` | src/training/curation/moderation_dataset_schema.py:33-99 | so it does whenever the added labels are in the schema |
| `DatasetSchema.AddedLabelOutsideSchemaIsLost` | src/training/curation/moderation_dataset_schema.py:33-65 | an added label missing from the schema leaves a severe row without labels that fails the schema's own validation |
| `DatasetSchema.LabelsToMaskLoop` | src/training/curation/moderation_dataset_schema.py:101-106 | setting one bit per selected label gives the specified mask, in whatever order the set yields them |
| `DatasetSchema.MaskRoundTrip` | src/training/curation/moderation_dataset_schema.py:101-115 | packing and unpacking a label set normalises SAFE and changes nothing else |
| `DatasetSchema.OrDecodesToUnion` | src/training/curation/moderation_dataset_schema.py:101-118 | decoding the OR of two packed non-empty label sets gives the SAFE-normalised union |
| `BitMasks.BitOr` | src/training/curation/deduplicating_dataset_merger.py:139-141 | a bit of the OR is set if and only if it is set on either side |
| `BitMasks.MasksAreBits` | src/training/curation/moderation_dataset_schema.py:101-118 | masks with the same bits are equal numbers |
| `TopicMatcher.ProximateMeaning` | src/training/curation/sensitive_topic_matcher.py:225-238 | two kinds of matches are near when one of each lies at most the distance from the other, on either side |
| `TopicMatcher.FindInTopic` | src/training/curation/sensitive_topic_matcher.py:90-180 | the topic loop's branches add exactly the labels due to the evidence near the topic, and its severity is that of the worst finding |
| `TopicMatcher.Annotate` | src/training/curation/sensitive_topic_matcher.py:78-202 | the mentioned topics in order, and labels and severity over all of them; a counter-speech text gets no label and asks for review when any harm pattern matches, any other text when a mentioned topic got no label |
| `TopicMatcher.FlaggedMeaning` | src/training/curation/sensitive_topic_matcher.py:90-202 | for every label, a text without supportive context gets it exactly when some mentioned topic earns it by what lies within its configured distance, or within eight characters where contact is required, and by the group context; any other text gets none |
| `TopicMatcher.FlaggedSeverityMeaning` | src/training/curation/sensitive_topic_matcher.py:90-202 | the severity reaches five, four, three or one exactly when some topic reaches it, by the same findings |
| `TopicMatcher.AnnotationShape` | src/training/curation/sensitive_topic_matcher.py:78-202 | only THREAT, HATE, TOXIC, NSFW and PROFANITY are emitted, HATE and THREAT never without TOXIC, HATE only for a mentioned group topic, severity is positive exactly when there is a label and at most five |
| `TopicRelabeler.RelabelFile` | src/training/curation/sensitive_topic_relabeler.py:33-136 | the line loop writes exactly the relabelled rows, the change lines and the review lines of the file, in order, or stops with the first error |
| `TopicRelabeler.RelabelsIff` | src/training/curation/sensitive_topic_relabeler.py:57-75 | blank lines are skipped, and a file is relabelled exactly when no line is malformed and every record can be |
| `TopicRelabeler.ReviewMeaning` | src/training/curation/sensitive_topic_relabeler.py:101-141 | a row goes to review exactly when a topic is mentioned, nothing is flagged, any harm matches if the context is supportive, and it names one of the five labels |
| `TopicRelabeler.ChangedOrReviewed` | src/training/curation/sensitive_topic_relabeler.py:62-141 | no row is both changed and put up for review |
| `TopicRelabeler.RelabelledRowCarries` | src/training/curation/sensitive_topic_relabeler.py:33-136 | a relabelled row carries a label flagged for its text exactly when the schema has the label, and keeps its normalised text |
| `DatasetMerger.DeduplicatingDatasetMerger.constructor` | src/training/curation/deduplicating_dataset_merger.py:22-23 | the table starts empty |
| `DatasetMerger.DeduplicatingDatasetMerger.ExecuteMany` | src/training/curation/deduplicating_dataset_merger.py:129-147 | a batch upserts its tuples in order |
| `DatasetMerger.FileLoadsIff` | src/training/curation/deduplicating_dataset_merger.py:121-180 | blank lines are skipped, and a file loads exactly when no line is malformed and every record yields a tuple |
| `DatasetMerger.DeduplicatingDatasetMerger.LoadFile` | src/training/curation/deduplicating_dataset_merger.py:121-180 | whatever the batch size, a readable file upserts its tuples in order and returns their number, and an unreadable one fails with its first error |
| `DatasetMerger.DeduplicatingDatasetMerger.LoadSources` | src/training/curation/deduplicating_dataset_merger.py:44-66 | training file before validation file, source by source, ranked by position |
| `DatasetMerger.DeduplicatingDatasetMerger.WriteSplit` | src/training/curation/deduplicating_dataset_merger.py:203-236 | the split's rows in table order, numbered from one |
| `DatasetMerger.MergedKeys` | src/training/curation/deduplicating_dataset_merger.py:129-147 | a normalised text is in the table if and only if some input row has it |
| `DatasetMerger.MergedMask` | src/training/curation/deduplicating_dataset_merger.py:139-141 | a label bit is set if and only if some input row of the text sets it |
| `DatasetMerger.MergedSplit` | src/training/curation/deduplicating_dataset_merger.py:139-143 | a split bit is set if and only if some input row of the text came from that split |
| `DatasetMerger.MergedSeverity` | src/training/curation/deduplicating_dataset_merger.py:140-141 | the severity is the largest among the input rows of the text, and is reached |
| `DatasetMerger.MergedText` | src/training/curation/deduplicating_dataset_merger.py:142-147 | text and rank are those of the first input row of the lowest rank |
| `DatasetMerger.MergeIsOrderFree` | src/training/curation/deduplicating_dataset_merger.py:129-147 | reordering or repeating input rows changes no key, mask, severity, split or rank |
| `DatasetMerger.SplitKeysMeaning` | src/training/curation/deduplicating_dataset_merger.py:210-224 | a split holds exactly the listed texts whose validation bit is set, or not set, each once |
| `DatasetMerger.SplitKeysKeepOrder` | src/training/curation/deduplicating_dataset_merger.py:218-224 | in the order in which the table yields them |
| `DatasetAuditor.ReportMeaning` | src/training/curation/moderation_dataset_auditor.py:60-140 | duplicates are the rows beyond the distinct normalised texts and ids; the other counters are the numbers of rows whose stated vector, primary label or severity is not the normalised one, and of rows flagged for a label they do not name |
| `DatasetAuditor.AuditsIff` | src/training/curation/moderation_dataset_auditor.py:76-109 | blank lines are skipped, and a file is audited exactly when no line is malformed and every record normalises and names a primary label |
| `DatasetAuditor.TallyIsReport` | src/training/curation/moderation_dataset_auditor.py:60-140 | one more row changes the counters exactly as the declarative report of the longer file says |
| `DatasetAuditor.AuditFile` | src/training/curation/moderation_dataset_auditor.py:60-140 | the counting loop computes the declarative report, or stops with the first error, a missing primary label included: duplicates are the rows beyond the distinct texts and ids, issues and misses are the rows that fail each condition |
| `CurationPipeline.AuditOfWritten` | src/training/curation/moderation_dataset_auditor.py:60-140 | the audit of a written split finds no duplicate text, id or structural issue, and a rule miss exactly at texts whose flagged labels no input row carried |
| `CurationPipeline.EveryKeyIsInOneSplit` | src/training/curation/deduplicating_dataset_merger.py:203-236 | the two splits partition the table's texts and together have one row per text |
| `CurationPipeline.SplitsOfSources` | src/training/curation/deduplicating_dataset_merger.py:44-66 | for loaded sources and any order, the validation split has exactly the texts of the validation files, the training split exactly those of the training files that no validation file has |
| `CurationPipeline.WrittenSplitsOfSources` | src/training/curation/deduplicating_dataset_merger.py:203-236 | the same holds of the rows that are written |
| `CurationPipeline.RelabelledSplits` | src/training/curation/sensitive_topic_relabeler.py:62-141 | relabelling does not change which texts these are |
| `CurationPipeline.TupleMeaning` | src/training/curation/deduplicating_dataset_merger.py:150-180 | a record is loaded with its text, severity and harmful labels |
| `CurationPipeline.WrittenRowsSummarize` | src/training/curation/deduplicating_dataset_merger.py:129-236 | every written row has the text of the first record of lowest rank, the harmful labels of all records of its text, the largest of their severities unless it is SAFE alone, and its place as id |
| `CurationPipeline.FinishIsClean` | src/training/curation/deduplicating_dataset_merger.py:203-251 | on any loaded table and under any schema, writing, validating and auditing both splits raises nothing, and the audit is clean exactly when every text's flagged labels are carried |
| `CurationPipeline.LoadsIffAllKeep` | src/training/curation/moderation_dataset_schema.py:101-118 | relabelled sources load if and only if the schema has SAFE or every relabelled record keeps a label; otherwise a record without labels has no bit |
| `CurationPipeline.GatePassesIffSchemaCovers` | scripts/training/curate_sensitive_topics.py:185-197 | once every source is relabelled, the run from loading to the gate passes if and only if the sources load in that sense and the schema has every label the matcher flags on some input text; once they load nothing raises before the gate |
| `MediaPolicyStore.PostgresqlMediaPolicyRepository.GetActive` | src/infrastructure/repository/postgresql_media_policy_repository.py:19-29 | the row of the scope if it is active |
| `MediaPolicyStore.PostgresqlMediaPolicyRepository.Save` | src/infrastructure/repository/postgresql_media_policy_repository.py:31-79 | accepted exactly for no row, the current revision, or zero on a reset row; then the row is active with the given policy, versions, author and time, one revision up, and an entry with that policy is logged; otherwise nothing changes |
| `MediaPolicyStore.PostgresqlMediaPolicyRepository.Reset` | src/infrastructure/repository/postgresql_media_policy_repository.py:81-101 | accepted exactly on an active row at the expected revision; then it is deactivated one revision up by the given author with its policy kept, and an entry without a policy is logged; otherwise nothing changes |
| `MediaPolicyResolver.InEffectOfRow` | src/application/effective_media_policy_resolver.py:23-34 | an active row is in effect with its own policy, revision, versions, author and time |
| `MediaPolicyResolver.InEffectByDefault` | src/application/effective_media_policy_resolver.py:35-43 | without one the defaults are, at revision zero with their versions joined |
| `MediaPolicyResolver.EffectiveMediaPolicyResolver.BeginResolve` | src/application/effective_media_policy_resolver.py:14-17 | scope check and database read before the continuation |
| `MediaPolicyResolver.EffectiveMediaPolicyResolver.EndResolve` | src/application/effective_media_policy_resolver.py:18-43 | the continuation's answer from the cache or the snapshot, and the cache it leaves |
| `MediaPolicyResolver.EffectiveMediaPolicyResolver.Invalidate` | src/application/effective_media_policy_resolver.py:77-79 | exactly the scope's entries leave the cache |
| `MediaPolicyResolver.EffectiveMediaPolicyResolver.Save` | src/application/effective_media_policy_resolver.py:45-66 | errors on a bad scope or a stale revision change no row, audit entry or cached policy; a save undisturbed by other tasks returns the given policy with its author and time one revision up, which is the new row, has one audit entry and is the scope's only cached one |
| `MediaPolicyResolver.EffectiveMediaPolicyResolver.Reset` | src/application/effective_media_policy_resolver.py:68-75 | the same for a reset, which returns the defaults, leaves the row deactivated one revision up with one audit entry, and no cached policy of the scope |
| `MediaPolicyResolver.EveryRunKeepsInv` | src/application/effective_media_policy_resolver.py:14-79 | under every interleaving of reads, continuations, writes and invalidations each cached entry is the policy written at its scope and revision, and histories and audit log agree |
| `MediaPolicyResolver.CacheNeverLies` | src/application/effective_media_policy_resolver.py:18-43 | in every reachable state a waiting resolve will return the policy in effect at its own read, cache hit or not |
| `MediaPolicyResolver.ResolveIsAtomicAtItsRead` | src/application/effective_media_policy_resolver.py:14-43 | whatever lands between a resolve's read and its continuation, it returns the policy that was in effect when it read |
| `MediaPolicyResolver.WriterReturnsItsOwnRead` | src/application/effective_media_policy_resolver.py:45-75 | whatever lands between the awaits of a save or reset, it returns the policy in effect at its own later read: its own write if no other write came between, otherwise a revision higher by their number, or the defaults after a reset |
| `MediaPolicyResolver.SavedPolicyIsResolved` | src/application/effective_media_policy_resolver.py:14-66 | until the next write to the scope, every resolve answers an accepted save with its own policy, versions, author and time, whatever else lands in between |
| `MediaPolicyResolver.RevisionCountsWrites` | src/infrastructure/repository/postgresql_media_policy_repository.py:41-97 | a scope's revision rises by exactly one per successful write and by nothing else |
| `MediaPolicyResolver.AuditListsEveryRevision` | src/infrastructure/repository/postgresql_media_policy_repository.py:66-101 | a scope's audit log is revisions 1 to r in order, each with the row it wrote |
| `MediaPolicyResolver.EchoedRevision` | src/application/effective_media_policy_resolver.py:45-66 | saving with the revision a resolve reported succeeds, from an active row, if and only if no write intervened, and from none if and only if there is still none |
| `MediaPolicyResolver.OneWinnerPerRevision` | src/infrastructure/repository/postgresql_media_policy_repository.py:41-97 | of all writes to an existing row with the same positive expected revision, at most one succeeds |
| `MediaPolicyResolver.ZeroIsAcceptedAgainAfterReset` | src/infrastructure/repository/postgresql_media_policy_repository.py:41-64 | expected revision zero is accepted again after a save and a reset |
| `ModerationQueue.ModerationQueue.BeginPublish` | src/infrastructure/queue/moderation_queue.py:40-52 | a closed queue refuses; otherwise the task takes the next sequence number |
| `ModerationQueue.ModerationQueue.Consume` | src/infrastructure/queue/moderation_queue.py:62-71 | the item taken has the lowest priority number and, among those, the earliest sequence, and the rest stays |
| `ModerationQueue.ModerationQueue.DeadLetter` | src/infrastructure/queue/moderation_queue.py:86-100 | the task is appended to the dead letters |
| `QueueWorker.EveryRunKeepsInv` | src/infrastructure/queue/queue_worker.py:63-154 | every run, handlers that cancel included, keeps each published task in exactly one place, the unfinished count equal to queued plus held tasks, sequence numbers unique in line, attempts equal to handlings, and the capacity |
| `QueueWorker.DrainSettlesEverything` | src/infrastructure/queue/queue_worker.py:63-85 | `join` cannot return while a retry is pending; when it returns with no producer waiting, every published task was settled exactly once; workers are cancelled by a stop only, and nothing is dropped without a backoff and a close |
| `QueueWorker.JoinMeansIdle` | src/infrastructure/queue/moderation_queue.py:73-80 | an unfinished count of zero means that nothing is queued, handled, or waiting for backoff or room |
| `QueueWorker.SettledWithinAttempts` | src/infrastructure/queue/queue_worker.py:140-154 | no task, settled, queued, held or still offered, is handled more often than its attempts allow; a settled one was handled, and a dead letter of an open queue used all its attempts |
| `QueueWorker.WorkIsBounded` | src/infrastructure/queue/queue_worker.py:105-154 | finished handlings plus remaining potential never exceed what the published tasks brought in, so each finished handling uses some up |
| `ModerationQueue.LeastMeaning` | src/infrastructure/queue/moderation_queue.py:52-63 | the item a worker of the pool takes is of that kind, and every item of that kind may be taken |
| `QueueWorker.HeapOrderIsStrict` | src/infrastructure/queue/moderation_queue.py:52-63 | no two queued tasks tie on priority and sequence, so tasks themselves are never compared |
| `QueueWorker.DropMeansCloseDuringBackoff` | src/infrastructure/queue/queue_worker.py:141-154 | whenever a run drops a task, the queue was closed after the failure that began that worker's backoff |
| `QueueWorker.CloseDuringBackoffDrops` | src/infrastructure/queue/queue_worker.py:141-154 | some run drops a task if and only if there are a backoff, more than one attempt and a worker |
| `QueueWorker.HandlersCanDesert` | src/infrastructure/queue/queue_worker.py:87-103 | without a close or a stop, handlers that cancel can end all workers while a task waits, if and only if there is a worker |
| `QueueWorker.GoneForGood` | src/infrastructure/queue/queue_worker.py:46-61 | from then on no event takes a task from the queue or lowers the unfinished count |
| `QueueWorker.StuckUntilCancelled` | src/infrastructure/queue/queue_worker.py:141-144 | when every worker waits for room in a full queue, no event but a cancellation changes the queue or the unfinished count |
| `QueueWorker.RetriesCanGetStuck` | src/infrastructure/queue/queue_worker.py:141-144 | some run reaches that state if and only if the queue is bounded and there are more than one attempt and a worker |
| `RequestQueue.ModerationRequestQueue.constructor` | src/application/moderation_request_queue.py:17-34 | the queue starts empty and refusing |
| `RequestQueue.ModerationRequestQueue.Start` | src/application/moderation_request_queue.py:36-43 | accepts and staffs the queue unless it lists workers |
| `RequestQueue.ModerationRequestQueue.BeginStop` | src/application/moderation_request_queue.py:45-48 | the queue refuses from here on while the stop joins |
| `RequestQueue.ModerationRequestQueue.CancelListed` | src/application/moderation_request_queue.py:54-56 | the loop asks exactly the workers listed now to go |
| `RequestQueue.ModerationRequestQueue.EndStop` | src/application/moderation_request_queue.py:57 | the list is cleared of whoever is on it now |
| `RequestQueue.ModerationRequestQueue.Accept` | src/application/moderation_request_queue.py:66-75 | a request is refused exactly when the queue is closed or full, and the put after the check never meets a full queue |
| `RequestQueue.ModerationRequestQueue.CallEnds` | src/application/moderation_request_queue.py:99-121 | success and last failure set the future unless it is done, other failures go on to the next attempt |
| `RequestQueue.ModerationRequestQueue.Cancelled` | src/application/moderation_request_queue.py:85-97 | a cancellation marks the item done and leaves its future alone |
| `RequestQueue.EveryRunKeepsInv` | src/application/moderation_request_queue.py:36-121 | every run, overlapping stops and restarts included, keeps each accepted request in one place, the count that `join` waits for, the capacity, and a call history that fits each request's place |
| `RequestQueue.TakenInOrder` | src/application/moderation_request_queue.py:72-83 | in every run the request a worker takes was accepted before all that stay queued |
| `RequestQueue.SetAtMostOnce` | src/application/moderation_request_queue.py:83-95 | a worker never finds a future that another one has set |
| `RequestQueue.DoneIsFinal` | src/application/moderation_request_queue.py:83-95 | once done, a future keeps its outcome through every further event |
| `RequestQueue.ReportsWhatHappened` | src/application/moderation_request_queue.py:99-121 | an answered request failed until its last call, within 1 to max(1, attempts) calls; a failed one failed exactly that often |
| `RequestQueue.DrainCompletes` | src/application/moderation_request_queue.py:45-57 | when `join` returns, a pending future means that a cancelled worker abandoned the request; with none abandoned every accepted future is done |
| `RequestQueue.NobodyAbandoned` | src/application/moderation_request_queue.py:85-97 | only a cancellation abandons a request |
| `RequestQueue.AbandonedStaysPending` | src/application/moderation_request_queue.py:49-57 | an abandoned request stays pending through every further run, restarts included, until its caller cancels it |
| `RequestQueue.ForcedStopLeavesPending` | src/application/moderation_request_queue.py:49-57 | such a request is reached, without the service or a caller cancelling, if and only if the queue has workers |
| `RequestQueue.UnservedExactly` | src/application/moderation_request_queue.py:36-97 | an event takes the last live listed worker of an accepting queue if and only if a stop cancels or clears while it accepts, or the service cancels the call of the only live worker |
| `RequestQueue.ServedThroughoutIff` | src/application/moderation_request_queue.py:36-97 | a queue has a live listed worker in every accepting state of a run if and only if no event of the run is of that kind |
| `RequestQueue.CarefulRunsAreServed` | src/application/moderation_request_queue.py:36-97 | if every start finds no stop in progress, an accepting queue has a live listed worker unless the service has cancelled the calls of all of them |
| `RequestQueue.StartIsServedIffNoStop` | src/application/moderation_request_queue.py:36-97 | after a start, and until the next start or stop, every continuation without a cancellation by the service keeps a live listed worker if and only if no stop was in progress at the start |
| `RequestQueue.LateStopLeavesNobody` | src/application/moderation_request_queue.py:36-57 | for every number of workers, two stops around a start leave the queue accepting with all workers gone and a request waiting |
| `RequestQueue.StartCanBeDeserted` | src/application/moderation_request_queue.py:36-97 | after any start, requests and service cancellations alone can end all listed workers and leave a request waiting |
| `RequestQueue.DesertedWithoutStop` | src/application/moderation_request_queue.py:36-97 | a run without any stop reaches an accepting queue whose listed workers are all gone and in which a request waits, if and only if there are workers |
| `RequestQueue.NobodyComesBack` | src/application/moderation_request_queue.py:36-43 | until the next stop such a queue keeps its requests and gets no worker, because a start does nothing |
| `RabbitWorker.EveryRunKeepsInv` | src/modules/load_testing/rabbitmq_moderation_worker.py:77-153 | whatever crashes and raises, each task is queued, unacknowledged or acknowledged exactly once, and results come before acknowledgements |
| `RabbitWorker.NoTaskIsLost` | src/modules/load_testing/rabbitmq_moderation_worker.py:77-153 | every enqueued task is on the queue, unacknowledged at a worker, or has a published result |
| `RabbitWorker.AcknowledgedHasResult` | src/modules/load_testing/rabbitmq_moderation_worker.py:114-116 | no delivery is acknowledged before a result for its task is published |
| `RabbitWorker.OnceExactlyIfHarmless` | src/modules/load_testing/rabbitmq_moderation_worker.py:90-153 | an event leaves every task due exactly one result if and only if it is no crash with a result not acknowledged and no exception after a batch's first result |
| `RabbitWorker.OnceThroughoutIffHarmless` | src/modules/load_testing/rabbitmq_moderation_worker.py:90-153 | every state of a run leaves each task due exactly one result if and only if all its events are of that kind |
| `RabbitWorker.HarmlessRunsAnswerOnce` | src/modules/load_testing/rabbitmq_moderation_worker.py:90-153 | in such a run no task gets two results, and an idle system has exactly one for each |
| `RabbitWorker.LateExceptionAnswersTwice` | src/modules/load_testing/rabbitmq_moderation_worker.py:114-143 | an exception after the first result publishes a failure for a task already reported as done |
| `RabbitWorker.SecondResultIsPossible` | src/modules/load_testing/rabbitmq_moderation_worker.py:97-126 | some run publishes two results for one task if and only if the batch size and the number of workers are positive |
| `StableSort.SortIsStable` | src/application/media_moderation_service.py:470-473 | elements of equal score keep their order in the sort |
| `StableSort.StableSortIsUnique` | src/application/media_moderation_service.py:470-473 | a descending order that keeps ties in order is the only one |
| `StableSort.SortFilterSort` | src/application/media_moderation_service.py:470-473 | sorting before filtering does not show once the survivors are sorted |
| `NonMaxSuppression.IouProperties` | src/application/media_moderation_service.py:488-500 | IoU is symmetric and within the unit interval for all corners |
| `NonMaxSuppression.IouMeaning` | src/application/media_moderation_service.py:488-500 | IoU is positive exactly when the boxes share an area, and one for equal boxes with an area |
| `NonMaxSuppression.IouAbove` | src/application/media_moderation_service.py:488-500 | it is above a threshold exactly when the shared rectangle is larger than that share of the two areas less the shared one, all measured side by side |
| `NonMaxSuppression.NmsLoop` | src/infrastructure/media/onnx_yolo_detection_provider.py:154-164 | the greedy loop computes the specified selection |
| `NonMaxSuppression.NmsSuppresses` | src/infrastructure/media/onnx_yolo_detection_provider.py:154-164 | kept candidates do not conflict, and each dropped one conflicts with a kept one before it |
| `NonMaxSuppression.SuppressionIsUnique` | src/infrastructure/media/onnx_yolo_detection_provider.py:154-164 | only one selection satisfies these two conditions |
| `NonMaxSuppression.NmsIsIdempotent` | src/infrastructure/media/onnx_yolo_detection_provider.py:154-164 | suppressing twice is suppressing once |
| `NonMaxSuppression.SuppressedByBetter` | src/application/media_moderation_service.py:474-486 | a dropped candidate conflicts with a survivor that scores at least as high |
| `NonMaxSuppression.ApplyYoloPolicy` | src/application/media_moderation_service.py:450-486 | filter, sort, suppression and truncation loop computes the policy pass |
| `NonMaxSuppression.PolicyPassGuarantees` | src/application/media_moderation_service.py:450-486 | every result is of a listed and enabled class and reaches both thresholds; results descend by score, and no two of one class with boxes have an IoU above the threshold; a detection of that kind left out has such an IoU with a result of its class of at least its score, or the result is full of detections of at least its score |
| `NonMaxSuppression.RuntimePassGuarantees` | src/infrastructure/media/onnx_yolo_detection_provider.py:98-164 | published detections are rows that reach the threshold, named by their class, descending by score, and no two of one class have an IoU above the threshold |
| `NonMaxSuppression.RuntimeLeftOut` | src/infrastructure/media/onnx_yolo_detection_provider.py:98-164 | a row that reaches the threshold and is left out has such an IoU with a kept one of its class of at least its score, or as many as may be published score at least as high |
| `NonMaxSuppression.OpenRuntimePassIsInvisible` | src/infrastructure/media/onnx_yolo_detection_provider.py:98-174 | with confidence zero, IoU one and no truncation the guild policy returns what it would return on the raw rows |
| `AttachmentLoop.StageMeaning` | src/application/media_moderation_service.py:355-402 | a guild policy decides whether a stage is required and can switch it off but not on; OCR also waits to be ready |
| `AttachmentLoop.RunProviders` | src/application/media_moderation_service.py:343-448 | fails if and only if a required OCR stage that runs raises, or a required image stage raises or is not ready; a required OCR provider that is not ready is only passed over, and a guild policy never switches an installed-off provider on |
| `AttachmentLoop.ExpectedMeaning` | src/application/media_moderation_service.py:140-180 | beyond the limit on the sum of sizes an attachment is rejected without hash and results; within it one without hash stays as ingested, the first of its hash gets its own findings, a later one keeps its identity as a duplicate |
| `AttachmentLoop.RunsMeaning` | src/application/media_moderation_service.py:148-179 | providers run on an attachment within the limit whose hash no earlier one within the limit has |
| `AttachmentLoop.Analyze` | src/application/media_moderation_service.py:133-180 | one analysis per attachment in order, as declared per attachment, and the exact provider calls; it raises if and only if a required provider fails on an attachment the loop runs |
| `AttachmentLoop.OverLimitStays` | src/application/media_moderation_service.py:144-150 | every attachment after the limit is crossed is rejected too |
| `AttachmentLoop.AdmittedWithinLimit` | src/application/media_moderation_service.py:144-150 | the sizes of admitted attachments never exceed the limit together |
| `AttachmentLoop.OneRunPerHash` | src/application/media_moderation_service.py:152-180 | the providers run exactly once for each distinct content hash |
| `AttachmentLoop.CalledInOrder` | src/application/media_moderation_service.py:136-179 | the provider calls come in the order of the attachments |
| `AttachmentLoop.DuplicatesShareResults` | src/application/media_moderation_service.py:152-166 | a duplicate gets the OCR and image results of the first attachment with its hash |
| `RuleEngine.SurvivesMeaning` | src/modules/rules/moderation_signal_normalizer.py:28-43 | a label's threshold decides before its source's and that before the default, and reaching it is enough |
| `RuleEngine.Normalize` | src/modules/rules/moderation_signal_normalizer.py:11-43 | the loop keeps exactly the signals that reach their label, source or default threshold, in order |
| `RuleEngine.ContributionMeaning` | src/modules/rules/risk_score_calculator.py:11-34 | a contribution is the larger of label weight and risk weight, times source weight, confidence and the severity's multiplier, which is one if there is none |
| `RuleEngine.AggregateContributionsByLabel` | src/modules/rules/moderation_rule_engine.py:167-173 | the dictionary has the largest contribution per present label, and its values add up to the raw score whatever the order of labels |
| `RuleEngine.BaseScoreMeaning` | src/modules/rules/risk_score_calculator.py:36-47 | the base score is the sum of the labels' contributions held within the range, and zero without signals |
| `RuleEngine.BaseScoreGrows` | src/modules/rules/risk_score_calculator.py:11-50 | more signals never lower the clamped score, for weights of any sign |
| `RuleEngine.ReorderingIsInvisible` | src/modules/rules/moderation_rule_engine.py:62-90 | reordering or repeating signals changes neither base score, confidence, severity nor reported labels |
| `RuleEngine.ReportedMeaning` | src/modules/rules/moderation_rule_engine.py:151-165 | every harmful label of a surviving signal is reported, and SAFE exactly when there is none |
| `RuleEngine.PrimaryRanksFirst` | src/modules/rules/primary_label_resolver.py:19-49 | the initial primary label is that of the first surviving signal with the most points, which are its contribution, half its priority bonus and its model bonus; among equals severity, priority bonus, confidence and then position decide |
| `RuleEngine.PriorityBonusMeaning` | src/modules/rules/primary_label_resolver.py:25-30 | the first listed label has a priority bonus of the length of the list, the last one of one, an unlisted label none |
| `RuleEngine.ModelBonusMeaning` | src/modules/rules/primary_label_resolver.py:11-15 | the model bonus is 6 or 8 for RUBERT or QWEN on a harmful label from a confidence of 0.8, and otherwise zero |
| `RuleEngine.PrimaryMeaning` | src/modules/rules/conflict_resolver.py:12-52 | SAFE gives way to a harmful label that no other one precedes in the priority list, URL gives way to SCAM, and nothing else changes the primary label |
| `RuleEngine.ResolveConflicts` | src/modules/rules/conflict_resolver.py:12-52 | SAFE among several labels yields to a harmful one of best priority, URL yields to SCAM, and the conflicts are reported in the order they are met |
| `RuleEngine.ConflictsMeaning` | src/modules/rules/conflict_resolver.py:12-52 | a mix of SAFE with other labels is reported with exactly those labels, and the other conflicts are reported exactly when the primary label was changed |
| `RuleEngine.PrimaryIsConsistent` | src/modules/rules/conflict_resolver.py:11-44 | the primary label is among the reported labels, is SAFE if and only if no harmful signal survived, and is never URL when SCAM survived |
| `RuleEngine.CalculateAgreement` | src/modules/rules/model_agreement_calculator.py:13-62 | the loop leaves each model source its last confident label, from which score and disagreement follow |
| `RuleEngine.AgreementMeaning` | src/modules/rules/model_agreement_calculator.py:13-62 | the labels of the two models' last signals at or above the threshold are compared, for the bonus or for the penalty and a disagreement; with agreement off or a model without such a signal the factor is one |
| `RuleEngine.AgreementIsOrderFreeIff` | src/modules/rules/model_agreement_calculator.py:13-62 | the agreement is the same for every order of the signals if and only if it is off, a model is silent, the models share no label, or they speak with a single label |
| `RuleEngine.AgreementIsOrderFree` | src/modules/rules/model_agreement_calculator.py:13-62 | then repeating signals does not change it either |
| `RuleEngine.AgreementCanDependOnOrder` | src/modules/rules/model_agreement_calculator.py:13-62 | when a model speaks twice, swapping its signals turns a bonus into a penalty |
| `RuleEngine.UserRiskMultiplier` | src/modules/rules/moderation_rule_engine.py:110-136 | the stepwise product of the applying factors, capped |
| `RuleEngine.UserMultiplierMeaning` | src/modules/rules/moderation_rule_engine.py:110-136 | each of the four factors counts exactly under its condition, and their product is capped |
| `RuleEngine.UserMultiplierBounds` | src/modules/rules/moderation_rule_engine.py:110-136 | with factors of at least one the multiplier lies between one and the cap |
| `RuleEngine.FinalScoreMeaning` | src/modules/rules/moderation_rule_engine.py:74-77 | the final score is the product of base score, agreement factor and user factor, held within the range |
| `RuleEngine.FinalScoreGrows` | src/modules/rules/moderation_rule_engine.py:62-77 | for the agreement settings and ranges the validator accepts, adding signals never lowers the final score unless it makes the models disagree |
| `ActionSelector.ByThresholdMeaning` | src/modules/decision/action_selector.py:36-54 | for each action the exact range of risks that selects it, under thresholds in any order; KICK is never selected by risk |
| `ActionSelector.SelectMeaning` | src/modules/decision/action_selector.py:13-119 | disagreement, override or threshold, confidence downgrade and PASSIVE maximum in the order of the code, with STRICT's risk and confidence |
| `ActionSelector.PriorityMeaning` | src/modules/decision/action_selector.py:111-119 | for lists of at most 999 actions, an action precedes another exactly when it is listed, and before the other if that is listed too |
| `ActionSelector.ByThresholdMonotone` | src/modules/decision/action_selector.py:36-54 | a higher risk never selects a weaker action, even when the thresholds are not in increasing order |
| `ActionSelector.WeakerExactly` | src/modules/decision/action_selector.py:13-86 | outside PASSIVE mode and without overrides, the later of two evaluations gets the weaker action in exactly three cases: it is disputed and the earlier action was above REVIEW, only the earlier is disputed and the later action is below REVIEW, or neither is, and the downgrade holds a risk that has not fallen back to REVIEW |
| `ActionSelector.EvaluateMeaning` | src/modules/rules/moderation_rule_engine.py:62-90 | the evaluation has the surviving signals' largest confidence, final score, agreement and primary label, and is SAFE with full confidence without any |
| `ActionSelector.AddingSignals` | src/modules/decision/action_selector.py:13-119 | from signals to action, outside PASSIVE mode and without overrides: adding signals never lowers the risk unless it makes the models disagree, and weakens the action in exactly those three cases, except for a new disagreement that is not sent to review |
| `ActionSelector.WhatIsLost` | src/modules/decision/action_selector.py:13-86 | once some signal survived, a new dispute takes any action above REVIEW down to it, the end of one can only take REVIEW, and the downgrade can only take WARN |
| `ActionSelector.DowngradeCanWeaken` | src/modules/decision/action_selector.py:56-86 | with the default policies, adding an uncertain insult to an uncertain spam signal turns WARN into REVIEW |
| `ActionSelector.DisagreementCanWeaken` | src/modules/decision/action_selector.py:19-21 | with the default policies, adding the other model's confident insult to a confident scam turns TIMEOUT into REVIEW |
| `ActionSelector.StrictNeverLowersIff` | src/modules/decision/action_selector.py:88-109 | STRICT treats no risk as a lower one, under whatever thresholds, if and only if its multiplier is at least one |
| `ActionSelector.StrictIsNeverWeaker` | src/modules/decision/action_selector.py:88-109 | with a multiplier of at least one, a non-negative reduction and no overrides, STRICT acts weaker than ACTIVE on the same evaluation if and only if the raised risk is held back for review where ACTIVE warns |
| `ActionSelector.PassiveIsCappedIff` | src/modules/decision/action_selector.py:111-119 | in PASSIVE mode the action does not precede the configured maximum in the action priority, if and only if no disagreement is sent to review or REVIEW does not precede it |
| `ConfigText.LineRoundTrip` | src/modules/preprocessing/rules/preprocessing_rule_config_loader.py:84-94 | a printed line is read back with its indent, key and value if and only if key and value are stripped, the value is not empty, and no `#`, nor a colon in the key, occurs |
| `ConfigText.ReadLineIsPlain` | src/modules/preprocessing/rules/preprocessing_rule_config_loader.py:84-94 | every line the parser accepts is of that kind |
| `ConfigText.FileRoundTrip` | src/modules/preprocessing/rules/preprocessing_rule_config_loader.py:84-94 | a printed file of such lines is read back line by line |
| `ConfigScalars.QuotedMeaning` | src/modules/preprocessing/rules/preprocessing_rule_config_loader.py:119-123 | quotes of either kind give their inside as a text |
| `ConfigScalars.UnquotedMeaning` | src/modules/preprocessing/rules/preprocessing_rule_config_loader.py:124-136 | any other value is null or none, true, false in any case, a number literal, or a text as it stands |
| `ConfigScalars.ScalarRoundTrip` | src/modules/preprocessing/rules/preprocessing_rule_config_loader.py:111-136 | words, bare numbers and quoted texts of any content are read back |
| `ConfigScalars.ListRoundTrip` | src/modules/preprocessing/rules/preprocessing_rule_config_loader.py:112-117 | a list whose numbers are bare is read back if and only if no text in it, at any depth, holds a comma and no list inside it has more than one item |
| `ConfigTree.Parent` | src/modules/preprocessing/rules/preprocessing_rule_config_loader.py:96-99 | a line's parent is the latest earlier section line of smaller indent that no line in between has closed |
| `ConfigTree.Children` | src/modules/preprocessing/rules/preprocessing_rule_config_loader.py:96-107 | the children of a section that hosts a printed block are exactly the first lines of the block's items |
| `ConfigTree.TreeRoundTrip` | src/modules/preprocessing/rules/preprocessing_rule_config_loader.py:80-109 | a nested mapping printed with every block indented deeper than its key, by whatever amounts, means that mapping; later keys replace earlier ones |
| `ConfigLoader.StackIndentsIncrease` | src/modules/preprocessing/rules/preprocessing_rule_config_loader.py:82-104 | the stack's indents increase strictly from the root's -1 |
| `ConfigLoader.TopIsParent` | src/modules/preprocessing/rules/preprocessing_rule_config_loader.py:96-99 | the frame left on top by the pops is that of the line's parent |
| `ConfigLoader.Unwind` | src/modules/preprocessing/rules/preprocessing_rule_config_loader.py:96-97 | the pops stop at the first smaller indent and never empty the stack |
| `ConfigLoader.LoadSimpleYaml` | src/modules/preprocessing/rules/preprocessing_rule_config_loader.py:80-109 | the aliased dictionaries filled in place hold exactly the tree that the lines' parents define |
| `ConfigLoader.RepresentsOne` | src/modules/preprocessing/rules/preprocessing_rule_config_loader.py:80-109 | a dictionary on the heap holds at most one tree |
| `ConfigFiles.FileHoldsMapping` | src/modules/preprocessing/rules/preprocessing_rule_config_loader.py:80-109 | printing a nested mapping to text and reading the text gives the mapping, for any raw values that survive the line |
| `ConfigFiles.FileHoldsScalars` | src/modules/preprocessing/rules/preprocessing_rule_config_loader.py:80-136 | printing a nested mapping of scalars and loading the text gives exactly those scalars at those paths, if keys are plain, printed scalars hold no `#`, numbers are bare and lists meet the condition of `ListRoundTrip` |
| `Luhn.WeightIsDigitSum` | src/infrastructure/media/ocr_text_processor.py:116-121 | a doubled digit adds the sum of the digits of its double, any other digit itself |
| `Luhn.RightSumMeaning` | src/infrastructure/media/ocr_text_processor.py:114-123 | from the right the check digit is not doubled, the digit before it is, and so on in turn |
| `Luhn.PassesLuhn` | src/infrastructure/media/ocr_text_processor.py:110-123 | accepts exactly 13 to 19 digits, not all alike, whose right-to-left Luhn sum is divisible by ten |
| `Luhn.LoopIsStandard` | src/infrastructure/media/ocr_text_processor.py:114-123 | for numbers of any length the index-parity sum is the sum of Annex B of ISO/IEC 7812-1 |
| `Luhn.ChangedDigitIsRejected` | src/infrastructure/media/ocr_text_processor.py:110-123 | an accepted number with any one digit changed is rejected |
| `Luhn.SwapIsRejectedUnlessZeroNine` | src/infrastructure/media/ocr_text_processor.py:110-123 | an accepted number with two unequal neighbours swapped is accepted if and only if they are 0 and 9 |
| `ScamHashes.FormatBits` | src/infrastructure/media/pillow_media_hasher.py:25-30 | the shifting loop prints the number the bits spell |
| `ScamHashes.BitsRoundTrip` | src/infrastructure/media/pillow_media_hasher.py:25-30 | 64 bits print as hexadecimal text whose digits give the same bits back |
| `ScamHashes.PrintParse` | src/infrastructure/media/json_known_scam_hash_matcher.py:25-39 | the text has exactly 16 digits and parses to the number of the bits |
| `ScamHashes.BitCountIsDistance` | src/infrastructure/media/json_known_scam_hash_matcher.py:40-43 | the bit count of the XOR is the number of positions in which two hashes differ |
| `ScamHashes.MatchesMeaning` | src/infrastructure/media/json_known_scam_hash_matcher.py:36-43 | an image matches if and only if its sha256 is registered or a registered perceptual hash differs in at most the configured number of positions |
| `ScamHashes.RegisteredImageMatches` | src/infrastructure/media/json_known_scam_hash_matcher.py:17-43 | adding an image's printed perceptual hash to the entries never makes the matcher fail, and from then on the image matches, whatever its sha256 and the distance |
| `ScamHashes.BuildAccepts` | src/infrastructure/media/json_known_scam_hash_matcher.py:20-23 | the matcher is built if and only if the distance is within 0 to 64 and every entry names some image |

## Left out

- Floating point: NaN, infinities and rounding; scores, weights, boxes and times are exact reals, and the export rounds them half to even at the sixth decimal.
- Regular expressions, NFKC and case folding: span finders and normalisation are parameters; the only laws used are that stripping is idempotent and that normalisation ignores outer white space.
- JSON, SQL and SQLite text: each statement is one atomic step on a map of rows; a line is blank, malformed or a record; severities are unbounded integers.
- blake2b and sha256 are taken as injective: keys and hashes are compared directly.
- DatasetMerger.DeduplicatingDatasetMerger.LoadFile: says nothing about the table after an error, because the merge then abandons its temporary database.
- DatasetMerger.DeduplicatingDatasetMerger.WriteSplit: takes the order in which the table yields its keys as a parameter instead of sorting by normalised text; the theorems hold for every order.
- `_database_stats`, report paths, topic counts, gap listing, annotation reasons, backups and file hashes of the curation scripts: counters and file handling that no property above needs.
- TopicRelabeler.RelabelFile: a change or review line refers to the whole row; the counters over topics and labels and the reasons are not modelled.
- `complete_dataset_gaps.py`, which merges sources that were not relabelled; `FinishIsClean` covers its merge, the gate theorem does not.
- Scope validation accepts ASCII digits only, where the code's `isdigit` also accepts other Unicode digits; the clock is a parameter of each call.
- `RateLimiter` takes the monotonic clock's reading as a parameter of each call and models a call as atomic, which holds because nothing awaits between lock and unlock.
- The payload-size check of `publish`, the thread pool of synchronous handlers, logging and metrics.
- Liveness, timeouts and sleep lengths: a stop may give up its drain at any time.
- Restarting the worker pool: `stop` shuts the thread pool down, so a worker pool is followed from one start to its stop.
- ActionSelector.AddingSignals: when a new disagreement is not sent to review, only its penalty shows, and whether the action falls is left to the two scores.
- `RabbitWorker` counts an acknowledgement of an already acknowledged delivery as a crash, because the broker closes the channel on it, and does not model when published messages become durable.
- Decoding of YOLO rows, letterboxing, OCR, image models and media download: their outputs are inputs of the model.
- AttachmentLoop.Analyze: what ingestion yields and how each attachment's provider stages end (`RunProviders`) are inputs; persistence and the final summary are not modelled.
- RuleEngine.ResolveConflicts: the code's sort of a set leaves ties in priority to the set's iteration order; the model allows any of the best.
- `_weighted_escalation_score` and the breakdown records of the rule engine: the escalation score is an input.
- Action bundles, the executor and dataset export: single-branch facts.
- ConfigLoader.LoadSimpleYaml: dictionaries compare without insertion order, splitting a file into lines is done before, and whether a text is a number literal is a parameter, so integers and floats are not told apart.
- Luhn.PassesLuhn: digits are numbers, so the check for one repeated digit compares values, not characters of different scripts.
- ScamHashes.MatchesMeaning: `int(text, 16)` is modelled on plain hexadecimal digits, without signs, prefixes or underscores.
- HTTP, settings, migrations, training, reports and load-test planning.
