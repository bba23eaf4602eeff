# Verified model of the shot-ingest service

This project models the parts of the golf-shot ingest service that carry state, order or a small language,
and proves what they promise. `dafny verify dfyconfig.toml` checks everything.

| files | what they model |
|---|---|
| `Domain.dfy` | shots, vendors, club codes |
| `ContentHash.dfy`, `NearDuplicates.dfy` | the content hash, the job keys, and which stored shot is the origin of a new one |
| `ShotRepository.dfy`, `ShotProcessor.dfy`, `OutboxPublisher.dfy` | the repository, one run of the worker, one cycle of the publisher, as classes over mutable tables |
| `IngestionProtocol.dfy` | the same code as a transition system: any number of workers and publishers, each transaction or single statement one step, with crashes, retries, row locks, failing listeners and rollbacks between any two steps |
| `IngestionSafety.dfy`, `IngestionHistory.dfy`, `OutboxSafety.dfy`, `DuplicateGraph.dfy`, `OriginDelivery.dfy`, `PromptRuns.dfy` | what every reachable state, and every run, of that system keeps |
| `ScriptedRuns.dfy` | runs of that system written out step by step, as witnesses |
| `ProtocolRefinement.dfy` | the uninterrupted methods are runs of the transition system |
| `IdentityService.dfy` | the mapping table with its audit log and two Redis caches, calls one at a time |
| `IdentityProtocol.dfy`, `IdentitySafety.dfy` | the same with all steps interleaved, and what survives |
| `Pagination.dfy` | keyset paging over a table that changes between the pages |
| `Percentiles.dfy`, `Moments.dfy`, `StatsService.dfy` | the statistics, over reals |
| `SqlSplitter.dfy`, `SqlSplitterTheorems.dfy` | the statement splitter of the migration runner: its loop against a token grammar |
| `EmailScrubber.dfy`, `PiiRedact.dfy` | the e-mail pattern with its backtracking, and the deletion of blocked paths |
| `ProswingDispatch.dfy` | the three ProSwing schemas and the version detection |
| `Admission.dfy` | the check-then-add admission to the queue |

## How to read the models

A transaction is one atomic step, and so is a single SQL statement or Redis command outside a transaction.
`Runs(s, actions, t)` says that the actions lead from `s` to `t`; a state is `Reachable` when some run leads
to it from the empty system. The theorems about reachable states and runs hold for every number of workers,
publishers and calls and for every interleaving.

SHA-256 is taken to be injective, ids are fresh and totally ordered, cursors are decoded to what was encoded,
`JSON.stringify` is a parameter, and instants are integer milliseconds. Answers of the database that are not
determined by the query (ties in an ordering, which row of several) are any answer that the query allows.

## Where the code differs from its documentation

The model follows the code.

- A worker that crashes after the insert loses the near-duplicate check for good: the retry stops at the
  upsert. `DESIGN-FULL.md:362` says that near-dedup runs again. See
  `IngestionHistory.CheckHappensIffTheRowHasAnOwner` and `IngestionHistory.ChecksAreLost`.
- The window of the near-duplicate check is not symmetric: a match that was captured later is found only if it
  shares the minute. `docs/functions/ingestion.md:123` states plus or minus 60 seconds. See
  `NearDuplicates.LaterNearShotsAreFoundIffTheyShareTheMinute`.
- A flag does not always point to an earlier row, and two shots can be flagged with each other when two
  workers check them at once; `DESIGN-FULL.md:171` assumes the earlier row. See `DuplicateGraph.MutualFlagsArePossible`.
- The event of a near-duplicate may reach the listeners without its origin, although
  `src/ingestion/shot-ingestion.processor.ts:110-111` says that consumers see the relationship. See
  `OriginDelivery.EventsMayMissTheirOrigin`, and `OriginDelivery.OriginReachesListenersIffStillPending` for when they do.
- After a link has returned, a worker that read the table before it can still store an unstamped shot, and can
  put the old answer back into the cache; `src/identity/identity.service.ts:91-93` and `:134-135` say otherwise.
  See `IdentitySafety.ReadsInFlightDefeatTheLink`, and for the exact conditions
  `IdentitySafety.OldAnswersComeFromReadsInFlight` and `IdentitySafety.UnstampedShotsComeFromEmptyAnswers`.
- `capped` is set at exactly 10000 rows too, when nothing is missing; the comment at
  `src/stats/stats.service.ts:264` says more than that. See `StatsService.CappedIffTheLimitIsReached`.
- The newline that ends a comment is dropped with the comment, because the `continue` at
  `src/shared/kysely/migration-runner.ts:73` still advances the index.
- `docs/api/query.md` gives no default for `since`; the code uses 30 days before now.

## Model

| member | source | states |
|---|---|---|
| `SqlSplitter.SplitStatements` | src/shared/kysely/migration-runner.ts:17-91 | The index loop with its jumps and two mode flags terminates and returns what the token grammar returns: split into tokens, drop comments, cut at terminators, trim, drop empty ones; no statement begins or ends with a blank, tab, newline, carriage return or other white space |
| `SqlSplitter.StatementsAreTheTrimmedPieces` | src/shared/kysely/migration-runner.ts:76-90 | Each piece between two terminators is cut to a part of itself; everything cut off is ECMAScript white space (listed by code), the part neither begins nor ends with any, a piece of white space alone yields nothing, and the statements are the parts in order |
| `SqlSplitter.SkipLine` | src/shared/kysely/migration-runner.ts:68-74 | The inner loop stops at the newline that ends the comment, or at the end of the text |
| `SqlSplitter.TokensPartitionTheText` | src/shared/kysely/migration-runner.ts:26-82 | Every character belongs to exactly one token; the tokens in order are the text |
| `SqlSplitter.LexerRoundTrip` | src/shared/kysely/migration-runner.ts:26-82 | Printing a well-formed token list and lexing it again gives the list back if and only if it is valid: no two neighbours read together as something else and only the last is open |
| `SqlSplitterTheorems.OnlyCommentsAreDropped` | src/shared/kysely/migration-runner.ts:66-82 | The untrimmed pieces joined with a semicolon are the source without its comments and their ending newlines |
| `SqlSplitterTheorems.PlainTextIsSplitNaively` | src/shared/kysely/migration-runner.ts:76-90 | Without quotes, dollar pairs and comments it is split at semicolons, trim, drop empty |
| `SqlSplitterTheorems.DroppingCommentsIsSafeIffNothingFuses` | src/shared/kysely/migration-runner.ts:66-74 | The text without its comments reads as the remaining tokens if and only if no two of them fuse |
| `SqlSplitterTheorems.CommentsCanBeDroppedIffNoDollarsMeet` | src/shared/kysely/migration-runner.ts:66-74 | Up to literals that now stand side by side, the text without its comments reads as the remaining tokens if and only if no two dollar signs are brought together |
| `SqlSplitterTheorems.SplitInvertsJoin` | src/shared/kysely/migration-runner.ts:17-91 | Any list of trimmed, non-empty single statements of which only the last may be left open is recovered from its join |
| `SqlSplitterTheorems.LayoutIsIgnored` | src/shared/kysely/migration-runner.ts:76-90 | Whatever white space follows the semicolons of a file, the splitter returns the file's statements |
| `SqlSplitterTheorems.TrailingNewlineIsNoStatement` | src/shared/kysely/migration-runner.ts:76-90 | `a;` and a newline is the one statement `a` |
| `SqlSplitterTheorems.RoundTrip` | src/shared/kysely/migration-runner.ts:17-91 | Unless dropping the comments brings two dollar signs together, each returned statement is trimmed, non-empty and splits to itself, only the last can be open, and splitting the join returns the same list; this includes string literals that only a comment separated |
| `SqlSplitterTheorems.CommentFreeTextsRoundTrip` | src/shared/kysely/migration-runner.ts:17-91 | Every text without comments meets that condition |
| `SqlSplitterTheorems.SwallowedNewlineBreaksTheRoundTrip` | src/shared/kysely/migration-runner.ts:66-74 | A concrete text whose single statement splits in two when it is split again, because the newline is dropped with the comment |
| `Pagination.ExecuteQuery` | src/shots/shots.service.ts:106-192 | Which queries are rejected and with which error; otherwise a row of the table is on the page if and only if it satisfies each condition of filter and query (window with its defaults, canonical user, vendor, vendor user, club, no duplicate unless asked for, after the cursor) and does not come after the last row of a page that has more; the rows descend, there are at most the limit (50 by default, 100 at most), exactly the limit if has_more is set, and the cursor names the last one |
| `Pagination.ListingIsTheSortedSelection` | src/shots/shots.service.ts:135-169 | The listing holds exactly the matching rows, each once, in strictly descending (captured_at, id) order |
| `Pagination.WalkRowsDescend` | src/shots/shots.service.ts:157-177 | However the table changes between pages, all rows of a walk match and come in strictly descending order over all pages, so none is returned twice |
| `Pagination.StableRowsAreReturned` | src/shots/shots.service.ts:157-177 | A finished walk returns every row that matched whenever a page was fetched, whatever was inserted, updated or removed in between |
| `Pagination.ListingAfterCursor` | src/shots/shots.service.ts:157-162 | Asking for what follows a row gives the rest of the listing |
| `Pagination.WalkOverUnchangingTable` | src/shots/shots.service.ts:157-177 | On an unchanging table the walk ends after exactly the expected number of pages, and the pages concatenate to the whole listing |
| `ContentHash.PreimageIsInjective` | src/ingestion/content-hash.ts:23-34 | The joined preimage determines all seven parts, even if the user id contains the separator |
| `ContentHash.EqualHashes` | src/ingestion/content-hash.ts:13-34 | Two hashes are equal if and only if user, club and minute are, speed and angle agree to a tenth, and the distances to a unit |
| `ContentHash.KeysAreSharedIffATextHasTheSeparator` | src/webhooks/swingmetric/swingmetric.parser.ts:30-31 | A shot shares its key with another shot if and only if one of the two texts that the key joins contains the separator; keys of different vendors never collide |
| `ContentHash.ReceivedKeysAreSharedIff` | src/webhooks/swingmetric/swingmetric.schema.ts:55-63 | The same among shots within the length limits of the schemas: the separator must also leave two texts of admissible length |
| `ContentHash.SharedKeys` | src/webhooks/proswing/proswing.parser.ts:107 | One concrete pair for SwingMetric and one for ProSwing |
| `NearDuplicates.EarliestCandidateExists` | src/ingestion/shot-repository.ts:130-146 | If there is a candidate there is one such that no candidate was captured before it, so the query has an answer |
| `NearDuplicates.CandidatesAreNearShotsOfTwoMinutes` | src/ingestion/shot-repository.ts:108-146 | A stored shot is a candidate if and only if it is another shot of the vendor with equal content, within 60 seconds, captured in the same minute or the one before |
| `NearDuplicates.EarlierNearShotsAreFound` | src/ingestion/shot-repository.ts:108-146 | A shot captured up to 60 seconds before the new one is always found |
| `NearDuplicates.LaterNearShotsAreFoundIffTheyShareTheMinute` | src/ingestion/shot-repository.ts:108-146 | A shot captured up to 60 seconds after it is found if and only if it shares the minute |
| `NearDuplicates.OrderOfArrivalDecidesAcrossTheMinute` | src/ingestion/shot-repository.ts:113-125 | Two concrete equal swings across a minute boundary: only one order of arrival flags |
| `ShotRepository.Repository.UpsertIfNew` | src/ingestion/shot-repository.ts:28-92 | Shot and announcement are written together exactly when no row has the vendor and the key; otherwise nothing changes and the id of the stored row is returned |
| `ShotRepository.Repository.CheckAndFlagNearDuplicates` | src/ingestion/shot-repository.ts:105-157 | Returns the id of a stored candidate before which no stored candidate was captured, and flags exactly the given row with it; returns none exactly when there is no candidate |
| `ShotProcessor.Processor.Process` | src/ingestion/shot-ingestion.processor.ts:31-136 | One outcome is counted per job, which outcome it is: skewed by more than 5 min ahead or 24 h back, key already stored, near-duplicate of a candidate before which no candidate was captured, or accepted without a candidate; and the tables after: unchanged, or one row and one event that carry the same origin and owner |
| `OutboxPublisher.Publisher.PublishPending` | src/ingestion/outbox-publisher.service.ts:75-124 | Exactly the `shot.persisted` events of the batch whose listeners do not throw are emitted, each once, oldest first, and exactly those and unknown ones are deleted |
| `OutboxPublisher.ClaimsAreTheOldestRows` | src/ingestion/outbox-publisher.service.ts:76-84 | A claim holds 100 of the rows that no other publisher has locked, or all if there are fewer, and none that it leaves is older |
| `IngestionSafety.StepKeeps` | src/ingestion/shot-ingestion.processor.ts:31-136 | Each step of any worker or publisher keeps the invariant of the shots table, the workers and the counters |
| `IngestionSafety.ExactDeduplication` | src/ingestion/shot-repository.ts:59-90 | In every reachable state: one row per (vendor, key), admitted jobs are never rejected for their clock, and rows = accepted + near duplicates + being checked + crashed after the insert |
| `IngestionSafety.FlagsNameNearShots` | src/ingestion/shot-repository.ts:130-155 | In every reachable state a flag names another stored shot of the same vendor and user with equal content at most 60 seconds away |
| `IngestionSafety.ReachableStatesAreSafe` | src/ingestion/shot-ingestion.processor.ts:31-136 | The whole invariant holds in every reachable state |
| `IngestionHistory.RunsGrow` | src/ingestion/shot-repository.ts:28-155 | Over any run, backfills included, rows are only appended and keep what was parsed; a flag and a canonical id can be filled in once and never change after that |
| `IngestionHistory.CrashAfterInsertLosesTheCheck` | src/ingestion/shot-ingestion.processor.ts:86-102 | After a crash between insert and flag the row stays unflagged in every continuation, whatever retries follow |
| `IngestionHistory.CheckHappensIffTheRowHasAnOwner` | src/ingestion/shot-ingestion.processor.ts:83-102 | In every reachable state an unflagged row that has a candidate can still be flagged if and only if a worker that inserted it is still at work |
| `IngestionHistory.ChecksAreLost` | src/ingestion/shot-ingestion.processor.ts:83-102 | For any two jobs of which the second is a candidate's duplicate there is a reachable state whose row has a candidate and will never be checked |
| `IngestionHistory.RetryStopsAtTheUpsert` | src/ingestion/shot-ingestion.processor.ts:83-96 | The retry of a stored job changes no table and completes as an exact duplicate with the id of the stored row |
| `IngestionHistory.CompletedJobsAgree` | src/ingestion/shot-repository.ts:77-90 | All completed jobs of one key, at whatever points of a run, report the same shot |
| `OutboxSafety.StepKeepsOutbox` | src/ingestion/outbox-publisher.service.ts:75-124 | Each step keeps: events match rows, claimed batches are sound and pairwise disjoint, and every emission is accounted for |
| `OutboxSafety.EveryShotIsAnnounced` | src/ingestion/shot-repository.ts:65-79 | In every reachable state each stored shot has its event pending or emitted at least once |
| `OutboxSafety.EmittedEventsDescribeRows` | src/ingestion/shot-repository.ts:22-27 | Nothing is emitted for an uncommitted shot, and an origin named in an event is the one of the row |
| `OutboxSafety.RepeatsComeFromRollbacks` | src/ingestion/outbox-publisher.service.ts:32-34 | An event is emitted at most once more than transactions rolled back after emitting it; a deleted one exactly once more |
| `OutboxSafety.DrainedMeansExactlyOnce` | src/ingestion/outbox-publisher.service.ts:75-124 | With an empty outbox and no rollback each stored shot was emitted exactly once, and nothing else was |
| `DuplicateGraph.SerialRunsLeaveAForest` | src/ingestion/shot-ingestion.processor.ts:83-102 | If shots of a user are inserted and checked one at a time, flags point to earlier rows and each chain ends at an unflagged shot |
| `DuplicateGraph.MutualFlagsArePossible` | src/ingestion/shot-repository.ts:130-155 | Some run flags two shots with each other if and only if each is a candidate of the other |
| `DuplicateGraph.AConcreteMutualFlag` | src/ingestion/shot-repository.ts:130-155 | It happens to two equal swings a second apart |
| `OriginDelivery.EventsMayMissTheirOrigin` | src/ingestion/shot-ingestion.processor.ts:102-115 | Some run emits the event of b without an origin although its row ends up flagged with a, if and only if a is a candidate of b |
| `OriginDelivery.OriginReachesListenersIffStillPending` | src/ingestion/shot-repository.ts:164-176 | Over every run after the announcing update in which the event leaves the outbox: the origin is emitted if and only if the event was still pending when the update ran |
| `OriginDelivery.CrashBeforeTheAnnouncement` | src/ingestion/shot-ingestion.processor.ts:112-115 | After a crash between the flag and the announcing update no event ever names the origin |
| `PromptRuns.PromptRunsCarryEveryOrigin` | src/ingestion/shot-ingestion.processor.ts:110-115 | In runs in which no event is claimed while a worker owns its row and no worker crashes between flag and announcement, every emitted event names exactly the origin of its row |
| `ProtocolRefinement.CycleIsARun` | src/ingestion/outbox-publisher.service.ts:75-124 | A publisher cycle is a run of the protocol with exactly the effect proved of the method |
| `ProtocolRefinement.JobIsARun` | src/ingestion/shot-ingestion.processor.ts:31-136 | From every reachable state a worker that is not interrupted completes any admitted job with the effect proved of the method |
| `IdentityService.KeysDoNotCollide` | src/identity/identity.service.ts:28-34 | The two families of cache keys are injective and disjoint, whatever the ids contain |
| `IdentityService.Service.ResolveCanonicalUserId` | src/identity/identity.service.ts:51-79 | With non-overlapping calls the answer is the table lookup, only an empty canonical id is lost on a hit; a hit is less than 60 s after the database last answered for the user, any other call asks it and caches the answer for 60 s |
| `IdentityService.Service.LinkIdentity` | src/identity/identity.service.ts:94-162 | New table row, audit entry, evicted keys and backfilled shots; table and audit log stay consistent and so do the caches |
| `IdentityService.Service.ListByCanonicalUser` | src/identity/identity.service.ts:164-212 | The answer is what the table query would give if and only if it is no hit or no re-link has moved an identity away since the list was cached; a call 30 s or more after the list was last filled always returns exactly the mapped rows, oldest first, and caches them for 30 s |
| `IdentityService.Service.UnlinkIdentity` | src/identity/identity.service.ts:219-254 | Succeeds exactly for the mapped canonical id; otherwise nothing changes, not even the audit log |
| `IdentitySafety.StepKeeps` | src/identity/identity.service.ts:46-254 | Each step of any call or worker keeps the invariant |
| `IdentitySafety.TableIsTheFoldOfTheAuditLog` | src/shared/audit/audit-log.service.ts:26-39 | In every reachable state the mapping table is the fold of the audit log |
| `IdentitySafety.StampsWereAuthorised` | src/identity/identity.service.ts:141-159 | Every canonical id on a shot was linked to exactly that vendor user, according to the audit log |
| `IdentitySafety.StampsAreWrittenOnce` | src/identity/identity.service.ts:214-218 | Over any run shots are only appended and a canonical id once written never changes, and the audit log is only extended |
| `IdentitySafety.HitsAreBounded` | src/identity/identity.service.ts:57-63 | A hit returns what the table held when the entry's query ran, less than 60 s (30 s for lists) after the fill |
| `IdentitySafety.OldAnswersComeFromReadsInFlight` | src/identity/identity.service.ts:134-139 | After the eviction of a link or unlink some run still answers a call with an older value if and only if, at the eviction, a call holds an older value that it has read or is about to return |
| `IdentitySafety.StaleEntriesComeFromUnwrittenReads` | src/identity/identity.service.ts:57-78 | The evicted key can be filled with an older value again if and only if a call holds one that it has yet to write |
| `IdentitySafety.UnstampedShotsComeFromEmptyAnswers` | src/identity/identity.service.ts:88-93 | After a link's backfill some later shot can stay unstamped, though the user is mapped all along, if and only if the user is mapped at the backfill and a call or the live cache still says otherwise |
| `IdentitySafety.RunsStayUpToDate` | src/identity/identity.service.ts:57-78 | From then on no call is served an older answer |
| `IdentitySafety.LinkedUsersStayStamped` | src/identity/identity.service.ts:88-93 | Then also every shot of the user is stamped on arrival for as long as the user stays mapped |
| `IdentitySafety.ReadsInFlightDefeatTheLink` | src/identity/identity.service.ts:88-93 | A run after whose calls have all returned the user is mapped, yet a later shot is unstamped and the cache says that there is no mapping |
| `Percentiles.PercentileValue` | src/stats/stats.service.ts:68-75 | For every p, n and the k below the rank (p/100)(n-1): the value is s[k] + (s[k+1] - s[k]) times the distance of the rank to k |
| `Percentiles.RankOf` | src/stats/stats.service.ts:70-72 | For two samples or more every p has such a k |
| `Percentiles.PercentileOfFewSamples` | src/stats/stats.service.ts:69-73 | 0 without samples, and the sample itself if there is one |
| `Percentiles.NinetiethOfTen` | src/stats/stats.service.ts:68-75 | The 90th percentile of 1, ..., 10 is 9.1 |
| `Percentiles.PercentileIsBetweenNeighbours` | src/stats/stats.service.ts:68-75 | Indices are in bounds and the percentile separates the samples at its rank |
| `Percentiles.PercentileIsMonotone` | src/stats/stats.service.ts:68-75 | Monotone in p |
| `Percentiles.PercentileDependsOnTheMultiset` | src/stats/stats.service.ts:196-201 | Independent of the order of the samples and of the sorting algorithm |
| `Percentiles.PercentileCommutesWithUnits` | src/stats/stats.service.ts:68-75 | If every sample x becomes a*x+b with a not negative, so does the percentile |
| `Percentiles.PercentileOfTheMirroredAxis` | src/stats/stats.service.ts:68-75 | For a not positive it is the percentile at 100-p that becomes a*x+b |
| `Moments.MeanIsBounded` | src/stats/stats.service.ts:215-216 | The mean lies between any bounds of the samples |
| `Moments.MomentsDependOnTheMultiset` | src/stats/stats.service.ts:60-66 | Mean and variance do not depend on the order |
| `Moments.RunningMean` | src/stats/stats.service.ts:60-66 | The mean of one sample, and how one more sample changes a mean: together these determine all means |
| `Moments.RunningVariance` | src/stats/stats.service.ts:60-66 | How one more sample changes the variance, by Welford's recurrence |
| `Moments.DeviationsFromACentre` | src/stats/stats.service.ts:60-66 | The mean squared deviation from any centre is the variance plus the squared distance to the mean |
| `Moments.VarianceByMeanOfSquares` | src/stats/stats.service.ts:60-66 | Variance = mean of squares minus squared mean |
| `Moments.NoSpreadIffAllAgree` | src/stats/stats.service.ts:60-66 | The variance is never negative, and zero if and only if all samples agree |
| `StatsService.CappedIffTheLimitIsReached` | src/stats/stats.service.ts:177-181 | capped if and only if 10000 rows or more match; rows are missing if and only if more than 10000 match |
| `StatsService.GroupByClub` | src/stats/stats.service.ts:184-188 | The Map loop yields the clubs in order of first appearance and for each exactly its rows in order |
| `StatsService.GroupsPartitionTheRows` | src/stats/stats.service.ts:184-188 | The groups together are the rows as a multiset, and the sizes add up to the shot count |
| `StatsService.FiguresOfAClub` | src/stats/stats.service.ts:192-255 | Each figure of a club summarises its own column: moments of the samples, percentiles of their ascending order, withheld below 10 samples |
| `StatsService.NumericIsWithinTheSamples` | src/stats/stats.service.ts:215-232 | Mean, median and 90th percentile lie within the samples, in order, and percentiles are withheld exactly below 10 samples |
| `StatsService.SpinOfAClub` | src/stats/stats.service.ts:205-213 | The spread is the one of the spin values of exactly the shots that have one, in order; the excluded vendors are exactly those with a shot without spin, each once |
| `StatsService.TiesDoNotMatter` | src/stats/stats.service.ts:179-180 | Unless rows were dropped, the figures of a club are determined by the table, however the database orders ties |
| `StatsService.ExecuteStatsQuery` | src/stats/stats.service.ts:115-270 | Which queries are rejected and with which error; otherwise the rows are the newest 10000 that satisfy each condition of the request (window with its defaults, user, vendor, vendor user, club, no duplicate, no putt), capped is set if and only if at least 10000 do, and there is one aggregate per club of the rows |
| `EmailScrubber.EmailLanguage` | src/shared/pii-redact.ts:15 | Which texts are addresses, character by character |
| `EmailScrubber.ScrubLaws` | src/shared/pii-redact.ts:43-44 | A longest address at the front becomes `[REDACTED]` and scrubbing goes on behind it; a text that starts with none keeps its first character |
| `EmailScrubber.MatchIsTheLongestEmail` | src/shared/pii-redact.ts:15 | The backtracking match at a position is the longest prefix in the language of the pattern, and there is none if and only if no prefix is |
| `EmailScrubber.ScrubbedTextHasNoEmail` | src/shared/pii-redact.ts:43-44 | No substring of the output matches the pattern |
| `EmailScrubber.ScrubbingIsIdempotent` | src/shared/pii-redact.ts:43-44 | Scrubbing twice is scrubbing once |
| `EmailScrubber.OnlyEmailsAreScrubbed` | src/shared/pii-redact.ts:43-44 | A text is changed if and only if it contains an address |
| `EmailScrubber.ScrubReplacesLeftmostLongest` | src/shared/pii-redact.ts:43-44 | The output is the input with leftmost, longest addresses replaced and every other character kept in order |
| `PiiRedact.Document.DeleteNestedPath` | src/shared/pii-redact.ts:17-31 | The walk with a moving reference deletes in place exactly the subtree at the path, and leaves a well-formed tree; a missing or scalar value on the way changes nothing |
| `PiiRedact.DeletionIsExact` | src/shared/pii-redact.ts:17-31 | The path and all below it are gone, every other node stays, and only the parent loses one key |
| `PiiRedact.DeletionsCommute` | src/shared/pii-redact.ts:37-40 | Any two deletions commute |
| `PiiRedact.RedactionIsExact` | src/shared/pii-redact.ts:37-40 | What is left is exactly what lies at no blocked path; scalars are unchanged, and each object and array has exactly its keys that lead to no blocked path, in order |
| `PiiRedact.BlockedPathsAreGone` | src/shared/pii-redact.ts:7-12 | The same for the four blocked paths |
| `PiiRedact.RedactPii` | src/shared/pii-redact.ts:33-45 | The result is the scrubbed text of the redacted clone, has no address, and the payload is not modified |
| `ProswingDispatch.AcceptedPayloadsAreDetected` | src/webhooks/proswing/proswing.schema.ts:239-256 | A payload that a schema accepts carries exactly the marker of that version |
| `ProswingDispatch.DispatchRefinesTryAll` | src/webhooks/proswing/proswing.schema.ts:362-375 | At most one of the three strict schemas accepts a JSON value; parsing succeeds if and only if one does, and returns its canonical form |
| `ProswingDispatch.V1IsCanonical` | src/webhooks/proswing/proswing.schema.ts:373-374 | A V1 payload written out from its canonical form is the payload itself |
| `ProswingDispatch.LimitsOfV1` | src/webhooks/proswing/proswing.schema.ts:17-84 | A payload is accepted by V1 if and only if its lengths, units and values are within the stated limits; with the round trip of V1IsCanonical these are all the payloads that V1 accepts |
| `ProswingDispatch.LimitsOfV2` | src/webhooks/proswing/proswing.schema.ts:90-163 | In an accepted V2 payload each number can be replaced by exactly the numbers of its range |
| `ProswingDispatch.LimitsOfV3` | src/webhooks/proswing/proswing.schema.ts:167-202 | In an accepted V3 payload the launch angle, the spin and the player's id can be replaced by exactly the values within the stated limits |
| `ProswingDispatch.V3IsV1InDisguise` | src/webhooks/proswing/proswing.schema.ts:331-351 | The canonical form of a V3 payload is the V1 payload with the player's id as token and a nested launch, and the stated spin beside it |
| `ProswingDispatch.V3AsV1IsAcceptedIffTheIdIsLong` | src/webhooks/proswing/proswing.schema.ts:188-202 | That V1 payload would be accepted if and only if the player's id has at least 8 characters |
| `ProswingDispatch.V2TakesThePreferredVariants` | src/webhooks/proswing/proswing.schema.ts:271-329 | Each measure of the canonical form is the stated value of the first variant present, and an optional one is absent if and only if no variant is present; the other fields are those of the payload |
| `Admission.Queue.Enqueue` | src/ingestion/shot-ingestion.queue.ts:56-99 | Admitted exactly below the depth; a known job id adds nothing |
| `Admission.Queue.EnqueueBatch` | src/ingestion/shot-ingestion.queue.ts:113-125 | An uninterrupted batch is admitted entirely within the depth or not at all |
| `Admission.WaitingIsBounded` | src/ingestion/shot-ingestion.queue.ts:61-96 | With at most k enqueues between check and add, the waiting count stays below the depth plus k in every interleaving |
| `Admission.TheBoundIsReached` | src/ingestion/shot-ingestion.queue.ts:104-106 | From the empty queue, for every depth and every k, some run with at most k enqueues in flight reaches the depth plus k - 1 |
| `Admission.CheckedBatchesAreAdmitted` | src/webhooks/swingmetric/swingmetric.controller.ts:110-116 | A batch that passed the capacity check, with no other producer, is admitted entirely in every order of its checks and adds, and the depth is respected |

## Left out

- The outcome counters of `IngestionProtocol.State` count outcomes as they are decided; that a process can die between an outcome and the increment of its metric is not modelled.
- HTTP controllers, guards, validation pipes, logging, metrics, tracing, health checks and configuration: input, output and framework plumbing.
- PostgreSQL, Redis and BullMQ internals: a transaction is one step, a lock is a set of locked rows, and a job may be started any number of times, which covers its five attempts and stalled redelivery.
- SHA-256, ULIDs, base64url and JSON printing: an injective hash, fresh ordered ids, an inverse pair, a parameter.
- Floating point and the square root: reals, and spread is stated on the variance.
- Calendar parsing and printing: instants are milliseconds, a minute is a quotient, and the ProSwing datetime check is a parameter.
- IngestionProtocol.Apply: a backfill may run at any time for any user and canonical id, and a worker may resolve any canonical id; IdentityProtocol says which ids these can be.
- OutboxSafety.RepeatsComeFromRollbacks: an emit whose listeners throw counts as no emission; with several listeners one may have received the event before another threw, so the bound holds for emissions that complete and not for each listener.
- IngestionProtocol.Enabled: an attempt that fails with an exception is a crash, and the failed-jobs counter is not modelled.
- ShotProcessor.Processor.Process: the failure row is modelled without its redacted body and correlation id, and the vendor's raw payload is not part of a shot.
- IdentityProtocol.Apply: actors, metadata and timestamps of audit entries are left out, as they are in IdentityService; the list cache holds the set of users, whose order by creation time IdentityService models.
- IdentityService.Service.ListByCanonicalUser: the answer of the database is a parameter, which may be any that the query allows.
- PiiRedact.Document.DeleteNestedPath: objects are named by their paths instead of by reference, which is the same for a freshly parsed tree without sharing; keys inherited from prototypes are not modelled.
- EmailScrubber.Scrub: that the scrubbed text is still JSON is not claimed, since an address after an escape sequence takes the escape's letter with it.
- ProswingDispatch.AcceptsV1: lengths are counted in characters of the text, one per UTF-16 unit; the issues that a failed parse reports are not modelled.
- Admission.Apply: delayed retries that re-enter the waiting list are not governed by the check and are not modelled.
- StatsService.ExecuteStatsQuery: the check of the vendor name in `getStatsByVendorUser` is left out.
- The parsers of the vendors beyond their keys, unit conversion and club names: finite tables.
- The idempotency interceptor: one branch around a get and a set.
