# RAGRig core: a verified model

RAGRig is a self-hosted retrieval service. This project models the parts of it whose guarantees
are statements about whole histories, whole tables or whole files, and proves those guarantees:

- the request limiter (one-minute sliding windows, one per operation and key) and the login
  throttle (lazily pruned failures and a lockout), including what their `Retry-After` promises;
- the semantic answer cache: cosine lookup, oldest-first eviction, invalidation;
- the truncated merge of several result lists and the BM25-lite scorer;
- workspace backup and restore, retention of document versions, invitations and registration,
  API-key tokens;
- the sanitizer coverage summary and its drift report, read as a patch;
- the hand-written PDF of the pilot fixture, byte by byte, with a reader that follows ISO 32000-1
  and has its own keywords.

Each stateful component is a class whose methods are proved against a function on values; the
results about runs are lemmas about that function. For each component some of these lemmas speak of
settings, table rows and clock readings alone, so that they say what the function has to be. Loops of
the source are loops here, with invariants.

`dafny verify dfyconfig.toml` checks everything.

## Files

| file | content |
|---|---|
| `SlidingWindow.dfy`, `RateLimiter.dfy` | one window and its runs; the limiter over all keys |
| `LoginThrottle.dfy`, `ThrottleRuns.dfy` | the throttle; its runs against a log that never prunes |
| `Vectors.dfy`, `SemanticCache.dfy`, `CacheRuns.dfy` | cosine; the cache; its runs |
| `MergeResults.dfy`, `Lexical.dfy` | truncated merge; BM25-lite |
| `Backup.dfy`, `DumpContents.dfy`, `BackupRoundTrip.dfy` | dump and restore; what a dump holds; round trip and idempotence |
| `Retention.dfy`, `Invitations.dfy`, `ApiKey.dfy` | retention; invitations and registration; token shape |
| `Coverage.dfy`, `DriftDiff.dfy`, `DriftPatch.dfy` | coverage summary; drift report; what the report guarantees |
| `Decimals.dfy`, `PdfStrings.dfy`, `PdfWriter.dfy` | numerals; literal strings; the writer |
| `PdfReader.dfy`, `PdfReadBack.dfy`, `PdfDocument.dfy` | a reader; the text read back; the whole document read back |

## Assumptions

- Clocks, similarities and scores are exact reals. A clock reading, an id drawn by the database
  and a column default are parameters. `sqrt` and `log` are parameters of which only
  `s >= 0 && s * s == x`, "positive above 1" and, for `RarerTermsWeighMore`, "increasing" are used.
- A method is one critical section: it gets the clock reading its caller took before the lock, so
  lock order and clock order may differ. The bounds on requests and on guesses are proved for such
  stale stamps, and what a lockout and its `Retry-After` promise for any stamps; exact answers
  (`RefusedIffFull`, `RefinesHistory`) are proved for stamps that do not go back.
- Database tables are sequences or maps of rows; a `select` without `ORDER BY` yields storage
  order. HTTP 429 and Python exceptions are result values. Hashes of tokens and throttle keys are
  injective, so the text itself is the key.
- Text forms of dates and ids (`isoformat`, `str(uuid)`) read back, and an ISO date does not end
  in `Z` (`Backup.Faithful`). `strip` removes surrounding space and `lower` neither adds nor removes
  any (`Invitations.Text.Sane`).

## Where code and documentation differ

- `backup.py:16-17` says restoring a payload twice is a no-op. It is, exactly when every payload
  row carries an id (`RestoreTwice`): a row without one is inserted each time.
- `semantic_cache.py:39-40` promises a bound per knowledge base. The code keeps one per knowledge
  base and workspace; `KnowledgeBaseBound` says when the documented bound holds too, and
  `TwoWorkspacesOverfill` shows when it does not.
- `auth.py:348-355` (`accept_invitation`) checks nothing: it keeps the invitation lifecycle exactly
  for a pending invitation (`AcceptNeedsPending`). Its caller verifies first.
- `auth_throttle.py:24` starts `locked_until` at 0, so a clock before 0 locks a key that never
  failed (`NegativeClockLocksFreshKey`); `time.monotonic` is assumed non-negative elsewhere.
- `verify_invitation` (`auth.py:340-344`) marks an invitation expired, but through the service the
  mark is never committed (`ServiceNeverMarksExpired`): its caller refuses the registration.
- `auth.py:389` compares an invitation's email in lower case with a stripped address, and
  `routers/auth.py:27` takes that email as any string: one with a space around it admits nobody
  (`InvitationIsUsable`).
- Two golden files without a `parser_id` share the id "unknown"; the drift table keeps the last of
  them and the totals no longer add up (`RepeatedIdLosesTotals`).
- A carriage return in the PDF text reads back as a line feed (`LiteralRoundTrip`).

## Model

| member | source | states |
|---|---|---|
| SlidingWindow.Limit | src/ragrig/ratelimit.py:44 | every window admits at least one request a minute, whatever `rpm` and the burst factor are |
| SlidingWindow.LimitIsWholePart | src/ragrig/ratelimit.py:44 | the limit n is the whole part of `rpm * burst`: n <= rpm * burst < n + 1 when the product is at least 1, and 1 otherwise |
| SlidingWindow.Window.constructor | src/ragrig/ratelimit.py:42-47 | a new window is empty and carries the limit of its rate |
| SlidingWindow.Window.Allow | src/ragrig/ratelimit.py:49-61 | the decision, the wait and the new deque of one request, for any stamp |
| SlidingWindow.PruneIsTail | src/ragrig/ratelimit.py:54-55 | popping drops exactly the longest prefix at or below the cutoff |
| SlidingWindow.DequeIsTail | src/ragrig/ratelimit.py:54-60 | the deque is a tail of the full admission history, and what was popped is a whole window below the largest stamp seen |
| SlidingWindow.WindowSafety | src/ragrig/ratelimit.py:49-61 | for any run with stamps at most d stale, no interval (x, x+60-d] holds more than the limit of admitted stamps |
| SlidingWindow.StaleBoundIsTight | src/ragrig/ratelimit.py:51-53 | the staleness term cannot be dropped: for each limit above 1 and each 0 < d <= 60, every wider interval is overfilled by some d-stale run |
| SlidingWindow.LiveIsRecent | src/ragrig/ratelimit.py:52-56 | with non-decreasing stamps the pruned deque counts exactly the admissions of the last minute |
| SlidingWindow.RefusedIffFull | src/ragrig/ratelimit.py:53-61 | with non-decreasing stamps a request is refused if and only if the limit was admitted in (now-60, now] |
| SlidingWindow.FreeAgain | src/ragrig/ratelimit.py:53-61 | after a refusal and without further admissions, requests are refused exactly until the oldest live stamp is a window old |
| SlidingWindow.RetryAfterBounds | src/ragrig/ratelimit.py:57-59 | the announced wait is between 1 and 61 s, longer than the true wait by more than 0 and at most 1 s |
| SlidingWindow.RetryAfterSound | src/ragrig/ratelimit.py:53-61 | a retry after the announced wait succeeds, and one more than a second early fails, if nothing was admitted in between |
| RateLimiter.Limiter.constructor | src/ragrig/ratelimit.py:67-74 | a new limiter holds no window |
| RateLimiter.Limiter.GetWindow | src/ragrig/ratelimit.py:76-80 | one window object per key of a store: the stored one, or a new empty one that is stored |
| RateLimiter.Limiter.Check | src/ragrig/ratelimit.py:82-120 | a check is the key's window's decision, and changes that window only; disabled, it does nothing |
| RateLimiter.Limiter.CheckSearch | src/ragrig/ratelimit.py:122-129 | the search check on the state of both dictionaries |
| RateLimiter.Limiter.CheckIngest | src/ragrig/ratelimit.py:131-138 | the ingest check on the state of both dictionaries |
| RateLimiter.DequeOfKey | src/ragrig/ratelimit.py:76-80 | after any interleaving, a key's deque is the one its own calls alone produce |
| RateLimiter.KeysAreIndependent | src/ragrig/ratelimit.py:76-138 | in any interleaving, what one key is told for one operation is what a private window fed with its own calls says |
| RateLimiter.DisabledIsInert | src/ragrig/ratelimit.py:90-91 | a disabled limiter refuses nothing and keeps no state, over any run |
| RateLimiter.PassedIsAdmitted | src/ragrig/ratelimit.py:92-105 | the calls let through for a key are the admissions of its private window |
| RateLimiter.RateIsBounded | src/ragrig/ratelimit.py:49-138 | the service's rate limit in its settings: in any (x, x+60-d] at most `rpm * burst` of a key's calls (but always one) pass, whatever else is interleaved |
| RateLimiter.SearchRefusedIff | src/ragrig/ratelimit.py:122-129 | with a key's stamps in order, a search is refused iff n >= 1 of its searches passed in the last 60 s and n + 1 > `search_rpm * burst`, whatever else is interleaved |
| RateLimiter.IngestRefusedIff | src/ragrig/ratelimit.py:131-138 | the same for ingestion and `ingest_rpm` |
| LoginThrottle.AttemptWindow.PruneAt | src/ragrig/auth_throttle.py:99-104 | the pruning loop drops the failures a window old and clears an ended lock of an empty window |
| LoginThrottle.AttemptWindow.Fail | src/ragrig/auth_throttle.py:66-75 | the critical section of a failure: its answer and the new window |
| LoginThrottle.Limiter.constructor | src/ragrig/auth_throttle.py:30-42 | a new throttle knows no key |
| LoginThrottle.Limiter.CheckAllowed | src/ragrig/auth_throttle.py:44-56 | the verdict of a check and the one window it prunes; a key without a window passes |
| LoginThrottle.Limiter.SetDefault | src/ragrig/auth_throttle.py:66 | `setdefault`: the stored window, or a fresh one that is stored |
| LoginThrottle.Limiter.RecordFailure | src/ragrig/auth_throttle.py:58-90 | the verdict of a failure and the new windows, all other keys unchanged |
| LoginThrottle.Limiter.RecordSuccess | src/ragrig/auth_throttle.py:92-97 | a success forgets the key and nothing else |
| ThrottleRuns.TrackRefinesLog | src/ragrig/auth_throttle.py:44-104 | over any run the lazily pruned, lazily reset window agrees with the full log of recorded failures and locks |
| ThrottleRuns.RefinesHistory | src/ragrig/auth_throttle.py:44-104 | for stamps in order, a check is refused iff a failure of the last `lockout` seconds, recorded since the last success, was at least the max-th in its window; a failure is answered 429 iff the key is locked after it |
| ThrottleRuns.StaleCheckMeetsLaterLock | src/ragrig/auth_throttle.py:47-54 | the order is needed: a check whose stamp precedes a lock is refused by it |
| ThrottleRuns.LockedAttemptsLeaveNoTrace | src/ragrig/auth_throttle.py:68-71 | for any stamps, after an attempt during a lock every check gets the answer it would have got without it, and from then on failures find the same window |
| ThrottleRuns.RetryAfterEndsLock | src/ragrig/auth_throttle.py:53-75 | for any stamps, after a 429 announcing r seconds a check passes r seconds later and is refused earlier than r - 1 |
| ThrottleRuns.RetryAfterIsExact | src/ragrig/auth_throttle.py:53-75 | for any stamps, the failure that locks announces exactly the lockout, at whose end the key is free; a 429 during a lock announces the time left plus at most a second |
| ThrottleRuns.RetryAfterIsBounded | src/ragrig/auth_throttle.py:53-75 | with stamps at most d stale the announced wait is at most lockout + 1 + d |
| ThrottleRuns.DequeIsBounded | src/ragrig/auth_throttle.py:58-75 | in every run with stamps at most d stale, (len(failures) - max) * lockout < window + 2d |
| ThrottleRuns.LogIsBounded | src/ragrig/auth_throttle.py:58-75 | the same bound for the failures recorded since the last success in any interval (x, x+window] |
| ThrottleRuns.GuessesAreBounded | src/ragrig/auth_throttle.py:58-104 | the bound on guesses: n failures recorded in an interval (x, x+window] without a success satisfy (n - max) * lockout < window |
| ThrottleRuns.StaleGuessesAreBounded | src/ragrig/auth_throttle.py:58-104 | with stamps at most d stale, n > max failures recorded without a success in between in an interval (x, x+window-d] satisfy (n - max) * lockout < window - d |
| ThrottleRuns.KeysAreIndependent | src/ragrig/auth_throttle.py:44-97 | after any interleaving a key's window is the one its own events produce |
| ThrottleRuns.NegativeClockLocksFreshKey | src/ragrig/auth_throttle.py:24-71 | a key that never failed is locked exactly when the clock is below 0 |
| Vectors.CauchySchwarz | src/ragrig/semantic_cache.py:68-72 | the dot product over the common prefix obeys Cauchy-Schwarz, also for vectors of different lengths |
| Vectors.CosineInRange | src/ragrig/semantic_cache.py:68-72 | the similarity lies in [-1, 1] for all vectors, zero and truncated ones included |
| Vectors.CosineIs | src/ragrig/semantic_cache.py:68-72 | the similarity c of two non-zero vectors satisfies c * c * (a.a) * (b.b) == (a.b) * (a.b) and has the sign of a.b; with a zero vector it is 0 |
| Vectors.CosineIsUnique | src/ragrig/semantic_cache.py:68-72 | only one number does |
| Vectors.DotOfAppended | src/ragrig/semantic_cache.py:68-72 | the dot product takes every pair of components alike and stops with the shorter vector |
| Vectors.CosineCommutes | src/ragrig/semantic_cache.py:68-72 | the similarity is symmetric |
| Vectors.CosineOfScaled | src/ragrig/semantic_cache.py:68-72 | scaling a vector by a positive number leaves the similarity, by a negative one turns its sign |
| Vectors.CosineOfSelf | src/ragrig/semantic_cache.py:68-72 | a vector's similarity with itself is 1, or 0 for a zero vector |
| SemanticCache.Cache.Lookup | src/ragrig/semantic_cache.py:75-135 | the loop returns the most similar live match at or above the threshold, the first of equals, or nothing when there is none |
| SemanticCache.Cache.DeleteAll | src/ragrig/semantic_cache.py:185-234 | deleting entries one by one removes exactly their ids |
| SemanticCache.Cache.Store | src/ragrig/semantic_cache.py:152-210 | the table after a store: evictions in scope, then the new entry |
| SemanticCache.Cache.Invalidate | src/ragrig/semantic_cache.py:215-236 | exactly the entries in scope are deleted and counted; no workspace means all of them |
| SemanticCache.Cache.IncrementHitCount | src/ragrig/semantic_cache.py:138-149 | one entry's hit count goes up by one, if it exists |
| CacheRuns.Provenance | src/ragrig/semantic_cache.py:152-236 | every entry of the table stems from a store of the run that no later invalidation matches |
| CacheRuns.HitIff | src/ragrig/semantic_cache.py:75-135 | a lookup hits iff some unexpired entry of the base, provider, model and dimensions (and workspace, when one is asked for) has a cosine of at least the threshold, and no such entry has a greater one than the hit |
| CacheRuns.HitProvenance | src/ragrig/semantic_cache.py:91-236 | after any run a hit is an earlier answer for the same base, provider, model, dimensions and workspace, not invalidated, within its TTL, whose stored vector has the reported cosine; no live match has a greater one |
| CacheRuns.EvictedFacts | src/ragrig/semantic_cache.py:181-186 | the evicted entries are in scope and no younger than those of the scope that stay |
| CacheRuns.StoreEvictsOldest | src/ragrig/semantic_cache.py:174-210 | a store evicts exactly as many as make room for one, all in scope and none younger than a kept one of the scope; everything else stays |
| CacheRuns.CapacityHolds | src/ragrig/semantic_cache.py:172-210 | over any run each knowledge base and workspace, the null one included, holds at most the maximum |
| CacheRuns.KnowledgeBaseBound | src/ragrig/semantic_cache.py:172-210 | a store leaves its own scope within the maximum whatever was there, and the whole knowledge base iff that had room or all its entries are in the scope |
| CacheRuns.TwoWorkspacesOverfill | src/ragrig/semantic_cache.py:177-181 | two stores from different workspaces overfill a knowledge base limited to one entry |
| CacheRuns.AnswerSurvives | src/ragrig/semantic_cache.py:172-210 | when creation stamps within the knowledge base do not go back, an answer that is not invalidated outlives fewer than `least` later stores into it that each allow at least `least` entries |
| CacheRuns.ServedWhileFresh | src/ragrig/semantic_cache.py:75-210 | the same non-zero vector in the same scope is a hit with similarity 1 before expiry, for every legal threshold, through all such later stores |
| MergeResults.MergeRetrievalResults | src/ragrig/retrieval_rewriter.py:105-118 | the nested loops over the insertion-ordered dictionary compute the merge, for any k, negative ones included |
| MergeResults.SeenFacts | src/ragrig/retrieval_rewriter.py:111-116 | the dictionary holds, for each chunk that occurs, the first of its results that reach its best score |
| MergeResults.SortFacts | src/ragrig/retrieval_rewriter.py:117 | the stable sort gives a descending permutation |
| MergeResults.MergeIsTopK | src/ragrig/retrieval_rewriter.py:105-118 | the merge is the first best result per chunk in descending order, at most k, no chunk twice, and what is missing scores no higher |
| MergeResults.SameScores | src/ragrig/retrieval_rewriter.py:105-118 | any two rankings of best results to k of the same input have the same length and scores |
| MergeResults.MergeKeepsTies | src/ragrig/retrieval_rewriter.py:109-118 | results of equal score stand in the order in which their chunks first occur in the lists |
| MergeResults.NegativeTopK | src/ragrig/retrieval_rewriter.py:117-118 | a negative k leaves out the last -k of the ranked chunks |
| MergeResults.MergeInStages | src/ragrig/retrieval_rewriter.py:105-118 | for all lists and k >= 0, merging some lists to k and the rest into that gives the same number of results and the same scores as merging all to k, and the same result wherever its score is not the best score of two chunks; so equal merges when no two chunks share their best score |
| MergeResults.TiesBreakStages | src/ragrig/retrieval_rewriter.py:117-118 | two chunks that share their best score can come out in a different order |
| Lexical.ComputeTf | src/ragrig/lexical.py:22-28 | exactly the chunk's terms, each with the share its occurrences are of all tokens; an empty chunk has none |
| Lexical.Counter | src/ragrig/lexical.py:27 | the counting pass finds each term and how often it occurs |
| Lexical.FrequenciesSumToOne | src/ragrig/lexical.py:22-28 | the term frequencies of a non-empty chunk add up to 1 |
| Lexical.ComputeIdf | src/ragrig/lexical.py:31-40 | exactly the query terms, each with its IDF, 0 for an empty corpus |
| Lexical.IdfIs | src/ragrig/lexical.py:31-40 | with N documents of which df contain the term the IDF is log((N + 1) / (df + 1/2)) |
| Lexical.Bm25ScoreTokens | src/ragrig/lexical.py:43-79 | for any k1 and b the accumulating loop computes a sum that does not depend on the order in which the set of terms is walked, or fails when a matching term divides by 0 |
| Lexical.ScoreOfTerm | src/ragrig/lexical.py:31-79 | with f the term's share of the chunk and m the average document length but at least 1, the score s satisfies s * (f + norm) == idf * f * (k1 + 1) with norm * m == k1 * (m - b * m + b * length); a term the chunk lacks scores 0 |
| Lexical.ScoreAddsUp | src/ragrig/lexical.py:70-79 | two queries without a common term score together what they score apart |
| Lexical.StandardDivides | src/ragrig/lexical.py:65-77 | with k1 >= 0 and 0 <= b <= 1 no division fails |
| Lexical.ScoreBounds | src/ragrig/lexical.py:43-79 | against a non-empty corpus the score is never negative, positive iff the chunk contains a query term, and at most (k1+1) times the summed IDFs |
| Lexical.MoreMatchesScoreHigher | src/ragrig/lexical.py:43-79 | higher means a better match: of two chunks of equal length, the one with at least as many occurrences of each query term scores at least as high, strictly so if some term occurs more often and k1 > 0 |
| Lexical.ShorterScoresHigher | src/ragrig/lexical.py:65-79 | of two chunks in which each query term has the same share the shorter scores at least as high, strictly so if it is strictly shorter, contains a query term and k1, b > 0 |
| Lexical.RarerTermsWeighMore | src/ragrig/lexical.py:31-40 | of two terms, the one in fewer documents of the corpus has the greater IDF, and only that one |
| Lexical.EmptyCorpusScoresZero | src/ragrig/lexical.py:34-79 | against an empty corpus every score is 0 |
| Lexical.ScoreIgnoresOrder | src/ragrig/lexical.py:43-79 | the score does not change under reordering of corpus, chunk or query or under repeated query tokens |
| Lexical.TokenOverlapScore | src/ragrig/lexical.py:82-101 | the three cases of the text scorer: nothing to compare, no corpus, BM25-lite |
| Lexical.OverlapIs | src/ragrig/lexical.py:96-98 | without a corpus the score is the number of common terms over the number of query tokens |
| Lexical.OverlapBounds | src/ragrig/lexical.py:96-98 | without a corpus the score lies in [0, 1] and is positive iff the texts share a token |
| DumpContents.DumpHolds | src/ragrig/backup.py:66-123 | each of the seven tables with a `workspace_id` is dumped with exactly its rows of the workspace, sources and turns with exactly those whose `knowledge_base_id` or `conversation_id` is the id of such a row, all once, in storage order, with every column shown; the workspace block is the workspace's row |
| DumpContents.DumpFailsIff | src/ragrig/backup.py:71-73 | a dump fails iff no workspace row has the id |
| Backup.ApplyDict | src/ragrig/backup.py:143-157 | the loop over the columns coerces the known columns of a payload row, or reports the first bad value |
| BackupRoundTrip.CoercedColumns | src/ragrig/backup.py:143-157 | a restored row has exactly the table's columns that the payload row has, each read by the rule of its kind; one that cannot be read fails the restore |
| BackupRoundTrip.CoercionRules | src/ragrig/backup.py:126-140 | null and empty text are null in id and time columns, any number of trailing Z are dropped from a time, other text is parsed or refused, and plain columns take any value |
| Backup.Store.UpsertMany | src/ragrig/backup.py:199-210 | upserting rows one after the other merges them into matching rows and appends the others; ids stay unique or the flush fails |
| BackupRoundTrip.UpsertMerges | src/ragrig/backup.py:199-210 | a row whose id is in the table gets the columns of its payload row and keeps its others and its place; a payload row with a new id is added behind the table |
| Backup.Store.RestoreTables | src/ragrig/backup.py:189-224 | all tables in order, with the counts; an error leaves the database as it was |
| Backup.Store.RestoreWorkspace | src/ragrig/backup.py:160-224 | a version other than 1 and a missing workspace block are refused, in that order; otherwise the upserts with the number of rows of every block, or an error that leaves the database as it was |
| BackupRoundTrip.CoerceSerialized | src/ragrig/backup.py:51-140 | coercion undoes serialization on every value of the column's type |
| BackupRoundTrip.CoercedOfDict | src/ragrig/backup.py:59-157 | a dumped row is coerced back to itself |
| BackupRoundTrip.TableAfter | src/ragrig/backup.py:199-222 | the tables do not interact: each restored table is the upsert of its own block |
| BackupRoundTrip.UpsertTwice | src/ragrig/backup.py:199-210 | upserting the same rows with ids again finds all of them and changes none |
| BackupRoundTrip.RestoreTwice | src/ragrig/backup.py:160-224 | after a successful restore a second one of the same payload is a no-op if and only if every payload row has an id |
| BackupRoundTrip.RestoreLeavesOthers | src/ragrig/backup.py:199-210 | rows whose ids are not in the payload stay as they are, where they are |
| BackupRoundTrip.RestoreAppends | src/ragrig/backup.py:66-224 | restoring a dump into a database without its ids appends the workspace's rows to each table |
| BackupRoundTrip.RoundTrip | src/ragrig/backup.py:66-224 | dump, restore elsewhere and dump again gives the same payload apart from `exported_at` |
| BackupRoundTrip.RestoreOwnDump | src/ragrig/backup.py:66-224 | restoring a dump into the database it came from changes nothing |
| BackupRoundTrip.RestoreBringsBack | src/ragrig/backup.py:160-224 | whatever state a database is in, a successful restore leaves each dumped row as it was dumped |
| Retention.Store.PurgeOldDocumentVersions | src/ragrig/retention.py:39-90 | joining the versions with the grouped maxima on a different number deletes exactly the versions of the base that some higher number of their document supersedes and that were created before `now - days * 86400` s; they are counted |
| Retention.PurgeTakes | src/ragrig/retention.py:49-82 | the same about the tables before and after a purge: what is gone, and that all else stays as it was |
| Retention.Store.MaxVersions | src/ragrig/retention.py:56-65 | the subquery has exactly the base's documents with versions, each with a number that occurs and that none exceeds |
| Retention.Store.PurgeOldAuditEvents | src/ragrig/retention.py:93-117 | deleting row by row removes exactly the events from before `now - days * 86400` s, of the workspace if one is given, and counts them |
| Retention.Store.RunForKnowledgeBase | src/ragrig/retention.py:120-142 | an unknown base or one without a policy is skipped; any other is purged by its policy |
| Retention.Store.RunAll | src/ragrig/retention.py:145-167 | although the purges follow one another, each at its own time, the run deletes what each policy makes old in the table before the run |
| Retention.RunTakes | src/ragrig/retention.py:145-157 | a run takes exactly the superseded versions older than their own base's policy at the time its purge reads; a base without a policy loses nothing |
| Retention.ReportsAddUp | src/ragrig/retention.py:131-157 | the deleted counts of the report add up to the rows gone, and only bases with a policy report |
| Retention.OthersDoNotMatter | src/ragrig/retention.py:145-157 | purging other bases does not change what is old in a base |
| Retention.CurrentSurvives | src/ragrig/retention.py:56-77 | a purge never deletes a current version, and makes no other version current |
| Retention.PurgesCompose | src/ragrig/retention.py:49-82 | at one instant, purging with d1 and then d2 days is one purge with the smaller of them |
| Retention.NumbersNeverReused | src/ragrig/repositories/document.py:62-68 | over any run of purges and appends the next version number counts all versions ever appended |
| Retention.AppendNumber | src/ragrig/repositories/document.py:62-68 | an appended version gets the number above the highest of its document, or 1 |
| Retention.YoungSurvives | src/ragrig/retention.py:39-90 | over any run of purges and appends a version created after the horizon of every purge is still there, as it was |
| Retention.CurrentIsKept | src/ragrig/retention.py:39-90 | over any run the last version appended to a document is there and current |
| Retention.OthersKeepAll | src/ragrig/retention.py:63-77 | a base that is never purged loses nothing, over any run |
| Invitations.AuthStore.CreateInvitation | src/ragrig/auth.py:297-319 | a new token gets a pending invitation; a taken one is refused |
| Invitations.AuthStore.VerifyInvitation | src/ragrig/auth.py:322-345 | the pending, unexpired invitation of the token in scope, or none; one found past its date becomes expired |
| Invitations.VerifiedIs | src/ragrig/auth.py:322-345 | verification returns exactly a pending invitation before its date (and of the workspace, if given), marks one past its date as expired and changes nothing else |
| Invitations.AuthStore.AcceptInvitation | src/ragrig/auth.py:348-355 | the invitation becomes accepted at the given time, whatever it was |
| Invitations.AuthStore.RegisterUser | src/ragrig/auth.py:358-437 | the refusals in their order, and otherwise the registration with its workspace and the new state |
| Invitations.RefusedIff | src/ragrig/auth.py:374-390 | a registration is refused iff the address, stripped and in lower case, is taken, or a given token names no pending invitation before its date, or one for another email; in that order |
| Invitations.RefusedAddsNobody | src/ragrig/auth.py:374-390 | a refused registration adds no user and no membership |
| Invitations.UninvitedJoins | src/ragrig/auth.py:392-425 | over any run an uninvited registration adds the user and exactly one membership, in the default workspace: as owner iff nobody was a member of it, and as viewer otherwise |
| Invitations.LaterAreViewers | src/ragrig/auth.py:409-417 | every uninvited registration after the first makes a viewer |
| Invitations.EmptyInstallationGetsOwner | src/ragrig/auth.py:409-417 | if the first registration of an installation without members is uninvited, it makes its owner |
| Invitations.AuthStore.RegisterAccount | src/ragrig/services/auth.py:110-145 | closed registration asks for a token; a refusal leaves the database as it was |
| Invitations.AuthStore.RevokeInvitation | src/ragrig/services/auth.py:451-471 | exactly a pending invitation of the caller's workspace is revoked; another workspace's is not found |
| Invitations.RunEvolves | src/ragrig/auth.py:297-437 | over any run invitations only leave the pending state, once; memberships and users are only added; emails stay unique |
| Invitations.AdmitsAtMostOne | src/ragrig/auth.py:322-435 | over any run an invitation lets in at most one registration, verified before its expiry |
| Invitations.AcceptedByRegistration | src/ragrig/auth.py:384-435 | an accepted invitation was accepted by a registration in time, with the right email, whose new user became a member of its workspace in its role |
| Invitations.CreatedTerms | src/ragrig/auth.py:297-319 | an invitation keeps workspace, email, role and expiry as created |
| Invitations.InvitedAsCreated | src/ragrig/auth.py:297-435 | an accepted invitation was created with the workspace, role, email and date by which a later registration, before that date and with that email, made its new user a member |
| Invitations.FirstOwnerOnly | src/ragrig/auth.py:399-425 | over any run uninvited registration makes at most one owner |
| Invitations.AcceptNeedsPending | src/ragrig/auth.py:348-355 | acceptance keeps the lifecycle iff the invitation is pending, or already accepted at that very time |
| Invitations.InvitationAdmits | src/ragrig/auth.py:338-390 | a pending invitation in time admits exactly the unregistered addresses that normalize to its email in lower case |
| Invitations.InvitationIsUsable | src/ragrig/auth.py:374-390 | an invitation's email admits some address iff there is no space around it |
| Invitations.ServiceNeverMarksExpired | src/ragrig/services/auth.py:110-145 | over any run through the service no invitation is marked expired |
| ApiKey.SplitSeparates | src/ragrig/auth.py:202 | `split` with a limit gives a decomposition that joins back, with separators only in a last piece that used up the limit |
| ApiKey.SeparatedIsSplit | src/ragrig/auth.py:202 | and it is the only such decomposition |
| ApiKey.ParseInvertsPrint | src/ragrig/auth.py:93-209 | a token parses to prefix and secret iff it is `rag_live_<prefix>_<secret>` with a non-empty prefix without underscore and a non-empty secret |
| ApiKey.IssuedTokensParse | src/ragrig/auth.py:93-95 | every issued token parses back, and different credentials give different tokens |
| Coverage.BuildCoverageSummary | scripts/sanitizer_coverage.py:57-126 | one record per golden file, and the three running totals are the sums over the records |
| Coverage.RecordsAre | scripts/sanitizer_coverage.py:74-90 | what a record says of its golden file, missing keys included |
| Coverage.TotalsCount | scripts/sanitizer_coverage.py:67-102 | the totals are the number of golden files, the sum of their redaction counts and the number of degraded ones |
| DriftDiff.MapParsers | scripts/sanitizer_drift_diff.py:76-87 | the table by parser id, later records winning; a missing or empty id is an error |
| DriftPatch.TableIs | scripts/sanitizer_drift_diff.py:76-87 | there is a table iff every record has a non-empty id, and it holds the last record of each id |
| DriftDiff.AssessRisk | scripts/sanitizer_drift_diff.py:195-214 | the first pass annotates each change with whether it degrades its parser and sets the flag iff one does; comparing a missing count fails |
| DriftDiff.CollectDetails | scripts/sanitizer_drift_diff.py:241-258 | the second pass lists exactly the changes annotated as risks, in order |
| DriftDiff.ComputeDriftDiff | scripts/sanitizer_drift_diff.py:147-295 | the report of two summaries, and exactly when there is none |
| DriftPatch.SortedIdsFacts | scripts/sanitizer_drift_diff.py:162 | the ids walked are ascending, without repetition, and exactly the given ones |
| DriftPatch.PatchIsComplete | scripts/sanitizer_drift_diff.py:90-189 | applying the listed changes to the base table gives the head table; a parser is listed iff it differs |
| DriftPatch.ListsAre | scripts/sanitizer_drift_diff.py:90-189 | the three lists are the parsers only in the head, only in the base, and in both with different fields, with their fields on both sides and defaults for missing ones |
| DriftPatch.ReasonsAre | scripts/sanitizer_drift_diff.py:176-258 | a reason is listed exactly for a parser with fewer redactions or more degraded files, a new one without redactions or with degraded files, and a total that dropped or rose; the hash flag is set iff the hashes differ |
| DriftPatch.ReportInOrder | scripts/sanitizer_drift_diff.py:162-258 | lists are in ascending order of ids and reasons in the order totals, changed parsers, new parsers; nothing is listed twice |
| DriftPatch.ReportIff | scripts/sanitizer_drift_diff.py:159-214 | with both tables there, there is a report iff every parser with different fields has the counts that are compared |
| DriftPatch.RiskIffDetails | scripts/sanitizer_drift_diff.py:191-258 | the risk is "degraded" iff some reason is listed |
| DriftPatch.SumOverIds | scripts/sanitizer_coverage.py:72-102 | a summary's total is the sum over its table plus what repeated ids hide |
| DriftPatch.TotalsAreConserved | scripts/sanitizer_drift_diff.py:168-189 | a total delta is the net effect of the listed changes plus the difference in what repeated ids hide, so exactly that net effect when no id is repeated |
| DriftPatch.WorseTotalsHaveCauses | scripts/sanitizer_drift_diff.py:191-217 | without repeated ids, a rise in degraded files comes with a flagged parser, and a drop in redactions with a flagged parser or a removed one that had redactions |
| DriftPatch.RepeatedIdLosesTotals | scripts/sanitizer_coverage.py:74 | two golden files without an id change a total without any listed change |
| Decimals.PaddedReadsBack | scripts/local_pilot_console_e2e.py:64 | a zero-padded offset reads back, and fills exactly ten digits below 10^10 |
| PdfStrings.EscapeIsOnePass | scripts/local_pilot_console_e2e.py:35 | the three chained replaces escape each character exactly once |
| PdfStrings.ReadEscaped | scripts/local_pilot_console_e2e.py:35-36 | a literal-string reader (section 7.3.4.2 of ISO 32000-1) reads the escaped text up to ends of line and stops at the right parenthesis |
| PdfStrings.LiteralRoundTrip | scripts/local_pilot_console_e2e.py:35-36 | literal strings round-trip iff the text has no carriage return |
| PdfWriter.WriteMinimalTextPdf | scripts/local_pilot_console_e2e.py:34-69 | the loops over body and offsets write the file; text that is not ASCII fails |
| PdfReadBack.XrefIsFound | scripts/local_pilot_console_e2e.py:60-68 | `startxref` holds the offset of the cross-reference table |
| PdfReadBack.SizeIsRead | scripts/local_pilot_console_e2e.py:60-61 | the table starts with `xref` and the number of its entries |
| PdfReadBack.EntriesAreAligned | scripts/local_pilot_console_e2e.py:62-64 | entry i begins 20 * i bytes into the table (section 7.5.4) |
| PdfReadBack.ObjectsAreLocated | scripts/local_pilot_console_e2e.py:52-68 | under 10^10 bytes, entry i of the table found from the end of the file holds the offset of `i 0 obj` |
| PdfReadBack.StreamIsRead | scripts/local_pilot_console_e2e.py:45-49 | `/Length` is the number of stream bytes (section 7.3.8) |
| PdfReadBack.TextReadsBack | scripts/local_pilot_console_e2e.py:34-69 | under 10^10 bytes, following `startxref`, table, object 5 and `/Length` leads to the text, ends of line normalized; to the text itself iff it has no carriage return |
| PdfDocument.RootIsRead | scripts/local_pilot_console_e2e.py:65-68 | the trailer behind the table names object 1 as the root |
| PdfDocument.PageIsRead | scripts/local_pilot_console_e2e.py:40-44 | the page object names its parent, its font and its contents |
| PdfDocument.DocumentReadsBack | scripts/local_pilot_console_e2e.py:34-69 | under 10^10 bytes, a reader that knows no offset, length or object number gets from the end of the file over trailer, catalog, page tree and page to the text, ends of line normalized |

## Left out

- ThrottleRuns.RefinesHistory: assumes stamps that do not go back, without which it is false (`StaleCheckMeetsLaterLock`).
- ThrottleRuns.TrackRefinesLog: assumes stamps that do not go back, since it compares with the log of RefinesHistory.
- ThrottleRuns.LogIsBounded: assumes stamps that do not go back; StaleGuessesAreBounded is the form for stale ones.
- ThrottleRuns.GuessesAreBounded: assumes stamps that do not go back; StaleGuessesAreBounded is the form for stale ones.
- ThrottleRuns.KeysAreIndependent: keys are the strings hashed by `_key`; that `ip:email` distinguishes all pairs is not claimed.
- SemanticCache.Cache.Lookup: reports the exact similarity, without `round(sim, 6)`, and not the swallowed database errors.
- SemanticCache.Cache.IncrementHitCount: does not model the swallowed database errors.
- SemanticCache.Cache.Store: does not model `metadata_json` and the swallowed database errors, and takes id and creation stamp as parameters.
- MergeResults.MergeInStages: is stated for k >= 0; which of two chunks with the same best score comes first depends on the order in which they are met.
- Lexical.TokenOverlapScore: takes the `\w+` tokenizer as a parameter.
- Backup.Store.RestoreWorkspace: does not model `onupdate` stamps, column defaults other than the id, unique constraints other than the primary key, or foreign keys to tables outside the backup.
- BackupRoundTrip.RoundTrip: assumes the target holds no row of the workspace, none of the dumped ids, and no source or turn without its parent, as the foreign keys demand.
- BackupRoundTrip.UpsertMerges: is stated for an id that the payload block does not repeat; of repeated ones that match a stored row the later values win (`Backup.Store.UpsertMany`).
- Backup.Store.UpsertMany: an id stored twice in one block is an error at the flush, as the session does not flush on `get`; the error carries no partial state because the caller rolls back.
- Retention.Store.RunAll: does not model cascades and `SET NULL` of rows that refer to a deleted version.
- Invitations.RunEvolves: covers sequential runs; removing a member or changing a role (`services/auth.py`) is not an operation of the run, and neither are LDAP and OIDC users.
- Invitations.UninvitedJoins: assumes that every membership names an existing user, as the foreign key demands.
- RateLimiter.SearchRefusedIff: assumes stamps of the key that do not go back; RateIsBounded is the form for stale ones.
- RateLimiter.IngestRefusedIff: assumes stamps of the key that do not go back, like SearchRefusedIff.
- Invitations.AdmitsAtMostOne: bounds the time of verification; acceptance reads the clock again and may be stamped after the expiry.
- Invitations.AuthStore.RegisterUser: does not model the password hash, the display name and the session it returns; the result has its user and workspace.
- ApiKey.ParseInvertsPrint: covers the shape of tokens, not `verify_api_key` with its hash comparison.
- DriftDiff.ComputeDriftDiff: a key that is missing is modelled, one that is explicitly `null` is not; the check for raw secrets and the Markdown report are left out.
- Coverage.BuildCoverageSummary: does not model the optional audit fields and the redaction floor.
- PdfWriter.WriteMinimalTextPdf: returns the bytes instead of writing them to a path.
- The HTTP wiring, logging and metrics: plumbing without a decision of its own.
- Password, TOTP and session handling, LDAP and OIDC: foreign calls.
- Query rewriting by a language model: no decidable behaviour.
- Access control lists, rerankers, chunking overrides and benchmark scripts: case splits that would add only easy members.
- Floating-point rounding and the order of float sums.
