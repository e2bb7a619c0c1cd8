# Verified model of the Dota match ingest

The repository follows professional Dota matches from the moment a live feed lists them to the
parsed replay. One row of the Postgres table `matches` moves through eleven statuses, driven by two
live feeds, a poller of Valve's match history, ingestion by sequence number, ingestion through the
game coordinator (GC), and a replay parser. Around it run a walk over sequence numbers, a
cold-storage archiver, a job queue with a retry budget, a rate limiter, resource health, and
parsers for IMAP lines, protobuf fields and CSV.

This project models those parts in Dafny and proves what they keep in every run, for every input.
Columns are fields of a record, tables are fields of a class, a statement or transaction is one
atomic step, and loops stay loops proved against functions whose properties are lemmas.

| file | models |
|---|---|
| `match_phase.dfy`, `match_row.dfy`, `row_effects.dfy`, `match_store.dfy` | statuses, one row, what each statement does to a row, the statements that write the table |
| `live_polls.dfy`, `match_runs.dfy`, `match_steps.dfy`, `clock_runs.dfy`, `false_finish.dfy` | the live polls, whole runs of all writers, what one step does, the game clock over runs, a finish that is taken back |
| `history_waiter.dfy`, `finished_history.dfy` | how long a finished match waits for history; the paginated crawl |
| `ingest_order.dfy`, `row_laws.dfy` | records that arrive in any order; laws between the writers of a row |
| `seq_walk.dfy`, `seq_window.dfy` | the sequence-number cursor with concurrent workers; sorting one response |
| `archive_dest.dfy`, `replay_keys.dfy`, `archiver.dfy`, `archive_safety.dfy`, `archive_jobs.dfy` | keys and buckets, the archiving protocol, when it is safe, one archiver |
| `jobs.dfy`, `job_queue.dfy` | the retry budget and the job table |
| `js_number.dfy`, `varints.dfy`, `protobuf.dfy`, `protobuf_joins.dfy`, `protobuf_cuts.dfy`, `protobuf_values.dfy` | JavaScript's conversion of a bigint, the protobuf reader and writer |
| `line_streams.dfy`, `imap.dfy`, `imap_layout.dfy`, `imap_print.dfy`, `imap_quote.dfy` | IMAP logical lines and quoted strings |
| `resource_health.dfy`, `rate_limit.dfy` | the failure window; the spacing of API calls |
| `player_binding.dfy`, `objectives.dfy` | the parser's player slots; the two writers of objectives |
| `g2g_csv.dfy` | one CSV line |
| `wrappers.dfy`, `decimal.dfy` | options, results, numerals |

## Assumptions

- One clock, and serial transactions. `recordHistoryPollMisses` selects and then updates; that is one step here.
- Poll transactions commit: `poll-live.ts` updates its digest map inside the transaction.
- `liveMissingThreshold >= 1` and attempt windows of at least 1, as `settings.ts` demands
  (packages/shared/src/components/settings.ts:112-118); settings do not change during a run, but
  every poll may bring its own threshold.
- Valve's history of a league is a fixed, strictly descending list; a page is a contiguous slice with at
  least two entries unless it reaches the end, and nothing remains exactly when it does.
- A bucket name stands for one object store, and single object writes, copies and deletes are atomic.
- `real` stands for the floating-point clock column; integers are unbounded except where the source's
  width shows (32-bit tags and zigzag values, 10-byte varints, 53-bit numbers, `uint32` accounts).
- Other writers of `matches` (barracks, captains, `series_id`, `server_steam_id`,
  `last_realtime_at`) touch only columns that decide no phase and are not kept here
  (packages/parser/internal/store/store.go:186-196).

## What the model brings out

- `poll-realtime-stats.ts:67-91` is a third source of sightings: it touches matches as the top-live feed does.
- Where `docs/specs/job-graph.md:116-160` draws fewer transitions between statuses than the statements
  make, the statements are followed.
- A record saved by sequence number moves a live match to awaiting details; the next listing pulls it back
  (packages/shared/src/store/matches.ts:1557-1564, 75-139).
- A league's crawl records a miss for every waiting row of that league, whether or not that row's own next
  poll is due (packages/shared/src/store/matches.ts:802-828).
- A row that has a sequence number when it is finished is armed for history polls but never polled
  (`HistoryWaiter.ArmedWithSeqNumIsNeverPolled`, reachable by `HistoryWaiter.ListedWhileLive`).
- Grants of one API key are a full interval apart exactly when the earlier transaction did not wait for the
  row lock (`RateLimit.FullIntervalIffNoWait`); `RateLimit.WaitLosesTheInterval` is a run that grants twice at
  one moment.
- A download writes the parsed name of `S3_BUCKET` into its row, and readers parse that name once more
  (packages/shared/src/components/s3.ts:32-65). With an accepted destination, and rows repointed in time (next item),
  no row ever dangles exactly when the hot bucket's name is read back as itself and either the archive's is too or
  nothing moves (`ArchiveSafety.ArchivingIsSafe`). `ArchiveSafety.HotSpaceLosesReplays` and `ArchiveSafety.SpaceLosesReplays` give
  accepted names on either side for which a run loses a replay; `ArchiveDest.BlankPrefixMovesNothing` is an accepted
  prefix that archives in place.
- A replay downloaded or found again while an archiver works on it stays safe exactly when its row is pointed at an
  object that is there and that no archiver is about to delete (`Archiver.RelocationKeepsIffTimely`); nothing in
  `download-replay.ts` or `adopt-replay-object.ts` waits for that, and `ArchiveSafety.RelocationDuringArchive` is a
  run that leaves a row without its replay.
- Decoding protobuf fields distributes over concatenation exactly when the first part does not end inside a
  field (`ProtobufJoins.JoinsIffNotCut`).
- A repeated field is read as all its occurrences say exactly when it occurs once or none of them holds packed
  numbers (`ProtobufValues.RepeatedIsSpec`); packed numbers in several parts are dropped.
- Numbers are read through JavaScript's `Number`, so they come back exactly when 53 bits hold them
  (`ProtobufValues.PackedRoundTrip`, `ProtobufValues.LowBitsDecideIffRepresentable`); 2^53 + 1 is the first that does
  not (`ProtobufValues.FirstLostReading`).
- A quoted user name or password is legal exactly when it consists of seven-bit characters other than NUL, CR and LF
  (`ImapQuote.QuotedStringIsReadBack`); a line break in it is sent as it is (`ImapQuote.LineBreakIsRefused`).
- `parseCsvLine` loses a last field that is empty and unquoted, and only that (`G2gCsv.CsvRoundTrip`).

## Model

| member | source | states |
|---|---|---|
| `MatchStore.Matches.TouchMatchLive` | packages/shared/src/store/matches.ts:541-635 | the match is there afterwards, live or in a phase sightings leave alone, its feed remembered once and that feed's counter at zero; all that a finish left is gone; every other row stays |
| `MatchStore.Matches.NoteLiveFeedSeen` | packages/shared/src/store/matches.ts:637-656 | an existing row is resumed in the same sense with its feeds as they were; no row is inserted |
| `MatchStore.Matches.NoteLiveFeedMisses` | packages/shared/src/store/matches.ts:658-676 | the same rows; a live row of the feed that the poll did not name gains one miss in that feed's column, and nothing else moves anywhere |
| `MatchStore.Matches.NoteLiveClock` | packages/shared/src/store/matches.ts:678-691 | the clock column becomes the larger of itself and a positive reading, and no other column moves |
| `MatchRow.FinishGuard` | packages/shared/src/store/match-phase.ts:51-63 | the WHERE clause of the finish says the same as `liveFeedsDone` on a live row |
| `RowEffects.SightingResumes` | packages/shared/src/store/match-phase.ts:47-49 | a sighting leaves a match live exactly when `canResumeLive` says so of its status, and in its status otherwise |
| `MatchStore.Matches.FinishMissingLiveMatches` | packages/shared/src/store/matches.ts:693-752 | returns exactly the rows on which every known live feed has given up; a played one awaits history, armed, with its replay time within half a second of the delay in whole seconds, an unplayed one is never started; the others stay, and afterwards no row is left to finish |
| `MatchStore.Matches.MarkHistoryAvailable` | packages/shared/src/store/matches.ts:830-874 | a row that is not live keeps the number and waits no longer; its status moves exactly when it stood before details; a live row is left alone |
| `MatchStore.Matches.RecordHistoryPollMisses` | packages/shared/src/store/matches.ts:876-934 | the select-then-update loop spends one try of each pending waiter of the list, fast tries first, and touches nothing else |
| `MatchStore.Matches.UpdateWaiter` | packages/shared/src/store/matches.ts:893-933 | one pass of that loop spends one try, fast ones first, and is due after that try's delay; with none left it disarms, and fails the match only if it awaits history |
| `MatchStore.Matches.UpsertHistoryMatches` | packages/shared/src/store/matches.ts:1420-1476 | the loop lists a page entry by entry; the last entry of a match gives its row the number and the history feed and moves it to awaiting details unless it is live, failed or past that; a new match awaits details; nothing else moves |
| `RowEffects.PageIsNoted` | packages/shared/src/store/matches.ts:1448-1475 | which phases a listing moves, column by column, for known and unknown matches |
| `MatchStore.Matches.SaveMatchFacts` | packages/shared/src/store/matches.ts:1478-1570 | facts fill only empty columns, the two stamps are set once and kept, only a match that was never live gets its replay time, the phase follows from what has been fetched by now, and nothing else moves |
| `MatchStore.Matches.InsertUndiscoveredMatch` | packages/shared/src/store/matches.ts:1572-1616 | a row that is there does not change; a new one is not live and carries the stamp of its one record |
| `MatchStore.Matches.PersistMatchRecord` | packages/shared/src/store/persist-match.ts:23-108 | insert when allowed, then save; a missing row that must exist stays missing |
| `MatchStore.Matches.MarkSeqFetched` | packages/shared/src/store/matches.ts:1646-1659 | sets the stamp of the named rows that have none and changes nothing else |
| `MatchStore.Matches.MarkMatchReplayStatus` | packages/shared/src/store/replays.ts:154-183 | only the phase and the error columns move; a parsed match keeps its phase, and errors are kept when none is given |
| `MatchStore.Matches.PublishStatus` | packages/parser/internal/store/store.go:240-248 | the match is parsed afterwards exactly when it waited for the parser or was parsed before; otherwise nothing changes |
| `LivePolls.LeaguePoller.RunPollLiveGames` | packages/shared/src/jobs/poll-live.ts:51-235 | the whole transaction without reference to its steps' functions: a listed match has a row, is resumed, and its clock is the larger of what it was and a positive listed duration; an unlisted one misses once and is finished exactly if all its feeds gave up; the finished ids; the digests kept |
| `LivePolls.LeaguePoller.RecordSightings` | packages/shared/src/jobs/poll-live.ts:82-208 | the loop over listed games, in any order, touches changed games, resumes unchanged ones that have a row, and notes the clock of both |
| `LivePolls.LeaguePoller.CountMisses` | packages/shared/src/jobs/poll-live.ts:210-219 | misses are counted before the finish, and an empty response does neither |
| `LivePolls.ByIdIsLastEntry` | packages/shared/src/jobs/poll-live.ts:60-79 | of several entries of one match the last one counts |
| `LivePolls.RunPollTopLive` | packages/shared/src/jobs/poll-top-live.ts:26-86 | the second feed's poll from the response on: exactly its league matches are touched, repeated ones once, and the others miss and finish by the same rule as the league feed's |
| `LivePolls.TouchListed` | packages/shared/src/jobs/poll-top-live.ts:39-73 | the loop over the response sights exactly the league matches it lists, in any number of repetitions |
| `LivePolls.SeenComesFromGames` | packages/shared/src/jobs/poll-top-live.ts:17-24 | the ids followed are exactly the positive ids listed under a league |
| `LivePolls.TouchTwice` | packages/shared/src/jobs/poll-top-live.ts:43-57 | touching a match twice in one transaction is touching it once |
| `MatchRuns.ListedAllRows` | packages/shared/src/store/matches.ts:1420-1476 | listing a page on the table is listing it on each row |
| `MatchRuns.PageIsItsLastEntry` | packages/shared/src/store/matches.ts:1420-1476 | however often a page names a match, its row is as if only the last entry did |
| `MatchRuns.ListingAPageTwice` | packages/shared/src/store/matches.ts:1420-1476 | listing a page again changes no row |
| `MatchRuns.RowStepKeepsRow` | packages/shared/src/store/matches.ts:541-1670 | every writer of these columns keeps the row invariant: a live row has nothing left of a finish, an awaiting row is armed, an armed row's clock ran, ready details were fetched |
| `MatchRuns.RunKeepsWorld` | packages/shared/src/store/matches.ts:541-1670 | in every run of all writers and any number of workers: row invariants, counters never ahead of the polls that omitted the match, digests only of matches the feed listed |
| `MatchSteps.StepMoves` | packages/shared/src/store/matches.ts:541-1670 | each step of a run moves each row exactly as the contract of the writer it stands for says, and finishes the rows that writer finishes |
| `MatchSteps.StepRemembers` | packages/shared/src/jobs/poll-live.ts:73-208 | a worker remembers the digest it listed last until it finishes the match or restarts; exactly the polls that returned games count |
| `MatchRuns.OmittedCounts` | packages/shared/src/store/matches.ts:658-676 | what counters are measured by: the polls of the feed that omitted the match with none since that listed it |
| `MatchRuns.OnlySightingsResume` | packages/shared/src/store/matches.ts:75-139 | nothing but a live feed's listing makes a row live |
| `MatchRuns.ListedIsNeverFinished` | packages/shared/src/jobs/poll-live.ts:79-220 | the poll that lists a match does not finish it; it leaves it live or in a phase sightings do not touch |
| `MatchRuns.FinishedOnlyWhenOmitted` | packages/shared/src/store/matches.ts:658-752 | a finish is never premature: each feed that ever listed the match has omitted it in at least `threshold` non-empty responses since |
| `MatchRuns.OmittedLongEnoughIsFinished` | packages/shared/src/store/matches.ts:658-752 | and it always comes: after `threshold` further polls of each of its feeds with no sighting the match is no longer live |
| `ClockRuns.ClockIsLongestReading` | packages/shared/src/store/matches.ts:678-691 | in every reachable state the clock column is the longest positive reading of any league poll or realtime sighting, and 0 without one |
| `ClockRuns.FinishedAwaitsHistoryIffPlayed` | packages/shared/src/store/matches.ts:693-752 | a match that is finished awaits history, polled at once, exactly when some poll before had read a running clock; otherwise it never started |
| `MatchRuns.ParsedIsFinal` | packages/shared/src/store/replays.ts:154-183 | no writer ever moves a parsed match |
| `FalseFinish.SightingUndoesFinish` | packages/shared/src/store/matches.ts:75-139 | a sighting after a finish and any number of history misses leaves the row as the sighting alone would have, but for five named columns |
| `IngestOrder.SavedPhase` | packages/shared/src/store/matches.ts:1478-1570 | phase and fetched flags after any list of saves depend only on which kinds are in it |
| `IngestOrder.OrderIsIrrelevant` | packages/shared/src/store/matches.ts:1478-1570 | reordered or repeated saves end in the same phase with the same flags |
| `IngestOrder.SavingTwice` | packages/shared/src/store/matches.ts:1478-1570 | saving one record again changes no column |
| `MatchRuns.SequenceSaveKeepsDetails` | packages/shared/src/store/matches.ts:1557-1564 | in every reachable state, ready details stay ready when a record is saved by sequence number |
| `RowLaws.ClockIsRunningMaximum` | packages/shared/src/store/matches.ts:678-691 | after any clock readings the column is their maximum or what it was, and nothing else changed |
| `RowLaws.FoundIsNotMissed` | packages/shared/src/store/matches.ts:830-934 | after a hit no miss changes the row, and a second hit only its time |
| `RowLaws.PersistingTwice` | packages/shared/src/store/persist-match.ts:23-108 | one record persisted twice is persisted once, for known and unknown matches |
| `RowLaws.DiscoveredPhase` | packages/shared/src/store/persist-match.ts:23-108 | after any list of persists of an unknown match, whether it is there, its phase, flags and feeds follow from the kinds saved from the first call on that may insert |
| `RowLaws.FirstRecordsCommute` | packages/shared/src/store/matches.ts:1478-1616 | two lists of records of an unknown match whose counted records have the same kinds end in the same phase with the same flags and feeds, in any order |
| `RowLaws.SavedFactsFillOnly` | packages/shared/src/store/matches.ts:1488-1556 | saved facts fill empty columns and never replace the number, the finish time or a feed |
| `HistoryWaiter.MissSpendsBudget` | packages/shared/src/store/match-phase.ts:73-110 | one miss spends one try; past the last it disarms, and fails the match only if it still awaits history |
| `HistoryWaiter.FinishArmsWithFullBudget` | packages/shared/src/store/matches.ts:693-752 | a finish of a match that was played arms the waiter with counters at zero |
| `HistoryWaiter.WaiterBudget` | packages/shared/src/store/matches.ts:876-934 | from there on, whatever else is written, the waiter is armed exactly while at most fast+slow misses were recorded, with that many delays of each length scheduled |
| `HistoryWaiter.ArmedWithSeqNumIsNeverPolled` | packages/shared/src/store/matches.ts:798-800 | a row that had its sequence number when it was armed stays armed and records no miss |
| `HistoryWaiter.ListedWhileLive` | packages/shared/src/store/matches.ts:1420-1476 | such a row is reached by three events |
| `FinishedHistory.HistoryWaiterPagePlan` | packages/shared/src/steam/history-page.ts:2-48 | the loop over undecided ids computes the plan whose exactness is proved next |
| `FinishedHistory.PlanIsExact` | packages/shared/src/steam/history-page.ts:2-48 | one page finds exactly the waiting ids on it, misses only ids that are nowhere in the history, and leaves undecided only ids older than the page |
| `FinishedHistory.StallsOnlyOnSingleEntryPages` | packages/shared/src/jobs/poll-finished-history.ts:136-182 | the crawl would ask for the same page again exactly when a page has one entry |
| `FinishedHistory.CrawlWaitingHistory` | packages/shared/src/jobs/poll-finished-history.ts:136-182 | the early-stopping crawl ends and answers as a full scan: found and missed split the waiting ids |
| `FinishedHistory.RecordCrawl` | packages/shared/src/jobs/poll-finished-history.ts:54-119 | hits, then misses, each on its own row |
| `FinishedHistory.PollLeague` | packages/shared/src/jobs/poll-finished-history.ts:24-134 | end to end: a listed waiting row is hit with its own number, an unlisted one is missed, no other row moves |
| `SeqWalk.RewindSeqWalkCursor` | packages/shared/src/jobs/seq-walk-cursor.ts:27-32 | a rewind goes back two thousand numbers, or to the first |
| `SeqWalk.StepKeepsCover` | packages/shared/src/jobs/seq-walk-cursor.ts:102-138 | each single step of any worker keeps all numbers below the highest cursor so far covered, rewinds included |
| `SeqWalk.StepMovesCursor` | packages/shared/src/jobs/seq-walk-cursor.ts:102-138 | what moves the stored cursor in each step: a late claimer not at all, a response never back, and only an empty window takes it back |
| `SeqWalk.NoNumberIsSkipped` | packages/shared/src/jobs/walk-seq-history.ts:37-90 | in every interleaving with crashes, each number between the first and the current cursor is in a queued window or a stored response |
| `SeqWalk.HighestSeqNum` | packages/shared/src/jobs/seq-walk-cursor.ts:59-69 | the loop returns a member that is the maximum, or none for no matches |
| `SeqWalk.Walker.ClaimSeqWalkWindow` | packages/shared/src/jobs/walk-seq-history.ts:77-90 | a claim is those steps of the machine; undisturbed it queues the cursor's window and moves on by one batch |
| `SeqWalk.Walker.EnqueueSeqWalkWindows` | packages/shared/src/jobs/walk-seq-history.ts:37-63 | nothing is claimed until the cooldown is over, and the delay is what is left of it; then the loop ends, covers every number it passes, never exceeds the room, and fills it when no window is queued twice |
| `SeqWalk.Walker.RunFetchSeqWindow` | packages/shared/src/jobs/fetch-seq-window.ts:29-105 | an empty response puts the cursor two thousand before the window's own start, at least at 1, and starts the cooldown of a minute; any other saves its league matches, commits exactly the range up to its highest number, moves the cursor up to that number and never back, raises the global counter, asks for details of exactly the saved matches without them, and then claims further windows unless cooling down |
| `SeqWalk.SaveResponse` | packages/shared/src/jobs/fetch-seq-window.ts:59-67 | the loop saves each record on its own row: one the response has once fills what is empty there or discovers the match; stamping it again changes nothing |
| `SeqWalk.ResponseIsSaved` | packages/shared/src/jobs/fetch-seq-window.ts:59-67 | a match the response names is stored and stamped, earlier stamps and later phases are kept, and other rows stay |
| `SeqWindow.ApplySeqWindow` | packages/shared/src/steam/seq-walk.ts:19-84 | every target above all returned numbers is kept in order; a returned one is saved and any other is given up under a returned number that is at least its own, in order; a first target above all of them is given up last; without an answer the first one alone is |
| `SeqWindow.EveryTargetOnce` | packages/shared/src/steam/seq-walk.ts:45-84 | each target gets exactly one action or is kept, and the kept list is strictly shorter |
| `SeqWindow.SavedIffReturned` | packages/shared/src/steam/seq-walk.ts:53-67 | a target is saved exactly when the response has it; the kept ones are not in it and keep their order |
| `SeqWindow.WalkEnds` | packages/shared/src/steam/seq-walk.ts:69-83 | whatever is answered, a walk ends within one request per target with one action for each |
| `ArchiveDest.GcsLocator` | packages/shared/src/utils/object-location.ts:9-14 | the bucket of a GCS locator is the name after the scheme, whatever path follows |
| `ArchiveDest.S3Locator` | packages/shared/src/utils/object-location.ts:7-16 | blanks around a name and slashes after it are dropped, as long as they do not spell the scheme |
| `ArchiveDest.SettledNames` | packages/shared/src/utils/object-location.ts:7-16 | which bucket names are read back as themselves |
| `ArchiveDest.PlainNamesSettle` | packages/shared/src/utils/object-location.ts:7-16 | every name without spaces and slashes is |
| `ArchiveDest.UnsettledBucket` | packages/shared/src/utils/object-location.ts:15-15 | a name followed by a space and a slash is read as a bucket that is read back as another |
| `ArchiveDest.JoinIsIdempotent` | packages/shared/src/components/archive-dest.ts:28-34 | joining a joined key changes nothing |
| `ArchiveDest.NormalizedPrefixIs` | packages/shared/src/components/archive-dest.ts:24-26 | a prefix loses blanks and then slashes, on both sides, and nothing else |
| `ArchiveDest.StripUndoesJoin` | packages/shared/src/components/archive-dest.ts:36-43 | stripping forgets whether the prefix was there |
| `ArchiveDest.SamePlaceIffSameRest` | packages/shared/src/components/archive-dest.ts:28-43 | two keys share an archive place exactly when they strip to the same rest |
| `ArchiveDest.Decided` | packages/shared/src/components/archive-dest.ts:76-94 | an accepted destination has a bucket, is of the hot store's kind, and differs from it in bucket or prefix; a refused one fails the test that is named |
| `ArchiveDest.AcceptedDestinationMoves` | packages/shared/src/components/archive-dest.ts:57-95 | an accepted destination moves a hot object exactly when its prefix still names something when normalized again |
| `ArchiveDest.BlankPrefixMovesNothing` | packages/shared/src/components/archive-dest.ts:24-26 | a prefix of blanks between slashes is accepted in the hot bucket and moves nothing |
| `ReplayKeys.KeyIs` | packages/shared/src/components/s3.ts:107-113 | a key names the match twice and the salt once, in decimal |
| `ReplayKeys.ReplaysNeverCollide` | packages/shared/src/components/s3.ts:107-113 | under any prefix two replays never get the same archive key |
| `Archiver.GuardSeparates` | packages/shared/src/jobs/archive-parsed-replays.ts:101-102 | the guard before the copy and the delete holds exactly when source and destination are one object |
| `Archiver.StepKeeps` | packages/shared/src/jobs/archive-parsed-replays.ts:88-153 | every effect of any archiver, failed or not, every download, and every timely change of a row's place keeps each row on its own replay's object and each archiver's reading good |
| `Archiver.NeverDangles` | packages/shared/src/jobs/archive-parsed-replays.ts:88-153 | with buckets read back as themselves, any number of archivers crashing anywhere, and replays downloaded again or found again in time, each row names an existing object that is its own replay |
| `Archiver.DeletesHitNoRow` | packages/shared/src/jobs/archive-parsed-replays.ts:124-140 | no delete that can happen hits an object a row names |
| `Archiver.RelocationKeepsIffTimely` | packages/shared/src/jobs/adopt-replay-object.ts:41-65 | pointing a row at a place keeps all that exactly when its object is there and no archiver is about to delete it |
| `Archiver.LateDeleteDangles` | packages/worker/src/jobs/download-replay.ts:169-187 | otherwise the pending delete leaves the row without its object |
| `ArchiveSafety.SafeIffSettled` | packages/shared/src/components/s3.ts:32-75 | for keys obeying the laws, no run dangles exactly when the hot bucket is read back as itself, and the destination's is too or no key moves |
| `ArchiveSafety.CodeKeepsKeyLaws` | packages/shared/src/components/archive-dest.ts:28-34 | the code's own keys obey those laws |
| `ArchiveSafety.PrefixThatMovesNothing` | packages/shared/src/components/archive-dest.ts:28-34 | no replay's key changes exactly for the empty prefix and the folder of all keys |
| `ArchiveSafety.ArchivingIsSafe` | packages/shared/src/components/archive-dest.ts:57-95 | the exact condition on the hot bucket and an accepted destination under which no row ever dangles |
| `ArchiveSafety.SpaceLosesReplays` | packages/shared/src/components/archive-dest.ts:57-95 | an archive bucket with a space before its closing slash is accepted beside any other plain hot bucket, and then some run dangles |
| `ArchiveSafety.HotSpaceLosesReplays` | packages/worker/src/jobs/download-replay.ts:169-187 | the same name for the hot bucket is accepted beside any plain archive bucket, and whatever is accepted beside it, the first download names no object |
| `ArchiveSafety.RelocationDuringArchive` | packages/shared/src/jobs/archive-parsed-replays.ts:122-140 | a run from the empty world in which a row pointed back at the hot object loses its replay to the archiver's delete |
| `ArchiveSafety.EarlyReturnGuard` | packages/shared/src/jobs/archive-parsed-replays.ts:101-102 | the code's guard, by `sameObjectBucket` and an unchanged key, is the protocol's, and with a settled bucket means one and the same object |
| `ArchiveJobs.ReplayArchive.BringOver` | packages/shared/src/jobs/archive-parsed-replays.ts:105-120 | the checks and the copy: when they succeed, and that they only add the destination |
| `ArchiveJobs.ReplayArchive.Repoint` | packages/shared/src/store/replays.ts:137-152 | only an unarchived row is repointed, and the source goes only after that |
| `ArchiveJobs.ReplayArchive.ArchiveOne` | packages/shared/src/jobs/archive-parsed-replays.ts:88-153 | one undisturbed archiver, as a run of the protocol: the whole state after it for every way its effects may fail |
| `ArchiveJobs.ReplayArchive.ListParsedUnarchived` | packages/shared/src/store/replays.ts:104-135 | different rows that await archiving, all of them when they are fewer than the limit |
| `ArchiveJobs.ReplayArchive.ArchiveBatch` | packages/shared/src/jobs/archive-parsed-replays.ts:65-81 | the loop goes on after an error: each row of the batch is archived or carries an error |
| `ArchiveJobs.ReplayArchive.RunArchiveParsedReplays` | packages/shared/src/jobs/archive-parsed-replays.ts:48-86 | a refused destination does nothing; otherwise at most a batch of unarchived parsed rows is taken, exactly the archived ones are counted, the others of the batch carry an error, and no other row moves; without `more`, no unarchived row was left out |
| `Jobs.DelaysNeverDecrease` | packages/shared/src/components/jobs.ts:82-89 | retry delays are positive, never decrease, and stop at an hour |
| `Jobs.Schedule` | packages/shared/src/components/jobs.ts:82-89 | how long all waits of a failing job take together, for any number of tries |
| `Jobs.ScheduledReadBack` | packages/shared/src/components/jobs.ts:91-111 | a wrapper's payload is read back as written; only an empty key is lost |
| `Jobs.HopThroughTheWrapper` | packages/shared/src/components/jobs.ts:168-208 | a retry waits its delay outside every queue and comes back as the next try |
| `Jobs.UnstampedJobIsRetried` | packages/shared/src/components/jobs.ts:185-224 | a job queued by other means is retried on its own queue, up to 25 tries |
| `Jobs.BareWrapper` | packages/shared/src/components/jobs.ts:91-111 | a wrapper that names only a job and a queue is read with the defaults |
| `Jobs.ExecutionsAreTries` | packages/shared/src/components/jobs.ts:185-224 | from any try on, as many executions follow as the payload's budget leaves, numbered one by one |
| `Jobs.ExecutedExactlyBudgetTimes` | packages/worker/src/tasks.ts:90-115 | a job with any payload or none that always fails is executed exactly max(1, maxAttempts) times; `_tries`, queue, key, priority, budget and user fields on each execution |
| `Jobs.LaterIsTheSameJob` | packages/shared/src/components/jobs.ts:132-183 | a job meant for later is, when released, the job it would have been at once |
| `JobQueue.JobTable.EnqueueJob` | packages/shared/src/components/jobs.ts:132-166 | exactly one job is added and no other changes: it waits outside every queue with all that was asked for, stands on its named queue with its budget stamped, or is left to the job library |
| `Jobs.EnqueuedIsAccepted` | packages/shared/src/components/jobs.ts:132-166 | whatever is asked, the added job is one of those three, with the queue, key, budget and user fields that were given |
| `JobQueue.JobTable.RunScheduledJob` | packages/shared/src/components/jobs.ts:168-183 | a valid wrapper adds its job; an invalid one adds nothing |
| `JobQueue.JobTable.ScheduleQueuedJobRetry` | packages/shared/src/components/jobs.ts:185-208 | a retry is added exactly while the budget lasts |
| `JobQueue.JobTable.Failed` | packages/worker/src/tasks.ts:90-117 | only jobs without a queue pass their error on |
| `JobQueue.JobTable.WorkOff` | packages/worker/src/tasks.ts:59-123 | working one always-failing job off ends, leaves the table empty, and executes the tries counted above |
| `Varints.ReadVarint` | packages/shared/src/gc/protobuf.ts:4-17 | the loop over 7-bit groups reads what the specification function says, with its two errors |
| `Varints.WriteVarint` | packages/shared/src/gc/protobuf.ts:19-28 | the loop writes the varint the round trip is about |
| `Varints.VarintRoundTrip` | packages/shared/src/gc/protobuf.ts:4-28 | what is written is read back, whatever follows, exactly for values of up to 70 bits |
| `Varints.WideVarintIsTooLong` | packages/shared/src/gc/protobuf.ts:4-17 | a written varint of more than 70 bits is refused |
| `JsNumber.NumberIsNearest` | packages/shared/src/gc/protobuf.ts:184-184 | the conversion changes a number exactly when 53 bits do not hold it, and then by half a unit at most; halfway between two numbers it takes the even one |
| `Protobuf.DecodeFields` | packages/shared/src/gc/protobuf.ts:56-114 | the loop ends on every buffer and gives the fields or the first error, field numbers and lengths taken through Number |
| `Protobuf.ReadPayload` | packages/shared/src/gc/protobuf.ts:64-111 | the four wire types, truncation and unsupported types, one payload at a time |
| `Protobuf.FieldsReadBack` | packages/shared/src/gc/protobuf.ts:56-114 | decoding undoes a reference encoder on every list of fields that fit the wire, whatever follows |
| `ProtobufJoins.WholeFieldsJoin` | packages/shared/src/gc/protobuf.ts:56-114 | a buffer that ends between fields decodes the same with others behind it |
| `ProtobufJoins.JoinsIffNotCut` | packages/shared/src/gc/protobuf.ts:70-76 | decoding distributes over concatenation exactly when the first part does not end inside a field |
| `ProtobufCuts.CutField` | packages/shared/src/gc/protobuf.ts:56-114 | what every proper prefix of an encoded field decodes to: nothing, the error that names what was cut, or the field with what is there of its content |
| `ProtobufValues.VarintFieldRoundTrip` | packages/shared/src/gc/protobuf.ts:116-123 | a written field is decoded as written exactly for numbers below 2^28 and values below 2^70 |
| `ProtobufValues.MatchDetailsRequestIsFieldOne` | packages/shared/src/gc/protobuf.ts:130-134 | the hand-written request is the varint field it stands for |
| `ProtobufValues.ClientHelloSaysVersionAndEngine` | packages/shared/src/gc/protobuf.ts:126-128 | the greeting decodes to its two fields |
| `ProtobufValues.PackedUint32` | packages/shared/src/gc/protobuf.ts:178-188 | the loop over packed numbers, each converted to a Number, or the first varint's error |
| `ProtobufValues.PackedReadBack` | packages/shared/src/gc/protobuf.ts:178-188 | packed numbers come back in order, each as the Number nearest to it; one of more than 70 bits is refused |
| `ProtobufValues.PackedRoundTrip` | packages/shared/src/gc/protobuf.ts:178-188 | they come back unchanged exactly when each has at most 70 bits and is representable |
| `ProtobufValues.PackedOrNot` | packages/shared/src/gc/protobuf.ts:190-200 | either encoding of a repeated field gives the same numbers, and gives them unchanged exactly when they are representable |
| `ProtobufValues.RepeatedIsSpec` | packages/shared/src/gc/protobuf.ts:190-200 | a repeated field is read as all its occurrences say exactly when it occurs once or no occurrence holds packed numbers |
| `ProtobufValues.AllOfJoin` | packages/shared/src/gc/protobuf.ts:190-191 | the occurrences of a field in two parts are those of the one and then of the other |
| `ProtobufValues.OneCounts` | packages/shared/src/gc/protobuf.ts:190-191 | a field counts exactly when its number is asked for |
| `ProtobufValues.SeveralPackedPartsAreDropped` | packages/shared/src/gc/protobuf.ts:193-199 | two or more packed parts and nothing else give no number at all |
| `ProtobufValues.ZigZagRoundTrip` | packages/shared/src/gc/protobuf.ts:210-218 | reading undoes zigzag exactly on signed 32-bit values, and every varint is read as such a value |
| `ProtobufValues.LowBitsDecideIffRepresentable` | packages/shared/src/gc/protobuf.ts:210-218 | a varint is read by its low 32 bits exactly when it is representable as a Number |
| `ProtobufValues.FirstLostReading` | packages/shared/src/gc/protobuf.ts:184-217 | 2^53 + 1 is the first that is not: it reads as 0 where its low bits say -1, and is unpacked as 2^53 |
| `LineStreams.ChunksDoNotMatter` | packages/shared/src/steam/imap.ts:128-149 | for any reader that never changes its mind, cutting a stream into chunks changes neither its lines nor its tail |
| `Imap.TryParseLogicalLine` | packages/shared/src/steam/imap.ts:94-115 | the loop over literals ends and finds the line the lemmas are about |
| `Imap.AppendKeepsLine` | packages/shared/src/steam/imap.ts:94-115 | a line once read is not changed by what arrives later |
| `Imap.NothingIsLost` | packages/shared/src/steam/imap.ts:109-112 | line, CRLF and rest are the whole buffer |
| `Imap.ProperPrefixAsksForMore` | packages/shared/src/steam/imap.ts:94-115 | every proper prefix of a line asks for more |
| `Imap.ImapChunksDoNotMatter` | packages/shared/src/steam/imap.ts:135-140 | the socket's chunks do not matter |
| `Imap.ImapClient.OnData` | packages/shared/src/steam/imap.ts:136-140 | a chunk is appended, and the buffer still holds exactly what was received and not delivered |
| `Imap.ImapClient.TakeLine` | packages/shared/src/steam/imap.ts:289-301 | lines are delivered in order, each once, and none is held back |
| `ImapPrint.HeaderAnnounces` | packages/shared/src/steam/imap.ts:103-105 | a decimal header announces its octets, whatever text precedes it |
| `Imap.AnnouncesIffBraced` | packages/shared/src/steam/imap.ts:103-105 | a segment announces a literal exactly when it ends in a decimal number between braces |
| `ImapPrint.PrintedLineIsReadBack` | packages/shared/src/steam/imap.ts:94-115 | a line of texts and literals is read back whole, whatever the octets, exactly when its last text does not announce another literal |
| `ImapQuote.QuotedStringIsReadBack` | packages/shared/src/steam/imap.ts:4-6 | a quoted string is read by RFC 3501's rule (section 9) as the value it quotes exactly when that value is all TEXT-CHARs, whatever follows; any other is no quoted string |
| `ImapQuote.LineBreakIsRefused` | packages/shared/src/steam/imap.ts:190-195 | a value with a line break is no quoted string, and the line break stands unescaped in the command |
| `ResourceHealth.TruncatedDecidesAsFull` | packages/shared/src/components/resource-health.ts:175-202 | the truncated log decides every next attempt as the whole history would |
| `ResourceHealth.DeleteKeepsLast` | packages/shared/src/components/resource-health.ts:175-190 | the DELETE leaves exactly the newest attempts of the window |
| `ResourceHealth.Resources.InsertAttempt` | packages/shared/src/components/resource-health.ts:165-190 | after every attempt the table holds, for every resource, the last of its history |
| `ResourceHealth.FailsCounts` | packages/shared/src/components/resource-health.ts:200-202 | what is counted is the number of failed attempts |
| `ResourceHealth.Resources.RecordResourceAttempt` | packages/shared/src/components/resource-health.ts:156-219 | a failing attempt disables its resource exactly when its history has a whole window of attempts and the number of failures among the last of them reaches the threshold; no other resource changes |
| `ResourceHealth.FullThreshold` | packages/shared/src/components/resource-health.ts:200-202 | at a threshold of one, only an unbroken window of failures disables |
| `RateLimit.GrantedWhen` | packages/shared/src/components/rate-limit.ts:36-59 | when exactly a call is let through |
| `RateLimit.WaitIsEnough` | packages/shared/src/components/rate-limit.ts:36-59 | how long a call waits, that it is granted then, and that it could not have been granted sooner but within 50 ms of the live poll |
| `RateLimit.GrantsAreSpaced` | packages/shared/src/components/rate-limit.ts:22-70 | in every interleaving, two grants of a key are an interval apart but for the earlier one's wait for the lock |
| `RateLimit.FullIntervalIffNoWait` | packages/shared/src/components/rate-limit.ts:60-64 | and a full interval apart exactly when it did not wait |
| `RateLimit.WaitLosesTheInterval` | packages/shared/src/components/rate-limit.ts:29-66 | a run in which the first caller waited for the lock and two calls are granted at the same moment |
| `RateLimit.HistoricalCallsYield` | packages/shared/src/components/rate-limit.ts:42-58 | no historical grant falls in the interval before the live poll announced then |
| `RateLimit.LiveCallIsNotDelayed` | packages/shared/src/jobs/poll-live.ts:60-63 | so it delays no live call at the announced time |
| `RateLimit.ApiSlots.TrySlot` | packages/shared/src/components/rate-limit.ts:29-66 | one transaction grants and stamps, or tells how long to wait |
| `RateLimit.ApiSlots.AcquireSteamApiSlot` | packages/shared/src/components/rate-limit.ts:22-70 | however long each lock wait and sleep takes, the loop ends and grants nothing too early; with no time lost, a live call is granted at the first possible moment and a historical one soon after the poll |
| `PlayerBinding.AccountRoundTrip` | packages/parser/internal/parse/identity.go:8-21 | both spellings of a steam id give the account, exactly for 32-bit accounts |
| `PlayerBinding.ReplaySlot` | packages/parser/internal/parse/identity.go:50-62 | when a team slot is a slot, which of its side's five it is, and Valve's number for it |
| `PlayerBinding.TheTenAreTen` | packages/parser/internal/parse/parser.go:352-386 | the chosen ten are five of each team with ten different indices |
| `PlayerBinding.TheTenAreFirst` | packages/parser/internal/parse/parser.go:352-386 | there are ten exactly when nobody is unassigned and both sides have five, and they are the first five seats of each side |
| `PlayerBinding.BindingIsBijection` | packages/parser/internal/parse/parser.go:387-417 | on both paths the ten occupy slots 0 to 9 once each, radiant on 0 to 4, dire on 5 to 9 |
| `PlayerBinding.OwnSlotsAreKept` | packages/parser/internal/parse/parser.go:392-411 | the replay's own slots are kept exactly when they are all there and different, or are the fallback's |
| `PlayerBinding.Session.CheckSlots` | packages/parser/internal/parse/parser.go:393-402 | the loop over `seen` decides that |
| `PlayerBinding.Session.FindTen` | packages/parser/internal/parse/parser.go:352-386 | the loops choose the ten, or none while a seat is unassigned or a team is short |
| `PlayerBinding.Session.TryBindPlayers` | packages/parser/internal/parse/parser.go:344-440 | bound as soon as all are seated and both sides have five, else nothing changes; with usable team slots each slot has the seat of its side and team slot, otherwise the first five seats of each side in order; every slot's player is found by its index |
| `PlayerBinding.NameFindsLast` | packages/parser/internal/parse/parser.go:428-436 | a name finds the last player bound by it |
| `PlayerBinding.Session.SlotForPlayerID` | packages/parser/internal/parse/parser.go:504-517 | a bound index gives its own slot; another one below ten gives that slot, any other none |
| `Objectives.MatchObjectives.ReplaceObjectives` | packages/shared/src/store/matches.ts:1672-1746 | exactly the entries that are new to the table and to the list are appended, in order, under consecutive numbers; a first blood only if there is none |
| `Objectives.MatchObjectives.PublishObjectives` | packages/parser/internal/store/store.go:253-324 | the parser's loop does the same with each objective's time, kind, team, slot, key and value, an empty key as null |
| `Objectives.RunsKeep` | packages/shared/src/store/matches.ts:1672-1746 | after any runs of both writers no objective is there twice, first blood at most once, and numbers differ |
| `Objectives.EveryEntryIsThere` | packages/shared/src/store/matches.ts:1685-1704 | every reported objective is in the table, or it is a first blood and one is there |
| `Objectives.RerunAddsNothing` | packages/parser/internal/store/store.go:253-283 | a list run again, by either writer and after any other runs, adds nothing |
| `Objectives.NullAndEmptyAreAlike` | packages/parser/internal/store/store.go:263-265 | null and empty keys are one |
| `G2gCsv.ParseCsvLine` | packages/cli/src/g2g-csv.ts:9-42 | the loops end on every line and give the fields of the specification function |
| `G2gCsv.ParseQuoted` | packages/cli/src/g2g-csv.ts:13-28 | the inner loop, from an opening quote to its end |
| `G2gCsv.CsvRoundTrip` | packages/cli/src/g2g-csv.ts:9-42 | a printed line gives back its fields exactly when its last one is not empty and unquoted |
| `G2gCsv.QuotedFieldsRoundTrip` | packages/cli/src/g2g-csv.ts:13-31 | with every field quoted, any list of any strings comes back |
| `G2gCsv.OpenQuoteTakesAll` | packages/cli/src/g2g-csv.ts:13-28 | a quote that is never closed takes the rest of the line |
| `G2gCsv.AfterClosingQuote` | packages/cli/src/g2g-csv.ts:13-31 | what follows a closing quote without a comma starts the next field |

## Left out

- HTTP, TLS, SQL text, S3, GCS, ClickHouse, graphile-worker's own scheduling and job-key replacement, logging and metrics: foreign calls, modelled as answers or abstract state.
- Columns that decide no phase (teams, players, drafts, series, ticks) and their upserts: they would only add easy members.
- Demo decoding and entity fields of the parser, lane inference, draft compaction, hero keys: library-driven copying or text scraping.
- `SeqWalk.NoNumberIsSkipped`: says that a window was queued, not that its job succeeded; a window job may later fail for good, and a bump may cut a rewind's second look short.
- `SeqWalk.Walker.EnqueueSeqWalkWindows`: runs without other workers; interleavings are in the step machine.
- `SeqWalk.Walker.RunFetchSeqWindow`: runs without other workers; the text of the latest start time is not modelled.
- `Archiver.NeverDangles`: a row is pointed at a new place only when that is timely, which the code does not check; every row has its replay salt, so none is looked for by its stored key alone; file sizes and storage classes are not modelled.
- `ArchiveJobs.ReplayArchive.ArchiveOne`: runs without other archivers; interleavings are in the protocol.
- `ArchiveJobs.ReplayArchive.ListParsedUnarchived`: rows come in any order; the order by parsing time is not kept.
- `Jobs.ExecutedExactlyBudgetTimes`: a worker that dies inside an execution and exceptions that count as success (an open live circuit, no ready API key) are not modelled; numbers in payloads are integers.
- `RateLimit.ApiSlots.AcquireSteamApiSlot`: no other caller stamps the key meanwhile; other callers are in the step machine.
- `ResourceHealth.Resources.RecordResourceAttempt`: window and threshold are constant; the ratio is a real number, not a rounded one.
- `Protobuf.DecodeFields`: buffers are shorter than 2^53 octets, so positions are exact.
- `Imap.TryParseLogicalLine`: literal lengths above 2^53 are exact here; octets are Latin-1 characters.
- Mapping decoded fields to match records, `extractImapLiteral`, deadlines and closed connections, regular-expression scraping, marketplace calls and the repair scripts: left to their own files.
