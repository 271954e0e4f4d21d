# A verified model of the local-ebooks plugin

This project models the parts of the plugin whose behaviour spans several
functions or whole runs, and proves properties of the model with Dafny's
verifier. `dafny verify dfyconfig.toml` checks all of it. The model has
eight parts.

- **Enrichment queue** (`JobQueue`, `LeaseProtocol`, `Drain`): the job table as
  a class whose methods are the SQL transactions; every interleaving of any
  number of workers, clock ticks, crashes, backfills and deletions as a state
  machine over the same table functions; and the drain loop as a method that
  other drains interfere with between any two of its statements.
- **Catalog and scan** (`Catalog`, `Scanner`, `ScanTheorems`, `ScanOutcome`,
  `ScanAttachments`, `CatalogRuns`): the store as a class with the uniqueness and foreign-key
  rules of the schema, the walk as a loop over the entries a tree delivers,
  with a stat, parse, upsert, cover, enqueue or entry error possible anywhere,
  and every serialised sequence of scans, enrichments, backfills and library
  deletions.
- **Merge rules** (`Ebooks`, `Names`): the scan fills empty columns, the
  enrichment overwrites with what it is offered, and lists travel through one
  text column.
- **Matching** (`Isbn`, `Confidence`, `Enrichment`): when two ISBNs name the
  same book, the score arithmetic, and the gate in front of a text match.
- **MOBI/EXTH parser** (`Mobi`, `MobiRoundTrip`): 32-bit offsets over
  untrusted bytes, and an encoder that parsing inverts.
- **Lookup cache** (`Cache`, `CacheRuns`) and **search** (`Ranking`,
  `Aggregator`): the cache rows against an ideal memo of what was written, and
  the fan-out of goroutines that share this cache.
- **Listing** (`Cursor`, `Paging`): the cursor codec, one page, and a client
  that follows the cursor to the end.
- **Migrations** (`Migrate`): any number of runners, one SQL statement a step,
  and one run under interference from the others.

`Text` and `Collections` hold what these share (string order, decimal printing,
sums, sequences and their multisets).

Where code and comments disagree the model follows the code:

- The comment at `internal/metadata/queue.go:79-81` says the status guard keeps
  a late finisher from stamping a re-armed job. It does not:
  `LeaseProtocol.StaleCompletionSwallowsRearmedJob`.
- `internal/metadata/worker.go:76-77` says a drain runs until the queue is empty
  or its context ends. The deadline of one upstream request ends it too, and
  then lines 113-114 return nil with due jobs left: `Drain.DeadlineLeavesWork`,
  and `Drain.Drain` for the exact condition.
- The comment at `internal/metadata/confidence.go:127-131` mentions the prefix
  979 and a trailing X. The code accepts 978 only and keeps every X.
- `rowAsCandidate` splits the author column on commas only, `splitCSV` on
  commas and semicolons; `Names` has both.
- The page offset and the end test of the cursor are products of 64-bit numbers
  and can wrap, each on its own. `Paging.OffsetFits` and `Paging.CursorFits` say
  exactly when they are right; `Paging.WrappedPageRepeatsFirst` and
  `Paging.EmptyPageLeadsToError` show what a client sees when they are not.

## Model

| member | source | states |
|---|---|---|
| JobQueue.Queue.Enqueue | internal/metadata/queue.go:27-36 | re-arms the job whatever its state, refused exactly for ids that are no ebook; no other row changes |
| JobQueue.Queue.ClaimNext | internal/metadata/queue.go:38-77 | empty exactly if every due row is locked by others; otherwise the claimed row is one that no other due unlocked row precedes in (run_after, id), leased for five minutes with its attempt counted |
| JobQueue.Queue.MarkCompleted | internal/metadata/queue.go:82-89 | completes a pending row and changes nothing else |
| JobQueue.Queue.MarkFailed | internal/metadata/queue.go:91-107 | a pending row is given up from five attempts on, else due again after 2, 4, 8 or 16 minutes, with the error text in both cases; terminal rows are left alone |
| JobQueue.Queue.BulkEnqueueBackfill | internal/store/metadata.go:50-63 | arms exactly the live ebooks without a job or with a failed one, and returns how many |
| JobQueue.NextUnique | internal/metadata/queue.go:46-52 | the id tiebreaker leaves one row that can be claimed next |
| JobQueue.BackoffRange | internal/metadata/queue.go:100 | a retry waits two to sixteen minutes, less than a lease exactly on the first two attempts |
| LeaseProtocol.SoundnessStep | internal/metadata/queue.go:38-107 | from a state in which every job is held at most once under a running lease, an event keeps that exactly if no holder sleeps through its lease and no held job is re-armed or deleted |
| LeaseProtocol.LeaseExclusion | internal/metadata/queue.go:60-69 | over every run of such events no job is held twice, and every held row is pending and leased until claim time plus five minutes |
| LeaseProtocol.RearmingHeldJobDoublesIt | internal/metadata/queue.go:31-33 | re-arming a held job lets a second worker claim it, from any sound state |
| LeaseProtocol.SleepingThroughLeaseDoublesIt | internal/metadata/queue.go:65-69 | so does a holder that outlives its lease |
| LeaseProtocol.StaleCompletionSwallowsRearmedJob | internal/metadata/queue.go:79-89 | the old holder of a re-armed job completes it, and the new work is never claimed |
| LeaseProtocol.LateFailureFreesSuccessorsJob | internal/metadata/queue.go:100-106 | in a run from any sound state, the late failure of a worker that slept through its lease makes the job due again inside its successor's lease exactly on its first two attempts |
| LeaseProtocol.ThirdWorkerJoins | internal/metadata/queue.go:100-106 | and then a third worker claims it: two workers hold one job and neither has outlived its lease |
| LeaseProtocol.AttemptsCountClaims | internal/metadata/queue.go:31-33 | in every run, disciplined or not, attempts is the number of claims since the job was last armed |
| LeaseProtocol.GivenUpEarly | internal/metadata/queue.go:92-98 | in every run from the empty queue, a worker gives its job up before five claims of the latest arming if and only if it is itself at its fifth attempt or later while the row it writes to is below five |
| LeaseProtocol.CountedStep | internal/metadata/queue.go:27-36 | the events that keep every holder at or below its row's attempts, and every failed row at five, are exactly those that arm no held job |
| LeaseProtocol.FailedOnlyAfterFiveClaims | internal/metadata/queue.go:92-98 | so if no job is armed while someone holds it, a job is given up only after five claims of the same arming, even if leases are outlived and jobs deleted |
| LeaseProtocol.GivenUpUnclaimed | internal/metadata/queue.go:92-98 | and otherwise it happens: in a run from the empty queue, a job re-armed under its fifth holder is given up with no claim since |
| LeaseProtocol.TerminalStatusSticks | internal/metadata/queue.go:82-98 | completed rows leave that status only by Enqueue, failed ones only by Enqueue or backfill, and a row disappears only by deletion |
| LeaseProtocol.ClaimsAreBounded | internal/metadata/worker.go:78-125 | all overlapping drains together claim no more often than the remaining attempts allow plus the number of jobs dropped, if nothing is re-armed, nobody outlives its lease and no held job is deleted |
| LeaseProtocol.DroppedJobsAreClaimedForEver | internal/metadata/worker.go:108-115 | the drops do count: with crashing workers any number of claims of one job is possible |
| Drain.Drain | internal/metadata/worker.go:78-125 | always terminates although others work on the table; every turn before the last went on and was logged exactly if it was served; the stop reason holds if and only if the last turn gave it; nil is returned exactly for an empty queue or the deadline of a single request; claims at most one job more than the work in the table; alone, every turn claims the earliest due job and leaves its row completed, given up or postponed with its error as the answer demands, and all others as they were |
| Drain.DeadlineLeavesWork | internal/metadata/worker.go:108-115 | on any table with a second due job, one request deadline makes the drain return nil with that job still due and untouched |
| Drain.ShortDrainClaimsOnce | internal/metadata/queue.go:65-69 | a drain shorter than two minutes claims no job twice |
| Drain.OthersRun | internal/metadata/worker.go:76-78 | every run of other workers that arms nothing is an interference of the kind Drain is proved against |
| Ebooks.FillGapsLaws | internal/store/store.go:59-76 | the upsert merge leaves filled columns alone, is idempotent and associative, with the blank row as unit |
| Ebooks.FillGapsByColumn | internal/store/store.go:63-74 | every column of the row is kept if filled and taken from the file if not |
| Ebooks.FillGapsFills | internal/store/store.go:59-83 | which parsed field fills which empty column |
| Ebooks.ApplyMatch | internal/metadata/applymatch.go:27-67 | every column gets the candidate field that belongs to it if that is offered and stays otherwise; assigning column by column is filling the gaps of the candidate from the row, the mirror image of the upsert merge |
| Ebooks.MatchedByColumn | internal/metadata/applymatch.go:27-67 | every column a candidate offers wins, every other column stays, and id and format never change |
| Ebooks.StaleMatchRetains | internal/store/metadata.go:19-43 | writing back a match computed from an older copy of the row empties a column exactly if that column was empty in the copy and is not offered |
| Names.SplitCSV | internal/store/catalog.go:110-125 | returns the trimmed non-empty tokens between commas and semicolons, in order |
| Names.ListedConcat | internal/store/catalog.go:116-124 | the text on either side of a comma or semicolon is read on its own |
| Names.ListedPart | internal/store/catalog.go:119-123 | text without separators is one entry, trimmed, or none if blank |
| Names.SplitInvertsJoin | internal/store/catalog.go:110-125 | splitting a joined list of clean names gives the list back, by either splitter |
| Names.SplitJoinSplit | internal/store/store.go:80-81 | every list read from a column is clean, so split, join and split equals split |
| Catalog.FingerprintInjective | internal/scanner/scan.go:202-207 | path, size and time can be read back from the string an id is hashed from, even with separators in the path |
| Catalog.IdClashMeansOverlap | internal/migrate/files/0001_init.up.sql:10 | a new path is refused for its id exactly if another library holds the same path with the same fingerprint |
| Catalog.Store.UpsertEbook | internal/store/store.go:49-90 | refused exactly for an unknown library or a taken id at a new path; else the row is live, keeps a known id, has its gaps filled, and no other row changes |
| Catalog.UpsertLeaves | internal/store/store.go:49-90 | the stored row has the id, format, size, time and signature the statement gives it and its gaps filled field by field; every other row stays |
| Catalog.Store.UpsertCover | internal/store/store.go:92-100 | one cover an ebook, refused for unknown ids |
| Catalog.Store.ListEbookRefs | internal/store/store.go:114-132 | exactly the live rows of the library, each path once |
| Catalog.Store.SoftDelete | internal/store/store.go:134-140 | marks the row of that id and no other |
| Catalog.Store.LoadEbookRow | internal/store/metadata.go:19-29 | the row of that id, absent exactly if there is none |
| Catalog.Store.UpdateEbookMetadata | internal/store/metadata.go:33-43 | replaces the metadata columns of that id; rows of other ids, and all other columns, stay |
| Catalog.Store.DeleteLibrary | internal/store/library.go:158-187 | jobs, covers, rows and the library go together, or nothing changes |
| Catalog.DeleteLibraryKeepsConsistent | internal/store/library.go:158-187 | after it ids are unique and no cover or job is orphaned |
| Catalog.DeleteLibrarySparesOthers | internal/store/library.go:164-180 | rows, covers and jobs of other libraries survive with the same contents |
| Scanner.Walker.WalkFn | internal/scanner/scan.go:73-162 | one entry changes rows, covers, jobs, seen ids and counters as Visited says, branch by branch |
| Scanner.Walk | internal/scanner/scan.go:55-187 | the imperative scan leaves the database and the counts that ScannedDb and ScanTally give; it fails only if the rows cannot be listed |
| ScanTheorems.DeletedIffGone | internal/scanner/scan.go:168-184 | a live row is deleted exactly if it is of the scanned library, the walk saw every entry, its path was not delivered and its deletion did not fail |
| ScanTheorems.ScanKeepsRows | internal/scanner/scan.go:111-137 | no scan removes a row, changes an id or alters a filled column, and other libraries are untouched |
| ScanTheorems.ScanKeepsConsistent | internal/scanner/scan.go:111-160 | a scan keeps ids unique, minted from their own path, and every cover and job attached to an ebook |
| ScanAttachments.ScanDelivers | internal/scanner/scan.go:126-160 | for every new or changed file whose row is accepted, whatever fails elsewhere: its row has the contents of the file, its cover is the embedded one, else the sidecar, else the old one, and its enrichment job is armed afresh unless that fails; covers and jobs of all other ebooks stay |
| Scanner.SupportedMeans | internal/ebookparse/parse.go:39-61 | a file is supported exactly if it ends in one of the six extensions, in any case |
| ScanOutcome.TallyAccountsForFiles | internal/scanner/scan.go:126-137 | added, changed and failed add up to the regular files that are new or differ |
| ScanOutcome.LiveRowsConserved | internal/scanner/scan.go:133-184 | live rows after are live rows before, plus added, plus brought back to life, minus deleted |
| ScanOutcome.CleanWalkConverges | internal/scanner/scan.go:55-187 | after a walk without entry, stat or upsert errors the live paths are exactly the supported files with their signatures, if and only if no new file's id is already taken |
| ScanOutcome.SecondWalkIsIdle | internal/scanner/scan.go:107-112 | walking a tree the catalog agrees with changes nothing, enqueues nothing and counts nothing |
| CatalogRuns.OverlappingRootsDiverge | internal/store/store.go:52-59 | the exception to convergence is reachable from an empty database: of two libraries with the same file, the second scanned never gets a row for it |
| CatalogRuns.AlwaysConsistent | internal/migrate/files/0001_init.up.sql:8-45 | over every serialised sequence of operations ids stay unique and no cover or job is orphaned |
| CatalogRuns.RowsKeepIdentity | internal/scanner/scan.go:114-121 | while a (library, path) row exists its id never changes and no filled column becomes empty |
| CatalogRuns.RowsLeaveWithTheirLibrary | internal/store/library.go:158-187 | a row can disappear only with its library |
| CatalogRuns.UnlockedEnrichLosesColumn | internal/metadata/worker.go:129-180 | for any row with an empty column that the file fills: if a scan runs between the load and the write of the worker, the write empties the column again exactly if the candidate does not offer it |
| Mobi.ParseMOBI | internal/ebookparse/mobi.go:14-107 | for every byte string the result is the one its header and records describe or the error that applies, of a file longer than 256 KiB the one of its first 256 KiB, without an access out of bounds or a wrapped sum, in at most (length - 12)/8 turns |
| Mobi.ErrorsMean | internal/ebookparse/mobi.go:25-51 | which of the four errors a file is refused with, or none, in terms of its bytes at fixed places |
| Mobi.LongFilesAgree | internal/ebookparse/mobi.go:21 | two files with the same first 262144 bytes have the same result |
| Mobi.TrimMeans | internal/ebookparse/mobi.go:85-99 | trimming takes whole white space characters off both ends and nothing else, until neither end is one |
| Mobi.ReadRecordList | internal/ebookparse/mobi.go:69-102 | the loop reads exactly the complete records up to the claimed count, stopping at the first broken one |
| MobiRoundTrip.RecordsStop | internal/ebookparse/mobi.go:73-82 | of records laid out up to a broken one, reading returns exactly those, cut at the claimed count |
| MobiRoundTrip.AbsorbedFields | internal/ebookparse/mobi.go:80-100 | authors accumulate in order, other fields are those of their last record, the date is the last that parses |
| MobiRoundTrip.RoundTrip | internal/ebookparse/mobi.go:32-106 | parsing any laid-out file within 256 KiB returns exactly the fields written, trimmed of white space, with the PDB name for a missing title |
| MobiRoundTrip.RoundTripOfAnyLength | internal/ebookparse/mobi.go:21-106 | the same for files of any length: anything may follow a layout that fits into 256 KiB |
| MobiRoundTrip.ParseWritten | internal/ebookparse/mobi.go:14-107 | so ParseMOBI returns the written fields for every file that starts with such a layout |
| MobiRoundTrip.TrimmedIsVerbatim | internal/ebookparse/mobi.go:80-100 | record data without white space at its ends is returned byte for byte |
| Isbn.NormalizeISBN | internal/metadata/confidence.go:150-162 | keeps digits and X in order, x made X |
| Isbn.NormalConcat | internal/metadata/confidence.go:150-162 | normalising goes character by character |
| Isbn.NormalOne | internal/metadata/confidence.go:154-159 | a digit or X is kept, x becomes X, anything else goes |
| Isbn.MatchIsIdentity | internal/metadata/confidence.go:132-148 | on numbers with valid check digits, matching is equality of the canonical ISBN-13 |
| Isbn.MatchChains | internal/metadata/confidence.go:132-148 | on any strings matching is symmetric, and two matches chain exactly unless the ends are different normal forms of one length |
| Isbn.ChainBreaks | internal/metadata/confidence.go:132-148 | transitivity fails for any two different ten-digit strings over one core: both match every 978 string over it, and not each other |
| Isbn.BreakingChain | internal/metadata/confidence.go:132-148 | and there are such strings |
| Confidence.ScoreTitle | internal/metadata/confidence.go:43-67 | the loops over words compute the share of query words found |
| Confidence.TitleMeans | internal/metadata/confidence.go:43-67 | 30 for equality up to case and outer white space, 22 for containment, otherwise the share of the query words that some title word contains or is contained in, rounded down |
| Confidence.WordsSplit | internal/metadata/confidence.go:52-53 | white space splits text into the words of either side |
| Confidence.CountMatchingNames | internal/metadata/confidence.go:71-90 | counts the original names that some candidate name contains or is contained in |
| Confidence.CalculateConfidence | internal/metadata/confidence.go:9-39 | the sum of the five parts, at most 100 without the clamp |
| Confidence.IdentifiersCount | internal/metadata/confidence.go:16-31 | a matching ISBN makes a difference of exactly 35 points, a matching ASIN of 5, and nothing else of the identifiers counts |
| Confidence.AuthorsCount | internal/metadata/confidence.go:22-25 | authors make the share of the row's names that were found, of twenty points, rounded down |
| Confidence.MissingIsSkipped | internal/metadata/confidence.go:12-31 | what is missing on either side changes nothing |
| Confidence.FieldsCount | internal/metadata/confidence.go:95-125 | the rest is the share of the nine named fields that are filled, of ten points, rounded down |
| Confidence.CompletenessRange | internal/metadata/confidence.go:95-125 | ten points exactly for all nine fields |
| Enrichment.Process | internal/metadata/worker.go:129-180 | which question is asked, by ISBN, else ASIN, else title and author, and what every answer leads to: the first record is written exactly if no error came with it and, for a text match, it scores at least 40 |
| Enrichment.TextMatchGate | internal/metadata/worker.go:149-166 | an accepted text match has a title score of at least 10, of 12 unless all nine fields are filled; without a common author it needs 30 and all nine fields |
| Enrichment.FullTitleScore | internal/metadata/confidence.go:43-67 | thirty points exactly if title and query agree up to case and space, or every query word was found although neither contains the other |
| Cache.KeySeparates | internal/metadata/cache.go:46-49 | no other question shares a key exactly if the region is free of NUL or the query is a product number |
| Cache.Cache.Get | internal/metadata/cache.go:64-84 | a row is served exactly while it is within its own TTL |
| Cache.Cache.PutHit | internal/metadata/cache.go:87-97 | stores or replaces the answer and its time, and nothing else |
| Cache.Cache.PutNotFound | internal/metadata/cache.go:100-110 | the same for a negative answer |
| Cache.Cache.EvictExpired | internal/metadata/cache.go:117-127 | removes and counts exactly the rows Get would not serve; no lookup then or later can tell |
| CacheRuns.CacheIsIdealMemo | internal/metadata/aggregator.go:133-171 | in every run a lookup finds exactly the last answer written for the same source, region and query while it is young enough, and otherwise nothing |
| CacheRuns.HitsAreRecentAnswers | internal/metadata/aggregator.go:139-148 | a cached answer was given by the source itself, without error, and written within one TTL |
| CacheRuns.UnsafeReadsAnother | internal/metadata/cache.go:41-49 | for every other question there is a run in which it finds another question's answer; only direct callers of Search can ask one, since the configured region is stored as JSON text, which holds no NUL |
| Ranking.SortedIsStable | internal/metadata/aggregator.go:124-126 | the order used is a stable sort by descending confidence |
| Ranking.StableSortIsUnique | internal/metadata/aggregator.go:124-126 | which has one possible result |
| Ranking.TopIgnoresArrival | internal/metadata/aggregator.go:124-130 | the order of arrival changes neither the confidences after the cut nor the matches above the last of them |
| Ranking.TopIsBest | internal/metadata/aggregator.go:124-130 | what is returned is at most twenty of the matches, descending, and no match left out is better than one returned |
| Aggregator.SearchOne | internal/metadata/aggregator.go:133-171 | a live cached list becomes one scored match per candidate, in order, whatever the source says, and a live negative row none; otherwise the source's list does; an error gives none and is never written, and a fresh answer that can be written is what the next lookup finds; no other row changes |
| Aggregator.LookupIsLocal | internal/metadata/aggregator.go:136-168 | a lookup depends on and changes only the row of its own key |
| Aggregator.SomeoneCanMove | internal/metadata/aggregator.go:102-122 | the fan-out never deadlocks |
| Aggregator.AtMostSix | internal/metadata/aggregator.go:92-109 | at no moment of any schedule do more than six goroutines hold a slot |
| Aggregator.AppendsOnce | internal/metadata/aggregator.go:102-120 | in every schedule no source appends twice, one that has appended is gone, and one that is gone has appended unless the deadline hit |
| Aggregator.ScheduleIndependent | internal/metadata/aggregator.go:94-130 | when every source has appended, the returned confidences are the best of all matches together, in whatever order they came |
| Aggregator.Search | internal/metadata/aggregator.go:85-131 | every match comes from an enabled source and carries what its cache row or its answer gives; without a deadline the result is the best twenty of all of these, all of them if there are no more; the run is a schedule from all waiting to all gone in which each source contributes at most once, without a deadline exactly once; the result is the first twenty of the stable sort, and the cache holds exactly the lookups that ran |
| Cursor.Base64RoundTrip | internal/grpc/ebookbackend/server.go:307-324 | unpadded base64url decoding inverts encoding |
| Cursor.GroupIs | internal/grpc/ebookbackend/server.go:320-325 | three octets and their four symbols are the same 24 bits |
| Cursor.PageCursorRoundTrip | internal/grpc/ebookbackend/server.go:303-325 | decodeCursor inverts the cursor of every page number |
| Cursor.CursorLeadsToNextPage | internal/grpc/ebookbackend/server.go:320-325 | for every page and limit: a cursor exactly if the product, cut to 64 bits, is below the total; it decodes to the next page, and after the largest number to none |
| Cursor.CursorEndsTheList | internal/grpc/ebookbackend/server.go:320-325 | the cursor is absent exactly at the end of the list if and only if the product fits into 64 bits or its cut-off value reaches the total |
| Paging.ListParams | internal/grpc/ebookbackend/server.go:331-351 | rejects exactly a present but invalid library id, and a present one is never dropped |
| Paging.ListEbooks | internal/store/catalog.go:129-208 | the window of the ordered selection at limit and offset; its total is the number of undeleted rows of enabled libraries that meet the filters given; an error exactly for a negative offset |
| Paging.ResultIgnoresPhysicalOrder | internal/store/catalog.go:170 | the id tiebreaker makes the listing independent of the physical order of rows |
| Paging.OffsetFits | internal/store/catalog.go:130-132 | the listing answers with the intended items if and only if the offset fits into 64 bits or its cut-off value still lies past the end |
| Paging.CursorFits | internal/grpc/ebookbackend/server.go:320-325 | its cursor is absent exactly at the end if and only if the product of page and limit fits or its cut-off value reaches the total |
| Paging.EmptyPageLeadsToError | internal/grpc/ebookbackend/server.go:320-325 | a page past the end whose offset fits and whose own product does not is empty, yet hands out a cursor, and following it is the error of a negative offset |
| Paging.EmptyPage | internal/store/catalog.go:130-132 | there is such a page, beyond the end of every list |
| Paging.WrappedPageRepeatsFirst | internal/store/catalog.go:130-132 | on every table, page 2^62 + 1 with limit 4 lists the items of page 1 |
| Paging.FollowCursor | internal/grpc/ebookbackend/server.go:318-325 | following next_cursor ends after max(1, ceil(total/limit)) pages and has then listed, by title and id, exactly the undeleted rows of enabled libraries that meet every filter of the query, each once, with its title and authors |
| Migrate.OnceWithItsRecord | internal/migrate/migrate.go:49-83 | in every interleaving with failures and crashes each version is committed at most once and together with its record, and after a nil return all are recorded for good |
| Migrate.AlwaysPrefix | internal/migrate/migrate.go:47-83 | the records stay a prefix of the sorted list exactly if they start as one, and then at most one transaction is about to commit |
| Migrate.OthersStep | internal/migrate/migrate.go:25-27 | every step of another run is an interference of the kind Run is proved against |
| Migrate.Database.ApplyAndRecord | internal/migrate/migrate.go:65-82 | commits body and record together or neither; a version recorded meanwhile is refused by its key |
| Migrate.Database.Run | internal/migrate/migrate.go:27-85 | nil means everything is recorded whatever the others do; left alone, a run returns nil exactly if nothing it needs fails |

## Left out

- Hashes: SHA-1 and BLAKE2b are taken to be ideal, and an id, signature or key stands for the string that is hashed. That these strings are injective is proved.
- Time is one clock in whole seconds, file times are integers, and each SQL statement or transaction is one atomic step; SKIP LOCKED is a set of rows that other transactions hold.
- The columns that only record when something happened (started, scanned, updated, deleted) are not modelled.
- Strings are sequences of code points except in the MOBI parser, which works on bytes. Case is that of ASCII inside ASCII, and outside it any two character maps, one for lower case and one for case-insensitive comparison. yearOf takes four characters, not bytes.
- JobQueue.Queue.ClaimNext: failures of its own statements appear in Drain as claim errors, not in the class.
- Drain.Drain: only finitely many finisher statements may be lost, because a drain whose finishers always fail need not end; requests that re-arm jobs while it runs are excluded as in LeaseProtocol. "Alone" means that nothing else happens at all while the drain runs, the clock included.
- Enrichment.Process: the lookup of the configured source and the load of the row come before it and fail as job errors; they are not part of this method.
- Scanner.Walk: a library deleted by another request during the walk, and a tree that changes during it, are not modelled. The root itself being unreadable is an unreadable entry, as in the code.
- ScanAttachments.ScanDelivers: the walk delivers each path once, as the walk of a directory tree does.
- Confidence.CalculateConfidence: shares are exact floors of rational numbers, not of floating-point ones.
- Confidence.ScoreTitle: the same.
- MobiRoundTrip.RoundTrip: the date parser is an arbitrary function, and fields are compared as bytes.
- Cache.Cache.Get: JSON is modelled as the list it encodes or as something else; encoding and decoding of candidates is not.
- Aggregator.Search: searchOne is one step between taking and leaving a slot, which loses nothing since lookups of different sources touch different rows; the rate limiter and timers only decide whether a source answers.
- Paging.ListEbooks: ILIKE is an arbitrary relation between search text and row, titles are compared by code point, both queries see the same rows and reach the database; of a book only id, title and authors are carried, the other columns are copied as they are.
- Paging.FollowCursor: the total stays 200 below the largest 64-bit number.
- paginateAggregate and the author, series and genre lists page in the same way over SQL aggregates and would only repeat the proofs.
- Migrate.Database.Run: reading and sorting the embedded files is not modelled; versions are a list without repetition, and connecting and creating the bookkeeping table only succeed or fail.
- EPUB, PDF and FB2 parsing: their result is arbitrary or a failure.
- Source adapters, HTTP and gRPC routing, the admin pages, tokens, runtime configuration, logging and the scheduler.
- External-id parsing, size clamps, MIME tables and configuration defaults would only add easy members.
