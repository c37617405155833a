# ghreplica in Dafny

ghreplica keeps a replica of GitHub repositories: it scans open pull requests into inventories, indexes
their diffs, repairs what webhooks missed, and answers searches over the result. This project models the
logic that has to stay right across crashes, retries and concurrent workers, and proves what it promises.

Tables are maps held in classes whose methods change them as the service's transactions do; each method is
tied to a function on the tables, and the laws are proved about those functions and about every run of them.
Times are whole numbers passed in, and GitHub, git and the diff library are arbitrary inputs, restricted only
where a law needs it.

| module | models |
|---|---|
| Inventory, InventoryRuns, InventoryStore | open pull request inventories in numbered generations, their counters and dirty flag, and every interleaving of scans with the other lanes |
| Sweep, Backfill | the keyset cursor of the backfill lane, passes and whole sweeps |
| Leases, LeaseRuns | the lease manager, its two readings of a lease, and workers at once |
| Repair, RepairRuns | the repair engine, resumed passes and the full-history repair |
| TargetedQueue | the queue of targeted refreshes, with workers interleaved at every statement |
| GitParse, SnapshotFiles, SnapshotRows | the git output parsers, parsed files, and the stored rows with their totals |
| Upserts, RepoIdentity | guarded upserts and repository names under renames |
| RefreshJobs | the bounded-retry job queue |
| SearchMatches, PathSearch, RangeSearch, RelatedHunks | overlap search and its ranking |
| FuzzySearch | normalised text, trigram similarity and windows |
| Common, TextFields | Go string helpers that several of these use |

`dafny verify dfyconfig.toml` checks the whole project.

## Where the code falls short of the law

Some laws hold only under a condition the code does not enforce. Each is proved with the exact condition,
and where that helps with an input on which it fails.

- A recount and the incremental counters class a row alike unless its freshness is a padded blank or "current" (`CategoriesAgree`), and a scan counts a pull request that its listing repeats in a later batch once too often (`PlanCountsExact`), while a repeat within one batch fails the scan (`UpsertBatch`).
- A reconcile and the staling of a moved base use a generation read before their transaction (`ReconcileOfReadGeneration`; `BaseMovedOfReadGeneration`, `BaseMovedReachesCurrentIff`), a backfill pass one read at its start (`AdvanceOfReadGeneration`), a scan one picked before its lease (`PickedScanKeepsCurrentIff`), and a crash right after a commit makes the next scan rewrite the current rows (`CrashIsHarmlessIff`, `CrashAfterCommitRewritesInPlace`).
- An inventory request can only be lost if its time is older than an earlier one's (`LastRequestDecides`).
- A backfill pass that runs out of time before its first candidate ends the sweep (`DeadlineBeforeFirstCandidate`), and one whose last fetch brings an older time can move the cursor past other rows (`PassIsGoodIff`, `OlderFetchSkips`).
- Readers and writers of leases disagree for a TTL other than the manager's (`ReadingsAgree`), and three missed heartbeats are too many for a TTL below 600 ms (`ThreeIntervalsSuffice`).
- A repair requested during a pass is dropped when the pass finishes, complete or not, and with it the restart at the first page (`RequestDuringPassIsDropped`); a targeted request made during a refresh is absorbed by its success or parked by its fifth failure (`RequestSurvivesFinish`).
- A worker can claim a targeted refresh that another one finished after it was selected, which raises the flag with nothing waiting until the next finish, which the worker may not live to see (`StaleClaimRaisesFlag`).
- `parseNumstatZ` cuts plain paths at a tab (`NumstatRoundTrip`), and the patch of a removed file below a directory called b is filed under another path (`OldNameFindsPath`).
- Issue rows that pulls also write keep fields and a closing time that depend on the order of deliveries (`CopiesIgnoreOrderIff`, `ClosingIgnoresOrderIff`), and payloads that tie for the newest leave the first one delivered (`OrderIsIrrelevantIffNoTie`).
- A repository name with a NUL is looked up raw and stored cleaned: Postgres refuses it, and on SQLite it cannot take a name over (`RefusedIff`).
- A late failure reopens a finished job (`LateReportOverwrites`), and a merge of tracked rows can leave a job where requests no longer find it (`MergeKeepsLiveJobsIff`).
- A refresh requested under a padded name that no lookup resolves adds a job every time (`PaddedNameAddsEveryTime`). The command line trims its names, so this concerns other callers of `EnqueueRepositoryRefresh` only.

## Model

| member | source | states |
|---|---|---|
| Inventory.CategoriesAgree | internal/githubsync/change_sync.go:2372-2381 | The class the incremental counters put a row in and the class of the COUNT queries are the same exactly unless the freshness is a padded blank or a padded "current" |
| Inventory.DesiredFreshnessShape | internal/githubsync/change_sync.go:1808-1825 | The wanted freshness is free of padding whenever the snapshot column is, is blank exactly without a snapshot, and is "current" only for a snapshot of the same head and base that is itself current |
| Inventory.BaseRefForms | internal/githubsync/change_sync.go:2023-2026 | A branch is the same with or without its prefix and whatever the white space around it |
| Inventory.RowComparesWithSnapshot | internal/githubsync/change_sync.go:1808-1825 | A row carries what the pull request says, trimmed; its freshness is "current" exactly if a snapshot has the same head, base and ref and is itself current, and otherwise names the first difference, or repeats what the snapshot says |
| Inventory.QueriedCounts | internal/githubsync/change_sync.go:2250-2287 | The WHERE clauses of the two counting queries select exactly the rows of the current and of the stale class |
| Inventory.RecountUpdate | internal/githubsync/change_sync.go:2289-2327 | Replacing one row changes a full recount exactly as the incremental adjustment does, with neither clamp taking effect |
| Inventory.RecountInsert | internal/githubsync/change_sync.go:1899-1923 | A new row changes a full recount as an adjustment from blank does and adds one to the total |
| Inventory.AdjustedNotNegative | internal/githubsync/change_sync.go:2350-2370 | A count gains and loses what the row does, never going below zero |
| Inventory.CountsPartition | internal/githubsync/change_sync.go:2250-2287 | Total less current less stale is the number of rows never indexed |
| Inventory.PlanMapEntries | internal/githubsync/change_sync.go:1968-2000 | The rows an upserted plan leaves are its last entry for every number, and no other |
| Inventory.PlanMapSize | internal/githubsync/change_sync.go:1968-2000 | A plan writes as many rows as it has entries exactly when it names no number twice |
| Inventory.PlanCountsExact | internal/githubsync/change_sync.go:1899-1923 | The counters accumulated while a scan builds its rows are the recount of those rows exactly when the listing repeats no pull request |
| Inventory.PlannedClasses | internal/githubsync/change_sync.go:1899-1923 | Of a listing without repeats the current rows are the pull requests indexed as they stand and the stale ones those with another snapshot |
| Inventory.UpsertedSplit | internal/githubsync/change_sync.go:1968-2000 | Writing a plan batch by batch leaves what writing it whole does |
| Inventory.ChosenGenerationIsLeastFree | internal/githubsync/change_sync.go:2383-2392 | A positive number under construction is resumed, otherwise the least positive one above it and above the current one is taken |
| Inventory.ReconcileFollowsPull | internal/githubsync/change_sync.go:2118-2141 | A targeted reconcile leaves no row of a pull request that is not open, the fetched one otherwise, and every other row as it was |
| Inventory.ReconcileFreshensSnapshot | internal/githubsync/change_sync.go:2166-2176 | Its snapshot gets the freshness of the row and no other changes |
| Inventory.BaseMovedRowsOnly | internal/githubsync/change_sync.go:2208-2235 | Exactly the rows of the moved base become stale, in their freshness only |
| Inventory.NothingToStaleOrReconcile | internal/githubsync/change_sync.go:2104-2235 | Without a generation or a ref nothing changes |
| InventoryRuns.PrepareKeepsCurrent | internal/githubsync/change_sync.go:1952-1966 | Preparing a generation keeps the current rows exactly when another generation is built and the caller still knows which one is current |
| InventoryRuns.AdvanceExact | internal/githubsync/change_sync.go:2289-2327 | A backfill advance replaces one current row and keeps the counters equal to a recount, its clamps never firing |
| InventoryRuns.ReconcileSound | internal/githubsync/change_sync.go:2118-2141 | A targeted reconcile makes the counters exact for the generation it works on |
| InventoryRuns.CommitInstallsListing | internal/githubsync/change_sync.go:1931-1950 | A commit raises the generation and leaves exactly one row per listed pull request, built from it, with exact counters and no cursor |
| InventoryRuns.FreshenedFollows | internal/githubsync/change_sync.go:2002-2021 | The snapshots of the listed pull requests get the freshness of their rows, all others stay |
| InventoryRuns.CommitKeepsNewerRequests | internal/githubsync/change_sync.go:277-283 | After a commit the dirty flag is set exactly when the latest request is newer than the start of the scan; a clear flag means the list was fetched at or after every request |
| InventoryRuns.StepKeepsInv | internal/githubsync/change_sync.go:1842-1872 | Every transaction of a scan, every request, every write of another lane and a crash at any point keep counters, generations and dirty flag consistent |
| InventoryRuns.ScanIsolation | internal/githubsync/change_sync.go:1952-2000 | Until its commit nothing a scan does, or leaves behind by failing or crashing, reaches the current rows, their generation number or the counters |
| InventoryRuns.RunKeepsInv | internal/githubsync/change_sync.go:1842-1872 | The same over every run |
| InventoryRuns.CountersOverRuns | internal/githubsync/change_sync.go:2250-2287 | Over every run of scans, advances, reconciles, base-ref staling, requests and crashes, in which a lane writes to the generation that is current, the cached counters equal a recount and leave over the unindexed rows |
| InventoryRuns.NoLostRequest | internal/githubsync/change_sync.go:285-308 | Over every run a clear flag means a committed listing was fetched at or after every request so far, and a set flag carries the latest request |
| InventoryRuns.WholeScan | internal/githubsync/change_sync.go:1842-1950 | From any sound state all steps of a scan can be taken one after the other, and leave the listed pull requests current, built from the snapshots as they were, nothing under construction, and the flag up only for a request newer than the start |
| InventoryRuns.CrashedScanIsDiscarded | internal/githubsync/change_sync.go:1003-1021 | The retry of a scan that crashed before its commit takes the same generation number and empties what the first one wrote |
| InventoryRuns.ReconcileOfReadGeneration | internal/githubsync/change_sync.go:2104-2116 | Reconciling a generation read before the transaction leaves exact counters for every pull request if and only if that generation is still the current one |
| InventoryRuns.StaleGenerationBreaksCounters | internal/githubsync/change_sync.go:2104-2141 | Sound tables and a superseded generation on which a reconcile leaves wrong counters |
| InventoryRuns.BaseMovedOfReadGeneration | internal/githubsync/change_sync.go:2208-2235 | Staling a base in a generation read before the transaction leaves exact counters, whatever that generation holds, if and only if it is still the current one |
| InventoryRuns.BaseMovedReachesCurrentIff | internal/githubsync/change_sync.go:2208-2235 | And all current rows of the base end up stale exactly if it is still the current one or they were all so before |
| InventoryRuns.StaleBaseRefMissesCurrent | internal/githubsync/change_sync.go:2214-2234 | Sound tables on which such a staling sets the total to 0 and leaves both current rows of the base as they were |
| InventoryRuns.AdvanceOfReadGeneration | internal/githubsync/change_sync.go:2289-2327 | An advance in the generation a backfill pass read at its start leaves exact counters, whatever the row becomes, exactly if the row is gone or that generation still the current one |
| InventoryRuns.PickedScanKeepsCurrentIff | internal/githubsync/change_sync.go:1891-1966 | A scan keeps the current rows exactly if the state it was picked by still names their generation and the number it chooses is another one |
| InventoryRuns.StalePickDeletesCurrent | internal/githubsync/change_sync.go:986-1021 | A scan picked before another one committed chooses the generation that is current by then and its prepare step deletes those rows |
| InventoryRuns.CrashAfterCommitRewritesInPlace | internal/githubsync/change_sync.go:2383-2392 | After a crash between commit and the end of the pass the next scan resumes the current generation and empties it |
| InventoryRuns.CrashIsHarmlessIff | internal/githubsync/change_sync.go:2383-2392 | The scan after a crash builds apart from the current rows exactly if the crash came before the commit |
| InventoryRuns.LastRequestDecides | internal/githubsync/change_sync.go:285-308 | The flag a commit leaves is right for every scan start exactly when no earlier request was newer than the last one written |
| InventoryStore.Store.MarkInventoryNeedsRefresh | internal/githubsync/change_sync.go:285-308 | The next commit keeps the flag up exactly if this request is newer than the start of its scan |
| InventoryStore.Store.ChooseInventoryGeneration | internal/githubsync/change_sync.go:1891-1897 | Resumes a generation under construction, otherwise takes the next free one, and announces it |
| InventoryStore.Store.PrepareInventoryGeneration | internal/githubsync/change_sync.go:1952-1966 | Only the generation believed current survives, unless it is the one to be built |
| InventoryStore.Store.WriteInventoryGeneration | internal/githubsync/change_sync.go:1968-2000 | Succeeds exactly if no batch names a number twice, and then leaves what one upsert of the whole plan does; otherwise the batches before the first refused one stay written |
| InventoryStore.Store.UpsertBatch | internal/githubsync/change_sync.go:1968-2000 | One statement: refused, with nothing written, exactly if the batch names a number twice |
| InventoryStore.Store.ApplySnapshotFreshnessUpdates | internal/githubsync/change_sync.go:2002-2021 | Exactly the recorded snapshots get their recorded freshness |
| InventoryStore.Store.CommitOpenPullInventoryState | internal/githubsync/change_sync.go:1931-1950 | Generation, counters, cursor and dirty columns after a commit, a request newer than the scan start being kept |
| InventoryStore.Store.SyncOpenPullInventory | internal/githubsync/change_sync.go:1842-1872 | A whole scan from sound tables ends with exactly the listed pull requests under a higher generation; the counters are exact, and count as current the pull requests indexed as they stand and as stale those with another snapshot |
| InventoryStore.Store.AdvanceBackfillProgress | internal/githubsync/change_sync.go:2289-2327 | Writes the row, the adjusted counters and the cursor together, or nothing if the row is gone |
| InventoryStore.Store.UpdateRepoInventoryCounts | internal/githubsync/change_sync.go:2250-2287 | The three counts are the recount of the generation |
| InventoryStore.Store.ReconcileTargetedRefresh | internal/githubsync/change_sync.go:2118-2141 | Row, snapshot and counters after a targeted refresh; nothing without a generation |
| InventoryStore.Store.UpdateTargetedRefreshSnapshot | internal/githubsync/change_sync.go:2166-2176 | Only the freshness of that one snapshot changes |
| InventoryStore.Store.MarkInventoryBaseRefStale | internal/githubsync/change_sync.go:2208-2235 | Exactly the rows of the moved base become stale and the counters are recounted |
| InventoryStore.AdjustBackfillCounts | internal/githubsync/change_sync.go:2350-2370 | The branching adjustment equals the arithmetic one that the recount lemmas are about |
| InventoryStore.RecordSnapshotFreshnessUpdate | internal/githubsync/change_sync.go:1925-1929 | A snapshot is recorded for update exactly if its stored freshness differs from the wanted one |
| InventoryStore.BuildOpenPullInventoryRows | internal/githubsync/change_sync.go:1899-1923 | One row per listed pull request in order, the snapshot updates they imply, and counters accumulated on the way |
| Sweep.ListingIsHead | internal/githubsync/change_sync.go:2028-2045 | A listing is a strictly descending head of the non-current rows below the cursor, as long as its limit allows, and empty exactly if there are none |
| Sweep.RowsAfterElsewhere | internal/githubsync/change_sync.go:577-594 | A pass rewrites the rows it attempted and no other |
| Sweep.UnattemptedStaysAhead | internal/githubsync/change_sync.go:577-641 | A row not attempted so far is untouched and was listed behind the last row the pass attempted, or not at all |
| Sweep.PassIsGoodIff | internal/githubsync/change_sync.go:577-641 | The sweep invariant survives to the key a pass stops at, and a pass that ends the sweep has left nothing out, exactly if every row still to be attempted lies below the key its last attempt wrote |
| Sweep.PassKeepsSweep | internal/githubsync/change_sync.go:577-641 | Such a pass keeps the invariant: rows not current at the start are attempted, or untouched and still ahead of the cursor; the cursor returns to nil only when all are attempted |
| Sweep.SweepSkipsNothing | internal/githubsync/change_sync.go:577-641 | A sweep of such passes from nil to nil has attempted every row that was not current when it began, although attempts move keys |
| Sweep.MonotoneSweepIsGood | internal/githubsync/change_sync.go:577-641 | Passes whose last attempt does not lower the key of its row are such passes, whatever their earlier attempts do |
| Sweep.AttemptLowersRank | internal/githubsync/change_sync.go:600-641 | With upstream frozen every attempt, failed or not, lowers the measure (rows behind upstream, rows ahead of the cursor) |
| Sweep.PassLowersRank | internal/githubsync/change_sync.go:600-641 | A pass lowers it by at least the number of its attempts |
| Sweep.SweepTerminates | internal/githubsync/change_sync.go:600-641 | With upstream frozen the attempts and the passes of a sweep are bounded by the measure it starts from |
| Sweep.DeadlineBeforeFirstCandidate | internal/githubsync/change_sync.go:619-641 | A pass whose deadline comes before its first candidate resets the cursor; it is a pass of a sweep exactly if nothing was left |
| Sweep.OlderFetchSkips | internal/githubsync/change_sync.go:2063-2079 | A sweep in which a fetch returns an older time ends with a row never attempted |
| Backfill.ProcessBackfillCandidate | internal/githubsync/change_sync.go:600-617 | A failed sync keeps the row and marks a blank one failed; a successful one stores the snapshot the index wrote, rebuilds the row and compares the two |
| Backfill.CurrentAfter | internal/githubsync/change_sync.go:600-617 | A row is current after an attempt exactly if it was so and the sync failed, or its pull request is now indexed as fetched |
| Backfill.ReconcileInventoryFreshness | internal/githubsync/change_sync.go:2081-2102 | Without a snapshot the row failed; otherwise row and snapshot both get the wanted freshness |
| Backfill.AttemptCandidate | internal/githubsync/change_sync.go:577-594 | One candidate synced and advanced: one current row replaced, counters exact, everything else alone |
| Backfill.ProcessBackfillCandidates | internal/githubsync/change_sync.go:577-598 | The loop attempts the head of the listing up to the limits and leaves rows, cursor and tallies as the pass functions say |
| Backfill.RunBackfillPass | internal/githubsync/change_sync.go:523-552 | A whole pass keeps the counters exact, moves rows and cursor as the sweep lemmas assume, tallies what it fetched, and touches no other generation |
| Backfill.FinalizeBackfillCursor | internal/githubsync/change_sync.go:619-641 | The cursor is kept exactly if something was processed and rows are left below it |
| Backfill.PassInSweep | internal/githubsync/change_sync.go:577-641 | A pass that attempts at least one candidate if there is any, against a still upstream, is monotone and writes what upstream has |
| Backfill.PassOfSweep | internal/githubsync/change_sync.go:523-552 | A pass of the store extends the sweep by one pass and, unless it was the last, by at least one attempt, within the bound |
| Backfill.SweptAll | internal/githubsync/change_sync.go:577-641 | A sweep that came to an end attempted every row that was not current at its start |
| Backfill.PassLeavesUnindexed | internal/githubsync/change_sync.go:577-617 | A row that is not current after a pass was not indexed as fetched by any attempt so far, and was attempted or not current before |
| Backfill.RunSweep | internal/githubsync/change_sync.go:1101-1131 | Repeated passes are a sweep in that sense: they terminate within the bound and attempt every row that was not current at the start; a row that is not current at the end was attempted and never indexed as fetched |
| Leases.ReclaimableAfterTerm | internal/githubsync/change_sync_leases.go:175-179 | A lease can be taken exactly from its last heartbeat plus the smaller of TTL and staleness on |
| Leases.UnwrittenIsReclaimable | internal/githubsync/change_sync_leases.go:175-179 | A lease without an end or a heartbeat is free |
| Leases.TermInNumbers | internal/githubsync/change_sync_leases.go:36-56 | The term in numbers: the TTL up to a second, a second up to two, half the TTL but no less than a second up to a minute, half a minute from there on |
| Leases.IntervalInNumbers | internal/githubsync/change_sync_leases.go:204-212 | A heartbeat every sixth of the TTL, within 200 ms and 10 s |
| Leases.ReadingsAgree | internal/githubsync/change_sync_leases.go:228-241 | The readers' and the writers' idea of an active lease agree at all times exactly when the staleness each infers gives the same term; always for the manager's own TTL |
| Leases.MixedTTLsDisagree | internal/githubsync/change_sync_leases.go:228-241 | A lease that a reader sees as active while a manager with a shorter TTL may already take it |
| Leases.ThreeIntervalsSuffice | internal/githubsync/change_sync_leases.go:204-212 | Heartbeats less than three intervals apart keep every lease out of reach exactly for TTLs of at least 600 ms |
| Leases.RecoveryIsSafe | internal/githubsync/change_sync_leases.go:154-173 | Recovery clears a lease of its own TTL exactly when no reader sees it as active |
| Leases.RepoLeaseManager.Acquire | internal/githubsync/change_sync_leases.go:58-82 | Takes a lease that was never written, or whose last heartbeat is a term ago, and no other; then the caller owns it from now on for its TTL, and other kinds stay |
| Leases.RepoLeaseManager.Heartbeat | internal/githubsync/change_sync_leases.go:84-102 | Renews only a lease of this owner, otherwise nothing changes |
| Leases.RepoLeaseManager.Release | internal/githubsync/change_sync_leases.go:104-125 | Clears only a lease of this owner, otherwise nothing changes |
| Leases.RepoLeaseManager.ClearStaleKind | internal/githubsync/change_sync_leases.go:154-173 | Clears a lease that ended, never beat or beat too long ago; one without an end is left |
| Leases.RepoLeaseManager.RecoverStale | internal/githubsync/change_sync_leases.go:127-152 | Clears exactly the stale leases of all four kinds |
| Leases.RepoLeaseManager.BeginInventoryRefresh | internal/githubsync/inventory_refresh.go:76-136 | Takes the fetch lease exactly if no reader sees a fetch or a backfill at work, and touches no other |
| LeaseRuns.LiveLeaseNotTaken | internal/githubsync/change_sync_leases.go:58-82 | No step of another worker, acquire, manual refresh or recovery, changes a live lease |
| LeaseRuns.StepKeepsInv | internal/githubsync/change_sync_leases.go:58-179 | Every step keeps each running promise tied to the stored lease |
| LeaseRuns.RunKeepsInv | internal/githubsync/change_sync_leases.go:58-179 | The same over every interleaving of workers with one TTL |
| LeaseRuns.MutualExclusion | internal/githubsync/change_sync_leases.go:58-125 | At most one worker has time left on a lease of a kind, and it is the stored owner |
| LeaseRuns.FreeIffNobodyHolds | internal/githubsync/change_sync_leases.go:154-179 | In every reachable state acquire, readers and recovery agree on when a lease is free: exactly when no promise on it has time left |
| LeaseRuns.AcquireIffNobodyHolds | internal/githubsync/change_sync_leases.go:58-82 | After any run an acquire is granted exactly if nobody has time left on the lease, so that of a dead worker can be taken a term after its last heartbeat |
| LeaseRuns.RefreshIffNobodyHolds | internal/githubsync/inventory_refresh.go:76-136 | A manual refresh is granted exactly if that holds for scans and for backfills |
| LeaseRuns.OwnerIsServed | internal/githubsync/change_sync_leases.go:84-173 | After any run an owner's heartbeat renews its lease, its release frees it at once, and a recovery clears exactly the leases nobody holds |
| LeaseRuns.StaysLockedOut | internal/githubsync/change_sync_leases.go:84-125 | A worker that lost a lease does not become its owner until it acquires again |
| LeaseRuns.OldOwnerIsFenced | internal/githubsync/change_sync_leases.go:84-125 | After any run in which it did not reacquire, its heartbeats and releases change nothing |
| LeaseRuns.RenewingKeepsLease | internal/githubsync/change_sync_leases.go:204-212 | A worker that beats in time keeps its lease against all others, for TTLs of at least 600 ms |
| Repair.PageOf | internal/githubsync/repair_engine.go:85-103 | A page is the stretch of the list that its number and size say, shorter or empty at the end |
| Repair.FreshItems | internal/githubsync/repair_engine.go:105-123 | The length of the leading run that is not older than the cutoff |
| Repair.CutoffIsIncluded | internal/githubsync/repair_engine.go:105-143 | What was updated at the cutoff itself is kept |
| Repair.DefaultSizes | internal/githubsync/repair_engine.go:38-48 | A first page, a page limit or a page size that is not positive is 1, 2 or 100 |
| Repair.Store.UpsertIssue | internal/githubsync/service.go:773-821 | The stored time of an issue becomes the newer of the two; pull rows are untouched |
| Repair.Store.UpsertPullRequest | internal/githubsync/service.go:850-870 | The same for the pull row and, first, for its issue row |
| Repair.Metrics.constructor | internal/githubsync/repair_engine.go:38-40 | All counts start balanced and the pass at its start page |
| Repair.ScanRepairPullCandidates | internal/githubsync/repair_engine.go:105-123 | Keeps exactly the run before the first pull older than the cutoff; done if there is one or the page is empty |
| Repair.ScanRepairIssueCandidates | internal/githubsync/repair_engine.go:125-143 | The same for issues, of which only pull requests are kept |
| Repair.Metrics.CountPull | internal/githubsync/repair_engine.go:166-183 | A scanned pull is judged once as a pull and once for its issue row; the counts stay balanced |
| Repair.Metrics.CountIssue | internal/githubsync/repair_engine.go:205-213 | A scanned issue is judged once |
| Repair.Metrics.CountIssueRepair | internal/githubsync/repair_engine.go:241-249 | A repaired issue counts as one fetch, one repair and one write |
| Repair.Metrics.CountPullRepair | internal/githubsync/repair_engine.go:250-257 | The same for a pull |
| Repair.WhatIsPlanned | internal/githubsync/repair_engine.go:145-216 | A number is planned exactly if an item of it is not stored as new as listed, or not stored at all |
| Repair.NothingPlanned | internal/githubsync/repair_engine.go:145-216 | Nothing is planned if everything listed is stored fresh |
| Repair.DetectStalePulls | internal/githubsync/repair_engine.go:145-185 | Plans exactly the pulls whose stored row is missing or older and the issue rows that are missing, in order, and counts both |
| Repair.DetectStaleIssues | internal/githubsync/repair_engine.go:187-216 | Plans exactly the issues whose stored row is missing or older, and counts them |
| Repair.AppendUnseen | internal/githubsync/repair_engine.go:218-239 | The seen-set loop appends exactly the new numbers, once each |
| Repair.MergeRepairPlans | internal/githubsync/repair_engine.go:218-239 | The merged plan has the numbers of both plans, none twice |
| Repair.ApplyIssueRepairs | internal/githubsync/repair_engine.go:241-259 | Every planned issue is stored at least as new as fetched, and no row gets a time that upstream does not have; fails exactly at a number upstream does not have |
| Repair.ApplyPullRepairs | internal/githubsync/repair_engine.go:241-259 | The same for pulls |
| Repair.ApplyRepairPlan | internal/githubsync/repair_engine.go:241-259 | Both, issues first; no stored row gets older |
| Repair.AppliedPlanCoversPage | internal/githubsync/repair_engine.go:69-83 | Applying a plan that leaves out only what is stored covers the page it was drawn from |
| Repair.BuildRepairPullPlan | internal/githubsync/repair_engine.go:85-93 | The plan covers the fresh part of the pull page, and done says whether the page ended the list |
| Repair.BuildRepairIssuePlan | internal/githubsync/repair_engine.go:95-103 | The same for the issue page |
| Repair.RunPullRequestRepairPage | internal/githubsync/repair_engine.go:69-83 | A page without an error is covered on both lists and done exactly if both lists are; a page already covered costs no write |
| Repair.PageAdded | internal/githubsync/repair_engine.go:42-53 | A covered page extends the report of a pass by one page, or completes it |
| Repair.RunPullRequestRepairPass | internal/githubsync/repair_engine.go:38-67 | A pass covers every page up to where it stops, completes only at the first done page, otherwise says where to resume, and stores only times that upstream has |
| RepairRuns.CoveredUpToDonePage | internal/githubsync/repair_engine.go:38-54 | Pages covered from the first to a done one mean both lists are stored at least as new as listed, back to the cutoff |
| RepairRuns.CoverUnderLaterCutoff | internal/githubsync/change_sync.go:1145-1160 | Pages covered under one cutoff are covered under every later one |
| RepairRuns.RepairState.RequestRecentPRRepair | internal/githubsync/change_sync.go:222-252 | The row is pending unless a pass finished later than the request, and the next pass begins at the first page |
| RepairRuns.RepairState.StartRecentPRRepair | internal/githubsync/change_sync.go:858-875 | A row that is not pending starts at the first page and is pending from then on, a pending one stays as it is and goes on where it stopped |
| RepairRuns.RepairState.CompleteRecentPRRepairPass | internal/githubsync/change_sync.go:1254-1274 | The row is pending exactly if the pass was incomplete, the next pass begins where it stopped or at the first page, and only a complete one counts as a success |
| RepairRuns.RepairState.FinishRecentPRRepairWithError | internal/githubsync/change_sync.go:1363-1375 | The row is pending exactly if a request is not older than the failure; then the next pass begins at the stored page, otherwise at the first |
| RepairRuns.IncompletePassResumes | internal/githubsync/change_sync.go:1254-1274 | A finished pass is pending exactly when incomplete, and then resumes strictly further on, where it stopped |
| RepairRuns.PassExtendsSweep | internal/githubsync/change_sync.go:858-886 | A pass extends what is covered from the first page on, whatever happened to the row while it ran |
| RepairRuns.StepKeepsSwept | internal/githubsync/change_sync.go:858-886 | Requests at any moment, picks, starts, finished, failed and abandoned passes of several workers and writes of other lanes keep all pages before the stored one, and before every page in hand, covered |
| RepairRuns.RunKeepsSwept | internal/githubsync/change_sync.go:858-886 | The same over every run |
| RepairRuns.CompletedPassCoversAll | internal/githubsync/repair_engine.go:38-143 | After any run, a pass that reports completed leaves everything listed at or after its cutoff stored at least as new as listed |
| RepairRuns.PageBehindListsIsDone | internal/githubsync/repair_engine.go:105-143 | A page behind both lists is done; without a cutoff no other page is |
| RepairRuns.IncompletePassWithinLists | internal/githubsync/repair_engine.go:38-54 | An incomplete pass stopped within the lists, so resumed passes come to an end |
| RepairRuns.ProcessRecentPRRepair | internal/githubsync/change_sync.go:827-856 | The scheduled repair, with non-positive page sizes replaced by the default, is a run of pick, start and finish or failure |
| RepairRuns.RequestDuringPassIsDropped | internal/githubsync/change_sync.go:1254-1274 | A repair requested during a pass leaves no trace when that pass finishes: an incomplete pass also loses its restart at the first page |
| RepairRuns.RequestDuringFailingPass | internal/githubsync/change_sync.go:1363-1375 | Nor is it pending when the pass fails after it; only its page stays |
| RepairRuns.RunFullHistoryRepairLoop | internal/githubsync/change_sync.go:1204-1226 | The full-history loop covers every page it passes, and completed means both whole lists are covered |
| RepairRuns.RunFullHistoryRepairPass | internal/githubsync/change_sync.go:1172-1202 | The stored page never runs ahead of what is covered and goes back to the first after a completed pass; an error leaves it |
| TargetedQueue.BackoffGrows | internal/githubsync/change_sync.go:1559-1570 | A refresh that keeps failing is retried later and later |
| TargetedQueue.OrderIsStrictAndTotal | internal/githubsync/change_sync.go:1391-1428 | The order of the candidates has exactly one first row |
| TargetedQueue.FirstIsFreshOrDueFirst | internal/githubsync/change_sync.go:1391-1428 | An untried row is never passed over for a retry nor for one requested earlier, and a retry never for one due later |
| TargetedQueue.TargetedRefreshes.EnqueuePullRequestRefresh | internal/githubsync/change_sync.go:310-352 | A request resets attempts, retry time and parking and raises the flag; nothing for a number that is not positive |
| TargetedQueue.TargetedRefreshes.SelectEligible | internal/githubsync/change_sync.go:1391-1428 | Picks the first of the eligible rows in order, and none exactly if none is eligible or a repair is due |
| TargetedQueue.TargetedRefreshes.ClaimPicked | internal/githubsync/change_sync.go:1429-1448 | The conditional update asks for a free lease and nothing more; a claimed row is out of reach for the smaller of TTL and staleness and free from then on |
| TargetedQueue.TargetedRefreshes.AcquireNextTargetedRefresh | internal/githubsync/change_sync.go:1391-1465 | An uninterrupted acquire leases the first eligible row, which nobody can select or claim until its term is over, and raises the flag, or changes nothing |
| TargetedQueue.TargetedRefreshes.FinishTargetedRefresh | internal/githubsync/change_sync.go:1483-1539 | Row and flag after a refresh; the row only if the worker still owns it, the flag always by the query |
| TargetedQueue.StepKeepsRows | internal/githubsync/change_sync.go:1483-1539 | Attempts stay in 0 to 5, a row is parked exactly at 5 and has a retry time exactly at 1 to 4 |
| TargetedQueue.StepKeepsFlag | internal/githubsync/change_sync.go:1541-1557 | The flag is never down while something waits, equals the query after every request and every finish, and is up for nothing only while a worker is at work or after one died there until the next finish |
| TargetedQueue.RunKeepsInv | internal/githubsync/change_sync.go:1391-1539 | Both over every interleaving of requests and workers, dead ones and owners who lost their row included |
| TargetedQueue.HeldForTerm | internal/githubsync/change_sync.go:1429-1448 | A row is free exactly from its claim plus the term on |
| TargetedQueue.OneRefreshAtATime | internal/githubsync/change_sync.go:1391-1448 | Over every interleaving, of two workers between claim and finish on one pull request at most one has time left, and nobody can select or claim its row |
| TargetedQueue.FlagIsQueryWhenIdle | internal/githubsync/change_sync.go:1541-1557 | Whenever no worker is between claim and finish, and none died there since the last finish, the flag is the query |
| TargetedQueue.AcquireKeepsFlagExactIff | internal/githubsync/change_sync.go:1429-1465 | The last statement of an acquire leaves the flag equal to the query exactly if something waits at that moment |
| TargetedQueue.UninterruptedAcquireFindsWaiting | internal/githubsync/change_sync.go:1391-1448 | With nothing between select and claim something does: the row itself |
| TargetedQueue.StaleClaimRaisesFlag | internal/githubsync/change_sync.go:1429-1448 | A run in which a worker claims a row that another finished after it was selected, and the flag is up with nothing waiting; if that worker dies it stays up |
| TargetedQueue.RequestSurvivesFinish | internal/githubsync/change_sync.go:1483-1539 | A waiting request survives the finish of its refresh exactly if the worker had lost the row or failed for less than the fifth time |
| TargetedQueue.FinishDecidesRetry | internal/githubsync/change_sync.go:1483-1570 | The owner's finish frees the row; after the first to fourth failure it is eligible exactly 1, 5, 15 or 60 minutes later, after the fifth not until requested anew |
| TargetedQueue.RequestIsDueAtOnce | internal/githubsync/change_sync.go:310-352 | A request makes its row eligible at once if it is newer than the last completion and nobody holds the row, and changes no other |
| TargetedQueue.RequestDuringRefreshIsAbsorbed | internal/githubsync/change_sync.go:1483-1539 | A run in which a request made during a refresh is gone once that refresh succeeds |
| TargetedQueue.EnqueueKeepsFlagExact | internal/githubsync/change_sync.go:310-352 | The flag after a request equals the query exactly if the request is newer than the last completion or another row waits |
| GitParse.SplitNULTokens | internal/gitindex/service.go:1082-1092 | The non-empty stretches between NUL bytes, in order |
| GitParse.RenameOrCopyLetter | internal/gitindex/service.go:1258-1260 | A second path follows exactly after the letters R and C |
| GitParse.TokensRoundTrip | internal/gitindex/service.go:1082-1092 | NUL-terminated non-empty tokens come back as they were |
| GitParse.ParseRawZ | internal/gitindex/service.go:1129-1158 | The index-driven loop computes the recursive reading of the tokens |
| GitParse.RawRoundTrip | internal/gitindex/service.go:1129-1158 | For every list of records git can print, renames, copies and paths starting with a colon included, the parser returns the list |
| GitParse.RawParseIsStable | internal/gitindex/service.go:1129-1158 | On arbitrary bytes it returns only records git could have printed, save renames cut off before their second path; without those, printing and parsing again changes nothing |
| GitParse.ParseNumstatZ | internal/gitindex/service.go:1168-1203 | The index-driven loop computes the recursive reading of the tokens |
| GitParse.CountsRoundTrip | internal/gitindex/service.go:1205-1212 | Printed counts, binary dashes included, are read back |
| GitParse.CountsReadAs | internal/gitindex/service.go:1205-1212 | A dash on either side means binary content; other counts are read as signed numbers, what does not fit as the nearest that does and what is no number as 0 |
| GitParse.BinaryPrintsDashes | internal/gitindex/service.go:1205-1212 | Dashes are printed exactly for binary content |
| GitParse.TabMisparses | internal/gitindex/service.go:1168-1203 | A path with a tab on the line itself is read as another path, or as a rename |
| GitParse.NumstatRoundTrip | internal/gitindex/service.go:1168-1203 | The parser returns the printed records exactly when no path of a file that was not renamed holds a tab |
| TextFields.FieldsOfSpaced | internal/searchindex/service.go:805-820 | Words joined by single spaces are split back into the same words |
| SnapshotFiles.ListRawRecords | internal/gitindex/service.go:782-797 | One parsed file per raw path, the last record winning |
| SnapshotFiles.MeasureFile | internal/gitindex/service.go:798-818 | Counts, kind and a missing previous path are set in place |
| SnapshotFiles.MergeFileMetadata | internal/gitindex/service.go:782-820 | The in-place merge leaves the files that the two lists define |
| SnapshotFiles.MergeReadsBothLists | internal/gitindex/service.go:782-820 | A path has a file if either list names it, with status from the last raw and counts from the last numstat record |
| SnapshotFiles.StatusLetter | internal/gitindex/service.go:1241-1256 | The first letter of a git status decides, whatever score follows |
| SnapshotFiles.FileKindIs | internal/gitindex/service.go:1214-1239 | The kind of a file by its modes, binary content and what changed, exactly one of five |
| SnapshotFiles.MapSumTakesAny | internal/gitindex/service.go:360-369 | A sum over a map does not depend on the order of iteration |
| SnapshotFiles.PullRequestIndexedAs | internal/gitindex/service.go:360-369 | Oversized exactly above 5000 files or 200000 changed lines |
| SnapshotFiles.SetPullRequestFilesIndexMode | internal/gitindex/service.go:371-375 | Every file gets the mode and nothing else changes |
| SnapshotFiles.PullRequestFilesMixed | internal/gitindex/service.go:377-384 | True exactly if some file has a reduced mode |
| SnapshotFiles.ParseFileHunks | internal/gitindex/service.go:867-886 | Hunks are numbered in order and span exactly the lines of the patch on both sides |
| SnapshotFiles.ApplyFileDiffDetails | internal/gitindex/service.go:847-865 | A large file keeps its patch text but becomes path-only; counts never change |
| SnapshotFiles.ApplyPatchDetails | internal/gitindex/service.go:822-845 | The loop leaves the files with the patches in them |
| SnapshotFiles.PatchesReachFiles | internal/gitindex/service.go:822-865 | A file has the text of its last patch and, unless that is too large, exactly its hunks; it is fully indexed exactly if no patch of it is too large, and counts, status and modes never change; files no patch names stay as they are |
| SnapshotFiles.ReducedIffLargeDiff | internal/gitindex/service.go:377-384 | Some file is reduced exactly if a patch or the file it is for is too large |
| SnapshotFiles.IndexMergedFiles | internal/gitindex/service.go:338-358 | The mode after the merge: oversized, mixed or full |
| SnapshotFiles.LoadPullRequestIndexFiles | internal/gitindex/service.go:332-358 | From git output to files and mode: path rows only for an oversized diff, otherwise the merged files with their patches, mixed exactly if one is reduced |
| SnapshotFiles.NewNameFindsPath | internal/gitindex/service.go:1262-1267 | The new name of a patch leads back to its path exactly if that does not end in white space |
| SnapshotFiles.OldNameFindsPath | internal/gitindex/service.go:1262-1267 | The old name, used for removed files, does so exactly if in addition the path is not below a directory called b |
| SnapshotFiles.PatchPathFindsFile | internal/gitindex/service.go:829-832 | A patch belongs to the path of its new name, or of its old one for a removed file |
| SnapshotRows.PullRequestHunkRows | internal/gitindex/service.go:471-492 | One hunk row per hunk, in order |
| SnapshotRows.PullRequestFileRows | internal/gitindex/service.go:441-469 | A missing mode becomes full in place; hunk rows only for full files |
| SnapshotRows.EmitFile | internal/gitindex/service.go:424-437 | One file adds its row, its hunks and its numbers to the totals |
| SnapshotRows.PullRequestRows | internal/gitindex/service.go:415-439 | Every file is emitted once, whatever the order, and its missing mode set |
| SnapshotRows.EmissionTotals | internal/gitindex/service.go:415-439 | The counted totals are the sums over the emitted rows |
| SnapshotRows.EmissionRows | internal/gitindex/service.go:415-439 | There is one row for each file, saying what the file says |
| SnapshotRows.EmissionHunks | internal/gitindex/service.go:441-492 | Every hunk belongs to a fully indexed file and no path and index occur twice |
| SnapshotRows.EmissionConserved | internal/gitindex/service.go:386-413 | A snapshot that takes its totals from the loop agrees with its rows, which have distinct paths |
| SnapshotRows.BuildPullRequestSnapshotRows | internal/gitindex/service.go:386-413 | The snapshot agrees with its rows; a full one without any hunk is downgraded to path-only |
| SnapshotRows.PatchesReachRows | internal/gitindex/service.go:386-492 | Every file and every patch has a row, the row has the text of the last patch, and if it is fully indexed its hunk rows are exactly the hunks of that patch |
| SnapshotRows.SnapshotStore.WritePullRequestIndex | internal/gitindex/service.go:174-217 | Replacing snapshot and rows keeps every stored snapshot in agreement with its rows |
| SnapshotRows.SnapshotStore.MarkSnapshotFailed | internal/gitindex/service.go:1028-1060 | So does marking one failed: counts zero and no rows |
| SnapshotRows.SnapshotStore.CountSkippedSnapshotFiles | internal/githubsync/change_sync.go:502-509 | The number of rows that are not fully indexed |
| SnapshotRows.SnapshotStore.PathOnlyAndSkipped | internal/githubsync/change_sync.go:466-500 | The path-only count derived from the totals and the skipped count asked of the rows are the same number |
| SnapshotRows.RowsSumToMap | internal/gitindex/service.go:1276-1287 | The order of the rows does not matter to their sums, of additions and of deletions |
| SnapshotRows.ChangedAreAddedAndRemoved | internal/gitindex/service.go:360-369 | The changed lines that make a diff oversized are those added and those removed |
| SnapshotRows.MergedLines | internal/gitindex/service.go:798-818 | If numstat names no path twice, additions and deletions of the merged files add up to what it lists |
| SnapshotRows.BuildPullRequestIndex | internal/gitindex/service.go:319-358 | From git output to rows: the totals agree with the rows, additions and deletions are those numstat lists if it names no path twice, and unless the diff is oversized the rows hold the patches and their hunks |
| SnapshotRows.DiffLinesReachSnapshot | internal/gitindex/service.go:319-358 | Through printer, parsers, merge and rows the additions and the deletions of a diff arrive unchanged |
| Upserts.FoldIsNewest | internal/githubsync/service.go:804-812 | A number has a row exactly if something was delivered for it, and the row is a payload with the greatest github_updated_at |
| Upserts.FirstOfTieStays | internal/githubsync/service.go:804-812 | Of payloads that tie for the newest the first delivered stays |
| Upserts.WithoutTieOrderIsIrrelevant | internal/githubsync/service.go:804-812 | Without such ties reordering and repeating deliveries changes nothing |
| Upserts.OrderIsIrrelevantIffNoTie | internal/githubsync/service.go:804-812 | Reordering and repeating never changes the outcome exactly if no two different payloads for one number tie for the newest |
| Upserts.Projection.UpsertIssue | internal/githubsync/service.go:773-833 | The guarded upsert of an issue row |
| Upserts.Projection.EnsureIssueForPullRequest | internal/githubsync/service.go:1201-1240 | The issue a pull stands for, with the fields a pull does not bring copied from the stored issue |
| Upserts.Projection.UpsertPullRequest | internal/githubsync/service.go:850-870 | Issue row first, then the guarded upsert of the pull row |
| Upserts.PullsAreFoldOfPulls | internal/githubsync/service.go:850-870 | Whatever issue deliveries are mixed in, the pull table is the fold of the pull payloads |
| Upserts.IssueContentIsFoldOfAll | internal/githubsync/service.go:1201-1240 | Time and content of issue rows are the fold of what all deliveries bring, so they converge |
| Upserts.NewestIssueIsStoredWhole | internal/githubsync/service.go:773-812 | An issue payload newer than everything before it is stored whole, pulls mixed in or not |
| Upserts.CopiedFieldsDependOnOrder | internal/githubsync/service.go:1223-1239 | An issue and a newer pull leave the same issue row in both orders exactly if the issue has nothing to copy |
| Upserts.CopiedFromLastWrittenIssue | internal/githubsync/service.go:1201-1240 | After any mixed sequence the fields that only issues bring are those of the last issue payload newer than all deliveries for its number before it, and empty if there is none |
| Upserts.LastWrittenIsNewest | internal/githubsync/service.go:804-812 | What was written last is among the newest deliveries of its number |
| Upserts.CopiesIgnoreOrderIff | internal/githubsync/service.go:1201-1240 | Reordering and repeating never changes these fields of a number exactly if no issue payload has any or, where no pull payload is among the newest, the newest issue payloads agree on them |
| Upserts.ClosedAtFromLastSaid | internal/githubsync/service.go:1201-1240 | After any mixed sequence the closing time is that of the last written delivery that says one: an issue, a merged pull, or an open one, which clears it; a pull closed unmerged leaves it |
| Upserts.ClosingIgnoresOrderIff | internal/githubsync/service.go:1201-1240 | Reordering and repeating never changes the closing time of a number exactly if its newest deliveries agree on it, none is closed unmerged unless no delivery has one, and none is an open pull with a merge time unless nothing is older |
| RepoIdentity.ReleasedParts | internal/githubsync/service.go:737-740 | A released name has four parts, the second being the github_id it was taken from |
| RepoIdentity.ReleasedNameIsFree | internal/githubsync/service.go:693-703 | A released name equals no owner/repo name and no released name of another repository |
| RepoIdentity.Repositories.FindRepositoryByGitHubID | internal/githubsync/service.go:676-691 | The row with that github_id, if there is one |
| RepoIdentity.Repositories.FindRepositoryByFullName | internal/githubsync/service.go:676-691 | The row with that name, if there is one; refused by Postgres for a name with a NUL |
| RepoIdentity.Repositories.WriteRow | internal/githubsync/service.go:693-713 | A write is refused, changing nothing, exactly if another row has the name |
| RepoIdentity.Repositories.UpsertRepository | internal/githubsync/service.go:659-713 | Releases the name held by another repository and writes the claimant's row, or leaves everything as it was when the lookup or a write is refused |
| RepoIdentity.UpsertKeepsIds | internal/githubsync/service.go:659-713 | No row goes away and none changes its github_id |
| RepoIdentity.UpsertWritesClaim | internal/githubsync/service.go:659-713 | A claim that is not refused is stored as it came, and no other row changes but the name of the one it takes it from |
| RepoIdentity.FlattenedCharacter | internal/githubsync/service.go:737-745 | Slashes and spaces of a claimed name become underscores |
| RepoIdentity.ReleaseKeepsNames | internal/githubsync/service.go:693-703 | Releasing keeps all names apart |
| RepoIdentity.RefusedIff | internal/githubsync/service.go:659-713 | A claim of an owner/repo name is refused exactly if it holds a NUL and the database is Postgres or its cleaned form belongs to another repository; the release is never refused |
| RepoIdentity.NULNameIsRefused | internal/githubsync/service.go:659-674 | Rows on which a claim with a NUL is refused and the same claim without it is not |
| RepoIdentity.RunKeepsInv | internal/githubsync/service.go:659-713 | Over any sequence of claims github_id and full_name stay unique and a released name keeps saying whose it was |
| RepoIdentity.RowIdsAreStable | internal/githubsync/service.go:705-713 | A repository keeps the row it first got |
| RepoIdentity.UpsertMovesName | internal/githubsync/service.go:659-713 | A claim that is not refused moves the name to the claimant, frees the claimant's old name and leaves every other name where it is |
| RepoIdentity.NamesFollowClaims | internal/githubsync/service.go:659-713 | After any run the holder of a name is the latest to claim it that has not claimed another since, and nobody otherwise; refusals too follow from the claims alone |
| RefreshJobs.JobQueue.EnqueueRefresh | internal/refresh/service.go:42-126 | A job is created exactly if none for the target is pending or at work, and a live one is found afterwards exactly if there was one or the new one can be found |
| RefreshJobs.JobQueue.ClaimNextJob | internal/refresh/service.go:246-282 | Claims the due pending job requested first, with one attempt more and a lease, or changes nothing |
| RefreshJobs.ClaimLasts | internal/refresh/service.go:246-282 | A claimed job cannot be claimed or recovered, and is found at work, until its lease ends; from then on it can be recovered |
| RefreshJobs.NewJobIsDueAtOnce | internal/refresh/service.go:97-126 | A new bootstrap job can be claimed from its request on, a job of another type never |
| RefreshJobs.JobTypeForms | internal/refresh/service.go:67-73 | Types are trimmed and a blank one is a bootstrap |
| RefreshJobs.JobQueue.MarkSucceeded | internal/refresh/service.go:284-316 | Whatever its state was, no claim, recovery or request finds the job any more, its attempts stay, and it names the repository found |
| RefreshJobs.JobQueue.MarkFailed | internal/refresh/service.go:345-377 | Back to pending with a backoff if temporary and attempts are left, failed otherwise |
| RefreshJobs.FailureDecidesRetry | internal/refresh/service.go:345-377 | After a temporary failure with attempts left a bootstrap can be claimed again exactly 15 s, 1 or 5 minutes later; any other failure ends it |
| RefreshJobs.JobQueue.RecoverExpiredLeases | internal/refresh/service.go:747-783 | The read-then-write loop recovers exactly the expired jobs |
| RefreshJobs.RecoveryDecidesRetry | internal/refresh/service.go:747-783 | A recovered job with attempts left can be claimed at once, any other ended |
| RefreshJobs.WithoutLease | internal/refresh/service.go:747-783 | A job at work without a lease is judged by its start |
| RefreshJobs.JobQueue.SupersedeWebhookRefreshJobs | internal/refresh/service.go:733-745 | No webhook job can be claimed, recovered or found any more, none is failed, and jobs of other sources and finished ones stay as they are |
| RefreshJobs.StepKeepsInv | internal/refresh/service.go:246-377 | Attempts, limits and leases stay consistent, and only a claim changes the attempts, by one |
| RefreshJobs.ClaimsAreBounded | internal/refresh/service.go:246-377 | In every run, late workers included, a pending job has attempts left, a lease is set exactly while processing, and a job is claimed as often as it has attempts, at most three times |
| RefreshJobs.RecoveryLeavesNoExpired | internal/refresh/service.go:747-783 | After recovery no lease has run out; an expired job is pending exactly if it has attempts left and failed otherwise |
| RefreshJobs.LateReportOverwrites | internal/refresh/service.go:345-377 | A late temporary failure reopens a job exactly if it has attempts left, even a succeeded one |
| RefreshJobs.OnlyReportsReopen | internal/refresh/service.go:246-377 | Over every run a succeeded or superseded job stays so unless a worker reports on it |
| RefreshJobs.LeasedJobIsKept | internal/refresh/service.go:246-282 | Over every continuation of a run a claimed job stays at work under its lease, and is claimed by nobody else, unless it is reported on or superseded, or recovered after its lease ended |
| RefreshJobs.EnqueueLeavesLiveJob | internal/refresh/service.go:75-126 | After a request a live job is found exactly if one was before or the new job carries an id or a name without space around it; nothing is added exactly if one was before |
| RefreshJobs.PaddedNameAddsEveryTime | internal/refresh/service.go:42-126 | Two requests under a padded name that no lookup resolves leave two jobs |
| RefreshJobs.MergeKeepsLiveJobsIff | internal/refresh/service.go:522-552 | A merge of two tracked repositories loses no live job of the row merged away, whatever the jobs, exactly if that row had no repository id or one that requests for the other row look for too |
| RefreshJobs.MergeKeepsOwnJobs | internal/refresh/service.go:522-552 | It loses none of the row that stays |
| RefreshJobs.MergeLosesJob | internal/refresh/service.go:522-552 | A job from before its repository was tracked, which no request finds after the merge |
| RefreshJobs.MergeMovesExactly | internal/refresh/service.go:541-552 | A merge moves exactly the jobs of the two rows, in their ids and name only |
| SearchMatches.SortSearchMatches | internal/httpapi/changes_search.go:1094-1101 | Sorting rearranges the matches and drops none |
| SearchMatches.SortRanks | internal/httpapi/changes_search.go:1094-1101 | The result is ranked by score, then by higher number |
| SearchMatches.RankingIsUnique | internal/httpapi/changes_search.go:1094-1101 | With one match per pull request a set of matches has only one ranking |
| SearchMatches.SortAndTrimIsTop | internal/httpapi/changes_search.go:1094-1108 | Sorting and trimming yields the true top, the same whatever order the matches came in |
| PathSearch.PointsIgnoreOrder | internal/httpapi/changes_search.go:1004-1014 | The points of a pull request do not depend on the order of the file rows |
| PathSearch.PathSearchIsFunctionOfRows | internal/httpapi/changes_search.go:984-1002 | The trimmed ranking depends only on the multiset of file rows |
| PathSearch.NoisyPaths | internal/httpapi/changes_search.go:759-769 | Lock files in any directory and everything below a vendor or snapshot directory are noise, and nothing else is |
| PathSearch.BaseIsLastName | internal/httpapi/changes_search.go:759-769 | The last name of a path, whatever directory it is in |
| PathSearch.PathMatchTells | internal/httpapi/changes_search.go:984-1038 | Ten points a row that is no noise, six more for one renamed from a path asked for, two for each path asked for that is shared; a match exactly if there is such a row |
| PathSearch.PathAggregate.Update | internal/httpapi/changes_search.go:1004-1014 | Ten points a file, six more for a previous path asked for, and every path it shares |
| PathSearch.NewPathSearchMatch | internal/httpapi/changes_search.go:1016-1038 | Two points for each distinct shared path on top |
| PathSearch.AggregatePaths | internal/httpapi/changes_search.go:984-1000 | The aggregates hold exactly the pull requests with a file that is not noisy, with their points and shared paths |
| PathSearch.BuildPathSearchMatches | internal/httpapi/changes_search.go:984-1002 | One match for each of them |
| PathSearch.SearchByPaths | internal/httpapi/changes_search.go:905-928 | The answer is the top of those matches |
| RangeSearch.OverlapIsCommonLine | internal/httpapi/changes_search.go:1134-1148 | Two ranges overlap exactly if they have a line in common, 0 to 0 having none and a reversed range only its first |
| RangeSearch.SidesAreComparedApart | internal/httpapi/changes_search.go:1069-1148 | A hunk meets a range if either side has a line of it; two hunks overlap if they have a line in common on the same side |
| RangeSearch.RangeSearchIgnoresMapOrder | internal/httpapi/changes_search.go:1040-1067 | The trimmed ranking does not depend on the order of the map |
| RangeSearch.HitsAreOverlappingPairs | internal/httpapi/changes_search.go:1040-1067 | The overlap count is the number of pairs of a hunk and a range on one path that have a line in common on either side |
| RangeSearch.RangeMatchTells | internal/httpapi/changes_search.go:1040-1132 | Twenty points for each overlapping pair, the paths found, and the hunks met, in order |
| RangeSearch.AllHitsHold | internal/httpapi/changes_search.go:1040-1060 | Each pull request collects exactly its own hits, in order |
| RangeSearch.AddHunk | internal/httpapi/changes_search.go:1043-1058 | The inner loop adds a hunk once per range it meets |
| RangeSearch.BuildRangeSearchMatches | internal/httpapi/changes_search.go:1040-1067 | One match for each pull request with a hit |
| RangeSearch.SearchByRanges | internal/httpapi/changes_search.go:930-959 | The answer is the top of those matches, each scoring twenty per overlapping pair |
| RelatedHunks.CommonRangeIsIntersection | internal/httpapi/changes_search.go:887-893 | On both sides the matched range of two hunks holds exactly their common lines, and the whole range of the one where the other has none |
| RelatedHunks.ApplyRelatedHunkOverlap | internal/httpapi/changes_search.go:876-903 | The nested loops rescore a match by its overlapping hunks |
| RelatedHunks.RelatedCountsPairs | internal/httpapi/changes_search.go:850-903 | Grouping by path loses no pair: twenty points for every overlapping pair of hunks on one path |
| RelatedHunks.RelatedReports | internal/httpapi/changes_search.go:876-903 | One matched range for each overlapping pair, the paths they are on, and the reason exactly if there is one |
| RelatedHunks.GroupsHoldTheirOwn | internal/httpapi/changes_search.go:850-866 | The groups hold exactly the hunks of their path or pull request |
| RelatedHunks.RelatedIgnoresMapOrder | internal/httpapi/changes_search.go:850-874 | The trimmed ranking does not depend on the order of either map |
| RelatedHunks.RescoreCandidates | internal/httpapi/changes_search.go:850-866 | Every candidate is rescored by its own hunks |
| RelatedHunks.ScoreRelatedHunkCandidates | internal/httpapi/changes_search.go:850-874 | The answer is the top of the candidates with an overlapping hunk |
| FuzzySearch.NormalizeSearchText | internal/searchindex/service.go:913-928 | The builder loop leaves the lower-case words of the text, one space apart |
| FuzzySearch.NormalizeIsIdempotent | internal/searchindex/service.go:913-928 | Normalising twice is normalising once, and splitting the result gives the words |
| FuzzySearch.TrigramSet | internal/searchindex/service.go:1030-1041 | All stretches of three runes of the padded text |
| FuzzySearch.TrigramsOf | internal/searchindex/service.go:1030-1041 | The trigrams are exactly the stretches of three runes of the text with two spaces at each end |
| FuzzySearch.TrigramSimilarity | internal/searchindex/service.go:1012-1028 | Twice the shared trigrams over the trigrams of both |
| FuzzySearch.SimilarityBounds | internal/searchindex/service.go:1012-1028 | Symmetric, between 0 and 1, 1 exactly for equal trigram sets of non-empty texts and 0 exactly for disjoint ones or an empty text |
| FuzzySearch.FuzzyWindowSizes | internal/searchindex/service.go:822-837 | One word fewer than the query to two more, as far as the text goes |
| FuzzySearch.SizesInNumbers | internal/searchindex/service.go:822-837 | From one word below the query to two above, at least one and at most the text |
| FuzzySearch.BestFuzzyWindowScore | internal/searchindex/service.go:805-820 | The greatest of the starting score and all window similarities |
| FuzzySearch.FuzzyFieldScore | internal/searchindex/service.go:794-803 | 0 for an empty text or query, otherwise the best of the whole text and its windows |
| FuzzySearch.FuzzyScoreBounds | internal/searchindex/service.go:794-820 | The score is unique and between 0 and 1 |
| FuzzySearch.ContiguousWordsScoreOne | internal/searchindex/service.go:794-837 | A text with the words of the query in a row, whatever case and punctuation, scores exactly 1 |

## Left out

- Errors of the database, of GitHub and of git inside a transaction; a failed fetch is modelled where the code goes on after it.
- A scanner that lost its fetch lease but goes on: the commit is not fenced by owner, so runs have one scan at a time.
- Exclusion across lease kinds: an acquire checks only its own kind, so backfill passes and scans are serialised where counters and cursor are concerned.
- Lease clocks of different machines: times are read from one clock that does not go back.
- Ordering of rows by path in `pullRequestRows` and of distinct strings in search results: the sorting library is not modelled, rows come in some order and sorted lists of distinct strings are sets.
- InventoryStore.Store.ApplySnapshotFreshnessUpdates: updates snapshot by snapshot, where the code groups them by freshness into one statement each.
- RepairRuns.CompletedPassCoversAll: for upstream lists that stand still during the sweep and objects at least as new as listed; lists that shift between pages can hide an item.
- Backfill.RunSweep: with no other lane interleaved and at least one candidate attempted per pass.
- FuzzySearch.NormalizeSearchText: for any alphabet in which lower case stays lower case and no letter or number is white space, not for the Unicode tables themselves.
- The lookups of tracked and stored repositories behind a refresh request, and the columns a merge of tracked rows leaves on the row itself: their results are inputs.
- Whether a repair is due, as the clause of the targeted acquire computes it from the scheduling columns: its answer is an input, and the queue of one repository is modelled.
- White space outside ASCII in Go's string functions, and integers beyond 64 bits; counts printed by git are read with strconv's limits.
- Parsing and printing of patches by the diff library, commit bundles and their detail budgets, and ast-grep search.
- The SQL prefilters of the searches, search documents and their agreement with a rebuild, regex and full-text scoring, excerpts.
- Status endpoints, configuration, metrics, logging, retry jitter, HTTP and authentication.
- Columns that nothing here depends on, such as last_error, updated_at and the started and finished times of most lanes.
- Deletion of issues and repositories.
