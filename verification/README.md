# mainboard, modelled and proved

mainboard dispatches research jobs to queued hosts and rented machines. This project models the parts
of it whose correctness is spread over many steps or many functions, and proves what they are for:

- **The held line.** Keepers on login nodes race to open numbered generations of one interactive
  slot, fenced by a token and stopped by a file; each generation runs a server that claims queued
  jobs, watches for tombstones and leaves exit artifacts. `HeldKeepers` and `HeldSpool` are state
  machines whose actions are the atomic file effects, taken by any number of participants in any
  order with kills anywhere; `HeldServer` is the server's own code over such a spool, with everyone
  else acting between any two of its steps. `Walltime` is the text a wall is written in.
- **The batch receipts.** A journal is the only cursor. `Receipts` has its two readers, `latest` and
  the settlement index; `BatchWatch` and `WatchPass` are the watch, whose passes may die after any
  publish, and `WatchReports` says what a pass owes over log and registry alone; `BatchWaves` is the runner, working through one declared plan wave by wave.
- **What a job imports and what it loads.** `ImportWalk` is the static import walk, `ClosureGuard`
  what ships because of it and the import finder that enforces it, `InstalledExtensions` which compiled
  files an environment records for a package, `BlockedImports` two imports it turns away, `LibraryAudit` the replay of the dynamic loader over an
  environment's CUDA libraries.
- **Tokens, paths and repositories.** `CommandDelimiter` places the `--` a command line implies,
  `LintBatches` packs files into commands, `SourceRoots` narrows a listing over nested repositories,
  `RepositoryTree` acts on them bottom-up.
- **Prices and orders.** `Scorecard` is billing and the price of a useful hour over real numbers,
  `LaneOrders` the counterbalanced orders of an experiment's lanes.

`dafny verify dfyconfig.toml` checks the whole project.

## Where the code and what it says of itself differ

The model follows the code. Each of these has its own lemma, and beside it stands the one that says when
the promise does hold: exactly when, but for the spellings of a library, where the condition is sufficient.

- `Fence.CLAIMED` is documented as an allocation owning the entry. A second cancel of an entry, or a
  cancel after a release, prints it too, with no allocation anywhere (`HeldSpool.SecondCancelAnswersClaimed`,
  `HeldSpool.ClaimedMeansOwnedUnlessFenced`).
- `resolve` says the one root that holds a name answers it. A bare directory of that name under
  an earlier root hides the package (`ImportWalk.BareDirectoryHidesThePackage`, `ImportWalk.AnsweredByItsHolder`).
- An initializer at its own import root spells an import of one dot with an empty package, where Python
  has no package to be relative to (`ImportWalk.RootInitializerHasNoPackage`,
  `ImportWalk.InitializerNamesFollowTheLanguage`).
- The extensions of a bare module are looked up by its file's name. Where a distribution is itself called
  so, as `foo.py`, the module can defer under that name and its import is turned away; an ordinary bare
  module ships (`BlockedImports.BareModuleIsBlocked`, `ClosureGuard.BareModuleNeedsAClaim`,
  `ClosureGuard.EveryReachedModuleIsAdmitted`).
- A file that two nested import roots both reach is listed under one of them. When its package there
  defers, an import by the other name is turned away (`BlockedImports.OtherNameIsBlocked`,
  `ClosureGuard.EveryImportOfTheWalkIsAdmitted`).
- A need spelled `.` is admitted over everything that ships (`ClosureGuard.AdmittedNeedsSitOverNoCode`).
- `outermost` takes `.` and the empty root for the whole workspace, and a listing takes them for text: `.`
  beside `a` loses `a`, `.` alone lists nothing, and both spellings together lose everything
  (`SourceRoots.WorkspaceListsNothing`, `SourceRoots.ListingReachesWhatAWalkDoes`,
  `SourceRoots.WorkspaceBesideADirectory`, `SourceRoots.BothSpellings`, `SourceRoots.OutermostKeepsTheCover`,
  `SourceRoots.OutermostKeepsTheReach`).
- `_within` narrows nothing for the workspace when there are no roots (`SourceRoots.NarrowingTheWorkspace`).
- The scorecard's rule ranks an offer never measured behind another at the same rate that mostly
  delivered. A slow setup turns that around (`Scorecard.SlowSetupIsDearer`,
  `Scorecard.UnmeasuredRanksBehind`).
- A PASS of the library audit speaks of each file by the spelling it was first reached under
  (`LibraryAudit.OtherSpellingIsLeftOut`, `LibraryAudit.PassCoversEveryReachableLibrary`).
- `SettlementReceipts` takes a stream apart from its journal's batch. Its index is the replayed one while
  the two are the same, as they are in the one place that builds it
  (`src/mainboard/settling/monitor/settlement.py:260`), and not otherwise (`Receipts.KeptCurrentOnItsOwnStream`).

## Model

| member | source | states |
|---|---|---|
| Walltime.PrintedWallDecodes | src/mainboard/holding/line.py:303-304 | The wall the keeper prints decodes, by `walltime_seconds`, to exactly the seconds it was printed from, past a hundred hours too |
| Walltime.SpellingsAgree | src/mainboard/runtime/job.py:166-179 | The shell's division by 3600 and Python's two by 60 spell every wall alike, and reading either back gives the seconds |
| HeldKeepers.Newest | src/mainboard/holding/line.py:299-299 | The generation a keeper starts after: an existing one that no other exceeds, zero when there is none |
| HeldKeepers.OneKeeperInside | src/mainboard/holding/line.py:298-314 | Over any run of any keepers, with kills and refused `qsub`s, at most one keeper is inside a generation, and its directory is there |
| HeldKeepers.ServedIsNeverOpenedAgain | src/mainboard/holding/line.py:305-313 | Once `gen/n/alloc` exists it stays, and no keeper ever opens n again |
| HeldKeepers.FencedKeeperOpensAtMostOne | src/mainboard/holding/line.py:290-305 | A keeper whose token was replaced stays fenced and opens at most one generation more, none unless it had already passed its check |
| HeldKeepers.FreshTokenFencesAll | src/mainboard/holding/line.py:161-174 | Replacing `keeper.token` by a fresh token bounds every keeper there is by one further generation, whatever follows |
| HeldKeepers.ReleasedKeeperOpensAtMostOne | src/mainboard/holding/line.py:300-300 | After `stop` is written, and until the line is held again, each keeper opens at most one generation more |
| HeldKeepers.EveryAskFitsTheDeadline | src/mainboard/holding/line.py:301-308 | Every allocation ever asked for decodes to the rest of the line or to the cap, whichever is less, at the time its wall was computed, and so ends by the deadline |
| HeldKeepers.FinishesExactly | src/mainboard/holding/line.py:300-302 | A step finishes a keeper if and only if it is its own, at the stop check with `stop` there, at the token check with another token there, or at the clock with 300 seconds or fewer left |
| HeldKeepers.OpensTheNextFree | src/mainboard/holding/line.py:300-314 | A keeper that none of these ends opens, by its own steps alone, the least free number from its own on and asks for an allocation in it that fits |
| HeldKeepers.GoesOnAfterAnAllocation | src/mainboard/holding/line.py:310-310 | After an allocation answered in its generation it goes on with the next number |
| HeldKeepers.TriesAgainAfterARefusal | src/mainboard/holding/line.py:310-310 | After a refused `qsub` it takes its empty generation back and tries that number again |
| HeldKeepers.StartsAboveAll | src/mainboard/holding/line.py:298-299 | A keeper just started begins one above every generation there is |
| HeldKeepers.HeldAgainOpensAboveAll | src/mainboard/holding/line.py:155-183 | Holding a line again, released or not before, under a fresh token and with more than 300 seconds left: after the token, the script and the removal of `stop` the new keeper's own six steps open one above every generation there is and ask for an allocation that fits |
| HeldKeepers.OpensAnotherAfterAnAllocation | src/mainboard/holding/line.py:300-314 | When the `qsub` of a served generation returns to a keeper that nothing ends, it opens the least free number above and asks for an allocation in it |
| HeldKeepers.EveryRunOfALine | src/mainboard/holding/line.py:284-316 | All three invariants hold in every state reachable from an empty spool |
| HeldSpool.ExecutedAtMostOnce | src/mainboard/holding/serve.py:155-170 | Over any number of allocations sharing one spool a handle is executed at most once, its work ends at most once, and a work that ended left an exit artifact |
| HeldSpool.StepKeeps | src/mainboard/holding/serve.py:110-170 | Every single step of anyone keeps the account of a handle: one owner by the claim it linked, no start and no exit before that owner got there, nobody at work after the end |
| HeldSpool.RunKeeps | src/mainboard/dispatch/mirroring/spool.py:282-284 | The same account over every run |
| HeldSpool.TombstonedBeforeClaimNeverRuns | src/mainboard/holding/serve.py:168-169 | A handle tombstoned before its claim is never executed, whoever claims it afterwards |
| HeldSpool.CompletedExitStands | src/mainboard/holding/serve.py:117-123 | After a completed work its exit artifact is there and no later step of anyone changes it or completes it again |
| HeldSpool.FencedNeverRuns | src/mainboard/dispatch/enums.py:8-8 | A cancel that answered `fenced` means the entry never ran and never will |
| HeldSpool.ClaimedMeansOwnedUnlessFenced | src/mainboard/dispatch/enums.py:9-9 | After `claimed` the tombstone is there, and an allocation owns the entry if and only if no cancel and no release had fenced it |
| HeldSpool.CancelOnce | src/mainboard/dispatch/mirroring/spool.py:145-163 | From an empty spool, submitting and cancelling one entry leaves it tombstoned, with the center's claim, answered `fenced` |
| HeldSpool.SecondCancelAnswersClaimed | src/mainboard/dispatch/mirroring/spool.py:145-163 | A second cancel of a fenced entry answers `claimed` though no server ever existed |
| HeldSpool.CancelOfAnEnded | src/mainboard/dispatch/mirroring/spool.py:155-156 | A cancel of a job that left its exit answers `exited` and touches nothing else |
| HeldSpool.CancelOfTheRest | src/mainboard/dispatch/mirroring/spool.py:157-161 | Any other cancel, left alone, leaves a tombstone, takes the entry for the center where nobody has it, and answers `fenced` or `claimed` accordingly |
| HeldSpool.ReleaseSparesClaimed | src/mainboard/dispatch/mirroring/spool.py:228-249 | A release neither tombstones nor takes an entry an allocation owns |
| HeldSpool.ReleaseFencesTheUnclaimed | src/mainboard/dispatch/mirroring/spool.py:241-246 | A release leaves an unclaimed entry with the center's claim and a tombstone, and it never runs, whatever follows |
| HeldSpool.PicksExactlyTheQueued | src/mainboard/dispatch/mirroring/spool.py:312-319 | A server picks an entry if and only if it was submitted and has neither a claim nor a tombstone |
| HeldSpool.QueuedIsStarted | src/mainboard/holding/serve.py:133-138 | Left alone, a ready server with time left on a line not released takes a queued entry and starts it |
| HeldSpool.LooksByTheRelease | src/mainboard/holding/serve.py:106-108 | A ready server goes at its look if and only if the line is released or its time is over, and nothing else moves |
| HeldSpool.OpensAndRests | src/mainboard/holding/serve.py:133-140 | A new server with time left on a line not released that finds nothing queued is ready to look again, and nothing else moved |
| HeldSpool.OpensAndRestsOnly | src/mainboard/holding/serve.py:133-140 | Only a new server opens and only one that looked rests |
| HeldSpool.RunnersExitStands | src/mainboard/holding/serve.py:117-123 | The exit the runner left is the one a completed work leaves, whatever status its process ended with |
| HeldSpool.StatusStands | src/mainboard/holding/serve.py:117-123 | Where the runner left none, the status of the process is |
| HeldSpool.RunnerWritesExactly | src/mainboard/holding/serve.py:117-123 | A script whose server died may still leave its exit, and nothing leaves one before a script starts or after the server went |
| HeldSpool.TombstonedEndsWithout | src/mainboard/holding/serve.py:30-31 | A claimed entry that has its tombstone ends with 128 + SIGTERM and never starts |
| HeldSpool.ReleasedServerTakesAtMostOne | src/mainboard/holding/serve.py:106-108 | After a release, and until the line is held again, a server claims at most one entry more, none unless it had already asked |
| HeldServer.ForeignLeavesAlone | src/mainboard/holding/serve.py:155-170 | Whatever all others do, a server's place and the exit and history of what it works on do not move |
| HeldServer.Server.FinishedExactly | src/mainboard/holding/serve.py:106-108 | A server stops if and only if the line was released or two minutes from now reach the allocation's end or the line's deadline; no job that takes any time would end in time then |
| HeldServer.Server.Next | src/mainboard/holding/serve.py:110-115 | The first queued entry whose walltime and two minutes more are over by the allocation's end and by the line's deadline, None exactly when each overruns one of them |
| HeldServer.Server.Execute | src/mainboard/holding/serve.py:95-104 | The signals sent are exactly those of the turns before the process was over, and the status is the one that turn found |
| HeldServer.Server.SentAtTheFirstCause | src/mainboard/holding/serve.py:98-102 | Nothing is sent exactly when no turn was tombstoned or had reached the allocation's end or the line's deadline; otherwise one SIGTERM goes out at the first turn that had, and each SIGKILL more than sixty seconds after it |
| HeldServer.Server.KilledEachTurn | src/mainboard/holding/serve.py:101-102 | Every later turn more than sixty seconds after the SIGTERM sends a SIGKILL |
| HeldServer.Server.KilledOnlyPastItsPromise | src/mainboard/dispatch/mirroring/spool.py:294-296 | A job that fitted when picked and has no tombstone is sent no signal before its walltime and grace are over |
| HeldServer.Server.Record | src/mainboard/holding/serve.py:117-123 | Completes the work once, leaving the runner's exit if it wrote one and the status otherwise, with others acting between the look and the write |
| HeldServer.Server.Work | src/mainboard/holding/serve.py:155-170 | With others acting before each of its steps: a lost claim is someone's, a won one is owned by this server, ends once and has exit 143 if never started, else the runner's exit or the process's status |
| Receipts.NewestIsNewest | src/mainboard/batch/receipts.py:185-187 | The newest wanted line has the latest time and, of equal times, arrived last; there is none exactly when nothing is wanted |
| Receipts.LatestLoop | src/mainboard/batch/receipts.py:189-195 | The loop over a dictionary builds the map the specification gives |
| Receipts.LatestIsNewest | src/mainboard/batch/receipts.py:182-195 | Job by job `latest` holds the newest line of the topics asked for, or nothing when there is none |
| Receipts.LatestIgnoresDelivery | src/mainboard/batch/receipts.py:185-187 | Any reordering and any redelivery leaves `latest` unchanged while times are distinct per job |
| Receipts.FallsExactly | src/mainboard/batch/receipts.py:138-156 | Only state and evidence lines are indexed, under their job and under the handle, target and submission time they name |
| Receipts.ReplayExactly | src/mainboard/batch/receipts.py:106-112 | A replay has exactly the lines of its batch |
| Receipts.IndexIsNewest | src/mainboard/batch/receipts.py:149-156 | Under each key the index holds the newest line of the job, or of that one submission and no other run |
| Receipts.IndexAgreesWithLatest | src/mainboard/batch/receipts.py:158-162 | Per job the index answers what `latest` answers |
| Receipts.KeptCurrentOnItsOwnStream | src/mainboard/batch/receipts.py:164-165 | Folding in a published line gives the replayed index if and only if the line's stream is the journal's batch or its topic is not tracked |
| Receipts.SettlementReceipts.constructor | src/mainboard/batch/receipts.py:142-147 | The index built is that of a replay |
| Receipts.SettlementReceipts.Get | src/mainboard/batch/receipts.py:158-162 | While the index is the replayed one, `get` answers the newest line of the log for the job or the submission |
| Receipts.SettlementReceipts.Publish | src/mainboard/batch/receipts.py:164-174 | One line is appended and joins the index, which stays equal to the replayed one exactly on the journal's own stream or for a topic not tracked |
| WatchReports.SettledMovesNowhere | src/mainboard/dispatch/jobs/vocabulary.py:48-88 | A word is settled if and only if the table of moves lets it move nowhere |
| WatchReports.PassReports | src/mainboard/batch/watch.py:137-159 | For the newest answer of any job, with the registry's word on its run (running where empty, unknown without a record, vanished when refused, held when held): its row shows that word, a state line goes out exactly when the last one says otherwise, and a cost and then a settling with that word exactly when it is settled and the last settling is of another run |
| WatchReports.RowTells | src/mainboard/batch/watch.py:137-159 | The target, state and detail of a row are those of the answer for a refused and a held job, and those of the registry and the sweep for a submitted one |
| WatchReports.SkippedTells | src/mainboard/batch/watch.py:236-243 | The row of a job skipped and never offered has the target and the reason of its newest skip |
| WatchReports.LinesTell | src/mainboard/batch/watch.py:250-281 | A state line carries the state beside handle and word, a settling the detail |
| WatchReports.PassSaysNoMore | src/mainboard/batch/watch.py:236-240 | A job no target answered about has no line published |
| WatchReports.PassCloses | src/mainboard/batch/watch.py:161-178 | The pass ends with a closing line over all the rows if and only if it settles something and every row is over |
| WatchReports.CountsAre | src/mainboard/batch/watch.py:168-178 | The closing line counts the rows, those that read ok, those that read skipped, and all others as failed |
| BatchWatch.Jobs | src/mainboard/batch/watch.py:236-239 | Exactly the jobs the topics speak of, each once |
| BatchWatch.CountsAddUp | src/mainboard/batch/watch.py:161-178 | The ok, failed and skipped counts of a closing line add up to its jobs |
| BatchWatch.OfPass | src/mainboard/batch/watch.py:250-281 | Of everything a pass publishes, a job's lines are those of its own row, and none when it was never offered |
| BatchWatch.RunsAdmit | src/mainboard/batch/watch.py:250-281 | The runs leave nothing out: whatever a pass has next is published at any time not before the last line, and any line of anyone else arrives that is not of the watch's topics and submits no handle its job had before |
| BatchWatch.RunSound | src/mainboard/batch/watch.py:250-281 | Every publish, death and arriving answer keeps the account of one run: what the pass under way still owes it, against what the log already says |
| BatchWatch.SettledOnceAfterItsCost | src/mainboard/batch/watch.py:250-281 | Over any passes, each dying after any of its publishes, a nonempty handle has at most one `job.settled` line, a `job.cost` of that run before it and none after it |
| BatchWatch.QuietAfterAPass | src/mainboard/batch/watch.py:161-178 | A pass over the same registry and offers after a completed one publishes nothing, no `batch.closed` either |
| WatchPass.Watch.Record | src/mainboard/batch/watch.py:250-281 | Publishes exactly the state line a moved row owes, then cost and settled when it settles, and says whether it did |
| WatchPass.Watch.RecordAll | src/mainboard/batch/watch.py:240-240 | Every row recorded in order against the log as it was before the pass, and whether any settled |
| WatchPass.Watch.Close | src/mainboard/batch/watch.py:161-178 | The closing line with its counts exactly when something settled and nothing is in flight |
| WatchPass.Watch.Once | src/mainboard/batch/watch.py:229-248 | The journal grows by exactly what the pass owes and the status has the offered jobs' rows, the left-out ones and the number in flight; over log and registry alone, every answered job's row and lines are those its newest answer and the registry's word call for |
| WatchPass.InFlightCounts | src/mainboard/batch/watch.py:244-244 | The number in flight is that of the rows whose verdict is not settled |
| WatchPass.BillSplitsTheWall | src/mainboard/batch/watch.py:81-102 | After any passes and arrivals, a run caught running splits its wall into a setup and a run, neither negative |
| WatchPass.BillIsPriced | src/mainboard/batch/watch.py:199-202 | A run is billed its newest quoted rate over the hours since its submission, beside what was expected |
| WatchPass.BillIsSplit | src/mainboard/batch/watch.py:87-102 | Its setup ends and its run begins at the first line that says it is running |
| WatchPass.BillUnobserved | src/mainboard/batch/watch.py:210-212 | Without such a line nothing was observed |
| BatchWaves.Batch.Open | src/mainboard/batch/runner.py:139-152 | The announcement is published exactly when the stream is empty |
| BatchWaves.AnnouncedFirst | src/mainboard/batch/runner.py:139-170 | Of the lines a wave adds to the stream the announcement is the first and only when nothing was said before; the others are answers and skips, all of this batch and by the clock |
| BatchWaves.Batch.Dispatch | src/mainboard/batch/runner.py:84-111 | One answer per chosen job in plan order: submitted, refused or held |
| BatchWaves.Batch.Skip | src/mainboard/batch/runner.py:172-181 | One skip per job the selection leaves out, in plan order |
| BatchWaves.Batch.Run | src/mainboard/batch/runner.py:158-170 | A wave publishes announcement, answers and skips and nothing else, and a pattern naming nothing refuses it whole |
| BatchWaves.OfferDraft | src/mainboard/batch/runner.py:93-129 | A job taken is submitted with its handle, one refused is refused and one refused for a full quota is held, each with the target's reason |
| BatchWaves.SelectionIs | src/mainboard/batch/spec.py:98-119 | A selection names a job if and only if it has no patterns or one matches, and is refused if and only if some pattern matches no declared job |
| BatchWaves.WaveDrafted | src/mainboard/batch/spec.py:98-119 | A wave answers for a job if and only if it is declared and chosen, and skips it if and only if declared and not chosen |
| BatchWaves.StreamHolds | src/mainboard/batch/runner.py:158-181 | After any waves, with other lines in between, the stream has an answer for exactly the declared jobs some wave was over, and a skip for exactly those some wave left behind |
| BatchWaves.StatusIsComplete | src/mainboard/batch/watch.py:236-243 | After any waves the status has exactly one row per declared job and none for another, and a row reads skipped exactly when no wave ever offered the job |
| BatchWaves.PostedJoinsTheStream | src/mainboard/batch/receipts.py:106-112 | What a verb publishes onto the shared journal is what a replay adds to the batch's stream |
| BatchWaves.WaveByWave | src/mainboard/batch/runner.py:158-170 | The same of the code: `run` for each wave over the shared journal, others' lines in between, then `once`, answers a complete status |
| ImportWalk.ModuleNamesFollowTheLanguage | src/mainboard/jobs/walker.py:40-52 | For a module, any number of dots resolves as section 5.7 of the Python Language Reference says, None past the top package |
| ImportWalk.InitializerNamesFollowTheLanguage | src/mainboard/jobs/walker.py:102-111 | For an initializer, any number of dots resolves relative to its own package as section 5.7 says if and only if it is not at its own import root or there is more than one dot |
| ImportWalk.RootInitializerHasNoPackage | src/mainboard/jobs/walker.py:106-109 | The witness: one dot at an import root gives `.x` where the language gives nothing |
| ImportWalk.ImportedExactly | src/mainboard/jobs/walker.py:54-82 | A name is imported by a module if and only if some import node has it, some from-import has it as its base or as its base and one of its names but the star, or some dynamic call passes it as an absolute literal |
| ImportWalk.StemOfSuffix | src/mainboard/jobs/walker.py:91-92 | What a suffix replaces is what follows the last dot of a name, when something other than dots precedes it |
| ImportWalk.StemTakesASuffix | src/mainboard/jobs/walker.py:91-92 | And nothing else is ever taken off a name |
| ImportWalk.ChainExactly | src/mainboard/jobs/walker.py:84-95 | A name stands under a root if and only if every step down does, and leads to exactly the initializers on the way and the module at its end |
| ImportWalk.RefusedExactly | src/mainboard/jobs/walker.py:137-144 | A name is refused if and only if two roots hold a package or a module of its top |
| ImportWalk.ResolvedByTheFirst | src/mainboard/jobs/walker.py:145-152 | Otherwise the first root it stands under answers, and nothing when it stands under none |
| ImportWalk.Chain | src/mainboard/jobs/walker.py:84-95 | The loop finds the chain of package files the specification gives, None where it breaks |
| ImportWalk.AnsweredByItsHolder | src/mainboard/jobs/walker.py:129-152 | The one root holding a name answers it if and only if every root searched before breaks the chain |
| ImportWalk.BareDirectoryHidesThePackage | src/mainboard/jobs/walker.py:145-152 | A bare directory under an earlier root makes a held package resolve to nothing |
| ImportWalk.ResolvesToFiles | src/mainboard/jobs/walker.py:84-95 | Everything a name resolves to is a file of the workspace |
| ImportWalk.FreshHolds | src/mainboard/jobs/walker.py:119-124 | A turn adds exactly what it found that was not listed, each path once |
| ImportWalk.WalkingOn | src/mainboard/jobs/walker.py:118-126 | A turn keeps every listed module pending or expanded, and lists a new file or shrinks the pending |
| ImportWalk.Reach | src/mainboard/jobs/walker.py:113-127 | It terminates; when it does not refuse: start first, each path once, a chain of imports to each, and every name the syntax of a listed module imports resolves only to listed paths; it refuses only over a reachable module that cannot be read or imports a name two roots hold |
| ImportWalk.ImportsBySyntax | src/mainboard/jobs/walker.py:113-127 | One import of such a chain is a node that names what the target answers to |
| InstalledExtensions.RecordedExtensions | src/mainboard/engines/compile/backend/pixi/repair.py:31-58 | The extensions of the first distribution that provides the name, by its declared or recorded roots, else of the first called so, else none |
| InstalledExtensions.ExtensionsNeedAClaim | src/mainboard/engines/compile/backend/pixi/repair.py:52-92 | A name has a claimant if and only if some distribution provides it or is called so, and no extensions without one |
| InstalledExtensions.RecordedExactly | src/mainboard/engines/compile/backend/pixi/repair.py:31-92 | What is recorded for a name is exactly the `.so` and `.pyd` files of the first distribution that gives it, by what it declares or else by its top directories and lone modules, and where none gives it of the first called so |
| ClosureGuard.Compiled | src/mainboard/jobs/closure.py:231-245 | Outside exactly when some extension recorded under the directory's name lies outside it; otherwise all of them ship |
| ClosureGuard.OutsideExactly | src/mainboard/jobs/closure.py:237-245 | A package defers if and only if some extension recorded under its directory's name is not a file inside it |
| ClosureGuard.InsideExactly | src/mainboard/jobs/closure.py:244-245 | What is built into a package are the files its extensions lead to inside it |
| ClosureGuard.ShipPackage | src/mainboard/jobs/closure.py:149-156 | One turn takes the shipment of some packages to that of one more |
| ClosureGuard.Shipped | src/mainboard/jobs/closure.py:127-157 | Three sets grown in a loop are the own files, the kept sources and extensions of the packages that do not defer, and the deferred names |
| ClosureGuard.ShipsExactly | src/mainboard/jobs/closure.py:127-157 | A file ships if and only if some reached module's own file is it, or the package some reached module draws does not defer and keeps or built it |
| ClosureGuard.BuiltExactly | src/mainboard/jobs/closure.py:155-156 | What is marked as built is exactly the extensions inside the packages that ship |
| ClosureGuard.DefersExactly | src/mainboard/jobs/closure.py:152-153 | A name is deferred if and only if it is the last component of some reached module's package that defers |
| ClosureGuard.BlockedExactly | src/mainboard/jobs/call.py:95-136 | Both hooks turn a file away under a name if and only if the workspace defines the name's top, nothing reached and nothing else ships the file, and no deferring package is called so |
| ClosureGuard.StepsAsideExactly | src/mainboard/jobs/call.py:111-113 | The finder steps aside if and only if the name's top is not the workspace's or is deferred |
| ClosureGuard.RefusesExactly | src/mainboard/jobs/call.py:102-136 | Of the others it refuses exactly what is not found, is in the tree and not in the closure, or is neither in the tree nor installed |
| ClosureGuard.DefinedExactly | src/mainboard/jobs/closure.py:317-341 | A name is the workspace's if and only if a root has a directory of it that imports as a package, or the file of a bare module |
| ClosureGuard.FirstPartyExactly | src/mainboard/jobs/closure.py:206-209 | What the roots define together is what one of them does |
| ClosureGuard.IdentifierExactly | src/mainboard/jobs/closure.py:332-332 | Over ASCII an identifier is not empty, has letters, underscores and digits only, and no digit first |
| ClosureGuard.EveryReachedModuleIsAdmitted | src/mainboard/jobs/call.py:95-136 | A module the walk reached is turned away if and only if it is bare, its package defers, nothing else ships it and no deferring package has its name; every other one is let in by both hooks |
| ClosureGuard.BareModuleNeedsAClaim | src/mainboard/jobs/closure.py:238-245 | A bare module defers only where some distribution claims its file name, suffix and all, so an ordinary one ships |
| ClosureGuard.ResolvedUnderItsName | src/mainboard/jobs/walker.py:129-152 | Every file a name resolves to lies under the root that answered and has the name's top-level component as its own |
| ClosureGuard.EveryImportOfTheWalkIsAdmitted | src/mainboard/jobs/call.py:95-136 | From walk to running job, under an import's name and every parent of it: the file it leads to is listed, and is turned away if and only if the package it was listed in defers, it was listed under another root or is bare, nothing else ships it and no deferring package has the name's top |
| BlockedImports.WalkIsClosed | src/mainboard/jobs/walker.py:113-152 | The witness's walk: a job that imports one file by both of its names and a bare module has exactly those listed, with nothing left to list |
| BlockedImports.ListedUnderTheLast | src/mainboard/jobs/walker.py:119-126 | In one turn the file both names lead to is listed once, under the root of the last of them |
| BlockedImports.DefinesBoth | src/mainboard/jobs/closure.py:317-341 | The names that workspace defines, computed from its files, hold the portion and the bare module the job asks for |
| BlockedImports.OtherNameIsBlocked | src/mainboard/jobs/call.py:95-126 | Under the guard computed from all of it, where the inner root's package defers, the import by the outer root's name is turned away |
| BlockedImports.BareModuleIsBlocked | src/mainboard/jobs/closure.py:261-265 | Under the guard computed from the same walk, where a distribution called `foo.py` holds an extension of its own, `import foo` is turned away |
| ClosureGuard.OutermostCovers | src/mainboard/jobs/closure.py:247-259 | The needs kept cover exactly what all needs cover, and none lies beneath another |
| ClosureGuard.AdmittedExactly | src/mainboard/jobs/closure.py:217-229 | Needs are admitted if and only if no shipped file is or lies under one of them, the workspace itself aside |
| ClosureGuard.AdmittedNeedsSitOverNoCode | src/mainboard/jobs/closure.py:217-229 | Admitted needs sit over no shipped file if and only if none is the workspace itself or nothing ships |
| LibraryAudit.Find | src/mainboard/libs/loader.py:76-97 | By the RPATH if and only if there is no RUNPATH and a directory of it has the name, else by the library path, else by the RUNPATH, else by the cache, else by a default directory, each time the first that has it; None if and only if none has |
| LibraryAudit.AnswersExactly | src/mainboard/libs/audit.py:119-150 | A library asks for exactly the family names it links against and those it may open, and each is answered by that precedence |
| LibraryAudit.FirstSpellingsAreFirst | src/mainboard/libs/audit.py:326-330 | Of any paths the first spellings are exactly those with no other spelling of their file before them, and they cover every file |
| LibraryAudit.Resolutions | src/mainboard/libs/audit.py:315-334 | It terminates; what is read is the first spelling of each real file in what was installed followed by what each library read in turn finds, each installed or found by one read before, and everything queued is read; the resolutions are all of their answers |
| LibraryAudit.ReachedIsRead | src/mainboard/libs/audit.py:326-333 | What is read is exactly what an exploration of the machine reaches, defined apart from any reading: always the first file not reached yet, by its first spelling |
| LibraryAudit.ReachedIsLoaded | src/mainboard/libs/audit.py:315-319 | A chain of answers leads to every library reached, each library on it asked by the spelling first reached |
| LibraryAudit.PassesExactlyWhenClean | src/mainboard/libs/audit.py:225-264 | The verdict is PASS if and only if no resolution clashes, the releases of each family agree pairwise and the wheels name one CUDA major |
| LibraryAudit.FailsExactly | src/mainboard/libs/audit.py:336-353 | The verdict is FAIL if and only if the first clash of some name is a linked one found nowhere, the host supplies a release that contradicts another of its family, or two CUDA majors are named |
| LibraryAudit.FindingsExactly | src/mainboard/libs/audit.py:225-287 | The findings are exactly: of the first clash of each name, missing and failing when nothing answers it, outside and a warning when the host does; of each family whose releases in play contradict one another, failing when the host supplies one; of wheels of two CUDA majors, failing |
| LibraryAudit.InPlayExactly | src/mainboard/libs/audit.py:225-249 | What is in play of a family is the environment's releases and those of the host's files whose first number is one the environment has |
| LibraryAudit.AgreeIsPrefix | src/mainboard/libs/audit.py:248-248 | Two releases agree if and only if one begins with the other |
| LibraryAudit.PassIsSound | src/mainboard/libs/audit.py:299-353 | After a PASS every library read gets every family soname it links from inside the environment, and all releases agree |
| LibraryAudit.PassCoversEveryReachableLibrary | src/mainboard/libs/audit.py:299-353 | After a PASS every library such a chain leads to was reached, and under its first spelling loads its families inside |
| LibraryAudit.PassCoversEverySpelling | src/mainboard/libs/audit.py:315-334 | Where no two spellings a process may load differ to the loader, that holds of every spelling it may load |
| LibraryAudit.OtherSpellingIsLeftOut | src/mainboard/libs/audit.py:328-330 | Where they do, everything can be read in turn and nothing clash while a second spelling a process loads finds a library missing |
| LibraryAudit.Audit | src/mainboard/libs/audit.py:299-353 | The worklist and the findings in one call: what is read is exactly what is reached, in turn; PASS if and only if nothing clashes in it, releases agree and one CUDA major is named, and then every library a chain leads to loads inside |
| CommandDelimiter.CommandAt | src/mainboard/cli.py:194-212 | The scan finds the start the specification gives, None for a delimited, commandless or undeclared line |
| CommandDelimiter.ReadsBefore | src/mainboard/cli.py:200-212 | Before the command stand exactly declared options with their value counts and the leading positionals |
| CommandDelimiter.PlacedExactlyAtTheCommand | src/mainboard/cli.py:194-246 | The delimiter goes at a position if and only if the grammar has the command start there |
| CommandDelimiter.DelimitsItselfExactly | src/mainboard/cli.py:223-238 | A line delimits itself if and only if its target is a `.py` file and up to its first `--` stand an option at least and declared ones only |
| CommandDelimiter.OptionExactly | src/mainboard/cli.py:305-307 | An option is a dash and something after it |
| CommandDelimiter.NameEndsAtEquals | src/mainboard/cli.py:240-246 | An option's name ends at its first `=`, or with the word |
| CommandDelimiter.SkippedExactly | src/mainboard/cli.py:240-246 | A declared option spans one token with its value inline, else one and the values it is declared with; an undeclared one none |
| CommandDelimiter.FileEndsAtSeparator | src/mainboard/cli.py:233-233 | A target's file ends at its first `::` |
| CommandDelimiter.DelimitedExactly | src/mainboard/cli.py:214-221 | The delimiter is put in front of the one command the grammar gives, and nowhere when it gives none |
| CommandDelimiter.UndeclaredOptionLeavesTheLine | src/mainboard/cli.py:240-246 | An undeclared option met before the command leaves the line as it was |
| CommandDelimiter.PlacedOnce | src/mainboard/cli.py:214-221 | At most one `--` is inserted, the command stays verbatim, and placing twice is placing once |
| CommandDelimiter.LinePlacedOnce | src/mainboard/cli.py:279-291 | Over a whole line with its verb, placing twice is placing once when no command is named `--` |
| CommandDelimiter.LinePlacedExactly | src/mainboard/cli.py:279-291 | Over a whole line the words that name the verb stay, and what follows is delimited exactly when the verb takes a command |
| LintBatches.Batches | src/mainboard/lint/linter.py:92-113 | Every existing file once and in order, no empty batch, every multi-file batch within the budget, in the fewest commands of any such split |
| LintBatches.PackingStaysFewest | src/mainboard/lint/linter.py:104-112 | One more name packed greedily keeps the split shortest, with the shortest last batch among the shortest |
| LintBatches.ExistingExactly | src/mainboard/lint/linter.py:104-107 | The names packed are as many as the files that exist, each after exactly those before it |
| LintBatches.ObeysExactly | src/mainboard/lint/linter.py:108-112 | More than one file goes in a batch if and only if their names with a space between each two take fewer than 24000 characters |
| SourceRoots.KeptRootsStandApart | src/mainboard/dispatch/ignores.py:87-98 | No kept root lies under another and none is kept twice |
| SourceRoots.KeptInOrder | src/mainboard/dispatch/ignores.py:89-93 | The kept roots stand in the order their spellings first come in |
| SourceRoots.StripsSlashes | src/mainboard/dispatch/ignores.py:89-89 | A root is spelled without the slashes at its ends, and with all the rest |
| SourceRoots.UnderIsByParts | src/mainboard/dispatch/ignores.py:371-374 | Lying under a root as text is lying under it part by part |
| SourceRoots.KeptTextCovers | src/mainboard/dispatch/ignores.py:371-374 | A listing's path lies under a kept root if and only if it lies under some root and under every root that is the whole workspace, all read as text |
| SourceRoots.OutermostKeepsTheCover | src/mainboard/dispatch/ignores.py:87-98 | For a listing the kept roots cover exactly what all roots cover if and only if every root lies, as text, under each that is the whole workspace; so whenever none is |
| SourceRoots.WorkspaceBesideADirectory | src/mainboard/dispatch/ignores.py:302-304 | The witness: `.` beside `a` keeps `.` alone, under which a listing has nothing of `a` |
| SourceRoots.OutermostKeepsTheReach | src/mainboard/dispatch/ignores.py:303-306 | For a walk without version control, which visits everything from `.`, nothing is lost if and only if the workspace is not spelled both ways |
| SourceRoots.ListingReachesWhatAWalkDoes | src/mainboard/dispatch/ignores.py:303-307 | A listing under the outermost roots holds what a walk from all of them visits if and only if none is the whole workspace |
| SourceRoots.WorkspaceListsNothing | src/mainboard/dispatch/ignores.py:371-374 | The witness: from `.` alone a walk visits `a` and a listing holds nothing of that name |
| SourceRoots.BothSpellings | src/mainboard/dispatch/ignores.py:93-97 | Spelled both ways, the workspace drops every root |
| SourceRoots.NarrowingIsExact | src/mainboard/dispatch/ignores.py:138-149 | A path of a nested repository lies under the roots if and only if the repository is asked and its pathspecs show the path |
| SourceRoots.NarrowingTheWorkspace | src/mainboard/dispatch/ignores.py:144-145 | For the workspace itself that holds if and only if there are roots |
| SourceRoots.NarrowedShowsTheSame | src/mainboard/dispatch/ignores.py:245-249 | Leaving a submodule's pathspecs to the submodule hides no file of the repository itself |
| SourceRoots.Tracked | src/mainboard/dispatch/ignores.py:309-340 | The level by level walk terminates and lists exactly the source files of all the repositories that lie under the roots |
| SourceRoots.Scoped | src/mainboard/dispatch/ignores.py:296-307 | Outermost roots and then the listing: a source file is listed if and only if some root holds it and every root that is the whole workspace does, as text |
| RepositoryTree.Upward | src/mainboard/git/tree.py:117-136 | The loop with its growing stuck set gives the turns the specification gives over the reversed descent |
| RepositoryTree.OwnedExactly | src/mainboard/git/tree.py:42-47 | The owned repositories are exactly those a chain of submodules leads to, every one checked out and owned |
| RepositoryTree.ActedHasItsOutcome | src/mainboard/git/tree.py:128-132 | Acted on, a repository has the outcome the verb gave it; not acted on, it is held |
| RepositoryTree.NothingHeldWithoutHolding | src/mainboard/git/tree.py:127-127 | Without holding, the verb acts on every repository |
| RepositoryTree.BelowComesBefore | src/mainboard/git/tree.py:42-47 | Bottom-up, everything owned below a repository comes before it |
| RepositoryTree.ActsOnSettledGround | src/mainboard/git/tree.py:117-136 | With holding on, a repository is acted on only after every owned descendant was acted on and settled |
| RepositoryTree.AncestorsOfTheUnsettledAreHeld | src/mainboard/git/tree.py:126-135 | With names unique, every ancestor of an unsettled repository is held and never acted on |
| RepositoryTree.HeldOnlyOverAStuckChild | src/mainboard/git/tree.py:127-132 | A repository is held only when a child's name is that of one that did not settle before it |
| RepositoryTree.OneStepEach | src/mainboard/git/tree.py:100-102 | Each owned repository gets exactly one step |
| Scorecard.BilledSecondsAreTheLeast | src/mainboard/costs/model.py:29-36 | The charge covers the wall and the minimum, in whole units or at the minimum, and no fewer units would cover |
| Scorecard.Group | src/mainboard/costs/score.py:145-148 | Each provider's rows, and nobody else's, in the order recorded |
| Scorecard.TrackIs | src/mainboard/costs/score.py:60-82 | A track counts the rows that said anything, those that landed and those refused, and has the median of the waits there are |
| Scorecard.LandingExactly | src/mainboard/costs/enums.py:20-33 | A verdict names how a landing ended; without one a row that ran landed and a row that did not says nothing |
| Scorecard.WaitExactly | src/mainboard/costs/ledger.py:47-52 | A wait is the one measured, else the time from submission to running and never negative, zero where the run never started |
| Scorecard.OnCardExactly | src/mainboard/costs/score.py:186-187 | A card's rows are exactly those of the same card, none for an unnamed one |
| Scorecard.PriceIs | src/mainboard/costs/score.py:167-182 | The price over the GPU hours of the run is one landed attempt and the failed ones a delivery pays for, each billing its setup, measured or 300 seconds, and 120 seconds of release |
| Scorecard.CardMovesByItsRow | src/mainboard/costs/score.py:184-188 | One more row of a card that has rows, carrying no time, moves that card's track by that row alone |
| Scorecard.BilledFailuresAre | src/mainboard/costs/score.py:172-173 | The failures one delivery pays for are (failed + 1) over (landed + 1) times the share that billed, a share between 0 and 1 |
| Scorecard.OneMoreLandingMovesThePrice | src/mainboard/costs/score.py:157-188 | One more landed row never raises the price of a useful hour, one more billed failure never lowers it, one more refused create never raises it |
| Scorecard.NeverBelowTheJob | src/mainboard/costs/score.py:168-182 | A useful hour is never cheaper than the landed job's own cost per GPU hour |
| Scorecard.BilledGrows | src/mainboard/costs/model.py:29-36 | A longer setup never bills less |
| Scorecard.UnmeasuredRanksBehind | src/mainboard/costs/score.py:129-136 | An offer whose landings at least half delivered is no dearer than one never measured, for every rate and run, if and only if its setup is at most the default, or at most 720 seconds when all its failures were refused |
| Scorecard.SlowSetupIsDearer | src/mainboard/costs/score.py:134-135 | The witness: an offer that delivered its one landing after 100000 seconds is dearer |
| LaneOrders.RoundIsARotation | src/mainboard/lab/lane.py:29-30 | Any n! consecutive blocks are the n! permutations turned to start there |
| LaneOrders.InOrder | src/mainboard/lab/lane.py:29-29 | The orders come as their lanes are declared: by the first lane, then by the next |
| LaneOrders.FirstIsDeclared | src/mainboard/lab/lane.py:29-30 | The first order is the declared one |
| LaneOrders.EveryRoundUsesEachOrderOnce | src/mainboard/lab/lane.py:23-30 | For distinct lanes any n! consecutive blocks use every permutation exactly once and nothing else |
| LaneOrders.EachLaneInEachPosition | src/mainboard/lab/lane.py:29-29 | Among the permutations of n distinct lanes each lane stands in each position (n-1)! times |
| LaneOrders.EveryRoundIsBalanced | src/mainboard/lab/lane.py:23-30 | Over any n! consecutive blocks each lane sits in each position exactly (n-1)! times |

## Left out

- HeldServer.Server.Execute: reads the clock once per turn of the poll where the code reads it up to three times, and takes clock readings as positive, since the code uses 0.0 for "not terminated".
- HeldSpool.ExecutedAtMostOnce: a job's runner writes its exit only while its process lives or after its server died under it; a runner that outlives a reaped process is not modelled.
- BatchWatch.SettledOnceAfterItsCost: one pass is under way at a time; two watches interleaving over one journal are not modelled, and a cost may repeat after a crash between it and the settling.
- ClosureGuard.EveryImportOfTheWalkIsAdmitted: source discovery is taken to keep every reached file of a distribution, and a package directory is taken not to be a link itself.
- LibraryAudit.PassCoversEverySpelling: one way only; two spellings may differ to the loader and both find everything inside.
- Scorecard.OneMoreLandingMovesThePrice: the median of the waits is a parameter, positive on positive waits, and money and time are reals, so rounding and non-finite measurements do not appear.
- SourceRoots.Tracked: which repositories nest in which is given, so whether git's narrowed listing shows an unregistered clone is not modelled, nor are deny rules, the kept-but-ignored list, sorting and memoized listings.
- BatchWaves.StatusIsComplete: no run of the registry reads skipped, which no backend reports, and lines between the waves skip nothing and answer only for jobs already offered, as the sweep's resubmissions do.
- CommandDelimiter.LinePlacedOnce: the command parser is a tree of verbs named by leading tokens; cyclopts' own parsing and the reading of a verb's signature are not modelled.
- The held line's status words, beats and freshness (`_state`, `_beat`), the polling loops of `open` and `_stop`, and the order of `_start`'s writes: an opener here may take its steps in any order.
- `Server.run` as a loop: its steps are the actions of `HeldSpool`, and each look is told whether the time is over.
- Writes that fail (`exit 4`), temporary files and file modes.
- Identifiers outside ASCII, in the names a workspace defines.
- Walltimes spelled with signs, spaces or underscores, which Python's `int` reads and no part of the tool writes.
- Rounding of published cost figures, the platform key, the ledger's own record, and the `node` and `root` fields of receipts, which no property reads.
- Rows of topics a release no longer knows, skipped on replay.
- `prepare` and `estimate`, dispatch labels and batch ids.
- Conftest and plugin discovery for pytest targets, resources, Hub pins and the restoring of needs from the lake.
- `ast` parsing and ELF parsing: a file's syntax nodes, and a library's needed and openable names and search paths, are data.
- Remedies, relinks and every finding's text.
- ssh, PBS, tmux, subprocess and signal mechanics beyond their file effects and outcomes.
- Agents, manifests, environments, rentals, reports and the rest of the tool, which would add easy members or rest on services outside it.
