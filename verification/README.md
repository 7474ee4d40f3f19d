# Locorum: verified models of its protocols and algorithms

Locorum runs WordPress sites in Docker containers. Most of it is glue around Docker, SQLite and the file
system; these modules model the parts that are algorithms or small protocols of their own and prove what they
promise over every input, every run and every interleaving.

| module | file | what it models |
|---|---|---|
| Redaction | redaction.dfy | the secret registry and the redaction of messages |
| PlanRunner | plan_runner.dfy | plans of steps: forward pass, rollback, cancellation, and the activity status of a run |
| SiteLocks | site_locks.dfy | the per-site lifecycle mutexes under any number of concurrent operations |
| LogTail | log_tail.dfy | reading the last lines of a log from its end, chunk by chunk |
| Timestamps | timestamps.dfy | the calendar and the two fixed-width UTC layouts |
| ActivityLog | activity_log.dfy | the activity table, trimmed on every insert |
| ActionExecutor | action_executor.dfy | the health actions' guard, slots and shutdown |
| SnapshotNames | snapshot_names.dfy | the snapshot file names' printer and parser |
| SnapshotRetention | snapshot_retention.dfy | listing and sweeping snapshots |
| ConfigHashing | config_hash.dfy | the canonical form and hash of a container spec |
| EngineContainers | engine_container.dfy | keeping or recreating containers by that hash |
| Usernames | usernames.dfy | container-safe user names |
| AssetReconcile | asset_reconcile.dfy | bundled files against the user's copies over many launches |
| HealthRunner | health_runner.dfy | publishing findings, and holding back checks that overrun |
| RuneTruncation | rune_truncation.dfy | cutting UTF-8 text to a byte budget |
| WorktreeSlugs | worktree_slugs.dfy | DNS-label slugs for worktree sites |
| CircuitBreaker | breaker.dfy | the breaker in front of the disk-usage call |
| Strings, Sorting, Wrappers | strings.dfy, sorting.dfy, wrappers.dfy | byte order, replacement, sorting, optional values |

Code that updates objects is a class or a method with loops, tied by its contract to a specification function;
the theorems are lemmas about those functions and about runs of them. Concurrent code is a state machine whose
moves are the atomic steps of the source.

## What is left abstract

- SHA-256 and JSON encoding are injective functions (`ConfigHashing.Injective`, `AssetReconcile.GoodHash`) or, for
  slugs, any function into hexadecimal text. NFKC, NFD, combining marks, white space and lower-casing are tables
  given as parameters; where a result needs it they leave plain names alone.
- Files, tables and the Docker daemon are maps and sets. Failing I/O is a parameter (`Faults`, `Answers`, `stuck`)
  in the modules where the source goes on after a failure.
- Steps of a plan are arbitrary functions on an arbitrary world. Clocks and the moment of cancellation are parameters.
- Go maps are walked in any order; an unstable sort may leave ties in any order.

## Where the code and its descriptions part

Each of these follows the code; the lemma named shows the input or gives the exact condition.

- Redaction is promised for all registered secrets. The exact condition is known for secrets without brackets: it is
  complete if and only if "REDACTED" itself is not registered (`Redaction.RedactsEverythingExactly`); and for a single
  secret with any characters, which can reassemble from a marker and the text beside it exactly if `Reassembles` holds
  of it (`Redaction.OneSecretExactly`, with the example `Redaction.BracketedSecretReassembles`). A secret that lies in
  the marker, contains it or begins with a tail of it always leaks (`Redaction.InsideTailOrAroundLeaks`,
  `Redaction.TailOverlapReassembles`). For several secrets with brackets no exact condition is given: it is enough
  that none of them can touch the marker (`Redaction.RedactionIsComplete`).
- `tailLines` returns the last lines unless one of them has 1 MiB or more, in which case the scanner stops early
  (`LogTail.TailLines`, `LogTail.Exact`).
- The activity timestamps sort chronologically among all years up to a bound if and only if the bound is at most 9999
  (`Timestamps.ActivityTextOrderExactly`).
- The executor's `close` says that later submissions do not run. The select may take a slot after close exactly when
  one is free (`ActionExecutor.LateStartExactlyWithASlotFree`), and from every reachable state every new submission has
  a continuation in which it runs, also when close has returned (`ActionExecutor.EverySubmissionCanRun`,
  `ActionExecutor.RunsAfterClose`); close on an idle executor returns at once (`ActionExecutor.CloseReturnsAtOnce`).
- `snapshotLocked` says its caller holds the site's lock. Every operation does, except a worktree creation that copies
  the parent's database: it dumps the child without the child's lock (`SiteLocks.ScriptDumps`). A run of that
  operation alone, without an error, comes to dump a site whose mutex nobody owns, and a run of any other operation
  never does (`SiteLocks.UnlockedDumpExactly`).
- Snapshot names are called unambiguous. They are for slugs without a double or trailing dash, engines of letters
  only, versions without a leading or double dash and four-digit years, and for no others
  (`SnapshotNames.NameRoundTrip`). The parser also accepts names whose timestamp has a fraction of a second, which the
  layout does not have (`Timestamps.FractionsAreAccepted`); those are never built again
  (`SnapshotNames.RebuildsParsedName`).
- `ConfigHash` is described as equal for specs of the same shape. A nil and an empty command hash apart
  (`ConfigHashing.NilCommandIsNotEmptyCommand`), and so do dropping "ALL" by default and by name
  (`EngineContainers.SpelledOutDefaultDiffers`); while a nil and an empty CapDrop hash alike although Docker is then
  asked to drop everything or nothing (`EngineContainers.KeptContainerDropsTheSame`). The zero SecurityOptions are
  described as forbidding privilege escalation; only the flag does
  (`EngineContainers.EscalationForbiddenOnlyOnRequest`).
- Missing asset records are described as "every file matches the previous bundle". Every differing file is reported
  for merging instead (`AssetReconcile.LostRecordsReportEveryDifference`); an edited file is reported even when the
  bundle has not changed (`AssetReconcile.UnchangedBundleStillReported`); and an untouched file follows the bundle
  exactly while no launch that changes it fails at it (`AssetReconcile.StaysInStepThroughout`): after one that does it
  is taken for a user's edit in every later launch (`AssetReconcile.FailedWriteStrandsTheFile`).
- A finding's key is meant to tell observations apart. It does under one id, but for undeclared severities
  (`HealthRunner.KeyUnderOneId`). Findings of two different ids can share a key exactly when one id is the other
  followed by a bar and a severity's name, and by nothing more or by another bar (`HealthRunner.CollidingIdsExactly`).
- A check's findings are said to go stale when it overruns its budget twice in a row. They do at the first overrun
  already, unless that run ends in an error; then one unmarked finding says that the check failed, even
  after other overruns (`HealthRunner.StaleAfterOneOverrun`). For a check whose last run published something the
  description is met exactly if that run kept its budget, or overran without an error after another overrun, or overran
  with an error and not after another overrun (`HealthRunner.StaleAfterTwoExactly`).
- Truncation is said never to split a character. With a budget of one to three bytes it does for valid text exactly
  when the last byte within the budget is not ASCII (`RuneTruncation.SmallBudgetValidity`), even where the character
  ends with the budget (`RuneTruncation.WholeCharacterIsSplit`).

## Model

| member | source | states |
|---|---|---|
| `Redaction.Registry.Add` | internal/secrets/registry.go:57-64 | values shorter than eight are ignored, any other joins the set |
| `Redaction.Registry.Remove` | internal/secrets/registry.go:68-75 | exactly that value leaves the set |
| `Redaction.Registry.SortedValues` | internal/secrets/registry.go:91-107 | the registered values, each once, longer ones first |
| `Redaction.Registry.RedactString` | internal/secrets/registry.go:91-113 | some longest-first order replaces every value by the marker, nothing else is touched, no value is left unless one can touch the marker; the registry is unchanged |
| `Redaction.BracketFreeSeparated` | internal/secrets/registry.go:21-45 | a bracket-free secret of registrable length can overlap the marker only if it is "REDACTED" |
| `Redaction.ReplacingIsExhaustive` | internal/secrets/registry.go:108-112 | replacing a secret leaves no occurrence of it, not even across a marker |
| `Redaction.ReplacingAddsNothing` | internal/secrets/registry.go:108-112 | replacing one secret brings no occurrence of another into being |
| `Redaction.RedactionIsComplete` | internal/secrets/registry.go:84-113 | in every longest-first order no registered secret is left in any message |
| `Redaction.RedactionIsIdempotent` | internal/secrets/registry.go:84-113 | redacting again, in any order, changes nothing |
| `Redaction.RedactionMasks` | internal/secrets/registry.go:84-113 | the result is the message with whole registered values, none overlapping another, replaced by one marker each and every other byte in place |
| `Strings.ReplaceAllPieces` | internal/secrets/registry.go:108-112 | replacing keeps the pieces between the leftmost occurrences, each found from the end of the one before, and puts one marker between each two of them |
| `Strings.CutIsUnique` | internal/secrets/registry.go:108-112 | a text can be cut at its leftmost occurrences in one way only |
| `Redaction.RedactsEverythingExactly` | internal/secrets/registry.go:84-113 | for bracket-free registries completeness holds if and only if "REDACTED" is not registered |
| `Redaction.BracketedSecretReassembles` | internal/secrets/registry.go:91-113 | a secret with a bracket that is in the redacted message |
| `Redaction.OneSecretExactly` | internal/secrets/registry.go:84-113 | for a registry of one secret, brackets or not, completeness holds if and only if the secret cannot reassemble |
| `Redaction.InsideTailOrAroundLeaks` | internal/secrets/registry.go:18-19 | a secret alone that lies inside the marker, contains it or begins with a tail of it is not kept out of every message |
| `Redaction.TailOverlapReassembles` | internal/secrets/registry.go:91-113 | a message that is not redacted for every secret that begins as the marker ends |
| `Redaction.WholeSecretReplaced` | internal/secrets/registry.go:99-112 | longest first: a secret met on its own becomes one marker, whatever shorter secrets lie inside it |
| `PlanRunner.Run` | internal/orch/plan.go:105-168 | statuses, error, final world and the whole sequence of calls and callbacks, for any steps and any moment of cancellation |
| `PlanRunner.RollbackPrior` | internal/orch/plan.go:173-198 | steps before the failed one are undone last first; each row and callback carries its rollback's error and the rest go on |
| `PlanRunner.Recovered` | internal/orch/plan.go:202-218 | a panic becomes an error, and what the call did to the world stands |
| `PlanRunner.StatusWord` | internal/orch/plan.go:105-168 | the final statuses are all succeeded, or rolled back, one failed, skipped, or rolled back up to the cancellation and skipped after it |
| `PlanRunner.CallsInOrder` | internal/orch/plan.go:112-198 | Apply in order, each at most once; then Rollback exactly for the completed steps, in reverse, whatever it returns |
| `PlanRunner.RunIsTold` | internal/orch/plan.go:105-218 | every call is announced and reported with its true outcome, error or panic, in the world the calls before it lead to; rows are what was reported last, and skipped ones carry the error of a cancellation only |
| `PlanRunner.UnsuccessfulRunRestoresTheWorld` | internal/orch/plan.go:105-198 | if rollback inverts apply and a failed apply changes nothing, an unsuccessful run ends where it began |
| `PlanRunner.ClassificationMatchesStatuses` | internal/sites/activity.go:132-141 | rolled-back exactly when some step was undone, succeeded exactly when all steps succeeded |
| `PlanRunner.FirstFailedStepName` | internal/sites/activity.go:235-242 | the name of the first failed step, empty if there is none |
| `SiteLocks.ScriptOrdered` | internal/sites/worktree.go:191-258 | every lifecycle operation locks a site only inside locks of sites created before it, and releases innermost first |
| `SiteLocks.RunInv` | internal/sites/sites.go:223-232 | the ownership invariant survives every interleaving of lookups, locks, inserts, error returns and cascades |
| `SiteLocks.OneMutexForever` | internal/sites/sites.go:223-232 | once an id has a mutex it keeps it, however lookups race |
| `SiteLocks.LockDiscipline` | internal/sites/sites.go:1736-1813 | a site is held by one goroutine and once, nobody locks what it holds, and whoever waits holds only older sites |
| `SiteLocks.WorkUnderLock` | internal/sites/sites.go:560-562 | in every reachable state whoever is about to do an operation's work on a site owns its mutex, and whoever is about to insert a child owns its parent's |
| `SiteLocks.TasksAreDone` | internal/sites/sites.go:1193-1212 | with the locks erased every run is a run of the operations' plain task lists, cascaded deletes included, done in order and to the end unless something fails |
| `SiteLocks.HolderKeepsOthersOut` | internal/sites/sites.go:1098-1100 | while one goroutine owns a site another one that works on it does not finish unless it skips a call or gives up |
| `SiteLocks.ReleasesAtTheEnd` | internal/sites/sites.go:1736-1738 | an operation on one site lets go of it as its last step: a critical section is never split |
| `SiteLocks.BlockerWaitsForYounger` | internal/sites/sites.go:1193-1212 | along the waits-for relation the awaited sites get younger, so there is no cycle |
| `SiteLocks.NoDeadlock` | internal/sites/migrate.go:85-148 | in every reachable state with an unfinished operation some operation can step |
| `SiteLocks.AllReleased` | internal/sites/snapshot.go:466-468 | when all operations are through no mutex is locked |
| `SiteLocks.ScriptDumps` | internal/sites/worktree.go:354-386 | an operation dumps every site under its lock if and only if it is not a worktree creation with a database copy |
| `SiteLocks.DumpsHoldTheLock` | internal/sites/snapshot.go:156-159 | in runs without such creations whoever dumps a site holds its lock |
| `SiteLocks.UnlockedDumpExactly` | internal/sites/worktree.go:354-386 | runs of one operation come to dump a site whose mutex nobody owns if and only if it is a worktree creation with a database copy |
| `LogTail.SplitLines` | internal/applog/tail.go:67-75 | the lines up to the first too long for the scanner, carriage returns dropped |
| `LogTail.ReadChunk` | internal/applog/tail.go:38-57 | one chunk further back: what is read is a longer suffix, split again, with no long line unless one is asked for |
| `LogTail.TailLines` | internal/applog/tail.go:17-63 | exactly the last n lines of splitting the whole file, wherever chunks end, when those lines are short enough; without carriage returns, only then |
| `LogTail.LinesAreTheText` | internal/applog/tail.go:67-75 | the lines hold no newline and are the text again when joined |
| `LogTail.TailLinesExactly` | internal/applog/tail.go:58-75 | the tail has the last lines in order, as many as asked for if there are so many, each less one final carriage return |
| `LogTail.GlueAfterNewline` | internal/applog/tail.go:38-57 | lines of two pieces that meet at a newline |
| `LogTail.GlueInLine` | internal/applog/tail.go:38-57 | lines of two pieces that meet inside a line |
| `Timestamps.ActivityTextOrder` | internal/storage/activity.go:75-82 | byte order of the texts is time order for years up to 9999 |
| `Timestamps.ActivityTextOrderExactly` | internal/storage/activity.go:75-82 | texts of all years up to a bound sort as the times do if and only if the bound is at most 9999 |
| `Timestamps.ActivityLayout` | internal/storage/activity.go:75-82 | the text field by field |
| `Timestamps.YearsInClosedForm` | internal/sites/snapshot.go:762-767 | the days before a year, on which ages rest, follow the Gregorian rule |
| `Timestamps.SnapshotTextOrder` | internal/sites/snapshot.go:65-68 | file names' timestamps sort chronologically |
| `Timestamps.SnapshotTimeRoundTrip` | internal/sites/snapshot.go:65-68 | a formatted second parses to itself |
| `Timestamps.ParsedStampReprints` | internal/sites/snapshot.go:304-307 | text that parses is the text its time is written as if and only if it has no fraction |
| `Timestamps.FractionsAreAccepted` | internal/sites/snapshot.go:304-307 | every whole second is also read from its text with a fraction put in |
| `ActivityLog.ActivityTable.AppendActivity` | internal/storage/activity.go:123-190 | the rejections in order; otherwise defaults filled in, a fresh id, and the site's 200 newest rows kept |
| `ActivityLog.RowsKeepEvents` | internal/storage/activity.go:145-172 | a row keeps every field of its event, and events with different fields have different rows |
| `ActivityLog.ActivityTable.GetActivity` | internal/storage/activity.go:197-227 | the newest rows of the never-trimmed history, up to the limit and the bound |
| `ActivityLog.ActivityTable.TrimActivity` | internal/storage/activity.go:235-251 | the newest rows of one site stay, other sites are untouched, and default-limit sweeps remove nothing |
| `ActivityLog.ActivityTable.SweepActivity` | internal/sites/sites.go:425-436 | a sweep over any sites leaves the table as it is |
| `ActivityLog.NewestMeaning` | internal/storage/activity.go:204-212 | the newest n are ordered, are rows, and no row left out is newer |
| `ActivityLog.NewestFromPart` | internal/storage/activity.go:257-270 | a part that holds the newest n answers every smaller question like the whole |
| `ActivityLog.InsertKeepsNewest` | internal/storage/activity.go:160-190 | inserting and trimming the trimmed table is trimming the whole history |
| `ActivityLog.TableAnswers` | internal/storage/activity.go:197-227 | table and full history answer alike within the bound |
| `ActivityLog.AtMostRetained` | internal/storage/activity.go:66-73 | no site has more than 200 rows |
| `ActivityLog.NewerIsLater` | internal/storage/activity.go:75-82 | newer in the table is later in time, then higher in id |
| `ActionExecutor.Exclusion` | internal/health/actions.go:48-112 | at most one run per finding id and at most capacity in all, and a guard is set exactly while one job owns it |
| `ActionExecutor.RefusedExactlyWhileOwned` | internal/health/actions.go:53-60 | a submission is refused exactly while another of the same id owns the guard |
| `ActionExecutor.NothingLeaks` | internal/health/actions.go:62-112 | when all jobs are over every slot, guard and wait-group count is back |
| `ActionExecutor.SomeJobMoves` | internal/health/actions.go:72-84 | some job can always move, even if nothing is cancelled |
| `ActionExecutor.ReportedOnce` | internal/health/actions.go:62-112 | done is called once for every started or cancelled job and never for one refused or dropped |
| `ActionExecutor.RunsExactlyOnce` | internal/health/actions.go:72-112 | an action is run once for a submission that takes a slot and for no other |
| `ActionExecutor.NoRunFuncIsRefused` | internal/health/actions.go:48-52 | a submission without a Run func ends at the first check, and no other does |
| `ActionExecutor.CloseDrains` | internal/health/actions.go:130-137 | close returns only when no started goroutine is left |
| `ActionExecutor.DroppedOnlyByClose` | internal/health/actions.go:76-79 | jobs are dropped unreported only once close was called |
| `ActionExecutor.JobMovesAreBounded` | internal/health/actions.go:62-112 | between submissions the jobs make no more moves than they have in them, in any order |
| `ActionExecutor.CloseCanReturn` | internal/health/actions.go:130-137 | once called, close can always come to return, with no cancellation |
| `ActionExecutor.LateStartExactlyWithASlotFree` | internal/health/actions.go:72-84 | after close a waiting job may start exactly when fewer jobs hold a slot than there are |
| `ActionExecutor.EverySubmissionCanRun` | internal/health/actions.go:48-112 | from every reachable state every new submission has a continuation in which it runs |
| `ActionExecutor.RunsAfterClose` | internal/health/actions.go:128-137 | also after close has returned, for every capacity and every run |
| `ActionExecutor.CloseReturnsAtOnce` | internal/health/actions.go:128-137 | with nothing submitted, close is called and returns, so there are runs that end with it returned |
| `SnapshotNames.NameRoundTrip` | internal/sites/snapshot.go:254-320 | parsing a built name gives the fields back if and only if slug, engine, version and year meet the stated conditions |
| `SnapshotNames.PlainNameRoundTrip` | internal/sites/snapshot.go:248-320 | a snapshot with clean fields is read back from its name unchanged; the name starts with slug and reason and ends in its codec's suffix |
| `SnapshotNames.NamesAreInjective` | internal/sites/snapshot.go:248-277 | readable snapshots with one name agree on every field |
| `SnapshotNames.RebuildsParsedName` | internal/sites/snapshot.go:283-320 | building from what any accepted name parses to gives the name back exactly when its version part is present and clean and its timestamp has no fraction |
| `SnapshotNames.EngineVersionRoundTrip` | internal/sites/snapshot.go:324-339 | engine and version joined by a dash are split again, and stay one segment exactly when the version is clean |
| `SnapshotNames.SplitFirst` | internal/sites/snapshot.go:70-75 | a segment without double or trailing dash is split off whole |
| `SnapshotNames.PieceIsClosed` | internal/sites/snapshot.go:294-297 | no segment ever holds a separator, and only the last can end in a dash |
| `SnapshotRetention.Store.ListSnapshots` | internal/sites/snapshot.go:355-388 | the recognised names, of one site or all, newest first |
| `SnapshotRetention.Store.SweepSnapshots` | internal/sites/snapshot.go:743-782 | exactly the snapshots past an age or count limit go, except those whose delete fails; other files stay, and the number returned is how many went |
| `SnapshotRetention.KeptExactlyWithinLimits` | internal/sites/snapshot.go:757-769 | a snapshot is kept if and only if it is not too old and fewer than the limit of its site's come before it |
| `SnapshotRetention.BuiltNameTells` | internal/sites/snapshot.go:254-277 | site and time of a snapshot are those its name was built from |
| `SnapshotRetention.KeptIsPrefix` | internal/sites/snapshot.go:757-769 | what is kept of a site is a prefix of its newest-first list, no longer than the limit |
| `SnapshotRetention.SweepKeepsTheNewest` | internal/sites/snapshot.go:743-782 | after a sweep: count and age limits hold per site, nothing dropped is newer than anything kept, other files stay |
| `SnapshotRetention.SweepingAgainDropsNothing` | internal/sites/snapshot.go:743-782 | a second sweep at the same instant drops nothing, however ties are listed |
| `ConfigHashing.ConfigHash` | internal/docker/specs.go:184-268 | the digest of the canonical form, whatever order the label map is walked in |
| `ConfigHashing.CollectLabels` | internal/docker/specs.go:216-222 | every label once, but for the two bookkeeping ones |
| `ConfigHashing.CanonicalDecidesIntent` | internal/docker/specs.go:170-268 | canonical forms are equal if and only if the specs have the same intent |
| `ConfigHashing.HashDecidesIntent` | internal/docker/specs.go:170-268 | so are the hashes, absent collisions |
| `ConfigHashing.NilCommandIsNotEmptyCommand` | internal/docker/specs.go:231-250 | a nil and an empty command hash apart |
| `Sorting.SortDecides` | internal/docker/specs.go:270-277 | sorting forgets order and nothing else |
| `EngineContainers.ValidateSpec` | internal/docker/engine_container.go:202-225 | accepted exactly when well formed, else the first problem |
| `EngineContainers.Docker.EnsureContainer` | internal/docker/engine_container.go:26-55 | keep, create, or remove and create, with every failure in its place |
| `EngineContainers.Docker.CreateContainerFromSpec` | internal/docker/engine_container.go:59-79 | the new container wears the hash it was asked with; a container found under the name is removed and the create tried once more |
| `EngineContainers.EnsureSucceedsExactly` | internal/docker/engine_container.go:26-79 | whatever the daemon answers: the exact condition for success, and when the container is kept |
| `EngineContainers.EnsuredMatches` | internal/docker/engine_container.go:26-79 | after success the container of that name has the returned id and the spec's hash, and no other changed |
| `EngineContainers.FailedEnsureAddsNothing` | internal/docker/engine_container.go:26-79 | after a failure no container is new and at most the one of that name is gone |
| `EngineContainers.LabelsAreTheSpecs` | internal/docker/engine_container.go:59-79 | after any run a container has its own spec's labels, the hash label as computed, and no more |
| `EngineContainers.KeptExactlyOnSameIntent` | internal/docker/engine_container.go:26-55 | after any run of calls a container is kept if and only if the spec has the intent of the one it was created from; otherwise its id is new |
| `EngineContainers.SameIdExactlyOnSameIntent` | internal/docker/engine_container.go:22-55 | two ensures of a name return one id exactly when the specs have one intent, whatever happens to other names between |
| `EngineContainers.KeptContainerDropsTheSame` | internal/docker/engine_container.go:376-382 | specs of one intent drop the same capabilities unless one list is nil and the other empty |
| `EngineContainers.SpelledOutDefaultDiffers` | internal/docker/engine_container.go:376-382 | the default and the same thing by name recreate the container |
| `EngineContainers.EscalationForbiddenOnlyOnRequest` | internal/docker/engine_container.go:384-393 | the no-new-privileges option is there exactly when asked for |
| `Usernames.SanitiseUsername` | internal/platform/user.go:49-116 | the loops compute the eight passes |
| `Usernames.CollapseDashes` | internal/platform/user.go:136-157 | runs of dashes shrink to one, with or without the shortcut |
| `Usernames.ThreePassesAreOne` | internal/platform/user.go:56-92 | replacing, lower-casing and dropping come to one verdict per character |
| `Usernames.SanitisedIsValid` | internal/platform/user.go:17-48 | whatever the input and the tables: 1 to 32 characters, a letter first, allowed characters only, no double dash, no dash or dot at the end |
| `Usernames.FixedPointsAreTheValidNames` | internal/platform/user.go:44-48 | the names left alone are exactly those of that shape; sanitising is idempotent |
| `Usernames.LettersSurvive` | internal/platform/user.go:27-43 | letters and digits come through in order as long as the length limit is not reached |
| `Usernames.CleanedIsLetters` | internal/platform/user.go:49-92 | all passes up to the trimming come to one verdict per character of the decomposed input |
| `Usernames.CollapsedExactly` | internal/platform/user.go:136-157 | exactly texts without a double dash are left alone |
| `Usernames.CollapseShrinks` | internal/platform/user.go:136-157 | a second dash in a row changes nothing |
| `Usernames.SanitisedExactly` | internal/platform/user.go:49-116 | the name is the longest part that fits of the trimmed letters, prefixed unless they start with a letter, or the fallback |
| `AssetReconcile.Disk.WriteAtomicNoCheck` | internal/genmark/genmark.go:180-220 | the result, and every state the disk goes through up to the failing step |
| `AssetReconcile.CrashLeavesOldOrNew` | internal/genmark/genmark.go:170-179 | a crash before the rename leaves everything but the temp file as it was, one after it the new content |
| `AssetReconcile.TrailIsSafe` | internal/genmark/genmark.go:170-220 | so does a crash anywhere in a write, and no temp file is left at its end |
| `AssetReconcile.Disk.WriteAtomic` | internal/genmark/genmark.go:159-164 | equal content is left in place |
| `AssetReconcile.Reconcile` | internal/assets/assets.go:184-263 | the files, the sorted report and the recorded hashes, for any files, records and faults |
| `AssetReconcile.WalkAt` | internal/assets/assets.go:191-253 | each visited path is treated by what was there at the start, all others stay |
| `AssetReconcile.LaunchOutcome` | internal/assets/assets.go:215-252 | merge-needed exactly for a file unlike both the bundle and the recorded bundle, which stays; every other bundled file ends equal to the bundle |
| `AssetReconcile.FailsExactly` | internal/assets/assets.go:215-252 | a launch fails at a file exactly if it cannot read it or cannot make a change it should make, and then leaves it |
| `AssetReconcile.UserFileSurvives` | internal/assets/assets.go:164-183 | content no launch ships survives every run of launches, faults and lost records included |
| `AssetReconcile.FollowsExactly` | internal/assets/assets.go:215-252 | after any launch a file equals the bundle exactly when it did before, or nothing fails at it and it was missing or equal to the recorded bundle |
| `AssetReconcile.StaysInStepExactly` | internal/assets/assets.go:212-247 | a saved launch keeps a file in step exactly when it brings no change or nothing fails at it |
| `AssetReconcile.StaysInStepThroughout` | internal/assets/assets.go:212-247 | through a whole run exactly when no launch that changes the file fails at it |
| `AssetReconcile.UntouchedFileFollows` | internal/assets/assets.go:235-247 | a file nobody edits equals the latest bundle after any run without faults |
| `AssetReconcile.RelaunchWritesNothing` | internal/app/app.go:330-351 | the same bundle again writes nothing and reports the same files |
| `AssetReconcile.LostRecordsReportEveryDifference` | internal/assets/assets.go:117-143 | without records every differing file is reported |
| `AssetReconcile.UnchangedBundleStillReported` | internal/assets/assets.go:164-183 | an edited file is reported although the bundle is the recorded one |
| `AssetReconcile.FailedWriteStrandsTheFile` | internal/assets/assets.go:214-247 | after a launch that fails at a changed file, every later run leaves the file and every later launch reports it, until a bundle brings its content back |
| `HealthRunner.Runner.Publish` | internal/health/runner.go:391-439 | findings dated and sorted, keys no longer present forgotten |
| `HealthRunner.Runner.RecordBudget` | internal/health/runner.go:354-371 | the counter and the release time after a run |
| `HealthRunner.Runner.RunBatch` | internal/health/runner.go:251-339 | a whole batch: budgets, and every result published as its own findings or as a failure, and nothing else |
| `HealthRunner.FirstSeenIsStreakStart` | internal/health/runner.go:391-420 | the remembered keys are the last batch's, each with the first publication of its unbroken streak |
| `HealthRunner.PublishedFindings` | internal/health/runner.go:391-439 | published findings are the last batch's, once each, sorted with ties in order, dated by their streak |
| `HealthRunner.StreakStartMeaning` | internal/health/runner.go:396-415 | the streak's first batch holds the key, so do all after it, and the one before does not |
| `HealthRunner.KeyIsInjective` | internal/health/runner.go:463-466 | equal keys mean the same id, severity and discriminator |
| `HealthRunner.KeyUnderOneId` | internal/health/runner.go:463-466 | under one id keys tell severities and discriminators apart, but for undeclared severities |
| `HealthRunner.CollidingIdsExactly` | internal/health/runner.go:463-466 | two ids can share a key exactly when one extends the other by a bar and a severity's name, with nothing or a bar after it |
| `HealthRunner.TripsBetweenBatches` | internal/health/runner.go:354-371 | between batches a check's counter is 0, 1 or 2 |
| `HealthRunner.HoldOfRuns` | internal/health/runner.go:251-263 | a check's counter and release time depend on its own runs only |
| `HealthRunner.BudgetIsTrailingOverruns` | internal/health/runner.go:354-371 | the counter is the number of overruns in a row, modulo three, and a check is held back from its last third one |
| `HealthRunner.SuspendedExactly` | internal/health/runner.go:251-263 | a check may not run exactly within one cadence of its last third overrun in a row |
| `HealthRunner.ThreeOverrunsHoldBack` | internal/health/runner.go:354-371 | after three overruns in a row the next run starts a full cadence after the first of them |
| `HealthRunner.AtMostThreeStartsPerCadence` | internal/health/runner.go:251-377 | a check that always overruns starts at most three times in any half-open window of one cadence |
| `HealthRunner.LastBatchIsPublished` | internal/health/runner.go:304-336 | what is published is, result by result, all findings of a check that did not fail, marked if it overran, and one warning for a check that failed |
| `HealthRunner.DisplayOrder` | internal/health/runner.go:417-427 | higher severities first, then ids and discriminators in byte order |
| `HealthRunner.GenerationCountsBatches` | internal/health/runner.go:428-439 | the generation is the number of batches |
| `HealthRunner.StaleAfterOneOverrun` | internal/health/runner.go:314-330 | a published finding of a check is marked if and only if the check's latest run overran and returned no error |
| `HealthRunner.StaleAfterTwoExactly` | internal/health/check.go:22-24 | marking after two overruns in a row is met exactly under a condition on the latest run, its error and the run before |
| `RuneTruncation.TruncateRunes` | internal/sites/activity.go:278-308 | the input if it fits, else a prefix and the ellipsis within the budget; for valid text the longest whole-rune prefix that leaves room for it |
| `RuneTruncation.CutByRunesIsValid` | internal/sites/activity.go:274-308 | such a text is valid UTF-8 within the budget |
| `RuneTruncation.CutByRunesIsUnique` | internal/sites/activity.go:274-308 | there is one such text |
| `RuneTruncation.DecodeEncoded` | internal/sites/activity.go:296-306 | ranging over valid text finds each rune and its width |
| `RuneTruncation.SmallBudgetValidity` | internal/sites/activity.go:284-292 | with a budget of one to three bytes valid text stays valid if and only if the last byte within the budget is ASCII |
| `RuneTruncation.WholeCharacterIsSplit` | internal/sites/activity.go:284-292 | a text and budget for which a character is split that ends with the budget |
| `WorktreeSlugs.SanitiseBranch` | internal/sites/worktree_slug.go:118-141 | the loop computes the branch's words, in lower case, joined by single dashes |
| `WorktreeSlugs.WordsAtSeparator` | internal/sites/worktree_slug.go:108-141 | any character that is no letter or digit separates words |
| `WorktreeSlugs.WordsOfRun` | internal/sites/worktree_slug.go:108-141 | letters and digits in a row are one word, in lower case |
| `WorktreeSlugs.SanitisedBranchesAreFixed` | internal/sites/worktree_slug.go:108-141 | the branches left alone are exactly the dashed texts; sanitising is idempotent and keeps the words |
| `WorktreeSlugs.WorktreeSlug` | internal/sites/worktree_slug.go:59-99 | for a valid parent a valid slug of at most 63 characters; no fallback is reachable |
| `WorktreeSlugs.BranchPartIsSlug` | internal/sites/worktree_slug.go:68-80 | the branch's part is a slug of at most 18 characters |
| `WorktreeSlugs.BranchPartExactly` | internal/sites/worktree_slug.go:68-80 | the branch's part is all its words if they fit, else their first 18 characters less a final dash, or the fallback |
| `WorktreeSlugs.SlugKeepsTheParent` | internal/sites/worktree_slug.go:82-98 | the parent's slug is kept whole if it fits and is else cut no shorter than it must be |
| `WorktreeSlugs.TagsCanDifferExactly` | internal/sites/worktree_slug.go:59-66 | the tag depends on parent, branch and path, all three |
| `WorktreeSlugs.TagsTellSlugsApart` | internal/sites/worktree_slug.go:18-30 | worktrees with different hash tags have different slugs |
| `CircuitBreaker.Breaker.Allow` | internal/health/breaker.go:39-57 | admitted when closed or when the pause is over |
| `CircuitBreaker.Breaker.Guarded` | internal/health/checks_disk.go:130-144 | ask, call, report: one step of the specification |
| `CircuitBreaker.CounterIsTrailingFailures` | internal/health/breaker.go:61-81 | the counter is the number of failures since the last success |
| `CircuitBreaker.OpenSinceLastReport` | internal/health/breaker.go:68-81 | an open breaker has been open since the last call that was made was reported |
| `CircuitBreaker.RefusedExactlyWhenOpen` | internal/health/breaker.go:39-57 | refused exactly when enough calls in a row failed and the pause since the last was reported is not over |
| `CircuitBreaker.EachTrialCostsAPause` | internal/health/breaker.go:68-81 | while trials fail the breaker stays open and its clock moves on more than a pause per trial |
| `CircuitBreaker.TrialsAreSpaced` | internal/health/breaker.go:39-81 | calls within a span after opening hold at most span / pause trials |

## Left out

- Redact(err), FormatTail, callbacks that panic, plan previews, activity messages and their JSON details.
- I/O errors of the log tail's reads after opening, of the activity database, and of directory listings.
- Invalid UTF-8 in user names, branches and container specs; of invalid text cut short only the size and shape are
  stated. Budgets of one to three bytes have no caller.
- Time zones other than UTC, negative years and leap seconds.
- What a crash in the middle of writing the temp file leaves in the temp file.
- Durations beyond the 292 years a Go duration holds.
- Collisions of hashes, and encodings that fail.
- The Docker library's port syntax (a parameter), the number and timing of retries, and every field of the container
  configuration but labels, capabilities and security options.
- Concurrent batches of the health runner and concurrent use of the breaker; panicking checks count as failed ones.
- A batch of which the context is cancelled simply has fewer results.
- Per-check cadences, which the runner does not read, and two checks with one id.
- The order in which Docker, hooks and the router are called inside a lifecycle operation: between two dumps or
  insertions under one lock all of that is a single step, the work on the site. A deleted site's id stays known to the
  lock map.
- The owner lock of the daemon, the JSON-RPC client, HTTP and MCP transports, the command line and the user interface,
  WordPress, git, certificates, the traefik router and import filters: foreign code and I/O.
- Checksums, compression, restore and the policy file of snapshots; a snapshot's sidecar goes with it.
- Markers in generated files (`HasMarker`, `WriteIfManaged`): reconciliation does not use them.
- Configuration getters, enumerations, labels and name builders: single-branch facts.
