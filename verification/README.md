# Troxe: verified models of the panel and the node agent

This project models the parts of the Troxe game-server panel (TypeScript) and its node agent (Go)
whose correctness is hardest to see, and proves what they keep. `dafny verify dfyconfig.toml`
checks all of it with Dafny 4.11.

Code that changes state step by step is modelled twice: as a method of a class, written as the
program is, and as a function of the state. The method's contract ties the two together, and the
theorems are about the function, or about every run of a state machine made of such functions.

| files | what they model |
|---|---|
| `Common`, `JsText` | finite sums; the JavaScript string functions (`split`, `trim`, `parseInt`, `%`) |
| `Placement`, `Ledger`, `Ownership`, `Transfers`, `Outcomes`, `Panel` | nodes, allocations, servers and `server_transfers` under the create, delete and transfer handlers, one SQL statement at a time and interleaved; then the same handlers as methods |
| `Agent`, `AgentOverlap`, `Workers` | Docker below the agent's container index, with refused calls and lost replies; the same operations split at their locked sections and overlapping; the panel's install jobs above them |
| `CrashWatch`, `CrashReports` | the crash detector and restart limiter over entry objects, the drain, and the panel's heartbeat |
| `Cron`, `Scheduler` | the cron matcher on characters against a grammar; ticks, manual runs, and how often a schedule is executed |
| `Paths`, `Archive`, `Backup` | path cleaning and the extraction guard; the tar round trip and directory sizes; the pruned backup walk |
| `Template`, `Codec` | startup variables by successive replacement; XOR, UTF-8 and base64 |
| `Hub`, `Migrations` | the WebSocket hub under its lock; competing and failing migration runners |

## What the theorems assume

Module `Placement` takes one statement at a time from any number of handlers. Its steps assume that a
server has one create, delete, transfer or settings request in flight at a time and is deleted once,
that new rows get fresh identifiers, and that statements do not fail (`Transfers.PlacementUntouchedIff`
lets them fail). Where the code breaks a claim, the claim is not narrowed silently; a lemma says exactly
when it holds:

- A settings change writes the server's size and no counter: `Ledger.ResizeKeepsLedgerIff`.
- A heartbeat overwrites both counters: `Ledger.Drift` gives the amount, `Ledger.LedgerRun` sums it over a run.
- An allocation is checked in one statement and taken in a later one: `Ownership.OwnershipStep` says that a
  step keeps ownership exactly when what it takes is still free; `Panel.CreateRaceSharesAllocation` shows the race.
- A second delete request frees everything again: `Panel.SecondDeleteHarmlessIff`.
- A transfer that fails after its first database statement is not undone: `Transfers.PlacementUntouchedIff`.
- An agent restart that cannot list containers, a create whose reply is lost, and a late delete or write of an
  index entry whose container exists leave an unknown container, and nothing else does: `AgentOverlap.KnownStepIff`.
- Executions and manual runs can take a due minute away: `Scheduler.ExecutedIff` says from the events alone which
  minutes are executed.
- An install that overlaps another one of the same server can leave the keep-alive container:
  `Workers.RealAtTheEndIff` says when it does not, `Workers.SecondInstallLeavesKeepAlive` shows it.
- Ticks that overlap can execute a schedule twice in a minute: `Scheduler.OverlappingTicksExecute` counts how often.
- A value with replacement patterns, or one that can form a reference to a later variable, is not filled in as it is:
  `Template.TakenLiterallyIff` and `Template.SimultaneousIff`.
- The extraction guard keeps names inside every destination that does not end in a climb: `Paths.GuardKeepsInsideIff`.
- Encryption loses lone surrogates of the masked text: `Codec.RecoveredIff`.
- An import over a longer existing file keeps the old file's tail: `Archive.OverwriteExactIff`.

Where comments and code disagree, the model follows the code. The health check says "max 3 restarts in 10
minutes" (node-agent/internal/container/manager.go:116-119 and 185), but the count never goes down: an entry causes three
automatic restarts in its life, and one if the ten-minute test is reached promptly. An entry made while the
one it replaces is being checked receives that one's restart too (`CrashWatch.StrayRestartHappens`). A range
before a step and a star inside a comma list do not mean in `matchField` what they mean to the `crontab` utility, and
day of month and day of week are both required; `Cron.Means` states what they do mean.

## Model

| member | source | states |
|---|---|---|
| Placement.TransferTaskSound | panel/src/api/routes/servers.ts:598-691 | with any reply, a failed statement included: a transfer keeps working on the row it read and on its own transfer row if and only if no statement fails before the first status or after the move, and ends with a final status if and only if the marking as failed does not itself fail |
| Placement.SoundStep | panel/src/api/routes/servers.ts:476-535 | every statement of every handler keeps the tables consistent with the handlers in flight |
| Placement.SoundRun | panel/src/api/routes/servers.ts:215-308 | and so over every interleaving |
| Ledger.LedgerStep | panel/src/api/routes/servers.ts:629-659 | a step moves a node's counter minus its charged servers, transfers in flight corrected by phase, by its drift alone: zero but for heartbeats and settings changes |
| Ledger.LedgerRun | panel/src/api/routes/servers.ts:285-292 | over any run the discrepancy moves by the sum of the drifts |
| Ledger.ConstantBetweenHeartbeats | panel/src/api/routes/servers.ts:400-407 | between two heartbeats of a node, without settings changes, the discrepancy never changes |
| Ledger.CounterIsSumUntilHeartbeat | panel/src/api/routes/servers.ts:285-292 | from a node's creation to its first heartbeat its counter is the sum of what its servers are charged |
| Ledger.QuiescentLedger | panel/src/api/routes/servers.ts:400-407 | with no handler between statements the charged servers are those without a delete request, on their own node |
| Ledger.ResizeKeepsLedgerIff | panel/src/api/routes/server-settings.ts:70-77 | a settings change keeps the balance of a resource if and only if it leaves its size alone |
| Ownership.OwnershipStep | panel/src/api/routes/servers.ts:231-283 | an allocation names a server exactly when the server holds it, on its node; a step keeps this if and only if the allocation it takes or deletes is still free |
| Ownership.OwnershipRun | panel/src/api/routes/servers.ts:629-643 | and so over every run in which nothing a handler picked is taken first |
| Ownership.NoTwoServersShareAnEndpoint | panel/src/db/migrations/004_allocations.sql:8 | in every reachable state two servers never hold the same allocation, nor the same node, ip and port |
| Ownership.DropNodeFreesNothingHeld | panel/src/api/routes/admin.ts:175-186 | the cascade of a node deletion never reaches an allocation that names a server |
| Transfers.StatusStep | panel/src/api/routes/servers.ts:522-531 | a transfer row goes pending, transferring, then completed or failed, and is removed only when final |
| Transfers.FinalStays | panel/src/api/routes/servers.ts:663-679 | a final status never changes again |
| Transfers.TransferEnds | panel/src/api/routes/servers.ts:598-691 | every transfer ends whatever agents reply and whatever runs in between, in a bounded number of its own turns |
| Transfers.TransferPinsItsPlaces | panel/src/db/migrations/017_server_transfers.sql:1-8 | over every run the row of a transfer, ended or not, keeps both its nodes and both its allocations in the database until the server itself is removed |
| Transfers.TransferOutcome | panel/src/api/routes/servers.ts:598-691 | without failing statements: completed, with everything moved, exactly when export, import and finalize succeed; otherwise failed with nothing else changed |
| Transfers.TransferConserves | panel/src/api/routes/servers.ts:645-659 | a transfer conserves the counters' total over all nodes |
| Transfers.OnlySuccessPathMoves | panel/src/api/routes/servers.ts:628-659 | only the success path writes more than the transfer's own row, and no agent's reply leads from it to the catch block |
| Outcomes.TransferSettlesOldOrNew | panel/src/api/routes/servers.ts:628-679 | in every interleaving, when a transfer's row becomes completed or failed the server's row, its allocation and its charge are all the new ones or all the old ones |
| Outcomes.SettledAllocationIsNamed | panel/src/api/routes/servers.ts:629-643 | and from empty tables, with nothing a handler picked taken first, the allocation row names the server, on its node |
| Outcomes.FailedTransferWroteOnlyStatus | panel/src/api/routes/servers.ts:673-690 | in every interleaving a transfer that stands in its catch block has written no allocation, server or counter |
| Transfers.PlacementUntouchedIff | panel/src/api/routes/servers.ts:673-690 | with statements that may fail: the placement is as before if and only if the old allocation was not freed |
| Panel.PanelTables.CreateServer | panel/src/api/routes/servers.ts:215-308 | the handler's replies and errors, and that it does the steps begin, assign, charge |
| Panel.PanelTables.DeleteServer | panel/src/api/routes/servers.ts:376-417 | the handler frees allocation and counters as its steps do, or says not found |
| Panel.PanelTables.InitiateTransfer | panel/src/api/routes/servers.ts:476-535 | which request is refused and how; an accepted one inserts exactly the pending row |
| Panel.PanelTables.RunTransfer | panel/src/api/routes/servers.ts:589-692 | the whole run with its catch block leaves what the step machine driven with the same replies leaves |
| Panel.PanelTables.DeleteNode | panel/src/api/routes/admin.ts:169-189 | refused exactly when a server is on the node, and by the schema exactly when the row of any transfer, ended or not, names it; otherwise node and its allocations go |
| Panel.PanelTables.DeleteAllocation | panel/src/api/routes/admin.ts:241-260 | refused exactly when assigned, and by the schema exactly when the row of any transfer, ended or not, names it; otherwise the row goes |
| Panel.PanelTables.CreateAllocation | panel/src/api/routes/admin.ts:192-215 | refused exactly when the endpoint exists; otherwise a free allocation is added |
| Panel.SecondDeleteHarmlessIff | panel/src/api/routes/servers.ts:382-407 | a repeated delete leaves counter and allocation alone exactly when there was nothing to free again |
| Panel.CreateRaceSharesAllocation | panel/src/api/routes/servers.ts:231-283 | from any state with a free allocation two creates can end up holding the same one |
| Agent.IndexedStepIff | node-agent/internal/container/manager.go:337-455 | every managed container has an index entry with its id; of operations that run one after the other each keeps this if and only if it is not a create whose reply was lost or a restart that could not list |
| Agent.IndexedRun | node-agent/internal/container/manager.go:77-114 | and so over every sequence of operations with refused and lost calls, vanished containers and restarts that restore |
| AgentOverlap.KnownStepIff | node-agent/internal/container/manager.go:337-438 | with any number of overlapping operations, every managed container is indexed or a create in flight will index it; a step keeps this if and only if it is not one of those two, nor a late delete of an entry whose container exists, nor a late write over one |
| AgentOverlap.KnownRun | node-agent/internal/container/manager.go:337-438 | over every interleaving without such a step nothing is forgotten, and with nothing in flight every container is indexed |
| AgentOverlap.LateStartForgetsNewContainer | node-agent/internal/container/manager.go:357-376 | from every quiet state a start that looked up the old container deletes the entry of the reinstalled one |
| AgentOverlap.LateWriteForgetsNewContainer | node-agent/internal/container/manager.go:337-455 | from every quiet state without container and entry of a server, a create whose container was swept writes its entry over the one of the next |
| AgentOverlap.WholeOperationIsARun | node-agent/internal/container/manager.go:337-438 | an operation that nothing overlaps is the run of its own sections |
| Agent.StaleEntryDroppedIff | node-agent/internal/container/manager.go:357-383 | a stale entry is dropped exactly by a start that reaches Docker and hears that the container is gone |
| Agent.NamesUniqueStep | node-agent/internal/container/manager.go:337-355 | no operation makes a second container for a server |
| Agent.AnswersMean | node-agent/internal/container/manager.go:337-455 | what Docker and the index are after each operation that is answered well, and that a bad answer leaves the index alone, and Docker too unless the answer was lost |
| Agent.OthersUntouched | node-agent/internal/container/manager.go:337-455 | an operation on one server leaves the containers and the entry of every other server as they are |
| Agent.OthersUntouchedRun | node-agent/internal/container/manager.go:337-455 | and so does every run of such operations |
| Agent.Manager.constructor | node-agent/internal/container/manager.go:51-114 | a new process ends up with the restored index, or an empty one |
| Agent.Manager.Restore | node-agent/internal/container/manager.go:77-114 | every listed container is indexed under its server |
| Agent.Manager.Create | node-agent/internal/container/manager.go:227-355 | the Docker call and the index update do what the operation says, for every fault |
| Agent.Manager.Start | node-agent/internal/container/manager.go:357-383 | starts the indexed container, for every fault of the call, and drops the entry when Docker says that it is gone |
| Agent.Manager.Stop | node-agent/internal/container/manager.go:385-401 | stops the indexed container; the status changes only when Docker's answer was good |
| Agent.Manager.Restart | node-agent/internal/container/manager.go:403-408 | a stop, and a start only if the stop was answered well |
| Agent.Manager.Kill | node-agent/internal/container/manager.go:410-424 | the same with a kill |
| Agent.Manager.Remove | node-agent/internal/container/manager.go:426-455 | the tracked container, or every labelled one with replies ignored |
| Workers.JobWorker.ServerCreate | panel/src/workers/index.ts:67-203 | whatever the ignored replies and whatever others do between the calls: when the job returns normally its last create had put the server's one container in place with the real startup command, and what is left is what others made of it before the last start; with healthy calls it returns normally if and only if the leftover was removable; when it fails undisturbed, what is left is what was there before, a keep-alive container, or, only if the answer to the last create went missing, the real one |
| Workers.JobWorker.ServerInstall | panel/src/workers/index.ts:205-333 | the same for the install job, which also gives up when the keep-alive container does not start |
| Workers.RealAtTheEndIff | panel/src/workers/index.ts:169-187 | over every run of others between last create and last start, other installs of the server included: its containers are the real ones if and only if none is left or the last create that Docker carried out had the real command |
| Workers.SecondInstallLeavesKeepAlive | panel/src/workers/index.ts:289-317 | from every state with the server's container indexed, a second install in that window makes the job return normally with the keep-alive container |
| Workers.RemovedIff | node-agent/internal/container/manager.go:426-455 | a healthy removal leaves nothing under the server's name if and only if no container hides behind another id in the index |
| Workers.LeftoverRemovable | node-agent/internal/container/manager.go:337-355 | with a complete index every leftover is removable |
| Workers.RemovableStepIff | node-agent/internal/container/manager.go:337-455 | an agent call leaves the next attempt a removable leftover if and only if it is not a create, unheard of, over a stale entry |
| Workers.RunWithoutCreateMakesNothingNew | node-agent/internal/container/manager.go:357-455 | what the jobs assume of the rest of the world between their calls holds of every run without a create for that server |
| CrashWatch.RestartsLimited | node-agent/internal/container/manager.go:134-209 | over every interleaving an entry causes at most three automatic restarts |
| CrashWatch.ReceivesLimited | node-agent/internal/container/manager.go:134-209 | and receives at most three, whoever caused them, and a fourth only if it was made while the entry before it was checked |
| CrashWatch.FourthRestartHappens | node-agent/internal/container/manager.go:134-209 | there is a run in which an entry receives four |
| CrashWatch.PromptReceivesLimited | node-agent/internal/container/manager.go:195-202 | if the throttle test is always reached within ten minutes it receives at most one, and a second only if it was made during a check |
| CrashWatch.SecondPromptRestartHappens | node-agent/internal/container/manager.go:195-202 | there is such a run in which an entry receives two |
| CrashWatch.StrayRestartHappens | node-agent/internal/container/manager.go:144-207 | a restart caused by one entry does hit the entry that replaced it during the check |
| CrashWatch.PromptRestartsLimited | node-agent/internal/container/manager.go:195-202 | and causes at most one if the throttle test is always reached within ten minutes |
| CrashWatch.DrainReportsWhatIsOwed | node-agent/internal/container/manager.go:213-225 | after every run a drain reports a tracked server exactly when some step raised its entry's flag and no later one drained or started it |
| CrashReports.HealthMonitor.GetCrashedServers | node-agent/internal/container/manager.go:213-225 | reports exactly the flagged entries, each once, and clears exactly their flags |
| CrashReports.HealthMonitor.RunHealthCheck | node-agent/internal/container/manager.go:134-209 | from the inspection's fields: which tracked entries a pass leaves alone, counts as crashed and dates, restarts, and flags, and which it drops because the start found the container gone |
| CrashReports.CheckedAsIff | node-agent/internal/container/manager.go:157-203 | exactly the pass over an entry meets that description, so it decides every field and the restart |
| CrashReports.CheckIsARun | node-agent/internal/container/manager.go:144-207 | such a pass over one entry is a run of the interleaved machine |
| CrashReports.ServersTable.Heartbeat | panel/src/api/routes/admin.ts:301-316 | the loop over the reported servers does the guarded updates in order |
| CrashReports.ReportsRaiseOnce | panel/src/api/routes/admin.ts:301-316 | one heartbeat marks and counts exactly the reported servers of the node that were not marked, once each |
| CrashReports.BeatsRaiseOnce | panel/src/api/routes/admin.ts:301-316 | over any heartbeats without a job in between a crash count rises by one if and only if the server was unmarked and reported, never by more |
| CrashReports.CountedIffDelivered | node-agent/internal/server/server.go:152-185 | over any run of crashes, checks, starts, creates, removals and heartbeats, some lost: the panel counts a crash of an unmarked server if and only if a heartbeat that arrives was sent while a crash was owed, and then one |
| CrashReports.LostReportIsNotRepeated | node-agent/internal/server/server.go:157-185 | after a heartbeat that drained a crash no later one reports it, arrived or not, unless the flag is raised anew |
| Cron.MatchField | panel/src/services/scheduler.ts:6-28 | the character-level loop decides membership of the value in some part of the field |
| Cron.MatchesCron | panel/src/services/scheduler.ts:30-50 | the five tests in their order, Sunday tried as 0 and 7 |
| Cron.PartHitsMeans | panel/src/services/scheduler.ts:9-26 | on every printed part the text test is the part's meaning: whole residue classes, closed ranges, numbers |
| Cron.FieldHitsMeans | panel/src/services/scheduler.ts:6-28 | on every printed list it is the union of the meanings; a star counts only as the entire field |
| Cron.CronHitsMeans | panel/src/services/scheduler.ts:30-50 | for every expression of five such fields in any spacing the match is the conjunction of the five meanings |
| Cron.TooFewFields | panel/src/services/scheduler.ts:31-32 | fewer than five words never match |
| Cron.NumberFields | panel/src/services/scheduler.ts:6-28 | for all numbers in decimal, leading zeros or not: the number hits itself, the range everything between its ends, a step everything it reaches from its start |
| Cron.FiveNumbersMatchIff | panel/src/services/scheduler.ts:30-50 | five decimal numbers with any white-space character between them match exactly the date with that minute, hour, day, month from 1 and weekday, Sunday being 0 or 7 |
| JsText.ParseIntReads | panel/src/services/scheduler.ts:12-24 | `parseInt` of the decimal text of any number, with white space, a sign and zeros before it and anything but a digit after it, is the number |
| Scheduler.ScheduleTable.ExecuteSchedule | panel/src/services/scheduler.ts:52-89 | the jobs queued in order, a failing one losing only itself, then the stamp |
| Scheduler.ScheduleTable.RunNow | panel/src/api/routes/schedules.ts:173-215 | the same jobs and stamp with no test |
| Scheduler.ScheduleTable.Tick | panel/src/services/scheduler.ts:96-123 | one tick's stamps and jobs over any rows |
| Scheduler.TickStampsExactly | panel/src/services/scheduler.ts:106-119 | a tick stamps exactly the listed rows that are not stamped in this minute and match |
| Scheduler.StampedIff | panel/src/services/scheduler.ts:103-119 | a listed row is stamped exactly if its expression matches and a multiple of 60000 ms lies between its last stamp and now, so always after 60000 ms |
| Scheduler.JobOfOne | panel/src/services/scheduler.ts:60-80 | the job of each type of task, and that other types, and power actions other than the four, queue nothing |
| Scheduler.JobsInOrder | panel/src/services/scheduler.ts:56-84 | the queue gets the jobs in the order of the tasks, each whatever becomes of the others |
| Scheduler.TickIsARun | panel/src/services/scheduler.ts:96-123 | what a tick of the table does to a schedule it lists is a run of that schedule's life, which the theorems below are about |
| Scheduler.AtMostOncePerMinute | panel/src/services/scheduler.ts:106-119 | with manual runs and executions of any length, and ticks that do not overlap, the scheduler executes a schedule at most once in a minute |
| Scheduler.ExecutedIff | panel/src/services/scheduler.ts:96-128 | over every run with any gaps, execution lengths and manual runs: a schedule is executed in a minute, then once, if and only if the minute is due and the first tick that decides in it had read the row before any stamp of that minute |
| Scheduler.OverlappingTicksExecute | panel/src/services/scheduler.ts:96-128 | with any number of ticks overlapping: in a due minute a schedule is executed as often as ticks decide in it that had read the row before any stamp of it, in others never |
| Scheduler.SecondTickRepeatsIff | panel/src/services/scheduler.ts:125-128 | two ticks that decide in the same due minute both execute if and only if the second read the row before the first one's stamp |
| Scheduler.ExactlyOnceWhenSteady | panel/src/services/scheduler.ts:96-128 | with gaps of at most 60000 ms, executions that end in their minute and no manual run: exactly once in every due minute from first to last tick |
| Scheduler.SlowExecutionSkipsAMinute | panel/src/services/scheduler.ts:86-88 | in every run, a stamp that falls into a minute before its first tick reads the row keeps the schedule from being executed in that minute |
| Paths.AcceptsIff | node-agent/internal/server/server.go:824-827 | the string prefix test holds exactly when the name's components resolve strictly below the destination's |
| Paths.JoinedPrefixIff | node-agent/internal/server/server.go:825 | on joined components the prefix test with separator is the proper prefix of component lists |
| Paths.BareDestinationAcceptsNothing | node-agent/internal/server/server.go:824-827 | a destination without components, the empty one included, accepts no name |
| Paths.GuardKeepsInsideIff | node-agent/internal/server/server.go:824-827 | no accepted name climbs out of the destination if and only if the cleaned destination does not itself end in a climb |
| Paths.DotsResolve | node-agent/internal/server/server.go:824 | a double dot takes the name before it back, and a dot or an empty component changes nothing |
| Paths.ClimbsAtTheTop | node-agent/internal/server/server.go:824 | at the root a double dot stays there; a relative path climbs |
| Archive.DataDirectory.TarDirectory | node-agent/internal/server/server.go:760-805 | the walk writes the tree's entries in walk order, the directory itself left out |
| Archive.DataDirectory.Untar | node-agent/internal/server/server.go:807-850 | the loop extracts entry by entry and stops at the first error, and changes nothing that is not strictly below the destination, whatever the archive |
| Archive.ExtractionConfined | node-agent/internal/server/server.go:824-827 | for every archive whatever: extraction changes nothing but strictly below the destination, and succeeds only if every name resolves to there |
| Archive.BareDestinationExtractsNothing | node-agent/internal/server/server.go:824-827 | into a destination without components nothing is extracted |
| Archive.DirectoryEntryIff | node-agent/internal/server/server.go:829-833 | a directory entry works exactly if its name stays below the destination and no file is in the way, and makes exactly what was missing |
| Archive.FileEntryIff | node-agent/internal/server/server.go:834-846 | a file entry of a name that stays below works exactly if nothing above is a file and no directory is there; then its content is there, with what a longer old file had beyond it, and all else is as it was |
| Archive.OtherEntryIff | node-agent/internal/server/server.go:824-847 | other entries are read past, but their names are tested |
| Archive.ExtractionKeepsFsOk | node-agent/internal/server/server.go:829-846 | extraction, where it fails too, leaves a directory above everything that exists |
| Archive.UntarUndoesTar | node-agent/internal/server/server.go:760-850 | for every tree, extraction into an empty directory succeeds and leaves below it exactly the tree, and all else unchanged |
| Archive.ExportedNamesAccepted | node-agent/internal/server/server.go:824-827 | every exported name passes the guard |
| Archive.OverwriteExactIff | node-agent/internal/server/server.go:838-846 | writing over a file gives the archived content if and only if the old file was not longer |
| Archive.GetDirSize | node-agent/internal/container/manager.go:670-687 | the recursive loop adds the sizes of all files below, modulo 2^64 |
| Archive.MovedSizeUnchanged | node-agent/internal/container/manager.go:650-687 | a moved directory's files add up to the source's size |
| Backup.BackupJob.Visit | node-agent/internal/server/backup.go:45-104 | the callback archives exactly what is not ignored, and skips exactly ignored directories |
| Backup.BackupJob.Run | node-agent/internal/server/backup.go:45-105 | the archive is the unpruned walk without the entries that have an ignored prefix; it holds the paths and contents that the rows below say |
| Backup.PrunedIsKept | node-agent/internal/server/backup.go:53-74 | pruning is an order-preserving filter, for every meaning of a pattern |
| Backup.ArchivedIff | node-agent/internal/server/backup.go:45-105 | a path is archived if and only if it exists and no prefix, root and itself included, is ignored |
| Backup.ArchivedByComponents | node-agent/internal/server/backup.go:45-81 | a path is archived if and only if it exists, does not begin with `.backups`, and no pattern matches ".", a component of the path, or one of its prefixes in full |
| Backup.ArchivedContent | node-agent/internal/server/backup.go:83-104 | every entry holds what is at its path: the content of a file under its slash-separated path, a directory under its path with a slash |
| Backup.EmptyArchiveIff | node-agent/internal/server/backup.go:61-74 | the archive is empty if and only if a pattern matches "." |
| Backup.NoPatternsKeepIff | node-agent/internal/server/backup.go:52-58 | without patterns exactly the backup directory is left out |
| Template.Resolve | panel/src/api/routes/server-settings.ts:141-150 | the loop is the successive replacement, with JavaScript's reading of replacement texts |
| Template.ReplaceFills | panel/src/api/routes/server-settings.ts:147 | one replacement fills the references to one name and touches nothing else |
| Template.TakenLiterallyIff | panel/src/api/routes/server-settings.ts:147 | it does so in every template if and only if no dollar sign of the value is followed by one of the four pattern characters |
| Template.ResolvedIsSimultaneous | panel/src/api/routes/server-settings.ts:141-150 | the loop equals one simultaneous substitution when each value is taken literally and clear of the keys replaced after it |
| Template.SimultaneousIff | panel/src/api/routes/server-settings.ts:146-148 | that condition on a value is exact: it holds if and only if the loop is the simultaneous substitution for every template and all later variables with those keys |
| Template.OrderIndependent | panel/src/api/routes/server-settings.ts:146-148 | two orders of the same variables that both meet the condition give the same text |
| Template.ResolveIdempotent | panel/src/api/routes/server-settings.ts:141-150 | with values clear of all keys, resolving twice is resolving once |
| Template.NestedValueDependsOnOrder | panel/src/api/routes/server-settings.ts:146-148 | for any two variables, a value that refers to the other one is resolved only if that one comes later |
| Template.AmpersandRestoresReference | panel/src/api/routes/server-settings.ts:147 | for any variable, a value that stands for the match puts the reference back |
| Template.PatternsStandFor | panel/src/api/routes/server-settings.ts:147 | what a doubled dollar sign, and a dollar sign with an ampersand, a backquote or an apostrophe, put in the place of a reference |
| Codec.Encrypt | panel/src/api/middleware/auth.ts:90-99 | the loop masks every unit; then UTF-8 and base64 |
| Codec.Decrypt | panel/src/api/middleware/auth.ts:101-111 | the way back, for any input |
| Codec.XorBits | panel/src/api/middleware/auth.ts:95 | the mask of a unit differs from it in exactly the bits that the key's unit has set |
| Codec.MaskWithinKey | panel/src/api/middleware/auth.ts:93-97 | unit i is masked with unit i of the key as far as the key reaches |
| Codec.MaskNextBlock | panel/src/api/middleware/auth.ts:93-97 | and behind a block as long as the key the key begins again |
| Codec.EncryptThenDecrypt | panel/src/api/middleware/auth.ts:90-111 | the two functions run one after the other return the text if and only if its masked form is well-formed UTF-16 |
| Codec.RecoveredIff | panel/src/api/middleware/auth.ts:90-111 | decrypting an encrypted text gives it back if and only if the masked text is well-formed UTF-16, for every text and key |
| Codec.RecoveredAt | panel/src/api/middleware/auth.ts:90-111 | unit by unit: exactly the lone surrogates of the masked text are lost, and come back as U+FFFD unmasked |
| Codec.SmallKeyRecoveredIff | panel/src/api/middleware/auth.ts:90-111 | with key units below 0x400, all ASCII keys, it comes back if and only if it is well-formed itself |
| Codec.LowHalfRecovered | panel/src/api/middleware/auth.ts:90-111 | texts and keys of units below 0x8000 always come back |
| Codec.LargeKeyLosesPlainText | panel/src/api/middleware/auth.ts:90-111 | a key unit in the surrogate range loses plain letters |
| Codec.Utf8RoundTrip | panel/src/api/middleware/auth.ts:98-103 | UTF-8 and back replaces lone surrogates and changes nothing else |
| Codec.Base64RoundTrip | panel/src/api/middleware/auth.ts:98-103 | base64 and back is the identity on bytes |
| Codec.Base64Bits | panel/src/api/middleware/auth.ts:98 | three bytes are written as the four digits of their 24 bits, the first byte on top |
| Codec.DigitIsInAlphabet | panel/src/api/middleware/auth.ts:98 | the digits are those of section 4 of RFC 4648 |
| Codec.DecodedExactly | panel/src/api/middleware/auth.ts:103 | bytes that decode without a replacement character are the encoding of what came out: overlong forms, surrogates and numbers out of range are never taken |
| Codec.DecodeAtAscii | panel/src/api/middleware/auth.ts:103 | behind an ASCII byte decoding begins anew, so an ill-formed part never swallows one |
| Codec.StoredAgain | panel/src/api/middleware/auth.ts:90-111 | a stored text that decodes without a replacement character is, decrypted and encrypted again, the same bytes |
| Hub.NeverPanics | node-agent/internal/websocket/manager.go:37-113 | no interleaving that adds only clients with open channels sends on a closed channel or closes one twice |
| Hub.RegisteredOnceIsLegal | node-agent/internal/websocket/manager.go:37-72 | registering each client once is enough for that |
| Hub.NoPanicAheadIff | node-agent/internal/websocket/manager.go:37-113 | at the moment a client is about to be added, with only new clients registered later: no interleaving ever panics if and only if its channel is still open |
| Hub.AddingClosedPanics | node-agent/internal/websocket/manager.go:40-51 | from every such moment with a closed channel there is a run, without any broadcast, that closes it twice |
| Hub.MembersFixedWhileReading | node-agent/internal/websocket/manager.go:82-113 | while a broadcast runs nobody joins, leaves or is closed |
| Hub.ReceivesSubsequence | node-agent/internal/websocket/manager.go:82-113 | a client receives a subsequence of the broadcasts addressed to it, each at most once, at most its capacity waiting, none missing within its capacity |
| Hub.BroadcastCameToAll | node-agent/internal/websocket/manager.go:82-113 | a finished broadcast came to exactly the registered clients it is addressed to |
| Hub.Manager.Add | node-agent/internal/websocket/manager.go:40-43 | adds the client |
| Hub.Manager.Drop | node-agent/internal/websocket/manager.go:46-52 | removes and closes a registered client; otherwise closes nothing |
| Hub.Manager.Broadcast | node-agent/internal/websocket/manager.go:73-113 | every addressed client with room gets the message, no other channel changes |
| Migrations.SoundStep | panel/src/db/migrate.ts:20-54 | a step of any of the competing runners appends the next file with its effect, or leaves the database alone |
| Migrations.MigratedRun | panel/src/db/migrate.ts:20-54 | over every run the applied files are a prefix of the sorted files, the data is its fold, and every commit added one file |
| Migrations.MigratedFromFresh | panel/src/db/migrate.ts:20-54 | on a fresh database the applied files are the first ones, as many as there were commits |
| Migrations.CompletedRunIsFinal | panel/src/db/migrate.ts:29-33 | after a completed run nothing changes the database and later runners only skip |
| Migrations.Database.RunMigrations | panel/src/db/migrate.ts:20-54 | the loop over the pending files, one transaction each, up to the first failure |
| Migrations.RunCompletesIff | panel/src/db/migrate.ts:29-54 | a lone run keeps the prefix property, completes if and only if all files are applied, and else stopped at the first that failed |
| Migrations.SecondRunIsNoOp | panel/src/db/migrate.ts:20-54 | the run after a completed one changes nothing |

## Left out

- Jobs other than `server.create` and `server.install`: start, stop, kill, restart and delete wrap one agent call or a fallback create; the worker wrapper and `addJob` only move job rows.
- Ports, limits, environment and image of a container: a container is its server, its command and whether it runs.
- Agent.IndexedRun: takes operations one after the other; overlapping ones are in `AgentOverlap`, which leaves out stop and kill because they touch neither index nor containers.
- Workers.JobWorker.ServerCreate: each of its calls is whole on the agent; other operations come between calls, not inside one.
- Contents changed by install scripts: `Workers` keeps only that the script was sent.
- Scheduler.ExactlyOnceWhenSteady: assumes that a tick ends before the next begins, which the code's timer does not enforce; overlapping ticks are in `Scheduler.OverlappingTicksExecute`.
- Cron.MatchField: numbers are integers, so precision beyond 2^53 is not modelled.
- Clocks: the database's `now()` and the panel's clock are one clock.
- Symbolic links, modes, owners, gzip and tar headers, and errors of reading the source tree.
- `filepath.Match`: a parameter of `Backup`; the theorems hold for every such relation.
- Template.Resolve: keys that a regular expression does not take literally, because the model has no regular expressions.
- Codec.Decrypt: base64 text that no encoder produces is read by skipping foreign characters; other ways of Node's decoder to treat misplaced padding are not modelled.
- The encoding of messages on the WebSocket, the read and write pumps, and `StartTokenRefresh`, which is one more broadcast.
- Migrations.MigratedRun: one file's SQL is one atomic effect on the committed data; it is proved that nothing else commits between it and its own commit.
- Database faults inside interleavings: the steps of `Placement` exclude them; `Transfers` and the step of one transfer cover them.
- Scheduler.ExecutedIff: the UPDATE that stamps a schedule goes through; if it failed after the jobs were queued, the next tick of that minute would queue them again.
- CrashReports.HealthMonitor.RunHealthCheck: one pass with nothing in between; `CrashWatch` interleaves the checks.
- Events, email and notifications, and an event that fails after the last statement of a transfer.
- HTTP routing, validation, sessions, permissions and the frontend.
