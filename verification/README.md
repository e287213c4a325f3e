# PandaFuzz: a verified model

PandaFuzz's master hands fuzzing jobs to bots, leases them, times them out and repairs its own
state; the bot minimizes crashes and keeps its corpus small. This project models those parts in
Dafny 4.11 and proves what they guarantee, over every input and every run.

`dafny verify dfyconfig.toml` checks the whole project.

| file | models |
|---|---|
| Common.dfy | jobs, bots, statuses, errors |
| LeaseKernel.dfy | the SQL path: assignment under a lease, completion, lease sweep, stale-reference clearing, heartbeats, acknowledgement and renewal |
| LeaseRuns.dfy | safety of that path over whole runs |
| MasterState.dfy | the key-value path over the cached jobs and bots, and its runs |
| Timeouts.dfy | tracked deadlines and the timeout check |
| Recovery.dfy | orphans, maintenance and startup recovery, as functions, and their convergence |
| RecoveryManager.dfy | the loops that carry recovery out |
| Minimizer.dfy | delta debugging and prefix binary search |
| CorpusTrim.dfy | trimming a corpus to a byte budget |
| BotCache.dfy | the read-through bot cache with eviction |
| StatusCache.dfy | the bot's bounded job-status cache |
| Backoff.dfy | the poller's exponential backoff |

Conventions. Times are nanoseconds on an unbounded integer clock and enter every operation as a
parameter. A nullable column or nil pointer is an `Option`. A database transaction is one atomic
step; where the source reacts to a failed write, a Boolean parameter (`commits`, `stored`,
`jobSaved`) says whether the write went through. Iteration over a Go map is iteration in an
arbitrary order. The objects of the source are classes; their methods are proved against functions
on an immutable view of the object, and the theorems are lemmas about those functions.

## What the model shows about the code

Some plausible properties are false of the code. For each the model keeps the code as it is and
proves exactly when the property holds.

- A bot whose job hits its absolute deadline is not freed by the sweep, and the poller's clearing
  of stale references skips timed-out jobs, so the bot gets no work until a heartbeat of that bot
  arrives that does not report it busy with the job. The bot sends one itself, or a successful
  health poll writes it (pkg/master/bot_poller.go:337-361); no other step of this kernel ends the
  stranding in an orderly run (`LeaseRuns.DeadlineStrandsUntilHeartbeat`, `LeaseRuns.StrandedStep`).
- A heartbeat is written unconditionally. One that reports the holder of a job idle, as a health
  poll between the assignment and the start of the job does, lets the next assignment give the bot
  a second active job (`LeaseKernel.IdleReportDoublesBot`). The invariant between jobs and bots
  holds throughout a run exactly when the run is orderly: no heartbeat contradicts an assignment and
  no acknowledgement reaches a job that is no longer active (`LeaseRuns.InvAlwaysIff`). Fencing,
  leases and order do not depend on that.
- If the repository behind the acknowledgement and renewal handlers is the `jobs` table (the source
  neither implements nor supplies one, see "Left out"): a late acknowledgement of a swept job is
  accepted, because the sweep erases the lease token, and revives the job without a bot
  (`LeaseKernel.LateAckRevivesSweptJob`; exact condition in `LeaseKernel.AckKeepsInvIff`); a repeated
  acknowledgement of a completed job lets it be completed twice
  (`LeaseKernel.LateAckAllowsSecondCompletion`), and nothing else does
  (`LeaseRuns.SecondCompletionNeedsRevival`). A late renewal is accepted too and gives the terminal
  row a lease again (`LeaseKernel.LateRenewalTouchesSweptJob`); no other step of this kernel changes
  a terminal row (`LeaseRuns.TerminalFrozenIff`).
- The key-value assignment rewrites the cached job before storing it. A failed store breaks the
  bijection between jobs and bots, and every retry takes another pending job
  (`MasterState.HandKeepsBijectionIff`, `MasterState.RetriesLeakJobs`). The search for orphans
  finds such a job exactly when its bot is unhealthy or the job's deadline (or a lease it had
  before) is past by more than 10 seconds (`Recovery.LeakedJobOrphanedIff`).
- One maintenance pass is not always enough, two are (`Recovery.OnePassSufficesIff`,
  `Recovery.TwoPassesConverge`). Even two do not always restore the bijection between jobs and bots:
  a bot within its timeout keeps pointing at the orphan that was taken from it
  (`Recovery.TwoPassesRestoreBijectionIff`, `Recovery.TwoPassesMayFallShort`).
- A health poll of a bot without a job stores a reference to the empty job identifier, which breaks
  the bijection of the cache every time (`MasterState.IdlePollBreaksBijection`). The bijection holds
  throughout a run exactly when every write goes through, no bot with a job is reset and every
  heartbeat confirms the record (`MasterState.BijectionAlwaysIff`).
- The tracked deadline of a deleted job is never dropped (`Timeouts.MissingJobStaysTracked`), and a
  late bot that holds a late job comes out of the same check as idle (`Timeouts.CheckOnLateBot`).
- Startup requeues an orphaned job and then deletes it when it is more than a day old
  (`Recovery.OldOrphansAreDeleted`).
- A poller that has exhausted its retries never polls the bot again, and after one success the
  waits are zero for good (`Backoff.ExhaustedForever`, `Backoff.ResetStreakDoublesIff`).
- Delta debugging guarantees a 1-minimal result for inputs of a given length if and only if the
  budget is at least the length less one (`Minimizer.GuaranteedIff`); the default of 100 rounds
  therefore falls short for every length from 102 bytes on (`Minimizer.BudgetIsTight`).

## Model

| member | source | states |
|---|---|---|
| `LeaseKernel.StepKeepsInv` | pkg/master/state_adapter.go:170-337 | every orderly step of the SQL path keeps: each assigned, starting or running job names an existing bot that is busy with exactly that job, and no other job names a bot |
| `LeaseKernel.OneJobPerBot` | pkg/master/state_adapter.go:225-233 | in such a state two active jobs never share a bot |
| `LeaseKernel.HeartbeatKeepsInvIff` | pkg/master/state_adapter.go:121-129 | the unconditional heartbeat write keeps the invariant if and only if it reports the bot busy with the active job assigned to it, when there is one |
| `LeaseKernel.AckKeepsInvIff` | pkg/api/v1/adapters/job_adapter.go:1069-1103 | an accepted acknowledgement keeps the invariant if and only if the job is still active, taking the repository to be the jobs table |
| `LeaseKernel.StepKeepsInvIff` | pkg/master/state_adapter.go:96-337 | of all steps the invariant survives exactly those that are neither a contradicting heartbeat nor an accepted acknowledgement of an inactive job |
| `LeaseKernel.IdleReportDoublesBot` | pkg/master/state_adapter.go:121-129 | after a heartbeat that reports the holder of an active job idle, the next assignment makes it own two active jobs |
| `LeaseKernel.LateAckRevivesSweptJob` | pkg/api/v1/adapters/job_adapter.go:1083-1097 | taking the repository to be the jobs table, any acknowledgement of a job the sweep timed out is accepted and leaves it active without a bot |
| `LeaseKernel.LateRenewalTouchesSweptJob` | pkg/api/v1/adapters/job_adapter.go:1130-1159 | taking the repository to be the jobs table, any renewal of a job the sweep made terminal is accepted and changes the row, in its lease and last heartbeat and nothing else |
| `LeaseKernel.LateAckAllowsSecondCompletion` | pkg/api/v1/adapters/job_adapter.go:1083-1097 | under the same reading a completed job that is acknowledged again can be granted, once the lease has run out, and completed a second time |
| `LeaseKernel.GrantStrandsHolder` | pkg/master/state_adapter.go:213-233 | granting a lapsed job to a second bot leaves the first one busy with a job it no longer owns |
| `LeaseKernel.SweepClears` | pkg/master/state.go:730-824 | a sweep times out, unassigns and stamps exactly the active jobs at or past their deadline and the jobs not running yet whose lease is over (without a lease: 45 seconds after assignment); every other row is unchanged and nothing is overdue afterwards |
| `LeaseKernel.SweepFrees` | pkg/master/state.go:799-820 | exactly the holders of jobs timed out ahead of their deadline become idle without a job; every other bot row is unchanged |
| `LeaseKernel.DeadlineStrandsHolder` | pkg/master/state.go:738-755 | the absolute timeout leaves the holder of the job busy with it |
| `LeaseKernel.MidwayStep` | pkg/master/state.go:777-822 | the rows of the sweep can be visited in any order: one turn of the loop takes the pointwise result for the rows visited to that for one row more |
| `LeaseKernel.OldestExists` | pkg/master/state_adapter.go:189-204 | whenever some job is eligible there is an oldest one for the query to return |
| `LeaseKernel.OfferedWhen` | pkg/master/state_adapter.go:189-198 | a pending job is on offer until its deadline, a granted one that is not running from the end of its lease to its deadline (without a lease: from 45 seconds after assignment), any other job never |
| `LeaseKernel.GrantLapses` | pkg/master/state_adapter.go:207-223 | a granted job is assigned, is on offer again exactly from 45 seconds on until its deadline, and only its token is accepted for it |
| `LeaseKernel.AttentionBuysAMinute` | pkg/api/v1/adapters/job_adapter.go:1089-1097 | an acknowledged job is starting; it, and a renewed job that is not running, is on offer again exactly from 60 seconds on until its deadline |
| `LeaseKernel.Tables.AssignJob` | pkg/master/state_adapter.go:170-287 | grants an oldest eligible job to an idle bot, or changes nothing: the job becomes assigned with a 45 second lease, the bot busy with it; succeeds if and only if the writes commit, the bot is idle and a job is eligible; "not found" if and only if none is eligible; keeps the invariant |
| `LeaseKernel.Tables.CompleteJob` | pkg/master/state_adapter.go:289-337 | succeeds if and only if the caller owns the job and the writes commit, otherwise changes nothing; the job is completed or failed as reported, unassigned and stamped, the bot idle; keeps the invariant |
| `LeaseKernel.Tables.ExpireLapsed` | pkg/master/state.go:777-822 | the sweep's loop, in whatever order it visits the rows, ends in the pointwise result |
| `LeaseKernel.Tables.SweepExpiredLeases` | pkg/master/state.go:730-824 | the update and the loop have exactly the pointwise effect of the sweep; keeps the invariant |
| `LeaseKernel.Tables.ClearStaleReference` | pkg/master/bot_poller.go:241-258 | clears a reference to a completed, failed or cancelled job and nothing else; keeps the invariant |
| `LeaseKernel.Tables.UpdateHeartbeat` | pkg/master/state_adapter.go:96-136 | writes the reported status and job; rejects an empty identifier and an unknown bot, changing nothing; keeps the invariant when the report agrees with the assignment |
| `LeaseKernel.Tables.AckJob` | pkg/api/v1/adapters/job_adapter.go:1070-1103 | on the jobs table: accepted if and only if the job exists, its token is absent, empty or equal and the update is stored; otherwise nothing changes; then it is starting with a 60 second lease, and the invariant survives if and only if the job was active |
| `LeaseKernel.Tables.RenewLease` | pkg/api/v1/adapters/job_adapter.go:1130-1159 | on the jobs table: accepted under the same condition, otherwise nothing changes; only the lease is extended and the last heartbeat noted; keeps the invariant |
| `LeaseRuns.InvAlways` | pkg/master/state_adapter.go:170-337 | the invariant holds in every state of every orderly run |
| `LeaseRuns.InvAlwaysIff` | pkg/master/state_adapter.go:96-337 | a run that starts in the invariant stays in it throughout if and only if all its steps are orderly |
| `LeaseRuns.NoBotHoldsTwoJobs` | pkg/master/state_adapter.go:225-233 | in every state of an orderly run distinct active jobs have distinct bots |
| `LeaseRuns.JobsPersist` | pkg/master/state_adapter.go:213-223 | in any run no step drops a job or changes its creation time or deadline |
| `LeaseRuns.NeverPendingAgain` | pkg/master/state_adapter.go:213-223 | in any run a job that has left the queue never returns to it on this path |
| `LeaseRuns.TidyAlways` | pkg/master/state_adapter.go:304-313 | in any run, if an inactive job has no owner, it stays true that the job has an owner only while it is active |
| `LeaseRuns.TerminalFrozen` | pkg/master/state.go:740-748 | in any run, until a late acknowledgement revives it, the row of a terminal unowned job never changes again except for the lease and last heartbeat, and not at all while no renewal of it is accepted |
| `LeaseRuns.TerminalFrozenIff` | pkg/master/state.go:740-748 | such a row stays as it is, up to those columns, if and only if no late acknowledgement of the job is accepted |
| `LeaseRuns.SecondCompletionNeedsRevival` | pkg/master/state_adapter.go:304-313 | in any run a late acknowledgement of the job was accepted between two completions of it |
| `LeaseRuns.CompletedAtMostOnce` | pkg/master/state_adapter.go:304-313 | no job is completed twice in an orderly run |
| `LeaseRuns.OutcomeIsFinal` | pkg/master/state_adapter.go:304-313 | in any run the outcome and time a completion records stay, with no owner, until a late acknowledgement revives the job |
| `LeaseRuns.FencedOut` | pkg/master/state_adapter.go:304-313 | in any run a bot that does not own a job stays locked out of it until the job is granted to it, and its completions change nothing |
| `LeaseRuns.OwnerWasGranted` | pkg/master/state_adapter.go:213-223 | in any run whoever owns a job owned it from the start with no grant since, or is the bot of the job's last grant |
| `LeaseRuns.CompletionHasGrant` | pkg/master/state_adapter.go:304-313 | in any run every completion of a job that nobody owned at the start is by the bot of the job's last grant |
| `LeaseRuns.GrantsApart` | pkg/master/state_adapter.go:186-223 | in any run under a clock that never goes back two grants of one job are at least 45 seconds apart |
| `LeaseRuns.UnattendedGrantLapses` | pkg/master/state_adapter.go:186-223 | in any run a granted job that nobody acknowledges, renews or completes stays assigned, is on offer again exactly from 45 seconds after the grant until its deadline, and is timed out by the first sweep from then or from its deadline on, and by no earlier one |
| `LeaseRuns.NoGrantAfterDeadline` | pkg/master/state_adapter.go:194-198 | in any run no job is granted at or after the deadline it was created with |
| `LeaseRuns.NoBypass` | pkg/master/state_adapter.go:189-198 | in any run, while a job stays pending with its deadline ahead, every job granted was created no later than it |
| `LeaseRuns.StrandedStep` | pkg/master/bot_poller.go:225-258 | a bot busy with a timed-out job ceases to be so at a step if and only if the step is a heartbeat of the bot that does not report it busy with that job, an accepted acknowledgement of the job, or a completion by the bot or of the job; in orderly runs only the heartbeat occurs |
| `LeaseRuns.StrandedUntilReleased` | pkg/master/bot_poller.go:241-258 | in any run a bot busy with a timed-out job stays so and is granted nothing until such a step |
| `LeaseRuns.StrandedUntilHeartbeat` | pkg/master/bot_poller.go:241-258 | in an orderly run it stays so until such a heartbeat |
| `LeaseRuns.DeadlineStrandsUntilHeartbeat` | pkg/master/state.go:738-755 | hence in an orderly run a sweep that times a job out by its deadline takes the holder out of service until such a heartbeat |
| `MasterState.StepKeepsBijectionIff` | pkg/master/state_job.go:364-652 | "the bot's current job is j" equivalent to "active job j is assigned to the bot", busy equivalent to having a job, and active equivalent to assigned: of all steps exactly those keep this that have their writes go through, do not reset a bot with a job and, as heartbeats, confirm the record |
| `MasterState.CloseKeepsBijection` | pkg/master/state_job.go:578-652 | completion keeps the bijection whether or not its store succeeds |
| `MasterState.FailKeepsBijection` | pkg/master/recovery.go:451-511 | handling a bot failure keeps the bijection |
| `MasterState.FailSettles` | pkg/master/recovery.go:459-495 | the bot is failed and counted; its job, if it exists, is pending and unassigned again, and the bot lets go of it if and only if the job exists and was saved |
| `MasterState.CancelKeepsBijection` | pkg/service/job_service.go:442-487 | cancelling a job keeps the bijection |
| `MasterState.CancelSettles` | pkg/service/job_service.go:454-482 | a job that has not completed or failed is cancelled, stamped and unassigned and exactly its holder idled; any other job is left alone |
| `MasterState.BijectionAlways` | pkg/master/state_job.go:364-652 | the bijection holds in every state of every orderly run |
| `MasterState.BijectionAlwaysIff` | pkg/master/state_job.go:364-652 | a run that starts with the bijection keeps it throughout if and only if all its steps are orderly |
| `MasterState.AccountedAlways` | pkg/master/state_job.go:400-431 | in every run, with failed writes, resets and arbitrary heartbeats, a job is assigned if and only if it is active, and to an existing bot |
| `MasterState.ActiveJobsEqualBusyBots` | pkg/master/state_job.go:400-431 | in every state of an orderly run there are as many active jobs as busy bots |
| `MasterState.ResetKeepsBijectionIff` | pkg/master/state_bot.go:150-184 | resetting a bot keeps the bijection if and only if it had no job |
| `MasterState.HandKeepsBijectionIff` | pkg/master/state_job.go:400-448 | an assignment attempt keeps the bijection if and only if its store succeeds |
| `MasterState.FailKeepsBijectionIff` | pkg/master/recovery.go:460-498 | the failure handler keeps it if and only if there was no job or the job could be saved |
| `MasterState.HeardKeepsBijectionIff` | pkg/master/state_bot.go:187-198 | a heartbeat keeps it if and only if it names the job on record and reports busy exactly with a job |
| `MasterState.IdlePollBreaksBijection` | pkg/master/bot_poller.go:341-351 | a health poll of a bot without a job always breaks it, by storing a reference to the empty identifier |
| `MasterState.RetriesLeakJobs` | pkg/master/state_job.go:367-436 | n failed stores leave n distinct jobs assigned in the cache to a bot whose own record is unchanged |
| `MasterState.NormalizeIff` | pkg/master/state_job.go:496-525 | two names are normalized alike if and only if, up to letter case and the blanks around them, they are equal or the two spellings of afl++ |
| `MasterState.OtherFuzzersDiffer` | pkg/master/state_job.go:471-491 | a bot that only runs libfuzzer is never offered a job for afl++ |
| `MasterState.PersistentState.FindAvailableJob` | pkg/master/state_job.go:463-493 | returns a pending job before its deadline whose fuzzer is one of the bot's capabilities up to spelling, or nothing if and only if there is none |
| `MasterState.PersistentState.AssignJob` | pkg/master/state_job.go:364-459 | the exact effect and outcome of one attempt: the cached job is assigned either way, the cached bot is busy with it if and only if the store succeeds |
| `MasterState.PersistentState.CompleteJob` | pkg/master/state_job.go:579-652 | succeeds if and only if job and bot exist, the job is assigned to the bot and the store succeeds; in either case the cached job is completed or failed as reported and unassigned, and the cached bot idle; keeps the bijection |
| `MasterState.PersistentState.UpdateJobStatusToTimedOut` | pkg/master/state_job.go:528-576 | a pending job becomes failed, any other job is left alone |
| `MasterState.PersistentState.ResetBot` | pkg/master/state_bot.go:150-184 | the bot is timed out without a job and with one more failure; fails for an unknown bot |
| `MasterState.PersistentState.UpdateBotInCache` | pkg/master/state_bot.go:187-198 | overwrites the cached bot with the report; keeps the bijection if and only if the report confirms the record |
| `Timeouts.TimeOutAllStep` | pkg/master/timeouts.go:198-204 | late jobs can be handled in any order with the same result |
| `Timeouts.ResetAllStep` | pkg/master/timeouts.go:190-196 | late bots can be handled in any order with the same result |
| `Timeouts.CheckSettlesLateJobs` | pkg/master/timeouts.go:185-257 | when active jobs have a holder and pending ones none, a check ends the tracking of a job if and only if it is late and it and its holder exist; such a job is failed, stamped and unassigned unless it was already over without a bot, and every job still tracked is untouched |
| `Timeouts.CheckSettlesInRuns` | pkg/master/timeouts.go:185-257 | hence in every state of every run of the cache a check ends the tracking of a job if and only if it is late and exists, and leaves it terminal |
| `Timeouts.CheckKeepsAssignable` | pkg/master/timeouts.go:310-366 | a check keeps that premise |
| `Timeouts.MissingJobStaysTracked` | pkg/master/timeouts.go:313-318 | the deadline of a missing job is tracked unchanged after every check |
| `Timeouts.CheckOnLateBot` | pkg/master/timeouts.go:260-307 | a late bot loses its job and its tracking and counts one more failure; it ends idle if and only if it held a late job, and timed out otherwise |
| `Timeouts.CheckOnBot` | pkg/master/timeouts.go:185-223 | what a check makes of any bot: late ones are reset and counted, holders of late jobs come out idle, nobody else is touched, and exactly the late bots are untracked |
| `Timeouts.TimeoutRespectsTerminalIff` | pkg/master/timeouts.go:329-340 | timing out an already terminal, not failed job leaves its status alone if and only if no bot is assigned to it |
| `Timeouts.TimeoutManager.HandleJobTimeout` | pkg/master/timeouts.go:310-366 | succeeds, and untracks the job, if and only if the job and its holder exist |
| `Timeouts.TimeoutManager.HandleBotTimeout` | pkg/master/timeouts.go:260-307 | resets and untracks an existing bot, fails otherwise |
| `Timeouts.TimeoutManager.PerformTimeoutCheck` | pkg/master/timeouts.go:185-223 | the loops have exactly the pointwise effect of the check |
| `Recovery.MaintainRows` | pkg/master/recovery.go:514-575 | one pass requeues exactly the orphans, resets exactly the bots past their timeout that are not marked yet, and deletes exactly the jobs completed or failed more than 48 hours ago; every other row is unchanged |
| `Recovery.MaintainDeadlines` | pkg/master/recovery.go:134-221 | exactly the orphans are tracked anew and exactly the reset bots are untracked; other tracked deadlines are unchanged |
| `Recovery.OrphanIff` | pkg/master/state.go:123-178 | an active job is an orphan if and only if its bot is missing, failed, timed out or offline, its lease is past by more than 10 seconds, or its deadline is and the bot does not work on it |
| `Recovery.TrustedJobStays` | pkg/master/state.go:170-177 | maintenance never takes a job, however late, from an online bot within its timeout that works on it and whose lease is not over |
| `Recovery.OrphansAfterOnePass` | pkg/master/state.go:113-181 | after one pass the orphans are exactly the healthy assignments of bots that were past their timeout |
| `Recovery.OnePassSufficesIff` | pkg/master/recovery.go:514-544 | one pass leaves no orphan if and only if no bot past its timeout held a healthy job |
| `Recovery.OnePassMayFallShort` | pkg/master/recovery.go:519-527 | there is a bijective state for which one pass leaves an orphan |
| `Recovery.QuietIsFixed` | pkg/master/recovery.go:514-575 | a state with no orphan, no late bot and nothing very stale is a fixed point of maintenance |
| `Recovery.TwoPassesConverge` | pkg/master/recovery.go:514-575 | from every state two passes at one instant leave no orphan, and a third changes nothing, tracked deadlines included |
| `Recovery.TwoPassesRestoreBijectionIff` | pkg/master/recovery.go:514-544 | from a bijective state two passes leave every active job with a bot that works on it, and restore the bijection if and only if no bot within its timeout works on an orphan |
| `Recovery.TwoPassesMayFallShort` | pkg/master/recovery.go:134-183 | there is a bijective state from which two passes do not restore the bijection |
| `Recovery.LeakedJobOrphanedIff` | pkg/master/state.go:123-178 | a job leaked by failed assignment stores is an orphan at a later time if and only if its bot is unhealthy or its deadline, or a lease it had before, is past by more than the grace period |
| `Recovery.StartupRows` | pkg/master/recovery.go:83-111 | a job survives startup if and only if it is not stale once requeued and extended, and is then left exactly so |
| `Recovery.StartupJob` | pkg/master/recovery.go:224-338 | a pending or orphaned job survives if and only if it was created at most 24 hours ago, a completed, failed or cancelled one if and only if it ended at most 24 hours ago, any other always; the orphan is requeued and a pending job past its deadline gets a new one; nothing else changes |
| `Recovery.StartupDeadline` | pkg/master/recovery.go:224-338 | surviving pending jobs are tracked anew, deleted jobs are not tracked, all other tracked deadlines are unchanged |
| `Recovery.StartupBot` | pkg/master/recovery.go:186-221 | bots past their timeout are reset and untracked, bots that point at a job that did not survive become idle, nobody else is touched |
| `Recovery.ValidateRows` | pkg/master/recovery.go:365-438 | the validation idles exactly the bots that reference missing jobs and requeues exactly the assigned or running jobs of missing bots |
| `Recovery.StartupConsistent` | pkg/master/recovery.go:224-448 | after startup no bot references a missing job, every active job names an existing bot, no pending job is past its deadline, nothing stale is left |
| `Recovery.OldOrphansAreDeleted` | pkg/master/recovery.go:297-329 | an orphaned job survives the startup that requeues it if and only if it is at most 24 hours old |
| `RecoveryManager.Manager.FindOrphanedJobs` | pkg/master/state.go:113-181 | returns exactly the orphans |
| `RecoveryManager.Manager.FindTimedOutBots` | pkg/master/state_bot.go:133-147 | returns exactly the bots past their timeout that are not marked timed out yet |
| `RecoveryManager.Manager.RecoverOrphanedJobs` | pkg/master/recovery.go:134-183 | requeues exactly the orphans and tracks them anew |
| `RecoveryManager.Manager.ResetTimedOutBots` | pkg/master/recovery.go:186-221 | resets and untracks exactly the late bots |
| `RecoveryManager.Manager.CleanUpLightly` | pkg/master/recovery.go:547-575 | deletes exactly the jobs completed or failed more than 48 hours ago, keeping their deadlines tracked |
| `RecoveryManager.Manager.PerformMaintenance` | pkg/master/recovery.go:514-544 | carries out one maintenance pass |
| `RecoveryManager.Manager.ResumePendingJobs` | pkg/master/recovery.go:224-262 | extends the pending jobs past their deadline and tracks every pending job |
| `RecoveryManager.Manager.CleanupStaleData` | pkg/master/recovery.go:265-338 | deletes and untracks exactly the stale jobs |
| `RecoveryManager.Manager.ValidateSystemState` | pkg/master/recovery.go:365-438 | idles the bots that reference missing jobs and requeues the assigned or running jobs of missing bots |
| `RecoveryManager.Manager.RecoverOnStartup` | pkg/master/recovery.go:66-131 | carries out the stages of startup recovery in order |
| `RecoveryManager.Manager.HandleBotFailure` | pkg/master/recovery.go:451-511 | the exact effect on cache and tracked deadlines, missing job and failed save included |
| `Minimizer.CutIsSubsequence` | pkg/bot/minimizer_client.go:291-297 | removing a chunk leaves a subsequence |
| `Minimizer.PassImproves` | pkg/bot/minimizer_client.go:284-322 | a round that succeeds yields a crashing, strictly shorter, non-empty subsequence |
| `Minimizer.StuckIsOneMinimal` | pkg/bot/minimizer_client.go:324-326 | when no chunk can be removed and two bytes are left, no single byte can |
| `Minimizer.StuckIff` | pkg/bot/minimizer_client.go:282-327 | a round improves nothing if and only if no chunk of the sizes |s|/2, |s|/4, ... 1 can be removed |
| `Minimizer.RoundIff` | pkg/bot/minimizer_client.go:282-322 | a round yields t if and only if t is the input without the first removable chunk of the largest size that has one |
| `Minimizer.ShrinkSound` | pkg/bot/minimizer_client.go:263-337 | the result is a subsequence of the input, crashes if the input does, and is empty only if the input is |
| `Minimizer.ShrinkGetsStuck` | pkg/bot/minimizer_client.go:280-328 | a budget of the input length less one always ends with nothing removable |
| `Minimizer.ShrinkOneMinimal` | pkg/bot/minimizer_client.go:280-328 | with that budget a result of two or more bytes is 1-minimal |
| `Minimizer.ShrinkTrace` | pkg/bot/minimizer_client.go:275-328 | a whole minimization is a sequence of such rounds that stops at the budget or where no chunk can be removed |
| `Minimizer.RoundCost` | pkg/bot/minimizer_client.go:282-322 | a round makes at most three oracle calls per byte |
| `Minimizer.RoundsBound` | pkg/bot/minimizer_client.go:306-327 | the improving rounds number at most the budget and at most the bytes removed |
| `Minimizer.TotalCost` | pkg/bot/minimizer_client.go:280-328 | a whole minimization makes at most 3 * length * (rounds + 1) oracle calls |
| `Minimizer.BudgetIsTight` | pkg/bot/minimizer_client.go:275-278 | for every length and every budget below the length less one some crash is left with a removable byte |
| `Minimizer.GuaranteedIff` | pkg/bot/minimizer_client.go:275-328 | for inputs of length n every oracle and every crash end with one byte or 1-minimal if and only if n is at most the budget plus one |
| `Minimizer.DeltaDebugMinimize` | pkg/bot/minimizer_client.go:263-337 | the result is reached by rounds that each remove the first removable chunk of the largest size that has one, until nothing can be removed or the budget (100 by default) is used up; it has the guarantees of the lemmas; only a cancelled context yields no result |
| `Minimizer.BinarySearchMinimize` | pkg/bot/minimizer_client.go:349-401 | returns a prefix that crashes if the input does; run to completion it is empty or the prefix one byte shorter does not crash, and for a prefix-monotone oracle it is the shortest crashing prefix; every oracle call, failing ones included, halves the gap to a prefix known not to crash, so inputs shorter than 2^k need at most k calls; it stops early only when the budget (50 by default) is used up, and completes for inputs shorter than 2^budget |
| `CorpusTrim.SortSorts` | pkg/bot/cleanup_manager.go:497-504 | the exchange sort orders the files oldest first |
| `CorpusTrim.SortPermutes` | pkg/bot/cleanup_manager.go:497-504 | the exchange sort permutes the files |
| `CorpusTrim.SumsAddUp` | pkg/bot/cleanup_manager.go:506-534 | freed and kept bytes add up to the total |
| `CorpusTrim.SumsAreAdditive` | pkg/bot/cleanup_manager.go:470-487 | totals, freed and kept bytes are the sums of the file sizes |
| `CorpusTrim.TotalPermutes` | pkg/bot/cleanup_manager.go:470-487 | the total size does not depend on the order of the files |
| `CorpusTrim.LimitMetWhenDeletable` | pkg/bot/cleanup_manager.go:509-532 | when every file can be deleted the kept files fit the limit |
| `CorpusTrim.ExchangeSort` | pkg/bot/cleanup_manager.go:497-504 | sorts the array in place: time-ordered and a permutation |
| `CorpusTrim.DeleteOldest` | pkg/bot/cleanup_manager.go:509-532 | deletes in order and stops only when enough is freed, the files are exhausted or the context is cancelled |
| `CorpusTrim.TrimCorpus` | pkg/bot/cleanup_manager.go:463-535 | freed + kept = total; no deleted file is newer than a kept one that could have been deleted; keeping the last deleted file would exceed the limit; the kept files fit the limit or everything deletable is gone |
| `BotCache.StepRefinesPlain` | pkg/master/state_bot.go:15-117 | every operation keeps the cache coherent with the database and answers as a plain map |
| `BotCache.CacheIsTransparent` | pkg/master/state_bot.go:45-117 | over any sequence of saves, reads and deletes, whatever is evicted, every read returns what a plain map would |
| `BotCache.RecordsStayPast` | pkg/master/state_bot.go:53-87 | under a strictly advancing clock every access record lies before the time of the next operation, so that the eviction scan considers it |
| `BotCache.RecordIsRead` | pkg/master/state_bot.go:53-87 | every access record is the time of a successful read of that bot |
| `BotCache.ReadIsRecorded` | pkg/master/state_bot.go:49-55 | a successful read, hit or miss, leaves a record no older than itself as long as the bot stays cached |
| `BotCache.GetBounded` | pkg/master/state_bot.go:80-87 | in every sequence of operations under a strictly advancing clock and with a limit of at least one no read grows the cache beyond its previous size or the limit, an empty identifier excepted |
| `BotCache.EvictsLeastRecentlyRead` | pkg/master/state_bot.go:46-90 | in every sequence of operations under a strictly advancing clock only a full cache evicts, and if the victim was read since it was cached, every other cached bot was read after that |
| `BotCache.Cache.FindVictim` | pkg/master/state_bot.go:213-237 | picks an entry without an access record or the least recently accessed one, and none if and only if no entry qualifies (an empty identifier excepted) |
| `BotCache.Cache.GetBot` | pkg/master/state_bot.go:46-90 | returns what the database holds and is a step of the cache |
| `BotCache.Cache.SaveBot` | pkg/master/state_bot.go:15-43 | a save is a step of the cache and keeps it coherent |
| `BotCache.Cache.DeleteBot` | pkg/master/state_bot.go:93-117 | a deletion is a step of the cache and keeps it coherent |
| `StatusCache.LatestIsLast` | pkg/bot/api.go:218-219 | the update the cached status is compared with is the last one of its job |
| `StatusCache.Fits` | pkg/bot/api.go:218-222 | an update without eviction leaves exactly the hundred most recently updated jobs cached |
| `StatusCache.Evicted` | pkg/bot/api.go:222-232 | so does an update that evicts the entry with the oldest stamp |
| `StatusCache.RecentBounded` | pkg/bot/api.go:221-222 | no more than a hundred jobs are recent |
| `StatusCache.APIServer.OldestEntry` | pkg/bot/api.go:223-230 | finds the entry with the oldest stamp before now, or nothing if and only if there is none |
| `StatusCache.APIServer.UpdateJobStatus` | pkg/bot/api.go:214-233 | after any sequence of updates the cache holds exactly the hundred most recently updated distinct jobs, or all of them, each with its latest status; it grows by new jobs up to 100 and never shrinks |
| `Backoff.StreakWaits` | pkg/master/bot_poller.go:551-584 | after k >= 1 failures from a fresh doubling backoff the wait is min(max, initial * 2^k), and the uncapped initial interval before the first; k never exceeds the maximal number of retries, and the failures are spaced by those waits |
| `Backoff.StreakPollsIff` | pkg/master/bot_poller.go:562-572 | after k failures the bot is polled again if and only if retries are left and min(max, initial * 2^k) has passed since the last one |
| `Backoff.RetriesBounded` | pkg/master/bot_poller.go:562-584 | the retry count never exceeds its maximum, whatever the intervals |
| `Backoff.MarkedOnce` | pkg/master/bot_poller.go:500-513 | for every multiplier and interval the bot is marked unreachable once, when the retries are exhausted, and not before |
| `Backoff.MarkedNoSooner` | pkg/master/bot_poller.go:500-513 | the mark comes no sooner after the first failure than the waits in between add up to |
| `Backoff.SuccessRestoresRetries` | pkg/master/bot_poller.go:224-225 | after an answered poll every visit of a silent bot polls it until as many failures as there are retries, and exactly the last of them marks it |
| `Backoff.ExhaustedForever` | pkg/master/bot_poller.go:200-225 | once the retries are exhausted no later visit polls the bot, whatever it would answer |
| `Backoff.NoWaitsAfterReset` | pkg/master/bot_poller.go:586-591 | after a success every wait of later failures is zero |
| `Backoff.ResetStreakDoublesIff` | pkg/master/bot_poller.go:574-591 | after a success the doubled wait is right if and only if the initial or the maximal interval is zero |
| `Backoff.ExponentialBackoff.MayRetry` | pkg/master/bot_poller.go:562-572 | allows a poll if and only if retries are left and the interval has passed since the last failure |
| `Backoff.ExponentialBackoff.RecordFailure` | pkg/master/bot_poller.go:575-584 | one more retry, the time of the failure, and the interval multiplied and capped |
| `Backoff.ExponentialBackoff.PollBot` | pkg/master/bot_poller.go:200-225 | one visit of the polling loop, as far as the backoff is concerned |

## Left out

- HTTP clients and handlers (apart from the effect of acknowledgement and lease renewal), routing, WebSocket, metrics, configuration and logging: plumbing.
- SQLite, the retry manager and the circuit breaker: transactions are atomic steps; a retry is another attempt.
- The in-memory copies that the SQL path updates beside its tables, including the sweep's unconditional update of the cached bot.
- Errors of single statements inside the lease sweep, and save or delete errors inside the recovery loops and the timeout check: the model lets them succeed.
- The poller's unreachable marking of bot and job records and its reconciliation of mismatched assignments: they overwrite rows without checking ownership.
- The acknowledgement and renewal handlers work on a `JobRepository` (pkg/domain/job/repository/interface.go:11) that the source neither implements nor supplies (pkg/master/server.go:446-458 leaves it unset), and whose job type has no assigned bot and no timed-out status. The model takes it to be the `jobs` table of the SQL path; everything said about acknowledgements and renewals rests on that reading.
- LeaseKernel.Tables.AckJob: conditional on the repository being the jobs table.
- LeaseKernel.Tables.RenewLease: conditional on the repository being the jobs table.
- LeaseKernel.AckKeepsInvIff: conditional on the repository being the jobs table.
- LeaseKernel.LateAckRevivesSweptJob: conditional on the repository being the jobs table.
- LeaseKernel.LateAckAllowsSecondCompletion: conditional on the repository being the jobs table.
- LeaseKernel.LateRenewalTouchesSweptJob: conditional on the repository being the jobs table.
- Resets of bots (pkg/master/state_bot.go:150-184) and the poller's unreachable marking (pkg/master/bot_poller.go:516-548) are not steps of the lease kernel; both clear the bot's reference and so end a stranding too.
- `ListJobs` (pkg/master/state_job.go:198-236) reads the jobs from SQLite and refreshes the cached ones with them, so that a later stage of recovery may undo a cached job that was never stored; orphans, bots and late bots are searched in the cache. `Recovery` uses one map for both.
- Cancellation on the SQL path, campaigns, crash and coverage records, corpus synchronisation.
- Statistics counters, audit events and log output of the recovery and timeout managers.
- Stages of one maintenance pass or timeout check share one reading of the clock; startup recovery reads it once per stage.
- `MasterState.Normalize` lowers and trims ASCII only.
- StatusCache.APIServer.UpdateJobStatus: assumes that each stamp is later than the previous ones; with equal stamps the code may evict nothing, as the contract of `OldestEntry` shows.
- Backoff.StreakWaits: the multiplication is exact, as it is in double precision for intervals below 2^53 nanoseconds.
- Bot identifiers in the cache may be empty, as in the code; an empty one is never evicted.
