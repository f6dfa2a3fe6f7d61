# Inbox Copilot API: verified model

A Dafny model of the parts of the Inbox Copilot API server whose correctness is hardest to see
from the code: the mailbox mirror, scheduled sends, wall-clock resolution, the rate limiter,
keyset pagination, schema conversion, outgoing MIME messages and the address parser that reads
them back, token refresh under a Redis lock, follow-up reminders, and retries. Check it with
`dafny verify dfyconfig.toml`.

Where the code changes state step by step, the model is a state machine whose steps are single
database statements, provider calls or timer events, so that crashes and other workers fall
between any two of them; the theorems are about every run. Beside each machine stands the code
in its own form: a class whose methods update the fields, or a method with the loop, each proved
equal to a run of the machine or to the specification function.

| files | what they model |
|---|---|
| `Common.dfy` | options, results and queue job states, shared by the others |
| `Timezone.dfy` | wall times and instants over a zone's transition table (`lib/timezone.ts`) |
| `RateLimiter.dfy` | the token bucket (`lib/rateLimiter.ts`) |
| `Schedule.dfy` | scheduled sends: rows, jobs, sweeps, cancels (`services/schedule.ts`) |
| `HistoryFold.dfy`, `HistoryPages.dfy`, `Mirror.dfy`, `DeltaSync.dfy`, `Backfill.dfy`, `Overlap.dfy`, `MirrorRuns.dfy`, `MailSync.dfy`, `DeltaQueue.dfy` | the mailbox mirror: the fold, the history pages it reads, the state machine, each job, both at once, runs from an empty mailbox, the procedures, the delta job (`providers/gmail/client.ts`, `services/deltaSync.ts`, `services/sync.ts`) |
| `Threads.dfy` | the thread list's cursor and pages (`services/threads.ts`) |
| `GeminiSchema.dfy` | JSON Schema to Gemini schema (`services/ai/geminiSchema.ts`) |
| `Strings.dfy`, `Encoding.dfy`, `EncodedWords.dfy`, `WordReader.dfy`, `Mime.dfy`, `AddressList.dfy`, `MessageReader.dfy` | outgoing messages, address lists, and what a receiver finds, over UTF-16 code units (`providers/gmail/mime.ts`, `providers/gmail/map.ts`) |
| `Tokens.dfy` | access tokens under a lock (`lib/mutex.ts`, `providers/tokenManager.ts`) |
| `FollowUps.dfy` | reminders, checks and digests (`services/followUps.ts`, `services/digest.ts`) |
| `Retry.dfy` | backoff, the retry loop, the bounded concurrent map (`lib/retry.ts`) |

## Where the code and its comments part

The model follows the code. Each point below is a theorem, with the exact condition where there is one.

- A repeated or skipped wall time is resolved as documented west of UTC only (`Timezone.RepeatedBySign`, `Timezone.SkippedBySign`).
- A backfill leaves each thread, not each message, right or excused by a later event (`MirrorRuns.MessageLevelFails`); from there on deltas keep it so (`MirrorRuns.DisagreementHasLaterEvent`).
- A delta that leaves its loop on an abort still moves the cursor; mail can be lost exactly when an existing message of a skipped thread has no event after the window to excuse it any longer (`DeltaSync.AbortHarmlessExactlyWhen`). That only deletions were skipped does not help after a backfill (`MirrorRuns.DeletionsAreNotEnough`).
- A window of more than 40 threads is never worked off: the same 40 are fetched each time, and the re-enqueue is absorbed by the job that asks for it (`DeltaQueue.DeferredNeverWorkedOff`).
- A backfill over an existing store keeps stale rows exactly when there were some (`Backfill.StaleRowsStay`), and one that overlaps a delta can lose a change (`Overlap.OverlapLosesAChange`). No change is lost while no write replaces a current copy (`Overlap.OverlapNoGap`), one that is replaced is a gap from the moment the cursor is past its thread's last event (`Overlap.WriteLeavesNoGapExactlyWhen`, `Overlap.ReplacedIsLost`), and jobs that take turns never lose one (`Overlap.TurnsLeaveNoGap`).
- A scheduled send that corrects its time re-enqueues itself in vain and waits for the sweep (`Schedule.RequeueIsRefused`); a sweep can be blocked by rows in unknown zones (`Schedule.StuckSweep`), or for one row by an active job (`Schedule.SweepRecovers`).
- Encoded words reach 76 characters (`EncodedWords.SeventySixCharacters`), and a receiver that keeps to 75 shows such a subject undecoded (`Mime.SubjectReadsBack`, `WordReader.RefusedAre`); a quote or backslash in a display name does not survive the parser (`AddressList.NameReadsBack`); a typed subject that holds an encoded word is decoded on arrival (`Mime.SubjectReadsBack`).
- A snooze reopens dismissed reminders, and a snoozed reminder is never mailed again (`FollowUps.SnoozeReopens`, `FollowUps.QuietForever`); a reminder outside the batch of 500 is mailed unexamined (`FollowUps.OverflowMails`, `FollowUps.CrowdedCheckNags`).
- A Retry-After past its ceiling is cut short rather than failed (`Retry.RetryAfterHonoured`); a failed task does not stop the concurrent map (`Retry.FailureStopsNobody`).

## Model

| member | source | states |
|---|---|---|
| Timezone.ReadingsOf | apps/api/src/lib/timezone.ts:112-124 | Every instant that shows a wall time lies within the zone offsets of it, on one of the two sides of a single transition. |
| Timezone.ResolvesToAReading | apps/api/src/lib/timezone.ts:168-205 | The answer shows the requested wall time if and only if the clock ever shows it. |
| Timezone.UniqueWallTime | apps/api/src/lib/timezone.ts:168-205 | A wall time shown by exactly one instant resolves to that instant. |
| Timezone.RepeatedWallTime | apps/api/src/lib/timezone.ts:155-205 | A wall time shown twice resolves to its first instant if and only if the wall time, read as UTC, precedes the transition; otherwise to the second. |
| Timezone.RepeatedBySign | apps/api/src/lib/timezone.ts:155-166 | The documented "first occurrence" holds for non-positive offsets and fails for non-negative ones, where the second is taken. |
| Timezone.SkippedWallTime | apps/api/src/lib/timezone.ts:155-205 | A skipped wall time lands after the gap if and only if it precedes the transition when read as UTC; the clock at the answer is off by exactly the gap. |
| Timezone.SkippedBySign | apps/api/src/lib/timezone.ts:155-166 | "After the gap" holds west of UTC; east of UTC the answer lies before the gap. |
| Timezone.ThirdPass | apps/api/src/lib/timezone.ts:190-205 | The two-pass correction is a fixed point exactly for the wall times that exist. |
| Timezone.RoundTrip | apps/api/src/lib/timezone.ts:214-219 | Showing an instant and resolving what is shown gives the instant back, unless it is the occurrence of a repeated time that is not taken. |
| Timezone.SkippedWitness | apps/api/src/lib/timezone.ts:155-166 | A European spring gap: a time inside it resolves an hour early, against the comment. |
| Timezone.RepeatedWitness | apps/api/src/lib/timezone.ts:155-166 | A European autumn hour: the later occurrence is taken, against the comment. |
| RateLimiter.StepValid | apps/api/src/lib/rateLimiter.ts:70-185 | Every call, abort and timer keeps the bucket sound: tokens between zero and capacity, one queue in arrival order, a timer armed whenever somebody waits. |
| RateLimiter.RateBound | apps/api/src/lib/rateLimiter.ts:95-165 | Over every run and every interval, units granted are at most the capacity plus the rate times the interval, whatever the clock does. |
| RateLimiter.BoundIsReached | apps/api/src/lib/rateLimiter.ts:95-146 | The bound is exact: a full bucket taken at once and what has come since taken at the end make it. |
| RateLimiter.Reachable | apps/api/src/lib/rateLimiter.ts:70-185 | Soundness and the bound on how far ahead the timer is armed hold after every run of a new bucket. |
| RateLimiter.HeadIsServed | apps/api/src/lib/rateLimiter.ts:149-185 | A timer armed for the head of the queue grants the head when it fires, and whatever else it grants comes next in the queue. |
| RateLimiter.AbortRemoves | apps/api/src/lib/rateLimiter.ts:135-139 | An abort takes exactly its own waiter out of the queue and leaves the order of the others. |
| RateLimiter.StepDeadline | apps/api/src/lib/rateLimiter.ts:114-185 | No step, including an abort of somebody ahead, moves a waiter's deadline back. |
| RateLimiter.NeverWaitsAgain | apps/api/src/lib/rateLimiter.ts:114-165 | A request that was granted or aborted never waits again. |
| RateLimiter.WaitingMeansInTime | apps/api/src/lib/rateLimiter.ts:114-185 | Over every run with punctual timers, a request still waiting is within its deadline. |
| RateLimiter.Fairness | apps/api/src/lib/rateLimiter.ts:114-185 | Every queued request is granted or aborted within a bound set by the units ahead of it. |
| RateLimiter.TokenBucket.constructor | apps/api/src/lib/rateLimiter.ts:76-83 | A new bucket is full, its queue empty, its timer off. |
| RateLimiter.TokenBucket.RefillTo | apps/api/src/lib/rateLimiter.ts:95-105 | In place: min(capacity, tokens + rate * elapsed); a clock that went back adds nothing and is not remembered. |
| RateLimiter.TokenBucket.Available | apps/api/src/lib/rateLimiter.ts:86-89 | Reading the available units refills first. |
| RateLimiter.AcquireDecides | apps/api/src/lib/rateLimiter.ts:114-146 | Refused exactly above the capacity, aborted exactly when the signal is set on one that fits, granted and paid exactly when besides nobody waits and min(capacity, tokens + rate * elapsed) covers it, and otherwise queued last with a timer armed for the head. |
| RateLimiter.ServePrefix | apps/api/src/lib/rateLimiter.ts:149-165 | Draining grants a prefix of the queue in order, pays for each, and stops only at a head the tokens do not cover. |
| RateLimiter.WaitIsRight | apps/api/src/lib/rateLimiter.ts:167-185 | The timer waits at least five milliseconds, long enough for the deficit, and not a millisecond longer than either needs. |
| RateLimiter.TokenBucket.AcquireUnits | apps/api/src/lib/rateLimiter.ts:114-146 | In place: the outcome and the new tokens, queue, grants and timer, by capacity, signal, queue and refilled tokens, as `AcquireDecides` says. |
| RateLimiter.TokenBucket.OnAbort | apps/api/src/lib/rateLimiter.ts:135-139 | In place: the abort handler removes its waiter and nobody else. |
| RateLimiter.TokenBucket.Drain | apps/api/src/lib/rateLimiter.ts:149-165 | In place: the loop grants and pays the longest prefix of the queue the refilled tokens cover. |
| RateLimiter.TokenBucket.ArmTimer | apps/api/src/lib/rateLimiter.ts:167-185 | In place: at most one timer, armed only when somebody waits, for when the head can be paid. |
| RateLimiter.TokenBucket.OnTimer | apps/api/src/lib/rateLimiter.ts:167-185 | In place: a timer refills, grants the prefix that can be paid, and arms again when somebody is left. |
| Schedule.StepInv | apps/api/src/services/schedule.ts:515-714 | Every statement of every worker, cancel, sweep, lost or duplicated job and crash keeps: one owner per claimed row and at most one provider call. |
| Schedule.AtMostOnce | apps/api/src/services/schedule.ts:437-466 | Over every interleaving the provider is asked to send a row at most once: never while SCHEDULED or CANCELLED, exactly once when SENT. |
| Schedule.NeverRescheduled | apps/api/src/services/schedule.ts:437-466 | A row that leaves SCHEDULED never returns to it. |
| Schedule.NeverEarly | apps/api/src/services/schedule.ts:576-605 | No send starts more than 30 s before the row's wall time under the zone rules its job ran with. |
| Schedule.JobEffect | apps/api/src/services/schedule.ts:515-605 | The job of a due row claims it or moves it past the sweep's horizon, unless its zone cannot be resolved; no other row changes. |
| Schedule.JobTaken | apps/api/src/services/schedule.ts:515-697 | A whole job taken from the queue leaves its entry finished, changes no other row, and calls the provider exactly when the row is due, its recipients parse and nothing fails first: once, with SENT when the mail was accepted and that could be written, FAILED when it was not; a row ahead of time is corrected, one in an unknown zone left. |
| Schedule.RestSends | apps/api/src/services/schedule.ts:614-714 | What is left of a job that claimed its row: one provider call exactly when a recipient parses and the request is not rejected, and the status that follows from the answer and the writes. |
| Schedule.JobsShrinkDue | apps/api/src/services/schedule.ts:515-605 | Taking the queue entries of any due rows removes exactly those from the due set whose entry waited and whose zone resolves. |
| Schedule.SweepRecovers | apps/api/src/services/schedule.ts:799-834 | From any state and any queue, a sweep and the jobs it leaves waiting in the queue take exactly those selected rows off the due list that resolve and had no active job. |
| Schedule.SweepDrains | apps/api/src/services/schedule.ts:799-834 | With no active job and zones that resolve, the due rows shrink by the number selected; below the limit none is left. |
| Schedule.OneSelection | apps/api/src/services/schedule.ts:799-815 | When the oldest due rows fill the limit and every other is strictly younger, every answer to the query has the same rows. |
| Schedule.StuckSweep | apps/api/src/services/schedule.ts:799-834 | If those rows name zones the platform does not know, every later sweep selects exactly them, as time passes and more rows fall due, and no row is ever recovered. |
| Schedule.Enqueued | apps/api/src/services/schedule.ts:369-408 | After an enqueue the row has an unfinished job; it is a new one if and only if none was unfinished. |
| Schedule.RequeueIsRefused | apps/api/src/services/schedule.ts:576-605 | A whole job that corrects sendAt ends with its entry finished and the row without a job: the re-enqueue it asks for is absorbed by its own entry. |
| Schedule.Outbox.EnqueueScheduledSend | apps/api/src/services/schedule.ts:369-408 | In place on the queue: a new job, delayed exactly when its time is ahead, unless one is unfinished or Redis fails; then nothing changes. |
| Schedule.Outbox.CancelScheduledEmail | apps/api/src/services/schedule.ts:437-489 | In place, with everything else running meanwhile: not found, not pending, lost the race, or CANCELLED with no provider call; undisturbed, a pending row is CANCELLED and loses its job, and nothing else changes. |
| Schedule.Outbox.Reschedule | apps/api/src/services/schedule.ts:576-605 | In place: a wall time still ahead corrects sendAt of a row still SCHEDULED, calls nobody, and asks for a delayed job, which an unfinished one absorbs. |
| Schedule.Outbox.ClaimRow | apps/api/src/services/schedule.ts:602-613 | In place: the winner sets SENDING and counts an attempt; the loser stops and writes nothing. |
| Schedule.Outbox.AttemptSend | apps/api/src/services/schedule.ts:614-644 | In place: exactly one provider call on the row when a recipient parses and the request is not rejected, else none; delivered when the provider accepts. |
| Schedule.Outbox.WriteSent | apps/api/src/services/schedule.ts:645-653 | In place: the row is marked SENT after the provider accepted; a failed write leaves it claimed, never SCHEDULED. |
| Schedule.Outbox.MarkFailed | apps/api/src/services/schedule.ts:700-714 | In place: the row is marked FAILED, or stays as it is when that write fails. |
| Schedule.Outbox.RunScheduledSend | apps/api/src/services/schedule.ts:515-697 | The whole job, with arbitrary events of others at each await, is a run of the state machine. Undisturbed, a due row with recipients whose mail is accepted ends SENT with exactly one call; lost after delivery it ends FAILED with one call; rejected or without recipients it ends FAILED with none; a row ahead of time is corrected, one in an unknown zone left. |
| Schedule.Outbox.WorkLoaded | apps/api/src/services/schedule.ts:576-697 | From the loaded row on: throw, correct, lose the claim, or send, with the same exact outcomes. |
| Schedule.Outbox.FindDue | apps/api/src/services/schedule.ts:799-815 | The sweep's query: pending rows whose time is at most 30 s ahead, demo ones excluded, oldest first, at most the limit, and all of them below it. |
| Schedule.Outbox.SweepDueScheduledEmails | apps/api/src/services/schedule.ts:799-834 | In place on the queue: the queue after the sweep is the old one with every selected row asked for; each ends with an unfinished job, no other job changes, and the count is of those that had none. |
| HistoryFold.FoldIsReplay | apps/api/src/providers/gmail/client.ts:491-553 | The change map holds one entry per touched message: deleted exactly when its last add or delete is a delete, a label change exactly when it has neither. |
| HistoryFold.FoldRefinesReplay | apps/api/src/services/deltaSync.ts:97-116 | For any history, the threads to refetch are exactly the touched ones and the messages to delete exactly those whose last add or delete is a delete. |
| HistoryFold.LabelsCollected | apps/api/src/providers/gmail/client.ts:525-553 | A message with label events only carries every label any of them added or removed. |
| HistoryFold.ThreadsStable | apps/api/src/services/deltaSync.ts:97-116 | Reading further into the history only appends threads; those found keep their places. |
| HistoryPages.RecordEvents | apps/api/src/providers/gmail/client.ts:491-516 | An event is among a record's events exactly when an entry with both ids in the list of its kind names it. |
| HistoryPages.RecordOrder | apps/api/src/providers/gmail/client.ts:491-516 | Within a record adds come before deletes and those before label changes. |
| HistoryPages.PagesHold | apps/api/src/providers/gmail/client.ts:242-265 | An event is among the pages' events exactly when a record of a page names it. |
| HistoryPages.PagesLast | apps/api/src/providers/gmail/client.ts:491-516 | Read off the lists: the last add or delete of a message is a delete exactly when a record deletes it and no later one adds it; it has neither exactly when no list of either kind names it. |
| HistoryPages.FoldReports | apps/api/src/providers/gmail/client.ts:491-553 | The change list has one change per message the lists name, in its thread: deleted, upserted or label-only by its last add-or-delete entry, with exactly the labels its entries name. |
| HistoryPages.ReportsDecide | apps/api/src/services/deltaSync.ts:97-116 | Of such a change list: a message is deleted exactly when its last add-or-delete entry deletes it, and a thread is refetched exactly when any entry names it. |
| HistoryPages.PagesStable | apps/api/src/services/deltaSync.ts:97-116 | Further pages only append threads to refetch. |
| HistoryPages.MergeLabelChange | apps/api/src/providers/gmail/client.ts:525-553 | The loop-free merge leaves an add or a delete in place and unites labels. |
| HistoryPages.FoldHistoryRecord | apps/api/src/providers/gmail/client.ts:491-516 | Adds, deletes, label changes of one record, loop by loop, equal the fold of the events `RecordEvents` names. |
| HistoryPages.SyncDelta | apps/api/src/providers/gmail/client.ts:242-265 | The do-while over pages reports what the page lists name, deletions included, and returns the last history id a page states, or the one asked from. |
| HistoryPages.FoldChanges | apps/api/src/services/deltaSync.ts:97-116 | The loop filling the thread set and the deletion list: the threads of all changes in first-touch order, and the ids of the deleted ones. |
| Mirror.ApplyMessage | apps/api/src/services/sync.ts:428-533 | Writing a fetched thread makes its messages without a later event right and spoils no other message. |
| Mirror.ApplyKeeps | apps/api/src/services/sync.ts:428-533 | Writing a snapshot keeps "no gap" and "nothing stale" since any earlier point. |
| Mirror.WindowFold | apps/api/src/services/deltaSync.ts:179-211 | The fold of a window of the log finds every thread touched in it and every message it deleted. |
| DeltaSync.StepInv | apps/api/src/services/deltaSync.ts:179-282 | Every provider event, read, delete, fetch, write, crash and commit of a delta keeps the mirror invariant. |
| DeltaSync.MirrorInvariant | apps/api/src/services/deltaSync.ts:179-282 | At message or thread level: a state with the mirror invariant keeps it over every run whose deltas do not leave their loop on an abort. The thread level is established by `MirrorRuns.FinishEstablishes`. |
| DeltaSync.DisagreementHasLaterEvent | apps/api/src/services/deltaSync.ts:179-282 | Message level, from a state where the message-level invariant holds (a finished backfill need not give one): a message on which store and provider disagree has an event of its own at or after the cursor. |
| DeltaSync.AbortHarmless | apps/api/src/services/deltaSync.ts:212-272 | Leaving the loop on an abort and committing the cursor keeps the mirror, at either level, when no message is left behind: none exists in scope, in a skipped thread, excused before the window and quiet after it. |
| DeltaSync.AbortHarmlessExactlyWhen | apps/api/src/services/deltaSync.ts:212-272 | The condition is exact: the commit after an abort is harmless to every store the invariant allows at that point if and only if no message is left behind. |
| DeltaSync.LeftBehindByThread | apps/api/src/services/deltaSync.ts:212-272 | At thread level left behind is every existing in-scope message of a skipped thread without an event after the window. |
| DeltaSync.DeletionsLeaveNothing | apps/api/src/services/deltaSync.ts:216-271 | At message level, skipped changes that are all deletions leave nothing behind. |
| DeltaSync.AbortLosesMail | apps/api/src/services/deltaSync.ts:212-272 | For each message left behind there is a store, with the same history, window and position, that satisfies the invariant and lacks the message after the commit, with no event left to bring it back. |
| DeltaSync.AbortWitness | apps/api/src/services/deltaSync.ts:216-271 | One new message and an abort before its thread is fetched: the cursor passes the message and the store never gets it. |
| DeltaSync.StuckForever | apps/api/src/services/deltaSync.ts:212-282 | Once a window exceeds 40 threads, the cursor stays, every delta takes the same first 40 and no row of another thread is written, over any later events until the history expires. |
| DeltaSync.OversizedWindow | apps/api/src/services/deltaSync.ts:212-282 | From an idle mailbox with such a window: the cursor never moves, any thread fetched is one of the first 40, and no row of another thread is written. |
| DeltaSync.Convergence | apps/api/src/services/deltaSync.ts:179-282 | At either level of the invariant: with a quiet provider and at most 40 threads in the window, one delta reaches the log head and the store equals the in-scope mailbox. |
| MirrorRuns.FinishEstablishes | apps/api/src/services/sync.ts:255-360 | From an empty mailbox, after any first backfill with crashes, resumes and honest listings, the cursor write establishes the thread-level mirror invariant. |
| MirrorRuns.DisagreementHasLaterEvent | apps/api/src/services/deltaSync.ts:179-282 | From an empty mailbox, after any first backfill and any deltas: a message on which mailbox and store disagree has an event on its thread at or after the cursor, and one of its own when it is gone. |
| MirrorRuns.CatchesUp | apps/api/src/services/deltaSync.ts:179-282 | After such a run one more delta over at most 40 threads, with a quiet provider, makes the store the in-scope mailbox. |
| MirrorRuns.MessageLevelFails | apps/api/src/services/sync.ts:255-360 | A backfill that honestly leaves out a moved thread: a missing message without an event of its own after the cursor, so only the thread level holds after a backfill. |
| MirrorRuns.DeletionsAreNotEnough | apps/api/src/services/deltaSync.ts:216-271 | After a backfill an abort that skips only a deletion still loses another message of the thread, at either level, with the cursor at the head. |
| Backfill.StepInv | apps/api/src/services/sync.ts:255-360 | Every step of a backfill, crash, resume and provider event keeps the account of which threads are already right. |
| Backfill.NoGapAtFinish | apps/api/src/services/sync.ts:255-360 | Whenever the cursor is written, every in-scope thread with no event after the saved pointer is stored as it is. |
| Backfill.StaleRowsStay | apps/api/src/services/sync.ts:255-360 | A backfill leaves nothing stale if and only if nothing stored at its start was gone already: it never removes a row. |
| Overlap.OverlapNoGap | apps/api/src/services/sync.ts:255-360 | With deltas and backfills interleaving in any way and the older cursor overwriting the newer, no gap appears in any run in which no write or delete replaces or removes a current stored copy. |
| Overlap.WriteLeavesNoGapExactlyWhen | apps/api/src/services/sync.ts:428-533 | One write of a fetched thread leaves no gap if and only if no in-scope current copy that is quiet since the cursor is newer than the fetched one, or dropped with a vanished thread; otherwise the gap is there at once. |
| Overlap.DeleteLeavesNoGapExactlyWhen | apps/api/src/services/deltaSync.ts:198-210 | The same for deletions: no gap if and only if no current quiet copy is among them. |
| Overlap.ReplacedIsLost | apps/api/src/services/sync.ts:428-533 | The converse over runs: once the current copy of an in-scope message is replaced or removed, and while its thread neither changes nor is written again, every state whose cursor is past the thread's last event has a gap, aborts included. |
| Overlap.CheckedWriteKeepsCurrent | apps/api/src/services/sync.ts:428-533 | A writer that compares the version it fetched with each version stored meets the condition of the runs. |
| Overlap.TurnsKeepCurrent | apps/api/src/services/sync.ts:255-360 | Jobs that take turns meet it without any check, whatever the provider changes between a fetch and its write. |
| Overlap.TurnsLeaveNoGap | apps/api/src/services/sync.ts:255-360 | The whole life of a mailbox from nothing stored: backfills, deltas, crashes, resumes and expiries, no two jobs at once and no delta aborted in its loop, never leave a gap. |
| Overlap.OverlapLosesAChange | apps/api/src/services/sync.ts:428-533 | Two jobs at once can break it: a delta's older copy of a thread overwrites the backfill's newer one and the cursor is at the head. |
| Overlap.RaceIsHonest | apps/api/src/services/sync.ts:255-360 | In that run the provider lists every thread it should. |
| MailSync.Mailbox.SyncOneThread | apps/api/src/services/deltaSync.ts:343-406 | In place: fetch a thread, let the provider change it meanwhile, then write it or drop it on a 404. With a quiet provider its messages are stored as they are, its rows dropped when it is gone, and no other row changed. |
| MailSync.Mailbox.SyncBatch | apps/api/src/services/deltaSync.ts:212-231 | The loop over the batch, left early on an abort, advances the state machine thread by thread. |
| MailSync.Mailbox.CommitCursor | apps/api/src/services/deltaSync.ts:264-283 | The cursor moves last, and not at all when threads were deferred. |
| MailSync.Mailbox.DeleteGone | apps/api/src/services/deltaSync.ts:198-210 | In place: exactly the messages the window deleted are removed, and the first forty threads taken. |
| MailSync.Mailbox.ReadWindow | apps/api/src/services/deltaSync.ts:157-198 | The window read from the cursor to the head; an expired cursor is cleared. |
| MailSync.Mailbox.SyncWindow | apps/api/src/services/deltaSync.ts:157-283 | From the history to the cursor write: no change exactly when nothing is new, deferred exactly with more than 40 threads, with the number fetched. |
| MailSync.Mailbox.RunDelta | apps/api/src/services/deltaSync.ts:123-335 | The whole delta as a run of the state machine. Not aborted it keeps the mirror invariant at either level and any scope; with a quiet provider and at most 40 threads it leaves the store equal to the in-scope mailbox and the cursor at the head. |
| MailSync.Mailbox.BackfillPage | apps/api/src/services/sync.ts:290-343 | One page: list, fetch all, write all, checkpoint. With a quiet provider every listed thread is stored as it is and no row removed. |
| MailSync.Mailbox.FillPages | apps/api/src/services/sync.ts:255-343 | The do-while over pages, up to the first that names no next one. |
| MailSync.Mailbox.RunBackfill | apps/api/src/services/sync.ts:214-360 | The backfill, resumed from its checkpoint: it finishes exactly with a last page, and then the cursor is the pointer saved at the first start; with a quiet provider every thread listed is stored as it is and no row removed. |
| DeltaQueue.EnqueueDelta | apps/api/src/services/deltaSync.ts:424-460 | An unfinished job under the mailbox's id absorbs the request, and an unreachable queue changes nothing. |
| DeltaQueue.OwnRequestAbsorbed | apps/api/src/services/deltaSync.ts:264-282 | Over every run of the queue and the mailbox: a delta that defers threads asks from inside the active job, so the request leaves the queue as it is and nothing of it is left when the job ends. |
| DeltaQueue.DeferredNeverWorkedOff | apps/api/src/services/deltaSync.ts:264-282 | From an idle mailbox with more than 40 threads in the window, whatever is asked, picked, failed and retried: no delta ever obtains a job for its deferred threads, the cursor stays, and no row of a thread past the first 40 is written. |
| DeltaQueue.JobCatchesUp | apps/api/src/services/deltaSync.ts:424-460 | Whatever job there was before: a request, a worker and one run complete the job and leave an idle mailbox with at most 40 threads to fetch equal to the in-scope mailbox. |
| DeltaQueue.FailureIsNotTheEnd | apps/api/src/services/deltaSync.ts:424-460 | A failed job leaves the mailbox idle with its invariant, cursor and store; it runs again exactly when it has attempts left, and otherwise when somebody asks. |
| DeltaQueue.OnlyTheActiveJobActs | apps/api/src/services/deltaSync.ts:424-460 | The provider changes the mailbox whatever the job does; nothing but the active job's delta moves it otherwise. |
| Threads.BeforeIsAnOrder | apps/api/src/services/threads.ts:80-109 | Score descending with nulls last, then time, then id is a strict total order. |
| Threads.AfterCursorIsStrictlyAfter | apps/api/src/services/threads.ts:91-109 | The nested OR filter selects a row if and only if it comes strictly after the cursor. |
| Threads.QueryIs | apps/api/src/services/threads.ts:151-190 | One request's rows are those of the table that are not in the trash, of the category asked for and after the cursor, sorted, each once. |
| Threads.PageRange | apps/api/src/services/threads.ts:151-206 | A page shows a listed key exactly when it lies after the cursor and not after the next cursor. |
| Threads.ShownExactlyOnce | apps/api/src/services/threads.ts:151-206 | For any limit and any changes to other rows between requests, a row whose key stays is shown exactly once by a finished run. |
| Threads.StaticPages | apps/api/src/services/threads.ts:151-206 | On data that does not change, the pages put together are the sorted list. |
| Threads.StaticRun | apps/api/src/services/threads.ts:151-206 | Such a run finishes and holds exactly the rows that are not in the trash and of the category asked for. |
| GeminiSchema.TypePreserved | apps/api/src/services/ai/geminiSchema.ts:116-166 | A converted type accepts what the type keyword accepts, null by way of the nullable flag. |
| GeminiSchema.EnumPreserved | apps/api/src/services/ai/geminiSchema.ts:200-216 | An enumeration accepts the same non-null values after conversion. |
| GeminiSchema.Forward | apps/api/src/services/ai/geminiSchema.ts:175-250 | On schemas typed at every node, every value the source accepts the converted schema accepts. |
| GeminiSchema.Backward | apps/api/src/services/ai/geminiSchema.ts:175-250 | A value the converted schema accepts and the dropped constraints allow, the source accepts. |
| GeminiSchema.MeaningPreserved | apps/api/src/services/ai/geminiSchema.ts:258-266 | The conversion loses exactly the dropped constraints: source acceptance is converted acceptance plus those constraints at every node. |
| GeminiSchema.NullableEnumLoosens | apps/api/src/services/ai/geminiSchema.ts:196-216 | On every convertible nullable node with an enumeration, null passes the converted schema and not the source. |
| GeminiSchema.TypelessNarrows | apps/api/src/services/ai/geminiSchema.ts:136-145 | Every convertible typeless node is narrowed to strings. |
| GeminiSchema.FirstStructuralIs | apps/api/src/services/ai/geminiSchema.ts:180-186 | A structural keyword is found exactly when one is present. |
| GeminiSchema.ShapeKept | apps/api/src/services/ai/geminiSchema.ts:175-250 | The converted tree has the same properties, required lists, items and non-empty descriptions, and no structural keyword under it. |
| GeminiSchema.ConvertsExactlyWhen | apps/api/src/services/ai/geminiSchema.ts:175-250 | A schema is converted if and only if every node reached is an object without structural keyword that names one known type (none at all for a string, a name, or a list of it and "null"), has an enumeration only of strings on a string, and items when it is an array. |
| GeminiSchema.RootConvertsExactlyWhen | apps/api/src/services/ai/geminiSchema.ts:258-266 | A tool's parameters are converted if and only if they are such a schema of an object. |
| GeminiSchema.ConvertRoot | apps/api/src/services/ai/geminiSchema.ts:258-266 | The entry point accepts exactly those. |
| GeminiSchema.ConvertNode | apps/api/src/services/ai/geminiSchema.ts:175-250 | The recursive procedure with its loops over keys and entries computes the conversion, with the same first error. |
| Encoding.Utf8RoundTrip | apps/api/src/providers/gmail/mime.ts:130-131 | UTF-8 bytes decode to the characters, a lone surrogate as U+FFFD. |
| Encoding.Base64RoundTrip | apps/api/src/providers/gmail/mime.ts:133-138 | Base64 letters decode to the bytes. |
| Encoding.Base64Length | apps/api/src/providers/gmail/mime.ts:124-125 | Three bytes cost four letters: the length is 4 * ceil(n / 3). |
| EncodedWords.ChunksPartition | apps/api/src/providers/gmail/mime.ts:114-138 | Chunks are whole code points, in order, nothing lost, each within the 47-byte budget. |
| EncodedWords.ChunksGreedy | apps/api/src/providers/gmail/mime.ts:130-137 | No word is closed while the next character would still have fitted. |
| WordReader.WordDecodes | apps/api/src/providers/gmail/mime.ts:121-143 | Each encoded word decodes on its own to the characters of its chunk, for every receiver that has UTF-8 and does not find it too long. |
| WordReader.WordsAreShown | apps/api/src/providers/gmail/mime.ts:121-143 | A receiver that unfolds, decodes each word between white space and drops the white space between words (sections 2, 4 and 6 of RFC 2047) shows the value if and only if none of the words is too long for it. |
| WordReader.RefusedAre | apps/api/src/providers/gmail/mime.ts:121-125 | A receiver that keeps to the 75 characters of section 2 of RFC 2047 refuses exactly the words of 46 or 47 bytes; one that takes 76 refuses none. |
| WordReader.ShownLine | apps/api/src/providers/gmail/mime.ts:110-112 | A printable line is shown as it is when no piece of it is a decodable encoded word, and shorter otherwise. |
| EncodedWords.WordLimit | apps/api/src/providers/gmail/mime.ts:114-125 | Every word is at most 76 characters, and more than 75 exactly when its chunk holds 46 or 47 bytes. |
| EncodedWords.ShortValue | apps/api/src/providers/gmail/mime.ts:114-125 | A value of at most 47 bytes is one word, too long for section 2 of RFC 2047 exactly from 46 bytes on. |
| EncodedWords.SeventySixCharacters | apps/api/src/providers/gmail/mime.ts:117-125 | 46 letters give a word of 76 characters, against the comment. |
| EncodedWords.EncodeInWords | apps/api/src/providers/gmail/mime.ts:121-143 | The loop over characters with its byte chunk computes the encoded words. |
| EncodedWords.UnfoldJoin | apps/api/src/providers/gmail/mime.ts:84-86 | Lines joined by folds unfold to the lines joined by spaces and hold no other line break. |
| EncodedWords.FoldUnfolds | apps/api/src/providers/gmail/mime.ts:179-200 | Unfolding a folded header restores the field and its tokens, for every width (section 2.2.3 of RFC 5322). |
| EncodedWords.TokensOfSpaced | apps/api/src/providers/gmail/mime.ts:179-200 | Splitting the unfolded value gives the token list back. |
| EncodedWords.FoldWidths | apps/api/src/providers/gmail/mime.ts:179-200 | A line passes the width only when it is one token, or one token after the field name or after a token equal to it. |
| EncodedWords.FoldWithinWidth | apps/api/src/providers/gmail/mime.ts:179-200 | When no field-and-token pair is too long no line is: 78 on the first, 79 with the space on a continuation. |
| EncodedWords.FoldsOnlyWhenNeeded | apps/api/src/providers/gmail/mime.ts:169-178 | A header that fits stays on one line. |
| EncodedWords.FirstLineStarts | apps/api/src/providers/gmail/mime.ts:179-200 | The first token stays on the line of the field name, however long it is. |
| EncodedWords.FoldTokens | apps/api/src/providers/gmail/mime.ts:179-200 | The loop over tokens computes the folded header. |
| Mime.SafeIsTame | apps/api/src/providers/gmail/mime.ts:65-86 | The folded-header check lets through folds and no other line break. |
| Mime.AddressFormats | apps/api/src/providers/gmail/mime.ts:95-107 | An address is formatted exactly when the email is well-formed and the name free of line breaks; the result is header-safe exactly when the email hides no NUL. |
| Mime.EmailShape | apps/api/src/providers/gmail/mime.ts:95-100 | An email is well-formed exactly when it is three non-empty texts of allowed characters with an at sign and a dot between them. |
| Mime.SubjectSafe | apps/api/src/providers/gmail/mime.ts:160-167 | Every subject becomes a header-safe value. |
| Mime.SingleLineKept | apps/api/src/providers/gmail/mime.ts:160-167 | A subject on one line loses nothing but white space around it. |
| Mime.BreaksCollapse | apps/api/src/providers/gmail/mime.ts:160-167 | A run of line breaks inside a subject counts as one space. |
| Mime.NulIsDropped | apps/api/src/providers/gmail/mime.ts:160-167 | A NUL inside a subject is dropped. |
| Mime.SubjectReadsBack | apps/api/src/providers/gmail/mime.ts:160-167 | A receiver (either encoding, names in either case, any charsets besides UTF-8, any longest word) reads the typed subject if and only if it is an ASCII line without, between white space, an encoded word it decodes, or is not ASCII and sent as words none of which is too long for it. |
| Mime.TypedWordsGetDecoded | apps/api/src/providers/gmail/mime.ts:160-167 | Two such subjects, a lower-case word alone and an upper-case word after other text, are sent raw and arrive changed. |
| Mime.ReferencesFold | apps/api/src/providers/gmail/mime.ts:255-260 | A chain of safe ids folds into a safe header: the function never rejects its own fold. |
| Mime.ReferencesSurvive | apps/api/src/providers/gmail/mime.ts:255-260 | A reader of the folded References header finds the chain, id by id. |
| Mime.ReadHeaders | apps/api/src/providers/gmail/mime.ts:230-282 | Splitting at line ends that are not folds yields the header lines, up to the first empty line. |
| Mime.BodyLinesDecode | apps/api/src/providers/gmail/mime.ts:203-206 | Body lines stay within 76 characters and decode to the text. |
| Mime.PartsRoundTrip | apps/api/src/providers/gmail/mime.ts:266-281 | Both alternatives come back byte for byte for every boundary: a base64 line cannot be a delimiter. |
| Mime.MessageRoundTrip | apps/api/src/providers/gmail/mime.ts:230-282 | The message read back has exactly the fields added, in order, whatever the values, and both bodies. |
| MessageReader.FieldsReadBack | apps/api/src/providers/gmail/mime.ts:230-264 | Under each name of the message read back stands what was given: the formatted addresses of From, To, Cc and Bcc, the folded subject, the id replied to, the chain, version 1.0, and the content type with the boundary; a field not given has no header. |
| MessageReader.AddressesFound | apps/api/src/providers/gmail/mime.ts:230-249 | From, To, Cc and Bcc of the message read back parse to the given addresses, for valid lower-case emails and plain names. |
| MessageReader.QuotedNameFound | apps/api/src/providers/gmail/mime.ts:145-151 | An ASCII name travels as a quoted string in front of the email: a receiver that unescapes it (section 3.2.4 of RFC 5322) finds the name whatever it holds. |
| MessageReader.EncodedNameFound | apps/api/src/providers/gmail/mime.ts:95-107 | A name that is not ASCII travels as encoded words: the parser finds the email, and a receiver shows the name as given if and only if no word is too long for it. |
| MessageReader.SubjectFound | apps/api/src/providers/gmail/mime.ts:250-250 | The Subject of the message read back is shown as typed exactly when `Mime.SubjectReadsBack` says. |
| MessageReader.ThreadFound | apps/api/src/providers/gmail/mime.ts:251-260 | In-Reply-To is the given id and References the chain, id by id; neither is there when nothing was given. |
| MessageReader.BodiesFound | apps/api/src/providers/gmail/mime.ts:262-282 | MIME-Version is 1.0, and the boundary named by Content-Type splits the body into both alternatives. |
| MessageReader.KindsFound | apps/api/src/providers/gmail/mime.ts:266-281 | The first body is announced as plain text and the second as HTML, both UTF-8 in base64. |
| Mime.BuildsExactlyWhen | apps/api/src/providers/gmail/mime.ts:230-282 | A message is built if and only if it has a recipient, good addresses, a safe In-Reply-To and safe ids. |
| Mime.FormatEach | apps/api/src/providers/gmail/mime.ts:242-249 | Formatting a list stops at its first bad address. |
| Mime.CollectHeaders | apps/api/src/providers/gmail/mime.ts:230-264 | The headers pushed one after another, stopping at the first refusal; what each holds is `MessageReader.FieldsReadBack`. |
| Mime.BuildMessage | apps/api/src/providers/gmail/mime.ts:230-282 | The whole function, statement by statement, computes the message or its first error; what a receiver finds in it is in `MessageReader`. |
| AddressList.ScanList | apps/api/src/providers/gmail/map.ts:47-69 | Over a printed list the character scan splits at the separating commas and nowhere else. |
| AddressList.CommasSplit | apps/api/src/providers/gmail/map.ts:47-69 | A comma outside quotes and angles ends a piece, and what follows is split on its own. |
| AddressList.QuotesKeepCommas | apps/api/src/providers/gmail/map.ts:47-69 | A comma between quotes separates nothing. |
| AddressList.AnglesKeepCommas | apps/api/src/providers/gmail/map.ts:47-69 | Nor does one between angles. |
| AddressList.PrintedNameReads | apps/api/src/providers/gmail/map.ts:74-96 | A printed address is parsed alone to its email in lower case and its name as the quoted string holds it. |
| AddressList.UnquotedNameReads | apps/api/src/providers/gmail/map.ts:74-88 | A name without quotes is read as it stands, whatever else it holds, with the email in lower case. |
| AddressList.CommentIsDropped | apps/api/src/providers/gmail/map.ts:89-96 | A comment after a bare address is not part of it. |
| AddressList.CommentInFront | apps/api/src/providers/gmail/map.ts:89-96 | Nor is a comment in front of it: a comment ends at the last closing bracket on its line. |
| AddressList.OpenIsKept | apps/api/src/providers/gmail/map.ts:89-96 | A bracket that is never closed opens no comment. |
| AddressList.NamelessReads | apps/api/src/providers/gmail/map.ts:78-87 | An address between angles alone has no name. |
| AddressList.ParsedIsReal | apps/api/src/providers/gmail/map.ts:74-96 | Blank text is no address, and a parsed one has neither an empty email nor an empty name. |
| AddressList.QuotedAddressReads | apps/api/src/providers/gmail/map.ts:89-96 | A bare address in quotes is read without them. |
| AddressList.SplitLosesNothing | apps/api/src/providers/gmail/map.ts:47-69 | The pieces of any text, put together with commas, are the text. |
| AddressList.NameReadsBack | apps/api/src/providers/gmail/map.ts:74-88 | An ASCII name survives printing and parsing exactly when it holds no quote and no backslash. |
| AddressList.AddressListRoundTrip | apps/api/src/providers/gmail/map.ts:47-96 | A printed list of valid lower-case addresses with plain names parses back to the list; names may hold commas and angle brackets. |
| AddressList.ParseList | apps/api/src/providers/gmail/map.ts:47-72 | The loop with its two flags, then the parse of each piece, computes the list. |
| Tokens.StepInv | apps/api/src/providers/tokenManager.ts:192-252 | Every step of every caller, crash, status change and clock tick keeps the lock with the one caller in its section and, while no grant is lost, the row in step with the provider. |
| Tokens.MutualExclusion | apps/api/src/lib/mutex.ts:73-106 | If every section ends within the lock's lifetime, at most one caller is in it. |
| Tokens.TokensStaySynced | apps/api/src/providers/tokenManager.ts:161-252 | In such runs, unless a grant is lost or withdrawn, no refresh is refused, the mailbox is never marked revoked, and the row holds the provider's latest refresh token whenever no answer waits to be written. |
| Tokens.OneRefreshPerLifetime | apps/api/src/providers/tokenManager.ts:195-212 | Any number of callers on a stale row cause one refresh until five minutes before the new token ends. |
| Tokens.FreshUntil | apps/api/src/providers/oauthHttp.ts:34-35 | A stored token is used exactly while its stated lifetime exceeds the skew; the 300 s default is never fresh. |
| Tokens.StoredTokenIsUsed | apps/api/src/providers/tokenManager.ts:161-192 | A call is answered at once with the stored token exactly when the mailbox is not revoked and the token lasts more than five minutes and was encrypted with the current key. |
| Tokens.CallersGetTokens | apps/api/src/providers/tokenManager.ts:161-252 | In timely runs in which no grant is lost or withdrawn: no caller is told the mailbox was revoked; every token handed out is the latest refresh's or the initial row's and fresh at that moment, or the one just granted to this caller; a refresh fails only when the provider was unreachable, and a wait only past its deadline with the lock taken. |
| Tokens.RunGives | apps/api/src/providers/tokenManager.ts:161-252 | Over every run each answer was given by one event and for its own reason: a stored token only from a fresh row, a new one only when written, "revoked" only from a revoked row, a missing refresh token or a refusal. |
| Tokens.WaiterReuses | apps/api/src/providers/tokenManager.ts:195-212 | A caller that waited and finds the row fresh under the lock gets exactly the row's token; the provider is not asked and the row stays. |
| Tokens.FailedCall | apps/api/src/providers/tokenManager.ts:217-252 | A call whose token the provider refuses marks the mailbox revoked and drops its tokens; one that cannot reach the provider changes nothing. |
| Tokens.UndisturbedCall | apps/api/src/providers/tokenManager.ts:161-252 | A call nobody disturbs on a stale row hands out the granted token, frees the lock and stores the live refresh token; a second call reuses it exactly when its stated lifetime exceeds the skew. |
| Tokens.OnlyTheHolderReleases | apps/api/src/lib/mutex.ts:22-27 | In any state whatever, a lock in force changes only when its own holder gives it up. |
| Tokens.LateSectionRevokes | apps/api/src/providers/tokenManager.ts:25-27 | A section that outlives the lock makes two callers send one token, and a live mailbox is marked revoked. |
| Tokens.Mailbox.Acquire | apps/api/src/lib/mutex.ts:86-93 | The polling loop: acquired, or timed out no earlier than the deadline while the lock was taken. |
| Tokens.Mailbox.Recheck | apps/api/src/providers/tokenManager.ts:195-215 | In place: the re-read under the lock answers a revoked row with "revoked", a fresh one with its token, a stale one without refresh token with "revoked", and otherwise asks for a refresh with the stored token. |
| Tokens.Mailbox.Settle | apps/api/src/providers/tokenManager.ts:217-248 | In place, field by field: the row gets the new tokens, keeping the stored refresh token when none came, or is dropped as revoked; a failed write changes nothing and fails the refresh. |
| Tokens.Mailbox.GetAccessToken | apps/api/src/providers/tokenManager.ts:161-252 | The whole call, with arbitrary events of others at each await, is a run of the state machine. A fresh row is answered with its token at once, a revoked one refused, and a stale one, undisturbed, ends as the stored refresh token, the provider's answer and the write decide. |
| FollowUps.StatusStep | apps/api/src/services/followUps.ts:212-284 | One step never moves a reminder back towards due, never changes its thread or dates, and reopens a closed one only by a snooze. |
| FollowUps.OnlySnoozeReopens | apps/api/src/services/followUps.ts:211-246 | Without a snooze, a resolved or dismissed reminder stays closed over every run. |
| FollowUps.SnoozeReopens | apps/api/src/services/followUps.ts:249-284 | A snooze reopens a dismissed or resolved reminder, against the comment on dismissal. |
| FollowUps.NeverTriggeredAgain | apps/api/src/services/followUps.ts:386-397 | A snoozed, resolved or dismissed reminder is never triggered again. |
| FollowUps.QuietForever | apps/api/src/services/digest.ts:72-87 | Once snoozed, closed or marked as mailed, a reminder is never picked for a digest again, against the comment that a snoozed one counts as new. |
| FollowUps.MarkedIsLast | apps/api/src/services/digest.ts:142-145 | After a marked mail no later digest mails the reminder, unless one had already picked it. |
| FollowUps.MailsAreWanted | apps/api/src/services/digest.ts:56-153 | Over every run a mail goes only to a user who had opted in and had an address when it was picked, about at most ten reminders of that user, triggered, due, past their snooze and not mailed before. |
| FollowUps.BatchIsAll | apps/api/src/services/followUps.ts:318-333 | The first query returns every open reminder when at most 500 are open. |
| FollowUps.ChecksDoNotNag | apps/api/src/services/followUps.ts:309-422 | A check whose queries succeed never triggers or mails a reminder answered before it began, whatever interleaves, if the reminder is in its batch or closed. |
| FollowUps.SmallChecksDoNotNag | apps/api/src/services/followUps.ts:309-422 | With at most 500 open reminders that is every reminder. |
| FollowUps.UndisturbedCheck | apps/api/src/services/followUps.ts:344-406 | A check with nothing else going on closes exactly the answered reminders, triggers exactly the unanswered due ones and leaves the rest. |
| FollowUps.CheckDoneRow | apps/api/src/services/followUps.ts:344-406 | What such a check with its digests leaves of a reminder, field by field: closed when something inbound came since a minute before it, triggered when due and unanswered, marked exactly when mailed, otherwise as it was. |
| FollowUps.CheckDoneMail | apps/api/src/services/digest.ts:56-153 | And of a user: one mail exactly when opted in, addressed, touched by a due unanswered row of the batch, and with something mailable; it lists all that is mailable, up to ten. |
| FollowUps.OverflowMails | apps/api/src/services/followUps.ts:318-333 | Outside the batch nothing protects a reminder: what the digest of an opted-in, addressed user is due to mail is mailed as soon as one row of the batch is due and unanswered and of that user; its reminders from outside the batch were mailable all along and are never looked at. |
| FollowUps.CrowdedCheckNags | apps/api/src/services/followUps.ts:318-333 | With 501 open reminders a check mails one whose answer was stored all along, and does nothing else. |
| FollowUps.Tables.CreateFollowUpReminder | apps/api/src/services/followUps.ts:96-144 | In place: a pending reminder due the set number of days later is made exactly when the user has no open one on the thread; nothing else changes. |
| FollowUps.Tables.DismissReminder | apps/api/src/services/followUps.ts:212-246 | In place: the reminder is DISMISSED and no other changes; a second dismissal changes nothing. |
| FollowUps.Tables.SnoozeReminder | apps/api/src/services/followUps.ts:249-284 | In place: SNOOZED for the days asked, its mark cleared, whatever its status was. |
| FollowUps.Tables.Take | apps/api/src/services/digest.ts:72-87 | A batch in due order, at most the limit, nothing earlier left out. |
| FollowUps.Tables.Examine | apps/api/src/services/followUps.ts:344-406 | In place: look for an answer, then one conditional update; undisturbed, the row is closed, triggered or left and its user touched once. |
| FollowUps.Tables.SendFollowUpDigest | apps/api/src/services/digest.ts:56-153 | In place: choose, send, then mark. Undisturbed, an opted-in, addressed user with something mailable is mailed the ten earliest, and those are marked when the mail is reported sent; otherwise nothing changes. |
| FollowUps.Tables.ExamineBatch | apps/api/src/services/followUps.ts:344-406 | The first loop, row by row. |
| FollowUps.Tables.MailTouched | apps/api/src/services/followUps.ts:408-422 | The second loop: one digest per touched user. |
| FollowUps.Tables.RunFollowUpCheck | apps/api/src/services/followUps.ts:309-422 | Both loops, with failures and arbitrary events of others at every await, are a run of the state machine; when nothing fails and nobody interferes the outcome is the one `CheckDoneRow` and `CheckDoneMail` read off. |
| Retry.BackoffBounds | apps/api/src/lib/retry.ts:298-310 | A delay lies between the un-jittered curve and the ceiling, at most half as much again, and respects the floor exactly when the ceiling does. |
| Retry.CurveRises | apps/api/src/lib/retry.ts:302-305 | The un-jittered delay never decreases from one attempt to the next. |
| Retry.CurveDoubles | apps/api/src/lib/retry.ts:298-305 | It starts at the floor and doubles with each attempt until the ceiling. |
| Retry.JitterIsDrawn | apps/api/src/lib/retry.ts:305-310 | Between the limits the delay is the curve and the drawn part of half of it again, to the nearest millisecond. |
| Retry.DefaultCurve | apps/api/src/lib/retry.ts:40-46 | With the defaults the four waits are 1 to 1.5, 2 to 3, 4 to 6 and 8 to 12 seconds. |
| Retry.RetryAfterHonoured | apps/api/src/lib/retry.ts:343-354 | Retry-After is waited out if and only if it is within its ceiling or the floor; a longer one is cut to the ceiling, not handed to the queue as the comment says, and a shorter one raised to the floor. |
| Retry.DelayBounds | apps/api/src/lib/retry.ts:351-354 | Every wait lies between the floor and the largest of the three limits. |
| Retry.WithRetry | apps/api/src/lib/retry.ts:312-388 | The loop: calls repeat only after a 429, a stated rate limit, a 5xx or a socket fault, without an abort, a signal or a cut wait, with exactly one wait of the right length between two calls, never more than the attempts; it stops early only on any other failure; the first success or the typed last failure comes out. |
| Retry.DefaultWaits | apps/api/src/lib/retry.ts:40-46 | With the defaults: waits of one second to two minutes, eight minutes in all at most. |
| Retry.RetryableIsTyped | apps/api/src/lib/retry.ts:395-417 | The raw error comes out exactly when it was neither an abort nor worth repeating. |
| Retry.StepInv | apps/api/src/lib/retry.ts:426-451 | Every turn, result, failure and abort keeps each started task with exactly one worker, or done, or failed. |
| Retry.ClaimedOnce | apps/api/src/lib/retry.ts:438-445 | Under every interleaving each index is started at most once, in order, and its slot holds its own result. |
| Retry.AtMostLimitInFlight | apps/api/src/lib/retry.ts:435-437 | At most the limit (or one) of tasks are in flight. |
| Retry.NothingStartsAfterAbort | apps/api/src/lib/retry.ts:439-441 | Once the signal is set no task starts. |
| Retry.ResolvesToAll | apps/api/src/lib/retry.ts:449-450 | When all workers finish, no task threw and the results are the tasks' results in input order. |
| Retry.FailureStopsNobody | apps/api/src/lib/retry.ts:432-449 | After a task throws the other workers go on starting tasks. |
| Retry.CallsEnd | apps/api/src/lib/retry.ts:426-451 | Whatever the order of its workers, a call is over after at most three steps per task and one per worker. |
| Retry.ConcurrentMap.TakeTurn | apps/api/src/lib/retry.ts:438-443 | In place: reject on the signal, claim and start the next index, or finish when none is left; no other worker and no result changes. |
| Retry.ConcurrentMap.FinishTask | apps/api/src/lib/retry.ts:444-444 | In place: the result lands under the task's own index. |
| Retry.ConcurrentMap.Interleave | apps/api/src/lib/retry.ts:432-450 | Any order of turns, results, failures and aborts on the shared cursor and results is a run of the state machine. |

## Left out

- Timezone: offsets that are not whole minutes, calendar arithmetic (wall times are minutes on a line), malformed or impossible dates and zone validation; zones satisfy `ValidZone` (offsets within 14 h, changes more than 28 h apart).
- RateLimiter: floating point; tokens are counted in thousandths so that elapsed milliseconds times the rate is exact. The per-account registry of buckets is not modelled.
- RateLimiter.Fairness: assumes each timer fires at most a given time late; a timer that never fires serves nobody.
- Schedule: creating and editing a send, threading headers, the reminder made after a send, demo mailboxes beyond their exclusion; attempts are counted but nothing depends on them.
- Schedule.SweepRecovers: one sweep followed by the jobs it left waiting, each from start to finish and without other events between them.
- DeltaSync: enrichment, notification and follow-up hooks, REVOKED and ERROR mailboxes, and two deltas running on one mailbox at once.
- Backfill: a job-supplied page token, a missing history id, the moving 90-day window and attachments; listing answers are assumed honest about threads without changes, and a page's threads are fetched one at a time.
- Overlap.OverlapNoGap: the condition can be broken without a gap, when the replaced copy is written again, or its thread changes, before the cursor passes it; `Overlap.ReplacedIsLost` says that otherwise there is one. Runs of two jobs exclude the abort, which `DeltaSync.AbortHarmlessExactlyWhen` treats.
- DeltaQueue: how many attempts a failed job has; a window that expires ends the run, and backfills are not among its events.
- Mirror: a stored message is its thread and version; columns, labels and thread aggregates are not modelled.
- HistoryFold: one message keeps one thread, as at the provider (`HistoryPages.OneThread` where entries are read).
- Threads: the JSON and base64url form of the cursor and its validation, text search and the non-key columns.
- GeminiSchema: error messages and paths; `description` is carried but has no meaning; the dropped keywords are one arbitrary predicate of node and value.
- WordReader: language suffixes of RFC 2231; charsets other than UTF-8 are a parameter that makes no more characters than it gets bytes.
- Mime: the random boundary is a parameter without line breaks; the base64url form handed to the provider is not modelled.
- MessageReader.AddressesFound: for lower-case emails and names that the parser can read back (`AddressList.NameReadsBack`); other names are in `MessageReader.QuotedNameFound` and `MessageReader.EncodedNameFound`, one address at a time.
- AddressList: `toLowerCase` is a parameter; the round trip asks that it leaves the given emails alone.
- Tokens: encryption, the deletion or reconnection of a mailbox and revoking a grant on disconnect; the key version is a constant. Poll sleeps are events of at least 100 ms.
- Tokens.MutualExclusion: assumes sections end within the lock's lifetime, which nothing in the code enforces.
- FollowUps.OverflowMails: the run shown lets the digests of the users before the mailed one come to nothing.
- FollowUps: the counts a check reports, mail text, recipients and the due list for display; settings, rows and address are read in one step of a digest; creation checks for an open reminder and inserts in one step.
- Retry: parsing of error shapes and headers (an error is its relevant facts), logging, and rounding of floating point (random numbers and rounding are over reals).
- HTTP routes, jobs' wiring, the web application, prompts, cryptography and the provider SDKs.
