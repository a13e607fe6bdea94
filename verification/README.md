# Company brain worker: a verified model

A worker keeps the state of one organisation in one SQLite store. Every handler is a sequence of
synchronous blocks with `await`s between them; at an `await` any other handler may run. This project
models the protocols that live in that store, and the algorithms beside them, and proves what they
keep: over every interleaving where the source interleaves, over every input where it computes.

Methods and classes stand for the source's imperative code and are tied to specification functions;
protocols are step machines over those functions, with their invariants proved over every run.

| file | what it models |
|---|---|
| `LeaseStore.dfy`, `LeaseDecisions.dfy`, `LeaseRevalidation.dfy` | access leases: rows and deliveries, presses, alarms, revalidation |
| `TagKey.dfy`, `TopicOutline.dfy` | tag keys, the tag listing, the topic outline |
| `NodeRegistry.dfy`, `Split.dfy`, `WorkerPool.dfy` | documents under topics, the reset epoch, splitting a topic, the bounded pool |
| `ResearchRun.dfy`, `DraftSending.dfy` | the research run's lock and fenced insertions, sending a draft |
| `JourneyLog.dfy`, `Journey.dfy`, `JourneySafety.dfy`, `JourneyBound.dfy`, `JourneyTick.dfy`, `Schedule.dfy` | the onboarding nudges and their calendar |
| `ChimeBudget.dfy`, `PassiveInvestigation.dfy` | the reply budget and the investigation leases of a channel |
| `SkillNamespace.dfy`, `SkillDrafts.dfy`, `SkillIndex.dfy`, `QuotedScalar.dfy`, `SlackText.dfy`, `EditDistance.dfy`, `SkillSuggestions.dfy` | skills: names and scopes, drafts, the prompt index, frontmatter scalars, bounded text, suggestions |
| `ChannelMembership.dfy` | who belongs to a private channel, and what a turn may read |
| `Migrations.dfy` | racing isolates applying migrations |
| `Prelude.dfy` | option and result types, a stable sort |

`dafny verify dfyconfig.toml` checks everything.

## What is taken as given

- Time, random draws, new ids and tokens, and the answers of Slack, the model, the memory service and
  the databases are parameters of the blocks that use them, or steps of the machine.
- Trimming, lower-casing, locale comparison and the shortening of descriptions are function
  parameters, with the one property a proof needs stated where it is used (for tag keys: text in the
  key alphabet is left alone). A `char` stands for one UTF-16 unit where lengths matter.
- SQL statements are atomic; unique columns reject duplicates; ids drawn as UUIDs are fresh.
- In `NodeRegistry` a row carries the epoch its writer captured. The source does not store it; it is
  there to say where a row came from.

## Where the source does not do what it says

Each of these is a lemma, with the exact condition under which the promise holds where there is one.

- Weekend ticks do not all roll to Monday morning (`Schedule.FirstWorkingHourIff`).
- A suppressed tick may wake up to half a second early and be suppressed again
  (`JourneyBound.RetryWakesShortIff`, `Schedule.WakesEarlyIff`).
- A request can be approved after its deadline (`LeaseDecisions.ApprovedLate`, `ActivatesIff`), and
  that, or overlapping calls, leaves two open requests (`OpensSecondIff`, `OneOpenPerThreadIff`).
- A draft left in `sending` by a crash is not retaken (`DraftSending.ParkedMovesIff`); a slow answer
  can turn a dismissed draft into a sent one (`DismissedMovesIff`), and an edit while a post may
  still arrive, or has arrived unnoticed, makes the recorded body differ from the one Slack shows
  (`BodiesPartIff`, `KeptIff`).
- After a failed read of the grants a credited rung can be asked for again
  (`JourneySafety.SentAfterFailedReadIff`).
- Normalising a key is not idempotent when the cut leaves a separator (`TagKey.IdempotentIff`); the
  second normalisation done by listing, storing and moving is what keeps keys canonical
  (`TopicOutline.ListedKeys`, `Split.ChildLies`).
- A topic with a key of 127 characters is split onto itself (`Split.ChildLies`).
- A departure handled while a channel's members are being fetched is undone until the next
  reconciliation (`ChannelMembership.DepartedListedIff`), and a channel the bot joins during a
  reconciliation is purged by it (`PrunedIff`).

## Model

| member | source | states |
|---|---|---|
| EditDistance.Levenshtein | src/brain/skills/store.ts:559-575 | the loop over one mutable row returns the recursively defined edit distance, for every pair of strings |
| EditDistance.LengthBounds | src/brain/skills/store.ts:559-575 | the distance is at most the longer length and at least the difference of the lengths |
| EditDistance.Symmetric | src/brain/skills/store.ts:559-575 | the distance is symmetric |
| EditDistance.ZeroIffEqual | src/brain/skills/store.ts:559-575 | the distance is zero exactly for equal strings |
| EditDistance.Triangle | src/brain/skills/store.ts:559-575 | the distance obeys the triangle inequality |
| EditDistance.NoShorterChain | src/brain/skills/store.ts:559-575 | no chain of single insertions, deletions and substitutions is shorter than the distance |
| EditDistance.ShortestChain | src/brain/skills/store.ts:559-575 | some chain of single edits is exactly as long as the distance |
| SkillSuggestions.NearestSkillNames | src/brain/skills/store.ts:577-591 | the suggestions are a prefix of the names ranked by distance to the normalised target, then by name |
| SkillSuggestions.SuggestionsAreClosest | src/brain/skills/store.ts:577-591 | nothing left out of the suggestions is strictly nearer than something suggested |
| WorkerPool.MapWithConcurrency | src/brain/memory/tree.ts:48-77 | terminates for every settling order; on success with limit at least 1 result i is the mapper's value for item i, on failure the error is that of the first failing call; with limit 0 nothing is called |
| WorkerPool.AtMostLimitInFlight | src/brain/memory/tree.ts:48-77 | at every moment at most `limit` calls are in flight |
| WorkerPool.ClaimedOnce | src/brain/memory/tree.ts:57-60 | later starts carry larger indexes, so no item is claimed twice |
| WorkerPool.NoStartAfterFailure | src/brain/memory/tree.ts:57-68 | after a call has failed no further item starts |
| WorkerPool.FirstFailureIsEarliest | src/brain/memory/tree.ts:61-67 | the failure that is remembered is that of the earliest failing settlement |
| Schedule.ShiftIntoWorkingHours | src/brain/journey/schedule.ts:42-59 | the bounded loop always suffices: the result is the input moved by a whole number of hours to a local weekday in [9, 17) |
| Schedule.ShiftLandsInWorkingHours | src/brain/journey/schedule.ts:42-59 | the shift is between 0 and 64 hours, lands inside working hours, and is zero exactly when the instant already is |
| Schedule.FirstWorkingHourIff | src/brain/journey/schedule.ts:42-59 | the shift goes to the first working hour exactly when the instant is not a weekend instant with hour in (9, 17); the comment in the source promises Monday morning for all of them |
| Schedule.NextBeatAt | src/brain/journey/schedule.ts:87-107 | not in fast forward a beat is at least five minutes out and inside working hours unless that floor wins; in fast forward days are minutes |
| Schedule.WakesOnTime | src/brain/journey/schedule.ts:109-111 | an alarm fires at least a minute out and at most half a second before its instant, and at most half a second after an instant that is a minute away or more |
| Schedule.WakesEarlyIff | src/brain/journey/schedule.ts:109-111 | exactly which delays make the alarm fire before its instant: rounding is to the nearest second |
| JourneyLog.CreditGrantCredits | src/brain/journey/log.ts:97-116 | crediting fills in one null grant time of a sent beat of the rung, changes nothing else, and leaves the rung credited if it was ever sent |
| JourneyBound.CreditGrantAt | src/brain/journey/log.ts:97-116 | the credit goes to the last open beat of the rung, if there is one |
| JourneyLog.NextRungIsLowest | src/brain/journey/rungs.ts:154-159 | the next rung is the lowest one neither granted nor skipped, and none exactly when all are |
| Journey.Engine.CountIgnored | src/brain/journey/log.ts:81-93 | the counting loop computes the trailing streak of sent beats without a grant |
| Journey.Engine.ReconcileGrants | src/brain/journey/guardrails.ts:46-70 | the loop over the rungs settles the log exactly as its specification: grants credited, new refusals marked and remembered |
| Journey.Engine.DecideNextBeat | src/brain/journey/guardrails.ts:98-155 | the guards in their order give the specified decision and leave the settled log |
| Journey.Engine.RunTick | src/brain/journey/engine.ts:84-146 | one tick leaves the specified log and arms, or does not arm, its successor as specified |
| JourneySafety.TickIsSafe | src/brain/journey/engine.ts:84-146 | a tick keeps pacing, silence, rest after refusals and the finality of an exit |
| JourneySafety.RunIsSafe | src/brain/journey/engine.ts:84-146 | over every serial run: sent beats a full gap apart, at most 2 trailing ignored beats, seven quiet days after a refusal, an exit is last |
| JourneySafety.ExitAbsorbs | src/brain/journey/guardrails.ts:106-108 | once exited, no run of ticks changes the log |
| JourneySafety.NotOfferedAgain | src/brain/journey/guardrails.ts:46-70 | an automatic tick with reliable reads never offers a rung that was credited or is granted |
| JourneySafety.NeverAskedAgain | src/brain/journey/guardrails.ts:46-155 | over every run of such ticks a credited rung is never sent again, granted or taken back |
| JourneySafety.SentAfterFailedReadIff | src/brain/journey/guardrails.ts:46-155 | after a failed read an automatic tick sends a rung, credited or not, exactly when the switch, rest, silence and pacing guards pass and the rung is the lowest with a message that the read does not show as granted |
| JourneySafety.AskedAgainAfterFailedRead | src/brain/journey/guardrails.ts:59-62 | an instance: a credited rung does go out again |
| JourneySafety.KeepsPrefix | src/brain/journey/log.ts:55-69 | ticks only append to the log and fill in grant times |
| JourneyTick.SettlingIs | src/brain/journey/guardrails.ts:46-70 | a granted rung that was sent is credited; a credited one that a reliable read no longer shows is marked as refused, once; the tick counts as a refusal exactly when a mark is new |
| JourneyTick.EntryIs | src/brain/journey/guardrails.ts:98-155 | for every tick on an open log exactly when it ends as sent, suppressed for each reason of the guards, or exited, and which rung it sends |
| JourneyTick.JourneyEndsIff | src/brain/journey/engine.ts:84-146 | a tick ends the journey exactly by its own entry, or when by its end every rung is granted and it was not switched off |
| JourneyBound.AtMostTenBeats | src/brain/journey/guardrails.ts:98-155 | from an empty log no run of automatic ticks ever sends more than ten beats |
| JourneyBound.RunPays | src/brain/journey/guardrails.ts:98-155 | every two beats sent are paid for by a newly credited rung, except the open streak |
| JourneyBound.ArmsSuccessorIff | src/brain/journey/engine.ts:145-211 | a tick arms its successor exactly when the journey has not ended after it and it was not told that it is switched off |
| JourneyBound.SuccessorWakes | src/brain/journey/engine.ts:150-212 | when it wakes: after a beat as placed; after unreadable settings a quarter of an hour on, wherever the beat is placed; after a message without a place or a text as placed, but not before the back-off |
| JourneyBound.HeldBackWakes | src/brain/journey/engine.ts:150-212 | after pacing or a pause when that clears or as placed, whichever is later |
| JourneyBound.RetryWaits | src/brain/journey/engine.ts:150-212 | a tick held back by pacing or by a pause is armed for no earlier than half a second before that clears |
| JourneyBound.RetryWakesShortIff | src/brain/journey/engine.ts:150-212 | it wakes before that clears exactly when it clears over a minute later at less than half a second past a whole second, and the placement does not push the alarm past that half second |
| JourneyBound.WokenShortIsHeldBack | src/brain/journey/guardrails.ts:98-155 | a tick with the same gap that runs before then sends nothing, whatever it reads |
| JourneyBound.RetryWakesShort | src/brain/journey/engine.ts:150-212 | an instance, 400 ms short and rate-limited again |
| ChimeBudget.Budget.Reserve | src/brain/slack/chime-budget.ts:231-271 | a reservation answers as the evaluation of the channel's row and stores the new row only when allowed |
| ChimeBudget.RowRefinesHistory | src/brain/slack/chime-budget.ts:61-165 | judged by the row alone, a reply is allowed exactly when the policy on the whole history permits it, and the new row summarises the longer history |
| ChimeBudget.RefusalNamesReason | src/brain/slack/chime-budget.ts:75-155 | why a reply is held back, read off the history: the ceiling first, then the interval, then the allowance |
| ChimeBudget.EveryRunWithinBudget | src/brain/slack/chime-budget.ts:61-165 | over every run with a clock that does not go back: per clock hour at most 12 replies, 4 summons, 6 general, 2 low; normal replies at least three minutes apart across hours |
| ChimeBudget.ExcessIsFindings | src/brain/slack/chime-budget.ts:84-164 | the total of the hour minus its three counters is the number of urgent findings |
| ChimeBudget.CeilingOnlyAfterAllowances | src/brain/slack/chime-budget.ts:80-155 | without urgent findings the ceiling refuses nothing that an allowance would still permit |
| ChimeBudget.IntervalBlindAtZero | src/brain/slack/chime-budget.ts:125-131 | a normal reply at instant 0 does not count as one for the interval |
| PassiveInvestigation.Investigations.Reserve | src/brain/slack/chime-budget.ts:283-331 | expire and prune, then refuse at two running or six in the hour, else record a running lease; a known trace id is granted again without a row |
| PassiveInvestigation.Investigations.Release | src/brain/slack/chime-budget.ts:333-345 | only a running investigation is finished |
| PassiveInvestigation.ReserveIs | src/brain/slack/chime-budget.ts:283-331 | a claim is granted exactly while fewer than two leases are unexpired and the hour has fewer than six rows, so a lease that ran out frees its slot; what is recorded, marked and dropped |
| PassiveInvestigation.ReleaseFreesSlot | src/brain/slack/chime-budget.ts:333-345 | giving a claim back frees its slot at once, and no other |
| PassiveInvestigation.EveryRunIsLimited | src/brain/slack/chime-budget.ts:283-345 | in every run at most two rows are running and each clock hour has at most six |
| PassiveInvestigation.SixClaimsPerHour | src/brain/slack/chime-budget.ts:283-331 | callers that use each trace id once get at most six investigations per clock hour |
| PassiveInvestigation.TwoClaimsHeld | src/brain/slack/chime-budget.ts:283-345 | at every moment of every run, callers that use each trace id once hold at most two claims that are neither given back nor past their lease |
| PassiveInvestigation.RepeatedTraceEscapesTheCap | src/brain/slack/chime-budget.ts:312-331 | why those two ask for distinct ids, which the callers draw: an id whose row is present is granted again without a row |
| Migrations.Database.Batch | src/db/migrate.ts:47-52 | one migration and its name are committed together, or neither |
| Migrations.Database.ApplyMigrations | src/db/migrate.ts:42-56 | run alone, the loop applies exactly the missing migrations in order and reports them |
| Migrations.RunIsConsistent | src/db/migrate.ts:42-76 | over every interleaving of isolates, faults and restarts the applied names are a prefix of the list, each once, and only grow; an ensured isolate implies the whole list |
| Migrations.LoserStops | src/db/migrate.ts:43-54 | an isolate whose next migration somebody else committed since its read stops there and leaves the table alone |
| Migrations.RetryCompletes | src/db/migrate.ts:65-76 | from any reachable state an isolate that starts again undisturbed completes the list |
| ResearchRun.AutoResearch.Acquire | src/brain/auto-research/run.ts:84-101 | a lock that is free, expired or forced goes to a fresh token |
| ResearchRun.AutoResearch.Renew | src/brain/auto-research/run.ts:141-153 | renewal moves the deadline of the token that owns the lock and touches no other |
| ResearchRun.AutoResearch.SettleJob | src/brain/auto-research/run.ts:396-426 | fence, insertion and counters are one block |
| ResearchRun.AutoResearch.BeginBatch | src/brain/auto-research/run.ts:344-364 | a run that was reset or lost its lock stops at the top of its loop |
| ResearchRun.AutoResearch.Release | src/brain/auto-research/run.ts:205-213 | the owner's deadline becomes 0; nobody else's row is touched |
| ResearchRun.AutoResearch.AdvanceResetEpoch | src/brain/turn/agent.impl.ts:290-293 | a reset first advances the epoch and leaves lock, drafts and runs alone |
| ResearchRun.AutoResearch.WipeResearchTables | src/brain/auto-research/run.ts:466-476 | after an await, in which anything may happen, it deletes the drafts and the lock row |
| ResearchRun.WipedNeverInserts | src/brain/auto-research/run.ts:466-476 | no run that began before the wipe inserts after it, not even one that started in the reset's new epoch while the reset was waiting |
| ResearchRun.WipedIsClean | src/brain/auto-research/run.ts:466-476 | from the wipe until the next reset begins every draft in the table is of the current epoch |
| ResearchRun.DispossessedNeverInserts | src/brain/auto-research/run.ts:141-153 | a run that does not own the lock inserts nothing in any continuation: its token never comes back, by expiry, release, deletion of the row or its own renewals |
| ResearchRun.SupersededNeverInserts | src/brain/auto-research/run.ts:84-101 | once a later token was issued, the earlier run inserts nothing in any continuation, even after release or deletion of the row |
| ResearchRun.StaleEpochNeverInserts | src/brain/auto-research/run.ts:396-438 | a run that started before a reset inserts nothing once the epoch has advanced |
| ResearchRun.EveryRunIsFenced | src/brain/auto-research/run.ts:344-438 | from the start: drafts come in whole runs, never interleaved, and inserted + skipped + errored + in flight equals the jobs handed out |
| ResearchRun.UnforcedOwnerKeepsLock | src/brain/auto-research/run.ts:84-153 | an owner that is not forced out, reset or finished keeps the lock while the clock stays short of its deadline |
| ResearchRun.SettleInsertsIff | src/brain/auto-research/run.ts:396-426 | a job that settles inserts its draft exactly when there is one, no reset came since the run began, and the run's lock is its own and unexpired; exactly one of the three counters rises |
| ResearchRun.BatchInsertsAll | src/brain/auto-research/run.ts:378-426 | a batch that settles while all that holds inserts every draft it has |
| ResearchRun.StartIs | src/brain/auto-research/run.ts:84-101 | a run begins exactly when no unexpired lock is held or it is forced, with a fresh token, in the current epoch, locked for the full term |
| ResearchRun.HeartbeatIs | src/brain/auto-research/run.ts:141-153 | a heartbeat of the owner moves its deadline to a full term from now, anybody else's does nothing |
| ResearchRun.BatchBegins | src/brain/auto-research/run.ts:344-378 | with jobs left a run goes on exactly if it owns its lock and, after its first batch, no reset came; it then hands out six jobs or what is left, under a renewed lock |
| ResearchRun.FinishedRunFreesLock | src/brain/auto-research/run.ts:205-213 | a run that is over has given its lock back: the next one may start at once |
| ResearchRun.StoppedRunFreesLock | src/brain/auto-research/run.ts:205-213 | so has one that finds out at the top of its loop that it was reset |
| DraftSending.DraftTable.Claim | src/brain/auto-research/store.ts:250-267 | a draft, or one parked in sending for over two minutes, is claimed and returned as read; anything else is left alone |
| DraftSending.DraftTable.Release | src/brain/auto-research/store.ts:269-277 | only a sending draft goes back to draft |
| DraftSending.DraftTable.Finalize | src/brain/auto-research/store.ts:281-292 | marks any row as sent, whatever its status |
| DraftSending.DraftTable.Dismiss | src/brain/auto-research/store.ts:294-305 | only a draft is dismissed |
| DraftSending.DraftTable.Edit | src/brain/auto-research/store.ts:308-322 | only a draft is edited, and not to nothing |
| DraftSending.RunIsSound | src/brain/auto-research/send.ts:53-125 | when claims are taken over only from calls that are gone, every other call hears from Slack, success means a post arrived and failure that none did or will: one call posts at a time, a sent draft shows in Slack exactly the recorded body, nothing reaches Slack for a waiting or dismissed draft, sent and dismissed are final |
| DraftSending.DismissedMovesIff | src/brain/auto-research/store.ts:281-305 | a dismissed draft ever changes again exactly when some call is posting at that moment: finalising looks at no status |
| DraftSending.DismissedThenSent | src/brain/auto-research/store.ts:250-292 | an instance: a claim taken over after two minutes, a failure, a dismissal, and then the second call's success |
| DraftSending.SecondPosterIff | src/brain/auto-research/store.ts:250-267 | whatever the answers say, a step makes a second call post exactly when it claims while another call posts |
| DraftSending.BodiesPartIff | src/brain/auto-research/store.ts:308-322 | whatever the answers say and however many calls post, a step makes the recorded body differ from one posted or shown exactly when it edits a draft that Slack already shows or of which a post may still arrive |
| DraftSending.ShownOtherwiseIff | src/brain/auto-research/send.ts:94-112 | a step makes what Slack shows contradict the status exactly when it is a first arrival for a waiting or dismissed draft, a failure after an arrival, or a success without one |
| DraftSending.KeptIff | src/brain/auto-research/send.ts:53-125 | over every run, with takeovers, crashes, lost connections, late arrivals and answers of any kind: each of these three promises holds throughout exactly when none of its breaking steps is taken |
| DraftSending.EditedAfterLostAnswer | src/brain/auto-research/send.ts:94-112 | an instance: the answer to a post is lost, the draft is edited, and the retry records the edited text |
| DraftSending.EditedBesideAnother | src/brain/auto-research/store.ts:250-322 | an instance: nothing has arrived at the edit, but a second call still posts the old text |
| DraftSending.ParkedMovesIff | src/brain/auto-research/send.ts:53-61 | a draft left in sending with nobody posting ever moves again exactly when a call that began before the claim is still preparing; the comment in the store says a stale claim can be retaken |
| DraftSending.SentRecordsLastSuccess | src/brain/auto-research/store.ts:281-292 | over every run a row is sent exactly when it was or some call reported success, and names the message and channel of the last success |
| DraftSending.ClaimWinsIff | src/brain/auto-research/store.ts:250-267 | a preparing call gets the draft exactly when it waits or was parked for more than two minutes, and posts the text of that moment |
| DraftSending.FailureReleases | src/brain/auto-research/store.ts:269-277 | a failure gives a draft in sending back as it was before the claim |
| SkillDrafts.DraftTable.Claim | src/brain/skills/slack-drafts.ts:111-127 | one conditional write gives an unexpired pending draft to one token |
| SkillDrafts.DraftTable.Cancel | src/brain/skills/slack-drafts.ts:129-143 | only a pending draft is cancelled, and it drops its body |
| SkillDrafts.DraftTable.SettleClaim | src/brain/skills/slack-drafts.ts:145-175 | only the token that claimed a draft settles it |
| SkillDrafts.DraftTable.Sweep | src/brain/skills/store.ts:235-242 | the sweep deletes what it says and nothing else |
| SkillDrafts.EachDraftAtMostOneSkill | src/brain/skills/slack-interactions.ts:121-222 | over all double clicks, retries, cancels, sweeps and crashes each draft yields at most one skill, is claimed by one click, a created draft has its skill and a settled one no body |
| SkillDrafts.RunIsForward | src/brain/skills/slack-drafts.ts:111-175 | a row never goes back: pending, processing, settled; once settled it is frozen until swept |
| SkillDrafts.ClickWinsIff | src/brain/skills/slack-drafts.ts:111-127 | a click wins exactly a draft that is pending and not yet expired, and holds it under its token with its text |
| SkillDrafts.ExpiredStaysUnclaimed | src/brain/skills/slack-drafts.ts:111-127 | once a pending draft has expired no click wins it in any continuation |
| SkillDrafts.SweepIs | src/brain/skills/store.ts:235-242 | a sweep keeps settled drafts for a day after they were made and open ones for a day after they expired |
| SkillDrafts.SaveMakesSkill | src/brain/skills/slack-interactions.ts:121-222 | saving makes one skill of the draft unless it is rejected, whatever goes wrong afterwards |
| SkillDrafts.SettlingIs | src/brain/skills/slack-drafts.ts:145-175 | the click that holds the draft settles it, as created exactly if its saving went well |
| SkillNamespace.SkillStore.Create | src/brain/skills/store.ts:311-350 | checks in the source's order, then a new row in front at version 1 |
| SkillNamespace.SkillStore.Update | src/brain/skills/store.ts:392-440 | found, manageable, expected version, valid, allowed to move; then the row with its version raised |
| SkillNamespace.SkillStore.Delete | src/brain/skills/store.ts:442-471 | a missing row is no error; otherwise the row goes under the same guards |
| SkillNamespace.SkillStore.ListVisible | src/brain/skills/store.ts:492-525 | system skills, then the viewer's own, then the organisation's, a name going to the first holder |
| SkillNamespace.SkillStore.LoadByName | src/brain/skills/store.ts:527-539 | the first listed skill of that name |
| SkillNamespace.RunIsWellNamed | src/brain/skills/validation.ts:103-145 | over every run of creates, updates with scope moves and deletes: unique names per namespace, at most 100 org skills and 25 personal ones per creator |
| SkillNamespace.VisibleNamesDiffer | src/brain/skills/store.ts:492-525 | every viewer's names are pairwise distinct after normalisation, and a skill is withheld only for a name held higher up |
| SkillNamespace.NobodyElsesSkill | src/brain/skills/store.ts:498-510 | no personal skill of another user is listed |
| SkillNamespace.LoadResolvesListed | src/brain/skills/store.ts:527-539 | loading by name gives a skill exactly when it is listed under that name |
| SkillNamespace.CreateIs | src/brain/skills/store.ts:311-350 | a create succeeds exactly for a well-formed input by someone who may hold it, under a free name, with room under the cap; the row goes in front at version 1 |
| SkillNamespace.UpdateIs | src/brain/skills/store.ts:392-440 | an update succeeds exactly when it names the present version, by someone who may touch the row as it is and as it becomes, with a well-formed input that has room; it replaces that row alone, at a higher version |
| SkillNamespace.DeleteIs | src/brain/skills/store.ts:442-471 | a delete removes the row exactly when it names the present version, by someone who may touch it |
| SkillNamespace.StaleEditorNeverWins | src/brain/skills/store.ts:414-425 | of two editors of one version, once the first has saved, the second never saves over it nor deletes it, whatever happens in between |
| SkillNamespace.StrangersLeaveRow | src/brain/skills/store.ts:392-471 | over every run, steps by others leave a personal skill as it is, and steps by non-admins one of the organisation |
| SkillNamespace.RunKeepsCaps | src/brain/skills/validation.ts:103-145 | the caps over every run, counted in ids |
| SkillNamespace.VisibleInOrder | src/brain/skills/store.ts:492-525 | a list is the system's skills, then the viewer's own, then the organisation's, each in the order of the table |
| SlackText.BoundedEscaped | src/brain/skills/slack-drafts.ts:186-200 | escaped text never longer than the limit: all of it when it fits, else the longest prefix of whole code points with an ellipsis |
| SlackText.SkillSummary | src/brain/skills/slack-drafts.ts:202-231 | title, name, description and suffix in this order; the name gets at most 600 characters, the description what is left, each cut only at a code point; it fits a Slack section exactly when its fixed parts do |
| ChannelMembership.Table.Backfill | src/brain/slack/channel-membership.ts:70-99 | the channel's rows become the fetched members, an empty fetch changes nothing, other channels are untouched |
| ChannelMembership.Table.OnEvent | src/brain/slack/channel-membership.ts:120-182 | what a join or leave of a person or of the bot does, for private channels only |
| ChannelMembership.Table.RewriteNextChannel | src/brain/slack/channel-membership.ts:211-214 | the next private channel of the directory fetched at the start is rewritten from the members just fetched |
| ChannelMembership.Table.PruneChannels | src/brain/slack/channel-membership.ts:216-226 | channels that are not in that directory lose their rows |
| ChannelMembership.LastVerdictDecides | src/brain/slack/channel-membership.ts:70-230 | over every run of joins, leaves, backfills, rewrites and prunes a person is listed as the last block that concerned them decided, else as at the start |
| ChannelMembership.EventsAre | src/brain/slack/channel-membership.ts:120-182 | what each event does to a membership |
| ChannelMembership.ReconciliationIs | src/brain/slack/channel-membership.ts:189-230 | what each block of a reconciliation does, in the order of its directory |
| ChannelMembership.JoinedStaysListed | src/brain/slack/channel-membership.ts:120-182 | a person whose joining was handled is listed until some block decides against them |
| ChannelMembership.KeptChannelAtPrune | src/brain/slack/channel-membership.ts:189-230 | whatever is handled during a reconciliation: at its prune a channel of the directory was rewritten by it, and holds that snapshot changed by the events handled since |
| ChannelMembership.PrunedIff | src/brain/slack/channel-membership.ts:189-230 | after the prune a channel keeps exactly the rows it had if the directory holds it, and none otherwise, though the bot joined it in the meantime |
| ChannelMembership.ResolveReadTags | src/brain/memory/read-scope.ts:12-32 | an override is taken as it is; else the shared tag, the scope's own, and for a direct message one per listed channel |
| ChannelMembership.ChannelReadIff | src/brain/memory/read-scope.ts:12-32 | a private channel's memory is read in that channel and in the direct messages of those listed for it, and nowhere else |
| ChannelMembership.QuietReconciliation | src/brain/slack/channel-membership.ts:189-230 | with every fetch answered and no event in between, a channel of the directory holds exactly the fetched members |
| ChannelMembership.DepartedListedIff | src/brain/slack/channel-membership.ts:70-230 | over every continuation: someone whose departure was handled and who has not joined again is listed exactly when a later rewrite's snapshot still had them and no later block decided against them |
| SkillIndex.PlanIndexLines | src/brain/skills/context.ts:49-86 | fails exactly when the system skills exceed the budget; otherwise shortened and dropped skills are prefixes of the least-recently-used order, no longer than needed, and the lines with newlines fit the budget |
| SkillIndex.ByRecencyIs | src/brain/skills/context.ts:63-65 | the order is every skill that is not the system's, once, least recently used first |
| SkillIndex.LinesAmount | src/brain/skills/context.ts:66-82 | the running total is the size of the emitted lines and their newlines |
| SkillIndex.SystemStaysDescribed | src/brain/skills/context.ts:54-75 | a system skill keeps its description however tight the budget |
| SkillIndex.RenderedFits | src/brain/skills/context.ts:88-107 | the overhead set aside covers tags, directive and notices: the text has at most 16,000 characters |
| SkillIndex.RenderIs | src/brain/skills/context.ts:88-107 | the text holds directive, notice and every line of the plan, in this order between the tags |
| SkillIndex.DecimalReads | src/brain/skills/context.ts:88-107 | the counts in the notice read back as themselves |
| SkillIndex.EscapeIsCharwise | src/brain/skills/context.ts:24-29 | three replacements in a row escape every character once |
| SkillIndex.EscapeTellsApart | src/brain/skills/context.ts:24-29 | distinct names stay distinct when escaped |
| QuotedScalar.StripInlineComment | src/brain/skills/validation.ts:148-173 | the index loop cuts at the first hash outside quotes that starts the text or follows white space |
| QuotedScalar.SingleQuotedRoundTrip | src/brain/skills/validation.ts:148-203 | every value without surrounding white space, quoted with its quotes doubled and followed by white space or a comment, reads back as itself (YAML 1.2.2, sections 7.3.2 and 6.6) |
| QuotedScalar.DoubleQuotedIsDecoded | src/brain/skills/validation.ts:148-194 | a JSON string literal reaches the decoder whole whatever it holds and whatever follows |
| QuotedScalar.CommentIsFirstOutside | src/brain/skills/validation.ts:148-173 | the scanner finds exactly the first hash that starts the text or follows white space with no open quote before it, where what lies outside quotes is said by a grammar of characters and quoted spans |
| QuotedScalar.OutsideIffEven | src/brain/skills/validation.ts:148-173 | in a text without double quotes no quote is open exactly after an even number of them |
| QuotedScalar.TakenWholeIff | src/brain/skills/validation.ts:148-203 | a text between single quotes, doubled or not, is taken whole exactly when no hash behind white space lies outside quotes, and then decodes by halving its pairs of quotes |
| QuotedScalar.TakenWholeIffEven | src/brain/skills/validation.ts:148-203 | without double quotes: exactly when each hash behind white space has an even number of quotes before it |
| QuotedScalar.ConformsIffDoubled | src/brain/skills/validation.ts:195-203 | every run of quotes is even exactly when the text is some value with its quotes doubled (YAML 1.2.2, section 7.3.2) |
| QuotedScalar.ConformingIsTaken | src/brain/skills/validation.ts:148-203 | every conforming text is taken whole and decodes to the value it quotes |
| QuotedScalar.HashlessIsTaken | src/brain/skills/validation.ts:148-203 | so is every text without a hash, conforming or not |
| QuotedScalar.UnquotedIs | src/brain/skills/validation.ts:176-222 | unquoted text is taken as it stands unless it is empty, opens a collection or a reference, or reads as a number, a truth value or null; an unclosed quote is an error |
| TagKey.CleanIsWords | src/brain/memory/tags.ts:90-101 | the four replacements compute the words of the text joined by a slash where the gap held one and by an underscore otherwise |
| TagKey.CleanIsCanonical | src/brain/memory/tags.ts:90-101 | before the cut a key has single separators and none at its ends |
| TagKey.NormalizeShape | src/brain/memory/tags.ts:90-101 | a key has 1 to 128 characters of its alphabet and ends in a separator only if it was cut |
| TagKey.IdempotentIff | src/brain/memory/tags.ts:90-101 | normalising is idempotent on a text exactly when the cut does not fall right behind a separator of the cleaned text; twice is always enough |
| TagKey.NotIdempotent | src/brain/memory/tags.ts:90-101 | a text on which normalising twice differs from once |
| TopicOutline.Outline | src/brain/memory/tree.ts:429-482 | the loop over the tags builds the specified forest and sorts it |
| TopicOutline.OutlineIsTrie | src/brain/memory/tree.ts:439-482 | one node for every path with a tag at or below it and none else; a node counts those tags, its own plus its children's; paths are unique per level and levels are in descending count |
| TopicOutline.OutlineNames | src/brain/memory/tree.ts:459-468 | a node carries the label of the last tag whose key is its path, or one made from the path |
| TopicOutline.OutlineCounts | src/brain/memory/tree.ts:429-482 | for tags from the registry a node's count is its children's plus one exactly when its path is a key |
| TopicOutline.ListTags | src/brain/memory/tags.ts:350-365 | the first, strongest row of each normalised key, until the limit |
| TopicOutline.ListingIs | src/brain/memory/tags.ts:350-365 | the listing is exactly the first row of each normalised key, in the order of the rows, up to the limit |
| TopicOutline.ListedKeys | src/brain/memory/tags.ts:350-365 | listing normalises a second time: listed keys are distinct and end in no separator |
| TopicOutline.SegmentsOfPath | src/brain/memory/tags.ts:103-105 | splitting a joined path gives its segments back |
| TopicOutline.PathOfSegments | src/brain/memory/tags.ts:103-105 | joining the segments of a key gives the key back |
| NodeRegistry.Registry.Upsert | src/brain/memory/tree.ts:191-210 | writes under the key normalised again, not for the catch-all key, and only in the captured epoch |
| NodeRegistry.Registry.Repoint | src/brain/memory/tree.ts:305-345 | each document once, only rows at the expected path, replacing a row already at the new path, only in the captured epoch; returns those moved |
| NodeRegistry.MovesAt | src/brain/memory/tree.ts:331-343 | which keys exist after the moves |
| NodeRegistry.RepointMoves | src/brain/memory/tree.ts:305-345 | a repoint moves, and reports, exactly the documents asked for that stand at the expected path, in the captured epoch and between two proper topics |
| NodeRegistry.Registry.RegisterTags | src/brain/memory/tags.ts:270-292 | one row per key |
| NodeRegistry.Registry.Reset | src/brain/turn/agent.impl.ts:290-315 | the epoch is advanced and both tables are cleared in one block |
| ResetFence.FinishWriteBlock | src/brain/memory/index.ts:153-199 | a finished remote write registers tags and paths if the epoch is current, and otherwise goes to its delete step |
| ResetFence.EveryRunIsFenced | src/brain/memory/tree.ts:112-138 | wherever a reset lands, no row or tag of an operation that captured an older epoch exists afterwards |
| ResetFence.WriteSurvivesIff | src/brain/memory/index.ts:153-166 | a successful remote write is reported written exactly when no reset happened while it ran; otherwise its document is deleted and the registry untouched |
| ResetFence.FinishWriteIs | src/brain/memory/index.ts:153-199 | a remote write that comes back in its own epoch adds exactly its document under each of its topics and exactly its tags; failed, or in another epoch, it adds nothing |
| ResetFence.WrittenIsFound | src/brain/memory/index.ts:153-199 | whatever happened meanwhile, a document reported as written is found under every topic it was written to and under all above |
| ResetFence.OtherBlocksAre | src/brain/memory/tree.ts:112-138 | a split registers its tags in its own epoch only, a clean-up removes exactly the rows it names, a reset everything |
| Split.ChildLies | src/brain/memory/split.ts:88-92 | a child's documents go below the parent exactly when the parent's key has at most 126 characters; at 127 the move is to the parent itself, at 128 the child is dropped |
| Split.AssignWinners | src/brain/memory/split.ts:111-128 | the winner map and the filtered lists are the specified assignment |
| Split.LaterChildWins | src/brain/memory/split.ts:111-128 | the assigned sets are disjoint, hold exactly the listed documents, and each document goes to the last child that lists it |
| Split.MoveChildren | src/brain/memory/split.ts:132-160 | in any epoch the loop does one move for each child whose metadata update succeeded, in order, and leaves the others at the parent |
| Split.BlocksAreThePlan | src/brain/memory/split.ts:132-160 | undisturbed in its own epoch, the moves add up to the plan |
| Split.PlanIsExact | src/brain/memory/split.ts:132-160 | exactly which keys exist after the moves |
| Split.SplitConserves | src/brain/memory/split.ts:132-160 | a reader of the parent or of anything above it finds exactly the documents found before |
| Split.PartitionConserves | src/brain/memory/split.ts:88-160 | the same from the proposed partition itself: every partition, every set of failed metadata updates, every path length |
| Split.SplitLeavesOthers | src/brain/memory/tree.ts:305-345 | other containers and unrelated subtrees are untouched |
| Split.SplitMoves | src/brain/memory/split.ts:132-160 | a document leaves the parent exactly when its child's metadata update succeeded and the child is a proper one |
| Split.SplitIsAimed | src/brain/memory/split.ts:88-92 | every move of a split goes to a path at or below its topic, whatever the segment and the length of the key |
| Split.SplitMoveConserves | src/brain/memory/tree.ts:305-345 | one such move, in any state and epoch, leaves the documents under every path at or above the topic as they were |
| Split.LostByCleanUpOrReset | src/brain/memory/split.ts:132-160 | over every run with writes, other splits, clean-ups and resets between the moves: a document no longer found under a path was removed there by a clean-up or a reset, so no split loses one |
| Split.BroughtByWriteOrSplit | src/brain/memory/split.ts:132-160 | and one newly found there was written by its own write or came by a split of a topic that does not lie under the path |
| Split.OnlySplitsChangeNothing | src/brain/memory/split.ts:132-160 | splits alone, however they interleave, leave the documents under every path at or above their topics as they were |
| LeaseStore.Store.AddDeliveries | src/brain/lease/store.ts:375-405 | new deliveries are appended to a pending row unless an owner would have two |
| LeaseStore.Store.UpdateDelivery | src/brain/lease/store.ts:407-454 | a waiting delivery is declined or invalidated and the row denied, failed or kept pending accordingly |
| LeaseStore.Store.MarkTerminalIfPending | src/brain/lease/store.ts:456-469 | only a pending row is closed |
| LeaseStore.Store.ActivateLease | src/brain/lease/store.ts:541-580 | only a pending row with that delivery waiting is activated, and the other waiting deliveries are invalidated |
| LeaseStore.Store.RevokeLease | src/brain/lease/store.ts:616-628 | only the active row of that lease is revoked |
| LeaseStore.Store.MarkLeaseTerminal | src/brain/lease/store.ts:630-640 | only the active row of that lease ends |
| LeaseStore.Store.RevokeForConnection | src/brain/lease/store.ts:641-653 | every active row of the connection is revoked and no other |
| LeaseStore.StepIsSound | src/brain/lease/store.ts:20-65 | every block keeps row status and deliveries in agreement and moves each row along the status diagram |
| LeaseStore.RunIsSound | src/brain/lease/store.ts:375-653 | the same over every sequence of blocks; settled rows and decided deliveries never change |
| LeaseStore.NeverActiveAgain | src/brain/lease/store.ts:616-653 | an ended lease is never active again |
| LeaseStore.InsertIs | src/brain/lease/store.ts:328-364 | a request is inserted exactly under a new id, and nothing else changes |
| LeaseStore.RoutingIs | src/brain/lease/store.ts:375-405 | deliveries are appended to a pending row exactly when no owner would then have two |
| LeaseStore.RefusalIs | src/brain/lease/store.ts:20-65 | a waiting delivery that is declined or invalidated, read off the deliveries: the row stays pending exactly while another waits, is denied exactly when it was declined and so were all others, and fails otherwise; who and when are recorded exactly when it left pending |
| LeaseStore.ApprovalIs | src/brain/lease/store.ts:541-580 | a waiting delivery that is approved wins, the other waiting ones are invalidated, decided ones stay, and the row carries the grant and its times |
| LeaseStore.StaleCallsDoNothing | src/brain/lease/store.ts:407-454 | a refusal or approval of a row that is settled, or of a delivery that no longer waits, changes nothing |
| LeaseStore.EndedForGood | src/brain/lease/store.ts:616-653 | revocation, consumption, expiry and disconnection end exactly the active leases they name, and those rows stay as they left them in every continuation |
| LeaseDecisions.OwnerDeliveryForSlackUser | src/brain/lease/decision.ts:141-157 | the first delivery whose owner is the presser, or none exists |
| LeaseDecisions.BeginPress | src/brain/lease/decision.ts:277-387 | the block before the first await: who may press, expiry, supersession |
| LeaseDecisions.ResumePress | src/brain/lease/decision.ts:389-550 | the blocks after each answer: cancel, invalidate, decline, or activate and revoke at once if the turn is gone |
| LeaseDecisions.RunEscalation | src/brain/lease/decision.ts:590-636 | the alarm's block: arm again, cancel or expire |
| LeaseDecisions.EveryInterleavingIsSound | src/brain/lease/decision.ts:277-636 | over every interleaving of presses, answers, alarms, revocations and other writers: a pending row with deliveries has one waiting and none approved, an activated row exactly one approved, its winner and lessor, and none waiting, a denied row only declined ones |
| LeaseDecisions.ActivationWasApproved | src/brain/lease/decision.ts:389-545 | a request becomes active only by an approving press by one of its owners with the membership, connection and eligibility answers in its favour and its delivery waiting |
| LeaseDecisions.ActivationInRun | src/brain/lease/decision.ts:389-545 | the same over whole runs that start without waiting presses: some event of the run answered that very press's membership question with yes |
| LeaseDecisions.ActivatesIff | src/brain/lease/decision.ts:521-545 | the last block activates exactly when the request is pending and the delivery waits; the deadline is not part of it |
| LeaseDecisions.PressIs | src/brain/lease/decision.ts:277-387 | an owner's press asks its first question exactly when the request is pending, unexpired, in that workspace, its delivery waits and the turn goes on; an expired or abandoned request is closed accordingly |
| LeaseDecisions.StrangersPressInVain | src/brain/lease/decision.ts:141-157 | nobody else's press does anything |
| LeaseDecisions.QuestionsInTurn | src/brain/lease/decision.ts:389-436 | the questions come in turn: a no to membership cancels a pending request, and otherwise the first two answers change no row |
| LeaseDecisions.RefusingPressIs | src/brain/lease/decision.ts:421-480 | the last block of a press that does not approve declines with every answer in favour and invalidates otherwise; the request is then pending, denied or failed as the other deliveries say |
| LeaseDecisions.ApprovingPressIs | src/brain/lease/decision.ts:521-550 | the last block of a press that approves leaves the row active under the owner's new lease for the full term, or revoked on the spot when the turn cannot be resumed |
| LeaseDecisions.RevokePressIs | src/brain/lease/decision.ts:638-673 | a revoke press ends the active lease it names exactly when the presser approved it in that workspace |
| LeaseDecisions.ApprovedLate | src/brain/lease/decision.ts:343-545 | a request approved after its deadline |
| LeaseDecisions.AlarmSettles | src/brain/lease/routing.ts:96-107 | the alarm never fires before the deadline, at most a second late, and settles a request that still waits |
| LeaseDecisions.AlarmWaits | src/brain/lease/decision.ts:590-636 | before the deadline the alarm is armed again; a settled or unknown request is left alone |
| LeaseDecisions.OpensSecondIff | src/brain/lease/store.ts:489-580 | a block leaves a thread with two open requests for a server exactly when it inserts a new open one, or approves one for some time to come, beside another open one |
| LeaseDecisions.OneOpenPerThreadIff | src/brain/lease/store.ts:489-580 | over every run: never two open requests exactly when no block does either |
| LeaseDecisions.CarefulOpensNoSecond | src/brain/lease/tools.ts:244-343 | an insertion in the same breath as its check, and an approval before the deadline, do neither |
| LeaseDecisions.TwoOpenRequests | src/brain/lease/tools.ts:244-343 | instances of both cases: asking twice during the await between check and insertion, and a late approval beside a checked successor |
| LeaseRevalidation.ChooseLeases | src/brain/lease/store.ts:708-731 | one live lease per server that has any, a writing one if there is any |
| LeaseRevalidation.TrueMeansLive | src/brain/lease/store.ts:654-697 | true exactly when every check was answered in favour and the lease is the same, active and unexpired at the end; it then was active and unchanged at every await |
| LeaseRevalidation.RevalidationActs | src/brain/lease/store.ts:654-697 | on the way to a no: an expired lease is closed, one whose holder left the channel is revoked if still active, and otherwise only the others' steps show |
| LeaseRevalidation.NoLeaseNoAction | src/brain/lease/store.ts:654-660 | without an active lease the answer is no and nothing is done |

## Left out

- WorkerPool.MapWithConcurrency: workers are counted, not told apart; the database scope each runs in is not modelled.
- TopicOutline.Outline: the nested maps are nested sequences built by value, so sharing of a node between levels while it is updated is not captured; the kind filter before it is a list of shown tags.
- SkillIndex.PlanIndexLines: ids are numbers, as they are only compared; descriptions arrive already on one line and cut.
- QuotedScalar.SingleQuotedRoundTrip: block scalars, key lines and the document markers of a SKILL.md file are not modelled, and `JSON.parse` is a parameter.
- NodeRegistry.Registry.Repoint: ids arrive trimmed and non-empty; the re-tagging of memories in the memory service is the `updated` flag of a child.
- Split.MoveChildren: the lock that keeps two splits of one topic apart is not modelled; `LostByCleanUpOrReset` holds without it.
- NodeRegistry.Registry.Upsert: the paging of the listing query, and the order of rows that tie in it, are not modelled; a listing is the set it selects.
- Schedule.ShiftIntoWorkingHours: local times before 1970 are excluded, which no reading of the clock gives; time zones are a fixed offset.
- ChimeBudget.EveryRunWithinBudget: the interval between normal replies starts from the first reply after instant 0, see `IntervalBlindAtZero`.
- JourneySafety.RunIsSafe: ticks are serial, as the alarm callback is; arming and cancelling of pending alarms beyond the next one is not modelled.
- Migrations.Database.ApplyMigrations: the statements of a migration are not modelled, only whether its batch commits.
- DraftSending.RunIsSound: what holds without its hypothesis on answers is `KeptIff`; entitlement, workspace and target checks are one decision to give up; Slack's treatment of a repeated message id is taken from the comment in the source.
- LeaseDecisions.EveryInterleavingIsSound: Slack cards, the follow-up turn and analytics are not modelled; whether the turn is current or resumed is an answer.
- ChannelMembership.ResolveReadTags: tags are a set, so their order and the guard of a thousand channels are not modelled; a blank Slack user id is `None`.
- ChannelMembership.Table.RewriteNextChannel: a snapshot is whatever Slack answered, right or not; errors thrown before the loop are not modelled, and an empty answer is a failed fetch.
- Prompt windowing, channel time windows and action items: parsing and slicing without a crisp promise.
- Tag canonicalisation by kind and by similar tokens, and the limits on tags per memory.
- Billing, code mode, HTTP routes, OAuth, encryption, web pages, Slack blocks and prompt wording.
- Column migrations inside the `ensure...Table` functions: the current schema is assumed.
