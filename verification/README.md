# AIMail: sending, ingesting, masking and drafting, proved

A Dafny model of the parts of AIMail whose correctness depends on several steps, several workers or several
functions at once: the send protocol and its reconciler, scheduled sends, holding replies, compose drafts, the
listener's ingestion baseline, the live event streams, the Gemini client and its egress record, the audit hash chain,
the inbox pager, the drafting leases, restorable masking, key rotation, template translation, attachment
chunking and the draft-repair loop.

`dafny verify dfyconfig.toml` checks all of it.

## How it is built

* A row the program updates is a datatype with one function per update; the class beside it has the program's own
  methods, each tied by its contract to that function and, column by column, to what the update means. Loops stay
  loops, proved against a function or a relation.
* Where a function only computes (a normal form, a scan, an order), a lemma says on the raw text, places or times what
  it computes: `Details.SameDetailExactly`, `Templates.ProtectsAllVariables`, `Pagination.PageByTime` and others.
* Concurrency is a state machine over those functions (`Runs.dfy`: traces, reachability, induction along a run). A
  worker's read, its call to Gmail and its write are separate steps, and any interleaving, crash or retry is a run.
* Postgres is an atomic conditional update; Gmail, the models, the recogniser and the clock answer as they please.
  What they are trusted for is an `Env` of named promises, and the theorem says which of them are needed: with them no
  run goes wrong, and without any one of them a run is built that does.

| file | part of the program |
|---|---|
| `SendRows.dfy`, `SendProtocol.dfy` | replies, holding replies and follow-ups: claim, send, settle; every interleaving |
| `ScheduledSends.dfy`, `HoldingReplies.dfy` | sends held for later; automatic replies under a daily cap and a cooldown |
| `ComposeDrafts.dfy` | new emails written by hand: state from columns and clock, optimistic write-back |
| `Baseline.dfy`, `BaselineSteps.dfy`, `SavedBaseline.dfy`, `Listener.dfy` | the listener's history ID in memory, step by step, and saved; its loops |
| `Streams.dfy`, `StreamRegistry.dfy`, `Events.dfy` | what a stream's client hears; the stream limits; the objects themselves |
| `ModelGateway.dfy` | retries, breaker, fallback, shared deadline and egress record |
| `AuditChain.dfy` | the hash chain and its verification |
| `Pagination.dfy`, `Drafting.dfy` | the inbox pager; background drafting |
| `Spellings.dfy`, `Details.dfy`, `NameShapes.dfy`, `Hits.dfy`, `Masking.dfy`, `Chunks.dfy` | when two spellings are one detail, the vault, narrowing and choosing hits, splicing and filling back, chunking |
| `Keyring.dfy` | the keys that stored tokens and vaults are sealed with, across rotations |
| `Templates.dfy` | variables as markers and back |
| `Repair.dfy`, `ReasonTexts.dfy` | the best-draft loop, the review reasons, and reading them back from text |
| `EditDistance.dfy` | how much of a draft was rewritten |
| `Common.dfy`, `Runs.dfy`, `Decimal.dfy`, `Scanning.dfy`, `Collections.dfy`, `Weaving.dfy` | shared definitions |

## What came out that the code or its comments do not say

* **Replies.** The claim itself sets the unknown mark (backend/app/dashboard.py:830), so a reply sent but not recorded
  does reach the reconciler, whatever the comment at backend/app/dashboard.py:949-951 says. At most one copy needs six
  promises for a reply and five for the other two kinds; each is shown to be needed (`SendProtocol.AtMostOneCopyExactly`).
* **Drafting leases.** backend/app/jobs.py:19-20 sizes the lease for one draft, but a pass leases its batch at once and
  drafts it one by one, and releases are not fenced. Two passes never hold one email exactly when the whole batch at the
  slowest pace fits the lease (`Drafting.ExclusiveExactly`). As configured (backend/app/worker.py:39-43, 2 or 3 emails of
  up to 120 s) it does not (`Drafting.PassesOverlapAsConfigured`), and for a batch without a limit it never does.
* **Egress.** A reply whose finish reason holds the words "not configured" raises an error that does not say it was
  posted (backend/gemini_client.py:129-156), so the prompt left and is not recorded (backend/model_gateway.py:84-87).
  No other reply does this, so every call records exactly what it posted if and only if Gemini never gives such a
  reason in time (`ModelGateway.Gateway.Generate`, `NeverLosesExactly`; `LostCall` is the run at any such reply).
* **Audit chain.** A recorded head fixes its table, NULL and '' apart, if and only if no action and no detail in it holds
  the separator (`AuditChain.HeadFixesExactly`); text beside a separator can move to the next column unseen. And the
  check counts a NULL as no fault, so rows whose hashes are all NULL verify whatever they say
  (`AuditChain.NullHashesNeverBreak`); only the recorded head shows it.
* **Event streams.** A refused `subscribe` of a user without a stream leaves an empty set behind
  (backend/app/events.py:106-108). The listener closes with the last stream in every run if and only if that never
  happens (`StreamRegistry.ClosesWithLastExactly`); once it has, the streams can all leave with the listener running
  (`OutlivesExactly`).
* **Saved baseline.** The saved history ID can fall for two reasons: the saves of one mailbox are not ordered, and a
  handler that looked its mailbox up before a reconnect saves for it afterwards. Without either it never falls
  (`SavedBaseline.SavedNeverFallsExactly`); nothing at or below it is forgotten all the same.
* **Compose.** Two writes in one clock tick let an AI answer overwrite an edit it never saw
  (`ComposeDrafts.AnswersFitExactly`).
* **Masking.** A hit that covers only spaces is stored as an empty value. Every later hit of the same normal form then
  shares its placeholder and is lost with it, blank or not: account numbers and phone numbers without a Latin letter or
  digit all have one. A detail is lost exactly when the vault's value for it is blank or its first hit is
  (`Masking.LostExactly`; `BlankHitLosesAnother` is an example); with no blank value and no blank hit the round trip
  holds (`Masking.CleanRoundTrip`).
* **Review reasons.** A leak named like the scanner's own "unavailable" mark reads back from its text as the scanner
  being down, and the number of rewrites is never read back, which is every draft that was rewritten
  (`ReasonTexts.EveryReasonReadsBack`, `RoundsAreNeverReadBack`).

## Model

| member | source | states |
|---|---|---|
| SendRows.SendRow.Claim | backend/app/dashboard.py:820-834 | One conditional update: claims an unclaimed row and nothing else; a reply's claim sets the unknown mark with it |
| SendRows.SendRow.Record | backend/app/dashboard.py:917-945 | The copy's Message-ID is kept where the row has a column for it, the claim stays, and a reply's unknown mark is cleared |
| SendRows.SendRow.Settle | backend/app/send_reconciler.py:39-68 | A row still unknown and unrecorded: with a copy found the claim stays and the found id is kept, with none the row is free again; any other row is left alone |
| SendRows.ApproveAndSend | backend/app/dashboard.py:854-914 | Which of its six ends a click comes to, by the row, Gmail's answer and whether the record was saved, and every column after each: a recorded send keeps the answer's Message-ID, and a click on a claimed row with one is always answered as sent; the row reads as unsent afterwards exactly when Gmail refused |
| SendRows.ReconcileSends | backend/app/send_reconciler.py:131-150 | Each row answered for is settled by its own answer, one whose question failed is untouched, and the count is of the settled |
| SendRows.AskedTenMinutesOn | backend/app/send_reconciler.py:105-120 | A send is asked about from ten minutes on: after its claim for a reply, after the mark for the other kinds; never after a release |
| SendRows.FinishedOnColumns | backend/app/dashboard.py:881-945 | How a request leaves the columns for each kind of send: freed by a refusal, marked by a lost answer, and with the Message-ID where it was accepted and recorded |
| SendRows.SettledIsNotAskedAgain | backend/app/send_reconciler.py:39-68 | What was settled or recorded with an id is not asked about again |
| SendProtocol.RequestKeepsInv | backend/app/dashboard.py:881-905 | Claiming, calling Gmail and finishing keep the invariant tying columns, workers and accepted copies |
| SendProtocol.PassKeepsInv | backend/app/send_reconciler.py:50-84 | Reading, asking and settling keep it |
| SendProtocol.AtMostOneCopyHolds | backend/app/send_reconciler.py:131-150 | Under the promises Gmail accepts at most one copy in every run of clicks, crashes and passes |
| SendProtocol.FalseRefusal | backend/app/gmail_send.py:357-371 | If an error status may hide an acceptance, some run sends two copies |
| SendProtocol.LostThenDenied | backend/app/gmail_send.py:344-354 | If an accepted copy is not found in the stored thread, or is stamped too early, some run sends two |
| SendProtocol.TwoPasses | backend/app/send_reconciler.py:56-58 | The settling guard does not name the claim it read: two passes at once release a later claim |
| SendProtocol.SlowReply | backend/app/send_reconciler.py:105-108 | A reply that outlives UNCONFIRMED_AFTER is released under its sender |
| SendProtocol.AtMostOneCopyExactly | backend/app/dashboard.py:820-905 | At most one copy in every run, for each kind of send, if and only if the promises that kind needs hold |
| ScheduledSends.Table.Hold | backend/app/scheduled_sends.py:40-47 | The email's waiting row takes the draft, or a row is added when none waits; no other row changes, and at most one per email stays pending |
| ScheduledSends.Table.CancelPending | backend/app/scheduled_sends.py:50-54 | True exactly when a row was waiting, and then none is |
| ScheduledSends.Table.Claim | backend/app/scheduled_sends.py:81-86 | Claims a pending row and no other |
| ScheduledSends.Table.Release | backend/app/scheduled_sends.py:89-91 | Fails on the unique index exactly when a newer row is pending; otherwise that row, and no other, waits again |
| ScheduledSends.Table.Cancel | backend/app/scheduled_sends.py:94-97 | Cancels a row that is neither claimed nor cancelled, and changes no other |
| ScheduledSends.Table.CancelClaimed | backend/app/scheduled_sends.py:100-104 | The claim becomes a cancellation |
| ScheduledSends.WorkerKeepsInv | backend/app/scheduled_send_worker.py:102-128 | The worker's claim, its ends and its crash keep the invariant |
| ScheduledSends.DueRowsEnd | backend/app/scheduled_send_worker.py:102-128 | A waiting row that a free worker claims can go out marked as sent, wait again exactly as it was, or be cancelled |
| ScheduledSends.RowsStaySound | backend/app/scheduled_sends.py:31-54 | In every run no row is both sent and cancelled, at most one per email is pending, no two workers hold one row |
| ScheduledSends.CancelledNeverReverts | backend/app/scheduled_sends.py:81-104 | A cancelled row stays cancelled for the same reason, and never again reaches Gmail |
| ScheduledSends.CancelPendingStopsTheSend | backend/app/scheduled_send_worker.py:102-144 | Once cancel_pending has returned true that row never reaches Gmail, whatever follows |
| HoldingReplies.MarkingKeepsCap | backend/app/holding_reply_scheduler.py:172-181 | A mark made on a low enough count keeps every 24-hour window within the cap, whatever order the stamps come in |
| HoldingReplies.MayClaimExactly | backend/app/holding_reply_scheduler.py:172-181 | A claim goes ahead exactly with fewer than 50 of the user's marks in the last 24 hours and none to that recipient within the cooldown |
| HoldingReplies.MarkingKeepsSpacing | backend/app/holding_reply_scheduler.py:174-181 | A mark made with no recent one to that recipient keeps marks apart by the cooldown each read |
| HoldingReplies.FewerMarksKeepBoth | backend/app/holding_reply_scheduler.py:155-186 | Releasing, cancelling and scheduling keep both |
| HoldingReplies.Table.Claim | backend/app/holding_reply_scheduler.py:163-181 | Marks exactly an open row under the cap and outside the cooldown, and no other row; cap and spacing stay |
| HoldingReplies.Table.Release | backend/app/holding_reply_scheduler.py:184-186 | Takes the mark off that row and leaves the rest of it and every other row; cap and spacing stay |
| HoldingReplies.Table.Cancel | backend/app/holding_reply_scheduler.py:155-160 | The row is no longer to be claimed, a mark it has stays, and no other row changes; cap and spacing stay |
| HoldingReplies.CommitKeepsInv | backend/app/holding_reply_scheduler.py:163-181 | A commit on a count read earlier keeps the cap, since no other transaction of that user is past the lock |
| HoldingReplies.CapAndCooldownHold | backend/app/holding_reply_scheduler.py:163-186 | Any 24-hour window holds at most 50 marks per user and claims keep their cooldown, in every run of concurrent passes |
| HoldingReplies.FiftyADay | backend/app/holding_reply_scheduler.py:163-181 | In every run the marks of a user in any 24 hours, counted, are at most fifty |
| HoldingReplies.ClaimGoesThrough | backend/app/holding_reply_scheduler.py:163-181 | While no other transaction of the user is past the lock a claim can run to its end, and marks the reply exactly when it may |
| HoldingReplies.CapAndCooldownExactly | backend/app/holding_reply_scheduler.py:171-171 | The cap holds in every run, and so does the cooldown, each if and only if the per-user lock is taken before counting |
| HoldingReplies.CancelStopsTheReply | backend/app/holding_reply_scheduler.py:155-181 | A reply called off before it was claimed never goes out, whatever passes run at once and however the run goes on |
| ComposeDrafts.ComposeDraft.Update | backend/app/compose.py:267-298 | Edits a draft's text and stamp and nothing else; a sent email answers as sent, one being sent as in progress, and neither changes |
| ComposeDrafts.ComposeDraft.Claim | backend/app/compose.py:498-517 | Saves and claims together, or neither; a sent draft answers as sent |
| ComposeDrafts.ComposeDraft.EndInFlight | backend/app/compose.py:550-554 | Backdates the claim by the ten minutes and changes nothing else, so it reads as of unknown outcome from now on |
| ComposeDrafts.ComposeDraft.Record | backend/app/compose.py:564-581 | The draft is sent, its mark gone, its text and claim as they were |
| ComposeDrafts.ComposeDraft.Settle | backend/app/compose.py:584-598 | Only a claim of ten minutes or more without an outcome is settled, to sent or to a draft as the user says, with its text kept |
| ComposeDrafts.ComposeDraft.StoreAnswer | backend/app/compose.py:354-366 | Stored only on an unclaimed, unsent draft of the version it was written from |
| ComposeDrafts.ComposeDraft.MayDelete | backend/app/compose.py:301-311 | A draft or a sent one may be deleted; one being sent, or of unknown outcome, may not |
| ComposeDrafts.StateOfExactly | backend/app/compose.py:128-135 | Sent, a draft, or for ten minutes from its claim being sent, read off the columns and the clock |
| ComposeDrafts.WritesLand | backend/app/compose.py:267-517 | An edit, an answer not outdated and a claim write a version of their own, and a claim puts it on its way; an outdated answer writes nothing |
| ComposeDrafts.FinishLands | backend/app/compose.py:519-581 | A recorded send is sent, a refused one a draft again, a lost one of unknown outcome at once, each with the text it had |
| ComposeDrafts.OnlyDraftsChange | backend/app/compose.py:267-311 | No step edits or deletes an email that is being sent or of unknown outcome |
| ComposeDrafts.UntouchedUntilSettled | backend/app/compose.py:128-135 | Along any stretch in those states the row stays and keeps its text |
| ComposeDrafts.SentIsAbsorbing | backend/app/compose.py:128-135 | Once sent an email stays sent and unchanged until deleted |
| ComposeDrafts.AtMostOneCopyExactly | backend/app/compose.py:498-598 | Gmail accepts at most one copy in every run if and only if sends end in time, refusals are true and users settle truly |
| ComposeDrafts.AnswersFitExactly | backend/app/compose.py:354-366 | Every answer stored fits the exact version it was written from if and only if no two writes share a timestamp |
| Baseline.ListKeepsInv | listener/main.go:720-759 | Listing since the baseline, or catching up on the newest 50, accounts for or records every message up to the notification |
| Baseline.RaiseKeepsInv | listener/main.go:663-672 | Advancing, and abandoning a notification with its range on record, keep the invariant |
| Baseline.ReachableIsSound | listener/main.go:709-766 | The invariant holds in every run with concurrent notifications, retries, reconnects and crashes |
| Baseline.NothingIsForgotten | listener/main.go:720-817 | Every INBOX message at or below the saved baseline, or any in memory, is stored, quarantined, skipped or in a recorded range; what a recorded catch-up reached is itself accounted for |
| Baseline.BaselineNeverFalls | listener/main.go:799-817 | A mailbox's in-memory baseline never falls along a run |
| Baseline.OneNotificationAtATime | listener/main.go:720-728 | One mailbox's ingesting lock has one holder |
| BaselineSteps.GetsThrough | listener/main.go:720-766 | While nobody holds the mailbox a new notification can come through: every message since the baseline is then accounted for, nothing more is recorded as left out, and its ID is the baseline and saved |
| BaselineSteps.FallsBack | listener/main.go:709-759 | Where history is unusable the newest page is stored, and the range between, less that page, recorded |
| BaselineSteps.GivesUp | listener/main.go:663-674 | A failed notification can be given up, its range on record and its ID the baseline and saved |
| BaselineSteps.IsLetGo | listener/main.go:729-732 | A notification the mailbox is already past leaves everything as it was |
| BaselineSteps.RecordedForAReason | listener/main.go:663-766 | In every run a range is recorded only by a first watch up to the head, by giving a failed notification up, or with a finished catch-up on at most 50 messages, each with exactly those bounds |
| BaselineSteps.ListedForAReason | listener/main.go:720-766 | A task lists exactly what came in since its baseline and was not found stored, or a catch-up's page of it, and a message leaves the list only as it is accounted for |
| BaselineSteps.DroppedForAReason | listener/main.go:663-732 | A handler is done only when the mailbox is at its notification, when it failed and is to be delivered again, when its ID was saved, when its mailbox is registered, or in a crash |
| BaselineSteps.RaisedForAReason | listener/main.go:709-817 | A baseline moves only up to a notification that is through or given up, whose ID is then to be saved, or from nothing to the head by a watch |
| BaselineSteps.StartsWhereItWas | listener/mailboxes.go:292-333 | A mailbox starts from its saved ID, or from its head where none is saved |
| SavedBaseline.SavedNeverFallsExactly | listener/mailboxes.go:286-345 | The saved history ID falls in no run if and only if the saves of one mailbox land in the order of their IDs and a mailbox is started again only when the one before it is gone with its handlers |
| SavedBaseline.SlowSaveFalls | listener/mailboxes.go:318-345 | A renewal's save that lands after the save of a newer baseline puts the older one back |
| SavedBaseline.StaleMailboxFalls | listener/main.go:645-682 | With every save landing at once: a handler that holds the mailbox from before a reconnect saves an older ID after the new one went on |
| Listener.Mailbox.RaiseBaseline | listener/main.go:807-817 | The compare-and-swap loop ends with the highest of what rivals landed and its own; it reports having raised it exactly when it did |
| Listener.HighestIsTheMaximum | listener/main.go:799-817 | The specification the loop is proved against is the maximum |
| Listener.NewMessages | listener/dedupe.go:24-40 | Exactly the listed ids not stored, each once, in the order first listed |
| Listener.IngestEach | listener/main.go:770-790 | Success exactly when none had a passing trouble; then every new id is kept or skipped for good; otherwise exactly the new ids ahead of the first trouble are |
| EditDistance.LastCell | backend/app/writing_style.py:123-134 | The two-row loop computes the recurrence's distance |
| EditDistance.DistanceIsFewestEdits | backend/app/writing_style.py:123-134 | That distance is the cost of some edit script and of none cheaper |
| EditDistance.Symmetric | backend/app/writing_style.py:123-134 | The distance is symmetric |
| EditDistance.Triangle | backend/app/writing_style.py:123-134 | It obeys the triangle inequality |
| EditDistance.Bounds | backend/app/writing_style.py:123-134 | It never exceeds the longer text, and differs by no less than the lengths do |
| EditDistance.ZeroOnlyWhenEqual | backend/app/writing_style.py:123-134 | It is zero exactly for equal texts |
| EditDistance.EditRatio | backend/app/writing_style.py:123-134 | The ratio lies in [0, 1] and is zero exactly for equal texts, the empty ones included |
| Streams.OfferLosesNothing | backend/app/events.py:76-82 | An offer, with the queue full or not, leaves no notice without an answer |
| Streams.OfferedOnQueue | backend/app/events.py:76-82 | With fewer than 100 waiting the event itself joins the queue; with 100 one RESYNC is all that is left in it |
| Streams.ResyncAnswersForAll | backend/app/events.py:160-173 | A RESYNC answers for everything missed before it |
| Streams.NoEventIsLostSilently | backend/app/events.py:144-192 | While connected every notice since a stream opened was delivered, is queued, or is followed by a delivered or queued RESYNC; nothing is heard that was not said |
| Streams.ResyncForAReason | backend/app/events.py:76-82 | In every run a RESYNC stands in a notice's place only where 100 events were waiting when that notice came |
| StreamRegistry.SubscribeKeepsSound | backend/app/events.py:105-113 | Subscribing, admitted or refused, keeps limits and listener consistent |
| StreamRegistry.UnsubscribeKeepsSound | backend/app/events.py:115-122 | So does unsubscribing |
| StreamRegistry.LimitsHold | backend/app/events.py:105-122 | At most 3 streams a user and 200 in all; open streams imply a running listener |
| StreamRegistry.ListenerMayOutliveStreams | backend/app/events.py:106-108 | A run after which the listener runs with no stream open |
| StreamRegistry.EmptyEntryExactly | backend/app/events.py:105-122 | An empty entry comes about exactly when a user without a stream is refused |
| StreamRegistry.OutlivesExactly | backend/app/events.py:115-122 | From any reachable state the open streams can leave one by one with the listener still running if and only if some user's entry is empty |
| StreamRegistry.ClosesWithLastExactly | backend/app/events.py:105-122 | In every run the listener runs exactly while a stream is open, if and only if no user without a stream is ever refused |
| Events.EventQueue.Offer | backend/app/events.py:76-82 | With fewer than 100 waiting the event is put behind them; with 100 the queue is drained and holds one RESYNC |
| Events.EventQueue.Take | backend/app/events.py:176-192 | The client hears the oldest queued event |
| Events.MailboxEvents.Subscribe | backend/app/events.py:105-113 | Refused exactly at 3 of the user's or 200 in all, and then only the user's entry may appear; otherwise one fresh stream is added; the connection stays as it is |
| Events.MailboxEvents.Unsubscribe | backend/app/events.py:115-122 | One queue leaves, no other user's changes; the listener stops exactly when no entry is left |
| Events.MailboxEvents.OnNotice | backend/app/events.py:132-148 | Every stream of that user, and no other, is offered the notice: while connected it is in the queue itself, or a full queue is one RESYNC |
| Events.MailboxEvents.Connect | backend/app/events.py:160-173 | Every stream ends with a RESYNC waiting, and from then on none has lost anything |
| Events.MailboxEvents.Count | backend/app/events.py:98-100 | The count is of the open streams |
| ModelGateway.CircuitBreaker.RecordFailure | backend/gemini_client.py:97-100 | Opens exactly at the threshold of failures in a row; an opening time means at least that many |
| ModelGateway.CircuitBreaker.RecordSuccess | backend/gemini_client.py:93-95 | Closes it |
| ModelGateway.ReadsExactly | backend/gemini_client.py:129-156 | What each kind of reply is read as, and from which replies text comes |
| ModelGateway.GeminiClient.Post | backend/gemini_client.py:168-183 | One post, cut off at thirty seconds or the deadline: what is heard is what the network answered within that, and else a transport error |
| ModelGateway.GeminiClient.WaitBeforeRetry | backend/gemini_client.py:186-195 | Waits the seconds asked for, or the backoff up to ten, exactly when that is within ten seconds and the budget; otherwise the model is given up at once |
| ModelGateway.GeminiClient.TryOnce | backend/gemini_client.py:198-244 | One try: nothing with the deadline spent, else one post, and unless it decides the wait before the next |
| ModelGateway.GeminiClient.CallModel | backend/gemini_client.py:198-244 | At most three posts, all to this model; every reply but the last was worth a retry and waited for, and the last decides what is returned; giving up early means the budget was spent or waiting was not worth it |
| ModelGateway.GeminiClient.TakeTurn | backend/gemini_client.py:255-276 | A model is skipped exactly when its breaker is open and another follows; its breaker hears of a body as a success, of running out of tries as a failure, and of nothing else |
| ModelGateway.GeminiClient.AskInOrder | backend/gemini_client.py:247-277 | Each model in order at most three times, never past the deadline; a model before the last is passed over only when its breaker was open at its turn or the deadline was spent; every reply but the last left something to try and the last decides; unavailable only after the last model was tried; an error says truly whether anything was posted |
| ModelGateway.GeminiClient.Generate | backend/gemini_client.py:129-156 | The result is the last reply, read: its text, the error its finish reason or its text stands for, or the exception it raises; and no model was passed over without an open breaker or a spent deadline |
| ModelGateway.FirstIsAsked | backend/gemini_client.py:255-262 | With time left and its breaker closed the primary is posted to, and first of all |
| ModelGateway.SaysNotConfiguredExactly | backend/gemini_client.py:129-156 | Of all error texts only one that carries a finish reason or a parser message with "not configured" in it can hold these words |
| ModelGateway.IsLostExactly | backend/model_gateway.py:78-87 | A posted prompt is left off the record exactly when the reply's finish reason holds "not configured" |
| ModelGateway.NeverLosesExactly | backend/model_gateway.py:78-87 | A network loses no prompt exactly when no answer it gives in time has such a finish reason |
| ModelGateway.Gateway.Generate | backend/model_gateway.py:78-104 | The prompt is recorded once, exactly when it was posted and the last reply does not lose it; on a network that never loses one, exactly when it was posted |
| ModelGateway.LostCall | backend/model_gateway.py:78-104 | On any network with a reply that loses a prompt, calls come to it, and that call posts and records nothing |
| AuditChain.AppendingKeepsIntact | backend/app/db/migrations/0024_sender_auth_and_audit_chain.sql:28-49 | A row appended by the trigger to an intact table has the next number, the last row's hash (or 64 zeros) for its link and its own text's digest; the table stays intact, the old rows as they were |
| AuditChain.HashedSpelled | backend/app/db/migrations/0024_sender_auth_and_audit_chain.sql:15-26 | The hashed text, column by column: link, number, action, detail, success, user and time with a separator between, NULL as the empty text and a NULL link left out |
| AuditChain.SeqsCountUp | backend/app/audit_routes.py:31-41 | An intact table is numbered 1, 2, 3 without gaps |
| AuditChain.NullHashesNeverBreak | backend/app/audit_routes.py:31-46 | Rows without hashes count as intact exactly when they are numbered 1, 2, 3, whatever they say |
| AuditChain.JoinedIsInjective | backend/app/db/migrations/0024_sender_auth_and_audit_chain.sql:15-26 | Parts without the separator have a joined text of their own against any parts of the same number, clean or not |
| AuditChain.HashedTellsRowsApart | backend/app/db/migrations/0024_sender_auth_and_audit_chain.sql:16-26 | A row without the separator and any other row hash one text exactly when they are one row, NULL and '' apart; a row whose link is NULL never hashes the same |
| AuditChain.SameHeadSameTable | backend/app/audit_routes.py:27-47 | Against a recorded table without separators, any table that verifies has the same head exactly when it is the same table, row for row up to NULL and '', or a text of one and a text of the other collide |
| AuditChain.EditShowsExactly | backend/app/audit_routes.py:31-41 | Rewriting a row's fields in place goes unseen if and only if its hash is NULL or its digest is unchanged |
| AuditChain.CleanRowEditShowsExactly | backend/app/audit_routes.py:31-41 | Without a collision a rewrite of a row without separators goes unseen if and only if it only swaps NULL and '' |
| AuditChain.HasTwinExactly | backend/app/db/migrations/0024_sender_auth_and_audit_chain.sql:16-26 | A row can be rewritten to another of the same hashed text, whatever the digest, if and only if its action or detail holds the separator |
| AuditChain.HeadFixesExactly | backend/app/audit_routes.py:27-47 | A head fixes its recorded table, NULL and '' apart, if and only if no action and no detail in it holds the separator |
| Pagination.CollectMessageIds | backend/app/dashboard.py:376-386 | The loop collects the keys that are an id as it is printed |
| Pagination.MessageIdsAreTheSpelledKeys | backend/app/dashboard.py:376-386 | An id is collected exactly when its printed form is among the keys |
| Pagination.InThreadsExactly | backend/app/dashboard.py:366-373 | The indexable condition accepts exactly the rows whose thread key is in the keys |
| Pagination.PageIsWhole | backend/app/dashboard.py:389-416 | A page holds, newest first, exactly the visible emails of its own threads |
| Pagination.PageByTime | backend/app/dashboard.py:389-416 | By the times themselves: emails and threads newest first, at most limit threads, the next cursor at the last of them |
| Pagination.HeadByTime | backend/app/dashboard.py:389-407 | A thread stands on a page by the newest of its visible emails, which is older than the cursor |
| Pagination.WalkIsWalk | backend/app/dashboard.py:400-416 | Following nextCursor on an unchanged table comes to an end |
| Pagination.WalkListsEveryThread | backend/app/dashboard.py:389-416 | And lists every thread with a visible email once, newest first |
| Pagination.PageTakesItsRange | backend/app/dashboard.py:400-407 | A page takes exactly the threads from its own cursor down to the next one |
| Pagination.SteadyThreadOnOnePage | backend/app/dashboard.py:389-416 | A thread whose newest visible email stays put is on exactly one page, whatever else changes between requests |
| Pagination.EveryEmailOnOnePage | backend/app/dashboard.py:389-416 | On an unchanged table every visible email is on exactly one page |
| Drafting.Email.Claim | backend/app/jobs.py:23-35 | Leases for three minutes exactly an undrafted, draftable email under five attempts whose lease is free or over |
| Drafting.Email.GenerateAndStore | backend/app/dashboard.py:643-673 | On an unsent email a usable answer is stored as its draft and an unusable one adds one attempt, and nothing else changes; a sent one is left as it is |
| Drafting.DraftClaimed | backend/app/dashboard.py:526-538 | Every email of the batch gets its own answer and its lease back; the count is the number of unsent emails with a usable draft |
| Drafting.ClaimKeepsInv | backend/app/jobs.py:29-35 | A claim takes no email another pass still holds |
| Drafting.FinishKeepsInv | backend/app/dashboard.py:526-538 | Finishing one email keeps the pass on time for the rest |
| Drafting.OnlyNamedChange | backend/app/jobs.py:29-35 | No step changes an email it does not name, and a claim leases each of its batch for three minutes |
| Drafting.UnsentTakesAnswers | backend/app/dashboard.py:550-673 | An unsent email takes what a pass, a regeneration or a refinement gives it; an unusable answer adds one attempt |
| Drafting.ExclusiveExactly | backend/app/jobs.py:18-35 | No two passes ever hold one email if and only if a whole batch at the slowest pace fits the lease |
| Drafting.PassesOverlapAsConfigured | backend/app/worker.py:39-43 | With drafts of up to 120 s and 2 or 3 to a pass, some run has two passes on one email; one to a pass would fit |
| Drafting.ReleasesItsOwnLease | backend/app/jobs.py:72-74 | Under that condition the unfenced release always clears the pass's own, unexpired lease |
| Drafting.SentIsNotRewritten | backend/app/dashboard.py:550-564 | While a send claim stands, no answer, regeneration or refinement changes any column but the lease |
| Details.TrimmedIsTheSame | listener/details.go:38-51 | Trimming a value leaves its normal form alone |
| Details.SameDetailExactly | listener/details.go:40-50 | Two values are one detail exactly when they have the same lowered words (names, places, organisations), or the same lowered letters and digits in the same order (everything else) |
| Spellings.SameSpacedExactly | listener/details.go:41-43 | Texts with one space between their words agree exactly when their longest stretches without a space are the same, in order |
| Spellings.SameKeptExactly | listener/details.go:44-49 | What is kept of two texts agrees exactly when the plain letters and digits at all their places do, in order |
| Spellings.TrimmedIsTheMiddle | listener/details.go:71-71 | Trimming takes off exactly the spaces in front and behind |
| Spellings.TrimmedIsEmptyExactly | listener/details.go:63-74 | A value trims to nothing exactly when it is all spaces |
| Details.PlaceholdersAreDistinct | listener/details.go:69-70 | Different kinds or numbers print as different placeholders |
| Details.NumberingKeepsSound | listener/details.go:63-74 | Numbers run from one, no two details share a placeholder, and each stands for its own detail |
| Details.NumberingOnlyAdds | listener/details.go:63-74 | Nothing numbered changes; the value given is found under its placeholder up to normal form |
| Details.OnePlaceholderPerDetail | listener/details.go:63-74 | Two values share a placeholder exactly when they are of one kind and one detail: the same lowered words, or the same lowered letters and digits |
| Details.DetailVault.PlaceholderFor | listener/details.go:63-74 | The vault and the placeholder after it are those of the specification the rows above speak of: one placeholder for each kind and detail |
| Details.DetailVault.Fork | listener/details.go:77-89 | A fresh copy with the same contents |
| Hits.BestFirstIsSorted | listener/main.go:370-373 | At any two places the one in front is longer, or as long with a score at least as high |
| Hits.BestFirstIsStable | listener/main.go:370-373 | Alike hits keep their order |
| Hits.ChosenAreFree | listener/main.go:374-381 | Chosen hits lie in the text, are disjoint, and miss every span taken before |
| Hits.LeftOutForAReason | listener/main.go:374-381 | A hit that fits is left out only for a taken span or a chosen one at least as long |
| Hits.PickedExactly | listener/main.go:367-393 | Both together, for the hits in reading order |
| Hits.PickedPlaceByPlace | listener/main.go:374-381 | By places in the text: a picked hit shares none with a span taken before, and a hit not picked shares one with such a span or with a picked hit at least as long |
| NameShapes.Words | listener/nameshapes.go:148-172 | The loop finds exactly the words of a hit, each a longest stretch without spaces, its end punctuation off |
| NameShapes.NameRuns | listener/nameshapes.go:111-134 | Runs go from a name word to a word that is no particle; all their words join; a word that does not parts any two; every name word that is no particle is in one |
| NameShapes.NameShapedOnly | listener/nameshapes.go:95-108 | Every hit in turn becomes itself or its name-shaped runs |
| NameShapes.RunsStayInside | listener/nameshapes.go:111-134 | Runs are ordered, disjoint and inside the hit |
| NameShapes.NarrowedStaysInside | listener/nameshapes.go:95-108 | Narrowing keeps entity and score and masks nothing new |
| NameShapes.NoNameIsDropped | listener/nameshapes.go:95-108 | A name word of a hit lies whole in one of the hits it became |
| NameShapes.OnlyNamesAreKept | listener/nameshapes.go:95-134 | A person, organisation or place becomes hits that begin with a name word and do not end in a particle; any other hit stays as it is |
| Masking.SpansAreAll | listener/main.go:369-369 | Scanning finds every placeholder-shaped stretch of the text |
| Masking.SpansAreAllShapes | listener/details.go:36-36 | The spans are all stretches of the text that are a bracketed name, an underscore and digits, in order, and nothing else |
| Masking.NameOfEntity | listener/main.go:347-362 | The name each entity of the recogniser is masked under |
| Masking.ChooseHits | listener/main.go:374-381 | The loop makes the greedy choice |
| Masking.NumberHits | listener/main.go:382-387 | The tokens are numbered in reading order |
| Masking.Splice | listener/main.go:388-392 | Splicing from the end gives the left-to-right rebuild |
| Masking.ReplaceEntities | listener/main.go:367-393 | The whole of it: the masked text and the vault after it |
| Masking.FilledAtSeam | backend/app/core/vault.py:223-226 | Filling goes piece by piece wherever no placeholder crosses the cut |
| Masking.FillGivesBack | listener/main.go:367-393 | Filling the masked text gives what filling the original gives, but for the picked details: each comes back in a spelling of the same detail, or stays a placeholder exactly where it is lost |
| Masking.LostExactly | listener/details.go:63-74 | A picked detail has no value to be filled with if and only if the vault's value for it was blank or, when the vault had none, the first picked hit of that detail is all spaces |
| Masking.RoundTrip | backend/app/core/vault.py:223-226 | A text without placeholder shapes comes back whole, each picked detail in the spelling kept for it or, exactly where it is lost, as its placeholder |
| Masking.CleanRoundTrip | backend/app/core/vault.py:223-226 | With no blank value in the vault and no blank hit nothing is lost: the text comes back with every detail in a spelling of the same detail, by its words or by its letters and digits |
| Masking.NoBlankIsAdded | listener/main.go:367-393 | Masking without blank hits adds no blank value to the vault |
| Masking.BlankHitLosesAnother | listener/details.go:42-74 | A hit on a space and one on two hyphens, both account numbers: neither comes back |
| Masking.TokensTellDetailsApart | listener/details.go:63-74 | Two hits get one placeholder exactly when they are of one kind and one detail of it |
| Masking.PlainTextStays | backend/app/core/vault.py:223-226 | Text without placeholder-shaped stretches is left alone, so the round trip is to the text itself |
| Masking.MaskChunks | listener/main.go:300-313 | Chunks are masked into one vault; degraded exactly when the recogniser failed on one, and then the text is the pattern floor's, whole, and the vault keeps what was numbered before |
| Masking.MaskAttachmentText | listener/attachment_mask.go:55-69 | Dropped text leaves the email's vault as it was; kept text leaves what masking it numbered |
| Chunks.Utf8Concat | listener/attachment_mask.go:16-37 | Valid text after valid text is valid |
| Chunks.Utf8Split | listener/attachment_mask.go:41-50 | Valid text cut where a character starts is valid on both sides |
| Chunks.CutPoint | listener/attachment_mask.go:41-50 | Cuts no character, behind the last blank that fits if there is one; makes no progress exactly when the first character is longer than max |
| Chunks.CutLine | listener/attachment_mask.go:29-33 | A long line is cut into short valid pieces without losing a byte, each as long as its blanks allow |
| Chunks.ChunkText | listener/attachment_mask.go:16-37 | Non-empty valid chunks of at most max bytes that concatenate to the text; all but the last end at a break, unless unbroken; and packed: the line after a chunk does not fit in with it, and a chunk that ends inside a line holds no other line and is cut behind the last blank that fits |
| Keyring.Keys.Add | listener/tokencrypt.go:86-102 | Every way an entry is refused, leaving the ring as it was; otherwise the key is listed, and the first is primary |
| Keyring.Keys.AddLegacy | listener/tokencrypt.go:105-121 | The old single key, unless the ring names that same key; a different one is refused |
| Keyring.Parse | listener/tokencrypt.go:63-84 | The loop over the setting does what its recursion says, error by error |
| Keyring.ParsedIsSound | listener/tokencrypt.go:63-121 | A ring that parses has a primary key, ids of 1 to 255 bytes and keys of 32 |
| Keyring.ParsesExactly | listener/tokencrypt.go:63-121 | The settings parse exactly when every entry is blank or a whole key under an id of its own of 1 to 255 bytes, the old key is whole and differs from no legacy one listed, and there is a key at all |
| Keyring.ParsedExactly | listener/tokencrypt.go:63-121 | The ring then holds the keys listed and the old one, each under its id and nothing else, and seals with the one listed first |
| Keyring.RotationKeepsKeys | listener/tokencrypt.go:63-121 | A new key put first becomes the one to seal with; every key listed before stays |
| Keyring.OpensExactly | listener/tokencrypt.go:143-197 | A sealed value opens if and only if the ring lists its key under that id and the associated data is the same, and then to what was sealed |
| Keyring.SplitExactly | listener/tokencrypt.go:178-199 | The two formats, byte by byte: which sealed values are read, and as which id and body |
| Keyring.OpenedByItsKey | listener/tokencrypt.go:157-175 | Which refusal a value of either format meets, and otherwise what it opens to |
| Keyring.OldFormatOpensExactly | listener/tokencrypt.go:157-197 | A value of the first format opens exactly under a ring holding its key as the legacy one |
| Keyring.RotationKeepsOpening | listener/tokencrypt.go:143-197 | After a rotation everything sealed before still opens |
| Templates.ProtectVariables | backend/app/templates.py:77-85 | The body with numbered markers, and its variables in order |
| Templates.ProtectsAllVariables | backend/app/templates.py:77-85 | The variables are all stretches of two opening braces, no brace and two closing ones, in order, and the text is what lies around them, none of it holding such a stretch, with the numbered markers between |
| Templates.ReadsAllMarkers | backend/app/templates.py:15-19 | The markers read back are all stretches of their shape, in order, each with the number its digits stand for |
| Templates.SameMarker | backend/app/templates.py:15-19 | Where no variable starts, body and marked text have the same markers |
| Templates.FoundMarked | backend/app/templates.py:77-90 | The marked text's markers are the numbered ones and the body's own |
| Templates.RestoreUndoesProtect | backend/app/templates.py:77-93 | Restoring what was protected gives the body, or nothing exactly when the body holds a marker outside its variables |
| Templates.RestoredHoldsEachVariableOnce | backend/app/templates.py:88-93 | Refused unless each marker is there once; otherwise the translator's text with each variable once in a marker's place |
| Repair.ClampConfidence | backend/email_agent.py:616-625 | The nearest number in [0, 1]; nothing exactly when there is no finite number |
| Repair.PiiVerdict | backend/email_agent.py:643-647 | Clean exactly when nothing was found, leaking exactly when something but the scanner's failure was |
| Repair.FailuresAreCounted | backend/email_agent.py:671-680 | Each leak, each figure, each request left out and a verdict of no support counts as one failed check |
| Repair.NeedsRepairExactly | backend/email_agent.py:686-687 | A rewrite is needed exactly when a check failed or the critic is below 0.8 or silent |
| Repair.RanksBelowExactly | backend/email_agent.py:689-691 | Fewer failed checks rank higher whatever the confidence; among as many the higher confidence does, and none at all is lowest |
| Repair.OneMoreSeen | backend/email_agent.py:742-743 | A tie goes to the later draft |
| Repair.RepairDraft | backend/email_agent.py:729-744 | At most three rewrites, each of a judged draft that needed one; keeps the latest of the highest rank among all assessed |
| Repair.NoReasonExactly | backend/email_agent.py:747-781 | No reason exactly when every check passed, confidence is at the bar, and nothing was rewritten or stopped |
| Repair.EachCheckHasItsReason | backend/email_agent.py:747-781 | Each failed check is a reason by its own code, and no check that passed is |
| Repair.ReviewDraft | backend/email_agent.py:729-781 | What leaves without a reason is the first draft, and it passed; a first draft that passes leaves without one |
| ReasonTexts.SplitUndoesJoin | backend/app/review_reasons.py:33-37 | Joined items come back exactly when none holds the separator |
| ReasonTexts.EveryReasonReadsBack | backend/app/review_reasons.py:11-37 | Every reason's text reads back as its own code exactly unless its first leak is named like the scanner's mark; its items exactly when no list item holds the separator and it is not the number of rounds |
| ReasonTexts.OtherTextsReadBack | backend/app/review_reasons.py:10-34 | The openings given outside the review read back as their codes, and a text of no known opening as unknown |
| ReasonTexts.AfterColonExactly | backend/app/review_reasons.py:31-37 | The items are read from behind the first colon and space |
| ReasonTexts.RoundsAreNeverReadBack | backend/app/review_reasons.py:31-37 | Every rewritten draft has the number-of-rounds reason, and its item reads back as none |

## Left out

- SendRows.SendRow.Record: the sent copy stored for the to-do list, the edit ratio and the audit row written in the same transaction are not columns of this row.
- SendProtocol.AtMostOneCopyExactly: one row per run and no batch limit on a pass; access checks, token refresh and the text sent are not modelled.
- ScheduledSends.RowsStaySound: the worker's checks for a reply or for lateness are an arbitrary choice between sending, waiting and calling off.
- HoldingReplies.CapAndCooldownExactly: rendering the template and the checks before the claim are left out; the lock's hash is taken to tell users apart.
- ComposeDrafts.AtMostOneCopyExactly: subject, addresses, body, tone and vault are one version number.
- Baseline.NothingIsForgotten: Gmail's own history retention appears only as an unusable listing; Sent mail and quarantine release are not modelled; which 50 messages a catch-up lists is arbitrary, since Gmail's order by date need not follow the history IDs; a catch-up for want of a baseline counts as recorded too, where the program writes no audit row for it.
- SavedBaseline.SavedNeverFallsExactly: a save for a mailbox whose row is gone may write one, where an UPDATE finds none; no run that falls needs it.
- Streams.NoEventIsLostSilently: closing at shutdown (the CLOSE event and `close()`), keep-alive pings and the text of an event line are left out.
- ModelGateway.Gateway.Generate: the record is of calls made while egress is tracked; the last net over the prompt, embeddings and the local model are left out.
- ModelGateway.IsLostExactly: the JSON parser's own messages are a parameter, taken not to hold "not configured"; the text of an error that says it was posted is not written out, as nothing reads it.
- AuditChain.SameHeadSameTable: the digest is a parameter that prints 64 characters and no separator, and no row of the recorded table is taken to have the genesis hash for its digest; a timestamp is the text the formula prints for it.
- Pagination.PageIsWhole: a page's two queries read one state of the table, as in one snapshot; an email that arrives or goes between them is not modelled.
- Pagination.WalkListsEveryThread: visibility (scope, snooze, waiting send) is one flag per row, and the cursor's encoding is taken to give back the cursor.
- Pagination.CollectMessageIds: how an id is printed and which spellings are read are parameters; only that a printed id reads back is assumed.
- Drafting.ExclusiveExactly: which draftable emails a pass takes first is arbitrary, and a pass that crashes simply stops.
- Details.NumberingKeepsSound: which characters are spaces and how letters are lowered are parameters; ' ' is assumed to be a space, and a space to lower to a space that is no letter or digit.
- Masking.FillGivesBack: the recogniser's hits are arbitrary; the pattern floor, known-entity masking and the allowed-locations filter are left out, and the key of a detail is kept as a pair instead of one text.
- Masking.MaskAttachmentText: what the pattern floor found and the chunks it left are inputs.
- Chunks.ChunkText: for max of at least 4, as the program's 3000 is; with less a long character stops it, as `Chunks.CutPoint` states. Text that is not valid UTF-8 is not covered.
- Templates.RestoreUndoesProtect: which characters are decimal digits is a parameter, and numbers of any length can be read, where Python refuses one of thousands of digits.
- Repair.RepairDraft: the wording of the fixes asked for is left out; what the critic, the scanner and the rewrite return is arbitrary.
- ReasonTexts.EveryReasonReadsBack: stored codes that need no reading of text are left out.
- NameShapes.NameRuns: which words are names or particles, and which characters are spaces or punctuation, are parameters; so the patterns' wording is not modelled.
- Keyring.OpensExactly: encryption is abstract (section 2.1 of RFC 5116) and taken to open under no other key or data; cutting the setting into entries and base64 are inputs.
- The first import of past emails (listener/inbox_import.go).
- Style habits and text clipping beside the edit ratio (backend/app/writing_style.py), template filling, reply subjects and headers.
- HTTP, OAuth, Pub/Sub and SQL plumbing, prompts, access control, retention, settings, pages, scripts and static sites.
