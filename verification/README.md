# PingMe: models and proofs

PingMe is an instant-messaging server written in Go. This project models the parts of it that
hold protocol, index or arithmetic logic, and proves what they keep over every run.

* **Delivery pipeline.** Senders append messages to a Kafka topic or fall back to the database;
  consumers look a message up, insert it, retry with capped exponential backoff, dead-letter what
  they give up on and mark offsets. `Backoff` and `ConsumerLoop` hold the consume loop, first as an
  automaton over its interactions and then as the loop itself, proved to take exactly the automaton's
  steps under every script of answers, cancellations and crashes. `ConsumerProperties` bounds its
  attempts, inserts and waits and gives the order of its events. `Delivery` puts senders, partitions, any number of (also overlapping) sessions,
  the messages table and the dead letter topic into one step system; `DeliverySafety` is its
  invariant, `DeliveryTheorems`, `DeliveryRaces`, `DeliveryLoss`, `Redelivery` and `DeliveryOrder` its theorems.
  `Sender` shows that the two send functions are schedules of it, and `SendErrors` what an error answered to a
  sender says about the message.
* **Message store.** `MessageStore` gives the queries as filter, order and limit and characterises
  their answers; `Paging`, `UserPage` and `HistoryPaging` prove paging complete and free of duplicates
  while the table changes. `EndToEnd` joins it with the pipeline: what a polling client sees of a
  running pipeline is such a changing table.
* **ACKs.** `Acks`, `AckReplay`, `AckEffects`, `AckStatus` and `AckSync`: the ACK table as a max-merge, idempotent
  processing in runs that mix client ACKs with every other writer and the cleanup, what each writer answers and does
  to rows, statuses and read cursors, when these move back, and when a client that follows the sync protocol agrees with the server.
* **Presence.** `Presence` is the per-instance cache in front of the shared Redis, `PresenceRuns` what an
  instance may answer over every run, whatever the other instances do to Redis, and `PresenceKeys` how long a user
  stays there and what going offline, cleaning up and failing commands do to the answers.
* **Circuit breaker, rate limiter, placeholder replacement, private conversation ids.** `Breaker`,
  `RateLimiter`, `Placeholder` and `PrivateConversation`, each proved over every history of calls. In `Breaker` a
  call's admission and its recording each act at once; `BreakerSteps` takes them apart into their atomic
  operations and proves what every interleaving keeps.

Objects that the source updates in place are classes here, and its loops are loops; every such method is
proved equal to a specification function, and the theorems are about those functions. They state in terms of the
stored rows and the arguments what is answered and what changes. Time is a
parameter, in nanoseconds or milliseconds as in the source. Failures of Kafka, the database and Redis are
parameters or nondeterministic steps.

Where the code does not do what its documentation or its structure suggests, the code is what is modelled:

* The documentation promises that no message is lost (README.md:19). A record is marked even when its
  dead letter was refused or the dead letter queue is off, so any deployment with a Kafka producer has a
  losing run: `DeliveryLoss.LosesNothingIff`. The configuration built for the dead letter producer never
  sets `Producer.Return.Successes`, which the Kafka library asks of a synchronous producer, so the queue is
  probably always off; that library check is not part of this model, which allows both.
* A sender may answer with an error although the message is stored: every deployment has such a run
  (`SendErrors.SavedBehindError`, and with Kafka `SendErrors.ConsumedBehindError`), and
  `SendErrors.ErrorIsTruthfulIff` is the exact condition for an error after which nothing of the message is left.
* `GetHistory` cuts after the reversal and so drops the newest row, not the probe row, exactly when more rows
  match than the limit: `HistoryPaging.HistoryDropsNewest`. Its next cursor is a printed timestamp, while the query
  expects a message id, so following it gives the first page again: `HistoryPaging.StartsOverIff`,
  `HistoryPaging.OfferedCursorStartsOver`. `PullOfflineMessagesV2` never reports that there is more, which is wrong
  exactly when more rows are wanted than the limit: `HistoryPaging.PullNeverHasMore`.
* A sync skips rows stamped no later than the client's timestamp, rows of the client's last message and
  rows of a type whose query failed: `AckSync.ConvergesIff` is the exact condition.
* A delivered ACK that comes after the read ACK sets the message's status back
  (`AckStatus.DeliveredAfterRead`), and read cursors are overwritten whatever they held;
  `AckStatus.AckLowersIff`, `AckStatus.OthersLowerIff`, `AckStatus.AckMovesBackIff` and
  `AckStatus.MarkMovesBackIff` are the exact conditions.
* The membership tests of `ProcessACK` and `MarkAsRead` are about the conversation the client names. A member of any
  conversation can acknowledge a message of another one (`AckStatus.ForeignAck`); only members of the message's
  conversation can exactly when that conversation is the one named (`AckStatus.OnlyMembersAckIff`,
  `AckStatus.OnlyMembersMarkIff`).
* A repeated ACK is answered with the stored time, which is the first one exactly when no notification and no
  repeat with a failing duplicate check has stamped the key later: `AckReplay.RepeatAnswersFirst`.
* `RefreshUserTTL` extends a cached entry even when the Redis key is gone: the five-second bound holds
  in all runs exactly when refreshing is with a time to live that is not positive
  (`PresenceRuns.FiveSecondsIff`).
* The breaker compares stored milliseconds with nanoseconds, and a call that finishes while it is open
  counts towards closing it or opening it again. `Breaker.TimeoutKeptIff`,
  `Breaker.NeedsThresholdToCloseIff` and `Breaker.NeedsThresholdToOpenIff` are the exact conditions,
  `Breaker.StragglerClosesEarly` and `Breaker.StragglerReopensEarly` concrete histories. Nothing locks the breaker: a
  success and a failure that are recorded at the same time can lose the failure (`BreakerSteps.LostFailure`), and
  runs end as if calls and recordings acted at once exactly when no two of them interleave
  (`BreakerSteps.AtomicIff`).
* `replacePlaceholder` never returns for an empty placeholder, nor for a value containing the placeholder
  when there is anything to replace (`Placeholder.ContainingHaltsIff`). For a value no longer than the placeholder it
  returns exactly when the value is another string or there is nothing to replace
  (`Placeholder.NotLongerHaltsIff`). A longer value that can start and end an occurrence may also keep it from
  returning (`Placeholder.BothSidedMayNotEnd`); one that can do only one of the two never does
  (`Placeholder.OneSidedHalts`).
* A message that is stored late, with a timestamp behind the cursor a client already has, is never pulled by it:
  `Paging.LatePulledIff` is the exact condition, `EndToEnd.StoredBehindCursor` a run of every deployment.
* Private conversation ids collide exactly when user ids may contain a colon:
  `PrivateConversation.CanonicalIff`. The result of the commit is not looked at, so a conversation may be answered
  that is not stored: `PrivateConversation.AnswerIsStoredIff`.
* A Redis value that cannot be decoded fails a single lookup and is passed over by the batch:
  `PresenceRuns.BatchRefinesSingles`.

Assumed of the libraries: a unique index turns a repeated insert into an error; GORM 1.25.5 reads a negative
limit as none and limit 0 as no rows; a Redis SET with a time to live that is not positive sets no deadline,
and such an EXPIRE deletes; a pipeline reports the first error of its commands, a missing key counting as
one.

## Model

| member | source | states |
|---|---|---|
| Backoff.CalculateDelay | internal/pkg/kafka/consumer.go:53-63 | the loop computes the delay by one multiplication and one cap per retry |
| Backoff.ClosedForm | internal/pkg/kafka/consumer.go:53-63 | for an integer multiplier and a first delay within the cap the delay is min(initial·mⁿ, max) |
| Backoff.ScaledSpec | internal/pkg/kafka/consumer.go:57 | the product with the multiplier is rounded towards zero |
| Backoff.DelayIsExponential | internal/pkg/kafka/consumer.go:53-63 | for any multiplier from one up the delay of retry n is the cap, or the first delay multiplied n times, short of it by the accumulated roundings at most; it exceeds neither |
| Backoff.DelayCapped | internal/pkg/kafka/consumer.go:53-63 | a delay respects the cap exactly when it is not retry 0 or the first delay does |
| Backoff.GrowsIffFirstStepGrows | internal/pkg/kafka/consumer.go:53-63 | delays never shrink exactly when the first delay respects the cap and the multiplier does not shrink it |
| Backoff.TotalWaitClosedForm | internal/pkg/kafka/consumer.go:224-275 | the waits of n retries add up to the capped geometric sum |
| Backoff.NewRetryConfig | internal/pkg/kafka/consumer.go:113-119 | settings that are positive are used, milliseconds as nanoseconds; the others are 3 attempts, 100 ms, 10 s and a factor of 2 |
| ConsumerLoop.ClaimSession.MarkMessage | internal/pkg/kafka/consumer.go:270-273 | a mark appends one offset to the session's marks |
| ConsumerLoop.HandleMessage | internal/pkg/kafka/consumer.go:348-379 | one attempt takes the automaton's lookup and insert steps and reports whether the record is settled |
| ConsumerLoop.SendToDlq | internal/pkg/kafka/consumer.go:281-326 | dead-lettering always lets the loop go on to the mark: queue off, sent or refused |
| ConsumerLoop.MarkRecord | internal/pkg/kafka/consumer.go:237-246 | marks the record in hand and moves to the next one |
| ConsumerLoop.AwaitRetry | internal/pkg/kafka/consumer.go:248-261 | waits the scheduled delay or returns on cancellation, marking nothing |
| ConsumerLoop.Receive | internal/pkg/kafka/consumer.go:200-221 | takes the next record of the claim or returns; an undecodable record goes to be buried |
| ConsumerLoop.BuryRecord | internal/pkg/kafka/consumer.go:262-274 | gives up on a record: dead-letters it and marks it whatever came of that |
| ConsumerLoop.ProcessRecord | internal/pkg/kafka/consumer.go:223-275 | the retry loop of a record ends with exactly its mark, or with the process |
| ConsumerLoop.ConsumeClaim | internal/pkg/kafka/consumer.go:199-278 | under every script of answers the loop's events are exactly the automaton's, and each mark event is one call on the session |
| ConsumerLoop.BehavesAsAutomaton | internal/pkg/kafka/consumer.go:199-278 | every behaviour of the loop is a path of the automaton |
| ConsumerLoop.AutomatonIsBehaviour | internal/pkg/kafka/consumer.go:199-278 | every path of the automaton is a behaviour of the loop |
| ConsumerProperties.RetryBudget | internal/pkg/kafka/consumer.go:223-275 | a record gets at most MaxAttempts+1 attempts and waits in total at most the first MaxAttempts delays |
| ConsumerProperties.WaitBoundClosedForm | internal/pkg/kafka/consumer.go:223-275 | that bound as the sum of min(initial·mᵏ, max) |
| ConsumerProperties.DeadLetterCount | internal/pkg/kafka/consumer.go:262-274 | a decoded record is dead-lettered after exactly MaxAttempts+1 attempts, with that count; an undecodable one after none |
| ConsumerProperties.BuriedAfterInserts | internal/pkg/kafka/consumer.go:262-274 | a decoded record is given up on only after exactly MaxAttempts+1 inserts, which all failed; an undecodable one after none |
| ConsumerProperties.EventsFollow | internal/pkg/kafka/consumer.go:199-277 | on every path a lookup that is no hit, a failing query included, is followed by an insert, inserts follow nothing else, and a fetched record is buried at once exactly if it cannot be decoded |
| ConsumerProperties.ScriptIsAnswered | internal/pkg/kafka/consumer.go:199-326 | each event is the one its answer leads to, cancellations and failures included, and the loop goes on until it returns |
| ConsumerProperties.MarksGapFree | internal/pkg/kafka/consumer.go:199-277 | at every point of every path the marks are exactly the offsets from the start of the claim up to the unmarked record in hand |
| ConsumerProperties.MarkFollowsSettling | internal/pkg/kafka/consumer.go:227-275 | every mark directly follows the event that settled its record |
| DeliverySafety.StepKeepsInv | internal/pkg/kafka/consumer.go:199-326 | every step of senders, broker, consumers, commits, crashes and redeliveries keeps the pipeline's invariant |
| DeliverySafety.RunKeepsInv | internal/pkg/kafka/consumer.go:199-326 | so does every schedule |
| DeliverySafety.ReachableInv | internal/pkg/kafka/consumer.go:199-326 | the invariant holds in every reachable state |
| DeliveryTheorems.Conservation | internal/service/message_service.go:72-108 | an accepted message is stored with its content, waits at an unsettled offset or is dead-lettered, unless a record of it was dropped because the queue was off or refused it |
| DeliveryTheorems.LostIff | internal/pkg/kafka/consumer.go:262-274 | a message is lost exactly when it has no row, is not in the queue, and every copy on the log was dropped at its offset |
| DeliveryTheorems.NothingLostWhileDlqWorks | internal/pkg/kafka/consumer.go:281-326 | with the queue on and no dead letter refused, nothing accepted is lost |
| DeliveryTheorems.OneRowPerMessage | internal/pkg/kafka/consumer.go:348-379 | however often messages are redelivered there is one row per msg_id, and every column of it but key and status is what the sender built |
| DeliveryTheorems.MarkedMeansSettled | internal/pkg/kafka/consumer.go:199-277 | everything below a session's position is marked from its start on and was truly settled |
| DeliveryTheorems.CommittedMeansSettled | internal/pkg/kafka/consumer.go:199-277 | everything below a committed offset was settled, so a restart from there keeps the invariant |
| DeliveryTheorems.SessionsRunConsumeClaim | internal/pkg/kafka/consumer.go:199-278 | every session of every reachable state stands where the consume loop stands after some script, with the same marks |
| DeliveryRaces.LoserIsRefused | internal/model/message/message.go:41 | a consumer that loses the race between lookup and insert stores nothing; the record goes to the queue exactly when that was its last attempt |
| DeliveryRaces.LoserSettlesNext | internal/pkg/kafka/consumer.go:227-275 | with an attempt left, whatever the others do meanwhile, its next step is the lookup, and every lookup that does not fail settles the record without touching the table or the queue |
| DeliveryRaces.LoserNeverBuries | internal/pkg/kafka/consumer.go:227-275 | in every schedule in which it stays and its queries work it never dead-letters the record: it has marked it or is on its way to |
| DeliveryLoss.LosingState | internal/pkg/kafka/consumer.go:262-274 | any deployment with a producer reaches a state that has lost an accepted message |
| DeliveryLoss.LosesNothingIff | internal/pkg/kafka/consumer.go:262-326 | no run loses an accepted message exactly when no message goes through Kafka |
| Redelivery.StoresAndMarks | internal/pkg/kafka/consumer.go:223-246 | in any deployment with a producer a consumer can store and mark a record before anything is committed |
| Redelivery.DeliveredAgain | internal/pkg/kafka/consumer.go:199-277 | if it dies then, the next consumer is given the record again, finds it stored, marks and commits it: one row, behind the committed offset |
| DeliveryOrder.RowsFollowLog | internal/pkg/kafka/producer.go:91-95 | without dead letters and direct saves a conversation's rows are the first copies of a prefix of its partition's log, in log order, across crashes and overlapping consumers |
| DeliveryOrder.ReplayEquivalence | internal/pkg/kafka/consumer.go:199-277 | once the partition is settled the rows are those of handling its log once with repeats removed |
| DeliveryOrder.FirstCopiesInOrder | internal/pkg/kafka/producer.go:91-95 | of two first copies of a log the earlier one is earlier on the log |
| DeliveryOrder.RowsInLogOrder | internal/pkg/kafka/consumer.go:199-277 | of two of a conversation's rows, in any reachable state clean for it, the earlier one's message was first appended earlier |
| Sender.MessageTable.CreateMessage | internal/repository/message/repository.go:34-36 | an insert adds the row with the next id, or fails on a known msg_id or a database error, which may still have stored it |
| Sender.FallbackRowAgrees | internal/service/message_service.go:60-108 | the row a sender saves is the row a consumer builds from its record |
| Sender.Publish | internal/service/message_service.go:72-108 | produce, fall back to saving on an error, and answer success exactly when one of them worked |
| Sender.SendMessage | internal/service/message_service.go:48-124 | the whole effect and answer of sending to a user, an unavailable conversation included; a new row and every appended record have the sender, receiver, content and times of the request, field by field |
| Sender.SendGroupMessage | internal/service/message_service.go:977-1060 | the same for a group: a group id and no receiver |
| Sender.SendIsSchedule | internal/service/message_service.go:72-108 | a send is a schedule of the pipeline with the same effects, and its message is accepted exactly when it answers success |
| SendErrors.ErrorIsTruthfulIff | internal/service/message_service.go:72-108 | an error leaves nothing of the message behind exactly when it was not stored before, the insert failed before storing, and the broker kept no copy |
| SendErrors.ErrorAlthoughStored | internal/service/message_service.go:86-95 | after a refused save in a reachable state the message is stored exactly when somebody stored it before or the insert landed, and once stored the sender cannot answer success |
| SendErrors.SavedBehindError | internal/service/message_service.go:98-107 | every deployment, with or without Kafka, reaches a message stored behind an error |
| SendErrors.ConsumedBehindError | internal/service/message_service.go:86-95 | with Kafka also without any insert misreporting: the record was appended and consumed before the sender fell back |
| MessageStore.GetMessageByMsgID | internal/repository/message/repository.go:39-46 | the row with that msg_id, or none if there is none |
| MessageStore.QueryIsPage | internal/repository/message/repository.go:49-65 | filter, order and limit give the first limit of the matching rows in (server_ts, id) order |
| MessageStore.PageUnique | internal/repository/message/repository.go:274-300 | only one sequence answers that description |
| MessageStore.PageCount | internal/repository/message/repository.go:49-65 | a page has as many rows as match, up to its limit, and leaves rows out exactly when more match than the limit |
| MessageStore.OnlyOwnConversations | internal/repository/message/repository.go:304-318 | the conversations of a user are exactly those the user is a member of |
| Paging.CollectedSorted | internal/repository/message/repository.go:274-300 | following the last row's key gives strictly ordered rows from the wanted conversations past the cursor, whatever changes between pages |
| Paging.CollectedComplete | internal/repository/message/repository.go:274-300 | by the time a page is empty every matching row of the first table was returned |
| Paging.PullComplete | internal/repository/message/repository.go:274-300 | paging a conversation until an empty page returns every row present at the start exactly once, in order |
| Paging.LatePulledIff | internal/repository/message/repository.go:274-300 | a row stored while a client pulls is pulled exactly when it is past the cursor in use when it appears |
| Paging.CursorMovesIffPositive | internal/repository/message/repository.go:274-300 | a row's cursor excludes the row exactly when its server_ts is positive; otherwise paging starts over |
| Paging.PullAllComplete | internal/repository/message/repository.go:303-329 | the same completeness for the page over all conversations the user is a member of, for all timestamps, and no row of any other conversation |
| Paging.LatePulledByUserIff | internal/repository/message/repository.go:303-329 | the same for the page over all conversations |
| UserPage.MergeSpec | internal/repository/message/repository.go:303-329 | the merge of two ordered pages is ordered and holds exactly their rows |
| UserPage.UserPageIsPage | internal/repository/message/repository.go:303-329 | the user-wide page is the first limit, in order, of the rows past the cursor in conversations the user is a member of, and has no row of any other |
| UserPage.UserPageIsMerge | internal/repository/message/repository.go:303-329 | the user-wide page is the first limit rows of the ordered merge of the single conversations' pages of that size |
| UserPage.UserPageIsMergeIff | internal/repository/message/repository.go:274-329 | the two agree for every limit exactly when the cursor is positive or lies before every row |
| HistoryPaging.ProbeExact | internal/repository/message/repository.go:49-65 | the probe row is there exactly when rows remain, and those come after the ones taken |
| HistoryPaging.PullBackComplete | internal/repository/message/repository.go:49-65 | newest-first paging by message id takes every row present at the start exactly once, strictly descending |
| HistoryPaging.ReverseInPlace | internal/service/message_service.go:214-217 | the swap loop leaves the reversal of the array |
| HistoryPaging.ReversedAscending | internal/service/message_service.go:214-217 | the reversal is ascending exactly when the rows were descending, with the same rows |
| HistoryPaging.GetHistory | internal/service/message_service.go:198-235 | members get the cut reversal of the rows found, with the printed timestamp as cursor; others, and failing queries, an error |
| HistoryPaging.HistoryDropsNewest | internal/service/message_service.go:214-222 | the response is ascending, and the newest matching row is missing from it exactly when more rows match than the limit |
| HistoryPaging.StartsOverIff | internal/repository/message/repository.go:53-60 | paging gives the first page again exactly when the cursor's lookup fails, or it is no message's id or that of one newer than the whole conversation |
| HistoryPaging.OfferedCursorIsTime | internal/service/message_service.go:219-229 | more is reported exactly when more rows were found than the limit, and the cursor offered then reads back as the time of the newest message returned |
| HistoryPaging.OfferedCursorStartsOver | internal/service/message_service.go:225-229 | so following the cursor the response offers gives the first page again, message ids being UUIDs |
| HistoryPaging.PullNeverHasMore | internal/service/message_service.go:305-386 | the pull never reports more and offers no next cursor; rows are left out, and the report is wrong, exactly when more are wanted than the limit |
| EndToEnd.PipelineMakesHistory | internal/repository/message/repository.go:274-329 | the tables a client sees while the pipeline runs keep unique keys and lose or change no row but its status |
| EndToEnd.AcceptedIsPulledOnce | internal/service/message_service.go:305-386 | a client paging a conversation from the beginning gets every accepted message of it exactly once, unless it was waiting, dead-lettered or dropped at the first page |
| EndToEnd.AcceptedIsPulledOnceByUser | internal/repository/message/repository.go:303-329 | the same for the page over all conversations of a user |
| EndToEnd.StoredBehindCursor | internal/service/message_service.go:305-386 | every deployment has a run in which a message is accepted and stored behind a polling client's cursor and never reaches it |
| Acks.AckTable.CreateOrUpdateACK | internal/repository/message/repository.go:378-398 | a new key is added, a known one keeps the larger timestamp, a failing query or write leaves the table alone |
| Acks.StampsAreMaxima | internal/repository/message/repository.go:378-398 | over any run of writes keys stay unique and each stored timestamp is the largest written for its key |
| Acks.WriteOrderIrrelevant | internal/repository/message/repository.go:378-398 | the final timestamps are the same for every permutation and duplication of the writes |
| Acks.AckService.ProcessACK | internal/service/message_service.go:451-546 | the whole effect and answer of a client ACK on the ACK table, the statuses and the read cursors, every failure included |
| Acks.AckService.NotifyMessageDelivered | internal/service/message_service.go:656-686 | the same for a delivery notification |
| Acks.AckTable.DeleteOldACKs | internal/repository/message/repository.go:437-458 | deletes exactly the read rows older than the retention and the delivered rows older than thirty days, up to the statement that fails |
| Acks.AckService.MarkAsRead | internal/service/message_service.go:389-433 | moves the read cursor and then the status, and writes no ACK |
| Acks.AckService.CleanupOldACKs | internal/service/message_service.go:608-626 | cleans up by the given retention, or seven days, and touches nothing but the ACK table |
| AckReplay.RepeatIsNoOp | internal/service/message_service.go:467-483 | repeating an accepted ACK changes nothing and by a member is answered as a duplicate with the stored timestamp |
| AckReplay.FirstCall | internal/service/message_service.go:451-546 | a first ACK adds exactly its own key and timestamp, exactly when it is accepted |
| AckReplay.ReplayEquivalence | internal/service/message_service.go:451-546 | any run mixing client ACKs, notifications, read marks, pushes and cleanups leaves the same ACK table, statuses and cursors as the run without the repeated ACKs |
| AckReplay.StampsFollow | internal/service/message_service.go:451-690 | every operation does to the stored stamps what it does to the stamps alone, and leaves messages and members in place |
| AckReplay.FirstStampStaysIff | internal/service/message_service.go:467-483 | a stamp stays throughout a run exactly when no notification, and no repeat whose duplicate check fails, stamps it later, and no cleanup deletes it |
| AckReplay.RepeatAnswersFirst | internal/service/message_service.go:467-483 | a repeat answers a duplicate and changes nothing; if its row was not cleaned up it carries the first time exactly when nothing in between stamped the key later |
| AckEffects.AnswersIff | internal/service/message_service.go:451-546 | each answer to a client ACK is given exactly when its check is the first that applies: message, membership, duplicate, save |
| AckEffects.ClientAckRows | internal/service/message_service.go:486-498 | a client ACK adds its row, or moves its key's time forward, exactly when it passes the checks, is no duplicate and its save works; no other row changes |
| AckEffects.ClientStatuses | internal/service/message_service.go:500-515 | then a read ACK sets the message to read and a delivered one to delivered, unless the update fails; no other row changes |
| AckEffects.ClientCursors | internal/service/message_service.go:517-531 | a saved read ACK whose cursor update works leaves the reader's cursor at its message and that message's server_ts, there before or not; every other cursor, and in all other cases every cursor, is as before |
| AckEffects.NotifyEffects | internal/service/message_service.go:656-686 | a notification saves its row, then sets delivered, whatever messages and members there are |
| AckEffects.MarkReadEffects | internal/service/message_service.go:389-433 | marking read answers success exactly for a member, a stored message and a working cursor update; it moves the reader's cursor alone, sets read, and writes no ACK |
| AckEffects.CleanupKeeps | internal/repository/message/repository.go:437-458 | a cleanup keeps a row unless it is a read ACK older than the retention, seven days if none is given, or a delivered one older than thirty days |
| AckStatus.AckLowersIff | internal/service/message_service.go:500-515 | a client ACK takes a status back exactly when it is no duplicate, its save and status update work, and the message has come further |
| AckStatus.OthersLowerIff | internal/service/message_service.go:656-686 | the same for notifications, read marks and pushes |
| AckStatus.DeliveredAfterRead | internal/service/message_service.go:500-515 | a read ACK and then a delivered ACK of the same reader leave the message delivered |
| AckStatus.AckMovesBackIff | internal/service/message_service.go:517-531 | a client ACK moves a read cursor back exactly when it is a read ACK that goes through for a message older than the cursor |
| AckStatus.MarkMovesBackIff | internal/service/message_service.go:389-433 | marking read moves a read cursor back exactly when nothing fails and the message is older than the cursor |
| AckStatus.ForeignAck | internal/service/message_service.go:458-464 | a member of another conversation marks a message read, and the ACK is filed under the conversation the client named |
| AckStatus.OnlyMembersAckIff | internal/service/message_service.go:458-464 | only members of the message's conversation are admitted, whoever is a member of what, exactly for an ACK that names that conversation |
| AckStatus.OnlyMembersMarkIff | internal/service/message_service.go:390-404 | the same for marking read |
| AckSync.GetACKsSpec | internal/repository/message/repository.go:411-422 | the query returns exactly the matching rows by ascending timestamp |
| AckSync.SyncACKs | internal/service/message_service.go:549-605 | the response's rows of each type are exactly the missed ones, in order and none twice, if the type is among those requested or none are; users outside the conversation, and a failing membership query, get an error |
| AckSync.SyncSpec | internal/service/message_service.go:549-605 | the response holds the missed rows of each type that was asked for and whose query worked |
| AckSync.SyncAnswers | internal/service/message_service.go:566-590 | a type that is not among those requested is not sent; without a request both are |
| AckSync.MissedCountIsSum | internal/service/message_service.go:574-598 | in general MissedCount adds up the missed rows of every requested type, as often as it is requested and whether or not the response has a place for it |
| AckSync.MissedCountIsReturned | internal/service/message_service.go:590 | MissedCount is the number of rows returned when each known type is asked for once |
| AckSync.ConvergesIff | internal/service/message_service.go:549-605 | one sync makes any client agree with the server exactly when every row it lacks is asked for, not failing, stamped later and not of its last message |
| AckSync.RoundConverges | internal/service/message_service.go:549-605 | one round keeps a client that sends its largest timestamp in agreement |
| AckSync.Converges | internal/service/message_service.go:549-605 | such a client agrees with the server after every sync of any number of rounds |
| AckSync.PassedOverStaysMissing | internal/repository/message/repository.go:411-422 | a row the client's timestamp has passed over is not sent in any number of rounds unless it is stamped later |
| Presence.Client.constructor | internal/pkg/redis/redis.go:64-69 | a new client starts with an empty cache |
| Presence.Client.SetUserOnline | internal/pkg/redis/redis.go:78-103 | writes the key with its deadline and leaves the cache alone |
| Presence.Client.SetUserOffline | internal/pkg/redis/redis.go:106-121 | removes key and cache entry, or neither on an error |
| Presence.Client.GetUserPresence | internal/pkg/redis/redis.go:124-158 | a fresh entry answers; otherwise Redis does, a value that cannot be decoded is an error, and what it returns is cached for five seconds |
| Presence.Client.RefreshUserTTL | internal/pkg/redis/redis.go:161-175 | extends the key if it is live and the cache entry in any case |
| Presence.Client.GetUsersOnline | internal/pkg/redis/redis.go:187-257 | cache hits, then one pipeline for the rest, then the new entries, in any order of the replies |
| Presence.Client.LookInCache | internal/pkg/redis/redis.go:196-207 | splits the ids into fresh hits and missed ones, repeats kept |
| Presence.Client.TakeReplies | internal/pkg/redis/redis.go:226-254 | taking the replies in any order adds exactly the live values to the result and the cache |
| Presence.Client.CleanupLocalCache | internal/pkg/redis/redis.go:338-348 | removes exactly the entries past their expiry |
| PresenceRuns.BatchRefinesSingles | internal/pkg/redis/redis.go:187-257 | without errors the batch lookup gives the answers and the cache of the single lookups of its ids in turn; only a value that cannot be decoded fails singly and is passed over by the batch |
| PresenceRuns.EntryHasStory | internal/pkg/redis/redis.go:124-175 | in every run a cache entry holds what Redis held at a fetch, and expires five seconds after it or the given time after the last refresh since |
| PresenceRuns.OnlineIsRecent | internal/pkg/redis/redis.go:124-158 | every answer "online" was the Redis value within five seconds or is kept up by the last refresh |
| PresenceRuns.AnswerIsOneSided | internal/pkg/redis/redis.go:124-158 | at every moment of every run a user called offline has no live key, and one called online was so within five seconds or is kept up by a refresh |
| PresenceRuns.BatchIsOneSided | internal/pkg/redis/redis.go:187-257 | the same for the batch: who is left out has no readable key, or their own command failed |
| PresenceRuns.WithoutRefresh | internal/pkg/redis/redis.go:124-257 | in runs without a refresh every answer, single or batch, is less than five seconds old |
| PresenceRuns.FiveSecondsIff | internal/pkg/redis/redis.go:161-175 | the five seconds hold in all runs exactly when refreshes use a time to live that is not positive |
| PresenceKeys.OnlineLasts | internal/pkg/redis/redis.go:78-103 | a user set online is in Redis for exactly the time to live, or for good if that is not positive, while nobody touches the key |
| PresenceKeys.RefreshLasts | internal/pkg/redis/redis.go:161-175 | a refresh gives a live key exactly that time from then on, or takes it away if the time is not positive; a key that is gone stays gone |
| PresenceKeys.OfflineTakesEffect | internal/pkg/redis/redis.go:106-121 | an instance that set a user offline calls the user offline from then on, until somebody sets the user online |
| PresenceKeys.CleanupKeepsAnswers | internal/pkg/redis/redis.go:338-348 | a cleanup removes exactly the entries past their expiry and changes no later answer |
| PresenceKeys.CleanupKeepsBatches | internal/pkg/redis/redis.go:338-348 | nor any later answer of a batch |
| PresenceKeys.PipelineFailsIff | internal/pkg/redis/redis.go:212-224 | the batch fails exactly when a command fails and every one before it finds a key |
| PresenceKeys.BatchUserByUser | internal/pkg/redis/redis.go:187-257 | who is answered by a batch, with what, and what is cached for five seconds, user by user and with failing commands |
| Breaker.CircuitBreaker.Execute | internal/circuit/breaker.go:104-136 | an open breaker rejects and may turn half-open; otherwise the call runs and its outcome is recorded |
| Breaker.CircuitBreaker.AcquireHalfOpenPermit | internal/circuit/breaker.go:174-192 | the permit is handed back at once, so the count is what it was |
| Breaker.CircuitBreaker.RecordFailure | internal/circuit/breaker.go:195-208 | counts a failure and opens at the threshold |
| Breaker.CircuitBreaker.RecordSuccess | internal/circuit/breaker.go:211-220 | counts a success and closes a half-open breaker at the threshold |
| Breaker.CircuitBreaker.Reset | internal/circuit/breaker.go:262-267 | returns to the initial state |
| Breaker.CountersAreRuns | internal/circuit/breaker.go:195-259 | for every history of overlapping calls, each recording acting at once, the counters are the trailing run lengths, up to 32-bit wrap-around |
| Breaker.OpensExactly | internal/circuit/breaker.go:195-208 | recordings acting at once, it opens on a failure whose wrapped counter has reached the threshold, whatever calls overlap; if none finishes while it is open, exactly on the failure completing the threshold of consecutive ones |
| Breaker.OpensExactlyIff | internal/circuit/breaker.go:195-208 | recordings acting at once, opening on exactly that failure breaks exactly when failures counted while open complete the threshold or carry the run to it |
| Breaker.ClosesExactly | internal/circuit/breaker.go:211-220 | recordings acting at once, it closes on a half-open success whose wrapped counter has reached the threshold, whatever calls overlap; if none finishes while it is open, exactly on the success completing the threshold of consecutive ones since it turned half-open |
| Breaker.NeedsThresholdToCloseIff | internal/circuit/breaker.go:211-220 | a half-open breaker needs its full threshold of successes to close exactly when it carries none in, or its counter is about to wrap, or one is enough |
| Breaker.NeedsThresholdToOpenIff | internal/circuit/breaker.go:195-208 | the same for failures and opening again |
| Breaker.SequentialHistory | internal/circuit/breaker.go:104-136 | calls one after the other are such a history in which no call finishes while the breaker is open |
| Breaker.OpenLetsNothingThrough | internal/circuit/breaker.go:104-117 | in any history, calls overlapping or not, an open breaker lets no call through, turns half-open only by a call and closed only by a reset |
| Breaker.RunsOnlyUnlessOpen | internal/circuit/breaker.go:104-136 | in such a history a function runs only directly after its own call, made while the breaker was not open: none between opening and half-open, the turning call included |
| Breaker.AnswerIsHistory | internal/circuit/breaker.go:104-136 | a call is rejected exactly by an open breaker or a half-open one without permits; otherwise the function's outcome is both answered and recorded |
| Breaker.StragglerClosesEarly | internal/circuit/breaker.go:211-220 | with overlapping calls a success counted while open can close it early |
| Breaker.StragglerReopensEarly | internal/circuit/breaker.go:195-208 | and a failure counted while open can open it again early |
| Breaker.TimeoutComparesUnits | internal/circuit/breaker.go:156-164 | when a reset is attempted, the stored milliseconds being compared as nanoseconds |
| Breaker.TurnsHalfOpenIff | internal/circuit/breaker.go:104-164 | in any history it turns half-open exactly by a call to an open breaker made after the timeout, counted from a millionth of the clock's reading at the opening |
| Breaker.TimeoutKeptIff | internal/circuit/breaker.go:156-164 | the breaker stays open for its timeout exactly when the timeout is not positive |
| BreakerSteps.AloneIsAtomic | internal/circuit/breaker.go:104-268 | the atomic operations of a call, a recording or a reset that runs alone do what the single step does, admission included |
| BreakerSteps.CountersCount | internal/circuit/breaker.go:195-259 | however the operations interleave, each counter is the number of its increments since it was last zeroed, up to wrap-around |
| BreakerSteps.TurnsHaveCauses | internal/circuit/breaker.go:167-259 | whatever interleaves, it opens only by a failure recording that had found the threshold counted, closes only by a reset or a success recording that had, and turns half-open only from open |
| BreakerSteps.OneAtATimeAlways | internal/circuit/breaker.go:104-268 | a run with at most one operation in progress is the history of its operations in the order they start |
| BreakerSteps.LostFailure | internal/circuit/breaker.go:195-220 | a success and a failure recorded at the same time leave the breaker closed where either order opens it |
| BreakerSteps.AtomicIff | internal/circuit/breaker.go:104-268 | runs with at most n operations in progress end as some order of single steps does exactly when n is at most one |
| RateLimiter.RateLimiter.constructor | internal/gateway/gateway.go:387-394 | the window starts empty at the time of creation |
| RateLimiter.RateLimiter.Allow | internal/gateway/gateway.go:397-419 | restarts an old window, refuses beyond the quota or the size, and counts what it accepts |
| RateLimiter.CountSinceReset | internal/gateway/gateway.go:397-419 | the counter is the number of messages accepted since the window started |
| RateLimiter.Verdicts | internal/gateway/gateway.go:397-419 | on every call of every trace: refused for the rate exactly when the messages accepted since its window started are the quota, otherwise for its size exactly when that is too large, otherwise accepted |
| RateLimiter.FutureBound | internal/gateway/gateway.go:397-419 | what can still be accepted before a time: the rest of this window and a quota for each that can start |
| RateLimiter.RateBound | internal/gateway/gateway.go:397-419 | any half-open interval of k seconds holds at most k+1 quotas of accepted messages |
| RateLimiter.BoundIsTight | internal/gateway/gateway.go:397-419 | the bound is reached for every quota and every number of seconds |
| Placeholder.FindFirst | internal/alert/manager.go:208-215 | the inner loop finds the first occurrence |
| Placeholder.ReplacePlaceholder | internal/alert/manager.go:206-222 | whenever the loop ends its result is free of the placeholder and is where the replacements end |
| Placeholder.ShorterHalts | internal/alert/manager.go:206-222 | it ends when the value is shorter than the placeholder, by decreasing length |
| Placeholder.NotLongerHaltsIff | internal/alert/manager.go:206-222 | for a value no longer than the placeholder it ends exactly when the value is another string or there is nothing to replace |
| Placeholder.OneSidedHalts | internal/alert/manager.go:206-222 | a value of any length without the placeholder in it: it ends if new occurrences can arise on one side of the value only, or on none |
| Placeholder.BothSidedMayNotEnd | internal/alert/manager.go:206-222 | if they can arise on both sides it may never end, although the value does not contain the placeholder |
| Placeholder.SharingNothingIsInert | internal/alert/manager.go:206-222 | a non-empty value sharing no character with the placeholder takes part in no occurrence |
| Placeholder.InertIsReplaceAll | internal/alert/manager.go:206-222 | then it ends and equals one-pass leftmost non-overlapping replacement, no placeholder left |
| Placeholder.ContainingHaltsIff | internal/alert/manager.go:206-222 | with a value containing the placeholder it ends exactly when there is nothing to replace |
| Placeholder.EmptyPlaceholderNeverHalts | internal/alert/manager.go:206-222 | with an empty placeholder it never ends |
| Placeholder.FormattedIsInert | internal/alert/manager.go:190-193 | a printed number cannot take part in an occurrence of the value placeholder |
| Placeholder.ValueIsReplacedInOnePass | internal/alert/manager.go:190-193 | so alert messages are built by one-pass replacement |
| PrivateConversation.IDIsSymmetric | internal/repository/message/repository.go:475-480 | the id does not depend on the order of the two users |
| PrivateConversation.IDNamesBoth | internal/repository/message/repository.go:475-480 | the id is the prefix, the smaller user id, a colon and the larger one |
| PrivateConversation.LexLessIff | internal/repository/message/repository.go:476 | smaller means the smaller character at the first difference, or a proper prefix |
| PrivateConversation.IDIsCanonical | internal/repository/message/repository.go:475-480 | for user ids without a colon two pairs have the same id exactly when they are the same pair |
| PrivateConversation.CanonicalIff | internal/repository/message/repository.go:475-480 | ids over an alphabet are canonical exactly when the colon is not in it |
| PrivateConversation.ConversationRepository.GetOrCreatePrivateConversation | internal/repository/message/repository.go:122-177 | finds the conversation, or creates it with both members, or leaves everything as it was; a failing commit still answers success |
| PrivateConversation.CreatesIff | internal/repository/message/repository.go:134-177 | a call creates the conversation, with its two users as members, exactly when nothing fails and no conversation has its id; every other call changes nothing |
| PrivateConversation.AnswersIff | internal/repository/message/repository.go:123-177 | a call answers exactly when the lookup works and finds the conversation, or none has its id and neither insert fails |
| PrivateConversation.CreateKeepsInv | internal/repository/message/repository.go:122-177 | a call keeps ids unique and every private conversation with exactly the two members of its pair |
| PrivateConversation.OneConversationPerPair | internal/repository/message/repository.go:122-177 | over any run there is at most one conversation per pair, with exactly those members |
| PrivateConversation.AskingAgain | internal/repository/message/repository.go:122-177 | asking again in either order gives the same conversation and changes nothing |
| PrivateConversation.AnswerIsStoredIff | internal/repository/message/repository.go:174-176 | an answered conversation is stored exactly when it was before or the commit worked |

## Left out

- ConsumerLoop.HandleMessage: does not model the push to online users and the delivery event after a successful insert; the status update after a push is the pipeline's step that sets a status at any time.
- Backoff.CalculateDelay: durations are unbounded integers and multipliers are reals, so overflow of 64-bit nanoseconds and rounding of floats are not modelled.
- Placeholder.ReplacePlaceholder: has a precondition that the loop ends. When it does is decided for values no longer than the placeholder, values containing it, and values that can start or end an occurrence but not both; among longer values that can do both, some make it end and some do not, and no condition is given for them.
- AckReplay.ReplayEquivalence: is about sequential runs with messages and memberships fixed, and starts from a table with unique keys, which every sequential run keeps.
- AckSync.Converges: assumes an empty last message id, default types, no failing query, later stamps and no cleanup; `AckSync.ConvergesIff` has no such assumption.
- DeliveryTheorems.OneRowPerMessage: records of other writers are undecodable ones, or messages that count as sends of their own; a decodable foreign record that reuses a message id with other content, or that has none, is not modelled.
- HistoryPaging.OfferedCursorStartsOver: is about messages named by senders, with UUIDs; `HistoryPaging.StartsOverIff` is about any ids.
- Presence.Client.GetUsersOnline: each operation happens at one instant; the time between a Redis reply and the cache entry's stamp is not modelled.
- The half-open limit on concurrent calls: a permit is released before the function runs, so there is no limit to prove.
- Retention by calendar days: a day is 24 hours here, and a row's creation time is its first stamp.
- Concurrent runs of CreateOrUpdateACK and of GetOrCreatePrivateConversation; the ACK table has no unique index, so its keys are unique over sequential runs only.
- The branch of GetMessagesByCursor towards older messages, which the services do not use.
- Membership changes while a client pages over all conversations.
- Ids skipped by failed inserts, database collation, CreatedAt and UpdatedAt columns (but for the creation time of ACK rows), and the conversation's last-active time.
- JSON, UTF-8 and cursor encodings: a record is decodable or not, a cursor is a pair or absent.
- Legacy PullOfflineMessages and the gateway's in-memory cursor, which concatenate unsorted results.
- The connection hub, whose two maps disagree after authentication changes a client's user.
- Breaker callbacks, statistics and last failure times; scanning Redis for all online users.
- The message deduplicator, which is constructed but not consulted, and the fallback manager.
- HTTP handlers, WebSocket pumps, metrics, logging, configuration loading, authentication, group rosters and user accounts.
