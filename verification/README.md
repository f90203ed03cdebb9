# Interview platform: a verified model

This project models the deterministic core of an AI interview platform and proves what that core
keeps, over every input and every run.

* **The interview session protocol** (`Lifecycle`, `SessionStore`, `LifecycleRuns`,
  `LifecycleTheorems`, `DeliveryTheorems`, `SessionOutcomes`, `SessionRuns`, `Witnesses`). One enrollment is a
  candidate row, a session row once the candidate has entered, and an append-only event log.
  `SessionStore` has the rows as classes and one method per operation: two-token entry, connection
  binding and rotation, disconnects with a five-minute reconnection window, the three-strike rule,
  timeout termination, proctoring messages, and the writes of the interview engine, most of which
  check nothing. Every method is proved to do to the rows and the log exactly what a function of
  `Lifecycle` says. `LifecycleRuns` defines a run: any sequence of atomic steps, by any callers, on
  one nondecreasing clock, from a fresh invitation; it proves one invariant of all reachable worlds.
  `LifecycleTheorems` and `DeliveryTheorems` draw the conclusions, `SessionOutcomes` says of every
  operation when it succeeds, what it answers and what it leaves, `SessionRuns` takes the service
  object through a whole run, and `Witnesses` has the runs that reach the exceptions.
* **The proctoring violation log** (`ViolationRecords`, `KnownRecords`, `TabSwitchLog`, `FaceLog`,
  `ProctoringRefinement`). A list of JSON records, legacy and canonical ones mixed, consolidated in
  place into one record per type. It is proved to be a faithful representation of a set of tab
  event ids and of a map from the start of a face condition to joined statistics.
* **The interview-plan time allocator** (`StableOrder`, `LargestRemainder`, `Apportionment`,
  `PlanTiming`). Section selection by a stable sort and a top-k cut, then largest-remainder
  apportionment in tenths of a minute: exact, within the quota rule, optimal, monotone, idempotent.
* **Ranking** (`Ranking`) and **enrolment with disjoint windows** (`Enrollment`,
  `EnrollmentLaws`, `EnrollmentOutcomes`).

Assumptions, all of them parameters or preconditions of the model: one clock, read once per
transaction; generated connection ids are unused, generated secrets, event ids and timestamps are
not blank; row locks make every operation one atomic step.

Where a natural claim is false of the code, the model keeps the code and states exactly when the
claim holds, for all inputs, with a run or history that reaches a failing case:

| claim | exactly when | reached by |
|---|---|---|
| a terminal session is never left | `OnlyTheEngineReopens`: unless initialised or marked in progress | `TerminatedIsOverwritten` |
| a terminated session has a terminated candidate | `AgreementKeptExactly`: unless the engine writes the candidate of a terminated session | `TerminatedIsOverwritten` |
| three strikes end the session for good | `StrikesKeptExactly`: unless the engine writes the status of a struck-out session | `StrikeIsForgotten` |
| never more than five tab switches, and five only when terminated | `TabsKeptExactly`: unless such a write, or an appended tab record that makes or declares too many | `CapIsBroken` |
| interview time never falls | `OnlyCompletionLowersElapsed`: unless completion reports less | `ElapsedIsLost` |
| redelivering an appended violation changes nothing | `RedeliveryExactly`, at every later time: unless for no type the steps since left a record of that type under the identifier; a type's last accepted message leaves its canonical record only, a stored record stays until then | `RecordIsForgotten` |
| unfinished windows of a candidate stay disjoint under status moves | `MoveKeepsExactly`: unless reopened into an overlap | `ReopeningCanOverlap` |
| every section gets the minimum depth | `FallbackOnlyAtOneMinute`: unless the interview lasts one minute | no accepted request: src/schemas/assessment.py:240 admits 2 to 180 minutes, so the planner always meets the depth there |

In one place code and documentation disagree: `update_elapsed_time` speaks of monotonically
increasing totals, but `complete_session` overwrites the elapsed time; the model follows the code.

## Model

| member | source | states |
|---|---|---|
| `LifecycleRuns.InvariantKept` | src/data/repositories/candidate_session_repository.py:196-331 | Every step, the engine's unguarded writes included, keeps the structural, connection, accounting and history invariants of the two rows and the log. |
| `LifecycleRuns.RunInvariant` | src/core/services/interview_session_service.py:134-543 | Every world of every run satisfies that invariant. |
| `LifecycleTheorems.StructureHolds` | src/data/migrations/alembic/versions/e8b7c6d5a4f3_two_token_session_reconnection.py:113-130 | In every reachable state the declared check constraints hold; an active connection excludes DISCONNECTED, COMPLETED and TERMINATED; DISCONNECTED has a deadline and one or two disconnects; the invitation is consumed if and only if a token exists. |
| `LifecycleTheorems.DisconnectsAreBounded` | src/data/repositories/candidate_session_repository.py:215-318 | On every run restores + timeouts + (1 if DISCONNECTED) is at most min(2, disconnects); accepted disconnects came from pairwise different connections; the total pause is at most 600 seconds. |
| `LifecycleTheorems.EventLogIsFaithful` | src/core/services/interview_session_service.py:247-542 | The disconnect events are numbered 1, 2, ... up to the row's counter; timeout, reconnect and invitation events occur exactly as often as the rows say. |
| `LifecycleTheorems.RetiredConnectionsStayRetired` | src/core/services/interview_session_service.py:414-431 | On every run a connection id that has stopped being the active one never becomes active again, and its late disconnects, tab switches and face packets change nothing. |
| `LifecycleTheorems.StaleMessagesIgnored` | src/data/repositories/candidate_session_repository.py:294-316 | A message of any connection but the active one leaves rows and log as they are. |
| `DeliveryTheorems.RedeliveryIsIgnored` | src/data/repositories/interview_session_repository.py:38-53 | At-least-once delivery has exactly-once effect: redelivering a stored disconnect, tab switch, face packet, transcript turn or lasting violation record at any later point of any run, over any connection, with any new timestamps and (for a face packet) any statistics that claim no longer duration, changes neither rows nor log (a turn may still raise the elapsed time it carries). |
| `DeliveryTheorems.RedeliveryExactly` | src/data/repositories/interview_session_repository.py:38-128 | For every stored violation of every run and every later world: redelivery changes nothing if and only if, for some type, the steps since leave a record of that type under its identifier; otherwise it is stored again. |
| `DeliveryTheorems.KnownUntilOwnMessage` | src/data/repositories/interview_session_repository.py:38-128 | In every later world before which no message of its own type was accepted, redelivery changes nothing. |
| `DeliveryTheorems.ForgottenExactly` | src/data/repositories/interview_session_repository.py:38-128 | In the world right after the next accepted message of its own type, redelivery changes nothing if and only if the record has the canonical identifier of its type or a message in between took the identifier for another type; otherwise it is stored a second time. |
| `KnownRecords.KnownExactly` | src/data/repositories/interview_session_repository.py:38-128 | Along any history of consolidations and stored records, an identifier that a list did not know is known later if and only if the changes since leave a record under it. |
| `KnownRecords.KnownAfterOwnFold` | src/data/repositories/interview_session_repository.py:38-128 | After the first consolidation of a stored record's type that condition comes down to the canonical identifier, or to another type that took it. |
| `DeliveryTheorems.TabCountNeverFalls` | src/data/repositories/interview_session_repository.py:69-89 | No step of any kind, `append_violation` included, lowers the tab-switch count. |
| `DeliveryTheorems.RunsRefineTheLog` | src/data/repositories/interview_session_repository.py:254-270 | In every run without `append_violation` the stored list is exactly what the abstract log makes of the messages of the connections current at the time. |
| `DeliveryTheorems.KindsRefineTheLog` | src/data/repositories/interview_session_repository.py:109-128 | In every run that appends no record of a consolidated type, the stored records of that type are exactly those of the abstract log. |
| `DeliveryTheorems.RunsRefineTheMap` | src/data/repositories/interview_session_repository.py:423-523 | In every run that appends no record of a face type, the stored records of the type are the map from starts to the joins of the packets the run accepted, with `occurrence_count` their number. |
| `DeliveryTheorems.RunsIgnoreOrder` | src/data/repositories/interview_session_repository.py:591-659 | Any two such runs that accepted the same packets of a face type store the same abstract face log. |
| `DeliveryTheorems.TabCountIsDistinct` | src/data/repositories/interview_session_repository.py:69-89 | In every world of every run that appends no tab record there is at most one tab record and the count is the number of distinct tab events delivered so far. |
| `DeliveryTheorems.FifthTabSwitchTerminates` | src/data/repositories/interview_session_repository.py:285-329 | In such a run a delivered tab switch leaves the session terminated if and only if it is new and makes at least five distinct events. |
| `DeliveryTheorems.FiveTabSwitchesAtMost` | src/data/repositories/interview_session_repository.py:285-329 | Along every run without the writes that `Uncaps` names, the count never passes five, and five are only ever seen on a terminated session. |
| `DeliveryTheorems.TabsKeptExactly` | src/data/repositories/interview_session_repository.py:218-235 | The cap is broken by exactly the writes that `Uncaps` names. |
| `LifecycleTheorems.ClosedRefuses` | src/core/services/interview_session_service.py:169-200 | Once the session or the candidate row is terminal, entry, context, authorisation and demo are all refused and change neither row. |
| `LifecycleTheorems.TerminalIsFrozen` | src/core/services/interview_session_service.py:313-336 | No candidate-facing step changes either row of a terminal session. |
| `LifecycleTheorems.TerminalIsAbsorbing` | src/core/services/interview_session_service.py:313-336 | Along any stretch of candidate-facing steps both rows of a terminal session stay what they are. |
| `LifecycleTheorems.OnlyTheEngineReopens` | src/data/repositories/interview_session_repository.py:711-726 | A terminal session is left if and only if the step is one of the two engine writes that mark it in progress unconditionally. |
| `LifecycleTheorems.OnlyCompletionLowersElapsed` | src/data/repositories/interview_session_repository.py:685-747 | The elapsed time falls if and only if a completion reports less than the row has. |
| `LifecycleTheorems.TerminationReachesTheCandidate` | src/data/repositories/candidate_session_repository.py:333-349 | Along every run in which the engine does not write the candidate of a terminated session, a TERMINATED session has a TERMINATED candidate with an end time. |
| `LifecycleTheorems.AgreementKeptExactly` | src/data/repositories/assessment_context_repository.py:62-120 | The two rows are parted by exactly the engine's candidate writes on a terminated session. |
| `LifecycleTheorems.ThreeStrikes` | src/data/repositories/candidate_session_repository.py:294-325 | Along every run in which the engine does not overwrite the status of a struck-out session, there are at most three disconnects and one timeout, and the third disconnect as well as a timeout has terminated the session. |
| `LifecycleTheorems.StrikesKeptExactly` | src/data/repositories/interview_session_repository.py:711-747 | Strikes are forgotten by exactly the engine's status writes on a struck-out session. |
| `LifecycleTheorems.AuthorizationBinds` | src/core/services/interview_session_service.py:414-433 | A successful authorisation returns the connection that the live session now holds; it was handed out before only if the interview had not begun and still held it. |
| `LifecycleTheorems.ReconnectsWithinFiveMinutes` | src/core/services/interview_session_service.py:358-412 | A disconnected candidate is let back in if and only if at most five minutes have passed, on a new connection and with the outage added to the pause; later, both rows are terminated. |
| `LifecycleTheorems.EntryIsGuarded` | src/core/services/interview_session_service.py:155-245 | In reachable states a token without an expiry is never found, and entry succeeds if and only if both rows are open, the window of an unstarted interview is open and an issued token has not expired. |
| `LifecycleTheorems.FirstEntry` | src/core/services/interview_session_service.py:202-271 | The first successful entry issues the secret with an expiry of at least the interview plus an hour from now and an hour past the window's end; later ones are marked as reissued. |
| `LifecycleTheorems.EntryIsStable` | src/data/repositories/candidate_session_repository.py:103-142 | On every run every later successful entry returns the same token and expiry as an earlier one, marked as reissued. |
| `LifecycleTheorems.EntryUntilExpiry` | src/core/services/interview_session_service.py:155-279 | On every run after a first entry the invitation works again if and only if the expiry announced then has not passed, both rows are open and the window of an unstarted interview is open. |
| `SessionOutcomes.TokenIsChecked` | src/core/services/interview_session_service.py:281-483 | In every reachable world a token opens the context if and only if it is the row's own, unexpired and in time, and both rows are open; the demo if and only if moreover the session is not disconnected; a connection if and only if a disconnected session is within five minutes. |
| `SessionOutcomes.TokenRefusals` | src/core/services/interview_session_service.py:313-336 | Each failing guard has its own reason, the same for context, demo and connection, and a refused token changes nothing. |
| `SessionOutcomes.ValidTokenRefusals` | src/core/services/interview_session_service.py:358-397 | A valid token of a disconnected session is refused the demo, and a connection only for a missed window. |
| `SessionOutcomes.ContextTells` | src/core/services/interview_session_service.py:108-131 | The context answers with the row's own token, expiry, status, deadline and count. |
| `SessionOutcomes.EntryRefusals` | src/core/services/interview_session_service.py:155-222 | The reason of every refused entry and what it leaves: an unknown invitation nothing, any other a session row and one log entry. |
| `SessionOutcomes.EntryOutcome` | src/core/services/interview_session_service.py:202-271 | A successful entry returns existing credentials as they are or new ones with the least sufficient expiry, consumes the invitation, logs one entry and changes nothing else. |
| `SessionOutcomes.ConnectionOutcome` | src/core/services/interview_session_service.py:414-455 | A connection to a session that is not disconnected changes the active connection only: a new one if the interview is in progress or none is held, otherwise the one held. |
| `SessionOutcomes.ReturnOutcome` | src/core/services/interview_session_service.py:358-412 | What a return within five minutes and a later one leave in rows and log. |
| `SessionOutcomes.DropOutcome` | src/data/repositories/candidate_session_repository.py:284-349 | A disconnect of the current connection counts, takes over a larger elapsed time, opens a five-minute window or ends the interview at the third; any other is ignored. |
| `SessionOutcomes.TabSwitchOutcome` | src/data/repositories/interview_session_repository.py:254-337 | A known tab switch changes nothing; a new one raises the reported count by one and ends the interview for both rows if and only if that makes five or more. |
| `SessionOutcomes.FacePacketOutcome` | src/data/repositories/interview_session_repository.py:423-539 | A plausible packet of the current connection is stored if and only if its event id or its duration is new, answered with the number of episodes, and ends the interview for both rows if and only if it lasted 30 seconds without a face or 20 with several. |
| `SessionOutcomes.ImplausibleIsRefused` | src/data/repositories/interview_session_repository.py:365-399 | A packet below 5 seconds without a face, below 3 with several, or with contradictory claims is refused and changes nothing. |
| `SessionOutcomes.UnservedMessages` | src/data/repositories/interview_session_repository.py:254-270 | Messages of an unknown session, another enrollment or another connection are refused or answered with what is stored, and change nothing. |
| `SessionOutcomes.TurnOutcome` | src/data/repositories/interview_session_repository.py:192-216 | A turn is stored once under its identifier, at the end, and the elapsed time only grows. |
| `SessionOutcomes.RecordOutcome` | src/data/repositories/interview_session_repository.py:218-235 | A violation record is stored once under its identifier, at the end; one without an identifier is refused. |
| `SessionOutcomes.SessionWrites` | src/data/repositories/interview_session_repository.py:685-747 | What each of the engine's session writes leaves in the row, whatever it held. |
| `SessionOutcomes.CandidateWrites` | src/data/repositories/assessment_context_repository.py:62-120 | What each of the engine's candidate writes leaves; first times are kept. |
| `SessionStore.InterviewSession.SetCredentials` | src/data/repositories/candidate_session_repository.py:124-142 | Sets token and expiry together and nothing else. |
| `SessionStore.InterviewSession.BindActiveConnection` | src/data/repositories/candidate_session_repository.py:196-213 | Binds a connection only to a live session. |
| `SessionStore.InterviewSession.RestoreDisconnected` | src/data/repositories/candidate_session_repository.py:215-246 | Puts a disconnected session back in progress and accounts for the pause. |
| `SessionStore.InterviewSession.TerminateReconnectTimeout` | src/data/repositories/candidate_session_repository.py:258-280 | Terminates a disconnected session, counts the timeout and clears deadline and connection. |
| `SessionStore.InterviewSession.RecordDrop` | src/data/repositories/candidate_session_repository.py:294-318 | The guarded update of a drop: hits only the current connection of a live session; the third drop terminates, an earlier one opens the window. |
| `SessionStore.InterviewSession.Stop` | src/data/repositories/interview_session_repository.py:669-671 | Terminates the session row whatever its status. |
| `SessionStore.InterviewSession.MarkInProgress` | src/data/repositories/interview_session_repository.py:711-726 | The unguarded write: in progress, deadline cleared, everything else kept. |
| `SessionStore.InterviewSession.Complete` | src/data/repositories/interview_session_repository.py:728-747 | The unguarded write: completed, elapsed time overwritten, deadline and connection cleared. |
| `SessionStore.InterviewSession.UpdateElapsed` | src/data/repositories/interview_session_repository.py:685-709 | Raises elapsed and pause totals, never lowers them. |
| `SessionStore.CandidateAssessment.ConsumeInvitation` | src/data/repositories/candidate_session_repository.py:103-122 | Consumes the invitation once and keeps the first time. |
| `SessionStore.CandidateAssessment.MarkTimerStarted` | src/data/repositories/assessment_context_repository.py:75-100 | In progress, with the first start time kept. |
| `SessionStore.CandidateAssessment.End` | src/data/repositories/assessment_context_repository.py:102-120 | A final status, with the first end time kept. |
| `SessionStore.InterviewService.EnterWithInvitation` | src/core/services/interview_session_service.py:134-279 | Moves rows and log exactly as the specification `Lifecycle.Enter`, about which the entry theorems are proved. |
| `SessionStore.InterviewService.AuthorizeConnection` | src/core/services/interview_session_service.py:338-459 | Moves rows and log exactly as the specification `Lifecycle.Authorize`. |
| `SessionStore.InterviewService.RecordDisconnect` | src/core/services/interview_session_service.py:485-543 | Moves rows and log exactly as the specification `Lifecycle.Disconnect`. |
| `SessionStore.InterviewService.RecordTabSwitch` | src/data/repositories/interview_session_repository.py:237-337 | Moves both rows exactly as the specification `Lifecycle.TabSwitched`, built on `TabSwitchLog.TabStep`. |
| `SessionStore.InterviewService.RecordProctoringEvent` | src/data/repositories/interview_session_repository.py:339-539 | Moves both rows exactly as the specification `Lifecycle.FaceReported`, built on `FaceLog.FaceStep`. |
| `SessionStore.InterviewService.StoreViolations` | src/data/repositories/interview_session_repository.py:661-683 | Stores a violation list and, past a threshold, terminates both rows together. |
| `SessionStore.InterviewService.AppendTranscriptTurn` | src/data/repositories/interview_session_repository.py:192-216 | Appends a turn unless its id is known; raises the elapsed time either way. |
| `SessionStore.InterviewService.AppendViolationRecord` | src/data/repositories/interview_session_repository.py:218-235 | Appends a violation unless its id is known. |
| `SessionStore.InterviewService.InitializeContext` | src/api/rest/routes/internal_interview.py:153-159 | Creates the session if needed and marks both rows in progress without looking. |
| `SessionStore.InterviewService.SaveFinalEvaluation` | src/data/repositories/evaluation_repository.py:203-221 | Marks both rows evaluated, keeping the first end time. |
| `SessionStore.InterviewService.MarkEvaluationFailed` | src/data/repositories/evaluation_repository.py:160-174 | Fails every session but an evaluated one, and leaves the candidate alone. |
| `SessionStore.InterviewService.Serve` | src/core/services/interview_session_service.py:134-543 | Any candidate-facing operation on the objects is the corresponding atomic step of the protocol. |
| `SessionStore.InterviewService.Record` | src/api/rest/routes/internal_interview.py:138-221 | Any engine write on the objects is the corresponding atomic step of the protocol. |
| `SessionRuns.Play` | src/core/services/interview_session_service.py:134-543 | The service object taken through any run ends in the run's last world, answers every request as the run does and satisfies the invariant. |
| `Witnesses.RecordIsForgotten` | src/data/repositories/interview_session_repository.py:109-128 | For each consolidated type and each record of it without the canonical identifier, a run after which redelivery stores it again. |
| `Witnesses.ImpostorIsStillKnown` | src/data/repositories/interview_session_repository.py:109-128 | A run on which a tab record under the canonical identifier of the missing-face type is still known after the next tab switch, because a face packet took the identifier. |
| `Witnesses.TerminatedIsOverwritten` | src/data/repositories/interview_session_repository.py:711-726 | A run after which the engine parts the rows of a terminated session, or reopens it. |
| `Witnesses.StrikeIsForgotten` | src/data/repositories/interview_session_repository.py:711-726 | A run after which the engine reopens a session whose reconnection window had expired. |
| `Witnesses.CapIsBroken` | src/data/repositories/interview_session_repository.py:218-235 | A run after which an appended tab record puts a live session at five switches. |
| `Witnesses.ElapsedIsLost` | src/data/repositories/interview_session_repository.py:728-747 | A run after which completion lowers the elapsed time. |
| `ViolationRecords.ReplaceViolationType` | src/data/repositories/interview_session_repository.py:109-128 | The replacement loop computes `ReplaceKind`. |
| `ViolationRecords.ReplaceKindKinds` | src/data/repositories/interview_session_repository.py:109-128 | Afterwards the type has exactly the canonical record, every other type has the records it had, and all entries of other types keep their order. |
| `ViolationRecords.ReplaceKindHolds` | src/data/repositories/interview_session_repository.py:109-128 | A consolidated list holds the canonical record and exactly the entries of other types. |
| `ViolationRecords.ReplaceKindPlace` | src/data/repositories/interview_session_repository.py:109-128 | The canonical record takes the place of the first record of its type, the others of the type go, everything else stays where it was. |
| `ViolationRecords.ReplaceKindEnd` | src/data/repositories/interview_session_repository.py:126-128 | A first record of its type goes to the end. |
| `ViolationRecords.SurvivesExactly` | src/data/repositories/interview_session_repository.py:38-53 | A record just accepted is still known after a consolidation if and only if it is of another type or carries the canonical identifier. |
| `ViolationRecords.ReplaceKindKeepsLasting` | src/data/repositories/interview_session_repository.py:109-128 | A record of an unconsolidated type, or with the canonical identifier of its own, stays known by its id. |
| `ViolationRecords.CollectEventIds` | src/data/repositories/interview_session_repository.py:92-106 | The nested collecting loops compute `EventIds`. |
| `ViolationRecords.EventIdsClean` | src/data/repositories/interview_session_repository.py:92-106 | Collected ids are free of duplicates and blanks, whatever the records hold. |
| `ViolationRecords.EventIdsHold` | src/data/repositories/interview_session_repository.py:92-106 | Exactly the ids are collected that some record lists, or carries in the legacy field. |
| `ViolationRecords.EventIdsReadBack` | src/data/repositories/interview_session_repository.py:92-106 | Ids written into a canonical record are read back exactly. |
| `ViolationRecords.FindIdFinds` | src/data/repositories/interview_session_repository.py:49-53 | A scan that finds nothing has seen only records without the id, and a scan of records finds exactly the ids that are there. |
| `TabSwitchLog.AcceptedTabSwitch` | src/data/repositories/interview_session_repository.py:285-320 | From any list an accepted tab switch raises the count by exactly one, leaves exactly one tab record, extends the id list by its id and touches nothing else. |
| `TabSwitchLog.TabCountIsMaximum` | src/data/repositories/interview_session_repository.py:69-89 | The count is the largest of the number of tab records and the positive counts they declare. |
| `TabSwitchLog.TabRecordTells` | src/data/repositories/interview_session_repository.py:286-320 | The canonical record tells the new count under both names, the latest occurrence, and the first one and its turn as the first record had them. |
| `TabSwitchLog.AppendKeepsTabs` | src/data/repositories/interview_session_repository.py:218-235 | Appending a record changes the count exactly to the number of records or to what a tab record declares, if higher, and forgets no event id. |
| `FaceLog.LoadFaceEpisodes` | src/data/repositories/interview_session_repository.py:541-589 | The loop over canonical and legacy records computes `FaceEpisodes`. |
| `FaceLog.EpisodesAreRead` | src/data/repositories/interview_session_repository.py:541-589 | Exactly the episodes are read that some record lists, or stands for as a legacy record, with its start, times, statistics and ids. |
| `FaceLog.AcceptedFacePacket` | src/data/repositories/interview_session_repository.py:450-528 | For any mix of legacy and canonical records, what was written reads back exactly: all earlier ids plus the packet's, all earlier episodes with the packet merged in, `occurrence_count` their number; other records are untouched. |
| `FaceLog.FaceRecordTells` | src/data/repositories/interview_session_repository.py:474-528 | The canonical record tells the longest duration seen, whether any packet so far ended the interview and why, and the first time and its turn as the first record had them. |
| `FaceLog.CanonicalisingLosesNothing` | src/data/repositories/interview_session_repository.py:541-659 | Every earlier episode stays at its place with its start, statistics that cover its own (maxima no smaller, minimum no larger) and each of its event ids, unchanged unless the packet is its own; the earlier ids are a prefix of the new ones. |
| `FaceLog.MergeCovers` | src/data/repositories/interview_session_repository.py:591-659 | A merged episode covers the old statistics and the packet's, keeps the first time, takes the packet's provenance and lists exactly the event ids of both. |
| `FaceLog.FindAfterMerge` | src/data/repositories/interview_session_repository.py:429-473 | Merging moves no episode: each start is found where it was, a new one at the end. |
| `FaceLog.AcceptanceSettles` | src/data/repositories/interview_session_repository.py:437-449 | After a packet was accepted, the same packet counts as a duplicate. |
| `FaceLog.FaceStepKeepsSettled` | src/data/repositories/interview_session_repository.py:437-449 | No later packet undoes that. |
| `ProctoringRefinement.TabLogRefinesSet` | src/data/repositories/interview_session_repository.py:254-337 | From an empty log the count is the number of distinct tab ids delivered, at most one tab record exists, and a switch terminates if and only if it is new and makes at least five. |
| `ProctoringRefinement.FaceLogRefinesMap` | src/data/repositories/interview_session_repository.py:423-523 | From an empty log each face type has at most one record, one episode for each distinct accepted start, `occurrence_count` their number, and the value is the map from starts to the least bounds of their accepted packets. |
| `ProctoringRefinement.JoinIsUnique` | src/data/repositories/interview_session_repository.py:591-659 | The join of a set of packets does not depend on their order. |
| `ProctoringRefinement.FreshPacketsAccepted` | src/data/repositories/interview_session_repository.py:437-449 | Packets with pairwise different event ids are all accepted. |
| `ProctoringRefinement.FaceLogIgnoresOrder` | src/data/repositories/interview_session_repository.py:591-659 | Two delivery orders of the same packets, each with its own event id and interleaved with anything, give the same abstract face log. |
| `StableOrder.OrderIsOrder` | src/utils/assessment_utils.py:168-175 | The insertion order is a permutation of the positions, by key descending and by position on ties: what a stable reverse sort gives. |
| `StableOrder.OrderOfSorted` | src/utils/assessment_utils.py:266-269 | Sorting a descending list changes nothing. |
| `StableOrder.CutSeparates` | src/utils/assessment_utils.py:271-271 | Everything kept by a top-k cut comes before everything dropped. |
| `StableOrder.OrderAgrees` | src/utils/assessment_utils.py:168-175 | The order depends on nothing but how the keys compare. |
| `Apportionment.DistributeExtras` | src/utils/assessment_utils.py:159-179 | Both branches of the in-place distribution compute `Extras`. |
| `Apportionment.AllocateMinutesByWeight` | src/utils/assessment_utils.py:137-181 | The allocator, even-split fallback included, computes `Allocation`. |
| `Apportionment.AllocationIsExact` | src/utils/assessment_utils.py:148-181 | In all three branches the shares sum to the requested total. |
| `Apportionment.ExtrasObeyQuota` | src/utils/assessment_utils.py:164-179 | In the weighted branch each extra share is its exact quota rounded down or up. |
| `Apportionment.ExtrasAreOptimal` | src/utils/assessment_utils.py:164-179 | No integer split with the same total has a smaller sum of absolute deviations from the exact quotas. |
| `Apportionment.AllocationIsMonotone` | src/utils/assessment_utils.py:148-181 | Whenever the minimum depth can be met, everyone gets it, a strictly larger weight never gets less, and equal weights differ by at most one unit in favour of the earlier index. |
| `Apportionment.AllocationObeysQuota` | src/utils/assessment_utils.py:158-181 | In terms of the weights: beyond the minimum depth each share is less than one unit away from the exact share in proportion to the squared weight. |
| `Apportionment.AllocationIsOptimal` | src/utils/assessment_utils.py:158-181 | In terms of the weights: no other split of the total in whole units deviates less from those shares. |
| `Apportionment.RemaindersDecide` | src/utils/assessment_utils.py:168-179 | A further unit goes to the larger fractional part, then the larger weight, then the earlier position. |
| `Apportionment.EvenShares` | src/utils/assessment_utils.py:151-163 | Without enough units for the minimum depth, or without a positive weight, everyone gets the same, up to one unit more for the earlier sections. |
| `Apportionment.AllocationScales` | src/utils/assessment_utils.py:158-181 | Multiplying all weights by one positive factor changes no share, so rational weights are covered by integer ones. |
| `LargestRemainder.RoundedIsExact` | src/utils/assessment_utils.py:164-179 | Whole parts plus one unit for each winner of the remainder sum to the total. |
| `LargestRemainder.WinnersComeFirst` | src/utils/assessment_utils.py:168-179 | A winner of an extra unit beats every loser on (fraction, weight, earlier position). |
| `LargestRemainder.RoundedIsOptimal` | src/utils/assessment_utils.py:164-179 | Largest-remainder rounding minimises the total absolute deviation over all integer splits of the total. |
| `LargestRemainder.RoundedScales` | src/utils/assessment_utils.py:164-179 | Rounding does not depend on the unit of the quotas. |
| `PlanTiming.ResolveRating` | src/utils/assessment_utils.py:66-91 | The scanning loop computes `BestMatch`. |
| `PlanTiming.BestMatchIsFirstMaximum` | src/utils/assessment_utils.py:66-91 | The rating is that of the first most similar entry, and missing if and only if none is similar. |
| `PlanTiming.TargetSkillCount` | src/utils/assessment_utils.py:109-134 | The search through the duration table computes the bounded section count. |
| `PlanTiming.CountFits` | src/utils/assessment_utils.py:94-134 | From two minutes on the chosen number of sections fits at minimum depth. |
| `PlanTiming.KeptIsGreatest` | src/utils/assessment_utils.py:109-134 | From two minutes on as many technical sections are kept as there are, as the cap of the interview's length allows, and as the technical time can give the minimum depth. |
| `PlanTiming.CapsAreListed` | src/utils/assessment_utils.py:117-133 | That cap is the one of the first listed duration not below the interview, 7 past the last. |
| `PlanTiming.ScoreSections` | src/utils/assessment_utils.py:259-264 | The scoring loop computes the sort keys. |
| `PlanTiming.InterviewPlan.NormalizeTiming` | src/utils/assessment_utils.py:224-300 | Replaces the sections by the normalised ones, or refuses and leaves them alone. |
| `PlanTiming.InterviewPlan.Finalize` | src/utils/assessment_utils.py:210-221 | Overwrites duration, difficulty and sections as `Finalized` says. |
| `PlanTiming.PlanAddsUp` | src/utils/assessment_utils.py:224-300 | A finished plan is introduction, technical sections, behavioural part, and adds up to exactly the interview. |
| `PlanTiming.PlannedExactly` | src/utils/assessment_utils.py:252-257 | A plan is made if and only if there is a technical section and at least a minute; it has the requested length and the JD's difficulty. |
| `PlanTiming.PlanKeepsContents` | src/utils/assessment_utils.py:231-300 | Each technical section of the plan is a different one of the given ones with its skill and payload; the behavioural signals are the given ones or up to four of the JD's. |
| `PlanTiming.PlanSharesTime` | src/utils/assessment_utils.py:273-290 | The technical time beyond the minimum depth is shared in proportion to the squares of the effective weights, each share less than one unit off. |
| `PlanTiming.WeightsMean` | src/utils/assessment_utils.py:66-91 | A skill's priority is the JD rating of the first most similar JD skill or the default, its effective weight the recruiter's for the first most similar focus area or the priority. |
| `PlanTiming.FallbackOnlyAtOneMinute` | src/utils/assessment_utils.py:151-157 | The planner reaches the even-split fallback if and only if the interview lasts one minute. |
| `PlanTiming.TechnicalTimeDescends` | src/utils/assessment_utils.py:94-106 | From two minutes on technical time never increases along the plan and never falls below 1.5 minutes up to 5, 2 up to 15, 2.5 up to 30 and 3 beyond. |
| `PlanTiming.DroppedNeverBeatsKept` | src/utils/assessment_utils.py:266-271 | A kept section beats a dropped one on effective weight, then priority, then earlier position. |
| `PlanTiming.FinalizeIsIdempotent` | src/utils/assessment_utils.py:210-221 | Finalising a finished plan again with the same inputs changes nothing. |
| `Ranking.RefreshRanking` | src/data/repositories/evaluation_repository.py:243-267 | After the loop the ranks are pairwise different in 1..n; a higher score, or the same score at an earlier time, has the smaller rank; a row without an equal is ranked right after the rows that beat it; totals and percentiles follow. |
| `Ranking.RanksAreABijection` | src/data/repositories/evaluation_repository.py:251-259 | Every row has exactly one rank in 1..n, and ranks follow score descending, then time ascending. |
| `Ranking.RankCountsTheBetter` | src/data/repositories/evaluation_repository.py:251-259 | A rank minus one is the number of rows that come before. |
| `Ranking.PercentileIsRounded` | src/data/repositories/evaluation_repository.py:262-266 | Within half a point of 100(n - r)/(n - 1), between 0 and 100, 100 for the first and 0 for the last; 100 for a single candidate. |
| `Ranking.PercentilesDescend` | src/data/repositories/evaluation_repository.py:262-266 | Percentiles never increase with the rank and are pairwise distinct up to 101 candidates. |
| `Ranking.MirroredPercentiles` | src/data/repositories/evaluation_repository.py:262-266 | Percentiles of mirrored ranks add up to 100 or 101. |
| `Enrollment.FindWindowOverlap` | src/core/services/candidate_service.py:84-108 | The loop finds a conflict if and only if the candidate has an unfinished enrolment with an overlapping window. |
| `Enrollment.CandidateService.CreateSingleCandidate` | src/core/services/candidate_service.py:403-464 | The tables move as `CreateSingle` says, and an error leaves no trace. |
| `Enrollment.CandidateService.EnrollExisting` | src/core/services/candidate_service.py:512-592 | The tables move as `Enroll` says, and an error leaves no trace. |
| `Enrollment.CandidateService.DeleteEnrollment` | src/core/services/candidate_service.py:669-691 | The enrolment goes, and the candidate with the last one. |
| `Enrollment.CandidateService.BulkUpload` | src/core/services/candidate_service.py:165-343 | The row loop computes `BulkRows`; successes and failures are counted exactly and add up to the rows. |
| `EnrollmentLaws.HistoriesAreSound` | src/core/services/candidate_service.py:84-108 | After any history of requests, status moves included, in which no move reopens a finished enrolment into an overlap: emails and (candidate, assessment) pairs are unique, each candidate's unfinished windows are pairwise disjoint, and no candidate is without an enrolment. |
| `EnrollmentLaws.CreateKeeps` | src/core/services/candidate_service.py:423-464 | Single creation, orphan replacement included, keeps the tables consistent and orphan-free. |
| `EnrollmentLaws.EnrollKeeps` | src/core/services/candidate_service.py:512-592 | Enrolling an existing candidate does too. |
| `EnrollmentLaws.DeleteKeeps` | src/core/services/candidate_service.py:682-691 | So does removal. |
| `EnrollmentLaws.BulkKeeps` | src/core/services/candidate_service.py:177-343 | So does every bulk upload. |
| `EnrollmentLaws.MoveKeepsExactly` | src/data/repositories/assessment_context_repository.py:62-73 | A status move keeps the tables consistent if and only if it leaves the enrolment finished or no other unfinished enrolment of the candidate overlaps it. |
| `EnrollmentLaws.MoveIsSoundExactly` | src/data/repositories/assessment_context_repository.py:62-73 | On sound tables a status move leaves them sound if and only if it does not reopen a finished enrolment into an overlap. |
| `EnrollmentLaws.HandleIsSoundExactly` | src/core/services/candidate_service.py:403-691 | On sound tables any request leaves them sound, except exactly such a move. |
| `EnrollmentLaws.ReopeningCanOverlap` | src/data/repositories/assessment_context_repository.py:62-73 | A history of three requests after which the unguarded move to in-progress breaks the rule. |
| `EnrollmentLaws.BulkAccounts` | src/core/services/candidate_service.py:177-343 | One result per row, in order, under the row's own email; enrolments grow by exactly the successes. |
| `EnrollmentLaws.SameEmailSucceedsOnce` | src/core/services/candidate_service.py:209-244 | Two rows with the same normalised email never both succeed. |
| `EnrollmentOutcomes.CreateOutcome` | src/core/services/candidate_service.py:403-464 | A candidate is created if and only if the assessment is the recruiter's and no candidate with the email has an enrolment; what is then new and what is gone. |
| `EnrollmentOutcomes.EnrollOutcome` | src/core/services/candidate_service.py:512-592 | A known candidate is enrolled if and only if the assessment is the recruiter's, the recruiter is related to the candidate and no enrolment stands in the way; each refusal has its error. |
| `EnrollmentOutcomes.EnrollUnknown` | src/core/services/candidate_service.py:530-538 | An unknown candidate is never enrolled. |
| `EnrollmentOutcomes.DeleteOutcome` | src/core/services/candidate_service.py:669-691 | An enrolment is deleted if and only if it exists and is the recruiter's; it is gone, the others stay, and the candidate is gone if and only if it was the last. |
| `EnrollmentOutcomes.RowOutcomes` | src/core/services/candidate_service.py:177-294 | A row succeeds if and only if all fields are there and no enrolment of a candidate with its email is in the assessment or overlaps unfinished; then exactly one enrolment is new, of that candidate in that assessment. |
| `EnrollmentOutcomes.KnownRowOutcome` | src/core/services/candidate_service.py:207-253 | A row for a known email: when it succeeds, and that the candidate takes the row's name unless already in the assessment, even when the row fails. |
| `EnrollmentOutcomes.NewRowOutcome` | src/core/services/candidate_service.py:238-279 | A complete row for an unknown email always succeeds, with one new candidate and one new enrolment. |
| `EnrollmentOutcomes.BulkOutcome` | src/core/services/candidate_service.py:177-343 | Row k of an upload succeeds if and only if it is acceptable after the rows before it. |

## Left out

- Other rows: a world holds one enrollment. Lookup of a token or invitation among the rows of other candidates, and global uniqueness of secrets and violation ids, are not modelled.
- Two clocks: skew between the application clock and the database's `now()` is not modelled; times are microseconds on one clock, and pause seconds are rounded to the nearest as the database cast does.
- JSON typing: metadata values of unexpected primitive types, and constant or echoed metadata keys (labels, thresholds, the connection id, the event count), are not stored. A list entry that is not an object is modelled; where it makes the id scan raise, the model answers with a refusal and, like the code, changes nothing.
- persist_turn: the route's loop is the sequence of its single repository calls, each a step of its own; the raw `/events` route, which can write any event name, is not a step.
- DeliveryTheorems.RedeliveryIsIgnored: not claimed for appended violations of the three consolidated types under another identifier than the canonical one, where it is false (RedeliveryExactly says exactly when), nor for the elapsed seconds a redelivered turn carries.
- Events of no enrollment: an unknown invitation is logged by the source without an enrollment id, so it is not in the modelled log.
- LifecycleTheorems.TerminalIsAbsorbing: claimed for candidate-facing steps only, since engine writes do reopen sessions (OnlyTheEngineReopens gives the exact set).
- EnrollmentLaws.HistoriesAreSound: not claimed of histories with a move that reopens a finished enrolment into an overlap, which breaks it (MoveIsSoundExactly, ReopeningCanOverlap).
- Floating point: weights are integers in a common unit (AllocationScales), minutes are exact tenths, percentiles exact rationals; binary rounding of the original's floats is not modelled.
- Skill-name similarity: alias-token matching is an arbitrary score function of two names.
- Plan aliasing: sections are values, so sharing of one section object between two plans is not captured.
- Sorting: the library sort is specified as a stable insertion order, and rows equal in every ranking key keep their table order.
- Ranks after a deletion: nothing refreshes them there, so ranking is stated for a refresh only.
- Bulk upload: CSV decoding, the generic-exception path, resume files, emails and notifications are left out; enrolment requests are handled one at a time, as no locks are taken there.
- Authentication, prompts and model calls, job queues, streaming, recruiter decisions, assessment status toggles and display helpers: foreign calls or one-step facts.
