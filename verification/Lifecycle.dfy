// The interview lifecycle on values: the two rows of one enrollment, the event log, and what
// every operation does to them. Times are microseconds on one clock, which is read once per
// transaction.
module Lifecycle {
  import opened Prelude
  import opened ViolationRecords
  import opened TabSwitchLog
  import opened FaceLog

  type Time = int

  const SECOND: Time := 1_000_000
  const MINUTE: Time := 60_000_000
  const RECONNECT_WINDOW: Time := 300_000_000
  const MAX_DISCONNECTS := 3

  datatype SessionStatus =
    | Initializing | InProgress | Disconnected | Completed
    | Evaluated | EvaluationFailed | Deactivated | Terminated

  datatype CandidateStatus = Invited | WaitingRoom | Interviewing | Finished | Scored | Stopped

  datatype Turn = Turn(turnId: string, text: string)

  datatype SessionRow = SessionRow(
    status: SessionStatus,
    token: Option<string>, tokenExpiresAt: Option<Time>,
    disconnectCount: nat, timeoutCount: nat,
    lastDisconnectedAt: Option<Time>, reconnectDeadline: Option<Time>,
    activeConnection: Option<string>,
    elapsedSecs: int, pauseSecs: int,
    transcript: seq<Turn>, violations: seq<Violation>)

  const NEW_SESSION := SessionRow(Initializing, None, None, 0, 0, None, None, None, 0, 0, [], [])

  datatype CandidateRow = CandidateRow(
    status: CandidateStatus, inviteConsumed: bool, inviteConsumedAt: Option<Time>,
    startedAt: Option<Time>, endedAt: Option<Time>)

  const NEW_CANDIDATE := CandidateRow(Invited, false, None, None, None)

  datatype EventName =
    | InviteLinkRejected | InviteLinkConsumed | SessionTokenReissued
    | SessionDisconnected | SessionTerminatedMaxDisconnects | SessionReconnected
    | SessionDisconnectTimeoutRecorded | SessionTerminatedReconnectTimeout

  /** An event-log entry with the counters its metadata carries (0 where it carries none). */
  datatype Event = Event(name: EventName, disconnectCount: nat, timeoutCount: nat)

  /** What the enrollment fixes: its id, its invitation token, and the assessment's terms. */
  datatype Terms = Terms(enrollmentId: string, invitation: string, windowEnd: Option<Time>, durationMins: int)

  datatype State = State(session: Option<SessionRow>, candidate: CandidateRow, log: seq<Event>)

  datatype Rejection =
    | InvalidInvitation | SessionExpired | SessionClosed | InvalidSessionToken | TokenExpiryMissing
    | ReconnectTimeout | DemoForbidden | InvalidAppend | SessionNotFound

  datatype Reply =
    | Rejected(reason: Rejection)
    | Bootstrap(token: string, expiresAt: Time, sessionStatus: SessionStatus, reissued: bool,
                interviewStarted: bool, deadline: Option<Time>, disconnectCount: nat)
    | Connected(connectionId: string, elapsedSecs: int, interviewStarted: bool, tabSwitchCount: nat)
    | DemoAllowed
    | DisconnectRecorded(status: SessionStatus)
    | DisconnectIgnored
    | TabReply(appended: bool, recorded: bool, count: nat, terminated: bool)
    | FaceReply(appended: bool, recorded: bool, occurrenceCount: nat, terminated: bool)
    | AppendReply(appended: bool)
    | Done

  datatype Result = Result(state: State, reply: Reply)

  // ------------------------------------------------------------------- row updates

  predicate Live(status: SessionStatus) { status == Initializing || status == InProgress }

  predicate TerminalSession(status: SessionStatus) {
    status in {Completed, Evaluated, EvaluationFailed, Deactivated, Terminated}
  }

  predicate TerminalCandidate(status: CandidateStatus) { status in {Finished, Scored, Stopped} }

  function Coalesce(t: Option<Time>, now: Time): Option<Time> { if t.Some? then t else Some(now) }

  /** Whole seconds of a nonnegative duration, to the nearest. */
  function RoundSecs(d: Time): int { (d + SECOND / 2) / SECOND }

  /** `restore_disconnected_session`'s pause: 0 without a recorded disconnect, never negative. */
  function PauseSecs(row: SessionRow, now: Time): nat {
    if row.lastDisconnectedAt.None? then 0 else Max(0, RoundSecs(now - row.lastDisconnectedAt.value))
  }

  function WithCredentials(row: SessionRow, token: string, expiresAt: Time): SessionRow {
    row.(token := Some(token), tokenExpiresAt := Some(expiresAt))
  }

  function Bound(row: SessionRow, connectionId: string): SessionRow {
    if Live(row.status) then row.(activeConnection := Some(connectionId)) else row
  }

  function Restored(row: SessionRow, now: Time): SessionRow {
    row.(status := InProgress, pauseSecs := row.pauseSecs + PauseSecs(row, now),
         reconnectDeadline := None, activeConnection := None)
  }

  function TimedOut(row: SessionRow): SessionRow {
    row.(status := Terminated, timeoutCount := row.timeoutCount + 1,
         reconnectDeadline := None, activeConnection := None)
  }

  predicate CurrentConnection(row: SessionRow, connectionId: string) {
    Live(row.status) && row.activeConnection == Some(connectionId)
  }

  function Dropped(row: SessionRow, elapsedSecs: int, now: Time): SessionRow {
    var count := row.disconnectCount + 1;
    var last := count >= MAX_DISCONNECTS;
    row.(disconnectCount := count,
         status := if last then Terminated else Disconnected,
         elapsedSecs := Max(row.elapsedSecs, Max(0, elapsedSecs)),
         lastDisconnectedAt := Some(now),
         reconnectDeadline := if last then None else Some(now + RECONNECT_WINDOW),
         activeConnection := None)
  }

  function SessionStopped(row: SessionRow): SessionRow {
    row.(status := Terminated, reconnectDeadline := None, activeConnection := None)
  }

  function WithElapsed(row: SessionRow, elapsedSecs: int): SessionRow {
    row.(elapsedSecs := Max(row.elapsedSecs, Max(0, elapsedSecs)))
  }

  function Elapsed(row: SessionRow, elapsedSecs: int, pauseSecs: int): SessionRow {
    WithElapsed(row, elapsedSecs).(pauseSecs := Max(row.pauseSecs, Max(0, pauseSecs)))
  }

  function MarkedInProgress(row: SessionRow): SessionRow {
    row.(status := InProgress, reconnectDeadline := None)
  }

  function MarkedComplete(row: SessionRow, elapsedSecs: int): SessionRow {
    row.(status := Completed, elapsedSecs := Max(0, elapsedSecs),
         reconnectDeadline := None, activeConnection := None)
  }

  function MarkedFailed(row: SessionRow): SessionRow {
    if row.status == Evaluated then row else row.(status := EvaluationFailed)
  }

  function InviteUsed(c: CandidateRow, now: Time): CandidateRow {
    if c.inviteConsumed then c
    else c.(inviteConsumed := true, inviteConsumedAt := Coalesce(c.inviteConsumedAt, now))
  }

  function Ended(c: CandidateRow, status: CandidateStatus, now: Time): CandidateRow {
    c.(status := status, endedAt := Coalesce(c.endedAt, now))
  }

  function TimerStarted(c: CandidateRow, now: Time): CandidateRow {
    c.(status := Interviewing, startedAt := Coalesce(c.startedAt, now))
  }

  // ------------------------------------------------------------------- service calls

  function Text(o: Option<string>): string { if o.Some? then o.value else "" }

  function GetOrCreate(s: State): (r: State)
    ensures r.session.Some?
  {
    if s.session.None? then s.(session := Some(NEW_SESSION)) else s
  }

  function WithRow(s: State, row: SessionRow): State { s.(session := Some(row)) }

  function Logged(s: State, name: EventName, disconnectCount: nat, timeoutCount: nat): State {
    s.(log := s.log + [Event(name, disconnectCount, timeoutCount)])
  }

  function Refused(s: State, reason: Rejection): Result {
    Result(Logged(s, InviteLinkRejected, 0, 0), Rejected(reason))
  }

  predicate WindowClosed(t: Terms, c: CandidateRow, now: Time) {
    t.windowEnd.Some? && t.windowEnd.value <= now && c.startedAt.None?
  }

  function TokenExpiry(t: Terms, now: Time): Time {
    var minimum := now + (Max(1, t.durationMins) + 60) * MINUTE;
    if t.windowEnd.Some? then Max(minimum, t.windowEnd.value + 60 * MINUTE) else minimum
  }

  function BootstrapReply(row: SessionRow, c: CandidateRow, reissued: bool): Reply
    requires row.tokenExpiresAt.Some?
  {
    Bootstrap(Text(row.token), row.tokenExpiresAt.value, row.status, reissued, c.startedAt.Some?,
              row.reconnectDeadline, row.disconnectCount)
  }

  /** The session row after entry: existing credentials are kept. */
  function Credentialed(t: Terms, row: SessionRow, secret: string, now: Time): SessionRow {
    if Text(row.token) == "" then WithCredentials(row, secret, TokenExpiry(t, now)) else row
  }

  /** `enter_with_invitation`. An unknown invitation is refused in the name of no enrollment, and a
      missing token expiry rolls the transaction back, so neither leaves a trace in these rows and
      this log; the other refusals commit a log entry. */
  function Enter(t: Terms, s: State, invitation: string, secret: string, now: Time): Result {
    if invitation != t.invitation then Result(s, Rejected(InvalidInvitation))
    else
      var present := GetOrCreate(s);
      var row, c := present.session.value, s.candidate;
      if WindowClosed(t, c, now) then Refused(present, SessionExpired)
      else if TerminalSession(row.status) || TerminalCandidate(c.status) then Refused(present, SessionClosed)
      else if c.inviteConsumed && row.tokenExpiresAt.Some? && row.tokenExpiresAt.value <= now
      then Refused(present, SessionExpired)
      else
        var credentialed := Credentialed(t, row, secret, now);
        if credentialed.tokenExpiresAt.None? then Result(s, Rejected(TokenExpiryMissing))
        else
          var entered := State(Some(credentialed), InviteUsed(c, now), s.log);
          Result(Logged(entered, if c.inviteConsumed then SessionTokenReissued else InviteLinkConsumed, 0, 0),
                 BootstrapReply(credentialed, c, c.inviteConsumed))
  }

  /** `_validate_active_token` on the row the token selects. */
  function TokenProblem(t: Terms, s: State, token: string, now: Time): Option<Rejection> {
    if s.session.None? || s.session.value.token != Some(token) then Some(InvalidSessionToken)
    else
      var row := s.session.value;
      if row.tokenExpiresAt.None? || row.tokenExpiresAt.value <= now then Some(SessionExpired)
      else if WindowClosed(t, s.candidate, now) then Some(SessionExpired)
      else if TerminalSession(row.status) || TerminalCandidate(s.candidate.status) then Some(SessionClosed)
      else None
  }

  function SessionContext(t: Terms, s: State, token: string, now: Time): Reply {
    var problem := TokenProblem(t, s, token, now);
    if problem.Some? then Rejected(problem.value)
    else BootstrapReply(s.session.value, s.candidate, false)
  }

  function AuthorizeDemo(t: Terms, s: State, token: string, now: Time): Reply {
    var problem := TokenProblem(t, s, token, now);
    if problem.Some? then Rejected(problem.value)
    else if s.session.value.status == Disconnected then Rejected(DemoForbidden)
    else DemoAllowed
  }

  predicate WindowMissed(row: SessionRow, now: Time) {
    row.reconnectDeadline.None? || row.reconnectDeadline.value < now
  }

  function TimeoutState(s: State, row: SessionRow, now: Time): State {
    var late := TimedOut(row);
    var stopped := State(Some(late), Ended(s.candidate, Stopped, now), s.log);
    Logged(Logged(stopped, SessionDisconnectTimeoutRecorded, 0, late.timeoutCount),
           SessionTerminatedReconnectTimeout, late.disconnectCount, late.timeoutCount)
  }

  function RestoredState(s: State, row: SessionRow, now: Time): State {
    Logged(State(Some(Restored(row, now)), s.candidate.(status := Interviewing), s.log),
           SessionReconnected, row.disconnectCount, row.timeoutCount)
  }

  /** The connection generation handed out: an interview in progress gets a new one, otherwise
      the one held before the call is reused if there is one. */
  function Generation(row: SessionRow, newId: string): string {
    if row.status == InProgress || Text(row.activeConnection) == "" then newId else Text(row.activeConnection)
  }

  /** `authorize_interview_connection`; `newId` is the uuid it would generate. */
  function Authorize(t: Terms, s: State, token: string, newId: string, now: Time): Result {
    var problem := TokenProblem(t, s, token, now);
    if problem.Some? then Result(s, Rejected(problem.value))
    else
      var row := s.session.value;
      if row.status == Disconnected && WindowMissed(row, now)
      then Result(TimeoutState(s, row, now), Rejected(ReconnectTimeout))
      else
        var ready := if row.status == Disconnected then RestoredState(s, row, now) else s;
        var connectionId := Generation(row, newId);
        Result(WithRow(ready, Bound(ready.session.value, connectionId)),
               Connected(connectionId, Max(0, row.elapsedSecs), s.candidate.startedAt.Some?,
                         TabSwitchCount(row.violations)))
  }

  /** `record_disconnect`: one drop of the current connection; anything else is ignored. */
  function Disconnect(s: State, connectionId: string, elapsedSecs: int, now: Time): Result {
    if s.session.None? || !CurrentConnection(s.session.value, connectionId) then Result(s, DisconnectIgnored)
    else
      var row := Dropped(s.session.value, elapsedSecs, now);
      var candidate := if row.status == Terminated then Ended(s.candidate, Stopped, now) else s.candidate;
      Result(if row.status == Terminated
             then Logged(State(Some(row), candidate, s.log), SessionTerminatedMaxDisconnects, row.disconnectCount, 0)
             else Logged(State(Some(row), candidate, s.log), SessionDisconnected, row.disconnectCount, row.timeoutCount),
             DisconnectRecorded(row.status))
  }

  /** Store a new violation list, terminating both rows if it crossed a threshold. */
  function Proctored(s: State, row: SessionRow, violations: seq<Violation>, terminated: bool, now: Time): State {
    var stored := row.(violations := violations);
    if terminated then State(Some(SessionStopped(stored)), Ended(s.candidate, Stopped, now), s.log)
    else WithRow(s, stored)
  }

  /** `record_tab_switch`. */
  function TabSwitched(t: Terms, s: State, connectionId: string, enrollmentId: string, eventId: string,
                       occurredAt: string, now: Time): Result {
    if s.session.None? then Result(s, Rejected(SessionNotFound))
    else if enrollmentId != t.enrollmentId then Result(s, Rejected(InvalidAppend))
    else
      var row := s.session.value;
      if !CurrentConnection(row, connectionId)
      then Result(s, TabReply(false, false, TabSwitchCount(row.violations), row.status == Terminated))
      else
        var o := TabStep(row.violations, |row.transcript|, eventId, occurredAt);
        Result(if o.recorded then Proctored(s, row, o.violations, o.terminated, now) else s,
               TabReply(o.appended, o.recorded, o.count, o.terminated))
  }

  function IgnoredFaceReply(row: SessionRow, kind: Kind): Reply {
    var declared := PositiveInt(FirstMetadata(row.violations, kind).occurrenceCount);
    FaceReply(false, false, if declared > 0 then declared else |OfKind(row.violations, kind)|,
              row.status == Terminated)
  }

  /** `record_proctoring_event`. */
  function FaceReported(t: Terms, s: State, connectionId: string, enrollmentId: string, p: Packet,
                        recordedAt: string, now: Time): Result {
    if s.session.None? then Result(s, Rejected(SessionNotFound))
    else if enrollmentId != t.enrollmentId || !Qualified(p) then Result(s, Rejected(InvalidAppend))
    else
      var row := s.session.value;
      if !CurrentConnection(row, connectionId) then Result(s, IgnoredFaceReply(row, p.kind))
      else
        var o := FaceStep(row.violations, |row.transcript|, p, recordedAt);
        Result(if o.recorded then Proctored(s, row, o.violations, o.terminated, now) else s,
               FaceReply(o.appended, o.recorded, o.occurrenceCount, o.terminated))
  }

  predicate KnownTurn(transcript: seq<Turn>, turnId: string) {
    exists i :: 0 <= i < |transcript| && transcript[i].turnId == turnId
  }

  /** `append_transcript_turn`. */
  function TurnAppended(s: State, turn: Turn, elapsedSecs: Option<int>): Result {
    if s.session.None? then Result(s, Rejected(SessionNotFound))
    else if turn.turnId == "" then Result(s, Rejected(InvalidAppend))
    else
      var row := s.session.value;
      var known := KnownTurn(row.transcript, turn.turnId);
      var kept := if known then row else row.(transcript := row.transcript + [turn]);
      Result(WithRow(s, if elapsedSecs.Some? then WithElapsed(kept, elapsedSecs.value) else kept),
             AppendReply(!known))
  }

  /** `append_violation`. */
  function ViolationAppended(s: State, v: Violation): Result {
    if s.session.None? then Result(s, Rejected(SessionNotFound))
    else
      match AppendViolation(s.session.value.violations, v)
      case NotAppendable => Result(s, Rejected(InvalidAppend))
      case Appended(items, added) => Result(WithRow(s, s.session.value.(violations := items)), AppendReply(added))
  }

  // ------------------------------------------------------------------ one atomic step

  datatype Step =
    | EnterStep(invitation: string, secret: string)
    | ContextStep(token: string)
    | AuthorizeStep(token: string, newId: string)
    | DemoStep(token: string)
    | DisconnectStep(connectionId: string, elapsedSecs: int)
    | TabSwitchStep(connectionId: string, enrollmentId: string, eventId: string, occurredAt: string)
    | FacePacketStep(connectionId: string, enrollmentId: string, packet: Packet, recordedAt: string)
    // The interview engine's own writes; most of them check nothing.
    | InitializeStep
    | MarkInProgressStep
    | CompleteStep(elapsedSecs: int)
    | TimerStartedStep
    | CandidateStartedStep
    | CandidateCompletedStep
    | EvaluationFailedStep
    | SaveEvaluationStep
    | TurnStep(turn: Turn, totalElapsedSecs: Option<int>)
    | ViolationStep(violation: Violation)
    | ElapsedStep(elapsedSecs: int)

  /** Steps a candidate's browser causes, all of which check the rows before writing. */
  predicate CandidateFacing(step: Step) {
    || step.EnterStep? || step.ContextStep? || step.AuthorizeStep? || step.DemoStep?
    || step.DisconnectStep? || step.TabSwitchStep? || step.FacePacketStep?
  }

  /** Write the session row if there is one; an UPDATE without a row changes nothing. */
  function Stored(s: State, row: SessionRow): Result {
    Result(if s.session.Some? then WithRow(s, row) else s, Done)
  }

  /** The session row; a missing session counts as a new one. */
  function RowOf(s: State): SessionRow { if s.session.Some? then s.session.value else NEW_SESSION }

  function Initialized(s: State): State {
    State(Some(MarkedInProgress(RowOf(s))), s.candidate.(status := Interviewing), s.log)
  }

  function EvaluationSaved(s: State, now: Time): Result {
    if s.session.None? then Result(s, Rejected(SessionNotFound))
    else Result(State(Some(s.session.value.(status := Evaluated)), Ended(s.candidate, Scored, now), s.log), Done)
  }

  function Apply(t: Terms, s: State, now: Time, step: Step): Result {
    match step
    case EnterStep(invitation, secret) => Enter(t, s, invitation, secret, now)
    case ContextStep(token) => Result(s, SessionContext(t, s, token, now))
    case AuthorizeStep(token, newId) => Authorize(t, s, token, newId, now)
    case DemoStep(token) => Result(s, AuthorizeDemo(t, s, token, now))
    case DisconnectStep(connectionId, elapsedSecs) => Disconnect(s, connectionId, elapsedSecs, now)
    case TabSwitchStep(connectionId, enrollmentId, eventId, occurredAt) =>
      TabSwitched(t, s, connectionId, enrollmentId, eventId, occurredAt, now)
    case FacePacketStep(connectionId, enrollmentId, packet, recordedAt) =>
      FaceReported(t, s, connectionId, enrollmentId, packet, recordedAt, now)
    case InitializeStep => Result(Initialized(s), Done)
    case MarkInProgressStep => Stored(s, MarkedInProgress(RowOf(s)))
    case CompleteStep(elapsedSecs) => Stored(s, MarkedComplete(RowOf(s), elapsedSecs))
    case TimerStartedStep => Result(s.(candidate := TimerStarted(s.candidate, now)), Done)
    case CandidateStartedStep => Result(s.(candidate := s.candidate.(status := Interviewing)), Done)
    case CandidateCompletedStep => Result(s.(candidate := Ended(s.candidate, Finished, now)), Done)
    case EvaluationFailedStep => Stored(s, MarkedFailed(RowOf(s)))
    case SaveEvaluationStep => EvaluationSaved(s, now)
    case TurnStep(turn, totalElapsedSecs) => TurnAppended(s, turn, totalElapsedSecs)
    case ViolationStep(violation) => ViolationAppended(s, violation)
    case ElapsedStep(elapsedSecs) => Stored(s, Elapsed(RowOf(s), elapsedSecs, 0))
  }
}
