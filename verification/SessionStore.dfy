// The two rows of an enrollment as mutable objects, and the service methods that drive them.
// Every method is proved to move the rows and the log exactly as the functions of Lifecycle say.
module SessionStore {
  import opened Prelude
  import opened ViolationRecords
  import opened TabSwitchLog
  import opened FaceLog
  import opened Lifecycle

  /** The interview session row. */
  class InterviewSession {
    var status: SessionStatus
    var token: Option<string>
    var tokenExpiresAt: Option<Time>
    var disconnectCount: nat
    var timeoutCount: nat
    var lastDisconnectedAt: Option<Time>
    var reconnectDeadline: Option<Time>
    var activeConnection: Option<string>
    var elapsedSecs: int
    var pauseSecs: int
    var transcript: seq<Turn>
    var violations: seq<Violation>

    function Row(): SessionRow
      reads this
    {
      SessionRow(status, token, tokenExpiresAt, disconnectCount, timeoutCount, lastDisconnectedAt,
                 reconnectDeadline, activeConnection, elapsedSecs, pauseSecs, transcript, violations)
    }

    constructor ()
      ensures Row() == NEW_SESSION
    {
      status, token, tokenExpiresAt, disconnectCount, timeoutCount := Initializing, None, None, 0, 0;
      lastDisconnectedAt, reconnectDeadline, activeConnection := None, None, None;
      elapsedSecs, pauseSecs, transcript, violations := 0, 0, [], [];
    }

    method SetCredentials(secret: string, expiresAt: Time)
      modifies this
      ensures Row() == WithCredentials(old(Row()), secret, expiresAt)
    {
      token, tokenExpiresAt := Some(secret), Some(expiresAt);
    }

    method BindActiveConnection(connectionId: string)
      modifies this
      ensures Row() == Bound(old(Row()), connectionId)
      ensures old(status) !in {Initializing, InProgress} ==> Row() == old(Row())
    {
      if status == Initializing || status == InProgress {
        activeConnection := Some(connectionId);
      }
    }

    method RestoreDisconnected(now: Time)
      requires status == Disconnected
      modifies this
      ensures Row() == Restored(old(Row()), now)
    {
      pauseSecs := pauseSecs + PauseSecs(Row(), now);
      status, reconnectDeadline, activeConnection := InProgress, None, None;
    }

    method TerminateReconnectTimeout()
      requires status == Disconnected
      modifies this
      ensures Row() == TimedOut(old(Row()))
    {
      status, reconnectDeadline, activeConnection := Terminated, None, None;
      timeoutCount := timeoutCount + 1;
    }

    /** The guarded update of `record_disconnect`; `hit` tells whether it matched the row. */
    method RecordDrop(connectionId: string, reportedSecs: int, now: Time) returns (hit: bool)
      modifies this
      ensures hit == CurrentConnection(old(Row()), connectionId)
      ensures Row() == if hit then Dropped(old(Row()), reportedSecs, now) else old(Row())
    {
      hit := (status == Initializing || status == InProgress) && activeConnection == Some(connectionId);
      if hit {
        disconnectCount := disconnectCount + 1;
        elapsedSecs := Max(elapsedSecs, Max(0, reportedSecs));
        lastDisconnectedAt, activeConnection := Some(now), None;
        if disconnectCount >= MAX_DISCONNECTS {
          status, reconnectDeadline := Terminated, None;
        } else {
          status, reconnectDeadline := Disconnected, Some(now + RECONNECT_WINDOW);
        }
      }
    }

    method Stop()
      modifies this
      ensures Row() == SessionStopped(old(Row()))
    {
      status, reconnectDeadline, activeConnection := Terminated, None, None;
    }

    method MarkInProgress()
      modifies this
      ensures Row() == MarkedInProgress(old(Row()))
    {
      status, reconnectDeadline := InProgress, None;
    }

    method Complete(totalElapsedSecs: int)
      modifies this
      ensures Row() == MarkedComplete(old(Row()), totalElapsedSecs)
    {
      status, reconnectDeadline, activeConnection := Completed, None, None;
      elapsedSecs := Max(0, totalElapsedSecs);
    }

    method UpdateElapsed(reportedSecs: int, totalPauseSecs: int)
      modifies this
      ensures Row() == Elapsed(old(Row()), reportedSecs, totalPauseSecs)
    {
      elapsedSecs := Max(elapsedSecs, Max(0, reportedSecs));
      pauseSecs := Max(pauseSecs, Max(0, totalPauseSecs));
    }
  }

  /** The candidate's enrollment row. */
  class CandidateAssessment {
    var status: CandidateStatus
    var inviteConsumed: bool
    var inviteConsumedAt: Option<Time>
    var startedAt: Option<Time>
    var endedAt: Option<Time>

    function Row(): CandidateRow
      reads this
    {
      CandidateRow(status, inviteConsumed, inviteConsumedAt, startedAt, endedAt)
    }

    constructor ()
      ensures Row() == NEW_CANDIDATE
    {
      status, inviteConsumed, inviteConsumedAt, startedAt, endedAt := Invited, false, None, None, None;
    }

    method ConsumeInvitation(now: Time)
      modifies this
      ensures Row() == InviteUsed(old(Row()), now)
    {
      if !inviteConsumed {
        inviteConsumed := true;
        inviteConsumedAt := Coalesce(inviteConsumedAt, now);
      }
    }

    method MarkStarted()
      modifies this
      ensures Row() == old(Row()).(status := Interviewing)
    {
      status := Interviewing;
    }

    method MarkTimerStarted(now: Time)
      modifies this
      ensures Row() == TimerStarted(old(Row()), now)
    {
      status := Interviewing;
      startedAt := Coalesce(startedAt, now);
    }

    method End(final: CandidateStatus, now: Time)
      modifies this
      ensures Row() == Ended(old(Row()), final, now)
    {
      status := final;
      endedAt := Coalesce(endedAt, now);
    }
  }

  /** The service over one enrollment: its candidate row, its session row once one exists, and
      the append-only event log. A call is one transaction under both row locks. */
  class InterviewService {
    const terms: Terms
    const candidate: CandidateAssessment
    var session: InterviewSession?
    var events: seq<Event>

    function Value(): State
      reads this, session, candidate
    {
      State(if session == null then None else Some(session.Row()), candidate.Row(), events)
    }

    constructor (terms: Terms)
      ensures fresh(candidate) && session == null
      ensures this.terms == terms && Value() == State(None, NEW_CANDIDATE, [])
    {
      this.terms := terms;
      candidate := new CandidateAssessment();
      session, events := null, [];
    }

    method Log(name: EventName, disconnectCount: nat, timeoutCount: nat)
      modifies this`events
      ensures Value() == Logged(old(Value()), name, disconnectCount, timeoutCount)
    {
      events := events + [Event(name, disconnectCount, timeoutCount)];
    }

    method GetOrCreateSession() returns (row: InterviewSession)
      modifies this`session
      ensures row == session && (row == old(session) || (old(session) == null && fresh(row)))
      ensures Value() == GetOrCreate(old(Value()))
    {
      if session == null {
        session := new InterviewSession();
      }
      row := session;
    }

    method EnterWithInvitation(invitation: string, secret: string, now: Time) returns (reply: Reply)
      modifies this, session, candidate
      ensures session == old(session) || (old(session) == null && fresh(session))
      ensures Result(Value(), reply) == Enter(terms, old(Value()), invitation, secret, now)
    {
      if invitation != terms.invitation {
        return Rejected(InvalidInvitation);
      }
      // A known token without an expiry raises and rolls the transaction back.
      if session != null && Text(session.token) != "" && session.tokenExpiresAt.None?
         && !WindowClosed(terms, candidate.Row(), now)
         && !TerminalSession(session.status) && !TerminalCandidate(candidate.status) {
        return Rejected(TokenExpiryMissing);
      }
      var row := GetOrCreateSession();
      if WindowClosed(terms, candidate.Row(), now) {
        Log(InviteLinkRejected, 0, 0);
        return Rejected(SessionExpired);
      }
      if TerminalSession(row.status) || TerminalCandidate(candidate.status) {
        Log(InviteLinkRejected, 0, 0);
        return Rejected(SessionClosed);
      }
      if candidate.inviteConsumed && row.tokenExpiresAt.Some? && row.tokenExpiresAt.value <= now {
        Log(InviteLinkRejected, 0, 0);
        return Rejected(SessionExpired);
      }
      var reissued := candidate.inviteConsumed;
      if Text(row.token) == "" {
        row.SetCredentials(secret, TokenExpiry(terms, now));
      }
      reply := BootstrapReply(row.Row(), candidate.Row(), reissued);
      if !reissued {
        candidate.ConsumeInvitation(now);
        Log(InviteLinkConsumed, 0, 0);
      } else {
        Log(SessionTokenReissued, 0, 0);
      }
    }

    method AuthorizeConnection(token: string, newId: string, now: Time) returns (reply: Reply)
      modifies this, session, candidate
      ensures session == old(session)
      ensures Result(Value(), reply) == Authorize(terms, old(Value()), token, newId, now)
    {
      var problem := TokenProblem(terms, Value(), token, now);
      if problem.Some? {
        return Rejected(problem.value);
      }
      var before := session.Row();
      var started, tabs := candidate.startedAt.Some?, TabSwitchCount(session.violations);
      if before.status == Disconnected {
        if WindowMissed(before, now) {
          session.TerminateReconnectTimeout();
          candidate.End(Stopped, now);
          Log(SessionDisconnectTimeoutRecorded, 0, session.timeoutCount);
          Log(SessionTerminatedReconnectTimeout, session.disconnectCount, session.timeoutCount);
          return Rejected(ReconnectTimeout);
        }
        session.RestoreDisconnected(now);
        candidate.MarkStarted();
        Log(SessionReconnected, session.disconnectCount, session.timeoutCount);
      }
      var connectionId := Generation(before, newId);
      session.BindActiveConnection(connectionId);
      reply := Connected(connectionId, Max(0, before.elapsedSecs), started, tabs);
    }

    method RecordDisconnect(connectionId: string, elapsedSecs: int, now: Time) returns (reply: Reply)
      modifies this, session, candidate
      ensures session == old(session)
      ensures Result(Value(), reply) == Disconnect(old(Value()), connectionId, elapsedSecs, now)
    {
      if session == null {
        return DisconnectIgnored;
      }
      var hit := session.RecordDrop(connectionId, elapsedSecs, now);
      if !hit {
        return DisconnectIgnored;
      }
      if session.status == Terminated {
        candidate.End(Stopped, now);
        Log(SessionTerminatedMaxDisconnects, session.disconnectCount, 0);
      } else {
        Log(SessionDisconnected, session.disconnectCount, session.timeoutCount);
      }
      reply := DisconnectRecorded(session.status);
    }

    /** Store a consolidated violation list and, past a threshold, terminate both rows. */
    method StoreViolations(violations: seq<Violation>, terminated: bool, now: Time)
      requires session != null
      modifies session, candidate
      ensures Value() == Proctored(old(Value()), old(session.Row()), violations, terminated, now)
    {
      session.violations := violations;
      if terminated {
        session.Stop();
        candidate.End(Stopped, now);
      }
    }

    method RecordTabSwitch(connectionId: string, enrollmentId: string, eventId: string, occurredAt: string,
                           now: Time) returns (reply: Reply)
      modifies session, candidate
      ensures Result(Value(), reply)
           == TabSwitched(terms, old(Value()), connectionId, enrollmentId, eventId, occurredAt, now)
    {
      if session == null {
        return Rejected(SessionNotFound);
      }
      if enrollmentId != terms.enrollmentId {
        return Rejected(InvalidAppend);
      }
      var current := session.violations;
      var currentCount := TabSwitchCount(current);
      if !CurrentConnection(session.Row(), connectionId) {
        return TabReply(false, false, currentCount, session.status == Terminated);
      }
      var eventIds := CollectEventIds(OfKind(current, TabSwitch));
      if eventId in eventIds {
        return TabReply(false, false, currentCount, false);
      }
      var terminated := currentCount + 1 >= MAX_ALLOWED_TAB_SWITCHES;
      var violations := ReplaceViolationType(current, TabSwitch,
                                             TabRecord(current, |session.transcript|, eventId, occurredAt));
      StoreViolations(violations, terminated, now);
      reply := TabReply(OfKind(current, TabSwitch) == [], true, currentCount + 1, terminated);
    }

    method RecordProctoringEvent(connectionId: string, enrollmentId: string, p: Packet, recordedAt: string,
                                 now: Time) returns (reply: Reply)
      modifies session, candidate
      ensures Result(Value(), reply)
           == FaceReported(terms, old(Value()), connectionId, enrollmentId, p, recordedAt, now)
    {
      if session == null {
        return Rejected(SessionNotFound);
      }
      if enrollmentId != terms.enrollmentId || !Qualified(p) {
        return Rejected(InvalidAppend);
      }
      var current := session.violations;
      var existing := OfKind(current, p.kind);
      if !CurrentConnection(session.Row(), connectionId) {
        return IgnoredFaceReply(session.Row(), p.kind);
      }
      var episodes := LoadFaceEpisodes(existing);
      var eventIds := CollectEventIds(existing);
      var at := FindEpisode(episodes, p.startedAt);
      var previousMs := if at.Some? then episodes[at.value].stats.durationMs else 0;
      if p.eventId in eventIds && p.stats.durationMs <= previousMs {
        return FaceReply(false, false, if episodes != [] then |episodes| else |existing|, false);
      }
      var violations := ReplaceViolationType(current, p.kind, FaceRecord(current, |session.transcript|, p, recordedAt));
      StoreViolations(violations, Terminates(p), now);
      reply := FaceReply(existing == [], true, |MergedEpisodes(episodes, p, recordedAt)|, Terminates(p));
    }

    method AppendTranscriptTurn(turn: Turn, totalElapsedSecs: Option<int>) returns (reply: Reply)
      modifies session
      ensures Result(Value(), reply) == TurnAppended(old(Value()), turn, totalElapsedSecs)
    {
      if session == null {
        return Rejected(SessionNotFound);
      }
      if turn.turnId == "" {
        return Rejected(InvalidAppend);
      }
      var known := KnownTurn(session.transcript, turn.turnId);
      if !known {
        session.transcript := session.transcript + [turn];
      }
      if totalElapsedSecs.Some? {
        session.elapsedSecs := Max(session.elapsedSecs, Max(0, totalElapsedSecs.value));
      }
      reply := AppendReply(!known);
    }

    method AppendViolationRecord(v: Violation) returns (reply: Reply)
      modifies session
      ensures Result(Value(), reply) == ViolationAppended(old(Value()), v)
    {
      if session == null {
        return Rejected(SessionNotFound);
      }
      var outcome := AppendViolation(session.violations, v);
      if outcome.NotAppendable? {
        return Rejected(InvalidAppend);
      }
      session.violations := outcome.items;
      reply := AppendReply(outcome.added);
    }

    method InitializeContext()
      modifies this, session, candidate
      ensures session == old(session) || (old(session) == null && fresh(session))
      ensures Value() == Initialized(old(Value()))
    {
      var row := GetOrCreateSession();
      row.MarkInProgress();
      candidate.MarkStarted();
    }

    method SaveFinalEvaluation(now: Time) returns (reply: Reply)
      modifies session, candidate
      ensures Result(Value(), reply) == EvaluationSaved(old(Value()), now)
    {
      if session == null {
        return Rejected(SessionNotFound);
      }
      session.status := Evaluated;
      candidate.End(Scored, now);
      reply := Done;
    }

    method MarkEvaluationFailed()
      modifies session
      ensures Result(Value(), Done) == Stored(old(Value()), MarkedFailed(RowOf(old(Value()))))
    {
      if session != null && session.status != Evaluated {
        session.status := EvaluationFailed;
      }
    }

    /** Any candidate-facing operation, as one atomic step of the protocol. */
    method Serve(step: Step, now: Time) returns (reply: Reply)
      requires CandidateFacing(step)
      modifies this, session, candidate
      ensures session == old(session) || (old(session) == null && fresh(session))
      ensures Result(Value(), reply) == Apply(terms, old(Value()), now, step)
    {
      match step
      case EnterStep(invitation, secret) => reply := EnterWithInvitation(invitation, secret, now);
      case ContextStep(token) => reply := SessionContext(terms, Value(), token, now);
      case AuthorizeStep(token, newId) => reply := AuthorizeConnection(token, newId, now);
      case DemoStep(token) => reply := AuthorizeDemo(terms, Value(), token, now);
      case DisconnectStep(connectionId, elapsedSecs) => reply := RecordDisconnect(connectionId, elapsedSecs, now);
      case TabSwitchStep(connectionId, enrollmentId, eventId, occurredAt) =>
        reply := RecordTabSwitch(connectionId, enrollmentId, eventId, occurredAt, now);
      case FacePacketStep(connectionId, enrollmentId, packet, recordedAt) =>
        reply := RecordProctoringEvent(connectionId, enrollmentId, packet, recordedAt, now);
    }

    /** Any write of the interview engine, as one atomic step of the protocol. */
    method Record(step: Step, now: Time) returns (reply: Reply)
      requires !CandidateFacing(step)
      modifies this, session, candidate
      ensures session == old(session) || (old(session) == null && fresh(session))
      ensures Result(Value(), reply) == Apply(terms, old(Value()), now, step)
    {
      reply := Done;
      match step
      case InitializeStep => InitializeContext();
      case MarkInProgressStep => if session != null { session.MarkInProgress(); }
      case CompleteStep(elapsedSecs) => if session != null { session.Complete(elapsedSecs); }
      case TimerStartedStep => candidate.MarkTimerStarted(now);
      case CandidateStartedStep => candidate.MarkStarted();
      case CandidateCompletedStep => candidate.End(Finished, now);
      case EvaluationFailedStep => MarkEvaluationFailed();
      case SaveEvaluationStep => reply := SaveFinalEvaluation(now);
      case TurnStep(turn, totalElapsedSecs) => reply := AppendTranscriptTurn(turn, totalElapsedSecs);
      case ViolationStep(violation) => reply := AppendViolationRecord(violation);
      case ElapsedStep(elapsedSecs) => if session != null { session.UpdateElapsed(elapsedSecs, 0); }
    }
  }
}
