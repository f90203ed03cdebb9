// What every operation on a session answers and leaves behind, in terms of the rows alone: the
// statements write out statuses, bounds and thresholds instead of naming the functions that
// compute them.
module SessionOutcomes {
  import opened Prelude
  import opened ViolationRecords
  import TabSwitchLog
  import FaceLog
  import opened Lifecycle
  import opened LifecycleRuns

  const FIVE_MINUTES: Time := 300_000_000
  const ONE_HOUR: Time := 3_600_000_000

  // -------------------------------------------------------------- who is let in, and when

  /** Neither row has reached a final status. */
  predicate BothOpen(s: State) {
    && RowOf(s).status !in {Completed, Evaluated, EvaluationFailed, Deactivated, Terminated}
    && s.candidate.status !in {Finished, Scored, CandidateStatus.Stopped}
  }

  /** The assessment's window has not ended, or the interview began before it did. */
  predicate InTime(t: Terms, s: State, now: Time) {
    s.candidate.startedAt.Some? || t.windowEnd.None? || now < t.windowEnd.value
  }

  predicate Unexpired(s: State, now: Time) {
    RowOf(s).tokenExpiresAt.Some? && now < RowOf(s).tokenExpiresAt.value
  }

  predicate Owns(s: State, token: string) { s.session.Some? && s.session.value.token == Some(token) }

  predicate Valid(t: Terms, s: State, token: string, now: Time) {
    Owns(s, token) && Unexpired(s, now) && InTime(t, s, now) && BothOpen(s)
  }

  /** In every reachable world a token opens the session context exactly if it is the row's own,
      unexpired and in time, and both rows are open; the demo exactly if moreover the session is not
      disconnected; and a connection exactly if a disconnected session is within five minutes of its
      disconnect. */
  lemma TokenIsChecked(t: Terms, w: World, now: Time, token: string, newId: string)
    requires Invariant(w) && Enabled(w, now, AuthorizeStep(token, newId))
    ensures SessionContext(t, w.state, token, now).Bootstrap? <==> Valid(t, w.state, token, now)
    ensures AuthorizeDemo(t, w.state, token, now) == DemoAllowed
            <==> Valid(t, w.state, token, now) && RowOf(w.state).status != Disconnected
    ensures var row := RowOf(w.state);
            Authorize(t, w.state, token, newId, now).reply.Connected?
            <==> && Valid(t, w.state, token, now)
                 && (row.status == Disconnected ==>
                       row.lastDisconnectedAt.Some? && now <= row.lastDisconnectedAt.value + FIVE_MINUTES)
  {
  }

  /** Each failing guard has its own reason, the same for all three calls, and a refused token
      changes nothing. */
  lemma TokenRefusals(t: Terms, w: World, now: Time, token: string, newId: string)
    requires Invariant(w) && Enabled(w, now, AuthorizeStep(token, newId)) && !Valid(t, w.state, token, now)
    ensures var s := w.state;
            var reason := if !Owns(s, token) then InvalidSessionToken
                          else if !Unexpired(s, now) || !InTime(t, s, now) then SessionExpired
                          else SessionClosed;
            && SessionContext(t, s, token, now) == Rejected(reason)
            && AuthorizeDemo(t, s, token, now) == Rejected(reason)
            && Authorize(t, s, token, newId, now) == Result(s, Rejected(reason))
  {
  }

  /** The reasons that a valid token can still be refused for. */
  lemma ValidTokenRefusals(t: Terms, w: World, now: Time, token: string, newId: string)
    requires Invariant(w) && Enabled(w, now, AuthorizeStep(token, newId)) && Valid(t, w.state, token, now)
    requires RowOf(w.state).status == Disconnected
    ensures AuthorizeDemo(t, w.state, token, now) == Rejected(DemoForbidden)
    ensures var r := Authorize(t, w.state, token, newId, now).reply; r.Connected? || r == Rejected(ReconnectTimeout)
  {
  }

  /** The context tells what the rows hold. */
  lemma ContextTells(t: Terms, w: World, now: Time, token: string)
    requires Invariant(w) && Valid(t, w.state, token, now)
    ensures var row := RowOf(w.state);
            SessionContext(t, w.state, token, now)
            == Bootstrap(token, row.tokenExpiresAt.value, row.status, false, w.state.candidate.startedAt.Some?,
                         row.reconnectDeadline, row.disconnectCount)
  {
  }

  // ---------------------------------------------------------------------------- entry

  /** The least expiry that leaves the interview plus an hour from now, and an hour past the end of
      the window. */
  predicate FirstExpiry(t: Terms, now: Time, e: Time) {
    var interview := now + Max(1, t.durationMins) * MINUTE + ONE_HOUR;
    && e >= interview
    && (t.windowEnd.Some? ==> e >= t.windowEnd.value + ONE_HOUR)
    && (e == interview || (t.windowEnd.Some? && e == t.windowEnd.value + ONE_HOUR))
  }

  /** The reason why the invitation is refused, and what a refusal leaves: an unknown invitation
      nothing, any other a session row and one log entry. */
  lemma EntryRefusals(t: Terms, w: World, now: Time, invitation: string, secret: string)
    requires Invariant(w) && Enabled(w, now, EnterStep(invitation, secret))
    ensures var s, r := w.state, Enter(t, w.state, invitation, secret, now);
            && (invitation != t.invitation ==> r == Result(s, Rejected(InvalidInvitation)))
            && (invitation == t.invitation
                && !(InTime(t, s, now) && BothOpen(s) && (RowOf(s).token.Some? ==> Unexpired(s, now)))
                ==> r == Result(State(Some(RowOf(s)), s.candidate, s.log + [Event(InviteLinkRejected, 0, 0)]),
                                Rejected(if InTime(t, s, now) && !BothOpen(s) then SessionClosed else SessionExpired)))
  {
  }

  /** A successful entry: existing credentials are returned as they are, new ones get the least
      sufficient expiry; the invitation is consumed, its first time kept; one entry is logged; and
      nothing else changes. */
  lemma EntryOutcome(t: Terms, w: World, now: Time, secret: string)
    requires Invariant(w) && Enabled(w, now, EnterStep(t.invitation, secret))
    requires var s := w.state; InTime(t, s, now) && BothOpen(s) && (RowOf(s).token.Some? ==> Unexpired(s, now))
    ensures var s, r := w.state, Enter(t, w.state, t.invitation, secret, now);
            var a, b, c, d := RowOf(s), RowOf(r.state), s.candidate, r.state.candidate;
            && r.state.session.Some?
            && b == a.(token := b.token, tokenExpiresAt := b.tokenExpiresAt)
            && (if a.token.Some? then b == a
                else b.token == Some(secret) && b.tokenExpiresAt.Some? && FirstExpiry(t, now, b.tokenExpiresAt.value))
            && b.token.Some? && b.tokenExpiresAt.Some?
            && d == c.(inviteConsumed := true, inviteConsumedAt := d.inviteConsumedAt)
            && (c.inviteConsumed ==> d == c)
            && (!c.inviteConsumed ==>
                  d.inviteConsumedAt == if c.inviteConsumedAt.Some? then c.inviteConsumedAt else Some(now))
            && r.state.log == s.log + [Event(if a.token.Some? then SessionTokenReissued else InviteLinkConsumed, 0, 0)]
            && r.reply == Bootstrap(b.token.value, b.tokenExpiresAt.value, a.status, a.token.Some?, c.startedAt.Some?,
                                    a.reconnectDeadline, a.disconnectCount)
  {
  }

  // ----------------------------------------------------------------- connecting, dropping

  predicate Stopped(c: CandidateRow, d: CandidateRow, now: Time) {
    d == c.(status := CandidateStatus.Stopped, endedAt := if c.endedAt.Some? then c.endedAt else Some(now))
  }

  /** A connection to a session that is not disconnected: a new one if the interview is in progress
      or none is held, otherwise the one held; only the row's active connection changes. */
  lemma ConnectionOutcome(t: Terms, w: World, now: Time, token: string, newId: string)
    requires Invariant(w) && Enabled(w, now, AuthorizeStep(token, newId)) && Valid(t, w.state, token, now)
    requires RowOf(w.state).status != Disconnected
    ensures var s, r := w.state, Authorize(t, w.state, token, newId, now);
            var a := RowOf(s);
            var id := if a.status == InProgress || a.activeConnection in {None, Some("")} then newId
                      else a.activeConnection.value;
            && r.state == State(Some(a.(activeConnection := Some(id))), s.candidate, s.log)
            && r.reply == Connected(id, Max(0, a.elapsedSecs), s.candidate.startedAt.Some?,
                                    TabSwitchLog.TabSwitchCount(a.violations))
  {
  }

  /** A return within five minutes of the disconnect, and a later one. */
  lemma ReturnOutcome(t: Terms, w: World, now: Time, token: string, newId: string)
    requires Invariant(w) && Enabled(w, now, AuthorizeStep(token, newId)) && Valid(t, w.state, token, now)
    requires RowOf(w.state).status == Disconnected
    ensures var s, r := w.state, Authorize(t, w.state, token, newId, now);
            var a, b := RowOf(s), RowOf(r.state);
            if r.reply.Connected?
            then && b == a.(status := InProgress, pauseSecs := b.pauseSecs, reconnectDeadline := None,
                            activeConnection := Some(newId))
                 && r.state.candidate == s.candidate.(status := Interviewing)
                 && r.state.log == s.log + [Event(SessionReconnected, a.disconnectCount, a.timeoutCount)]
            else && b == a.(status := Terminated, timeoutCount := a.timeoutCount + 1, reconnectDeadline := None)
                 && Stopped(s.candidate, r.state.candidate, now)
                 && r.state.log == s.log + [Event(SessionDisconnectTimeoutRecorded, 0, a.timeoutCount + 1)]
                                         + [Event(SessionTerminatedReconnectTimeout, a.disconnectCount, a.timeoutCount + 1)]
  {
  }

  /** The connection is the current one of a session that can be served. */
  predicate Current(s: State, connectionId: string) {
    && s.session.Some? && s.session.value.status in {Initializing, InProgress}
    && s.session.value.activeConnection == Some(connectionId)
  }

  /** A disconnect of the current connection counts, takes over a larger elapsed time, and opens a
      five-minute window, or at the third ends the interview; any other is ignored. */
  lemma DropOutcome(s: State, now: Time, connectionId: string, elapsedSecs: int)
    ensures var r, a := Disconnect(s, connectionId, elapsedSecs, now), RowOf(s);
            if !Current(s, connectionId) then r == Result(s, DisconnectIgnored)
            else
              var b, n := RowOf(r.state), a.disconnectCount + 1;
              && r.state.session.Some? && r.reply == DisconnectRecorded(b.status)
              && b == a.(disconnectCount := n, status := b.status, elapsedSecs := b.elapsedSecs,
                         lastDisconnectedAt := Some(now), reconnectDeadline := b.reconnectDeadline,
                         activeConnection := None)
              && b.elapsedSecs == Max(a.elapsedSecs, Max(0, elapsedSecs))
              && (if n < 3
                  then && b.status == Disconnected && b.reconnectDeadline == Some(now + FIVE_MINUTES)
                       && r.state.candidate == s.candidate
                       && r.state.log == s.log + [Event(SessionDisconnected, n, a.timeoutCount)]
                  else && b.status == Terminated && b.reconnectDeadline.None?
                       && Stopped(s.candidate, r.state.candidate, now)
                       && r.state.log == s.log + [Event(SessionTerminatedMaxDisconnects, n, 0)])
  {
  }

  // ------------------------------------------------------------------- proctoring messages

  /** What ends with an accepted proctoring message: everything, or nothing but the list. */
  predicate Proctoring(s: State, r: State, ended: bool, now: Time) {
    && s.session.Some? && r.session.Some? && r.log == s.log
    && var a, b := s.session.value, r.session.value;
       if ended
       then && b == a.(status := Terminated, reconnectDeadline := None, activeConnection := None,
                       violations := b.violations)
            && Stopped(s.candidate, r.candidate, now)
       else b == a.(violations := b.violations) && r.candidate == s.candidate
  }

  /** A tab switch of the current connection: a known one changes nothing; a new one raises the
      count that is reported, and ends the interview if that makes five or more. */
  lemma TabSwitchOutcome(t: Terms, s: State, now: Time, connectionId: string, eventId: string, at: string)
    requires Current(s, connectionId) && eventId != ""
    ensures var vs := RowOf(s).violations;
            var r := TabSwitched(t, s, connectionId, t.enrollmentId, eventId, at, now);
            var count := TabSwitchLog.TabSwitchCount(vs);
            if eventId in TabSwitchLog.TabEventIds(vs) then r == Result(s, TabReply(false, false, count, false))
            else && Proctoring(s, r.state, count + 1 >= 5, now)
                 && TabSwitchLog.TabSwitchCount(RowOf(r.state).violations) == count + 1
                 && r.reply == TabReply(OfKind(vs, TabSwitch) == [], true, count + 1, count + 1 >= 5)
  {
    if eventId !in TabSwitchLog.TabEventIds(RowOf(s).violations) {
      TabSwitchLog.AcceptedTabSwitch(RowOf(s).violations, |RowOf(s).transcript|, eventId, at, TabSwitch);
    }
  }

  /** The number of episodes a face type is reported to have when nothing is stored: what its first
      record declares, if that is positive, or the number of its records. */
  function Reported(vs: seq<Violation>, kind: Kind): int {
    var records := OfKind(vs, kind);
    if records != [] && records[0].Record? && records[0].metadata.occurrenceCount.Some?
       && records[0].metadata.occurrenceCount.value > 0
    then records[0].metadata.occurrenceCount.value else |records|
  }

  /** Proctoring messages of an unknown session or for another enrollment are refused, those of any
      connection but the current one are answered with what is stored; neither changes anything. */
  lemma UnservedMessages(t: Terms, s: State, now: Time, connectionId: string, enrollmentId: string,
                         eventId: string, p: FaceLog.Packet, at: string)
    ensures var tab := TabSwitched(t, s, connectionId, enrollmentId, eventId, at, now);
            var face := FaceReported(t, s, connectionId, enrollmentId, p, at, now);
            && (s.session.None? ==> tab == Result(s, Rejected(SessionNotFound)) && face == tab)
            && (s.session.Some? && enrollmentId != t.enrollmentId ==>
                  tab == Result(s, Rejected(InvalidAppend)) && face == tab)
            && (s.session.Some? && enrollmentId == t.enrollmentId && !Current(s, connectionId) ==>
                  && tab == Result(s, TabReply(false, false, TabSwitchLog.TabSwitchCount(RowOf(s).violations),
                                               RowOf(s).status == Terminated))
                  && face.state == s
                  && face.reply == if Plausible(p)
                                   then FaceReply(false, false, Reported(RowOf(s).violations, p.kind),
                                                  RowOf(s).status == Terminated)
                                   else Rejected(InvalidAppend))
  {
  }

  /** The claims a face packet must meet: no face for at least five seconds, or two or more faces,
      not deduced from the camera being off, for at least three; and confidences in order. */
  predicate Plausible(p: FaceLog.Packet) {
    && (|| (p.kind == FaceAbsent && p.stats.durationMs >= 5_000 && p.stats.faces == 0)
        || (p.kind == MultipleFaces && p.stats.durationMs >= 3_000 && p.stats.faces >= 2
            && p.stats.source != "camera_state"))
    && (p.stats.minConfidence.Some? && p.stats.maxConfidence.Some? ==>
          p.stats.minConfidence.value <= p.stats.maxConfidence.value)
  }

  /** A condition that has lasted thirty seconds without a face, or twenty with several. */
  predicate TooLong(p: FaceLog.Packet) {
    match p.kind
    case FaceAbsent => p.stats.durationMs >= 30_000
    case MultipleFaces => p.stats.durationMs >= 20_000
    case _ => false
  }

  lemma ImplausibleIsRefused(t: Terms, s: State, now: Time, connectionId: string, p: FaceLog.Packet, at: string)
    requires s.session.Some? && !Plausible(p)
    ensures FaceReported(t, s, connectionId, t.enrollmentId, p, at, now) == Result(s, Rejected(InvalidAppend))
  {
  }

  /** The packet is new to the list: its event id is, or it reports a longer duration than the
      stored episode of its start. */
  predicate News(vs: seq<Violation>, p: FaceLog.Packet) {
    || p.eventId !in FaceLog.FaceEventIds(vs, p.kind)
    || forall i :: 0 <= i < |FaceLog.Episodes(vs, p.kind)| ==>
         var e := FaceLog.Episodes(vs, p.kind)[i];
         e.startedAt == p.startedAt && (forall k :: 0 <= k < i ==> FaceLog.Episodes(vs, p.kind)[k].startedAt != p.startedAt)
         ==> p.stats.durationMs > e.stats.durationMs
  }

  lemma NewsIsNoDuplicate(vs: seq<Violation>, p: FaceLog.Packet)
    requires p.stats.durationMs > 0
    ensures News(vs, p) <==> !FaceLog.Duplicate(vs, p)
  {
    var episodes := FaceLog.Episodes(vs, p.kind);
    var at := FaceLog.FindEpisode(episodes, p.startedAt);
    if at.Some? {
      assert episodes[at.value].startedAt == p.startedAt;
    }
  }

  lemma PacketStored(t: Terms, s: State, now: Time, connectionId: string, p: FaceLog.Packet, at: string)
    requires Current(s, connectionId) && Plausible(p)
    ensures var row := RowOf(s);
            var o := FaceLog.FaceStep(row.violations, |row.transcript|, p, at);
            var r := FaceReported(t, s, connectionId, t.enrollmentId, p, at, now);
            && r.reply == FaceReply(o.appended, o.recorded, o.occurrenceCount, o.terminated)
            && r.state.session.Some?
            && if o.recorded then RowOf(r.state).violations == o.violations && Proctoring(s, r.state, o.terminated, now)
               else r.state == s
  {
  }

  lemma FaceStepOutcome(vs: seq<Violation>, turns: nat, p: FaceLog.Packet, at: string)
    requires Plausible(p) && p.eventId != ""
    ensures var o := FaceLog.FaceStep(vs, turns, p, at);
            && (o.recorded <==> News(vs, p))
            && (o.recorded ==> && o.terminated == TooLong(p) && o.appended == (OfKind(vs, p.kind) == [])
                               && o.occurrenceCount == |FaceLog.Episodes(o.violations, p.kind)|)
            && (!o.recorded ==> && !o.appended && !o.terminated
                                && o.occurrenceCount == (if FaceLog.Episodes(vs, p.kind) != []
                                                         then |FaceLog.Episodes(vs, p.kind)| else |OfKind(vs, p.kind)|))
  {
    NewsIsNoDuplicate(vs, p);
    if News(vs, p) {
      FaceLog.AcceptedFacePacket(vs, turns, p, at, p.kind);
    }
  }

  /** A plausible face packet of the current connection: it is stored exactly if it is new to the
      list, answered with the number of episodes, and ends the interview exactly if its own
      condition has lasted too long. */
  lemma FacePacketOutcome(t: Terms, s: State, now: Time, connectionId: string, p: FaceLog.Packet, at: string)
    requires Current(s, connectionId) && Plausible(p) && p.eventId != ""
    ensures var vs := RowOf(s).violations;
            var r := FaceReported(t, s, connectionId, t.enrollmentId, p, at, now);
            && r.reply.FaceReply?
            && (r.reply.recorded <==> News(vs, p))
            && (if r.reply.recorded
                then && Proctoring(s, r.state, TooLong(p), now)
                     && r.reply.terminated == TooLong(p)
                     && r.reply.appended == (OfKind(vs, p.kind) == [])
                     && r.reply.occurrenceCount == |FaceLog.Episodes(RowOf(r.state).violations, p.kind)|
                else && r.state == s && !r.reply.appended && !r.reply.terminated
                     && r.reply.occurrenceCount == (if FaceLog.Episodes(vs, p.kind) != []
                                                    then |FaceLog.Episodes(vs, p.kind)| else |OfKind(vs, p.kind)|))
  {
    PacketStored(t, s, now, connectionId, p, at);
    FaceStepOutcome(RowOf(s).violations, |RowOf(s).transcript|, p, at);
  }

  // ------------------------------------------------------------------------- the engine

  /** A turn is stored once under its identifier, at the end; the elapsed time only grows. */
  lemma TurnOutcome(s: State, turn: Turn, total: Option<int>)
    ensures var r, a := TurnAppended(s, turn, total), RowOf(s);
            if s.session.None? then r == Result(s, Rejected(SessionNotFound))
            else if turn.turnId == "" then r == Result(s, Rejected(InvalidAppend))
            else if exists k :: 0 <= k < |a.transcript| && a.transcript[k].turnId == turn.turnId
            then r == Result(State(Some(WithTotal(a, total)), s.candidate, s.log), AppendReply(false))
            else r == Result(State(Some(WithTotal(a.(transcript := a.transcript + [turn]), total)), s.candidate, s.log),
                             AppendReply(true))
  {
  }

  function WithTotal(a: SessionRow, total: Option<int>): SessionRow {
    if total.None? then a else a.(elapsedSecs := Max(a.elapsedSecs, Max(0, total.value)))
  }

  /** A violation record is stored once under its identifier, at the end. */
  lemma RecordOutcome(s: State, v: Violation)
    requires s.session.Some? && AllRecords(RowOf(s).violations)
    ensures var r, a := ViolationAppended(s, v), RowOf(s);
            if v.Malformed? || v.violationId == "" then r == Result(s, Rejected(InvalidAppend))
            else if HasId(a.violations, v.violationId) then r == Result(s, AppendReply(false))
            else r == Result(State(Some(a.(violations := a.violations + [v])), s.candidate, s.log), AppendReply(true))
  {
    if v.Record? {
      FindIdFinds(RowOf(s).violations, v.violationId);
    }
  }

  /** The engine's writes to the session row, all but the last without looking at it. */
  lemma SessionWrites(t: Terms, s: State, now: Time, step: Step)
    requires s.session.Some?
    ensures var r, a := Apply(t, s, now, step), RowOf(s);
            match step
            case MarkInProgressStep => r.state == s.(session := Some(a.(status := InProgress, reconnectDeadline := None)))
            case CompleteStep(secs) =>
              r.state == s.(session := Some(a.(status := Completed, elapsedSecs := if secs < 0 then 0 else secs,
                                               reconnectDeadline := None, activeConnection := None)))
            case ElapsedStep(secs) =>
              && r.state == s.(session := Some(a.(elapsedSecs := RowOf(r.state).elapsedSecs,
                                                  pauseSecs := RowOf(r.state).pauseSecs)))
              && RowOf(r.state).elapsedSecs == Max(a.elapsedSecs, Max(0, secs))
              && RowOf(r.state).pauseSecs == Max(0, a.pauseSecs)
            case InitializeStep =>
              && r.state.session == Some(a.(status := InProgress, reconnectDeadline := None))
              && r.state.candidate == s.candidate.(status := Interviewing) && r.state.log == s.log
            case SaveEvaluationStep =>
              && r.state.session == Some(a.(status := Evaluated)) && r.state.log == s.log
              && r.state.candidate == s.candidate.(status := Scored, endedAt := r.state.candidate.endedAt)
              && r.state.candidate.endedAt == if s.candidate.endedAt.Some? then s.candidate.endedAt else Some(now)
            case EvaluationFailedStep =>
              r.state == if a.status == Evaluated then s else s.(session := Some(a.(status := EvaluationFailed)))
            case _ => true
  {
  }

  /** The engine's writes to the candidate row: first times are kept. */
  lemma CandidateWrites(t: Terms, s: State, now: Time, step: Step)
    ensures var r, c := Apply(t, s, now, step).state, s.candidate;
            match step
            case CandidateStartedStep => r == s.(candidate := c.(status := Interviewing))
            case TimerStartedStep =>
              r == s.(candidate := c.(status := Interviewing, startedAt := if c.startedAt.Some? then c.startedAt else Some(now)))
            case CandidateCompletedStep =>
              r == s.(candidate := c.(status := Finished, endedAt := if c.endedAt.Some? then c.endedAt else Some(now)))
            case _ => true
  {
  }

  /** Without a session row the engine creates one only when it initialises; its other session
      writes change nothing, and appends and evaluations are refused. */
  lemma WritesWithoutSession(t: Terms, s: State, now: Time, step: Step)
    requires s.session.None?
    ensures var r := Apply(t, s, now, step);
            match step
            case InitializeStep =>
              r.state == State(Some(NEW_SESSION.(status := InProgress)), s.candidate.(status := Interviewing), s.log)
            case MarkInProgressStep => r.state == s
            case CompleteStep(_) => r.state == s
            case ElapsedStep(_) => r.state == s
            case EvaluationFailedStep => r.state == s
            case SaveEvaluationStep => r == Result(s, Rejected(SessionNotFound))
            case ViolationStep(_) => r == Result(s, Rejected(SessionNotFound))
            case _ => true
  {
  }
}
