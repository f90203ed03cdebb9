// What the lifecycle invariant is worth: theorems about every run of the protocol.
module LifecycleTheorems {
  import opened Prelude
  import opened Lifecycle
  import opened LifecycleRuns

  // --------------------------------------------------------- state of any reachable row

  /** The declared check constraints, and what ties an active connection, a deadline and a
      disconnect count to the status, hold at every moment of every run. */
  lemma StructureHolds(t: Terms, ws: seq<World>, xs: seq<Timed>, i: nat)
    requires IsRun(t, ws, xs) && i < |ws| && ws[i].state.session.Some?
    ensures var row := ws[i].state.session.value;
            && (row.activeConnection.Some? ==> row.status !in {Disconnected, Completed, Terminated})
            && (row.status in {Initializing, InProgress, Completed, Terminated} ==> row.reconnectDeadline.None?)
            && (row.status == Disconnected ==> row.reconnectDeadline.Some? && 1 <= row.disconnectCount <= 2)
            && (row.token.Some? <==> row.tokenExpiresAt.Some?)
            && (row.token.Some? <==> ws[i].state.candidate.inviteConsumed)
  {
    RunInvariant(t, ws, xs, i);
  }

  /** Disconnect accounting and the pause bound: at most two reconnection windows are ever used,
      every accepted disconnect came from a different connection, and the interview never pauses
      for more than ten minutes in all. */
  lemma DisconnectsAreBounded(t: Terms, ws: seq<World>, xs: seq<Timed>, i: nat)
    requires IsRun(t, ws, xs) && i < |ws|
    ensures var w, row := ws[i], RowOf(ws[i].state);
            && w.restores + row.timeoutCount + (if row.status == Disconnected then 1 else 0) <= Min(2, row.disconnectCount)
            && Distinct(w.drops) && |w.drops| == row.disconnectCount
            && 0 <= row.pauseSecs <= 600
  {
    RunInvariant(t, ws, xs, i);
  }

  /** The event log is a faithful history of the rows: the disconnect events are numbered 1, 2, ...
      up to the disconnect count, every timeout left its pair of events, every restore one event,
      and the invitation was consumed once exactly if the row says so. */
  lemma EventLogIsFaithful(t: Terms, ws: seq<World>, xs: seq<Timed>, i: nat)
    requires IsRun(t, ws, xs) && i < |ws|
    ensures var log, row := ws[i].state.log, RowOf(ws[i].state);
            && |DropLabels(log)| == row.disconnectCount
            && (forall k :: 0 <= k < |DropLabels(log)| ==> DropLabels(log)[k] == k + 1)
            && Count(log, SessionDisconnected) + Count(log, SessionTerminatedMaxDisconnects) == row.disconnectCount
            && Count(log, SessionDisconnectTimeoutRecorded) == row.timeoutCount
            && Count(log, SessionTerminatedReconnectTimeout) == row.timeoutCount
            && Count(log, SessionReconnected) == ws[i].restores
            && Count(log, InviteLinkConsumed) == (if ws[i].state.candidate.inviteConsumed then 1 else 0)
  {
    RunInvariant(t, ws, xs, i);
  }

  // ------------------------------------------------------------ connections are retired

  function Active(w: World): Option<string> { RowOf(w.state).activeConnection }

  /** The id was handed out and is not the active one. */
  predicate Retired(w: World, id: string) { id in w.issued && Active(w) != Some(id) }

  lemma ActiveAfterAuthorize(t: Terms, w: World, now: Time, token: string, newId: string)
    requires Invariant(w)
    ensures var v := Next(t, w, now, AuthorizeStep(token, newId));
            (Active(v) == Active(w) || Active(v).None? || Active(v) == Some(newId)) && w.issued <= v.issued
  {
  }

  lemma ActiveAfterOthers(t: Terms, w: World, now: Time, step: Step)
    requires Invariant(w) && Enabled(w, now, step) && !step.AuthorizeStep?
    ensures var v := Next(t, w, now, step);
            (Active(v) == Active(w) || Active(v).None?) && v.issued == w.issued
  {
    match step
    case EnterStep(invitation, secret) => EnterCases(t, w.state, invitation, secret, now);
    case DisconnectStep(_, _) =>
    case _ => QuietKeeps(t, w, now, step);
  }

  lemma StaysRetired(t: Terms, w: World, now: Time, step: Step, id: string)
    requires Invariant(w) && Enabled(w, now, step) && Retired(w, id)
    ensures Retired(Next(t, w, now, step), id)
  {
    if step.AuthorizeStep? {
      ActiveAfterAuthorize(t, w, now, step.token, step.newId);
    } else {
      ActiveAfterOthers(t, w, now, step);
    }
  }

  lemma RetiredForever(t: Terms, ws: seq<World>, xs: seq<Timed>, i: nat, j: nat, id: string)
    requires IsRun(t, ws, xs) && i <= j < |ws| && Retired(ws[i], id)
    ensures Retired(ws[j], id)
  {
    forall k | i <= k < j && Retired(ws[k], id) ensures Retired(ws[k + 1], id) {
      RunInvariant(t, ws, xs, k);
      StaysRetired(t, ws[k], xs[k].now, xs[k].step, id);
    }
    AlongRun(ws, i, j, (w: World) => Retired(w, id));
  }

  /** Messages of a connection that is not the active one change nothing. */
  lemma StaleMessagesIgnored(t: Terms, s: State, now: Time, step: Step, id: string)
    requires RowOf(s).activeConnection != Some(id)
    requires match step
             case DisconnectStep(connectionId, _) => connectionId == id
             case TabSwitchStep(connectionId, _, _, _) => connectionId == id
             case FacePacketStep(connectionId, _, _, _) => connectionId == id
             case _ => false
    ensures Apply(t, s, now, step).state == s
  {
  }

  /** Once a connection id has stopped being the active one, it never becomes active again, and
      its late disconnects, tab switches and face packets change nothing. */
  lemma RetiredConnectionsStayRetired(t: Terms, ws: seq<World>, xs: seq<Timed>, i: nat, j: nat, k: nat,
                                      id: string, now: Time, step: Step)
    requires IsRun(t, ws, xs) && i < j <= k < |ws|
    requires Active(ws[i]) == Some(id) && Active(ws[j]) != Some(id)
    ensures Active(ws[k]) != Some(id)
    ensures (match step
             case DisconnectStep(connectionId, _) => connectionId == id
             case TabSwitchStep(connectionId, _, _, _) => connectionId == id
             case FacePacketStep(connectionId, _, _, _) => connectionId == id
             case _ => false)
            ==> Apply(t, ws[k].state, now, step).state == ws[k].state
  {
    RunInvariant(t, ws, xs, i);
    IssuedGrows(t, ws, xs, i, j, id);
    RetiredForever(t, ws, xs, j, k, id);
  }

  lemma IssuedGrows(t: Terms, ws: seq<World>, xs: seq<Timed>, i: nat, j: nat, id: string)
    requires IsRun(t, ws, xs) && i <= j < |ws| && id in ws[i].issued
    ensures id in ws[j].issued
  {
    AlongRun(ws, i, j, (w: World) => id in w.issued);
  }

  // ------------------------------------------------------------------ terminal states

  predicate Closed(s: State) {
    s.session.Some? && (TerminalSession(s.session.value.status) || TerminalCandidate(s.candidate.status))
  }

  /** Once the session or the candidate row is terminal, entry, context, authorisation and demo
      are all refused, and neither row changes. */
  lemma ClosedRefuses(t: Terms, s: State, now: Time, step: Step)
    requires Closed(s)
    requires step.EnterStep? || step.ContextStep? || step.AuthorizeStep? || step.DemoStep?
    ensures var r := Apply(t, s, now, step);
            r.reply.Rejected? && r.state.session == s.session && r.state.candidate == s.candidate
  {
    match step
    case EnterStep(invitation, secret) => EnterCases(t, s, invitation, secret, now);
    case _ =>
  }

  /** Once the session row is terminal, no candidate-facing step changes either row. */
  lemma TerminalIsFrozen(t: Terms, s: State, now: Time, step: Step)
    requires s.session.Some? && TerminalSession(s.session.value.status) && CandidateFacing(step)
    ensures var r := Apply(t, s, now, step).state; r.session == s.session && r.candidate == s.candidate
  {
    if step.EnterStep? || step.ContextStep? || step.AuthorizeStep? || step.DemoStep? {
      ClosedRefuses(t, s, now, step);
    }
  }

  /** So along any stretch of candidate-facing steps a terminal session is final. */
  lemma TerminalIsAbsorbing(t: Terms, ws: seq<World>, xs: seq<Timed>, i: nat, j: nat)
    requires IsRun(t, ws, xs) && i <= j < |ws|
    requires ws[i].state.session.Some? && TerminalSession(ws[i].state.session.value.status)
    requires forall k :: i <= k < j ==> CandidateFacing(xs[k].step)
    ensures ws[j].state.session == ws[i].state.session && ws[j].state.candidate == ws[i].state.candidate
  {
    var session, candidate := ws[i].state.session, ws[i].state.candidate;
    forall k | i <= k < j && ws[k].state.session == session && ws[k].state.candidate == candidate
      ensures ws[k + 1].state.session == session && ws[k + 1].state.candidate == candidate
    {
      TerminalIsFrozen(t, ws[k].state, xs[k].now, xs[k].step);
    }
    AlongRun(ws, i, j, (w: World) => w.state.session == session && w.state.candidate == candidate);
  }

  /** The full API does not keep this promise: a terminal session is left by exactly the two
      engine writes that mark it in progress without looking. */
  lemma OnlyTheEngineReopens(t: Terms, s: State, now: Time, step: Step)
    requires s.session.Some? && TerminalSession(s.session.value.status)
    ensures !TerminalSession(RowOf(Apply(t, s, now, step).state).status)
            <==> step.InitializeStep? || step.MarkInProgressStep?
  {
    if CandidateFacing(step) {
      TerminalIsFrozen(t, s, now, step);
    }
  }

  /** A terminated session and its candidate row agree. */
  ghost predicate Agree(s: State) {
    s.session.Some? && s.session.value.status == Terminated ==> s.candidate.status == Stopped && s.candidate.endedAt.Some?
  }

  /** The engine's candidate writes that do not look whether the session was terminated. */
  predicate Detaches(s: State, step: Step) {
    && RowOf(s).status == Terminated
    && (step.CandidateStartedStep? || step.TimerStartedStep? || step.CandidateCompletedStep?)
  }

  /** They are the only steps that part the two rows. */
  lemma AgreementKeptExactly(t: Terms, s: State, now: Time, step: Step)
    requires Agree(s)
    ensures Agree(Apply(t, s, now, step).state) <==> !Detaches(s, step)
  {
    match step
    case EnterStep(invitation, secret) => EnterCases(t, s, invitation, secret, now);
    case TabSwitchStep(_, _, _, _) => var violations, terminated := ProctoringCases(t, s, now, step);
    case FacePacketStep(_, _, _, _) => var violations, terminated := ProctoringCases(t, s, now, step);
    case _ =>
  }

  /** Along any run in which no such write hits a terminated session (so along every run of
      candidate-facing steps) a terminated session has a terminated candidate with an end time. */
  lemma TerminationReachesTheCandidate(t: Terms, ws: seq<World>, xs: seq<Timed>, i: nat)
    requires IsRun(t, ws, xs) && i < |ws|
    requires forall k :: 0 <= k < i ==> !Detaches(ws[k].state, xs[k].step)
    ensures Agree(ws[i].state)
  {
    forall k | 0 <= k < i && Agree(ws[k].state) ensures Agree(ws[k + 1].state) {
      AgreementKeptExactly(t, ws[k].state, xs[k].now, xs[k].step);
    }
    AlongRun(ws, 0, i, (w: World) => Agree(w.state));
  }

  /** The strikes of a row: at most three disconnects and one timeout, and the third disconnect or
      the timeout has ended the session. */
  predicate WithinStrikes(row: SessionRow) {
    && row.disconnectCount <= MAX_DISCONNECTS && row.timeoutCount <= 1
    && (StruckOut(row) ==> row.status == Terminated)
  }

  /** The engine's session writes that give a terminated session another status. */
  predicate OverwritesTerminated(row: SessionRow, step: Step) {
    && row.status == Terminated
    && (step.InitializeStep? || step.MarkInProgressStep? || step.CompleteStep?
        || step.SaveEvaluationStep? || step.EvaluationFailedStep?)
  }

  predicate StruckOut(row: SessionRow) { row.disconnectCount == MAX_DISCONNECTS || row.timeoutCount == 1 }

  /** The strikes are forgotten by exactly those writes, on a row that has struck out. */
  lemma StrikesKeptExactly(t: Terms, s: State, now: Time, step: Step)
    requires WithinStrikes(RowOf(s))
    ensures WithinStrikes(RowOf(Apply(t, s, now, step).state))
            <==> !(StruckOut(RowOf(s)) && OverwritesTerminated(RowOf(s), step))
  {
    match step
    case EnterStep(invitation, secret) => EnterCases(t, s, invitation, secret, now);
    case _ =>
  }

  /** Three strikes: along any run in which no such write hits a struck-out row (so along every run
      of candidate-facing steps) there are never more than three disconnects or more than one
      expired reconnection window, and the third disconnect as well as an expired window has ended
      the session. */
  lemma ThreeStrikes(t: Terms, ws: seq<World>, xs: seq<Timed>, i: nat)
    requires IsRun(t, ws, xs) && i < |ws|
    requires forall k :: 0 <= k < i ==>
               !(StruckOut(RowOf(ws[k].state)) && OverwritesTerminated(RowOf(ws[k].state), xs[k].step))
    ensures WithinStrikes(RowOf(ws[i].state))
  {
    forall k | 0 <= k < i && WithinStrikes(RowOf(ws[k].state)) ensures WithinStrikes(RowOf(ws[k + 1].state)) {
      StrikesKeptExactly(t, ws[k].state, xs[k].now, xs[k].step);
    }
    AlongRun(ws, 0, i, (w: World) => WithinStrikes(RowOf(w.state)));
  }

  /** Interview time is lost in exactly one way: completion writes the time it is given even when
      that is less than what the row has. */
  lemma OnlyCompletionLowersElapsed(t: Terms, w: World, now: Time, step: Step)
    ensures var before, after := RowOf(w.state).elapsedSecs, RowOf(Next(t, w, now, step).state).elapsedSecs;
            after < before
            <==> w.state.session.Some? && step.CompleteStep? && Max(0, step.elapsedSecs) < before
  {
    match step
    case EnterStep(invitation, secret) => EnterCases(t, w.state, invitation, secret, now);
    case _ =>
  }

  /** A successful authorisation returns the connection the session now holds, on a live session;
      and it is a new one unless the interview had not begun and already held it. */
  lemma AuthorizationBinds(t: Terms, w: World, now: Time, token: string, newId: string)
    requires Invariant(w) && Enabled(w, now, AuthorizeStep(token, newId))
    ensures var r := Authorize(t, w.state, token, newId, now);
            r.reply.Connected? ==>
              && r.state.session.Some? && CurrentConnection(r.state.session.value, r.reply.connectionId)
              && (r.reply.connectionId in w.issued ==>
                    w.state.session.value.status == Initializing && Active(w) == Some(r.reply.connectionId))
  {
  }

  /** A disconnected candidate with a valid token is let back in exactly until five minutes after
      the disconnect: then on a new connection and with the outage booked as pause; later, both
      rows are terminated. */
  lemma ReconnectsWithinFiveMinutes(t: Terms, w: World, now: Time, token: string, newId: string)
    requires Invariant(w) && Enabled(w, now, AuthorizeStep(token, newId))
    requires IsDisconnected(w.state) && TokenProblem(t, w.state, token, now).None?
    ensures var a, r := w.state.session.value, Authorize(t, w.state, token, newId, now);
            var b := RowOf(r.state);
            && a.lastDisconnectedAt.Some?
            && (r.reply.Connected? <==> now <= a.lastDisconnectedAt.value + 5 * MINUTE)
            && if r.reply.Connected?
               then && b.status == InProgress && b.activeConnection == Some(newId) && r.reply.connectionId == newId
                    && b.timeoutCount == a.timeoutCount
                    && (b.pauseSecs - a.pauseSecs) * SECOND - SECOND / 2 <= now - a.lastDisconnectedAt.value
                    && now - a.lastDisconnectedAt.value < (b.pauseSecs - a.pauseSecs) * SECOND + SECOND / 2
               else && b.status == Terminated && b.timeoutCount == a.timeoutCount + 1 && b.pauseSecs == a.pauseSecs
                    && r.state.candidate.status == Stopped && r.state.candidate.endedAt.Some?
  {
  }

  // -------------------------------------------------------------------- token stability

  predicate Entered(t: Terms, w: World, x: Timed) {
    x.step.EnterStep? && Apply(t, w.state, x.now, x.step).reply.Bootstrap?
  }

  lemma CredentialsKept(t: Terms, w: World, now: Time, step: Step)
    requires Invariant(w) && Enabled(w, now, step) && RowOf(w.state).token.Some?
    ensures var a, b := RowOf(w.state), RowOf(Next(t, w, now, step).state);
            b.token == a.token && b.tokenExpiresAt == a.tokenExpiresAt
  {
    match step
    case EnterStep(invitation, secret) => EnterCases(t, w.state, invitation, secret, now);
    case AuthorizeStep(_, _) =>
    case DisconnectStep(_, _) =>
    case _ => QuietKeeps(t, w, now, step);
  }

  ghost predicate Holds(row: SessionRow, token: Option<string>, expiresAt: Option<Time>) {
    row.token == token && row.tokenExpiresAt == expiresAt
  }

  lemma CredentialsForever(t: Terms, ws: seq<World>, xs: seq<Timed>, i: nat, j: nat)
    requires IsRun(t, ws, xs) && i <= j < |ws| && RowOf(ws[i].state).token.Some?
    ensures Holds(RowOf(ws[j].state), RowOf(ws[i].state).token, RowOf(ws[i].state).tokenExpiresAt)
  {
    var token, expiresAt := RowOf(ws[i].state).token, RowOf(ws[i].state).tokenExpiresAt;
    forall k | i <= k < j && Holds(RowOf(ws[k].state), token, expiresAt)
      ensures Holds(RowOf(ws[k + 1].state), token, expiresAt)
    {
      RunInvariant(t, ws, xs, k);
      CredentialsKept(t, ws[k], xs[k].now, xs[k].step);
    }
    AlongRun(ws, i, j, (w: World) => Holds(RowOf(w.state), token, expiresAt));
  }

  /** A first entry issues the secret with a long enough life: the interview plus an hour from
      now, and an hour past the end of the window. */
  lemma FirstEntry(t: Terms, w: World, x: Timed)
    requires Invariant(w) && Enabled(w, x.now, x.step) && Entered(t, w, x)
    ensures var reply := Apply(t, w.state, x.now, x.step).reply;
            var row := RowOf(Next(t, w, x.now, x.step).state);
            && row.token == Some(reply.token) && row.tokenExpiresAt == Some(reply.expiresAt)
            && (reply.reissued <==> RowOf(w.state).token.Some?)
            && (!reply.reissued ==>
                  && reply.token == x.step.secret
                  && reply.expiresAt >= x.now + (Max(1, t.durationMins) + 60) * MINUTE
                  && (t.windowEnd.Some? ==> reply.expiresAt >= t.windowEnd.value + 60 * MINUTE))
  {
    EnterCases(t, w.state, x.step.invitation, x.step.secret, x.now);
  }

  /** What the invariant adds to the guards of an entry: a token without an expiry is never found,
      and the consumed flag stands for an issued token. */
  lemma EntryIsGuarded(t: Terms, w: World, now: Time, secret: string)
    requires Invariant(w) && Enabled(w, now, EnterStep(t.invitation, secret))
    ensures var row, c := RowOf(w.state), w.state.candidate;
            var reply := Enter(t, w.state, t.invitation, secret, now).reply;
            && reply != Rejected(TokenExpiryMissing)
            && (reply.Bootstrap? <==>
                  && !TerminalSession(row.status) && !TerminalCandidate(c.status)
                  && !WindowClosed(t, c, now)
                  && (row.tokenExpiresAt.Some? ==> now < row.tokenExpiresAt.value))
  {
  }

  /** Token stability: after a successful entry every later one returns the same token and expiry,
      marked as reissued. */
  lemma EntryIsStable(t: Terms, ws: seq<World>, xs: seq<Timed>, i: nat, j: nat)
    requires IsRun(t, ws, xs) && i < j < |xs| && Entered(t, ws[i], xs[i]) && Entered(t, ws[j], xs[j])
    ensures var first := Apply(t, ws[i].state, xs[i].now, xs[i].step).reply;
            var later := Apply(t, ws[j].state, xs[j].now, xs[j].step).reply;
            later.token == first.token && later.expiresAt == first.expiresAt && later.reissued
  {
    RunInvariant(t, ws, xs, i);
    RunInvariant(t, ws, xs, j);
    FirstEntry(t, ws[i], xs[i]);
    FirstEntry(t, ws[j], xs[j]);
    CredentialsForever(t, ws, xs, i + 1, j);
    CredentialsKept(t, ws[j], xs[j].now, xs[j].step);
  }

  /** After a first entry the invitation keeps working, with that entry's token, until exactly the
      expiry it announced, as long as both rows are open and the window of an interview that has
      not begun is open, whatever happened in between. */
  lemma EntryUntilExpiry(t: Terms, ws: seq<World>, xs: seq<Timed>, i: nat, j: nat)
    requires IsRun(t, ws, xs) && i < j < |xs| && Entered(t, ws[i], xs[i])
    requires xs[j].step.EnterStep? && xs[j].step.invitation == t.invitation
    ensures var first, s := Apply(t, ws[i].state, xs[i].now, xs[i].step).reply, ws[j].state;
            Entered(t, ws[j], xs[j])
            <==> && xs[j].now < first.expiresAt
                 && s.session.Some? && !TerminalSession(s.session.value.status)
                 && !TerminalCandidate(s.candidate.status) && !WindowClosed(t, s.candidate, xs[j].now)
  {
    RunInvariant(t, ws, xs, i);
    RunInvariant(t, ws, xs, j);
    FirstEntry(t, ws[i], xs[i]);
    CredentialsForever(t, ws, xs, i + 1, j);
    EntryIsGuarded(t, ws[j], xs[j].now, xs[j].step.secret);
  }
}
