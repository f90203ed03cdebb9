// Whole runs of the protocol: any sequence of atomic steps by any callers, on one nondecreasing
// clock, from a freshly invited candidate.
module LifecycleRuns {
  import opened Prelude
  import opened ViolationRecords
  import TabSwitchLog
  import FaceLog
  import opened Lifecycle

  /** A state with the bookkeeping the theorems speak about: the latest time, the connection ids
      handed out so far, the ids of accepted disconnects, and the number of restores. */
  datatype World = World(state: State, clock: Time, issued: set<string>, drops: seq<string>, restores: nat)

  const START := World(State(None, NEW_CANDIDATE, []), 0, {}, [], 0)

  /** What the environment guarantees: time does not run backwards, generated connection ids are
      unused, generated secrets, event ids and timestamps are not blank. */
  predicate Enabled(w: World, now: Time, step: Step) {
    && now >= w.clock
    && (step.AuthorizeStep? ==> step.newId !in w.issued)
    && (step.EnterStep? ==> step.secret != "")
    && (step.TabSwitchStep? ==> step.eventId != "")
    && (step.FacePacketStep? ==> step.packet.eventId != "" && step.packet.startedAt != "")
  }

  function IsDisconnected(s: State): bool { s.session.Some? && s.session.value.status == Disconnected }

  function After(w: World, now: Time, step: Step, r: Result): World {
    World(r.state, now,
          if r.reply.Connected? then w.issued + {r.reply.connectionId} else w.issued,
          if step.DisconnectStep? && r.reply.DisconnectRecorded? then w.drops + [step.connectionId] else w.drops,
          if step.AuthorizeStep? && r.reply.Connected? && IsDisconnected(w.state) then w.restores + 1 else w.restores)
  }

  function Next(t: Terms, w: World, now: Time, step: Step): World {
    After(w, now, step, Apply(t, w.state, now, step))
  }

  datatype Timed = Timed(now: Time, step: Step)

  /** `ws` is the sequence of worlds that the steps `xs` lead through. */
  ghost predicate IsRun(t: Terms, ws: seq<World>, xs: seq<Timed>) {
    && |ws| == |xs| + 1
    && ws[0] == START
    && forall i :: 0 <= i < |xs| ==>
         Enabled(ws[i], xs[i].now, xs[i].step) && ws[i + 1] == Next(t, ws[i], xs[i].now, xs[i].step)
  }

  /** Some run ends in `w`. */
  ghost predicate Reachable(t: Terms, w: World) {
    exists ws: seq<World>, xs: seq<Timed> :: IsRun(t, ws, xs) && ws[|xs|] == w
  }

  lemma StartReachable(t: Terms)
    ensures Reachable(t, START)
  {
    var ws, xs: seq<Timed> := [START], [];
    assert IsRun(t, ws, xs) && ws[|xs|] == START;
  }

  lemma ReachableNext(t: Terms, w: World, now: Time, step: Step)
    requires Reachable(t, w) && Enabled(w, now, step)
    ensures Reachable(t, Next(t, w, now, step))
  {
    var ws, xs :| IsRun(t, ws, xs) && ws[|xs|] == w;
    var v := Next(t, w, now, step);
    var more, steps := ws + [v], xs + [Timed(now, step)];
    forall i | 0 <= i < |steps|
      ensures Enabled(more[i], steps[i].now, steps[i].step)
      ensures more[i + 1] == Next(t, more[i], steps[i].now, steps[i].step)
    {
      if i < |xs| {
        assert steps[i] == xs[i] && more[i] == ws[i] && more[i + 1] == ws[i + 1];
      }
    }
    assert IsRun(t, more, steps) && more[|steps|] == v;
  }

  // -------------------------------------------------------------- structural invariant

  /** Holds of the session row in every reachable state, guarded or not. */
  ghost predicate RowInvariant(row: SessionRow, clock: Time) {
    && (row.activeConnection.Some? ==> row.status !in {Disconnected, Completed, Terminated})
    && (row.status in {Initializing, InProgress, Completed, Terminated} ==> row.reconnectDeadline.None?)
    && (row.status == Disconnected ==>
          && 1 <= row.disconnectCount <= 2
          && row.lastDisconnectedAt.Some? && row.lastDisconnectedAt.value <= clock
          && row.reconnectDeadline == Some(row.lastDisconnectedAt.value + RECONNECT_WINDOW))
    && (row.token.Some? <==> row.tokenExpiresAt.Some?)
    && row.token != Some("")
  }

  /** Connection ids: the active one and the dropped ones were handed out, none was dropped
      twice, and a dropped one is no longer active. */
  ghost predicate ConnectionInvariant(w: World, row: SessionRow) {
    && (row.activeConnection.Some? ==> row.activeConnection.value in w.issued)
    && (forall i :: 0 <= i < |w.drops| ==> w.drops[i] in w.issued && row.activeConnection != Some(w.drops[i]))
    && Distinct(w.drops)
    && |w.drops| == row.disconnectCount
  }

  /** Every disconnect is used at most once: by a restore, by a timeout, or by still waiting. */
  ghost predicate AccountingInvariant(w: World, row: SessionRow) {
    && w.restores + row.timeoutCount + (if row.status == Disconnected then 1 else 0) <= Min(2, row.disconnectCount)
    && 0 <= row.pauseSecs <= 300 * w.restores
  }

  function Count(log: seq<Event>, name: EventName): nat {
    if |log| == 0 then 0
    else Count(log[..|log| - 1], name) + (if log[|log| - 1].name == name then 1 else 0)
  }

  predicate IsDrop(e: Event) { e.name == SessionDisconnected || e.name == SessionTerminatedMaxDisconnects }

  /** The counters carried by the disconnect events, in order. */
  function DropLabels(log: seq<Event>): seq<nat> {
    if |log| == 0 then []
    else
      var e := log[|log| - 1];
      if IsDrop(e) then DropLabels(log[..|log| - 1]) + [e.disconnectCount] else DropLabels(log[..|log| - 1])
  }

  /** The log tells exactly what happened to the rows. */
  ghost predicate HistoryInvariant(w: World, row: SessionRow) {
    var log := w.state.log;
    && |DropLabels(log)| == row.disconnectCount
    && (forall i :: 0 <= i < |DropLabels(log)| ==> DropLabels(log)[i] == i + 1)
    && Count(log, SessionDisconnected) + Count(log, SessionTerminatedMaxDisconnects) == row.disconnectCount
    && Count(log, SessionDisconnectTimeoutRecorded) == row.timeoutCount
    && Count(log, SessionTerminatedReconnectTimeout) == row.timeoutCount
    && Count(log, SessionReconnected) == w.restores
    && Count(log, InviteLinkConsumed) == (if w.state.candidate.inviteConsumed then 1 else 0)
  }

  ghost predicate Invariant(w: World) {
    var row := RowOf(w.state);
    && RowInvariant(row, w.clock)
    && ConnectionInvariant(w, row)
    && AccountingInvariant(w, row)
    && HistoryInvariant(w, row)
    && (w.state.candidate.inviteConsumed <==> row.token.Some?)
  }

  lemma LogAppend(s: State, name: EventName, d: nat, k: nat)
    ensures var after := Logged(s, name, d, k).log;
            && (forall n :: Count(after, n) == Count(s.log, n) + (if n == name then 1 else 0))
            && DropLabels(after) == if IsDrop(Event(name, d, k)) then DropLabels(s.log) + [d] else DropLabels(s.log)
  {
    var after := Logged(s, name, d, k).log;
    assert after[..|after| - 1] == s.log;
  }

  // ------------------------------------------------------------ preservation, by effect

  /** A step that hands out and drops no connection, logs nothing, and leaves the counters and the
      credentials alone; it may clear the active connection and move the status anywhere but into
      DISCONNECTED. */
  ghost predicate KeepsCounters(w: World, v: World) {
    var a, b := RowOf(w.state), RowOf(v.state);
    && v.issued == w.issued && v.drops == w.drops && v.restores == w.restores
    && v.state.log == w.state.log
    && v.state.candidate.inviteConsumed == w.state.candidate.inviteConsumed
    && b.token == a.token && b.tokenExpiresAt == a.tokenExpiresAt
    && b.disconnectCount == a.disconnectCount && b.timeoutCount == a.timeoutCount && b.pauseSecs == a.pauseSecs
    && (b.activeConnection == a.activeConnection || b.activeConnection.None?)
    && (b.status == Disconnected ==> a.status == Disconnected)
    && RowInvariant(b, v.clock)
  }

  lemma CountersKept(w: World, v: World)
    requires Invariant(w) && KeepsCounters(w, v)
    ensures Invariant(v)
  {
  }

  lemma RoundedPause(d: Time)
    requires d <= RECONNECT_WINDOW
    ensures RoundSecs(d) <= 300
  {
  }

  /** A log entry that no counter counts. */
  lemma UncountedEntryKeeps(w: World, name: EventName)
    requires Invariant(w) && (name == InviteLinkRejected || name == SessionTokenReissued)
    ensures Invariant(w.(state := Logged(w.state, name, 0, 0)))
  {
    LogAppend(w.state, name, 0, 0);
  }

  lemma RefusalKeeps(w: World, now: Time, step: Step, reason: Rejection)
    requires Invariant(w) && now >= w.clock && step.EnterStep?
    ensures Invariant(After(w, now, step, Refused(GetOrCreate(w.state), reason)))
  {
    var v := w.(state := GetOrCreate(w.state), clock := now);
    CountersKept(w, v);
    UncountedEntryKeeps(v, InviteLinkRejected);
  }

  lemma AdmissionKeeps(t: Terms, w: World, now: Time, step: Step, secret: string, reply: Reply)
    requires Invariant(w) && now >= w.clock && step.EnterStep? && secret != "" && reply.Bootstrap?
    ensures var c := w.state.candidate;
            var entered := State(Some(Credentialed(t, RowOf(w.state), secret, now)), InviteUsed(c, now), w.state.log);
            var name := if c.inviteConsumed then SessionTokenReissued else InviteLinkConsumed;
            Invariant(After(w, now, step, Result(Logged(entered, name, 0, 0), reply)))
  {
    var row := Credentialed(t, RowOf(w.state), secret, now);
    var entered := State(Some(row), InviteUsed(w.state.candidate, now), w.state.log);
    LogAppend(entered, if w.state.candidate.inviteConsumed then SessionTokenReissued else InviteLinkConsumed, 0, 0);
  }

  /** The three ways an entry can go. */
  lemma EnterCases(t: Terms, s: State, invitation: string, secret: string, now: Time)
    ensures var r, c := Enter(t, s, invitation, secret, now), s.candidate;
            if r.reply.Rejected?
            then r == Result(s, r.reply) || r == Refused(GetOrCreate(s), r.reply.reason)
            else && r.reply.Bootstrap?
                 && r.state == Logged(State(Some(Credentialed(t, RowOf(s), secret, now)), InviteUsed(c, now), s.log),
                                      if c.inviteConsumed then SessionTokenReissued else InviteLinkConsumed, 0, 0)
  {
  }

  lemma EnterKeeps(t: Terms, w: World, now: Time, invitation: string, secret: string)
    requires Invariant(w) && now >= w.clock && secret != ""
    ensures Invariant(After(w, now, EnterStep(invitation, secret), Enter(t, w.state, invitation, secret, now)))
  {
    var step := EnterStep(invitation, secret);
    var r := Enter(t, w.state, invitation, secret, now);
    EnterCases(t, w.state, invitation, secret, now);
    if !r.reply.Rejected? {
      AdmissionKeeps(t, w, now, step, secret, r.reply);
    } else if r == Result(w.state, r.reply) {
      CountersKept(w, After(w, now, step, r));
    } else {
      RefusalKeeps(w, now, step, r.reply.reason);
    }
  }

  lemma TimeoutHistory(w: World, v: World, a: SessionRow, b: SessionRow)
    requires HistoryInvariant(w, a)
    requires v.state.log == w.state.log + [Event(SessionDisconnectTimeoutRecorded, 0, a.timeoutCount + 1)]
                                        + [Event(SessionTerminatedReconnectTimeout, a.disconnectCount, a.timeoutCount + 1)]
    requires b.disconnectCount == a.disconnectCount && b.timeoutCount == a.timeoutCount + 1
    requires v.restores == w.restores && v.state.candidate.inviteConsumed == w.state.candidate.inviteConsumed
    ensures HistoryInvariant(v, b)
  {
    LogAppend(w.state, SessionDisconnectTimeoutRecorded, 0, a.timeoutCount + 1);
    LogAppend(Logged(w.state, SessionDisconnectTimeoutRecorded, 0, a.timeoutCount + 1),
              SessionTerminatedReconnectTimeout, a.disconnectCount, a.timeoutCount + 1);
  }

  lemma TimeoutKeeps(w: World, now: Time, token: string, newId: string)
    requires Invariant(w) && now >= w.clock && IsDisconnected(w.state)
    ensures var row := w.state.session.value;
            Invariant(After(w, now, AuthorizeStep(token, newId),
                            Result(TimeoutState(w.state, row, now), Rejected(ReconnectTimeout))))
  {
    var row := w.state.session.value;
    var v := After(w, now, AuthorizeStep(token, newId),
                   Result(TimeoutState(w.state, row, now), Rejected(ReconnectTimeout)));
    TimeoutHistory(w, v, row, TimedOut(row));
  }

  lemma RestoreKeeps(w: World, now: Time, token: string, newId: string, elapsed: int, started: bool, tabs: nat)
    requires Invariant(w) && now >= w.clock && newId !in w.issued
    requires IsDisconnected(w.state) && !WindowMissed(w.state.session.value, now)
    ensures var row := w.state.session.value;
            var ready := RestoredState(w.state, row, now);
            Invariant(After(w, now, AuthorizeStep(token, newId),
                            Result(WithRow(ready, Bound(ready.session.value, newId)),
                                   Connected(newId, elapsed, started, tabs))))
  {
    var row := w.state.session.value;
    RoundedPause(now - row.lastDisconnectedAt.value);
    LogAppend(State(Some(Restored(row, now)), w.state.candidate.(status := Interviewing), w.state.log),
              SessionReconnected, row.disconnectCount, row.timeoutCount);
  }

  lemma BindKeeps(w: World, now: Time, token: string, newId: string, elapsed: int, started: bool, tabs: nat)
    requires Invariant(w) && now >= w.clock && newId !in w.issued
    requires w.state.session.Some? && Live(w.state.session.value.status)
    ensures var row := w.state.session.value;
            var id := Generation(row, newId);
            Invariant(After(w, now, AuthorizeStep(token, newId),
                            Result(WithRow(w.state, Bound(row, id)), Connected(id, elapsed, started, tabs))))
  {
  }

  lemma AuthorizeKeeps(t: Terms, w: World, now: Time, token: string, newId: string)
    requires Invariant(w) && now >= w.clock && newId !in w.issued
    ensures Invariant(After(w, now, AuthorizeStep(token, newId), Authorize(t, w.state, token, newId, now)))
  {
    var r := Authorize(t, w.state, token, newId, now);
    var v := After(w, now, AuthorizeStep(token, newId), r);
    if TokenProblem(t, w.state, token, now).Some? {
      CountersKept(w, v);
    } else {
      var row := w.state.session.value;
      if row.status == Disconnected {
        if WindowMissed(row, now) {
          TimeoutKeeps(w, now, token, newId);
        } else {
          RestoreKeeps(w, now, token, newId, r.reply.elapsedSecs, r.reply.interviewStarted, r.reply.tabSwitchCount);
        }
      } else {
        BindKeeps(w, now, token, newId, r.reply.elapsedSecs, r.reply.interviewStarted, r.reply.tabSwitchCount);
      }
    }
  }

  lemma DropHistory(w: World, v: World, a: SessionRow, b: SessionRow, name: EventName, timeouts: nat)
    requires HistoryInvariant(w, a) && IsDrop(Event(name, 0, 0))
    requires v.state.log == w.state.log + [Event(name, b.disconnectCount, timeouts)]
    requires b.disconnectCount == a.disconnectCount + 1 && b.timeoutCount == a.timeoutCount
    requires v.restores == w.restores && v.state.candidate.inviteConsumed == w.state.candidate.inviteConsumed
    ensures HistoryInvariant(v, b)
  {
    LogAppend(w.state, name, b.disconnectCount, timeouts);
  }

  lemma DropConnections(w: World, v: World, a: SessionRow, b: SessionRow)
    requires ConnectionInvariant(w, a) && a.activeConnection.Some? && b.activeConnection.None?
    requires v.issued == w.issued && v.drops == w.drops + [a.activeConnection.value]
    requires b.disconnectCount == a.disconnectCount + 1
    ensures ConnectionInvariant(v, b)
  {
  }

  lemma DropKeeps(w: World, now: Time, connectionId: string, elapsedSecs: int, candidate: CandidateRow,
                  name: EventName, timeouts: nat)
    requires Invariant(w) && now >= w.clock && CurrentConnection(RowOf(w.state), connectionId)
    requires IsDrop(Event(name, 0, 0)) && candidate.inviteConsumed == w.state.candidate.inviteConsumed
    ensures var row := Dropped(RowOf(w.state), elapsedSecs, now);
            Invariant(After(w, now, DisconnectStep(connectionId, elapsedSecs),
                            Result(Logged(State(Some(row), candidate, w.state.log), name, row.disconnectCount, timeouts),
                                   DisconnectRecorded(row.status))))
  {
    var row := Dropped(RowOf(w.state), elapsedSecs, now);
    var v := After(w, now, DisconnectStep(connectionId, elapsedSecs),
                   Result(Logged(State(Some(row), candidate, w.state.log), name, row.disconnectCount, timeouts),
                          DisconnectRecorded(row.status)));
    DropHistory(w, v, RowOf(w.state), row, name, timeouts);
    DropConnections(w, v, RowOf(w.state), row);
  }

  lemma DisconnectKeeps(w: World, now: Time, connectionId: string, elapsedSecs: int)
    requires Invariant(w) && now >= w.clock
    ensures Invariant(After(w, now, DisconnectStep(connectionId, elapsedSecs),
                            Disconnect(w.state, connectionId, elapsedSecs, now)))
  {
    var s := w.state;
    if s.session.None? || !CurrentConnection(s.session.value, connectionId) {
      CountersKept(w, After(w, now, DisconnectStep(connectionId, elapsedSecs), Result(s, DisconnectIgnored)));
    } else {
      var row := Dropped(s.session.value, elapsedSecs, now);
      if row.status == Terminated {
        DropKeeps(w, now, connectionId, elapsedSecs, Ended(s.candidate, Stopped, now), SessionTerminatedMaxDisconnects, 0);
      } else {
        DropKeeps(w, now, connectionId, elapsedSecs, s.candidate, SessionDisconnected, row.timeoutCount);
      }
    }
  }

  lemma ProctoredKeeps(w: World, now: Time, step: Step, violations: seq<Violation>, terminated: bool, reply: Reply)
    requires Invariant(w) && now >= w.clock && w.state.session.Some? && Live(w.state.session.value.status)
    requires !reply.Connected? && !reply.DisconnectRecorded?
    ensures var s := Proctored(w.state, w.state.session.value, violations, terminated, now);
            KeepsCounters(w, After(w, now, step, Result(s, reply)))
  {
  }

  lemma UnchangedKeeps(w: World, now: Time, step: Step, reply: Reply)
    requires Invariant(w) && now >= w.clock && !reply.Connected? && !reply.DisconnectRecorded?
    ensures KeepsCounters(w, After(w, now, step, Result(w.state, reply)))
  {
  }

  /** A proctoring message changes nothing, or stores a list through `Proctored`. */
  lemma ProctoringCases(t: Terms, s: State, now: Time, step: Step)
    returns (violations: seq<Violation>, terminated: bool)
    requires step.TabSwitchStep? || step.FacePacketStep?
    ensures var r := Apply(t, s, now, step);
            && !r.reply.Connected? && !r.reply.DisconnectRecorded?
            && (r.state == s
                || (&& s.session.Some? && Live(s.session.value.status)
                    && r.state == Proctored(s, s.session.value, violations, terminated, now)))
  {
    var row := RowOf(s);
    match step
    case TabSwitchStep(_, _, eventId, at) =>
      var o := TabSwitchLog.TabStep(row.violations, |row.transcript|, eventId, at);
      violations, terminated := o.violations, o.terminated;
    case FacePacketStep(_, _, p, at) =>
      var o := FaceLog.FaceStep(row.violations, |row.transcript|, p, at);
      violations, terminated := o.violations, o.terminated;
  }

  lemma ProctoringKeeps(t: Terms, w: World, now: Time, step: Step)
    requires Invariant(w) && now >= w.clock && (step.TabSwitchStep? || step.FacePacketStep?)
    ensures KeepsCounters(w, Next(t, w, now, step))
  {
    var r := Apply(t, w.state, now, step);
    var violations, terminated := ProctoringCases(t, w.state, now, step);
    if r.state == w.state {
      UnchangedKeeps(w, now, step, r.reply);
    } else {
      ProctoredKeeps(w, now, step, violations, terminated, r.reply);
    }
  }

  /** Any rewrite of the session row that keeps its counters and credentials. */
  lemma RewriteKeeps(t: Terms, w: World, now: Time, step: Step, row: SessionRow)
    requires Invariant(w) && now >= w.clock && !step.AuthorizeStep? && !step.DisconnectStep?
    requires Apply(t, w.state, now, step) == Stored(w.state, row)
    requires var a := RowOf(w.state);
             && row.token == a.token && row.tokenExpiresAt == a.tokenExpiresAt
             && row.disconnectCount == a.disconnectCount && row.timeoutCount == a.timeoutCount
             && row.pauseSecs == a.pauseSecs
             && (row.activeConnection == a.activeConnection || row.activeConnection.None?)
             && (row.status == Disconnected ==> a.status == Disconnected)
             && RowInvariant(row, now)
    ensures KeepsCounters(w, Next(t, w, now, step))
  {
  }

  lemma TurnKeeps(t: Terms, w: World, now: Time, turn: Turn, totalElapsedSecs: Option<int>)
    requires Invariant(w) && now >= w.clock
    ensures KeepsCounters(w, After(w, now, TurnStep(turn, totalElapsedSecs), TurnAppended(w.state, turn, totalElapsedSecs)))
  {
  }

  lemma ViolationKeeps(t: Terms, w: World, now: Time, v: Violation)
    requires Invariant(w) && now >= w.clock
    ensures KeepsCounters(w, After(w, now, ViolationStep(v), ViolationAppended(w.state, v)))
  {
  }

  lemma ReadOnlyKeeps(t: Terms, w: World, now: Time, step: Step)
    requires Invariant(w) && now >= w.clock && (step.ContextStep? || step.DemoStep?)
    ensures KeepsCounters(w, Next(t, w, now, step))
  {
  }

  lemma CandidateWriteKeeps(t: Terms, w: World, now: Time, step: Step)
    requires Invariant(w) && now >= w.clock
    requires step.TimerStartedStep? || step.CandidateStartedStep? || step.CandidateCompletedStep?
    ensures KeepsCounters(w, Next(t, w, now, step))
  {
  }

  lemma InitializeOrSaveKeeps(t: Terms, w: World, now: Time, step: Step)
    requires Invariant(w) && now >= w.clock && (step.InitializeStep? || step.SaveEvaluationStep?)
    ensures KeepsCounters(w, Next(t, w, now, step))
  {
  }

  lemma QuietKeeps(t: Terms, w: World, now: Time, step: Step)
    requires Invariant(w) && now >= w.clock
    requires !step.EnterStep? && !step.AuthorizeStep? && !step.DisconnectStep?
    ensures KeepsCounters(w, Next(t, w, now, step))
  {
    var row := RowOf(w.state);
    match step
    case MarkInProgressStep => RewriteKeeps(t, w, now, step, MarkedInProgress(row));
    case CompleteStep(secs) => RewriteKeeps(t, w, now, step, MarkedComplete(row, secs));
    case EvaluationFailedStep => RewriteKeeps(t, w, now, step, MarkedFailed(row));
    case ElapsedStep(secs) => RewriteKeeps(t, w, now, step, Elapsed(row, secs, 0));
    case TabSwitchStep(_, _, _, _) => ProctoringKeeps(t, w, now, step);
    case FacePacketStep(_, _, _, _) => ProctoringKeeps(t, w, now, step);
    case TurnStep(turn, secs) => TurnKeeps(t, w, now, turn, secs);
    case ViolationStep(v) => ViolationKeeps(t, w, now, v);
    case ContextStep(_) => ReadOnlyKeeps(t, w, now, step);
    case DemoStep(_) => ReadOnlyKeeps(t, w, now, step);
    case InitializeStep => InitializeOrSaveKeeps(t, w, now, step);
    case SaveEvaluationStep => InitializeOrSaveKeeps(t, w, now, step);
    case _ => CandidateWriteKeeps(t, w, now, step);
  }

  /** The invariant survives every step, the engine's unguarded writes included. */
  lemma InvariantKept(t: Terms, w: World, now: Time, step: Step)
    requires Invariant(w) && Enabled(w, now, step)
    ensures Invariant(Next(t, w, now, step))
  {
    match step
    case EnterStep(invitation, secret) => EnterKeeps(t, w, now, invitation, secret);
    case AuthorizeStep(token, newId) => AuthorizeKeeps(t, w, now, token, newId);
    case DisconnectStep(connectionId, elapsedSecs) => DisconnectKeeps(w, now, connectionId, elapsedSecs);
    case _ =>
      QuietKeeps(t, w, now, step);
      CountersKept(w, Next(t, w, now, step));
  }

  /** Every world of every run satisfies the invariant. */
  lemma {:induction false} RunInvariant(t: Terms, ws: seq<World>, xs: seq<Timed>, i: nat)
    requires IsRun(t, ws, xs) && i < |ws|
    ensures Invariant(ws[i])
  {
    if i != 0 {
      RunInvariant(t, ws, xs, i - 1);
      InvariantKept(t, ws[i - 1], xs[i - 1].now, xs[i - 1].step);
    }
  }

  lemma ReachableInvariant(t: Terms, w: World)
    requires Reachable(t, w)
    ensures Invariant(w)
  {
    var ws, xs :| IsRun(t, ws, xs) && ws[|xs|] == w;
    RunInvariant(t, ws, xs, |xs|);
  }

  /** Induction along a stretch of a run. */
  lemma {:induction false} AlongRun(ws: seq<World>, i: nat, j: nat, holds: World -> bool)
    requires i <= j < |ws| && holds(ws[i])
    requires forall k :: i <= k < j && holds(ws[k]) ==> holds(ws[k + 1])
    ensures holds(ws[j])
  {
    if i < j {
      AlongRun(ws, i, j - 1, holds);
    }
  }
}
