// Runs that reach the exceptions: each claim that holds only under a condition fails in a world
// that some run leads to.
module Witnesses {
  import opened Prelude
  import opened ViolationRecords
  import TabSwitchLog
  import FaceLog
  import opened Lifecycle
  import opened LifecycleRuns
  import opened LifecycleTheorems
  import opened KnownRecords
  import opened DeliveryTheorems

  const SECRET := "secret"
  const FIRST := "first"

  const LATE: Time := RECONNECT_WINDOW + 1

  /** The window of the assessment is open for as long as the witnesses need. */
  predicate Open(t: Terms) { t.windowEnd.Some? ==> t.windowEnd.value > LATE }

  /** The candidate has entered and connected. */
  function Connected(t: Terms): World {
    Next(t, Next(t, START, 0, EnterStep(t.invitation, SECRET)), 0, AuthorizeStep(SECRET, FIRST))
  }

  lemma ConnectedIsLive(t: Terms)
    requires Open(t)
    ensures Reachable(t, Connected(t)) && Connected(t).clock == 0 && Connected(t).issued == {FIRST}
    ensures var s := Connected(t).state;
            && s.session.Some? && !s.candidate.status.Stopped?
            && var row := s.session.value;
               && row == NEW_SESSION.(token := Some(SECRET), tokenExpiresAt := row.tokenExpiresAt,
                                      activeConnection := Some(FIRST))
               && row.tokenExpiresAt.Some? && row.tokenExpiresAt.value > LATE
  {
    var enter := EnterStep(t.invitation, SECRET);
    StartReachable(t);
    ReachableNext(t, START, 0, enter);
    ReachableNext(t, Next(t, START, 0, enter), 0, AuthorizeStep(SECRET, FIRST));
  }

  // ------------------------------------------------------- an appended record is forgotten

  /** The least message of type `k` that the connected session accepts. */
  function Message(t: Terms, k: Kind, eventId: string): (r: Step)
    requires !k.Other?
    ensures r.FacePacketStep? ==> r.packet.kind == k && FaceLog.Qualified(r.packet)
  {
    if k == TabSwitch then TabSwitchStep(FIRST, t.enrollmentId, eventId, "now")
    else
      var stats := NO_STATS.(durationMs := 5_000, faces := if k == FaceAbsent then 0 else 2);
      FacePacketStep(FIRST, t.enrollmentId, FaceLog.Packet(eventId, k, "then", stats), "now")
  }

  lemma MessageIsStored(t: Terms, w: World, k: Kind, eventId: string)
    requires !k.Other? && w.state.session.Some? && CurrentConnection(w.state.session.value, FIRST)
    requires eventId !in EventIds(OfKind(w.state.session.value.violations, k))
    ensures Folded(t, w, 0, Message(t, k, eventId)) == Some(k)
    ensures Next(t, w, 0, Message(t, k, eventId)).state.session.Some?
  {
  }

  lemma FaceMessageLeavesLive(t: Terms, w: World, eventId: string)
    requires w.state.session.Some? && CurrentConnection(w.state.session.value, FIRST)
    ensures var s := Next(t, w, 0, Message(t, FaceAbsent, eventId)).state;
            s.session.Some? && CurrentConnection(s.session.value, FIRST)
  {
  }

  lemma FirstRecord(t: Terms, v: Violation)
    requires Open(t) && v.Record? && v.violationId != ""
    ensures var w := Next(t, Connected(t), 0, ViolationStep(v));
            && Reachable(t, w) && w.clock == 0 && Stores(t, Connected(t), 0, ViolationStep(v))
            && w.state.session.Some? && RowOf(w.state).violations == [v]
            && RowOf(w.state) == RowOf(Connected(t).state).(violations := [v])
  {
    ConnectedIsLive(t);
    ReachableNext(t, Connected(t), 0, ViolationStep(v));
  }

  /** For each consolidated type and every record of it without the canonical identifier: stored
      once, then a message of its type, and a redelivery stores it a second time. */
  lemma RecordIsForgotten(t: Terms, v: Violation, eventId: string)
    requires Open(t) && v.Record? && !v.kind.Other?
    requires v.violationId != "" && v.violationId != CanonicalId(v.kind)
    requires eventId != "" && eventId !in EventIds([v])
    ensures var w := Next(t, Connected(t), 0, ViolationStep(v));
            var after := Next(t, w, 0, Message(t, v.kind, eventId));
            var again := Apply(t, after.state, 0, ViolationStep(v));
            && Stores(t, Connected(t), 0, ViolationStep(v))
            && Reachable(t, after)
            && again.reply == AppendReply(true)
            && RowOf(again.state).violations == RowOf(after.state).violations + [v]
  {
    var w, message := Next(t, Connected(t), 0, ViolationStep(v)), Message(t, v.kind, eventId);
    ConnectedIsLive(t);
    FirstRecord(t, v);
    assert [v][..0] == [] && OfKind([v], v.kind) == [v];
    MessageIsStored(t, w, v.kind, eventId);
    ReachableNext(t, w, 0, message);
    MessageChange(t, w, 0, message);
    SurvivesExactly([], v, v.kind, Canonical(w, message));
    assert [] + [v] == [v];
    RedeliveredRecord(t, Next(t, w, 0, message).state, 0, v);
  }

  /** A tab record that goes by the canonical identifier of the missing-face type. */
  const IMPOSTOR := Record(CanonicalId(FaceAbsent), TabSwitch, 1, "low", "then", NO_METADATA)

  function ImpostorStored(t: Terms): World { Next(t, Connected(t), 0, ViolationStep(IMPOSTOR)) }

  function FaceReported(t: Terms): World { Next(t, ImpostorStored(t), 0, Message(t, FaceAbsent, "e1")) }

  lemma IdentifierIsTaken(canonical: Violation)
    requires IsKind(canonical, FaceAbsent) && canonical.violationId == CanonicalId(FaceAbsent)
    ensures var vs := ReplaceKind([IMPOSTOR], FaceAbsent, canonical);
            AllRecords(vs) && KindHasId(vs, FaceAbsent, IMPOSTOR.violationId) && OfKind(vs, TabSwitch) == [IMPOSTOR]
  {
    assert [IMPOSTOR][..0] == [];
    ReplaceKindIds([IMPOSTOR], FaceAbsent, canonical, IMPOSTOR.violationId);
    KindAfterFold([IMPOSTOR], FaceAbsent, canonical, FaceAbsent, IMPOSTOR.violationId);
    ReplaceKindKinds([IMPOSTOR], FaceAbsent, canonical, TabSwitch);
  }

  lemma FaceReportedIsLive(t: Terms)
    requires Open(t)
    ensures var s := FaceReported(t).state;
            && Reachable(t, FaceReported(t)) && FaceReported(t).clock == 0
            && s.session.Some? && CurrentConnection(s.session.value, FIRST)
            && RowOf(s).violations
               == ReplaceKind([IMPOSTOR], FaceAbsent, Canonical(ImpostorStored(t), Message(t, FaceAbsent, "e1")))
  {
    var w, message := ImpostorStored(t), Message(t, FaceAbsent, "e1");
    ConnectedIsLive(t);
    FirstRecord(t, IMPOSTOR);
    assert [IMPOSTOR][..0] == [] && OfKind([IMPOSTOR], FaceAbsent) == [];
    MessageIsStored(t, w, FaceAbsent, "e1");
    FaceMessageLeavesLive(t, w, "e1");
    ReachableNext(t, w, 0, message);
    MessageChange(t, w, 0, message);
  }

  lemma StillKnown(vs: seq<Violation>, canonical: Violation)
    requires AllRecords(vs) && KindHasId(vs, FaceAbsent, IMPOSTOR.violationId) && IsKind(canonical, TabSwitch)
    ensures FindId(ReplaceKind(vs, TabSwitch, canonical), IMPOSTOR.violationId) == Found
  {
    ReplaceKindIds(vs, TabSwitch, canonical, IMPOSTOR.violationId);
    FindIdFinds(ReplaceKind(vs, TabSwitch, canonical), IMPOSTOR.violationId);
  }

  /** A record without its own canonical identifier that is still known right after a message of its
      type: a face packet took the identifier before the tab switch folded the record away. */
  lemma ImpostorIsStillKnown(t: Terms)
    requires Open(t)
    ensures var w := Next(t, FaceReported(t), 0, Message(t, TabSwitch, "e2"));
            && Reachable(t, w)
            && Stores(t, FaceReported(t), 0, Message(t, TabSwitch, "e2"))
            && Apply(t, w.state, 0, ViolationStep(IMPOSTOR)) == Result(w.state, AppendReply(false))
  {
    var w, message := FaceReported(t), Message(t, TabSwitch, "e2");
    FaceReportedIsLive(t);
    IdentifierIsTaken(Canonical(ImpostorStored(t), Message(t, FaceAbsent, "e1")));
    assert [IMPOSTOR][..0] == [] && EventIds([IMPOSTOR]) == [];
    MessageIsStored(t, w, TabSwitch, "e2");
    ReachableNext(t, w, 0, message);
    MessageChange(t, w, 0, message);
    StillKnown(RowOf(w.state).violations, Canonical(w, message));
    RedeliveredRecord(t, Next(t, w, 0, message).state, 0, IMPOSTOR);
  }

  // ------------------------------------------------------------- terminated and overwritten

  /** A missing face long enough to end the interview. */
  function LongAbsence(t: Terms): Step {
    FacePacketStep(FIRST, t.enrollmentId,
                   FaceLog.Packet("absence", FaceAbsent, "then", NO_STATS.(durationMs := 30_000)), "now")
  }

  lemma AbsenceEnds(t: Terms, w: World)
    requires w.state.session.Some? && CurrentConnection(w.state.session.value, FIRST)
    requires w.state.session.value.violations == []
    ensures var s := Next(t, w, 0, LongAbsence(t)).state;
            && s.session.Some? && s.session.value.status == Terminated
            && s.candidate.status == Stopped && s.candidate.endedAt.Some?
  {
  }

  lemma AbsenceTerminates(t: Terms)
    requires Open(t)
    ensures var w := Next(t, Connected(t), 0, LongAbsence(t));
            && Reachable(t, w) && w.clock == 0 && w.state.session.Some?
            && w.state.session.value.status == Terminated && Agree(w.state)
  {
    ConnectedIsLive(t);
    AbsenceEnds(t, Connected(t));
    ReachableNext(t, Connected(t), 0, LongAbsence(t));
  }

  /** The engine completing the candidate of a terminated session parts the two rows, and marking
      that session in progress reopens it. */
  lemma TerminatedIsOverwritten(t: Terms)
    requires Open(t)
    ensures var w := Next(t, Connected(t), 0, LongAbsence(t));
            var parted, reopened := Next(t, w, 0, CandidateCompletedStep), Next(t, w, 0, MarkInProgressStep);
            && Reachable(t, w) && TerminalSession(RowOf(w.state).status) && Agree(w.state)
            && Reachable(t, parted) && !Agree(parted.state)
            && Reachable(t, reopened) && RowOf(reopened.state).status == InProgress
  {
    var w := Next(t, Connected(t), 0, LongAbsence(t));
    AbsenceTerminates(t);
    ReachableNext(t, w, 0, CandidateCompletedStep);
    ReachableNext(t, w, 0, MarkInProgressStep);
    AgreementKeptExactly(t, w.state, 0, CandidateCompletedStep);
  }

  function Dropped(t: Terms): World { Next(t, Connected(t), 0, DisconnectStep(FIRST, 0)) }

  lemma DroppedWaits(t: Terms)
    requires Open(t)
    ensures Reachable(t, Dropped(t)) && Dropped(t).clock == 0 && Dropped(t).issued == {FIRST}
    ensures var s := Dropped(t).state;
            && IsDisconnected(s) && s.session.value.lastDisconnectedAt == Some(0)
            && s.session.value.disconnectCount == 1 && s.session.value.timeoutCount == 0
            && TokenProblem(t, s, SECRET, LATE).None?
  {
    ConnectedIsLive(t);
    ReachableNext(t, Connected(t), 0, DisconnectStep(FIRST, 0));
  }

  function TooLate(t: Terms): World { Next(t, Dropped(t), LATE, AuthorizeStep(SECRET, "second")) }

  lemma LateReturnIsRefused(t: Terms, w: World)
    requires Invariant(w) && IsDisconnected(w.state) && TokenProblem(t, w.state, SECRET, LATE).None?
    requires w.state.session.value.lastDisconnectedAt == Some(0)
    ensures var a, b := w.state.session.value, RowOf(Next(t, w, LATE, AuthorizeStep(SECRET, "second")).state);
            b == TimedOut(a)
  {
  }

  lemma TooLateIsReached(t: Terms)
    requires Open(t)
    ensures Reachable(t, TooLate(t)) && TooLate(t).clock == LATE
  {
    DroppedWaits(t);
    ReachableNext(t, Dropped(t), LATE, AuthorizeStep(SECRET, "second"));
  }

  lemma TooLateIsStruckOut(t: Terms)
    requires Open(t)
    ensures var row := RowOf(TooLate(t).state);
            row.status == Terminated && row.timeoutCount == 1 && row.disconnectCount == 1
  {
    DroppedWaits(t);
    ReachableInvariant(t, Dropped(t));
    LateReturnIsRefused(t, Dropped(t));
  }

  /** Marking a session in progress whose reconnection window has expired forgets the strike. */
  lemma StrikeIsForgotten(t: Terms)
    requires Open(t)
    ensures var reopened := Next(t, TooLate(t), LATE, MarkInProgressStep);
            && Reachable(t, TooLate(t)) && WithinStrikes(RowOf(TooLate(t).state))
            && Reachable(t, reopened) && !WithinStrikes(RowOf(reopened.state))
  {
    TooLateIsReached(t);
    TooLateIsStruckOut(t);
    ReachableNext(t, TooLate(t), LATE, MarkInProgressStep);
    StrikesKeptExactly(t, TooLate(t).state, LATE, MarkInProgressStep);
  }

  /** An appended tab record that declares five switches breaks the cap on a live session. */
  lemma CapIsBroken(t: Terms)
    requires Open(t)
    ensures var v := Record("legacy", TabSwitch, 1, "low", "then", NO_METADATA.(tabSwitchCount := Some(5)));
            var w := Next(t, Connected(t), 0, ViolationStep(v));
            && Reachable(t, w) && RowOf(w.state).status == Initializing && !WithinTabs(RowOf(w.state))
  {
    var v := Record("legacy", TabSwitch, 1, "low", "then", NO_METADATA.(tabSwitchCount := Some(5)));
    ConnectedIsLive(t);
    FirstRecord(t, v);
    TabSwitchLog.AppendKeepsTabs([], v, "");
    assert [] + [v] == [v];
  }

  lemma TenSecondsIn(t: Terms)
    requires Open(t)
    ensures var w := Next(t, Connected(t), 0, ElapsedStep(10));
            Reachable(t, w) && w.clock == 0 && w.state.session.Some? && RowOf(w.state).elapsedSecs == 10
  {
    ConnectedIsLive(t);
    ReachableNext(t, Connected(t), 0, ElapsedStep(10));
  }

  /** Completion with a smaller total loses interview time. */
  lemma ElapsedIsLost(t: Terms)
    requires Open(t)
    ensures var w := Next(t, Connected(t), 0, ElapsedStep(10));
            var completed := Next(t, w, 0, CompleteStep(0));
            && Reachable(t, w) && RowOf(w.state).elapsedSecs == 10
            && Reachable(t, completed) && RowOf(completed.state).elapsedSecs == 0
  {
    TenSecondsIn(t);
    ReachableNext(t, Next(t, Connected(t), 0, ElapsedStep(10)), 0, CompleteStep(0));
  }
}
