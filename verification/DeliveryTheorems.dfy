// What happens to messages that arrive more than once, late, or from an old connection, and what
// the stored violation list means along every run.
module DeliveryTheorems {
  import opened Prelude
  import opened ViolationRecords
  import TabSwitchLog
  import FaceLog
  import opened ProctoringRefinement
  import opened KnownRecords
  import opened Lifecycle
  import opened LifecycleRuns
  import opened LifecycleTheorems

  // ------------------------------------------------------------ what steps do to the lists

  /** The step was stored in `w`. */
  predicate Stores(t: Terms, w: World, now: Time, step: Step) {
    var reply := Apply(t, w.state, now, step).reply;
    match step
    case DisconnectStep(_, _) => reply.DisconnectRecorded?
    case TabSwitchStep(_, _, _, _) => reply.TabReply? && reply.recorded
    case FacePacketStep(_, _, _, _) => reply.FaceReply? && reply.recorded
    case TurnStep(_, _) => reply == AppendReply(true)
    case ViolationStep(_) => reply == AppendReply(true)
    case _ => false
  }

  /** The type that an accepted proctoring message consolidates. */
  function Folded(t: Terms, w: World, now: Time, step: Step): Option<Kind> {
    if step.TabSwitchStep? && Stores(t, w, now, step) then Some(TabSwitch)
    else if step.FacePacketStep? && Stores(t, w, now, step) then Some(step.packet.kind)
    else None
  }

  /** The canonical record that a proctoring message leaves. */
  function Canonical(w: World, step: Step): (r: Violation)
    requires step.TabSwitchStep? || step.FacePacketStep?
    ensures r.Record? && r.violationId == CanonicalId(r.kind)
  {
    var row := RowOf(w.state);
    if step.TabSwitchStep? then TabSwitchLog.TabRecord(row.violations, |row.transcript|, step.eventId, step.occurredAt)
    else FaceLog.FaceRecord(row.violations, |row.transcript|, step.packet, step.recordedAt)
  }

  lemma MessageChange(t: Terms, w: World, now: Time, step: Step)
    requires step.TabSwitchStep? || step.FacePacketStep?
    ensures var a, b := RowOf(w.state).violations, RowOf(Next(t, w, now, step).state).violations;
            var k := Folded(t, w, now, step);
            if k.Some? then !k.value.Other? && IsKind(Canonical(w, step), k.value)
                            && b == ReplaceKind(a, k.value, Canonical(w, step))
            else b == a
  {
  }

  lemma RecordChange(t: Terms, w: World, now: Time, step: Step)
    requires step.ViolationStep?
    ensures var a, b := RowOf(w.state).violations, RowOf(Next(t, w, now, step).state).violations;
            if Stores(t, w, now, step)
            then && step.violation.Record? && step.violation.violationId != ""
                 && FindId(a, step.violation.violationId) == Missing && b == a + [step.violation]
            else b == a
  {
  }

  lemma NoListChange(t: Terms, w: World, now: Time, step: Step)
    requires !step.TabSwitchStep? && !step.FacePacketStep? && !step.ViolationStep?
    ensures RowOf(Next(t, w, now, step).state).violations == RowOf(w.state).violations
  {
    match step
    case EnterStep(invitation, secret) => EnterCases(t, w.state, invitation, secret, now);
    case _ =>
  }

  /** How a step can change the violation list: an accepted message consolidates its type, an
      accepted record is appended, and nothing else touches it. */
  lemma ListChange(t: Terms, w: World, now: Time, step: Step)
    ensures var a, b := RowOf(w.state).violations, RowOf(Next(t, w, now, step).state).violations;
            var k := Folded(t, w, now, step);
            if k.Some? then && !k.value.Other? && IsKind(Canonical(w, step), k.value)
                            && b == ReplaceKind(a, k.value, Canonical(w, step))
            else if step.ViolationStep? && Stores(t, w, now, step)
            then && step.violation.Record? && step.violation.violationId != ""
                 && FindId(a, step.violation.violationId) == Missing && b == a + [step.violation]
            else b == a
  {
    if step.TabSwitchStep? || step.FacePacketStep? {
      MessageChange(t, w, now, step);
    } else if step.ViolationStep? {
      RecordChange(t, w, now, step);
    } else {
      NoListChange(t, w, now, step);
    }
  }

  lemma TranscriptChange(t: Terms, w: World, now: Time, step: Step)
    ensures var a, b := RowOf(w.state).transcript, RowOf(Next(t, w, now, step).state).transcript;
            b == if step.TurnStep? && Stores(t, w, now, step) then a + [step.turn] else a
  {
    match step
    case EnterStep(invitation, secret) => EnterCases(t, w.state, invitation, secret, now);
    case _ =>
  }

  /** A message consolidates its type exactly if it is new to the stored list. */
  lemma FoldIsStep(t: Terms, w: World, now: Time, step: Step)
    requires Folded(t, w, now, step).Some?
    ensures var row := RowOf(w.state);
            var b := ReplaceKind(row.violations, Folded(t, w, now, step).value, Canonical(w, step));
            match step
            case TabSwitchStep(_, _, id, at) =>
              && id !in TabSwitchLog.TabEventIds(row.violations)
              && b == TabSwitchLog.TabStep(row.violations, |row.transcript|, id, at).violations
            case FacePacketStep(_, _, p, at) =>
              && FaceLog.Qualified(p) && !FaceLog.Duplicate(row.violations, p)
              && b == FaceLog.FaceStep(row.violations, |row.transcript|, p, at).violations
            case _ => true
  {
  }

  // ---------------------------------------------------- at-least-once is exactly-once

  /** `again` delivers the message of `earlier` again. What identifies the message is fixed;
      everything the sender or the server may stamp anew is not: the connection, the time of
      occurrence or recording, the elapsed seconds, and the statistics of a face packet as long as
      it reports no longer a duration. */
  predicate Redelivers(earlier: Step, again: Step) {
    match earlier
    case DisconnectStep(connectionId, _) => again.DisconnectStep? && again.connectionId == connectionId
    case TabSwitchStep(_, _, eventId, _) => again.TabSwitchStep? && again.eventId == eventId
    case FacePacketStep(_, _, p, _) =>
      && again.FacePacketStep? && again.packet.eventId == p.eventId
      && again.packet.kind == p.kind && again.packet.startedAt == p.startedAt
      && again.packet.stats.durationMs <= p.stats.durationMs
    case TurnStep(turn, _) => again.TurnStep? && again.turn.turnId == turn.turnId
    case ViolationStep(v) =>
      && again.ViolationStep? && again.violation.Record? && v.Record?
      && again.violation.violationId == v.violationId
    case _ => false
  }

  /** The rows remember the step. */
  ghost predicate Settled(w: World, step: Step) {
    var row := RowOf(w.state);
    match step
    case DisconnectStep(connectionId, _) => Retired(w, connectionId)
    case TabSwitchStep(_, _, eventId, _) => eventId in TabSwitchLog.TabEventIds(row.violations)
    case FacePacketStep(_, _, packet, _) => packet.kind != TabSwitch && FaceLog.FaceSettled(row.violations, packet)
    case TurnStep(turn, _) => KnownTurn(row.transcript, turn.turnId)
    case ViolationStep(v) => v.Record? && v.violationId != "" && HasLasting(row.violations, v.violationId)
    case _ => false
  }

  lemma TabIdsKept(t: Terms, w: World, now: Time, step: Step, eventId: string)
    requires Enabled(w, now, step) && eventId in TabSwitchLog.TabEventIds(RowOf(w.state).violations)
    ensures eventId in TabSwitchLog.TabEventIds(RowOf(Next(t, w, now, step).state).violations)
  {
    var vs, turns := RowOf(w.state).violations, |RowOf(w.state).transcript|;
    ListChange(t, w, now, step);
    if Folded(t, w, now, step).Some? {
      FoldIsStep(t, w, now, step);
      match step
      case TabSwitchStep(_, _, id, at) => TabSwitchLog.AcceptedTabSwitch(vs, turns, id, at, TabSwitch);
      case FacePacketStep(_, _, p, at) => FaceLog.AcceptedFacePacket(vs, turns, p, at, TabSwitch);
    } else if step.ViolationStep? {
      TabSwitchLog.AppendKeepsTabs(vs, step.violation, eventId);
    }
  }

  lemma FacePacketKept(t: Terms, w: World, now: Time, step: Step, packet: FaceLog.Packet)
    requires Enabled(w, now, step) && packet.kind != TabSwitch
    requires FaceLog.FaceSettled(RowOf(w.state).violations, packet)
    ensures FaceLog.FaceSettled(RowOf(Next(t, w, now, step).state).violations, packet)
  {
    var vs, turns := RowOf(w.state).violations, |RowOf(w.state).transcript|;
    ListChange(t, w, now, step);
    if Folded(t, w, now, step).Some? {
      FoldIsStep(t, w, now, step);
      match step
      case TabSwitchStep(_, _, id, at) => FaceLog.TabStepKeepsFaces(vs, turns, id, at, packet.kind);
      case FacePacketStep(_, _, p, at) => FaceLog.FaceStepKeepsSettled(vs, turns, p, at, packet);
    } else if step.ViolationStep? {
      FaceLog.AppendKeepsSettled(vs, step.violation, packet);
    }
  }

  lemma LastingKept(t: Terms, w: World, now: Time, step: Step, id: string)
    requires HasLasting(RowOf(w.state).violations, id)
    ensures HasLasting(RowOf(Next(t, w, now, step).state).violations, id)
  {
    var vs, k := RowOf(w.state).violations, Folded(t, w, now, step);
    ListChange(t, w, now, step);
    if k.Some? {
      ReplaceKindKeepsLasting(vs, k.value, Canonical(w, step), id);
    } else if step.ViolationStep? && Stores(t, w, now, step) {
      AppendKeepsLasting(vs, step.violation, id);
    }
  }

  lemma TurnKept(t: Terms, w: World, now: Time, step: Step, turnId: string)
    requires KnownTurn(RowOf(w.state).transcript, turnId)
    ensures KnownTurn(RowOf(Next(t, w, now, step).state).transcript, turnId)
  {
    TranscriptChange(t, w, now, step);
    var a, b := RowOf(w.state).transcript, RowOf(Next(t, w, now, step).state).transcript;
    var k :| 0 <= k < |a| && a[k].turnId == turnId;
    assert b[k] == a[k];
  }

  lemma SettledKept(t: Terms, w: World, now: Time, step: Step, earlier: Step)
    requires Invariant(w) && Enabled(w, now, step) && Settled(w, earlier)
    ensures Settled(Next(t, w, now, step), earlier)
  {
    match earlier
    case DisconnectStep(connectionId, _) => StaysRetired(t, w, now, step, connectionId);
    case TabSwitchStep(_, _, eventId, _) => TabIdsKept(t, w, now, step, eventId);
    case FacePacketStep(_, _, packet, _) => FacePacketKept(t, w, now, step, packet);
    case TurnStep(turn, _) => TurnKept(t, w, now, step, turn.turnId);
    case ViolationStep(v) => LastingKept(t, w, now, step, v.violationId);
  }

  lemma DropSettles(t: Terms, w: World, now: Time, connectionId: string, elapsedSecs: int)
    requires Invariant(w) && Stores(t, w, now, DisconnectStep(connectionId, elapsedSecs))
    ensures Retired(Next(t, w, now, DisconnectStep(connectionId, elapsedSecs)), connectionId)
  {
  }

  lemma MessageSettles(t: Terms, w: World, now: Time, step: Step)
    requires Enabled(w, now, step) && Folded(t, w, now, step).Some?
    ensures Settled(Next(t, w, now, step), step)
  {
    var vs, turns := RowOf(w.state).violations, |RowOf(w.state).transcript|;
    ListChange(t, w, now, step);
    FoldIsStep(t, w, now, step);
    match step
    case TabSwitchStep(_, _, eventId, at) => TabSwitchLog.AcceptedTabSwitch(vs, turns, eventId, at, TabSwitch);
    case FacePacketStep(_, _, p, at) => FaceLog.AcceptanceSettles(vs, turns, p, at);
  }

  lemma AppendSettles(t: Terms, w: World, now: Time, step: Step)
    requires Stores(t, w, now, step)
    requires step.TurnStep? || (step.ViolationStep? && Lasting(step.violation))
    ensures Settled(Next(t, w, now, step), step)
  {
    var row := RowOf(w.state);
    if step.TurnStep? {
      TranscriptChange(t, w, now, step);
      assert (row.transcript + [step.turn])[|row.transcript|].turnId == step.turn.turnId;
    } else {
      ListChange(t, w, now, step);
      FindIdFinds(row.violations, step.violation.violationId);
      AppendKeepsLasting(row.violations, step.violation, step.violation.violationId);
    }
  }

  lemma StoringSettles(t: Terms, w: World, now: Time, step: Step)
    requires Invariant(w) && Enabled(w, now, step) && Stores(t, w, now, step)
    requires step.ViolationStep? ==> Lasting(step.violation)
    ensures Settled(Next(t, w, now, step), step)
  {
    match step
    case DisconnectStep(connectionId, secs) => DropSettles(t, w, now, connectionId, secs);
    case TabSwitchStep(_, _, _, _) => MessageSettles(t, w, now, step);
    case FacePacketStep(_, _, _, _) => MessageSettles(t, w, now, step);
    case _ => AppendSettles(t, w, now, step);
  }

  /** Equal up to the elapsed time a redelivered turn may carry. */
  predicate SameButElapsed(a: State, b: State) {
    && a.candidate == b.candidate && a.log == b.log && (a.session.Some? <==> b.session.Some?)
    && (a.session.Some? ==> a.session.value.(elapsedSecs := 0) == b.session.value.(elapsedSecs := 0))
  }

  lemma SettledIgnored(t: Terms, w: World, now: Time, earlier: Step, again: Step)
    requires Settled(w, earlier) && Redelivers(earlier, again)
    ensures var s := Apply(t, w.state, now, again).state;
            if again.TurnStep? then SameButElapsed(s, w.state) else s == w.state
  {
    if earlier.ViolationStep? {
      FindIdFinds(RowOf(w.state).violations, earlier.violation.violationId);
    }
  }

  lemma SettledForever(t: Terms, ws: seq<World>, xs: seq<Timed>, i: nat, j: nat, earlier: Step)
    requires IsRun(t, ws, xs) && i <= j < |ws| && Settled(ws[i], earlier)
    ensures Settled(ws[j], earlier)
  {
    forall k | i <= k < j && Settled(ws[k], earlier) ensures Settled(ws[k + 1], earlier) {
      RunInvariant(t, ws, xs, k);
      SettledKept(t, ws[k], xs[k].now, xs[k].step, earlier);
    }
    AlongRun(ws, i, j, (w: World) => Settled(w, earlier));
  }

  /** At-least-once delivery has exactly-once effect: delivering a stored disconnect, tab switch,
      face packet, transcript turn or lasting violation record again, at any later point of any run,
      over whatever connection and whatever happened in between, changes neither row nor the
      log. */
  lemma RedeliveryIsIgnored(t: Terms, ws: seq<World>, xs: seq<Timed>, i: nat, j: nat, now: Time, again: Step)
    requires IsRun(t, ws, xs) && i < j < |ws|
    requires Stores(t, ws[i], xs[i].now, xs[i].step) && Redelivers(xs[i].step, again)
    requires xs[i].step.ViolationStep? ==> Lasting(xs[i].step.violation)
    ensures var s := Apply(t, ws[j].state, now, again).state;
            if again.TurnStep? then SameButElapsed(s, ws[j].state) else s == ws[j].state
  {
    RunInvariant(t, ws, xs, i);
    StoringSettles(t, ws[i], xs[i].now, xs[i].step);
    SettledForever(t, ws, xs, i + 1, j, xs[i].step);
    SettledIgnored(t, ws[j], now, xs[i].step, again);
  }

  // --------------------------------------- exactly when an appended record is forgotten

  /** What a step changes in the violation list. */
  function ChangeOf(t: Terms, w: World, x: Timed): Change {
    var k := Folded(t, w, x.now, x.step);
    if k.Some? then Consolidated(k.value)
    else if x.step.ViolationStep? && Stores(t, w, x.now, x.step) then Stored(x.step.violation)
    else Unchanged
  }

  function Changes(t: Terms, ws: seq<World>, xs: seq<Timed>): (r: seq<Change>)
    requires |xs| <= |ws|
    ensures |r| == |xs|
  {
    seq(|xs|, m requires 0 <= m < |xs| => ChangeOf(t, ws[m], xs[m]))
  }

  function Lists(ws: seq<World>): (r: seq<seq<Violation>>)
    ensures |r| == |ws|
  {
    seq(|ws|, m requires 0 <= m < |ws| => RowOf(ws[m].state).violations)
  }

  lemma StepEvolves(t: Terms, w: World, x: Timed)
    ensures Evolves(RowOf(w.state).violations, ChangeOf(t, w, x), RowOf(Next(t, w, x.now, x.step).state).violations)
  {
    ListChange(t, w, x.now, x.step);
  }

  lemma RunEvolves(t: Terms, ws: seq<World>, xs: seq<Timed>, m: nat)
    requires IsRun(t, ws, xs) && m < |xs|
    ensures Evolves(Lists(ws)[m], Changes(t, ws, xs)[m], Lists(ws)[m + 1])
  {
    StepEvolves(t, ws[m], xs[m]);
  }

  lemma RunHistory(t: Terms, ws: seq<World>, xs: seq<Timed>)
    requires IsRun(t, ws, xs)
    ensures History(Lists(ws), Changes(t, ws, xs))
  {
    var lists, cs := Lists(ws), Changes(t, ws, xs);
    forall m {:trigger cs[m]} | 0 <= m < |cs| ensures Evolves(lists[m], cs[m], lists[m + 1]) {
      RunEvolves(t, ws, xs, m);
    }
  }

  lemma SessionStays(t: Terms, w: World, now: Time, step: Step)
    requires w.state.session.Some?
    ensures Next(t, w, now, step).state.session.Some?
  {
    match step
    case EnterStep(invitation, secret) => EnterCases(t, w.state, invitation, secret, now);
    case _ =>
  }

  lemma SessionForever(t: Terms, ws: seq<World>, xs: seq<Timed>, i: nat, j: nat)
    requires IsRun(t, ws, xs) && i <= j < |ws| && ws[i].state.session.Some?
    ensures ws[j].state.session.Some?
  {
    forall k | i <= k < j && ws[k].state.session.Some? ensures ws[k + 1].state.session.Some? {
      SessionStays(t, ws[k], xs[k].now, xs[k].step);
    }
    AlongRun(ws, i, j, (w: World) => w.state.session.Some?);
  }

  /** A step's change is to store `v` exactly if it is an accepted delivery of `v`. */
  lemma StoredIsDelivered(t: Terms, w: World, x: Timed, v: Violation)
    ensures ChangeOf(t, w, x) == Stored(v) <==> x.step == ViolationStep(v) && Stores(t, w, x.now, x.step)
    ensures ChangeOf(t, w, x) == Stored(v) ==> v.Record? && v.violationId != "" && w.state.session.Some?
  {
  }

  /** Delivering `v` in `s` changes nothing if it is known there, and stores it otherwise. */
  ghost predicate StoredUnless(known: bool, t: Terms, s: State, now: Time, v: Violation) {
    var r := Apply(t, s, now, ViolationStep(v));
    if known then r == Result(s, AppendReply(false))
    else r.reply == AppendReply(true) && RowOf(r.state).violations == RowOf(s).violations + [v]
  }

  lemma RedeliveredRecord(t: Terms, s: State, now: Time, v: Violation)
    requires v.Record? && v.violationId != "" && s.session.Some?
    requires FindId(RowOf(s).violations, v.violationId) != NotAnObject
    ensures StoredUnless(FindId(RowOf(s).violations, v.violationId) == Found, t, s, now, v)
  {
  }

  /** Which appended records are not idempotent, exactly, at every later time. Take any record that
      step `i` of any run stored (see StoredIsDelivered). Redelivering it at any later world `j`
      changes nothing if and only if, for some type, the steps since `i` leave a record of that type
      under its identifier (see `Leaves`); otherwise it is stored again. */
  lemma RedeliveryExactly(t: Terms, ws: seq<World>, xs: seq<Timed>, i: nat, j: nat, now: Time, v: Violation)
    requires IsRun(t, ws, xs) && i < j < |ws| && Changes(t, ws, xs)[i] == Stored(v)
    ensures v.Record?
    ensures StoredUnless(Known(Changes(t, ws, xs), i, j, v.violationId), t, ws[j].state, now, v)
  {
    StoredIsDelivered(t, ws[i], xs[i], v);
    RunEvolves(t, ws, xs, i);
    RunHistory(t, ws, xs);
    KnownExactly(Lists(ws), Changes(t, ws, xs), i, j, v.violationId);
    SessionForever(t, ws, xs, i, j);
    RedeliveredRecord(t, ws[j].state, now, v);
  }

  /** As long as no message of its own type has been accepted since, redelivering a stored record
      changes nothing. */
  lemma KnownUntilOwnMessage(t: Terms, ws: seq<World>, xs: seq<Timed>, i: nat, j: nat, now: Time, v: Violation)
    requires IsRun(t, ws, xs) && i < j < |ws| && StoredAt(Changes(t, ws, xs), i, j, v)
    ensures StoredUnless(true, t, ws[j].state, now, v)
  {
    KnownUntilConsolidated(Changes(t, ws, xs), i, j, v);
    RedeliveryExactly(t, ws, xs, i, j, now, v);
  }

  lemma KnownAfterOwnMessage(t: Terms, ws: seq<World>, xs: seq<Timed>, i: nat, j: nat, v: Violation)
    requires IsRun(t, ws, xs) && i < j < |xs| && StoredAt(Changes(t, ws, xs), i, j, v)
    requires Changes(t, ws, xs)[j] == Consolidated(v.kind)
    ensures Known(Changes(t, ws, xs), i, j + 1, v.violationId)
       <==> v.violationId == CanonicalId(v.kind) || Taken(Changes(t, ws, xs), i, j, v.violationId)
  {
    RunHistory(t, ws, xs);
    KnownAfterOwnFold(Lists(ws), Changes(t, ws, xs), i, j, v);
  }

  /** Right after the next accepted message of its own type, at step `j`, redelivering a record
      stored at step `i` changes nothing if and only if the record carries the canonical identifier
      of its type, or a message in between left a canonical record of another type under the same
      identifier; otherwise it is stored a second time. (Records of other types never meet such a
      message.) */
  lemma ForgottenExactly(t: Terms, ws: seq<World>, xs: seq<Timed>, i: nat, j: nat, now: Time, v: Violation)
    requires IsRun(t, ws, xs) && i < j < |xs| && StoredAt(Changes(t, ws, xs), i, j, v)
    requires Changes(t, ws, xs)[j] == Consolidated(v.kind)
    ensures StoredUnless(v.violationId == CanonicalId(v.kind) || Taken(Changes(t, ws, xs), i, j, v.violationId),
                         t, ws[j + 1].state, now, v)
  {
    var cs := Changes(t, ws, xs);
    KnownAfterOwnMessage(t, ws, xs, i, j, v);
    RedeliveryExactly(t, ws, xs, i, j + 1, now, v);
    SameAnswer(Known(cs, i, j + 1, v.violationId),
               v.violationId == CanonicalId(v.kind) || Taken(cs, i, j, v.violationId), t, ws[j + 1].state, now, v);
  }

  lemma SameAnswer(a: bool, b: bool, t: Terms, s: State, now: Time, v: Violation)
    requires (a <==> b) && StoredUnless(a, t, s, now, v)
    ensures StoredUnless(b, t, s, now, v)
  {
  }

  // ------------------------------------------------------------- the tab-switch counter

  /** No step of any kind, `append_violation` included, ever lowers the tab-switch count. */
  lemma TabCountNeverFalls(t: Terms, w: World, now: Time, step: Step)
    requires Enabled(w, now, step)
    ensures TabSwitchLog.TabSwitchCount(RowOf(Next(t, w, now, step).state).violations)
         >= TabSwitchLog.TabSwitchCount(RowOf(w.state).violations)
  {
    var vs, turns := RowOf(w.state).violations, |RowOf(w.state).transcript|;
    ListChange(t, w, now, step);
    if Folded(t, w, now, step).Some? {
      FoldIsStep(t, w, now, step);
      match step
      case TabSwitchStep(_, _, id, at) => TabSwitchLog.AcceptedTabSwitch(vs, turns, id, at, TabSwitch);
      case FacePacketStep(_, _, p, at) => FaceLog.AcceptedFacePacket(vs, turns, p, at, TabSwitch);
    } else if step.ViolationStep? {
      TabSwitchLog.AppendKeepsTabs(vs, step.violation, "");
    }
  }

  /** The proctoring delivery, if any, that a step amounts to: only messages of the current
      connection reach the violation list. */
  function DeliveryOf(t: Terms, w: World, step: Step): Option<Delivery> {
    var row := RowOf(w.state);
    match step
    case TabSwitchStep(connectionId, enrollmentId, eventId, at) =>
      if w.state.session.Some? && enrollmentId == t.enrollmentId && CurrentConnection(row, connectionId)
      then Some(Tab(eventId, at, |row.transcript|)) else None
    case FacePacketStep(connectionId, enrollmentId, p, at) =>
      if w.state.session.Some? && enrollmentId == t.enrollmentId && CurrentConnection(row, connectionId)
         && FaceLog.Qualified(p)
      then Some(Face(p, at, |row.transcript|)) else None
    case _ => None
  }

  function Deliveries(t: Terms, ws: seq<World>, xs: seq<Timed>, i: nat): seq<Delivery>
    requires i <= |xs| && i <= |ws|
  {
    if i == 0 then []
    else
      var before, d := Deliveries(t, ws, xs, i - 1), DeliveryOf(t, ws[i - 1], xs[i - 1].step);
      if d.Some? then before + [d.value] else before
  }

  lemma DeliveryEffect(t: Terms, w: World, now: Time, step: Step)
    requires !step.ViolationStep?
    ensures var d, vs := DeliveryOf(t, w, step), RowOf(w.state).violations;
            RowOf(Next(t, w, now, step).state).violations
            == if d.Some? then Deliver(vs, d.value) else vs
  {
    match step
    case TabSwitchStep(_, _, _, _) =>
    case FacePacketStep(_, _, _, _) =>
    case _ => NoListChange(t, w, now, step);
  }

  lemma LogAppendDelivery(ds: seq<Delivery>, d: Delivery)
    ensures Log(ds + [d]) == Deliver(Log(ds), d)
  {
    assert (ds + [d])[..|ds|] == ds;
  }

  lemma {:induction false} DeliveriesAreWellFormed(t: Terms, ws: seq<World>, xs: seq<Timed>, i: nat)
    requires IsRun(t, ws, xs) && i < |ws|
    ensures AllWellFormed(Deliveries(t, ws, xs, i))
  {
    if i != 0 {
      DeliveriesAreWellFormed(t, ws, xs, i - 1);
    }
  }

  /** In every run without `append_violation`, the stored list is exactly what the abstract log
      makes of the messages of the respective current connections. */
  lemma {:induction false} RunsRefineTheLog(t: Terms, ws: seq<World>, xs: seq<Timed>, i: nat)
    requires IsRun(t, ws, xs) && i < |ws|
    requires forall k :: 0 <= k < i ==> !xs[k].step.ViolationStep?
    ensures RowOf(ws[i].state).violations == Log(Deliveries(t, ws, xs, i))
  {
    if i != 0 {
      RunsRefineTheLog(t, ws, xs, i - 1);
      var w, x := ws[i - 1], xs[i - 1];
      DeliveryEffect(t, w, x.now, x.step);
      var d := DeliveryOf(t, w, x.step);
      if d.Some? {
        LogAppendDelivery(Deliveries(t, ws, xs, i - 1), d.value);
      }
    }
  }

  /** The step appends no record of type `k`. */
  predicate Spares(step: Step, k: Kind) { step.ViolationStep? ==> !IsKind(step.violation, k) }

  lemma KindEffect(t: Terms, w: World, now: Time, step: Step, ds: seq<Delivery>, k: Kind)
    requires !k.Other? && Spares(step, k)
    requires OfKind(RowOf(w.state).violations, k) == OfKind(Log(ds), k)
    ensures var d, b := DeliveryOf(t, w, step), RowOf(Next(t, w, now, step).state).violations;
            OfKind(b, k) == OfKind(Log(if d.Some? then ds + [d.value] else ds), k)
  {
    var vs, d := RowOf(w.state).violations, DeliveryOf(t, w, step);
    if step.ViolationStep? {
      ListChange(t, w, now, step);
      AppendOfKind(vs, step.violation, k);
    } else {
      DeliveryEffect(t, w, now, step);
      if d.Some? {
        LogAppendDelivery(ds, d.value);
        DeliverByKind(vs, Log(ds), d.value, k);
      }
    }
  }

  /** In every run whose appended records are of other types than `k`, the stored records of type
      `k` are exactly those the abstract log makes of the messages of the respective current
      connections. */
  lemma {:induction false} KindsRefineTheLog(t: Terms, ws: seq<World>, xs: seq<Timed>, i: nat, k: Kind)
    requires IsRun(t, ws, xs) && i < |ws| && !k.Other?
    requires forall m :: 0 <= m < i ==> Spares(xs[m].step, k)
    ensures OfKind(RowOf(ws[i].state).violations, k) == OfKind(Log(Deliveries(t, ws, xs, i)), k)
  {
    if i != 0 {
      KindsRefineTheLog(t, ws, xs, i - 1, k);
      KindEffect(t, ws[i - 1], xs[i - 1].now, xs[i - 1].step, Deliveries(t, ws, xs, i - 1), k);
    }
  }

  /** In every world of such a run there is at most one tab record, and the tab count is the number
      of distinct tab events delivered so far. */
  lemma TabCountIsDistinct(t: Terms, ws: seq<World>, xs: seq<Timed>, i: nat)
    requires IsRun(t, ws, xs) && i < |ws|
    requires forall m :: 0 <= m < i ==> Spares(xs[m].step, TabSwitch)
    ensures var vs := RowOf(ws[i].state).violations;
            && |OfKind(vs, TabSwitch)| <= 1
            && TabSwitchLog.TabSwitchCount(vs) == |TabIds(Deliveries(t, ws, xs, i))|
  {
    KindsRefineTheLog(t, ws, xs, i, TabSwitch);
    DeliveriesAreWellFormed(t, ws, xs, i);
    TabLogRefinesSet(Deliveries(t, ws, xs, i), 0, "e", "");
  }

  /** In such a run a tab switch is answered with a termination exactly when it is new and brings
      that number to five or more; the session is then terminated at once. */
  lemma FifthTabSwitchTerminates(t: Terms, ws: seq<World>, xs: seq<Timed>, i: nat)
    requires IsRun(t, ws, xs) && i < |xs| && xs[i].step.TabSwitchStep?
    requires forall m :: 0 <= m < i ==> Spares(xs[m].step, TabSwitch)
    requires DeliveryOf(t, ws[i], xs[i].step).Some?
    ensures var ids, id := TabIds(Deliveries(t, ws, xs, i)), xs[i].step.eventId;
            var row := RowOf(ws[i + 1].state);
            && TabSwitchLog.TabSwitchCount(row.violations) == |ids + {id}|
            && (row.status == Terminated <==> id !in ids && |ids + {id}| >= TabSwitchLog.MAX_ALLOWED_TAB_SWITCHES)
  {
    var ds, step := Deliveries(t, ws, xs, i), xs[i].step;
    var vs, turns := RowOf(ws[i].state).violations, |RowOf(ws[i].state).transcript|;
    KindsRefineTheLog(t, ws, xs, i, TabSwitch);
    DeliveriesAreWellFormed(t, ws, xs, i);
    TabLogRefinesSet(ds, turns, step.eventId, step.occurredAt);
    TabSwitchOutcome(t, ws[i], xs[i].now, step);
    if step.eventId in TabIds(ds) {
      assert TabIds(ds) + {step.eventId} == TabIds(ds);
    } else {
      TabSwitchLog.AcceptedTabSwitch(vs, turns, step.eventId, step.occurredAt, TabSwitch);
    }
  }

  lemma TabSwitchOutcome(t: Terms, w: World, now: Time, step: Step)
    requires step.TabSwitchStep? && DeliveryOf(t, w, step).Some?
    ensures var a, b := RowOf(w.state), RowOf(Next(t, w, now, step).state);
            var o := TabSwitchLog.TabStep(a.violations, |a.transcript|, step.eventId, step.occurredAt);
            b.violations == o.violations && (b.status == Terminated <==> o.terminated)
  {
  }

  /** The face packets of a type that a run accepted, in order. */
  function AcceptedPackets(t: Terms, ws: seq<World>, xs: seq<Timed>, i: nat, kind: Kind): seq<FaceLog.Packet>
    requires i <= |xs| && i <= |ws|
  {
    if i == 0 then []
    else
      var before, x := AcceptedPackets(t, ws, xs, i - 1, kind), xs[i - 1];
      if x.step.FacePacketStep? && Folded(t, ws[i - 1], x.now, x.step) == Some(kind) then before + [x.step.packet] else before
  }

  lemma PacketAccepted(t: Terms, w: World, x: Timed, ds: seq<Delivery>, kind: Kind)
    requires OfKind(RowOf(w.state).violations, kind) == OfKind(Log(ds), kind) && kind != TabSwitch
    ensures var d, more := DeliveryOf(t, w, x.step), Accepted(ds, kind);
            Accepted(if d.Some? then ds + [d.value] else ds, kind)
            == if x.step.FacePacketStep? && Folded(t, w, x.now, x.step) == Some(kind) then more + [x.step.packet] else more
  {
    var d := DeliveryOf(t, w, x.step);
    if d.Some? {
      assert (ds + [d.value])[..|ds|] == ds;
    }
  }

  lemma {:induction false} AcceptedInRun(t: Terms, ws: seq<World>, xs: seq<Timed>, i: nat, kind: Kind)
    requires IsRun(t, ws, xs) && i < |ws| && !kind.Other? && kind != TabSwitch
    requires forall m :: 0 <= m < i ==> Spares(xs[m].step, kind)
    ensures Accepted(Deliveries(t, ws, xs, i), kind) == AcceptedPackets(t, ws, xs, i, kind)
  {
    if i != 0 {
      AcceptedInRun(t, ws, xs, i - 1, kind);
      KindsRefineTheLog(t, ws, xs, i - 1, kind);
      PacketAccepted(t, ws[i - 1], xs[i - 1], Deliveries(t, ws, xs, i - 1), kind);
    }
  }

  /** In every run whose appended records are of other types, each face type has at most one
      record, one episode for each distinct start among the packets the run accepted,
      `occurrence_count` their number, and as value the map that sends each start to the join of
      its accepted packets. */
  lemma RunsRefineTheMap(t: Terms, ws: seq<World>, xs: seq<Timed>, i: nat, kind: Kind)
    requires IsRun(t, ws, xs) && i < |ws| && !kind.Other? && kind != TabSwitch
    requires forall m :: 0 <= m < i ==> Spares(xs[m].step, kind)
    ensures var vs, ps := RowOf(ws[i].state).violations, AcceptedPackets(t, ws, xs, i, kind);
            && |OfKind(vs, kind)| <= 1
            && FaceMap(vs, kind).Keys == Starts(ps)
            && (forall s :: s in FaceMap(vs, kind) ==> IsJoin(FaceMap(vs, kind)[s], ps, s))
            && |FaceLog.Episodes(vs, kind)| == |Starts(ps)|
            && (OfKind(vs, kind) != [] ==> FaceLog.FirstMetadata(vs, kind).occurrenceCount == Some(|Starts(ps)|))
  {
    KindsRefineTheLog(t, ws, xs, i, kind);
    DeliveriesAreWellFormed(t, ws, xs, i);
    AcceptedInRun(t, ws, xs, i, kind);
    FaceLogRefinesMap(Deliveries(t, ws, xs, i), kind);
    assert FaceMap(RowOf(ws[i].state).violations, kind) == FaceMap(Log(Deliveries(t, ws, xs, i)), kind);
  }

  /** Two such runs that accepted the same packets of a face type, in whatever order, connections
      and company, store the same abstract face log. */
  lemma RunsIgnoreOrder(t: Terms, ws: seq<World>, xs: seq<Timed>, i: nat,
                        u: Terms, vs: seq<World>, ys: seq<Timed>, j: nat, kind: Kind)
    requires IsRun(t, ws, xs) && i < |ws| && IsRun(u, vs, ys) && j < |vs|
    requires !kind.Other? && kind != TabSwitch
    requires forall m :: 0 <= m < i ==> Spares(xs[m].step, kind)
    requires forall m :: 0 <= m < j ==> Spares(ys[m].step, kind)
    requires forall p :: p in AcceptedPackets(t, ws, xs, i, kind) <==> p in AcceptedPackets(u, vs, ys, j, kind)
    ensures FaceMap(RowOf(ws[i].state).violations, kind) == FaceMap(RowOf(vs[j].state).violations, kind)
  {
    RunsRefineTheMap(t, ws, xs, i, kind);
    RunsRefineTheMap(u, vs, ys, j, kind);
    SameJoins(FaceMap(RowOf(ws[i].state).violations, kind), FaceMap(RowOf(vs[j].state).violations, kind),
              AcceptedPackets(t, ws, xs, i, kind), AcceptedPackets(u, vs, ys, j, kind));
  }

  // ------------------------------------------------------------------ the tab-switch cap

  /** Tab switches are capped: the fifth has ended the session. */
  predicate WithinTabs(row: SessionRow) {
    var count := TabSwitchLog.TabSwitchCount(row.violations);
    && count <= TabSwitchLog.MAX_ALLOWED_TAB_SWITCHES
    && (count == TabSwitchLog.MAX_ALLOWED_TAB_SWITCHES ==> row.status == Terminated)
  }

  /** The engine's writes that break the cap: another status for a session that five tab switches
      ended, or a new tab record that makes or declares too high a count. */
  predicate Uncaps(s: State, step: Step) {
    var row := RowOf(s);
    var tabs := OfKind(row.violations, TabSwitch);
    match step
    case ViolationStep(v) =>
      && s.session.Some? && IsKind(v, TabSwitch)
      && v.violationId != "" && FindId(row.violations, v.violationId) == Missing
      && var count := Max(|tabs| + 1, TabSwitchLog.Declared(v));
         count >= TabSwitchLog.MAX_ALLOWED_TAB_SWITCHES
         && !(count == TabSwitchLog.MAX_ALLOWED_TAB_SWITCHES && row.status == Terminated)
    case _ =>
      && TabSwitchLog.TabSwitchCount(row.violations) == TabSwitchLog.MAX_ALLOWED_TAB_SWITCHES
      && OverwritesTerminated(row, step)
  }

  lemma TabSwitchesKeepTabs(t: Terms, w: World, now: Time, step: Step)
    requires Enabled(w, now, step) && WithinTabs(RowOf(w.state)) && step.TabSwitchStep?
    ensures WithinTabs(RowOf(Next(t, w, now, step).state))
  {
    var vs, turns := RowOf(w.state).violations, |RowOf(w.state).transcript|;
    if DeliveryOf(t, w, step).Some? {
      TabSwitchOutcome(t, w, now, step);
      if step.eventId !in TabSwitchLog.TabEventIds(vs) {
        TabSwitchLog.AcceptedTabSwitch(vs, turns, step.eventId, step.occurredAt, TabSwitch);
      }
    }
  }

  lemma FacePacketsKeepTabs(t: Terms, w: World, now: Time, step: Step)
    requires Enabled(w, now, step) && WithinTabs(RowOf(w.state)) && step.FacePacketStep?
    ensures WithinTabs(RowOf(Next(t, w, now, step).state))
  {
    var vs := RowOf(w.state).violations;
    MessageChange(t, w, now, step);
    if RowOf(w.state).status == Terminated {
      TerminatedStays(t, w, now, step);
    }
    if Folded(t, w, now, step).Some? {
      FoldIsStep(t, w, now, step);
      ReplaceKindKinds(vs, step.packet.kind, Canonical(w, step), TabSwitch);
    }
  }

  lemma TerminatedStays(t: Terms, w: World, now: Time, step: Step)
    requires step.FacePacketStep? && RowOf(w.state).status == Terminated
    ensures RowOf(Next(t, w, now, step).state).status == Terminated
  {
  }

  lemma RowAfterRecord(t: Terms, w: World, now: Time, step: Step)
    requires step.ViolationStep?
    ensures var row, v := RowOf(w.state), step.violation;
            RowOf(Next(t, w, now, step).state)
            == if w.state.session.Some? && v.Record? && v.violationId != "" && FindId(row.violations, v.violationId) == Missing
               then row.(violations := row.violations + [v]) else row
  {
  }

  lemma CapAfterRecord(row: SessionRow, v: Violation)
    requires WithinTabs(row)
    ensures var count := Max(|OfKind(row.violations, TabSwitch)| + 1, TabSwitchLog.Declared(v));
            WithinTabs(row.(violations := row.violations + [v]))
            <==> !(&& IsKind(v, TabSwitch) && count >= TabSwitchLog.MAX_ALLOWED_TAB_SWITCHES
                   && !(count == TabSwitchLog.MAX_ALLOWED_TAB_SWITCHES && row.status == Terminated))
  {
    TabSwitchLog.AppendKeepsTabs(row.violations, v, "");
  }

  lemma RecordsKeepTabs(t: Terms, w: World, now: Time, step: Step)
    requires WithinTabs(RowOf(w.state)) && step.ViolationStep?
    ensures WithinTabs(RowOf(Next(t, w, now, step).state)) <==> !Uncaps(w.state, step)
  {
    RowAfterRecord(t, w, now, step);
    CapAfterRecord(RowOf(w.state), step.violation);
  }

  lemma StatusAfterOthers(t: Terms, w: World, now: Time, step: Step)
    requires !step.TabSwitchStep? && !step.FacePacketStep? && !step.ViolationStep?
    requires RowOf(w.state).status == Terminated
    ensures RowOf(Next(t, w, now, step).state).status == Terminated <==> !OverwritesTerminated(RowOf(w.state), step)
  {
    match step
    case EnterStep(invitation, secret) => EnterCases(t, w.state, invitation, secret, now);
    case _ =>
  }

  /** Only these do. */
  lemma TabsKeptExactly(t: Terms, w: World, now: Time, step: Step)
    requires Enabled(w, now, step) && WithinTabs(RowOf(w.state))
    ensures WithinTabs(RowOf(Next(t, w, now, step).state)) <==> !Uncaps(w.state, step)
  {
    if step.TabSwitchStep? {
      TabSwitchesKeepTabs(t, w, now, step);
    } else if step.FacePacketStep? {
      FacePacketsKeepTabs(t, w, now, step);
    } else if step.ViolationStep? {
      RecordsKeepTabs(t, w, now, step);
    } else {
      NoListChange(t, w, now, step);
      if RowOf(w.state).status == Terminated {
        StatusAfterOthers(t, w, now, step);
      }
    }
  }

  /** Along any run without such a write (so along every run of candidate-facing steps) the count
      never passes five, and five tab switches are only ever seen on a terminated session. */
  lemma FiveTabSwitchesAtMost(t: Terms, ws: seq<World>, xs: seq<Timed>, i: nat)
    requires IsRun(t, ws, xs) && i < |ws|
    requires forall k :: 0 <= k < i ==> !Uncaps(ws[k].state, xs[k].step)
    ensures WithinTabs(RowOf(ws[i].state))
  {
    forall k | 0 <= k < i && WithinTabs(RowOf(ws[k].state)) ensures WithinTabs(RowOf(ws[k + 1].state)) {
      TabsKeptExactly(t, ws[k], xs[k].now, xs[k].step);
    }
    AlongRun(ws, 0, i, (w: World) => WithinTabs(RowOf(w.state)));
  }
}
