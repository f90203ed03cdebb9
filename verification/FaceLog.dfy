// Face proctoring: one high-severity record per type, holding one episode per condition start.
module FaceLog {
  import opened Prelude
  import opened ViolationRecords
  import opened TabSwitchLog

  datatype Packet = Packet(eventId: string, kind: Kind, startedAt: string, stats: Stats)

  /** The two thresholds of a face type, in ms: from the first a condition is a violation, from the
      second it ends the interview. */
  function Policy(kind: Kind): Option<(nat, nat)> {
    match kind
    case FaceAbsent => Some((5_000, 30_000))
    case MultipleFaces => Some((3_000, 20_000))
    case _ => None
  }

  /** Whether the server accepts the packet's claims; otherwise the request is refused. */
  predicate Qualified(p: Packet) {
    && Policy(p.kind).Some?
    && p.stats.durationMs >= Policy(p.kind).value.0
    && (p.stats.source == CAMERA_STATE ==> p.kind == FaceAbsent)
    && (p.kind == FaceAbsent ==> p.stats.faces == 0)
    && (p.kind == MultipleFaces ==> p.stats.faces >= 2)
    && (p.stats.minConfidence.Some? && p.stats.maxConfidence.Some?
        ==> p.stats.minConfidence.value <= p.stats.maxConfidence.value)
  }

  // ------------------------------------------------------------- reading episodes back

  function Present(raw: seq<Option<Episode>>): seq<Episode> {
    if |raw| == 0 then []
    else
      var n := |raw| - 1;
      if raw[n].Some? then Present(raw[..n]) + [raw[n].value] else Present(raw[..n])
  }

  function Wrapped(episodes: seq<Episode>): (r: seq<Option<Episode>>)
    ensures |r| == |episodes|
  {
    seq(|episodes|, i requires 0 <= i < |episodes| => Some(episodes[i]))
  }

  function OrUnknown(text: string): string { if text != "" then text else "unknown" }

  /** The one episode a legacy per-event record stands for. */
  function LegacyEpisode(v: Violation, startedAt: string): Episode
    requires v.Record?
  {
    var recordedAt := FirstNonEmpty(v.metadata.recordedAt, v.timestamp, startedAt);
    var s := v.metadata.stats;
    Episode(startedAt, recordedAt, recordedAt,
            s.(source := OrUnknown(s.source), detectorVersion := OrUnknown(s.detectorVersion),
               modelName := OrUnknown(s.modelName)),
            Some(EventIds([v])))
  }

  function EpisodesOf(v: Violation): seq<Episode>
    requires v.Record?
  {
    var raw := v.metadata.episodes;
    if raw.Some? && raw.value != [] then Present(raw.value)
    else
      var startedAt := FirstNonEmpty(v.metadata.conditionStartedAt, v.timestamp, "");
      if startedAt == "" then [] else [LegacyEpisode(v, startedAt)]
  }

  function FaceEpisodes(existing: seq<Violation>): seq<Episode>
    requires forall i :: 0 <= i < |existing| ==> existing[i].Record?
  {
    if |existing| == 0 then []
    else
      var n := |existing| - 1;
      FaceEpisodes(existing[..n]) + EpisodesOf(existing[n])
  }

  method LoadFaceEpisodes(existing: seq<Violation>) returns (episodes: seq<Episode>)
    requires forall i :: 0 <= i < |existing| ==> existing[i].Record?
    ensures episodes == FaceEpisodes(existing)
  {
    episodes := [];
    for i := 0 to |existing|
      invariant episodes == FaceEpisodes(existing[..i])
    {
      assert existing[..i + 1][..i] == existing[..i];
      ghost var before := episodes;
      var raw := existing[i].metadata.episodes;
      var isList := raw.Some?;
      if isList {
        for j := 0 to |raw.value|
          invariant episodes == before + Present(raw.value[..j])
        {
          assert raw.value[..j + 1][..j] == raw.value[..j];
          if raw.value[j].Some? {
            episodes := episodes + [raw.value[j].value];
          }
        }
        assert raw.value[..|raw.value|] == raw.value;
      }
      if isList && raw.value != [] {
        continue;
      }
      assert episodes == before;
      var startedAt := FirstNonEmpty(existing[i].metadata.conditionStartedAt, existing[i].timestamp, "");
      if startedAt == "" {
        continue;
      }
      episodes := episodes + [LegacyEpisode(existing[i], startedAt)];
    }
    assert existing[..|existing|] == existing;
  }

  lemma {:induction false} PresentWrapped(episodes: seq<Episode>)
    ensures Present(Wrapped(episodes)) == episodes
  {
    if |episodes| != 0 {
      var n := |episodes| - 1;
      PresentWrapped(episodes[..n]);
      assert Wrapped(episodes)[..n] == Wrapped(episodes[..n]);
      assert episodes == episodes[..n] + [episodes[n]];
    }
  }

  /** Episodes written into a canonical record are read back exactly. */
  lemma EpisodesReadBack(v: Violation, episodes: seq<Episode>)
    requires v.Record? && episodes != [] && v.metadata.episodes == Some(Wrapped(episodes))
    ensures FaceEpisodes([v]) == episodes
  {
    PresentWrapped(episodes);
    assert [v][..0] == [];
  }

  lemma AppendEpisodes(existing: seq<Violation>, v: Violation)
    requires v.Record? && forall i :: 0 <= i < |existing| ==> existing[i].Record?
    ensures FaceEpisodes(existing + [v]) == FaceEpisodes(existing) + EpisodesOf(v)
  {
    assert (existing + [v])[..|existing|] == existing;
  }

  lemma {:induction false} PresentHolds(raw: seq<Option<Episode>>, e: Episode)
    ensures e in Present(raw) <==> Some(e) in raw
  {
    if |raw| != 0 {
      var n := |raw| - 1;
      assert raw == raw[..n] + [raw[n]];
      PresentHolds(raw[..n], e);
    }
  }

  /** The record stands for the episode: it lists it, or it is a legacy record without a list whose
      start, time, statistics and ids the episode has. */
  predicate StandsFor(v: Violation, e: Episode)
    requires v.Record?
  {
    var m := v.metadata;
    if m.episodes.Some? && m.episodes.value != [] then Some(e) in m.episodes.value
    else
      && e.startedAt != ""
      && e.startedAt == (if m.conditionStartedAt != "" then m.conditionStartedAt else v.timestamp)
      && e.lastRecordedAt == e.firstRecordedAt
      && e.firstRecordedAt == (if m.recordedAt != "" then m.recordedAt
                               else if v.timestamp != "" then v.timestamp else e.startedAt)
      && e.stats == m.stats.(source := e.stats.source, detectorVersion := e.stats.detectorVersion,
                             modelName := e.stats.modelName)
      && e.stats.source == (if m.stats.source != "" then m.stats.source else "unknown")
      && e.stats.detectorVersion == (if m.stats.detectorVersion != "" then m.stats.detectorVersion else "unknown")
      && e.stats.modelName == (if m.stats.modelName != "" then m.stats.modelName else "unknown")
      && e.eventIds == Some(EventIds([v]))
  }

  /** Exactly the episodes are read that some record stands for. */
  lemma {:induction false} EpisodesAreRead(existing: seq<Violation>, e: Episode)
    requires forall i :: 0 <= i < |existing| ==> existing[i].Record?
    ensures e in FaceEpisodes(existing) <==> exists i :: 0 <= i < |existing| && StandsFor(existing[i], e)
  {
    if |existing| != 0 {
      var n := |existing| - 1;
      var front, v := existing[..n], existing[n];
      EpisodesAreRead(front, e);
      if v.metadata.episodes.Some? {
        PresentHolds(v.metadata.episodes.value, e);
      }
      assert e in EpisodesOf(v) <==> StandsFor(v, e);
      assert forall i :: 0 <= i < n ==> existing[i] == front[i];
    }
  }

  // -------------------------------------------------------------------- merging packets

  /** Position of the first episode with the given start. */
  function FindEpisode(episodes: seq<Episode>, startedAt: string): (r: Option<nat>)
    ensures r.Some? ==> r.value < |episodes| && episodes[r.value].startedAt == startedAt
    ensures r.Some? ==> forall i :: 0 <= i < r.value ==> episodes[i].startedAt != startedAt
    ensures r.None? ==> forall i :: 0 <= i < |episodes| ==> episodes[i].startedAt != startedAt
  {
    if |episodes| == 0 then None
    else
      var n := |episodes| - 1;
      var before := FindEpisode(episodes[..n], startedAt);
      if before.Some? then before
      else if episodes[n].startedAt == startedAt then Some(n)
      else None
  }

  function Lower(a: Option<int>, b: Option<int>): Option<int> {
    if a.None? then b else if b.None? then a else Some(Min(a.value, b.value))
  }

  function Upper(a: Option<int>, b: Option<int>): Option<int> {
    if a.None? then b else if b.None? then a else Some(Max(a.value, b.value))
  }

  function NonEmptyIds(ids: seq<string>): seq<string> {
    if |ids| == 0 then []
    else
      var n := |ids| - 1;
      if ids[n] != "" then NonEmptyIds(ids[..n]) + [ids[n]] else NonEmptyIds(ids[..n])
  }

  /** `_merge_face_episode`: maxima, minima, and the latest provenance. */
  function MergeEpisode(existing: Option<Episode>, p: Packet, recordedAt: string): Episode {
    var s := if existing.Some? then existing.value.stats else NO_STATS;
    var ids := if existing.Some? then NonEmptyIds(IdList(existing.value.eventIds)) else [];
    var firstRecordedAt := if existing.Some? then existing.value.firstRecordedAt else "";
    Episode(p.startedAt,
            if firstRecordedAt != "" then firstRecordedAt else recordedAt,
            recordedAt,
            Stats(Max(s.durationMs, p.stats.durationMs), Max(s.samples, p.stats.samples),
                  Max(s.faces, p.stats.faces),
                  Lower(s.minConfidence, p.stats.minConfidence), Upper(s.maxConfidence, p.stats.maxConfidence),
                  if p.stats.source == CAMERA_STATE || s.source == CAMERA_STATE then CAMERA_STATE else p.stats.source,
                  p.stats.detectorVersion, p.stats.modelName),
            Some(if p.eventId in ids then ids else ids + [p.eventId]))
  }

  /** The episode list after a packet: its episode merged in place, or a new one at the end. */
  function MergedEpisodes(episodes: seq<Episode>, p: Packet, recordedAt: string): (r: seq<Episode>)
    ensures r != []
  {
    var at := FindEpisode(episodes, p.startedAt);
    if at.None? then episodes + [MergeEpisode(None, p, recordedAt)]
    else episodes[at.value := MergeEpisode(Some(episodes[at.value]), p, recordedAt)]
  }

  function LongestMs(episodes: seq<Episode>): nat {
    if |episodes| == 0 then 0
    else
      var n := |episodes| - 1;
      Max(LongestMs(episodes[..n]), episodes[n].stats.durationMs)
  }

  function Episodes(vs: seq<Violation>, kind: Kind): seq<Episode> { FaceEpisodes(OfKind(vs, kind)) }

  function FaceEventIds(vs: seq<Violation>, kind: Kind): seq<string> { EventIds(OfKind(vs, kind)) }

  function FirstMetadata(vs: seq<Violation>, kind: Kind): Metadata {
    var existing := OfKind(vs, kind);
    if existing == [] then NO_METADATA else MetadataOf(existing[0])
  }

  /** The packet repeats a known event id without reporting a longer condition. */
  predicate Duplicate(vs: seq<Violation>, p: Packet) {
    var at := FindEpisode(Episodes(vs, p.kind), p.startedAt);
    && p.eventId in FaceEventIds(vs, p.kind)
    && p.stats.durationMs <= (if at.Some? then Episodes(vs, p.kind)[at.value].stats.durationMs else 0)
  }

  predicate Terminates(p: Packet) {
    Policy(p.kind).Some? && p.stats.durationMs >= Policy(p.kind).value.1
  }

  function TerminationReason(kind: Kind): string { TypeName(kind) + "_continuous_duration_exceeded" }

  /** The canonical record written for an accepted face packet. */
  function FaceRecord(vs: seq<Violation>, turns: nat, p: Packet, recordedAt: string): (r: Violation)
    ensures IsKind(r, p.kind) && r.violationId == CanonicalId(p.kind)
  {
    var existing := OfKind(vs, p.kind);
    var metadata := FirstMetadata(vs, p.kind);
    var episodes := MergedEpisodes(Episodes(vs, p.kind), p, recordedAt);
    var firstAt := FirstNonEmpty(metadata.firstAt, if existing == [] then "" else existing[0].timestamp, recordedAt);
    var turnNumber :=
      if existing == [] || existing[0].turnNumber == 0 then Max(1, turns) else existing[0].turnNumber;
    Record(CanonicalId(p.kind), p.kind, turnNumber, "high", firstAt,
           NO_METADATA.(occurrenceCount := Some(|episodes|),
                        eventIds := Some(AddUnique(FaceEventIds(vs, p.kind), p.eventId)),
                        episodes := Some(Wrapped(episodes)),
                        firstAt := firstAt, lastAt := recordedAt, recordedAt := recordedAt,
                        stats := NO_STATS.(source := "browser_face_proctoring"),
                        maxObservedMs := LongestMs(episodes),
                        terminationTriggered := Terminates(p) || metadata.terminationTriggered,
                        terminationReason := if Terminates(p) then Some(TerminationReason(p.kind))
                                             else metadata.terminationReason))
  }

  lemma {:induction false} LongestIsMaximum(episodes: seq<Episode>)
    ensures forall e :: e in episodes ==> e.stats.durationMs <= LongestMs(episodes)
    ensures episodes != [] ==> exists e :: e in episodes && e.stats.durationMs == LongestMs(episodes)
  {
    if |episodes| != 0 {
      var n := |episodes| - 1;
      assert episodes == episodes[..n] + [episodes[n]];
      LongestIsMaximum(episodes[..n]);
      if n > 0 && LongestMs(episodes) == LongestMs(episodes[..n]) {
        var e :| e in episodes[..n] && e.stats.durationMs == LongestMs(episodes[..n]);
        assert e in episodes;
      } else {
        assert episodes[n] in episodes;
      }
    }
  }

  /** What the canonical record tells besides its episodes and ids: the longest duration seen,
      whether any packet so far ended the interview and why, the latest time, and the first time and
      its turn as the first record had them. */
  lemma FaceRecordTells(vs: seq<Violation>, turns: nat, p: Packet, recordedAt: string)
    ensures var existing, r := OfKind(vs, p.kind), FaceRecord(vs, turns, p, recordedAt);
            var episodes := MergedEpisodes(Episodes(vs, p.kind), p, recordedAt);
            var ends := (p.kind == FaceAbsent && p.stats.durationMs >= 30_000)
                        || (p.kind == MultipleFaces && p.stats.durationMs >= 20_000);
            && r.severity == "high"
            && (forall e :: e in episodes ==> e.stats.durationMs <= r.metadata.maxObservedMs)
            && (exists e :: e in episodes && e.stats.durationMs == r.metadata.maxObservedMs)
            && r.metadata.terminationTriggered == (ends || FirstMetadata(vs, p.kind).terminationTriggered)
            && r.metadata.terminationReason == (if ends then Some(TypeName(p.kind) + "_continuous_duration_exceeded")
                                                else FirstMetadata(vs, p.kind).terminationReason)
            && r.metadata.recordedAt == recordedAt && r.timestamp == r.metadata.firstAt
            && (existing == [] ==> r.timestamp == recordedAt && r.turnNumber == Max(1, turns))
            && (existing != [] && existing[0].metadata.firstAt != "" ==> r.timestamp == existing[0].metadata.firstAt)
            && (existing != [] && existing[0].metadata.firstAt == "" && existing[0].timestamp != "" ==>
                  r.timestamp == existing[0].timestamp)
            && (existing != [] && existing[0].turnNumber != 0 ==> r.turnNumber == existing[0].turnNumber)
  {
    LongestIsMaximum(MergedEpisodes(Episodes(vs, p.kind), p, recordedAt));
  }

  datatype FaceOutcome = FaceOutcome(violations: seq<Violation>, appended: bool, recorded: bool,
                                     occurrenceCount: nat, terminated: bool)

  /** The list part of `record_proctoring_event`, once claims, status and connection have been
      checked. */
  function FaceStep(vs: seq<Violation>, turns: nat, p: Packet, recordedAt: string): FaceOutcome {
    var existing := OfKind(vs, p.kind);
    if Duplicate(vs, p) then
      var episodes := Episodes(vs, p.kind);
      FaceOutcome(vs, false, false, if episodes != [] then |episodes| else |existing|, false)
    else
      FaceOutcome(ReplaceKind(vs, p.kind, FaceRecord(vs, turns, p, recordedAt)), existing == [], true,
                  |MergedEpisodes(Episodes(vs, p.kind), p, recordedAt)|, Terminates(p))
  }

  /** A face packet can change the records of its own type only. */
  lemma FaceStepKinds(vs: seq<Violation>, turns: nat, p: Packet, recordedAt: string, k: Kind)
    ensures OfKind(FaceStep(vs, turns, p, recordedAt).violations, k)
         == if k != p.kind || Duplicate(vs, p) then OfKind(vs, k) else [FaceRecord(vs, turns, p, recordedAt)]
  {
    ReplaceKindKinds(vs, p.kind, FaceRecord(vs, turns, p, recordedAt), k);
  }

  /** ... and what it does to them depends on nothing else. */
  lemma FaceStepByKind(a: seq<Violation>, b: seq<Violation>, turns: nat, p: Packet, recordedAt: string, k: Kind)
    requires OfKind(a, k) == OfKind(b, k)
    ensures OfKind(FaceStep(a, turns, p, recordedAt).violations, k)
         == OfKind(FaceStep(b, turns, p, recordedAt).violations, k)
  {
    FaceStepKinds(a, turns, p, recordedAt, k);
    FaceStepKinds(b, turns, p, recordedAt, k);
  }

  // ------------------------------------------------------------ canonicalising is lossless

  /** The order-insensitive part of a packet or an episode. */
  datatype Joined = Joined(durationMs: nat, samples: nat, faces: nat,
                           minConfidence: Option<int>, maxConfidence: Option<int>, camera: bool)

  function Of(s: Stats): Joined {
    Joined(s.durationMs, s.samples, s.faces, s.minConfidence, s.maxConfidence, s.source == CAMERA_STATE)
  }

  /** `b` covers `a`: no smaller maxima, no larger minimum, and the camera flag if `a` has it. */
  predicate Covers(b: Joined, a: Joined) {
    && a.durationMs <= b.durationMs && a.samples <= b.samples && a.faces <= b.faces
    && (a.minConfidence.Some? ==> b.minConfidence.Some? && b.minConfidence.value <= a.minConfidence.value)
    && (a.maxConfidence.Some? ==> b.maxConfidence.Some? && b.maxConfidence.value >= a.maxConfidence.value)
    && (a.camera ==> b.camera)
  }

  lemma {:induction false} NonEmptyIdsHolds(ids: seq<string>, id: string)
    ensures id in NonEmptyIds(ids) <==> id in ids && id != ""
  {
    if |ids| != 0 {
      var n := |ids| - 1;
      assert ids == ids[..n] + [ids[n]];
      NonEmptyIdsHolds(ids[..n], id);
    }
  }

  /** A merged episode covers the old one and the packet, keeps the old one's first time, takes the
      packet's provenance, and lists exactly the event ids of both. */
  lemma MergeCovers(e: Episode, p: Packet, recordedAt: string, id: string)
    ensures var m := MergeEpisode(Some(e), p, recordedAt);
            && Covers(Of(m.stats), Of(e.stats)) && Covers(Of(m.stats), Of(p.stats))
            && m.firstRecordedAt == (if e.firstRecordedAt != "" then e.firstRecordedAt else recordedAt)
            && m.lastRecordedAt == recordedAt && m.startedAt == p.startedAt
            && m.stats.detectorVersion == p.stats.detectorVersion && m.stats.modelName == p.stats.modelName
            && (id in IdList(m.eventIds) <==> id == p.eventId || (id != "" && id in IdList(e.eventIds)))
  {
    NonEmptyIdsHolds(IdList(e.eventIds), id);
  }

  /** For any mix of legacy and canonical records, an accepted packet leaves exactly one record of
      its type, whose event ids and episodes read back as every earlier id plus the packet's, and
      every earlier episode with the packet's merged in; all other entries are untouched. */
  lemma AcceptedFacePacket(vs: seq<Violation>, turns: nat, p: Packet, recordedAt: string, other: Kind)
    requires p.eventId != "" && !Duplicate(vs, p)
    ensures var r := FaceStep(vs, turns, p, recordedAt).violations;
            && |OfKind(r, p.kind)| == 1
            && Episodes(r, p.kind) == MergedEpisodes(Episodes(vs, p.kind), p, recordedAt)
            && FaceEventIds(r, p.kind) == AddUnique(FaceEventIds(vs, p.kind), p.eventId)
            && FirstMetadata(r, p.kind).occurrenceCount == Some(|Episodes(r, p.kind)|)
            && Without(r, p.kind) == Without(vs, p.kind)
            && (other != p.kind ==> OfKind(r, other) == OfKind(vs, other))
  {
    var record := FaceRecord(vs, turns, p, recordedAt);
    ReplaceKindKinds(vs, p.kind, record, other);
    EventIdsClean(OfKind(vs, p.kind));
    AddUniqueClean(FaceEventIds(vs, p.kind), p.eventId);
    EventIdsReadBack(record, AddUnique(FaceEventIds(vs, p.kind), p.eventId));
    EpisodesReadBack(record, MergedEpisodes(Episodes(vs, p.kind), p, recordedAt));
  }

  /** Nothing is lost: every event id and every started episode recorded before is still there,
      the episode at the same position, with the same start, statistics that cover its own, and
      each of its event ids; it is not touched at all unless the packet is its own. */
  lemma CanonicalisingLosesNothing(vs: seq<Violation>, turns: nat, p: Packet, recordedAt: string, i: nat, id: string)
    requires p.eventId != "" && !Duplicate(vs, p) && i < |Episodes(vs, p.kind)|
    ensures var r := FaceStep(vs, turns, p, recordedAt).violations;
            && i < |Episodes(r, p.kind)|
            && Episodes(r, p.kind)[i].startedAt == Episodes(vs, p.kind)[i].startedAt
            && Covers(Of(Episodes(r, p.kind)[i].stats), Of(Episodes(vs, p.kind)[i].stats))
            && (id != "" && id in IdList(Episodes(vs, p.kind)[i].eventIds) ==> id in IdList(Episodes(r, p.kind)[i].eventIds))
            && (Episodes(vs, p.kind)[i].startedAt != p.startedAt ==> Episodes(r, p.kind)[i] == Episodes(vs, p.kind)[i])
            && FaceEventIds(vs, p.kind) <= FaceEventIds(r, p.kind)
  {
    MergeCovers(Episodes(vs, p.kind)[i], p, recordedAt, id);
    AcceptedFacePacket(vs, turns, p, recordedAt, p.kind);
  }

  // -------------------------------------------------------- exactly-once at the list level

  /** The packet has been taken into account: redelivering it now would be ignored. */
  ghost predicate FaceSettled(vs: seq<Violation>, p: Packet) {
    Duplicate(vs, p) && FindEpisode(Episodes(vs, p.kind), p.startedAt).Some?
  }

  lemma FindIs(episodes: seq<Episode>, startedAt: string, i: nat)
    requires i < |episodes| && episodes[i].startedAt == startedAt
    requires forall k :: 0 <= k < i ==> episodes[k].startedAt != startedAt
    ensures FindEpisode(episodes, startedAt) == Some(i)
  {
  }

  lemma FindInPrefix(episodes: seq<Episode>, more: seq<Episode>, startedAt: string)
    requires FindEpisode(episodes, startedAt).Some?
    ensures FindEpisode(episodes + more, startedAt) == FindEpisode(episodes, startedAt)
  {
    FindIs(episodes + more, startedAt, FindEpisode(episodes, startedAt).value);
  }

  /** Merging a packet moves no episode: each start is found where it was, the packet's own start
      at the end when it is new. */
  lemma FindAfterMerge(episodes: seq<Episode>, p: Packet, recordedAt: string, startedAt: string)
    ensures var before := FindEpisode(episodes, startedAt);
            FindEpisode(MergedEpisodes(episodes, p, recordedAt), startedAt)
            == if startedAt == p.startedAt && before.None? then Some(|episodes|) else before
  {
    var after := MergedEpisodes(episodes, p, recordedAt);
    assert forall k :: 0 <= k < |episodes| ==> after[k].startedAt == episodes[k].startedAt;
    var before := FindEpisode(episodes, startedAt);
    if before.Some? {
      FindIs(after, startedAt, before.value);
    } else if startedAt == p.startedAt {
      FindIs(after, startedAt, |episodes|);
    }
  }

  /** A merged packet's episode is found, and reports at least the packet's duration. */
  lemma MergedReports(episodes: seq<Episode>, p: Packet, recordedAt: string)
    ensures var after := MergedEpisodes(episodes, p, recordedAt);
            var at := FindEpisode(after, p.startedAt);
            at.Some? && after[at.value].stats.durationMs >= p.stats.durationMs
  {
    FindAfterMerge(episodes, p, recordedAt, p.startedAt);
  }

  lemma AcceptanceSettles(vs: seq<Violation>, turns: nat, p: Packet, recordedAt: string)
    requires p.eventId != "" && !Duplicate(vs, p)
    ensures FaceSettled(FaceStep(vs, turns, p, recordedAt).violations, p)
  {
    AcceptedFacePacket(vs, turns, p, recordedAt, p.kind);
    MergedReports(Episodes(vs, p.kind), p, recordedAt);
  }

  lemma FaceStepKeepsSettled(vs: seq<Violation>, turns: nat, q: Packet, recordedAt: string, p: Packet)
    requires q.eventId != "" && FaceSettled(vs, p)
    ensures FaceSettled(FaceStep(vs, turns, q, recordedAt).violations, p)
  {
    if !Duplicate(vs, q) {
      AcceptedFacePacket(vs, turns, q, recordedAt, p.kind);
      if p.kind == q.kind {
        FindAfterMerge(Episodes(vs, p.kind), q, recordedAt, p.startedAt);
      }
    }
  }

  lemma TabStepKeepsFaces(vs: seq<Violation>, turns: nat, eventId: string, at: string, kind: Kind)
    requires kind != TabSwitch && eventId != ""
    ensures OfKind(TabStep(vs, turns, eventId, at).violations, kind) == OfKind(vs, kind)
  {
    if eventId !in TabEventIds(vs) {
      AcceptedTabSwitch(vs, turns, eventId, at, kind);
    }
  }

  lemma AppendKeepsSettled(vs: seq<Violation>, v: Violation, p: Packet)
    requires FaceSettled(vs, p)
    ensures FaceSettled(vs + [v], p)
  {
    AppendOfKind(vs, v, p.kind);
    var existing := OfKind(vs, p.kind);
    if IsKind(v, p.kind) {
      EventIdsGrow(existing, v, p.eventId);
      AppendEpisodes(existing, v);
      FindInPrefix(FaceEpisodes(existing), EpisodesOf(v), p.startedAt);
    }
  }
}
