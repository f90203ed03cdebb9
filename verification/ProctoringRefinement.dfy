// The violation list, fed by tab and face deliveries only, stands for a simple abstract object:
// a set of tab event ids, and for each face type a map from condition start to joined statistics.
module ProctoringRefinement {
  import opened Prelude
  import opened ViolationRecords
  import opened TabSwitchLog
  import opened FaceLog

  /** One delivery to the violation list, with the transcript length at that moment. */
  datatype Delivery =
    | Tab(eventId: string, occurredAt: string, turns: nat)
    | Face(packet: Packet, recordedAt: string, turns: nat)

  /** Event ids are UUIDs and starts are ISO timestamps, so neither is blank. */
  predicate WellFormed(d: Delivery) {
    match d
    case Tab(eventId, _, _) => eventId != ""
    case Face(p, _, _) => p.eventId != "" && p.startedAt != "" && Qualified(p)
  }

  ghost predicate AllWellFormed(ds: seq<Delivery>) {
    forall i :: 0 <= i < |ds| ==> WellFormed(ds[i])
  }

  function Deliver(vs: seq<Violation>, d: Delivery): seq<Violation> {
    match d
    case Tab(eventId, occurredAt, turns) => TabStep(vs, turns, eventId, occurredAt).violations
    case Face(p, recordedAt, turns) => FaceStep(vs, turns, p, recordedAt).violations
  }

  /** The list after a sequence of deliveries to an empty one. */
  function Log(ds: seq<Delivery>): seq<Violation> {
    if |ds| == 0 then [] else Deliver(Log(ds[..|ds| - 1]), ds[|ds| - 1])
  }

  /** What a delivery does to the records of a type depends on nothing but those records. */
  lemma DeliverByKind(a: seq<Violation>, b: seq<Violation>, d: Delivery, k: Kind)
    requires OfKind(a, k) == OfKind(b, k)
    ensures OfKind(Deliver(a, d), k) == OfKind(Deliver(b, d), k)
  {
    match d
    case Tab(eventId, occurredAt, turns) => TabStepByKind(a, b, turns, eventId, occurredAt, k);
    case Face(p, recordedAt, turns) => FaceStepByKind(a, b, turns, p, recordedAt, k);
  }

  // ------------------------------------------------------------- tab switches as a set

  ghost function TabIds(ds: seq<Delivery>): set<string> {
    set d | d in ds && d.Tab? :: d.eventId
  }

  /** What one delivery does to the tab records. */
  lemma TabDelivery(front: seq<Delivery>, d: Delivery)
    requires WellFormed(d)
    ensures var vs, after := Log(front), Log(front + [d]);
            if d.Tab? && d.eventId !in TabEventIds(vs)
            then && |OfKind(after, TabSwitch)| == 1
                 && TabSwitchCount(after) == TabSwitchCount(vs) + 1
                 && TabEventIds(after) == TabEventIds(vs) + [d.eventId]
            else OfKind(after, TabSwitch) == OfKind(vs, TabSwitch)
  {
    var vs := Log(front);
    assert (front + [d])[..|front|] == front;
    match d
    case Tab(eventId, occurredAt, turns) =>
      if eventId !in TabEventIds(vs) {
        AcceptedTabSwitch(vs, turns, eventId, occurredAt, TabSwitch);
      }
    case Face(p, recordedAt, turns) => FaceStepKinds(vs, turns, p, recordedAt, TabSwitch);
  }

  lemma TabIdsAppend(front: seq<Delivery>, d: Delivery)
    ensures TabIds(front + [d]) == if d.Tab? then TabIds(front) + {d.eventId} else TabIds(front)
  {
  }

  lemma {:induction false} TabInvariant(ds: seq<Delivery>)
    requires AllWellFormed(ds)
    ensures |OfKind(Log(ds), TabSwitch)| <= 1
    ensures TabSwitchCount(Log(ds)) == |TabEventIds(Log(ds))|
    ensures Elements(TabEventIds(Log(ds))) == TabIds(ds)
  {
    if |ds| != 0 {
      var n := |ds| - 1;
      var front, d := ds[..n], ds[n];
      TabInvariant(front);
      assert ds == front + [d];
      TabDelivery(front, d);
      TabIdsAppend(front, d);
      if d.Tab? {
        assert d.eventId in TabEventIds(Log(front)) <==> d.eventId in Elements(TabEventIds(Log(front)));
        ElementsAppend(TabEventIds(Log(front)), d.eventId);
      }
    }
  }

  /** The count is the number of distinct tab events ever delivered, in whatever order and
      however often; there is at most one tab record; and one more switch terminates the
      interview exactly when it is a new one and makes the number of distinct events reach five. */
  lemma TabLogRefinesSet(ds: seq<Delivery>, turns: nat, eventId: string, occurredAt: string)
    requires AllWellFormed(ds) && eventId != ""
    ensures |OfKind(Log(ds), TabSwitch)| <= 1
    ensures TabSwitchCount(Log(ds)) == |TabIds(ds)|
    ensures TabStep(Log(ds), turns, eventId, occurredAt).recorded <==> eventId !in TabIds(ds)
    ensures TabStep(Log(ds), turns, eventId, occurredAt).terminated
            <==> eventId !in TabIds(ds) && |TabIds(ds) + {eventId}| >= MAX_ALLOWED_TAB_SWITCHES
  {
    TabInvariant(ds);
    var ids := TabEventIds(Log(ds));
    EventIdsClean(OfKind(Log(ds), TabSwitch));
    DistinctSize(ids);
    assert eventId in ids <==> eventId in Elements(ids);
  }

  // --------------------------------------------------------- face packets as a join map

  ghost predicate Bounds(u: Joined, ps: seq<Packet>, startedAt: string) {
    forall p :: p in ps && p.startedAt == startedAt ==> Covers(u, Of(p.stats))
  }

  /** `j` is the least bound of the packets with the given start: the maxima of their durations,
      sample counts, face counts and top confidences, and the minimum of their low confidences. */
  ghost predicate IsJoin(j: Joined, ps: seq<Packet>, startedAt: string) {
    Bounds(j, ps, startedAt) && forall u :: Bounds(u, ps, startedAt) ==> Covers(u, j)
  }

  lemma JoinIsUnique(a: Joined, b: Joined, ps: seq<Packet>, qs: seq<Packet>, startedAt: string)
    requires IsJoin(a, ps, startedAt) && IsJoin(b, qs, startedAt)
    requires forall p :: p in ps <==> p in qs
    ensures a == b
  {
    assert Bounds(b, ps, startedAt) && Bounds(a, qs, startedAt);
  }

  function IsFaceOf(d: Delivery, kind: Kind): bool { d.Face? && d.packet.kind == kind }

  /** The packets of a type that were accepted, in order. */
  function Accepted(ds: seq<Delivery>, kind: Kind): seq<Packet> {
    if |ds| == 0 then []
    else
      var front, d := ds[..|ds| - 1], ds[|ds| - 1];
      if IsFaceOf(d, kind) && !Duplicate(Log(front), d.packet) then Accepted(front, kind) + [d.packet]
      else Accepted(front, kind)
  }

  ghost predicate DistinctStarts(episodes: seq<Episode>) {
    forall i, j :: 0 <= i < j < |episodes| ==> episodes[i].startedAt != episodes[j].startedAt
  }

  ghost predicate HasStart(ps: seq<Packet>, startedAt: string) {
    exists p :: p in ps && p.startedAt == startedAt
  }

  lemma HasStartAppend(ps: seq<Packet>, p: Packet, startedAt: string)
    ensures HasStart(ps + [p], startedAt) <==> HasStart(ps, startedAt) || p.startedAt == startedAt
  {
    assert p in ps + [p];
    if HasStart(ps, startedAt) {
      var q :| q in ps && q.startedAt == startedAt;
      assert q in ps + [p];
    }
  }

  /** The episode has an accepted packet, and its statistics are the join of all of them. */
  ghost predicate Joins(e: Episode, ps: seq<Packet>) {
    HasStart(ps, e.startedAt) && IsJoin(Of(e.stats), ps, e.startedAt)
  }

  /** The episodes are exactly the starts of the accepted packets, each with the join of the
      packets that share its start. */
  ghost predicate Represents(episodes: seq<Episode>, ps: seq<Packet>) {
    && DistinctStarts(episodes)
    && (forall i :: 0 <= i < |episodes| ==> Joins(episodes[i], ps))
    && (forall s :: HasStart(ps, s) ==> FindEpisode(episodes, s).Some?)
  }

  lemma BoundsAppend(u: Joined, ps: seq<Packet>, p: Packet, startedAt: string)
    ensures Bounds(u, ps + [p], startedAt)
       <==> Bounds(u, ps, startedAt) && (p.startedAt == startedAt ==> Covers(u, Of(p.stats)))
  {
    if Bounds(u, ps + [p], startedAt) {
      assert p in ps + [p];
      forall q | q in ps && q.startedAt == startedAt ensures Covers(u, Of(q.stats)) {
        assert q in ps + [p];
      }
    }
  }

  lemma MergeJoins(existing: Option<Episode>, p: Packet, recordedAt: string, ps: seq<Packet>)
    requires existing.Some? ==> IsJoin(Of(existing.value.stats), ps, p.startedAt)
    requires existing.None? ==> !HasStart(ps, p.startedAt)
    ensures Joins(MergeEpisode(existing, p, recordedAt), ps + [p])
  {
    var j := Of(MergeEpisode(existing, p, recordedAt).stats);
    HasStartAppend(ps, p, p.startedAt);
    BoundsAppend(j, ps, p, p.startedAt);
    forall u | Bounds(u, ps + [p], p.startedAt) ensures Covers(u, j) {
      BoundsAppend(u, ps, p, p.startedAt);
    }
  }

  lemma OtherStartsUnaffected(e: Episode, ps: seq<Packet>, p: Packet)
    requires Joins(e, ps) && e.startedAt != p.startedAt
    ensures Joins(e, ps + [p])
  {
    HasStartAppend(ps, p, e.startedAt);
    BoundsAppend(Of(e.stats), ps, p, e.startedAt);
    forall u | Bounds(u, ps + [p], e.startedAt) ensures Covers(u, Of(e.stats)) {
      BoundsAppend(u, ps, p, e.startedAt);
    }
  }

  lemma MergedEntryJoins(episodes: seq<Episode>, ps: seq<Packet>, p: Packet, recordedAt: string, i: nat)
    requires Represents(episodes, ps) && i < |MergedEpisodes(episodes, p, recordedAt)|
    ensures Joins(MergedEpisodes(episodes, p, recordedAt)[i], ps + [p])
  {
    var at := FindEpisode(episodes, p.startedAt);
    if i == if at.Some? then at.value else |episodes| {
      assert at.Some? ==> Joins(episodes[i], ps);
      MergeJoins(if at.Some? then Some(episodes[at.value]) else None, p, recordedAt, ps);
    } else {
      assert Joins(episodes[i], ps);
      OtherStartsUnaffected(episodes[i], ps, p);
    }
  }

  lemma MergeKeepsDistinct(episodes: seq<Episode>, p: Packet, recordedAt: string)
    requires DistinctStarts(episodes)
    ensures DistinctStarts(MergedEpisodes(episodes, p, recordedAt))
  {
  }

  lemma MergeRepresents(episodes: seq<Episode>, ps: seq<Packet>, p: Packet, recordedAt: string)
    requires Represents(episodes, ps)
    ensures Represents(MergedEpisodes(episodes, p, recordedAt), ps + [p])
  {
    var after := MergedEpisodes(episodes, p, recordedAt);
    MergeKeepsDistinct(episodes, p, recordedAt);
    forall i | 0 <= i < |after| ensures Joins(after[i], ps + [p]) {
      MergedEntryJoins(episodes, ps, p, recordedAt, i);
    }
    forall s | HasStart(ps + [p], s) ensures FindEpisode(after, s).Some? {
      HasStartAppend(ps, p, s);
      FindAfterMerge(episodes, p, recordedAt, s);
    }
  }

  /** What one delivery does to the records and the accepted packets of a face type. */
  lemma FaceDelivery(front: seq<Delivery>, d: Delivery, kind: Kind)
    requires WellFormed(d) && kind != TabSwitch
    ensures var ds, vs := front + [d], Log(front);
            if IsFaceOf(d, kind) && !Duplicate(vs, d.packet)
            then && Accepted(ds, kind) == Accepted(front, kind) + [d.packet]
                 && Episodes(Log(ds), kind) == MergedEpisodes(Episodes(vs, kind), d.packet, d.recordedAt)
                 && FaceEventIds(Log(ds), kind) == AddUnique(FaceEventIds(vs, kind), d.packet.eventId)
                 && |OfKind(Log(ds), kind)| == 1
                 && FirstMetadata(Log(ds), kind).occurrenceCount == Some(|Episodes(Log(ds), kind)|)
            else Accepted(ds, kind) == Accepted(front, kind) && OfKind(Log(ds), kind) == OfKind(vs, kind)
  {
    var vs := Log(front);
    assert (front + [d])[..|front|] == front;
    match d
    case Tab(eventId, occurredAt, turns) => TabStepKeepsFaces(vs, turns, eventId, occurredAt, kind);
    case Face(p, recordedAt, turns) =>
      if !Duplicate(vs, p) {
        AcceptedFacePacket(vs, turns, p, recordedAt, kind);
      }
  }

  lemma {:induction false} FaceInvariant(ds: seq<Delivery>, kind: Kind)
    requires AllWellFormed(ds) && kind != TabSwitch
    ensures Represents(Episodes(Log(ds), kind), Accepted(ds, kind))
    ensures |OfKind(Log(ds), kind)| <= 1
    ensures OfKind(Log(ds), kind) != [] ==>
              FirstMetadata(Log(ds), kind).occurrenceCount == Some(|Episodes(Log(ds), kind)|)
  {
    if |ds| != 0 {
      var n := |ds| - 1;
      var front, d := ds[..n], ds[n];
      assert ds == front + [d];
      FaceInvariant(front, kind);
      FaceDelivery(front, d, kind);
      if IsFaceOf(d, kind) && !Duplicate(Log(front), d.packet) {
        MergeRepresents(Episodes(Log(front), kind), Accepted(front, kind), d.packet, d.recordedAt);
      }
    }
  }

  ghost function Starts(ps: seq<Packet>): set<string> { set p | p in ps :: p.startedAt }

  ghost function EpisodeStarts(episodes: seq<Episode>): set<string> {
    set i | 0 <= i < |episodes| :: episodes[i].startedAt
  }

  /** The abstract value of the face log of one type. */
  ghost function FaceMap(vs: seq<Violation>, kind: Kind): map<string, Joined> {
    var episodes := Episodes(vs, kind);
    map s | s in EpisodeStarts(episodes) && FindEpisode(episodes, s).Some?
      :: Of(episodes[FindEpisode(episodes, s).value].stats)
  }

  lemma {:induction false} StartsSize(episodes: seq<Episode>)
    requires DistinctStarts(episodes)
    ensures |EpisodeStarts(episodes)| == |episodes|
  {
    if |episodes| != 0 {
      var n := |episodes| - 1;
      StartsSize(episodes[..n]);
      assert EpisodeStarts(episodes) == EpisodeStarts(episodes[..n]) + {episodes[n].startedAt};
    }
  }

  lemma RepresentsAsMap(episodes: seq<Episode>, ps: seq<Packet>, s: string)
    requires Represents(episodes, ps)
    ensures s in EpisodeStarts(episodes) <==> s in Starts(ps)
    ensures s in Starts(ps) ==>
              FindEpisode(episodes, s).Some? && IsJoin(Of(episodes[FindEpisode(episodes, s).value].stats), ps, s)
  {
    if s in EpisodeStarts(episodes) {
      var i :| 0 <= i < |episodes| && episodes[i].startedAt == s;
      assert Joins(episodes[i], ps);
    }
    if s in Starts(ps) {
      assert HasStart(ps, s);
      var at := FindEpisode(episodes, s).value;
      assert episodes[at].startedAt == s;
      assert Joins(episodes[at], ps);
    }
  }

  /** From an empty log: at most one record of the type, one episode for each distinct accepted
      start, `occurrence_count` the number of those, and as abstract value the map that sends
      each start to the join of its accepted packets. */
  lemma FaceLogRefinesMap(ds: seq<Delivery>, kind: Kind)
    requires AllWellFormed(ds) && kind != TabSwitch
    ensures var vs, ps := Log(ds), Accepted(ds, kind);
            && |OfKind(vs, kind)| <= 1
            && FaceMap(vs, kind).Keys == Starts(ps)
            && (forall s :: s in FaceMap(vs, kind) ==> IsJoin(FaceMap(vs, kind)[s], ps, s))
            && |Episodes(vs, kind)| == |Starts(ps)|
            && (OfKind(vs, kind) != [] ==> FirstMetadata(vs, kind).occurrenceCount == Some(|Starts(ps)|))
  {
    FaceInvariant(ds, kind);
    var vs, ps := Log(ds), Accepted(ds, kind);
    var episodes := Episodes(vs, kind);
    StartsSize(episodes);
    forall s ensures s in EpisodeStarts(episodes) <==> s in Starts(ps) {
      RepresentsAsMap(episodes, ps, s);
    }
    assert EpisodeStarts(episodes) == Starts(ps);
    forall s | s in Starts(ps)
      ensures s in FaceMap(vs, kind) && IsJoin(FaceMap(vs, kind)[s], ps, s)
    {
      RepresentsAsMap(episodes, ps, s);
    }
  }

  // ------------------------------------------------------------------ order independence

  /** Every face packet delivered for a type, accepted or not. */
  function Packets(ds: seq<Delivery>, kind: Kind): seq<Packet> {
    if |ds| == 0 then []
    else
      var front, d := ds[..|ds| - 1], ds[|ds| - 1];
      if IsFaceOf(d, kind) then Packets(front, kind) + [d.packet] else Packets(front, kind)
  }

  ghost predicate DistinctEvents(ps: seq<Packet>) {
    forall i, j :: 0 <= i < j < |ps| ==> ps[i].eventId != ps[j].eventId
  }

  ghost predicate HasEvent(ps: seq<Packet>, id: string) {
    exists p :: p in ps && p.eventId == id
  }

  lemma HasEventAppend(ps: seq<Packet>, p: Packet, id: string)
    ensures HasEvent(ps + [p], id) <==> HasEvent(ps, id) || p.eventId == id
  {
    assert p in ps + [p];
    if HasEvent(ps, id) {
      var q :| q in ps && q.eventId == id;
      assert q in ps + [p];
    }
  }

  lemma LastEventIsNew(ps: seq<Packet>, p: Packet)
    requires DistinctEvents(ps + [p])
    ensures DistinctEvents(ps) && !HasEvent(ps, p.eventId)
  {
    var all := ps + [p];
    forall i, j | 0 <= i < j < |ps| ensures ps[i].eventId != ps[j].eventId {
      assert all[i] == ps[i] && all[j] == ps[j];
    }
    forall q | q in ps ensures q.eventId != p.eventId {
      var i :| 0 <= i < |ps| && ps[i] == q;
      assert all[i] == q && all[|ps|] == p;
    }
  }

  lemma PacketsAppend(front: seq<Delivery>, d: Delivery, kind: Kind)
    ensures Packets(front + [d], kind) == if IsFaceOf(d, kind) then Packets(front, kind) + [d.packet] else Packets(front, kind)
  {
    assert (front + [d])[..|front|] == front;
  }

  lemma {:induction false} EventsComeFromPackets(ds: seq<Delivery>, kind: Kind, id: string)
    requires AllWellFormed(ds) && kind != TabSwitch
    ensures id in FaceEventIds(Log(ds), kind) ==> HasEvent(Packets(ds, kind), id)
  {
    if |ds| != 0 {
      var n := |ds| - 1;
      var front, d := ds[..n], ds[n];
      assert ds == front + [d];
      EventsComeFromPackets(front, kind, id);
      FaceDelivery(front, d, kind);
      PacketsAppend(front, d, kind);
      if IsFaceOf(d, kind) {
        HasEventAppend(Packets(front, kind), d.packet, id);
      }
    }
  }

  lemma {:induction false} FreshPacketsAccepted(ds: seq<Delivery>, kind: Kind)
    requires AllWellFormed(ds) && kind != TabSwitch && DistinctEvents(Packets(ds, kind))
    ensures Accepted(ds, kind) == Packets(ds, kind)
  {
    if |ds| != 0 {
      var n := |ds| - 1;
      var front, d := ds[..n], ds[n];
      assert ds == front + [d];
      PacketsAppend(front, d, kind);
      if IsFaceOf(d, kind) {
        LastEventIsNew(Packets(front, kind), d.packet);
        EventsComeFromPackets(front, kind, d.packet.eventId);
      }
      FreshPacketsAccepted(front, kind);
      FaceDelivery(front, d, kind);
    }
  }

  /** Order independence: two delivery sequences carrying the same packets of a type, each packet
      under its own event id, lead to the same abstract face log, however they are ordered and
      interleaved with other deliveries. */
  lemma FaceLogIgnoresOrder(ds: seq<Delivery>, es: seq<Delivery>, kind: Kind)
    requires AllWellFormed(ds) && AllWellFormed(es) && kind != TabSwitch
    requires DistinctEvents(Packets(ds, kind)) && DistinctEvents(Packets(es, kind))
    requires forall p :: p in Packets(ds, kind) <==> p in Packets(es, kind)
    ensures FaceMap(Log(ds), kind) == FaceMap(Log(es), kind)
  {
    FreshPacketsAccepted(ds, kind);
    FreshPacketsAccepted(es, kind);
    FaceLogRefinesMap(ds, kind);
    FaceLogRefinesMap(es, kind);
    SameJoins(FaceMap(Log(ds), kind), FaceMap(Log(es), kind), Packets(ds, kind), Packets(es, kind));
  }

  lemma SameJoins(a: map<string, Joined>, b: map<string, Joined>, ps: seq<Packet>, qs: seq<Packet>)
    requires a.Keys == Starts(ps) && b.Keys == Starts(qs)
    requires forall s :: s in a ==> IsJoin(a[s], ps, s)
    requires forall s :: s in b ==> IsJoin(b[s], qs, s)
    requires forall p :: p in ps <==> p in qs
    ensures a == b
  {
    assert Starts(ps) == Starts(qs);
    forall s | s in a ensures a[s] == b[s] {
      JoinIsUnique(a[s], b[s], ps, qs, s);
    }
  }
}
