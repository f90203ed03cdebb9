// The `violations` column of an interview session: a list of JSON records of several types,
// written over time by several versions of the code.
module ViolationRecords {
  import opened Prelude

  const TAB_SWITCH := "tab_switch"
  const FACE_ABSENT := "face_absent"
  const MULTIPLE_FACES := "multiple_faces"

  /** A type the proctoring code does not know. */
  type OtherType = name: string | name != TAB_SWITCH && name != FACE_ABSENT && name != MULTIPLE_FACES
    witness "other"

  /** `violation_type`; the proctoring code consolidates the first three. */
  datatype Kind = TabSwitch | FaceAbsent | MultipleFaces | Other(name: OtherType)

  function TypeName(k: Kind): string {
    match k
    case TabSwitch => TAB_SWITCH
    case FaceAbsent => FACE_ABSENT
    case MultipleFaces => MULTIPLE_FACES
    case Other(name) => name
  }

  /** The identifier that the canonical record of a consolidated type carries. */
  function CanonicalId(k: Kind): string { "proctoring:" + TypeName(k) }

  const CAMERA_STATE := "camera_state"

  /** What a face packet, or an episode of several packets, reports. Confidences are integers in
      a fixed unit. */
  datatype Stats = Stats(durationMs: nat, samples: nat, faces: nat,
                         minConfidence: Option<int>, maxConfidence: Option<int>,
                         source: string, detectorVersion: string, modelName: string)

  const NO_STATS := Stats(0, 0, 0, None, None, "", "", "")

  /** One continuous face condition. Absent text fields are "", absent lists are `None`. */
  datatype Episode = Episode(startedAt: string, firstRecordedAt: string, lastRecordedAt: string,
                             stats: Stats, eventIds: Option<seq<string>>)

  /** The metadata keys the code reads, legacy ones and canonical ones. `firstAt` and `lastAt` are
      first/last_occurred_at on tab records and first_recorded_at/recorded_at on face records. An
      `episodes` entry is `None` where the stored list holds something other than an object. */
  datatype Metadata = Metadata(
    occurrenceCount: Option<int>, tabSwitchCount: Option<int>,
    eventIds: Option<seq<string>>, eventId: string,
    episodes: Option<seq<Option<Episode>>>, conditionStartedAt: string, recordedAt: string, stats: Stats,
    firstAt: string, lastAt: string, maxObservedMs: nat,
    terminationTriggered: bool, terminationReason: Option<string>)

  const NO_METADATA :=
    Metadata(None, None, None, "", None, "", "", NO_STATS, "", "", 0, false, None)

  /** One list entry; `Malformed` is an entry that is not a JSON object. */
  datatype Violation =
    | Malformed
    | Record(violationId: string, kind: Kind, turnNumber: int, severity: string, timestamp: string,
             metadata: Metadata)

  // ----------------------------------------------------------- selection by type

  predicate IsKind(v: Violation, k: Kind) { v.Record? && v.kind == k }

  function OfKind(vs: seq<Violation>, k: Kind): (r: seq<Violation>)
    ensures forall i :: 0 <= i < |r| ==> IsKind(r[i], k)
  {
    if |vs| == 0 then []
    else
      var n := |vs| - 1;
      if IsKind(vs[n], k) then OfKind(vs[..n], k) + [vs[n]] else OfKind(vs[..n], k)
  }

  /** Everything that is not of type `k`, in order. */
  function Without(vs: seq<Violation>, k: Kind): seq<Violation> {
    if |vs| == 0 then []
    else
      var n := |vs| - 1;
      if IsKind(vs[n], k) then Without(vs[..n], k) else Without(vs[..n], k) + [vs[n]]
  }

  lemma AppendOfKind(vs: seq<Violation>, v: Violation, k: Kind)
    ensures OfKind(vs + [v], k) == if IsKind(v, k) then OfKind(vs, k) + [v] else OfKind(vs, k)
    ensures Without(vs + [v], k) == if IsKind(v, k) then Without(vs, k) else Without(vs, k) + [v]
  {
    assert (vs + [v])[..|vs|] == vs;
  }

  /** One canonical record in the place of the first record of its type, the others dropped;
      at the end when there was none. */
  function FirstReplaced(vs: seq<Violation>, k: Kind, replacement: Violation): seq<Violation> {
    if |vs| == 0 then []
    else
      var n := |vs| - 1;
      var front := FirstReplaced(vs[..n], k, replacement);
      if !IsKind(vs[n], k) then front + [vs[n]]
      else if OfKind(vs[..n], k) == [] then front + [replacement]
      else front
  }

  function ReplaceKind(vs: seq<Violation>, k: Kind, replacement: Violation): seq<Violation> {
    var front := FirstReplaced(vs, k, replacement);
    if OfKind(vs, k) == [] then front + [replacement] else front
  }

  method ReplaceViolationType(violations: seq<Violation>, k: Kind, replacement: Violation)
    returns (result: seq<Violation>)
    ensures result == ReplaceKind(violations, k, replacement)
  {
    result := [];
    var inserted := false;
    for i := 0 to |violations|
      invariant result == FirstReplaced(violations[..i], k, replacement)
      invariant inserted == (OfKind(violations[..i], k) != [])
    {
      assert violations[..i + 1][..i] == violations[..i];
      var item := violations[i];
      if item.Record? && item.kind == k {
        if !inserted {
          result := result + [replacement];
          inserted := true;
        }
      } else {
        result := result + [item];
      }
    }
    assert violations[..|violations|] == violations;
    if !inserted {
      result := result + [replacement];
    }
  }

  lemma {:induction false} FirstReplacedKinds(vs: seq<Violation>, k: Kind, replacement: Violation, other: Kind)
    requires IsKind(replacement, k)
    ensures var r := FirstReplaced(vs, k, replacement);
            && OfKind(r, k) == (if OfKind(vs, k) == [] then [] else [replacement])
            && (other != k ==> OfKind(r, other) == OfKind(vs, other))
            && Without(r, k) == Without(vs, k)
  {
    if |vs| != 0 {
      var n := |vs| - 1;
      var front := FirstReplaced(vs[..n], k, replacement);
      FirstReplacedKinds(vs[..n], k, replacement, other);
      if !IsKind(vs[n], k) {
        AppendOfKind(front, vs[n], k);
        AppendOfKind(front, vs[n], other);
      } else if OfKind(vs[..n], k) == [] {
        AppendOfKind(front, replacement, k);
        AppendOfKind(front, replacement, other);
      }
    }
  }

  /** After a replacement the type has exactly the canonical record, every other type has the
      records it had, and all entries of other types keep their order. */
  lemma ReplaceKindKinds(vs: seq<Violation>, k: Kind, replacement: Violation, other: Kind)
    requires IsKind(replacement, k)
    ensures var r := ReplaceKind(vs, k, replacement);
            && OfKind(r, k) == [replacement]
            && (other != k ==> OfKind(r, other) == OfKind(vs, other))
            && Without(r, k) == Without(vs, k)
  {
    FirstReplacedKinds(vs, k, replacement, other);
    AppendOfKind(FirstReplaced(vs, k, replacement), replacement, k);
    AppendOfKind(FirstReplaced(vs, k, replacement), replacement, other);
  }

  lemma {:induction false} NothingReplaced(vs: seq<Violation>, k: Kind, replacement: Violation)
    requires OfKind(vs, k) == []
    ensures FirstReplaced(vs, k, replacement) == vs && Without(vs, k) == vs
  {
    if |vs| != 0 {
      var n := |vs| - 1;
      assert vs == vs[..n] + [vs[n]];
      AppendOfKind(vs[..n], vs[n], k);
      NothingReplaced(vs[..n], k, replacement);
    }
  }

  lemma FirstReplacedAppend(vs: seq<Violation>, v: Violation, k: Kind, replacement: Violation)
    ensures FirstReplaced(vs + [v], k, replacement)
         == FirstReplaced(vs, k, replacement)
            + (if !IsKind(v, k) then [v] else if OfKind(vs, k) == [] then [replacement] else [])
  {
    assert (vs + [v])[..|vs|] == vs;
  }

  lemma {:induction false} FirstReplacedPlace(before: seq<Violation>, first: Violation, after: seq<Violation>,
                                              k: Kind, replacement: Violation)
    requires OfKind(before, k) == [] && IsKind(first, k)
    ensures FirstReplaced(before + [first] + after, k, replacement) == before + [replacement] + Without(after, k)
    ensures OfKind(before + [first] + after, k) != []
  {
    if |after| == 0 {
      NothingReplaced(before, k, replacement);
      FirstReplacedAppend(before, first, k, replacement);
      AppendOfKind(before, first, k);
      assert before + [first] + after == before + [first];
    } else {
      var n := |after| - 1;
      var rest, v := after[..n], after[n];
      assert after == rest + [v];
      AppendAssociates(before + [first], rest, [v]);
      AppendAssociates(before + [replacement], Without(rest, k), [v]);
      FirstReplacedPlace(before, first, rest, k, replacement);
      OneMoreReplaced(before + [first] + rest, v, k, replacement, rest);
    }
  }

  lemma OneMoreReplaced(vs: seq<Violation>, v: Violation, k: Kind, replacement: Violation, rest: seq<Violation>)
    requires OfKind(vs, k) != []
    ensures FirstReplaced(vs + [v], k, replacement)
         == FirstReplaced(vs, k, replacement) + (if IsKind(v, k) then [] else [v])
    ensures OfKind(vs + [v], k) != []
    ensures Without(rest + [v], k) == Without(rest, k) + (if IsKind(v, k) then [] else [v])
  {
    FirstReplacedAppend(vs, v, k, replacement);
    AppendOfKind(vs, v, k);
    AppendOfKind(rest, v, k);
  }

  /** The canonical record takes the place of the first record of its type, the others of the type
      go, and everything else stays where it was. */
  lemma ReplaceKindPlace(before: seq<Violation>, first: Violation, after: seq<Violation>, k: Kind, replacement: Violation)
    requires OfKind(before, k) == [] && IsKind(first, k)
    ensures ReplaceKind(before + [first] + after, k, replacement) == before + [replacement] + Without(after, k)
  {
    FirstReplacedPlace(before, first, after, k, replacement);
  }

  /** A first record of its type goes to the end. */
  lemma ReplaceKindEnd(vs: seq<Violation>, k: Kind, replacement: Violation)
    requires OfKind(vs, k) == []
    ensures ReplaceKind(vs, k, replacement) == vs + [replacement]
  {
    NothingReplaced(vs, k, replacement);
  }

  // --------------------------------------------------------------------- event ids

  function AddUnique(ids: seq<string>, id: string): seq<string> {
    if id == "" || id in ids then ids else ids + [id]
  }

  function AddAll(ids: seq<string>, candidates: seq<string>): seq<string> {
    if |candidates| == 0 then ids
    else
      var n := |candidates| - 1;
      AddUnique(AddAll(ids, candidates[..n]), candidates[n])
  }

  function IdList(o: Option<seq<string>>): seq<string> {
    if o.Some? then o.value else []
  }

  function MetadataOf(v: Violation): Metadata {
    if v.Record? then v.metadata else NO_METADATA
  }

  /** Ordered, duplicate-free event ids of legacy and canonical records. */
  function EventIds(items: seq<Violation>): seq<string> {
    if |items| == 0 then []
    else
      var n := |items| - 1;
      var metadata := MetadataOf(items[n]);
      AddUnique(AddAll(EventIds(items[..n]), IdList(metadata.eventIds)), metadata.eventId)
  }

  method CollectEventIds(items: seq<Violation>) returns (result: seq<string>)
    ensures result == EventIds(items)
  {
    result := [];
    for i := 0 to |items|
      invariant result == EventIds(items[..i])
    {
      assert items[..i + 1][..i] == items[..i];
      ghost var before := result;
      var metadata := MetadataOf(items[i]);
      var candidates := IdList(metadata.eventIds);
      for j := 0 to |candidates|
        invariant result == AddAll(before, candidates[..j])
      {
        assert candidates[..j + 1][..j] == candidates[..j];
        if candidates[j] != "" && candidates[j] !in result {
          result := result + [candidates[j]];
        }
      }
      assert candidates[..|candidates|] == candidates;
      if metadata.eventId != "" && metadata.eventId !in result {
        result := result + [metadata.eventId];
      }
    }
    assert items[..|items|] == items;
  }

  /** A list of ids as the code keeps it: no blanks, no repetitions. */
  ghost predicate CleanIds(ids: seq<string>) {
    Distinct(ids) && forall i :: 0 <= i < |ids| ==> ids[i] != ""
  }

  lemma AddUniqueClean(ids: seq<string>, id: string)
    requires CleanIds(ids)
    ensures CleanIds(AddUnique(ids, id))
  {
  }

  lemma {:induction false} AddAllClean(ids: seq<string>, candidates: seq<string>)
    requires CleanIds(ids)
    ensures CleanIds(AddAll(ids, candidates))
    ensures forall id :: id in ids ==> id in AddAll(ids, candidates)
  {
    if |candidates| != 0 {
      var n := |candidates| - 1;
      AddAllClean(ids, candidates[..n]);
      AddUniqueClean(AddAll(ids, candidates[..n]), candidates[n]);
    }
  }

  lemma {:induction false} EventIdsClean(items: seq<Violation>)
    ensures CleanIds(EventIds(items))
  {
    if |items| != 0 {
      var n := |items| - 1;
      var metadata := MetadataOf(items[n]);
      EventIdsClean(items[..n]);
      AddAllClean(EventIds(items[..n]), IdList(metadata.eventIds));
      AddUniqueClean(AddAll(EventIds(items[..n]), IdList(metadata.eventIds)), metadata.eventId);
    }
  }

  lemma {:induction false} AddAllHolds(ids: seq<string>, candidates: seq<string>, id: string)
    ensures id in AddAll(ids, candidates) <==> id in ids || (id != "" && id in candidates)
  {
    if |candidates| != 0 {
      var n := |candidates| - 1;
      assert candidates == candidates[..n] + [candidates[n]];
      AddAllHolds(ids, candidates[..n], id);
    }
  }

  /** Exactly the ids are collected that some record lists, or carries in the legacy field. */
  lemma {:induction false} EventIdsHold(items: seq<Violation>, id: string)
    ensures id in EventIds(items)
       <==> && id != ""
            && exists v :: v in items && v.Record?
                        && (id == v.metadata.eventId || (v.metadata.eventIds.Some? && id in v.metadata.eventIds.value))
  {
    if |items| != 0 {
      var n := |items| - 1;
      assert items == items[..n] + [items[n]];
      EventIdsHold(items[..n], id);
      AddAllHolds(EventIds(items[..n]), IdList(MetadataOf(items[n]).eventIds), id);
    }
  }

  /** Appending a record loses no event id. */
  lemma EventIdsGrow(items: seq<Violation>, v: Violation, id: string)
    requires id in EventIds(items)
    ensures id in EventIds(items + [v])
  {
    assert (items + [v])[..|items|] == items;
    EventIdsClean(items);
    AddAllClean(EventIds(items), IdList(MetadataOf(v).eventIds));
  }

  lemma {:induction false} AddAllToEmpty(ids: seq<string>)
    requires CleanIds(ids)
    ensures AddAll([], ids) == ids
  {
    if |ids| != 0 {
      var n := |ids| - 1;
      AddAllToEmpty(ids[..n]);
      assert ids[n] !in ids[..n];
      assert ids == ids[..n] + [ids[n]];
    }
  }

  /** Event ids written into a canonical record are read back exactly. */
  lemma EventIdsReadBack(v: Violation, ids: seq<string>)
    requires v.Record? && v.metadata.eventIds == Some(ids) && v.metadata.eventId == "" && CleanIds(ids)
    ensures EventIds([v]) == ids
  {
    assert [v][..0] == [];
    AddAllToEmpty(ids);
  }

  // ----------------------------------------------------------- appending by identifier

  datatype AppendOutcome = NotAppendable | Appended(items: seq<Violation>, added: bool)

  datatype IdSearch = Found | Missing | NotAnObject

  /** Scan for an identifier; the scan fails on an entry that is not an object. */
  function FindId(vs: seq<Violation>, id: string): IdSearch {
    if |vs| == 0 then Missing
    else if vs[0].Malformed? then NotAnObject
    else if vs[0].violationId == id then Found
    else FindId(vs[1..], id)
  }

  /** `append_violation`: a record without an identifier is refused, a known one is ignored. */
  function AppendViolation(vs: seq<Violation>, v: Violation): AppendOutcome {
    if v.Malformed? || v.violationId == "" then NotAppendable
    else
      match FindId(vs, v.violationId)
      case NotAnObject => NotAppendable
      case Found => Appended(vs, false)
      case Missing => Appended(vs + [v], true)
  }

  ghost predicate AllRecords(vs: seq<Violation>) { forall r :: r in vs ==> r.Record? }

  ghost predicate HasId(vs: seq<Violation>, id: string) {
    exists r :: r in vs && r.Record? && r.violationId == id
  }

  lemma HeadAndTail(vs: seq<Violation>, id: string)
    requires vs != []
    ensures AllRecords(vs) <==> vs[0].Record? && AllRecords(vs[1..])
    ensures HasId(vs, id) <==> (vs[0].Record? && vs[0].violationId == id) || HasId(vs[1..], id)
  {
    assert vs == [vs[0]] + vs[1..];
    forall r ensures r in vs <==> r == vs[0] || r in vs[1..] {
    }
    if HasId(vs[1..], id) {
      var r :| r in vs[1..] && r.Record? && r.violationId == id;
      assert r in vs;
    }
  }

  /** A scan that does not fail finds exactly the identifiers that are there. */
  lemma {:induction false} FindIdFinds(vs: seq<Violation>, id: string)
    ensures FindId(vs, id) == Missing ==> AllRecords(vs) && !HasId(vs, id)
    ensures AllRecords(vs) ==> FindId(vs, id) == if HasId(vs, id) then Found else Missing
  {
    if |vs| != 0 {
      FindIdFinds(vs[1..], id);
      HeadAndTail(vs, id);
    }
  }

  lemma {:induction false} FirstReplacedHolds(vs: seq<Violation>, k: Kind, replacement: Violation, r: Violation)
    ensures r in FirstReplaced(vs, k, replacement)
       <==> (r in vs && !IsKind(r, k)) || (r == replacement && OfKind(vs, k) != [])
  {
    if |vs| != 0 {
      var n := |vs| - 1;
      assert vs == vs[..n] + [vs[n]];
      FirstReplacedHolds(vs[..n], k, replacement, r);
    }
  }

  /** What a consolidated list holds: the canonical record, and whatever is of another type. */
  lemma ReplaceKindHolds(vs: seq<Violation>, k: Kind, replacement: Violation, r: Violation)
    ensures r in ReplaceKind(vs, k, replacement) <==> r == replacement || (r in vs && !IsKind(r, k))
  {
    FirstReplacedHolds(vs, k, replacement, r);
  }

  lemma ReplaceKindIds(vs: seq<Violation>, k: Kind, replacement: Violation, id: string)
    requires replacement.Record?
    ensures AllRecords(vs) ==> AllRecords(ReplaceKind(vs, k, replacement))
    ensures HasId(ReplaceKind(vs, k, replacement), id)
       <==> replacement.violationId == id || exists r :: r in vs && r.Record? && r.kind != k && r.violationId == id
  {
    forall r ensures r in ReplaceKind(vs, k, replacement) <==> r == replacement || (r in vs && !IsKind(r, k)) {
      ReplaceKindHolds(vs, k, replacement, r);
    }
  }

  /** Which record, once accepted, is still known after the next consolidation, of whatever type:
      exactly one of another type, or one that carries the canonical identifier itself. Any other
      is forgotten, and would be stored again if it were delivered again. */
  lemma SurvivesExactly(vs: seq<Violation>, v: Violation, k: Kind, canonical: Violation)
    requires v.Record? && FindId(vs, v.violationId) == Missing
    requires canonical.Record? && canonical.violationId == CanonicalId(k)
    ensures FindId(ReplaceKind(vs + [v], k, canonical), v.violationId)
         == if v.kind != k || v.violationId == CanonicalId(k) then Found else Missing
  {
    var after := ReplaceKind(vs + [v], k, canonical);
    FindIdFinds(vs, v.violationId);
    assert AllRecords(vs + [v]);
    ReplaceKindIds(vs + [v], k, canonical, v.violationId);
    FindIdFinds(after, v.violationId);
    assert v in vs + [v];
  }

  /** A record that no consolidation forgets. */
  predicate Lasting(r: Violation) {
    r.Record? && (r.kind.Other? || r.violationId == CanonicalId(r.kind))
  }

  ghost predicate HasLasting(vs: seq<Violation>, id: string) {
    AllRecords(vs) && exists r :: r in vs && Lasting(r) && r.violationId == id
  }

  lemma AppendKeepsLasting(vs: seq<Violation>, v: Violation, id: string)
    requires v.Record? && AllRecords(vs)
    requires HasLasting(vs, id) || (Lasting(v) && v.violationId == id)
    ensures HasLasting(vs + [v], id)
  {
    assert v in vs + [v];
  }

  lemma ReplaceKindKeepsLasting(vs: seq<Violation>, k: Kind, canonical: Violation, id: string)
    requires !k.Other? && IsKind(canonical, k) && canonical.violationId == CanonicalId(k) && HasLasting(vs, id)
    ensures HasLasting(ReplaceKind(vs, k, canonical), id)
  {
    var r :| r in vs && Lasting(r) && r.violationId == id;
    ReplaceKindIds(vs, k, canonical, id);
    ReplaceKindHolds(vs, k, canonical, r);
    ReplaceKindHolds(vs, k, canonical, canonical);
  }
}
