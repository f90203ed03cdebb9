// Tab switches: one low-severity record that counts distinct events, terminating at the fifth.
module TabSwitchLog {
  import opened Prelude
  import opened ViolationRecords

  const MAX_ALLOWED_TAB_SWITCHES := 5

  /** A declared count is believed only when it is a positive integer. */
  function PositiveInt(count: Option<int>): nat {
    if count.Some? && count.value >= 1 then count.value else 0
  }

  /** The count a record declares for itself. */
  function Declared(v: Violation): nat {
    Max(PositiveInt(MetadataOf(v).occurrenceCount), PositiveInt(MetadataOf(v).tabSwitchCount))
  }

  function DeclaredMax(tabs: seq<Violation>): nat {
    if |tabs| == 0 then 0
    else
      var n := |tabs| - 1;
      Max(DeclaredMax(tabs[..n]), Declared(tabs[n]))
  }

  /** How many tab switches the list stands for: its tab records, or more if one declares more. */
  function TabSwitchCount(vs: seq<Violation>): nat {
    var tabs := OfKind(vs, TabSwitch);
    Max(|tabs|, DeclaredMax(tabs))
  }

  function TabEventIds(vs: seq<Violation>): seq<string> {
    EventIds(OfKind(vs, TabSwitch))
  }

  datatype TabOutcome = TabOutcome(violations: seq<Violation>, appended: bool, recorded: bool,
                                   count: nat, terminated: bool)

  function FirstNonEmpty(a: string, b: string, c: string): string {
    if a != "" then a else if b != "" then b else c
  }

  /** The canonical record written for an accepted tab switch. */
  function TabRecord(vs: seq<Violation>, turns: nat, eventId: string, occurredAt: string): (r: Violation)
    ensures IsKind(r, TabSwitch) && r.violationId == CanonicalId(TabSwitch)
  {
    var tabs := OfKind(vs, TabSwitch);
    var count := TabSwitchCount(vs) + 1;
    var firstMetadata := if tabs == [] then NO_METADATA else MetadataOf(tabs[0]);
    var firstAt := FirstNonEmpty(firstMetadata.firstAt, if tabs == [] then "" else tabs[0].timestamp, occurredAt);
    var turnNumber := if tabs == [] || tabs[0].turnNumber == 0 then Max(1, turns) else tabs[0].turnNumber;
    Record(CanonicalId(TabSwitch), TabSwitch, turnNumber, "low", firstAt,
           NO_METADATA.(occurrenceCount := Some(count), tabSwitchCount := Some(count),
                        eventIds := Some(EventIds(tabs) + [eventId]),
                        firstAt := firstAt, lastAt := occurredAt,
                        stats := NO_STATS.(source := "browser_visibility"),
                        terminationTriggered := count >= MAX_ALLOWED_TAB_SWITCHES))
  }

  /** The list part of `record_tab_switch`, once status and connection have been checked. */
  function TabStep(vs: seq<Violation>, turns: nat, eventId: string, occurredAt: string): TabOutcome {
    if eventId in TabEventIds(vs) then TabOutcome(vs, false, false, TabSwitchCount(vs), false)
    else
      var count := TabSwitchCount(vs) + 1;
      TabOutcome(ReplaceKind(vs, TabSwitch, TabRecord(vs, turns, eventId, occurredAt)),
                 OfKind(vs, TabSwitch) == [], true, count, count >= MAX_ALLOWED_TAB_SWITCHES)
  }

  lemma {:induction false} DeclaredMaxIsMaximum(tabs: seq<Violation>)
    ensures forall v :: v in tabs ==> Declared(v) <= DeclaredMax(tabs)
    ensures DeclaredMax(tabs) > 0 ==> exists v :: v in tabs && Declared(v) == DeclaredMax(tabs)
  {
    if |tabs| != 0 {
      var n := |tabs| - 1;
      assert tabs == tabs[..n] + [tabs[n]];
      DeclaredMaxIsMaximum(tabs[..n]);
      if DeclaredMax(tabs) == DeclaredMax(tabs[..n]) > 0 {
        var v :| v in tabs[..n] && Declared(v) == DeclaredMax(tabs[..n]);
        assert v in tabs;
      }
    }
  }

  /** The record declares the count, under its present or its former name. */
  predicate Declares(v: Violation, count: int) {
    v.Record? && (v.metadata.occurrenceCount == Some(count) || v.metadata.tabSwitchCount == Some(count))
  }

  /** The count is the largest of the number of tab records and the counts they declare. */
  lemma TabCountIsMaximum(vs: seq<Violation>)
    ensures var tabs, count := OfKind(vs, TabSwitch), TabSwitchCount(vs);
            && count >= |tabs|
            && (forall v, c :: v in tabs && Declares(v, c) ==> c <= count)
            && (count == |tabs| || exists v :: v in tabs && Declares(v, count))
  {
    var tabs, count := OfKind(vs, TabSwitch), TabSwitchCount(vs);
    DeclaredMaxIsMaximum(tabs);
    if count > |tabs| {
      var v :| v in tabs && Declared(v) == count;
      assert Declares(v, count);
    }
  }

  /** What the canonical record tells: the new count under both names, the latest occurrence, and
      the first one and its turn as the first record had them. */
  lemma TabRecordTells(vs: seq<Violation>, turns: nat, eventId: string, occurredAt: string)
    ensures var tabs, r := OfKind(vs, TabSwitch), TabRecord(vs, turns, eventId, occurredAt);
            var count := TabSwitchCount(vs) + 1;
            && r.severity == "low" && Declares(r, count) && r.metadata.occurrenceCount == r.metadata.tabSwitchCount
            && r.metadata.lastAt == occurredAt && r.timestamp == r.metadata.firstAt
            && r.metadata.terminationTriggered == (count >= 5)
            && (tabs == [] ==> r.timestamp == occurredAt && r.turnNumber == Max(1, turns))
            && (tabs != [] && tabs[0].metadata.firstAt != "" ==> r.timestamp == tabs[0].metadata.firstAt)
            && (tabs != [] && tabs[0].metadata.firstAt == "" && tabs[0].timestamp != "" ==>
                  r.timestamp == tabs[0].timestamp)
            && (tabs != [] && tabs[0].turnNumber != 0 ==> r.turnNumber == tabs[0].turnNumber)
  {
  }

  /** A tab switch can change the records of its own type only. */
  lemma TabStepKinds(vs: seq<Violation>, turns: nat, eventId: string, occurredAt: string, k: Kind)
    ensures OfKind(TabStep(vs, turns, eventId, occurredAt).violations, k)
         == if k != TabSwitch || eventId in TabEventIds(vs) then OfKind(vs, k)
            else [TabRecord(vs, turns, eventId, occurredAt)]
  {
    ReplaceKindKinds(vs, TabSwitch, TabRecord(vs, turns, eventId, occurredAt), k);
  }

  lemma TabRecordByKind(a: seq<Violation>, b: seq<Violation>, turns: nat, eventId: string, occurredAt: string)
    requires OfKind(a, TabSwitch) == OfKind(b, TabSwitch)
    ensures TabRecord(a, turns, eventId, occurredAt) == TabRecord(b, turns, eventId, occurredAt)
    ensures TabEventIds(a) == TabEventIds(b)
  {
  }

  /** ... and what it does to them depends on nothing else. */
  lemma TabStepByKind(a: seq<Violation>, b: seq<Violation>, turns: nat, eventId: string, occurredAt: string, k: Kind)
    requires OfKind(a, k) == OfKind(b, k)
    ensures OfKind(TabStep(a, turns, eventId, occurredAt).violations, k)
         == OfKind(TabStep(b, turns, eventId, occurredAt).violations, k)
  {
    if k == TabSwitch {
      TabRecordByKind(a, b, turns, eventId, occurredAt);
    }
    TabStepKinds(a, turns, eventId, occurredAt, k);
    TabStepKinds(b, turns, eventId, occurredAt, k);
  }

  lemma SingleRecord(v: Violation)
    ensures DeclaredMax([v]) == Declared(v)
  {
    assert [v][..0] == [];
  }

  /** From any list, legacy or not, an accepted event raises the count by exactly one, leaves
      exactly one tab record, extends the id list by its id, and touches nothing else. */
  lemma AcceptedTabSwitch(vs: seq<Violation>, turns: nat, eventId: string, occurredAt: string, other: Kind)
    requires eventId != "" && eventId !in TabEventIds(vs)
    ensures var r := TabStep(vs, turns, eventId, occurredAt).violations;
            && TabSwitchCount(r) == TabSwitchCount(vs) + 1
            && |OfKind(r, TabSwitch)| == 1
            && TabEventIds(r) == TabEventIds(vs) + [eventId]
            && Without(r, TabSwitch) == Without(vs, TabSwitch)
            && (other != TabSwitch ==> OfKind(r, other) == OfKind(vs, other))
  {
    var record := TabRecord(vs, turns, eventId, occurredAt);
    ReplaceKindKinds(vs, TabSwitch, record, other);
    SingleRecord(record);
    EventIdsClean(OfKind(vs, TabSwitch));
    EventIdsReadBack(record, TabEventIds(vs) + [eventId]);
  }

  lemma DeclaredMaxAppend(tabs: seq<Violation>, v: Violation)
    ensures DeclaredMax(tabs + [v]) == Max(DeclaredMax(tabs), Declared(v))
  {
    assert (tabs + [v])[..|tabs|] == tabs;
  }

  /** Appending a tab record of another writer raises the count to the number of records or to
      what the new one declares, if either is higher; other records leave it. No event id is
      forgotten. */
  lemma AppendKeepsTabs(vs: seq<Violation>, v: Violation, eventId: string)
    ensures TabSwitchCount(vs + [v])
         == if IsKind(v, TabSwitch) then Max(TabSwitchCount(vs), Max(|OfKind(vs, TabSwitch)| + 1, Declared(v)))
            else TabSwitchCount(vs)
    ensures eventId in TabEventIds(vs) ==> eventId in TabEventIds(vs + [v])
  {
    var tabs := OfKind(vs, TabSwitch);
    AppendOfKind(vs, v, TabSwitch);
    DeclaredMaxAppend(tabs, v);
    if eventId in EventIds(tabs) {
      EventIdsGrow(tabs, v, eventId);
    }
  }
}
