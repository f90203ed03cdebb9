// The deterministic part of interview planning: which technical sections are kept, in which
// order, and how many 0.1-minute units every section gets.
module PlanTiming {
  import opened Prelude
  import opened StableOrder
  import opened Apportionment
  import LargestRemainder

  /** `payload` stands for the fields of a section that the planner never touches. */
  datatype Section =
    | SelfIntro(units: int)
    | Technical(skill: string, units: int, payload: string)
    | Behavioural(units: int, signals: seq<string>)

  /** A skill with its JD priority, or a focus area with its recruiter weight. */
  datatype Rated = Rated(skill: string, rating: int)

  /** The inputs the plan is built from: the JD analysis and the recruiter's focus areas. Ratings
      are integers in a common unit in which the default priority 1.0 is `one`. `score` is the
      textual similarity of two skill names, 0 for unrelated ones. */
  datatype Brief = Brief(skills: seq<Rated>, behaviouralSignals: seq<string>, difficulty: string,
                         focusAreas: seq<Rated>, score: (string, string) -> nat, one: int)

  datatype Plan = Plan(totalMins: int, difficulty: string, sections: seq<Section>)

  datatype Outcome = Planned(plan: Plan) | NoTechnicalSection

  // ------------------------------------------------------------- weights of a skill

  datatype Match = Match(score: nat, rating: Option<int>)

  /** The rating of the entry most similar to `skill`, the first of equally similar ones. */
  function BestMatch(score: (string, string) -> nat, skill: string, entries: seq<Rated>): (r: Match)
    ensures r.rating.None? <==> r.score == 0
  {
    if |entries| == 0 then Match(0, None)
    else
      var n := |entries| - 1;
      var best := BestMatch(score, skill, entries[..n]);
      var s := score(skill, entries[n].skill);
      if s > best.score then Match(s, Some(entries[n].rating)) else best
  }

  /** Entry `k` is the first of the entries most similar to `skill`. */
  ghost predicate FirstMaximum(score: (string, string) -> nat, skill: string, entries: seq<Rated>, k: nat) {
    && k < |entries|
    && (forall j :: 0 <= j < |entries| ==> score(skill, entries[j].skill) <= score(skill, entries[k].skill))
    && (forall j :: 0 <= j < k ==> score(skill, entries[j].skill) < score(skill, entries[k].skill))
  }

  /** The rating comes from the first most similar entry, and is missing exactly when no entry
      is similar at all. */
  lemma {:induction false} BestMatchIsFirstMaximum(score: (string, string) -> nat, skill: string, entries: seq<Rated>)
    ensures var best := BestMatch(score, skill, entries);
            if best.rating.None? then forall k :: 0 <= k < |entries| ==> score(skill, entries[k].skill) == 0
            else exists k: nat :: FirstMaximum(score, skill, entries, k)
                               && best == Match(score(skill, entries[k].skill), Some(entries[k].rating))
  {
    if |entries| != 0 {
      var n := |entries| - 1;
      var front, last := entries[..n], entries[n];
      assert entries == front + [last];
      BestMatchIsFirstMaximum(score, skill, front);
      var before := BestMatch(score, skill, front);
      if before.rating.Some? {
        var k: nat :| FirstMaximum(score, skill, front, k)
                   && before == Match(score(skill, front[k].skill), Some(front[k].rating));
        OneMoreEntry(score, skill, front, last, k);
        assert entries[k] == front[k];
      } else if score(skill, last.skill) > 0 {
        assert FirstMaximum(score, skill, entries, n);
      }
    }
  }

  lemma OneMoreEntry(score: (string, string) -> nat, skill: string, front: seq<Rated>, last: Rated, k: nat)
    requires FirstMaximum(score, skill, front, k)
    ensures FirstMaximum(score, skill, front + [last],
                         if score(skill, last.skill) > score(skill, front[k].skill) then |front| else k)
  {
  }

  method ResolveRating(score: (string, string) -> nat, skill: string, entries: seq<Rated>)
    returns (rating: Option<int>)
    ensures rating == BestMatch(score, skill, entries).rating
  {
    rating := None;
    var bestScore := 0;
    for k := 0 to |entries|
      invariant Match(bestScore, rating) == BestMatch(score, skill, entries[..k])
    {
      assert entries[..k + 1][..k] == entries[..k];
      var s := score(skill, entries[k].skill);
      if s > bestScore {
        bestScore, rating := s, Some(entries[k].rating);
      }
    }
    assert entries[..|entries|] == entries;
  }

  function Priority(brief: Brief, skill: string): int {
    var r := BestMatch(brief.score, skill, brief.skills).rating;
    if r.Some? then r.value else brief.one
  }

  function EffectiveWeight(brief: Brief, skill: string): int {
    var r := BestMatch(brief.score, skill, brief.focusAreas).rating;
    if r.Some? then r.value else Priority(brief, skill)
  }

  function SkillKey(brief: Brief, skill: string): Key {
    Key(EffectiveWeight(brief, skill), Priority(brief, skill))
  }

  // --------------------------------------------------------------- how many sections

  /** Units left for technical sections after the introduction and the behavioural part. */
  function TechnicalUnits(totalMins: int): int {
    10 * totalMins - Min(totalMins, 15) - totalMins
  }

  function MinUnits(totalMins: int, technicalUnits: int): int {
    if technicalUnits <= 0 then 0
    else if totalMins <= 5 then 15
    else if totalMins <= 15 then 20
    else if totalMins <= 30 then 25
    else 30
  }

  /** Upper bound on the number of sections by interview length alone. */
  function SoftCap(totalMins: int): nat {
    if totalMins <= 3 then 1
    else if totalMins <= 8 then 2
    else if totalMins <= 15 then 3
    else if totalMins <= 20 then 4
    else if totalMins <= 30 then 5
    else if totalMins <= 45 then 6
    else 7
  }

  function TargetCount(totalMins: int, technicalUnits: int): (r: nat)
    ensures technicalUnits > 0 ==> r >= 1
  {
    if technicalUnits <= 0 then 0
    else
      var hardCap := Max(1, technicalUnits / MinUnits(totalMins, technicalUnits));
      Max(1, Min(hardCap, SoftCap(totalMins)))
  }

  const DURATION_SOFT_CAPS: seq<(int, nat)> :=
    [(2, 1), (3, 1), (4, 2), (5, 2), (8, 2), (10, 3), (15, 3), (20, 4), (30, 5), (45, 6), (60, 7)]

  method TargetSkillCount(totalMins: int, technicalUnits: int) returns (count: nat)
    ensures count == TargetCount(totalMins, technicalUnits)
    ensures technicalUnits >= MinUnits(totalMins, technicalUnits)
            ==> count * MinUnits(totalMins, technicalUnits) <= Max(0, technicalUnits)
  {
    if technicalUnits <= 0 {
      return 0;
    }
    var minUnits := MinUnits(totalMins, technicalUnits);
    var hardCap := Max(1, technicalUnits / minUnits);
    var softCap := 7;
    for i := 0 to |DURATION_SOFT_CAPS|
      invariant softCap == 7
      invariant i > 0 ==> totalMins > DURATION_SOFT_CAPS[i - 1].0
    {
      if totalMins <= DURATION_SOFT_CAPS[i].0 {
        softCap := DURATION_SOFT_CAPS[i].1;
        break;
      }
    }
    assert softCap == SoftCap(totalMins);
    count := Max(1, Min(hardCap, softCap));
    if technicalUnits >= minUnits {
      CountFits(totalMins, technicalUnits);
    }
  }

  /** Unless not even one section fits, the chosen number of sections fits at minimum depth. */
  lemma CountFits(totalMins: int, technicalUnits: int)
    requires technicalUnits >= MinUnits(totalMins, technicalUnits)
    ensures TargetCount(totalMins, technicalUnits) * MinUnits(totalMins, technicalUnits) <= Max(0, technicalUnits)
  {
    if technicalUnits > 0 {
      var m := MinUnits(totalMins, technicalUnits);
      var c := TargetCount(totalMins, technicalUnits);
      assert c <= technicalUnits / m;
      LargestRemainder.Grow(m, c, technicalUnits / m);
    }
  }
  // ------------------------------------------------------------------- normalisation

  function Technicals(sections: seq<Section>): (r: seq<Section>)
    ensures forall k :: 0 <= k < |r| ==> r[k].Technical?
    ensures |r| <= |sections|
  {
    if |sections| == 0 then []
    else
      var n := |sections| - 1;
      Technicals(sections[..n]) + (if sections[n].Technical? then [sections[n]] else [])
  }

  /** The plan's own behavioural section, or a new one with at most four JD signals. */
  function FirstBehavioural(sections: seq<Section>, brief: Brief): (r: Section)
    ensures r.Behavioural?
  {
    if |sections| == 0 then Behavioural(0, brief.behaviouralSignals[..Min(4, |brief.behaviouralSignals|)])
    else if sections[0].Behavioural? then sections[0]
    else FirstBehavioural(sections[1..], brief)
  }

  function SectionKeys(brief: Brief, sections: seq<Section>): (r: seq<Key>)
    requires forall k :: 0 <= k < |sections| ==> sections[k].Technical?
    ensures |r| == |sections|
  {
    seq(|sections|, k requires 0 <= k < |sections| => SkillKey(brief, sections[k].skill))
  }

  function Weights(brief: Brief, sections: seq<Section>): (r: seq<int>)
    requires forall k :: 0 <= k < |sections| ==> sections[k].Technical?
    ensures |r| == |sections|
  {
    seq(|sections|, k requires 0 <= k < |sections| => EffectiveWeight(brief, sections[k].skill))
  }

  /** Positions, among the technical sections, of the ones kept, best first. */
  function Kept(brief: Brief, technicals: seq<Section>, count: nat): (r: seq<nat>)
    requires forall k :: 0 <= k < |technicals| ==> technicals[k].Technical?
    ensures |r| == Min(count, |technicals|)
    ensures forall k :: 0 <= k < |r| ==> r[k] < |technicals|
  {
    Order(SectionKeys(brief, technicals))[..Min(count, |technicals|)]
  }

  function Select(technicals: seq<Section>, kept: seq<nat>): (r: seq<Section>)
    requires forall k :: 0 <= k < |kept| ==> kept[k] < |technicals|
    requires forall k :: 0 <= k < |technicals| ==> technicals[k].Technical?
    ensures |r| == |kept| && forall k :: 0 <= k < |r| ==> r[k].Technical? && r[k] == technicals[kept[k]]
  {
    seq(|kept|, k requires 0 <= k < |kept| => technicals[kept[k]])
  }

  function Timed(sections: seq<Section>, units: seq<int>): (r: seq<Section>)
    requires |sections| == |units|
    requires forall k :: 0 <= k < |sections| ==> sections[k].Technical?
    ensures |r| == |sections|
    ensures forall k :: 0 <= k < |r| ==> r[k] == Technical(sections[k].skill, units[k], sections[k].payload)
  {
    seq(|sections|, k requires 0 <= k < |sections| => Technical(sections[k].skill, units[k], sections[k].payload))
  }

  function Selected(brief: Brief, totalMins: int, sections: seq<Section>): (r: seq<Section>)
    ensures forall k :: 0 <= k < |r| ==> r[k].Technical?
  {
    var technicals := Technicals(sections);
    Select(technicals, Kept(brief, technicals, TargetCount(totalMins, TechnicalUnits(totalMins))))
  }

  function SelectedUnits(brief: Brief, totalMins: int, sections: seq<Section>): (r: seq<int>)
    ensures |r| == |Selected(brief, totalMins, sections)|
  {
    var units := TechnicalUnits(totalMins);
    Allocation(units, Weights(brief, Selected(brief, totalMins, sections)), MinUnits(totalMins, units))
  }

  function Normalized(brief: Brief, totalMins: int, sections: seq<Section>): seq<Section> {
    [SelfIntro(Min(totalMins, 15))]
    + Timed(Selected(brief, totalMins, sections), SelectedUnits(brief, totalMins, sections))
    + [Behavioural(totalMins, FirstBehavioural(sections, brief).signals)]
  }

  predicate Plannable(totalMins: int, sections: seq<Section>) {
    Technicals(sections) != [] && TechnicalUnits(totalMins) > 0
  }

  function Finalized(brief: Brief, durationMins: int, plan: Plan): Outcome {
    if Plannable(durationMins, plan.sections)
    then Planned(Plan(durationMins, brief.difficulty, Normalized(brief, durationMins, plan.sections)))
    else NoTechnicalSection
  }

  // -------------------------------------------------------------------- the algorithm

  method ScoreSections(brief: Brief, technicals: seq<Section>) returns (keys: seq<Key>)
    requires forall k :: 0 <= k < |technicals| ==> technicals[k].Technical?
    ensures keys == SectionKeys(brief, technicals)
  {
    keys := [];
    for index := 0 to |technicals|
      invariant keys == SectionKeys(brief, technicals[..index])
    {
      var skill := technicals[index].skill;
      var rated := ResolveRating(brief.score, skill, brief.skills);
      var override := ResolveRating(brief.score, skill, brief.focusAreas);
      var priority := if rated.Some? then rated.value else brief.one;
      keys := keys + [Key(if override.Some? then override.value else priority, priority)];
    }
    assert technicals[..|technicals|] == technicals;
  }

  /** The plan object whose sections and timing the planner overwrites. */
  class InterviewPlan {
    var totalMins: int
    var difficulty: string
    var sections: seq<Section>

    function Value(): Plan
      reads this
    {
      Plan(totalMins, difficulty, sections)
    }

    constructor (plan: Plan)
      ensures Value() == plan
    {
      totalMins, difficulty, sections := plan.totalMins, plan.difficulty, plan.sections;
    }

    method NormalizeTiming(brief: Brief) returns (ok: bool)
      modifies this`sections
      ensures ok == Plannable(totalMins, old(sections))
      ensures sections == if ok then Normalized(brief, totalMins, old(sections)) else old(sections)
    {
      var introUnits, technicalUnits := Min(totalMins, 15), TechnicalUnits(totalMins);
      var technicals := Technicals(sections);
      if technicals == [] || technicalUnits <= 0 {
        return false;
      }
      var keys := ScoreSections(brief, technicals);
      var count := TargetSkillCount(totalMins, technicalUnits);
      var selected := Select(technicals, Order(keys)[..Min(count, |technicals|)]);
      var allocations := AllocateMinutesByWeight(technicalUnits, Weights(brief, selected),
                                                 MinUnits(totalMins, technicalUnits));
      var behavioural := FirstBehavioural(sections, brief);
      sections := [SelfIntro(introUnits)] + Timed(selected, allocations) + [Behavioural(totalMins, behavioural.signals)];
      ok := true;
    }

    method Finalize(brief: Brief, durationMins: int) returns (ok: bool)
      modifies this
      ensures ok == Finalized(brief, durationMins, old(Value())).Planned?
      ensures ok ==> Planned(Value()) == Finalized(brief, durationMins, old(Value()))
      ensures !ok ==> Value() == old(Value()).(totalMins := durationMins, difficulty := brief.difficulty)
    {
      totalMins := durationMins;
      difficulty := brief.difficulty;
      ok := NormalizeTiming(brief);
    }
  }

  // ---------------------------------------------------------------------- plan timing

  function Units(sections: seq<Section>): (r: seq<int>)
    ensures |r| == |sections|
  {
    seq(|sections|, k requires 0 <= k < |sections| => sections[k].units)
  }

  lemma {:induction false} SumOfConcat(s: seq<int>, t: seq<int>)
    ensures Sum(s + t) == Sum(s) + Sum(t)
  {
    if |t| == 0 {
      assert s + t == s;
    } else {
      var n := |t| - 1;
      SumOfConcat(s, t[..n]);
      assert (s + t)[..|s| + n] == s + t[..n];
    }
  }

  lemma SumOfThree(first: int, middle: seq<int>, last: int)
    ensures Sum([first] + middle + [last]) == first + Sum(middle) + last
  {
    SumOfConcat([first], middle);
    assert [first][..0] == [];
    assert ([first] + middle + [last])[..|middle| + 1] == [first] + middle;
  }

  /** From two minutes on, every kept section can be given its minimum depth: the allocator's
      even-split fallback is reached by the planner exactly for one-minute interviews. */
  lemma FallbackOnlyAtOneMinute(brief: Brief, totalMins: int, sections: seq<Section>)
    requires Plannable(totalMins, sections)
    ensures var units := TechnicalUnits(totalMins);
            Surplus(units, |Selected(brief, totalMins, sections)|, MinUnits(totalMins, units)) < 0
            <==> totalMins == 1
  {
    var units := TechnicalUnits(totalMins);
    var m, n := MinUnits(totalMins, units), |Selected(brief, totalMins, sections)|;
    if totalMins >= 2 {
      CountFits(totalMins, units);
      LargestRemainder.Grow(m, n, TargetCount(totalMins, units));
    } else {
      assert totalMins == 1 && n >= 1;
      LargestRemainder.Grow(m, 1, n);
    }
  }

  lemma SelectedUnitsAddUp(brief: Brief, totalMins: int, sections: seq<Section>)
    requires Plannable(totalMins, sections)
    ensures Sum(SelectedUnits(brief, totalMins, sections)) == TechnicalUnits(totalMins)
    ensures |Selected(brief, totalMins, sections)| >= 1
  {
    var units := TechnicalUnits(totalMins);
    AllocationIsExact(units, Weights(brief, Selected(brief, totalMins, sections)), MinUnits(totalMins, units));
  }

  /** The finished plan: an introduction, the kept technical sections, a behavioural part; the
      minutes add up to exactly the interview, at every length. */
  lemma PlanAddsUp(brief: Brief, durationMins: int, plan: Plan)
    requires Plannable(durationMins, plan.sections)
    ensures var s := Finalized(brief, durationMins, plan).plan.sections;
            && Sum(Units(s)) == 10 * durationMins
            && |s| >= 3
            && s[0] == SelfIntro(Min(durationMins, 15))
            && s[|s| - 1].Behavioural? && s[|s| - 1].units == durationMins
            && (forall k :: 1 <= k < |s| - 1 ==> s[k].Technical?)
  {
    SelectedUnitsAddUp(brief, durationMins, plan.sections);
    PlanShape(Selected(brief, durationMins, plan.sections), SelectedUnits(brief, durationMins, plan.sections),
              Min(durationMins, 15), Behavioural(durationMins, FirstBehavioural(plan.sections, brief).signals));
  }

  lemma PlanShape(selected: seq<Section>, units: seq<int>, intro: int, last: Section)
    requires |selected| == |units| && forall k :: 0 <= k < |selected| ==> selected[k].Technical?
    ensures var out := [SelfIntro(intro)] + Timed(selected, units) + [last];
            && Sum(Units(out)) == intro + Sum(units) + last.units
            && |out| == |selected| + 2
            && out[0] == SelfIntro(intro) && out[|out| - 1] == last
            && forall k :: 1 <= k < |out| - 1 ==> out[k].Technical?
  {
    var out := [SelfIntro(intro)] + Timed(selected, units) + [last];
    SumOfThree(intro, units, last.units);
    assert Units(out) == [intro] + units + [last.units];
  }

  /** Allocations that descend to a minimum are shown as such by the technical sections. */
  lemma TechnicalsDescend(selected: seq<Section>, units: seq<int>, intro: int, last: Section, least: int)
    requires |selected| == |units| && forall k :: 0 <= k < |selected| ==> selected[k].Technical?
    requires forall k, l :: 0 <= k <= l < |units| ==> units[k] >= units[l] >= least
    ensures var out := [SelfIntro(intro)] + Timed(selected, units) + [last];
            forall i, j :: 1 <= i <= j < |out| - 1 ==> out[i].units >= out[j].units >= least
  {
  }

  lemma SelectedKeysDescend(brief: Brief, totalMins: int, sections: seq<Section>, i: nat, j: nat)
    requires i < j < |Selected(brief, totalMins, sections)|
    ensures var s := Selected(brief, totalMins, sections);
            AtLeast(SkillKey(brief, s[i].skill), SkillKey(brief, s[j].skill))
  {
    var technicals := Technicals(sections);
    var keys := SectionKeys(brief, technicals);
    OrderIsOrder(keys);
    assert Before(keys, Order(keys)[i], Order(keys)[j]);
  }

  lemma UnitsDescend(brief: Brief, totalMins: int, sections: seq<Section>, i: nat, j: nat)
    requires totalMins >= 2 && Plannable(totalMins, sections)
    requires i <= j < |Selected(brief, totalMins, sections)|
    ensures var u := SelectedUnits(brief, totalMins, sections);
            u[i] >= u[j] >= MinUnits(totalMins, TechnicalUnits(totalMins))
  {
    var units := TechnicalUnits(totalMins);
    var w := Weights(brief, Selected(brief, totalMins, sections));
    FallbackOnlyAtOneMinute(brief, totalMins, sections);
    if i == j {
      AllocationIsMonotone(units, w, MinUnits(totalMins, units), i, i);
    } else {
      SelectedKeysDescend(brief, totalMins, sections, i, j);
      assert w[i] >= w[j];
      AllocationDescends(units, w, MinUnits(totalMins, units), i, j);
    }
  }

  /** Minimum depth of a technical section, in tenths of a minute. */
  predicate MinimumDepth(totalMins: int, units: nat) {
    || (totalMins <= 5 && units == 15)
    || (5 < totalMins <= 15 && units == 20)
    || (15 < totalMins <= 30 && units == 25)
    || (30 < totalMins && units == 30)
  }

  /** Every technical section gets at least the minimum depth, and technical time never
      increases along the plan. */
  lemma TechnicalTimeDescends(brief: Brief, durationMins: int, plan: Plan, least: nat)
    requires durationMins >= 2 && Plannable(durationMins, plan.sections) && MinimumDepth(durationMins, least)
    ensures var s := Finalized(brief, durationMins, plan).plan.sections;
            forall i, j :: 1 <= i <= j < |s| - 1 ==>
              s[i].units >= s[j].units >= least
  {
    var selected, units := Selected(brief, durationMins, plan.sections), SelectedUnits(brief, durationMins, plan.sections);
    forall i, j | 0 <= i <= j < |units| ensures units[i] >= units[j] >= least {
      UnitsDescend(brief, durationMins, plan.sections, i, j);
    }
    TechnicalsDescend(selected, units, Min(durationMins, 15),
                      Behavioural(durationMins, FirstBehavioural(plan.sections, brief).signals), least);
  }

  /** Top-k: a dropped section has no better (effective weight, priority) than a kept one, and
      on a tie it stood later in the plan. */
  lemma DroppedNeverBeatsKept(brief: Brief, totalMins: int, sections: seq<Section>, i: nat, j: nat)
    requires i < |Technicals(sections)| && j < |Technicals(sections)|
    requires i in Kept(brief, Technicals(sections), TargetCount(totalMins, TechnicalUnits(totalMins)))
    requires j !in Kept(brief, Technicals(sections), TargetCount(totalMins, TechnicalUnits(totalMins)))
    ensures var t := Technicals(sections);
            var v, w := EffectiveWeight(brief, t[i].skill), EffectiveWeight(brief, t[j].skill);
            var p, q := Priority(brief, t[i].skill), Priority(brief, t[j].skill);
            v > w || (v == w && p > q) || (v == w && p == q && i < j)
  {
    var technicals := Technicals(sections);
    var keys := SectionKeys(brief, technicals);
    OrderIsOrder(keys);
    CutSeparates(keys, Order(keys), Min(TargetCount(totalMins, TechnicalUnits(totalMins)), |technicals|), i, j);
  }

  // -------------------------------------------------------------- what is kept, and of what

  /** How many technical sections an interview of this length may have at most. */
  predicate SectionCap(totalMins: int, cap: nat) {
    || (totalMins <= 3 && cap == 1)
    || (3 < totalMins <= 8 && cap == 2)
    || (8 < totalMins <= 15 && cap == 3)
    || (15 < totalMins <= 20 && cap == 4)
    || (20 < totalMins <= 30 && cap == 5)
    || (30 < totalMins <= 45 && cap == 6)
    || (45 < totalMins && cap == 7)
  }

  /** It is the cap of the first listed duration that is not below the interview, 7 past the last. */
  lemma CapsAreListed(totalMins: int, cap: nat, k: nat)
    requires k <= |DURATION_SOFT_CAPS| && forall j :: 0 <= j < k ==> DURATION_SOFT_CAPS[j].0 < totalMins
    requires k < |DURATION_SOFT_CAPS| ==> totalMins <= DURATION_SOFT_CAPS[k].0
    ensures SectionCap(totalMins, cap) <==> cap == if k < |DURATION_SOFT_CAPS| then DURATION_SOFT_CAPS[k].1 else 7
  {
    assert k > 0 ==> DURATION_SOFT_CAPS[k - 1].0 < totalMins;
  }

  lemma FitsExactly(units: nat, least: nat, n: nat)
    requires least > 0
    ensures n <= units / least <==> n * least <= units
  {
    LargestRemainder.DivMod(units, least);
    if n <= units / least {
      LargestRemainder.Grow(least, n, units / least);
    } else {
      LargestRemainder.Grow(least, units / least + 1, n);
      LargestRemainder.Distribute(least, units / least, 1);
    }
  }

  /** From two minutes on, as many technical sections are kept as possible: a number of them is at
      most the kept number if and only if there are that many, the cap of the interview's length
      allows it, and the technical time gives each of them the minimum depth. */
  lemma KeptIsGreatest(brief: Brief, totalMins: int, sections: seq<Section>, cap: nat, least: nat, n: nat)
    requires totalMins >= 2 && Technicals(sections) != []
    requires SectionCap(totalMins, cap) && MinimumDepth(totalMins, least)
    ensures n <= |Selected(brief, totalMins, sections)|
       <==> && n <= |Technicals(sections)| && n <= cap
            && n * least <= 10 * totalMins - Min(totalMins, 15) - totalMins
  {
    var units := TechnicalUnits(totalMins);
    assert cap == SoftCap(totalMins);
    FitsExactly(units, least, n);
    FitsExactly(units, least, 1);
  }

  /** The technical time that the kept sections, taken from positions `kept`, have beyond the minimum
      depth is shared in proportion to the squares of their effective weights, each share less than
      one unit away from the exact one, if any of the weights is positive. */
  lemma PlanSharesTime(brief: Brief, totalMins: int, sections: seq<Section>, out: seq<Section>, kept: seq<nat>,
                       squares: seq<nat>, least: nat, extra: nat, i: nat, share: int)
    requires totalMins >= 2 && Technicals(sections) != [] && MinimumDepth(totalMins, least)
    requires out == Normalized(brief, totalMins, sections) && i < |kept|
    requires kept == Kept(brief, Technicals(sections), TargetCount(totalMins, TechnicalUnits(totalMins)))
    requires SquaredWeights(brief, Technicals(sections), kept, squares) && Sum(squares) > 0
    requires extra == 10 * totalMins - Min(totalMins, 15) - totalMins - least * |kept|
    requires i + 1 < |out| && share == out[i + 1].units - least
    ensures extra * squares[i] - Sum(squares) < Sum(squares) * share < extra * squares[i] + Sum(squares)
  {
    UnitsAt(brief, totalMins, sections, i);
    WeightsAreSquared(brief, Technicals(sections), kept, squares);
    SelectedShareTime(brief, totalMins, sections, squares, least, extra, i, share);
  }

  lemma SelectedShareTime(brief: Brief, totalMins: int, sections: seq<Section>, squares: seq<nat>, least: nat,
                          extra: nat, i: nat, share: int)
    requires totalMins >= 2 && MinimumDepth(totalMins, least) && i < |Selected(brief, totalMins, sections)|
    requires Squares(Weights(brief, Selected(brief, totalMins, sections)), squares) && Sum(squares) > 0
    requires extra == TechnicalUnits(totalMins) - least * |Selected(brief, totalMins, sections)|
    requires share == SelectedUnits(brief, totalMins, sections)[i] - least
    ensures extra * squares[i] - Sum(squares) < Sum(squares) * share < extra * squares[i] + Sum(squares)
  {
    var weights := Weights(brief, Selected(brief, totalMins, sections));
    AllocationObeysQuota(TechnicalUnits(totalMins), weights, least, extra, squares, i);
    assert share == Above(Allocation(TechnicalUnits(totalMins), weights, least), least)[i];
  }

  /** The squares of the positive effective weights of the listed sections, 0 for the others. */
  ghost predicate SquaredWeights(brief: Brief, technicals: seq<Section>, kept: seq<nat>, squares: seq<nat>) {
    && |squares| == |kept|
    && forall k :: 0 <= k < |kept| ==>
         && kept[k] < |technicals| && technicals[kept[k]].Technical?
         && var w := EffectiveWeight(brief, technicals[kept[k]].skill);
            squares[k] == if w > 0 then w * w else 0
  }

  lemma WeightsAreSquared(brief: Brief, technicals: seq<Section>, kept: seq<nat>, squares: seq<nat>)
    requires forall k :: 0 <= k < |technicals| ==> technicals[k].Technical?
    requires SquaredWeights(brief, technicals, kept, squares)
    ensures Squares(Weights(brief, Select(technicals, kept)), squares)
  {
  }

  lemma UnitsAt(brief: Brief, totalMins: int, sections: seq<Section>, i: nat)
    requires i < |Selected(brief, totalMins, sections)|
    ensures var out := Normalized(brief, totalMins, sections);
            i + 1 < |out| && out[i + 1].units == SelectedUnits(brief, totalMins, sections)[i]
  {
    var selected, units := Selected(brief, totalMins, sections), SelectedUnits(brief, totalMins, sections);
    var last := Behavioural(totalMins, FirstBehavioural(sections, brief).signals);
    PlanShape(selected, units, Min(totalMins, 15), last);
    TimedAt(selected, units, Min(totalMins, 15), last, i);
  }

  lemma TimedAt(selected: seq<Section>, units: seq<int>, intro: int, last: Section, i: nat)
    requires |selected| == |units| && forall k :: 0 <= k < |selected| ==> selected[k].Technical?
    requires i < |selected|
    ensures ([SelfIntro(intro)] + Timed(selected, units) + [last])[i + 1].units == units[i]
  {
  }

  lemma {:induction false} TechnicalsHold(sections: seq<Section>, s: Section)
    ensures s in Technicals(sections) <==> s in sections && s.Technical?
  {
    if |sections| != 0 {
      var n := |sections| - 1;
      assert sections == sections[..n] + [sections[n]];
      TechnicalsHold(sections[..n], s);
    }
  }

  lemma {:induction false} FirstBehaviouralIs(sections: seq<Section>, brief: Brief, i: nat)
    requires i <= |sections| && (i < |sections| ==> sections[i].Behavioural?)
    requires forall k :: 0 <= k < i ==> !sections[k].Behavioural?
    ensures FirstBehavioural(sections, brief).signals
         == if i < |sections| then sections[i].signals
            else brief.behaviouralSignals[..Min(4, |brief.behaviouralSignals|)]
  {
    if |sections| != 0 && i != 0 {
      FirstBehaviouralIs(sections[1..], brief, i - 1);
    }
  }

  /** A plan consists of the sections it was made from: each technical section of the result is a
      different one of them, with its skill and payload, and the behavioural part has the signals of
      their first one, or else up to four of the JD's. */
  lemma PlanKeepsContents(brief: Brief, totalMins: int, sections: seq<Section>, out: seq<Section>, kept: seq<nat>, b: nat)
    requires out == Normalized(brief, totalMins, sections)
    requires kept == Kept(brief, Technicals(sections), TargetCount(totalMins, TechnicalUnits(totalMins)))
    requires b <= |sections| && (b < |sections| ==> sections[b].Behavioural?)
    requires forall k :: 0 <= k < b ==> !sections[k].Behavioural?
    ensures Distinct(kept) && Contents(Technicals(sections), kept, out)
    ensures |out| > 0 && out[|out| - 1].Behavioural?
    ensures out[|out| - 1].signals == if b < |sections| then sections[b].signals
                                      else brief.behaviouralSignals[..Min(4, |brief.behaviouralSignals|)]
  {
    var technicals := Technicals(sections);
    FirstBehaviouralIs(sections, brief, b);
    KeptOnce(SectionKeys(brief, technicals), TargetCount(totalMins, TechnicalUnits(totalMins)));
    ContentsOfPlan(technicals, kept, SelectedUnits(brief, totalMins, sections), Min(totalMins, 15),
                   Behavioural(totalMins, FirstBehavioural(sections, brief).signals));
  }

  /** Between its two ends, `out` has the listed technical sections, their time aside. */
  ghost predicate Contents(technicals: seq<Section>, kept: seq<nat>, out: seq<Section>) {
    && |out| == |kept| + 2
    && forall k :: 0 <= k < |kept| ==>
         && kept[k] < |technicals| && technicals[kept[k]].Technical? && out[k + 1].Technical?
         && out[k + 1].skill == technicals[kept[k]].skill && out[k + 1].payload == technicals[kept[k]].payload
  }

  lemma KeptOnce(keys: seq<Key>, count: nat)
    ensures Distinct(Order(keys)[..Min(count, |keys|)])
  {
    OrderIsOrder(keys);
    forall a, b | 0 <= a < b < |keys| ensures Order(keys)[a] != Order(keys)[b] {
      assert Before(keys, Order(keys)[a], Order(keys)[b]);
    }
  }

  lemma ContentsOfPlan(technicals: seq<Section>, kept: seq<nat>, units: seq<int>, intro: int, last: Section)
    requires |kept| == |units| && forall k :: 0 <= k < |kept| ==> kept[k] < |technicals|
    requires forall k :: 0 <= k < |technicals| ==> technicals[k].Technical?
    ensures var out := [SelfIntro(intro)] + Timed(Select(technicals, kept), units) + [last];
            Contents(technicals, kept, out) && out[|out| - 1] == last
  {
  }

  /** The priority of a skill is the JD rating of the first most similar JD skill, the default if
      none is similar; its effective weight is the recruiter's weight of the first most similar
      focus area, the priority if none is similar. */
  lemma WeightsMean(brief: Brief, skill: string, k: nat)
    ensures FirstMaximum(brief.score, skill, brief.skills, k) ==>
              Priority(brief, skill) == if brief.score(skill, brief.skills[k].skill) > 0 then brief.skills[k].rating
                                        else brief.one
    ensures brief.skills == [] ==> Priority(brief, skill) == brief.one
    ensures FirstMaximum(brief.score, skill, brief.focusAreas, k) ==>
              EffectiveWeight(brief, skill) == if brief.score(skill, brief.focusAreas[k].skill) > 0
                                               then brief.focusAreas[k].rating else Priority(brief, skill)
    ensures brief.focusAreas == [] ==> EffectiveWeight(brief, skill) == Priority(brief, skill)
  {
    BestMatchIs(brief.score, skill, brief.skills, k);
    BestMatchIs(brief.score, skill, brief.focusAreas, k);
  }

  lemma BestMatchIs(score: (string, string) -> nat, skill: string, entries: seq<Rated>, k: nat)
    ensures FirstMaximum(score, skill, entries, k) ==>
              BestMatch(score, skill, entries).rating
              == if score(skill, entries[k].skill) > 0 then Some(entries[k].rating) else None
  {
    BestMatchIsFirstMaximum(score, skill, entries);
    var best := BestMatch(score, skill, entries);
    if FirstMaximum(score, skill, entries, k) && best.rating.Some? {
      var j: nat :| FirstMaximum(score, skill, entries, j)
                 && best == Match(score(skill, entries[j].skill), Some(entries[j].rating));
      assert j == k;
    }
  }

  /** A plan is made exactly if it has a technical section and lasts at least a minute; it then
      carries the requested length and the JD's difficulty. */
  lemma PlannedExactly(brief: Brief, durationMins: int, plan: Plan)
    ensures Finalized(brief, durationMins, plan).Planned?
       <==> durationMins >= 1 && exists s :: s in plan.sections && s.Technical?
    ensures Finalized(brief, durationMins, plan).Planned? ==>
              var out := Finalized(brief, durationMins, plan).plan;
              out.totalMins == durationMins && out.difficulty == brief.difficulty
  {
    forall s ensures s in Technicals(plan.sections) <==> s in plan.sections && s.Technical? {
      TechnicalsHold(plan.sections, s);
    }
    if Technicals(plan.sections) != [] {
      assert Technicals(plan.sections)[0] in Technicals(plan.sections);
    }
  }

  // ---------------------------------------------------------------------- idempotence

  lemma {:induction false} TechnicalsAfterIntro(intro: Section, s: seq<Section>)
    requires intro.SelfIntro? && forall k :: 0 <= k < |s| ==> s[k].Technical?
    ensures Technicals([intro] + s) == s
  {
    var all := [intro] + s;
    if |s| == 0 {
      assert all[..0] == [];
    } else {
      var n := |s| - 1;
      TechnicalsAfterIntro(intro, s[..n]);
      assert all[..n + 1] == [intro] + s[..n];
    }
  }

  lemma {:induction false} BehaviouralAtEnd(s: seq<Section>, last: Section, brief: Brief)
    requires last.Behavioural? && forall k :: 0 <= k < |s| ==> !s[k].Behavioural?
    ensures FirstBehavioural(s + [last], brief) == last
  {
    if |s| != 0 {
      BehaviouralAtEnd(s[1..], last, brief);
      assert (s + [last])[1..] == s[1..] + [last];
    }
  }

  /** What normalising reads back from a normalised plan. */
  lemma ReadBack(brief: Brief, totalMins: int, sections: seq<Section>)
    ensures var out := Normalized(brief, totalMins, sections);
            && Technicals(out) == Timed(Selected(brief, totalMins, sections), SelectedUnits(brief, totalMins, sections))
            && FirstBehavioural(out, brief) == out[|out| - 1]
  {
    var out := Normalized(brief, totalMins, sections);
    var timed := Timed(Selected(brief, totalMins, sections), SelectedUnits(brief, totalMins, sections));
    var intro, last := out[0], out[|out| - 1];
    assert out[..|out| - 1] == [intro] + timed;
    TechnicalsAfterIntro(intro, timed);
    BehaviouralAtEnd([intro] + timed, last, brief);
    assert out == ([intro] + timed) + [last];
  }

  /** Idempotence: finalising a finalised plan again, with the same duration, analysis and focus
      areas, changes nothing: not the sections kept, not their order, not a unit of time. */
  lemma FinalizeIsIdempotent(brief: Brief, durationMins: int, plan: Plan)
    requires Plannable(durationMins, plan.sections)
    ensures var once := Finalized(brief, durationMins, plan);
            Finalized(brief, durationMins, once.plan) == once
  {
    var out := Normalized(brief, durationMins, plan.sections);
    var selected := Selected(brief, durationMins, plan.sections);
    var units := SelectedUnits(brief, durationMins, plan.sections);
    var timed := Timed(selected, units);
    ReadBack(brief, durationMins, plan.sections);
    assert |timed| > 0;
    var keys := SectionKeys(brief, timed);
    forall i, j | 0 <= i < j < |keys| ensures AtLeast(keys[i], keys[j]) {
      SelectedKeysDescend(brief, durationMins, plan.sections, i, j);
    }
    OrderOfSorted(keys);
    var count := TargetCount(durationMins, TechnicalUnits(durationMins));
    assert Min(count, |timed|) == |timed|;
    var kept := Kept(brief, timed, count);
    assert forall k :: 0 <= k < |timed| ==> kept[k] == k;
    var again := Selected(brief, durationMins, out);
    assert again == timed;
    assert Weights(brief, again) == Weights(brief, selected);
    assert SelectedUnits(brief, durationMins, out) == units;
    assert Timed(again, units) == timed;
  }
}
