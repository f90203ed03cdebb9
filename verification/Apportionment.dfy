// The technical-time allocator, in exact 0.1-minute units. Weights are integers in an
// arbitrary common unit (see AllocationScales).
module Apportionment {
  import opened Prelude
  import opened LargestRemainder

  /** `max(weight, 0.0) ** 2`. */
  function Boost(weight: int): nat {
    Max(weight, 0) * Max(weight, 0)
  }

  function Boosted(weights: seq<int>): seq<nat> {
    seq(|weights|, i requires 0 <= i < |weights| => Boost(weights[i]))
  }

  /** The exact quota of entry `i` is `Numerators(extra, boosted)[i] / Sum(boosted)` units. */
  function Numerators(extra: nat, boosted: seq<nat>): (r: seq<nat>)
    ensures |r| == |boosted|
  {
    seq(|boosted|, i requires 0 <= i < |boosted| => extra * boosted[i])
  }

  lemma {:induction false} NumeratorsAddUp(extra: nat, boosted: seq<nat>)
    ensures Sum(Numerators(extra, boosted)) == extra * Sum(boosted)
  {
    if |boosted| != 0 {
      var n := |boosted| - 1;
      NumeratorsAddUp(extra, boosted[..n]);
      assert Numerators(extra, boosted)[..n] == Numerators(extra, boosted[..n]);
      Distribute(extra, Sum(boosted[..n]), boosted[n]);
    }
  }

  function FirstIndices(n: nat): (r: seq<nat>)
    ensures |r| == n && forall i :: 0 <= i < n ==> r[i] == i
  {
    seq(n, i requires 0 <= i => i)
  }

  /** Equal shares, the first `total % n` of them one unit larger. */
  function EvenSplit(total: int, n: nat): (r: seq<int>)
    requires n > 0
    ensures |r| == n
  {
    seq(n, i requires 0 <= i < n => total / n + (if i < total % n then 1 else 0))
  }

  /** Split of the units above the minimum depth. */
  function Extras(extra: nat, boosted: seq<nat>): (r: seq<int>)
    requires |boosted| > 0
    ensures |r| == |boosted|
  {
    NumeratorsAddUp(extra, boosted);
    if Sum(boosted) <= 0 then EvenSplit(extra, |boosted|)
    else Rounded(Numerators(extra, boosted), Sum(boosted), extra, boosted)
  }

  /** Units left above the minimum depth; negative when the depth cannot be met. */
  function Surplus(totalUnits: int, n: nat, minUnitsPerSkill: int): int {
    totalUnits - Max(1, minUnitsPerSkill) * n
  }

  /** What the allocator hands to each of the weighted sections, in tenths of a minute. */
  function Allocation(totalUnits: int, weights: seq<int>, minUnitsPerSkill: int): (r: seq<int>)
    ensures |r| == |weights|
  {
    var n := |weights|;
    var extra := Surplus(totalUnits, n, minUnitsPerSkill);
    if n == 0 then []
    else if extra < 0 then EvenSplit(totalUnits, n)
    else
      var extras := Extras(extra, Boosted(weights));
      seq(n, i requires 0 <= i < n => Max(1, minUnitsPerSkill) + extras[i])
  }

  // ---------------------------------------------------------------- the algorithm

  method AddLeftovers(distributed: array<int>, picks: seq<nat>)
    requires forall k :: 0 <= k < |picks| ==> picks[k] < distributed.Length
    modifies distributed
    ensures distributed[..] == Bump(old(distributed[..]), picks)
  {
    ghost var start := distributed[..];
    for k := 0 to |picks|
      invariant distributed[..] == Bump(start, picks[..k])
    {
      assert picks[..k + 1][..k] == picks[..k];
      distributed[picks[k]] := distributed[picks[k]] + 1;
    }
    assert picks[..|picks|] == picks;
  }

  method DistributeExtras(extra: nat, boosted: seq<nat>) returns (distributed: array<int>)
    requires |boosted| > 0
    ensures fresh(distributed) && distributed[..] == Extras(extra, boosted)
  {
    var n, total := |boosted|, Sum(boosted);
    if total <= 0 {
      distributed := new int[n](_ => extra / n);
      assert distributed[..] == seq(n, _ => extra / n);
      AddLeftovers(distributed, FirstIndices(extra % n));
      EvenSplitIsBump(extra, n);
    } else {
      NumeratorsAddUp(extra, boosted);
      var q := Numerators(extra, boosted);
      var scaled := Wholes(q, total);
      distributed := new int[n](i requires 0 <= i < n => scaled[i]);
      assert distributed[..] == scaled;
      AddLeftovers(distributed, Winners(q, total, extra, boosted));
    }
  }

  method AddMinimum(distributed: array<int>, minUnits: int) returns (units: seq<int>)
    ensures |units| == distributed.Length
    ensures forall k :: 0 <= k < |units| ==> units[k] == minUnits + distributed[k]
  {
    units := [];
    for i := 0 to distributed.Length
      invariant |units| == i
      invariant forall k :: 0 <= k < i ==> units[k] == minUnits + distributed[k]
    {
      units := units + [minUnits + distributed[i]];
    }
  }

  method AllocateMinutesByWeight(totalUnits: int, weights: seq<int>, minUnitsPerSkill: int)
    returns (units: seq<int>)
    ensures units == Allocation(totalUnits, weights, minUnitsPerSkill)
  {
    var n, minUnits := |weights|, Max(1, minUnitsPerSkill);
    if n == 0 {
      return [];
    }
    var extra := Surplus(totalUnits, n, minUnitsPerSkill);
    if extra < 0 {
      return EvenSplit(totalUnits, n);
    }
    var distributed := DistributeExtras(extra, Boosted(weights));
    ghost var extras := distributed[..];
    units := AddMinimum(distributed, minUnits);
    assert forall k :: 0 <= k < n ==> distributed[k] == extras[k];
  }

  // ----------------------------------------------------------------- conservation

  lemma EvenSplitIsBump(total: int, n: nat)
    requires n > 0
    ensures EvenSplit(total, n) == Bump(seq(n, _ => total / n), FirstIndices(total % n))
  {
    var equal, picks := seq(n, _ => total / n), FirstIndices(total % n);
    forall i | 0 <= i < n ensures Bump(equal, picks)[i] == EvenSplit(total, n)[i] {
      BumpAt(equal, picks, i);
      if i < total % n {
        assert picks[i] == i;
      }
    }
  }

  lemma EvenSplitIsExact(total: int, n: nat)
    requires n > 0
    ensures Sum(EvenSplit(total, n)) == total
  {
    EvenSplitIsBump(total, n);
    BumpSum(seq(n, _ => total / n), FirstIndices(total % n));
    SumOfConstant(seq(n, _ => total / n), total / n);
  }

  lemma {:induction false} SumOfShift(s: seq<int>, t: seq<int>, c: int)
    requires |s| == |t| && forall i :: 0 <= i < |s| ==> t[i] == c + s[i]
    ensures Sum(t) == c * |s| + Sum(s)
  {
    if |s| != 0 {
      var n := |s| - 1;
      SumOfShift(s[..n], t[..n], c);
      Distribute(c, n, 1);
    }
  }

  lemma ExtrasAreExact(extra: nat, boosted: seq<nat>)
    requires |boosted| > 0
    ensures Sum(Extras(extra, boosted)) == extra
  {
    NumeratorsAddUp(extra, boosted);
    if Sum(boosted) <= 0 {
      EvenSplitIsExact(extra, |boosted|);
    } else {
      RoundedIsExact(Numerators(extra, boosted), Sum(boosted), extra, boosted);
    }
  }

  /** Conservation: in all three branches every unit is handed out, and none twice. */
  lemma AllocationIsExact(totalUnits: int, weights: seq<int>, minUnitsPerSkill: int)
    ensures weights != [] ==> Sum(Allocation(totalUnits, weights, minUnitsPerSkill)) == totalUnits
  {
    var n := |weights|;
    var extra := Surplus(totalUnits, n, minUnitsPerSkill);
    if n == 0 {
    } else if extra < 0 {
      EvenSplitIsExact(totalUnits, n);
    } else {
      ExtrasAreExact(extra, Boosted(weights));
      SumOfShift(Extras(extra, Boosted(weights)), Allocation(totalUnits, weights, minUnitsPerSkill),
                 Max(1, minUnitsPerSkill));
    }
  }

  // ------------------------------------------------- quota rule, optimality, monotonicity

  /** In the weighted branch each share of the extra units is its exact quota
      `extra * boosted[i] / w` rounded down or up: less than one unit away from it. */
  lemma ExtrasObeyQuota(extra: nat, boosted: seq<nat>, i: nat)
    requires i < |boosted| && Sum(boosted) > 0
    ensures var w, q := Sum(boosted), extra * boosted[i];
            q - w < w * Extras(extra, boosted)[i] < q + w
  {
    NumeratorsAddUp(extra, boosted);
    QuotaRule(Numerators(extra, boosted), Sum(boosted), extra, boosted, i);
  }

  /** No integer split of the same units is closer to the exact proportional shares. */
  lemma ExtrasAreOptimal(extra: nat, boosted: seq<nat>, other: seq<int>)
    requires Sum(boosted) > 0
    requires |other| == |boosted| > 0 && Sum(other) == extra
    ensures var w, q := Sum(boosted), Numerators(extra, boosted);
            Deviation(q, w, Extras(extra, boosted)) <= Deviation(q, w, other)
  {
    NumeratorsAddUp(extra, boosted);
    RoundedIsOptimal(Numerators(extra, boosted), Sum(boosted), extra, boosted, other);
  }

  lemma {:induction false} EntryBelowSum(boosted: seq<nat>, i: nat)
    requires i < |boosted|
    ensures Sum(boosted) >= boosted[i]
  {
    var n := |boosted| - 1;
    if i < n {
      EntryBelowSum(boosted[..n], i);
    } else if n > 0 {
      EntryBelowSum(boosted[..n], 0);
    }
  }

  lemma BoostMonotone(v: int, w: int)
    requires Max(v, 0) > Max(w, 0)
    ensures Boost(v) > Boost(w) >= 0
  {
  }

  lemma ExtrasAreMonotone(extra: nat, boosted: seq<nat>, i: nat, j: nat)
    requires i < |boosted| && j < |boosted|
    ensures var r := Extras(extra, boosted);
            && r[i] >= 0
            && (boosted[i] > boosted[j] ==> r[i] >= r[j])
            && (boosted[i] == boosted[j] && i < j ==> r[j] <= r[i] <= r[j] + 1)
  {
    var w := Sum(boosted);
    EntryBelowSum(boosted, i);
    EntryBelowSum(boosted, j);
    if w > 0 {
      var q := Numerators(extra, boosted);
      NumeratorsAddUp(extra, boosted);
      ShareShape(q, w, extra, boosted, i);
      QuotaSplit(q, w, i);
      if boosted[i] > boosted[j] {
        Grow(extra, boosted[j], boosted[i]);
        LargerNeverLess(q, w, extra, boosted, i, j);
      } else if boosted[i] == boosted[j] && i < j {
        EqualAlmostSame(q, w, extra, boosted, i, j);
      }
    } else {
      DivMod(extra, |boosted|);
    }
  }

  /** Monotonicity, whenever there are enough units for the minimum depth: every section gets
      that depth, a strictly larger (clipped) weight never gets less, and equal ones differ by
      at most one unit in favour of the earlier section. */
  lemma AllocationIsMonotone(totalUnits: int, weights: seq<int>, minUnitsPerSkill: int, i: nat, j: nat)
    requires i < |weights| && j < |weights|
    requires Surplus(totalUnits, |weights|, minUnitsPerSkill) >= 0
    ensures var units := Allocation(totalUnits, weights, minUnitsPerSkill);
            && units[i] >= Max(1, minUnitsPerSkill)
            && (Max(weights[i], 0) > Max(weights[j], 0) ==> units[i] >= units[j])
            && (Max(weights[i], 0) == Max(weights[j], 0) && i < j ==> units[j] <= units[i] <= units[j] + 1)
  {
    ExtrasAreMonotone(Surplus(totalUnits, |weights|, minUnitsPerSkill), Boosted(weights), i, j);
    if Max(weights[i], 0) > Max(weights[j], 0) {
      BoostMonotone(weights[i], weights[j]);
    }
  }

  /** The monotonicity of the allocator along descending weights. */
  lemma AllocationDescends(totalUnits: int, weights: seq<int>, minUnitsPerSkill: int, i: nat, j: nat)
    requires i < j < |weights| && weights[i] >= weights[j]
    requires Surplus(totalUnits, |weights|, minUnitsPerSkill) >= 0
    ensures var units := Allocation(totalUnits, weights, minUnitsPerSkill);
            units[i] >= units[j] >= Max(1, minUnitsPerSkill)
  {
    AllocationIsMonotone(totalUnits, weights, minUnitsPerSkill, i, j);
    AllocationIsMonotone(totalUnits, weights, minUnitsPerSkill, j, i);
  }

  // ------------------------------------------------------------- in terms of the weights

  /** The squares of the positive weights, 0 for the others. */
  ghost predicate Squares(weights: seq<int>, squares: seq<nat>) {
    && |squares| == |weights|
    && forall k :: 0 <= k < |weights| ==> squares[k] == if weights[k] > 0 then weights[k] * weights[k] else 0
  }

  /** What the sections get beyond `depth` each. */
  function Above(units: seq<int>, depth: int): (r: seq<int>)
    ensures |r| == |units|
  {
    seq(|units|, k requires 0 <= k < |units| => units[k] - depth)
  }

  lemma AllocationIsExtras(totalUnits: int, weights: seq<int>, depth: nat, extra: nat, squares: seq<nat>)
    requires weights != [] && Squares(weights, squares) && depth >= 1 && totalUnits == depth * |weights| + extra
    ensures Boosted(weights) == squares
    ensures Above(Allocation(totalUnits, weights, depth), depth) == Extras(extra, squares)
  {
    forall k | 0 <= k < |weights| ensures Boosted(weights)[k] == squares[k] {
      assert Max(weights[k], 0) == if weights[k] > 0 then weights[k] else 0;
    }
    assert Boosted(weights) == squares;
  }

  /** The quota rule: with some positive weight, what a section gets beyond the minimum depth is
      less than one unit away from its share of the extra units in proportion to the square of its
      weight. */
  lemma AllocationObeysQuota(totalUnits: int, weights: seq<int>, depth: nat, extra: nat, squares: seq<nat>, i: nat)
    requires i < |weights| && Squares(weights, squares) && Sum(squares) > 0
    requires depth >= 1 && totalUnits == depth * |weights| + extra
    ensures var share, w := Above(Allocation(totalUnits, weights, depth), depth)[i], Sum(squares);
            extra * squares[i] - w < w * share < extra * squares[i] + w
  {
    AllocationIsExtras(totalUnits, weights, depth, extra, squares);
    ExtrasObeyQuota(extra, squares, i);
  }

  /** Optimality: no other split of the same total, in whole units, deviates less from those
      proportional shares. */
  lemma AllocationIsOptimal(totalUnits: int, weights: seq<int>, depth: nat, extra: nat, squares: seq<nat>, other: seq<int>)
    requires Squares(weights, squares) && Sum(squares) > 0 && |other| == |weights| > 0
    requires depth >= 1 && totalUnits == depth * |weights| + extra && Sum(other) == totalUnits
    ensures var q, w := Numerators(extra, squares), Sum(squares);
            Deviation(q, w, Above(Allocation(totalUnits, weights, depth), depth)) <= Deviation(q, w, Above(other, depth))
  {
    AllocationIsExtras(totalUnits, weights, depth, extra, squares);
    SumOfShift(Above(other, depth), other, depth);
    ExtrasAreOptimal(extra, squares, Above(other, depth));
  }

  /** Who gets a further unit: of two sections of which only the first got more than the whole part
      of its share, the first has the larger fractional part, or the same and the larger weight, or
      both the same and the earlier position. */
  lemma RemaindersDecide(totalUnits: int, weights: seq<int>, depth: nat, extra: nat, squares: seq<nat>, i: nat, j: nat)
    requires i < |weights| && j < |weights| && Squares(weights, squares) && Sum(squares) > 0
    requires depth >= 1 && totalUnits == depth * |weights| + extra
    requires var units, w := Allocation(totalUnits, weights, depth), Sum(squares);
             units[i] - depth > extra * squares[i] / w && units[j] - depth == extra * squares[j] / w
    ensures var w := Sum(squares);
            var a, b := (extra * squares[i]) % w, (extra * squares[j]) % w;
            a > b || (a == b && squares[i] > squares[j]) || (a == b && squares[i] == squares[j] && i < j)
  {
    var q, w := Numerators(extra, squares), Sum(squares);
    AllocationIsExtras(totalUnits, weights, depth, extra, squares);
    var above := Above(Allocation(totalUnits, weights, depth), depth);
    assert above[i] == Extras(extra, squares)[i] && above[j] == Extras(extra, squares)[j];
    NumeratorsAddUp(extra, squares);
    ShareShape(q, w, extra, squares, i);
    ShareShape(q, w, extra, squares, j);
    WinnersComeFirst(q, w, extra, squares, i, j);
  }

  /** Without enough units for the minimum depth, or without a positive weight, everyone gets the
      same, up to one unit more for the earlier sections. */
  lemma EvenShares(totalUnits: int, weights: seq<int>, depth: nat, squares: seq<nat>, i: nat, j: nat)
    requires i < j < |weights| && Squares(weights, squares) && depth >= 1
    requires totalUnits < depth * |weights| || Sum(squares) == 0
    ensures var units := Allocation(totalUnits, weights, depth); units[j] <= units[i] <= units[j] + 1
  {
    var extra := totalUnits - depth * |weights|;
    if extra >= 0 {
      AllocationIsExtras(totalUnits, weights, depth, extra, squares);
      var above := Above(Allocation(totalUnits, weights, depth), depth);
      assert above[i] == Extras(extra, squares)[i] && above[j] == Extras(extra, squares)[j];
    }
  }

  // ---------------------------------------------------------------------- change of unit

  lemma BoostScales(c: nat, weight: int)
    requires c > 0
    ensures Boost(c * weight) == (c * c) * Boost(weight)
  {
    var m := Max(weight, 0);
    StrictlyGrow(c, 0, weight);
    assert Max(c * weight, 0) == c * m;
    Associate(c, m, c * m);
    Associate(c, c, m * m);
    assert m * (c * m) == c * (m * m);
  }

  lemma NumeratorsScale(d: nat, extra: nat, boosted: seq<nat>, wider: seq<nat>)
    requires Scaled(d, boosted, wider)
    ensures Scaled(d, Numerators(extra, boosted), Numerators(extra, wider))
  {
    forall i | 0 <= i < |boosted| ensures Numerators(extra, wider)[i] == d * Numerators(extra, boosted)[i] {
      Associate(d, extra, boosted[i]);
      Associate(extra, d, boosted[i]);
    }
  }

  lemma ExtrasScale(d: nat, extra: nat, boosted: seq<nat>, wider: seq<nat>)
    requires |boosted| > 0 && Scaled(d, boosted, wider)
    ensures Extras(extra, wider) == Extras(extra, boosted)
  {
    SumScales(d, boosted, wider);
    StrictlyGrow(d, 0, Sum(boosted));
    if Sum(boosted) > 0 {
      NumeratorsAddUp(extra, boosted);
      NumeratorsScale(d, extra, boosted, wider);
      RoundedScales(d, Numerators(extra, boosted), Sum(boosted), extra, boosted, Numerators(extra, wider), wider);
    }
  }

  /** The allocation does not depend on the unit of the weights: multiplying all of them by one
      positive factor changes no share. So what is proved for integer weights in a common unit
      holds of rational ones. */
  lemma AllocationScales(totalUnits: int, weights: seq<int>, minUnitsPerSkill: int, c: nat, wider: seq<int>)
    requires Scaled(c, weights, wider)
    ensures Allocation(totalUnits, wider, minUnitsPerSkill) == Allocation(totalUnits, weights, minUnitsPerSkill)
  {
    StrictlyGrow(c, 0, c);
    forall i | 0 <= i < |weights| ensures Boosted(wider)[i] == (c * c) * Boosted(weights)[i] {
      BoostScales(c, weights[i]);
    }
    var extra := Surplus(totalUnits, |weights|, minUnitsPerSkill);
    if |weights| > 0 && extra >= 0 {
      ExtrasScale(c * c, extra, Boosted(weights), Boosted(wider));
    }
  }
}
