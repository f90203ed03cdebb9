// Largest-remainder rounding of exact quotas `q[i] / w` to integers with the same total:
// take whole parts, then give one more unit to the largest fractional parts.
module LargestRemainder {
  import opened Prelude
  import opened StableOrder

  /** Numerators `q` over the common denominator `w`, adding up to `total` whole units. */
  ghost predicate Quotas(q: seq<nat>, w: nat, total: nat) {
    w > 0 && |q| > 0 && Sum(q) == total * w
  }

  function Wholes(q: seq<nat>, w: nat): seq<int>
    requires w > 0
  {
    seq(|q|, i requires 0 <= i < |q| => q[i] / w)
  }

  function Parts(q: seq<nat>, w: nat): seq<int>
    requires w > 0
  {
    seq(|q|, i requires 0 <= i < |q| => q[i] % w)
  }

  function Keys(q: seq<nat>, w: nat, tie: seq<int>): (r: seq<Key>)
    requires w > 0 && |tie| == |q|
    ensures |r| == |q|
    ensures forall i :: 0 <= i < |q| ==> r[i] == Key(Parts(q, w)[i], tie[i])
  {
    seq(|q|, i requires 0 <= i < |q| => Key(q[i] % w, tie[i]))
  }

  /** Add one to each picked entry, in turn. */
  function Bump(shares: seq<int>, picks: seq<nat>): (r: seq<int>)
    requires forall k :: 0 <= k < |picks| ==> picks[k] < |shares|
    ensures |r| == |shares|
  {
    if |picks| == 0 then shares
    else
      var m := |picks| - 1;
      var before := Bump(shares, picks[..m]);
      before[picks[m] := before[picks[m]] + 1]
  }

  /** Units still to hand out after the whole parts. */
  function Leftover(q: seq<nat>, w: nat, total: nat): (r: nat)
    requires Quotas(q, w, total)
    ensures r < |q|
  {
    LeftoverIsSmall(q, w, total);
    total - Sum(Wholes(q, w))
  }

  /** The positions that receive one of the leftover units. */
  function Winners(q: seq<nat>, w: nat, total: nat, tie: seq<int>): (r: seq<nat>)
    requires Quotas(q, w, total) && |tie| == |q|
    ensures forall k :: 0 <= k < |r| ==> r[k] < |q|
  {
    Order(Keys(q, w, tie))[..Leftover(q, w, total)]
  }

  function Rounded(q: seq<nat>, w: nat, total: nat, tie: seq<int>): (r: seq<int>)
    requires Quotas(q, w, total) && |tie| == |q|
    ensures |r| == |q|
  {
    Bump(Wholes(q, w), Winners(q, w, total, tie))
  }

  // ------------------------------------------------------------------- arithmetic

  lemma Distribute(a: int, x: int, y: int)
    ensures a * (x + y) == a * x + a * y
  {
  }

  lemma Grow(w: nat, x: int, y: int)
    requires x <= y
    ensures w * x <= w * y
  {
  }

  lemma Sign(w: int, x: int)
    requires w > 0 && w * x > 0
    ensures x > 0
  {
  }

  lemma DivMod(q: nat, w: nat)
    requires w > 0
    ensures w * (q / w) + q % w == q && 0 <= q % w < w && q / w >= 0
  {
  }

  lemma QuotaSplit(q: seq<nat>, w: nat, i: nat)
    requires w > 0 && i < |q|
    ensures w * Wholes(q, w)[i] + Parts(q, w)[i] == q[i]
    ensures 0 <= Parts(q, w)[i] < w && Wholes(q, w)[i] >= 0
  {
    DivMod(q[i], w);
  }

  // ------------------------------------------------------------------ conservation

  lemma {:induction false} BumpAt(shares: seq<int>, picks: seq<nat>, i: nat)
    requires forall k :: 0 <= k < |picks| ==> picks[k] < |shares|
    requires Distinct(picks) && i < |shares|
    ensures Bump(shares, picks)[i] == shares[i] + (if i in picks then 1 else 0)
  {
    if |picks| != 0 {
      var m := |picks| - 1;
      BumpAt(shares, picks[..m], i);
      assert picks == picks[..m] + [picks[m]];
      assert picks[m] !in picks[..m];
    }
  }

  lemma {:induction false} BumpSum(shares: seq<int>, picks: seq<nat>)
    requires forall k :: 0 <= k < |picks| ==> picks[k] < |shares|
    ensures Sum(Bump(shares, picks)) == Sum(shares) + |picks|
  {
    if |picks| != 0 {
      var m := |picks| - 1;
      BumpSum(shares, picks[..m]);
      var before := Bump(shares, picks[..m]);
      SumOfUpdate(before, picks[m], before[picks[m]] + 1);
    }
  }

  /** Whole parts and fractional parts together make up the quotas. */
  lemma {:induction false} WholesAndParts(q: seq<nat>, w: nat)
    requires w > 0
    ensures w * Sum(Wholes(q, w)) + Sum(Parts(q, w)) == Sum(q)
  {
    if |q| != 0 {
      var n := |q| - 1;
      WholesAndParts(q[..n], w);
      var f, r := Wholes(q, w), Parts(q, w);
      assert f[..n] == Wholes(q[..n], w) && r[..n] == Parts(q[..n], w);
      QuotaSplit(q, w, n);
      Distribute(w, Sum(f[..n]), f[n]);
    }
  }

  lemma {:induction false} SumBound(s: seq<int>, top: int)
    requires forall i :: 0 <= i < |s| ==> 0 <= s[i] <= top
    ensures 0 <= Sum(s) <= |s| * top
  {
    if |s| != 0 {
      SumBound(s[..|s| - 1], top);
      Distribute(top, |s| - 1, 1);
    }
  }

  lemma LeftoverIsSmall(q: seq<nat>, w: nat, total: nat)
    requires Quotas(q, w, total)
    ensures 0 <= total - Sum(Wholes(q, w)) < |q|
  {
    WholesAndParts(q, w);
    forall i | 0 <= i < |q| ensures 0 <= Parts(q, w)[i] <= w - 1 {
      QuotaSplit(q, w, i);
    }
    SumBound(Parts(q, w), w - 1);
    Scale(w, total, Sum(Wholes(q, w)), |q|, Sum(Parts(q, w)));
  }

  lemma Scale(w: nat, total: int, wholes: int, n: nat, parts: int)
    requires w > 0 && w * wholes + parts == total * w && 0 <= parts <= n * (w - 1) && n > 0
    ensures 0 <= total - wholes < n
  {
    var left := total - wholes;
    Distribute(w, left, wholes);
    assert w * left == parts;
    Distribute(n, w - 1, 1);
    assert w * n - w * left >= n;
    Distribute(w, n, -left);
    Sign(w, n - left);
    Sign(w, left + 1);
    Distribute(w, left, 1);
  }

  lemma WinnersAreDistinct(q: seq<nat>, w: nat, total: nat, tie: seq<int>)
    requires Quotas(q, w, total) && |tie| == |q|
    ensures Distinct(Winners(q, w, total, tie))
  {
    var keys := Keys(q, w, tie);
    OrderIsOrder(keys);
    var order, r := Order(keys), Leftover(q, w, total);
    forall i, j | 0 <= i < j < r ensures order[..r][i] != order[..r][j] {
      assert Before(keys, order[i], order[j]);
    }
  }

  /** The rounded shares add up to the total. */
  lemma RoundedIsExact(q: seq<nat>, w: nat, total: nat, tie: seq<int>)
    requires Quotas(q, w, total) && |tie| == |q|
    ensures Sum(Rounded(q, w, total, tie)) == total
  {
    BumpSum(Wholes(q, w), Winners(q, w, total, tie));
  }

  /** Every share is its whole part, plus one for a winner. */
  lemma ShareShape(q: seq<nat>, w: nat, total: nat, tie: seq<int>, i: nat)
    requires Quotas(q, w, total) && |tie| == |q| && i < |q|
    ensures Rounded(q, w, total, tie)[i]
         == Wholes(q, w)[i] + (if i in Winners(q, w, total, tie) then 1 else 0)
  {
    WinnersAreDistinct(q, w, total, tie);
    BumpAt(Wholes(q, w), Winners(q, w, total, tie), i);
  }

  /** A winner has at least a loser's fractional part; a tie goes to the larger tie-breaker
      and then to the earlier position. */
  lemma WinnersComeFirst(q: seq<nat>, w: nat, total: nat, tie: seq<int>, i: nat, j: nat)
    requires Quotas(q, w, total) && |tie| == |q| && i < |q| && j < |q|
    requires i in Winners(q, w, total, tie) && j !in Winners(q, w, total, tie)
    ensures Before(Keys(q, w, tie), i, j)
  {
    OrderIsOrder(Keys(q, w, tie));
    CutSeparates(Keys(q, w, tie), Order(Keys(q, w, tie)), Leftover(q, w, total), i, j);
  }

  // -------------------------------------------------------------------- quota rule

  /** 1 at the winners and 0 elsewhere. */
  function Flags(q: seq<nat>, w: nat, total: nat, tie: seq<int>): (r: seq<int>)
    requires Quotas(q, w, total) && |tie| == |q|
    ensures |r| == |q|
  {
    Bump(seq(|q|, _ => 0), Winners(q, w, total, tie))
  }

  lemma FlagsAt(q: seq<nat>, w: nat, total: nat, tie: seq<int>, i: nat)
    requires Quotas(q, w, total) && |tie| == |q| && i < |q|
    ensures Flags(q, w, total, tie)[i] == if i in Winners(q, w, total, tie) then 1 else 0
  {
    WinnersAreDistinct(q, w, total, tie);
    BumpAt(seq(|q|, _ => 0), Winners(q, w, total, tie), i);
  }

  lemma {:induction false} Below(s: seq<int>, flags: seq<int>, top: nat)
    requires |s| == |flags|
    requires forall k :: 0 <= k < |s| ==> s[k] <= top * flags[k]
    ensures Sum(s) <= top * Sum(flags)
  {
    if |s| != 0 {
      var n := |s| - 1;
      Below(s[..n], flags[..n], top);
      Distribute(top, Sum(flags[..n]), flags[n]);
    }
  }

  /** If one flagged entry is 0, the sum stays a whole entry below the flagged bound. */
  lemma {:induction false} StrictlyBelow(s: seq<int>, flags: seq<int>, top: nat, i: nat)
    requires |s| == |flags| && i < |s| && s[i] == 0 && flags[i] == 1
    requires forall k :: 0 <= k < |s| ==> s[k] <= top * flags[k]
    ensures Sum(s) <= top * Sum(flags) - top
  {
    var n := |s| - 1;
    Distribute(top, Sum(flags[..n]), flags[n]);
    if i < n {
      StrictlyBelow(s[..n], flags[..n], top, i);
    } else {
      Below(s[..n], flags[..n], top);
    }
  }

  /** A winner always has a positive fractional part: were it 0, every loser's would be 0 too,
      and the winners alone could not make up the leftover units. */
  lemma WinnersAreFractional(q: seq<nat>, w: nat, total: nat, tie: seq<int>, i: nat)
    requires Quotas(q, w, total) && |tie| == |q| && i < |q|
    requires i in Winners(q, w, total, tie)
    ensures Parts(q, w)[i] > 0
  {
    QuotaSplit(q, w, i);
    if Parts(q, w)[i] == 0 {
      var flags := Flags(q, w, total, tie);
      forall k | 0 <= k < |q| ensures Parts(q, w)[k] <= (w - 1) * flags[k] {
        QuotaSplit(q, w, k);
        FlagsAt(q, w, total, tie, k);
        if k !in Winners(q, w, total, tie) {
          WinnersComeFirst(q, w, total, tie, i, k);
        }
      }
      FlagsAt(q, w, total, tie, i);
      StrictlyBelow(Parts(q, w), flags, w - 1, i);
      BumpSum(seq(|q|, _ => 0), Winners(q, w, total, tie));
      SumOfConstant(seq(|q|, _ => 0), 0);
      WholesAndParts(q, w);
      TooFewParts(w, total, Sum(Wholes(q, w)), Sum(Parts(q, w)));
    }
  }

  lemma TooFewParts(w: nat, total: int, wholes: int, parts: int)
    requires w > 0 && w * wholes + parts == total * w
    requires total - wholes >= 1
    ensures parts > (w - 1) * (total - wholes) - (w - 1)
  {
    var left := total - wholes;
    Distribute(w, left, wholes);
    Distribute(left, w - 1, 1);
  }

  /** Quota rule: each share is its exact quota rounded down or up, and a whole quota is met
      exactly (both say that the share is less than one unit away from the quota). */
  lemma QuotaRule(q: seq<nat>, w: nat, total: nat, tie: seq<int>, i: nat)
    requires Quotas(q, w, total) && |tie| == |q| && i < |q|
    ensures q[i] - w < w * Rounded(q, w, total, tie)[i] < q[i] + w
  {
    ShareShape(q, w, total, tie, i);
    QuotaSplit(q, w, i);
    Distribute(w, Wholes(q, w)[i], 1);
    if i in Winners(q, w, total, tie) {
      WinnersAreFractional(q, w, total, tie, i);
    }
  }

  // ----------------------------------------------------------------- monotonicity

  lemma WholesMonotone(q: seq<nat>, w: nat, i: nat, j: nat)
    requires w > 0 && i < |q| && j < |q| && q[i] >= q[j]
    ensures Wholes(q, w)[i] >= Wholes(q, w)[j]
    ensures Wholes(q, w)[i] == Wholes(q, w)[j] ==> Parts(q, w)[i] >= Parts(q, w)[j]
  {
    QuotaSplit(q, w, i);
    QuotaSplit(q, w, j);
    var a, b := Wholes(q, w)[i], Wholes(q, w)[j];
    Distribute(w, a - b, b);
    Distribute(w, a - b, 1);
    Sign(w, a - b + 1);
  }

  /** A larger quota with a larger tie-breaker never receives fewer units. */
  lemma LargerNeverLess(q: seq<nat>, w: nat, total: nat, tie: seq<int>, i: nat, j: nat)
    requires Quotas(q, w, total) && |tie| == |q| && i < |q| && j < |q|
    requires q[i] >= q[j] && tie[i] > tie[j]
    ensures Rounded(q, w, total, tie)[i] >= Rounded(q, w, total, tie)[j]
  {
    WholesMonotone(q, w, i, j);
    ShareShape(q, w, total, tie, i);
    ShareShape(q, w, total, tie, j);
    var winners := Winners(q, w, total, tie);
    if j in winners && i !in winners && Wholes(q, w)[i] == Wholes(q, w)[j] {
      WinnersComeFirst(q, w, total, tie, j, i);
    }
  }

  /** Equal quotas and tie-breakers differ by at most one unit, the earlier one favoured. */
  lemma EqualAlmostSame(q: seq<nat>, w: nat, total: nat, tie: seq<int>, i: nat, j: nat)
    requires Quotas(q, w, total) && |tie| == |q|
    requires i < j < |q| && q[i] == q[j] && tie[i] == tie[j]
    ensures var r := Rounded(q, w, total, tie); r[j] <= r[i] <= r[j] + 1
  {
    ShareShape(q, w, total, tie, i);
    ShareShape(q, w, total, tie, j);
    var winners := Winners(q, w, total, tie);
    if j in winners && i !in winners {
      WinnersComeFirst(q, w, total, tie, j, i);
    }
  }

  // -------------------------------------------------------------------- optimality

  function Abs(x: int): nat { if x >= 0 then x else -x }

  /** `w` times the total absolute deviation of an integer split from the exact quotas. */
  function Deviation(q: seq<nat>, w: nat, split: seq<int>): int
    requires |split| == |q|
  {
    if |split| == 0 then 0
    else
      var n := |split| - 1;
      Deviation(q[..n], w, split[..n]) + Abs(w * split[n] - q[n])
  }

  lemma Signs(w: nat, pivot: nat, d: int)
    requires pivot <= w
    ensures d >= 1 ==> pivot * d >= pivot
    ensures d <= 0 ==> pivot * d >= w * d
  {
    if d >= 1 { Grow(pivot, 1, d); }
    if d <= 0 {
      Grow(w - pivot, d, 0);
      Distribute(d, w - pivot, pivot);
    }
  }

  /** Moving an entry `d` units from its whole part, instead of the `c` units of the rounding,
      costs at least `w - 2 * pivot` per unit of difference. */
  lemma EntryCost(w: nat, part: nat, pivot: nat, c: int, d: int)
    requires part < w && pivot <= w
    requires (c == 1 && part >= pivot) || (c == 0 && part <= pivot)
    ensures Abs(w * d - part) >= Abs(w * c - part) + (w * d - 2 * (pivot * d)) - (w * c - 2 * (pivot * c))
  {
    Signs(w, pivot, d);
  }

  /** Bounds of this shape add up. */
  lemma AddBounds(w: nat, pivot: nat, gap: int, step: int, above: int, below: int, more: int, less: int)
    requires above >= below + w * gap - 2 * (pivot * gap)
    requires more >= less + w * step - 2 * (pivot * step)
    ensures above + more >= below + less + w * (gap + step) - 2 * (pivot * (gap + step))
  {
    Distribute(w, gap, step);
    Distribute(pivot, gap, step);
  }

  lemma {:induction false} DeviationBound(q: seq<nat>, w: nat, best: seq<int>, flags: seq<int>,
                                          pivot: nat, other: seq<int>)
    requires w > 0 && pivot <= w && |best| == |other| == |q| == |flags|
    requires forall k :: 0 <= k < |best| ==> best[k] == Wholes(q, w)[k] + flags[k]
    requires forall k :: 0 <= k < |best| ==>
               || (flags[k] == 1 && Parts(q, w)[k] >= pivot)
               || (flags[k] == 0 && Parts(q, w)[k] <= pivot)
    ensures var gap := Sum(other) - Sum(best);
            Deviation(q, w, other) >= Deviation(q, w, best) + w * gap - 2 * (pivot * gap)
  {
    if |best| != 0 {
      var n := |best| - 1;
      var front := q[..n];
      assert Wholes(q, w)[..n] == Wholes(front, w) && Parts(q, w)[..n] == Parts(front, w);
      forall k | 0 <= k < n
        ensures Wholes(front, w)[k] == Wholes(q, w)[k] && Parts(front, w)[k] == Parts(q, w)[k]
      {
        assert Wholes(q, w)[..n][k] == Wholes(q, w)[k];
      }
      DeviationBound(front, w, best[..n], flags[..n], pivot, other[..n]);
      LastEntry(q[n], w, Wholes(q, w)[n], Parts(q, w)[n], pivot, flags[n], other[n]) by {
        QuotaSplit(q, w, n);
      }
      var gap, step := Sum(other[..n]) - Sum(best[..n]), other[n] - best[n];
      AddBounds(w, pivot, gap, step, Deviation(front, w, other[..n]), Deviation(front, w, best[..n]),
                Abs(w * other[n] - q[n]), Abs(w * best[n] - q[n]));
    }
  }

  lemma NoBetterSplit(q: seq<nat>, w: nat, best: seq<int>, flags: seq<int>, pivot: nat, other: seq<int>)
    requires w > 0 && pivot <= w && |best| == |other| == |q| == |flags|
    requires forall k :: 0 <= k < |best| ==> best[k] == Wholes(q, w)[k] + flags[k]
    requires forall k :: 0 <= k < |best| ==>
               || (flags[k] == 1 && Parts(q, w)[k] >= pivot)
               || (flags[k] == 0 && Parts(q, w)[k] <= pivot)
    requires Sum(other) == Sum(best)
    ensures Deviation(q, w, best) <= Deviation(q, w, other)
  {
    DeviationBound(q, w, best, flags, pivot, other);
  }

  lemma LastEntry(q: nat, w: nat, whole: int, part: int, pivot: nat, c: int, x: int)
    requires w * whole + part == q && 0 <= part < w && pivot <= w
    requires (c == 1 && part >= pivot) || (c == 0 && part <= pivot)
    ensures var step := x - (whole + c);
            Abs(w * x - q) >= Abs(w * (whole + c) - q) + w * step - 2 * (pivot * step)
  {
    var d := x - whole;
    EntryCost(w, part, pivot, c, d);
    Distribute(w, d, whole);
    Distribute(w, whole, c);
    Distribute(w, d - c, c);
    Distribute(pivot, d - c, c);
  }

  /** The smallest winning fractional part separates the winners from the losers. */
  lemma Pivot(q: seq<nat>, w: nat, total: nat, tie: seq<int>) returns (pivot: nat)
    requires Quotas(q, w, total) && |tie| == |q|
    ensures pivot <= w
    ensures forall k :: 0 <= k < |q| ==>
              var flag := Flags(q, w, total, tie)[k];
              || (flag == 1 && Parts(q, w)[k] >= pivot)
              || (flag == 0 && Parts(q, w)[k] <= pivot)
  {
    var keys, left := Keys(q, w, tie), Leftover(q, w, total);
    var order, winners := Order(keys), Winners(q, w, total, tie);
    OrderIsOrder(keys);
    pivot := w;
    if left > 0 {
      QuotaSplit(q, w, winners[left - 1]);
      pivot := Parts(q, w)[winners[left - 1]];
    }
    forall k | 0 <= k < |q|
      ensures var flag := Flags(q, w, total, tie)[k];
              || (flag == 1 && Parts(q, w)[k] >= pivot)
              || (flag == 0 && Parts(q, w)[k] <= pivot)
    {
      QuotaSplit(q, w, k);
      FlagsAt(q, w, total, tie, k);
      if k in winners {
        var a :| 0 <= a < left && winners[a] == k;
        if a < left - 1 { assert Before(keys, order[a], order[left - 1]); }
      } else if left > 0 {
        assert winners[left - 1] in winners;
        WinnersComeFirst(q, w, total, tie, winners[left - 1], k);
      }
    }
  }

  lemma RoundedIsWholesPlusFlags(q: seq<nat>, w: nat, total: nat, tie: seq<int>)
    requires Quotas(q, w, total) && |tie| == |q|
    ensures forall k :: 0 <= k < |q| ==>
              Rounded(q, w, total, tie)[k] == Wholes(q, w)[k] + Flags(q, w, total, tie)[k]
  {
    forall k | 0 <= k < |q|
      ensures Rounded(q, w, total, tie)[k] == Wholes(q, w)[k] + Flags(q, w, total, tie)[k]
    {
      ShareShape(q, w, total, tie, k);
      FlagsAt(q, w, total, tie, k);
    }
  }

  /** Optimality: no integer split of the same total deviates less from the exact quotas. */
  lemma RoundedIsOptimal(q: seq<nat>, w: nat, total: nat, tie: seq<int>, other: seq<int>)
    requires Quotas(q, w, total) && |tie| == |q|
    requires |other| == |q| && Sum(other) == total
    ensures Deviation(q, w, Rounded(q, w, total, tie)) <= Deviation(q, w, other)
  {
    var pivot := Pivot(q, w, total, tie);
    var best, flags := Rounded(q, w, total, tie), Flags(q, w, total, tie);
    RoundedIsWholesPlusFlags(q, w, total, tie);
    RoundedIsExact(q, w, total, tie);
    NoBetterSplit(q, w, best, flags, pivot, other);
  }

  // ---------------------------------------------------------------------- change of unit

  lemma NotLess(m: nat, a: int, b: int, x: int, y: int)
    requires m * a + b == m * x + y && 0 <= b && y < m
    ensures a <= x
  {
    if x < a {
      Grow(m, x + 1, a);
      Distribute(m, x, 1);
      assert false;
    }
  }

  /** A quotient with a proper remainder is the quotient. */
  lemma DivUnique(n: nat, m: nat, a: nat, b: nat)
    requires m > 0 && n == m * a + b && b < m
    ensures n / m == a && n % m == b
  {
    DivMod(n, m);
    NotLess(m, n / m, n % m, a, b);
    NotLess(m, a, b, n / m, n % m);
  }

  lemma Associate(d: int, w: int, a: int)
    ensures (d * w) * a == d * (w * a)
  {
  }

  lemma StrictlyGrow(d: nat, x: int, y: int)
    requires d > 0
    ensures d * x < d * y <==> x < y
    ensures d * x == d * y <==> x == y
  {
    if x < y {
      Distribute(d, x, y - x);
    } else if y < x {
      Distribute(d, y, x - y);
    }
  }

  lemma DivScales(d: nat, q: nat, w: nat)
    requires d > 0 && w > 0
    ensures d * w > 0 && (d * q) / (d * w) == q / w && (d * q) % (d * w) == d * (q % w)
  {
    var a, b := q / w, q % w;
    DivMod(q, w);
    Distribute(d, w * a, b);
    Associate(d, w, a);
    StrictlyGrow(d, b, w);
    StrictlyGrow(d, 0, w);
    Grow(d, 0, b);
    DivUnique(d * q, d * w, a, d * b);
  }

  lemma {:induction false} SumScales(d: nat, s: seq<int>, t: seq<int>)
    requires |s| == |t| && forall i :: 0 <= i < |s| ==> t[i] == d * s[i]
    ensures Sum(t) == d * Sum(s)
  {
    if |s| != 0 {
      var n := |s| - 1;
      SumScales(d, s[..n], t[..n]);
      Distribute(d, Sum(s[..n]), s[n]);
    }
  }

  /** `q`, `w` and `tie` in a unit `d` times smaller. */
  ghost predicate Scaled(d: nat, s: seq<int>, t: seq<int>) {
    d > 0 && |s| == |t| && forall i :: 0 <= i < |s| ==> t[i] == d * s[i]
  }

  lemma QuotasScale(d: nat, q: seq<nat>, w: nat, total: nat, r: seq<nat>)
    requires Quotas(q, w, total) && Scaled(d, q, r)
    ensures Quotas(r, d * w, total)
  {
    SumScales(d, q, r);
    Associate(d, w, total);
    StrictlyGrow(d, 0, w);
  }

  lemma KeysScale(d: nat, q: seq<nat>, w: nat, tie: seq<int>, r: seq<nat>, wider: seq<int>)
    requires w > 0 && d * w > 0 && |tie| == |q| && Scaled(d, q, r) && Scaled(d, tie, wider)
    ensures SameComparisons(Keys(q, w, tie), Keys(r, d * w, wider))
  {
    var keys, others := Keys(q, w, tie), Keys(r, d * w, wider);
    forall i, j | 0 <= i < |keys| && 0 <= j < |keys|
      ensures AtLeast(keys[i], keys[j]) <==> AtLeast(others[i], others[j])
    {
      DivScales(d, q[i], w);
      DivScales(d, q[j], w);
      StrictlyGrow(d, q[i] % w, q[j] % w);
      StrictlyGrow(d, tie[i], tie[j]);
    }
  }

  /** Rounding does not depend on the unit of the quotas. */
  lemma RoundedScales(d: nat, q: seq<nat>, w: nat, total: nat, tie: seq<int>, r: seq<nat>, wider: seq<int>)
    requires Quotas(q, w, total) && |tie| == |q| && Scaled(d, q, r) && Scaled(d, tie, wider)
    ensures Quotas(r, d * w, total)
    ensures Rounded(r, d * w, total, wider) == Rounded(q, w, total, tie)
  {
    QuotasScale(d, q, w, total, r);
    forall i | 0 <= i < |q| ensures Wholes(r, d * w)[i] == Wholes(q, w)[i] {
      DivScales(d, q[i], w);
    }
    assert Wholes(r, d * w) == Wholes(q, w);
    KeysScale(d, q, w, tie, r, wider);
    OrderAgrees(Keys(q, w, tie), Keys(r, d * w, wider));
  }
}
