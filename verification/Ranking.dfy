// Ranking of the evaluated candidates of one assessment, refreshed after each saved evaluation.
module Ranking {
  import opened Prelude
  import opened StableOrder
  import LargestRemainder

  /** One evaluation row; score and time are fixed, the ranking columns are rewritten. */
  class Evaluation {
    const score: int
    const generatedAt: int
    var rank: nat
    var total: nat
    var percentile: int

    constructor (score: int, generatedAt: int)
      ensures this.score == score && this.generatedAt == generatedAt
    {
      this.score, this.generatedAt := score, generatedAt;
      rank, total, percentile := 0, 0, 0;
    }
  }

  /** `overall_score DESC, generated_at ASC`; rows equal in both stay in table order. */
  function RowKeys(rows: seq<Evaluation>): (r: seq<Key>)
    ensures |r| == |rows|
  {
    seq(|rows|, i requires 0 <= i < |rows| => Key(rows[i].score, -rows[i].generatedAt))
  }

  /** `floor((total - rank) / (total - 1) * 100 + 0.5)`, and 100 for a single candidate. */
  function Percentile(total: nat, rank: nat): int {
    if total <= 1 then 100 else (200 * (total - rank) + (total - 1)) / (2 * (total - 1))
  }

  // ------------------------------------------------------------------------- ranks

  /** The row at position `k` of the order is ranked `k + 1`. */
  ghost predicate Ranked(keys: seq<Key>, i: nat, rank: nat) {
    1 <= rank <= |keys| && Order(keys)[rank - 1] == i
  }

  /** A better score, or the same score earlier. */
  predicate Beats(x: Evaluation, y: Evaluation) {
    x.score > y.score || (x.score == y.score && x.generatedAt < y.generatedAt)
  }

  /** Positions of the rows that beat row `i`. */
  ghost function Beating(rows: seq<Evaluation>, i: nat): set<nat>
    requires i < |rows|
  {
    set j: nat | j < |rows| && Beats(rows[j], rows[i])
  }

  /** No other row has the score and time of row `i`. */
  ghost predicate Untied(rows: seq<Evaluation>, i: nat)
    requires i < |rows|
  {
    forall j :: 0 <= j < |rows| && j != i ==> rows[j].score != rows[i].score || rows[j].generatedAt != rows[i].generatedAt
  }

  /** Ranks are 1 to n, one for each row; a row that beats another has the smaller rank; and a row
      without an equal is ranked right after the rows that beat it. */
  method RefreshRanking(rows: seq<Evaluation>)
    requires Distinct(rows)
    modifies rows
    ensures forall i :: 0 <= i < |rows| ==>
              && Ranked(RowKeys(rows), i, rows[i].rank)
              && rows[i].total == |rows| && rows[i].percentile == Percentile(|rows|, rows[i].rank)
    ensures forall i :: 0 <= i < |rows| ==> 1 <= rows[i].rank <= |rows|
    ensures forall i, j :: 0 <= i < j < |rows| ==> rows[i].rank != rows[j].rank
    ensures forall i, j :: 0 <= i < |rows| && 0 <= j < |rows| && Beats(rows[i], rows[j]) ==> rows[i].rank < rows[j].rank
    ensures forall i: nat :: i < |rows| && Untied(rows, i) ==> |Beating(rows, i)| == rows[i].rank - 1
  {
    var keys, total := RowKeys(rows), |rows|;
    var order := Order(keys);
    OrderIsOrder(keys);
    for k := 0 to total
      invariant forall j :: 0 <= j < k ==>
                  var e := rows[order[j]];
                  e.rank == j + 1 && e.total == total && e.percentile == Percentile(total, j + 1)
    {
      var e := rows[order[k]];
      forall j | 0 <= j < k ensures rows[order[j]] != e {
        PositionsDecide(keys, order, j, k);
      }
      e.rank, e.total, e.percentile := k + 1, total, Percentile(total, k + 1);
    }
    forall i: nat | i < total
      ensures Ranked(keys, i, rows[i].rank) && rows[i].total == total
      ensures rows[i].percentile == Percentile(total, rows[i].rank)
    {
      assert i in order;
      var k: nat :| k < total && order[k] == i;
    }
    RanksFollowRows(rows);
  }

  /** What the ranks of the keys say of the rows. */
  lemma RanksFollowRows(rows: seq<Evaluation>)
    requires forall i :: 0 <= i < |rows| ==> Ranked(RowKeys(rows), i, rows[i].rank)
    ensures forall i, j :: 0 <= i < j < |rows| ==> rows[i].rank != rows[j].rank
    ensures forall i, j :: 0 <= i < |rows| && 0 <= j < |rows| && Beats(rows[i], rows[j]) ==> rows[i].rank < rows[j].rank
    ensures forall i: nat :: i < |rows| && Untied(rows, i) ==> |Beating(rows, i)| == rows[i].rank - 1
  {
    forall i: nat, j: nat | i < |rows| && j < |rows| && Beats(rows[i], rows[j]) ensures rows[i].rank < rows[j].rank {
      BetterRanksBefore(rows, i, j);
    }
    forall i: nat | i < |rows| && Untied(rows, i) ensures |Beating(rows, i)| == rows[i].rank - 1 {
      RankAfterTheBetter(rows, i);
    }
  }

  lemma BetterRanksBefore(rows: seq<Evaluation>, i: nat, j: nat)
    requires i < |rows| && j < |rows| && Beats(rows[i], rows[j])
    requires Ranked(RowKeys(rows), i, rows[i].rank) && Ranked(RowKeys(rows), j, rows[j].rank)
    ensures rows[i].rank < rows[j].rank
  {
    var keys := RowKeys(rows);
    OrderIsOrder(keys);
    PositionsDecide(keys, Order(keys), rows[j].rank - 1, rows[i].rank - 1);
  }

  lemma RankAfterTheBetter(rows: seq<Evaluation>, i: nat)
    requires i < |rows| && Untied(rows, i) && Ranked(RowKeys(rows), i, rows[i].rank)
    ensures |Beating(rows, i)| == rows[i].rank - 1
  {
    RankCountsTheBetter(RowKeys(rows), i, rows[i].rank);
    assert Beating(rows, i) == Ahead(RowKeys(rows), i);
  }

  /** Ranks are a bijection onto 1..n: every row has one, no two rows share one, and they follow
      score, then time. */
  lemma RanksAreABijection(keys: seq<Key>, i: nat)
    requires i < |keys|
    ensures exists rank: nat :: Ranked(keys, i, rank)
    ensures forall r: nat, q: nat :: Ranked(keys, i, r) && Ranked(keys, i, q) ==> r == q
    ensures forall j: nat, r: nat, q: nat :: Ranked(keys, i, r) && Ranked(keys, j, q) && r < q ==> AtLeast(keys[i], keys[j])
  {
    OrderIsOrder(keys);
    var order := Order(keys);
    assert i in order;
    var k: nat :| k < |order| && order[k] == i;
    assert Ranked(keys, i, k + 1);
    forall r: nat, q: nat | Ranked(keys, i, r) && Ranked(keys, i, q) ensures r == q {
      PositionsDecide(keys, order, r - 1, q - 1);
    }
    forall j: nat, r: nat, q: nat | Ranked(keys, i, r) && Ranked(keys, j, q) && r < q
      ensures AtLeast(keys[i], keys[j])
    {
      PositionsDecide(keys, order, r - 1, q - 1);
    }
  }

  ghost function Ahead(keys: seq<Key>, i: nat): set<nat> {
    set j: nat | j < |keys| && Before(keys, j, i)
  }

  /** A rank counts the rows that come before: those with a better score, or the same score at an
      earlier time, or both the same and an earlier place in the table. */
  lemma RankCountsTheBetter(keys: seq<Key>, i: nat, rank: nat)
    requires Ranked(keys, i, rank)
    ensures |Ahead(keys, i)| == rank - 1
  {
    OrderIsOrder(keys);
    var order := Order(keys);
    var ahead := order[..rank - 1];
    forall j: nat | j < |keys| ensures j in ahead <==> Before(keys, j, i) {
      assert j in order;
      var a: nat :| a < |order| && order[a] == j;
      PositionsDecide(keys, order, a, rank - 1);
      if a < rank - 1 {
        assert ahead[a] == j;
      } else {
        forall b | 0 <= b < |ahead| ensures ahead[b] != j {
          PositionsDecide(keys, order, a, b);
        }
      }
    }
    forall a, b | 0 <= a < b < |ahead| ensures ahead[a] != ahead[b] {
      PositionsDecide(keys, order, a, b);
    }
    DistinctSize(ahead);
    assert Elements(ahead) == Ahead(keys, i);
  }

  // ------------------------------------------------------------------------ percentiles

  lemma PercentileShape(n: nat, r: nat) returns (remainder: nat)
    requires 1 <= r <= n && n > 1
    ensures var d := 2 * (n - 1);
            d * Percentile(n, r) + remainder == 200 * (n - r) + (n - 1) && remainder < d
  {
    var q := 200 * (n - r) + (n - 1);
    LargestRemainder.DivMod(q, 2 * (n - 1));
    remainder := q % (2 * (n - 1));
  }

  /** Within half a point of the exact percentile `100 * (n - r) / (n - 1)`. */
  lemma PercentileIsRounded(n: nat, r: nat)
    requires 1 <= r <= n && n > 1
    ensures 100 * (n - r) * 2 - (n - 1) <= 2 * (n - 1) * Percentile(n, r) <= 100 * (n - r) * 2 + (n - 1)
    ensures 0 <= Percentile(n, r) <= 100
    ensures Percentile(n, 1) == 100 && Percentile(n, n) == 0 && Percentile(1, 1) == 100
  {
    var m := PercentileShape(n, r);
    var first := PercentileShape(n, 1);
    var last := PercentileShape(n, n);
    Quotient(2 * (n - 1), Percentile(n, 1), 100, first);
    Quotient(2 * (n - 1), Percentile(n, n), 0, last);
    Bounds(2 * (n - 1), Percentile(n, r), m, 200 * (n - r) + (n - 1));
  }

  /** Division determines its quotient when the dividend is `d * x` plus half of `d`. */
  lemma Quotient(d: nat, p: int, x: int, remainder: nat)
    requires d > 0 && remainder < d && 2 * (d * p + remainder) == 2 * (d * x) + d
    ensures p == x
  {
    LargestRemainder.Distribute(d, p, -x);
    LargestRemainder.Distribute(d, p - x, 1);
    LargestRemainder.Distribute(d, x - p, 1);
    LargestRemainder.Sign(d, p - x + 1);
    LargestRemainder.Sign(d, x - p + 1);
  }

  lemma Bounds(d: nat, p: int, remainder: nat, q: int)
    requires d > 0 && remainder < d && d * p + remainder == q && 0 <= q < 101 * d
    ensures 0 <= p <= 100
  {
    LargestRemainder.Distribute(d, p, 1);
    LargestRemainder.Sign(d, p + 1);
    LargestRemainder.Distribute(d, 101, -p);
    LargestRemainder.Sign(d, 101 - p);
  }

  /** A better rank never has a lower percentile, and up to 101 candidates no two share one. */
  lemma PercentilesDescend(n: nat, r: nat, s: nat)
    requires 1 <= r < s <= n
    ensures Percentile(n, r) >= Percentile(n, s)
    ensures n <= 101 ==> Percentile(n, r) > Percentile(n, s)
  {
    var d, p, q := 2 * (n - 1), Percentile(n, r), Percentile(n, s);
    var a := PercentileShape(n, r);
    var b := PercentileShape(n, s);
    LargestRemainder.Distribute(d, p, -q);
    LargestRemainder.Distribute(d, p - q, 1);
    LargestRemainder.Sign(d, p - q + 1);
    if n <= 101 {
      assert d * (p - q) == 200 * (s - r) - a + b;
      LargestRemainder.Sign(d, p - q);
    }
  }

  /** Mirrored ranks have percentiles adding up to 100, or to 101 when both were rounded up. */
  lemma MirroredPercentiles(n: nat, r: nat)
    requires 1 <= r <= n && n > 1
    ensures 100 <= Percentile(n, r) + Percentile(n, n + 1 - r) <= 101
  {
    var d, p, q := 2 * (n - 1), Percentile(n, r), Percentile(n, n + 1 - r);
    var a := PercentileShape(n, r);
    var b := PercentileShape(n, n + 1 - r);
    LargestRemainder.Distribute(d, p, q);
    LargestRemainder.Distribute(d, p + q, -99);
    LargestRemainder.Distribute(d, 102, -(p + q));
    LargestRemainder.Sign(d, p + q - 99);
    LargestRemainder.Sign(d, 102 - (p + q));
  }
}
