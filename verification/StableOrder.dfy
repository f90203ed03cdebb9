// Python's `sorted(range(n), key=..., reverse=True)`: a stable descending order of
// positions. The plan builder and the minute allocator both rest on it.
module StableOrder {
  /** A two-component sort key, compared lexicographically. */
  datatype Key = Key(major: int, minor: int)

  predicate AtLeast(a: Key, b: Key) {
    a.major > b.major || (a.major == b.major && a.minor >= b.minor)
  }

  /** Position `i` comes strictly before position `j`: larger key first, ties by position. */
  predicate Before(keys: seq<Key>, i: nat, j: nat) {
    && i < |keys| && j < |keys| && i != j
    && AtLeast(keys[i], keys[j])
    && (keys[i] == keys[j] ==> i < j)
  }

  ghost predicate Ordered(keys: seq<Key>, order: seq<nat>) {
    forall a, b :: 0 <= a < b < |order| ==> Before(keys, order[a], order[b])
  }

  /** `order` lists every position of `keys` exactly once, in descending stable order. */
  ghost predicate IsOrder(keys: seq<Key>, order: seq<nat>) {
    && |order| == |keys|
    && (forall a :: 0 <= a < |order| ==> order[a] < |keys|)
    && (forall i: nat :: i < |keys| ==> i in order)
    && Ordered(keys, order)
  }

  /** Insert position `x` after every listed position whose key is at least its own. */
  function Insert(keys: seq<Key>, order: seq<nat>, x: nat): (r: seq<nat>)
    requires x < |keys| && forall a :: 0 <= a < |order| ==> order[a] < x
    ensures |r| == |order| + 1
    ensures forall a :: 0 <= a < |r| ==> r[a] <= x
    ensures forall i :: i in r <==> i in order || i == x
  {
    if |order| == 0 then [x]
    else
      var n := |order| - 1;
      assert order == order[..n] + [order[n]];
      if AtLeast(keys[order[n]], keys[x]) then order + [x]
      else Insert(keys, order[..n], x) + [order[n]]
  }

  function Order(keys: seq<Key>): (r: seq<nat>)
    ensures |r| == |keys|
    ensures forall a :: 0 <= a < |r| ==> r[a] < |keys|
    ensures forall i: nat :: i < |keys| ==> i in r
  {
    if |keys| == 0 then []
    else
      var n := |keys| - 1;
      Insert(keys, Order(keys[..n]), n)
  }

  lemma {:induction false} InsertKeepsOrder(keys: seq<Key>, order: seq<nat>, x: nat)
    requires x < |keys| && forall a :: 0 <= a < |order| ==> order[a] < x
    requires Ordered(keys, order)
    ensures Ordered(keys, Insert(keys, order, x))
  {
    if |order| != 0 {
      var n := |order| - 1;
      if !AtLeast(keys[order[n]], keys[x]) {
        var front := order[..n];
        InsertKeepsOrder(keys, front, x);
        var r := Insert(keys, front, x);
        forall a | 0 <= a < |r| ensures Before(keys, r[a], order[n]) {
          assert r[a] in r;
          if r[a] != x {
            var k :| 0 <= k < |front| && front[k] == r[a];
            assert Before(keys, order[k], order[n]);
          }
        }
      } else {
        forall a | 0 <= a < |order| ensures Before(keys, order[a], x) {
          assert a < n ==> Before(keys, order[a], order[n]);
        }
      }
    }
  }

  /** `Order` really is the stable descending order. */
  lemma {:induction false} OrderIsOrder(keys: seq<Key>)
    ensures IsOrder(keys, Order(keys))
  {
    if |keys| != 0 {
      var n := |keys| - 1;
      var front := keys[..n];
      OrderIsOrder(front);
      var o := Order(front);
      forall a, b | 0 <= a < b < |o| ensures Before(keys, o[a], o[b]) {
        assert Before(front, o[a], o[b]);
      }
      InsertKeepsOrder(keys, o, n);
    }
  }

  /** Sorting a list that is already in descending order moves nothing. */
  lemma {:induction false} OrderOfSorted(keys: seq<Key>)
    requires forall i, j :: 0 <= i < j < |keys| ==> AtLeast(keys[i], keys[j])
    ensures Order(keys) == seq(|keys|, i requires 0 <= i => i)
  {
    if |keys| != 0 {
      var n := |keys| - 1;
      OrderOfSorted(keys[..n]);
    }
  }

  /** A position kept by the cut after `k` entries comes before every position that is not. */
  lemma CutSeparates(keys: seq<Key>, order: seq<nat>, k: nat, i: nat, j: nat)
    requires IsOrder(keys, order) && k <= |order|
    requires i in order[..k] && j < |keys| && j !in order[..k]
    ensures Before(keys, i, j)
  {
    var kept := order[..k];
    var a :| 0 <= a < |kept| && kept[a] == i;
    forall c | 0 <= c < k ensures order[c] in kept {
      assert kept[c] == order[c];
    }
    assert j in order;
    var b :| 0 <= b < |order| && order[b] == j;
    assert Before(keys, order[a], order[b]);
  }

  /** Positions in the order decide both the comparison and the identity of what they list. */
  lemma PositionsDecide(keys: seq<Key>, order: seq<nat>, a: nat, b: nat)
    requires IsOrder(keys, order) && a < |order| && b < |order|
    ensures Before(keys, order[a], order[b]) <==> a < b
    ensures order[a] == order[b] <==> a == b
  {
    if a < b {
      assert Before(keys, order[a], order[b]);
    } else if b < a {
      assert Before(keys, order[b], order[a]);
    }
  }

  /** The keys compare alike. */
  ghost predicate SameComparisons(keys: seq<Key>, others: seq<Key>) {
    && |keys| == |others|
    && forall i, j :: 0 <= i < |keys| && 0 <= j < |keys| ==>
         (AtLeast(keys[i], keys[j]) <==> AtLeast(others[i], others[j]))
  }

  lemma {:induction false} InsertAgrees(keys: seq<Key>, others: seq<Key>, order: seq<nat>, x: nat)
    requires SameComparisons(keys, others) && x < |keys| && forall a :: 0 <= a < |order| ==> order[a] < x
    ensures Insert(keys, order, x) == Insert(others, order, x)
  {
    if |order| != 0 {
      InsertAgrees(keys, others, order[..|order| - 1], x);
    }
  }

  lemma PrefixAgrees(keys: seq<Key>, others: seq<Key>)
    requires SameComparisons(keys, others) && |keys| > 0
    ensures SameComparisons(keys[..|keys| - 1], others[..|keys| - 1])
  {
    var n := |keys| - 1;
    forall i, j | 0 <= i < n && 0 <= j < n
      ensures AtLeast(keys[..n][i], keys[..n][j]) <==> AtLeast(others[..n][i], others[..n][j])
    {
      assert AtLeast(keys[i], keys[j]) <==> AtLeast(others[i], others[j]);
    }
  }

  /** The order depends on nothing but the comparisons. */
  lemma {:induction false} OrderAgrees(keys: seq<Key>, others: seq<Key>)
    requires SameComparisons(keys, others)
    ensures Order(keys) == Order(others)
  {
    if |keys| != 0 {
      var n := |keys| - 1;
      PrefixAgrees(keys, others);
      OrderAgrees(keys[..n], others[..n]);
      InsertAgrees(keys, others, Order(keys[..n]), n);
    }
  }
}
