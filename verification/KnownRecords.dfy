// Which identifiers a violation list knows, read off the history of its changes alone.
module KnownRecords {
  import opened ViolationRecords

  /** One change of a violation list. */
  datatype Change = Unchanged | Consolidated(kind: Kind) | Stored(record: Violation)

  ghost predicate Evolves(a: seq<Violation>, c: Change, b: seq<Violation>) {
    match c
    case Unchanged => b == a
    case Consolidated(k) =>
      exists r :: IsKind(r, k) && r.violationId == CanonicalId(k) && b == ReplaceKind(a, k, r)
    case Stored(v) => v.Record? && FindId(a, v.violationId) == Missing && b == a + [v]
  }

  /** The changes `cs` lead through the lists. */
  ghost predicate History(lists: seq<seq<Violation>>, cs: seq<Change>) {
    && |lists| == |cs| + 1
    && forall m {:trigger cs[m]} :: 0 <= m < |cs| ==> Evolves(lists[m], cs[m], lists[m + 1])
  }

  /** The changes `i .. n - 1` leave a record of type `q` under the identifier. Read backwards: the
      last consolidation of `q` decides by its canonical identifier, unless a record of type `q`
      was stored under the identifier since. */
  predicate Leaves(cs: seq<Change>, i: nat, n: nat, q: Kind, id: string)
    requires n <= |cs|
  {
    i < n
    && match cs[n - 1]
       case Unchanged => Leaves(cs, i, n - 1, q, id)
       case Consolidated(k) => if k == q then CanonicalId(q) == id else Leaves(cs, i, n - 1, q, id)
       case Stored(v) => (IsKind(v, q) && v.violationId == id) || Leaves(cs, i, n - 1, q, id)
  }

  /** They leave one of some type. */
  ghost predicate Known(cs: seq<Change>, i: nat, n: nat, id: string)
    requires n <= |cs|
  {
    exists q :: Leaves(cs, i, n, q, id)
  }

  ghost predicate KindHasId(vs: seq<Violation>, q: Kind, id: string) {
    exists r :: r in vs && IsKind(r, q) && r.violationId == id
  }

  lemma HasIdByKind(vs: seq<Violation>, id: string)
    ensures HasId(vs, id) <==> exists q :: KindHasId(vs, q, id)
  {
    if HasId(vs, id) {
      var r :| r in vs && r.Record? && r.violationId == id;
      assert KindHasId(vs, r.kind, id);
    }
  }

  lemma KindAfterFold(vs: seq<Violation>, k: Kind, canonical: Violation, q: Kind, id: string)
    requires IsKind(canonical, k)
    ensures KindHasId(ReplaceKind(vs, k, canonical), q, id)
       <==> if k == q then canonical.violationId == id else KindHasId(vs, q, id)
  {
    var after := ReplaceKind(vs, k, canonical);
    forall r ensures r in after <==> r == canonical || (r in vs && !IsKind(r, k)) {
      ReplaceKindHolds(vs, k, canonical, r);
    }
    if k == q && canonical.violationId == id {
      assert canonical in after;
    }
  }

  lemma KindAfterAppend(vs: seq<Violation>, v: Violation, q: Kind, id: string)
    ensures KindHasId(vs + [v], q, id) <==> KindHasId(vs, q, id) || (IsKind(v, q) && v.violationId == id)
  {
    assert v in vs + [v];
  }

  lemma KindEvolves(a: seq<Violation>, c: Change, b: seq<Violation>, q: Kind, id: string)
    requires Evolves(a, c, b) && AllRecords(a)
    ensures AllRecords(b)
    ensures KindHasId(b, q, id)
       <==> match c
            case Unchanged => KindHasId(a, q, id)
            case Consolidated(k) => if k == q then CanonicalId(q) == id else KindHasId(a, q, id)
            case Stored(v) => (IsKind(v, q) && v.violationId == id) || KindHasId(a, q, id)
  {
    match c
    case Unchanged =>
    case Consolidated(k) =>
      var r :| IsKind(r, k) && r.violationId == CanonicalId(k) && b == ReplaceKind(a, k, r);
      ReplaceKindIds(a, k, r, id);
      KindAfterFold(a, k, r, q, id);
    case Stored(v) => KindAfterAppend(a, v, q, id);
  }

  lemma {:induction false} LeavesExactly(lists: seq<seq<Violation>>, cs: seq<Change>, i: nat, n: nat, q: Kind, id: string)
    requires History(lists, cs) && i <= n < |lists|
    requires AllRecords(lists[i]) && !HasId(lists[i], id)
    ensures AllRecords(lists[n])
    ensures KindHasId(lists[n], q, id) <==> Leaves(cs, i, n, q, id)
  {
    if i == n {
      HasIdByKind(lists[i], id);
    } else {
      LeavesExactly(lists, cs, i, n - 1, q, id);
      KindEvolves(lists[n - 1], cs[n - 1], lists[n], q, id);
    }
  }

  /** From a list that does not know the identifier, a later list knows it if and only if the
      changes since leave a record under it. */
  lemma KnownExactly(lists: seq<seq<Violation>>, cs: seq<Change>, i: nat, n: nat, id: string)
    requires History(lists, cs) && i <= n < |lists| && FindId(lists[i], id) == Missing
    ensures FindId(lists[n], id) == if Known(cs, i, n, id) then Found else Missing
  {
    FindIdFinds(lists[i], id);
    forall q ensures AllRecords(lists[n]) && (KindHasId(lists[n], q, id) <==> Leaves(cs, i, n, q, id)) {
      LeavesExactly(lists, cs, i, n, q, id);
    }
    HasIdByKind(lists[n], id);
    assert AllRecords(lists[n]) by { LeavesExactly(lists, cs, i, n, TabSwitch, id); }
    FindIdFinds(lists[n], id);
  }

  // ------------------------------------------------- up to the first own consolidation

  /** Change `i` stores `v`, and no change strictly between `i` and `j` consolidates its type. */
  ghost predicate StoredAt(cs: seq<Change>, i: nat, j: nat, v: Violation) {
    && i < j <= |cs| && cs[i] == Stored(v) && v.Record?
    && forall m {:trigger cs[m]} :: i < m < j ==> cs[m] != Consolidated(v.kind)
  }

  lemma {:induction false} KnownUntilConsolidated(cs: seq<Change>, i: nat, j: nat, v: Violation)
    requires StoredAt(cs, i, j, v)
    ensures Leaves(cs, i, j, v.kind, v.violationId)
  {
    if i + 1 < j {
      KnownUntilConsolidated(cs, i, j - 1, v);
      assert cs[j - 1] != Consolidated(v.kind);
    }
  }

  lemma NotStoredAgain(lists: seq<seq<Violation>>, cs: seq<Change>, i: nat, m: nat, v: Violation)
    requires History(lists, cs) && StoredAt(cs, i, m, v) && m < |cs|
    ensures cs[m].Stored? ==> cs[m].record.Record? && cs[m].record.violationId != v.violationId
  {
    if cs[m].Stored? && cs[m].record.violationId == v.violationId {
      assert Evolves(lists[i], cs[i], lists[i + 1]) && Evolves(lists[m], cs[m], lists[m + 1]);
      KnownUntilConsolidated(cs, i, m, v);
      KnownExactly(lists, cs, i, m, v.violationId);
      assert false;
    }
  }

  /** Strictly between `i` and `j` a canonical record of type `q` was left under the identifier. */
  ghost predicate TakenBy(cs: seq<Change>, i: nat, j: nat, q: Kind, id: string)
    requires j <= |cs|
  {
    CanonicalId(q) == id && exists m {:trigger cs[m]} :: i < m < j && cs[m] == Consolidated(q)
  }

  ghost predicate Taken(cs: seq<Change>, i: nat, j: nat, id: string)
    requires j <= |cs|
  {
    exists q :: TakenBy(cs, i, j, q, id)
  }

  lemma {:induction false} OnlyTakenElsewhere(lists: seq<seq<Violation>>, cs: seq<Change>, i: nat, j: nat, v: Violation, q: Kind)
    requires History(lists, cs) && StoredAt(cs, i, j, v) && q != v.kind
    ensures Leaves(cs, i, j, q, v.violationId) <==> TakenBy(cs, i, j, q, v.violationId)
  {
    if i + 1 < j {
      OnlyTakenElsewhere(lists, cs, i, j - 1, v, q);
      NotStoredAgain(lists, cs, i, j - 1, v);
      assert TakenBy(cs, i, j, q, v.violationId)
        <==> TakenBy(cs, i, j - 1, q, v.violationId) || (cs[j - 1] == Consolidated(q) && CanonicalId(q) == v.violationId);
    }
  }

  /** Right after the first consolidation of a stored record's own type, its identifier is known
      if and only if it is the canonical one, or another type's canonical record took it. */
  lemma KnownAfterOwnFold(lists: seq<seq<Violation>>, cs: seq<Change>, i: nat, j: nat, v: Violation)
    requires History(lists, cs) && StoredAt(cs, i, j, v) && j < |cs| && cs[j] == Consolidated(v.kind)
    ensures Known(cs, i, j + 1, v.violationId)
       <==> v.violationId == CanonicalId(v.kind) || Taken(cs, i, j, v.violationId)
  {
    forall q ensures Leaves(cs, i, j + 1, q, v.violationId)
                <==> if q == v.kind then CanonicalId(q) == v.violationId else TakenBy(cs, i, j, q, v.violationId)
    {
      if q != v.kind {
        OnlyTakenElsewhere(lists, cs, i, j, v, q);
      }
    }
    if Known(cs, i, j + 1, v.violationId) {
      var q :| Leaves(cs, i, j + 1, q, v.violationId);
      assert q == v.kind || TakenBy(cs, i, j, q, v.violationId);
    } else {
      assert !Leaves(cs, i, j + 1, v.kind, v.violationId);
      forall q ensures !TakenBy(cs, i, j, q, v.violationId) {
        assert !Leaves(cs, i, j + 1, q, v.violationId);
      }
    }
  }
}
