// What enrolment guarantees over any history of requests.
module EnrollmentLaws {
  import opened Prelude
  import opened Enrollment

  ghost predicate UniqueCandidates(cs: seq<Candidate>) {
    forall i, j :: 0 <= i < j < |cs| ==> cs[i].id != cs[j].id && cs[i].email != cs[j].email
  }

  /** Two enrolments may coexist: different ids, not the same candidate in the same assessment, and
      no overlap while the same candidate has finished neither. */
  predicate Compatible(s: Setting, x: Enrolled, y: Enrolled) {
    && x.assessment in s.assessments && y.assessment in s.assessments
    && x.id != y.id
    && (x.candidate == y.candidate ==>
          && x.assessment != y.assessment
          && !(&& Unfinished(x.status) && Unfinished(y.status)
               && Overlap(s.assessments[x.assessment], s.assessments[y.assessment])))
  }

  ghost predicate PairwiseCompatible(s: Setting, es: seq<Enrolled>) {
    forall i, j :: 0 <= i < j < |es| ==> Compatible(s, es[i], es[j])
  }

  ghost predicate HasCandidate(cs: seq<Candidate>, id: nat) {
    exists i :: 0 <= i < |cs| && cs[i].id == id
  }

  ghost predicate WellReferenced(s: Setting, book: Book, e: Enrolled) {
    e.id < book.nextId && e.assessment in s.assessments && HasCandidate(book.candidates, e.candidate)
  }

  /** The tables are consistent: identifiers, emails and (candidate, assessment) pairs are unique,
      references resolve, and each candidate's unfinished windows are pairwise disjoint. */
  ghost predicate Consistent(s: Setting, book: Book) {
    && UniqueCandidates(book.candidates)
    && (forall i :: 0 <= i < |book.candidates| ==> book.candidates[i].id < book.nextId)
    && (forall i :: 0 <= i < |book.enrollments| ==> WellReferenced(s, book, book.enrollments[i]))
    && PairwiseCompatible(s, book.enrollments)
  }

  /** No candidate is left without an enrolment. */
  ghost predicate NoOrphans(book: Book) {
    forall i :: 0 <= i < |book.candidates| ==> HasEnrollment(book.enrollments, book.candidates[i].id)
  }

  ghost predicate Sound(s: Setting, book: Book) { Consistent(s, book) && NoOrphans(book) }

  // ------------------------------------------------------------------- table updates

  lemma HasCandidateInPrefix(cs: seq<Candidate>, c: Candidate, id: nat)
    requires HasCandidate(cs, id)
    ensures HasCandidate(cs + [c], id)
  {
    var i :| 0 <= i < |cs| && cs[i].id == id;
    assert (cs + [c])[i].id == id;
  }

  lemma NewCandidateKeeps(s: Setting, book: Book, name: string, email: string, recruiter: nat)
    requires Consistent(s, book) && Find(book.candidates, Email(s.normalize(email))).None?
    ensures Consistent(s, NewCandidate(s, book, name, email, recruiter))
    ensures HasCandidate(NewCandidate(s, book, name, email, recruiter).candidates, book.nextId)
  {
    var after := NewCandidate(s, book, name, email, recruiter);
    var c := after.candidates[|book.candidates|];
    assert after.candidates == book.candidates + [c];
    forall i | 0 <= i < |book.enrollments| ensures WellReferenced(s, after, after.enrollments[i]) {
      assert WellReferenced(s, book, book.enrollments[i]);
      HasCandidateInPrefix(book.candidates, c, book.enrollments[i].candidate);
    }
  }

  /** An admitted enrolment is compatible with all others. */
  lemma AdmitKeeps(s: Setting, book: Book, candidate: nat, assessment: nat)
    requires Consistent(s, book) && assessment in s.assessments
    requires HasCandidate(book.candidates, candidate) && !IsEnrolled(book, candidate, assessment)
    ensures Admit(s, book, candidate, assessment).Ok? ==> Consistent(s, Admit(s, book, candidate, assessment).book)
  {
  }

  lemma HasEnrollmentInPrefix(es: seq<Enrolled>, e: Enrolled, id: nat)
    requires HasEnrollment(es, id) || e.candidate == id
    ensures HasEnrollment(es + [e], id)
  {
    if HasEnrollment(es, id) {
      var i :| 0 <= i < |es| && es[i].candidate == id;
      assert (es + [e])[i].candidate == id;
    } else {
      assert (es + [e])[|es|].candidate == id;
    }
  }

  /** A candidate without enrolments is never in conflict. */
  lemma NewcomerHasNoConflict(s: Setting, book: Book, candidate: nat, target: Assessment)
    requires !HasEnrollment(book.enrollments, candidate)
    ensures !HasConflict(s, book, candidate, target)
  {
  }

  lemma IdsAreOld(s: Setting, book: Book)
    requires Consistent(s, book)
    ensures !HasEnrollment(book.enrollments, book.nextId)
  {
  }

  lemma {:induction false} WithoutCandidateShape(cs: seq<Candidate>, id: nat)
    requires UniqueCandidates(cs)
    ensures UniqueCandidates(WithoutCandidate(cs, id))
    ensures forall c :: c in WithoutCandidate(cs, id) <==> c in cs && c.id != id
  {
    if |cs| != 0 {
      var n := |cs| - 1;
      var front := WithoutCandidate(cs[..n], id);
      WithoutCandidateShape(cs[..n], id);
      assert cs == cs[..n] + [cs[n]];
      forall k | 0 <= k < |front| ensures front[k].id != cs[n].id && front[k].email != cs[n].email {
        assert front[k] in cs[..n];
        var i :| 0 <= i < n && cs[i] == front[k];
      }
    }
  }

  lemma {:induction false} WithoutEnrollmentShape(s: Setting, es: seq<Enrolled>, id: nat)
    requires PairwiseCompatible(s, es)
    ensures forall e :: e in WithoutEnrollment(es, id) <==> e in es && e.id != id
    ensures PairwiseCompatible(s, WithoutEnrollment(es, id))
  {
    if |es| != 0 {
      var n := |es| - 1;
      var front := WithoutEnrollment(es[..n], id);
      WithoutEnrollmentShape(s, es[..n], id);
      assert es == es[..n] + [es[n]];
      forall k | 0 <= k < |front| ensures Compatible(s, front[k], es[n]) {
        assert front[k] in es[..n];
        var i :| 0 <= i < n && es[i] == front[k];
        assert Compatible(s, es[i], es[n]);
      }
    }
  }

  /** Removing a candidate nobody's enrolment refers to. */
  lemma RemoveCandidateKeeps(s: Setting, book: Book, id: nat)
    requires Consistent(s, book) && !HasEnrollment(book.enrollments, id)
    ensures var after := book.(candidates := WithoutCandidate(book.candidates, id));
            && Consistent(s, after)
            && (NoOrphans(book) ==> NoOrphans(after))
  {
    var after := book.(candidates := WithoutCandidate(book.candidates, id));
    WithoutCandidateShape(book.candidates, id);
    forall i | 0 <= i < |book.enrollments| ensures WellReferenced(s, after, book.enrollments[i]) {
      var e := book.enrollments[i];
      assert WellReferenced(s, book, e);
      var k :| 0 <= k < |book.candidates| && book.candidates[k].id == e.candidate;
      assert book.candidates[k] in after.candidates;
    }
    forall i | 0 <= i < |after.candidates|
      ensures after.candidates[i].id < after.nextId
      ensures NoOrphans(book) ==> HasEnrollment(book.enrollments, after.candidates[i].id)
    {
      assert after.candidates[i] in book.candidates;
    }
  }

  // -------------------------------------------------------------------------- requests

  lemma CreateKeeps(s: Setting, book: Book, recruiter: nat, name: string, email: string, assessment: nat)
    requires Consistent(s, book)
    ensures var r := CreateSingle(s, book, recruiter, name, email, assessment);
            r.Ok? ==> Consistent(s, r.book) && (NoOrphans(book) ==> NoOrphans(r.book))
  {
    var r := CreateSingle(s, book, recruiter, name, email, assessment);
    if r.Ok? {
      var existing := Find(book.candidates, Email(s.normalize(email)));
      var cleared := if existing.Some? then book.(candidates := WithoutCandidate(book.candidates, existing.value.id)) else book;
      if existing.Some? {
        RemoveCandidateKeeps(s, book, existing.value.id);
        EmailIsFree(book.candidates, existing.value);
      }
      IdsAreOld(s, cleared);
      NewCandidateKeeps(s, cleared, name, email, recruiter);
      var ready := NewCandidate(s, cleared, name, email, recruiter);
      AdmitKeeps(s, ready, book.nextId, assessment);
      AdmissionLeavesNoOrphan(cleared, ready, r.book, book.nextId);
    }
  }

  lemma EmailIsFree(cs: seq<Candidate>, c: Candidate)
    requires UniqueCandidates(cs) && c in cs
    ensures Find(WithoutCandidate(cs, c.id), Email(c.email)).None?
  {
    WithoutCandidateShape(cs, c.id);
    var left := WithoutCandidate(cs, c.id);
    var i :| 0 <= i < |cs| && cs[i] == c;
    forall k | 0 <= k < |left| ensures left[k].email != c.email {
      assert left[k] in left;
      var j :| 0 <= j < |cs| && cs[j] == left[k];
      assert i != j;
    }
  }

  /** Adding a candidate together with an enrolment of it, or only an enrolment, orphans nobody. */
  lemma AdmissionLeavesNoOrphan(before: Book, ready: Book, after: Book, candidate: nat)
    requires |ready.candidates| >= |before.candidates|
    requires forall i :: 0 <= i < |before.candidates| ==> ready.candidates[i].id == before.candidates[i].id
    requires forall i :: |before.candidates| <= i < |ready.candidates| ==> ready.candidates[i].id == candidate
    requires ready.enrollments == before.enrollments && after.candidates == ready.candidates
    requires exists e: Enrolled :: e.candidate == candidate && after.enrollments == ready.enrollments + [e]
    ensures NoOrphans(before) ==> NoOrphans(after)
  {
    var e: Enrolled :| e.candidate == candidate && after.enrollments == ready.enrollments + [e];
    if NoOrphans(before) {
      forall i | 0 <= i < |after.candidates| ensures HasEnrollment(after.enrollments, after.candidates[i].id) {
        if i < |before.candidates| {
          assert HasEnrollment(before.enrollments, before.candidates[i].id);
        }
        HasEnrollmentInPrefix(before.enrollments, e, after.candidates[i].id);
      }
    }
  }

  lemma EnrollKeeps(s: Setting, book: Book, recruiter: nat, candidate: nat, assessment: nat)
    requires Consistent(s, book)
    ensures var r := Enroll(s, book, recruiter, candidate, assessment);
            r.Ok? ==> Consistent(s, r.book) && (NoOrphans(book) ==> NoOrphans(r.book))
  {
    var r := Enroll(s, book, recruiter, candidate, assessment);
    if r.Ok? {
      AdmitKeeps(s, book, candidate, assessment);
      AdmissionLeavesNoOrphan(book, book, r.book, candidate);
    }
  }

  lemma RemoveEnrollmentKeeps(s: Setting, book: Book, e: Enrolled)
    requires Consistent(s, book)
    ensures Consistent(s, book.(enrollments := WithoutEnrollment(book.enrollments, e.id)))
  {
    WithoutEnrollmentShape(s, book.enrollments, e.id);
    var left := WithoutEnrollment(book.enrollments, e.id);
    var mid := book.(enrollments := left);
    forall i | 0 <= i < |left| ensures WellReferenced(s, mid, left[i]) {
      assert left[i] in left;
      var k :| 0 <= k < |book.enrollments| && book.enrollments[k] == left[i];
      assert WellReferenced(s, book, book.enrollments[k]);
    }
  }

  lemma DeleteOrphansNobody(s: Setting, book: Book, recruiter: nat, e: Enrolled)
    requires Consistent(s, book) && NoOrphans(book) && Delete(s, book, recruiter, e).Ok?
    ensures NoOrphans(Delete(s, book, recruiter, e).book)
  {
    var left := WithoutEnrollment(book.enrollments, e.id);
    var after := Delete(s, book, recruiter, e).book;
    WithoutCandidateShape(book.candidates, e.candidate);
    forall i | 0 <= i < |after.candidates| ensures HasEnrollment(left, after.candidates[i].id) {
      var c := after.candidates[i];
      assert c in after.candidates;
      var k :| 0 <= k < |book.candidates| && book.candidates[k] == c;
      assert HasEnrollment(book.enrollments, book.candidates[k].id);
      if c.id != e.candidate {
        OthersStay(s, book, e, c.id);
      }
    }
  }

  lemma DeleteKeeps(s: Setting, book: Book, recruiter: nat, e: Enrolled)
    requires Consistent(s, book)
    ensures var r := Delete(s, book, recruiter, e);
            r.Ok? ==> Consistent(s, r.book) && (NoOrphans(book) ==> NoOrphans(r.book))
  {
    if Delete(s, book, recruiter, e).Ok? {
      RemoveEnrollmentKeeps(s, book, e);
      var left := WithoutEnrollment(book.enrollments, e.id);
      if !HasEnrollment(left, e.candidate) {
        RemoveCandidateKeeps(s, book.(enrollments := left), e.candidate);
      }
      if NoOrphans(book) {
        DeleteOrphansNobody(s, book, recruiter, e);
      }
    }
  }

  lemma OthersStay(s: Setting, book: Book, e: Enrolled, id: nat)
    requires Consistent(s, book) && e in book.enrollments && id != e.candidate
    requires HasEnrollment(book.enrollments, id)
    ensures HasEnrollment(WithoutEnrollment(book.enrollments, e.id), id)
  {
    var es := book.enrollments;
    WithoutEnrollmentShape(s, es, e.id);
    var i :| 0 <= i < |es| && es[i].candidate == id;
    var j :| 0 <= j < |es| && es[j] == e;
    assert if i < j then Compatible(s, es[i], es[j]) else Compatible(s, es[j], es[i]);
    assert es[i] in WithoutEnrollment(es, e.id);
  }

  /** A status move leaves the tables consistent exactly if it leaves the enrolment finished or no
      other unfinished enrolment of the candidate overlaps it. */
  lemma MoveKeepsExactly(s: Setting, book: Book, i: nat, status: Status)
    requires Consistent(s, book) && i < |book.enrollments|
    ensures book.enrollments[i].assessment in s.assessments
    ensures Consistent(s, Move(book, i, status))
            <==> Unfinished(status) ==>
                   var es, e := book.enrollments, book.enrollments[i];
                   forall j :: 0 <= j < |es| && j != i ==> !Blocks(s, es[j], e.candidate, s.assessments[e.assessment])
  {
    var es, after := book.enrollments, Move(book, i, status);
    assert WellReferenced(s, book, es[i]);
    if Consistent(s, after) && Unfinished(status) {
      forall j | 0 <= j < |es| && j != i ensures !Blocks(s, es[j], es[i].candidate, s.assessments[es[i].assessment]) {
        assert after.enrollments[j] == es[j];
        assert if i < j then Compatible(s, after.enrollments[i], after.enrollments[j])
               else Compatible(s, after.enrollments[j], after.enrollments[i]);
      }
    }
    if Unfinished(status) ==> forall j :: 0 <= j < |es| && j != i ==>
                                !Blocks(s, es[j], es[i].candidate, s.assessments[es[i].assessment]) {
      forall j | 0 <= j < |es| ensures WellReferenced(s, after, after.enrollments[j]) {
        assert WellReferenced(s, book, es[j]);
      }
      forall j, k | 0 <= j < k < |es| ensures Compatible(s, after.enrollments[j], after.enrollments[k]) {
        assert Compatible(s, es[j], es[k]);
      }
    }
  }

  /** The move reopens no finished enrolment, or at least into no overlap. */
  ghost predicate Harmless(s: Setting, book: Book, i: nat, status: Status)
    requires i < |book.enrollments|
  {
    var es, e := book.enrollments, book.enrollments[i];
    Unfinished(status) && !Unfinished(e.status) && e.assessment in s.assessments ==>
      forall j :: 0 <= j < |es| && j != i ==> !Blocks(s, es[j], e.candidate, s.assessments[e.assessment])
  }

  lemma MoveOrphansNobody(book: Book, i: nat, status: Status)
    requires i < |book.enrollments| && NoOrphans(book)
    ensures NoOrphans(Move(book, i, status))
  {
    var es, after := book.enrollments, Move(book, i, status);
    forall k | 0 <= k < |book.candidates| ensures HasEnrollment(after.enrollments, book.candidates[k].id) {
      assert HasEnrollment(es, book.candidates[k].id);
      var j :| 0 <= j < |es| && es[j].candidate == book.candidates[k].id;
      assert after.enrollments[j].candidate == book.candidates[k].id;
    }
  }

  /** On sound tables a move leaves them sound if and only if it is harmless. */
  lemma MoveIsSoundExactly(s: Setting, book: Book, i: nat, status: Status)
    requires Sound(s, book) && i < |book.enrollments|
    ensures Sound(s, Move(book, i, status)) <==> Harmless(s, book, i, status)
  {
    var es := book.enrollments;
    MoveKeepsExactly(s, book, i, status);
    MoveOrphansNobody(book, i, status);
    if Unfinished(es[i].status) {
      forall j | 0 <= j < |es| && j != i ensures !Blocks(s, es[j], es[i].candidate, s.assessments[es[i].assessment]) {
        assert if i < j then Compatible(s, es[i], es[j]) else Compatible(s, es[j], es[i]);
      }
    }
  }

  lemma RenameKeeps(s: Setting, book: Book, id: nat, name: string)
    requires Consistent(s, book)
    ensures var after := book.(candidates := Renamed(book.candidates, id, name));
            && Consistent(s, after)
            && (NoOrphans(book) ==> NoOrphans(after))
            && (HasCandidate(book.candidates, id) ==> HasCandidate(after.candidates, id))
  {
  }

  lemma BulkRowKeeps(s: Setting, book: Book, recruiter: nat, assessment: nat, row: Row)
    requires Consistent(s, book) && assessment in s.assessments
    ensures var after := BulkRow(s, book, recruiter, assessment, row).book;
            Consistent(s, after) && (NoOrphans(book) ==> NoOrphans(after))
  {
    var o := BulkRow(s, book, recruiter, assessment, row);
    var existing := Find(book.candidates, Email(s.normalize(row.email)));
    if o.book != book {
      if existing.Some? {
        var id := existing.value.id;
        var ready := book.(candidates := Renamed(book.candidates, id, row.name));
        RenameKeeps(s, book, id, row.name);
        AdmitKeeps(s, ready, id, assessment);
        if o.success {
          AdmissionLeavesNoOrphan(ready, ready, o.book, id);
        }
      } else {
        var ready := NewCandidate(s, book, row.name, row.email, recruiter);
        IdsAreOld(s, book);
        NewcomerHasNoConflict(s, ready, book.nextId, s.assessments[assessment]);
        NewCandidateKeeps(s, book, row.name, row.email, recruiter);
        AdmitKeeps(s, ready, book.nextId, assessment);
        AdmissionLeavesNoOrphan(book, ready, o.book, book.nextId);
      }
    }
  }

  lemma {:induction false} BulkKeeps(s: Setting, book: Book, recruiter: nat, assessment: nat, rows: seq<Row>)
    requires Consistent(s, book) && assessment in s.assessments
    ensures var after := BulkRows(s, book, recruiter, assessment, rows).book;
            Consistent(s, after) && (NoOrphans(book) ==> NoOrphans(after))
  {
    if |rows| != 0 {
      var n := |rows| - 1;
      BulkKeeps(s, book, recruiter, assessment, rows[..n]);
      BulkRowKeeps(s, BulkRows(s, book, recruiter, assessment, rows[..n]).book, recruiter, assessment, rows[n]);
    }
  }

  // ------------------------------------------------------------------ whole histories

  datatype Request =
    | CreateRequest(recruiter: nat, name: string, email: string, assessment: nat)
    | EnrollRequest(recruiter: nat, candidate: nat, assessment: nat)
    | DeleteRequest(recruiter: nat, enrolled: Enrolled)
    | BulkRequest(recruiter: nat, assessment: nat, rows: seq<Row>)
    | MoveRequest(position: nat, status: Status)

  function Kept(book: Book, r: Result): Book { if r.Ok? then r.book else book }

  /** The tables after a request. */
  function Handle(s: Setting, book: Book, request: Request): Book {
    match request
    case CreateRequest(recruiter, name, email, assessment) =>
      Kept(book, CreateSingle(s, book, recruiter, name, email, assessment))
    case EnrollRequest(recruiter, candidate, assessment) => Kept(book, Enroll(s, book, recruiter, candidate, assessment))
    case DeleteRequest(recruiter, e) => Kept(book, Delete(s, book, recruiter, e))
    case BulkRequest(recruiter, assessment, rows) =>
      if assessment !in s.assessments || s.assessments[assessment].recruiter != recruiter || rows == [] then book
      else BulkRows(s, book, recruiter, assessment, rows).book
    case MoveRequest(i, status) => if i < |book.enrollments| then Move(book, i, status) else book
  }

  /** The request is anything but a status move that reopens an enrolment into an overlap. */
  ghost predicate Orderly(s: Setting, book: Book, request: Request) {
    request.MoveRequest? && request.position < |book.enrollments| ==>
      Harmless(s, book, request.position, request.status)
  }

  function Replay(s: Setting, requests: seq<Request>): Book {
    if |requests| == 0 then Book([], [], 0)
    else Handle(s, Replay(s, requests[..|requests| - 1]), requests[|requests| - 1])
  }

  /** On sound tables a request leaves them sound if and only if it is orderly. */
  lemma HandleIsSoundExactly(s: Setting, book: Book, request: Request)
    requires Sound(s, book)
    ensures Sound(s, Handle(s, book, request)) <==> Orderly(s, book, request)
  {
    match request
    case CreateRequest(recruiter, name, email, assessment) => CreateKeeps(s, book, recruiter, name, email, assessment);
    case EnrollRequest(recruiter, candidate, assessment) => EnrollKeeps(s, book, recruiter, candidate, assessment);
    case DeleteRequest(recruiter, e) => DeleteKeeps(s, book, recruiter, e);
    case BulkRequest(recruiter, assessment, rows) =>
      if assessment in s.assessments { BulkKeeps(s, book, recruiter, assessment, rows); }
    case MoveRequest(i, status) =>
      if i < |book.enrollments| { MoveIsSoundExactly(s, book, i, status); }
  }

  /** After any history of orderly requests: unique emails and (candidate, assessment) pairs,
      pairwise disjoint unfinished windows for each candidate, and no candidate without an
      enrolment. */
  lemma {:induction false} HistoriesAreSound(s: Setting, requests: seq<Request>)
    requires forall n :: 0 <= n < |requests| ==> Orderly(s, Replay(s, requests[..n]), requests[n])
    ensures Sound(s, Replay(s, requests))
  {
    if |requests| != 0 {
      var n := |requests| - 1;
      var front := requests[..n];
      forall m | 0 <= m < n ensures Orderly(s, Replay(s, front[..m]), front[m]) {
        assert front[..m] == requests[..m] && front[m] == requests[m];
      }
      HistoriesAreSound(s, front);
      HandleIsSoundExactly(s, Replay(s, front), requests[n]);
    }
  }

  lemma ReplayNext(s: Setting, requests: seq<Request>, request: Request)
    ensures Replay(s, requests + [request]) == Handle(s, Replay(s, requests), request)
  {
    assert (requests + [request])[..|requests|] == requests;
  }

  /** Two assessments of one recruiter whose windows overlap. */
  const TWO_WINDOWS := Setting(map[0 := Assessment(0, 0, 10), 1 := Assessment(0, 5, 15)], (email: string) => email)

  lemma FirstEnrolment()
    ensures Replay(TWO_WINDOWS, [CreateRequest(0, "A", "a", 0)])
         == Book([Candidate(0, "a", "A", 0)], [Enrolled(1, 0, 0, Invited)], 2)
  {
    ReplayNext(TWO_WINDOWS, [], CreateRequest(0, "A", "a", 0));
    assert [] + [CreateRequest(0, "A", "a", 0)] == [CreateRequest(0, "A", "a", 0)];
  }

  lemma FirstCompletion()
    ensures Replay(TWO_WINDOWS, [CreateRequest(0, "A", "a", 0), MoveRequest(0, Completed)])
         == Book([Candidate(0, "a", "A", 0)], [Enrolled(1, 0, 0, Completed)], 2)
  {
    FirstEnrolment();
    ReplayNext(TWO_WINDOWS, [CreateRequest(0, "A", "a", 0)], MoveRequest(0, Completed));
    assert [CreateRequest(0, "A", "a", 0)] + [MoveRequest(0, Completed)]
        == [CreateRequest(0, "A", "a", 0), MoveRequest(0, Completed)];
  }

  lemma SecondEnrolment()
    ensures Handle(TWO_WINDOWS, Book([Candidate(0, "a", "A", 0)], [Enrolled(1, 0, 0, Completed)], 2), EnrollRequest(0, 0, 1))
         == Book([Candidate(0, "a", "A", 0)], [Enrolled(1, 0, 0, Completed), Enrolled(2, 0, 1, Invited)], 3)
  {
    var book := Book([Candidate(0, "a", "A", 0)], [Enrolled(1, 0, 0, Completed)], 2);
    assert Matches(book.candidates[0], Id(0));
    assert !HasConflict(TWO_WINDOWS, book, 0, TWO_WINDOWS.assessments[1]);
  }

  lemma ReopenedOverlaps()
    ensures var book := Book([Candidate(0, "a", "A", 0)], [Enrolled(1, 0, 0, Completed), Enrolled(2, 0, 1, Invited)], 3);
            !Consistent(TWO_WINDOWS, Move(book, 0, InProgress))
  {
    var book := Book([Candidate(0, "a", "A", 0)], [Enrolled(1, 0, 0, Completed), Enrolled(2, 0, 1, Invited)], 3);
    var after := Move(book, 0, InProgress);
    assert !Compatible(TWO_WINDOWS, after.enrollments[0], after.enrollments[1]);
  }

  lemma EnrolledTwice()
    ensures Replay(TWO_WINDOWS, [CreateRequest(0, "A", "a", 0), MoveRequest(0, Completed), EnrollRequest(0, 0, 1)])
         == Book([Candidate(0, "a", "A", 0)], [Enrolled(1, 0, 0, Completed), Enrolled(2, 0, 1, Invited)], 3)
  {
    var completed, enroll := [CreateRequest(0, "A", "a", 0), MoveRequest(0, Completed)], EnrollRequest(0, 0, 1);
    FirstCompletion();
    ReplayNext(TWO_WINDOWS, completed, enroll);
    assert completed + [enroll] == [CreateRequest(0, "A", "a", 0), MoveRequest(0, Completed), enroll];
    SecondEnrolment();
  }

  /** So the engine's unguarded write that puts a completed enrolment back in progress can break
      the rule. The history: a candidate is created for one interview, finishes it, and is enrolled
      in an overlapping one. */
  lemma ReopeningCanOverlap()
    ensures var book := Replay(TWO_WINDOWS,
                               [CreateRequest(0, "A", "a", 0), MoveRequest(0, Completed), EnrollRequest(0, 0, 1)]);
            && |book.enrollments| == 2 && book.enrollments[0].status == Completed
            && Consistent(TWO_WINDOWS, book) && !Consistent(TWO_WINDOWS, Move(book, 0, InProgress))
  {
    HistoriesAreSound(TWO_WINDOWS, [CreateRequest(0, "A", "a", 0), MoveRequest(0, Completed), EnrollRequest(0, 0, 1)]);
    EnrolledTwice();
    ReopenedOverlaps();
  }

  // ------------------------------------------------------------------------ bulk upload

  lemma {:induction false} BulkLabels(s: Setting, book: Book, recruiter: nat, assessment: nat, rows: seq<Row>, k: nat)
    requires assessment in s.assessments && k < |rows|
    ensures var r := BulkRows(s, book, recruiter, assessment, rows).results[k];
            r.row == k + 1 && r.email == ReportedEmail(rows[k])
  {
    var n := |rows| - 1;
    if k < n {
      BulkLabels(s, book, recruiter, assessment, rows[..n], k);
    }
  }

  lemma RowGrowth(s: Setting, book: Book, recruiter: nat, assessment: nat, row: Row)
    requires assessment in s.assessments
    ensures var o := BulkRow(s, book, recruiter, assessment, row);
            |o.book.enrollments| == |book.enrollments| + (if o.success then 1 else 0)
  {
  }

  lemma {:induction false} BulkGrowth(s: Setting, book: Book, recruiter: nat, assessment: nat, rows: seq<Row>)
    requires assessment in s.assessments
    ensures var u := BulkRows(s, book, recruiter, assessment, rows);
            |u.book.enrollments| == |book.enrollments| + u.successes
  {
    if |rows| != 0 {
      var n := |rows| - 1;
      var before := BulkRows(s, book, recruiter, assessment, rows[..n]);
      BulkGrowth(s, book, recruiter, assessment, rows[..n]);
      RowGrowth(s, before.book, recruiter, assessment, rows[n]);
    }
  }

  /** One result per row, in order, under the row's own email; the enrolments grow by exactly the
      successes. */
  lemma BulkAccounts(s: Setting, book: Book, recruiter: nat, assessment: nat, rows: seq<Row>)
    requires assessment in s.assessments
    ensures var u := BulkRows(s, book, recruiter, assessment, rows);
            && |u.results| == |rows|
            && (forall k :: 0 <= k < |rows| ==>
                  && u.results[k].row == k + 1
                  && u.results[k].email == if rows[k].email != "" then rows[k].email else "(empty)")
            && |u.book.enrollments| == |book.enrollments| + |Successful(u.results)|
  {
    BulkGrowth(s, book, recruiter, assessment, rows);
    SuccessesAreCounted(s, book, recruiter, assessment, rows);
    forall k | 0 <= k < |rows|
      ensures var r := BulkRows(s, book, recruiter, assessment, rows).results[k];
              r.row == k + 1 && r.email == if rows[k].email != "" then rows[k].email else "(empty)"
    {
      BulkLabels(s, book, recruiter, assessment, rows, k);
    }
  }

  /** The email belongs to a candidate already in the assessment. */
  ghost predicate Registered(book: Book, email: string, assessment: nat) {
    var c := Find(book.candidates, Email(email));
    c.Some? && IsEnrolled(book, c.value.id, assessment)
  }

  lemma FindInPrefix(cs: seq<Candidate>, c: Candidate, key: Lookup)
    ensures var before := Find(cs, key);
            Find(cs + [c], key) == if before.Some? then before else if Matches(c, key) then Some(c) else None
  {
    assert (cs + [c])[..|cs|] == cs;
  }

  lemma {:induction false} FindRenamed(cs: seq<Candidate>, id: nat, name: string, key: Lookup)
    ensures var a, b := Find(cs, key), Find(Renamed(cs, id, name), key);
            (a.Some? <==> b.Some?) && (a.Some? ==> a.value.id == b.value.id)
  {
    if |cs| != 0 {
      var n := |cs| - 1;
      FindRenamed(cs[..n], id, name, key);
      assert Renamed(cs, id, name)[..n] == Renamed(cs[..n], id, name);
    }
  }

  lemma EnrolledInPrefix(book: Book, e: Enrolled, candidate: nat, assessment: nat)
    requires IsEnrolled(book, candidate, assessment) || (e.candidate == candidate && e.assessment == assessment)
    ensures forall after: Book :: after.enrollments == book.enrollments + [e] ==> IsEnrolled(after, candidate, assessment)
  {
    var es := book.enrollments + [e];
    if IsEnrolled(book, candidate, assessment) {
      var i :| 0 <= i < |book.enrollments| && book.enrollments[i].candidate == candidate
               && book.enrollments[i].assessment == assessment;
      assert es[i] == book.enrollments[i];
    } else {
      assert es[|book.enrollments|] == e;
    }
  }

  lemma RowRegisters(s: Setting, book: Book, recruiter: nat, assessment: nat, row: Row, email: string)
    requires assessment in s.assessments
    ensures var o := BulkRow(s, book, recruiter, assessment, row);
            && (Registered(book, email, assessment) ==> Registered(o.book, email, assessment))
            && (o.success ==> Registered(o.book, s.normalize(row.email), assessment))
            && (o.success ==> !Registered(book, s.normalize(row.email), assessment))
  {
    var o := BulkRow(s, book, recruiter, assessment, row);
    var mail := s.normalize(row.email);
    var existing := Find(book.candidates, Email(mail));
    if o.book != book {
      if existing.Some? {
        FindRenamed(book.candidates, existing.value.id, row.name, Email(email));
        FindRenamed(book.candidates, existing.value.id, row.name, Email(mail));
      } else {
        var c := Candidate(book.nextId, mail, row.name, recruiter);
        FindInPrefix(book.candidates, c, Email(email));
        FindInPrefix(book.candidates, c, Email(mail));
      }
      if o.success {
        var e := o.book.enrollments[|book.enrollments|];
        assert o.book.enrollments == book.enrollments + [e];
        EnrolledInPrefix(book, e, e.candidate, assessment);
        var before := Find(book.candidates, Email(email));
        if before.Some? && IsEnrolled(book, before.value.id, assessment) {
          EnrolledInPrefix(book, e, before.value.id, assessment);
        }
      }
    }
  }

  lemma {:induction false} EarlierSuccessRegisters(s: Setting, book: Book, recruiter: nat, assessment: nat,
                                                   rows: seq<Row>, i: nat)
    requires assessment in s.assessments && i < |rows|
    requires BulkRows(s, book, recruiter, assessment, rows).results[i].success
    ensures Registered(BulkRows(s, book, recruiter, assessment, rows).book, s.normalize(rows[i].email), assessment)
  {
    var n := |rows| - 1;
    var before := BulkRows(s, book, recruiter, assessment, rows[..n]);
    if i < n {
      EarlierSuccessRegisters(s, book, recruiter, assessment, rows[..n], i);
    }
    RowRegisters(s, before.book, recruiter, assessment, rows[n], s.normalize(rows[i].email));
  }

  lemma RegisteredRowFails(s: Setting, book: Book, recruiter: nat, assessment: nat, row: Row)
    requires assessment in s.assessments && Registered(book, s.normalize(row.email), assessment)
    ensures !BulkRow(s, book, recruiter, assessment, row).success
  {
  }

  /** Two rows with the same normalised email never both succeed. */
  lemma {:induction false} SameEmailSucceedsOnce(s: Setting, book: Book, recruiter: nat, assessment: nat,
                                                 rows: seq<Row>, i: nat, j: nat)
    requires assessment in s.assessments && i < j < |rows|
    requires s.normalize(rows[i].email) == s.normalize(rows[j].email)
    ensures var r := BulkRows(s, book, recruiter, assessment, rows).results; !(r[i].success && r[j].success)
  {
    var n := |rows| - 1;
    var before := BulkRows(s, book, recruiter, assessment, rows[..n]);
    if j < n {
      SameEmailSucceedsOnce(s, book, recruiter, assessment, rows[..n], i, j);
    } else if before.results[i].success {
      EarlierSuccessRegisters(s, book, recruiter, assessment, rows[..n], i);
      RegisteredRowFails(s, before.book, recruiter, assessment, rows[n]);
    }
  }
}
