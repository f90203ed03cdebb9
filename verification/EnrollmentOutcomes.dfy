// Which enrolment requests succeed, and what each of them leaves in the tables, in terms of the
// tables alone.
module EnrollmentOutcomes {
  import opened Prelude
  import opened Enrollment
  import opened EnrollmentLaws

  /** The enrolment stands in the way of one in `assessment`: it is that one, or it is unfinished
      and their windows overlap. */
  predicate InTheWay(s: Setting, e: Enrolled, assessment: nat)
    requires assessment in s.assessments
  {
    || e.assessment == assessment
    || (&& e.status != Completed && e.status != Evaluated && e.assessment in s.assessments
        && s.assessments[e.assessment].windowStart < s.assessments[assessment].windowEnd
        && s.assessments[assessment].windowStart < s.assessments[e.assessment].windowEnd)
  }

  /** No enrolment of the candidate stands in the way. */
  ghost predicate Free(s: Setting, book: Book, candidate: nat, assessment: nat)
    requires assessment in s.assessments
  {
    forall e :: e in book.enrollments && e.candidate == candidate ==> !InTheWay(s, e, assessment)
  }

  lemma FreeIs(s: Setting, book: Book, candidate: nat, assessment: nat)
    requires assessment in s.assessments
    ensures Free(s, book, candidate, assessment)
       <==> !IsEnrolled(book, candidate, assessment) && !HasConflict(s, book, candidate, s.assessments[assessment])
  {
    var es := book.enrollments;
    if Free(s, book, candidate, assessment) {
      forall i | 0 <= i < |es| && es[i].candidate == candidate ensures !InTheWay(s, es[i], assessment) {
        assert es[i] in es;
      }
    } else {
      var e :| e in es && e.candidate == candidate && InTheWay(s, e, assessment);
      var i :| 0 <= i < |es| && es[i] == e;
      assert e.assessment != assessment ==> Blocks(s, es[i], candidate, s.assessments[assessment]);
    }
  }

  predicate Owned(s: Setting, recruiter: nat, assessment: nat) {
    assessment in s.assessments && s.assessments[assessment].recruiter == recruiter
  }

  ghost predicate HasAny(book: Book, candidate: nat) {
    exists e :: e in book.enrollments && e.candidate == candidate
  }

  lemma HasAnyIs(book: Book, candidate: nat)
    ensures HasAny(book, candidate) <==> HasEnrollment(book.enrollments, candidate)
  {
    if HasAny(book, candidate) {
      var e :| e in book.enrollments && e.candidate == candidate;
      var i :| 0 <= i < |book.enrollments| && book.enrollments[i] == e;
    }
  }

  /** On consistent tables an email finds its candidate. */
  lemma FindIs(cs: seq<Candidate>, c: Candidate)
    requires UniqueCandidates(cs) && c in cs
    ensures Find(cs, Email(c.email)) == Some(c) && Find(cs, Id(c.id)) == Some(c)
  {
    var i :| 0 <= i < |cs| && cs[i] == c;
    var byEmail, byId := Find(cs, Email(c.email)), Find(cs, Id(c.id));
    assert Matches(cs[i], Email(c.email)) && Matches(cs[i], Id(c.id));
    var j :| 0 <= j < |cs| && cs[j] == byEmail.value;
    var k :| 0 <= k < |cs| && cs[k] == byId.value;
  }

  /** Nobody with the email is known. */
  ghost predicate Unknown(book: Book, email: string) {
    forall c :: c in book.candidates ==> c.email != email
  }

  lemma FindNone(cs: seq<Candidate>, email: string)
    requires forall c :: c in cs ==> c.email != email
    ensures Find(cs, Email(email)).None?
  {
  }

  // ------------------------------------------------------------------------ single requests

  /** A candidate is created exactly if the assessment is the recruiter's and no candidate with the
      email has an enrolment; then one candidate and one enrolment are new, and a candidate with
      the email but without an enrolment is gone. */
  lemma CreateOutcome(s: Setting, book: Book, recruiter: nat, name: string, email: string, assessment: nat)
    requires Consistent(s, book)
    ensures var r, mail := CreateSingle(s, book, recruiter, name, email, assessment), s.normalize(email);
            var taken := exists c :: c in book.candidates && c.email == mail && HasAny(book, c.id);
            if !Owned(s, recruiter, assessment) then r == Err(NotYourAssessment)
            else if taken then r == Err(EmailTaken)
            else
              var c := Candidate(book.nextId, mail, name, recruiter);
              && r.Ok? && r.id == book.nextId + 1
              && r.book.enrollments == book.enrollments + [Enrolled(r.id, c.id, assessment, Invited)]
              && forall d :: d in r.book.candidates <==> d == c || (d in book.candidates && d.email != mail)
  {
    var mail := s.normalize(email);
    if Owned(s, recruiter, assessment) {
      IdsAreOld(s, book);
      if Unknown(book, mail) {
        FindNone(book.candidates, mail);
        NewcomerHasNoConflict(s, book, book.nextId, s.assessments[assessment]);
      } else {
        var c :| c in book.candidates && c.email == mail;
        FindIs(book.candidates, c);
        OnlyHolder(book, c);
        HasAnyIs(book, c.id);
        WithoutCandidateShape(book.candidates, c.id);
      }
    }
  }

  lemma OnlyHolder(book: Book, c: Candidate)
    requires UniqueCandidates(book.candidates) && c in book.candidates
    ensures forall d :: d in book.candidates && (d.email == c.email || d.id == c.id) ==> d == c
  {
    var i :| 0 <= i < |book.candidates| && book.candidates[i] == c;
    forall d | d in book.candidates && (d.email == c.email || d.id == c.id) ensures d == c {
      var j :| 0 <= j < |book.candidates| && book.candidates[j] == d;
    }
  }

  /** The recruiter created the candidate or has them in an assessment. */
  ghost predicate Related(s: Setting, book: Book, recruiter: nat, c: Candidate) {
    || c.createdBy == recruiter
    || exists e :: e in book.enrollments && e.candidate == c.id && Owned(s, recruiter, e.assessment)
  }

  lemma RelatedIs(s: Setting, book: Book, recruiter: nat, c: Candidate)
    ensures Related(s, book, recruiter, c) <==> MayEnroll(s, book, recruiter, c)
  {
    if exists e :: e in book.enrollments && e.candidate == c.id && Owned(s, recruiter, e.assessment) {
      var e :| e in book.enrollments && e.candidate == c.id && Owned(s, recruiter, e.assessment);
      var i :| 0 <= i < |book.enrollments| && book.enrollments[i] == e;
    }
  }

  /** A known candidate is enrolled exactly if the assessment is the recruiter's, the recruiter is
      related to the candidate, and no enrolment stands in the way; then one enrolment is new and
      nothing else changes. */
  lemma EnrollOutcome(s: Setting, book: Book, recruiter: nat, c: Candidate, assessment: nat)
    requires Consistent(s, book) && c in book.candidates
    ensures var r := Enroll(s, book, recruiter, c.id, assessment);
            if !Owned(s, recruiter, assessment) then r == Err(AssessmentNotFound)
            else if IsEnrolled(book, c.id, assessment) then r == Err(DuplicateEnrollment)
            else if !Related(s, book, recruiter, c) then r == Err(CandidateDenied)
            else if !Free(s, book, c.id, assessment) then r == Err(WindowOverlap)
            else r == Ok(Book(book.candidates, book.enrollments + [Enrolled(book.nextId, c.id, assessment, Invited)],
                              book.nextId + 1), book.nextId)
  {
    FindIs(book.candidates, c);
    RelatedIs(s, book, recruiter, c);
    if Owned(s, recruiter, assessment) {
      FreeIs(s, book, c.id, assessment);
    }
  }

  /** An unknown candidate is never enrolled. */
  lemma EnrollUnknown(s: Setting, book: Book, recruiter: nat, candidate: nat, assessment: nat)
    requires forall c :: c in book.candidates ==> c.id != candidate
    ensures Enroll(s, book, recruiter, candidate, assessment)
         == Err(if Owned(s, recruiter, assessment) then CandidateNotFound else AssessmentNotFound)
  {
  }

  lemma OnlyEnrolment(s: Setting, es: seq<Enrolled>, e: Enrolled)
    requires PairwiseCompatible(s, es) && e in es
    ensures forall d :: d in es && d.id == e.id ==> d == e
  {
    var i :| 0 <= i < |es| && es[i] == e;
    forall d | d in es && d.id == e.id ensures d == e {
      var j :| 0 <= j < |es| && es[j] == d;
      assert i < j ==> Compatible(s, es[i], es[j]);
      assert j < i ==> Compatible(s, es[j], es[i]);
    }
  }

  /** An enrolment is deleted exactly if it exists and is the recruiter's; then it is gone, all
      others stay, and its candidate is gone exactly if it was the last. */
  lemma DeleteOutcome(s: Setting, book: Book, recruiter: nat, e: Enrolled)
    requires Consistent(s, book)
    ensures var r := Delete(s, book, recruiter, e);
            if e !in book.enrollments then r == Err(RegistrationNotFound)
            else if !Owned(s, recruiter, e.assessment) then r == Err(CandidateDenied)
            else
              && r.Ok?
              && (forall d :: d in r.book.enrollments <==> d in book.enrollments && d != e)
              && (forall c :: c in r.book.candidates
                         <==> c in book.candidates && (c.id == e.candidate ==> HasAny(r.book, c.id)))
  {
    if e in book.enrollments && Owned(s, recruiter, e.assessment) {
      var r := Delete(s, book, recruiter, e);
      WithoutEnrollmentShape(s, book.enrollments, e.id);
      WithoutCandidateShape(book.candidates, e.candidate);
      HasAnyIs(r.book, e.candidate);
      OnlyEnrolment(s, book.enrollments, e);
    }
  }

  // ---------------------------------------------------------------------------- bulk upload

  predicate Complete(row: Row) { row.email != "" && row.name != "" && row.resume != "" }

  /** The row is accepted: all fields are there, and no enrolment of a candidate with its email
      stands in the way. */
  ghost predicate Acceptable(s: Setting, book: Book, assessment: nat, row: Row)
    requires assessment in s.assessments
  {
    Complete(row)
    && forall c :: c in book.candidates && c.email == s.normalize(row.email) ==> Free(s, book, c.id, assessment)
  }

  lemma NewRowOutcome(s: Setting, book: Book, recruiter: nat, assessment: nat, row: Row)
    requires Consistent(s, book) && assessment in s.assessments && Complete(row)
    requires Unknown(book, s.normalize(row.email))
    ensures var o := BulkRow(s, book, recruiter, assessment, row);
            && o.success
            && o.book == Book(book.candidates + [Candidate(book.nextId, s.normalize(row.email), row.name, recruiter)],
                              book.enrollments + [Enrolled(book.nextId + 1, book.nextId, assessment, Invited)],
                              book.nextId + 2)
  {
    FindNone(book.candidates, s.normalize(row.email));
    IdsAreOld(s, book);
    NewcomerHasNoConflict(s, book, book.nextId, s.assessments[assessment]);
  }

  /** A row for a known email: enrolled if nothing stands in the way. The candidate takes the row's
      name unless already in the assessment, even when the row then fails. */
  lemma KnownRowOutcome(s: Setting, book: Book, recruiter: nat, assessment: nat, row: Row, c: Candidate)
    requires Consistent(s, book) && assessment in s.assessments && Complete(row)
    requires c in book.candidates && c.email == s.normalize(row.email)
    ensures var o := BulkRow(s, book, recruiter, assessment, row);
            && (o.success <==> Free(s, book, c.id, assessment))
            && o.book.enrollments == (if o.success
                                      then book.enrollments + [Enrolled(book.nextId, c.id, assessment, Invited)]
                                      else book.enrollments)
            && |o.book.candidates| == |book.candidates|
            && forall i :: 0 <= i < |book.candidates| ==>
                 o.book.candidates[i] == if book.candidates[i] == c && !IsEnrolled(book, c.id, assessment)
                                         then c.(name := row.name) else book.candidates[i]
  {
    FindIs(book.candidates, c);
    OnlyHolder(book, c);
    FreeIs(s, book, c.id, assessment);
  }

  /** A row succeeds exactly if it is acceptable; then exactly one enrolment is new, in the
      assessment and of the candidate with the row's email; otherwise none. */
  lemma RowOutcomes(s: Setting, book: Book, recruiter: nat, assessment: nat, row: Row)
    requires Consistent(s, book) && assessment in s.assessments
    ensures var o := BulkRow(s, book, recruiter, assessment, row);
            && (o.success <==> Acceptable(s, book, assessment, row))
            && (!o.success ==> o.book.enrollments == book.enrollments)
            && (o.success ==> exists e: Enrolled, c: Candidate ::
                  && o.book.enrollments == book.enrollments + [e] && e.assessment == assessment && e.status == Invited
                  && e.candidate == c.id && c in o.book.candidates && c.email == s.normalize(row.email))
  {
    var o, mail := BulkRow(s, book, recruiter, assessment, row), s.normalize(row.email);
    if Complete(row) {
      if Unknown(book, mail) {
        NewRowOutcome(s, book, recruiter, assessment, row);
        var c := Candidate(book.nextId, mail, row.name, recruiter);
        assert o.book.candidates[|book.candidates|] == c;
        assert c in o.book.candidates && o.book.enrollments
            == book.enrollments + [Enrolled(book.nextId + 1, c.id, assessment, Invited)];
      } else {
        var c :| c in book.candidates && c.email == mail;
        KnownRowOutcome(s, book, recruiter, assessment, row, c);
        OnlyHolder(book, c);
        var i :| 0 <= i < |book.candidates| && book.candidates[i] == c;
        var d := o.book.candidates[i];
        assert d in o.book.candidates && d.id == c.id && d.email == mail;
      }
    }
  }

  /** Row `k` of an upload succeeds exactly if it is acceptable after the rows before it. */
  lemma {:induction false} BulkOutcome(s: Setting, book: Book, recruiter: nat, assessment: nat, rows: seq<Row>, k: nat)
    requires Consistent(s, book) && assessment in s.assessments && k < |rows|
    ensures BulkRows(s, book, recruiter, assessment, rows).results[k].success
       <==> Acceptable(s, BulkRows(s, book, recruiter, assessment, rows[..k]).book, assessment, rows[k])
  {
    var n := |rows| - 1;
    if k < n {
      BulkOutcome(s, book, recruiter, assessment, rows[..n], k);
      assert rows[..n][..k] == rows[..k];
    } else {
      BulkKeeps(s, book, recruiter, assessment, rows[..n]);
      RowOutcomes(s, BulkRows(s, book, recruiter, assessment, rows[..n]).book, recruiter, assessment, rows[n]);
    }
  }
}
