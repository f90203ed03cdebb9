// Enrolling candidates into assessments: single creation, enrolment of an existing candidate,
// CSV bulk upload, and removal.
module Enrollment {
  import opened Prelude

  /** An interview window and its owner. */
  datatype Assessment = Assessment(recruiter: nat, windowStart: int, windowEnd: int)

  datatype Candidate = Candidate(id: nat, email: string, name: string, createdBy: nat)

  datatype Status = Invited | WaitingRoom | InProgress | Completed | Evaluated | Terminated

  datatype Enrolled = Enrolled(id: nat, candidate: nat, assessment: nat, status: Status)

  /** The two tables; `nextId` is above every identifier in use, so ids generated from it are new. */
  datatype Book = Book(candidates: seq<Candidate>, enrollments: seq<Enrolled>, nextId: nat)

  /** What does not change: the assessments, and how an email address is normalised. */
  datatype Setting = Setting(assessments: map<nat, Assessment>, normalize: string -> string)

  datatype Error =
    | AssessmentNotFound | AssessmentDenied | NotYourAssessment | EmailTaken | WindowOverlap | DuplicateEnrollment
    | CandidateNotFound | CandidateDenied | RegistrationNotFound | MissingFields | NoRows

  datatype Result = Ok(book: Book, id: nat) | Err(error: Error)

  // ------------------------------------------------------------------------ lookups

  predicate Overlap(a: Assessment, b: Assessment) {
    a.windowStart < b.windowEnd && b.windowStart < a.windowEnd
  }

  predicate Unfinished(status: Status) { status != Completed && status != Evaluated }

  /** What a candidate is looked up by. */
  datatype Lookup = Id(id: nat) | Email(email: string)

  predicate Matches(c: Candidate, key: Lookup) {
    match key
    case Id(id) => c.id == id
    case Email(email) => c.email == email
  }

  function Find(candidates: seq<Candidate>, key: Lookup): (r: Option<Candidate>)
    ensures r.Some? ==> r.value in candidates && Matches(r.value, key)
    ensures r.None? ==> forall i :: 0 <= i < |candidates| ==> !Matches(candidates[i], key)
  {
    if |candidates| == 0 then None
    else
      var n := |candidates| - 1;
      var before := Find(candidates[..n], key);
      if before.Some? then before else if Matches(candidates[n], key) then Some(candidates[n]) else None
  }

  predicate IsEnrolled(book: Book, candidate: nat, assessment: nat) {
    exists i :: 0 <= i < |book.enrollments| && book.enrollments[i].candidate == candidate
             && book.enrollments[i].assessment == assessment
  }

  predicate HasEnrollment(enrollments: seq<Enrolled>, candidate: nat) {
    exists i :: 0 <= i < |enrollments| && enrollments[i].candidate == candidate
  }

  /** The enrolment blocks a new one in `target`: unfinished, with an overlapping window. */
  predicate Blocks(s: Setting, e: Enrolled, candidate: nat, target: Assessment) {
    && e.candidate == candidate && e.assessment in s.assessments
    && Overlap(target, s.assessments[e.assessment]) && Unfinished(e.status)
  }

  predicate HasConflict(s: Setting, book: Book, candidate: nat, target: Assessment) {
    exists i :: 0 <= i < |book.enrollments| && Blocks(s, book.enrollments[i], candidate, target)
  }

  method FindWindowOverlap(s: Setting, book: Book, candidate: nat, target: Assessment) returns (found: bool)
    ensures found == HasConflict(s, book, candidate, target)
  {
    found := false;
    for i := 0 to |book.enrollments|
      invariant !found && forall k :: 0 <= k < i ==> !Blocks(s, book.enrollments[k], candidate, target)
    {
      var e := book.enrollments[i];
      if e.candidate == candidate && e.assessment in s.assessments {
        var existing := s.assessments[e.assessment];
        var overlaps := target.windowStart < existing.windowEnd && existing.windowStart < target.windowEnd;
        if overlaps && Unfinished(e.status) {
          return true;
        }
      }
    }
  }

  // --------------------------------------------------------------------- operations

  function NewCandidate(s: Setting, book: Book, name: string, email: string, recruiter: nat): Book {
    Book(book.candidates + [Candidate(book.nextId, s.normalize(email), name, recruiter)],
         book.enrollments, book.nextId + 1)
  }

  function NewEnrollment(book: Book, candidate: nat, assessment: nat): Book {
    Book(book.candidates, book.enrollments + [Enrolled(book.nextId, candidate, assessment, Invited)], book.nextId + 1)
  }

  function WithoutCandidate(candidates: seq<Candidate>, id: nat): seq<Candidate> {
    if |candidates| == 0 then []
    else
      var n := |candidates| - 1;
      if candidates[n].id == id then WithoutCandidate(candidates[..n], id)
      else WithoutCandidate(candidates[..n], id) + [candidates[n]]
  }

  function WithoutEnrollment(enrollments: seq<Enrolled>, id: nat): seq<Enrolled> {
    if |enrollments| == 0 then []
    else
      var n := |enrollments| - 1;
      if enrollments[n].id == id then WithoutEnrollment(enrollments[..n], id)
      else WithoutEnrollment(enrollments[..n], id) + [enrollments[n]]
  }

  /** The overlap check and the insertion every enrolling operation ends with. */
  function Admit(s: Setting, book: Book, candidate: nat, assessment: nat): Result
    requires assessment in s.assessments
  {
    if HasConflict(s, book, candidate, s.assessments[assessment]) then Err(WindowOverlap)
    else Ok(NewEnrollment(book, candidate, assessment), book.nextId)
  }

  /** `create_single_candidate`: a new candidate; an orphan row with the same email is replaced. */
  function CreateSingle(s: Setting, book: Book, recruiter: nat, name: string, email: string, assessment: nat): Result {
    if assessment !in s.assessments || s.assessments[assessment].recruiter != recruiter then Err(NotYourAssessment)
    else
      var existing := Find(book.candidates, Email(s.normalize(email)));
      if existing.Some? && HasEnrollment(book.enrollments, existing.value.id) then Err(EmailTaken)
      else
        var cleared := if existing.Some?
                       then book.(candidates := WithoutCandidate(book.candidates, existing.value.id)) else book;
        Admit(s, NewCandidate(s, cleared, name, email, recruiter), book.nextId, assessment)
  }

  predicate MayEnroll(s: Setting, book: Book, recruiter: nat, candidate: Candidate) {
    || candidate.createdBy == recruiter
    || exists i :: 0 <= i < |book.enrollments| && book.enrollments[i].candidate == candidate.id
               && book.enrollments[i].assessment in s.assessments
               && s.assessments[book.enrollments[i].assessment].recruiter == recruiter
  }

  /** `enroll_existing_candidate`. */
  function Enroll(s: Setting, book: Book, recruiter: nat, candidate: nat, assessment: nat): Result {
    if assessment !in s.assessments || s.assessments[assessment].recruiter != recruiter then Err(AssessmentNotFound)
    else
      var c := Find(book.candidates, Id(candidate));
      if c.None? then Err(CandidateNotFound)
      else if IsEnrolled(book, candidate, assessment) then Err(DuplicateEnrollment)
      else if !MayEnroll(s, book, recruiter, c.value) then Err(CandidateDenied)
      else Admit(s, book, candidate, assessment)
  }

  /** `delete_candidate_from_assessment`: the candidate goes with the last enrolment. */
  function Delete(s: Setting, book: Book, recruiter: nat, e: Enrolled): Result {
    if e !in book.enrollments then Err(RegistrationNotFound)
    else if e.assessment !in s.assessments || s.assessments[e.assessment].recruiter != recruiter
    then Err(CandidateDenied)
    else
      var left := WithoutEnrollment(book.enrollments, e.id);
      Ok(Book(if HasEnrollment(left, e.candidate) then book.candidates
              else WithoutCandidate(book.candidates, e.candidate), left, book.nextId), e.id)
  }

  /** A lifecycle move of an enrolment. Moves that reopen a finished one are not considered. */
  function Move(book: Book, i: nat, status: Status): Book
    requires i < |book.enrollments|
  {
    book.(enrollments := book.enrollments[i := book.enrollments[i].(status := status)])
  }

  // --------------------------------------------------------------------- bulk upload

  /** A CSV row with normalised headers and trimmed values. */
  datatype Row = Row(email: string, name: string, resume: string)

  datatype RowResult = RowResult(row: nat, email: string, success: bool)

  datatype RowOutcome = RowOutcome(book: Book, success: bool)

  function Renamed(candidates: seq<Candidate>, id: nat, name: string): (r: seq<Candidate>)
    ensures |r| == |candidates|
    ensures forall i :: 0 <= i < |r| ==> r[i].id == candidates[i].id && r[i].email == candidates[i].email
  {
    seq(|candidates|, i requires 0 <= i < |candidates| =>
      if candidates[i].id == id then candidates[i].(name := name) else candidates[i])
  }

  /** One row of the upload. A row refused for an overlap has already renamed the candidate. */
  function BulkRow(s: Setting, book: Book, recruiter: nat, assessment: nat, row: Row): RowOutcome
    requires assessment in s.assessments
  {
    if row.email == "" || row.name == "" || row.resume == "" then RowOutcome(book, false)
    else
      var existing := Find(book.candidates, Email(s.normalize(row.email)));
      if existing.Some? && IsEnrolled(book, existing.value.id, assessment) then RowOutcome(book, false)
      else
        var ready := if existing.Some?
                     then book.(candidates := Renamed(book.candidates, existing.value.id, row.name))
                     else NewCandidate(s, book, row.name, row.email, recruiter);
        var candidate := if existing.Some? then existing.value.id else book.nextId;
        var r := Admit(s, ready, candidate, assessment);
        if r.Ok? then RowOutcome(r.book, true) else RowOutcome(ready, false)
  }

  function ReportedEmail(row: Row): string { if row.email != "" then row.email else "(empty)" }

  datatype Upload = Upload(book: Book, results: seq<RowResult>, successes: nat)

  function BulkRows(s: Setting, book: Book, recruiter: nat, assessment: nat, rows: seq<Row>): (r: Upload)
    requires assessment in s.assessments
    ensures |r.results| == |rows|
  {
    if |rows| == 0 then Upload(book, [], 0)
    else
      var n := |rows| - 1;
      var before := BulkRows(s, book, recruiter, assessment, rows[..n]);
      var o := BulkRow(s, before.book, recruiter, assessment, rows[n]);
      Upload(o.book, before.results + [RowResult(n + 1, ReportedEmail(rows[n]), o.success)],
             before.successes + (if o.success then 1 else 0))
  }

  /** Positions of the rows reported as successful. */
  function Successful(results: seq<RowResult>): set<nat> {
    set k: nat | k < |results| && results[k].success
  }

  lemma SuccessfulAppend(results: seq<RowResult>, r: RowResult)
    ensures |Successful(results + [r])| == |Successful(results)| + (if r.success then 1 else 0)
  {
    var more: set<nat> := if r.success then {|results|} else {};
    assert Successful(results + [r]) == Successful(results) + more;
  }

  /** The running count is the number of rows reported as successful. */
  lemma {:induction false} SuccessesAreCounted(s: Setting, book: Book, recruiter: nat, assessment: nat, rows: seq<Row>)
    requires assessment in s.assessments
    ensures var u := BulkRows(s, book, recruiter, assessment, rows); u.successes == |Successful(u.results)|
  {
    if |rows| != 0 {
      var n := |rows| - 1;
      var before := BulkRows(s, book, recruiter, assessment, rows[..n]);
      var o := BulkRow(s, before.book, recruiter, assessment, rows[n]);
      SuccessesAreCounted(s, book, recruiter, assessment, rows[..n]);
      SuccessfulAppend(before.results, RowResult(n + 1, ReportedEmail(rows[n]), o.success));
    }
  }

  // ----------------------------------------------------------------------- the service

  datatype BulkReply = BulkRefused(error: Error) | BulkDone(results: seq<RowResult>, successful: nat, failed: nat)

  class CandidateService {
    const setting: Setting
    var candidates: seq<Candidate>
    var enrollments: seq<Enrolled>
    var nextId: nat

    function Value(): Book
      reads this
    {
      Book(candidates, enrollments, nextId)
    }

    constructor (setting: Setting)
      ensures Value() == Book([], [], 0) && this.setting == setting
    {
      this.setting := setting;
      candidates, enrollments, nextId := [], [], 0;
    }

    method CreateEnrollment(candidate: nat, assessment: nat) returns (id: nat)
      modifies this
      ensures id == old(nextId) && Value() == NewEnrollment(old(Value()), candidate, assessment)
    {
      id := nextId;
      enrollments := enrollments + [Enrolled(id, candidate, assessment, Invited)];
      nextId := nextId + 1;
    }

    method CreateCandidate(name: string, email: string, recruiter: nat) returns (id: nat)
      modifies this
      ensures id == old(nextId) && Value() == NewCandidate(setting, old(Value()), name, email, recruiter)
    {
      id := nextId;
      candidates := candidates + [Candidate(id, setting.normalize(email), name, recruiter)];
      nextId := nextId + 1;
    }

    /** An error rolls the whole request back. */
    method CreateSingleCandidate(recruiter: nat, name: string, email: string, assessment: nat) returns (r: Result)
      modifies this
      ensures r == CreateSingle(setting, old(Value()), recruiter, name, email, assessment)
      ensures Value() == if r.Ok? then r.book else old(Value())
    {
      if assessment !in setting.assessments || setting.assessments[assessment].recruiter != recruiter {
        return Err(NotYourAssessment);
      }
      var start := Value();
      var existing := Find(candidates, Email(setting.normalize(email)));
      if existing.Some? {
        if HasEnrollment(enrollments, existing.value.id) {
          return Err(EmailTaken);
        }
        candidates := WithoutCandidate(candidates, existing.value.id);
      }
      var candidate := CreateCandidate(name, email, recruiter);
      var overlap := FindWindowOverlap(setting, Value(), candidate, setting.assessments[assessment]);
      if overlap {
        candidates, enrollments, nextId := start.candidates, start.enrollments, start.nextId;
        return Err(WindowOverlap);
      }
      var checked := Value();
      var id := CreateEnrollment(candidate, assessment);
      r := Ok(Value(), checked.nextId);
    }

    method EnrollExisting(recruiter: nat, candidate: nat, assessment: nat) returns (r: Result)
      modifies this
      ensures r == Enroll(setting, old(Value()), recruiter, candidate, assessment)
      ensures Value() == if r.Ok? then r.book else old(Value())
    {
      if assessment !in setting.assessments || setting.assessments[assessment].recruiter != recruiter {
        return Err(AssessmentNotFound);
      }
      var c := Find(candidates, Id(candidate));
      if c.None? {
        return Err(CandidateNotFound);
      }
      if IsEnrolled(Value(), candidate, assessment) {
        return Err(DuplicateEnrollment);
      }
      if !MayEnroll(setting, Value(), recruiter, c.value) {
        return Err(CandidateDenied);
      }
      var overlap := FindWindowOverlap(setting, Value(), candidate, setting.assessments[assessment]);
      if overlap {
        return Err(WindowOverlap);
      }
      var id := CreateEnrollment(candidate, assessment);
      r := Ok(Value(), id);
    }

    method DeleteEnrollment(recruiter: nat, e: Enrolled) returns (r: Result)
      modifies this
      ensures r == Delete(setting, old(Value()), recruiter, e)
      ensures Value() == if r.Ok? then r.book else old(Value())
    {
      if e !in enrollments {
        return Err(RegistrationNotFound);
      }
      if e.assessment !in setting.assessments || setting.assessments[e.assessment].recruiter != recruiter {
        return Err(CandidateDenied);
      }
      enrollments := WithoutEnrollment(enrollments, e.id);
      if !HasEnrollment(enrollments, e.candidate) {
        candidates := WithoutCandidate(candidates, e.candidate);
      }
      r := Ok(Value(), e.id);
    }

    method ProcessRow(recruiter: nat, assessment: nat, row: Row) returns (success: bool)
      requires assessment in setting.assessments
      modifies this
      ensures RowOutcome(Value(), success) == BulkRow(setting, old(Value()), recruiter, assessment, row)
    {
      if row.email == "" || row.name == "" || row.resume == "" {
        return false;
      }
      var existing := Find(candidates, Email(setting.normalize(row.email)));
      var candidate: nat;
      if existing.Some? {
        if IsEnrolled(Value(), existing.value.id, assessment) {
          return false;
        }
        candidate := existing.value.id;
        candidates := Renamed(candidates, candidate, row.name);
      } else {
        candidate := CreateCandidate(row.name, row.email, recruiter);
      }
      var overlap := FindWindowOverlap(setting, Value(), candidate, setting.assessments[assessment]);
      if overlap {
        return false;
      }
      var _ := CreateEnrollment(candidate, assessment);
      success := true;
    }

    method ProcessRows(recruiter: nat, assessment: nat, rows: seq<Row>)
      returns (results: seq<RowResult>, successful: nat, failed: nat)
      requires assessment in setting.assessments
      modifies this
      ensures Upload(Value(), results, successful) == BulkRows(setting, old(Value()), recruiter, assessment, rows)
      ensures successful + failed == |rows|
    {
      results, successful, failed := [], 0, 0;
      for k := 0 to |rows|
        invariant Upload(Value(), results, successful)
               == BulkRows(setting, old(Value()), recruiter, assessment, rows[..k])
        invariant successful + failed == k
      {
        assert rows[..k + 1][..k] == rows[..k];
        var success := ProcessRow(recruiter, assessment, rows[k]);
        results := results + [RowResult(k + 1, ReportedEmail(rows[k]), success)];
        if success { successful := successful + 1; } else { failed := failed + 1; }
      }
      assert rows[..|rows|] == rows;
    }

    method BulkUpload(recruiter: nat, assessment: nat, rows: seq<Row>) returns (reply: BulkReply)
      modifies this
      ensures reply.BulkRefused? <==>
                assessment !in setting.assessments || setting.assessments[assessment].recruiter != recruiter || rows == []
      ensures reply.BulkRefused? ==> Value() == old(Value())
      ensures reply.BulkDone? ==>
                var u := BulkRows(setting, old(Value()), recruiter, assessment, rows);
                && Value() == u.book && reply.results == u.results
                && reply.successful == |Successful(reply.results)|
                && reply.successful + reply.failed == |rows|
    {
      if assessment !in setting.assessments {
        return BulkRefused(AssessmentNotFound);
      }
      if setting.assessments[assessment].recruiter != recruiter {
        return BulkRefused(AssessmentDenied);
      }
      if rows == [] {
        return BulkRefused(NoRows);
      }
      SuccessesAreCounted(setting, Value(), recruiter, assessment, rows);
      var results, successful, failed := ProcessRows(recruiter, assessment, rows);
      reply := BulkDone(results, successful, failed);
    }
  }
}
