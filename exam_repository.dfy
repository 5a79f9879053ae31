/** Exam queries: the eligibility check for taking an exam, the attempt count,
    the time-window listings and the status update. Every query sees only rows
    whose soft-delete flag is clear. */
module ExamRepository {
  import opened Common
  import opened Domain
  import opened Store

  /** Position of the visible exam with this id (FindAsync under the soft-delete filter). */
  function ExamIndex(exams: seq<Exam>, id: Id): (r: Option<nat>)
    ensures r.Some? ==> r.value < |exams| && exams[r.value].id == id && !exams[r.value].isDeleted
    ensures r.None? ==> forall j :: 0 <= j < |exams| ==> exams[j].id != id || exams[j].isDeleted
  {
    FirstIndex(exams, (e: Exam) => e.id == id && !e.isDeleted)
  }

  function FindExam(exams: seq<Exam>, id: Id): (r: Option<Exam>)
    ensures r.Some? ==> r.value in exams && r.value.id == id && !r.value.isDeleted
    ensures r.None? ==> forall j :: 0 <= j < |exams| ==> exams[j].id != id || exams[j].isDeleted
  {
    match ExamIndex(exams, id)
    case None => None
    case Some(i) => Some(exams[i])
  }

  predicate IsUserAttempt(a: ExamAttempt, examId: Id, userId: Id) {
    a.examId == examId && a.userId == userId && !a.isDeleted
  }

  /** GetUserAttemptCountAsync: every visible attempt of this user on this exam,
      submitted or not. */
  function AttemptCount(attempts: seq<ExamAttempt>, examId: Id, userId: Id): (n: nat)
    ensures n <= |attempts|
    ensures n == 0 <==> forall j :: 0 <= j < |attempts| ==> !IsUserAttempt(attempts[j], examId, userId)
  {
    var p := (a: ExamAttempt) => IsUserAttempt(a, examId, userId);
    AnyIffCountPositive(attempts, p);
    Count(attempts, p)
  }

  /** Adding one attempt of the user raises the count by one; any other row leaves it. */
  lemma AttemptCountAppend(attempts: seq<ExamAttempt>, a: ExamAttempt, examId: Id, userId: Id)
    ensures AttemptCount(attempts + [a], examId, userId)
         == AttemptCount(attempts, examId, userId) + (if IsUserAttempt(a, examId, userId) then 1 else 0)
  {
    CountAppendOne(attempts, a, (x: ExamAttempt) => IsUserAttempt(x, examId, userId));
  }

  /** The time window of an exam contains `now`; an unset bound never blocks. */
  predicate InWindow(e: Exam, now: Time) {
    (e.startTime.None? || e.startTime.value <= now) && (e.endTime.None? || now <= e.endTime.value)
  }

  /** CanUserTakeExamAsync: the exam exists, is Published or InProgress, its
      window contains now (both bounds inclusive), and the user has fewer
      attempts than MaxAttempts. */
  function CanUserTakeExam(exams: seq<Exam>, attempts: seq<ExamAttempt>, examId: Id, userId: Id, now: Time): (r: bool)
    ensures FindExam(exams, examId).None? ==> !r
    ensures FindExam(exams, examId).Some? ==>
      var e := FindExam(exams, examId).value;
      r <==> && (e.status == Published || e.status == InProgress)
             && InWindow(e, now)
             && AttemptCount(attempts, examId, userId) < e.maxAttempts
  {
    match FindExam(exams, examId)
    case None => false
    case Some(exam) =>
      if exam.status != Published && exam.status != InProgress then false
      else if exam.startTime.Some? && exam.startTime.value > now then false
      else if exam.endTime.Some? && exam.endTime.value < now then false
      else AttemptCount(attempts, examId, userId) < exam.maxAttempts
  }

  /** Eligibility is monotone in attempts: one more attempt of the user never
      makes an ineligible user eligible. */
  lemma CanTakeAntitoneInAttempts(exams: seq<Exam>, attempts: seq<ExamAttempt>, a: ExamAttempt, examId: Id, userId: Id, now: Time)
    requires CanUserTakeExam(exams, attempts + [a], examId, userId, now)
    ensures CanUserTakeExam(exams, attempts, examId, userId, now)
  {
    AttemptCountAppend(attempts, a, examId, userId);
  }

  // ---------------------------------------------------------------------
  // Listings
  // ---------------------------------------------------------------------

  /** OrderBy(e => e.StartTime): an unset start sorts first. */
  predicate StartTimeLe(a: Exam, b: Exam) {
    a.startTime.None? || (b.startTime.Some? && a.startTime.value <= b.startTime.value)
  }

  predicate SortedByStart(s: seq<Exam>) {
    forall i, j :: 0 <= i < j < |s| ==> StartTimeLe(s[i], s[j])
  }

  lemma StartTimeLeIsPreorder()
    ensures TotalPreorder((a: Exam, b: Exam) => StartTimeLe(a, b))
  {
  }

  predicate IsActive(e: Exam, now: Time) {
    !e.isDeleted && e.status == Published && InWindow(e, now)
  }

  predicate IsUpcoming(e: Exam, now: Time) {
    !e.isDeleted && e.status == Published && e.startTime.Some? && e.startTime.value > now
  }

  predicate IsOngoing(e: Exam, now: Time) {
    !e.isDeleted &&
    (e.status == InProgress ||
     (e.status == Published && e.startTime.Some? && e.startTime.value <= now &&
      (e.endTime.None? || e.endTime.value >= now)))
  }

  /** GetActiveExamsAsync: Published exams whose window contains now, by start time. */
  function GetActiveExams(exams: seq<Exam>, now: Time): (r: seq<Exam>)
    ensures forall e :: e in r <==> e in exams && IsActive(e, now)
    ensures forall e :: multiset(r)[e] == if IsActive(e, now) then multiset(exams)[e] else 0
    ensures SortedByStart(r)
  {
    StartTimeLeIsPreorder();
    var p := (e: Exam) => IsActive(e, now);
    var found := Filter(exams, p);
    forall e ensures multiset(found)[e] == if IsActive(e, now) then multiset(exams)[e] else 0 {
      FilterMultiset(exams, p, e);
    }
    var r := SortBy(found, (a: Exam, b: Exam) => StartTimeLe(a, b));
    assert forall e :: e in r <==> e in multiset(found);
    r
  }

  /** GetUpcomingExamsAsync: Published exams that start after now, by start time. */
  function GetUpcomingExams(exams: seq<Exam>, now: Time): (r: seq<Exam>)
    ensures forall e :: e in r <==> e in exams && IsUpcoming(e, now)
    ensures forall e :: multiset(r)[e] == if IsUpcoming(e, now) then multiset(exams)[e] else 0
    ensures SortedByStart(r)
  {
    StartTimeLeIsPreorder();
    var p := (e: Exam) => IsUpcoming(e, now);
    var found := Filter(exams, p);
    forall e ensures multiset(found)[e] == if IsUpcoming(e, now) then multiset(exams)[e] else 0 {
      FilterMultiset(exams, p, e);
    }
    var r := SortBy(found, (a: Exam, b: Exam) => StartTimeLe(a, b));
    assert forall e :: e in r <==> e in multiset(found);
    r
  }

  /** GetOngoingExamsAsync: InProgress exams, and Published exams that have
      started and not ended, in table order. */
  function GetOngoingExams(exams: seq<Exam>, now: Time): (r: seq<Exam>)
    ensures forall e :: e in r <==> e in exams && IsOngoing(e, now)
  {
    Filter(exams, (e: Exam) => IsOngoing(e, now))
  }

  /** No exam is both active and upcoming. */
  lemma ActiveUpcomingDisjoint(exams: seq<Exam>, now: Time, e: Exam)
    ensures !(e in GetActiveExams(exams, now) && e in GetUpcomingExams(exams, now))
  {
  }

  /** The ongoing listing is exactly the InProgress exams plus the active
      exams that have a start time; an active exam without a start time is not
      ongoing. */
  lemma OngoingIsInProgressOrStartedActive(exams: seq<Exam>, now: Time, e: Exam)
    requires e in exams
    ensures e in GetOngoingExams(exams, now) <==>
      (!e.isDeleted && e.status == InProgress) || (e in GetActiveExams(exams, now) && e.startTime.Some?)
  {
  }

  /** UpdateExamStatusAsync: false for a missing exam; otherwise sets Status and UpdatedAt. */
  method UpdateExamStatus(db: Database, id: Id, status: ExamStatus, now: Time) returns (r: bool)
    modifies db`exams
    ensures match ExamIndex(old(db.exams), id)
      case None => !r && db.exams == old(db.exams)
      case Some(i) => r && db.exams == old(db.exams)[i := old(db.exams)[i].(status := status, updatedAt := Some(now))]
  {
    var index := ExamIndex(db.exams, id);
    if index.None? {
      return false;
    }
    var exam := db.exams[index.value];
    db.exams := db.exams[index.value := exam.(status := status, updatedAt := Some(now))];
    return true;
  }
}
