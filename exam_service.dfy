/** The exam attempt engine: starting or resuming an attempt, saving one
    answer under the time limit, and submitting with automatic grading of the
    objective questions. Each operation is a pure transition on the tables it
    touches, and a method on the database that performs it step by step. */
module ExamService {
  import opened Common
  import opened Domain
  import opened Store
  import opened ExamRepository
  import opened PaperRepository

  const MsgCannotTake: string := "不能参加此考试(考试未开始、已结束或已达到最大尝试次数)"
  const MsgExamNotFound: string := "考试不存在"
  const MsgResume: string := "继续上次未完成的考试"
  const MsgStarted: string := "考试开始"
  const MsgAttemptNotFound: string := "答题记录不存在"
  const MsgNotOwner: string := "无权限操作此答题记录"
  const MsgClosedForAnswers: string := "考试已提交,不能再答题"
  const MsgTimeUp: string := "考试时间已结束"
  const MsgAnswerSaved: string := "答案已保存"
  const MsgAlreadySubmitted: string := "考试已提交"
  const MsgAwaitingManual: string := "考试已提交,等待教师批改主观题"
  const MsgAutoGraded: string := "考试已提交并自动批改完成"

  // ---------------------------------------------------------------------
  // Lookups
  // ---------------------------------------------------------------------

  /** Position of the visible attempt with this id. */
  function AttemptIndex(attempts: seq<ExamAttempt>, id: Id): (r: Option<nat>)
    ensures r.Some? ==> r.value < |attempts| && attempts[r.value].id == id && !attempts[r.value].isDeleted
    ensures r.Some? ==> forall j :: 0 <= j < r.value ==> attempts[j].id != id || attempts[j].isDeleted
    ensures r.None? ==> forall j :: 0 <= j < |attempts| ==> attempts[j].id != id || attempts[j].isDeleted
  {
    FirstIndex(attempts, (a: ExamAttempt) => a.id == id && !a.isDeleted)
  }

  /** The exam an attempt navigates to. */
  function ExamById(exams: seq<Exam>, id: Id): (r: Option<Exam>)
    ensures r.Some? ==> r.value in exams && r.value.id == id
  {
    match FirstIndex(exams, (e: Exam) => e.id == id)
    case None => None
    case Some(i) => Some(exams[i])
  }

  /** The question an answer navigates to. */
  function QuestionById(questions: seq<Question>, id: Id): (r: Option<Question>)
    ensures r.Some? ==> r.value in questions && r.value.id == id
  {
    match FirstIndex(questions, (q: Question) => q.id == id)
    case None => None
    case Some(i) => Some(questions[i])
  }

  // ---------------------------------------------------------------------
  // Starting an attempt
  // ---------------------------------------------------------------------

  predicate IsPending(a: ExamAttempt, examId: Id, userId: Id) {
    a.examId == examId && a.userId == userId && !a.isSubmitted && !a.isDeleted
  }

  /** The user's first unsubmitted attempt on the exam. */
  function PendingIndex(attempts: seq<ExamAttempt>, examId: Id, userId: Id): (r: Option<nat>)
    ensures r.Some? ==> r.value < |attempts| && IsPending(attempts[r.value], examId, userId)
    ensures r.None? ==> forall j :: 0 <= j < |attempts| ==> !IsPending(attempts[j], examId, userId)
  {
    FirstIndex(attempts, (a: ExamAttempt) => IsPending(a, examId, userId))
  }

  /** The empty answer rows created for a new attempt, one per paper link, with
      consecutive fresh ids starting at firstId. */
  function BlankAnswers(links: seq<PaperQuestion>, attemptId: Id, firstId: Id, now: Time): (r: seq<Answer>)
    ensures |r| == |links|
    ensures forall k :: 0 <= k < |r| ==>
      r[k] == Answer(firstId + k, attemptId, links[k].questionId, None, None, None, now, None, false)
  {
    seq(|links|, k requires 0 <= k < |links| =>
      Answer(firstId + k, attemptId, links[k].questionId, None, None, None, now, None, false))
  }

  /** The attempt row StartExamAsync creates: a fresh id, numbered one past the
      user's attempt count, started now, neither submitted nor graded. */
  function NewAttempt(attempts: seq<ExamAttempt>, examId: Id, userId: Id, now: Time): (a: ExamAttempt)
    ensures forall j :: 0 <= j < |attempts| ==> attempts[j].id != a.id
  {
    var ids := AttemptIds(attempts);
    assert forall j :: 0 <= j < |attempts| ==> ids[j] == attempts[j].id;
    ExamAttempt(FreshId(ids), examId, userId, AttemptCount(attempts, examId, userId) + 1,
                Some(now), None, None, false, false, now, None, false)
  }

  datatype StartOutcome = StartOutcome(result: Result<ExamAttempt>, attempts: seq<ExamAttempt>, answers: seq<Answer>)

  /** StartExamAsync on the attempt and answer tables. */
  function StartExamSpec(exams: seq<Exam>, paperQuestions: seq<PaperQuestion>, attempts: seq<ExamAttempt>,
                         answers: seq<Answer>, examId: Id, userId: Id, now: Time): StartOutcome
  {
    if !CanUserTakeExam(exams, attempts, examId, userId, now) then
      StartOutcome(Failure(MsgCannotTake), attempts, answers)
    else match FindExam(exams, examId)
      case None => StartOutcome(Failure(MsgExamNotFound), attempts, answers)
      case Some(exam) =>
        match PendingIndex(attempts, examId, userId)
        case Some(i) => StartOutcome(Success(attempts[i], MsgResume), attempts, answers)
        case None =>
          var attempt := NewAttempt(attempts, examId, userId, now);
          var created := BlankAnswers(PaperLinks(paperQuestions, exam.paperId), attempt.id, FreshId(AnswerIds(answers)), now);
          StartOutcome(Success(attempt, MsgStarted), attempts + [attempt], answers + created)
  }

  /** An ineligible user gets the eligibility error and nothing is written. */
  lemma StartIneligibleChangesNothing(exams: seq<Exam>, paperQuestions: seq<PaperQuestion>, attempts: seq<ExamAttempt>,
                                      answers: seq<Answer>, examId: Id, userId: Id, now: Time)
    requires !CanUserTakeExam(exams, attempts, examId, userId, now)
    ensures var o := StartExamSpec(exams, paperQuestions, attempts, answers, examId, userId, now);
            o.result == Failure(MsgCannotTake) && o.attempts == attempts && o.answers == answers
  {
  }

  /** Eligibility is checked before the resume lookup: a pending attempt is
      resumed (returned unchanged, nothing written) only while the user's
      attempt count is below MaxAttempts. */
  lemma {:induction false} ResumeOnlyBelowLimit(exams: seq<Exam>, paperQuestions: seq<PaperQuestion>, attempts: seq<ExamAttempt>,
                                                answers: seq<Answer>, examId: Id, userId: Id, now: Time, i: nat)
    requires i < |attempts| && IsPending(attempts[i], examId, userId)
    ensures var o := StartExamSpec(exams, paperQuestions, attempts, answers, examId, userId, now);
            o.result.Success? && o.result.message == MsgResume <==>
              CanUserTakeExam(exams, attempts, examId, userId, now)
    ensures var o := StartExamSpec(exams, paperQuestions, attempts, answers, examId, userId, now);
            var e := FindExam(exams, examId);
            e.Some? && AttemptCount(attempts, examId, userId) >= e.value.maxAttempts ==>
              o.result == Failure(MsgCannotTake)
    ensures var o := StartExamSpec(exams, paperQuestions, attempts, answers, examId, userId, now);
            o.result.Success? ==>
              (o.attempts == attempts && o.answers == answers &&
               o.result.data == attempts[PendingIndex(attempts, examId, userId).value])
  {
    assert PendingIndex(attempts, examId, userId).Some?;
  }

  /** A started attempt is numbered one past the user's attempt count, starts
      now, is neither submitted nor graded, and comes with exactly one empty
      answer per question of the exam's paper. */
  lemma {:induction false} StartCreatesAttemptAndAnswers(exams: seq<Exam>, paperQuestions: seq<PaperQuestion>, attempts: seq<ExamAttempt>,
                                                         answers: seq<Answer>, examId: Id, userId: Id, now: Time)
    requires CanUserTakeExam(exams, attempts, examId, userId, now)
    requires PendingIndex(attempts, examId, userId).None?
    ensures var o := StartExamSpec(exams, paperQuestions, attempts, answers, examId, userId, now);
            var a := o.result.data;
            var links := PaperLinks(paperQuestions, FindExam(exams, examId).value.paperId);
            && o.result.Success? && o.result.message == MsgStarted
            && o.attempts == attempts + [a]
            && a.examId == examId && a.userId == userId
            && a.attemptNumber == AttemptCount(attempts, examId, userId) + 1
            && a.startTime == Some(now) && a.submitTime.None? && a.totalScore.None?
            && !a.isSubmitted && !a.isGraded
            && (forall j :: 0 <= j < |attempts| ==> attempts[j].id != a.id)
            && |o.answers| == |answers| + |links|
            && o.answers[..|answers|] == answers
            && (forall k :: 0 <= k < |links| ==>
                  var ans := o.answers[|answers| + k];
                  ans.examAttemptId == a.id && ans.questionId == links[k].questionId &&
                  ans.userAnswer.None? && ans.score.None? && ans.isCorrect.None?)
  {
    var e := FindExam(exams, examId).value;
    var o := StartExamSpec(exams, paperQuestions, attempts, answers, examId, userId, now);
    assert o.answers[..|answers|] == answers;
  }

  /** StartExam never takes a user past MaxAttempts: if the user was within the
      limit before, they are within it afterwards. */
  lemma {:induction false} StartKeepsAttemptLimit(exams: seq<Exam>, paperQuestions: seq<PaperQuestion>, attempts: seq<ExamAttempt>,
                                                  answers: seq<Answer>, examId: Id, userId: Id, now: Time)
    requires FindExam(exams, examId).Some?
    requires AttemptCount(attempts, examId, userId) <= FindExam(exams, examId).value.maxAttempts
    ensures var o := StartExamSpec(exams, paperQuestions, attempts, answers, examId, userId, now);
            AttemptCount(o.attempts, examId, userId) <= FindExam(exams, examId).value.maxAttempts
  {
    var o := StartExamSpec(exams, paperQuestions, attempts, answers, examId, userId, now);
    if o.attempts != attempts {
      AttemptCountAppend(attempts, o.result.data, examId, userId);
    }
  }

  /** The loop of StartExamAsync that adds one empty answer per paper link. */
  method AppendBlankAnswers(db: Database, links: seq<PaperQuestion>, attemptId: Id, now: Time)
    modifies db`answers
    ensures db.answers == old(db.answers) + BlankAnswers(links, attemptId, FreshId(AnswerIds(old(db.answers))), now)
  {
    var firstId := FreshId(AnswerIds(db.answers));
    ghost var before := db.answers;
    for k := 0 to |links|
      invariant db.answers == before + BlankAnswers(links[..k], attemptId, firstId, now)
    {
      var answer := Answer(firstId + k, attemptId, links[k].questionId, None, None, None, now, None, false);
      assert BlankAnswers(links[..k + 1], attemptId, firstId, now)
          == BlankAnswers(links[..k], attemptId, firstId, now) + [answer];
      db.answers := db.answers + [answer];
    }
    assert links[..|links|] == links;
  }

  /** StartExamAsync. */
  method StartExam(db: Database, examId: Id, userId: Id, now: Time) returns (r: Result<ExamAttempt>)
    modifies db`examAttempts, db`answers
    ensures var o := StartExamSpec(db.exams, db.paperQuestions, old(db.examAttempts), old(db.answers), examId, userId, now);
            r == o.result && db.examAttempts == o.attempts && db.answers == o.answers
  {
    if !CanUserTakeExam(db.exams, db.examAttempts, examId, userId, now) {
      return Failure(MsgCannotTake);
    }
    var exam := FindExam(db.exams, examId);
    if exam.None? {
      return Failure(MsgExamNotFound);
    }
    var pending := PendingIndex(db.examAttempts, examId, userId);
    if pending.Some? {
      return Success(db.examAttempts[pending.value], MsgResume);
    }
    var attempt := NewAttempt(db.examAttempts, examId, userId, now);
    db.examAttempts := db.examAttempts + [attempt];
    AppendBlankAnswers(db, PaperLinks(db.paperQuestions, exam.value.paperId), attempt.id, now);
    return Success(attempt, MsgStarted);
  }

  // ---------------------------------------------------------------------
  // Saving one answer
  // ---------------------------------------------------------------------

  /** The answer row of this attempt for this question. */
  function AnswerIndex(answers: seq<Answer>, attemptId: Id, questionId: Id): (r: Option<nat>)
    ensures r.Some? ==> r.value < |answers| && answers[r.value].examAttemptId == attemptId
                        && answers[r.value].questionId == questionId && !answers[r.value].isDeleted
    ensures r.Some? ==> forall j :: 0 <= j < r.value ==>
      !(answers[j].examAttemptId == attemptId && answers[j].questionId == questionId && !answers[j].isDeleted)
    ensures r.None? ==> forall j :: 0 <= j < |answers| ==>
      !(answers[j].examAttemptId == attemptId && answers[j].questionId == questionId && !answers[j].isDeleted)
  {
    FirstIndex(answers, (a: Answer) => a.examAttemptId == attemptId && a.questionId == questionId && !a.isDeleted)
  }

  /** elapsed.TotalMinutes > Duration, in exact arithmetic on ticks. A missing
      exam (a broken foreign key) imposes no limit. */
  predicate TimeIsUp(exams: seq<Exam>, attempt: ExamAttempt, now: Time) {
    attempt.startTime.Some? &&
    match ExamById(exams, attempt.examId)
    case None => false
    case Some(exam) => now - attempt.startTime.value > exam.duration * TicksPerMinute
  }

  datatype SaveOutcome = SaveOutcome(result: Result<bool>, answers: seq<Answer>)

  /** SubmitAnswerAsync on the answer table. */
  function SubmitAnswerSpec(exams: seq<Exam>, attempts: seq<ExamAttempt>, answers: seq<Answer>,
                            attemptId: Id, questionId: Id, userAnswer: string, userId: Id, now: Time): (o: SaveOutcome)
    ensures o.result.Failure? ==> o.answers == answers
    ensures o.result.Success? ==> o.result.data
  {
    match AttemptIndex(attempts, attemptId)
    case None => SaveOutcome(Failure(MsgAttemptNotFound), answers)
    case Some(i) =>
      var attempt := attempts[i];
      if attempt.userId != userId then SaveOutcome(Failure(MsgNotOwner), answers)
      else if attempt.isSubmitted then SaveOutcome(Failure(MsgClosedForAnswers), answers)
      else if TimeIsUp(exams, attempt, now) then SaveOutcome(Failure(MsgTimeUp), answers)
      else match AnswerIndex(answers, attemptId, questionId)
        case None => SaveOutcome(Failure(MsgAttemptNotFound), answers)
        case Some(j) =>
          SaveOutcome(Success(true, MsgAnswerSaved),
                      answers[j := answers[j].(userAnswer := Some(userAnswer), updatedAt := Some(now))])
  }

  /** A successful save changes exactly one row (the answer of this attempt and
      question) and in it only UserAnswer and UpdatedAt. */
  lemma {:induction false} SaveChangesOneAnswer(exams: seq<Exam>, attempts: seq<ExamAttempt>, answers: seq<Answer>,
                                                attemptId: Id, questionId: Id, userAnswer: string, userId: Id, now: Time)
    requires SubmitAnswerSpec(exams, attempts, answers, attemptId, questionId, userAnswer, userId, now).result.Success?
    ensures var o := SubmitAnswerSpec(exams, attempts, answers, attemptId, questionId, userAnswer, userId, now);
            var j := AnswerIndex(answers, attemptId, questionId).value;
            && |o.answers| == |answers|
            && o.answers[j] == answers[j].(userAnswer := Some(userAnswer), updatedAt := Some(now))
            && (forall k :: 0 <= k < |answers| && k != j ==> o.answers[k] == answers[k])
  {
    var i := AttemptIndex(attempts, attemptId).value;
    assert AnswerIndex(answers, attemptId, questionId).Some?;
  }

  /** The error checks in their order: a missing attempt, another user's
      attempt, a submitted attempt, an expired time limit, a missing answer row. */
  lemma {:induction false} SaveRejections(exams: seq<Exam>, attempts: seq<ExamAttempt>, answers: seq<Answer>,
                                          attemptId: Id, questionId: Id, userAnswer: string, userId: Id, now: Time)
    ensures var o := SubmitAnswerSpec(exams, attempts, answers, attemptId, questionId, userAnswer, userId, now);
            var ix := AttemptIndex(attempts, attemptId);
            && (ix.None? ==> o.result == Failure(MsgAttemptNotFound))
            && (ix.Some? && attempts[ix.value].userId != userId ==> o.result == Failure(MsgNotOwner))
            && (ix.Some? && attempts[ix.value].userId == userId && attempts[ix.value].isSubmitted ==>
                  o.result == Failure(MsgClosedForAnswers))
            && ((ix.Some? && attempts[ix.value].userId == userId && !attempts[ix.value].isSubmitted &&
                 TimeIsUp(exams, attempts[ix.value], now)) ==> o.result == Failure(MsgTimeUp))
            && ((ix.Some? && attempts[ix.value].userId == userId && !attempts[ix.value].isSubmitted &&
                 !TimeIsUp(exams, attempts[ix.value], now)) ==>
                  (o.result.Success? <==> AnswerIndex(answers, attemptId, questionId).Some?))
  {
  }

  /** Saving twice for the same question keeps only the second answer. */
  lemma {:induction false} SaveLastWriteWins(exams: seq<Exam>, attempts: seq<ExamAttempt>, answers: seq<Answer>,
                                             attemptId: Id, questionId: Id, first: string, second: string,
                                             userId: Id, now1: Time, now2: Time)
    requires SubmitAnswerSpec(exams, attempts, answers, attemptId, questionId, first, userId, now1).result.Success?
    requires SubmitAnswerSpec(exams, attempts, answers, attemptId, questionId, second, userId, now2).result.Success?
    ensures var once := SubmitAnswerSpec(exams, attempts, answers, attemptId, questionId, first, userId, now1).answers;
            SubmitAnswerSpec(exams, attempts, once, attemptId, questionId, second, userId, now2)
              == SubmitAnswerSpec(exams, attempts, answers, attemptId, questionId, second, userId, now2)
  {
    var once := SubmitAnswerSpec(exams, attempts, answers, attemptId, questionId, first, userId, now1).answers;
    var j := AnswerIndex(answers, attemptId, questionId).value;
    SaveChangesOneAnswer(exams, attempts, answers, attemptId, questionId, first, userId, now1);
    assert AnswerIndex(once, attemptId, questionId) == Some(j) by {
      assert forall k :: 0 <= k < j ==> once[k] == answers[k];
      assert once[j].examAttemptId == attemptId && once[j].questionId == questionId && !once[j].isDeleted;
    }
  }

  /** SubmitAnswerAsync. */
  method SubmitAnswer(db: Database, attemptId: Id, questionId: Id, userAnswer: string, userId: Id, now: Time)
    returns (r: Result<bool>)
    modifies db`answers
    ensures var o := SubmitAnswerSpec(db.exams, db.examAttempts, old(db.answers), attemptId, questionId, userAnswer, userId, now);
            r == o.result && db.answers == o.answers
  {
    var i := AttemptIndex(db.examAttempts, attemptId);
    if i.None? {
      return Failure(MsgAttemptNotFound);
    }
    var attempt := db.examAttempts[i.value];
    if attempt.userId != userId {
      return Failure(MsgNotOwner);
    }
    if attempt.isSubmitted {
      return Failure(MsgClosedForAnswers);
    }
    if TimeIsUp(db.exams, attempt, now) {
      return Failure(MsgTimeUp);
    }
    var j := AnswerIndex(db.answers, attemptId, questionId);
    if j.None? {
      return Failure(MsgAttemptNotFound);
    }
    var answer := db.answers[j.value];
    db.answers := db.answers[j.value := answer.(userAnswer := Some(userAnswer), updatedAt := Some(now))];
    return Success(true, MsgAnswerSaved);
  }

  // ---------------------------------------------------------------------
  // Grading
  // ---------------------------------------------------------------------

  /** Trim().ToUpper() */
  function Normalize(s: string): string {
    ToUpper(Trim(s))
  }

  /** Split(',').Select(a => a.Trim()): one option per comma-separated
      piece, none holding a comma or starting or ending in white space. */
  function Tokens(s: string): (r: seq<string>)
    ensures |r| == CountChar(s, ',') + 1
    ensures forall k :: 0 <= k < |r| ==> ',' !in r[k]
    ensures forall k :: 0 <= k < |r| ==> r[k] == [] || (!IsWhite(r[k][0]) && !IsWhite(r[k][|r[k]| - 1]))
  {
    var parts := Split(s, {','});
    SplitJoin(s, ',');
    TrimmedPiecesHaveNo(parts, ',');
    seq(|parts|, k requires 0 <= k < |parts| => Trim(parts[k]))
  }

  /** Trimming a piece keeps a slice of it, so a character the piece lacks
      stays absent. */
  lemma TrimmedPiecesHaveNo(parts: seq<string>, c: char)
    requires forall k, i :: 0 <= k < |parts| && 0 <= i < |parts[k]| ==> parts[k][i] != c
    ensures forall k :: 0 <= k < |parts| ==> c !in Trim(parts[k])
  {
    forall k | 0 <= k < |parts| ensures c !in Trim(parts[k]) {
      var t := Trim(parts[k]);
      var j := |parts[k]| - |TrimStart(parts[k])|;
      forall i | 0 <= i < |t| ensures t[i] != c {
        assert t[i] == parts[k][j + i];
      }
    }
  }

  /** The comparison on already normalised answers. */
  predicate NormalizedMatch(qtype: QuestionType, userAnswer: string, correctAnswer: string) {
    if qtype == MultipleChoice then SortStrings(Tokens(userAnswer)) == SortStrings(Tokens(correctAnswer))
    else userAnswer == correctAnswer
  }

  /** Whether a non-empty answer is correct for a question of this type. */
  predicate AnswerMatches(qtype: QuestionType, userAnswer: string, correctAnswer: string) {
    NormalizedMatch(qtype, Normalize(userAnswer), Normalize(correctAnswer))
  }

  /** A multiple-choice answer is correct exactly when it names the same
      options, each as often, in any order. */
  lemma MultipleChoiceIsOrderInsensitive(userAnswer: string, correctAnswer: string)
    ensures AnswerMatches(MultipleChoice, userAnswer, correctAnswer) <==>
            multiset(Tokens(Normalize(userAnswer))) == multiset(Tokens(Normalize(correctAnswer)))
  {
    SortedStringsEqualIff(Tokens(Normalize(userAnswer)), Tokens(Normalize(correctAnswer)));
  }

  /** Comparison ignores surrounding white space and the case of ASCII letters. */
  lemma {:induction false} NormalizeIgnoresCaseAndSpace(s: string)
    ensures Normalize(ToLower(s)) == Normalize(s)
    ensures Normalize(Trim(s)) == Normalize(s)
  {
    TrimUpper(ToLower(s));
    TrimUpper(s);
    UpperOfLower(s);
    TrimIdempotent(s);
  }

  lemma AnswerMatchIgnoresCase(qtype: QuestionType, userAnswer: string, correctAnswer: string)
    ensures AnswerMatches(qtype, ToLower(userAnswer), correctAnswer) == AnswerMatches(qtype, userAnswer, correctAnswer)
  {
    NormalizeIgnoresCaseAndSpace(userAnswer);
  }

  /** What grading does with one answer of the attempt. */
  datatype Grade = Skipped | Subjective | Objective(isCorrect: bool, score: int)

  /** Grades one answer given its question and the paper link of that question. */
  function GradeAnswer(a: Answer, question: Option<Question>, link: Option<PaperQuestion>): (g: Grade)
    ensures (question.None? || link.None?) <==> g.Skipped?
    ensures g.Subjective? <==> question.Some? && link.Some? && !question.value.qtype.IsObjective()
    ensures g.Objective? ==> g.score == if g.isCorrect then link.value.score else 0
    ensures g.Objective? ==>
      (g.isCorrect <==> a.userAnswer.Some? && a.userAnswer.value != "" &&
                        AnswerMatches(question.value.qtype, a.userAnswer.value, question.value.correctAnswer))
  {
    if question.None? || link.None? then Skipped
    else
      var q := question.value;
      if !q.qtype.IsObjective() then Subjective
      else if a.userAnswer.None? || a.userAnswer.value == "" then Objective(false, 0)
      else
        var ok := AnswerMatches(q.qtype, a.userAnswer.value, q.correctAnswer);
        Objective(ok, if ok then link.value.score else 0)
  }

  /** What SubmitExamAsync reads besides the answers: the attempt, its paper's
      links and the question table. */
  datatype GradingContext = GradingContext(attemptId: Id, links: seq<PaperQuestion>, questions: seq<Question>)

  /** Answers the attempt loads: its own, not soft-deleted. */
  predicate Loaded(c: GradingContext, a: Answer) {
    a.examAttemptId == c.attemptId && !a.isDeleted
  }

  /** The paper link of a question: FirstOrDefault over the paper's links. */
  function LinkFor(links: seq<PaperQuestion>, questionId: Id): (r: Option<PaperQuestion>)
    ensures r.Some? ==> r.value in links && r.value.questionId == questionId
    ensures r.None? ==> forall pq :: pq in links ==> pq.questionId != questionId
  {
    match FirstIndex(links, (pq: PaperQuestion) => pq.questionId == questionId)
    case None => None
    case Some(i) => Some(links[i])
  }

  function GradeOf(c: GradingContext, a: Answer): Grade {
    if !Loaded(c, a) then Skipped
    else
      var q := QuestionById(c.questions, a.questionId);
      GradeAnswer(a, q, if q.Some? then LinkFor(c.links, q.value.id) else None)
  }

  /** The answer row after grading: an objective answer gets Score and IsCorrect. */
  function Graded(c: GradingContext, a: Answer): Answer {
    match GradeOf(c, a)
    case Objective(ok, s) => a.(score := Some(s), isCorrect := Some(ok))
    case _ => a
  }

  function GradeAll(c: GradingContext, answers: seq<Answer>): (r: seq<Answer>)
    ensures |r| == |answers| && forall k :: 0 <= k < |answers| ==> r[k] == Graded(c, answers[k])
  {
    seq(|answers|, k requires 0 <= k < |answers| => Graded(c, answers[k]))
  }

  function GradeScore(g: Grade): int {
    if g.Objective? then g.score else 0
  }

  /** The objective subtotal: the sum of the scores of the graded answers. */
  function ObjectiveTotal(c: GradingContext, answers: seq<Answer>): int
    decreases |answers|
  {
    if answers == [] then 0
    else ObjectiveTotal(c, answers[..|answers| - 1]) + GradeScore(GradeOf(c, answers[|answers| - 1]))
  }

  predicate HasSubjective(c: GradingContext, answers: seq<Answer>) {
    exists k :: 0 <= k < |answers| && GradeOf(c, answers[k]).Subjective?
  }

  /** The objective subtotal is never negative when the paper's scores are not,
      and never exceeds the sum of the link scores of the answers graded. */
  lemma {:induction false} ObjectiveTotalBounds(c: GradingContext, answers: seq<Answer>)
    requires forall pq :: pq in c.links ==> pq.score >= 0
    ensures 0 <= ObjectiveTotal(c, answers)
    ensures ObjectiveTotal(c, answers) <= SumOf(answers, (a: Answer) => var g := GradeOf(c, a);
              if g.Objective? then LinkFor(c.links, a.questionId).value.score else 0)
    decreases |answers|
  {
    if answers != [] {
      ObjectiveTotalBounds(c, answers[..|answers| - 1]);
      var a := answers[|answers| - 1];
      var g := GradeOf(c, a);
      if g.Objective? {
        var q := QuestionById(c.questions, a.questionId);
        assert LinkFor(c.links, q.value.id).Some?;
      }
    }
  }

  datatype SubmitOutcome = SubmitOutcome(result: Result<ExamAttempt>, attempts: seq<ExamAttempt>, answers: seq<Answer>)

  /** The grading context of an attempt: its exam's paper links (none when the
      exam row is missing). */
  function ContextOf(exams: seq<Exam>, paperQuestions: seq<PaperQuestion>, questions: seq<Question>, attempt: ExamAttempt): GradingContext {
    var links := match ExamById(exams, attempt.examId)
      case None => []
      case Some(e) => PaperLinks(paperQuestions, e.paperId);
    GradingContext(attempt.id, links, questions)
  }

  /** The attempt after submission: submitted at now, and graded with the
      objective subtotal when no subjective answer was seen. */
  function FinishAttempt(attempt: ExamAttempt, subjective: bool, total: int, now: Time): (a: ExamAttempt)
    ensures a.isSubmitted && a.submitTime == Some(now)
    ensures a.isGraded == (attempt.isGraded || !subjective)
    ensures a.totalScore == if subjective then attempt.totalScore else Some(total)
    ensures a == attempt.(isSubmitted := a.isSubmitted, submitTime := a.submitTime,
                          isGraded := a.isGraded, totalScore := a.totalScore)
  {
    var submitted := attempt.(isSubmitted := true, submitTime := Some(now));
    if subjective then submitted else submitted.(isGraded := true, totalScore := Some(total))
  }

  function SubmitMessage(subjective: bool): string {
    if subjective then MsgAwaitingManual else MsgAutoGraded
  }

  /** SubmitExamAsync on the attempt and answer tables. */
  function SubmitExamSpec(exams: seq<Exam>, paperQuestions: seq<PaperQuestion>, questions: seq<Question>,
                          attempts: seq<ExamAttempt>, answers: seq<Answer>,
                          attemptId: Id, userId: Id, now: Time): (o: SubmitOutcome)
    ensures o.result.Failure? ==> o.attempts == attempts && o.answers == answers
  {
    match AttemptIndex(attempts, attemptId)
    case None => SubmitOutcome(Failure(MsgAttemptNotFound), attempts, answers)
    case Some(i) =>
      var attempt := attempts[i];
      if attempt.userId != userId then SubmitOutcome(Failure(MsgNotOwner), attempts, answers)
      else if attempt.isSubmitted then SubmitOutcome(Failure(MsgAlreadySubmitted), attempts, answers)
      else
        var c := ContextOf(exams, paperQuestions, questions, attempt);
        var subjective := HasSubjective(c, answers);
        var final := FinishAttempt(attempt, subjective, ObjectiveTotal(c, answers), now);
        SubmitOutcome(Success(final, SubmitMessage(subjective)), attempts[i := final], GradeAll(c, answers))
  }

  /** A submitted attempt is marked submitted at now. An attempt not graded
      before becomes graded, with the objective subtotal as its score, exactly
      when no subjective answer was seen; otherwise its score stays as it was
      (unset for an attempt started by StartExam) and it waits for manual
      grading. No other attempt changes. */
  lemma {:induction false} SubmitGradesAllOrNothing(exams: seq<Exam>, paperQuestions: seq<PaperQuestion>, questions: seq<Question>,
                                                    attempts: seq<ExamAttempt>, answers: seq<Answer>,
                                                    attemptId: Id, userId: Id, now: Time)
    requires SubmitExamSpec(exams, paperQuestions, questions, attempts, answers, attemptId, userId, now).result.Success?
    ensures var o := SubmitExamSpec(exams, paperQuestions, questions, attempts, answers, attemptId, userId, now);
            var i := AttemptIndex(attempts, attemptId).value;
            var before := attempts[i];
            var c := ContextOf(exams, paperQuestions, questions, before);
            var a := o.result.data;
            && before.userId == userId && !before.isSubmitted
            && a.isSubmitted && a.submitTime == Some(now)
            && (!before.isGraded ==> (a.isGraded <==> !HasSubjective(c, answers)))
            && (!HasSubjective(c, answers) ==> a.totalScore == Some(ObjectiveTotal(c, answers)) && o.result.message == MsgAutoGraded)
            && (HasSubjective(c, answers) ==> a.totalScore == before.totalScore && o.result.message == MsgAwaitingManual)
            && o.attempts == attempts[i := a]
            && o.answers == GradeAll(c, answers)
  {
    var i := AttemptIndex(attempts, attemptId).value;
    assert attempts[i].userId == userId && !attempts[i].isSubmitted;
  }

  /** Grading writes only the objective answers of this attempt; every other
      row, including answers that have no link in the paper, is unchanged. */
  lemma GradingTouchesOnlyObjectiveAnswers(c: GradingContext, answers: seq<Answer>, k: nat)
    requires k < |answers|
    ensures !GradeOf(c, answers[k]).Objective? ==> GradeAll(c, answers)[k] == answers[k]
    ensures !Loaded(c, answers[k]) ==> GradeAll(c, answers)[k] == answers[k]
    ensures GradeOf(c, answers[k]).Objective? ==>
      GradeAll(c, answers)[k] == answers[k].(score := Some(GradeOf(c, answers[k]).score),
                                             isCorrect := Some(GradeOf(c, answers[k]).isCorrect))
  {
  }

  /** A correct objective answer earns the paper's score for the question, not
      the question's own score; an empty or missing answer earns zero. */
  lemma ScoreComesFromPaper(c: GradingContext, a: Answer)
    requires GradeOf(c, a).Objective?
    ensures var q := QuestionById(c.questions, a.questionId).value;
            var link := LinkFor(c.links, q.id).value;
            && GradeOf(c, a).score == (if GradeOf(c, a).isCorrect then link.score else 0)
            && (a.userAnswer.None? || a.userAnswer.value == "" ==> GradeOf(c, a) == Objective(false, 0))
  {
  }

  /** Rewriting the found attempt row with one of the same id and flag keeps
      it the row found for that id. */
  lemma AttemptIndexAfterUpdate(attempts: seq<ExamAttempt>, id: Id, a: ExamAttempt)
    requires AttemptIndex(attempts, id).Some?
    requires a.id == id && !a.isDeleted
    ensures AttemptIndex(attempts[AttemptIndex(attempts, id).value := a], id) == AttemptIndex(attempts, id)
  {
    var i := AttemptIndex(attempts, id).value;
    var updated := attempts[i := a];
    assert updated[i].id == id && !updated[i].isDeleted;
    var r := AttemptIndex(updated, id);
    assert r.Some? && r.value <= i;
    assert forall j :: 0 <= j < i ==> updated[j] == attempts[j];
  }

  /** After a successful submit the same attempt id still finds the same row,
      now marked submitted. */
  lemma {:induction false} SubmittedRowFound(exams: seq<Exam>, paperQuestions: seq<PaperQuestion>, questions: seq<Question>,
                                             attempts: seq<ExamAttempt>, answers: seq<Answer>,
                                             attemptId: Id, userId: Id, now: Time)
    requires SubmitExamSpec(exams, paperQuestions, questions, attempts, answers, attemptId, userId, now).result.Success?
    ensures var o := SubmitExamSpec(exams, paperQuestions, questions, attempts, answers, attemptId, userId, now);
            var i := AttemptIndex(attempts, attemptId).value;
            && AttemptIndex(o.attempts, attemptId) == Some(i)
            && o.attempts[i].isSubmitted && o.attempts[i].userId == userId
  {
    var i := AttemptIndex(attempts, attemptId).value;
    var attempt := attempts[i];
    var c := ContextOf(exams, paperQuestions, questions, attempt);
    var final := FinishAttempt(attempt, HasSubjective(c, answers), ObjectiveTotal(c, answers), now);
    assert SubmitExamSpec(exams, paperQuestions, questions, attempts, answers, attemptId, userId, now).attempts
        == attempts[i := final];
    AttemptIndexAfterUpdate(attempts, attemptId, final);
  }

  /** Once submitted, an attempt accepts neither another submit nor another answer. */
  lemma {:induction false} SubmitIsFinal(exams: seq<Exam>, paperQuestions: seq<PaperQuestion>, questions: seq<Question>,
                                         attempts: seq<ExamAttempt>, answers: seq<Answer>,
                                         attemptId: Id, userId: Id, now: Time, later: Time,
                                         questionId: Id, userAnswer: string)
    requires SubmitExamSpec(exams, paperQuestions, questions, attempts, answers, attemptId, userId, now).result.Success?
    ensures var o := SubmitExamSpec(exams, paperQuestions, questions, attempts, answers, attemptId, userId, now);
            SubmitExamSpec(exams, paperQuestions, questions, o.attempts, o.answers, attemptId, userId, later).result
              == Failure(MsgAlreadySubmitted)
    ensures var o := SubmitExamSpec(exams, paperQuestions, questions, attempts, answers, attemptId, userId, now);
            SubmitAnswerSpec(exams, o.attempts, o.answers, attemptId, questionId, userAnswer, userId, later).result
              == Failure(MsgClosedForAnswers)
  {
    SubmittedRowFound(exams, paperQuestions, questions, attempts, answers, attemptId, userId, now);
  }

  lemma ObjectiveTotalStep(c: GradingContext, s: seq<Answer>, k: nat)
    requires k < |s|
    ensures ObjectiveTotal(c, s[..k + 1]) == ObjectiveTotal(c, s[..k]) + GradeScore(GradeOf(c, s[k]))
  {
    assert s[..k + 1][..k] == s[..k];
  }

  lemma HasSubjectiveStep(c: GradingContext, s: seq<Answer>, k: nat)
    requires k < |s|
    ensures HasSubjective(c, s[..k + 1]) <==> HasSubjective(c, s[..k]) || GradeOf(c, s[k]).Subjective?
  {
    assert forall j :: 0 <= j < k ==> s[..k + 1][j] == s[..k][j];
    if GradeOf(c, s[k]).Subjective? {
      assert s[..k + 1][k] == s[k];
    }
  }

  /** The grading loop of SubmitExamAsync over the answer table: grades every
      answer of the attempt in place and returns the objective subtotal and
      whether a subjective answer was seen. */
  method GradeAnswers(db: Database, c: GradingContext) returns (totalScore: int, hasSubjective: bool)
    modifies db`answers
    ensures db.answers == GradeAll(c, old(db.answers))
    ensures totalScore == ObjectiveTotal(c, old(db.answers))
    ensures hasSubjective == HasSubjective(c, old(db.answers))
  {
    totalScore := 0;
    hasSubjective := false;
    ghost var original := db.answers;
    var k := 0;
    while k < |db.answers|
      invariant 0 <= k <= |original| == |db.answers|
      invariant forall j :: 0 <= j < k ==> db.answers[j] == Graded(c, original[j])
      invariant forall j :: k <= j < |original| ==> db.answers[j] == original[j]
      invariant totalScore == ObjectiveTotal(c, original[..k])
      invariant hasSubjective == HasSubjective(c, original[..k])
    {
      var answer := db.answers[k];
      var g := GradeOf(c, answer);
      ObjectiveTotalStep(c, original, k);
      HasSubjectiveStep(c, original, k);
      if g.Objective? {
        db.answers := db.answers[k := answer.(score := Some(g.score), isCorrect := Some(g.isCorrect))];
        totalScore := totalScore + g.score;
      } else if g.Subjective? {
        hasSubjective := true;
      }
      k := k + 1;
    }
    assert original[..k] == original;
  }

  /** SubmitExamAsync: marks the attempt submitted, grades its answers, and
      marks it graded with the subtotal when no subjective answer was seen. */
  method SubmitExam(db: Database, attemptId: Id, userId: Id, now: Time) returns (r: Result<ExamAttempt>)
    modifies db`examAttempts, db`answers
    ensures var o := SubmitExamSpec(db.exams, db.paperQuestions, db.questions, old(db.examAttempts), old(db.answers),
                                    attemptId, userId, now);
            r == o.result && db.examAttempts == o.attempts && db.answers == o.answers
  {
    var i := AttemptIndex(db.examAttempts, attemptId);
    if i.None? {
      return Failure(MsgAttemptNotFound);
    }
    var attempt := db.examAttempts[i.value];
    if attempt.userId != userId {
      return Failure(MsgNotOwner);
    }
    if attempt.isSubmitted {
      return Failure(MsgAlreadySubmitted);
    }
    var c := ContextOf(db.exams, db.paperQuestions, db.questions, attempt);
    ghost var final := FinishAttempt(attempt, HasSubjective(c, db.answers), ObjectiveTotal(c, db.answers), now);
    attempt := attempt.(isSubmitted := true, submitTime := Some(now));

    var totalScore, hasSubjective := GradeAnswers(db, c);

    if !hasSubjective {
      attempt := attempt.(isGraded := true, totalScore := Some(totalScore));
    }
    assert attempt == final;
    db.examAttempts := db.examAttempts[i.value := attempt];
    return Success(attempt, SubmitMessage(hasSubjective));
  }

  // ---------------------------------------------------------------------
  // Listing a user's attempts
  // ---------------------------------------------------------------------

  predicate CreatedAtDesc(a: ExamAttempt, b: ExamAttempt) {
    a.createdAt >= b.createdAt
  }

  /** GetUserExamAttemptsAsync: the user's visible attempts, newest first. */
  function GetUserExamAttempts(attempts: seq<ExamAttempt>, userId: Id): (r: seq<ExamAttempt>)
    ensures forall a :: multiset(r)[a] == if a.userId == userId && !a.isDeleted then multiset(attempts)[a] else 0
    ensures forall i, j :: 0 <= i < j < |r| ==> r[i].createdAt >= r[j].createdAt
  {
    var p := (a: ExamAttempt) => a.userId == userId && !a.isDeleted;
    var found := Filter(attempts, p);
    forall a ensures multiset(found)[a] == if a.userId == userId && !a.isDeleted then multiset(attempts)[a] else 0 {
      FilterMultiset(attempts, p, a);
    }
    assert TotalPreorder((a: ExamAttempt, b: ExamAttempt) => CreatedAtDesc(a, b));
    SortBy(found, (a: ExamAttempt, b: ExamAttempt) => CreatedAtDesc(a, b))
  }
}
