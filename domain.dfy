/** Entities and enumerations of the question bank. Every record that derives
    from BaseEntity carries its id, its creation and update instants and the
    soft-delete flag; the join rows (question-knowledge point, paper-question)
    carry neither id nor flag. */
module Domain {
  import opened Common

  // ---------------------------------------------------------------------
  // Enumerations with their stored integer codes
  // ---------------------------------------------------------------------

  /** QuestionType. `Unset` is the value 0 a C# enum field holds before it is
      assigned; it is not a declared member, but an import record can carry it. */
  datatype QuestionType = Unset | SingleChoice | MultipleChoice | TrueFalse | FillBlank | ShortAnswer | Material
  {
    function Code(): int {
      match this
      case Unset => 0
      case SingleChoice => 1
      case MultipleChoice => 2
      case TrueFalse => 3
      case FillBlank => 4
      case ShortAnswer => 5
      case Material => 6
    }

    /** The types the exam engine grades automatically. */
    predicate IsObjective() {
      this == SingleChoice || this == MultipleChoice || this == TrueFalse
    }

    /** The types whose import record must carry options. */
    predicate IsChoice() {
      this == SingleChoice || this == MultipleChoice
    }
  }

  datatype DifficultyLevel = VeryEasy | Easy | Medium | Hard | VeryHard
  {
    function Code(): int {
      match this
      case VeryEasy => 1
      case Easy => 2
      case Medium => 3
      case Hard => 4
      case VeryHard => 5
    }
  }

  datatype QuestionStatus = Disabled | Enabled

  datatype ExamStatus = Draft | Published | InProgress | Ended | Cancelled
  {
    function Code(): int {
      match this
      case Draft => 0
      case Published => 1
      case InProgress => 2
      case Ended => 3
      case Cancelled => 4
    }
  }

  datatype UserRole = Student | Teacher | Admin
  {
    function Code(): int {
      match this
      case Student => 1
      case Teacher => 2
      case Admin => 3
    }
  }

  lemma ExamStatusCodeInjective(a: ExamStatus, b: ExamStatus)
    requires a.Code() == b.Code()
    ensures a == b
  {
  }

  // ---------------------------------------------------------------------
  // Records
  // ---------------------------------------------------------------------

  datatype User = User(
    id: Id, username: string, email: string, phone: Option<string>, fullName: string,
    role: UserRole, isActive: bool, lastLoginAt: Option<Time>,
    createdAt: Time, updatedAt: Option<Time>, isDeleted: bool)

  datatype Question = Question(
    id: Id, qtype: QuestionType, content: string, options: Option<string>,
    correctAnswer: string, explanation: Option<string>, difficulty: DifficultyLevel,
    score: int, chapter: Option<string>, status: QuestionStatus, creatorId: Option<Id>,
    createdAt: Time, updatedAt: Option<Time>, isDeleted: bool)

  /** Row of the question / knowledge point join table, keyed by the pair. */
  datatype QuestionKnowledgePoint = QuestionKnowledgePoint(questionId: Id, knowledgePointId: Id)

  datatype KnowledgePoint = KnowledgePoint(
    id: Id, name: string, description: Option<string>, parentId: Option<Id>,
    level: int, sortOrder: int,
    createdAt: Time, updatedAt: Option<Time>, isDeleted: bool)

  datatype Paper = Paper(
    id: Id, title: string, description: Option<string>, totalScore: int, duration: int,
    creatorId: Id, createdAt: Time, updatedAt: Option<Time>, isDeleted: bool)

  /** Row of the paper / question join table, keyed by the pair, with the
      question's position and its score within this paper. */
  datatype PaperQuestion = PaperQuestion(paperId: Id, questionId: Id, questionOrder: int, score: int)

  datatype Exam = Exam(
    id: Id, title: string, description: Option<string>, paperId: Id, creatorId: Id,
    status: ExamStatus, startTime: Option<Time>, endTime: Option<Time>,
    duration: int, maxAttempts: int,
    createdAt: Time, updatedAt: Option<Time>, isDeleted: bool)

  datatype ExamAttempt = ExamAttempt(
    id: Id, examId: Id, userId: Id, attemptNumber: int,
    startTime: Option<Time>, submitTime: Option<Time>, totalScore: Option<int>,
    isSubmitted: bool, isGraded: bool,
    createdAt: Time, updatedAt: Option<Time>, isDeleted: bool)

  datatype Answer = Answer(
    id: Id, examAttemptId: Id, questionId: Id, userAnswer: Option<string>,
    score: Option<int>, isCorrect: Option<bool>,
    createdAt: Time, updatedAt: Option<Time>, isDeleted: bool)

  datatype WrongQuestion = WrongQuestion(
    id: Id, userId: Id, questionId: Id, wrongCount: int, lastWrongAt: Time, isRemoved: bool,
    createdAt: Time, updatedAt: Option<Time>, isDeleted: bool)

  datatype FavoriteQuestion = FavoriteQuestion(
    id: Id, userId: Id, questionId: Id, note: Option<string>,
    createdAt: Time, updatedAt: Option<Time>, isDeleted: bool)

  datatype QuestionNote = QuestionNote(
    id: Id, userId: Id, questionId: Id, content: string,
    createdAt: Time, updatedAt: Option<Time>, isDeleted: bool)

  // ---------------------------------------------------------------------
  // Questions by id
  // ---------------------------------------------------------------------

  predicate DifferentIds(a: Question, b: Question) {
    a.id != b.id
  }

  /** The primary key of Questions. */
  predicate QuestionIdsUnique(questions: seq<Question>) {
    Pairwise(questions, DifferentIds)
  }

  predicate IsVisibleQuestion(q: Question, id: Id) {
    q.id == id && !q.isDeleted
  }

  /** The question exists and is not deleted. */
  predicate QuestionFound(questions: seq<Question>, id: Id) {
    exists j :: 0 <= j < |questions| && IsVisibleQuestion(questions[j], id)
  }

  // ---------------------------------------------------------------------
  // Id projections, used to draw fresh ids
  // ---------------------------------------------------------------------

  function UserIds(s: seq<User>): seq<Id> { seq(|s|, i requires 0 <= i < |s| => s[i].id) }
  function QuestionIds(s: seq<Question>): seq<Id> { seq(|s|, i requires 0 <= i < |s| => s[i].id) }
  function KnowledgePointIds(s: seq<KnowledgePoint>): seq<Id> { seq(|s|, i requires 0 <= i < |s| => s[i].id) }
  function PaperIds(s: seq<Paper>): seq<Id> { seq(|s|, i requires 0 <= i < |s| => s[i].id) }
  function ExamIds(s: seq<Exam>): seq<Id> { seq(|s|, i requires 0 <= i < |s| => s[i].id) }
  function AttemptIds(s: seq<ExamAttempt>): seq<Id> { seq(|s|, i requires 0 <= i < |s| => s[i].id) }
  function AnswerIds(s: seq<Answer>): seq<Id> { seq(|s|, i requires 0 <= i < |s| => s[i].id) }
  function WrongQuestionIds(s: seq<WrongQuestion>): seq<Id> { seq(|s|, i requires 0 <= i < |s| => s[i].id) }
  function FavoriteIds(s: seq<FavoriteQuestion>): seq<Id> { seq(|s|, i requires 0 <= i < |s| => s[i].id) }
  function NoteIds(s: seq<QuestionNote>): seq<Id> { seq(|s|, i requires 0 <= i < |s| => s[i].id) }
}
