/** The relational store behind the services, as one object whose fields are
    the tables. Services read and reassign whole tables; each service method
    names in its `modifies` clause exactly the tables it writes. */
module Store {
  import opened Domain

  class Database {
    var users: seq<User>
    var questions: seq<Question>
    var questionKnowledgePoints: seq<QuestionKnowledgePoint>
    var knowledgePoints: seq<KnowledgePoint>
    var papers: seq<Paper>
    var paperQuestions: seq<PaperQuestion>
    var exams: seq<Exam>
    var examAttempts: seq<ExamAttempt>
    var answers: seq<Answer>
    var wrongQuestions: seq<WrongQuestion>
    var favoriteQuestions: seq<FavoriteQuestion>
    var questionNotes: seq<QuestionNote>

    /** An empty database. */
    constructor ()
      ensures users == [] && questions == [] && questionKnowledgePoints == []
      ensures knowledgePoints == [] && papers == [] && paperQuestions == []
      ensures exams == [] && examAttempts == [] && answers == []
      ensures wrongQuestions == [] && favoriteQuestions == [] && questionNotes == []
    {
      users, questions, questionKnowledgePoints := [], [], [];
      knowledgePoints, papers, paperQuestions := [], [], [];
      exams, examAttempts, answers := [], [], [];
      wrongQuestions, favoriteQuestions, questionNotes := [], [], [];
    }
  }
}
